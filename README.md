# moneypandas core, modelled in Dafny

moneypandas is a pandas extension type for money. A column is a `MoneyArray`.
Its storage is a numpy record buffer with one `(va, cu)` pair per slot: a float
amount and a currency code of at most three characters. A missing slot has the
empty code. The array also has an optional `default_money_code`.

This project models three parts of it:

- the text grammars that recognise money (`moneypandas/dtypes.py`);
- the parser that turns scalars, strings, pairs, `Money` objects and existing
  arrays into records (`moneypandas/parser.py`);
- the array operations of `moneypandas/money_array.py`: the dtype string, `isna`,
  `==` and `equals`, the four ordering operators, `take`, item assignment,
  `to_currency`, `to_decimals` and the `min`/`max`/`sum`/`mean` reductions.

Layout:

- `wrappers.dfy`: `Option` and `Result`.
- `money.dfy`: the record, the three-character code field (`Store`), the exchange
  rate source, and the errors the source raises.
- `dtypes.dfy`: the number sub-pattern `-?\d*\.?\d*\d`, the three money grammars,
  the loop that keeps the last grammar matching, and `is_money`.
- `parser.dfy`: `_as_money_object`, `_to_money_array` and `to_money`.
- `codes.dfy`: the distinct currencies of a buffer, in `np.unique` order.
- `reductions.dfy`: `_reduce` with `_min`, `_max` and `_sum`.
- `buffer_ops.dfy`: the array operations as functions on the record buffer.
- `money_type.dfy`: `MoneyType.construct_from_string`.
- `money_array.dfy`: the `MoneyArray` class. Its `data` is a Dafny `array<Record>`.
  The methods that work slot by slot (`Order`, `Take`, `SetItem`, `ToCurrency`,
  `ToDecimals`) are loops. Each is proved equal to the buffer function that
  specifies it.

The currency symbol table of `iso4217parse` is a parameter (`SymbolTable`, a map
from a symbol character to a code). So is the exchange rate behind `XMoney.to`
(`RateSource`). Conversion is modelled as multiplication by a rate for each pair
of codes.

Apart from the symbol grammar (see "Left out"), the model follows the code as
written, including where it differs from what its comments and docstrings
suggest. Lemmas exhibit these behaviours:

- When several grammars match a string, the last one wins
  (`Parser.TextTakesLastMatchingGrammar`). With a symbol table whose symbols are
  not digits, capitals, `.` or `-`, at most one grammar matches at all
  (`Dtypes.AtMostOneGrammarMatches`).
- `_to_money_array` given a `MoneyArray` returns the caller's default code and
  drops the array's own (`Parser.ToMoneyDropsSourceDefault`). Building a
  `MoneyArray` from another one shares its buffer (`MoneyArrays.MoneyArray.Sharing`).
- `construct_from_string` keeps the whole match `money[XYZ]` as the default code.
  No code path hands that default to an array. If one did, a number parsed with it
  would be stored with the code `mon` (`MoneyTypes.DtypeDefaultStoresMon`).
- `__le__` computes `<`, and `__ge__` computes `>=`
  (`BufferOps.LessOrEqualIsStrict`, `BufferOps.LessOrEqualIsNotMirrorOfGreaterOrEqual`).
- A comparison at a present pair in two different codes reads the non-existent
  attribute `self.other` and fails (`BufferOps.OrderingContract`).
- On the single-currency path `mean` is the sum (`Reductions.SingleCurrencyMeanIsSum`).
  On that path the zero amount of a missing slot takes part in `min`, `max` and `sum`
  (`Reductions.MissingZeroEntersTheMinimum`); a column with no present slot and no
  default code cannot be reduced at all, since `XMoney` refuses the empty currency.
  On the mixed path, with no default, the target is the smallest code, not a
  "first" one (`Reductions.MixedTargetIsSmallestCode`).
- `to_decimals` with no target and no default always fails. With one currency,
  it fails because a set cannot be subscripted. With a code, it still fails on an
  empty array, because `np.vectorize` without `otypes` refuses a size-0 column
  (`BufferOps.DecimalsNeedACode`).
- Assigning a `(amount, code)` pair to one slot fails. `to_money` treats the pair as
  a list of two scalars, and the bare code is not a number
  (`BufferOps.AssignPairFails`, `Parser.ToMoneyOfAPair`).
- A string that no grammar matches and that is not a float makes `np.float64`
  raise a `ValueError`. The `except TypeError` does not catch it, so the value
  never reaches "Could not parse" (`Parser.NumbersNeedADefault`).
- `take` with fill from an empty array and an index other than `-1` raises an
  `IndexError` (`Error.TakeFromEmpty`), not a `ValueError`.

## Model

| member | source | states |
|---|---|---|
| Money.Store | moneypandas/money_array.py:30 | writing a record into the buffer (the `U3` code field, filled at parser.py:55) keeps its amount and cuts a longer code to its first three characters; a storable record is unchanged, and missingness is preserved |
| Money.ConvertAdditive | moneypandas/money_array.py:160-195 | converting a sum between two codes is the sum of the conversions, which the mixed-currency reduction relies on |
| Dtypes.NumberPrefix | moneypandas/dtypes.py:24 | the amount sub-pattern `-?\d*\.?\d*\d` (without sign) matches a prefix that is a well-formed number text |
| Dtypes.NumberPrefixIsLongest | moneypandas/dtypes.py:24 | the prefix matched is the longest number text the string starts with, and none is matched when none exists |
| Dtypes.NumberPrefixForced | moneypandas/dtypes.py:24 | a number text followed by neither a digit nor a point is exactly the prefix matched |
| Dtypes.TrailingPointIsNotMatched | moneypandas/dtypes.py:24 | the pattern needs a final digit: in `5.` only `5` is matched |
| Dtypes.DigitsAreNumberText | moneypandas/dtypes.py:28 | the decimal digits of any natural number are a number text of `\d*\.?\d*\d` whose value is that number |
| Dtypes.MatchSymbolPrefixed | moneypandas/dtypes.py:20-21 | a match of the symbol grammar starts with a known symbol, possibly after a minus, and carries the code the table gives that symbol |
| Dtypes.MatchCodePrefixed | moneypandas/dtypes.py:24-25 | a match of the code-first grammar starts with three capitals and carries them as its code |
| Dtypes.MatchCodeSuffixed | moneypandas/dtypes.py:28-29 | a match of the code-last grammar starts with a minus, a point or a digit and carries three capitals as its code |
| Dtypes.CodePrefixedRoundTrip | moneypandas/dtypes.py:24-25 | a code, spaces, a signed number text and anything not continuing the number parse back to that code and that signed amount |
| Dtypes.CodeSuffixedRoundTrip | moneypandas/dtypes.py:28-29 | a signed number text, spaces, a code and any suffix parse back to that amount and code |
| Dtypes.SymbolPrefixedRoundTrip | moneypandas/dtypes.py:20-21 | an optional minus, a symbol and a number text parse back to that signed amount in the symbol's currency, whenever the minus sign is not itself a symbol |
| Dtypes.ScanFindsLastMatch | moneypandas/parser.py:75-80 | the loop over the grammars yields a record iff some grammar matches, and then the record of the last grammar that matches |
| Dtypes.AtMostOneGrammarMatches | moneypandas/dtypes.py:18-31 | when no symbol is a digit, a capital, a point or a minus, the three grammars exclude each other |
| Dtypes.LastMatchIsFirstMatch | moneypandas/parser.py:75-80 | under that condition, keeping the last match is the same as keeping the first one |
| Dtypes.MatchGrammar | moneypandas/dtypes.py:18-31 | a match of the symbol grammar carries a code from the symbol table; a match of the other two carries three capitals |
| Dtypes.ScanGrammars | moneypandas/parser.py:75-80 | the loop over the grammars leaves either what it started with or the record of one of the grammars |
| Dtypes.IsMoney | moneypandas/dtypes.py:33-42 | `is_money` is true for a string iff some grammar matches a prefix, true for an integer, false for other values, and has no result for bytes |
| Parser.AsMoneyObject | moneypandas/parser.py:57-104 | stored records, `Money` objects and the three missing sentinels always parse; the errors are the parser's own; "Currency code is unavailable" is raised only for a number or a string and only when no default code is set; any other object fails with "Could not parse" (:104) |
| Parser.MissingSentinels | moneypandas/parser.py:69-71 | `None`, NaN and the empty string parse to the missing record |
| Parser.MissingOnlyFromSentinels | moneypandas/parser.py:57-104 | for a string, a number, `None`, NaN or any other plain scalar, and a symbol table with no empty code, a missing record comes from exactly those three sentinels |
| Parser.RecordsAndMoneyPassThrough | moneypandas/parser.py:66-74 | a stored record parses to itself; a `Money` object parses to its amount and currency |
| Parser.TextTakesLastMatchingGrammar | moneypandas/parser.py:75-80 | a string parses to the record of the last grammar that matches it |
| Parser.NumbersNeedADefault | moneypandas/parser.py:89-104 | a number, or a string no grammar matches but `float` accepts, takes the default code when one is set, and otherwise fails with "Currency code is unavailable"; other strings fail with numpy's uncaught `ValueError` |
| Parser.PairRule | moneypandas/parser.py:82-90 | a two-element list-like inside a list parses to `(np.float64(first), str(second))`: a number or numeric string first and a string (or `None`) second give that record; a non-numeric string first raises numpy's `ValueError`; only a number or a string supplies the amount; the default code plays no part |
| Parser.ParseCodeFirst | moneypandas/parser.py:75-80 | `EUR 123` and its variants parse to the amount and code written |
| Parser.ParseCodeLast | moneypandas/parser.py:75-80 | `97GBP` and its variants parse to the amount and code written |
| Parser.ToMoneyOfAnIntegerLiteral | moneypandas/parser.py:75-80 | `to_money(str(n) + ' GBP')` gives back the one record `n GBP` for every integer `n`, whatever the symbol table and default code |
| Parser.ParseSymbolFirst | moneypandas/parser.py:75-80 | a symbol followed by a number parses to that amount in the symbol's currency |
| Parser.ParseAll | moneypandas/parser.py:53-55 | the comprehension succeeds iff every element parses; then the buffer holds each element's stored record in order; otherwise the first failing element's error is raised |
| Parser.ReparseIsIdentity | moneypandas/parser.py:66-68 | re-parsing a stored buffer, as the constructor does for `take` and `to_currency`, gives the same buffer |
| Parser.ToMoneyArray | moneypandas/parser.py:44-55 | an existing array's buffer is returned as it is, with the caller's default; a sequence is parsed element by element |
| Parser.ToMoneyWrapsAScalar | moneypandas/parser.py:33-34 | a scalar that is not list-like is wrapped in a one-element list before parsing |
| Parser.ToMoneyDropsSourceDefault | moneypandas/parser.py:48-51 | converting an existing array keeps its buffer and replaces its default code by the caller's |
| Parser.ToMoneyParsesEachElement | moneypandas/parser.py:9-41 | `to_money` of a list succeeds iff each element parses, giving one stored record per element and the caller's default |
| Parser.ToMoney | moneypandas/parser.py:9-41 | every record `to_money` produces fits the three-character code field, and the array takes the caller's default code |
| Parser.ToMoneyOfAPair | moneypandas/parser.py:33-34 | `to_money` of a pair succeeds iff each of its two items parses on its own, giving those two stored records |
| Parser.ToMoneyOfANumberAndNone | moneypandas/parser.py:33-34 | `to_money((5, None), "GBP")` is 5 GBP followed by a missing slot |
| Parser.ToMoneyOfAPairFails | moneypandas/parser.py:33-34 | `to_money((amount, "XYZ"))` fails: the pair is read as two scalars; without a default the bare number has no code, and with one the bare code is not a number |
| Parser.BareCodeIsNotANumber | moneypandas/parser.py:75-104 | a bare three-letter code matches no grammar, and `np.float64` of it raises the uncaught ValueError, whatever the symbol table and default code |
| Parser.IsMoneyAgreesWithParser | moneypandas/dtypes.py:33-36 | `is_money` accepts a non-empty string iff the parser's grammar loop finds a record for it, and the string then parses to that record |
| Codes.Insert | moneypandas/money_array.py:164 | inserting a code into an increasing list keeps it increasing and adds just that code |
| Codes.Currencies | moneypandas/money_array.py:164 | the currencies are the non-empty codes of the buffer, each once, in increasing string order |
| Codes.SingleCurrency | moneypandas/money_array.py:164 | a buffer whose present slots all carry one code has exactly that currency |
| Codes.BelowTotal | moneypandas/money_array.py:164 | numpy's string order is total, so the currency list is a sorted list of distinct codes |
| Reductions.KernelFor | moneypandas/money_array.py:167-172 | `min`, `max`, `sum` and `mean` find a reduction, `mean` using `_sum`; every other name fails |
| Reductions.Min | moneypandas/money_array.py:134-136 | the minimum of a non-empty column is one of its amounts and is at most every amount |
| Reductions.Max | moneypandas/money_array.py:138-140 | the maximum of a non-empty column is one of its amounts and is at least every amount |
| Reductions.Run | moneypandas/money_array.py:134-158 | a reduction fails iff the column is empty and it is not a sum |
| Reductions.SumAppend | moneypandas/money_array.py:142-158 | the sum of two columns laid end to end is the sum of their sums |
| Reductions.MixedTarget | moneypandas/money_array.py:174 | with several currencies the target is the default code when set, else the smallest currency |
| Reductions.Reduce | moneypandas/money_array.py:188-195 | a name with no reduction fails with "does not implement reduction"; a column with no present slot and no default code fails, as `XMoney` refuses an absent or empty currency (the exact error is stated by `Reductions.ReduceContract`) |
| Reductions.ReduceContract | moneypandas/money_array.py:160-195 | `sum` and `mean` succeed exactly when some slot is present or a default code is set, and otherwise fail with `UnsetCurrency`; a failure is a missing reduction, `min`/`max` of an empty column or that unset currency; the result carries the mixed target with several currencies, the one currency with one, and the default code with none, and that code is always set |
| Reductions.AmountsIn | moneypandas/money_array.py:177 | the amounts selected for a code are exactly the amounts of the slots with that code |
| Reductions.Subtotals | moneypandas/money_array.py:175-179 | one subtotal per currency; the sums never fail, and a failure is the empty-column one |
| Reductions.ConvertedAmounts | moneypandas/money_array.py:173-186 | the converted amounts are exactly the present slots' amounts converted to the target |
| Reductions.ConvertMonotone | moneypandas/money_array.py:180-183 | with positive rates, conversion keeps amounts in order |
| Reductions.SubtotalsAt | moneypandas/money_array.py:175-179 | each currency's subtotal is the minimum or maximum of its amounts, converted to the target |
| Reductions.MixedExtreme | moneypandas/money_array.py:173-186 | with positive rates, the minimum (maximum) of the converted subtotals is the minimum (maximum) of all converted amounts |
| Reductions.MixedMin | moneypandas/money_array.py:173-186 | with several currencies and positive rates, `min` is the smallest present amount converted to the target, tagged with the target |
| Reductions.MixedMax | moneypandas/money_array.py:173-186 | with several currencies and positive rates, `max` is the largest present amount converted to the target, tagged with the target |
| Reductions.GrandSum | moneypandas/money_array.py:175-185 | adding the converted per-currency subtotals equals adding every converted amount |
| Reductions.MixedSumAndMean | moneypandas/money_array.py:173-186 | with several currencies, `sum` is the total of all amounts converted to the target, and `mean` is that total divided by the length of the array |
| Reductions.SingleCurrencyReduce | moneypandas/money_array.py:188-190 | with at most one currency the reduction runs over the whole amount column, labelled with that currency, else the set default code, and fails with `UnsetCurrency` when neither exists |
| Reductions.SingleCurrencyMeanIsSum | moneypandas/money_array.py:167-168 | on the single-currency path `mean` returns the sum |
| Reductions.MissingZeroEntersTheMinimum | moneypandas/money_array.py:188-190 | the zero amount of a missing slot takes part: the minimum of a missing slot and 5 GBP is 0 GBP |
| Reductions.MixedTargetIsSmallestCode | moneypandas/money_array.py:174 | summing 1 GBP and 2 EUR with no default gives a result in EUR |
| BufferOps.IsNa | moneypandas/money_array.py:297-298 | the mask has one entry per slot, true exactly where the code is empty |
| BufferOps.IsNaReadsOnlyCodes | moneypandas/money_array.py:297-298 | a slot is missing iff its code is empty, whatever its amount |
| BufferOps.EqMask | moneypandas/money_array.py:387-394 | `==` succeeds iff the lengths agree, else fails on the shapes; a true slot holds equal, present records |
| BufferOps.Equals | moneypandas/money_array.py:448-453 | `equals` refuses exactly a non-array operand, and is true iff the buffers have the same length and equal records |
| BufferOps.Compare | moneypandas/money_array.py:396-446 | an ordering succeeds iff the lengths agree and no slot pairs two present records in different codes; a true slot holds two present records in one code |
| BufferOps.EqualityContract | moneypandas/money_array.py:387-394 | `==` is true at a slot iff both records are present and equal; `equals` is true iff the buffers are equal |
| BufferOps.EqualityReflexive | moneypandas/money_array.py:448-453 | an array `equals` itself, while `==` with itself is false exactly at the missing slots |
| BufferOps.OrderingContract | moneypandas/money_array.py:396-407 | an ordering fails iff some slot pairs two present records in different codes; otherwise each present pair compares its amounts and each missing pair gives false |
| BufferOps.ComparisonsFalseAtMissing | moneypandas/money_array.py:392-393 | every comparison, `==` included, is false where either side is missing |
| BufferOps.GreaterMirrorsLess | moneypandas/money_array.py:422-433 | `a > b` is `b < a` slot by slot, failures included |
| BufferOps.LessOrEqualIsStrict | moneypandas/money_array.py:409-420 | `<=` gives the same result as `<` |
| BufferOps.LessOrEqualIsNotMirrorOfGreaterOrEqual | moneypandas/money_array.py:435-446 | for 1 GBP against 1 GBP, `<=` is false and `>=` is true |
| BufferOps.Position | moneypandas/money_array.py:281 | an index is valid iff it lies in `[-n, n)`, and a negative one counts from the end |
| BufferOps.Take | moneypandas/money_array.py:251-286 | the result has one record per index, each a record of the source or the fill record; the only errors are the three of `take` |
| BufferOps.TakeContract | moneypandas/money_array.py:251-286 | `take` succeeds iff the indices are acceptable (all `-1` from an empty array when filling; otherwise none below `-1` when filling, and all in range); each failure rule in the source's order; on success one record per index: the fill record at a `-1` when filling, else the indexed record; the default code is kept except for the all-fill result from an empty array |
| BufferOps.TakeWithoutFill | moneypandas/money_array.py:281 | without fill, `take` succeeds whenever every index is in range |
| BufferOps.Positions | moneypandas/money_array.py:331 | a key's indices resolve iff all are in range, each to its position |
| BufferOps.WriteAllSlots | moneypandas/money_array.py:331 | after writing values at positions, a slot holds the value of the last write to it, or its old record if none wrote it |
| BufferOps.WriteAllFrame | moneypandas/money_array.py:331 | slots not written keep their records; slots written hold one of the written values |
| BufferOps.Assign | moneypandas/money_array.py:327-331 | a successful assignment keeps the length; a value that `to_money` refuses makes the assignment fail with that error |
| BufferOps.AssignContract | moneypandas/money_array.py:327-331 | a successful assignment keeps the length and the code field's width, leaves slots outside the key unchanged, and puts a parsed value at every slot in the key |
| BufferOps.AssignScalar | moneypandas/money_array.py:327-331 | assigning a scalar at an index in range stores its parsed record there and nowhere else |
| BufferOps.AssignList | moneypandas/money_array.py:327-331 | assigning a list at distinct positions stores the j-th parsed value at the j-th position |
| BufferOps.AssignAtEach | moneypandas/money_array.py:327-331 | one parsed value per position in range is written position by position |
| BufferOps.WriteAllDistinct | moneypandas/money_array.py:331 | writes at distinct positions put the j-th value at the j-th position |
| BufferOps.AssignPairFails | moneypandas/money_array.py:327-331 | assigning `(amount, "XYZ")` at one slot fails |
| BufferOps.DeepConvert | moneypandas/money_array.py:474-490 | a slot that is missing or already in the target keeps its record; every other slot ends in the target code, cut to the field |
| BufferOps.DeepConvertContract | moneypandas/money_array.py:474-490 | deep conversion keeps the missing slots, gives every present slot the target code, leaves at most one currency, and is idempotent |
| BufferOps.DecimalsAreConvertedAmounts | moneypandas/money_array.py:123-131 | the decimals for a code are the amounts of the buffer deeply converted to that code |
| BufferOps.Decimals | moneypandas/money_array.py:114-131 | a result has one decimal per slot of a non-empty array, and a missing slot gives its stored amount |
| BufferOps.DecimalsOfOneCurrency | moneypandas/money_array.py:123-131 | when every present slot is already in the default code, the decimals are the amounts unchanged, and an empty array fails inside `np.vectorize` |
| BufferOps.DecimalsNeedACode | moneypandas/money_array.py:114-126 | `to_decimals` fails iff neither a target nor a default code is set or the array is empty; with a code an empty array fails inside `np.vectorize`; without one the error is the mixed-currency `TypeError` or, for one currency, the unsubscriptable set |
| BufferOps.ShallowAndDeepAgreeOnDecimals | moneypandas/money_array.py:467-497 | a shallow conversion to a code then `to_decimals` gives the decimals of a deep conversion |
| MoneyTypes.ConstructFromString | moneypandas/money_array.py:38-50 | a dtype string is accepted iff it is `money` or starts with `money[XYZ]`; a default code is the first ten characters of the string; every refusal is the dtype `TypeError` |
| MoneyTypes.ConstructFromStringContract | moneypandas/money_array.py:38-50 | `money` gives the type without a default; `money[XYZ]` followed by anything gives the default `money[XYZ]`; every other string fails |
| MoneyTypes.BracketedCodeIsKeptWhole | moneypandas/money_array.py:46 | for every code `XYZ` the default is the ten characters `money[XYZ]`, not the code |
| MoneyTypes.DtypeDefaultStoresMon | moneypandas/money_array.py:46 | were that default used to parse a number, the number would be stored with the code `mon` |
| MoneyArrays.MoneyArray.FromBuffer | moneypandas/money_array.py:78-89 | a new array owns a fresh buffer equal to the given records, with the given default |
| MoneyArrays.MoneyArray.Sharing | moneypandas/money_array.py:78-89 | an array built from another array shares its buffer and takes the given default |
| MoneyArrays.MoneyArray.Parse | moneypandas/money_array.py:78-89 | building from scalars succeeds iff every scalar parses, giving a fresh buffer of the parsed records |
| MoneyArrays.MoneyArray.IsNa | moneypandas/money_array.py:297-298 | the mask has one entry per slot of the buffer, true exactly where the code is empty |
| MoneyArrays.MoneyArray.Eq | moneypandas/money_array.py:387-394 | a non-array operand gives `NotImplemented`; `==` succeeds iff the buffers have the same length; a true slot holds equal, present records |
| MoneyArrays.MoneyArray.Equals | moneypandas/money_array.py:448-453 | `equals` fails exactly for a non-array operand, and is true iff both buffers hold the same records |
| MoneyArrays.MoneyArray.Reduce | moneypandas/money_array.py:160-195 | `sum` and `mean` succeed whenever some slot is present or a default code is set; a failure is a missing reduction, an empty `min`/`max` or no currency to tag the result with; the result's code is always set, and with one currency it is that currency |
| MoneyArrays.MoneyArray.Order | moneypandas/money_array.py:396-446 | the comparison loops compute the ordering mask, and an operand that is not an array gives `NotImplemented` |
| MoneyArrays.MoneyArray.Take | moneypandas/money_array.py:251-286 | the gathering loops produce a fresh array holding the result of `take` |
| MoneyArrays.MoneyArray.AllFill | moneypandas/money_array.py:268 | the loop answers true iff every index is `-1` |
| MoneyArrays.MoneyArray.AnyBelowMinusOne | moneypandas/money_array.py:276 | the loop answers true iff some index is below `-1` |
| MoneyArrays.MoneyArray.Gather | moneypandas/money_array.py:281 | the gather fails iff some index is out of range, and otherwise holds the indexed record for every index, negative ones counted from the end |
| MoneyArrays.MoneyArray.FillMasked | moneypandas/money_array.py:283-284 | every slot whose index is `-1` holds the fill record and every other slot is unchanged |
| MoneyArrays.MoneyArray.SetItem | moneypandas/money_array.py:327-331 | the in-place writes leave the buffer equal to the assignment's result; on an error the buffer is unchanged |
| MoneyArrays.MoneyArray.WriteEach | moneypandas/money_array.py:331 | writing the values at the positions in order leaves the buffer that the assignment specifies, a later write to a slot winning |
| MoneyArrays.MoneyArray.ToCurrency | moneypandas/money_array.py:467-497 | shallow and in place sets this array's default; shallow otherwise copies it; deep converts every present slot in another code, in this buffer only when in place, and returns a new array with the target as default |
| MoneyArrays.MoneyArray.ToDecimals | moneypandas/money_array.py:91-131 | the conversion loop computes the decimals, with the error cases of `to_decimals`, the empty array's included |

## Left out

- Floating point: amounts are `real`. The rounding of `np.float64` and of
  `decimal.Decimal` is not modelled. NaN amounts are not modelled.
- `float()` on a string (`Parser.FloatText`) accepts an optional sign, digits and
  one point. It does not accept exponents, surrounding whitespace, underscores,
  `inf` or `nan`.
- `\d` and `\s` are the ASCII digits and the Unicode whitespace characters. The
  other Unicode decimal digits that Python's `\d` matches are not modelled.
- The symbol table is a map from single characters. Symbols that are special
  inside a regex character class are not modelled.
- `find_currency_data` and `iso4217parse` are not part of this model. The symbol
  table is a parameter.
- Dtypes.MatchSymbolPrefixed: models the evidently intended symbol grammar, a
  character class of the table's symbols whose match is looked up in the table.
  As written, moneypandas/dtypes.py:20 joins the dicts of `find_currency_data()`
  with `''.join`, which raises a `TypeError` when the module is imported, and
  :21 indexes the list `symbols` by a string. As written the module fails on
  import, so the model's symbol-grammar results are about the intended code.
- Parser.AsMoneyObject: a pair whose first item is `None` or NaN has a NaN amount,
  which a `real` cannot hold; the model fails with `NaNAmount` instead. `str` of a
  pair's second item is modelled for strings, `None` and NaN only. Other items
  give `UnrenderedCode`. A `Money` object, a stored record or a nested pair as the
  first item is treated as having no float value.
- Reductions.MixedMin, Reductions.MixedMax: proved for positive exchange rates
  only, the condition under which conversion keeps amounts in order.
- MoneyTypes.DtypeDefaultStoresMon: no code path of the source hands the dtype's
  default (`MoneyType.default_money_code`) to an array. The lemma shows what
  would be stored if one did, not something the source does today.
- The `money` package behind `XMoney` is not part of this model. Its refusal of an
  absent (`None`) or empty currency is modelled as the error `UnsetCurrency`.
- `XMoney.to` is modelled as a rate for each pair of codes. A failing exchange
  lookup is not modelled.
- Bytes: `is_money` of bytes has no result, and `to_bytes`/`from_bytes` are out.
- Bytes given to `to_money` (parser.py:14) are not modelled. No grammar runs on
  them (:75), and `np.float64` reads a numeric bytes value as a number that takes
  the default code (:92-99). The model has no bytes scalar.
- numpy broadcasting: comparing arrays of different lengths gives `ShapeMismatch`.
  A length-1 operand is not broadcast.
- BufferOps.Equals: `equals` on arrays of different lengths is modelled as `false`,
  not as numpy's elementwise-comparison failure.
- `skipna` and the other keyword arguments of the reductions are not modelled. On
  the one-currency path (money_array.py:190) missing slots take part as zeros; on
  the mixed path (:177) they enter no subtotal and count only in `mean`'s divisor
  `len(self.data)` (:186).
- Reductions.Reduce: a reduction name that happens to name another
  underscore-prefixed attribute (such as `reduce`) fails with `NoSuchReduction`;
  the source would call that attribute.
- Reductions.Min, Reductions.Max: `min`/`max` of an empty column give
  `EmptyReduction`, where pandas' `nanmin`/`nanmax` would return NaN.
- The `dtype` check and the `copy` flag of `MoneyArray.__init__` are not modelled.
- Item assignment keys are an index or a list of indices. Slices and boolean masks
  are not modelled.
- A comparison operand that is not a `MoneyArray` is `null`.
- `__repr__`, `_formatter`, `__iter__`, `to_pymoney`, `astype`, the
  `_values_for_factorize` hook, the pandas accessor and the pandas registration
  glue are not part of this model.
- `moneypandas/base.py` is not part of this model.
