/**
 * `moneypandas/parser.py`: turning one loose scalar into an (amount, code)
 * record (`_as_money_object`), a sequence of scalars into a record buffer
 * (`_to_money_array`), and anything `to_money` accepts into the buffer and
 * default code of a new array.
 */
module Parser {
  import opened Wrappers
  import opened Money
  import opened Dtypes

  /** The shapes of value the parser tells apart, in the order it tests them. */
  datatype Scalar =
    | Stored(rec: Record)                          // a record read out of a MoneyArray buffer
    | NoneValue                                    // None
    | NaN                                          // numpy's NaN
    | MoneyObject(amount: real, currency: string)  // a money.Money value
    | Text(s: string)                              // a str
    | Pair(first: Scalar, second: Scalar)          // a list-like of length 2
    | Number(n: real)                              // an int or a float
    | Other                                        // any other object

  /** What `np.float64` makes of a string no grammar matched: an optional sign and
      digits with at most one point and at least one digit (`5`, `5.`, `.5`). */
  function FloatText(s: string): (r: Option<real>)
  {
    var negative := |s| > 0 && s[0] == '-';
    var body := if |s| > 0 && (s[0] == '-' || s[0] == '+') then s[1..] else s;
    var n1 := DigitRun(body);
    if n1 == |body| then
      if n1 > 0 then Some(Signed(negative, DecimalValue(body, ""))) else None
    else if body[n1] == '.' && n1 + 1 + DigitRun(body[n1 + 1..]) == |body| && |body| > 1 then
      Some(Signed(negative, DecimalValue(body[..n1], body[n1 + 1..])))
    else
      None
  }

  /** The parser's last resort once `np.float64(val)` succeeded (parser.py:96-102):
      the amount takes the default code, if there is one. */
  function NumberWithDefault(n: real, defaultCode: Option<string>): (r: Result<Record, Error>)
  {
    if IsSet(defaultCode) then Ok(Record(n, defaultCode.value)) else Err(NoCurrency)
  }

  /** `np.float64` on the first item of a pair (parser.py:84). A number is its own
      value. A string is read as a float, and one that is not a float raises a
      ValueError that the `except TypeError` lets through. None and NaN give a NaN
      amount. Any other object raises the TypeError that is caught, so the value
      ends at the final "Could not parse" (parser.py:92-104). */
  function FloatOf(x: Scalar): Result<real, Error>
  {
    match x
    case Number(n) => Ok(n)
    case Text(s) => (match FloatText(s) case Some(v) => Ok(v) case None => Err(NotANumber))
    case NoneValue => Err(NaNAmount)
    case NaN => Err(NaNAmount)
    case Stored(_) => Err(NotMoney)
    case MoneyObject(_, _) => Err(NotMoney)
    case Pair(_, _) => Err(NotMoney)
    case Other => Err(NotMoney)
  }

  /** `str` on the second item of a pair (parser.py:85), for the items whose
      rendering the model knows. */
  function StrOf(x: Scalar): Option<string>
  {
    match x
    case Text(s) => Some(s)
    case NoneValue => Some("None")
    case NaN => Some("nan")
    case _ => None
  }

  /** `_as_money_object`: the record for one scalar, or the error it raises. */
  function AsMoneyObject(x: Scalar, table: SymbolTable, defaultCode: Option<string>): (r: Result<Record, Error>)
    ensures x.Stored? || x.MoneyObject? || x == NoneValue || x == NaN || x == Text("") ==> r.Ok?
    ensures r.Err? ==> r.error in {NoCurrency, NotMoney, NotANumber, NaNAmount, UnrenderedCode}
    ensures r == Err(NoCurrency) ==> !IsSet(defaultCode) && (x.Number? || x.Text?)
    ensures x == Other ==> r == Err(NotMoney)
  {
    match x
    case Stored(rec) => Ok(rec)
    case NoneValue => Ok(MissingRecord)
    case NaN => Ok(MissingRecord)
    case MoneyObject(a, c) => Ok(Record(a, c))
    case Text(s) =>
      if s == "" then Ok(MissingRecord)
      else
        (match ScanGrammars(MoneyPatterns, table, s, None)
         case Some(rec) => Ok(rec)
         case None =>
           (match FloatText(s)
            case Some(n) => NumberWithDefault(n, defaultCode)
            case None => Err(NotANumber)))
    case Pair(first, second) =>
      var a :- FloatOf(first);
      (match StrOf(second)
       case Some(c) => Ok(Record(a, c))
       case None => Err(UnrenderedCode))
    case Number(n) => NumberWithDefault(n, defaultCode)
    case Other => Err(NotMoney)
  }

  /** The list comprehension of `_to_money_array` followed by the conversion to the
      record buffer: every element parsed with the same default, each record stored
      in the three-character code field; the first failure aborts the whole buffer. */
  function ParseAll(xs: seq<Scalar>, table: SymbolTable, defaultCode: Option<string>): (r: Result<seq<Record>, Error>)
    ensures r.Ok? <==> forall i :: 0 <= i < |xs| ==> AsMoneyObject(xs[i], table, defaultCode).Ok?
    ensures r.Ok? ==> |r.value| == |xs| &&
                      forall i :: 0 <= i < |xs| ==> r.value[i] == Store(AsMoneyObject(xs[i], table, defaultCode).value)
    ensures r.Err? ==> exists i :: 0 <= i < |xs| && AsMoneyObject(xs[i], table, defaultCode) == Err(r.error) &&
                                   forall j :: 0 <= j < i ==> AsMoneyObject(xs[j], table, defaultCode).Ok?
  {
    var rs := seq(|xs|, i requires 0 <= i < |xs| => AsMoneyObject(xs[i], table, defaultCode));
    assert forall i :: 0 <= i < |xs| ==> rs[i] == AsMoneyObject(xs[i], table, defaultCode);
    Collect(rs)
  }

  /** The parsed elements in order, each stored; the first failure is the result. */
  function Collect(rs: seq<Result<Record, Error>>): (r: Result<seq<Record>, Error>)
    ensures r.Ok? <==> forall i :: 0 <= i < |rs| ==> rs[i].Ok?
    ensures r.Ok? ==> |r.value| == |rs| && forall i :: 0 <= i < |rs| ==> r.value[i] == Store(rs[i].value)
    ensures r.Err? ==> exists i :: 0 <= i < |rs| && rs[i] == Err(r.error) && forall j :: 0 <= j < i ==> rs[j].Ok?
  {
    if rs == [] then Ok([])
    else
      match rs[0]
      case Err(e) => Err(e)
      case Ok(rec) =>
        assert forall i :: 1 <= i < |rs| ==> rs[i] == rs[1..][i - 1];
        match Collect(rs[1..])
        case Err(e) =>
          var k :| 0 <= k < |rs[1..]| && rs[1..][k] == Err(e) && forall j :: 0 <= j < k ==> rs[1..][j].Ok?;
          assert rs[k + 1] == Err(e);
          Err(e)
        case Ok(rest) => Ok([Store(rec)] + rest)
  }

  /** What `_to_money_array` is given: an existing MoneyArray (its buffer and its
      default code) or a sequence of scalars. */
  datatype Values =
    | Existing(records: seq<Record>, sourceDefault: Option<string>)
    | Items(items: seq<Scalar>)

  /** `_to_money_array`: the record buffer and the default code for a new array. An
      existing array gives its buffer back together with the CALLER's default code:
      the branch meant to keep the source's default assigns the caller's default to
      itself (parser.py:49-50). */
  function ToMoneyArray(values: Values, table: SymbolTable, defaultCode: Option<string>)
    : (r: Result<(seq<Record>, Option<string>), Error>)
    ensures r.Ok? ==> r.value.1 == defaultCode
    ensures values.Existing? ==> r == Ok((values.records, defaultCode))
    ensures values.Items? ==> r.Ok? == ParseAll(values.items, table, defaultCode).Ok?
    ensures values.Items? && r.Ok? ==> r.value.0 == ParseAll(values.items, table, defaultCode).value
  {
    match values
    case Existing(records, _) => Ok((records, defaultCode))
    case Items(xs) =>
      match ParseAll(xs, table, defaultCode)
      case Ok(rs) => Ok((rs, defaultCode))
      case Err(e) => Err(e)
  }

  /** What `to_money` is given: one value, or something list-like. */
  datatype Input = Single(x: Scalar) | ListLike(values: Values)

  /** `is_list_like` for a single value: only a pair is. */
  predicate IsListLike(x: Scalar) { x.Pair? }

  /** A pair given to `to_money` is iterated, so its two items are parsed one by one. */
  function PairItems(x: Scalar): seq<Scalar>
    requires x.Pair?
  {
    [x.first, x.second]
  }

  /** `to_money` wraps a value that is not list-like into a one-element list. */
  function Wrap(input: Input): Values
  {
    match input
    case Single(x) => if IsListLike(x) then Items(PairItems(x)) else Items([x])
    case ListLike(values) => values
  }

  /** A buffer handed to the MoneyArray constructor is iterated record by record. */
  function StoredItems(buf: seq<Record>): (xs: seq<Scalar>)
    ensures |xs| == |buf| && forall i :: 0 <= i < |buf| ==> xs[i] == Stored(buf[i])
  {
    seq(|buf|, i requires 0 <= i < |buf| => Stored(buf[i]))
  }

  /** `to_money`: wrap, run `_to_money_array`, then build the array, whose
      constructor runs `_to_money_array` once more over the buffer. */
  function ToMoney(input: Input, table: SymbolTable, defaultCode: Option<string>)
    : (r: Result<(seq<Record>, Option<string>), Error>)
    ensures r.Ok? ==> r.value.1 == defaultCode && AllStorable(r.value.0)
  {
    var (buf, code) :- ToMoneyArray(Wrap(input), table, defaultCode);
    ToMoneyArray(Items(StoredItems(buf)), table, code)
  }

  // ---------------------------------------------------------------------------
  // Properties of the scalar parser
  // ---------------------------------------------------------------------------

  /** Every symbol of the table stands for a non-empty code. */
  predicate CodesNonEmpty(table: SymbolTable) {
    forall c :: c in table ==> table[c] != ""
  }

  /** `None`, NaN and the empty string parse to the missing record (parser.py:69-71). */
  lemma MissingSentinels(table: SymbolTable, defaultCode: Option<string>)
    ensures AsMoneyObject(NoneValue, table, defaultCode) == Ok(MissingRecord)
    ensures AsMoneyObject(NaN, table, defaultCode) == Ok(MissingRecord)
    ensures AsMoneyObject(Text(""), table, defaultCode) == Ok(MissingRecord)
  {
  }

  /** Whatever a grammar extracts carries a code: with a table of non-empty codes a
      matched string never yields a missing record. */
  lemma GrammarCodesNonEmpty(table: SymbolTable, s: string)
    requires CodesNonEmpty(table)
    ensures ScanGrammars(MoneyPatterns, table, s, None).Some? ==>
            ScanGrammars(MoneyPatterns, table, s, None).value.code != ""
  {
    ScanFindsLastMatch(MoneyPatterns, table, s, None);
    var r := ScanGrammars(MoneyPatterns, table, s, None);
    if r.Some? {
      var i :| 0 <= i < 3 && MatchGrammar(MoneyPatterns[i], table, s).Some?;
      var last := if MatchGrammar(MoneyPatterns[2], table, s).Some? then 2
                  else if MatchGrammar(MoneyPatterns[1], table, s).Some? then 1 else 0;
      assert r == MatchGrammar(MoneyPatterns[last], table, s);
      if last == 0 {
        var sym :| sym in table && table[sym] == r.value.code;
      }
    }
  }

  /** Among the values that carry no code of their own (strings, numbers, the
      sentinels and other objects), exactly the missing sentinels parse to a missing
      record: a slot is missing iff it was built from `None`, NaN or `''`. */
  lemma MissingOnlyFromSentinels(x: Scalar, table: SymbolTable, defaultCode: Option<string>)
    requires x.Text? || x.Number? || x.NoneValue? || x.NaN? || x.Other?
    requires CodesNonEmpty(table)
    ensures (AsMoneyObject(x, table, defaultCode).Ok? && IsMissing(AsMoneyObject(x, table, defaultCode).value))
            <==> (x == NoneValue || x == NaN || x == Text(""))
  {
    if x.Text? && x.s != "" {
      GrammarCodesNonEmpty(table, x.s);
    }
  }

  /** A record read out of a buffer passes through unchanged, and a money object
      gives its amount and currency (parser.py:66-68, 72-74). */
  lemma RecordsAndMoneyPassThrough(rec: Record, amount: real, currency: string, table: SymbolTable, defaultCode: Option<string>)
    ensures AsMoneyObject(Stored(rec), table, defaultCode) == Ok(rec)
    ensures AsMoneyObject(MoneyObject(amount, currency), table, defaultCode) == Ok(Record(amount, currency))
  {
  }

  /** A non-empty string is tried against every grammar, and the record is the
      extraction of the LAST grammar that matches a prefix of it (parser.py:75-80). */
  lemma TextTakesLastMatchingGrammar(s: string, i: nat, table: SymbolTable, defaultCode: Option<string>)
    requires s != "" && i < |MoneyPatterns|
    requires MatchGrammar(MoneyPatterns[i], table, s).Some?
    requires forall j :: i < j < |MoneyPatterns| ==> MatchGrammar(MoneyPatterns[j], table, s).None?
    ensures AsMoneyObject(Text(s), table, defaultCode) == Ok(MatchGrammar(MoneyPatterns[i], table, s).value)
  {
    ScanFindsLastMatch(MoneyPatterns, table, s, None);
  }

  /** A number, or a numeric string no grammar matches, takes the default code when
      one is set and is refused with a missing-currency error otherwise; a string
      with no numeric reading makes `np.float64` raise a ValueError that is not
      caught (parser.py:89-104). */
  lemma NumbersNeedADefault(n: real, s: string, table: SymbolTable, defaultCode: Option<string>)
    ensures AsMoneyObject(Number(n), table, defaultCode) ==
            if IsSet(defaultCode) then Ok(Record(n, defaultCode.value)) else Err(NoCurrency)
    ensures s != "" && (forall i :: 0 <= i < |MoneyPatterns| ==> MatchGrammar(MoneyPatterns[i], table, s).None?) ==>
            AsMoneyObject(Text(s), table, defaultCode) ==
              match FloatText(s)
              case Some(v) => if IsSet(defaultCode) then Ok(Record(v, defaultCode.value)) else Err(NoCurrency)
              case None => Err(NotANumber)
  {
    ScanFindsLastMatch(MoneyPatterns, table, s, None);
  }

  /** A pair inside a list gives `(np.float64(first), str(second))` (parser.py:82-87):
      a number or a numeric string first and a string second make the record; a
      non-numeric string first raises; only a number or a string can supply the
      amount; and the default code plays no part. */
  lemma PairRule(first: Scalar, second: Scalar, table: SymbolTable, defaultCode: Option<string>)
    ensures first.Number? && second.Text? ==>
              AsMoneyObject(Pair(first, second), table, defaultCode) == Ok(Record(first.n, second.s))
    ensures first.Text? && FloatText(first.s).Some? && second.Text? ==>
              AsMoneyObject(Pair(first, second), table, defaultCode) == Ok(Record(FloatText(first.s).value, second.s))
    ensures first.Number? && second == NoneValue ==>
              AsMoneyObject(Pair(first, second), table, defaultCode) == Ok(Record(first.n, "None"))
    ensures first.Text? && FloatText(first.s).None? ==>
              AsMoneyObject(Pair(first, second), table, defaultCode) == Err(NotANumber)
    ensures AsMoneyObject(Pair(first, second), table, defaultCode).Ok? ==> first.Number? || first.Text?
    ensures AsMoneyObject(Pair(first, second), table, defaultCode) == AsMoneyObject(Pair(first, second), table, None)
  {
  }

  /** A code-prefixed literal such as `EUR 123` or `EUR -1.5` reads back as the
      record it writes, whatever the symbol table: the code-suffixed grammar, tried
      after it, cannot start on a capital. */
  lemma ParseCodeFirst(c: string, w: string, negative: bool, t: string, table: SymbolTable, defaultCode: Option<string>)
    requires IsCode(c) && AllSpaces(w) && IsNumberText(t)
    ensures AsMoneyObject(Text(c + w + Sign(negative) + t), table, defaultCode)
            == Ok(Record(Signed(negative, NumberValue(t)), c))
  {
    var s := c + w + Sign(negative) + t;
    CodePrefixedRoundTrip(c, w, negative, t, "");
    assert s + "" == s;
    CodeFirstIsLastMatch(s, table, defaultCode);
  }

  /** A string the code-prefixed grammar matches starts on a capital, where the
      code-suffixed grammar cannot start, so the code-prefixed record is kept. */
  lemma CodeFirstIsLastMatch(s: string, table: SymbolTable, defaultCode: Option<string>)
    requires MatchCodePrefixed(s).Some?
    ensures AsMoneyObject(Text(s), table, defaultCode) == Ok(MatchCodePrefixed(s).value)
  {
    assert s[..3][0] == s[0] && IsUpper(s[0]);
    assert MatchGrammar(MoneyPatterns[2], table, s).None?;
    TextTakesLastMatchingGrammar(s, 1, table, defaultCode);
  }

  /** A code-suffixed literal such as `123 EUR` or `-97GBP` reads back as the record
      it writes, whatever the symbol table and whatever text follows the code: it is
      the last grammar tried. */
  lemma ParseCodeLast(negative: bool, t: string, w: string, c: string, rest: string, table: SymbolTable, defaultCode: Option<string>)
    requires IsNumberText(t) && AllSpaces(w) && IsCode(c)
    ensures AsMoneyObject(Text(Sign(negative) + t + w + c + rest), table, defaultCode)
            == Ok(Record(Signed(negative, NumberValue(t)), c))
  {
    var s := Sign(negative) + t + w + c + rest;
    CodeSuffixedRoundTrip(negative, t, w, c, rest);
    TextTakesLastMatchingGrammar(s, 2, table, defaultCode);
  }

  /** With a safe symbol table a symbol-prefixed literal such as `£128` or `-£128`
      reads back with the table's code for the symbol. */
  lemma ParseSymbolFirst(negative: bool, symbol: char, t: string, table: SymbolTable, defaultCode: Option<string>)
    requires symbol in table && IsNumberText(t) && SafeTable(table)
    ensures AsMoneyObject(Text(Sign(negative) + [symbol] + t), table, defaultCode)
            == Ok(Record(Signed(negative, NumberValue(t)), table[symbol]))
  {
    var s := Sign(negative) + [symbol] + t;
    SymbolPrefixedRoundTrip(table, negative, symbol, t, "");
    assert s + "" == s;
    OnlySymbolFirstMatches(s, table, defaultCode);
  }

  lemma OnlySymbolFirstMatches(s: string, table: SymbolTable, defaultCode: Option<string>)
    requires SafeTable(table) && MatchSymbolPrefixed(table, s).Some?
    ensures AsMoneyObject(Text(s), table, defaultCode) == Ok(MatchSymbolPrefixed(table, s).value)
  {
    AtMostOneGrammarMatches(table, s);
    assert MatchGrammar(MoneyPatterns[1], table, s).None?;
    assert MatchGrammar(MoneyPatterns[2], table, s).None?;
    TextTakesLastMatchingGrammar(s, 0, table, defaultCode);
  }

  /** `str(n)` of an integer: a minus sign when it is negative, then its decimal digits. */
  function IntegerLiteral(n: int): string
  {
    Sign(n < 0) + Digits(if n < 0 then -n else n)
  }

  /** `to_money(str(n) + ' GBP')`: an integer written in decimal, a space and a code
      read back as that integer amount in that code, whatever the symbol table and
      the default code. */
  lemma ToMoneyOfAnIntegerLiteral(n: int, c: string, table: SymbolTable, defaultCode: Option<string>)
    requires IsCode(c)
    ensures ToMoney(Single(Text(IntegerLiteral(n) + " " + c)), table, defaultCode) ==
            Ok(([Record(n as real, c)], defaultCode))
  {
    var s := IntegerLiteral(n) + " " + c;
    IntegerLiteralParses(n, c, table, defaultCode);
    assert Store(Record(n as real, c)) == Record(n as real, c);
    ToMoneyWrapsAScalar(Text(s), table, defaultCode);
  }

  lemma IntegerLiteralParses(n: int, c: string, table: SymbolTable, defaultCode: Option<string>)
    requires IsCode(c)
    ensures AsMoneyObject(Text(IntegerLiteral(n) + " " + c), table, defaultCode) == Ok(Record(n as real, c))
  {
    var m := if n < 0 then -n else n;
    DigitsAreNumberText(m);
    SpacedCodeLast(n < 0, Digits(m), c, table, defaultCode);
  }

  lemma SpacedCodeLast(negative: bool, t: string, c: string, table: SymbolTable, defaultCode: Option<string>)
    requires IsNumberText(t) && IsCode(c)
    ensures AsMoneyObject(Text(Sign(negative) + t + " " + c), table, defaultCode)
            == Ok(Record(Signed(negative, NumberValue(t)), c))
  {
    assert Sign(negative) + t + " " + c + "" == Sign(negative) + t + " " + c;
    assert AllSpaces(" ");
    ParseCodeLast(negative, t, " ", c, "", table, defaultCode);
  }

  /** Re-parsing a stored buffer, as the MoneyArray constructor does, changes nothing. */
  lemma ReparseIsIdentity(buf: seq<Record>, table: SymbolTable, defaultCode: Option<string>)
    requires AllStorable(buf)
    ensures ParseAll(StoredItems(buf), table, defaultCode) == Ok(buf)
  {
    var r := ParseAll(StoredItems(buf), table, defaultCode);
    assert r.value == buf;
  }

  /** `to_money` on a value that is not list-like parses it as a one-element list
      with the caller's default code (parser.py:33-41). */
  lemma ToMoneyWrapsAScalar(x: Scalar, table: SymbolTable, defaultCode: Option<string>)
    requires !IsListLike(x)
    ensures ToMoney(Single(x), table, defaultCode) ==
            match AsMoneyObject(x, table, defaultCode)
            case Ok(rec) => Ok(([Store(rec)], defaultCode))
            case Err(e) => Err(e)
  {
    assert Wrap(Single(x)) == Items([x]);
    var first := ParseAll([x], table, defaultCode);
    match AsMoneyObject(x, table, defaultCode)
    case Ok(rec) =>
      assert first.value == [Store(rec)];
      ReparseIsIdentity([Store(rec)], table, defaultCode);
    case Err(e) =>
      assert first == Err(e);
  }

  /** `to_money` on an existing array keeps its buffer and takes the caller's default
      code; the array's own default code is lost (parser.py:48-51). */
  lemma ToMoneyDropsSourceDefault(buf: seq<Record>, sourceDefault: Option<string>, table: SymbolTable, defaultCode: Option<string>)
    requires AllStorable(buf)
    ensures ToMoney(ListLike(Existing(buf, sourceDefault)), table, defaultCode) == Ok((buf, defaultCode))
  {
    ReparseIsIdentity(buf, table, defaultCode);
  }

  /** `to_money` on a sequence parses every element with the same default code and
      fails when any element fails (parser.py:53-55). */
  lemma ToMoneyParsesEachElement(xs: seq<Scalar>, table: SymbolTable, defaultCode: Option<string>)
    ensures ToMoney(ListLike(Items(xs)), table, defaultCode).Ok? <==>
            forall i :: 0 <= i < |xs| ==> AsMoneyObject(xs[i], table, defaultCode).Ok?
    ensures ToMoney(ListLike(Items(xs)), table, defaultCode).Ok? ==>
            var (buf, code) := ToMoney(ListLike(Items(xs)), table, defaultCode).value;
            code == defaultCode && |buf| == |xs| &&
            forall i :: 0 <= i < |xs| ==> buf[i] == Store(AsMoneyObject(xs[i], table, defaultCode).value)
  {
    var first := ParseAll(xs, table, defaultCode);
    if first.Ok? {
      ReparseIsIdentity(first.value, table, defaultCode);
    }
  }

  /** A pair handed straight to `to_money` is list-like, so it becomes a buffer of its
      two items, each parsed on its own with the caller's default code (parser.py:33-34). */
  lemma ToMoneyOfAPair(a: Scalar, b: Scalar, table: SymbolTable, defaultCode: Option<string>)
    ensures ToMoney(Single(Pair(a, b)), table, defaultCode).Ok? <==>
            AsMoneyObject(a, table, defaultCode).Ok? && AsMoneyObject(b, table, defaultCode).Ok?
    ensures ToMoney(Single(Pair(a, b)), table, defaultCode).Ok? ==>
            ToMoney(Single(Pair(a, b)), table, defaultCode).value ==
              ([Store(AsMoneyObject(a, table, defaultCode).value), Store(AsMoneyObject(b, table, defaultCode).value)], defaultCode)
  {
    var xs := [a, b];
    assert Wrap(Single(Pair(a, b))) == Items(xs);
    ToMoneyParsesEachElement(xs, table, defaultCode);
    assert xs[0] == a && xs[1] == b;
    var r := ToMoney(ListLike(Items(xs)), table, defaultCode);
    assert ToMoney(Single(Pair(a, b)), table, defaultCode) == r;
    if r.Ok? {
      assert r.value.0 == [r.value.0[0], r.value.0[1]];
    }
  }

  /** `to_money((5, None), 'GBP')` is the amount 5 in GBP followed by a missing slot. */
  lemma ToMoneyOfANumberAndNone(table: SymbolTable)
    ensures ToMoney(Single(Pair(Number(5.0), NoneValue)), table, Some("GBP")) ==
            Ok(([Record(5.0, "GBP"), MissingRecord], Some("GBP")))
  {
    ToMoneyOfAPair(Number(5.0), NoneValue, table, Some("GBP"));
  }

  /** A pair handed straight to `to_money` (as in `arr[i] = (5, 'GBP')`) is list-like,
      so its items are parsed separately and the bare code fails to parse. */
  lemma ToMoneyOfAPairFails(amount: real, c: string, table: SymbolTable, defaultCode: Option<string>)
    requires IsCode(c)
    ensures ToMoney(Single(Pair(Number(amount), Text(c))), table, defaultCode) ==
            Err(if IsSet(defaultCode) then NotANumber else NoCurrency)
  {
    BareCodeIsNotANumber(c, table, defaultCode);
    var items := [Number(amount), Text(c)];
    assert Wrap(Single(Pair(Number(amount), Text(c)))) == Items(items);
    assert items[1] == Text(c);
  }

  /** A bare code such as `GBP` matches no grammar and is not a float. */
  lemma BareCodeIsNotANumber(c: string, table: SymbolTable, defaultCode: Option<string>)
    requires IsCode(c)
    ensures AsMoneyObject(Text(c), table, defaultCode) == Err(NotANumber)
  {
    assert IsUpper(c[0]) && IsUpper(c[1]) && IsUpper(c[2]);
    assert MatchSymbolPrefixed(table, c).None? by {
      assert c[1..][0] == c[1] && DigitRun(c[1..]) == 0;
    }
    assert MatchCodePrefixed(c).None? by {
      assert c[3..] == "" && SpaceRun("") == 0 && c[3..][0..] == "";
    }
    assert SignedNumber(c).None? by { assert DigitRun(c) == 0; }
    assert MatchCodeSuffixed(c).None?;
    assert FloatText(c).None? by { assert DigitRun(c) == 0; }
    ScanFindsLastMatch(MoneyPatterns, table, c, None);
  }

  /** `is_money` accepts exactly the non-empty strings that the parser reads with one
      of its grammars, so a string `is_money` accepts never needs a default code. */
  lemma IsMoneyAgreesWithParser(s: string, table: SymbolTable, defaultCode: Option<string>)
    requires s != ""
    ensures IsMoney(table, Str(s)) == Some(true) <==> ScanGrammars(MoneyPatterns, table, s, None).Some?
    ensures IsMoney(table, Str(s)) == Some(true) ==>
            AsMoneyObject(Text(s), table, defaultCode) == Ok(ScanGrammars(MoneyPatterns, table, s, None).value)
  {
    ScanFindsLastMatch(MoneyPatterns, table, s, None);
  }
}
