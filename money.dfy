/**
 * The stored unit of a money column and the conventions shared by the parser
 * and the array: the missing-slot convention, the three-character code field,
 * the truthiness of an optional default code, and currency conversion.
 */
module Money {
  import opened Wrappers

  /** One slot of the record buffer: an exact decimal amount and a currency code.
      A slot whose code is empty is missing. */
  datatype Record = Record(amount: real, code: string)

  /** The record a missing input is turned into. */
  const MissingRecord := Record(0.0, "")

  predicate IsMissing(r: Record) { r.code == "" }

  /** A boxed money value returned by a reduction; its code may be absent. */
  datatype MoneyValue = MoneyValue(amount: real, code: Option<string>)

  /** Python truthiness of an optional currency code: `None` and `''` both count as unset. */
  predicate IsSet(c: Option<string>) { c.Some? && c.value != "" }

  /** The code field of the buffer holds at most three characters; a longer
      string written into it keeps its first three. */
  function StoreCode(c: string): (s: string)
    ensures |s| <= 3 && |s| <= |c| && s == c[..|s|]
    ensures |c| <= 3 ==> s == c
    ensures |c| > 3 ==> s == c[..3]
  {
    if |c| <= 3 then c else c[..3]
  }

  /** What a record becomes once written into the buffer. */
  function Store(r: Record): (s: Record)
    ensures Storable(s) && s.amount == r.amount
    ensures Storable(r) ==> s == r
    ensures !Storable(r) ==> s.code == r.code[..3]
    ensures IsMissing(s) <==> IsMissing(r)
  {
    Record(r.amount, StoreCode(r.code))
  }

  predicate Storable(r: Record) { |r.code| <= 3 }

  predicate AllStorable(buf: seq<Record>) {
    forall i :: 0 <= i < |buf| ==> Storable(buf[i])
  }

  /** An exchange-rate source: `rate(from, to)` is the price of one unit of `from` in units of `to`. */
  type RateSource = (string, string) -> real

  /** An amount of `from` expressed in `to`; when the codes agree no rate is looked up. */
  function Convert(rate: RateSource, x: real, from: string, to: string): real
  {
    if from == to then x else x * rate(from, to)
  }

  /** Conversion is linear in the amount, so it may be applied to a subtotal or to its parts. */
  lemma ConvertAdditive(rate: RateSource, x: real, y: real, from: string, to: string)
    ensures Convert(rate, x + y, from, to) == Convert(rate, x, from, to) + Convert(rate, y, from, to)
  {
  }

  lemma ConvertZero(rate: RateSource, from: string, to: string)
    ensures Convert(rate, 0.0, from, to) == 0.0
  {
  }

  /** The failures of the modelled code: the exceptions it raises itself and the
      ones numpy raises underneath it. */
  datatype Error =
    | NoCurrency            // ValueError: a number without a currency code and without a default
    | NotMoney              // ValueError: the value has no numeric reading at all ("Could not parse")
    | NotANumber            // ValueError: numpy cannot read a string as a float, and nothing catches it
    | NaNAmount             // a pair whose first item is None or NaN has a NaN amount, which has no `real`
    | UnrenderedCode        // `str()` of a pair's second item, for items whose rendering is not modelled
    | ShapeMismatch         // numpy cannot line up buffers or values of different lengths
    | NotImplemented        // a comparison operand is not a MoneyArray
    | NoOtherAttribute      // AttributeError: the cross-currency branch of an ordering reads `self.other`
    | NotAMoneyArray        // TypeError: `equals` given something that is not a MoneyArray
    | TakeFromEmpty         // IndexError: take from an empty array with an index other than -1
    | FillIndexBelowMinusOne // ValueError: take with fill and an index below -1
    | IndexOutOfRange       // IndexError: an index outside the buffer
    | MixedWithoutTarget    // TypeError: decimals of a mixed-currency array with no target or default
    | SetNotSubscriptable   // TypeError: the single code is read from a set by position
    | NoSuchReduction       // TypeError: a reduction name that has no kernel
    | EmptyReduction        // min or max of an empty column
    | NotADtypeString       // TypeError: a dtype string that names no money type
    | VectorizeEmpty        // ValueError: numpy.vectorize without otypes called on a size-0 column
    | UnsetCurrency         // ValueError: a reduced money value built with no currency (`None` or `''`)
}
