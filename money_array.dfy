/**
 * The `MoneyArray` container of moneypandas/money_array.py: a mutable record
 * buffer and an optional default code. The operations that work step by step on
 * the buffer are methods proved against the functions of BufferOps.
 */
module MoneyArrays {
  import opened Wrappers
  import opened Money
  import opened Dtypes
  import opened Parser
  import opened Codes
  import opened Reductions
  import opened BufferOps

  class MoneyArray {
    var data: array<Record>
    var defaultCode: Option<string>

    /** Every slot fits the record type: its code has at most three characters. */
    ghost predicate Valid()
      reads this, data
    {
      AllStorable(data[..])
    }

    /** A new array owning a copy of a buffer (the constructor given records, whose
        re-parse changes nothing: Parser.ReparseIsIdentity). */
    constructor FromBuffer(buf: seq<Record>, code: Option<string>)
      requires AllStorable(buf)
      ensures Valid() && fresh(data) && data[..] == buf && defaultCode == code
    {
      data := new Record[|buf|](i requires 0 <= i < |buf| => buf[i]);
      defaultCode := code;
    }

    /** `MoneyArray(other, code)` (money_array.py:78-89, parser.py:48-51): the new
        array shares the other array's buffer and takes the given default code. */
    constructor Sharing(other: MoneyArray, code: Option<string>)
      requires other.Valid()
      ensures Valid() && data == other.data && defaultCode == code
    {
      data := other.data;
      defaultCode := code;
    }

    /** `MoneyArray(values, code)` for a sequence of scalars (money_array.py:78-89):
        every value parsed with the default code. */
    static method Parse(xs: seq<Scalar>, code: Option<string>, table: SymbolTable) returns (r: Result<MoneyArray, Error>)
      ensures match ParseAll(xs, table, code)
              case Err(e) => r == Err(e)
              case Ok(buf) => r.Ok? && fresh(r.value) && fresh(r.value.data) && r.value.Valid() &&
                              r.value.data[..] == buf && r.value.defaultCode == code
    {
      var parsed := ParseAll(xs, table, code);
      if parsed.Err? {
        return Err(parsed.error);
      }
      var a := new MoneyArray.FromBuffer(parsed.value, code);
      r := Ok(a);
    }

    /** `isna` (money_array.py:297-298). */
    function IsNa(): (m: Mask)
      reads this, data
      ensures |m| == data.Length && forall i :: 0 <= i < data.Length ==> (m[i] <==> data[i].code == "")
    {
      BufferOps.IsNa(data[..])
    }

    /** `__eq__` (money_array.py:387-394); `null` stands for an operand that is not a MoneyArray. */
    function Eq(other: MoneyArray?): (r: Result<Mask, Error>)
      reads this, data, other, if other == null then {} else {other.data}
      ensures other == null ==> r == Err(NotImplemented)
      ensures other != null ==> (r.Ok? <==> data.Length == other.data.Length)
      ensures r.Ok? ==> other != null && data.Length == other.data.Length == |r.value| &&
                        forall i :: 0 <= i < data.Length && r.value[i] ==> data[i] == other.data[i] && data[i].code != ""
    {
      if other == null then Err(NotImplemented) else EqMask(data[..], other.data[..])
    }

    /** `equals` (money_array.py:448-453). */
    function Equals(other: MoneyArray?): (r: Result<bool, Error>)
      reads this, data, other, if other == null then {} else {other.data}
      ensures r.Err? <==> other == null
      ensures other != null ==> (r == Ok(true) <==> data[..] == other.data[..])
    {
      BufferOps.Equals(data[..], if other == null then None else Some(other.data[..]))
    }

    /** `_reduce` (money_array.py:160-195). */
    function Reduce(name: string, rate: RateSource): (r: Result<MoneyValue, Error>)
      reads this, data
      ensures (name == "sum" || name == "mean") && (Currencies(data[..]) != [] || IsSet(defaultCode)) ==> r.Ok?
      ensures r.Err? ==> r.error in {NoSuchReduction, EmptyReduction, UnsetCurrency}
      ensures r.Ok? ==> IsSet(r.value.code)
      ensures r.Ok? && |Currencies(data[..])| == 1 ==> r.value.code == Some(Currencies(data[..])[0])
    {
      ReduceContract(data[..], defaultCode, name, rate);
      Reductions.Reduce(data[..], defaultCode, name, rate)
    }

    /** `__lt__`, `__le__`, `__gt__`, `__ge__` (money_array.py:396-446): the raw
        comparison of the amounts, a pass over the `same` mask that fails at a present
        pair in different currencies, then false written at every missing slot. */
    method Order(op: Ordering, other: MoneyArray?) returns (r: Result<Mask, Error>)
      ensures other == null ==> r == Err(NotImplemented)
      ensures other != null ==> r == Compare(op, data[..], other.data[..])
    {
      if other == null {
        return Err(NotImplemented);
      }
      var a, b := data[..], other.data[..];
      if |a| != |b| {
        return Err(ShapeMismatch);
      }
      var n := |a|;
      var result := new bool[n](i requires 0 <= i < n => RawOrder(op, a[i].amount, b[i].amount));
      var i := 0;
      while i < n
        invariant 0 <= i <= n
        invariant forall j :: 0 <= j < i ==> SameOrMasked(a[j], b[j])
      {
        if !SameOrMasked(a[i], b[i]) {
          return Err(NoOtherAttribute);
        }
        i := i + 1;
      }
      i := 0;
      while i < n
        invariant 0 <= i <= n
        invariant forall j :: 0 <= j < i ==> result[j] == (!IsMissing(a[j]) && !IsMissing(b[j]) && RawOrder(op, a[j].amount, b[j].amount))
        invariant forall j :: i <= j < n ==> result[j] == RawOrder(op, a[j].amount, b[j].amount)
      {
        if IsMissing(a[i]) || IsMissing(b[i]) {
          result[i] := false;
        }
        i := i + 1;
      }
      r := Ok(result[..]);
      assert r.value == Compare(op, a, b).value;
    }

    /** `take` (money_array.py:251-286): a new array gathered from this one, with
        the fill record written at every `-1` when filling. */
    method Take(indices: seq<int>, allowFill: bool, fill: Option<Record>) returns (r: Result<MoneyArray, Error>)
      requires Valid()
      ensures match BufferOps.Take(data[..], defaultCode, indices, allowFill, fill)
              case Err(e) => r == Err(e)
              case Ok((buf, code)) => r.Ok? && fresh(r.value) && fresh(r.value.data) && r.value.Valid() &&
                                      r.value.data[..] == buf && r.value.defaultCode == code
    {
      var filler := Store(FillRecord(fill));
      var src := data[..];
      TakeContract(src, defaultCode, indices, allowFill, fill);
      if allowFill && data.Length == 0 {
        var allFill := AllFill(indices);
        if !allFill {
          return Err(TakeFromEmpty);
        }
        var filled := new MoneyArray.FromBuffer(seq(|indices|, _ => filler), None);
        return Ok(filled);
      }
      if allowFill {
        var below := AnyBelowMinusOne(indices);
        if below {
          return Err(FillIndexBelowMinusOne);
        }
      }
      var gathered := Gather(src, indices);
      if gathered.None? {
        return Err(IndexOutOfRange);
      }
      var out := gathered.value;
      if allowFill {
        out := FillMasked(out, indices, filler);
      }
      var taken := new MoneyArray.FromBuffer(out, defaultCode);
      r := Ok(taken);
    }

    /** `(indices == -1).all()`. */
    static method AllFill(indices: seq<int>) returns (b: bool)
      ensures b <==> forall i :: 0 <= i < |indices| ==> indices[i] == -1
    {
      var i := 0;
      while i < |indices|
        invariant 0 <= i <= |indices|
        invariant forall j :: 0 <= j < i ==> indices[j] == -1
      {
        if indices[i] != -1 {
          return false;
        }
        i := i + 1;
      }
      return true;
    }

    /** `(indices < -1).any()`. */
    static method AnyBelowMinusOne(indices: seq<int>) returns (b: bool)
      ensures b <==> exists i :: 0 <= i < |indices| && indices[i] < -1
    {
      var i := 0;
      while i < |indices|
        invariant 0 <= i <= |indices|
        invariant forall j :: 0 <= j < i ==> indices[j] >= -1
      {
        if indices[i] < -1 {
          return true;
        }
        i := i + 1;
      }
      return false;
    }

    /** The gather of `take(data, indices, allow_fill=False)`: the record at every
        index, negative ones counted from the end, or nothing when one is out of range. */
    static method Gather(src: seq<Record>, indices: seq<int>) returns (r: Option<seq<Record>>)
      ensures r.None? <==> exists i :: 0 <= i < |indices| && Position(indices[i], |src|).None?
      ensures r.Some? ==> |r.value| == |indices| &&
                          forall i :: 0 <= i < |indices| ==> r.value[i] == src[Position(indices[i], |src|).value]
    {
      var n, m := |src|, |indices|;
      var out := new Record[m];
      var i := 0;
      while i < m
        invariant 0 <= i <= m
        invariant forall j :: 0 <= j < i ==> Position(indices[j], n).Some? && out[j] == src[Position(indices[j], n).value]
      {
        var p := Position(indices[i], n);
        if p.None? {
          return None;
        }
        out[i] := src[p.value];
        i := i + 1;
      }
      return Some(out[..]);
    }

    /** `result[mask] = fill_value` with `mask = (indices == -1)`. */
    static method FillMasked(buf: seq<Record>, indices: seq<int>, filler: Record) returns (r: seq<Record>)
      requires |buf| == |indices|
      ensures |r| == |buf|
      ensures forall i :: 0 <= i < |buf| ==> r[i] == if indices[i] == -1 then filler else buf[i]
    {
      var out := new Record[|buf|](i requires 0 <= i < |buf| => buf[i]);
      var i := 0;
      while i < |buf|
        invariant 0 <= i <= |buf|
        invariant forall j :: 0 <= j < i ==> out[j] == if indices[j] == -1 then filler else buf[j]
        invariant forall j :: i <= j < |buf| ==> out[j] == buf[j]
      {
        if indices[i] == -1 {
          out[i] := filler;
        }
        i := i + 1;
      }
      return out[..];
    }

    /** `__setitem__` (money_array.py:327-331): the value is parsed with this array's
        default code and written at the key, in place; on an error nothing changes. */
    method SetItem(key: Key, value: Input, table: SymbolTable) returns (r: Result<(), Error>)
      requires Valid()
      modifies data
      ensures Valid()
      ensures match Assign(old(data[..]), defaultCode, key, value, table)
              case Ok(buf) => r.Ok? && data[..] == buf
              case Err(e) => r == Err(e) && data[..] == old(data[..])
    {
      var buf := data[..];
      var outcome := Assign(buf, defaultCode, key, value, table);
      if outcome.Err? {
        return Err(outcome.error);
      }
      AssignPlan(buf, defaultCode, key, value, table);
      var vals := ToMoney(value, table, defaultCode).value.0;
      var ps := Positions(KeyIndices(key), data.Length).value;
      var w := Written(key, vals, ps);
      WriteEach(data, ps, w);
      r := Ok(());
    }

    /** `self.data[key] = value` once the key is resolved to positions: the values
        are written in order, so a later write to the same slot wins. */
    static method WriteEach(a: array<Record>, ps: seq<nat>, w: seq<Record>)
      requires |ps| == |w| && forall j :: 0 <= j < |ps| ==> ps[j] < a.Length
      modifies a
      ensures a[..] == WriteAll(old(a[..]), ps, w)
    {
      ghost var buf := a[..];
      var i := 0;
      while i < |ps|
        invariant 0 <= i <= |ps|
        invariant a[..] == WriteAll(buf, ps[..i], w[..i])
      {
        WriteAllStep(buf, ps, w, i);
        a[ps[i]] := w[i];
        i := i + 1;
      }
      assert ps[..|ps|] == ps && w[..|w|] == w;
    }

    /** `to_currency` (money_array.py:467-497). Shallow: only the default code is set,
        on this array when in place, else on a copy. Deep: every present slot in
        another code is converted, the buffer of this array only when in place; the
        result is a new array with the target as default code. */
    method ToCurrency(target: string, shallow: bool, inPlace: bool, rate: RateSource) returns (r: MoneyArray)
      requires Valid()
      modifies this, data
      ensures Valid() && r.Valid() && data == old(data)
      ensures shallow && inPlace ==> r == this && data[..] == old(data[..]) && defaultCode == Some(target)
      ensures !(shallow && inPlace) ==> fresh(r) && fresh(r.data) && r.defaultCode == Some(target) &&
                                        defaultCode == old(defaultCode)
      ensures shallow && !inPlace ==> r.data[..] == old(data[..]) && data[..] == old(data[..])
      ensures !shallow ==> r.data[..] == DeepConvert(old(data[..]), target, rate)
      ensures !shallow ==> data[..] == if inPlace then DeepConvert(old(data[..]), target, rate) else old(data[..])
    {
      if shallow {
        if inPlace {
          defaultCode := Some(target);
          return this;
        }
        r := new MoneyArray.FromBuffer(data[..], Some(target));
        return r;
      }
      var src := data[..];
      var n := data.Length;
      var result := data;
      if !inPlace {
        result := new Record[n](i requires 0 <= i < n => src[i]);
      }
      var i := 0;
      while i < n
        invariant 0 <= i <= n && result.Length == n
        invariant data == old(data) && defaultCode == old(defaultCode)
        invariant inPlace ==> result == data
        invariant !inPlace ==> fresh(result) && data[..] == src
        invariant forall j :: 0 <= j < i ==> result[j] == DeepConvert(src, target, rate)[j]
        invariant forall j :: i <= j < n ==> result[j] == src[j]
      {
        if !Unconverted(src[i], target) {
          result[i] := Store(Record(Convert(rate, src[i].amount, src[i].code, target), target));
        }
        i := i + 1;
      }
      assert result[..] == DeepConvert(src, target, rate);
      r := new MoneyArray.FromBuffer(result[..], Some(target));
    }

    /** `to_decimals` (money_array.py:114-131): the amount column, with every
        present slot in another code converted to the target code. */
    method ToDecimals(target: Option<string>, rate: RateSource) returns (r: Result<seq<real>, Error>)
      ensures r == Decimals(data[..], defaultCode, target, rate)
    {
      var code := target;
      if !IsSet(code) {
        code := defaultCode;
        if !IsSet(code) {
          var codes := Currencies(data[..]);
          if |codes| != 1 {
            return Err(MixedWithoutTarget);
          }
          return Err(SetNotSubscriptable);
        }
      }
      var c := code.value;
      var src := data[..];
      var n := |src|;
      if n == 0 {
        return Err(VectorizeEmpty);
      }
      var result := new real[n](i requires 0 <= i < n => src[i].amount);
      var i := 0;
      while i < n
        invariant 0 <= i <= n
        invariant forall j :: 0 <= j < i ==> result[j] == DecimalsIn(src, c, rate)[j]
        invariant forall j :: i <= j < n ==> result[j] == src[j].amount
      {
        if !Unconverted(src[i], c) {
          result[i] := Convert(rate, src[i].amount, src[i].code, c);
        }
        i := i + 1;
      }
      r := Ok(result[..]);
      assert result[..] == DecimalsIn(src, c, rate);
    }
  }
}
