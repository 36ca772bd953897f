/**
 * What the MoneyArray operations compute, as functions of the record buffer
 * (moneypandas/money_array.py): the missing mask, the element-wise comparisons,
 * `equals`, `take`, item assignment, deep currency conversion and the decimal
 * view. The class in money_array.dfy runs these step by step and is proved
 * against them.
 */
module BufferOps {
  import opened Wrappers
  import opened Money
  import opened Dtypes
  import opened Parser
  import opened Codes
  import opened Reductions

  type Mask = seq<bool>

  // ---------------------------------------------------------------------------
  // isna, ==, equals
  // ---------------------------------------------------------------------------

  /** `isna` (money_array.py:297-298): the slots whose code is empty. */
  function IsNa(buf: seq<Record>): (m: Mask)
    ensures |m| == |buf| && forall i :: 0 <= i < |buf| ==> (m[i] <==> buf[i].code == "")
  {
    seq(|buf|, i requires 0 <= i < |buf| => IsMissing(buf[i]))
  }

  /** Whether a slot is missing depends on its code alone, never on its amount. */
  lemma IsNaReadsOnlyCodes(a: seq<Record>, b: seq<Record>)
    requires |a| == |b| && forall i :: 0 <= i < |a| ==> a[i].code == b[i].code
    ensures IsNa(a) == IsNa(b)
    ensures forall i :: 0 <= i < |a| ==> (IsNa(a)[i] <==> a[i].code == "")
  {
  }

  /** `__eq__` (money_array.py:387-394): exact record equality, no conversion, false
      wherever either side is missing. */
  function EqMask(a: seq<Record>, b: seq<Record>): (r: Result<Mask, Error>)
    ensures r.Ok? <==> |a| == |b|
    ensures r.Err? ==> r.error == ShapeMismatch
    ensures r.Ok? ==> |r.value| == |a| && forall i :: 0 <= i < |a| && r.value[i] ==> a[i] == b[i] && !IsMissing(a[i])
  {
    if |a| != |b| then Err(ShapeMismatch)
    else Ok(seq(|a|, i requires 0 <= i < |a| => !IsMissing(a[i]) && !IsMissing(b[i]) && a[i] == b[i]))
  }

  /** `equals` (money_array.py:448-453): every stored record equal, missing ones
      included; a non-array operand is refused. */
  function Equals(a: seq<Record>, other: Option<seq<Record>>): (r: Result<bool, Error>)
    ensures r.Err? <==> other.None?
    ensures other.Some? ==>
              (r == Ok(true) <==> |a| == |other.value| && forall i :: 0 <= i < |a| ==> a[i] == other.value[i])
  {
    match other
    case None => Err(NotAMoneyArray)
    case Some(b) => Ok(a == b)
  }

  /** `==` compares records exactly: a slot is true iff both sides are present and
      hold the same amount in the same currency; `equals` differs from "all true"
      only at slots that are missing on both sides with equal records. */
  lemma EqualityContract(a: seq<Record>, b: seq<Record>)
    requires |a| == |b|
    ensures EqMask(a, b).Ok? && |EqMask(a, b).value| == |a|
    ensures forall i :: 0 <= i < |a| ==>
              (EqMask(a, b).value[i] <==> !IsMissing(a[i]) && a[i].amount == b[i].amount && a[i].code == b[i].code)
    ensures Equals(a, Some(b)) == Ok(forall i :: 0 <= i < |a| ==> EqMask(a, b).value[i] || (IsMissing(a[i]) && a[i] == b[i]))
  {
  }

  /** An array is `==` to itself exactly at its present slots, and `equals` itself. */
  lemma EqualityReflexive(a: seq<Record>)
    ensures EqMask(a, a) == Ok(seq(|a|, i requires 0 <= i < |a| => !IsNa(a)[i]))
    ensures Equals(a, Some(a)) == Ok(true)
  {
    var m := EqMask(a, a).value;
    var n := seq(|a|, i requires 0 <= i < |a| => !IsNa(a)[i]);
    assert |m| == |a| == |n|;
    forall i | 0 <= i < |a| ensures m[i] == n[i] {
      assert n[i] == !IsNa(a)[i] == !IsMissing(a[i]);
    }
    assert m == n;
  }

  // ---------------------------------------------------------------------------
  // Ordering operators
  // ---------------------------------------------------------------------------

  datatype Ordering = Lt | Le | Gt | Ge

  /** The vectorised amount comparison each operator starts from; `__le__` uses a
      strict `<` (money_array.py:401, 414, 427, 440). */
  function RawOrder(op: Ordering, x: real, y: real): bool
  {
    match op
    case Lt => x < y
    case Le => x < y
    case Gt => x > y
    case Ge => x >= y
  }

  /** The `same` mask of the operators: the codes agree, or either slot is missing. */
  predicate SameOrMasked(x: Record, y: Record) {
    IsMissing(x) || IsMissing(y) || x.code == y.code
  }

  /** `__lt__`, `__le__`, `__gt__`, `__ge__` (money_array.py:396-446): the raw amount
      comparison, false at missing slots; a slot where both sides are present in
      different currencies reaches `self.other`, which does not exist. */
  function Compare(op: Ordering, a: seq<Record>, b: seq<Record>): (r: Result<Mask, Error>)
    ensures r.Ok? <==> |a| == |b| && forall i :: 0 <= i < |a| ==> SameOrMasked(a[i], b[i])
    ensures r.Ok? ==> |r.value| == |a|
    ensures r.Ok? ==> forall i :: 0 <= i < |a| && r.value[i] ==> !IsMissing(a[i]) && !IsMissing(b[i]) && a[i].code == b[i].code
  {
    if |a| != |b| then Err(ShapeMismatch)
    else if exists i :: 0 <= i < |a| && !SameOrMasked(a[i], b[i]) then Err(NoOtherAttribute)
    else Ok(seq(|a|, i requires 0 <= i < |a| => !IsMissing(a[i]) && !IsMissing(b[i]) && RawOrder(op, a[i].amount, b[i].amount)))
  }

  /** Every comparison is false at a slot where either operand is missing. */
  lemma ComparisonsFalseAtMissing(op: Ordering, a: seq<Record>, b: seq<Record>)
    ensures EqMask(a, b).Ok? ==> forall i :: 0 <= i < |a| && (IsMissing(a[i]) || IsMissing(b[i])) ==> !EqMask(a, b).value[i]
    ensures Compare(op, a, b).Ok? ==> forall i :: 0 <= i < |a| && (IsMissing(a[i]) || IsMissing(b[i])) ==> !Compare(op, a, b).value[i]
  {
  }

  /** Operands of equal length whose present slots agree on the currency compare
      their raw amounts; a present pair in different currencies fails the whole
      comparison. */
  lemma OrderingContract(op: Ordering, a: seq<Record>, b: seq<Record>)
    requires |a| == |b|
    ensures Compare(op, a, b).Ok? <==> forall i :: 0 <= i < |a| ==> SameOrMasked(a[i], b[i])
    ensures Compare(op, a, b).Err? ==> Compare(op, a, b).error == NoOtherAttribute
    ensures Compare(op, a, b).Ok? ==>
              |Compare(op, a, b).value| == |a| &&
              forall i :: 0 <= i < |a| && !IsMissing(a[i]) && !IsMissing(b[i]) ==>
                (Compare(op, a, b).value[i] <==> RawOrder(op, a[i].amount, b[i].amount))
  {
  }

  /** `a > b` is `b < a`, slot by slot and error by error. */
  lemma GreaterMirrorsLess(a: seq<Record>, b: seq<Record>)
    ensures Compare(Gt, a, b) == Compare(Lt, b, a)
  {
    if |a| == |b| {
      assert (exists i :: 0 <= i < |a| && !SameOrMasked(a[i], b[i])) <==>
             (exists i :: 0 <= i < |b| && !SameOrMasked(b[i], a[i]));
      if Compare(Gt, a, b).Ok? {
        var x := Compare(Gt, a, b).value;
        var y := Compare(Lt, b, a).value;
        assert forall i :: 0 <= i < |x| ==> x[i] == y[i];
        assert x == y;
      }
    }
  }

  /** `a <= b` computes `a < b`: equal amounts compare false. */
  lemma LessOrEqualIsStrict(a: seq<Record>, b: seq<Record>)
    ensures Compare(Le, a, b) == Compare(Lt, a, b)
  {
    if Compare(Le, a, b).Ok? {
      var x := Compare(Le, a, b).value;
      var y := Compare(Lt, a, b).value;
      assert forall i :: 0 <= i < |x| ==> x[i] == y[i];
      assert x == y;
    }
  }

  /** Hence `a <= b` and `b >= a` disagree on equal amounts: for one slot of 1 GBP on
      each side the first is false and the second true. */
  lemma LessOrEqualIsNotMirrorOfGreaterOrEqual()
    ensures Compare(Le, [Record(1.0, "GBP")], [Record(1.0, "GBP")]) == Ok([false])
    ensures Compare(Ge, [Record(1.0, "GBP")], [Record(1.0, "GBP")]) == Ok([true])
  {
    var a := [Record(1.0, "GBP")];
    assert !exists i :: 0 <= i < |a| && !SameOrMasked(a[i], a[i]);
    assert Compare(Le, a, a).value[0] == false && Compare(Ge, a, a).value[0] == true;
    assert Compare(Le, a, a).value == [false];
    assert Compare(Ge, a, a).value == [true];
  }

  // ---------------------------------------------------------------------------
  // take
  // ---------------------------------------------------------------------------

  /** numpy's reading of an index into a buffer of length `n`: negative indices
      count from the end. */
  function Position(i: int, n: nat): (p: Option<nat>)
    ensures p.Some? <==> -(n as int) <= i < n
    ensures p.Some? ==> p.value < n && (p.value == i || p.value == i + n)
  {
    if 0 <= i < n then Some(i) else if -(n as int) <= i < 0 then Some(i + n) else None
  }

  /** The record a fill writes: the given one, or the missing record (money_array.py:254-258). */
  function FillRecord(fill: Option<Record>): Record
  {
    if fill.Some? then fill.value else MissingRecord
  }

  /** `take` (money_array.py:251-286): the gathered buffer and the default code of
      the new array. */
  function Take(src: seq<Record>, defaultCode: Option<string>, indices: seq<int>, allowFill: bool, fill: Option<Record>)
    : (r: Result<(seq<Record>, Option<string>), Error>)
    ensures r.Ok? ==> |r.value.0| == |indices|
    ensures r.Ok? ==> forall i :: 0 <= i < |indices| ==> r.value.0[i] in src || r.value.0[i] == Store(FillRecord(fill))
    ensures r.Err? ==> r.error == TakeFromEmpty || r.error == FillIndexBelowMinusOne || r.error == IndexOutOfRange
  {
    var filler := Store(FillRecord(fill));
    if allowFill && |src| == 0 then
      if forall i :: 0 <= i < |indices| ==> indices[i] == -1 then Ok((seq(|indices|, _ => filler), None))
      else Err(TakeFromEmpty)
    else if allowFill && exists i :: 0 <= i < |indices| && indices[i] < -1 then Err(FillIndexBelowMinusOne)
    else if exists i :: 0 <= i < |indices| && Position(indices[i], |src|).None? then Err(IndexOutOfRange)
    else Ok((seq(|indices|, i requires 0 <= i < |indices| =>
               if allowFill && indices[i] == -1 then filler else src[Position(indices[i], |src|).value]),
             defaultCode))
  }

  /** What `take` promises: it succeeds exactly when the indices are acceptable
      (all `-1` when filling from an empty source; otherwise none below -1 when
      filling, and every index in range, `-1` included); then it gives one record
      per index, the fill record at every `-1` when filling, the indexed record
      elsewhere, and the source's default code. Each unacceptable case raises its
      own error, checked in the order empty source, below -1, out of range. */
  lemma TakeContract(src: seq<Record>, defaultCode: Option<string>, indices: seq<int>, allowFill: bool, fill: Option<Record>)
    requires AllStorable(src)
    ensures var r := Take(src, defaultCode, indices, allowFill, fill);
            r.Ok? <==>
              if allowFill && src == [] then forall i :: 0 <= i < |indices| ==> indices[i] == -1
              else (allowFill ==> forall i :: 0 <= i < |indices| ==> indices[i] >= -1) &&
                   forall i :: 0 <= i < |indices| ==> -(|src| as int) <= indices[i] < |src|
    ensures var r := Take(src, defaultCode, indices, allowFill, fill);
            (allowFill && src == [] && (exists i :: 0 <= i < |indices| && indices[i] != -1) ==> r == Err(TakeFromEmpty)) &&
            (allowFill && src != [] && (exists i :: 0 <= i < |indices| && indices[i] < -1) ==> r == Err(FillIndexBelowMinusOne)) &&
            ((!(allowFill && src == []) && !(allowFill && exists i :: 0 <= i < |indices| && indices[i] < -1) &&
              (exists i :: 0 <= i < |indices| && !(-(|src| as int) <= indices[i] < |src|))) ==> r == Err(IndexOutOfRange)) &&
            (r.Ok? ==>
              var (out, code) := r.value;
              |out| == |indices| && AllStorable(out) &&
              (code == if allowFill && src == [] then None else defaultCode) &&
              forall i :: 0 <= i < |indices| ==>
                out[i] == if allowFill && indices[i] == -1 then Store(FillRecord(fill))
                          else src[Position(indices[i], |src|).value])
  {
  }

  /** Without filling, every index in range is taken, negative ones from the end. */
  lemma TakeWithoutFill(src: seq<Record>, defaultCode: Option<string>, indices: seq<int>, fill: Option<Record>)
    requires forall i :: 0 <= i < |indices| ==> -(|src| as int) <= indices[i] < |src|
    ensures Take(src, defaultCode, indices, false, fill).Ok?
  {
  }

  // ---------------------------------------------------------------------------
  // Item assignment
  // ---------------------------------------------------------------------------

  /** The keys an assignment addresses: one index, or a list of indices. */
  datatype Key = At(i: int) | AtEach(indices: seq<int>)

  function KeyIndices(key: Key): seq<int>
  {
    match key
    case At(i) => [i]
    case AtEach(indices) => indices
  }

  /** Every index of the key read into the buffer, or the error of the first one out of range. */
  function Positions(indices: seq<int>, n: nat): (r: Result<seq<nat>, Error>)
    ensures r.Ok? <==> forall i :: 0 <= i < |indices| ==> Position(indices[i], n).Some?
    ensures r.Ok? ==> |r.value| == |indices| &&
                      forall i :: 0 <= i < |indices| ==> r.value[i] == Position(indices[i], n).value
  {
    if indices == [] then Ok([])
    else
      match Position(indices[0], n)
      case None => Err(IndexOutOfRange)
      case Some(p) =>
        assert forall i :: 1 <= i < |indices| ==> indices[i] == indices[1..][i - 1];
        match Positions(indices[1..], n)
        case Err(e) => Err(e)
        case Ok(ps) => Ok([p] + ps)
  }

  /** The writes of a fancy assignment, performed in order. */
  function WriteAll(buf: seq<Record>, ps: seq<nat>, vs: seq<Record>): (r: seq<Record>)
    requires |ps| == |vs| && forall i :: 0 <= i < |ps| ==> ps[i] < |buf|
    ensures |r| == |buf|
  {
    if ps == [] then buf
    else WriteAll(buf, ps[..|ps| - 1], vs[..|vs| - 1])[ps[|ps| - 1] := vs[|vs| - 1]]
  }

  /** Performing the writes one more step. */
  lemma WriteAllStep(buf: seq<Record>, ps: seq<nat>, vs: seq<Record>, i: nat)
    requires |ps| == |vs| && (forall j :: 0 <= j < |ps| ==> ps[j] < |buf|) && i < |ps|
    ensures WriteAll(buf, ps[..i + 1], vs[..i + 1]) == WriteAll(buf, ps[..i], vs[..i])[ps[i] := vs[i]]
  {
    assert ps[..i + 1][..i] == ps[..i] && vs[..i + 1][..i] == vs[..i];
  }

  /** The last write to slot `k`, if any. */
  function LastWrite(ps: seq<nat>, k: nat): (j: Option<nat>)
    ensures j.None? <==> k !in ps
    ensures j.Some? ==> j.value < |ps| && ps[j.value] == k && forall j' :: j.value < j' < |ps| ==> ps[j'] != k
  {
    if ps == [] then None
    else if ps[|ps| - 1] == k then Some(|ps| - 1)
    else
      var j := LastWrite(ps[..|ps| - 1], k);
      assert ps == ps[..|ps| - 1] + [ps[|ps| - 1]];
      j
  }

  /** After the writes, a slot holds the value of the last write to it, and a slot
      that is not written keeps its record: nothing else changes. */
  lemma {:induction false} WriteAllSlots(buf: seq<Record>, ps: seq<nat>, vs: seq<Record>, k: nat)
    requires |ps| == |vs| && (forall i :: 0 <= i < |ps| ==> ps[i] < |buf|) && k < |buf|
    ensures WriteAll(buf, ps, vs)[k] == match LastWrite(ps, k) case None => buf[k] case Some(j) => vs[j]
  {
    if ps != [] && ps[|ps| - 1] != k {
      WriteAllSlots(buf, ps[..|ps| - 1], vs[..|vs| - 1], k);
    }
  }

  /** `__setitem__` (money_array.py:327-331): the value goes through `to_money` with
      the array's default code, then numpy writes it at the key, one value at a
      scalar key, one value broadcast or one value per index at a list key. */
  function Assign(buf: seq<Record>, defaultCode: Option<string>, key: Key, value: Input, table: SymbolTable)
    : (r: Result<seq<Record>, Error>)
    ensures r.Ok? ==> |r.value| == |buf|
    ensures ToMoney(value, table, defaultCode).Err? ==> r == Err(ToMoney(value, table, defaultCode).error)
  {
    var (vals, _) :- ToMoney(value, table, defaultCode);
    var ps :- Positions(KeyIndices(key), |buf|);
    if key.At? then
      if |vals| != 1 then Err(ShapeMismatch) else Ok(buf[ps[0] := vals[0]])
    else if |vals| == 1 then Ok(WriteAll(buf, ps, seq(|ps|, _ => vals[0])))
    else if |vals| != |ps| then Err(ShapeMismatch)
    else Ok(WriteAll(buf, ps, vals))
  }

  /** The writes change only the written slots, and each written slot holds one of
      the written values. */
  lemma WriteAllFrame(buf: seq<Record>, ps: seq<nat>, vs: seq<Record>)
    requires |ps| == |vs| && forall i :: 0 <= i < |ps| ==> ps[i] < |buf|
    ensures forall k :: 0 <= k < |buf| && k !in ps ==> WriteAll(buf, ps, vs)[k] == buf[k]
    ensures forall k :: 0 <= k < |buf| && k in ps ==> WriteAll(buf, ps, vs)[k] in vs
  {
    forall k | 0 <= k < |buf| ensures k !in ps ==> WriteAll(buf, ps, vs)[k] == buf[k]
                             ensures k in ps ==> WriteAll(buf, ps, vs)[k] in vs {
      WriteAllSlots(buf, ps, vs, k);
    }
  }

  /** The values an assignment writes: the parsed value repeated at every position
      when there is one, else one parsed value per position. */
  function Written(key: Key, vals: seq<Record>, ps: seq<nat>): seq<Record>
  {
    if (key.At? || |vals| == 1) && vals != [] then seq(|ps|, _ => vals[0]) else vals
  }

  /** The successful assignment as a sequence of writes of parsed values. */
  lemma AssignWrites(buf: seq<Record>, defaultCode: Option<string>, key: Key, value: Input, table: SymbolTable)
    requires Assign(buf, defaultCode, key, value, table).Ok?
    ensures var vals := ToMoney(value, table, defaultCode).value.0;
            var ps := Positions(KeyIndices(key), |buf|).value;
            ToMoney(value, table, defaultCode).Ok? && Positions(KeyIndices(key), |buf|).Ok? &&
            |Written(key, vals, ps)| == |ps| &&
            (forall i :: 0 <= i < |ps| ==> ps[i] < |buf|) &&
            Assign(buf, defaultCode, key, value, table).value == WriteAll(buf, ps, Written(key, vals, ps))
  {
    var vals := ToMoney(value, table, defaultCode).value.0;
    var ps := Positions(KeyIndices(key), |buf|).value;
    if key.At? {
      var w := Written(key, vals, ps);
      assert ps[..0] == [] && w[..0] == [];
    }
  }

  /** An assignment keeps the length and the storable form of the buffer, changes
      only the addressed slots, and writes there only values parsed from the
      assigned value. */
  lemma AssignContract(buf: seq<Record>, defaultCode: Option<string>, key: Key, value: Input, table: SymbolTable)
    requires AllStorable(buf)
    requires Assign(buf, defaultCode, key, value, table).Ok?
    ensures var r := Assign(buf, defaultCode, key, value, table).value;
            var vals := ToMoney(value, table, defaultCode).value.0;
            var ps := Positions(KeyIndices(key), |buf|).value;
            |r| == |buf| && AllStorable(r) &&
            (forall k :: 0 <= k < |buf| && k !in ps ==> r[k] == buf[k]) &&
            (forall k :: 0 <= k < |buf| && k in ps ==> r[k] in vals)
  {
    AssignWrites(buf, defaultCode, key, value, table);
    var vals := ToMoney(value, table, defaultCode).value.0;
    var ps := Positions(KeyIndices(key), |buf|).value;
    var w := Written(key, vals, ps);
    WriteAllFrame(buf, ps, w);
    assert forall x :: x in w ==> x in vals;
  }

  /** A successful assignment, as the list of writes that performs it. */
  lemma AssignPlan(buf: seq<Record>, defaultCode: Option<string>, key: Key, value: Input, table: SymbolTable)
    requires AllStorable(buf) && Assign(buf, defaultCode, key, value, table).Ok?
    ensures ToMoney(value, table, defaultCode).Ok? && Positions(KeyIndices(key), |buf|).Ok?
    ensures var ps := Positions(KeyIndices(key), |buf|).value;
            var w := Written(key, ToMoney(value, table, defaultCode).value.0, ps);
            var r := Assign(buf, defaultCode, key, value, table).value;
            |ps| == |w| && (forall j :: 0 <= j < |ps| ==> ps[j] < |buf|) &&
            r == WriteAll(buf, ps, w) && AllStorable(r)
  {
    AssignWrites(buf, defaultCode, key, value, table);
    AssignContract(buf, defaultCode, key, value, table);
  }

  /** Assigning one value that is not list-like at an index in range writes its
      parsed record there and nowhere else (tests/test_ip.py:179-183). */
  lemma AssignScalar(buf: seq<Record>, defaultCode: Option<string>, i: int, x: Scalar, table: SymbolTable)
    requires -(|buf| as int) <= i < |buf| && !IsListLike(x) && AsMoneyObject(x, table, defaultCode).Ok?
    ensures Assign(buf, defaultCode, At(i), Single(x), table) ==
            Ok(buf[Position(i, |buf|).value := Store(AsMoneyObject(x, table, defaultCode).value)])
  {
    ToMoneyWrapsAScalar(x, table, defaultCode);
  }

  /** Assigning a list of values at a list of distinct positions writes each value at
      its own position (tests/test_ip.py:186-190). */
  lemma AssignList(buf: seq<Record>, defaultCode: Option<string>, ps: seq<nat>, xs: seq<Scalar>, table: SymbolTable, j: nat)
    requires |ps| == |xs| && |xs| != 1 && j < |ps|
    requires forall i :: 0 <= i < |ps| ==> ps[i] < |buf|
    requires forall i, i' :: 0 <= i < i' < |ps| ==> ps[i] != ps[i']
    requires forall i :: 0 <= i < |xs| ==> AsMoneyObject(xs[i], table, defaultCode).Ok?
    ensures Assign(buf, defaultCode, AtEach(ps), ListLike(Items(xs)), table).Ok?
    ensures Assign(buf, defaultCode, AtEach(ps), ListLike(Items(xs)), table).value[ps[j]] ==
            Store(AsMoneyObject(xs[j], table, defaultCode).value)
  {
    ToMoneyParsesEachElement(xs, table, defaultCode);
    var t := ToMoney(ListLike(Items(xs)), table, defaultCode);
    assert t.Ok?;
    var vals := t.value.0;
    assert |vals| == |xs| && vals[j] == Store(AsMoneyObject(xs[j], table, defaultCode).value);
    AssignAtEach(buf, defaultCode, ps, ListLike(Items(xs)), table);
    WriteAllDistinct(buf, ps, vals, j);
  }

  /** Writes at distinct positions: the j-th position holds the j-th value. */
  lemma WriteAllDistinct(buf: seq<Record>, ps: seq<nat>, vs: seq<Record>, j: nat)
    requires |ps| == |vs| && j < |ps| && forall i :: 0 <= i < |ps| ==> ps[i] < |buf|
    requires forall i, i' :: 0 <= i < i' < |ps| ==> ps[i] != ps[i']
    ensures WriteAll(buf, ps, vs)[ps[j]] == vs[j]
  {
    WriteAllSlots(buf, ps, vs, ps[j]);
    assert LastWrite(ps, ps[j]) == Some(j);
  }

  /** Values parsed one per position, at positions in range, are written in order. */
  lemma AssignAtEach(buf: seq<Record>, defaultCode: Option<string>, ps: seq<nat>, value: Input, table: SymbolTable)
    requires forall i :: 0 <= i < |ps| ==> ps[i] < |buf|
    requires ToMoney(value, table, defaultCode).Ok? && |ToMoney(value, table, defaultCode).value.0| == |ps| != 1
    ensures Assign(buf, defaultCode, AtEach(ps), value, table) ==
            Ok(WriteAll(buf, ps, ToMoney(value, table, defaultCode).value.0))
  {
    var pos := Positions(ps, |buf|);
    assert pos.Ok?;
    assert pos.value == ps;
  }

  /** A pair assigned to a slot is parsed item by item, so `arr[i] = (5, 'GBP')` fails. */
  lemma AssignPairFails(buf: seq<Record>, defaultCode: Option<string>, i: int, amount: real, c: string, table: SymbolTable)
    requires IsCode(c)
    ensures Assign(buf, defaultCode, At(i), Single(Pair(Number(amount), Text(c))), table).Err?
  {
    ToMoneyOfAPairFails(amount, c, table, defaultCode);
  }

  // ---------------------------------------------------------------------------
  // Conversion and the decimal view
  // ---------------------------------------------------------------------------

  /** A slot keeps its record when it is missing or already in the target code. */
  predicate Unconverted(r: Record, target: string) {
    IsMissing(r) || r.code == target
  }

  /** The buffer after deep `to_currency` (money_array.py:475-487): every present slot
      in another code becomes its converted amount in the target code, written
      into the three-character code field. */
  function DeepConvert(buf: seq<Record>, target: string, rate: RateSource): (r: seq<Record>)
    ensures |r| == |buf|
    ensures forall i :: 0 <= i < |buf| && Unconverted(buf[i], target) ==> r[i] == buf[i]
    ensures forall i :: 0 <= i < |buf| && !Unconverted(buf[i], target) ==> r[i].code == StoreCode(target)
  {
    seq(|buf|, i requires 0 <= i < |buf| =>
      if Unconverted(buf[i], target) then buf[i]
      else Store(Record(Convert(rate, buf[i].amount, buf[i].code, target), target)))
  }

  /** With a real code as target, deep conversion leaves a single-currency buffer:
      missing slots stay missing, every other slot ends up in the target code, and a
      second conversion changes nothing. */
  lemma DeepConvertContract(buf: seq<Record>, target: string, rate: RateSource)
    requires IsCode(target)
    ensures IsNa(DeepConvert(buf, target, rate)) == IsNa(buf)
    ensures forall i :: 0 <= i < |buf| && !IsMissing(buf[i]) ==> DeepConvert(buf, target, rate)[i].code == target
    ensures |Currencies(DeepConvert(buf, target, rate))| <= 1
    ensures DeepConvert(DeepConvert(buf, target, rate), target, rate) == DeepConvert(buf, target, rate)
  {
    var d := DeepConvert(buf, target, rate);
    if exists k :: 0 <= k < |d| && !IsMissing(d[k]) {
      var k :| 0 <= k < |d| && !IsMissing(d[k]);
      SingleCurrency(d, target, k);
    } else {
      NoCurrencies(d);
    }
  }

  /** The values `to_decimals` returns once its target code is settled
      (money_array.py:123-131). */
  function DecimalsIn(buf: seq<Record>, code: string, rate: RateSource): (r: seq<real>)
    ensures |r| == |buf|
  {
    seq(|buf|, i requires 0 <= i < |buf| =>
      if Unconverted(buf[i], code) then buf[i].amount else Convert(rate, buf[i].amount, buf[i].code, code))
  }

  /** `to_decimals(money_code)` (money_array.py:114-131): the target is the argument,
      else the default code; without either the code is read out of a set by
      position, which fails whatever the set holds. Once the code is settled,
      `np.vectorize(decimal.Decimal)` is applied to the amount column, and numpy
      refuses to vectorize over an empty column when no output type is given. */
  function Decimals(buf: seq<Record>, defaultCode: Option<string>, target: Option<string>, rate: RateSource)
    : (r: Result<seq<real>, Error>)
    ensures r.Ok? ==> buf != [] && |r.value| == |buf|
    ensures r.Ok? ==> forall i :: 0 <= i < |buf| && IsMissing(buf[i]) ==> r.value[i] == buf[i].amount
  {
    var code :- DecimalsCode(buf, defaultCode, target);
    if buf == [] then Err(VectorizeEmpty) else Ok(DecimalsIn(buf, code, rate))
  }

  /** The code `to_decimals` converts to (money_array.py:114-121). */
  function DecimalsCode(buf: seq<Record>, defaultCode: Option<string>, target: Option<string>): Result<string, Error>
  {
    if IsSet(target) then Ok(target.value)
    else if IsSet(defaultCode) then Ok(defaultCode.value)
    else if |Currencies(buf)| != 1 then Err(MixedWithoutTarget)
    else Err(SetNotSubscriptable)
  }

  /** The decimal view in a code is the amount column of the buffer deep-converted
      to that code, as long as the code fits the code field. */
  lemma DecimalsAreConvertedAmounts(buf: seq<Record>, code: string, rate: RateSource)
    requires |code| <= 3
    ensures DecimalsIn(buf, code, rate) == Amounts(DeepConvert(buf, code, rate))
  {
    var d := DeepConvert(buf, code, rate);
    assert forall i :: 0 <= i < |buf| ==> DecimalsIn(buf, code, rate)[i] == Amounts(d)[i];
  }

  /** A non-empty buffer already in one code gives its amounts back
      (tests/test_ip.py:154-158); an empty one fails inside numpy. */
  lemma DecimalsOfOneCurrency(buf: seq<Record>, code: string, rate: RateSource)
    requires code != "" && forall i :: 0 <= i < |buf| ==> Unconverted(buf[i], code)
    ensures Decimals(buf, Some(code), None, rate) == if buf == [] then Err(VectorizeEmpty) else Ok(Amounts(buf))
  {
    assert DecimalsIn(buf, code, rate) == Amounts(buf);
  }

  /** `to_decimals` fails exactly when there is neither a target nor a default code
      (even for an array with exactly one currency) or when the array is empty. */
  lemma DecimalsNeedACode(buf: seq<Record>, defaultCode: Option<string>, target: Option<string>, rate: RateSource)
    ensures Decimals(buf, defaultCode, target, rate).Err? <==> (!IsSet(target) && !IsSet(defaultCode)) || buf == []
    ensures buf == [] && (IsSet(target) || IsSet(defaultCode)) ==> Decimals(buf, defaultCode, target, rate) == Err(VectorizeEmpty)
    ensures !IsSet(target) && !IsSet(defaultCode) ==>
              Decimals(buf, defaultCode, target, rate) == Err(if |Currencies(buf)| != 1 then MixedWithoutTarget else SetNotSubscriptable)
  {
  }

  /** A shallow conversion (which only sets the default code) followed by
      `to_decimals()` gives the same values as a deep conversion followed by
      `to_decimals()`: the decimal view converts slot by slot either way. */
  lemma ShallowAndDeepAgreeOnDecimals(buf: seq<Record>, code: string, rate: RateSource)
    requires IsCode(code)
    ensures Decimals(buf, Some(code), None, rate) == Decimals(DeepConvert(buf, code, rate), Some(code), None, rate)
  {
    var d := DeepConvert(buf, code, rate);
    assert forall i :: 0 <= i < |buf| ==> Unconverted(d[i], code);
    DecimalsAreConvertedAmounts(buf, code, rate);
    DecimalsOfOneCurrency(d, code, rate);
  }
}
