/**
 * `MoneyArray._reduce` (moneypandas/money_array.py:160-195) with the kernels
 * `_min`, `_max` and `_sum` (:134-158) as plain reductions of a sequence of
 * amounts. A column with more than one currency is partitioned by currency,
 * each part reduced, the subtotals converted to one target code and reduced
 * again; otherwise the whole amount column is reduced.
 */
module Reductions {
  import opened Wrappers
  import opened Money
  import opened Codes

  datatype Kernel = KMin | KMax | KSum

  /** The kernel `_reduce` looks up for a reduction name; `mean` borrows `_sum`. */
  function KernelFor(name: string): (k: Option<Kernel>)
    ensures k.Some? <==> name in {"min", "max", "sum", "mean"}
    ensures name == "mean" ==> k == Some(KSum)
  {
    if name == "min" then Some(KMin)
    else if name == "max" then Some(KMax)
    else if name == "sum" || name == "mean" then Some(KSum)
    else None
  }

  function Sum(xs: seq<real>): real
  {
    if xs == [] then 0.0 else xs[0] + Sum(xs[1..])
  }

  lemma {:induction false} SumAppend(xs: seq<real>, ys: seq<real>)
    ensures Sum(xs + ys) == Sum(xs) + Sum(ys)
  {
    if xs != [] {
      assert (xs + ys)[0] == xs[0] && (xs + ys)[1..] == xs[1..] + ys;
      SumAppend(xs[1..], ys);
      assert Sum(xs + ys) == (xs + ys)[0] + Sum((xs + ys)[1..]);
    } else {
      assert xs + ys == ys;
    }
  }

  /** The smallest element: one of the elements, below or equal to every other. */
  function Min(xs: seq<real>): (m: real)
    requires xs != []
    ensures m in xs && forall x :: x in xs ==> m <= x
  {
    if |xs| == 1 then xs[0]
    else
      var rest := Min(xs[1..]);
      assert forall x :: x in xs ==> x == xs[0] || x in xs[1..];
      if xs[0] <= rest then xs[0] else rest
  }

  /** The largest element: one of the elements, above or equal to every other. */
  function Max(xs: seq<real>): (m: real)
    requires xs != []
    ensures m in xs && forall x :: x in xs ==> x <= m
  {
    if |xs| == 1 then xs[0]
    else
      var rest := Max(xs[1..]);
      assert forall x :: x in xs ==> x == xs[0] || x in xs[1..];
      if xs[0] >= rest then xs[0] else rest
  }

  /** A kernel applied to a column; the minimum or maximum of an empty column is an error. */
  function Run(k: Kernel, xs: seq<real>): (r: Result<real, Error>)
    ensures r.Err? <==> xs == [] && k != KSum
  {
    match k
    case KSum => Ok(Sum(xs))
    case KMin => if xs == [] then Err(EmptyReduction) else Ok(Min(xs))
    case KMax => if xs == [] then Err(EmptyReduction) else Ok(Max(xs))
  }

  /** The amount column. */
  function Amounts(buf: seq<Record>): (xs: seq<real>)
    ensures |xs| == |buf| && forall i :: 0 <= i < |buf| ==> xs[i] == buf[i].amount
  {
    seq(|buf|, i requires 0 <= i < |buf| => buf[i].amount)
  }

  /** `data['va'][data['cu'] == c]`: the amounts of the slots whose code is `c`, in order. */
  function AmountsIn(buf: seq<Record>, c: string): (xs: seq<real>)
    ensures forall x :: x in xs <==> exists i :: 0 <= i < |buf| && buf[i].code == c && buf[i].amount == x
    ensures (exists i :: 0 <= i < |buf| && buf[i].code == c) ==> xs != []
  {
    if buf == [] then []
    else
      var rest := AmountsIn(buf[1..], c);
      assert forall i :: 1 <= i < |buf| ==> buf[i] == buf[1..][i - 1];
      var part := if buf[0].code == c then [buf[0].amount] else [];
      assert forall x :: x in part + rest <==> x in part || x in rest;
      assert forall x :: x in rest <==> exists i :: 1 <= i < |buf| && buf[i].code == c && buf[i].amount == x by {
        forall x | x in rest ensures exists i :: 1 <= i < |buf| && buf[i].code == c && buf[i].amount == x {
          var j :| 0 <= j < |buf[1..]| && buf[1..][j].code == c && buf[1..][j].amount == x;
          assert buf[j + 1] == buf[1..][j];
        }
      }
      part + rest
  }

  /** Every currency's subtotal, converted to the target code, in the order of `cs`. */
  function Subtotals(k: Kernel, buf: seq<Record>, cs: seq<string>, target: string, rate: RateSource)
    : (r: Result<seq<real>, Error>)
    ensures r.Ok? ==> |r.value| == |cs|
    ensures k == KSum ==> r.Ok?
    ensures r.Err? ==> r.error == EmptyReduction
  {
    if cs == [] then Ok([])
    else
      var v :- Run(k, AmountsIn(buf, cs[0]));
      var rest :- Subtotals(k, buf, cs[1..], target, rate);
      Ok([Convert(rate, v, cs[0], target)] + rest)
  }

  /** The code a mixed-currency reduction is expressed in: the default code when it
      is set, else the first currency in numpy's order (money_array.py:174). */
  function MixedTarget(cs: seq<string>, defaultCode: Option<string>): (t: string)
    requires cs != [] && Increasing(cs)
    ensures IsSet(defaultCode) ==> t == defaultCode.value
    ensures !IsSet(defaultCode) ==> t in cs && forall c :: c in cs && c != t ==> Below(t, c)
  {
    if IsSet(defaultCode) then defaultCode.value
    else
      assert forall c :: c in cs && c != cs[0] ==> Below(cs[0], c) by {
        forall c | c in cs && c != cs[0] ensures Below(cs[0], c) {
          var j :| 0 <= j < |cs| && cs[j] == c;
        }
      }
      cs[0]
  }

  /** `_reduce(name)`: the reduced amount and the code it is tagged with. The result
      is built as `XMoney(total, money_code)`, which refuses an absent or empty code:
      a column with no present slot and no default code cannot be reduced. */
  function Reduce(buf: seq<Record>, defaultCode: Option<string>, name: string, rate: RateSource)
    : (r: Result<MoneyValue, Error>)
    ensures KernelFor(name).None? ==> r == Err(NoSuchReduction)
    ensures Currencies(buf) == [] && !IsSet(defaultCode) ==> r.Err?
  {
    var cs := Currencies(buf);
    match KernelFor(name)
    case None => Err(NoSuchReduction)
    case Some(k) =>
      if |cs| > 1 then
        var target := MixedTarget(cs, defaultCode);
        var subtotals :- Subtotals(k, buf, cs, target, rate);
        var total :- Run(k, subtotals);
        assert cs[0] in cs;
        Ok(MoneyValue(if name == "mean" then total / (|buf| as real) else total, Some(target)))
      else
        var total :- Run(k, Amounts(buf));
        if |cs| == 1 then Ok(MoneyValue(total, Some(cs[0])))
        else if IsSet(defaultCode) then Ok(MoneyValue(total, defaultCode))
        else Err(UnsetCurrency)
  }

  /** `sum` and `mean` succeed whenever some slot is present or a default code is
      set, and fail with no currency to tag the result with otherwise; `min` and
      `max` fail also on an empty column. The result is tagged with the mixed target
      when there are several currencies, with the one currency when there is one,
      and with the default code otherwise, and that tag is always a set code
      (money_array.py:173-195). */
  lemma ReduceContract(buf: seq<Record>, defaultCode: Option<string>, name: string, rate: RateSource)
    ensures (name == "sum" || name == "mean") && (Currencies(buf) != [] || IsSet(defaultCode)) ==>
              Reduce(buf, defaultCode, name, rate).Ok?
    ensures (name == "sum" || name == "mean") && Currencies(buf) == [] && !IsSet(defaultCode) ==>
              Reduce(buf, defaultCode, name, rate) == Err(UnsetCurrency)
    ensures Currencies(buf) == [] && !IsSet(defaultCode) ==> Reduce(buf, defaultCode, name, rate).Err?
    ensures Reduce(buf, defaultCode, name, rate).Err? ==>
              Reduce(buf, defaultCode, name, rate).error in {NoSuchReduction, EmptyReduction, UnsetCurrency}
    ensures Reduce(buf, defaultCode, name, rate).Ok? ==>
              IsSet(Reduce(buf, defaultCode, name, rate).value.code) &&
              Reduce(buf, defaultCode, name, rate).value.code ==
                if |Currencies(buf)| > 1 then Some(MixedTarget(Currencies(buf), defaultCode))
                else if |Currencies(buf)| == 1 then Some(Currencies(buf)[0])
                else defaultCode
  {
    var cs := Currencies(buf);
    var r := Reduce(buf, defaultCode, name, rate);
    match KernelFor(name)
    case None =>
    case Some(k) =>
      if |cs| == 1 {
        assert cs[0] in cs;
      } else if |cs| > 1 {
        var target := MixedTarget(cs, defaultCode);
        var subtotals := Subtotals(k, buf, cs, target, rate);
        assert subtotals.Ok? ==> Run(k, subtotals.value).Err? ==> r == Err(EmptyReduction);
      }
  }

  // ---------------------------------------------------------------------------
  // The mixed-currency sum is the sum of every element converted
  // ---------------------------------------------------------------------------

  /** Every non-missing amount converted to `target`, in buffer order. */
  function ConvertedAmounts(buf: seq<Record>, target: string, rate: RateSource): (ys: seq<real>)
    ensures forall y :: y in ys <==>
              exists i :: 0 <= i < |buf| && !IsMissing(buf[i]) && y == Convert(rate, buf[i].amount, buf[i].code, target)
  {
    if buf == [] then []
    else
      var rest := ConvertedAmounts(buf[1..], target, rate);
      assert forall i :: 1 <= i < |buf| ==> buf[i] == buf[1..][i - 1];
      assert forall y :: y in rest <==>
               exists i :: 1 <= i < |buf| && !IsMissing(buf[i]) && y == Convert(rate, buf[i].amount, buf[i].code, target) by {
        forall y | y in rest
          ensures exists i :: 1 <= i < |buf| && !IsMissing(buf[i]) && y == Convert(rate, buf[i].amount, buf[i].code, target)
        {
          var j :| 0 <= j < |buf[1..]| && !IsMissing(buf[1..][j]) &&
                   y == Convert(rate, buf[1..][j].amount, buf[1..][j].code, target);
          assert buf[j + 1] == buf[1..][j];
        }
      }
      if IsMissing(buf[0]) then rest
      else
        var head := [Convert(rate, buf[0].amount, buf[0].code, target)];
        assert forall y :: y in head + rest <==> y in head || y in rest;
        head + rest
  }

  /** Every currency's sum, converted to `target`. */
  function ConvertedSums(buf: seq<Record>, cs: seq<string>, target: string, rate: RateSource): seq<real>
  {
    if cs == [] then []
    else [Convert(rate, Sum(AmountsIn(buf, cs[0])), cs[0], target)] + ConvertedSums(buf, cs[1..], target, rate)
  }

  predicate Distinct(cs: seq<string>) {
    forall i, j :: 0 <= i < j < |cs| ==> cs[i] != cs[j]
  }

  lemma SumsAreSubtotals(buf: seq<Record>, cs: seq<string>, target: string, rate: RateSource)
    ensures Subtotals(KSum, buf, cs, target, rate) == Ok(ConvertedSums(buf, cs, target, rate))
  {
  }

  /** Adding one record at the front adds its converted amount to exactly the
      subtotal of its own currency. */
  lemma {:induction false} ConvertedSumsCons(r: Record, rest: seq<Record>, cs: seq<string>, target: string, rate: RateSource)
    requires Distinct(cs)
    ensures Sum(ConvertedSums([r] + rest, cs, target, rate)) ==
            Sum(ConvertedSums(rest, cs, target, rate)) +
            (if r.code in cs then Convert(rate, r.amount, r.code, target) else 0.0)
  {
    if cs != [] {
      var c := cs[0];
      var buf := [r] + rest;
      assert buf[1..] == rest;
      var part := if r.code == c then [r.amount] else [];
      assert AmountsIn(buf, c) == part + AmountsIn(rest, c);
      SumAppend(part, AmountsIn(rest, c));
      ConvertAdditive(rate, Sum(part), Sum(AmountsIn(rest, c)), c, target);
      ConvertZero(rate, c, target);
      assert Distinct(cs[1..]) by {
        forall i, j | 0 <= i < j < |cs| - 1 ensures cs[1..][i] != cs[1..][j] {
          assert cs[1..][i] == cs[i + 1] && cs[1..][j] == cs[j + 1];
        }
      }
      ConvertedSumsCons(r, rest, cs[1..], target, rate);
      assert r.code in cs <==> r.code == c || r.code in cs[1..];
      assert r.code == c ==> r.code !in cs[1..];
    }
  }

  /** Summing per currency and then summing the converted subtotals is summing every
      element converted, provided the currencies cover every non-missing code. */
  lemma {:induction false} GrandSum(buf: seq<Record>, cs: seq<string>, target: string, rate: RateSource)
    requires Distinct(cs) && "" !in cs
    requires forall i :: 0 <= i < |buf| && !IsMissing(buf[i]) ==> buf[i].code in cs
    ensures Sum(ConvertedSums(buf, cs, target, rate)) == Sum(ConvertedAmounts(buf, target, rate))
  {
    if buf == [] {
      EmptySums(cs, target, rate);
    } else {
      var r := buf[0];
      assert buf == [r] + buf[1..];
      ConvertedSumsCons(r, buf[1..], cs, target, rate);
      assert forall i :: 1 <= i < |buf| ==> buf[1..][i - 1] == buf[i];
      GrandSum(buf[1..], cs, target, rate);
      if !IsMissing(r) {
        SumAppend([Convert(rate, r.amount, r.code, target)], ConvertedAmounts(buf[1..], target, rate));
      }
    }
  }

  lemma {:induction false} EmptySums(cs: seq<string>, target: string, rate: RateSource)
    ensures Sum(ConvertedSums([], cs, target, rate)) == 0.0
  {
    if cs != [] {
      ConvertZero(rate, cs[0], target);
      EmptySums(cs[1..], target, rate);
    }
  }

  lemma IncreasingIsDistinct(cs: seq<string>)
    requires Increasing(cs)
    ensures Distinct(cs)
  {
    forall i, j | 0 <= i < j < |cs| ensures cs[i] != cs[j] {
      BelowIrreflexive(cs[i]);
    }
  }

  /** With several currencies, `sum` is the sum of every non-missing amount converted
      to the target code, and `mean` divides that by the length of the whole column,
      missing slots included (money_array.py:173-187). */
  lemma MixedSumAndMean(buf: seq<Record>, defaultCode: Option<string>, rate: RateSource)
    requires |Currencies(buf)| > 1
    ensures var target := MixedTarget(Currencies(buf), defaultCode);
            var total := Sum(ConvertedAmounts(buf, target, rate));
            Reduce(buf, defaultCode, "sum", rate) == Ok(MoneyValue(total, Some(target))) &&
            |buf| > 0 &&
            Reduce(buf, defaultCode, "mean", rate) == Ok(MoneyValue(total / (|buf| as real), Some(target)))
  {
    var cs := Currencies(buf);
    var target := MixedTarget(cs, defaultCode);
    assert cs[0] in cs;
    IncreasingIsDistinct(cs);
    SumsAreSubtotals(buf, cs, target, rate);
    GrandSum(buf, cs, target, rate);
    var subtotals := ConvertedSums(buf, cs, target, rate);
    assert Run(KSum, subtotals) == Ok(Sum(ConvertedAmounts(buf, target, rate)));
  }

  // ---------------------------------------------------------------------------
  // The mixed-currency minimum and maximum
  // ---------------------------------------------------------------------------

  /** Every exchange rate is positive, so that converting keeps amounts in order. */
  ghost predicate PositiveRates(rate: RateSource) {
    forall from: string, to: string :: rate(from, to) > 0.0
  }

  lemma ConvertMonotone(rate: RateSource, x: real, y: real, from: string, to: string)
    requires PositiveRates(rate) && x <= y
    ensures Convert(rate, x, from, to) <= Convert(rate, y, from, to)
  {
    if from != to {
      var r := rate(from, to);
      assert 0.0 <= (y - x) * r by { assert r > 0.0 && y - x >= 0.0; }
      assert y * r - x * r == (y - x) * r;
    }
  }

  /** `b` is no better a candidate than `a` for the kernel: not smaller for the
      minimum, not larger for the maximum. */
  predicate Beats(k: Kernel, a: real, b: real) {
    if k == KMax then b <= a else a <= b
  }

  /** The minimum or maximum of a non-empty column is an element that beats every element. */
  lemma RunExtreme(k: Kernel, xs: seq<real>)
    requires k != KSum && xs != []
    ensures Run(k, xs).Ok? && Run(k, xs).value in xs
    ensures forall x :: x in xs ==> Beats(k, Run(k, xs).value, x)
  {
  }

  /** An element that beats every element is the minimum or maximum. */
  lemma ExtremeUnique(k: Kernel, xs: seq<real>, m: real)
    requires k != KSum && m in xs && forall x :: x in xs ==> Beats(k, m, x)
    ensures Run(k, xs) == Ok(m)
  {
    RunExtreme(k, xs);
  }

  /** With every currency present in the buffer, each subtotal is the kernel over
      that currency's amounts, converted to the target. */
  lemma {:induction false} SubtotalsAt(k: Kernel, buf: seq<Record>, cs: seq<string>, target: string, rate: RateSource)
    requires k != KSum && forall j :: 0 <= j < |cs| ==> AmountsIn(buf, cs[j]) != []
    ensures Subtotals(k, buf, cs, target, rate).Ok?
    ensures forall j :: 0 <= j < |cs| ==>
              Subtotals(k, buf, cs, target, rate).value[j] == Convert(rate, Run(k, AmountsIn(buf, cs[j])).value, cs[j], target)
  {
    if cs != [] {
      assert forall j :: 1 <= j < |cs| ==> cs[1..][j - 1] == cs[j];
      SubtotalsAt(k, buf, cs[1..], target, rate);
      RunExtreme(k, AmountsIn(buf, cs[0]));
    }
  }

  /** The mixed path of `min` and `max` (money_array.py:173-187): reducing each
      currency, converting the results and reducing them again is reducing every
      present amount converted to the target, because conversion keeps order. */
  lemma MixedExtreme(k: Kernel, buf: seq<Record>, cs: seq<string>, target: string, rate: RateSource)
    requires k != KSum && PositiveRates(rate)
    requires cs == Currencies(buf) && cs != []
    ensures Subtotals(k, buf, cs, target, rate).Ok? && ConvertedAmounts(buf, target, rate) != []
    ensures Run(k, Subtotals(k, buf, cs, target, rate).value) == Run(k, ConvertedAmounts(buf, target, rate))
  {
    var all := ConvertedAmounts(buf, target, rate);
    forall j | 0 <= j < |cs| ensures AmountsIn(buf, cs[j]) != [] {
      assert cs[j] in cs;
    }
    SubtotalsAt(k, buf, cs, target, rate);
    var subs := Subtotals(k, buf, cs, target, rate).value;
    RunExtreme(k, subs);
    var m := Run(k, subs).value;
    var j :| 0 <= j < |subs| && subs[j] == m;
    var xs := AmountsIn(buf, cs[j]);
    RunExtreme(k, xs);
    var i :| 0 <= i < |buf| && buf[i].code == cs[j] && buf[i].amount == Run(k, xs).value;
    assert cs[j] in cs;
    assert m in all by {
      assert !IsMissing(buf[i]) && m == Convert(rate, buf[i].amount, buf[i].code, target);
    }
    forall y | y in all ensures Beats(k, m, y) {
      var i' :| 0 <= i' < |buf| && !IsMissing(buf[i']) && y == Convert(rate, buf[i'].amount, buf[i'].code, target);
      var c := buf[i'].code;
      assert c in cs;
      var j' :| 0 <= j' < |cs| && cs[j'] == c;
      var ys := AmountsIn(buf, c);
      assert buf[i'].amount in ys;
      RunExtreme(k, ys);
      var v := Run(k, ys).value;
      if k == KMax {
        ConvertMonotone(rate, buf[i'].amount, v, c, target);
      } else {
        ConvertMonotone(rate, v, buf[i'].amount, c, target);
      }
      assert subs[j'] in subs;
    }
    ExtremeUnique(k, all, m);
  }

  /** With several currencies and positive rates, `min` is the smallest present
      amount once every amount is converted to the target code. */
  lemma MixedMin(buf: seq<Record>, defaultCode: Option<string>, rate: RateSource)
    requires |Currencies(buf)| > 1 && PositiveRates(rate)
    ensures var target := MixedTarget(Currencies(buf), defaultCode);
            var all := ConvertedAmounts(buf, target, rate);
            all != [] && Reduce(buf, defaultCode, "min", rate) == Ok(MoneyValue(Min(all), Some(target)))
  {
    var cs := Currencies(buf);
    var target := MixedTarget(cs, defaultCode);
    MixedExtreme(KMin, buf, cs, target, rate);
  }

  /** With several currencies and positive rates, `max` is the largest present
      amount once every amount is converted to the target code. */
  lemma MixedMax(buf: seq<Record>, defaultCode: Option<string>, rate: RateSource)
    requires |Currencies(buf)| > 1 && PositiveRates(rate)
    ensures var target := MixedTarget(Currencies(buf), defaultCode);
            var all := ConvertedAmounts(buf, target, rate);
            all != [] && Reduce(buf, defaultCode, "max", rate) == Ok(MoneyValue(Max(all), Some(target)))
  {
    var cs := Currencies(buf);
    var target := MixedTarget(cs, defaultCode);
    MixedExtreme(KMax, buf, cs, target, rate);
  }

  // ---------------------------------------------------------------------------
  // The single-currency path
  // ---------------------------------------------------------------------------

  /** With at most one currency every kernel runs over the WHOLE amount column,
      including the 0 stored in missing slots, and the result carries the one
      currency, or the default code when there is none (money_array.py:188-190). */
  lemma SingleCurrencyReduce(buf: seq<Record>, defaultCode: Option<string>, name: string, rate: RateSource)
    requires |Currencies(buf)| <= 1 && KernelFor(name).Some?
    ensures Reduce(buf, defaultCode, name, rate) ==
            match Run(KernelFor(name).value, Amounts(buf))
            case Ok(v) =>
              if Currencies(buf) != [] then Ok(MoneyValue(v, Some(Currencies(buf)[0])))
              else if IsSet(defaultCode) then Ok(MoneyValue(v, defaultCode))
              else Err(UnsetCurrency)
            case Err(e) => Err(e)
  {
  }

  /** `mean` of a single-currency column is its sum: the division by the length
      only happens on the mixed path (money_array.py:167-168, 185-186). */
  lemma SingleCurrencyMeanIsSum(buf: seq<Record>, defaultCode: Option<string>, rate: RateSource)
    requires |Currencies(buf)| <= 1
    ensures Reduce(buf, defaultCode, "mean", rate) == Reduce(buf, defaultCode, "sum", rate)
    ensures Currencies(buf) != [] || IsSet(defaultCode) ==>
              Reduce(buf, defaultCode, "mean", rate) ==
              Ok(MoneyValue(Sum(Amounts(buf)), if Currencies(buf) != [] then Some(Currencies(buf)[0]) else defaultCode))
  {
  }

  /** A missing slot takes part in a single-currency minimum with its stored 0:
      the minimum of `[missing, 5 GBP]` is 0 GBP. */
  lemma MissingZeroEntersTheMinimum(rate: RateSource, defaultCode: Option<string>)
    ensures Reduce([MissingRecord, Record(5.0, "GBP")], defaultCode, "min", rate) == Ok(MoneyValue(0.0, Some("GBP")))
  {
    var buf := [MissingRecord, Record(5.0, "GBP")];
    SingleCurrency(buf, "GBP", 1);
    assert Amounts(buf) == [0.0, 5.0];
  }

  /** With several currencies and no default code the target is the smallest code
      present: a column of euros and pounds is reduced in euros. */
  lemma MixedTargetIsSmallestCode(rate: RateSource)
    ensures var buf := [Record(1.0, "GBP"), Record(2.0, "EUR")];
            Reduce(buf, None, "sum", rate).Ok? && Reduce(buf, None, "sum", rate).value.code == Some("EUR")
  {
    var buf := [Record(1.0, "GBP"), Record(2.0, "EUR")];
    var cs := Currencies(buf);
    assert "GBP" in cs && "EUR" in cs;
    assert Below("EUR", "GBP");
    forall c | c in cs ensures c == "GBP" || c == "EUR" {
    }
    assert |cs| == 2 by {
      if |cs| > 2 {
        assert false;
      }
      if |cs| < 2 {
        assert false;
      }
    }
    MixedSumAndMean(buf, None, rate);
  }
}
