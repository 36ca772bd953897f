/**
 * The distinct currencies of a record buffer, as `np.unique` lists them: the
 * non-empty codes of the code column, each once, in numpy's string order
 * (moneypandas/money_array.py:117, 164).
 */
module Codes {
  import opened Money

  /** numpy's order on strings: code point by code point, a proper prefix first. */
  predicate Below(a: string, b: string)
  {
    if a == [] then b != []
    else if b == [] then false
    else if a[0] != b[0] then a[0] < b[0]
    else Below(a[1..], b[1..])
  }

  lemma BelowIrreflexive(a: string)
    ensures !Below(a, a)
  {
  }

  lemma {:induction false} BelowTransitive(a: string, b: string, c: string)
    requires Below(a, b) && Below(b, c)
    ensures Below(a, c)
  {
    if a != [] && a[0] == b[0] && b[0] == c[0] {
      BelowTransitive(a[1..], b[1..], c[1..]);
    }
  }

  lemma {:induction false} BelowTotal(a: string, b: string)
    ensures a == b || Below(a, b) || Below(b, a)
  {
    if a != [] && b != [] && a[0] == b[0] {
      BelowTotal(a[1..], b[1..]);
      if a[1..] == b[1..] {
        assert a == [a[0]] + a[1..] && b == [b[0]] + b[1..];
      }
    }
  }

  /** Strictly increasing, hence without repetitions. */
  predicate Increasing(cs: seq<string>)
  {
    forall i, j :: 0 <= i < j < |cs| ==> Below(cs[i], cs[j])
  }

  /** Places `c` in an increasing list, unless it is there already. */
  function Insert(cs: seq<string>, c: string): (r: seq<string>)
    requires Increasing(cs)
    ensures Increasing(r)
    ensures forall x :: x in r <==> x in cs || x == c
  {
    if cs == [] then [c]
    else if cs[0] == c then cs
    else if Below(c, cs[0]) then
      forall j | 0 < j < |cs| ensures Below(c, cs[j]) {
        BelowTransitive(c, cs[0], cs[j]);
      }
      [c] + cs
    else
      BelowTotal(c, cs[0]);
      var tail := Insert(cs[1..], c);
      assert Increasing(cs[1..]) by {
        forall i, j | 0 <= i < j < |cs| - 1 ensures Below(cs[1..][i], cs[1..][j]) {
          assert cs[1..][i] == cs[i + 1] && cs[1..][j] == cs[j + 1];
        }
      }
      forall x | x in tail ensures Below(cs[0], x) {
        if x != c {
          var j :| 1 <= j < |cs| && cs[j] == x;
        }
      }
      [cs[0]] + tail
  }

  /** `[cu for cu in np.unique(data['cu']) if cu]`: every non-empty code of the
      buffer, once, in increasing order. */
  function Currencies(buf: seq<Record>): (cs: seq<string>)
    ensures Increasing(cs)
    ensures forall c :: c in cs <==> c != "" && exists i :: 0 <= i < |buf| && buf[i].code == c
  {
    if buf == [] then []
    else
      var rest := Currencies(buf[1..]);
      assert forall i :: 1 <= i < |buf| ==> buf[i] == buf[1..][i - 1];
      if buf[0].code == "" then rest else Insert(rest, buf[0].code)
  }

  /** A buffer whose non-missing slots all carry one code `c`, and at least one does,
      has exactly that one currency. */
  lemma SingleCurrency(buf: seq<Record>, c: string, k: nat)
    requires k < |buf| && buf[k].code == c && c != ""
    requires forall i :: 0 <= i < |buf| ==> buf[i].code == c || IsMissing(buf[i])
    ensures Currencies(buf) == [c]
  {
    var cs := Currencies(buf);
    assert c in cs;
    forall x | x in cs ensures x == c {
    }
    if |cs| > 1 {
      assert cs[0] in cs && cs[1] in cs;
      assert cs[0] == c && cs[1] == c;
      BelowIrreflexive(c);
      assert false;
    }
  }

  /** A buffer with no non-missing slot has no currency. */
  lemma NoCurrencies(buf: seq<Record>)
    requires forall i :: 0 <= i < |buf| ==> IsMissing(buf[i])
    ensures Currencies(buf) == []
  {
  }
}
