/**
 * The monetary literal grammars of `moneypandas/dtypes.py`: a symbol-prefixed,
 * a code-prefixed and a code-suffixed grammar sharing the number sub-grammar
 * `\d*\.?\d*\d`, all matched at the start of a string (`re.match`), and the
 * `is_money` predicate over them. The symbol table is a parameter.
 */
module Dtypes {
  import opened Wrappers
  import opened Money

  /** Currency symbols (one character each) and the code each stands for. */
  type SymbolTable = map<char, string>

  predicate IsDigit(c: char) { '0' <= c <= '9' }

  predicate IsUpper(c: char) { 'A' <= c <= 'Z' }

  /** The characters `\s` matches in a `str` pattern. */
  predicate IsSpace(c: char) {
    var k := c as int;
    (9 <= k <= 13) || (28 <= k <= 32) || k == 0x85 || k == 0xA0 || k == 0x1680 ||
    (0x2000 <= k <= 0x200A) || k == 0x2028 || k == 0x2029 || k == 0x202F || k == 0x205F || k == 0x3000
  }

  /** An ISO 4217 alphabetic code as the grammars see it: three ASCII capitals. */
  predicate IsCode(c: string) {
    |c| == 3 && IsUpper(c[0]) && IsUpper(c[1]) && IsUpper(c[2])
  }

  predicate AllSpaces(w: string) {
    forall i :: 0 <= i < |w| ==> IsSpace(w[i])
  }

  predicate AllDigits(d: string) {
    forall i :: 0 <= i < |d| ==> IsDigit(d[i])
  }

  /** Length of the run of digits at the start of `s`. */
  function DigitRun(s: string): (n: nat)
    ensures n <= |s| && AllDigits(s[..n])
    ensures n < |s| ==> !IsDigit(s[n])
  {
    if |s| > 0 && IsDigit(s[0]) then 1 + DigitRun(s[1..]) else 0
  }

  /** Length of the run of whitespace at the start of `s` (what a greedy `\s*` takes). */
  function SpaceRun(s: string): (n: nat)
    ensures n <= |s| && AllSpaces(s[..n])
    ensures n < |s| ==> !IsSpace(s[n])
  {
    if |s| > 0 && IsSpace(s[0]) then 1 + SpaceRun(s[1..]) else 0
  }

  /** The language of the number sub-grammar `\d*\.?\d*\d`: digits with at most
      one point, ending in a digit. */
  predicate IsNumberText(t: string) {
    && |t| > 0
    && IsDigit(t[|t| - 1])
    && (forall i :: 0 <= i < |t| ==> IsDigit(t[i]) || t[i] == '.')
    && (forall i, j :: 0 <= i < j < |t| && t[i] == '.' ==> t[j] != '.')
  }

  /** Length of the text `\d*\.?\d*\d` matches at the start of `s`, if it matches. */
  function NumberPrefix(s: string): (r: Option<nat>)
    ensures r.Some? ==> 0 < r.value <= |s| && IsNumberText(s[..r.value])
  {
    var n1 := DigitRun(s);
    if n1 < |s| && s[n1] == '.' && DigitRun(s[n1 + 1..]) > 0 then
      var n2 := DigitRun(s[n1 + 1..]);
      assert s[..n1 + 1 + n2] == s[..n1] + ['.'] + s[n1 + 1..][..n2];
      Some(n1 + 1 + n2)
    else if n1 > 0 then
      Some(n1)
    else
      None
  }

  /** `NumberPrefix` finds the LONGEST prefix of `s` in the number language (which is
      where the greedy, backtracking regular expression stops), and nothing when no
      prefix of `s` is a number text. */
  lemma NumberPrefixIsLongest(s: string)
    ensures NumberPrefix(s).Some? ==>
              forall m :: NumberPrefix(s).value < m <= |s| ==> !IsNumberText(s[..m])
    ensures NumberPrefix(s).None? ==> forall m :: 0 < m <= |s| ==> !IsNumberText(s[..m])
  {
    var n1 := DigitRun(s);
    forall m | 0 < m <= |s| && IsNumberText(s[..m])
      ensures NumberPrefix(s).Some? && m <= NumberPrefix(s).value
    {
      var t := s[..m];
      if m > n1 {
        // past the leading digits the number text must continue with a point
        assert t[n1] == s[n1] && !IsDigit(s[n1]);
        assert s[n1] == '.';
        assert m > n1 + 1 by { assert IsDigit(t[m - 1]); }
        assert t[n1 + 1] != '.';
        assert IsDigit(s[n1 + 1]);
        assert s[n1 + 1..][0] == s[n1 + 1];
        assert DigitRun(s[n1 + 1..]) > 0;
      }
    }
  }

  /** A number text that is not followed by a digit or a point is exactly what the
      number sub-grammar matches: nothing shorter and nothing longer. */
  lemma NumberPrefixForced(s: string, m: nat)
    requires 0 < m <= |s| && IsNumberText(s[..m])
    requires m == |s| || !(IsDigit(s[m]) || s[m] == '.')
    ensures NumberPrefix(s) == Some(m)
  {
    NumberPrefixIsLongest(s);
  }

  /** A trailing point is not part of a number: `5.` is not a number text, and at
      the start of `5.` the number sub-grammar matches only `5`. */
  lemma TrailingPointIsNotMatched()
    ensures !IsNumberText("5.")
    ensures NumberPrefix("5.") == Some(1)
  {
    assert "5."[1..] == "." && "5."[2..] == "";
    assert DigitRun("5.") == 1;
  }

  /** Position of the point in a number text, or its length when it has none. */
  function PointAt(t: string): (k: nat)
    ensures k <= |t|
    ensures forall i :: 0 <= i < k ==> t[i] != '.'
    ensures k < |t| ==> t[k] == '.'
  {
    if |t| == 0 || t[0] == '.' then 0 else 1 + PointAt(t[1..])
  }

  function Pow10(k: nat): (p: nat)
    ensures p >= 1
  {
    if k == 0 then 1 else 10 * Pow10(k - 1)
  }

  /** The value of a string of decimal digits. */
  function DigitsValue(d: string): nat
    requires AllDigits(d)
  {
    if |d| == 0 then 0 else 10 * DigitsValue(d[..|d| - 1]) + (d[|d| - 1] as int - '0' as int)
  }

  /** The exact value of the decimal `whole.fraction`. */
  function DecimalValue(whole: string, fraction: string): real
    requires AllDigits(whole) && AllDigits(fraction)
  {
    DigitsValue(whole) as real + DigitsValue(fraction) as real / Pow10(|fraction|) as real
  }

  /** The exact value of a number text (no binary floating point). */
  function NumberValue(t: string): real
    requires IsNumberText(t)
  {
    var k := PointAt(t);
    assert AllDigits(t[..k]);
    if k == |t| then DecimalValue(t, "")
    else
      assert AllDigits(t[k + 1..]) by {
        forall i | k + 1 <= i < |t| ensures IsDigit(t[i]) {
          assert t[i] != '.';
        }
      }
      DecimalValue(t[..k], t[k + 1..])
  }

  /** `-?` followed by the number sub-grammar: the signed value and the length matched. */
  function SignedNumber(s: string): (r: Option<(real, nat)>)
    ensures r.Some? ==> 0 < r.value.1 <= |s|
  {
    if |s| > 0 && s[0] == '-' then
      match NumberPrefix(s[1..])
      case Some(n) => Some((-NumberValue(s[1..][..n]), 1 + n))
      case None => None
    else
      match NumberPrefix(s)
      case Some(n) => Some((NumberValue(s[..n]), n))
      case None => None
  }

  /** The three entries of `money_patterns`, in their order. */
  datatype Grammar = SymbolPrefixed | CodePrefixed | CodeSuffixed

  const MoneyPatterns: seq<Grammar> := [SymbolPrefixed, CodePrefixed, CodeSuffixed]

  /** `(-?)([symbols])(\d*\.?\d*\d)`: the amount is sign and number, the code is the
      table entry of the symbol. When the minus sign cannot be read as a sign the
      regular expression backtracks and tries it as the symbol. This is the grammar
      the code intends: as written, the character class is built by joining dicts
      and the code is looked up in a list by the symbol (dtypes.py:20-21). */
  function MatchSymbolPrefixed(table: SymbolTable, s: string): (r: Option<Record>)
    ensures r.Some? ==> r.value.code in table.Values
    ensures r.Some? ==> |s| > 0 && ((s[0] in table && r.value.code == table[s[0]]) ||
                        (|s| > 1 && s[0] == '-' && s[1] in table && r.value.code == table[s[1]]))
  {
    if |s| >= 2 && s[0] == '-' && s[1] in table && NumberPrefix(s[2..]).Some? then
      Some(Record(-NumberValue(s[2..][..NumberPrefix(s[2..]).value]), table[s[1]]))
    else if |s| >= 1 && s[0] in table && NumberPrefix(s[1..]).Some? then
      Some(Record(NumberValue(s[1..][..NumberPrefix(s[1..]).value]), table[s[0]]))
    else
      None
  }

  /** `([A-Z]{3})\s*(-?\d*\.?\d*\d)`: the code is the three capitals at the start. */
  function MatchCodePrefixed(s: string): (r: Option<Record>)
    ensures r.Some? ==> |s| >= 3 && IsCode(s[..3]) && r.value.code == s[..3]
  {
    if |s| >= 3 && IsUpper(s[0]) && IsUpper(s[1]) && IsUpper(s[2]) then
      var k := 3 + SpaceRun(s[3..]);
      match SignedNumber(s[k..])
      case Some((v, _)) => Some(Record(v, s[..3]))
      case None => None
    else
      None
  }

  /** `\s*([A-Z]{3})`: the code after optional whitespace. */
  function SpacedCode(s: string): (r: Option<string>)
    ensures r.Some? ==> IsCode(r.value)
  {
    var k := SpaceRun(s);
    if k + 3 <= |s| && IsUpper(s[k]) && IsUpper(s[k + 1]) && IsUpper(s[k + 2]) then
      Some(s[k..k + 3])
    else
      None
  }

  /** `(-?\d*\.?\d*\d)\s*([A-Z]{3})`: the code is the three capitals after the number. */
  function MatchCodeSuffixed(s: string): (r: Option<Record>)
    ensures r.Some? ==> IsCode(r.value.code)
    ensures r.Some? ==> |s| > 0 && (s[0] == '-' || s[0] == '.' || IsDigit(s[0]))
  {
    match SignedNumber(s)
    case Some((v, n)) =>
      (match SpacedCode(s[n..])
       case Some(c) => Some(Record(v, c))
       case None => None)
    case None => None
  }

  /** One grammar tried on a prefix of `s`: the code comes from the symbol table
      or is three capitals taken from the string. */
  function MatchGrammar(g: Grammar, table: SymbolTable, s: string): (r: Option<Record>)
    ensures r.Some? && g == SymbolPrefixed ==> r.value.code in table.Values
    ensures r.Some? && g != SymbolPrefixed ==> IsCode(r.value.code)
  {
    match g
    case SymbolPrefixed => MatchSymbolPrefixed(table, s)
    case CodePrefixed => MatchCodePrefixed(s)
    case CodeSuffixed => MatchCodeSuffixed(s)
  }

  /** The grammar loop of the parser: every grammar is tried in turn and each match
      overwrites what an earlier one extracted (the loop has no `break`). */
  function ScanGrammars(gs: seq<Grammar>, table: SymbolTable, s: string, found: Option<Record>): (r: Option<Record>)
    ensures r == found || exists i :: 0 <= i < |gs| && r == MatchGrammar(gs[i], table, s)
  {
    if gs == [] then found
    else
      var m := MatchGrammar(gs[0], table, s);
      assert forall i :: 1 <= i < |gs| ==> gs[1..][i - 1] == gs[i];
      ScanGrammars(gs[1..], table, s, if m.Some? then m else found)
  }

  /** The value the parser's loop leaves behind: the extraction of the LAST grammar
      that matches, or nothing when none does. */
  lemma {:induction false} ScanFindsLastMatch(gs: seq<Grammar>, table: SymbolTable, s: string, found: Option<Record>)
    ensures ScanGrammars(gs, table, s, found).Some? <==>
            found.Some? || exists i :: 0 <= i < |gs| && MatchGrammar(gs[i], table, s).Some?
    ensures (forall i :: 0 <= i < |gs| ==> MatchGrammar(gs[i], table, s).None?) ==>
            ScanGrammars(gs, table, s, found) == found
    ensures forall i :: 0 <= i < |gs| && MatchGrammar(gs[i], table, s).Some? &&
                        (forall j :: i < j < |gs| ==> MatchGrammar(gs[j], table, s).None?) ==>
                        ScanGrammars(gs, table, s, found) == MatchGrammar(gs[i], table, s)
  {
    if gs != [] {
      var m := MatchGrammar(gs[0], table, s);
      var next := if m.Some? then m else found;
      ScanFindsLastMatch(gs[1..], table, s, next);
      forall i | 0 <= i < |gs| && MatchGrammar(gs[i], table, s).Some? &&
                 (forall j :: i < j < |gs| ==> MatchGrammar(gs[j], table, s).None?)
        ensures ScanGrammars(gs, table, s, found) == MatchGrammar(gs[i], table, s)
      {
        if i > 0 {
          assert gs[1..][i - 1] == gs[i];
          assert forall j :: i - 1 < j < |gs| - 1 ==> gs[1..][j] == gs[j + 1];
        } else {
          assert forall j :: 0 <= j < |gs| - 1 ==> gs[1..][j] == gs[j + 1];
        }
      }
      assert forall i :: 1 <= i < |gs| ==> gs[i] == gs[1..][i - 1];
    }
  }

  /** A symbol table is safe when no symbol can be mistaken for the start of a code
      or of a number: no digit, capital, point or minus sign. */
  predicate SafeTable(table: SymbolTable) {
    forall c :: c in table ==> !IsDigit(c) && !IsUpper(c) && c != '.' && c != '-'
  }

  /** With a safe table, the three grammars start on disjoint characters, so at most
      one of them matches any string. */
  lemma AtMostOneGrammarMatches(table: SymbolTable, s: string)
    requires SafeTable(table)
    ensures MatchSymbolPrefixed(table, s).Some? ==> MatchCodePrefixed(s).None? && MatchCodeSuffixed(s).None?
    ensures MatchCodePrefixed(s).Some? ==> MatchCodeSuffixed(s).None?
  {
  }

  /** First-match reference: the extraction of the first grammar that matches. */
  function FirstMatch(gs: seq<Grammar>, table: SymbolTable, s: string): Option<Record>
  {
    if gs == [] then None
    else if MatchGrammar(gs[0], table, s).Some? then MatchGrammar(gs[0], table, s)
    else FirstMatch(gs[1..], table, s)
  }

  /** With a safe table "last match wins" and "first match wins" agree. */
  lemma LastMatchIsFirstMatch(table: SymbolTable, s: string)
    requires SafeTable(table)
    ensures ScanGrammars(MoneyPatterns, table, s, None) == FirstMatch(MoneyPatterns, table, s)
  {
    AtMostOneGrammarMatches(table, s);
    ScanFindsLastMatch(MoneyPatterns, table, s, None);
    var gs := MoneyPatterns;
    assert gs[1..][1..][1..] == [];
    assert FirstMatch(gs[2..], table, s) == MatchGrammar(gs[2], table, s);
    assert FirstMatch(gs[1..], table, s) ==
      if MatchGrammar(gs[1], table, s).Some? then MatchGrammar(gs[1], table, s) else FirstMatch(gs[2..], table, s);
  }

  /** The optional minus sign of a literal, and its effect on the value. */
  function Sign(negative: bool): string { if negative then "-" else "" }

  function Signed(negative: bool, v: real): real { if negative then -v else v }

  /** Text that cannot extend a number it follows. */
  predicate EndsNumber(rest: string) {
    rest == [] || !(IsDigit(rest[0]) || rest[0] == '.')
  }

  lemma {:induction false} SpaceRunOf(w: string, x: string)
    requires AllSpaces(w)
    requires x == [] || !IsSpace(x[0])
    ensures SpaceRun(w + x) == |w|
  {
    if w != [] {
      assert (w + x)[1..] == w[1..] + x;
      SpaceRunOf(w[1..], x);
    }
  }

  /** `-?` and the number sub-grammar read back a signed number text, whatever follows it. */
  lemma SignedNumberOf(negative: bool, t: string, rest: string)
    requires IsNumberText(t) && EndsNumber(rest)
    ensures SignedNumber(Sign(negative) + t + rest) ==
            Some((Signed(negative, NumberValue(t)), |Sign(negative)| + |t|))
  {
    if negative {
      assert Sign(negative) + t + rest == "-" + (t + rest);
      NegativeNumberOfText(t, rest);
    } else {
      assert Sign(negative) + t + rest == t + rest;
      UnsignedNumberOfText(t, rest);
    }
  }

  lemma NegativeNumberOfText(t: string, rest: string)
    requires IsNumberText(t) && EndsNumber(rest)
    ensures SignedNumber("-" + (t + rest)) == Some((-NumberValue(t), 1 + |t|))
  {
    NumberPrefixOfText(t, rest);
    NegativeNumberOf(t + rest, |t|);
  }

  lemma UnsignedNumberOfText(t: string, rest: string)
    requires IsNumberText(t) && EndsNumber(rest)
    ensures SignedNumber(t + rest) == Some((NumberValue(t), |t|))
  {
    NumberPrefixOfText(t, rest);
    assert (t + rest)[0] == t[0] && t[0] != '-';
    UnsignedNumberOf(t + rest, |t|);
  }

  lemma NumberPrefixOfText(t: string, rest: string)
    requires IsNumberText(t) && EndsNumber(rest)
    ensures NumberPrefix(t + rest) == Some(|t|) && (t + rest)[..|t|] == t
  {
    assert (t + rest)[..|t|] == t;
    NumberPrefixForced(t + rest, |t|);
  }

  lemma NegativeNumberOf(v: string, n: nat)
    requires NumberPrefix(v) == Some(n)
    ensures SignedNumber("-" + v) == Some((-NumberValue(v[..n]), 1 + n))
  {
    assert ("-" + v)[1..] == v;
  }

  lemma UnsignedNumberOf(v: string, n: nat)
    requires NumberPrefix(v) == Some(n) && v[0] != '-'
    ensures SignedNumber(v) == Some((NumberValue(v[..n]), n))
  {
  }

  /** Round trip of the code-prefixed grammar: `EUR 123`, `GBP-45.50`, with any
      whitespace between code and number and any text after the number that does
      not continue it. */
  lemma CodePrefixedRoundTrip(c: string, w: string, negative: bool, t: string, rest: string)
    requires IsCode(c) && AllSpaces(w) && IsNumberText(t) && EndsNumber(rest)
    ensures MatchCodePrefixed(c + w + Sign(negative) + t + rest) ==
            Some(Record(Signed(negative, NumberValue(t)), c))
  {
    var s := c + w + Sign(negative) + t + rest;
    var tail := Sign(negative) + t + rest;
    assert s == c + (w + tail);
    assert s[3..] == w + tail;
    assert tail[0] == '-' || tail[0] == t[0];
    SpaceRunOf(w, tail);
    assert s[3 + |w|..] == tail;
    SignedNumberOf(negative, t, rest);
    assert s[..3] == c;
  }

  /** Round trip of the code-suffixed grammar: `97GBP`, `-1.5 EUR`, followed by any text at all. */
  lemma CodeSuffixedRoundTrip(negative: bool, t: string, w: string, c: string, rest: string)
    requires IsNumberText(t) && AllSpaces(w) && IsCode(c)
    ensures MatchCodeSuffixed(Sign(negative) + t + w + c + rest) ==
            Some(Record(Signed(negative, NumberValue(t)), c))
  {
    var pre := Sign(negative) + t;
    var after := w + (c + rest);
    var s := pre + after;
    assert Sign(negative) + t + w + c + rest == s;
    assert EndsNumber(after) by {
      assert after[0] == (if w == [] then c[0] else w[0]);
    }
    SignedNumberOf(negative, t, after);
    SpacedCodeOf(w, c, rest);
    CodeSuffixedOf(pre, after, Signed(negative, NumberValue(t)), c);
  }

  lemma CodeSuffixedOf(pre: string, after: string, v: real, c: string)
    requires SignedNumber(pre + after) == Some((v, |pre|)) && SpacedCode(after) == Some(c)
    ensures MatchCodeSuffixed(pre + after) == Some(Record(v, c))
  {
    assert (pre + after)[|pre|..] == after;
  }

  lemma SpacedCodeOf(w: string, c: string, rest: string)
    requires AllSpaces(w) && IsCode(c)
    ensures SpacedCode(w + (c + rest)) == Some(c)
  {
    var s := w + (c + rest);
    SpaceRunOf(w, c + rest);
    var k := |w|;
    assert s[k] == c[0] && s[k + 1] == c[1] && s[k + 2] == c[2];
    assert s[k..k + 3] == c;
  }

  /** Round trip of the symbol-prefixed grammar: `-£123.00` gives the table's code for the
      symbol, provided the minus sign is not itself a symbol. */
  lemma SymbolPrefixedRoundTrip(table: SymbolTable, negative: bool, symbol: char, t: string, rest: string)
    requires '-' !in table && symbol in table && IsNumberText(t) && EndsNumber(rest)
    ensures MatchSymbolPrefixed(table, Sign(negative) + [symbol] + t + rest) ==
            Some(Record(Signed(negative, NumberValue(t)), table[symbol]))
  {
    if negative {
      NegativeSymbolOfText(table, symbol, t, rest);
    } else {
      UnsignedSymbolOfText(table, symbol, t, rest);
    }
  }

  lemma NegativeSymbolOfText(table: SymbolTable, symbol: char, t: string, rest: string)
    requires symbol in table && IsNumberText(t) && EndsNumber(rest)
    ensures MatchSymbolPrefixed(table, "-" + [symbol] + t + rest) == Some(Record(-NumberValue(t), table[symbol]))
  {
    var s := "-" + [symbol] + t + rest;
    assert s[2..] == t + rest;
    NumberPrefixOfText(t, rest);
    NegativeSymbolOf(table, s, |t|);
  }

  lemma UnsignedSymbolOfText(table: SymbolTable, symbol: char, t: string, rest: string)
    requires '-' !in table && symbol in table && IsNumberText(t) && EndsNumber(rest)
    ensures MatchSymbolPrefixed(table, "" + [symbol] + t + rest) == Some(Record(NumberValue(t), table[symbol]))
  {
    var s := "" + [symbol] + t + rest;
    assert s[1..] == t + rest;
    NumberPrefixOfText(t, rest);
    UnsignedSymbolOf(table, s, |t|);
  }

  lemma NegativeSymbolOf(table: SymbolTable, s: string, n: nat)
    requires |s| >= 2 && s[0] == '-' && s[1] in table && NumberPrefix(s[2..]) == Some(n)
    ensures MatchSymbolPrefixed(table, s) == Some(Record(-NumberValue(s[2..][..n]), table[s[1]]))
  {
  }

  lemma UnsignedSymbolOf(table: SymbolTable, s: string, n: nat)
    requires '-' !in table && |s| >= 1 && s[0] in table && NumberPrefix(s[1..]) == Some(n)
    ensures MatchSymbolPrefixed(table, s) == Some(Record(NumberValue(s[1..][..n]), table[s[0]]))
  {
  }

  /** The decimal digits of a natural number, as a literal would show it. */
  function Digits(n: nat): (d: string)
    ensures AllDigits(d) && |d| > 0 && DigitsValue(d) == n
  {
    if n < 10 then [('0' as int + n) as char]
    else
      var d := Digits(n / 10) + [('0' as int + n % 10) as char];
      assert d[..|d| - 1] == Digits(n / 10);
      d
  }

  /** The digits of a natural number form a number text with that value. */
  lemma DigitsAreNumberText(n: nat)
    ensures IsNumberText(Digits(n)) && NumberValue(Digits(n)) == n as real
  {
    var d := Digits(n);
    assert forall i :: 0 <= i < |d| ==> d[i] != '.';
    assert PointAt(d) == |d|;
  }

  /** The values `is_money` is asked about. */
  datatype PyValue = Str(s: string) | Bytes(b: seq<bv8>) | Int(i: int) | OtherValue

  /** `is_money`: a string is money when some grammar matches a prefix of it, an int
      always is, bytes fall through the branches (Python's `None`), anything else is not. */
  function IsMoney(table: SymbolTable, v: PyValue): (r: Option<bool>)
    ensures v.Bytes? <==> r.None?
    ensures v.Str? ==> (r == Some(true) <==> exists i :: 0 <= i < |MoneyPatterns| && MatchGrammar(MoneyPatterns[i], table, v.s).Some?)
    ensures v.Int? ==> r == Some(true)
    ensures v.OtherValue? ==> r == Some(false)
  {
    match v
    case Str(s) =>
      assert MoneyPatterns[0] == SymbolPrefixed && MoneyPatterns[1] == CodePrefixed && MoneyPatterns[2] == CodeSuffixed;
      Some(MatchSymbolPrefixed(table, s).Some? || MatchCodePrefixed(s).Some? || MatchCodeSuffixed(s).Some?)
    case Bytes(_) => None
    case Int(_) => Some(true)
    case OtherValue => Some(false)
  }
}
