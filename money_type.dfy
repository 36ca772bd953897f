/**
 * `MoneyType.construct_from_string` (moneypandas/money_array.py:38-50): the dtype
 * strings `money` and `money[XYZ]`, the latter giving the type a default code.
 */
module MoneyTypes {
  import opened Wrappers
  import opened Money
  import opened Dtypes
  import opened Parser

  const TypeName := "money"

  /** Whether `s` starts with `money[`, three capitals and `]`, as the pattern
      `money\[([A-Z]{3})\]` matches a prefix. */
  predicate StartsWithBracketedCode(s: string) {
    |s| >= 10 && s[..6] == "money[" && IsCode(s[6..9]) && s[9] == ']'
  }

  /** The default code of the dtype a string names. As written the whole match
      `money[XYZ]` is kept (`match.group(0)`, money_array.py:46), not the code. */
  function ConstructFromString(s: string): (r: Result<Option<string>, Error>)
    ensures r.Ok? <==> s == TypeName || StartsWithBracketedCode(s)
    ensures r.Err? ==> r.error == NotADtypeString
    ensures r.Ok? && r.value.Some? ==> |r.value.value| == 10 && r.value.value <= s
  {
    if s == TypeName then Ok(None)
    else if StartsWithBracketedCode(s) then Ok(Some(s[..10]))
    else Err(NotADtypeString)
  }

  /** `money` names the type without a default; `money[XYZ]`, followed by anything,
      names it with the default `money[XYZ]`; every other string is refused. */
  lemma ConstructFromStringContract(s: string)
    ensures ConstructFromString(s).Ok? <==> s == "money" || StartsWithBracketedCode(s)
    ensures ConstructFromString(s) == Ok(None) <==> s == "money"
    ensures ConstructFromString(s).Ok? && ConstructFromString(s).value.Some? ==>
              var d := ConstructFromString(s).value.value;
              |d| == 10 && !IsCode(d) && d == "money[" + s[6..9] + "]" && IsCode(d[6..9])
  {
    if StartsWithBracketedCode(s) {
      assert s[..10] == s[..6] + s[6..9] + [s[9]];
    }
  }

  /** For every code `XYZ`, `money[XYZ]` and any suffix give the default `money[XYZ]`. */
  lemma BracketedCodeIsKeptWhole(c: string, rest: string)
    requires IsCode(c)
    ensures ConstructFromString("money[" + c + "]" + rest) == Ok(Some("money[" + c + "]"))
  {
    var s := "money[" + c + "]" + rest;
    assert s[..6] == "money[" && s[6..9] == c && s[9] == ']';
    assert s[..10] == "money[" + c + "]";
  }

  /** That default, were it used to parse a bare number, would be cut to the code
      field's three characters: `5` read with the dtype `money[GBP]`'s default would
      be stored as `mon`. No code path of the array hands the dtype's default to
      the parser. */
  lemma DtypeDefaultStoresMon(n: real, table: SymbolTable)
    ensures var d := ConstructFromString("money[GBP]").value;
            AsMoneyObject(Number(n), table, d).Ok? &&
            Store(AsMoneyObject(Number(n), table, d).value) == Record(n, "mon")
  {
    BracketedCodeIsKeptWhole("GBP", "");
    assert "money[GBP]" + "" == "money[GBP]";
    assert "money[GBP]"[..3] == "mon";
  }
}
