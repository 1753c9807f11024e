/** Argument validation and timestamp parsing (valutatrade_hub/core/utils.py). */
module Utils {
  import opened Json
  import opened Errors
  import opened Text
  import opened Currencies

  /** A parsed timestamp: its wall-clock reading in seconds and, when the text
      carried one, its UTC offset in seconds. */
  datatype DateTime = DateTime(wallSeconds: int, utcOffset: Option<int>)

  /** Seconds since the epoch. A naive timestamp (no offset) is read as UTC. */
  function EpochSeconds(dt: DateTime): int {
    dt.wallSeconds - (if dt.utcOffset.Some? then dt.utcOffset.value else 0)
  }

  /** `datetime.fromisoformat`, which this model does not interpret: `None`
      stands for the `ValueError` it raises on text it cannot parse. */
  type IsoParser = string -> Option<DateTime>

  /** `validate_currency_code(code)`: the registry's canonical code, or the
      `CurrencyNotFoundError` of `get_currency`, passed on unchanged. */
  function ValidateCurrencyCode(code: Json): (r: Result<string>)
    ensures r.Ok? <==> GetCurrency(code).Ok?
    ensures r.Ok? ==> r.value in Registry && r.value == NormalizeCode(code.s)
    ensures r.Err? ==> r.error == GetCurrency(code).error
  {
    var c :- GetCurrency(code);
    RegistryCodes(NormalizeCode(code.s));
    Ok(c.code)
  }

  /** `validate_amount(amount)`: a positive number, as a float. */
  function ValidateAmount(amount: Json): (r: Result<real>)
    ensures r.Ok? <==> IsNumber(amount) && AsReal(amount) > 0.0
    ensures r.Ok? ==> r.value > 0.0 && r.value == AsReal(amount)
    ensures r.Err? ==> r.error == ValueError("amount")
  {
    if !IsNumber(amount) then Err(ValueError("amount"))
    else
      var a := AsReal(amount);
      if a <= 0.0 then Err(ValueError("amount")) else Ok(a)
  }

  /** The text `parse_iso_dt` hands to the parser: stripped, with every `Z`
      spelled `+00:00`. */
  function IsoText(s: string): (r: string)
    ensures 'Z' !in r
  {
    ReplaceChar(Strip(s), 'Z', "+00:00")
  }

  /** `parse_iso_dt(value)`: `None` for a non-string or blank value and for
      text the parser rejects. */
  function ParseIsoDt(value: Json, fromIso: IsoParser): (r: Option<DateTime>)
    ensures !NonBlankStr(value) ==> r.None?
    ensures NonBlankStr(value) ==> r == fromIso(IsoText(value.s))
  {
    if !NonBlankStr(value) then None else fromIso(IsoText(value.s))
  }

  // ---------------------------------------------------------------------
  // Properties

  /** Replacing `Z` never puts white space at the front of the text. */
  lemma ReplaceKeepsFront(s: string)
    requires s != [] && !IsSpace(s[0])
    ensures var r := ReplaceChar(s, 'Z', "+00:00"); r != [] && !IsSpace(r[0])
  {
    var head := if s[0] == 'Z' then "+00:00" else [s[0]];
    assert ReplaceChar(s, 'Z', "+00:00") == head + ReplaceChar(s[1..], 'Z', "+00:00");
  }

  /** Replacing `Z` never puts white space at the back of the text. */
  lemma {:induction false} ReplaceKeepsBack(s: string)
    requires s != [] && !IsSpace(s[|s| - 1])
    ensures var r := ReplaceChar(s, 'Z', "+00:00"); r != [] && !IsSpace(r[|r| - 1])
  {
    var head := if s[0] == 'Z' then "+00:00" else [s[0]];
    var rest := ReplaceChar(s[1..], 'Z', "+00:00");
    assert ReplaceChar(s, 'Z', "+00:00") == head + rest;
    if |s| > 1 {
      ReplaceKeepsBack(s[1..]);
    }
  }

  /** The normalised text is a fixed point: normalising it again changes
      nothing, so text that was already normalised parses as it is. */
  lemma IsoTextIdempotent(s: string)
    ensures IsoText(IsoText(s)) == IsoText(s)
  {
    var t := Strip(s);
    var r := ReplaceChar(t, 'Z', "+00:00");
    if t != [] {
      ReplaceKeepsFront(t);
      ReplaceKeepsBack(t);
    }
    StripUnchanged(r);
    assert r == IsoText(s) && 'Z' !in r;
    assert IsoText(r) == ReplaceChar(r, 'Z', "+00:00") == r;
  }
}
