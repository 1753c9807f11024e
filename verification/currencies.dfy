/** The currency catalogue (valutatrade_hub/core/currencies.py): validated
    fiat and crypto currencies and the fixed registry `get_currency` reads. */
module Currencies {
  import opened Json
  import opened Errors
  import opened Text

  /** A currency as its constructor stores it. The source's class hierarchy
      (an abstract `Currency` with two subclasses) becomes one tagged type. */
  datatype Currency =
    | Fiat(name: string, code: string, issuingCountry: string)
    | Crypto(name: string, code: string, algorithm: string, marketCap: real)

  /** `isinstance(v, str) and v.strip()`. */
  predicate NonBlankStr(v: Json) {
    v.JStr? && !IsBlank(v.s)
  }

  /** How a code is normalised: surrounding white space dropped, upper-cased. */
  function NormalizeCode(s: string): string {
    Upper(Strip(s))
  }

  /** The shape `Currency.__init__` demands of a normalised code. */
  predicate CodeShapeOk(code: string) {
    2 <= |code| <= 5 && ' ' !in code
  }

  /** A text field as the constructors leave it: non-empty, with no white
      space at either end (so `Strip` leaves it as it is). */
  predicate StrippedText(s: string) {
    s != [] && !IsSpace(s[0]) && !IsSpace(s[|s| - 1])
  }

  /** What every constructed currency satisfies. */
  predicate WellFormed(c: Currency) {
    && StrippedText(c.name)
    && CodeShapeOk(c.code) && StrippedText(c.code) && Upper(c.code) == c.code
    && (c.Fiat? ==> StrippedText(c.issuingCountry))
    && (c.Crypto? ==> StrippedText(c.algorithm) && c.marketCap >= 0.0)
  }

  /** The part of `Currency.__init__` shared by both kinds: the stored name and
      code, or the `ValueError` it raises. */
  function CheckNameAndCode(name: Json, code: Json): (r: Result<(string, string)>)
    ensures r.Ok? <==> NonBlankStr(name) && NonBlankStr(code) && CodeShapeOk(NormalizeCode(code.s))
    ensures r.Ok? ==> StrippedText(r.value.0) && r.value.0 == Strip(name.s)
    ensures r.Ok? ==> r.value.1 == NormalizeCode(code.s)
    ensures r.Err? ==> r.error == ValueError(if !NonBlankStr(name) then "name" else "code")
  {
    if !NonBlankStr(name) then Err(ValueError("name"))
    else if !NonBlankStr(code) then Err(ValueError("code"))
    else
      var c := NormalizeCode(code.s);
      if !CodeShapeOk(c) then Err(ValueError("code"))
      else
        StripIdempotent(name.s);
        Ok((Strip(name.s), c))
  }

  /** `FiatCurrency(name, code, issuing_country)`. */
  function NewFiat(name: Json, code: Json, issuingCountry: Json): (r: Result<Currency>)
    ensures r.Ok? <==> CheckNameAndCode(name, code).Ok? && NonBlankStr(issuingCountry)
    ensures r.Ok? ==> r.value.Fiat? && WellFormed(r.value)
    ensures r.Ok? ==> r.value == Fiat(Strip(name.s), NormalizeCode(code.s), Strip(issuingCountry.s))
    ensures CheckNameAndCode(name, code).Ok? && !NonBlankStr(issuingCountry) ==>
              r == Err(ValueError("issuing_country"))
  {
    var base := CheckNameAndCode(name, code);
    if base.Err? then Err(base.error)
    else if !NonBlankStr(issuingCountry) then Err(ValueError("issuing_country"))
    else
      var country := Strip(issuingCountry.s);
      StrippedField(issuingCountry.s);
      CanonicalCode(code.s);
      Ok(Fiat(base.value.0, base.value.1, country))
  }

  /** `CryptoCurrency(name, code, algorithm, market_cap)`: a negative or
      non-numeric market capitalisation is refused. */
  function NewCrypto(name: Json, code: Json, algorithm: Json, marketCap: Json): (r: Result<Currency>)
    ensures r.Ok? <==> CheckNameAndCode(name, code).Ok? && NonBlankStr(algorithm)
                       && IsNumber(marketCap) && AsReal(marketCap) >= 0.0
    ensures r.Ok? ==> r.value.Crypto? && WellFormed(r.value)
    ensures r.Ok? ==> r.value == Crypto(Strip(name.s), NormalizeCode(code.s), Strip(algorithm.s), AsReal(marketCap))
  {
    var base := CheckNameAndCode(name, code);
    if base.Err? then Err(base.error)
    else if !NonBlankStr(algorithm) then Err(ValueError("algorithm"))
    else if !IsNumber(marketCap) || AsReal(marketCap) < 0.0 then Err(ValueError("market_cap"))
    else
      var algo := Strip(algorithm.s);
      StrippedField(algorithm.s);
      CanonicalCode(code.s);
      Ok(Crypto(base.value.0, base.value.1, algo, AsReal(marketCap)))
  }

  /** `_CURRENCY_REGISTRY`. */
  const Registry: map<string, Currency> := map[
    "USD" := Fiat("US Dollar", "USD", "United States"),
    "EUR" := Fiat("Euro", "EUR", "Eurozone"),
    "GBP" := Fiat("Pound Sterling", "GBP", "United Kingdom"),
    "RUB" := Fiat("Russian Ruble", "RUB", "Russia"),
    "BTC" := Crypto("Bitcoin", "BTC", "SHA-256", 1120000000000.0),
    "ETH" := Crypto("Ethereum", "ETH", "Ethash", 450000000000.0),
    "SOL" := Crypto("Solana", "SOL", "PoH", 80000000000.0)
  ]

  /** `get_currency(code)`: the registered currency for the normalised code,
      or `CurrencyNotFoundError`. */
  function GetCurrency(code: Json): (r: Result<Currency>)
    ensures r.Ok? <==> NonBlankStr(code) && NormalizeCode(code.s) in Registry
    ensures r.Ok? ==> r.value == Registry[NormalizeCode(code.s)]
    ensures r.Ok? ==> r.value.code == NormalizeCode(code.s)
    ensures !NonBlankStr(code) ==> r == Err(CurrencyNotFound(code))
    ensures NonBlankStr(code) && r.Err? ==> r == Err(CurrencyNotFound(JStr(NormalizeCode(code.s))))
  {
    if !NonBlankStr(code) then Err(CurrencyNotFound(code))
    else
      var c := NormalizeCode(code.s);
      if c !in Registry then Err(CurrencyNotFound(JStr(c)))
      else
        RegistryCodes(c);
        Ok(Registry[c])
  }

  // ---------------------------------------------------------------------
  // Properties

  /** A non-blank text field, once stripped, is stripped text. */
  lemma StrippedField(s: string)
    requires !IsBlank(s)
    ensures StrippedText(Strip(s))
  {
  }

  /** A normalised code of an acceptable shape is a canonical code. */
  lemma CanonicalCode(s: string)
    requires CodeShapeOk(NormalizeCode(s))
    ensures StrippedText(NormalizeCode(s)) && Upper(NormalizeCode(s)) == NormalizeCode(s)
  {
    NormalizedCodeIsCanonical(s);
    StrippedEnds(NormalizeCode(s));
  }

  /** Text that `Strip` leaves as it is has no white space at either end. */
  lemma StrippedEnds(c: string)
    requires c != [] && Strip(c) == c
    ensures StrippedText(c)
  {
    assert !IsSpace(Strip(c)[0]);
  }

  /** A normalised code is already stripped and upper-case. */
  lemma NormalizedCodeIsCanonical(s: string)
    ensures Strip(NormalizeCode(s)) == NormalizeCode(s)
    ensures Upper(NormalizeCode(s)) == NormalizeCode(s)
  {
    UpperStrip(Strip(s));
    StripIdempotent(s);
    UpperIdempotent(Strip(s));
  }

  /** Each registry entry is filed under its own code. */
  lemma RegistryCodes(k: string)
    requires k in Registry
    ensures Registry[k].code == k
  {
  }

  /** The registry holds the four fiat currencies USD, EUR, GBP and RUB and
      the three cryptocurrencies BTC, ETH and SOL. */
  lemma RegistryContents()
    ensures Registry.Keys == {"USD", "EUR", "GBP", "RUB", "BTC", "ETH", "SOL"}
    ensures forall k | k in Registry :: Registry[k].Fiat? <==> k in {"USD", "EUR", "GBP", "RUB"}
  {
  }

  /** Every registry key is a canonical code: stripped, upper-case and of
      an acceptable shape. */
  lemma RegistryKeysCanonical(k: string)
    requires k in Registry
    ensures Upper(k) == k && CodeShapeOk(k)
  {
  }

  /** Building a currency from the fields of a well-formed one gives it back:
      the constructors accept exactly what they produce. */
  lemma FiatRoundTrip(c: Currency)
    requires c.Fiat? && WellFormed(c)
    ensures NewFiat(JStr(c.name), JStr(c.code), JStr(c.issuingCountry)) == Ok(c)
  {
    StripUnchanged(c.name);
    StripUnchanged(c.code);
    StripUnchanged(c.issuingCountry);
    assert NormalizeCode(c.code) == c.code;
  }

  lemma CryptoRoundTrip(c: Currency)
    requires c.Crypto? && WellFormed(c)
    ensures NewCrypto(JStr(c.name), JStr(c.code), JStr(c.algorithm), JFloat(c.marketCap)) == Ok(c)
  {
    StripUnchanged(c.name);
    StripUnchanged(c.code);
    StripUnchanged(c.algorithm);
    assert NormalizeCode(c.code) == c.code;
  }

  /** Two non-blank queries with the same normalised code have the same
      outcome. */
  lemma GetCurrencyByCode(a: string, b: string)
    requires !IsBlank(a) && !IsBlank(b) && NormalizeCode(a) == NormalizeCode(b)
    ensures GetCurrency(JStr(a)) == GetCurrency(JStr(b))
  {
  }

  /** `get_currency` ignores case: an upper-cased query has the same outcome. */
  lemma GetCurrencyIgnoresCase(s: string)
    requires !IsBlank(s)
    ensures GetCurrency(JStr(Upper(s))) == GetCurrency(JStr(s))
  {
    UpperStrip(s);
    UpperIdempotent(Strip(s));
    assert !IsBlank(Upper(s));
    GetCurrencyByCode(Upper(s), s);
  }

  /** `get_currency` ignores leading white space. */
  lemma GetCurrencyIgnoresLeadingSpace(c: char, s: string)
    requires IsSpace(c) && !IsBlank(s)
    ensures GetCurrency(JStr([c] + s)) == GetCurrency(JStr(s))
  {
    StripLeadingSpace(c, s);
    GetCurrencyByCode([c] + s, s);
  }

  /** Looking up the code `get_currency` returned finds the same currency. */
  lemma GetCurrencyIdempotent(code: Json)
    requires GetCurrency(code).Ok?
    ensures GetCurrency(JStr(GetCurrency(code).value.code)) == GetCurrency(code)
  {
    NormalizedCodeIsCanonical(code.s);
  }
}
