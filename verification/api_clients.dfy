/** The two rate providers of valutatrade_hub/parser_service/api_clients.py,
    from the moment their HTTP request has returned: the request guards and
    the loops that turn a response into cache entries. */
module ApiClients {
  import opened Json
  import opened Errors
  import opened Text
  import opened RateLookup

  /** `BASE_CURRENCY`, and the codes each provider is asked for
      (valutatrade_hub/parser_service/config.py). */
  const BaseCurrency := "USD"
  const FiatCurrencies: seq<string> := ["EUR", "GBP", "RUB"]
  /** `CRYPTO_ID_MAP`, in its order: code and CoinGecko id. */
  const CryptoIds: seq<(string, string)> := [("BTC", "bitcoin"), ("ETH", "ethereum"), ("SOL", "solana")]

  const CoinGeckoSource := "CoinGecko"
  const ExchangeRateSource := "ExchangeRate-API"

  /** What `requests.get` produced: a `RequestException`, or a response whose
      body decodes as JSON (`Some`) or does not (`None`; the decoding error is
      a `RequestException` too). */
  datatype HttpOutcome = NetworkError | Response(status: int, body: Option<Json>)

  /** The guarded request: a failed request or undecodable body, and any
      status other than 200, raise `ApiRequestError`. */
  function ResponseData(provider: string, resp: HttpOutcome): (r: Result<Json>)
    ensures r.Ok? <==> resp.Response? && resp.status == 200 && resp.body.Some?
    ensures r.Ok? ==> r.value == resp.body.value
    ensures resp.Response? && resp.status != 200 ==> r == Err(ApiRequest(BadStatus(provider, resp.status)))
    ensures r.Err? ==> r.error.ApiRequest?
  {
    match resp
    case NetworkError => Err(ApiRequest(RequestFailed(provider)))
    case Response(status, body) =>
      if status != 200 then Err(ApiRequest(BadStatus(provider, status)))
      else if body.None? then Err(ApiRequest(RequestFailed(provider)))
      else Ok(body.value)
  }

  /** The entries of one fetch, as an ordered dictionary. */
  type Pairs = seq<(string, Json)>

  /** `done` followed by what the rest of a loop yields, or the rest's error. */
  function Then(done: Pairs, rest: Result<Pairs>): Result<Pairs> {
    if rest.Err? then rest else Ok(done + rest.value)
  }

  // ---------------------------------------------------------------------
  // CoinGecko

  /** One iteration of the CoinGecko loop: `data.get(id, {})` and
      `node.get("usd")` raise `AttributeError` on a non-dict; a numeric price
      gives the entry `CODE_USD`. */
  function CryptoEntry(data: Json, code: string, rawId: string, ts: string): (r: Result<Option<(string, Json)>>)
    ensures r.Err? <==> !data.JObj? || !GetOr(data, rawId, JObj(map[])).JObj?
    ensures r.Err? ==> r.error.MalformedData?
    ensures r.Ok? && r.value.Some? ==>
      exists rate :: r.value.value == (PairKey(code, BaseCurrency), RateRecord(rate, ts, CoinGeckoSource))
  {
    if !data.JObj? then Err(MalformedData("response"))
    else
      var node := GetOr(data, rawId, JObj(map[]));
      if !node.JObj? then Err(MalformedData(rawId))
      else
        var price := Get(node, "usd");
        if IsNumber(price) then Ok(Some((PairKey(code, BaseCurrency), RateRecord(AsReal(price), ts, CoinGeckoSource))))
        else Ok(None)
  }

  /** The CoinGecko loop over the remaining `ids`. */
  function CryptoPairs(data: Json, ids: seq<(string, string)>, ts: string): (r: Result<Pairs>)
    ensures r.Ok? ==> |r.value| <= |ids|
    ensures r.Err? ==> r.error.MalformedData?
    ensures ids != [] && !data.JObj? ==> r.Err?
    decreases |ids|
  {
    if ids == [] then Ok([])
    else
      var e :- CryptoEntry(data, ids[0].0, ids[0].1, ts);
      var rest :- CryptoPairs(data, ids[1..], ts);
      Ok((if e.Some? then [e.value] else []) + rest)
  }

  /** `CoinGeckoClient.fetch_rates` after the request, specified. */
  function CoinGeckoRates(resp: HttpOutcome, ts: string): (r: Result<Pairs>)
    ensures ResponseData(CoinGeckoSource, resp).Err? ==> r == Err(ResponseData(CoinGeckoSource, resp).error)
    ensures r.Ok? ==> resp.Response? && resp.status == 200 && |r.value| <= |CryptoIds|
    ensures r.Err? ==> r.error.ApiRequest? || r.error.MalformedData?
  {
    var data :- ResponseData(CoinGeckoSource, resp);
    CryptoPairs(data, CryptoIds, ts)
  }

  /** `CoinGeckoClient.fetch_rates`, with the response and the clock reading
      `ts` as inputs. */
  method FetchCoinGecko(resp: HttpOutcome, ts: string) returns (r: Result<Pairs>)
    ensures r == CoinGeckoRates(resp, ts)
  {
    var data := ResponseData(CoinGeckoSource, resp);
    if data.Err? {
      return Err(data.error);
    }
    var out: Pairs := [];
    var i := 0;
    assert CryptoIds[0..] == CryptoIds;
    ThenEmpty(CryptoPairs(data.value, CryptoIds, ts));
    while i < |CryptoIds|
      invariant 0 <= i <= |CryptoIds|
      invariant CoinGeckoRates(resp, ts) == Then(out, CryptoPairs(data.value, CryptoIds[i..], ts))
    {
      var e := CryptoEntry(data.value, CryptoIds[i].0, CryptoIds[i].1, ts);
      if e.Err? {
        return Err(e.error);
      }
      assert CryptoIds[i..][1..] == CryptoIds[i + 1..];
      var head := if e.value.Some? then [e.value.value] else [];
      var rest := CryptoPairs(data.value, CryptoIds[i + 1..], ts);
      assert CryptoPairs(data.value, CryptoIds[i..], ts) == if rest.Err? then rest else Ok(head + rest.value);
      ThenStep(out, head, rest);
      var next := out + head;
      out := next;
      i := i + 1;
    }
    assert out + [] == out;
    return Ok(out);
  }

  // ---------------------------------------------------------------------
  // ExchangeRate-API

  /** One iteration of the ExchangeRate loop: `conversion_rates.get(code)`
      raises `AttributeError` on a non-dict; a numeric, non-zero value gives
      the entry `CODE_USD` with its inverse as the rate. */
  function FiatEntry(rates: Json, code: string, ts: string): (r: Result<Option<(string, Json)>>)
    ensures r.Err? <==> !rates.JObj?
    ensures r.Err? ==> r.error.MalformedData?
    ensures r.Ok? && r.value.Some? ==>
      exists rate :: r.value.value == (PairKey(code, BaseCurrency), RateRecord(rate, ts, ExchangeRateSource))
  {
    if !rates.JObj? then Err(MalformedData("conversion_rates"))
    else
      var value := Get(rates, code);
      if IsNumber(value) && AsReal(value) != 0.0 then
        Ok(Some((PairKey(code, BaseCurrency), RateRecord(1.0 / AsReal(value), ts, ExchangeRateSource))))
      else Ok(None)
  }

  /** The ExchangeRate loop over the remaining `codes`. */
  function FiatPairs(rates: Json, codes: seq<string>, ts: string): (r: Result<Pairs>)
    ensures r.Ok? ==> |r.value| <= |codes|
    ensures r.Err? ==> r.error.MalformedData?
    ensures codes != [] && !rates.JObj? ==> r.Err?
    decreases |codes|
  {
    if codes == [] then Ok([])
    else
      var e :- FiatEntry(rates, codes[0], ts);
      var rest :- FiatPairs(rates, codes[1..], ts);
      Ok((if e.Some? then [e.value] else []) + rest)
  }

  /** `ExchangeRateApiClient.fetch_rates` after the request, specified. */
  function ExchangeRates(apiKey: string, resp: HttpOutcome, ts: string): (r: Result<Pairs>)
    ensures apiKey == "" ==> r == Err(ApiRequest(MissingApiKey))
    ensures apiKey != "" && ResponseData(ExchangeRateSource, resp).Err? ==> r == Err(ResponseData(ExchangeRateSource, resp).error)
    ensures r.Ok? ==> apiKey != "" && resp.Response? && resp.status == 200 && |r.value| <= |FiatCurrencies|
  {
    if apiKey == "" then Err(ApiRequest(MissingApiKey))
    else
      var data :- ResponseData(ExchangeRateSource, resp);
      if !data.JObj? then Err(MalformedData("response"))
      else FiatPairs(GetOr(data, "conversion_rates", JObj(map[])), FiatCurrencies, ts)
  }

  /** `ExchangeRateApiClient.fetch_rates`, with the API key, the response and
      the clock reading `ts` as inputs; an empty key fails before any request. */
  method FetchExchangeRate(apiKey: string, resp: HttpOutcome, ts: string) returns (r: Result<Pairs>)
    ensures r == ExchangeRates(apiKey, resp, ts)
  {
    if apiKey == "" {
      return Err(ApiRequest(MissingApiKey));
    }
    var data := ResponseData(ExchangeRateSource, resp);
    if data.Err? {
      return Err(data.error);
    }
    if !data.value.JObj? {
      return Err(MalformedData("response"));
    }
    var conversionRates := GetOr(data.value, "conversion_rates", JObj(map[]));
    var out: Pairs := [];
    var i := 0;
    assert FiatCurrencies[0..] == FiatCurrencies;
    ThenEmpty(FiatPairs(conversionRates, FiatCurrencies, ts));
    while i < |FiatCurrencies|
      invariant 0 <= i <= |FiatCurrencies|
      invariant ExchangeRates(apiKey, resp, ts) == Then(out, FiatPairs(conversionRates, FiatCurrencies[i..], ts))
    {
      var e := FiatEntry(conversionRates, FiatCurrencies[i], ts);
      if e.Err? {
        return Err(e.error);
      }
      assert FiatCurrencies[i..][1..] == FiatCurrencies[i + 1..];
      var head := if e.value.Some? then [e.value.value] else [];
      var rest := FiatPairs(conversionRates, FiatCurrencies[i + 1..], ts);
      assert FiatPairs(conversionRates, FiatCurrencies[i..], ts) == if rest.Err? then rest else Ok(head + rest.value);
      ThenStep(out, head, rest);
      var next := out + head;
      out := next;
      i := i + 1;
    }
    assert out + [] == out;
    return Ok(out);
  }

  lemma ThenEmpty(rest: Result<Pairs>)
    ensures Then([], rest) == rest
  {
    if rest.Ok? {
      assert [] + rest.value == rest.value;
    }
  }

  lemma ThenStep(done: Pairs, head: Pairs, rest: Result<Pairs>)
    ensures Then(done, if rest.Err? then rest else Ok(head + rest.value)) == Then(done + head, rest)
  {
    if rest.Ok? {
      assert done + (head + rest.value) == (done + head) + rest.value;
    }
  }

  // ---------------------------------------------------------------------
  // Properties

  /** An entry of a fetch: a pair `CODE_USD` with a rate record stamped `ts`
      by `source`. */
  ghost predicate EntryFrom(e: (string, Json), codes: seq<string>, ts: string, source: string) {
    exists code, rate | code in codes :: e == (PairKey(code, BaseCurrency), RateRecord(rate, ts, source))
  }

  /** No code is listed twice. */
  predicate DistinctCodes(ids: seq<(string, string)>) {
    forall i, j | 0 <= i < j < |ids| :: ids[i].0 != ids[j].0
  }

  /** Every pair key ends in `_USD`, and distinct codes give distinct keys. */
  lemma PairKeyOfBase(code: string, other: string)
    ensures EndsWith(PairKey(code, BaseCurrency), "_USD")
    ensures PairKey(code, BaseCurrency) == PairKey(other, BaseCurrency) ==> code == other
  {
    assert PairKey(code, BaseCurrency)[|code|..] == "_USD";
    if PairKey(code, BaseCurrency) == PairKey(other, BaseCurrency) {
      assert code == PairKey(code, BaseCurrency)[..|code|];
      assert other == PairKey(other, BaseCurrency)[..|other|];
    }
  }

  /** The CoinGecko loop yields only entries `CODE_USD` for listed codes, each
      a rate record stamped with the shared `ts` and source `CoinGecko`. */
  lemma {:induction false} CryptoPairsShape(data: Json, ids: seq<(string, string)>, ts: string)
    requires CryptoPairs(data, ids, ts).Ok?
    ensures forall e | e in CryptoPairs(data, ids, ts).value :: EntryFrom(e, CodesOf(ids), ts, CoinGeckoSource)
    decreases |ids|
  {
    if ids != [] {
      CryptoPairsShape(data, ids[1..], ts);
      assert forall c | c in CodesOf(ids[1..]) :: c in CodesOf(ids);
    }
  }

  /** For each listed currency, the CoinGecko loop yields its entry, with the
      price as the rate, exactly when the price is a number. */
  lemma {:induction false} CryptoPairsMembership(data: Json, ids: seq<(string, string)>, ts: string, i: nat)
    requires CryptoPairs(data, ids, ts).Ok? && DistinctCodes(ids) && i < |ids|
    ensures data.JObj? && GetOr(data, ids[i].1, JObj(map[])).JObj?
    ensures var price := Get(GetOr(data, ids[i].1, JObj(map[])), "usd");
      IsNumber(price) ==>
        (PairKey(ids[i].0, BaseCurrency), RateRecord(AsReal(price), ts, CoinGeckoSource)) in CryptoPairs(data, ids, ts).value
    ensures var price := Get(GetOr(data, ids[i].1, JObj(map[])), "usd");
      !IsNumber(price) ==>
        forall e | e in CryptoPairs(data, ids, ts).value :: e.0 != PairKey(ids[i].0, BaseCurrency)
    decreases |ids|
  {
    var out := CryptoPairs(data, ids, ts).value;
    var rest := CryptoPairs(data, ids[1..], ts).value;
    if i == 0 {
      CryptoPairsShape(data, ids[1..], ts);
      forall e | e in rest
        ensures e.0 != PairKey(ids[0].0, BaseCurrency)
      {
        var code, rate :| code in CodesOf(ids[1..]) && e == (PairKey(code, BaseCurrency), RateRecord(rate, ts, CoinGeckoSource));
        PairKeyOfBase(code, ids[0].0);
      }
    } else {
      CryptoPairsMembership(data, ids[1..], ts, i - 1);
      assert ids[1..][i - 1] == ids[i];
      PairKeyOfBase(ids[0].0, ids[i].0);
    }
  }

  /** The same for the ExchangeRate loop: it yields only entries `CODE_USD`
      for listed codes, stamped with the shared `ts` and source
      `ExchangeRate-API`. */
  lemma {:induction false} FiatPairsShape(rates: Json, codes: seq<string>, ts: string)
    requires FiatPairs(rates, codes, ts).Ok?
    ensures forall e | e in FiatPairs(rates, codes, ts).value :: EntryFrom(e, codes, ts, ExchangeRateSource)
    decreases |codes|
  {
    if codes != [] {
      FiatPairsShape(rates, codes[1..], ts);
      assert forall c | c in codes[1..] :: c in codes;
    }
  }

  /** For each listed fiat code, the ExchangeRate loop yields its entry, with
      the inverse of the quoted value as the rate, exactly when the value is a
      non-zero number. */
  lemma {:induction false} FiatPairsMembership(rates: Json, codes: seq<string>, ts: string, i: nat)
    requires FiatPairs(rates, codes, ts).Ok? && i < |codes|
    requires forall j, k | 0 <= j < k < |codes| :: codes[j] != codes[k]
    ensures rates.JObj?
    ensures var value := Get(rates, codes[i]);
      IsNumber(value) && AsReal(value) != 0.0 ==>
        (PairKey(codes[i], BaseCurrency), RateRecord(1.0 / AsReal(value), ts, ExchangeRateSource))
          in FiatPairs(rates, codes, ts).value
    ensures var value := Get(rates, codes[i]);
      !(IsNumber(value) && AsReal(value) != 0.0) ==>
        forall e | e in FiatPairs(rates, codes, ts).value :: e.0 != PairKey(codes[i], BaseCurrency)
    decreases |codes|
  {
    var rest := FiatPairs(rates, codes[1..], ts).value;
    if i == 0 {
      FiatPairsShape(rates, codes[1..], ts);
      forall e | e in rest
        ensures e.0 != PairKey(codes[0], BaseCurrency)
      {
        var code, rate :| code in codes[1..] && e == (PairKey(code, BaseCurrency), RateRecord(rate, ts, ExchangeRateSource));
        PairKeyOfBase(code, codes[0]);
      }
    } else {
      FiatPairsMembership(rates, codes[1..], ts, i - 1);
      assert codes[1..][i - 1] == codes[i];
      PairKeyOfBase(codes[0], codes[i]);
    }
  }

  /** The codes of a list of `(code, id)` pairs. */
  function CodesOf(ids: seq<(string, string)>): (r: seq<string>)
    ensures |r| == |ids| && forall i | 0 <= i < |ids| :: r[i] == ids[i].0
  {
    seq(|ids|, i requires 0 <= i < |ids| => ids[i].0)
  }
}
