/** Reference definitions for the operations of `CoreUseCases`
    (valutatrade_hub/core/usecases.py), stated on the stored values: what a
    login finds, what a refresh runs, what a trade must store, which rows
    `show_rates` lists and what `show_portfolio` adds up. The methods of
    `UseCases.CoreUseCases` are proved against them. */
module UseCaseSpecs {
  import opened Json
  import opened Errors
  import opened Text
  import opened Currencies
  import opened Utils
  import opened Models
  import opened RateLookup
  import opened Store
  import opened ApiClients
  import opened Updater
  import opened Sorting
  import Trading

  /** Who is logged in. */
  datatype Session = Session(userId: Option<int>, username: Option<string>)

  // ---------------------------------------------------------------------
  // Login

  /** What `login` reports when it raises nothing. */
  datatype LoginReply = UnknownUser(username: string) | WrongPassword | LoggedIn(userId: int, username: string)

  /** `login(username, password)`: the first user with the stripped name;
      rebuilding the `User` raises `ValueError` for a blank stored name; the
      password must hash, with the stored salt, to the stored hash. */
  function LoginOutcome(users: seq<UserRow>, username: string, password: string, sha: Hash): (r: Result<LoginReply>)
    ensures r == Ok(UnknownUser(Strip(username))) <==> forall j | 0 <= j < |users| :: users[j].username != Strip(username)
    ensures r.Err? ==> r == Err(ValueError("username"))
    ensures r.Ok? && !r.value.UnknownUser? ==>
      var i := FirstUserNamed(users, Strip(username));
      && i.Some?
      && (r.value.LoggedIn? <==> HashPassword(password, users[i.value].salt, sha) == users[i.value].hashedPassword)
      && (r.value.LoggedIn? ==> r.value.userId == users[i.value].userId && r.value.username == Strip(username))
  {
    var name := Strip(username);
    var i := FirstUserNamed(users, name);
    if i.None? then Ok(UnknownUser(name))
    else
      var row := users[i.value];
      if IsBlank(row.username) then Err(ValueError("username"))
      else if HashPassword(password, row.salt, sha) != row.hashedPassword then Ok(WrongPassword)
      else Ok(LoggedIn(row.userId, Strip(row.username)))
  }

  /** The row `register` appends for a new user. */
  function NewUserRow(users: seq<UserRow>, username: string, password: string, salt: string, now: string, sha: Hash): UserRow {
    UserRow(NextUserId(users), Strip(username), HashPassword(password, salt, sha), salt, now)
  }

  /** The first user named `name` in `users + [row]`. */
  lemma {:induction false} FirstUserNamedAppend(users: seq<UserRow>, row: UserRow, name: string)
    ensures FirstUserNamed(users + [row], name) ==
      if FirstUserNamed(users, name).Some? then FirstUserNamed(users, name)
      else if row.username == name then Some(|users|)
      else None
  {
    if users != [] {
      assert (users + [row])[1..] == users[1..] + [row];
      FirstUserNamedAppend(users[1..], row, name);
    }
  }

  /** A newly registered user can log in with the password given at
      registration; with an injective hash, with no other password. */
  lemma RegisterThenLogin(users: seq<UserRow>, username: string, password: string, other: string,
                          salt: string, now: string, sha: Hash)
    requires !IsBlank(username) && FirstUserNamed(users, Strip(username)).None?
    ensures var row := NewUserRow(users, username, password, salt, now, sha);
      LoginOutcome(users + [row], username, password, sha) == Ok(LoggedIn(row.userId, Strip(username)))
    ensures Injective(sha) && other != password ==>
      LoginOutcome(users + [NewUserRow(users, username, password, salt, now, sha)], username, other, sha) == Ok(WrongPassword)
  {
    var row := NewUserRow(users, username, password, salt, now, sha);
    FirstUserNamedAppend(users, row, Strip(username));
    StripIdempotent(username);
    if Injective(sha) && other != password && HashPassword(other, salt, sha) == row.hashedPassword {
      OnlyOnePasswordVerifies(other, password, salt, sha);
    }
  }

  // ---------------------------------------------------------------------
  // Refreshing the rates

  /** Everything a refresh receives from outside: the providers' responses,
      the API key, and the clock readings of the clients, the updater and the
      storage. */
  datatype Feeds = Feeds(coinGecko: HttpOutcome, coinGeckoTs: string, exchangeRate: HttpOutcome,
                         exchangeRateTs: string, apiKey: string, runTs: string, storedAt: string)

  /** The two rate providers. */
  datatype Client = CoinGeckoClient | ExchangeRateApiClient

  /** The client's class name, which its history records carry. */
  function ClientName(c: Client): string {
    match c
    case CoinGeckoClient => "CoinGeckoClient"
    case ExchangeRateApiClient => "ExchangeRateApiClient"
  }

  /** What the client's `fetch_rates` does with the feeds. */
  function RunOf(c: Client, f: Feeds): ClientRun {
    match c
    case CoinGeckoClient => ClientRun(ClientName(c), CoinGeckoRates(f.coinGecko, f.coinGeckoTs))
    case ExchangeRateApiClient => ClientRun(ClientName(c), ExchangeRates(f.apiKey, f.exchangeRate, f.exchangeRateTs))
  }

  function RunsOf(clients: seq<Client>, f: Feeds): (r: seq<ClientRun>)
    ensures |r| == |clients| && forall i | 0 <= i < |clients| :: r[i] == RunOf(clients[i], f)
  {
    seq(|clients|, i requires 0 <= i < |clients| => RunOf(clients[i], f))
  }

  /** `str(source).strip().lower()`. */
  function SourceName(source: string): (r: string)
    ensures |r| <= |source|
    ensures r == "" <==> IsBlank(source)
    ensures forall i | 0 <= i < |r| :: !('A' <= r[i] <= 'Z')
  {
    Lower(Strip(source))
  }

  /** The source names that select both clients. */
  predicate RunsBoth(src: string) {
    src == "all" || src == ""
  }

  /** The clients `update_rates(source)` runs: both, CoinGecko first, for
      "all" or "", one for "coingecko" or "exchangerate", and `ValueError`
      for anything else. */
  function SourceClients(source: string): (r: Result<seq<Client>>)
    ensures r.Err? <==> !RunsBoth(SourceName(source)) && SourceName(source) != "coingecko" && SourceName(source) != "exchangerate"
    ensures r.Err? ==> r.error == ValueError("source")
    ensures r.Ok? ==> (CoinGeckoClient in r.value <==> SourceName(source) != "exchangerate")
    ensures r.Ok? ==> (ExchangeRateApiClient in r.value <==> SourceName(source) != "coingecko")
    ensures r.Ok? && |r.value| > 1 ==> r.value == [CoinGeckoClient, ExchangeRateApiClient]
  {
    var src := SourceName(source);
    if RunsBoth(src) then Ok([CoinGeckoClient, ExchangeRateApiClient])
    else if src == "coingecko" then Ok([CoinGeckoClient])
    else if src == "exchangerate" then Ok([ExchangeRateApiClient])
    else Err(ValueError("source"))
  }

  /** `update_rates("all")`, as `get_rate` calls it, runs both clients. */
  lemma AllRunsBoth()
    ensures SourceClients("all") == Ok([CoinGeckoClient, ExchangeRateApiClient])
  {
    assert !IsSpace('a') && !IsSpace('l');
    assert TrimStart("all") == "all";
    assert TrimEnd("all") == "all";
    assert Lower("all") == "all";
  }

  /** What one refresh over `runs` merges and records. */
  function Refreshed(runs: seq<ClientRun>, ts: string): (r: Merge)
    ensures r.history == AllRecorded(runs, ts)
    ensures forall pair | pair in r.pairs :: LastValue(AllContributed(runs, ts), pair) == Some(r.pairs[pair])
  {
    HistoryOfRun(runs, ts);
    RefreshedPairs(runs, ts);
    RunAll(Merge(map[], []), runs, ts)
  }

  /** The entries client `c` contributes to the merge of a refresh. */
  function ContributedBy(c: Client, f: Feeds): Pairs {
    var run := RunOf(c, f);
    if run.fetched.Ok? then Contributed(run.fetched.value, f.runTs, run.name) else []
  }

  /** On a full refresh the ExchangeRate client runs last, so a pair both
      clients return takes the ExchangeRate value, and a pair only the
      CoinGecko client returns keeps the CoinGecko value. */
  lemma FullRefreshOrder(f: Feeds, pair: string)
    ensures var m := Refreshed(RunsOf([CoinGeckoClient, ExchangeRateApiClient], f), f.runTs);
      var fromGecko := LastValue(ContributedBy(CoinGeckoClient, f), pair);
      var fromRate := LastValue(ContributedBy(ExchangeRateApiClient, f), pair);
      && (pair in m.pairs <==> fromGecko.Some? || fromRate.Some?)
      && (fromRate.Some? ==> m.pairs[pair] == fromRate.value)
      && (fromRate.None? && fromGecko.Some? ==> m.pairs[pair] == fromGecko.value)
  {
    var runs := RunsOf([CoinGeckoClient, ExchangeRateApiClient], f);
    LastWriterWins(runs, f.runTs, pair);
    var fromGecko := ContributedBy(CoinGeckoClient, f);
    var fromRate := ContributedBy(ExchangeRateApiClient, f);
    FirstClientStep(Merge(map[], []), runs, f.runTs);
    assert runs[1..] == [RunOf(ExchangeRateApiClient, f)];
    FirstClientStep(Merge(map[], []), runs[1..], f.runTs);
    assert runs[1..][1..] == [];
    assert fromRate + [] == fromRate;
    assert AllContributed(runs, f.runTs) == fromGecko + fromRate;
    LastValueAppend(fromGecko, fromRate, pair);
  }

  /** The last value of `pair` in `e + g`: the one in `g` if any. */
  lemma {:induction false} LastValueAppend(e: Pairs, g: Pairs, pair: string)
    ensures LastValue(e + g, pair) == if LastValue(g, pair).Some? then LastValue(g, pair) else LastValue(e, pair)
    decreases |g|
  {
    if g != [] {
      var n := e + g;
      assert n[..|n| - 1] == e + g[..|g| - 1];
      LastValueAppend(e, g[..|g| - 1], pair);
    } else {
      assert e + g == e;
    }
  }

  /** What `get_rate` reports: the pair, its rate, the inverse rate (zero
      for a zero rate) and when it was updated. */
  datatype RateView = RateView(fromCode: string, toCode: string, rate: real, inverse: real, updatedAt: string)

  function ViewOf(fromCode: string, toCode: string, q: Quote): (r: RateView)
    ensures r.fromCode == fromCode && r.toCode == toCode && r.rate == q.rate && r.updatedAt == q.updatedAt
    ensures r.rate != 0.0 ==> r.rate * r.inverse == 1.0
    ensures r.rate == 0.0 ==> r.inverse == 0.0
  {
    RateView(fromCode, toCode, q.rate, if q.rate != 0.0 then 1.0 / q.rate else 0.0, q.updatedAt)
  }

  // ---------------------------------------------------------------------
  // Trading

  /** What `buy` and `sell` check before touching the portfolio: a session,
      a registered currency (its canonical code) and a positive amount. */
  function CheckTrade(session: Session, currencyCode: string, amount: real): (r: Result<(int, string, real)>)
    ensures r.Ok? ==> session.userId == Some(r.value.0) && r.value.1 in Registry && r.value.2 == amount > 0.0
    ensures r.Ok? ==> GetCurrency(JStr(currencyCode)).Ok? && r.value.1 == GetCurrency(JStr(currencyCode)).value.code
    ensures session.userId.Some? && GetCurrency(JStr(currencyCode)).Ok? && amount > 0.0 ==> r.Ok?
    ensures session.userId.None? ==> r == Err(PermissionDenied)
    ensures session.userId.Some? && GetCurrency(JStr(currencyCode)).Err? ==> r == Err(GetCurrency(JStr(currencyCode)).error)
    ensures session.userId.Some? && GetCurrency(JStr(currencyCode)).Ok? && amount <= 0.0 ==> r == Err(ValueError("amount"))
  {
    if session.userId.None? then Err(PermissionDenied)
    else
      var c :- GetCurrency(JStr(currencyCode));
      var a :- ValidateAmount(JFloat(amount));
      RegistryCodes(c.code);
      Ok((session.userId.value, c.code, a))
  }

  /** The cached `code`→USD rate `_get_rate` finds, if any. */
  function QuotedRate(pairs: map<string, Json>, code: string): (r: Option<real>)
    ensures r.Some? <==> LookupRate(pairs, code, Trading.Base).Some?
    ensures r.Some? ==> r.value == LookupRate(pairs, code, Trading.Base).value.rate
  {
    var q := LookupRate(pairs, code, Trading.Base);
    if q.None? then None else Some(q.value.rate)
  }

  /** What `buy` and `sell` report on success. */
  datatype TradeReply =
    | NoWallet(code: string)
    | Traded(code: string, amount: real, rate: Option<real>, before: real, after: real)

  /** What `buy` reports for balances `b`: its error, or the code, the
      amount, the rate it used (none for USD) and the wallet's balance before
      and after. */
  function BuyReply(b: Trading.Balances, code: string, amount: real, rate: Option<real>): (r: Result<TradeReply>)
    ensures r.Err? <==> Trading.Buy(b, code, amount, rate).Err?
    ensures r.Ok? ==> r.value.Traded? && r.value.after == Trading.BalanceOf(Trading.Buy(b, code, amount, rate).value, code)
  {
    match Trading.Buy(b, code, amount, rate)
    case Err(e) => Err(e)
    case Ok(b1) => Ok(Traded(code, amount, if code == Trading.Base then None else rate, Trading.BalanceOf(b, code), Trading.BalanceOf(b1, code)))
  }

  /** What `sell` reports for balances `b`: its error, the missing wallet,
      or the code, the amount, the rate it used (none for USD) and the
      wallet's balance before and after. */
  function SellReply(b: Trading.Balances, code: string, amount: real, rate: Option<real>): (r: Result<TradeReply>)
    ensures r.Err? <==> Trading.Sell(b, code, amount, rate).Err?
    ensures r.Ok? ==> (r.value.NoWallet? <==> code !in b)
  {
    match Trading.Sell(b, code, amount, rate)
    case Err(e) => Err(e)
    case Ok(None) => Ok(NoWallet(code))
    case Ok(Some(b1)) => Ok(Traded(code, amount, if code == Trading.Base then None else rate, Trading.BalanceOf(b, code), Trading.BalanceOf(b1, code)))
  }

  /** Balances under upper-case codes stay under upper-case codes through a
      trade in a registry currency. */
  lemma TradesKeepCodesUpper(b: Trading.Balances, code: string, amount: real, rate: Option<real>)
    requires forall k | k in b :: Upper(k) == k
    requires code in Registry
    ensures Trading.Buy(b, code, amount, rate).Ok? ==> forall k | k in Trading.Buy(b, code, amount, rate).value :: Upper(k) == k
    ensures Trading.Sell(b, code, amount, rate).Ok? && Trading.Sell(b, code, amount, rate).value.Some? ==>
      forall k | k in Trading.Sell(b, code, amount, rate).value.value :: Upper(k) == k
  {
    RegistryKeysCanonical(code);
    RegistryKeysCanonical(Trading.Base);
    Trading.BuyEffect(b, code, amount, rate);
    Trading.SellEffect(b, code, amount, rate);
  }

  // ---------------------------------------------------------------------
  // show_portfolio

  /** One line of the portfolio: a wallet and its value in the base
      currency, `None` when there is no rate. */
  datatype Holding = Holding(code: string, balance: real, value: Option<real>)

  /** What `show_portfolio` reports. */
  datatype PortfolioView =
    | NoWallets
    | Holdings(username: Option<string>, base: string, lines: seq<Holding>, total: real)

  /** The value in `base` of the wallet `code`: its balance when it is the
      base itself, otherwise the balance at the cached rate, if any. */
  function HoldingValue(b: Trading.Balances, code: string, pairs: map<string, Json>, base: string): (r: Option<real>)
    requires code in b
    ensures code == base ==> r == Some(b[code])
    ensures code != base ==> (r.Some? <==> LookupRate(pairs, code, base).Some?)
    ensures code != base && r.Some? ==> r.value == Trading.Convert(b[code], LookupRate(pairs, code, base).value.rate)
  {
    if code == base then Some(b[code])
    else
      var q := LookupRate(pairs, code, base);
      if q.None? then None else Some(Trading.Convert(b[code], q.value.rate))
  }

  /** The line printed for the wallet `code`. */
  function LineOf(b: Trading.Balances, code: string, pairs: map<string, Json>, base: string): Holding
    requires code in b
  {
    Holding(code, b[code], HoldingValue(b, code, pairs, base))
  }

  /** What a wallet adds to the total: nothing without a rate. */
  function Contribution(b: Trading.Balances, code: string, pairs: map<string, Json>, base: string): real
    requires code in b
  {
    var v := HoldingValue(b, code, pairs, base);
    if v.Some? then v.value else 0.0
  }

  /** The total over a set of wallets, in no particular order. */
  ghost function Total(b: Trading.Balances, codes: set<string>, pairs: map<string, Json>, base: string): real
    requires codes <= b.Keys
    decreases codes
  {
    if codes == {} then 0.0
    else
      var k :| k in codes;
      Contribution(b, k, pairs, base) + Total(b, codes - {k}, pairs, base)
  }

  /** Any wallet can be taken out of the total first. */
  lemma {:induction false} TotalRemove(b: Trading.Balances, codes: set<string>, k: string, pairs: map<string, Json>, base: string)
    requires codes <= b.Keys && k in codes
    ensures Total(b, codes, pairs, base) == Contribution(b, k, pairs, base) + Total(b, codes - {k}, pairs, base)
    decreases codes
  {
    var j :| j in codes && Total(b, codes, pairs, base) == Contribution(b, j, pairs, base) + Total(b, codes - {j}, pairs, base);
    if j != k {
      TotalRemove(b, codes - {j}, k, pairs, base);
      TotalRemove(b, codes - {k}, j, pairs, base);
      assert codes - {j} - {k} == codes - {k} - {j};
    }
  }

  /** The total is the base wallet's balance plus the values of the other
      wallets. */
  lemma BaseWalletCountsInFull(b: Trading.Balances, pairs: map<string, Json>, base: string)
    requires base in b
    ensures Total(b, b.Keys, pairs, base) == b[base] + Total(b, b.Keys - {base}, pairs, base)
  {
    TotalRemove(b, b.Keys, base, pairs, base);
  }

  /** Wallets without a rate to the base contribute nothing: when no other
      wallet has one, the total is the base balance alone (zero without a
      base wallet). */
  lemma {:induction false} UnratedAddNothing(b: Trading.Balances, codes: set<string>, pairs: map<string, Json>, base: string)
    requires codes <= b.Keys
    requires forall k | k in codes && k != base :: LookupRate(pairs, k, base).None?
    ensures Total(b, codes, pairs, base) == if base in codes then b[base] else 0.0
    decreases codes
  {
    if codes != {} {
      var k :| k in codes;
      TotalRemove(b, codes, k, pairs, base);
      UnratedAddNothing(b, codes - {k}, pairs, base);
    }
  }

  /** The lines `show_portfolio` prints: every wallet of `b` once, in code
      order, with its balance and its value in `base`. */
  ghost predicate ListsHoldings(b: Trading.Balances, pairs: map<string, Json>, base: string, lines: seq<Holding>) {
    && (forall i | 0 <= i < |lines| ::
          lines[i].code in b && lines[i] == LineOf(b, lines[i].code, pairs, base))
    && (set h | h in lines :: h.code) == b.Keys
    && (forall i, j | 0 <= i < j < |lines| :: lines[i].code != lines[j].code && StrLe(lines[i].code, lines[j].code))
  }

  /** `show_portfolio`'s answer for the balances `b`: nothing when there are
      no wallets, otherwise every wallet valued in `base`, and their total. */
  ghost predicate PortfolioShown(b: Trading.Balances, pairs: map<string, Json>, username: Option<string>, base: string, view: PortfolioView) {
    && (view.NoWallets? <==> b == map[])
    && (view.Holdings? ==>
          && view.username == username && view.base == base
          && ListsHoldings(b, pairs, base, view.lines)
          && view.total == Total(b, b.Keys, pairs, base))
  }

  /** Valuing each of the distinct, sorted codes of `b` in turn lists the
      holdings of `b`, and visits every wallet. */
  lemma CodesListed(b: Trading.Balances, pairs: map<string, Json>, base: string, codes: seq<string>, lines: seq<Holding>)
    requires multiset(codes) == multiset(b.Keys)
    requires SortedBy(codes, StrLe)
    requires forall i, j | 0 <= i < j < |codes| :: codes[i] != codes[j]
    requires |lines| == |codes|
    requires forall j | 0 <= j < |codes| ::
      codes[j] in b && lines[j] == LineOf(b, codes[j], pairs, base)
    ensures (set j | 0 <= j < |codes| :: codes[j]) == b.Keys
    ensures ListsHoldings(b, pairs, base, lines)
  {
    forall c | c in b
      ensures c in (set j | 0 <= j < |codes| :: codes[j]) && c in (set h | h in lines :: h.code)
    {
      assert c in multiset(codes);
      var j :| 0 <= j < |codes| && codes[j] == c;
      assert lines[j] in lines;
    }
  }

  /** What a printed line adds to the total. */
  function LineValue(h: Holding): real
  {
    if h.value.Some? then h.value.value else 0.0
  }

  /** The running total of `show_portfolio`, added up line by line. */
  function SumValues(lines: seq<Holding>): real
  {
    if lines == [] then 0.0 else SumValues(lines[..|lines| - 1]) + LineValue(lines[|lines| - 1])
  }

  /** Adding up the lines of distinct wallets gives the total over those
      wallets, whatever their order. */
  lemma {:induction false} SumIsTotal(b: Trading.Balances, pairs: map<string, Json>, base: string, codes: seq<string>, lines: seq<Holding>)
    requires forall i, j | 0 <= i < j < |codes| :: codes[i] != codes[j]
    requires |lines| == |codes|
    requires forall j | 0 <= j < |codes| ::
      codes[j] in b && lines[j] == LineOf(b, codes[j], pairs, base)
    ensures (set j | 0 <= j < |codes| :: codes[j]) <= b.Keys
    ensures SumValues(lines) == Total(b, set j | 0 <= j < |codes| :: codes[j], pairs, base)
  {
    var s := set j | 0 <= j < |codes| :: codes[j];
    if codes == [] {
      assert s == {};
    } else {
      var n := |codes| - 1;
      SumIsTotal(b, pairs, base, codes[..n], lines[..n]);
      var rest := set j | 0 <= j < n :: codes[..n][j];
      assert s - {codes[n]} == rest by {
        forall c | c in s - {codes[n]}
          ensures c in rest
        {
          var j :| 0 <= j < |codes| && codes[j] == c;
          assert codes[..n][j] == c;
        }
      }
      TotalRemove(b, s, codes[n], pairs, base);
      assert LineValue(lines[n]) == Contribution(b, codes[n], pairs, base);
    }
  }

  // ---------------------------------------------------------------------
  // show_rates

  /** One row of the rates table: the pair, its rate as a float and its
      `updated_at` (an empty text when missing or falsy). */
  datatype RateRow = RateRow(pair: string, rate: real, updatedAt: Json)

  /** What `show_rates` reports. */
  datatype RatesView = EmptyCache | RatesTable(lastRefresh: Option<string>, rows: seq<RateRow>)

  /** A cache entry the table lists: a dict with a numeric rate. */
  predicate Listed(obj: Json) {
    obj.JObj? && IsNumber(Get(obj, "rate"))
  }

  function RowOf(pair: string, obj: Json): (r: RateRow)
    requires Listed(obj)
    ensures r.pair == pair && r.rate == AsReal(obj.fields["rate"])
  {
    var u := Get(obj, "updated_at");
    RateRow(pair, AsReal(Get(obj, "rate")), if Truthy(u) then u else JStr(""))
  }

  /** The currency filter: a pair involves `code` when it starts with
      `code_` or ends with `_code`. */
  predicate Involves(pair: string, code: string) {
    StartsWith(pair, code + "_") || EndsWith(pair, "_" + code)
  }

  /** The filter `show_rates(currency)` applies: none for a missing or empty
      argument, otherwise the canonical code (or the lookup's error). */
  function RatesFilter(currency: Option<string>): (r: Result<Option<string>>)
    ensures currency.None? || currency.value == [] ==> r == Ok(None)
    ensures currency.Some? && currency.value != [] ==>
      (r.Ok? <==> GetCurrency(JStr(currency.value)).Ok?)
    ensures r.Ok? && r.value.Some? ==> r.value.value == GetCurrency(JStr(currency.value)).value.code
  {
    if currency.None? || currency.value == [] then Ok(None)
    else
      var c :- GetCurrency(JStr(currency.value));
      Ok(Some(c.code))
  }

  /** The key `pair` yields a row under `filter`. */
  predicate Shown(pairs: map<string, Json>, pair: string, filter: Option<string>) {
    pair in pairs && Listed(pairs[pair]) && (filter.None? || Involves(pair, filter.value))
  }

  /** The rows of the keys in `keys`. */
  ghost function Selection(pairs: map<string, Json>, keys: set<string>, filter: Option<string>): set<RateRow> {
    set k | k in keys && Shown(pairs, k, filter) :: RowOf(k, pairs[k])
  }

  /** Sort keys: by pair name, ascending, and by rate, descending. */
  predicate ByPair(x: RateRow, y: RateRow) {
    StrLe(x.pair, y.pair)
  }

  predicate ByRateDesc(x: RateRow, y: RateRow) {
    x.rate >= y.rate
  }

  lemma ByPairIsPreorder()
    ensures TotalPreorder(ByPair)
  {
    forall x, y
      ensures ByPair(x, y) || ByPair(y, x)
    {
      StrLeTotal(x.pair, y.pair);
    }
    forall x, y, z | ByPair(x, y) && ByPair(y, z)
      ensures ByPair(x, z)
    {
      StrLeTransitive(x.pair, y.pair, z.pair);
    }
  }

  lemma ByRateIsPreorder()
    ensures TotalPreorder(ByRateDesc)
  {
  }

  /** Every row of a selection is the row of its own pair, so rows of one
      selection differ in their pairs. */
  lemma SelectionRows(pairs: map<string, Json>, keys: set<string>, filter: Option<string>, x: RateRow)
    requires x in Selection(pairs, keys, filter)
    ensures x.pair in keys && Shown(pairs, x.pair, filter) && x == RowOf(x.pair, pairs[x.pair])
  {
  }

  /** The filter rows are selected with: the canonical code, or none when
      there is no filter or the lookup fails (no row is then shown). */
  function ActiveFilter(currency: Option<string>): Option<string> {
    match RatesFilter(currency)
    case Ok(f) => f
    case Err(_) => None
  }

  /** The rows of `keys`, in that order, that pass `filter`. */
  function RowsOf(pairs: map<string, Json>, keys: seq<string>, filter: Option<string>): seq<RateRow> {
    if keys == [] then []
    else
      var n := |keys| - 1;
      RowsOf(pairs, keys[..n], filter) + (if Shown(pairs, keys[n], filter) then [RowOf(keys[n], pairs[keys[n]])] else [])
  }

  /** One more key adds its row to the selection when it is shown. */
  lemma SelectionAdd(pairs: map<string, Json>, keys: set<string>, k: string, filter: Option<string>)
    ensures Selection(pairs, keys + {k}, filter)
         == Selection(pairs, keys, filter) + (if Shown(pairs, k, filter) then {RowOf(k, pairs[k])} else {})
  {
  }

  /** Walking the keys yields the rows of the keys that are shown. */
  lemma {:induction false} RowsOfSelection(pairs: map<string, Json>, keys: seq<string>, filter: Option<string>)
    ensures Elements(RowsOf(pairs, keys, filter)) == Selection(pairs, Elements(keys), filter)
  {
    if keys != [] {
      var n := |keys| - 1;
      var front := RowsOf(pairs, keys[..n], filter);
      RowsOfSelection(pairs, keys[..n], filter);
      assert Elements(keys) == Elements(keys[..n]) + {keys[n]} by {
        assert keys == keys[..n] + [keys[n]];
      }
      var added := if Shown(pairs, keys[n], filter) then [RowOf(keys[n], pairs[keys[n]])] else [];
      assert RowsOf(pairs, keys, filter) == front + added;
      assert Elements(front + added) == Elements(front) + Elements(added);
      SelectionAdd(pairs, Elements(keys[..n]), keys[n], filter);
    }
  }

  /** Walking distinct keys yields no row twice. */
  lemma {:induction false} RowsOfDistinct(pairs: map<string, Json>, keys: seq<string>, filter: Option<string>)
    requires forall i, j | 0 <= i < j < |keys| :: keys[i] != keys[j]
    ensures forall x | x in RowsOf(pairs, keys, filter) :: x.pair in keys
    ensures Distinct(RowsOf(pairs, keys, filter))
  {
    if keys != [] {
      var n := |keys| - 1;
      var front := RowsOf(pairs, keys[..n], filter);
      RowsOfDistinct(pairs, keys[..n], filter);
      var rows := RowsOf(pairs, keys, filter);
      forall k | k in keys[..n]
        ensures k != keys[n]
      {
        var i :| 0 <= i < n && keys[..n][i] == k;
        assert keys[i] == k;
      }
      var added := if Shown(pairs, keys[n], filter) then [RowOf(keys[n], pairs[keys[n]])] else [];
      assert rows == front + added;
      assert forall x | x in added :: x.pair == keys[n];
      forall x | x in rows
        ensures x.pair in keys
      {
        if x in front {
          var i :| 0 <= i < n && keys[..n][i] == x.pair;
          assert keys[i] == x.pair;
        } else {
          assert x in added;
        }
      }
      forall i, j | 0 <= i < j < |rows|
        ensures rows[i] != rows[j]
      {
        if j >= |front| {
          assert i < |front| && rows[j] in added;
          assert rows[i] == front[i] && front[i] in front;
          assert rows[i].pair in keys[..n];
          assert rows[i].pair != rows[j].pair;
        } else {
          assert rows[i] == front[i] && rows[j] == front[j];
        }
      }
    }
  }

  /** How the table orders and cuts the selected rows `sel`: every row
      once, by pair without `top`; with `top`, by rate, highest first, cut
      as `items[:top]` cuts, and no row left out has a higher rate than a
      row kept. */
  ghost predicate Arranged(sel: set<RateRow>, top: Option<int>, rows: seq<RateRow>) {
    && (forall i | 0 <= i < |rows| :: rows[i] in sel)
    && (forall i, j | 0 <= i < j < |rows| :: rows[i] != rows[j])
    && (top.None? ==> |rows| == |sel| && SortedBy(rows, ByPair))
    && (top.Some? ==>
          && |rows| == SliceLen(|sel|, top.value)
          && SortedBy(rows, ByRateDesc)
          && forall x, y | x in rows && y in sel && y !in rows :: y.rate <= x.rate)
  }

  /** The rows `show_rates` lists for the cached `pairs`. */
  ghost predicate RatesListed(pairs: map<string, Json>, currency: Option<string>, top: Option<int>, rows: seq<RateRow>) {
    Arranged(Selection(pairs, pairs.Keys, ActiveFilter(currency)), top, rows)
  }

  /** Sorting distinct rows by pair arranges their set. */
  lemma ArrangedByPair(items: seq<RateRow>)
    requires forall i, j | 0 <= i < j < |items| :: items[i] != items[j]
    ensures Arranged(Elements(items), None, SortBy(items, ByPair))
  {
    var sel := Elements(items);
    DistinctSeqSet(items);
    DistinctOfSet(SortBy(items, ByPair), sel);
    SortedByPair(items);
  }

  lemma SortedByPair(items: seq<RateRow>)
    ensures SortedBy(SortBy(items, ByPair), ByPair)
  {
    ByPairIsPreorder();
    SortBySorted(items, ByPair);
  }

  lemma SortedByRate(items: seq<RateRow>)
    ensures SortedBy(SortBy(items, ByRateDesc), ByRateDesc)
  {
    ByRateIsPreorder();
    SortBySorted(items, ByRateDesc);
  }

  /** Sorting distinct rows by rate and cutting them as `items[:top]` does
      arranges their set. */
  lemma ArrangedByRate(items: seq<RateRow>, top: int)
    requires forall i, j | 0 <= i < j < |items| :: items[i] != items[j]
    ensures Arranged(Elements(items), Some(top), Take(SortBy(items, ByRateDesc), top))
  {
    var sel := Elements(items);
    DistinctSeqSet(items);
    var s := SortBy(items, ByRateDesc);
    TakeOfSet(s, sel, top);
    DistinctOfSet(s, sel);
    SortedByRate(items);
    TakeSorted(s, ByRateDesc, top);
    var rows := Take(s, top);
    forall x, y | x in rows && y in sel && y !in rows
      ensures y.rate <= x.rate
    {
      assert y in s;
      assert ByRateDesc(x, y);
    }
  }

}
