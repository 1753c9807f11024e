/** `CoreUseCases` (valutatrade_hub/core/usecases.py): the session and the
    commands of the application over the stored documents. The clock, the
    salts, the hash, the timestamp parser and the providers' responses are
    inputs; the rates TTL comes from the settings. */
module UseCases {
  import opened Json
  import opened Errors
  import opened Text
  import opened Currencies
  import opened Utils
  import opened Models
  import opened RateLookup
  import opened Portfolios
  import opened Store
  import opened Storage
  import opened ApiClients
  import opened Updater
  import opened Sorting
  import opened UseCaseSpecs
  import Trading

  /** What `register` reports when it raises nothing. */
  datatype RegisterReply = NameTaken(username: string) | Registered(userId: int, username: string)

  /** A purchase of a non-USD code, step by step: both wallets ensured,
      the cost debited from USD, then the amount credited. */
  lemma BuyInSteps(b0: Trading.Balances, code: string, a: real, rate: real)
    requires code != Trading.Base
    ensures var w := Trading.Withdraw(Trading.EnsureWallet(Trading.EnsureWallet(b0, code), Trading.Base), Trading.Base, Trading.Convert(a, rate));
      && (w.Err? ==> Trading.Buy(b0, code, a, Some(rate)) == Err(w.error))
      && (w.Ok? ==> code in w.value && Trading.Buy(b0, code, a, Some(rate)) == Ok(Trading.Deposit(w.value, code, a)))
  {
  }

  /** Creating the wallet first changes neither a purchase nor its reply. */
  lemma BuyAfterEnsureWallet(b0: Trading.Balances, code: string, a: real, rate: Option<real>)
    ensures Trading.Buy(Trading.EnsureWallet(b0, code), code, a, rate) == Trading.Buy(b0, code, a, rate)
    ensures BuyReply(Trading.EnsureWallet(b0, code), code, a, rate) == BuyReply(b0, code, a, rate)
  {
    assert Trading.EnsureWallet(Trading.EnsureWallet(b0, code), code) == Trading.EnsureWallet(b0, code);
  }

  /** A sale of a non-USD code held in a wallet, step by step: the USD
      wallet ensured, the amount debited, then the proceeds credited. */
  lemma SellInSteps(b0: Trading.Balances, code: string, a: real, rate: real)
    requires code != Trading.Base && code in b0
    ensures var w := Trading.Withdraw(Trading.EnsureWallet(b0, Trading.Base), code, a);
      && (w.Err? ==> Trading.Sell(b0, code, a, Some(rate)) == Err(w.error))
      && (w.Ok? ==> Trading.Base in w.value && Trading.Sell(b0, code, a, Some(rate)) == Ok(Some(Trading.Deposit(w.value, Trading.Base, Trading.Convert(a, rate)))))
  {
    var b2 := Trading.EnsureWallet(b0, Trading.Base);
    var w := Trading.Withdraw(b2, code, a);
    assert code in b2 && Trading.Base in b2;
    if w.Ok? {
      assert Trading.Base in w.value;
      assert Trading.Sell(b0, code, a, Some(rate)) == Ok(Some(Trading.Deposit(w.value, Trading.Base, Trading.Convert(a, rate))));
    }
  }

  /** One client's `fetch_rates()`. */
  method FetchOne(c: Client, feeds: Feeds) returns (run: ClientRun)
    ensures run == RunOf(c, feeds)
  {
    var fetched: Result<Pairs>;
    if c == CoinGeckoClient {
      fetched := FetchCoinGecko(feeds.coinGecko, feeds.coinGeckoTs);
    } else {
      fetched := FetchExchangeRate(feeds.apiKey, feeds.exchangeRate, feeds.exchangeRateTs);
    }
    return ClientRun(ClientName(c), fetched);
  }

  /** The clients' `fetch_rates()` calls, in the order the updater makes them. */
  method FetchAll(clients: seq<Client>, feeds: Feeds) returns (runs: seq<ClientRun>)
    ensures runs == RunsOf(clients, feeds)
  {
    runs := [];
    for i := 0 to |clients|
      invariant |runs| == i
      invariant forall j | 0 <= j < i :: runs[j] == RunOf(clients[j], feeds)
    {
      var run := FetchOne(clients[i], feeds);
      runs := runs + [run];
    }
  }

  /** The keys of a dict, in its (unspecified) iteration order. */
  method KeysOf<V>(m: map<string, V>) returns (keys: seq<string>)
    ensures multiset(keys) == multiset(m.Keys)
  {
    keys := [];
    var todo := m.Keys;
    while todo != {}
      invariant todo <= m.Keys
      invariant multiset(keys) == multiset(m.Keys - todo)
      decreases todo
    {
      var k :| k in todo;
      assert m.Keys - (todo - {k}) == (m.Keys - todo) + {k};
      keys := keys + [k];
      todo := todo - {k};
    }
  }

  /** The body of `show_portfolio` once the portfolio is loaded: nothing
      for an empty portfolio, otherwise its wallets in code order. */
  method ViewPortfolio(b: Trading.Balances, pairs: map<string, Json>, username: Option<string>, base: string) returns (view: PortfolioView)
    ensures PortfolioShown(b, pairs, username, base, view)
  {
    if b == map[] {
      return NoWallets;
    }
    var keys := KeysOf(b);
    var codes := SortBy(keys, StrLe);
    StrLeIsPreorder();
    SortBySorted(keys, StrLe);
    var lines, total := ValueWallets(b, pairs, codes, base);
    return Holdings(username, base, lines, total);
  }

  /** One pass of `show_portfolio`'s loop: the wallet's balance and its
      value in `base`, converted at the cached rate when there is one. */
  method ValueWallet(b: Trading.Balances, pairs: map<string, Json>, code: string, base: string) returns (line: Holding)
    requires code in b
    ensures line == LineOf(b, code, pairs, base)
  {
    var balance := b[code];
    if code == base {
      return Holding(code, balance, Some(balance));
    }
    var quote := LookupRate(pairs, code, base);
    if quote.None? {
      return Holding(code, balance, None);
    }
    var value := Trading.Convert(balance, quote.value.rate);
    return Holding(code, balance, Some(value));
  }

  /** The loop of `show_portfolio` over the wallets in code order. */
  method ValueWallets(b: Trading.Balances, pairs: map<string, Json>, codes: seq<string>, base: string) returns (lines: seq<Holding>, total: real)
    requires multiset(codes) == multiset(b.Keys)
    requires SortedBy(codes, StrLe)
    ensures ListsHoldings(b, pairs, base, lines)
    ensures total == Total(b, b.Keys, pairs, base)
  {
    DistinctOfSet(codes, b.Keys);
    lines := [];
    total := 0.0;
    for i := 0 to |codes|
      invariant |lines| == i
      invariant forall j | 0 <= j < i :: lines[j] == LineOf(b, codes[j], pairs, base)
      invariant total == SumValues(lines)
    {
      var line := ValueWallet(b, pairs, codes[i], base);
      var next := lines + [line];
      assert next[..i] == lines;
      forall j | 0 <= j < i + 1
        ensures next[j] == LineOf(b, codes[j], pairs, base)
      {
        if j < i {
          assert next[j] == lines[j];
        }
      }
      lines := next;
      if line.value.Some? {
        total := total + line.value.value;
      }
    }
    SumIsTotal(b, pairs, base, codes, lines);
    CodesListed(b, pairs, base, codes, lines);
  }

  /** The loop of `show_rates` over the cached pairs in the order `keys`:
      entries that are not a dict with a numeric rate are skipped; with a
      currency filter, each listed entry looks the currency up (raising its
      error) and is kept when its pair involves the code. */
  method CollectRows(pairs: map<string, Json>, keys: seq<string>, currency: Option<string>) returns (r: Result<seq<RateRow>>)
    requires forall i | 0 <= i < |keys| :: keys[i] in pairs
    ensures r.Err? <==> RatesFilter(currency).Err? && exists i | 0 <= i < |keys| :: Listed(pairs[keys[i]])
    ensures r.Err? ==> r.error == RatesFilter(currency).error
    ensures r.Ok? ==> r.value == RowsOf(pairs, keys, ActiveFilter(currency))
    ensures r.Ok? && RatesFilter(currency).Err? ==> r.value == []
  {
    ghost var filter := ActiveFilter(currency);
    var items: seq<RateRow> := [];
    for i := 0 to |keys|
      invariant items == RowsOf(pairs, keys[..i], filter)
      invariant RatesFilter(currency).Err? ==> items == [] && forall j | 0 <= j < i :: !Listed(pairs[keys[j]])
    {
      var pair := keys[i];
      var obj := pairs[pair];
      assert keys[..i + 1][..i] == keys[..i];
      if Listed(obj) {
        if currency.Some? && currency.value != [] {
          var c := GetCurrency(JStr(currency.value));
          if c.Err? {
            return Err(c.error);
          }
          if Involves(pair, c.value.code) {
            items := items + [RowOf(pair, obj)];
          }
        } else {
          items := items + [RowOf(pair, obj)];
        }
      }
    }
    assert keys[..|keys|] == keys;
    return Ok(items);
  }

  /** `show_rates` on the cached document `rates`: nothing for an empty
      cache, otherwise the selected rows, sorted and cut, under the time of
      the last refresh. */
  method RatesTableOf(rates: RatesDoc, currency: Option<string>, top: Option<int>) returns (r: Result<RatesView>)
    ensures rates.pairs == map[] ==> r == Ok(EmptyCache)
    ensures rates.pairs != map[] ==>
      (r.Err? <==> RatesFilter(currency).Err? && exists k | k in rates.pairs :: Listed(rates.pairs[k]))
    ensures r.Err? ==> r.error == RatesFilter(currency).error
    ensures r.Ok? && rates.pairs != map[] ==>
      r.value.RatesTable? && r.value.lastRefresh == rates.lastRefresh && RatesListed(rates.pairs, currency, top, r.value.rows)
  {
    if rates.pairs == map[] {
      return Ok(EmptyCache);
    }
    var keys := KeysOf(rates.pairs);
    DistinctOfSet(keys, rates.pairs.Keys);
    ListedSomewhere(rates.pairs, keys);
    var collected := CollectRows(rates.pairs, keys, currency);
    if collected.Err? {
      return Err(collected.error);
    }
    var rows := ArrangeRows(rates.pairs, keys, currency, collected.value, top);
    return Ok(RatesTable(rates.lastRefresh, rows));
  }

  /** Some key of `keys` names a listed entry exactly when some key of the
      map does, once `keys` holds every key of the map. */
  lemma ListedSomewhere(pairs: map<string, Json>, keys: seq<string>)
    requires forall k | k in pairs :: k in keys
    requires forall i | 0 <= i < |keys| :: keys[i] in pairs
    ensures (exists i | 0 <= i < |keys| :: Listed(pairs[keys[i]])) <==> (exists k | k in pairs :: Listed(pairs[k]))
  {
  }

  /** The sort and the cut of `show_rates`: by rate, highest first, and cut
      to `top` rows when `top` is given; otherwise by pair name. */
  method ArrangeRows(pairs: map<string, Json>, keys: seq<string>, currency: Option<string>,
                     items: seq<RateRow>, top: Option<int>) returns (rows: seq<RateRow>)
    requires Distinct(keys) && Elements(keys) == pairs.Keys
    requires items == RowsOf(pairs, keys, ActiveFilter(currency))
    ensures RatesListed(pairs, currency, top, rows)
  {
    ghost var filter := ActiveFilter(currency);
    RowsOfSelection(pairs, keys, filter);
    RowsOfDistinct(pairs, keys, filter);
    if top.Some? {
      rows := Take(SortBy(items, ByRateDesc), top.value);
      ArrangedByRate(items, top.value);
    } else {
      rows := SortBy(items, ByPair);
      ArrangedByPair(items);
    }
  }

  /** The loop of `_load_portfolio_for_session` over a stored row's wallets:
      each becomes a fresh `Wallet` under its upper-cased code (the dict's
      `currency_code`, or else the key) with its stored balance. Two keys
      loading under one code leave one of them. */
  method LoadWallets(data: map<string, StoredWallet>) returns (wallets: map<string, Wallet>, ghost from: map<string, string>)
    ensures forall k | k in wallets :: fresh(wallets[k])
    ensures forall k | k in wallets :: wallets[k].currencyCode == k && Upper(k) == k
    ensures from.Keys == wallets.Keys && forall k | k in data :: StoredCode(k, data[k]) in wallets
    ensures forall c | c in from ::
      from[c] in data && StoredCode(from[c], data[from[c]]) == c && wallets[c].balance == StoredBalance(data[from[c]])
  {
    wallets, from := map[], map[];
    var todo := data.Keys;
    ghost var done: set<string> := {};
    while todo != {}
      invariant todo + done == data.Keys && todo !! done
      invariant forall k | k in wallets :: wallets[k].currencyCode == k && Upper(k) == k
      invariant forall k | k in wallets :: fresh(wallets[k])
      invariant from.Keys == wallets.Keys && forall k | k in done :: StoredCode(k, data[k]) in wallets
      invariant forall c | c in from ::
        from[c] in data && StoredCode(from[c], data[from[c]]) == c && wallets[c].balance == StoredBalance(data[from[c]])
      decreases todo
    {
      var key :| key in todo;
      var w := data[key];
      var balance := StoredBalance(w);
      var code := StoredCode(key, w);
      UpperIdempotent(if w.WalletDict? && w.currencyCode.Some? then w.currencyCode.value else key);
      var wallet := new Wallet(code, balance);
      wallets, from := wallets[code := wallet], from[code := key];
      todo := todo - {key};
      done := done + {key};
    }
  }

  /** A portfolio of fresh wallets for `uid`, loaded from the stored wallets `data`. */
  method LoadRow(uid: int, data: map<string, StoredWallet>) returns (p: Portfolio)
    ensures fresh(p) && fresh(p.wallets.Values) && p.Valid() && p.userId == uid
    ensures forall k | k in p.wallets :: Upper(k) == k
    ensures p.wallets.Keys == LoadedCodes(data, data.Keys)
    ensures forall c | c in p.wallets :: LoadsAs(data, c, p.wallets[c].balance)
    ensures Canonical(data) ==> p.Balances() == StoredBalances(data)
  {
    var wallets, from := LoadWallets(data);
    p := new Portfolio(uid, wallets);
    forall c | c in p.wallets
      ensures LoadsAs(data, c, p.wallets[c].balance)
    {
      assert StoredCode(from[c], data[from[c]]) == c;
    }
    LoadedCodesWitnessed(data, from);
    if Canonical(data) {
      CanonicalCodes(data);
      BalancesLoaded(p, data);
    }
  }

  /** Wallets holding the stored balances key by key give the stored balances. */
  lemma BalancesLoaded(p: Portfolio, data: map<string, StoredWallet>)
    requires p.wallets.Keys == data.Keys
    requires forall k | k in data :: p.wallets[k].balance == StoredBalance(data[k])
    ensures p.Balances() == StoredBalances(data)
  {
  }

  class CoreUseCases {
    const db: Database
    var session: Session
    /** `RATES_TTL_SECONDS`. */
    const ttl: int
    const fromIso: IsoParser
    const sha: Hash

    /** Every stored portfolio row is in the form `_save_portfolio` writes. */
    ghost predicate Valid()
      reads this, db
    {
      forall row | row in db.portfolios :: Canonical(row.wallets)
    }

    constructor(db: Database, ttl: int, fromIso: IsoParser, sha: Hash)
      ensures this.db == db && this.ttl == ttl && this.fromIso == fromIso && this.sha == sha
      ensures session == Session(None, None)
    {
      this.db := db;
      this.ttl := ttl;
      this.fromIso := fromIso;
      this.sha := sha;
      session := Session(None, None);
    }

    /** `_ensure_logged_in`: `PermissionError` without a logged-in user. */
    function EnsureLoggedIn(): (o: Outcome)
      reads this
      ensures o.Pass? <==> session.userId.Some?
      ensures o.Fail? ==> o.error == PermissionDenied
    {
      if session.userId.None? then Fail(PermissionDenied) else Pass
    }

    /** `_find_user_by_username`: the first stored user with that exact name. */
    method FindUserByUsername(username: string) returns (r: Option<UserRow>)
      ensures FirstUserNamed(db.users, username).None? ==> r.None?
      ensures FirstUserNamed(db.users, username).Some? ==> r == Some(db.users[FirstUserNamed(db.users, username).value])
      ensures r.Some? ==> r.value in db.users && r.value.username == username
    {
      var users := db.users;
      for i := 0 to |users|
        invariant forall j | 0 <= j < i :: users[j].username != username
      {
        if users[i].username == username {
          return Some(users[i]);
        }
      }
      return None;
    }

    /** `register(username, password)`: the name is stripped and must not be
        empty, the password must have at least 4 characters; a taken name is
        reported and nothing is stored; otherwise the user is appended with
        the next id and a password hashed with `salt`, and an empty portfolio
        row is appended. `initialSalt` is the salt of the temporary user,
        which `change_password` replaces. */
    method Register(username: string, password: string, initialSalt: string, salt: string, now: string)
      returns (r: Result<RegisterReply>)
      modifies db
      ensures IsBlank(username) ==> r == Err(ValueError("username"))
      ensures !IsBlank(username) && |password| < 4 ==> r == Err(ValueError("password"))
      ensures !IsBlank(username) && |password| >= 4 && FirstUserNamed(old(db.users), Strip(username)).Some? ==>
        r == Ok(NameTaken(Strip(username)))
      ensures !IsBlank(username) && |password| >= 4 && FirstUserNamed(old(db.users), Strip(username)).None? ==>
        r.Ok? && r.value.Registered?
      ensures r.Err? || r.value.NameTaken? ==> db.users == old(db.users) && db.portfolios == old(db.portfolios)
      ensures r.Ok? && r.value.Registered? ==>
        && !IsBlank(username) && |password| >= 4 && FirstUserNamed(old(db.users), Strip(username)).None?
        && r.value == Registered(NextUserId(old(db.users)), Strip(username))
        && db.users == old(db.users) + [NewUserRow(old(db.users), username, password, salt, now, sha)]
        && db.portfolios == old(db.portfolios) + [PortfolioRow(NextUserId(old(db.users)), map[])]
      ensures db.rates == old(db.rates) && db.history == old(db.history)
      ensures DistinctIds(old(db.users)) ==> DistinctIds(db.users)
      ensures old(Valid()) ==> Valid()
    {
      if IsBlank(username) {
        return Err(ValueError("username"));
      }
      if |password| < 4 {
        return Err(ValueError("password"));
      }
      var name := Strip(username);
      var users := db.users;
      if FirstUserNamed(users, name).Some? {
        return Ok(NameTaken(name));
      }
      var userId := NextUserId(users);
      var row := NewUser(userId, username, password, initialSalt, salt, now);
      AddUser(row);
      return Ok(Registered(userId, name));
    }

    /** The two writes of `register`: the new user row is appended to the
        users, and an empty portfolio row for it to the portfolios. */
    method AddUser(row: UserRow)
      requires row.userId == NextUserId(db.users)
      modifies db
      ensures db.users == old(db.users) + [row]
      ensures db.portfolios == old(db.portfolios) + [PortfolioRow(row.userId, map[])]
      ensures db.rates == old(db.rates) && db.history == old(db.history)
      ensures DistinctIds(old(db.users)) ==> DistinctIds(db.users)
      ensures old(Valid()) ==> Valid()
    {
      var users := db.users;
      if DistinctIds(users) {
        NextUserIdKeepsIdsDistinct(users, row);
      }
      db.SaveUsers(users + [row]);
      var portfolios := db.portfolios;
      db.SavePortfolios(portfolios + [PortfolioRow(row.userId, map[])]);
    }

    /** The checks of `login(username, password)`: the user is looked up by
        the stripped name and rebuilt (which fails for a blank stored name),
        then the password is verified. */
    method Authenticate(username: string, password: string) returns (r: Result<LoginReply>)
      ensures r == LoginOutcome(db.users, username, password, sha)
    {
      var name := Strip(username);
      var row := FindUserByUsername(name);
      if row.None? {
        return Ok(UnknownUser(name));
      }
      var created := User.New(row.value.userId, JStr(row.value.username), row.value.hashedPassword,
                              row.value.salt, row.value.registrationDate);
      if created.Err? {
        return Err(created.error);
      }
      var user := created.value;
      if !user.VerifyPassword(JStr(password), sha) {
        return Ok(WrongPassword);
      }
      return Ok(LoggedIn(user.userId, user.username));
    }

    /** The temporary `User` of `register`: built with the stripped name and
        `initialSalt`, then given the password, which draws the salt `salt`;
        its fields make the new row. */
    method NewUser(userId: int, username: string, password: string, initialSalt: string, salt: string, now: string)
      returns (row: UserRow)
      requires !IsBlank(username) && |password| >= 4
      ensures row == UserRow(userId, Strip(username), HashPassword(password, salt, sha), salt, now)
    {
      var name := Strip(username);
      StripIdempotent(username);
      var created := User.New(userId, JStr(name), "", initialSalt, now);
      var tmp := created.value;
      var changed := tmp.ChangePassword(JStr(password), salt, sha);
      row := UserRow(userId, tmp.username, tmp.hashedPassword, tmp.salt, tmp.registrationDate);
    }

    /** `login(username, password)`: on success the session holds the user;
        otherwise it is left as it was. */
    method Login(username: string, password: string) returns (r: Result<LoginReply>)
      modifies this
      ensures r == LoginOutcome(db.users, username, password, sha)
      ensures r.Ok? && r.value.LoggedIn? ==> session == Session(Some(r.value.userId), Some(r.value.username))
      ensures !(r.Ok? && r.value.LoggedIn?) ==> session == old(session)
    {
      r := Authenticate(username, password);
      if r.Ok? && r.value.LoggedIn? {
        session := Session(Some(r.value.userId), Some(r.value.username));
      }
    }

    /** `_load_portfolio_for_session`: the session user's wallets as fresh
        objects, keyed by the upper-cased stored code; no row means no
        wallets. For a row as `_save_portfolio` writes it, the balances are
        the stored ones. */
    method LoadPortfolio() returns (r: Result<Portfolio>)
      ensures session.userId.None? ==> r == Err(PermissionDenied)
      ensures session.userId.Some? ==> r.Ok? && fresh(r.value) && fresh(r.value.wallets.Values)
      ensures session.userId.Some? ==> r.value.Valid() && r.value.userId == session.userId.value
      ensures session.userId.Some? ==> forall k | k in r.value.wallets :: Upper(k) == k
      ensures session.userId.Some? ==>
        var data := WalletsOf(db.portfolios, session.userId.value);
        && r.value.wallets.Keys == LoadedCodes(data, data.Keys)
        && forall c | c in r.value.wallets :: LoadsAs(data, c, r.value.wallets[c].balance)
      ensures session.userId.Some? && Valid() ==> r.value.Balances() == BalancesOf(db.portfolios, session.userId.value)
    {
      if session.userId.None? {
        return Err(PermissionDenied);
      }
      var uid := session.userId.value;
      var data := WalletsOf(db.portfolios, uid);
      var p := LoadRow(uid, data);
      if Valid() {
        CanonicalRowLoaded(db.portfolios, uid);
      }
      return Ok(p);
    }

    /** `_save_portfolio(portfolio)`: the user's first row gets the portfolio's
        balances (a row is appended when there is none); other rows stay. */
    method SavePortfolio(p: Portfolio)
      modifies db
      ensures db.portfolios == SaveRow(old(db.portfolios), p.userId, Dump(old(p.Balances())))
      ensures db.users == old(db.users) && db.rates == old(db.rates) && db.history == old(db.history)
      ensures (forall k | k in p.wallets :: Upper(k) == k) && old(Valid()) ==> Valid()
    {
      var rows := db.portfolios;
      var i := FirstRowOf(rows, p.userId);
      var dump := Dump(p.Balances());
      if i.None? {
        rows := rows + [PortfolioRow(p.userId, dump)];
      } else {
        rows := rows[i.value := PortfolioRow(p.userId, dump)];
      }
      if (forall k | k in p.wallets :: Upper(k) == k) {
        SaveThenLoad(db.portfolios, p.userId, p.Balances());
      }
      db.SavePortfolios(rows);
    }

    /** `portfolio.get_wallet(code)`, falling back to
        `portfolio.add_currency(code)` when there is none. */
    method WalletFor(p: Portfolio, code: string) returns (w: Wallet)
      requires p.Valid()
      modifies p
      ensures p.Valid() && code in p.wallets && w == p.wallets[code] && w.currencyCode == code
      ensures fresh(w) || w in old(p.wallets.Values)
      ensures p.wallets.Keys == old(p.wallets.Keys) + {code}
      ensures forall k | k in old(p.wallets) :: p.wallets[k] == old(p.wallets[k])
      ensures p.wallets.Values <= old(p.wallets.Values) + {w}
      ensures p.Balances() == Trading.EnsureWallet(old(p.Balances()), code)
      ensures w.balance == Trading.BalanceOf(old(p.Balances()), code)
    {
      var found := p.GetWallet(code);
      if found == null {
        w := p.AddCurrency(code);
      } else {
        w := found;
      }
    }

    /** The prologue `buy` and `sell` share: `_ensure_logged_in()`,
        `get_currency(currency_code).code`, `validate_amount(amount)` and
        `_load_portfolio_for_session()`. */
    method TradePrologue(currencyCode: string, amount: real) returns (r: Result<(Portfolio, string)>)
      ensures r.Err? <==> CheckTrade(session, currencyCode, amount).Err?
      ensures r.Err? ==> r.error == CheckTrade(session, currencyCode, amount).error
      ensures r.Ok? ==> r.value.1 == CheckTrade(session, currencyCode, amount).value.1 && Upper(r.value.1) == r.value.1
      ensures r.Ok? ==> fresh(r.value.0) && fresh(r.value.0.wallets.Values)
      ensures r.Ok? ==> r.value.0.Valid() && r.value.0.userId == session.userId.value
      ensures r.Ok? ==> forall k | k in r.value.0.wallets :: Upper(k) == k
      ensures r.Ok? && Valid() ==> r.value.0.Balances() == BalancesOf(db.portfolios, session.userId.value)
    {
      if session.userId.None? {
        return Err(PermissionDenied);
      }
      var currency := GetCurrency(JStr(currencyCode));
      if currency.Err? {
        return Err(currency.error);
      }
      var code := currency.value.code;
      var validated := ValidateAmount(JFloat(amount));
      if validated.Err? {
        return Err(validated.error);
      }
      RegistryKeysCanonical(code);
      var loaded := LoadPortfolio();
      return Ok((loaded.value, code));
    }

    /** The wallet steps of `buy` on a loaded portfolio: the wallet for
        `code` is created if missing; USD is simply deposited, any other code
        is paid for in USD. */
    method BuyWallets(p: Portfolio, code: string, a: real) returns (r: Result<TradeReply>)
      requires p.Valid()
      modifies p, p.wallets.Values
      ensures p.Valid()
      ensures (forall k | k in old(p.wallets) :: Upper(k) == k) && Upper(code) == code ==>
                forall k | k in p.wallets :: Upper(k) == k
      ensures r == BuyReply(old(p.Balances()), code, a, QuotedRate(db.rates.pairs, code))
      ensures r.Ok? ==> p.Balances() == Trading.Buy(old(p.Balances()), code, a, QuotedRate(db.rates.pairs, code)).value
    {
      ghost var b0 := p.Balances();
      RegistryKeysCanonical(Trading.Base);
      var wallet := WalletFor(p, code);
      BuyAfterEnsureWallet(b0, code, a, QuotedRate(db.rates.pairs, code));
      if code == Trading.Base {
        r := BuyUsd(p, a);
      } else {
        r := PayInUsd(p, code, a);
      }
    }

    /** The USD branch of `buy`, once the USD wallet exists: the amount is
        deposited, no rate is involved. */
    method BuyUsd(p: Portfolio, a: real) returns (r: Result<TradeReply>)
      requires p.Valid() && Trading.Base in p.wallets
      modifies p.wallets.Values
      ensures p.Valid()
      ensures p.wallets == old(p.wallets)
      ensures r == BuyReply(old(p.Balances()), Trading.Base, a, QuotedRate(db.rates.pairs, Trading.Base))
      ensures r.Ok? ==> p.Balances() == Trading.Buy(old(p.Balances()), Trading.Base, a, QuotedRate(db.rates.pairs, Trading.Base)).value
    {
      var wallet := p.wallets[Trading.Base];
      var before := wallet.balance;
      DepositTo(p, Trading.Base, a);
      assert wallet.balance == p.Balances()[Trading.Base];
      return Ok(Traded(Trading.Base, a, None, before, wallet.balance));
    }

    /** The non-USD branch of `buy`, once the wallet for `code` exists: the
        USD wallet is created if missing, the `code`→USD rate is taken from
        the cache, and the cost is withdrawn from USD before the amount is
        deposited. */
    method PayInUsd(p: Portfolio, code: string, a: real) returns (r: Result<TradeReply>)
      requires p.Valid() && code in p.wallets && code != Trading.Base
      modifies p, p.wallets.Values
      ensures p.Valid()
      ensures p.wallets.Keys == old(p.wallets.Keys) + {Trading.Base}
      ensures r == BuyReply(old(p.Balances()), code, a, QuotedRate(db.rates.pairs, code))
      ensures r.Ok? ==> p.Balances() == Trading.Buy(old(p.Balances()), code, a, QuotedRate(db.rates.pairs, code)).value
    {
      ghost var b0 := p.Balances();
      ghost var t := Trading.Buy(b0, code, a, QuotedRate(db.rates.pairs, code));
      var wallet := p.wallets[code];
      var before := wallet.balance;
      var usd := WalletFor(p, Trading.Base);
      assert wallet == p.wallets[code];
      var quote := LookupRate(db.rates.pairs, code, Trading.Base);
      if quote.None? {
        assert t.Err? && t.error == ApiRequest(RateUnavailable(code, Trading.Base));
        return Err(ApiRequest(RateUnavailable(code, Trading.Base)));
      }
      var rate := quote.value.rate;
      BuyInSteps(b0, code, a, rate);
      var withdrawn := WithdrawFrom(p, Trading.Base, Trading.Convert(a, rate));
      if withdrawn.Fail? {
        assert t == Err(withdrawn.error);
        return Err(withdrawn.error);
      }
      DepositTo(p, code, a);
      assert t == Ok(p.Balances()) && wallet.balance == p.Balances()[code];
      return Ok(Traded(code, a, Some(rate), before, wallet.balance));
    }

    /** The wallet steps of `sell` on a loaded portfolio: without a wallet
        for `code` nothing happens; USD is simply withdrawn; any other code
        gets a USD wallet if missing and its `code`→USD rate from the cache,
        and the amount is withdrawn before the proceeds are deposited in USD. */
    method SellWallets(p: Portfolio, code: string, a: real) returns (r: Result<TradeReply>)
      requires p.Valid()
      modifies p, p.wallets.Values
      ensures p.Valid()
      ensures (forall k | k in old(p.wallets) :: Upper(k) == k) ==> forall k | k in p.wallets :: Upper(k) == k
      ensures r == SellReply(old(p.Balances()), code, a, QuotedRate(db.rates.pairs, code))
      ensures r.Ok? && r.value.Traded? ==> p.Balances() == Trading.Sell(old(p.Balances()), code, a, QuotedRate(db.rates.pairs, code)).value.value
    {
      RegistryKeysCanonical(Trading.Base);
      var wallet := p.GetWallet(code);
      if wallet == null {
        return Ok(NoWallet(code));
      }
      if code == Trading.Base {
        var before := wallet.balance;
        var withdrawn := WithdrawFrom(p, code, a);
        if withdrawn.Fail? {
          return Err(withdrawn.error);
        }
        return Ok(Traded(code, a, None, before, wallet.balance));
      }
      r := SellForUsd(p, code, a);
    }

    /** The non-USD branch of `sell`, once the wallet for `code` is found:
        the USD wallet is created if missing, the `code`→USD rate is taken
        from the cache, and the amount is withdrawn before the proceeds are
        deposited in USD. */
    method SellForUsd(p: Portfolio, code: string, a: real) returns (r: Result<TradeReply>)
      requires p.Valid() && code in p.wallets && code != Trading.Base
      modifies p, p.wallets.Values
      ensures p.Valid()
      ensures p.wallets.Keys == old(p.wallets.Keys) + {Trading.Base}
      ensures r == SellReply(old(p.Balances()), code, a, QuotedRate(db.rates.pairs, code))
      ensures r.Ok? && r.value.Traded? ==> p.Balances() == Trading.Sell(old(p.Balances()), code, a, QuotedRate(db.rates.pairs, code)).value.value
    {
      ghost var b0 := p.Balances();
      var wallet := p.wallets[code];
      var before := wallet.balance;
      var usd := WalletFor(p, Trading.Base);
      assert wallet == p.wallets[code];
      var quote := LookupRate(db.rates.pairs, code, Trading.Base);
      if quote.None? {
        return Err(ApiRequest(RateUnavailable(code, Trading.Base)));
      }
      var rate := quote.value.rate;
      SellInSteps(b0, code, a, rate);
      var withdrawn := WithdrawFrom(p, code, a);
      if withdrawn.Fail? {
        return Err(withdrawn.error);
      }
      DepositTo(p, Trading.Base, Trading.Convert(a, rate));
      return Ok(Traded(code, a, Some(rate), before, wallet.balance));
    }

    /** The rest of `buy` on the loaded portfolio: the wallet steps, then
        `_save_portfolio` only when they succeed. */
    method BuyAndSave(p: Portfolio, code: string, a: real) returns (r: Result<TradeReply>)
      requires p.Valid() && Upper(code) == code
      requires forall k | k in p.wallets :: Upper(k) == k
      modifies db, p, p.wallets.Values
      ensures db.users == old(db.users) && db.rates == old(db.rates) && db.history == old(db.history)
      ensures old(Valid()) ==> Valid()
      ensures r == BuyReply(old(p.Balances()), code, a, QuotedRate(db.rates.pairs, code))
      ensures r.Err? ==> db.portfolios == old(db.portfolios)
      ensures r.Ok? ==>
        db.portfolios == SaveRow(old(db.portfolios), p.userId, Dump(Trading.Buy(old(p.Balances()), code, a, QuotedRate(db.rates.pairs, code)).value))
    {
      r := BuyWallets(p, code, a);
      if r.Ok? {
        SavePortfolio(p);
      }
    }

    /** The rest of `sell` on the loaded portfolio: the wallet steps, then
        `_save_portfolio` only when a wallet was traded. */
    method SellAndSave(p: Portfolio, code: string, a: real) returns (r: Result<TradeReply>)
      requires p.Valid()
      requires forall k | k in p.wallets :: Upper(k) == k
      modifies db, p, p.wallets.Values
      ensures db.users == old(db.users) && db.rates == old(db.rates) && db.history == old(db.history)
      ensures old(Valid()) ==> Valid()
      ensures r == SellReply(old(p.Balances()), code, a, QuotedRate(db.rates.pairs, code))
      ensures r.Err? || r.value.NoWallet? ==> db.portfolios == old(db.portfolios)
      ensures r.Ok? && r.value.Traded? ==>
        db.portfolios == SaveRow(old(db.portfolios), p.userId, Dump(Trading.Sell(old(p.Balances()), code, a, QuotedRate(db.rates.pairs, code)).value.value))
    {
      r := SellWallets(p, code, a);
      if r.Ok? && r.value.Traded? {
        SavePortfolio(p);
      }
    }

    /** `buy(currency_code, amount)`: after the session, currency and amount
        checks, the session user's portfolio is loaded, changed as
        `Trading.Buy` says and saved; any failure leaves the store as it was.
        For canonical stored rows the saved balances are exactly
        `Trading.Buy` of the stored ones. */
    method Buy(currencyCode: string, amount: real) returns (r: Result<TradeReply>)
      modifies db
      ensures db.users == old(db.users) && db.rates == old(db.rates) && db.history == old(db.history)
      ensures r.Err? ==> db.portfolios == old(db.portfolios)
      ensures CheckTrade(session, currencyCode, amount).Err? ==> r == Err(CheckTrade(session, currencyCode, amount).error)
      ensures old(Valid()) ==> Valid()
      ensures old(Valid()) && CheckTrade(session, currencyCode, amount).Ok? ==>
        var uid := session.userId.value;
        var code := CheckTrade(session, currencyCode, amount).value.1;
        var before := old(BalancesOf(db.portfolios, uid));
        && r == BuyReply(before, code, amount, QuotedRate(db.rates.pairs, code))
        && (r.Ok? ==> db.portfolios == SaveRow(old(db.portfolios), uid, Dump(Trading.Buy(before, code, amount, QuotedRate(db.rates.pairs, code)).value)))
    {
      ghost var rows := db.portfolios;
      var prologue := TradePrologue(currencyCode, amount);
      if prologue.Err? {
        return Err(prologue.error);
      }
      var p := prologue.value.0;
      var code := prologue.value.1;
      assert Valid() ==> p.Balances() == BalancesOf(rows, session.userId.value);
      r := BuyAndSave(p, code, amount);
    }

    /** `sell(currency_code, amount)`: after the session, currency and amount
        checks, the session user's portfolio is loaded; without a wallet for
        the code nothing is saved, otherwise it is changed as `Trading.Sell`
        says and saved; any failure leaves the store as it was. */
    method Sell(currencyCode: string, amount: real) returns (r: Result<TradeReply>)
      modifies db
      ensures db.users == old(db.users) && db.rates == old(db.rates) && db.history == old(db.history)
      ensures r.Err? || r.value.NoWallet? ==> db.portfolios == old(db.portfolios)
      ensures CheckTrade(session, currencyCode, amount).Err? ==> r == Err(CheckTrade(session, currencyCode, amount).error)
      ensures old(Valid()) ==> Valid()
      ensures old(Valid()) && CheckTrade(session, currencyCode, amount).Ok? ==>
        var uid := session.userId.value;
        var code := CheckTrade(session, currencyCode, amount).value.1;
        var before := old(BalancesOf(db.portfolios, uid));
        && r == SellReply(before, code, amount, QuotedRate(db.rates.pairs, code))
        && (r.Ok? && r.value.Traded? ==>
              db.portfolios == SaveRow(old(db.portfolios), uid, Dump(Trading.Sell(before, code, amount, QuotedRate(db.rates.pairs, code)).value.value)))
    {
      ghost var rows := db.portfolios;
      var prologue := TradePrologue(currencyCode, amount);
      if prologue.Err? {
        return Err(prologue.error);
      }
      var p := prologue.value.0;
      var code := prologue.value.1;
      assert Valid() ==> p.Balances() == BalancesOf(rows, session.userId.value);
      r := SellAndSave(p, code, amount);
    }

    /** `update_rates(source)`: the clients the source names run in order,
        and the updater merges what they fetched into the snapshot and the
        history. An unknown source raises `ValueError` before anything runs. */
    method UpdateRates(source: string, feeds: Feeds) returns (r: Result<RefreshSummary>)
      modifies db
      ensures SourceClients(source).Err? ==> r == Err(ValueError("source")) && db.rates == old(db.rates) && db.history == old(db.history)
      ensures SourceClients(source).Ok? ==>
        var m := Refreshed(RunsOf(SourceClients(source).value, feeds), feeds.runTs);
        && r == Ok(RefreshSummary(|m.pairs|, feeds.runTs))
        && db.rates == RatesDoc(m.pairs, Some(feeds.storedAt))
        && db.history == old(db.history) + m.history
      ensures db.users == old(db.users) && db.portfolios == old(db.portfolios)
    {
      var src := Lower(Strip(source));
      var clients: seq<Client>;
      if src == "all" || src == "" {
        clients := [CoinGeckoClient, ExchangeRateApiClient];
      } else if src == "coingecko" {
        clients := [CoinGeckoClient];
      } else if src == "exchangerate" {
        clients := [ExchangeRateApiClient];
      } else {
        return Err(ValueError("source"));
      }
      var runs := FetchAll(clients, feeds);
      var storage := new RatesStorage(db);
      var updater := new RatesUpdater(storage);
      var summary := updater.RunUpdate(runs, feeds.runTs, feeds.storedAt);
      return Ok(summary);
    }

    /** `get_rate(from_code, to_code)` at clock reading `now`: both codes
        must be registered, and the rate between their canonical codes is
        answered as `RateFor` says. */
    method GetRate(fromCode: string, toCode: string, now: int, feeds: Feeds) returns (r: Result<RateView>)
      modifies db
      ensures GetCurrency(JStr(fromCode)).Err? ==> r == Err(GetCurrency(JStr(fromCode)).error)
      ensures GetCurrency(JStr(fromCode)).Ok? && GetCurrency(JStr(toCode)).Err? ==> r == Err(GetCurrency(JStr(toCode)).error)
      ensures GetCurrency(JStr(fromCode)).Err? || GetCurrency(JStr(toCode)).Err? ==>
        db.rates == old(db.rates) && db.history == old(db.history)
      ensures db.users == old(db.users) && db.portfolios == old(db.portfolios)
      ensures GetCurrency(JStr(fromCode)).Ok? && GetCurrency(JStr(toCode)).Ok? ==>
        RateAnswered(GetCurrency(JStr(fromCode)).value.code, GetCurrency(JStr(toCode)).value.code, now, feeds,
                     old(db.rates), old(db.history), db.rates, db.history, r)
    {
      var fromCurrency := GetCurrency(JStr(fromCode));
      if fromCurrency.Err? {
        return Err(fromCurrency.error);
      }
      var toCurrency := GetCurrency(JStr(toCode));
      if toCurrency.Err? {
        return Err(toCurrency.error);
      }
      r := RateFor(fromCurrency.value.code, toCurrency.value.code, now, feeds);
    }

    /** How `get_rate` answers for the canonical codes `fc` and `tc`, from
        the rates and history before and after: a cached rate (direct or
        inverted) that is fresh is answered and nothing is stored; otherwise
        the rates are refreshed from both providers once and looked up again,
        and a pair still missing is an `ApiRequestError`. */
    ghost predicate RateAnswered(fc: string, tc: string, now: int, feeds: Feeds,
                                 rates0: RatesDoc, history0: seq<HistoryRecord>,
                                 rates1: RatesDoc, history1: seq<HistoryRecord>, r: Result<RateView>)
      reads this
      ensures RateAnswered(fc, tc, now, feeds, rates0, history0, rates1, history1, r) ==>
        && |history0| <= |history1| && history1[..|history0|] == history0
        && (r.Err? ==> r.error == ApiRequest(RateUnavailable(fc, tc)))
        && (r.Ok? ==> r.value.fromCode == fc && r.value.toCode == tc)
    {
      var cached := LookupRate(rates0.pairs, fc, tc);
      if cached.Some? && IsRateFresh(cached.value.updatedAt, now, ttl, fromIso) then
        && r == Ok(ViewOf(fc, tc, cached.value))
        && rates1 == rates0 && history1 == history0
      else
        var m := Refreshed(RunsOf([CoinGeckoClient, ExchangeRateApiClient], feeds), feeds.runTs);
        && rates1 == RatesDoc(m.pairs, Some(feeds.storedAt))
        && history1 == history0 + m.history
        && r == (if LookupRate(m.pairs, fc, tc).None? then Err(ApiRequest(RateUnavailable(fc, tc)))
                 else Ok(ViewOf(fc, tc, LookupRate(m.pairs, fc, tc).value)))
    }

    /** The part of `get_rate` after both codes are resolved. */
    method RateFor(fc: string, tc: string, now: int, feeds: Feeds) returns (r: Result<RateView>)
      modifies db
      ensures db.users == old(db.users) && db.portfolios == old(db.portfolios)
      ensures RateAnswered(fc, tc, now, feeds, old(db.rates), old(db.history), db.rates, db.history, r)
    {
      var cached := LookupRate(db.rates.pairs, fc, tc);
      if cached.Some? && IsRateFresh(cached.value.updatedAt, now, ttl, fromIso) {
        return Ok(ViewOf(fc, tc, cached.value));
      }
      AllRunsBoth();
      var refreshed := UpdateRates("all", feeds);
      var again := LookupRate(db.rates.pairs, fc, tc);
      if again.None? {
        return Err(ApiRequest(RateUnavailable(fc, tc)));
      }
      return Ok(ViewOf(fc, tc, again.value));
    }

    /** `show_portfolio(base)`: needs a session and a registered base; no
        wallets is a message of its own; otherwise every wallet is listed in
        code order with its value in the base, and the total adds up the
        values that have a rate. */
    method ShowPortfolio(base: string) returns (r: Result<PortfolioView>)
      ensures session.userId.None? ==> r == Err(PermissionDenied)
      ensures session.userId.Some? && GetCurrency(JStr(base)).Err? ==> r == Err(GetCurrency(JStr(base)).error)
      ensures session.userId.Some? && GetCurrency(JStr(base)).Ok? ==> r.Ok?
      ensures r.Ok? && Valid() ==>
        PortfolioShown(BalancesOf(db.portfolios, session.userId.value), db.rates.pairs, session.username,
                       GetCurrency(JStr(base)).value.code, r.value)
    {
      if session.userId.None? {
        return Err(PermissionDenied);
      }
      var currency := GetCurrency(JStr(base));
      if currency.Err? {
        return Err(currency.error);
      }
      var code := currency.value.code;
      var loaded := LoadPortfolio();
      var view := ViewPortfolio(loaded.value.Balances(), db.rates.pairs, session.username, code);
      return Ok(view);
    }

    /** `show_rates(currency, top)`: reads the cached rates and lists them
        (see `RatesTableOf`); needs no session. */
    method ShowRates(currency: Option<string>, top: Option<int>) returns (r: Result<RatesView>)
      ensures db.rates.pairs == map[] ==> r == Ok(EmptyCache)
      ensures db.rates.pairs != map[] ==>
        (r.Err? <==> RatesFilter(currency).Err? && exists k | k in db.rates.pairs :: Listed(db.rates.pairs[k]))
      ensures r.Err? ==> r.error == RatesFilter(currency).error
      ensures r.Ok? && db.rates.pairs != map[] ==>
        r.value.RatesTable? && r.value.lastRefresh == db.rates.lastRefresh && RatesListed(db.rates.pairs, currency, top, r.value.rows)
    {
      r := RatesTableOf(db.rates, currency, top);
    }
  }
}
