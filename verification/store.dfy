/** The application's persistent state, held in memory: the users,
    portfolios, rates and history documents that valutatrade_hub/infra/database.py
    keeps as JSON files, and the row-level operations of
    valutatrade_hub/core/usecases.py that read and write them. */
module Store {
  import opened Json
  import opened Errors
  import opened Text
  import Trading

  /** A row of the users document. */
  datatype UserRow = UserRow(userId: int, username: string, hashedPassword: string, salt: string,
                             registrationDate: string)

  /** One stored wallet: the dict `_save_portfolio` writes (either key may be
      missing), or a bare number. */
  datatype StoredWallet =
    | WalletDict(currencyCode: Option<string>, balance: Option<real>)
    | WalletNumber(amount: real)

  /** A row of the portfolios document. */
  datatype PortfolioRow = PortfolioRow(userId: int, wallets: map<string, StoredWallet>)

  /** The rates document: the cached pairs and the time of the last refresh. */
  datatype RatesDoc = RatesDoc(pairs: map<string, Json>, lastRefresh: Option<string>)

  /** A record of the rates history, as `run_update` builds it. */
  datatype HistoryRecord = HistoryRecord(id: string, fromCurrency: string, toCurrency: string,
                                         rate: Json, timestamp: Json, source: Json, client: string)

  /** The four documents; the default contents are what `load_*` returns for
      a missing file. */
  class Database {
    var users: seq<UserRow>
    var portfolios: seq<PortfolioRow>
    var rates: RatesDoc
    var history: seq<HistoryRecord>

    constructor()
      ensures users == [] && portfolios == [] && history == []
      ensures rates == RatesDoc(map[], None)
    {
      users := [];
      portfolios := [];
      rates := RatesDoc(map[], None);
      history := [];
    }

    /** `save_users`: the user list is replaced, nothing else changes. */
    method SaveUsers(rows: seq<UserRow>)
      modifies this
      ensures users == rows
      ensures portfolios == old(portfolios) && rates == old(rates) && history == old(history)
    {
      users := rows;
    }

    /** `save_portfolios`: the portfolio list is replaced, nothing else changes. */
    method SavePortfolios(rows: seq<PortfolioRow>)
      modifies this
      ensures portfolios == rows
      ensures users == old(users) && rates == old(rates) && history == old(history)
    {
      portfolios := rows;
    }
  }

  // ---------------------------------------------------------------------
  // Users

  /** `_next_user_id`: 1 for no users, otherwise one more than the largest id. */
  function NextUserId(users: seq<UserRow>): (r: int)
    ensures forall u | u in users :: u.userId < r
    ensures users == [] ==> r == 1
    ensures users != [] ==> exists u | u in users :: u.userId == r - 1
  {
    if users == [] then 1
    else
      var rest := NextUserId(users[1..]);
      assert forall u | u in users[1..] :: u in users;
      if users[1..] == [] || users[0].userId >= rest - 1 then users[0].userId + 1 else rest
  }

  /** The first user whose name is `name` (`_find_user_by_username`). */
  function FirstUserNamed(users: seq<UserRow>, name: string): (r: Option<nat>)
    ensures r.Some? ==> r.value < |users| && users[r.value].username == name
    ensures r.Some? ==> forall j | 0 <= j < r.value :: users[j].username != name
    ensures r.None? ==> forall j | 0 <= j < |users| :: users[j].username != name
  {
    if users == [] then None
    else if users[0].username == name then Some(0)
    else
      var r := FirstUserNamed(users[1..], name);
      if r.None? then None else Some(r.value + 1)
  }

  /** User ids are pairwise distinct. */
  ghost predicate DistinctIds(users: seq<UserRow>) {
    forall i, j | 0 <= i < j < |users| :: users[i].userId != users[j].userId
  }

  // ---------------------------------------------------------------------
  // Portfolios

  /** The first portfolio row of user `uid`, as the `next(...)` scans find it. */
  function FirstRowOf(rows: seq<PortfolioRow>, uid: int): (r: Option<nat>)
    ensures r.Some? ==> r.value < |rows| && rows[r.value].userId == uid
    ensures r.Some? ==> forall j | 0 <= j < r.value :: rows[j].userId != uid
    ensures r.None? ==> forall j | 0 <= j < |rows| :: rows[j].userId != uid
  {
    if rows == [] then None
    else if rows[0].userId == uid then Some(0)
    else
      var r := FirstRowOf(rows[1..], uid);
      if r.None? then None else Some(r.value + 1)
  }

  /** The code a stored wallet is loaded under: its `currency_code`, or else
      its key, upper-cased. */
  function StoredCode(key: string, w: StoredWallet): string {
    Upper(if w.WalletDict? && w.currencyCode.Some? then w.currencyCode.value else key)
  }

  /** The balance a stored wallet is loaded with (0.0 when the dict has none). */
  function StoredBalance(w: StoredWallet): real {
    match w
    case WalletDict(_, balance) => if balance.Some? then balance.value else 0.0
    case WalletNumber(amount) => amount
  }

  /** The codes the stored wallets under `keys` are loaded under. */
  function LoadedCodes(wallets: map<string, StoredWallet>, keys: set<string>): set<string>
    requires keys <= wallets.Keys
  {
    set k | k in keys :: StoredCode(k, wallets[k])
  }

  /** When every row is canonical, so are the wallets of `uid`, and they hold its balances. */
  lemma CanonicalRowLoaded(rows: seq<PortfolioRow>, uid: int)
    requires forall row | row in rows :: Canonical(row.wallets)
    ensures Canonical(WalletsOf(rows, uid))
    ensures StoredBalances(WalletsOf(rows, uid)) == BalancesOf(rows, uid)
  {
    var i := FirstRowOf(rows, uid);
    if i.Some? {
      assert rows[i.value] in rows;
    }
  }

  /** A canonical wallet is loaded under its own key. */
  lemma CanonicalCodes(wallets: map<string, StoredWallet>)
    requires Canonical(wallets)
    ensures forall k | k in wallets :: StoredCode(k, wallets[k]) == k
  {
  }

  /** Codes reached from every key, each with a key it comes from, are all the loaded codes. */
  lemma LoadedCodesWitnessed(wallets: map<string, StoredWallet>, from: map<string, string>)
    requires forall k | k in wallets :: StoredCode(k, wallets[k]) in from
    requires forall c | c in from :: from[c] in wallets && StoredCode(from[c], wallets[from[c]]) == c
    ensures from.Keys == LoadedCodes(wallets, wallets.Keys)
  {
  }

  /** Some stored wallet is loaded under `code` with `balance`. */
  ghost predicate LoadsAs(wallets: map<string, StoredWallet>, code: string, balance: real) {
    exists k | k in wallets :: StoredCode(k, wallets[k]) == code && StoredBalance(wallets[k]) == balance
  }

  /** `wallets_dump`: what `_save_portfolio` writes for a set of balances. */
  function Dump(b: Trading.Balances): (r: map<string, StoredWallet>)
    ensures r.Keys == b.Keys
  {
    map c | c in b :: WalletDict(Some(c), Some(b[c]))
  }

  /** A stored wallet map exactly as `_save_portfolio` writes it, for
      upper-case codes. */
  ghost predicate Canonical(wallets: map<string, StoredWallet>) {
    forall k | k in wallets ::
      Upper(k) == k && wallets[k].WalletDict? && wallets[k].currencyCode == Some(k) && wallets[k].balance.Some?
  }

  /** The balances a canonical wallet map holds. */
  function StoredBalances(wallets: map<string, StoredWallet>): (r: Trading.Balances)
    ensures r.Keys == wallets.Keys
    ensures forall k | k in wallets :: r[k] == StoredBalance(wallets[k])
  {
    map k | k in wallets :: StoredBalance(wallets[k])
  }

  /** The balances of user `uid` as loaded from `rows`: empty without a row. */
  function BalancesOf(rows: seq<PortfolioRow>, uid: int): Trading.Balances {
    var i := FirstRowOf(rows, uid);
    if i.None? then map[] else StoredBalances(rows[i.value].wallets)
  }

  /** The stored wallets of user `uid`: those of its first row, none without one. */
  function WalletsOf(rows: seq<PortfolioRow>, uid: int): map<string, StoredWallet> {
    var i := FirstRowOf(rows, uid);
    if i.None? then map[] else rows[i.value].wallets
  }

  /** `_save_portfolio`: the first row of `uid` gets the new wallets; without
      one, a row is appended. */
  function SaveRow(rows: seq<PortfolioRow>, uid: int, wallets: map<string, StoredWallet>): seq<PortfolioRow> {
    var i := FirstRowOf(rows, uid);
    if i.None? then rows + [PortfolioRow(uid, wallets)]
    else rows[i.value := PortfolioRow(uid, wallets)]
  }

  // ---------------------------------------------------------------------
  // Properties

  /** The next id is new, so registering keeps ids distinct. */
  lemma NextUserIdKeepsIdsDistinct(users: seq<UserRow>, row: UserRow)
    requires DistinctIds(users) && row.userId == NextUserId(users)
    ensures DistinctIds(users + [row])
  {
    var all := users + [row];
    forall i, j | 0 <= i < j < |all|
      ensures all[i].userId != all[j].userId
    {
      if j == |users| {
        assert all[i] in users;
      }
    }
  }

  /** Saving touches the saved user's row only: every other row keeps its
      place and contents, and at most one row is added. */
  lemma SaveRowTouchesOneRow(rows: seq<PortfolioRow>, uid: int, wallets: map<string, StoredWallet>)
    ensures var r := SaveRow(rows, uid, wallets);
      && |r| == |rows| + (if FirstRowOf(rows, uid).None? then 1 else 0)
      && forall j | 0 <= j < |rows| && rows[j].userId != uid :: r[j] == rows[j]
  {
  }

  /** What is saved is what is loaded back: after `_save_portfolio` of some
      balances under upper-case codes, loading the portfolio of that user
      gives those balances, and the stored map is canonical. */
  lemma SaveThenLoad(rows: seq<PortfolioRow>, uid: int, b: Trading.Balances)
    requires forall k | k in b :: Upper(k) == k
    ensures Canonical(Dump(b))
    ensures BalancesOf(SaveRow(rows, uid, Dump(b)), uid) == b
  {
    var saved := SaveRow(rows, uid, Dump(b));
    var i := FirstRowOf(rows, uid);
    var k := if i.None? then |rows| else i.value;
    assert saved[k] == PortfolioRow(uid, Dump(b));
    assert forall j | 0 <= j < k :: saved[j] == rows[j];
    FirstRowIsFirst(saved, uid, k);
  }

  /** A row of `uid` preceded by no other row of `uid` is the first one. */
  lemma {:induction false} FirstRowIsFirst(rows: seq<PortfolioRow>, uid: int, k: nat)
    requires k < |rows| && rows[k].userId == uid
    requires forall j | 0 <= j < k :: rows[j].userId != uid
    ensures FirstRowOf(rows, uid) == Some(k)
  {
    if k > 0 {
      FirstRowIsFirst(rows[1..], uid, k - 1);
    }
  }
}
