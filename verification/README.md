# ValutaTrade Hub — a Dafny model of the trading core

ValutaTrade Hub is a small currency-trading simulator. Users register and log in. Each user owns a portfolio of
wallets, one per currency code, holding balances in those currencies. Users buy and sell currencies against US
dollars, using exchange rates from a local rate cache. A parser service refreshes that cache from two HTTP rate
providers, CoinGecko for crypto and ExchangeRate-API for fiat. It replaces the cached snapshot and appends one
history record per fetched pair.

This project models the core of the system in Dafny and proves properties of that model.

- **`CoreUseCases`** (`usecases.dfy`, with specification functions in `usecase_specs.dfy`) is a class over an
  in-memory `Database` and a login `Session`. It models:
  - `register`, `login` and `_ensure_logged_in`;
  - loading and saving a portfolio;
  - `buy` and `sell`, through `Wallet`/`Portfolio` objects whose balances are updated in place;
  - `get_rate` with its single refresh, and `update_rates`;
  - `show_portfolio` and `show_rates`.
- **Rate lookup** (`rates.dfy`) covers:
  - reading a stored pair;
  - the direct-then-inverse rule of `_get_rate`;
  - the TTL freshness test.
- **Trading arithmetic** (`trading.dfy`) gives value-level balance maps. Buy and sell are specified as functions on
  them, and the imperative methods are proved against those functions.
- **Parser service**:
  - `updater.dfy` models `RatesUpdater.run_update` as a loop over client results. The merge is last-writer-wins,
    and each merged pair produces one history record.
  - `storage.dfy` models `RatesStorage`: the snapshot is replaced as a whole and history is append-only.
  - `api_clients.dfy` models the status and key checks and the response-to-pairs loops of both providers.
- **Validators and parsers**:
  - currency construction, the registry and `get_currency` (`currencies.dfy`);
  - `validate_amount`, `validate_currency_code` and `parse_iso_dt` (`utils.dfy`);
  - the `User` class (`models.dfy`);
  - the CLI `--key value` parser `_parse_kwargs` (`interface.dfy`).
- **Support modules**:
  - `json.dfy` is the dynamic JSON value that the source inspects with `isinstance`.
  - `text.dfy` holds Python's `strip`/`upper`/`split` on strings.
  - `sorting.dfy` holds a stable insertion sort and slicing.
  - `store.dfy` holds the in-memory database and the stored row shapes.
  - `errors.dfy` holds the three domain errors plus `ValueError` and the permission error.
  - `portfolio.dfy` holds the `Wallet`/`Portfolio` classes.

## Modelling choices

- **Inputs as parameters.** The clock, the ISO-8601 parser, the salt generator, SHA-256 and the HTTP responses
  are all parameters:
  - "now" is an integer number of seconds;
  - `datetime.fromisoformat` is an abstract partial function from text to a wall time and an optional UTC offset;
  - the hash is an uninterpreted function;
  - each provider call is an `HttpOutcome` (a transport failure, or a status with an optional JSON body).
- **Numbers.** Rates and balances are `real`. A Python `bool` counts as a number, because `isinstance(True, int)`
  holds in Python.
- **Updater clients** are an ordered sequence of results, each either a failure or an ordered list of
  `(pair, value)` entries, in the order the provider's dict yields them. An entry whose key has no `_`, or whose
  value is not a dict, stops that client's loop with an exception. The entry's pair is merged before the failure,
  no history record is written for it, and the client's later entries are dropped. Entries the client
  yielded before the failing one stay merged and recorded.
- **`CoreUseCases.Valid`** states that every stored portfolio row has the shape `_save_portfolio` writes: an
  upper-case code key mapping to `{currency_code, balance}`. Under it, `Buy`, `Sell` and `ShowPortfolio` have
  functional specifications. The load loop itself is specified for rows of any shape.
- **`Wallet` and `Portfolio`** are imported by `usecases.py` but their source is not part of this model. Their
  contract is assumed:
  - `deposit` adds the amount;
  - `withdraw` fails with `InsufficientFunds(available, required, code)` exactly when the amount exceeds the
    balance, and otherwise subtracts it;
  - `get_wallet` returns the wallet or nothing;
  - `add_currency` creates a zero wallet for a missing code.

## Model

| member | source | states |
|---|---|---|
| Currencies.CheckNameAndCode | valutatrade_hub/core/currencies.py:12-22 | accepted iff name and code are non-blank strings and the stripped upper-cased code has length 2..5 and no space; name stored stripped, code stored normalised; the error names the first bad field |
| Currencies.NewFiat | valutatrade_hub/core/currencies.py:32-36 | a fiat currency is built iff name/code pass and the issuing country is a non-blank string; fields stored stripped/normalised; otherwise `ValueError("issuing_country")` |
| Currencies.NewCrypto | valutatrade_hub/core/currencies.py:46-53 | a crypto currency is built iff name/code pass, the algorithm is non-blank and `market_cap` is a number `>= 0`; fields stored stripped/normalised |
| Currencies.GetCurrency | valutatrade_hub/core/currencies.py:73-80 | succeeds iff the code is a non-blank string whose stripped upper-cased form is registered, returning that registry entry; a blank/non-string code gives `CurrencyNotFound` of the raw value, an unknown one `CurrencyNotFound` of the normalised code |
| Currencies.StrippedField | valutatrade_hub/core/currencies.py:21 | a stripped non-blank field has no surrounding whitespace |
| Currencies.CanonicalCode | valutatrade_hub/core/currencies.py:17-22 | an accepted normalised code is already stripped and upper-case |
| Currencies.StrippedEnds | valutatrade_hub/core/currencies.py:17-21 | a non-empty text unchanged by `strip` has non-space ends |
| Currencies.NormalizedCodeIsCanonical | valutatrade_hub/core/currencies.py:17 | normalising a code is idempotent on both strip and upper |
| Currencies.RegistryCodes | valutatrade_hub/core/currencies.py:62-70 | every registry entry is stored under its own code |
| Currencies.RegistryContents | valutatrade_hub/core/currencies.py:62-70 | the registry holds exactly USD, EUR, GBP, RUB (fiat) and BTC, ETH, SOL (crypto) |
| Currencies.RegistryKeysCanonical | valutatrade_hub/core/currencies.py:62-70 | every registry key is upper-case and a valid code |
| Currencies.FiatRoundTrip | valutatrade_hub/core/currencies.py:32-36 | rebuilding a well-formed fiat currency from its own fields yields the same currency |
| Currencies.CryptoRoundTrip | valutatrade_hub/core/currencies.py:46-53 | rebuilding a well-formed crypto currency from its own fields yields the same currency |
| Currencies.GetCurrencyByCode | valutatrade_hub/core/currencies.py:73-80 | two codes with the same normalised form look up the same result |
| Currencies.GetCurrencyIgnoresCase | valutatrade_hub/core/currencies.py:76-77 | lookup ignores letter case |
| Currencies.GetCurrencyIgnoresLeadingSpace | valutatrade_hub/core/currencies.py:76-77 | lookup ignores a leading whitespace character |
| Currencies.GetCurrencyIdempotent | valutatrade_hub/core/currencies.py:73-80 | looking up the code of a found currency finds it again |
| Utils.ValidateCurrencyCode | valutatrade_hub/core/utils.py:9-14 | succeeds iff `get_currency` does, returning the registered canonical code; otherwise propagates its error |
| Utils.ValidateAmount | valutatrade_hub/core/utils.py:17-23 | succeeds iff the input is a number `> 0`, returning it unchanged as a real; otherwise `ValueError` |
| Utils.IsoText | valutatrade_hub/core/utils.py:33 | the rewritten text contains no `Z` |
| Utils.ParseIsoDt | valutatrade_hub/core/utils.py:30-37 | a non-string or blank input gives none; otherwise the abstract parser's result on the text with `Z` rewritten to `+00:00` |
| Utils.ReplaceKeepsFront | valutatrade_hub/core/utils.py:33 | rewriting `Z` keeps a non-space first character |
| Utils.ReplaceKeepsBack | valutatrade_hub/core/utils.py:33 | rewriting `Z` keeps a non-space last character |
| Utils.IsoTextIdempotent | valutatrade_hub/core/utils.py:33 | rewriting `Z` twice equals rewriting once |
| Models.CheckUsername | valutatrade_hub/core/models.py:32-36 | accepted iff a non-blank string, stored stripped; otherwise `ValueError("username")` |
| Models.User.Init | valutatrade_hub/core/models.py:10-22 | the fields are the given ones |
| Models.User.New | valutatrade_hub/core/models.py:10-22 | a user is created iff the username is a non-blank string; the username is stored stripped, the other fields as given |
| Models.User.SetUsername | valutatrade_hub/core/models.py:32-36 | succeeds iff non-blank string, then stores it stripped; on failure the name is unchanged; salt and hash never change |
| Models.User.Info | valutatrade_hub/core/models.py:50-55 | exposes exactly id, username and registration date, never salt or hash |
| Models.User.ChangePassword | valutatrade_hub/core/models.py:66-72 | succeeds iff the password is a string of length `>= 4`; on failure salt and hash are unchanged; on success the salt is the new salt, the hash is computed from it, the new password verifies, and with an injective hash only that password verifies |
| Models.User.VerifyPassword | valutatrade_hub/core/models.py:74-77 | a non-string is rejected; true only when the salted hash matches the stored hash |
| Models.OnlyOnePasswordVerifies | valutatrade_hub/core/models.py:57-60 | with an injective hash, equal salted hashes mean equal passwords |
| Portfolios.Wallet.constructor | valutatrade_hub/core/usecases.py:135 | a wallet holds the given code and balance |
| Portfolios.Wallet.Deposit | valutatrade_hub/core/usecases.py:244 | the balance grows by the amount |
| Portfolios.Wallet.Withdraw | valutatrade_hub/core/exceptions.py:3-12 | fails with `InsufficientFunds(balance, amount, code)` iff the amount exceeds the balance, leaving it unchanged; otherwise subtracts the amount |
| Portfolios.Portfolio.constructor | valutatrade_hub/core/usecases.py:136 | a portfolio holds the given user id and wallets |
| Portfolios.Portfolio.Balances | valutatrade_hub/core/usecases.py:141 | the balance map has exactly the wallet codes |
| Portfolios.Portfolio.GetWallet | valutatrade_hub/core/usecases.py:219 | returns the wallet for a held code, nothing otherwise |
| Portfolios.Portfolio.AddCurrency | valutatrade_hub/core/usecases.py:220-221 | adds one fresh zero wallet under the code, nothing else changes |
| Portfolios.DepositTo | valutatrade_hub/core/usecases.py:244 | the portfolio's balances become `Trading.Deposit` of the old ones |
| Portfolios.WithdrawFrom | valutatrade_hub/core/usecases.py:243 | the outcome and new balances are exactly `Trading.Withdraw` of the old ones |
| Trading.EnsureWallet | valutatrade_hub/core/usecases.py:219-221 | adds the code with its current balance (0 if missing), keeps every other balance |
| Trading.Deposit | valutatrade_hub/core/usecases.py:244 | only the code's balance changes, by `+amount` |
| Trading.Withdraw | valutatrade_hub/core/usecases.py:243 | fails with `InsufficientFunds` iff amount exceeds the balance; otherwise only the code's balance changes, by `-amount` |
| Trading.BuyEffect | valutatrade_hub/core/usecases.py:219-245 | the contract of `Trading.Buy`, the reference buy `CoreUseCases.Buy` is proved against: buying USD is a plain deposit; otherwise no rate is an error, USD is debited `amount*rate` (failing iff it does not cover it) and only then is the target credited `amount`; other wallets unchanged |
| Trading.SellEffect | valutatrade_hub/core/usecases.py:261-290 | the contract of `Trading.Sell`, the reference sell `CoreUseCases.Sell` is proved against: no wallet gives "no wallet"; selling USD is a plain withdraw; otherwise no rate is an error, the wallet is debited first (failing iff short) and USD credited `amount*rate`; other wallets unchanged |
| Trading.BuyThenSellRestores | valutatrade_hub/core/usecases.py:212-297 | selling what was just bought at the same rate restores every balance |
| Trading.SellThenBuyRestores | valutatrade_hub/core/usecases.py:212-297 | buying back what was just sold at the same rate restores every balance |
| Trading.TradesKeepWorth | valutatrade_hub/core/usecases.py:242-245 | a trade at a rate keeps the portfolio's worth at that rate |
| Trading.TradesKeepNonNegative | valutatrade_hub/core/usecases.py:242-245 | for a positive amount at a non-negative rate, a buy or sell never makes a non-negative balance negative |
| RateLookup.RatePair | valutatrade_hub/core/usecases.py:148-159 | a stored pair counts iff it is a dict with a numeric `rate` and a string `updated_at`; the quote carries those values |
| RateLookup.LookupRate | valutatrade_hub/core/usecases.py:161-171 | the direct pair wins when present; otherwise the reverse pair inverted, and a missing or zero reverse gives no rate |
| RateLookup.IsRateFresh | valutatrade_hub/core/usecases.py:173-181 | fresh iff the timestamp parses and `now - updated_at <= ttl`; an unparseable timestamp is never fresh |
| RateLookup.RecordReadsBack | valutatrade_hub/core/usecases.py:148-159 | a record as the updater writes it reads back as the same quote |
| RateLookup.SourceDefaultsToUnknown | valutatrade_hub/core/usecases.py:156 | a record without `source` reads with source `"unknown"` |
| RateLookup.DirectWins | valutatrade_hub/core/usecases.py:162-164 | a usable direct pair is returned unchanged |
| RateLookup.DirectZeroAccepted | valutatrade_hub/core/usecases.py:162-164 | a direct rate of 0 is not rejected |
| RateLookup.ReverseIsInverse | valutatrade_hub/core/usecases.py:165-171 | with only the reverse pair stored, the rate is its reciprocal |
| RateLookup.ZeroReverseIsNoRate | valutatrade_hub/core/usecases.py:165-170 | a zero reverse rate gives no rate |
| RateLookup.FreshnessMonotone | valutatrade_hub/core/usecases.py:173-181 | a fresh rate stays fresh at an earlier time or a longer TTL |
| RateLookup.NaiveTimestampIsUtc | valutatrade_hub/core/usecases.py:179-181 | a naive timestamp is as fresh as the same time in UTC |
| ApiClients.ResponseData | valutatrade_hub/parser_service/api_clients.py:33-39 | the body is used iff the response has status 200 and a JSON body; another status gives `ApiRequestError` with that status |
| ApiClients.CryptoEntry | valutatrade_hub/parser_service/api_clients.py:43-48 | a non-dict response or coin node raises (malformed data); an entry produced is keyed `CODE_USD` and stamped with the run's time and CoinGecko |
| ApiClients.CryptoPairs | valutatrade_hub/parser_service/api_clients.py:43-48 | at most one entry per configured coin; the only failure is malformed data, which a non-dict response always causes |
| ApiClients.CoinGeckoRates | valutatrade_hub/parser_service/api_clients.py:22-49 | a failed request propagates its error; success needs status 200 and gives at most one entry per coin |
| ApiClients.FiatEntry | valutatrade_hub/parser_service/api_clients.py:73-77 | fails exactly when `conversion_rates` is not a dict; an entry produced is keyed `CODE_USD` and stamped with the run's time and ExchangeRate-API |
| ApiClients.FiatPairs | valutatrade_hub/parser_service/api_clients.py:73-77 | at most one entry per configured code; the only failure is malformed data, which a non-dict `conversion_rates` always causes |
| ApiClients.ExchangeRates | valutatrade_hub/parser_service/api_clients.py:56-78 | an empty key fails with the missing-key error; a failed request propagates its error; success needs a key and status 200 and gives at most one entry per code |
| ApiClients.FetchCoinGecko | valutatrade_hub/parser_service/api_clients.py:22-49 | the loop's result equals the crypto pair mapping of the response |
| ApiClients.FetchExchangeRate | valutatrade_hub/parser_service/api_clients.py:56-78 | the loop's result equals the fiat pair mapping, with the empty-key check first |
| ApiClients.ThenEmpty | valutatrade_hub/parser_service/api_clients.py:43-48 | no entries yet means the rest of the loop decides the result |
| ApiClients.ThenStep | valutatrade_hub/parser_service/api_clients.py:43-48 | adding one code's entry commutes with finishing the loop |
| ApiClients.PairKeyOfBase | valutatrade_hub/parser_service/api_clients.py:47 | every produced key ends in `_USD`, and distinct codes give distinct keys |
| ApiClients.CryptoPairsShape | valutatrade_hub/parser_service/api_clients.py:42-48 | every crypto entry is `CODE_USD` for a configured code, with the fetch's timestamp and source |
| ApiClients.CryptoPairsMembership | valutatrade_hub/parser_service/api_clients.py:43-48 | `CODE_USD` is produced iff `data[id]["usd"]` is numeric, with that price as the rate |
| ApiClients.FiatPairsShape | valutatrade_hub/parser_service/api_clients.py:70-77 | every fiat entry is `CODE_USD` for a configured code, with the fetch's timestamp and source |
| ApiClients.FiatPairsMembership | valutatrade_hub/parser_service/api_clients.py:73-77 | `CODE_USD` is produced iff the code's value is numeric and non-zero, with rate `1/value` |
| Updater.RecordFor | valutatrade_hub/parser_service/updater.py:31-41 | a history record exists iff the pair has `_` and the value is a dict; from/to are the parts around the first `_`; id is `pair_ts` |
| Updater.Feed | valutatrade_hub/parser_service/updater.py:29-41 | one client's entries only add pairs, all from its entries, and only append to the history, at most one record per entry |
| Updater.RunAll | valutatrade_hub/parser_service/updater.py:24-44 | the run only adds pairs and only appends to the history; when every client failed nothing changes |
| Updater.RatesUpdater.constructor | valutatrade_hub/parser_service/updater.py:12-15 | the updater holds the given storage |
| Updater.RatesUpdater.RunUpdate | valutatrade_hub/parser_service/updater.py:17-49 | the snapshot becomes the merge of all client results with the storage's own time; history gets the merge's records appended; the summary is `(number of merged pairs, run timestamp)`; users and portfolios unchanged |
| Updater.OverlayAppend | valutatrade_hub/parser_service/updater.py:29-30 | overlaying two batches equals overlaying them one after another |
| Updater.OverlayLastWins | valutatrade_hub/parser_service/updater.py:29-30 | after an overlay a pair holds its last written value, or its old value when never written |
| Updater.FeedIsOverlay | valutatrade_hub/parser_service/updater.py:29-41 | one client's loop overlays its entries and appends its records |
| Updater.RunAllIsOverlay | valutatrade_hub/parser_service/updater.py:24-44 | the client loop overlays every client's entries in order and concatenates their records |
| Updater.FirstClientStep | valutatrade_hub/parser_service/updater.py:24-44 | the run unfolds into the first client followed by the rest |
| Updater.LastWriterWins | valutatrade_hub/parser_service/updater.py:29-30 | a pair is in the snapshot iff some successful client returned it, with the value of the last one |
| Updater.HistoryOfRun | valutatrade_hub/parser_service/updater.py:31-41 | history records are exactly all clients' records in client order |
| Updater.AllFailedEmptiesSnapshot | valutatrade_hub/parser_service/updater.py:42-47 | when every client fails the merge is unchanged, so the snapshot written is empty |
| Updater.RecordsSplitPairs | valutatrade_hub/parser_service/updater.py:34-35 | every record's from-currency has no `_` and its id rebuilds the pair and timestamp |
| Updater.WellFormedClientRecordsAll | valutatrade_hub/parser_service/updater.py:29-41 | for well-formed entries every entry is merged and has one record |
| Updater.OverlaySize | valutatrade_hub/parser_service/updater.py:29-30 | an overlay adds at most one key per entry |
| Updater.HistoryCoversSnapshot | valutatrade_hub/parser_service/updater.py:29-49 | with well-formed entries, one record per merged entry, so `total` never exceeds the number of records |
| Updater.AllRecordedCount | valutatrade_hub/parser_service/updater.py:29-41 | with well-formed entries, records and merged entries are equally many |
| Storage.RatesStorage.constructor | valutatrade_hub/parser_service/storage.py:10-11 | the storage holds the given database |
| Storage.RatesStorage.WriteSnapshot | valutatrade_hub/parser_service/storage.py:13-15 | the rates document becomes exactly `{pairs, last_refresh = now}`; history, users and portfolios unchanged |
| Storage.RatesStorage.AppendHistory | valutatrade_hub/parser_service/storage.py:17-20 | history becomes the old history followed by the new records; everything else unchanged |
| Store.Database.constructor | valutatrade_hub/infra/database.py:38-68 | a fresh store holds no users, portfolios, history or pairs |
| Store.Database.SaveUsers | valutatrade_hub/infra/database.py:42-44 | replaces the user list, nothing else |
| Store.Database.SavePortfolios | valutatrade_hub/infra/database.py:50-52 | replaces the portfolio list, nothing else |
| Store.NextUserId | valutatrade_hub/core/usecases.py:38-41 | larger than every stored id: 1 for no users, otherwise the maximum plus one |
| Store.FirstUserNamed | valutatrade_hub/core/usecases.py:43-48 | the index of the first user with that name, or none when no user has it |
| Store.FirstRowOf | valutatrade_hub/core/usecases.py:140 | the index of the first portfolio row of that user, or none |
| Store.Dump | valutatrade_hub/core/usecases.py:141 | one stored wallet per held code |
| Store.StoredBalances | valutatrade_hub/core/usecases.py:128-135 | one balance per stored wallet, read from either stored shape |
| Store.NextUserIdKeepsIdsDistinct | valutatrade_hub/core/usecases.py:38-41 | appending a user with the next id keeps ids distinct |
| Store.SaveRowTouchesOneRow | valutatrade_hub/core/usecases.py:138-146 | saving changes only that user's row, or appends one when missing |
| Store.SaveThenLoad | valutatrade_hub/core/usecases.py:119-146 | loading after saving yields the saved balances |
| Store.FirstRowIsFirst | valutatrade_hub/core/usecases.py:140 | the first row carrying the id is the one found |
| UseCaseSpecs.FirstUserNamedAppend | valutatrade_hub/core/usecases.py:43-48 | appending a user leaves earlier name matches in place and makes a new name findable |
| UseCaseSpecs.LoginOutcome | valutatrade_hub/core/usecases.py:96-113 | an unknown user is reported exactly when no stored user has the stripped name; the only error raised is the `ValueError` of a blank stored name; otherwise login succeeds exactly when the password hashes to the first matching user's hash, as that user |
| UseCaseSpecs.RegisterThenLogin | valutatrade_hub/core/usecases.py:51-117 | after registering, logging in with the same name and password succeeds as the new user; with an injective hash another password is rejected |
| UseCaseSpecs.RunsOf | valutatrade_hub/parser_service/updater.py:24-28 | one client result per client, in order |
| UseCaseSpecs.SourceName | valutatrade_hub/core/usecases.py:339 | the normalised source name is no longer than the input, has no upper-case ASCII letter, and is empty exactly when the input is blank |
| UseCaseSpecs.Refreshed | valutatrade_hub/parser_service/updater.py:17-49 | a refresh from an empty merge records exactly every client's records in order, and each merged pair holds the last value any client returned for it |
| UseCaseSpecs.SourceClients | valutatrade_hub/core/usecases.py:338-347 | `all`/blank selects both clients in order, `coingecko` or `exchangerate` one, anything else `ValueError` |
| UseCaseSpecs.AllRunsBoth | valutatrade_hub/core/usecases.py:341-342 | source `all` runs CoinGecko then ExchangeRate-API |
| UseCaseSpecs.FullRefreshOrder | valutatrade_hub/core/usecases.py:341-342 | after a full refresh a pair holds the ExchangeRate-API value when it returned one, otherwise the CoinGecko value |
| UseCaseSpecs.LastValueAppend | valutatrade_hub/parser_service/updater.py:29-30 | the last value over two batches is the second batch's when it has one |
| UseCaseSpecs.ViewOf | valutatrade_hub/core/usecases.py:190-196 | the view shows the quote's rate and time, and its inverse is `1/rate`, or 0 for a zero rate |
| UseCaseSpecs.CheckTrade | valutatrade_hub/core/usecases.py:213-217 | not logged in gives permission denied, then an unknown currency gives its lookup error, then a non-positive amount `ValueError`; success gives the user, the registered code of the given currency and the amount, and a logged-in user with a registered currency and a positive amount always succeeds |
| UseCaseSpecs.QuotedRate | valutatrade_hub/core/usecases.py:237-240 | the rate to USD exactly when the lookup finds one |
| UseCaseSpecs.BuyReply | valutatrade_hub/core/usecases.py:225-252 | the reply fails exactly when the trade does, and reports the target's new balance |
| UseCaseSpecs.SellReply | valutatrade_hub/core/usecases.py:261-297 | the reply fails exactly when the trade does, and says "no wallet" exactly when the wallet is missing |
| UseCaseSpecs.TradesKeepCodesUpper | valutatrade_hub/core/usecases.py:212-297 | trades in a registered code keep every wallet code upper-case |
| UseCaseSpecs.HoldingValue | valutatrade_hub/core/usecases.py:312-326 | the base wallet counts in full; another wallet counts `balance*rate` when a rate exists, nothing otherwise |
| UseCaseSpecs.TotalRemove | valutatrade_hub/core/usecases.py:311-326 | the total splits into one wallet's contribution plus the rest |
| UseCaseSpecs.BaseWalletCountsInFull | valutatrade_hub/core/usecases.py:312-316 | the total is the base balance plus the other wallets' contributions |
| UseCaseSpecs.UnratedAddNothing | valutatrade_hub/core/usecases.py:318-321 | wallets without a rate add nothing to the total |
| UseCaseSpecs.CodesListed | valutatrade_hub/core/usecases.py:311 | listing the sorted distinct codes lists every wallet once, in order |
| UseCaseSpecs.SumIsTotal | valutatrade_hub/core/usecases.py:311-329 | the sum of listed values is the total over the listed codes |
| UseCaseSpecs.RowOf | valutatrade_hub/core/usecases.py:376 | a listed row carries the pair and its rate |
| UseCaseSpecs.RatesFilter | valutatrade_hub/core/usecases.py:373-375 | no or empty currency means no filter; otherwise the filter is the registered code, or its lookup error |
| UseCaseSpecs.ByPairIsPreorder | valutatrade_hub/core/usecases.py:382 | ordering by pair name is a total preorder |
| UseCaseSpecs.ByRateIsPreorder | valutatrade_hub/core/usecases.py:379 | ordering by descending rate is a total preorder |
| UseCaseSpecs.SelectionRows | valutatrade_hub/core/usecases.py:365-376 | every selected row is a shown pair's row |
| UseCaseSpecs.SelectionAdd | valutatrade_hub/core/usecases.py:365-376 | one more pair adds its row iff it is shown |
| UseCaseSpecs.RowsOfSelection | valutatrade_hub/core/usecases.py:364-376 | the loop's rows are exactly the selected rows |
| UseCaseSpecs.RowsOfDistinct | valutatrade_hub/core/usecases.py:364-376 | over distinct keys the rows are distinct and each comes from a key |
| UseCaseSpecs.ArrangedByPair | valutatrade_hub/core/usecases.py:381-382 | without `top`, the table is every selected row sorted by pair name |
| UseCaseSpecs.SortedByPair | valutatrade_hub/core/usecases.py:382 | sorting by pair yields a sorted list |
| UseCaseSpecs.SortedByRate | valutatrade_hub/core/usecases.py:379 | sorting by rate yields a list in descending rate |
| UseCaseSpecs.ArrangedByRate | valutatrade_hub/core/usecases.py:378-380 | with `top`, the table is the first `top` rows by descending rate, each ranked above every dropped row |
| UseCases.BuyInSteps | valutatrade_hub/core/usecases.py:233-244 | a non-USD buy is the USD withdraw followed by the target deposit |
| UseCases.BuyAfterEnsureWallet | valutatrade_hub/core/usecases.py:219-221 | creating the target wallet first does not change the buy |
| UseCases.SellInSteps | valutatrade_hub/core/usecases.py:278-289 | a non-USD sell is the wallet withdraw followed by the USD deposit |
| UseCases.FetchOne | valutatrade_hub/parser_service/updater.py:24-28 | fetching one client gives that client's result |
| UseCases.FetchAll | valutatrade_hub/parser_service/updater.py:24-28 | fetching all clients gives their results in order |
| UseCases.ViewPortfolio | valutatrade_hub/core/usecases.py:305-330 | no wallets gives the empty view; otherwise every wallet is listed in code order with its value, and the total is their sum |
| UseCases.ValueWallet | valutatrade_hub/core/usecases.py:312-325 | one wallet's line is its specified value |
| UseCases.ValueWallets | valutatrade_hub/core/usecases.py:311-326 | the loop lists every wallet in order and accumulates the total of their contributions |
| UseCases.CollectRows | valutatrade_hub/core/usecases.py:364-376 | the collected rows are the selected rows in key order; a bad filter currency errors only once a usable row reaches the check |
| UseCases.RatesTableOf | valutatrade_hub/core/usecases.py:356-382 | an empty cache gives the empty-cache reply; a bad filter errors iff some usable row exists; otherwise the rows are the shown pairs, arranged by pair or by top rate |
| UseCases.ArrangeRows | valutatrade_hub/core/usecases.py:378-382 | the rows satisfy `RatesListed`: every selected row exactly once, sorted by pair without `top`; with `top`, as many rows as `items[:top]` keeps, by descending rate, with no dropped row ranking higher than a kept one |
| UseCases.CoreUseCases.constructor | valutatrade_hub/core/usecases.py:26-32 | the use cases start logged out over the given store |
| UseCases.CoreUseCases.EnsureLoggedIn | valutatrade_hub/core/usecases.py:34-36 | passes iff a user is logged in, otherwise permission denied |
| UseCases.CoreUseCases.FindUserByUsername | valutatrade_hub/core/usecases.py:43-48 | returns the first stored user with that name, or nothing |
| UseCases.CoreUseCases.Register | valutatrade_hub/core/usecases.py:51-93 | blank name or short password fail; a taken name is reported; a non-blank name not yet taken with a password of at least 4 characters always registers, appending one user row with the next id, the stripped name and a salted hash is appended, with an empty portfolio; on failure nothing is written; ids stay distinct |
| UseCases.CoreUseCases.AddUser | valutatrade_hub/core/usecases.py:75-88 | appends the user and its empty portfolio, nothing else |
| UseCases.CoreUseCases.Authenticate | valutatrade_hub/core/usecases.py:96-113 | the login result is the specified outcome: unknown user, wrong password or success |
| UseCases.CoreUseCases.NewUser | valutatrade_hub/core/usecases.py:66-80 | the new row holds the stripped name and the password hashed with the new salt |
| UseCases.CoreUseCases.Login | valutatrade_hub/core/usecases.py:96-117 | on success the session holds that user; otherwise the session is unchanged |
| UseCases.CoreUseCases.LoadPortfolio | valutatrade_hub/core/usecases.py:119-136 | not logged in gives permission denied; otherwise fresh wallets for the user's first row (none without a row): exactly one per upper-cased stored code, each holding the balance of some stored wallet loaded under that code; for rows as `_save_portfolio` writes them, exactly the stored balances |
| UseCases.LoadWallets | valutatrade_hub/core/usecases.py:127-135 | one fresh wallet per code some stored wallet is loaded under (its `currency_code` or key, upper-cased), and no other; each wallet's code is its key and its balance that of a stored wallet with that code |
| UseCases.LoadRow | valutatrade_hub/core/usecases.py:126-136 | a fresh valid portfolio of the user whose wallets are the loaded ones; for a canonical row its balances are the stored balances |
| Store.LoadedCodesWitnessed | valutatrade_hub/core/usecases.py:128-135 | codes reached from every stored key, each traced back to a key that loads under it, are exactly the loaded codes |
| Store.CanonicalRowLoaded | valutatrade_hub/core/usecases.py:126-135 | when every row has the saved shape, the user's stored wallets do too and hold the user's stored balances |
| UseCases.CoreUseCases.SavePortfolio | valutatrade_hub/core/usecases.py:138-146 | only the user's row is replaced (or appended) with the dumped balances; users, rates and history unchanged |
| UseCases.CoreUseCases.WalletFor | valutatrade_hub/core/usecases.py:219-221 | returns the existing wallet or a fresh zero one; other wallets unchanged |
| UseCases.CoreUseCases.TradePrologue | valutatrade_hub/core/usecases.py:213-217 | fails exactly as the trade checks do; otherwise the loaded portfolio and the canonical code |
| UseCases.CoreUseCases.BuyWallets | valutatrade_hub/core/usecases.py:219-245 | the reply and the new balances are the specified buy |
| UseCases.CoreUseCases.BuyUsd | valutatrade_hub/core/usecases.py:225-231 | a USD buy deposits the amount and nothing else |
| UseCases.CoreUseCases.PayInUsd | valutatrade_hub/core/usecases.py:233-245 | debits USD `amount*rate` first, then credits the target; a failure stops before the credit |
| UseCases.CoreUseCases.SellWallets | valutatrade_hub/core/usecases.py:261-290 | the reply and the new balances are the specified sell |
| UseCases.CoreUseCases.SellForUsd | valutatrade_hub/core/usecases.py:278-290 | debits the wallet first, then credits USD `amount*rate` |
| UseCases.CoreUseCases.BuyAndSave | valutatrade_hub/core/usecases.py:219-245 | a failed buy writes nothing; a successful one saves exactly the new balances in the user's row |
| UseCases.CoreUseCases.SellAndSave | valutatrade_hub/core/usecases.py:261-290 | a failed sell or a missing wallet writes nothing; a successful one saves exactly the new balances |
| UseCases.CoreUseCases.Buy | valutatrade_hub/core/usecases.py:212-252 | a failed check writes nothing and reports that check's error; otherwise the reply is the specified buy on the stored balances and only the final save writes |
| UseCases.CoreUseCases.Sell | valutatrade_hub/core/usecases.py:255-297 | a failed check writes nothing and reports that check's error; otherwise the reply is the specified sell and only the final save writes |
| UseCases.CoreUseCases.UpdateRates | valutatrade_hub/core/usecases.py:333-354 | an unknown source fails and writes nothing; otherwise the selected clients' merge is written and summarised |
| UseCases.CoreUseCases.GetRate | valutatrade_hub/core/usecases.py:184-209 | unknown codes fail with no write; a present fresh rate answers without refreshing; otherwise exactly one full refresh, then one lookup without freshness check, failing with `ApiRequestError` if still missing |
| UseCases.CoreUseCases.RateAnswered | valutatrade_hub/core/usecases.py:188-209 | an answer never removes history; a failure is `ApiRequestError` for the pair; a success shows the requested pair |
| UseCases.CoreUseCases.RateFor | valutatrade_hub/core/usecases.py:188-209 | the cached-or-refresh answer for canonical codes |
| UseCases.CoreUseCases.ShowPortfolio | valutatrade_hub/core/usecases.py:299-330 | not logged in or an unknown base fails; otherwise the view lists the stored wallets with the total in the base currency |
| UseCases.CoreUseCases.ShowRates | valutatrade_hub/core/usecases.py:356-390 | the stored cache's table as `RatesTableOf` specifies |
| Interface.KwargsFrom | valutatrade_hub/cli/interface.py:16-29 | the rest of the loop keeps every key already set, and the value of every key with no `--key` token |
| Interface.Kwargs | valutatrade_hub/cli/interface.py:14-29 | every key comes from a `--key` token, and every value is `""` or one of the tokens |
| Interface.ParseKwargs | valutatrade_hub/cli/interface.py:14-29 | the loop computes the specified token parse |
| Interface.FlagTakesNextToken | valutatrade_hub/cli/interface.py:19-26 | `--key value` sets `key` to `value` and consumes both tokens |
| Interface.TrailingFlagIsEmpty | valutatrade_hub/cli/interface.py:21-23 | a trailing `--key` maps to `""` |
| Interface.NonFlagIsSkipped | valutatrade_hub/cli/interface.py:27-28 | a token that is not a flag is skipped |
| Interface.ShiftedParse | valutatrade_hub/cli/interface.py:16-29 | parsing from an offset depends only on the tokens from there |
| Interface.ClosedPrefixParse | valutatrade_hub/cli/interface.py:16-29 | a prefix that ends on a token boundary can be parsed first and the rest after |
| Interface.LastValueWins | valutatrade_hub/cli/interface.py:22-25 | a repeated key keeps the last value |
| Interface.KeysComeFromFlags | valutatrade_hub/cli/interface.py:16-29 | every key is some `--` token without its prefix, and every value is `""` or one of the tokens |

## Left out

- Background scheduling is not modelled (`parser_service/scheduler.py`): it is a thread and a timer.
- Logging is not modelled (`logging_config.py`, the `log_action` decorator): it has no effect on state.
- Settings loading is not modelled (`infra/settings.py`). The TTL is a constructor parameter, and the base currency
  is the constant `USD`.
- File I/O is not modelled. `infra/database.py` reads and writes JSON files through a temporary file; here the
  database is four in-memory fields that `load_*` read and `save_*` replace.
- HTTP is not modelled. `requests.get` and `.json()` are replaced by the `HttpOutcome` parameter, and the
  timeout and network exceptions become its transport-failure case.
- The clock, `secrets.token_hex`, SHA-256 and `datetime.fromisoformat` are parameters, so their own behaviour is
  not modelled.
- `utcnow_iso` and `generate_salt` are not modelled: they only read the clock and the random source.
- The text of results is not modelled. `PrettyTable`, f-string formatting and the messages are replaced by
  structured replies carrying the same values.
- The CLI `main` loop (reading commands and printing) is not modelled; only `_parse_kwargs` is.
- Floating point is modelled as `real`: rounding and float formatting are not captured.
- `float(...)` of a numeric string is not modelled: only JSON numbers count as numbers.
- `str()` of a non-string `updated_at` is not modelled.
- Only ASCII letters are upper- and lower-cased (`upper()` on codes, `lower()` on the update source name). Whitespace for `strip` is Python's `str.isspace` set.
- Dictionary order is not modelled. Stored pairs and wallets are maps, and `show_rates` sorting is stable, so rows
  with equal rates may come out in a different order than in Python.
- The `Wallet`/`Portfolio` source is not part of this model; their contract is the assumption listed above.
- UseCases.CoreUseCases.Buy: the functional result is stated only when the stored rows are in canonical form
  (`Valid`), which `register` and `_save_portfolio` maintain. For other row shapes only "nothing else changes" is
  stated.
- UseCases.CoreUseCases.Sell: as for `Buy`, the functional result is stated only under `Valid`.
- UseCases.CoreUseCases.ShowPortfolio: the listed view is stated only under `Valid`. For other rows the loading
  loop's own contract still holds.
- Models.User.VerifyPassword: states only the "true implies hashes match" direction. The converse follows from the
  definition, and `ChangePassword` states it for the password just set.
- Updater.RatesUpdater.RunUpdate: the refresh timestamp is a parameter (the updater's clock reading). The stored
  `last_refresh` is a separate parameter, the storage's clock reading.
