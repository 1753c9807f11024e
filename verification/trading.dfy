/** What `buy` and `sell` do to a user's balances (valutatrade_hub/core/usecases.py),
    stated on values. `CoreUseCases.Buy` and `CoreUseCases.Sell` are proved
    to store exactly these results. */
module Trading {
  import opened Errors

  /** Wallet balances by currency code. */
  type Balances = map<string, real>

  /** The base currency every trade is settled in. */
  const Base := "USD"

  /** The balance of `code`, zero when there is no wallet yet. */
  function BalanceOf(b: Balances, code: string): real {
    if code in b then b[code] else 0.0
  }

  /** `get_wallet(code)`, falling back to `add_currency(code)`: a new wallet
      starts at zero. */
  function EnsureWallet(b: Balances, code: string): (r: Balances)
    ensures r.Keys == b.Keys + {code}
    ensures r[code] == BalanceOf(b, code)
    ensures forall k | k in b :: r[k] == b[k]
  {
    if code in b then b else b[code := 0.0]
  }

  /** `Wallet.deposit(amount)`. */
  function Deposit(b: Balances, code: string, amount: real): (r: Balances)
    requires code in b
    ensures r.Keys == b.Keys && r[code] == b[code] + amount
    ensures forall k | k in b && k != code :: r[k] == b[k]
  {
    b[code := b[code] + amount]
  }

  /** `Wallet.withdraw(amount)`: fails with `InsufficientFundsError` exactly
      when the amount exceeds the balance. */
  function Withdraw(b: Balances, code: string, amount: real): (r: Result<Balances>)
    requires code in b
    ensures r.Err? <==> amount > b[code]
    ensures r.Err? ==> r.error == InsufficientFunds(b[code], amount, code)
    ensures r.Ok? ==> r.value.Keys == b.Keys && r.value[code] == b[code] - amount
    ensures r.Ok? ==> forall k | k in b && k != code :: r.value[k] == b[k]
  {
    if amount > b[code] then Err(InsufficientFunds(b[code], amount, code))
    else Ok(b[code := b[code] - amount])
  }

  /** `amount` units at `rate`: what a trade moves in the other currency. */
  function Convert(amount: real, rate: real): real {
    amount * rate
  }

  /** `buy(code, amount)` once the code and the amount are validated, with
      `rate` the cached `code`→USD rate (not consulted for USD itself). */
  function Buy(b: Balances, code: string, amount: real, rate: Option<real>): Result<Balances>
  {
    var b1 := EnsureWallet(b, code);
    if code == Base then Ok(Deposit(b1, code, amount))
    else
      var b2 := EnsureWallet(b1, Base);
      if rate.None? then Err(ApiRequest(RateUnavailable(code, Base)))
      else
        var b3 :- Withdraw(b2, Base, Convert(amount, rate.value));
        Ok(Deposit(b3, code, amount))
  }

  /** `sell(code, amount)` once the code and the amount are validated: `None`
      when there is no wallet for `code` (nothing is saved). */
  function Sell(b: Balances, code: string, amount: real, rate: Option<real>): Result<Option<Balances>>
  {
    if code !in b then Ok(None)
    else if code == Base then
      var b1 :- Withdraw(b, code, amount);
      Ok(Some(b1))
    else
      var b2 := EnsureWallet(b, Base);
      if rate.None? then Err(ApiRequest(RateUnavailable(code, Base)))
      else
        var b3 :- Withdraw(b2, code, amount);
        Ok(Some(Deposit(b3, Base, Convert(amount, rate.value))))
  }

  /** Every balance is non-negative. */
  predicate NonNegative(b: Balances) {
    forall k | k in b :: b[k] >= 0.0
  }

  /** The worth of the traded wallet and the USD wallet together, at `rate`. */
  function Worth(b: Balances, code: string, rate: real): real {
    BalanceOf(b, Base) + BalanceOf(b, code) * rate
  }

  // ---------------------------------------------------------------------
  // Properties

  /** What a purchase does: buying USD is a plain deposit; any other
      currency debits its cost in USD (failing when USD does not cover it)
      and only then credits the amount. Other wallets are untouched. */
  lemma BuyEffect(b: Balances, code: string, amount: real, rate: Option<real>)
    // Buying USD is a plain deposit.
    ensures code == Base ==> Buy(b, code, amount, rate) == Ok(EnsureWallet(b, Base)[Base := BalanceOf(b, Base) + amount])
    // Otherwise the cost is debited from USD, and fails when USD does not cover it ...
    ensures code != Base && rate.None? ==> Buy(b, code, amount, rate) == Err(ApiRequest(RateUnavailable(code, Base)))
    ensures code != Base && rate.Some? ==>
      (Buy(b, code, amount, rate).Err? <==> amount * rate.value > BalanceOf(b, Base))
    ensures code != Base && Buy(b, code, amount, rate).Err? && rate.Some? ==>
      Buy(b, code, amount, rate).error == InsufficientFunds(BalanceOf(b, Base), amount * rate.value, Base)
    // ... and only then is the amount credited.
    ensures code != Base && Buy(b, code, amount, rate).Ok? ==>
      && rate.Some?
      && Buy(b, code, amount, rate).value.Keys == b.Keys + {code, Base}
      && Buy(b, code, amount, rate).value[Base] == BalanceOf(b, Base) - amount * rate.value
      && Buy(b, code, amount, rate).value[code] == BalanceOf(b, code) + amount
    ensures Buy(b, code, amount, rate).Ok? ==> forall k | k in b && k != code && k != Base :: Buy(b, code, amount, rate).value[k] == b[k]
  {
  }

  /** What a sale does: nothing without a wallet; selling USD is a plain
      withdrawal; any other currency is debited first (failing when the wallet
      does not cover it) and only then is USD credited with the proceeds. */
  lemma SellEffect(b: Balances, code: string, amount: real, rate: Option<real>)
    ensures code !in b <==> Sell(b, code, amount, rate) == Ok(None)
    // Selling USD is a plain withdrawal.
    ensures code in b && code == Base ==>
      Sell(b, code, amount, rate) == (if amount > b[Base] then Err(InsufficientFunds(b[Base], amount, Base))
            else Ok(Some(b[Base := b[Base] - amount])))
    ensures code in b && code != Base && rate.None? ==> Sell(b, code, amount, rate) == Err(ApiRequest(RateUnavailable(code, Base)))
    // Otherwise the wallet is debited first, and only then is USD credited.
    ensures code in b && code != Base && rate.Some? ==>
      (Sell(b, code, amount, rate).Err? <==> amount > b[code])
    ensures code in b && code != Base && rate.Some? && Sell(b, code, amount, rate).Err? ==>
      Sell(b, code, amount, rate).error == InsufficientFunds(b[code], amount, code)
    ensures code != Base && Sell(b, code, amount, rate).Ok? && Sell(b, code, amount, rate).value.Some? ==>
      && rate.Some?
      && Sell(b, code, amount, rate).value.value.Keys == b.Keys + {Base}
      && Sell(b, code, amount, rate).value.value[code] == b[code] - amount
      && Sell(b, code, amount, rate).value.value[Base] == BalanceOf(b, Base) + amount * rate.value
    ensures Sell(b, code, amount, rate).Ok? && Sell(b, code, amount, rate).value.Some? ==> forall k | k in b && k != code && k != Base :: Sell(b, code, amount, rate).value.value[k] == b[k]
  {
  }

  /** Buying and then selling the same amount at the same rate gives every
      wallet back its balance (new wallets stay, at zero). */
  lemma BuyThenSellRestores(b: Balances, code: string, amount: real, rate: real)
    requires BalanceOf(b, code) >= 0.0
    requires code != Base && Buy(b, code, amount, Some(rate)).Ok?
    ensures var b1 := Buy(b, code, amount, Some(rate)).value;
      Sell(b1, code, amount, Some(rate)) == Ok(Some(EnsureWallet(EnsureWallet(b, code), Base)))
  {
    BuyEffect(b, code, amount, Some(rate));
    var b1 := Buy(b, code, amount, Some(rate)).value;
    SellEffect(b1, code, amount, Some(rate));
    var r := Sell(b1, code, amount, Some(rate));
    assert r.Ok? && r.value.Some?;
    var expected := EnsureWallet(EnsureWallet(b, code), Base);
    assert r.value.value.Keys == expected.Keys;
    forall k | k in expected
      ensures r.value.value[k] == expected[k]
    {
    }
    assert r.value.value == expected;
  }

  /** Selling and then buying back the same amount at the same rate restores
      every balance, when USD covers the purchase. */
  lemma SellThenBuyRestores(b: Balances, code: string, amount: real, rate: real)
    requires BalanceOf(b, Base) >= 0.0
    requires code != Base && Sell(b, code, amount, Some(rate)).Ok?
    requires Sell(b, code, amount, Some(rate)).value.Some?
    ensures var b1 := Sell(b, code, amount, Some(rate)).value.value;
      Buy(b1, code, amount, Some(rate)) == Ok(EnsureWallet(b, Base))
  {
    SellEffect(b, code, amount, Some(rate));
    var b1 := Sell(b, code, amount, Some(rate)).value.value;
    BuyEffect(b1, code, amount, Some(rate));
    var r := Buy(b1, code, amount, Some(rate));
    assert r.Ok?;
    var expected := EnsureWallet(b, Base);
    assert r.value.Keys == expected.Keys;
    forall k | k in expected
      ensures r.value[k] == expected[k]
    {
    }
    assert r.value == expected;
  }

  /** A trade at the quoted rate keeps the combined worth of the two wallets. */
  lemma TradesKeepWorth(b: Balances, code: string, amount: real, rate: real)
    requires code != Base
    ensures Buy(b, code, amount, Some(rate)).Ok? ==>
      Worth(Buy(b, code, amount, Some(rate)).value, code, rate) == Worth(b, code, rate)
    ensures Sell(b, code, amount, Some(rate)).Ok? && Sell(b, code, amount, Some(rate)).value.Some? ==>
      Worth(Sell(b, code, amount, Some(rate)).value.value, code, rate) == Worth(b, code, rate)
  {
  }

  /** Trades never drive a balance below zero, given a positive amount and a
      non-negative rate. */
  lemma TradesKeepNonNegative(b: Balances, code: string, amount: real, rate: Option<real>)
    requires NonNegative(b) && amount > 0.0
    requires rate.Some? ==> rate.value >= 0.0
    ensures Buy(b, code, amount, rate).Ok? ==> NonNegative(Buy(b, code, amount, rate).value)
    ensures Sell(b, code, amount, rate).Ok? && Sell(b, code, amount, rate).value.Some? ==>
      NonNegative(Sell(b, code, amount, rate).value.value)
  {
    if rate.Some? && code != Base {
      assert amount * rate.value >= 0.0;
    }
  }
}
