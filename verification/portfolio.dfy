/** `Wallet` and `Portfolio`, imported by valutatrade_hub/core/usecases.py
    from the models module. Their code is not part of this model: the
    contract below is the one `buy`, `sell` and `show_portfolio` rely on. */
module Portfolios {
  import opened Errors
  import Trading

  /** One balance in one currency. */
  class Wallet {
    const currencyCode: string
    var balance: real

    constructor(currencyCode: string, balance: real)
      ensures this.currencyCode == currencyCode && this.balance == balance
    {
      this.currencyCode := currencyCode;
      this.balance := balance;
    }

    /** `deposit(amount)`: the balance grows by `amount`. */
    method Deposit(amount: real)
      modifies this
      ensures balance == old(balance) + amount
    {
      balance := balance + amount;
    }

    /** `withdraw(amount)`: raises `InsufficientFundsError` (nothing changes)
        exactly when the amount exceeds the balance; otherwise the balance
        shrinks by `amount`. */
    method Withdraw(amount: real) returns (o: Outcome)
      modifies this
      ensures o.Fail? <==> amount > old(balance)
      ensures o.Fail? ==> o.error == InsufficientFunds(old(balance), amount, currencyCode)
      ensures o.Fail? ==> balance == old(balance)
      ensures o.Pass? ==> balance == old(balance) - amount
    {
      if amount > balance {
        return Fail(InsufficientFunds(balance, amount, currencyCode));
      }
      balance := balance - amount;
      return Pass;
    }
  }

  /** A user's wallets, keyed by currency code. */
  class Portfolio {
    const userId: int
    var wallets: map<string, Wallet>

    /** Every wallet sits under its own code, so distinct codes hold distinct
        wallet objects. */
    ghost predicate Valid()
      reads this, wallets.Values
    {
      forall k | k in wallets :: wallets[k].currencyCode == k
    }

    /** The balances, by code. */
    function Balances(): (r: Trading.Balances)
      reads this, wallets.Values
      ensures r.Keys == wallets.Keys
    {
      map k | k in wallets :: wallets[k].balance
    }

    constructor(userId: int, wallets: map<string, Wallet>)
      ensures this.userId == userId && this.wallets == wallets
    {
      this.userId := userId;
      this.wallets := wallets;
    }

    /** `get_wallet(code)`: the wallet under `code`, or null. */
    function GetWallet(code: string): (w: Wallet?)
      reads this
      ensures w == null <==> code !in wallets
      ensures w != null ==> w == wallets[code]
    {
      if code in wallets then wallets[code] else null
    }

    /** `add_currency(code)`: a fresh wallet at zero under `code`. `buy` and
        `sell` call it only for a code that has no wallet. */
    method AddCurrency(code: string) returns (w: Wallet)
      requires code !in wallets && Valid()
      modifies this
      ensures fresh(w) && wallets == old(wallets)[code := w]
      ensures w.currencyCode == code && w.balance == 0.0
      ensures Valid() && Balances() == Trading.EnsureWallet(old(Balances()), code)
    {
      w := new Wallet(code, 0.0);
      wallets := wallets[code := w];
    }
  }

  /** `deposit(amount)` on the wallet `p` holds under `code`, seen from the
      portfolio's balances. */
  method DepositTo(p: Portfolio, code: string, amount: real)
    requires p.Valid() && code in p.wallets
    modifies {p.wallets[code]}
    ensures p.Valid() && p.wallets == old(p.wallets)
    ensures p.Balances() == Trading.Deposit(old(p.Balances()), code, amount)
  {
    var w := p.wallets[code];
    w.Deposit(amount);
  }

  /** `withdraw(amount)` on the wallet `p` holds under `code`, seen from the
      portfolio's balances: a failure changes nothing. */
  method WithdrawFrom(p: Portfolio, code: string, amount: real) returns (o: Outcome)
    requires p.Valid() && code in p.wallets
    modifies {p.wallets[code]}
    ensures p.Valid() && p.wallets == old(p.wallets)
    ensures Trading.Withdraw(old(p.Balances()), code, amount) == (if o.Fail? then Err(o.error) else Ok(p.Balances()))
  {
    var w := p.wallets[code];
    o := w.Withdraw(amount);
    assert p.Balances() == old(p.Balances())[code := w.balance];
  }
}
