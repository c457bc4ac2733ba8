/** The account aggregate: its guards, its arithmetic, its version counter. */
module AccountDomain {
  import opened Wrappers
  import opened Events

  datatype Status = Active | Inactive | Frozen

  /** The value of an account in memory: the balance is an exact decimal. */
  datatype Snapshot = Snapshot(balance: real, currency: Currency, status: Status, version: int)

  /** The first guard that `Debit` finds violated, or NoReason. */
  function DebitRefusal(a: Snapshot, amount: real, currency: Currency): (r: Reason)
    ensures r.NoReason? <==> amount > 0.0 && a.status != Frozen && a.currency == currency && amount <= a.balance
    ensures r.InvalidAmount? <==> amount <= 0.0
    ensures r.AccountFrozen? <==> amount > 0.0 && a.status == Frozen
    ensures r.CurrencyMismatch? <==> amount > 0.0 && a.status != Frozen && a.currency != currency
    ensures r.InsufficientFunds? <==>
              amount > 0.0 && a.status != Frozen && a.currency == currency && a.balance < amount
  {
    if amount <= 0.0 then InvalidAmount
    else if a.status == Frozen then AccountFrozen
    else if a.currency != currency then CurrencyMismatch
    else if a.balance < amount then InsufficientFunds
    else NoReason
  }

  /** The first guard that `Credit` finds violated, or NoReason. */
  function CreditRefusal(a: Snapshot, amount: real, currency: Currency): (r: Reason)
    ensures r.NoReason? <==> amount > 0.0 && a.status != Frozen && a.currency == currency
    ensures r.InvalidAmount? <==> amount <= 0.0
    ensures r.AccountFrozen? <==> amount > 0.0 && a.status == Frozen
    ensures r.CurrencyMismatch? <==> amount > 0.0 && a.status != Frozen && a.currency != currency
  {
    if amount <= 0.0 then InvalidAmount
    else if a.status == Frozen then AccountFrozen
    else if a.currency != currency then CurrencyMismatch
    else NoReason
  }

  /** `a` after one accepted change of its balance. */
  function Moved(a: Snapshot, delta: real): Snapshot {
    a.(balance := a.balance + delta, version := a.version + 1)
  }

  /** An account object, updated in place by its two operations. */
  class Account {
    const id: AccountId
    var balance: real
    const currency: Currency
    const status: Status
    var version: int

    function Value(): Snapshot
      reads this
    {
      Snapshot(balance, currency, status, version)
    }

    constructor Of(id: AccountId, a: Snapshot)
      ensures this.id == id && Value() == a
    {
      this.id := id;
      this.balance := a.balance;
      this.currency := a.currency;
      this.status := a.status;
      this.version := a.version;
    }

    method Debit(amount: real, currency: Currency) returns (refusal: Reason)
      modifies this
      ensures refusal == DebitRefusal(old(Value()), amount, currency)
      ensures Value() == if refusal.NoReason? then Moved(old(Value()), -amount) else old(Value())
      ensures refusal.NoReason? ==> balance == old(balance) - amount >= 0.0 && version == old(version) + 1
      ensures !refusal.NoReason? ==> balance == old(balance) && version == old(version)
    {
      if amount <= 0.0 {
        return InvalidAmount;
      }
      if status == Frozen {
        return AccountFrozen;
      }
      if this.currency != currency {
        return CurrencyMismatch;
      }
      if balance < amount {
        return InsufficientFunds;
      }
      balance := balance - amount;
      version := version + 1;
      return NoReason;
    }

    method Credit(amount: real, currency: Currency) returns (refusal: Reason)
      modifies this
      ensures refusal == CreditRefusal(old(Value()), amount, currency)
      ensures Value() == if refusal.NoReason? then Moved(old(Value()), amount) else old(Value())
      ensures refusal.NoReason? ==> balance == old(balance) + amount && version == old(version) + 1
      ensures !refusal.NoReason? ==> balance == old(balance) && version == old(version)
    {
      if amount <= 0.0 {
        return InvalidAmount;
      }
      if status == Frozen {
        return AccountFrozen;
      }
      if this.currency != currency {
        return CurrencyMismatch;
      }
      balance := balance + amount;
      version := version + 1;
      return NoReason;
    }
  }

  /** NewAccount: an active account of version 1, or nothing when the opening balance is negative.
      `id` is the identifier that uuid.New supplies. */
  method NewAccount(id: AccountId, currency: Currency, initial: real) returns (r: Option<Account>)
    ensures r.Some? <==> initial >= 0.0
    ensures r.Some? ==> fresh(r.value) && r.value.id == id && r.value.Value() == Snapshot(initial, currency, Active, 1)
  {
    if initial < 0.0 {
      return None;
    }
    var a := new Account.Of(id, Snapshot(initial, currency, Active, 1));
    return Some(a);
  }
}
