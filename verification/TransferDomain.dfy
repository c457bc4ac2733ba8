/** The transfer aggregate and its status changes. */
module TransferDomain {
  import opened Wrappers
  import opened Events

  datatype Status = Pending | HasCompleted | HasFailed

  /** The value of a transfer. */
  datatype TransferData = TransferData(
    id: TransferId, key: Key, source: AccountId, dest: AccountId, amount: real, currency: Currency,
    status: Status, reason: Reason, version: int)

  function StatusOf(event: Outcome): Status {
    if event.Completed? then HasCompleted else HasFailed
  }

  /** MarkCompleted or MarkFailed: no guard on the current status, and a completion keeps an old reason. */
  function Marked(t: TransferData, event: Outcome): TransferData {
    t.(status := StatusOf(event),
       reason := if event.Failed? then event.reason else t.reason,
       version := t.version + 1)
  }

  /** What NewTransfer demands. */
  predicate Acceptable(source: AccountId, dest: AccountId, amount: real) {
    amount > 0.0 && source != dest
  }

  datatype DomainError = InvalidTransferAmount | SameAccount

  class Transfer {
    const id: TransferId
    const key: Key
    const source: AccountId
    const dest: AccountId
    const amount: real
    const currency: Currency
    var status: Status
    var reason: Reason
    var version: int

    function Value(): TransferData
      reads this
    {
      TransferData(id, key, source, dest, amount, currency, status, reason, version)
    }

    constructor Of(t: TransferData)
      ensures Value() == t
    {
      id, key, source, dest, amount, currency := t.id, t.key, t.source, t.dest, t.amount, t.currency;
      status, reason, version := t.status, t.reason, t.version;
    }

    method MarkCompleted()
      modifies this
      ensures Value() == Marked(old(Value()), Completed(id))
      ensures status == HasCompleted && reason == old(reason) && version == old(version) + 1
    {
      status := HasCompleted;
      version := version + 1;
    }

    method MarkFailed(reason: Reason)
      modifies this
      ensures Value() == Marked(old(Value()), Failed(id, reason))
      ensures status == HasFailed && this.reason == reason && version == old(version) + 1
    {
      status := HasFailed;
      this.reason := reason;
      version := version + 1;
    }
  }

  /** NewTransfer; `id` is the identifier that uuid.New supplies. */
  method NewTransfer(id: TransferId, key: Key, source: AccountId, dest: AccountId, amount: real, currency: Currency)
    returns (r: Result<Transfer, DomainError>)
    ensures r.Ok? <==> amount > 0.0 && source != dest
    ensures r.Ok? ==> fresh(r.value)
                      && r.value.Value() == TransferData(id, key, source, dest, amount, currency, Pending, NoReason, 1)
    ensures r.Err? ==> r.error == if amount <= 0.0 then InvalidTransferAmount else SameAccount
  {
    if amount <= 0.0 {
      return Err(InvalidTransferAmount);
    }
    if source == dest {
      return Err(SameAccount);
    }
    var t := new Transfer.Of(TransferData(id, key, source, dest, amount, currency, Pending, NoReason, 1));
    return Ok(t);
  }
}
