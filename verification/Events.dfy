/** Names and events that both services share. */
module Events {

  type AccountId = nat
  type TransferId = nat
  type Currency = string
  type Key = string

  /** Why a transfer failed; the event carries the text of one of these. */
  datatype Reason =
    | NoReason
    | SourceNotFound
    | DestNotFound
    | InvalidAmount
    | AccountFrozen
    | CurrencyMismatch
    | InsufficientFunds

  /** A TransferRequestedEvent. */
  datatype Request = Request(transfer: TransferId, source: AccountId, dest: AccountId, amount: real, currency: Currency)

  /** A TransferCompletedEvent or a TransferFailedEvent. */
  datatype Outcome =
    | Completed(transfer: TransferId)
    | Failed(transfer: TransferId, reason: Reason)

  /** A record of the requested topic: its text may not decode, or a field may not parse. */
  datatype Record<+E> = Malformed | Decoded(event: E)
}
