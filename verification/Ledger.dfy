/** The account service as a transition system: any number of transfer requests in flight at once,
    each advancing one database call at a time, beside account creation and the outbox relay. */
module Ledger {
  import opened Wrappers
  import opened Money
  import opened Events
  import opened AccountDomain
  import opened AccountTable
  import Outbox

  /** What an attempt has made persistent. */
  datatype Effect = DebitWritten | CreditWritten | Saved(event: Outcome)

  /** The next database call of an attempt, with the account copies it holds in memory.
      From AtWriteSource on the copies already carry the debit and the credit. */
  datatype Pc =
    | AtReadSource
    | AtReadDest(source: Snapshot)
    | AtWriteSource(source: Snapshot, dest: Snapshot)
    | AtWriteDest(dest: Snapshot)
    | AtSave(event: Outcome)
    | Done(ok: bool)

  /** One delivery of a request record.  Attempts are kept when they end; one that is never scheduled
      again has crashed. */
  datatype Attempt = Attempt(request: Request, pc: Pc, effects: seq<Effect>)

  datatype State = State(accounts: Rows, opening: Rows, attempts: seq<Attempt>, outbox: Outbox.State<Outcome>)

  datatype Step =
    | Open(id: AccountId, currency: Currency, initial: real, reply: Reply)
    | Begin(request: Request)
    | Proceed(attempt: nat, reply: Reply)
    | Relay(step: Outbox.Step)

  function Init(accounts: Rows): State {
    State(accounts, accounts, [], Outbox.Empty())
  }

  function Refuse(t: Attempt, reason: Reason): Attempt {
    t.(pc := AtSave(Failed(t.request.transfer, reason)))
  }

  function SourceRead(rows: Rows, t: Attempt, reply: Reply): Attempt {
    if reply.Acked? && t.request.source in rows then t.(pc := AtReadDest(Load(rows[t.request.source])))
    else Refuse(t, SourceNotFound)
  }

  /** The destination read, and the two in-memory operations that follow it. */
  function DestRead(rows: Rows, t: Attempt, source: Snapshot, reply: Reply): Attempt {
    var r := t.request;
    if !(reply.Acked? && r.dest in rows) then Refuse(t, DestNotFound)
    else
      var dest := Load(rows[r.dest]);
      var debit, credit := DebitRefusal(source, r.amount, r.currency), CreditRefusal(dest, r.amount, r.currency);
      if debit != NoReason then Refuse(t, debit)
      else if credit != NoReason then Refuse(t, credit)
      else t.(pc := AtWriteSource(Moved(source, -r.amount), Moved(dest, r.amount)))
  }

  /** The bookkeeping of a conditional write: recorded if it landed, and `next` only if it was acknowledged. */
  function Wrote(rows: Rows, t: Attempt, id: AccountId, a: Snapshot, reply: Reply, effect: Effect, next: Pc): Attempt {
    t.(pc := if UpdateAcked(rows, id, a, reply) then next else Done(false),
       effects := if !reply.Refused? && Current(rows, id, a) then t.effects + [effect] else t.effects)
  }

  /** The next database call of attempt `i`. */
  function ProceedWith(s: State, i: nat, reply: Reply): State
    requires i < |s.attempts|
  {
    var t := s.attempts[i];
    match t.pc
    case AtReadSource => s.(attempts := s.attempts[i := SourceRead(s.accounts, t, reply)])
    case AtReadDest(source) => s.(attempts := s.attempts[i := DestRead(s.accounts, t, source, reply)])
    case AtWriteSource(source, dest) =>
      s.(accounts := Updated(s.accounts, t.request.source, source, reply),
         attempts := s.attempts[i := Wrote(s.accounts, t, t.request.source, source, reply, DebitWritten, AtWriteDest(dest))])
    case AtWriteDest(dest) =>
      s.(accounts := Updated(s.accounts, t.request.dest, dest, reply),
         attempts := s.attempts[i := Wrote(s.accounts, t, t.request.dest, dest, reply, CreditWritten,
                                           AtSave(Completed(t.request.transfer)))])
    case AtSave(event) =>
      s.(outbox := Outbox.Save(s.outbox, event, reply),
         attempts := s.attempts[i := t.(pc := Done(reply.Acked?),
                                        effects := if reply.Refused? then t.effects else t.effects + [Saved(event)])])
    case Done(_) => s
  }

  function Next(s: State, step: Step): State {
    match step
    case Open(id, currency, initial, reply) =>
      if initial < 0.0 then s
      else
        var a := Snapshot(initial, currency, Active, 1);
        s.(accounts := Inserted(s.accounts, id, a, reply), opening := Inserted(s.opening, id, a, reply))
    case Begin(request) => s.(attempts := s.attempts + [Attempt(request, AtReadSource, [])])
    case Proceed(i, reply) => if i < |s.attempts| then ProceedWith(s, i, reply) else s
    case Relay(step) => s.(outbox := Outbox.Next(s.outbox, step))
  }

  function Run(s: State, steps: seq<Step>): State {
    if steps == [] then s else Next(Run(s, steps[..|steps| - 1]), steps[|steps| - 1])
  }

  lemma RunNext(s: State, steps: seq<Step>, step: Step)
    ensures Run(s, steps + [step]) == Next(Run(s, steps), step)
  {
    assert (steps + [step])[..|steps|] == steps;
  }

  // ---------- accounting of the persistent effects ----------

  /** What the landed writes of `t` are worth to account `id`. */
  function Delta(t: Attempt, id: AccountId): int {
    (if CreditWritten in t.effects && t.request.dest == id then CreditUnits(t.request.amount) else 0)
    - (if DebitWritten in t.effects && t.request.source == id then DebitUnits(t.request.amount) else 0)
  }

  function DeltaOf(id: AccountId): Attempt -> int {
    (t: Attempt) => Delta(t, id)
  }

  /** How many landed writes of `t` went to account `id`. */
  function WritesOf(id: AccountId): Attempt -> int {
    (t: Attempt) =>
      (if CreditWritten in t.effects && t.request.dest == id then 1 else 0)
      + (if DebitWritten in t.effects && t.request.source == id then 1 else 0)
  }

  /** Units of `currency` that `t` has taken from its source and not given to its destination. */
  function Outstanding(t: Attempt, currency: Currency): int {
    if t.request.currency != currency then 0
    else
      (if DebitWritten in t.effects then DebitUnits(t.request.amount) else 0)
      - (if CreditWritten in t.effects then CreditUnits(t.request.amount) else 0)
  }

  function OutstandingOf(currency: Currency): Attempt -> int {
    (t: Attempt) => Outstanding(t, currency)
  }

  /** The sum of the balances held in `currency`. */
  ghost function Total(rows: Rows, currency: Currency): int
    decreases |rows|
  {
    if rows == map[] then 0
    else
      var id :| id in rows;
      Share(rows[id], currency) + Total(rows - {id}, currency)
  }

  function Share(row: Row, currency: Currency): int {
    if row.currency == currency then row.balance else 0
  }

  /** The effects of an attempt that goes all the way. */
  function Success(request: Request): seq<Effect> {
    [DebitWritten, CreditWritten, Saved(Completed(request.transfer))]
  }

  /** Either one failure event and no balance write, or a beginning of debit, credit, completed event. */
  ghost predicate Disciplined(t: Attempt) {
    || t.effects <= Success(t.request)
    || exists reason :: reason != NoReason && t.effects == [Saved(Failed(t.request.transfer, reason))]
  }
}
