/** The transfer service as a transition system: concurrent CreateTransfer calls, outcome handlers, cache
    expiry and the outbox relay, each advancing one remote call at a time. */
module TransferStore {
  import opened Wrappers
  import opened Events
  import opened TransferDomain
  import opened TransferTable
  import Outbox

  /** The next remote call of a CreateTransfer call, or how it ended. */
  datatype CallPc = AtCache | AtLookup | AtInsert | AtSave | AtFill | Replied(transfer: TransferData) | Rejected

  /** A CreateTransfer call; `id` is what uuid.New gives it. */
  datatype Call = Call(
    key: Key, source: AccountId, dest: AccountId, amount: real, currency: Currency, id: TransferId, pc: CallPc)

  datatype HandlerPc = AtFetch | AtUpdate(transfer: TransferData) | Ended(ok: bool)

  /** The handling of one outcome record; `won` is the version it wrote, if its update landed. */
  datatype Handler = Handler(event: Outcome, pc: HandlerPc, won: Option<int>)

  datatype State = State(
    rows: Rows, outbox: Outbox.State<Request>, cache: map<Key, TransferData>, calls: seq<Call>, handlers: seq<Handler>)

  datatype Step =
    | Submit(key: Key, source: AccountId, dest: AccountId, amount: real, currency: Currency, id: TransferId)
    | Advance(call: nat, reply: Reply)
    | Expire(key: Key)
    | Deliver(event: Outcome)
    | Handle(handler: nat, reply: Reply)
    | Relay(step: Outbox.Step)

  function Init(): State {
    State(map[], Outbox.Empty(), map[], [], [])
  }

  function Draft(c: Call): TransferData {
    TransferData(c.id, c.key, c.source, c.dest, c.amount, c.currency, Pending, NoReason, 1)
  }

  function EventOf(c: Call): Request {
    Request(c.id, c.source, c.dest, c.amount, c.currency)
  }

  ghost predicate FreshId(s: State, id: TransferId) {
    id !in s.rows && forall i :: 0 <= i < |s.calls| ==> s.calls[i].id != id
  }

  ghost function AfterLookup(s: State, c: Call, reply: Reply): CallPc {
    if !reply.Acked? then Rejected
    else
      var existing := ByKey(s.rows, c.key);
      if existing.Some? then Replied(existing.value)
      else if Acceptable(c.source, c.dest, c.amount) then AtInsert
      else Rejected
  }

  /** The next remote call of CreateTransfer call `i`.  A failing or undecodable cache answer is a miss, and
      a failing cache write is ignored. */
  ghost function AdvanceWith(s: State, i: nat, reply: Reply): State
    requires i < |s.calls|
  {
    var c := s.calls[i];
    match c.pc
    case AtCache =>
      s.(calls := s.calls[i := c.(pc := if reply.Acked? && c.key in s.cache then Replied(s.cache[c.key]) else AtLookup)])
    case AtLookup => s.(calls := s.calls[i := c.(pc := AfterLookup(s, c, reply))])
    case AtInsert =>
      s.(rows := Inserted(s.rows, Draft(c), reply),
         calls := s.calls[i := c.(pc := if InsertAcked(s.rows, Draft(c), reply) then AtSave else Rejected)])
    case AtSave =>
      s.(outbox := Outbox.Save(s.outbox, EventOf(c), reply),
         calls := s.calls[i := c.(pc := if reply.Acked? then AtFill else Rejected)])
    case AtFill =>
      s.(cache := if reply.Refused? then s.cache else s.cache[c.key := Draft(c)],
         calls := s.calls[i := c.(pc := Replied(Draft(c)))])
    case Replied(_) => s
    case Rejected => s
  }

  /** The next remote call of outcome handler `i`. */
  function HandleWith(s: State, i: nat, reply: Reply): State
    requires i < |s.handlers|
  {
    var h := s.handlers[i];
    match h.pc
    case AtFetch =>
      var pc := if reply.Acked? && h.event.transfer in s.rows then AtUpdate(Marked(s.rows[h.event.transfer], h.event))
                else Ended(false);
      s.(handlers := s.handlers[i := h.(pc := pc)])
    case AtUpdate(t) =>
      s.(rows := Updated(s.rows, t, reply),
         handlers := s.handlers[i := Handler(h.event, Ended(UpdateAcked(s.rows, t, reply)),
                                             if !reply.Refused? && Current(s.rows, t) then Some(t.version) else None)])
    case Ended(_) => s
  }

  ghost function Next(s: State, step: Step): State {
    match step
    case Submit(key, source, dest, amount, currency, id) =>
      if FreshId(s, id) then s.(calls := s.calls + [Call(key, source, dest, amount, currency, id, AtCache)]) else s
    case Advance(i, reply) => if i < |s.calls| then AdvanceWith(s, i, reply) else s
    case Expire(key) => s.(cache := s.cache - {key})
    case Deliver(event) => s.(handlers := s.handlers + [Handler(event, AtFetch, None)])
    case Handle(i, reply) => if i < |s.handlers| then HandleWith(s, i, reply) else s
    case Relay(step) => s.(outbox := Outbox.Next(s.outbox, step))
  }

  ghost function Run(s: State, steps: seq<Step>): State {
    if steps == [] then s else Next(Run(s, steps[..|steps| - 1]), steps[|steps| - 1])
  }

  lemma RunNext(s: State, steps: seq<Step>, step: Step)
    ensures Run(s, steps + [step]) == Next(Run(s, steps), step)
  {
    assert (steps + [step])[..|steps|] == steps;
  }

  /** An event for transfer `id` is in the outbox. */
  ghost predicate HasEvent(s: State, id: TransferId) {
    exists j :: 0 <= j < |s.outbox.rows| && s.outbox.rows[j].event.transfer == id
  }
}
