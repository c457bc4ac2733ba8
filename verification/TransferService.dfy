/** The transfer service as sequential code over its repositories and its cache, refining the steps of the
    transfer store. */
module TransferService {
  import opened Wrappers
  import opened Events
  import opened TransferDomain
  import opened TransferTable
  import opened OutboxRelay
  import opened IdempotencyStore
  import opened Sums
  import T = TransferStore
  import I = TransferInvariant
  import TT = TransferTheorems
  import Outbox

  /** How the remote calls of one CreateTransfer end. */
  datatype CreateReplies = CreateReplies(cache: Reply, lookup: Reply, insert: Reply, save: Reply, fill: Reply)

  /** How the two database calls of one outcome record end. */
  datatype OutcomeReplies = OutcomeReplies(fetch: Reply, update: Reply)

  function ReplyFor(pc: T.CallPc, f: CreateReplies): Reply {
    match pc
    case AtCache => f.cache
    case AtLookup => f.lookup
    case AtInsert => f.insert
    case AtSave => f.save
    case AtFill => f.fill
    case Replied(_) => Acked
    case Rejected => Acked
  }

  ghost function Go(s: T.State, i: nat, f: CreateReplies): (s': T.State)
    requires i < |s.calls|
    ensures |s'.calls| == |s.calls|
  {
    T.Next(s, T.Advance(i, ReplyFor(s.calls[i].pc, f)))
  }

  /** One CreateTransfer taken from beginning to end with nothing in between. */
  ghost function Create(s: T.State, key: Key, source: AccountId, dest: AccountId, amount: real, currency: Currency,
                        id: TransferId, f: CreateReplies): T.State
    requires T.FreshId(s, id)
  {
    var i := |s.calls|;
    Go(Go(Go(Go(Go(T.Next(s, T.Submit(key, source, dest, amount, currency, id)), i, f), i, f), i, f), i, f), i, f)
  }

  /** How many remote calls can still follow. */
  function CallsLeft(pc: T.CallPc): nat {
    match pc
    case AtCache => 5
    case AtLookup => 4
    case AtInsert => 3
    case AtSave => 2
    case AtFill => 1
    case Replied(_) => 0
    case Rejected => 0
  }

  lemma Progress(s: T.State, i: nat, f: CreateReplies)
    requires i < |s.calls|
    ensures var was, now := CallsLeft(s.calls[i].pc), CallsLeft(Go(s, i, f).calls[i].pc);
            if was == 0 then now == 0 else now < was
  {
  }

  /** Five calls are enough, whatever fails. */
  lemma CreateFinishes(s: T.State, key: Key, source: AccountId, dest: AccountId, amount: real, currency: Currency,
                       id: TransferId, f: CreateReplies)
    requires T.FreshId(s, id)
    ensures CallsLeft(Create(s, key, source, dest, amount, currency, id, f).calls[|s.calls|].pc) == 0
  {
    var i := |s.calls|;
    var s1 := T.Next(s, T.Submit(key, source, dest, amount, currency, id));
    var s2 := Go(s1, i, f);
    var s3 := Go(s2, i, f);
    var s4 := Go(s3, i, f);
    var s5 := Go(s4, i, f);
    Progress(s1, i, f);
    Progress(s2, i, f);
    Progress(s3, i, f);
    Progress(s4, i, f);
    Progress(s5, i, f);
  }

  /** One outcome record taken from beginning to end with nothing in between. */
  ghost function HandleOutcome(s: T.State, event: Outcome, f: OutcomeReplies): T.State {
    var i := |s.handlers|;
    T.Next(T.Next(T.Next(s, T.Deliver(event)), T.Handle(i, f.fetch)), T.Handle(i, f.update))
  }

  lemma HandleOutcomeIsRun(s: T.State, event: Outcome, f: OutcomeReplies)
    ensures HandleOutcome(s, event, f)
            == T.Run(s, [T.Deliver(event), T.Handle(|s.handlers|, f.fetch), T.Handle(|s.handlers|, f.update)])
  {
    var a, b, c := T.Deliver(event), T.Handle(|s.handlers|, f.fetch), T.Handle(|s.handlers|, f.update);
    assert [] + [a] == [a] && [a] + [b] == [a, b] && [a, b] + [c] == [a, b, c];
    T.RunNext(s, [], a);
    T.RunNext(s, [a], b);
    T.RunNext(s, [a, b], c);
  }

  ghost function GoStep(s: T.State, i: nat, f: CreateReplies): T.Step
    requires i < |s.calls|
  {
    T.Advance(i, ReplyFor(s.calls[i].pc, f))
  }

  /** The steps that `calls` remote calls of CreateTransfer call `i` follow. */
  ghost function GoSteps(s: T.State, i: nat, f: CreateReplies, calls: nat): seq<T.Step>
    requires i < |s.calls|
  {
    if calls == 0 then []
    else GoSteps(s, i, f, calls - 1) + [GoStep(After(s, i, f, calls - 1), i, f)]
  }

  /** The state after `calls` remote calls of CreateTransfer call `i`. */
  ghost function After(s: T.State, i: nat, f: CreateReplies, calls: nat): (s': T.State)
    requires i < |s.calls|
    ensures |s'.calls| == |s.calls|
  {
    if calls == 0 then s else Go(After(s, i, f, calls - 1), i, f)
  }

  lemma {:induction false} AfterIsRun(s0: T.State, before: seq<T.Step>, s: T.State, i: nat, f: CreateReplies, calls: nat)
    requires T.Run(s0, before) == s && i < |s.calls|
    ensures After(s, i, f, calls) == T.Run(s0, before + GoSteps(s, i, f, calls))
  {
    if calls == 0 {
      assert before + [] == before;
    } else {
      AfterIsRun(s0, before, s, i, f, calls - 1);
      var mid := After(s, i, f, calls - 1);
      var steps, last := GoSteps(s, i, f, calls - 1), GoStep(mid, i, f);
      assert before + GoSteps(s, i, f, calls) == before + steps + [last];
      T.RunNext(s0, before + steps, last);
      assert Go(mid, i, f) == T.Next(mid, last);
    }
  }

  /** A CreateTransfer handled without interruption is one run of the transfer store, so every theorem about runs
      holds of it. */
  lemma CreateIsRun(s: T.State, key: Key, source: AccountId, dest: AccountId, amount: real, currency: Currency,
                    id: TransferId, f: CreateReplies)
    requires T.FreshId(s, id)
    ensures var submit := T.Submit(key, source, dest, amount, currency, id);
            Create(s, key, source, dest, amount, currency, id, f)
            == T.Run(s, [submit] + GoSteps(T.Next(s, submit), |s.calls|, f, 5))
  {
    var submit := T.Submit(key, source, dest, amount, currency, id);
    var i, s1 := |s.calls|, T.Next(s, submit);
    assert [] + [submit] == [submit];
    T.RunNext(s, [], submit);
    AfterIsRun(s, [submit], s1, i, f, 5);
    assert After(s1, i, f, 1) == Go(s1, i, f);
    assert After(s1, i, f, 3) == Go(Go(After(s1, i, f, 1), i, f), i, f);
    assert After(s1, i, f, 5) == Go(Go(After(s1, i, f, 3), i, f), i, f);
  }

  lemma ReplyIsFinal(s: T.State, i: nat, f: CreateReplies)
    requires i < |s.calls| && (s.calls[i].pc.Replied? || s.calls[i].pc == T.Rejected)
    ensures Go(s, i, f) == s
  {
  }

  /** `s` with one more call. */
  ghost function With(s: T.State, c: T.Call): T.State {
    s.(calls := s.calls + [c])
  }

  /** One remote call of the last CreateTransfer, which only moves on. */
  lemma Moves(s: T.State, c: T.Call, pc: T.CallPc, f: CreateReplies)
    requires T.AdvanceWith(With(s, c), |s.calls|, ReplyFor(c.pc, f))
             == With(s, c).(calls := With(s, c).calls[|s.calls| := c.(pc := pc)])
    ensures Go(With(s, c), |s.calls|, f) == With(s, c.(pc := pc))
  {
    assert (s.calls + [c])[|s.calls| := c.(pc := pc)] == s.calls + [c.(pc := pc)];
  }

  lemma Lookups(s: T.State, c: T.Call, f: CreateReplies)
    requires c.pc == T.AtCache
    ensures var hit := f.cache.Acked? && c.key in s.cache;
            && Go(With(s, c), |s.calls|, f) == With(s, c.(pc := if hit then T.Replied(s.cache[c.key]) else T.AtLookup))
            && Go(With(s, c.(pc := T.AtLookup)), |s.calls|, f) == With(s, c.(pc := T.AfterLookup(s, c, f.lookup)))
  {
    var hit := f.cache.Acked? && c.key in s.cache;
    Moves(s, c, if hit then T.Replied(s.cache[c.key]) else T.AtLookup, f);
    Moves(s, c.(pc := T.AtLookup), T.AfterLookup(s, c, f.lookup), f);
  }

  /** A finished call stays as it is. */
  lemma Rests(s: T.State, c: T.Call, f: CreateReplies)
    requires c.pc.Replied? || c.pc == T.Rejected
    ensures Go(With(s, c), |s.calls|, f) == With(s, c)
  {
    ReplyIsFinal(With(s, c), |s.calls|, f);
  }

  // ---------- transfers that are stored and never requested ----------

  lemma GoKeepsInv(s: T.State, i: nat, f: CreateReplies)
    requires I.Inv(s) && i < |s.calls|
    ensures I.Inv(Go(s, i, f))
  {
    I.NextKeepsInv(s, GoStep(s, i, f));
  }

  /** The insert and what follows it. */
  lemma FromInsert(s: T.State, i: nat, f: CreateReplies)
    requires I.Inv(s) && i < |s.calls| && s.calls[i].pc == T.AtInsert && !KeyTaken(s.rows, s.calls[i].key)
    ensures var s', id := Go(Go(Go(s, i, f), i, f), i, f), s.calls[i].id;
            && (id in s'.rows <==> !f.insert.Refused?)
            && (T.HasEvent(s', id) <==> f.insert.Acked? && !f.save.Refused?)
            && (TT.Orphan(s', id) <==> f.insert.Lost? || (f.insert.Acked? && f.save.Refused?))
  {
    var id := s.calls[i].id;
    assert I.CallOk(s, s.calls[i]);
    var s4 := Go(s, i, f);
    if f.insert.Acked? {
      GoKeepsInv(s, i, f);
      FromSave(s4, i, f);
    } else {
      ReplyIsFinal(s4, i, f);
      TT.InsertOrphans(s, i, f.insert);
      I.NoEventYet(s, id);
      I.SameEvents(s, s4);
    }
  }

  /** The save and what follows it. */
  lemma FromSave(s: T.State, i: nat, f: CreateReplies)
    requires I.Inv(s) && i < |s.calls| && s.calls[i].pc == T.AtSave
    ensures var s', id := Go(Go(s, i, f), i, f), s.calls[i].id;
            id in s'.rows && (T.HasEvent(s', id) <==> !f.save.Refused?) && (TT.Orphan(s', id) <==> f.save.Refused?)
  {
    var id := s.calls[i].id;
    assert I.CallOk(s, s.calls[i]);
    var s5 := Go(s, i, f);
    TT.SaveOrphans(s, i, f.save);
    if !f.save.Acked? {
      ReplyIsFinal(s5, i, f);
    }
    if !f.save.Refused? {
      assert s5.outbox.rows[|s.outbox.rows|].event.transfer == id;
      TT.NextGrows(s5, GoStep(s5, i, f));
      I.HasEventGrows(s5, Go(s5, i, f), id);
    }
  }

  /** An unused key is not in the cache either. */
  lemma CachedIsTaken(s: T.State, key: Key)
    requires I.Inv(s) && key in s.cache
    ensures KeyTaken(s.rows, key)
  {
    assert s.rows[s.cache[key].id].key == key;
  }

  /** With an unused key the cache cannot answer. */
  lemma FromCache(s: T.State, i: nat, f: CreateReplies)
    requires I.Inv(s) && i < |s.calls| && s.calls[i].pc == T.AtCache
    ensures var s', c := Go(s, i, f), s.calls[i];
            && s'.rows == s.rows && s'.calls[i].(pc := c.pc) == c
            && (s'.calls[i].pc == T.AtLookup || (s'.calls[i].pc.Replied? && KeyTaken(s.rows, c.key)))
  {
    if f.cache.Acked? && s.calls[i].key in s.cache {
      CachedIsTaken(s, s.calls[i].key);
    }
  }

  /** The table leads to the insert exactly when the key is unused and the transfer is acceptable. */
  lemma FromLookup(s: T.State, i: nat, f: CreateReplies)
    requires i < |s.calls| && s.calls[i].pc == T.AtLookup
    ensures var s', c := Go(s, i, f), s.calls[i];
            && s'.rows == s.rows && s'.calls[i].(pc := c.pc) == c
            && (s'.calls[i].pc == T.AtInsert || s'.calls[i].pc.Replied? || s'.calls[i].pc == T.Rejected)
            && (s'.calls[i].pc == T.AtInsert <==>
                  f.lookup.Acked? && !KeyTaken(s.rows, c.key) && Acceptable(c.source, c.dest, c.amount))
  {
  }

  /** Whatever fails: a CreateTransfer handled without interruption stores a row exactly when the key is unused, the
      transfer is acceptable and the insert lands; and it leaves that row without its event for good exactly when
      the reply to the insert is lost, or the event is refused. */
  lemma CreateOrphans(s: T.State, key: Key, source: AccountId, dest: AccountId, amount: real, currency: Currency,
                      id: TransferId, f: CreateReplies)
    requires I.Inv(s) && T.FreshId(s, id)
    ensures var s' := Create(s, key, source, dest, amount, currency, id, f);
            var unused := forall x :: x in s.rows ==> s.rows[x].key != key;
            var inserts := f.lookup.Acked? && unused && amount > 0.0 && source != dest;
            && (id in s'.rows <==> inserts && !f.insert.Refused?)
            && (T.HasEvent(s', id) <==> inserts && f.insert.Acked? && !f.save.Refused?)
            && (TT.Orphan(s', id) <==> inserts && (f.insert.Lost? || (f.insert.Acked? && f.save.Refused?)))
  {
    var i, submit := |s.calls|, T.Submit(key, source, dest, amount, currency, id);
    var s1 := T.Next(s, submit);
    I.NextKeepsInv(s, submit);
    FromCache(s1, i, f);
    GoKeepsInv(s1, i, f);
    var s2 := Go(s1, i, f);
    if s2.calls[i].pc == T.AtLookup {
      FromLookup(s2, i, f);
    } else {
      ReplyIsFinal(s2, i, f);
    }
    var s3 := Go(s2, i, f);
    GoKeepsInv(s2, i, f);
    if s3.calls[i].pc == T.AtInsert {
      FromInsert(s3, i, f);
    } else {
      ReplyIsFinal(s3, i, f);
      I.NoEventYet(s3, id);
    }
  }

  /** A retry with the key of an orphan is answered with the orphan, and changes neither table nor outbox. */
  lemma RetryFindsOrphan(s: T.State, orphan: TransferId, source: AccountId, dest: AccountId, amount: real,
                         currency: Currency, id: TransferId, f: CreateReplies)
    requires I.Inv(s) && TT.Orphan(s, orphan) && T.FreshId(s, id)
    ensures var s' := Create(s, s.rows[orphan].key, source, dest, amount, currency, id, f);
            && s'.calls[|s.calls|].pc == (if f.lookup.Acked? then T.Replied(s.rows[orphan]) else T.Rejected)
            && s'.rows == s.rows && s'.outbox == s.outbox && s'.cache == s.cache
  {
    var i, key := |s.calls|, s.rows[orphan].key;
    var s1 := T.Next(s, T.Submit(key, source, dest, amount, currency, id));
    assert key !in s.cache;
    var s2 := Go(s1, i, f);
    assert s2.calls[i].pc == T.AtLookup && s2.rows == s.rows;
    assert ByKey(s.rows, key) == Some(s.rows[orphan]);
    var s3 := Go(s2, i, f);
    ReplyIsFinal(s3, i, f);
  }

  // ---------- what sequential handling does ----------

  const NO_FAULTS := OutcomeReplies(Acked, Acked)

  lemma HandleOutcomeKeepsInv(s: T.State, event: Outcome, f: OutcomeReplies)
    requires I.Inv(s)
    ensures I.Inv(HandleOutcome(s, event, f))
  {
    HandleOutcomeIsRun(s, event, f);
    I.RunKeepsInv(s, [T.Deliver(event), T.Handle(|s.handlers|, f.fetch), T.Handle(|s.handlers|, f.update)]);
  }

  /** A handled outcome record marks its row, whatever the status of the row: no terminal status is guarded. */
  lemma OutcomeAlwaysLands(s: T.State, event: Outcome)
    requires I.RowsOk(s.rows) && event.transfer in s.rows
    ensures HandleOutcome(s, event, NO_FAULTS).rows == s.rows[event.transfer := Marked(s.rows[event.transfer], event)]
  {
    var i := |s.handlers|;
    var s1 := T.Next(s, T.Deliver(event));
    var s2 := T.Next(s1, T.Handle(i, Acked));
    assert s2.handlers[i].pc == T.AtUpdate(Marked(s.rows[event.transfer], event));
  }

  ghost function HandleAll(s: T.State, events: seq<Outcome>): T.State {
    if events == [] then s
    else HandleOutcome(HandleAll(s, events[..|events| - 1]), events[|events| - 1], NO_FAULTS)
  }

  /** The record of transfer `id` that comes last in `events`. */
  function LastFor(events: seq<Outcome>, id: TransferId): Option<Outcome> {
    if events == [] then None
    else if events[|events| - 1].transfer == id then Some(events[|events| - 1])
    else LastFor(events[..|events| - 1], id)
  }

  predicate IsFailure(event: Outcome, id: TransferId) {
    event.transfer == id && event.Failed?
  }

  /** The reason of the failure of transfer `id` that comes last in `events`. */
  function LastReason(events: seq<Outcome>, id: TransferId): Option<Reason> {
    if events == [] then None
    else if IsFailure(events[|events| - 1], id) then Some(events[|events| - 1].reason)
    else LastReason(events[..|events| - 1], id)
  }

  function For(id: TransferId): Outcome -> int {
    (event: Outcome) => if event.transfer == id then 1 else 0
  }

  /** One record changes the row of its transfer, if there is one, and no other row. */
  lemma OutcomeChanges(s: T.State, event: Outcome, id: TransferId)
    requires I.RowsOk(s.rows) && id in s.rows
    ensures var rows := HandleOutcome(s, event, NO_FAULTS).rows;
            id in rows && rows[id] == if event.transfer == id then Marked(s.rows[id], event) else s.rows[id]
  {
    if event.transfer in s.rows {
      OutcomeAlwaysLands(s, event);
    } else {
      var s1 := T.Next(s, T.Deliver(event));
      var s2 := T.Next(s1, T.Handle(|s.handlers|, Acked));
      assert s2.handlers[|s.handlers|].pc == T.Ended(false);
    }
  }

  /** Of any list of outcome records, handled one after another, the last one for a transfer decides its status, the
      last failure among them its reason, and all of them count: a transfer that fails and then completes keeps the
      reason of the failure. */
  lemma {:induction false} LastOutcomeDecides(s: T.State, events: seq<Outcome>, id: TransferId)
    requires I.Inv(s) && id in s.rows
    ensures var s' := HandleAll(s, events);
            var last, reason := LastFor(events, id), LastReason(events, id);
            && I.Inv(s') && id in s'.rows
            && s'.rows[id].status == (if last.Some? then StatusOf(last.value) else s.rows[id].status)
            && s'.rows[id].reason == (if reason.Some? then reason.value else s.rows[id].reason)
            && s'.rows[id].version == s.rows[id].version + Sum(events, For(id))
  {
    if events != [] {
      var n := |events| - 1;
      var before := HandleAll(s, events[..n]);
      LastOutcomeDecides(s, events[..n], id);
      HandleOutcomeKeepsInv(before, events[n], NO_FAULTS);
      OutcomeChanges(before, events[n], id);
    }
  }

  /** A completed transfer that is then reported as failed ends as failed. */
  lemma CompletionCanBeOverwritten(s: T.State, id: TransferId)
    requires I.Inv(s) && id in s.rows
    ensures var completed := HandleOutcome(s, Completed(id), NO_FAULTS);
            var failed := HandleOutcome(completed, Failed(id, InsufficientFunds), NO_FAULTS);
            && id in completed.rows && completed.rows[id].status == HasCompleted
            && id in failed.rows && failed.rows[id].status == HasFailed
  {
    OutcomeAlwaysLands(s, Completed(id));
    HandleOutcomeKeepsInv(s, Completed(id), NO_FAULTS);
    OutcomeAlwaysLands(HandleOutcome(s, Completed(id), NO_FAULTS), Failed(id, InsufficientFunds));
  }

  class TransferService {
    const repo: TransferRepository
    const outbox: OutboxRepository<Request>
    const idempotency: IdempotencyStore
    /** Where the relay of this service publishes. */
    ghost const topic: Producer<Request>
    /** Every CreateTransfer call and every outcome record handled so far. */
    ghost var calls: seq<T.Call>
    ghost var handlers: seq<T.Handler>

    constructor (repo: TransferRepository, outbox: OutboxRepository<Request>, idempotency: IdempotencyStore,
                 ghost topic: Producer<Request>)
      ensures this.repo == repo && this.outbox == outbox && this.idempotency == idempotency && this.topic == topic
      ensures calls == [] && handlers == []
    {
      this.repo, this.outbox, this.idempotency, this.topic := repo, outbox, idempotency, topic;
      this.calls, this.handlers := [], [];
    }

    /** The state that the service sees at time `now`. */
    ghost function View(now: nat): T.State
      reads this, repo, outbox, idempotency, topic
    {
      T.State(repo.rows, Outbox.State(outbox.rows, topic.log, []), Live(idempotency.entries, now), calls, handlers)
    }

    /** `id` is what uuid.New returns, `now` the time of the call. */
    method CreateTransfer(key: Key, source: AccountId, dest: AccountId, amount: real, currency: Currency,
                          id: TransferId, f: CreateReplies, now: nat) returns (r: Option<TransferData>)
      requires UniqueKeys(repo.rows) && T.FreshId(View(now), id)
      modifies this, repo, outbox, idempotency
      ensures View(now) == Create(old(View(now)), key, source, dest, amount, currency, id, f)
      ensures var pc := calls[|old(calls)|].pc;
              if r.Some? then pc == T.Replied(r.value) else pc == T.Rejected
    {
      ghost var s := View(now);
      ghost var c := T.Call(key, source, dest, amount, currency, id, T.AtCache);
      Lookups(s, c, f);
      var cached := idempotency.Get(key, now, f.cache);
      if cached.Ok? && cached.value.Some? {
        c := c.(pc := T.Replied(cached.value.value));
        calls := calls + [c];
        Rests(s, c, f);
        return Some(cached.value.value);
      }
      var existing := repo.GetByIdempotencyKey(key, f.lookup);
      ghost var after := T.AfterLookup(s, c, f.lookup);
      if existing.Err? {
        assert after == T.Rejected;
        c := c.(pc := after);
        calls := calls + [c];
        Rests(s, c, f);
        return None;
      }
      if existing.value.Some? {
        assert after == T.Replied(existing.value.value.Value());
        c := c.(pc := after);
        calls := calls + [c];
        Rests(s, c, f);
        return Some(existing.value.value.Value());
      }
      var transfer := NewTransfer(id, key, source, dest, amount, currency);
      if transfer.Err? {
        assert after == T.Rejected;
        c := c.(pc := after);
        calls := calls + [c];
        Rests(s, c, f);
        return None;
      }
      assert after == T.AtInsert;
      calls := calls + [c.(pc := after)];
      r := Initiate(transfer.value, f, now);
    }

    /** The part of CreateTransfer that follows the two lookups: insert, save the event, fill the cache. */
    method Initiate(transfer: Transfer, f: CreateReplies, now: nat) returns (r: Option<TransferData>)
      requires calls != [] && calls[|calls| - 1].pc == T.AtInsert && transfer.Value() == T.Draft(calls[|calls| - 1])
      modifies this, repo, outbox, idempotency
      ensures var i := |old(calls)| - 1;
              && View(now) == Go(Go(Go(old(View(now)), i, f), i, f), i, f)
              && |calls| == |old(calls)|
              && if r.Some? then calls[i].pc == T.Replied(r.value) else calls[i].pc == T.Rejected
    {
      ghost var i := |calls| - 1;
      ghost var s := View(now);
      ghost var c := calls[i];
      var ok := repo.Create(transfer, f.insert);
      s := Go(s, i, f);
      if !ok {
        assert s.calls[i] == c.(pc := T.Rejected);
        calls := s.calls;
        ReplyIsFinal(s, i, f);
        return None;
      }
      assert s.calls[i] == c.(pc := T.AtSave);
      ok := outbox.SaveEvent(Request(transfer.id, transfer.source, transfer.dest, transfer.amount, transfer.currency), f.save);
      s := Go(s, i, f);
      if !ok {
        assert s.calls[i] == c.(pc := T.Rejected);
        calls := s.calls;
        ReplyIsFinal(s, i, f);
        return None;
      }
      assert s.calls[i] == c.(pc := T.AtFill);
      ok := idempotency.Set(transfer.key, transfer.Value(), now, f.fill);
      calls := Go(s, i, f).calls;
      return Some(transfer.Value());
    }

    method HandleTransferCompleted(id: TransferId, f: OutcomeReplies, ghost now: nat) returns (ok: bool)
      requires UniqueKeys(repo.rows)
      modifies this, repo
      ensures View(now) == HandleOutcome(old(View(now)), Completed(id), f)
      ensures ok <==> handlers[|old(handlers)|].pc == T.Ended(true)
    {
      ghost var s := HandleOutcome(View(now), Completed(id), f);
      var t := repo.GetByID(id, f.fetch);
      if t.None? {
        handlers := s.handlers;
        return false;
      }
      t.value.MarkCompleted();
      ok := repo.UpdateWithVersion(t.value, f.update);
      handlers := s.handlers;
    }

    method HandleTransferFailed(id: TransferId, reason: Reason, f: OutcomeReplies, ghost now: nat) returns (ok: bool)
      requires UniqueKeys(repo.rows)
      modifies this, repo
      ensures View(now) == HandleOutcome(old(View(now)), Failed(id, reason), f)
      ensures ok <==> handlers[|old(handlers)|].pc == T.Ended(true)
    {
      ghost var s := HandleOutcome(View(now), Failed(id, reason), f);
      var t := repo.GetByID(id, f.fetch);
      if t.None? {
        handlers := s.handlers;
        return false;
      }
      t.value.MarkFailed(reason);
      ok := repo.UpdateWithVersion(t.value, f.update);
      handlers := s.handlers;
    }
  }

  /** The consumer of both outcome topics: a record that does not decode is dropped, and so is one whose
      handling fails. */
  class Consumer {
    const service: TransferService

    constructor (service: TransferService)
      ensures this.service == service
    {
      this.service := service;
    }

    method HandleRecord(record: Record<Outcome>, f: OutcomeReplies, ghost now: nat)
      requires UniqueKeys(service.repo.rows)
      modifies service, service.repo
      ensures service.View(now)
              == if record.Malformed? then old(service.View(now)) else HandleOutcome(old(service.View(now)), record.event, f)
    {
      match record
      case Malformed => return;
      case Decoded(Completed(id)) =>
        var ok := service.HandleTransferCompleted(id, f, now);
      case Decoded(Failed(id, reason)) =>
        var ok := service.HandleTransferFailed(id, reason, f, now);
    }
  }
}
