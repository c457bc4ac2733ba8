/** What a CreateTransfer call and an outcome record do, spelt out for every input and every combination of failing
    calls; and where the rows, events and replies of a run come from. */
module TransferEffects {
  import opened Wrappers
  import opened Money
  import opened Events
  import opened TransferDomain
  import opened TransferTable
  import opened TransferService
  import T = TransferStore
  import I = TransferInvariant
  import TT = TransferTheorems
  import Outbox

  // ---------- one CreateTransfer ----------

  /** A CreateTransfer that stores nothing: it is answered with the cache entry of its key if there is a live one that
      can be read; otherwise it is rejected if the table cannot be read; otherwise it is answered with the row of
      its key if there is one; otherwise it is rejected if the amount is not positive or the accounts are one. */
  lemma Answered(s: T.State, key: Key, source: AccountId, dest: AccountId, amount: real, currency: Currency,
                 id: TransferId, f: CreateReplies, pc: T.CallPc)
    requires I.Inv(s) && T.FreshId(s, id)
    requires var hit := f.cache.Acked? && key in s.cache;
             || (hit && pc == T.Replied(s.cache[key]))
             || (!hit && !f.lookup.Acked? && pc == T.Rejected)
             || (!hit && f.lookup.Acked? && exists x :: x in s.rows && s.rows[x].key == key && pc == T.Replied(s.rows[x]))
             || (&& !hit && f.lookup.Acked? && (forall x :: x in s.rows ==> s.rows[x].key != key)
                 && (amount <= 0.0 || source == dest) && pc == T.Rejected)
    ensures Create(s, key, source, dest, amount, currency, id, f)
            == s.(calls := s.calls + [T.Call(key, source, dest, amount, currency, id, pc)])
  {
    var c := T.Call(key, source, dest, amount, currency, id, T.AtCache);
    Lookups(s, c, f);
    Rests(s, c.(pc := pc), f);
    if !(f.cache.Acked? && key in s.cache) {
      assert T.AfterLookup(s, c, f.lookup) == pc;
    }
  }

  /** A CreateTransfer that initiates a transfer, because its key is unused, its amount is positive and its accounts
      differ: the row is stored unless the insert is refused; the request is saved after an acknowledged insert
      unless refused in turn; and after an acknowledged save the transfer is cached, unless that is refused, and
      returned.  Row, request, cache entry and reply carry what the caller asked for. */
  lemma Initiated(s: T.State, key: Key, source: AccountId, dest: AccountId, amount: real, currency: Currency,
                  id: TransferId, f: CreateReplies)
    requires I.Inv(s) && T.FreshId(s, id)
    requires f.lookup.Acked? && (forall x :: x in s.rows ==> s.rows[x].key != key)
    requires amount > 0.0 && source != dest
    ensures var s' := Create(s, key, source, dest, amount, currency, id, f);
            var asked := TransferData(id, key, source, dest, amount, currency, Pending, NoReason, 1);
            && s'.rows == (if f.insert.Refused? then s.rows
                           else s.rows[id := TransferData(id, key, source, dest, Quantise(amount) as real, currency,
                                                          Pending, NoReason, 1)])
            && s'.outbox == s.outbox.(rows := if f.insert.Acked? && !f.save.Refused? then
                                                s.outbox.rows + [Outbox.Row(Request(id, source, dest, amount, currency), false)]
                                              else s.outbox.rows)
            && s'.cache == (if f.insert.Acked? && f.save.Acked? && !f.fill.Refused? then s.cache[key := asked] else s.cache)
            && s'.calls == s.calls + [T.Call(key, source, dest, amount, currency, id,
                                             if f.insert.Acked? && f.save.Acked? then T.Replied(asked) else T.Rejected)]
            && s'.handlers == s.handlers
  {
    var c := T.Call(key, source, dest, amount, currency, id, T.AtCache);
    if key in s.cache {
      CachedIsTaken(s, key);
    }
    Lookups(s, c, f);
    assert T.AfterLookup(s, c, f.lookup) == T.AtInsert;
    Inserts(s, c.(pc := T.AtInsert), f);
  }

  /** The insert, and what follows it. */
  lemma Inserts(s: T.State, c: T.Call, f: CreateReplies)
    requires c.pc == T.AtInsert && c.id !in s.rows && !KeyTaken(s.rows, c.key)
    ensures var i := |s.calls|;
            var s' := Go(Go(Go(With(s, c), i, f), i, f), i, f);
            var asked := TransferData(c.id, c.key, c.source, c.dest, c.amount, c.currency, Pending, NoReason, 1);
            && s'.rows == (if f.insert.Refused? then s.rows else s.rows[c.id := asked.(amount := Quantise(c.amount) as real)])
            && s'.outbox == s.outbox.(rows := if f.insert.Acked? && !f.save.Refused? then
                                                s.outbox.rows + [Outbox.Row(Request(c.id, c.source, c.dest, c.amount, c.currency), false)]
                                              else s.outbox.rows)
            && s'.cache == (if f.insert.Acked? && f.save.Acked? && !f.fill.Refused? then s.cache[c.key := asked] else s.cache)
            && s'.calls == s.calls + [c.(pc := if f.insert.Acked? && f.save.Acked? then T.Replied(asked) else T.Rejected)]
            && s'.handlers == s.handlers
  {
    var inserted := s.(rows := Inserted(s.rows, T.Draft(c), f.insert));
    var pc := if f.insert.Acked? then T.AtSave else T.Rejected;
    assert (s.calls + [c])[|s.calls| := c.(pc := pc)] == s.calls + [c.(pc := pc)];
    assert Go(With(s, c), |s.calls|, f) == With(inserted, c.(pc := pc));
    if f.insert.Acked? {
      SavesAndFills(inserted, c.(pc := T.AtSave), f);
    } else {
      Rests(inserted, c.(pc := T.Rejected), f);
    }
  }

  /** The save of the request, and the filling of the cache. */
  lemma SavesAndFills(s: T.State, c: T.Call, f: CreateReplies)
    requires c.pc == T.AtSave
    ensures var s' := Go(Go(With(s, c), |s.calls|, f), |s.calls|, f);
            var asked := TransferData(c.id, c.key, c.source, c.dest, c.amount, c.currency, Pending, NoReason, 1);
            && s'.rows == s.rows
            && s'.outbox == s.outbox.(rows := if !f.save.Refused? then
                                                s.outbox.rows + [Outbox.Row(Request(c.id, c.source, c.dest, c.amount, c.currency), false)]
                                              else s.outbox.rows)
            && s'.cache == (if f.save.Acked? && !f.fill.Refused? then s.cache[c.key := asked] else s.cache)
            && s'.calls == s.calls + [c.(pc := if f.save.Acked? then T.Replied(asked) else T.Rejected)]
            && s'.handlers == s.handlers
  {
    var saved := s.(outbox := Outbox.Save(s.outbox, T.EventOf(c), f.save));
    var pc := if f.save.Acked? then T.AtFill else T.Rejected;
    assert (s.calls + [c])[|s.calls| := c.(pc := pc)] == s.calls + [c.(pc := pc)];
    assert Go(With(s, c), |s.calls|, f) == With(saved, c.(pc := pc));
    if f.save.Acked? {
      var c', done := c.(pc := T.AtFill), c.(pc := T.Replied(T.Draft(c)));
      assert (saved.calls + [c'])[|s.calls| := done] == saved.calls + [done];
    } else {
      Rests(saved, c.(pc := T.Rejected), f);
    }
  }

  // ---------- one outcome record ----------

  /** An outcome record that reads its transfer and whose write is executed gives the row its status, the reason if it
      is a failure, and the next version; nothing else changes, whatever fails. */
  lemma OutcomeHandled(s: T.State, event: Outcome, f: OutcomeReplies)
    requires I.Inv(s)
    ensures var s', id := HandleOutcome(s, event, f), event.transfer;
            var found := f.fetch.Acked? && id in s.rows;
            && s'.rows == (if !found || f.update.Refused? then s.rows
                           else s.rows[id := s.rows[id].(status := if event.Completed? then HasCompleted else HasFailed,
                                                         reason := if event.Failed? then event.reason else s.rows[id].reason,
                                                         version := s.rows[id].version + 1)])
            && s'.outbox == s.outbox && s'.cache == s.cache && s'.calls == s.calls
            && |s'.handlers| == |s.handlers| + 1 && s'.handlers[..|s.handlers|] == s.handlers
            && s'.handlers[|s.handlers|].event == event
            && s'.handlers[|s.handlers|].pc == T.Ended(found && f.update.Acked?)
  {
    var i := |s.handlers|;
    var s1 := T.Next(s, T.Deliver(event));
    var s2 := T.Next(s1, T.Handle(i, f.fetch));
    if f.fetch.Acked? && event.transfer in s.rows {
      assert s2.handlers[i].pc == T.AtUpdate(Marked(s.rows[event.transfer], event));
    } else {
      assert s2.handlers[i].pc == T.Ended(false);
    }
  }

  // ---------- where everything in a run comes from ----------

  /** Step k submitted this call. */
  ghost predicate SubmittedAt(steps: seq<T.Step>, k: int, c: T.Call) {
    0 <= k < |steps| && steps[k] == T.Submit(c.key, c.source, c.dest, c.amount, c.currency, c.id)
  }

  ghost predicate Submitted(steps: seq<T.Step>, c: T.Call) {
    exists k :: SubmittedAt(steps, k, c)
  }

  /** `row` stores what call `c` asked for. */
  ghost predicate Stores(c: T.Call, row: TransferData) {
    && row.id == c.id && row.key == c.key && row.source == c.source && row.dest == c.dest && row.currency == c.currency
    && row.amount == Quantise(c.amount) as real
  }

  ghost predicate Demands(c: T.Call, event: Request) {
    event == Request(c.id, c.source, c.dest, c.amount, c.currency) && c.amount > 0.0 && c.source != c.dest
  }

  ghost predicate RowSourced(s: T.State, id: TransferId)
    requires id in s.rows
  {
    exists i :: 0 <= i < |s.calls| && Stores(s.calls[i], s.rows[id])
  }

  ghost predicate EventSourced(s: T.State, event: Request) {
    exists i :: 0 <= i < |s.calls| && Demands(s.calls[i], event)
  }

  /** Every row and every event comes from a call. */
  ghost predicate Sourced(s: T.State) {
    && (forall id :: id in s.rows ==> RowSourced(s, id))
    && (forall j :: 0 <= j < |s.outbox.rows| ==> EventSourced(s, s.outbox.rows[j].event))
  }

  lemma StillStored(s: T.State, s': T.State, id: TransferId)
    requires id in s.rows && RowSourced(s, id) && TT.CallsGrow(s, s')
    requires id in s'.rows && s'.rows[id].(status := s.rows[id].status, reason := s.rows[id].reason,
                                           version := s.rows[id].version) == s.rows[id]
    ensures RowSourced(s', id)
  {
    var i :| 0 <= i < |s.calls| && Stores(s.calls[i], s.rows[id]);
    assert Stores(s'.calls[i], s'.rows[id]);
  }

  lemma StillDemanded(s: T.State, s': T.State, event: Request)
    requires EventSourced(s, event) && TT.CallsGrow(s, s')
    ensures EventSourced(s', event)
  {
    var i :| 0 <= i < |s.calls| && Demands(s.calls[i], event);
    assert Demands(s'.calls[i], event);
  }

  lemma RowStaysSourced(s: T.State, step: T.Step, id: TransferId)
    requires Sourced(s) && id in T.Next(s, step).rows
    ensures RowSourced(T.Next(s, step), id)
  {
    TT.NextGrows(s, step);
    if id in s.rows {
      StillStored(s, T.Next(s, step), id);
    } else {
      TT.RowsAreInserted(s, step, id);
      InsertStores(s, step.call, step.reply);
      assert Stores(T.Next(s, step).calls[step.call], T.Next(s, step).rows[id]);
    }
  }

  lemma EventsStaySourced(s: T.State, s': T.State)
    requires Sourced(s) && TT.CallsGrow(s, s') && I.EventsGrow(s, s')
    requires |s'.outbox.rows| > |s.outbox.rows| ==>
               && |s'.outbox.rows| == |s.outbox.rows| + 1
               && EventSourced(s', s'.outbox.rows[|s.outbox.rows|].event)
    ensures forall j :: 0 <= j < |s'.outbox.rows| ==> EventSourced(s', s'.outbox.rows[j].event)
  {
    forall j | 0 <= j < |s.outbox.rows| ensures EventSourced(s', s'.outbox.rows[j].event) {
      StillDemanded(s, s', s.outbox.rows[j].event);
    }
  }

  lemma NextKeepsSourced(s: T.State, step: T.Step)
    requires I.Inv(s) && Sourced(s)
    ensures Sourced(T.Next(s, step))
  {
    forall id | id in T.Next(s, step).rows ensures RowSourced(T.Next(s, step), id) {
      RowStaysSourced(s, step, id);
    }
    TT.NextGrows(s, step);
    if |T.Next(s, step).outbox.rows| > |s.outbox.rows| {
      EventsAreSaved(s, step);
    }
    EventsStaySourced(s, T.Next(s, step));
  }

  lemma InsertStores(s: T.State, i: nat, reply: Reply)
    requires i < |s.calls| && s.calls[i].pc == T.AtInsert && s.calls[i].id !in s.rows
    requires s.calls[i].id in T.AdvanceWith(s, i, reply).rows
    ensures var s' := T.AdvanceWith(s, i, reply);
            Stores(s'.calls[i], s'.rows[s.calls[i].id])
  {
  }

  /** An event appears only by the save of a call, one at a time. */
  lemma EventsAreSaved(s: T.State, step: T.Step)
    requires I.Inv(s) && |T.Next(s, step).outbox.rows| > |s.outbox.rows|
    ensures step.Advance? && step.call < |s.calls|
    ensures var s' := T.Next(s, step);
            && |s'.outbox.rows| == |s.outbox.rows| + 1
            && EventSourced(s', s'.outbox.rows[|s.outbox.rows|].event)
  {
    if step.Advance? && step.call < |s.calls| {
      assert I.CallOk(s, s.calls[step.call]);
      SaveDemands(s, step.call, step.reply);
    } else {
      TT.OtherStepsSaveNothing(s, step);
    }
  }

  lemma SaveDemands(s: T.State, i: nat, reply: Reply)
    requires i < |s.calls| && I.CallOk(s, s.calls[i]) && |T.AdvanceWith(s, i, reply).outbox.rows| > |s.outbox.rows|
    ensures var s' := T.AdvanceWith(s, i, reply);
            && |s'.outbox.rows| == |s.outbox.rows| + 1
            && EventSourced(s', s'.outbox.rows[|s.outbox.rows|].event)
  {
    var s' := T.AdvanceWith(s, i, reply);
    assert Demands(s'.calls[i], s'.outbox.rows[|s.outbox.rows|].event);
  }

  lemma {:induction false} RunIsSourced(steps: seq<T.Step>)
    ensures I.Inv(T.Run(T.Init(), steps)) && Sourced(T.Run(T.Init(), steps))
    ensures forall i :: 0 <= i < |T.Run(T.Init(), steps).calls| ==> Submitted(steps, T.Run(T.Init(), steps).calls[i])
  {
    if steps == [] {
      I.InitInv();
    } else {
      var front, last := steps[..|steps| - 1], steps[|steps| - 1];
      var mid := T.Run(T.Init(), front);
      RunIsSourced(front);
      NextKeepsSourced(mid, last);
      I.NextKeepsInv(mid, last);
      assert steps == front + [last];
      CallsAreSubmitted(mid, front, last);
    }
  }

  lemma CallsAreSubmitted(s: T.State, steps: seq<T.Step>, step: T.Step)
    requires forall i :: 0 <= i < |s.calls| ==> Submitted(steps, s.calls[i])
    ensures forall i :: 0 <= i < |T.Next(s, step).calls| ==> Submitted(steps + [step], T.Next(s, step).calls[i])
  {
    var s', all := T.Next(s, step), steps + [step];
    TT.NextGrows(s, step);
    forall i | 0 <= i < |s'.calls| ensures Submitted(all, s'.calls[i]) {
      if i < |s.calls| {
        var k :| SubmittedAt(steps, k, s.calls[i]);
        assert SubmittedAt(all, k, s'.calls[i]);
      } else {
        CallsAreNew(s, step);
        assert SubmittedAt(all, |steps|, s'.calls[i]);
      }
    }
  }

  lemma CallsAreNew(s: T.State, step: T.Step)
    requires |T.Next(s, step).calls| > |s.calls|
    ensures var s' := T.Next(s, step);
            && |s'.calls| == |s.calls| + 1 && step.Submit?
            && s'.calls[|s.calls|]
               == T.Call(step.key, step.source, step.dest, step.amount, step.currency, step.id, T.AtCache)
  {
  }

  /** In every run a stored transfer has the key, the accounts, the currency and the rounded amount of the request
      that was submitted under its identifier. */
  lemma RowAsSubmitted(steps: seq<T.Step>, id: TransferId)
    ensures var s := T.Run(T.Init(), steps);
            id in s.rows ==>
              exists k :: && 0 <= k < |steps| && steps[k].Submit? && steps[k].id == id
                          && s.rows[id].key == steps[k].key && s.rows[id].currency == steps[k].currency
                          && s.rows[id].source == steps[k].source && s.rows[id].dest == steps[k].dest
                          && s.rows[id].amount == Quantise(steps[k].amount) as real
  {
    RunIsSourced(steps);
    var s := T.Run(T.Init(), steps);
    if id in s.rows {
      assert RowSourced(s, id);
      var i :| 0 <= i < |s.calls| && Stores(s.calls[i], s.rows[id]);
      var k :| SubmittedAt(steps, k, s.calls[i]);
      assert steps[k].Submit?;
    }
  }

  /** In every run a requested event says exactly what was submitted, and that is a positive amount between two
      different accounts. */
  lemma EventAsSubmitted(steps: seq<T.Step>, j: nat)
    ensures var s := T.Run(T.Init(), steps);
            j < |s.outbox.rows| ==>
              exists k :: && 0 <= k < |steps| && steps[k].Submit?
                          && s.outbox.rows[j].event
                             == Request(steps[k].id, steps[k].source, steps[k].dest, steps[k].amount, steps[k].currency)
                          && steps[k].amount > 0.0 && steps[k].source != steps[k].dest
  {
    RunIsSourced(steps);
    var s := T.Run(T.Init(), steps);
    if j < |s.outbox.rows| {
      assert EventSourced(s, s.outbox.rows[j].event);
      var i :| 0 <= i < |s.calls| && Demands(s.calls[i], s.outbox.rows[j].event);
      var k :| SubmittedAt(steps, k, s.calls[i]);
      assert steps[k].Submit?;
    }
  }

  /** In every run a successful reply names a transfer submitted under the key of the call, with the accounts, the
      currency and, up to rounding, the amount that were submitted with it. */
  lemma ReplyAsSubmitted(steps: seq<T.Step>, i: nat)
    ensures var s := T.Run(T.Init(), steps);
            i < |s.calls| && s.calls[i].pc.Replied? ==>
              var t := s.calls[i].pc.transfer;
              exists k :: && 0 <= k < |steps| && steps[k].Submit? && steps[k].id == t.id
                          && steps[k].key == t.key == s.calls[i].key && steps[k].currency == t.currency
                          && steps[k].source == t.source && steps[k].dest == t.dest
                          && Quantise(steps[k].amount) == Quantise(t.amount)
  {
    var s := T.Run(T.Init(), steps);
    if i < |s.calls| && s.calls[i].pc.Replied? {
      TT.RepliesAgree(steps, i, i);
      RowAsSubmitted(steps, s.calls[i].pc.transfer.id);
    }
  }
}
