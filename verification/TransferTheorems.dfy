/** Safety of the transfer service over whole runs: every interleaving of CreateTransfer calls and outcome
    handlers, with failing calls, lost replies, cache expiry and duplicated outcome records. */
module TransferTheorems {
  import opened Wrappers
  import opened Events
  import opened TransferDomain
  import opened TransferTable
  import opened TransferStore
  import opened TransferInvariant
  import opened Sums
  import Outbox

  lemma Reachable(steps: seq<Step>)
    ensures Inv(Run(Init(), steps))
  {
    InitInv();
    RunKeepsInv(Init(), steps);
  }

  /** A key has at most one row and at most one requested event, and every event matches its row. */
  lemma OneRowOneEvent(steps: seq<Step>, key: Key)
    ensures var s := Run(Init(), steps);
            && (forall a, b :: a in s.rows && b in s.rows && s.rows[a].key == key == s.rows[b].key ==> a == b)
            && (forall j, k :: 0 <= j < |s.outbox.rows| && 0 <= k < |s.outbox.rows| ==>
                  var e, f := s.outbox.rows[j].event, s.outbox.rows[k].event;
                  && e.transfer in s.rows && f.transfer in s.rows
                  && Requests(s.rows[e.transfer], e)
                  && (s.rows[e.transfer].key == key == s.rows[f.transfer].key ==> j == k))
  {
    Reachable(steps);
  }

  /** All successful replies for one key name one transfer, the row with that key, whether they came from the
      cache, from the table, or from the call that created it. */
  lemma RepliesAgree(steps: seq<Step>, i: nat, j: nat)
    ensures var s := Run(Init(), steps);
            i < |s.calls| && j < |s.calls| && s.calls[i].pc.Replied? && s.calls[j].pc.Replied? ==>
              var t, u := s.calls[i].pc.transfer, s.calls[j].pc.transfer;
              && t.id in s.rows && s.rows[t.id].key == s.calls[i].key && Names(s.rows[t.id], t)
              && (s.calls[i].key == s.calls[j].key <==> t.id == u.id)
  {
    Reachable(steps);
    var s := Run(Init(), steps);
    if i < |s.calls| && j < |s.calls| {
      assert CallOk(s, s.calls[i]) && CallOk(s, s.calls[j]);
    }
  }

  /** A cached entry names the transfer of the row with its key, whose event was already saved. */
  lemma CacheAgrees(steps: seq<Step>, key: Key)
    ensures var s := Run(Init(), steps);
            key in s.cache ==>
              var t := s.cache[key];
              && t.key == key && t.id in s.rows && Names(s.rows[t.id], t) && HasEvent(s, t.id)
              && ByKey(s.rows, key) == Some(s.rows[t.id])
  {
    Reachable(steps);
  }

  /** Requested events survive every failure: what is marked published is in the topic, and the topic holds
      nothing but requests for stored transfers. */
  lemma RequestsAtLeastOnce(steps: seq<Step>)
    ensures var s := Run(Init(), steps);
            && (forall j :: 0 <= j < |s.outbox.rows| && s.outbox.rows[j].published ==> s.outbox.rows[j].event in s.outbox.log)
            && (forall event :: event in s.outbox.log ==>
                  event.transfer in s.rows && Requests(s.rows[event.transfer], event))
  {
    Reachable(steps);
    var s := Run(Init(), steps);
    forall event | event in s.outbox.log ensures event.transfer in s.rows && Requests(s.rows[event.transfer], event) {
      assert Outbox.SavedSomewhere(s.outbox.rows, event);
      var j :| 0 <= j < |s.outbox.rows| && s.outbox.rows[j].event == event;
    }
  }

  // ---------- rows over time ----------

  /** A finished reply is never changed, and neither are the parameters of a call. */
  ghost predicate CallsGrow(s: State, s': State) {
    && |s.calls| <= |s'.calls|
    && forall i :: 0 <= i < |s.calls| ==>
         && s'.calls[i].(pc := s.calls[i].pc) == s.calls[i]
         && (s.calls[i].pc.Replied? ==> s'.calls[i].pc == s.calls[i].pc)
  }

  ghost predicate HandlersGrow(s: State, s': State) {
    && |s.handlers| <= |s'.handlers|
    && forall i :: 0 <= i < |s.handlers| ==> s'.handlers[i].event == s.handlers[i].event
  }

  ghost predicate Grows(s: State, s': State) {
    RowsGrow(s.rows, s'.rows) && EventsGrow(s, s') && CallsGrow(s, s') && HandlersGrow(s, s')
  }

  lemma NextGrows(s: State, step: Step)
    ensures Grows(s, Next(s, step))
  {
    match step
    case Advance(i, reply) =>
      if i < |s.calls| {
        match s.calls[i].pc {
          case AtCache =>
          case AtLookup =>
          case AtInsert =>
          case AtSave =>
          case AtFill =>
          case Replied(_) =>
          case Rejected =>
        }
      }
    case Handle(i, reply) =>
      if i < |s.handlers| {
        match s.handlers[i].pc {
          case AtFetch =>
          case AtUpdate(_) =>
          case Ended(_) =>
        }
      }
    case Relay(r) => RelayGrows(s, r);
    case Submit(_, _, _, _, _, _) =>
    case Expire(_) =>
    case Deliver(_) =>
  }

  lemma RelayGrows(s: State, r: Outbox.Step)
    ensures Grows(s, Next(s, Relay(r)))
  {
  }

  lemma {:induction false} RunGrows(s: State, steps: seq<Step>)
    ensures Grows(s, Run(s, steps))
  {
    if steps != [] {
      RunGrows(s, steps[..|steps| - 1]);
      NextGrows(Run(s, steps[..|steps| - 1]), steps[|steps| - 1]);
      GrowsTwice(s, Run(s, steps[..|steps| - 1]), Run(s, steps));
    }
  }

  lemma GrowsTwice(a: State, b: State, c: State)
    requires Grows(a, b) && Grows(b, c)
    ensures Grows(a, c)
  {
  }

  /** The history of a row: its identity never changes, its version is 1 plus the updates that landed, no
      two handlers won the same version, and once it has left pending it never returns. */
  lemma RowHistory(steps: seq<Step>, more: seq<Step>, id: TransferId)
    ensures var s := Run(Init(), steps);
            var s' := Run(s, more);
            id in s.rows ==>
              && id in s'.rows
              && Names(s'.rows[id], s.rows[id])
              && s.rows[id].version == 1 + Sum(s.handlers, WinsOf(id))
              && s.rows[id].version <= s'.rows[id].version
              && (s.rows[id].status != Pending ==> s'.rows[id].status != Pending)
              && (forall i, j :: 0 <= i < j < |s.handlers| && s.handlers[i].won.Some? && s.handlers[i].won == s.handlers[j].won ==>
                    !(s.handlers[i].event.transfer == id == s.handlers[j].event.transfer))
  {
    Reachable(steps);
    var s := Run(Init(), steps);
    RunKeepsInv(s, more);
    RunGrows(s, more);
  }

  /** All outcome records delivered for `id` say the same. */
  ghost predicate OutcomesAgree(s: State, id: TransferId, outcome: Outcome) {
    forall i :: 0 <= i < |s.handlers| && s.handlers[i].event.transfer == id ==> s.handlers[i].event == outcome
  }

  lemma AgreedStatus(s: State, id: TransferId, outcome: Outcome)
    requires Inv(s) && id in s.rows && OutcomesAgree(s, id, outcome)
    ensures s.rows[id].status == Pending ==> s.rows[id].reason == NoReason
    ensures s.rows[id].status != Pending ==>
              && s.rows[id].status == StatusOf(outcome)
              && s.rows[id].reason == if outcome.Failed? then outcome.reason else NoReason
  {
    assert RowExplained(s, id);
    if s.rows[id].version > 1 {
      var i :| WroteLast(s, id, i);
    }
    if s.rows[id].reason != NoReason {
      var k :| GaveReason(s, id, k);
      assert HandlerOk(s.rows, s.handlers[k]);
    }
  }

  lemma StableBetween(s: State, s': State, id: TransferId, outcome: Outcome)
    requires Inv(s) && Inv(s') && Grows(s, s') && OutcomesAgree(s', id, outcome)
    requires id in s.rows && s.rows[id].status != Pending
    ensures id in s'.rows
    ensures s'.rows[id].status == s.rows[id].status == StatusOf(outcome)
    ensures s'.rows[id].reason == s.rows[id].reason
  {
    forall i | 0 <= i < |s.handlers| && s.handlers[i].event.transfer == id ensures s.handlers[i].event == outcome {
      assert s'.handlers[i].event == s.handlers[i].event;
    }
    AgreedStatus(s, id, outcome);
    AgreedStatus(s', id, outcome);
  }

  /** When all outcome records of a transfer agree, duplicated, reordered and raced as they may be, its status
      and its reason never change once it has left pending. */
  lemma StableWhenOutcomesAgree(steps: seq<Step>, more: seq<Step>, id: TransferId, outcome: Outcome)
    requires OutcomesAgree(Run(Run(Init(), steps), more), id, outcome)
    ensures var s := Run(Init(), steps);
            var s' := Run(s, more);
            id in s.rows && s.rows[id].status != Pending ==>
              && id in s'.rows
              && s'.rows[id].status == s.rows[id].status == StatusOf(outcome)
              && s'.rows[id].reason == s.rows[id].reason
  {
    Reachable(steps);
    var s := Run(Init(), steps);
    RunKeepsInv(s, more);
    RunGrows(s, more);
    if id in s.rows && s.rows[id].status != Pending {
      StableBetween(s, Run(s, more), id, outcome);
    }
  }

  // ---------- exactly when a reported outcome changes ----------

  /** Status and reason of `id` are the same in both tables. */
  predicate SameOutcome(rows: Rows, rows': Rows, id: TransferId) {
    && id in rows && id in rows'
    && rows'[id].status == rows[id].status && rows'[id].reason == rows[id].reason
  }

  /** This step lands an update of `id` that says something else than its row: the copy is current, the write is
      executed, and the record brings another status or a failure with another reason. */
  predicate Overwrites(s: State, step: Step, id: TransferId)
    requires id in s.rows
  {
    && step.Handle? && step.handler < |s.handlers|
    && var h := s.handlers[step.handler];
       && h.pc.AtUpdate? && h.event.transfer == id && !step.reply.Refused? && Current(s.rows, h.pc.transfer)
       && (StatusOf(h.event) != s.rows[id].status || (h.event.Failed? && h.event.reason != s.rows[id].reason))
  }

  /** No other step changes the status or the reason of a row. */
  lemma OverwrittenWhen(s: State, step: Step, id: TransferId)
    requires Inv(s) && id in s.rows
    ensures SameOutcome(s.rows, Next(s, step).rows, id) <==> !Overwrites(s, step, id)
  {
    if step.Handle? && step.handler < |s.handlers| {
      assert HandlerOk(s.rows, s.handlers[step.handler]);
      HandleOverwrites(s, step.handler, step.reply, id);
    } else {
      NextGrows(s, step);
      OthersKeepRows(s, step, id);
    }
  }

  lemma HandleOverwrites(s: State, i: nat, reply: Reply, id: TransferId)
    requires UniqueKeys(s.rows) && id in s.rows && i < |s.handlers| && HandlerOk(s.rows, s.handlers[i])
    ensures SameOutcome(s.rows, HandleWith(s, i, reply).rows, id) <==> !Overwrites(s, Handle(i, reply), id)
  {
  }

  lemma OthersKeepRows(s: State, step: Step, id: TransferId)
    requires Inv(s) && id in s.rows && !(step.Handle? && step.handler < |s.handlers|)
    ensures id in Next(s, step).rows && Next(s, step).rows[id] == s.rows[id]
  {
    if step.Advance? && step.call < |s.calls| {
      assert CallOk(s, s.calls[step.call]);
    }
  }

  /** The outcome of `id` stays what it is at every point of `more`. */
  ghost predicate Stays(s: State, more: seq<Step>, id: TransferId) {
    forall k :: 0 <= k <= |more| ==> SameOutcome(s.rows, Run(s, more[..k]).rows, id)
  }

  /** Some step of `more` overwrites the outcome of `id`. */
  ghost predicate OverwrittenIn(s: State, more: seq<Step>, id: TransferId) {
    exists k :: 0 <= k < |more| && id in Run(s, more[..k]).rows && Overwrites(Run(s, more[..k]), more[k], id)
  }

  lemma StaysNext(s: State, more: seq<Step>, step: Step, id: TransferId)
    ensures Stays(s, more + [step], id) <==> Stays(s, more, id) && SameOutcome(s.rows, Next(Run(s, more), step).rows, id)
  {
    var all := more + [step];
    RunNext(s, more, step);
    assert all[..|all|] == all && all[..|more|] == more && more[..|more|] == more;
    assert forall k :: 0 <= k <= |more| ==> all[..k] == more[..k];
    if Stays(s, all, id) {
      assert SameOutcome(s.rows, Run(s, all[..|all|]).rows, id);
      forall k | 0 <= k <= |more| ensures SameOutcome(s.rows, Run(s, more[..k]).rows, id) {
        assert SameOutcome(s.rows, Run(s, all[..k]).rows, id);
      }
    }
    if Stays(s, more, id) && SameOutcome(s.rows, Next(Run(s, more), step).rows, id) {
      forall k | 0 <= k <= |all| ensures SameOutcome(s.rows, Run(s, all[..k]).rows, id) {
        assert k <= |more| ==> SameOutcome(s.rows, Run(s, more[..k]).rows, id);
      }
    }
  }

  lemma OverwrittenInNext(s: State, more: seq<Step>, step: Step, id: TransferId)
    ensures OverwrittenIn(s, more + [step], id)
            <==> OverwrittenIn(s, more, id) || (id in Run(s, more).rows && Overwrites(Run(s, more), step, id))
  {
    var all := more + [step];
    assert all[..|more|] == more && all[|more|] == step;
    assert forall k :: 0 <= k < |more| ==> all[..k] == more[..k] && all[k] == more[k];
    if OverwrittenIn(s, more, id) {
      var k :| 0 <= k < |more| && id in Run(s, more[..k]).rows && Overwrites(Run(s, more[..k]), more[k], id);
      assert Overwrites(Run(s, all[..k]), all[k], id);
    }
    if id in Run(s, more).rows && Overwrites(Run(s, more), step, id) {
      assert Overwrites(Run(s, all[..|more|]), all[|more|], id);
    }
  }

  lemma RowStays(s: State, steps: seq<Step>, id: TransferId)
    requires id in s.rows
    ensures id in Run(s, steps).rows
  {
    RunGrows(s, steps);
  }

  lemma StaysAtFirst(s: State, id: TransferId)
    requires id in s.rows
    ensures Stays(s, [], id) && !OverwrittenIn(s, [], id)
  {
    assert forall k :: 0 <= k <= 0 ==> Run(s, [][..k]) == s;
  }

  /** One more step, after a run in which the outcome stayed exactly if it was not overwritten. */
  lemma StaysStep(s: State, front: seq<Step>, last: Step, id: TransferId)
    requires Inv(Run(s, front)) && id in s.rows && id in Run(s, front).rows
    requires Stays(s, front, id) <==> !OverwrittenIn(s, front, id)
    ensures Stays(s, front + [last], id) <==> !OverwrittenIn(s, front + [last], id)
  {
    var mid := Run(s, front);
    StaysNext(s, front, last, id);
    OverwrittenInNext(s, front, last, id);
    OverwrittenWhen(mid, last, id);
    if Stays(s, front, id) {
      assert front[..|front|] == front;
      assert SameOutcome(s.rows, mid.rows, id);
    }
  }

  /** Over whole runs, with every fault, duplicate and race: status and reason of a stored transfer, terminal or not,
      stay as they are throughout exactly when no step overwrites them. */
  lemma {:induction false} OutcomeStaysExactly(s: State, more: seq<Step>, id: TransferId)
    requires Inv(s) && id in s.rows
    ensures Stays(s, more, id) <==> !OverwrittenIn(s, more, id)
  {
    if more == [] {
      StaysAtFirst(s, id);
    } else {
      var front, last := more[..|more| - 1], more[|more| - 1];
      assert more == front + [last];
      OutcomeStaysExactly(s, front, id);
      RunKeepsInv(s, front);
      RowStays(s, front, id);
      StaysStep(s, front, last, id);
    }
  }

  // ---------- rows without an event ----------

  ghost predicate NoSaver(s: State, id: TransferId) {
    forall i :: 0 <= i < |s.calls| && s.calls[i].id == id ==> s.calls[i].pc != AtSave
  }

  /** A row whose creating call can no longer save the event. */
  ghost predicate Orphan(s: State, id: TransferId) {
    id in s.rows && !HasEvent(s, id) && NoSaver(s, id)
  }

  lemma AdvanceAddsNoEvent(s: State, i: nat, reply: Reply, id: TransferId)
    requires i < |s.calls| && !HasEvent(s, id)
    requires s.calls[i].id == id ==> s.calls[i].pc != AtSave
    ensures !HasEvent(AdvanceWith(s, i, reply), id)
  {
    var s' := AdvanceWith(s, i, reply);
    if s.calls[i].pc == AtSave && !reply.Refused? {
      forall j | 0 <= j < |s'.outbox.rows| ensures s'.outbox.rows[j].event.transfer != id {
        if j == |s.outbox.rows| {
          assert s'.outbox.rows[j].event == EventOf(s.calls[i]);
        }
      }
    } else {
      assert s'.outbox == s.outbox;
      SameEvents(s, s');
    }
  }

  lemma AdvanceAddsNoSaver(s: State, i: nat, reply: Reply, id: TransferId)
    requires i < |s.calls| && CallOk(s, s.calls[i]) && id in s.rows && NoSaver(s, id)
    ensures NoSaver(AdvanceWith(s, i, reply), id)
  {
    var s' := AdvanceWith(s, i, reply);
    assert s'.calls == s.calls[i := s'.calls[i]];
    assert s'.calls[i].pc == AtSave ==> s.calls[i].pc in {AtInsert, AtSave};
  }

  lemma OtherStepsSaveNothing(s: State, step: Step)
    requires Inv(s) && (step.Advance? ==> step.call >= |s.calls|)
    ensures var s' := Next(s, step);
            && |s'.outbox.rows| == |s.outbox.rows|
            && forall i :: 0 <= i < |s'.calls| ==> if i < |s.calls| then s'.calls[i] == s.calls[i] else s'.calls[i].pc == AtCache
  {
    if step.Handle? && step.handler < |s.handlers| {
      assert HandleWith(s, step.handler, step.reply).calls == s.calls;
    }
  }

  lemma OrphanStays(s: State, step: Step, id: TransferId)
    requires Inv(s) && Orphan(s, id)
    ensures Orphan(Next(s, step), id)
  {
    NextGrows(s, step);
    var s' := Next(s, step);
    if step.Advance? && step.call < |s.calls| {
      assert CallOk(s, s.calls[step.call]);
      AdvanceAddsNoEvent(s, step.call, step.reply, id);
      AdvanceAddsNoSaver(s, step.call, step.reply, id);
    } else {
      OtherStepsSaveNothing(s, step);
      SameEvents(s, s');
    }
  }

  /** No later call, retry or relay ever saves an event for an orphan. */
  lemma {:induction false} OrphanForever(s: State, more: seq<Step>, id: TransferId)
    requires Inv(s) && Orphan(s, id)
    ensures Orphan(Run(s, more), id)
  {
    if more != [] {
      OrphanForever(s, more[..|more| - 1], id);
      RunKeepsInv(s, more[..|more| - 1]);
      OrphanStays(Run(s, more[..|more| - 1]), more[|more| - 1], id);
    }
  }

  /** This step stores transfer `id` for good without an event: its row is inserted but the reply is lost, or its
      event is refused. */
  ghost predicate Orphans(s: State, step: Step, id: TransferId) {
    && step.Advance? && step.call < |s.calls| && s.calls[step.call].id == id
    && var c := s.calls[step.call];
       || (c.pc == AtInsert && step.reply.Lost? && !KeyTaken(s.rows, c.key))
       || (c.pc == AtSave && step.reply.Refused?)
  }

  /** The insert of call `i` makes an orphan exactly when it lands and the reply is lost. */
  lemma InsertOrphans(s: State, i: nat, reply: Reply)
    requires Inv(s) && i < |s.calls| && s.calls[i].pc == AtInsert
    ensures Orphan(AdvanceWith(s, i, reply), s.calls[i].id) <==> reply.Lost? && !KeyTaken(s.rows, s.calls[i].key)
  {
    var c, s' := s.calls[i], AdvanceWith(s, i, reply);
    assert CallOk(s, c);
    NoEventYet(s, c.id);
    SameEvents(s, s');
    assert s'.calls == s.calls[i := s'.calls[i]];
    assert s'.calls[i].id == c.id;
  }

  /** The save of call `i` makes an orphan exactly when it is refused. */
  lemma SaveOrphans(s: State, i: nat, reply: Reply)
    requires Inv(s) && i < |s.calls| && s.calls[i].pc == AtSave
    ensures Orphan(AdvanceWith(s, i, reply), s.calls[i].id) <==> reply.Refused?
  {
    var c, s' := s.calls[i], AdvanceWith(s, i, reply);
    assert CallOk(s, c);
    assert s'.calls == s.calls[i := s'.calls[i]];
    if reply.Refused? {
      SameEvents(s, s');
    } else {
      assert s'.outbox.rows[|s.outbox.rows|].event.transfer == c.id;
    }
  }

  /** What is not an orphan becomes one only by its own insert or its own save. */
  lemma OtherStepsOrphanNothing(s: State, step: Step, id: TransferId)
    requires Inv(s) && !Orphan(s, id)
    requires !(step.Advance? && step.call < |s.calls| && s.calls[step.call].id == id
               && s.calls[step.call].pc in {AtInsert, AtSave})
    ensures !Orphan(Next(s, step), id)
  {
    NextGrows(s, step);
    var s' := Next(s, step);
    if id in s.rows && HasEvent(s, id) {
      HasEventGrows(s, s', id);
    } else if id in s.rows {
      var i :| 0 <= i < |s.calls| && s.calls[i].id == id && s.calls[i].pc == AtSave;
      SaverStays(s, step, i);
    } else if id in s'.rows {
      RowsAreInserted(s, step, id);
    }
  }

  /** A call that is about to save stays so while others move. */
  lemma SaverStays(s: State, step: Step, i: nat)
    requires i < |s.calls| && s.calls[i].pc == AtSave
    requires !(step.Advance? && step.call == i)
    ensures i < |Next(s, step).calls| && Next(s, step).calls[i] == s.calls[i]
  {
    if step.Handle? && step.handler < |s.handlers| {
      assert HandleWith(s, step.handler, step.reply).calls == s.calls;
    }
  }

  /** A row appears only by the insert of the call that owns its identifier. */
  lemma RowsAreInserted(s: State, step: Step, id: TransferId)
    requires id !in s.rows && id in Next(s, step).rows
    ensures step.Advance? && step.call < |s.calls| && s.calls[step.call].id == id && s.calls[step.call].pc == AtInsert
  {
  }

  lemma OrphanArises(s: State, step: Step, id: TransferId)
    requires Inv(s)
    ensures Orphan(Next(s, step), id) <==> Orphan(s, id) || Orphans(s, step, id)
  {
    if Orphan(s, id) {
      OrphanStays(s, step, id);
    } else if step.Advance? && step.call < |s.calls| && s.calls[step.call].id == id
              && s.calls[step.call].pc in {AtInsert, AtSave} {
      if s.calls[step.call].pc == AtInsert {
        InsertOrphans(s, step.call, step.reply);
      } else {
        SaveOrphans(s, step.call, step.reply);
      }
    } else {
      OtherStepsOrphanNothing(s, step, id);
    }
  }

  /** Some step of the run made an orphan of `id`. */
  ghost predicate OrphanedIn(s: State, steps: seq<Step>, id: TransferId) {
    exists k :: 0 <= k < |steps| && Orphans(Run(s, steps[..k]), steps[k], id)
  }

  lemma OrphanedInNext(s: State, steps: seq<Step>, step: Step, id: TransferId)
    ensures OrphanedIn(s, steps + [step], id) <==> OrphanedIn(s, steps, id) || Orphans(Run(s, steps), step, id)
  {
    var all := steps + [step];
    assert all[..|steps|] == steps;
    assert forall k :: 0 <= k < |steps| ==> all[..k] == steps[..k];
    if OrphanedIn(s, steps, id) {
      var k :| 0 <= k < |steps| && Orphans(Run(s, steps[..k]), steps[k], id);
      assert Orphans(Run(s, all[..k]), all[k], id);
    }
    if Orphans(Run(s, steps), step, id) {
      assert Orphans(Run(s, all[..|steps|]), all[|steps|], id);
    }
  }

  /** Over whole runs: a transfer is stored without ever getting an event exactly when its insert landed with a lost
      reply, or its event was refused. */
  lemma {:induction false} OrphanedExactly(steps: seq<Step>, id: TransferId)
    ensures Orphan(Run(Init(), steps), id) <==> OrphanedIn(Init(), steps, id)
  {
    if steps != [] {
      var front, last := steps[..|steps| - 1], steps[|steps| - 1];
      OrphanedExactly(front, id);
      Reachable(front);
      OrphanArises(Run(Init(), front), last, id);
      assert steps == front + [last];
      OrphanedInNext(Init(), front, last, id);
    }
  }

  /** Every stored transfer whose creation was not cut short in those two ways has its event, or a call that still
      stands, perhaps crashed, before its save, and never both. */
  lemma StoredIsRequested(steps: seq<Step>, id: TransferId)
    ensures var s := Run(Init(), steps);
            id in s.rows && !OrphanedIn(Init(), steps, id) ==> (HasEvent(s, id) <==> NoSaver(s, id))
  {
    Reachable(steps);
    OrphanedExactly(steps, id);
    var s := Run(Init(), steps);
    forall i | 0 <= i < |s.calls| && s.calls[i].id == id && s.calls[i].pc == AtSave ensures !HasEvent(s, id) {
      assert CallOk(s, s.calls[i]);
    }
  }
}
