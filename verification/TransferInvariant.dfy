/** What every reachable state of the transfer service satisfies. */
module TransferInvariant {
  import opened Wrappers
  import opened Money
  import opened Events
  import opened TransferDomain
  import opened TransferTable
  import opened TransferStore
  import opened Sums
  import Outbox

  // ---------- the invariant ----------

  /** Row and value are the same transfer: identity, key, accounts, currency, and the amount as stored. */
  predicate Names(row: TransferData, t: TransferData) {
    && row.id == t.id && row.key == t.key && row.source == t.source && row.dest == t.dest
    && row.currency == t.currency && row.amount == Quantise(t.amount) as real
  }

  /** `event` asks for the transfer of `row`. */
  predicate Requests(row: TransferData, event: Request) {
    && row.source == event.source && row.dest == event.dest && row.currency == event.currency
    && row.amount == Quantise(event.amount) as real
    && Acceptable(event.source, event.dest, event.amount)
  }

  ghost predicate RowsOk(rows: Rows) {
    && UniqueKeys(rows)
    && forall id :: id in rows ==>
         && Names(rows[id], rows[id])
         && rows[id].source != rows[id].dest
         && rows[id].version >= 1
         && (rows[id].status == Pending <==> rows[id].version == 1)
  }

  ghost predicate CallOk(s: State, c: Call) {
    match c.pc
    case AtCache => c.id !in s.rows
    case AtLookup => c.id !in s.rows
    case AtInsert => c.id !in s.rows && Acceptable(c.source, c.dest, c.amount)
    case AtSave =>
      && c.id in s.rows && Names(s.rows[c.id], Draft(c)) && Acceptable(c.source, c.dest, c.amount)
      && !HasEvent(s, c.id)
    case AtFill => c.id in s.rows && Names(s.rows[c.id], Draft(c)) && HasEvent(s, c.id)
    case Replied(t) => t.key == c.key && t.id in s.rows && Names(s.rows[t.id], t)
    case Rejected => true
  }

  ghost predicate CallsOk(s: State) {
    && (forall i :: 0 <= i < |s.calls| ==> CallOk(s, s.calls[i]))
    && (forall i, j :: 0 <= i < j < |s.calls| ==> s.calls[i].id != s.calls[j].id)
  }

  ghost predicate EventsOk(s: State) {
    && Outbox.Inv(s.outbox)
    && (forall j :: 0 <= j < |s.outbox.rows| ==>
          var e := s.outbox.rows[j].event;
          e.transfer in s.rows && Requests(s.rows[e.transfer], e))
    && (forall j, k :: 0 <= j < k < |s.outbox.rows| ==>
          s.outbox.rows[j].event.transfer != s.outbox.rows[k].event.transfer)
  }

  ghost predicate CacheOk(s: State) {
    forall key :: key in s.cache ==>
      var t := s.cache[key];
      t.key == key && t.id in s.rows && Names(s.rows[t.id], t) && HasEvent(s, t.id)
  }

  ghost predicate HandlerOk(rows: Rows, h: Handler) {
    && (h.won.Some? ==> h.pc.Ended? && h.event.transfer in rows && 2 <= h.won.value <= rows[h.event.transfer].version)
    && (h.pc.AtUpdate? ==>
          var t, id := h.pc.transfer, h.event.transfer;
          && t.id == id && id in rows
          && t.version - 1 <= rows[id].version
          && (t.version - 1 == rows[id].version ==> t == Marked(rows[id], h.event)))
  }

  /** The updates of transfer `id` that landed. */
  function WinsOf(id: TransferId): Handler -> int {
    (h: Handler) => if h.won.Some? && h.event.transfer == id then 1 else 0
  }

  /** Handler `i` wrote the row of `id` as it now is. */
  ghost predicate WroteLast(s: State, id: TransferId, i: int)
    requires id in s.rows
  {
    && 0 <= i < |s.handlers|
    && s.handlers[i].event.transfer == id && s.handlers[i].won == Some(s.rows[id].version)
    && s.rows[id].status == StatusOf(s.handlers[i].event)
    && (s.handlers[i].event.Failed? ==> s.rows[id].reason == s.handlers[i].event.reason)
  }

  /** Handler `i` landed a failure with this reason. */
  ghost predicate GaveReason(s: State, id: TransferId, i: int)
    requires id in s.rows
  {
    && 0 <= i < |s.handlers|
    && s.handlers[i].event == Failed(id, s.rows[id].reason) && s.handlers[i].won.Some?
  }

  ghost predicate RowExplained(s: State, id: TransferId)
    requires id in s.rows
  {
    && (s.rows[id].version > 1 ==> exists i :: WroteLast(s, id, i))
    && (s.rows[id].reason != NoReason ==> exists i :: GaveReason(s, id, i))
  }

  ghost predicate HandlersOk(s: State) {
    && (forall i :: 0 <= i < |s.handlers| ==> HandlerOk(s.rows, s.handlers[i]))
    && (forall i, j :: 0 <= i < j < |s.handlers| && s.handlers[i].won.Some? && s.handlers[i].won == s.handlers[j].won ==>
          s.handlers[i].event.transfer != s.handlers[j].event.transfer)
    && (forall id :: id in s.rows ==> RowExplained(s, id))
    && (forall id: TransferId ::
          Sum(s.handlers, WinsOf(id)) == if id in s.rows then s.rows[id].version - 1 else 0)
  }

  ghost predicate Inv(s: State) {
    RowsOk(s.rows) && CallsOk(s) && EventsOk(s) && CacheOk(s) && HandlersOk(s)
  }

  lemma InitInv()
    ensures Inv(Init())
  {
  }

  // ---------- frames: what a step of one part leaves alone ----------

  /** Only status, reason and version of a row can change, the last one upwards. */
  ghost predicate RowsGrow(rows: Rows, rows': Rows) {
    forall id :: id in rows ==>
      && id in rows'
      && rows'[id].(status := rows[id].status, reason := rows[id].reason, version := rows[id].version) == rows[id]
      && rows[id].version <= rows'[id].version
      && (rows[id].version == rows'[id].version ==> rows[id] == rows'[id])
  }

  ghost predicate EventsGrow(s: State, s': State) {
    && |s.outbox.rows| <= |s'.outbox.rows|
    && forall j :: 0 <= j < |s.outbox.rows| ==> s'.outbox.rows[j].event == s.outbox.rows[j].event
  }

  lemma HasEventGrows(s: State, s': State, id: TransferId)
    requires EventsGrow(s, s') && HasEvent(s, id)
    ensures HasEvent(s', id)
  {
    var j :| 0 <= j < |s.outbox.rows| && s.outbox.rows[j].event.transfer == id;
    assert s'.outbox.rows[j].event.transfer == id;
  }

  lemma CallStays(s: State, s': State, c: Call)
    requires CallOk(s, c) && RowsGrow(s.rows, s'.rows) && EventsGrow(s, s')
    requires c.id !in s.rows ==> c.id !in s'.rows
    requires c.pc.AtSave? && !HasEvent(s, c.id) ==> !HasEvent(s', c.id)
    ensures CallOk(s', c)
  {
    if c.pc.AtFill? {
      HasEventGrows(s, s', c.id);
    }
  }

  lemma CacheStays(s: State, s': State)
    requires CacheOk(s) && RowsGrow(s.rows, s'.rows) && EventsGrow(s, s')
    requires s'.cache == s.cache
    ensures CacheOk(s')
  {
    forall key | key in s'.cache
      ensures var t := s'.cache[key]; t.key == key && t.id in s'.rows && Names(s'.rows[t.id], t) && HasEvent(s', t.id)
    {
      HasEventGrows(s, s', s.cache[key].id);
    }
  }

  lemma EventsStay(s: State, s': State)
    requires EventsOk(s) && RowsGrow(s.rows, s'.rows) && s'.outbox == s.outbox
    ensures EventsOk(s')
  {
  }

  /** A row that does not change stays explained while the updates that landed are kept. */
  lemma ExplainedStays(s: State, s': State, id: TransferId)
    requires id in s.rows && id in s'.rows && s'.rows[id] == s.rows[id] && RowExplained(s, id)
    requires |s.handlers| <= |s'.handlers|
    requires forall k :: 0 <= k < |s.handlers| && s.handlers[k].won.Some? ==> s'.handlers[k] == s.handlers[k]
    ensures RowExplained(s', id)
  {
    if s.rows[id].version > 1 {
      var k :| WroteLast(s, id, k);
      assert WroteLast(s', id, k);
    }
    if s.rows[id].reason != NoReason {
      var k :| GaveReason(s, id, k);
      assert GaveReason(s', id, k);
    }
  }

  lemma HandlersStay(s: State, s': State)
    requires HandlersOk(s) && s'.rows == s.rows && s'.handlers == s.handlers
    ensures HandlersOk(s')
  {
    forall id | id in s'.rows ensures RowExplained(s', id) {
      ExplainedStays(s, s', id);
    }
  }

  // ---------- CreateTransfer ----------

  /** The other calls stay good when call `i` moves and only its transfer is touched. */
  lemma OtherCallsStay(s: State, s': State, i: nat)
    requires CallsOk(s) && i < |s.calls| && RowsGrow(s.rows, s'.rows) && EventsGrow(s, s')
    requires |s'.calls| == |s.calls| && s'.calls[i].id == s.calls[i].id
    requires forall k :: 0 <= k < |s.calls| && k != i ==> s'.calls[k] == s.calls[k]
    requires forall id :: id in s'.rows ==> id in s.rows || id == s.calls[i].id
    requires forall id :: HasEvent(s', id) ==> HasEvent(s, id) || id == s.calls[i].id
    requires CallOk(s', s'.calls[i])
    ensures CallsOk(s')
  {
    forall k | 0 <= k < |s'.calls| ensures CallOk(s', s'.calls[k]) {
      if k != i {
        assert CallOk(s, s.calls[k]);
        assert s.calls[k].id != s.calls[i].id;
        CallStays(s, s', s.calls[k]);
      }
    }
  }

  /** A step of call `i` that changes neither table nor outbox nor cache. */
  lemma CallMoves(s: State, i: nat, pc: CallPc)
    requires Inv(s) && i < |s.calls| && CallOk(s, s.calls[i].(pc := pc))
    ensures Inv(s.(calls := s.calls[i := s.calls[i].(pc := pc)]))
  {
    var s' := s.(calls := s.calls[i := s.calls[i].(pc := pc)]);
    SameEvents(s, s');
    CallStays(s, s', s'.calls[i]);
    OtherCallsStay(s, s', i);
    EventsStay(s, s');
    CacheStays(s, s');
    HandlersStay(s, s');
  }

  lemma InsertKeepsRows(rows: Rows, c: Call)
    requires RowsOk(rows) && c.id !in rows && !KeyTaken(rows, c.key) && Acceptable(c.source, c.dest, c.amount)
    ensures RowsOk(rows[c.id := Store(Draft(c))])
  {
    StoredIsWhole(c.amount);
  }

  lemma InsertKeeps(s: State, i: nat, reply: Reply)
    requires Inv(s) && i < |s.calls| && s.calls[i].pc == AtInsert
    ensures Inv(AdvanceWith(s, i, reply))
  {
    assert CallOk(s, s.calls[i]);
    if reply.Refused? || KeyTaken(s.rows, s.calls[i].key) {
      CallMoves(s, i, Rejected);
    } else {
      InsertLands(s, i, reply);
    }
  }

  lemma InsertLands(s: State, i: nat, reply: Reply)
    requires Inv(s) && i < |s.calls| && s.calls[i].pc == AtInsert && !reply.Refused? && !KeyTaken(s.rows, s.calls[i].key)
    ensures Inv(AdvanceWith(s, i, reply))
  {
    var c, s' := s.calls[i], AdvanceWith(s, i, reply);
    assert CallOk(s, c);
    assert s'.rows == s.rows[c.id := Store(Draft(c))];
    InsertKeepsRows(s.rows, c);
    InsertKeepsCalls(s, s', i);
    EventsStay(s, s');
    CacheStays(s, s');
    InsertKeepsHandlers(s, s', c.id);
  }

  lemma InsertKeepsCalls(s: State, s': State, i: nat)
    requires CallsOk(s) && EventsOk(s) && i < |s.calls| && s.calls[i].pc == AtInsert && s'.outbox == s.outbox
    requires s'.rows == s.rows[s.calls[i].id := Store(Draft(s.calls[i]))]
    requires s'.calls == s.calls[i := s.calls[i].(pc := AtSave)] || s'.calls == s.calls[i := s.calls[i].(pc := Rejected)]
    ensures CallsOk(s')
  {
    assert CallOk(s, s.calls[i]);
    NoEventYet(s, s.calls[i].id);
    SameEvents(s, s');
    OtherCallsStay(s, s', i);
  }

  lemma SameEvents(s: State, s': State)
    requires |s'.outbox.rows| == |s.outbox.rows| && EventsGrow(s, s')
    ensures EventsGrow(s', s)
    ensures forall id :: HasEvent(s', id) <==> HasEvent(s, id)
  {
    forall id ensures HasEvent(s', id) <==> HasEvent(s, id) {
      if HasEvent(s, id) {
        HasEventGrows(s, s', id);
      }
      if HasEvent(s', id) {
        HasEventGrows(s', s, id);
      }
    }
  }

  lemma StoredIsWhole(amount: real)
    ensures Quantise(Quantise(amount) as real) == Quantise(amount)
  {
    QuantiseIsNearest(Quantise(amount) as real, Quantise(amount));
  }

  lemma NoEventYet(s: State, id: TransferId)
    requires EventsOk(s) && id !in s.rows
    ensures !HasEvent(s, id)
  {
  }

  lemma InsertKeepsHandlers(s: State, s': State, id: TransferId)
    requires HandlersOk(s) && id !in s.rows && s'.handlers == s.handlers
    requires id in s'.rows && s'.rows == s.rows[id := s'.rows[id]]
    requires s'.rows[id].version == 1 && s'.rows[id].reason == NoReason
    ensures HandlersOk(s')
  {
    forall x | x in s'.rows ensures RowExplained(s', x) {
      if x != id {
        ExplainedStays(s, s', x);
      }
    }
  }

  lemma SaveKeeps(s: State, i: nat, reply: Reply)
    requires Inv(s) && i < |s.calls| && s.calls[i].pc == AtSave
    ensures Inv(AdvanceWith(s, i, reply))
  {
    var c := s.calls[i];
    assert CallOk(s, c);
    if reply.Refused? {
      CallMoves(s, i, Rejected);
    } else {
      var s' := AdvanceWith(s, i, reply);
      SaveKeepsEvents(s, s', c, reply);
      OtherCallsStay(s, s', i);
      CacheStays(s, s');
      HandlersStay(s, s');
    }
  }

  lemma SaveKeepsEvents(s: State, s': State, c: Call, reply: Reply)
    requires EventsOk(s) && !reply.Refused? && !HasEvent(s, c.id)
    requires c.id in s.rows && Names(s.rows[c.id], Draft(c)) && Acceptable(c.source, c.dest, c.amount)
    requires s'.rows == s.rows && s'.outbox == Outbox.Save(s.outbox, EventOf(c), reply)
    ensures EventsOk(s') && EventsGrow(s, s')
    ensures forall id :: HasEvent(s', id) <==> HasEvent(s, id) || id == c.id
  {
    Outbox.SaveKeepsInv(s.outbox, EventOf(c), reply);
    assert s'.outbox.rows[|s.outbox.rows|].event.transfer == c.id;
    forall id ensures HasEvent(s', id) <==> HasEvent(s, id) || id == c.id {
      if HasEvent(s, id) {
        HasEventGrows(s, s', id);
      }
      if HasEvent(s', id) {
        var j :| 0 <= j < |s'.outbox.rows| && s'.outbox.rows[j].event.transfer == id;
        assert j < |s.outbox.rows| ==> s.outbox.rows[j].event.transfer == id;
      }
    }
  }

  lemma FillKeeps(s: State, i: nat, reply: Reply)
    requires Inv(s) && i < |s.calls| && s.calls[i].pc == AtFill
    ensures Inv(AdvanceWith(s, i, reply))
  {
    var c := s.calls[i];
    assert CallOk(s, c);
    CallMoves(s, i, Replied(Draft(c)));
    if !reply.Refused? {
      CacheFills(s.(calls := s.calls[i := c.(pc := Replied(Draft(c)))]), c);
    }
  }

  lemma CacheFills(s: State, c: Call)
    requires Inv(s) && c.id in s.rows && Names(s.rows[c.id], Draft(c)) && HasEvent(s, c.id)
    ensures Inv(s.(cache := s.cache[c.key := Draft(c)]))
  {
    CacheChanges(s, s.cache[c.key := Draft(c)]);
  }

  lemma CacheChanges(s: State, cache: map<Key, TransferData>)
    requires Inv(s) && CacheOk(s.(cache := cache))
    ensures Inv(s.(cache := cache))
  {
    var s' := s.(cache := cache);
    forall k | 0 <= k < |s'.calls| ensures CallOk(s', s'.calls[k]) {
      assert CallOk(s, s.calls[k]);
      CallStays(s, s', s.calls[k]);
    }
    HandlersStay(s, s');
  }

  lemma AdvanceKeeps(s: State, i: nat, reply: Reply)
    requires Inv(s) && i < |s.calls|
    ensures Inv(AdvanceWith(s, i, reply))
  {
    var c := s.calls[i];
    assert CallOk(s, c);
    match c.pc
    case AtCache => CallMoves(s, i, if reply.Acked? && c.key in s.cache then Replied(s.cache[c.key]) else AtLookup);
    case AtLookup => CallMoves(s, i, AfterLookup(s, c, reply));
    case AtInsert => InsertKeeps(s, i, reply);
    case AtSave => SaveKeeps(s, i, reply);
    case AtFill => FillKeeps(s, i, reply);
    case Replied(_) =>
    case Rejected =>
  }

  lemma SubmitKeeps(s: State, c: Call)
    requires Inv(s) && FreshId(s, c.id) && c.pc == AtCache
    ensures Inv(s.(calls := s.calls + [c]))
  {
    var s' := s.(calls := s.calls + [c]);
    forall k | 0 <= k < |s'.calls| ensures CallOk(s', s'.calls[k]) {
      if k < |s.calls| {
        assert CallOk(s, s.calls[k]);
        CallStays(s, s', s.calls[k]);
      }
    }
    CacheStays(s, s');
    HandlersStay(s, s');
  }

  // ---------- outcome handlers ----------

  lemma HandlersChange(s: State, s': State)
    requires Inv(s) && RowsGrow(s.rows, s'.rows) && s'.rows.Keys == s.rows.Keys
    requires s'.outbox == s.outbox && s'.cache == s.cache && s'.calls == s.calls
    requires RowsOk(s'.rows) && HandlersOk(s')
    ensures Inv(s')
  {
    assert forall id :: HasEvent(s', id) <==> HasEvent(s, id);
    forall k | 0 <= k < |s'.calls| ensures CallOk(s', s'.calls[k]) {
      assert CallOk(s, s.calls[k]);
      CallStays(s, s', s.calls[k]);
    }
    EventsStay(s, s');
    CacheStays(s, s');
  }

  /** A handler that has not written yet moves, or appears. */
  lemma HandlerMoves(s: State, s': State, i: nat, h: Handler)
    requires Inv(s) && s' == s.(handlers := s'.handlers) && i <= |s.handlers|
    requires s'.handlers == if i < |s.handlers| then s.handlers[i := h] else s.handlers + [h]
    requires i < |s.handlers| ==> s.handlers[i].won.None?
    requires h.won.None? && HandlerOk(s.rows, h)
    ensures Inv(s')
  {
    forall id: TransferId ensures Sum(s'.handlers, WinsOf(id)) == Sum(s.handlers, WinsOf(id)) {
      if i < |s.handlers| {
        SumUpdate(s.handlers, i, h, WinsOf(id));
      } else {
        SumPush(s.handlers, h, WinsOf(id));
      }
    }
    forall id | id in s'.rows ensures RowExplained(s', id) {
      ExplainedStays(s, s', id);
    }
    HandlersChange(s, s');
  }

  /** An update that lands. */
  lemma UpdateKeeps(s: State, i: nat, reply: Reply)
    requires Inv(s) && i < |s.handlers| && s.handlers[i].pc.AtUpdate?
    requires !reply.Refused? && Current(s.rows, s.handlers[i].pc.transfer)
    ensures Inv(HandleWith(s, i, reply))
  {
    var s' := HandleWith(s, i, reply);
    var h := s.handlers[i];
    assert HandlerOk(s.rows, h);
    assert s'.rows == s.rows[h.event.transfer := Marked(s.rows[h.event.transfer], h.event)];
    LandedKeeps(s, s', i);
  }

  lemma LandedKeeps(s: State, s': State, i: nat)
    requires Inv(s) && Landed(s, s', i) && s.handlers[i].won.None?
    requires s'.outbox == s.outbox && s'.cache == s.cache && s'.calls == s.calls
    ensures Inv(s')
  {
    UpdateKeepsRows(s.rows, s.handlers[i].event);
    LandedKeepsHandlers(s, s', i);
    HandlersChange(s, s');
  }

  lemma LandedKeepsHandlers(s: State, s': State, i: nat)
    requires HandlersOk(s) && RowsOk(s.rows) && Landed(s, s', i) && s.handlers[i].won.None?
    ensures HandlersOk(s')
  {
    UpdateKeepsWins(s, s', i);
    forall x: TransferId
      ensures Sum(s'.handlers, WinsOf(x)) == if x in s'.rows then s'.rows[x].version - 1 else 0
    {
      UpdateCounts(s, s', i, x);
    }
    forall x | x in s'.rows ensures RowExplained(s', x) {
      UpdateExplains(s, s', i, x);
    }
  }

  lemma UpdateKeepsRows(rows: Rows, event: Outcome)
    requires RowsOk(rows) && event.transfer in rows
    ensures RowsOk(rows[event.transfer := Marked(rows[event.transfer], event)])
    ensures RowsGrow(rows, rows[event.transfer := Marked(rows[event.transfer], event)])
  {
  }

  /** From `s` to `s'` handler `i` wrote its update. */
  ghost predicate Landed(s: State, s': State, i: nat) {
    && i < |s.handlers| && s.handlers[i].pc.AtUpdate? && s.handlers[i].event.transfer in s.rows
    && var id, h := s.handlers[i].event.transfer, s.handlers[i];
       && s'.rows == s.rows[id := Marked(s.rows[id], h.event)]
       && |s'.handlers| == |s.handlers|
       && s'.handlers == s.handlers[i := s'.handlers[i]]
       && s'.handlers[i].pc.Ended?
       && s'.handlers[i].event == h.event && s'.handlers[i].won == Some(s'.rows[id].version)
  }

  lemma UpdateKeepsHandlers(s: State, s': State, i: nat, k: nat)
    requires HandlersOk(s) && RowsOk(s.rows) && Landed(s, s', i) && k < |s.handlers|
    ensures HandlerOk(s'.rows, s'.handlers[k])
    ensures k != i && s.handlers[k].won.Some? && s.handlers[k].event.transfer == s.handlers[i].event.transfer ==>
              s.handlers[k].won.value < s'.handlers[i].won.value
  {
    assert HandlerOk(s.rows, s.handlers[k]);
  }

  /** The new version is above every version won before, so no version is won twice. */
  lemma UpdateKeepsWins(s: State, s': State, i: nat)
    requires HandlersOk(s) && RowsOk(s.rows) && Landed(s, s', i)
    ensures forall k :: 0 <= k < |s'.handlers| ==> HandlerOk(s'.rows, s'.handlers[k])
    ensures forall a, b :: 0 <= a < b < |s'.handlers| && s'.handlers[a].won.Some? && s'.handlers[a].won == s'.handlers[b].won ==>
              s'.handlers[a].event.transfer != s'.handlers[b].event.transfer
  {
    forall k | 0 <= k < |s'.handlers|
      ensures HandlerOk(s'.rows, s'.handlers[k])
      ensures k != i && s.handlers[k].won.Some? && s.handlers[k].event.transfer == s.handlers[i].event.transfer ==>
                s.handlers[k].won.value < s'.handlers[i].won.value
    {
      UpdateKeepsHandlers(s, s', i, k);
    }
  }

  lemma UpdateCounts(s: State, s': State, i: nat, x: TransferId)
    requires HandlersOk(s) && Landed(s, s', i)
    ensures Sum(s'.handlers, WinsOf(x)) == if x in s'.rows then s'.rows[x].version - 1 else 0
  {
    assert HandlerOk(s.rows, s.handlers[i]);
    SumUpdate(s.handlers, i, s'.handlers[i], WinsOf(x));
  }

  lemma UpdateExplains(s: State, s': State, i: nat, x: TransferId)
    requires HandlersOk(s) && Landed(s, s', i) && s.handlers[i].won.None? && x in s.rows
    ensures RowExplained(s', x)
  {
    assert RowExplained(s, x);
    var h := s.handlers[i];
    if x == h.event.transfer {
      assert WroteLast(s', x, i);
    } else if s.rows[x].version > 1 {
      var k :| WroteLast(s, x, k);
      assert WroteLast(s', x, k);
    }
    if s'.rows[x].reason != NoReason {
      if x == h.event.transfer && h.event.Failed? {
        assert GaveReason(s', x, i);
      } else {
        var k :| GaveReason(s, x, k);
        assert GaveReason(s', x, k);
      }
    }
  }

  lemma HandleKeeps(s: State, i: nat, reply: Reply)
    requires Inv(s) && i < |s.handlers|
    ensures Inv(HandleWith(s, i, reply))
  {
    var h := s.handlers[i];
    var s' := HandleWith(s, i, reply);
    assert HandlerOk(s.rows, h);
    match h.pc
    case AtFetch => HandlerMoves(s, s', i, s'.handlers[i]);
    case AtUpdate(t) =>
      if !reply.Refused? && Current(s.rows, t) {
        UpdateKeeps(s, i, reply);
      } else {
        HandlerMoves(s, s', i, s'.handlers[i]);
      }
    case Ended(_) =>
  }

  // ---------- runs ----------

  lemma RelayKeepsCalls(s: State, s': State)
    requires CallsOk(s) && s'.calls == s.calls && s'.rows == s.rows
    requires EventsGrow(s, s') && |s'.outbox.rows| == |s.outbox.rows|
    ensures CallsOk(s')
  {
    SameEvents(s, s');
    forall k | 0 <= k < |s'.calls| ensures CallOk(s', s'.calls[k]) {
      assert CallOk(s, s.calls[k]);
      CallStays(s, s', s.calls[k]);
    }
  }

  lemma RelayKeepsEvents(s: State, s': State)
    requires EventsOk(s) && s'.rows == s.rows && Outbox.Inv(s'.outbox)
    requires EventsGrow(s, s') && |s'.outbox.rows| == |s.outbox.rows|
    ensures EventsOk(s')
  {
  }

  lemma RelayKeeps(s: State, step: Outbox.Step)
    requires Inv(s)
    ensures Inv(Next(s, Relay(step)))
  {
    var s' := Next(s, Relay(step));
    Outbox.NextKeepsInv(s.outbox, step);
    RelayKeepsCalls(s, s');
    RelayKeepsEvents(s, s');
    CacheStays(s, s');
    HandlersStay(s, s');
  }

  lemma NextKeepsInv(s: State, step: Step)
    requires Inv(s)
    ensures Inv(Next(s, step))
  {
    match step
    case Submit(key, source, dest, amount, currency, id) =>
      if FreshId(s, id) {
        SubmitKeeps(s, Call(key, source, dest, amount, currency, id, AtCache));
      }
    case Advance(i, reply) =>
      if i < |s.calls| {
        AdvanceKeeps(s, i, reply);
      }
    case Expire(key) => CacheChanges(s, s.cache - {key});
    case Deliver(event) => HandlerMoves(s, Next(s, step), |s.handlers|, Handler(event, AtFetch, None));
    case Handle(i, reply) =>
      if i < |s.handlers| {
        HandleKeeps(s, i, reply);
      }
    case Relay(r) => RelayKeeps(s, r);
  }

  /** Every schedule keeps the invariant. */
  lemma {:induction false} RunKeepsInv(s: State, steps: seq<Step>)
    requires Inv(s)
    ensures Inv(Run(s, steps))
  {
    if steps != [] {
      RunKeepsInv(s, steps[..|steps| - 1]);
      NextKeepsInv(Run(s, steps[..|steps| - 1]), steps[|steps| - 1]);
    }
  }
}
