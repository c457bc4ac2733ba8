/** The outbox repository, the producer, and the relay that drains one into the other. */
module OutboxRelay {
  import opened Wrappers
  import Outbox

  /** A row as the relay sees it. */
  datatype Fetched<E> = Fetched(id: nat, event: E)

  class OutboxRepository<E> {
    var rows: seq<Outbox.Row<E>>

    constructor ()
      ensures rows == []
    {
      rows := [];
    }

    method SaveEvent(event: E, reply: Reply) returns (ok: bool)
      modifies this
      ensures rows == if reply.Refused? then old(rows) else old(rows) + [Outbox.Row(event, false)]
      ensures ok <==> reply.Acked?
    {
      if reply.Refused? {
        return false;
      }
      rows := rows + [Outbox.Row(event, false)];
      return reply.Acked?;
    }

    method GetUnpublished(limit: nat, reply: Reply) returns (r: Option<seq<Fetched<E>>>)
      ensures r.Some? <==> reply.Acked?
      ensures r.Some? ==>
                var ids := Outbox.Unpublished(rows, 0, limit);
                && |r.value| == |ids|
                && (forall i :: 0 <= i < |ids| ==> r.value[i] == Fetched(ids[i], rows[ids[i]].event))
    {
      if !reply.Acked? {
        return None;
      }
      var events: seq<Fetched<E>> := [];
      ghost var ids: seq<nat> := [];
      var next := 0;
      while next < |rows| && |events| < limit
        invariant next <= |rows| && |events| == |ids| <= limit
        invariant ids + Outbox.Unpublished(rows, next, limit - |ids|) == Outbox.Unpublished(rows, 0, limit)
        invariant forall i :: 0 <= i < |ids| ==> ids[i] < |rows| && events[i] == Fetched(ids[i], rows[ids[i]].event)
      {
        if !rows[next].published {
          events := events + [Fetched(next, rows[next].event)];
          ids := ids + [next];
        }
        next := next + 1;
      }
      return Some(events);
    }

    method MarkPublished(id: nat, reply: Reply) returns (ok: bool)
      modifies this
      ensures rows == Outbox.MarkRow(old(rows), id, reply)
      ensures ok <==> reply.Acked?
    {
      if !reply.Refused? && id < |rows| {
        rows := rows[id := rows[id].(published := true)];
      }
      return reply.Acked?;
    }
  }

  /** The producer, with the topic it appends to. */
  class Producer<E> {
    var log: seq<E>

    constructor ()
      ensures log == []
    {
      log := [];
    }

    method Publish(event: E, reply: Reply) returns (ok: bool)
      modifies this
      ensures log == if reply.Refused? then old(log) else old(log) + [event]
      ensures ok <==> reply.Acked?
    {
      if !reply.Refused? {
        log := log + [event];
      }
      return reply.Acked?;
    }
  }

  class OutboxRelay<E> {
    const outbox: OutboxRepository<E>
    const publisher: Producer<E>

    constructor (outbox: OutboxRepository<E>, publisher: Producer<E>)
      ensures this.outbox == outbox && this.publisher == publisher
    {
      this.outbox := outbox;
      this.publisher := publisher;
    }

    ghost function View(): Outbox.State<E>
      reads outbox, publisher
    {
      Outbox.State(outbox.rows, publisher.log, [])
    }

    /** One tick: fetch up to fifty rows, then publish and mark each; a failure moves on to the next row.
        `publish` and `mark` say how the calls for each row end. */
    method Relay(fetch: Reply, publish: nat -> Reply, mark: nat -> Reply)
      modifies outbox, publisher
      ensures View() == if fetch.Acked? then Outbox.RelayCall(old(View()), publish, mark) else old(View())
    {
      var fetched := outbox.GetUnpublished(Outbox.BATCH, fetch);
      if fetched.None? {
        return;
      }
      var events := fetched.value;
      ghost var batch := Outbox.Unpublished(outbox.rows, 0, Outbox.BATCH);
      ghost var before := View();
      var i := 0;
      while i < |events|
        invariant i <= |events|
        invariant View() == Outbox.DeliverAll(before, batch[..i], publish, mark)
        invariant forall j :: 0 <= j < |before.rows| ==> outbox.rows[j].event == before.rows[j].event
      {
        var e := events[i];
        Outbox.DeliverNext(before, batch, i, publish, mark);
        i := i + 1;
        var published := publisher.Publish(e.event, publish(e.id));
        if !published {
          continue;
        }
        var marked := outbox.MarkPublished(e.id, mark(e.id));
      }
      assert batch[..i] == batch;
    }
  }
}
