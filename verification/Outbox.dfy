/** The outbox table, the topic it feeds, and the relay between them, as one transition system.
    Both services run this code, each over its own event type `E`.

    A row is named by its position in the table, which is its place in created_at order. */
module Outbox {
  import opened Wrappers

  datatype Row<E> = Row(event: E, published: bool)

  /** One relay call in progress: the fetched rows still to handle, and whether the first of them
      has been published and is waiting to be marked.  A call that is never scheduled again has crashed. */
  datatype Pass = Pass(todo: seq<nat>, marking: bool)

  datatype State<E> = State(rows: seq<Row<E>>, log: seq<E>, passes: seq<Pass>)

  datatype Step =
    | Fetch
    | Publish(pass: nat, reply: Reply)
    | Mark(pass: nat, reply: Reply)

  const BATCH: nat := 50

  function Empty<E>(): State<E> {
    State([], [], [])
  }

  /** INSERT of an unpublished row. */
  function Save<E>(s: State<E>, e: E, reply: Reply): State<E> {
    if reply.Refused? then s else s.(rows := s.rows + [Row(e, false)])
  }

  /** The first `limit` unpublished rows at or after position `start`. */
  function Unpublished<E>(rows: seq<Row<E>>, start: nat, limit: nat): (ids: seq<nat>)
    ensures forall i :: 0 <= i < |ids| ==> start <= ids[i] < |rows| && !rows[ids[i]].published
    decreases |rows| - start
  {
    if start >= |rows| || limit == 0 then []
    else if rows[start].published then Unpublished(rows, start + 1, limit)
    else [start] + Unpublished(rows, start + 1, limit - 1)
  }

  /** UPDATE outbox_events SET published = true WHERE id = ... */
  function MarkRow<E>(rows: seq<Row<E>>, id: nat, reply: Reply): seq<Row<E>> {
    if reply.Refused? || id >= |rows| then rows else rows[id := rows[id].(published := true)]
  }

  function Next<E>(s: State<E>, step: Step): State<E> {
    match step
    case Fetch =>
      s.(passes := s.passes + [Pass(Unpublished(s.rows, 0, BATCH), false)])
    case Publish(p, reply) =>
      if p < |s.passes| && !s.passes[p].marking && s.passes[p].todo != [] && s.passes[p].todo[0] < |s.rows| then
        var todo := s.passes[p].todo;
        s.(log := if reply.Refused? then s.log else s.log + [s.rows[todo[0]].event],
           passes := s.passes[p := if reply.Acked? then Pass(todo, true) else Pass(todo[1..], false)])
      else s
    case Mark(p, reply) =>
      if p < |s.passes| && s.passes[p].marking && s.passes[p].todo != [] then
        var todo := s.passes[p].todo;
        s.(rows := MarkRow(s.rows, todo[0], reply), passes := s.passes[p := Pass(todo[1..], false)])
      else s
  }

  function Run<E>(s: State<E>, steps: seq<Step>): State<E> {
    if steps == [] then s else Next(Run(s, steps[..|steps| - 1]), steps[|steps| - 1])
  }

  // ---------- at-least-once delivery, whatever fails and however relay calls interleave ----------

  ghost predicate SavedSomewhere<E(!new)>(rows: seq<Row<E>>, e: E) {
    exists j :: 0 <= j < |rows| && rows[j].event == e
  }

  ghost predicate PassOk<E(!new)>(s: State<E>, pass: Pass) {
    && (forall i :: 0 <= i < |pass.todo| ==> pass.todo[i] < |s.rows|)
    && (pass.marking ==> pass.todo != [] && s.rows[pass.todo[0]].event in s.log)
  }

  ghost predicate Inv<E(!new)>(s: State<E>) {
    && (forall j :: 0 <= j < |s.rows| && s.rows[j].published ==> s.rows[j].event in s.log)
    && (forall e :: e in s.log ==> SavedSomewhere(s.rows, e))
    && (forall p :: 0 <= p < |s.passes| ==> PassOk(s, s.passes[p]))
  }

  /** Rows are never removed or rewritten, publication is never undone, and the log only grows. */
  ghost predicate Extends<E(!new)>(s: State<E>, s': State<E>) {
    && |s.rows| <= |s'.rows|
    && (forall j :: 0 <= j < |s.rows| ==> s'.rows[j].event == s.rows[j].event)
    && (forall j :: 0 <= j < |s.rows| && s.rows[j].published ==> s'.rows[j].published)
    && s.log <= s'.log
  }

  lemma SaveKeepsInv<E(!new)>(s: State<E>, e: E, reply: Reply)
    requires Inv(s)
    ensures Inv(Save(s, e, reply)) && Extends(s, Save(s, e, reply))
  {
    var s' := Save(s, e, reply);
    forall d | d in s'.log ensures SavedSomewhere(s'.rows, d) {
      var j :| 0 <= j < |s.rows| && s.rows[j].event == d;
      assert s'.rows[j].event == d;
    }
  }

  lemma NextKeepsInv<E(!new)>(s: State<E>, step: Step)
    requires Inv(s)
    ensures Inv(Next(s, step)) && Extends(s, Next(s, step))
  {
    var s' := Next(s, step);
    if s' != s {
      if step.Fetch? {
      } else {
        var pass := s.passes[step.pass];
        assert PassOk(s, pass);
        forall d | d in s'.log ensures SavedSomewhere(s'.rows, d) {
          var j :| 0 <= j < |s.rows| && s.rows[j].event == d;
          assert s'.rows[j].event == d;
        }
        forall p | 0 <= p < |s'.passes| ensures PassOk(s', s'.passes[p]) {
          assert PassOk(s, s.passes[p]);
        }
      }
    }
  }

  /** Over every interleaving of relay calls, and whatever publishing and marking do: a row marked
      published has its record in the log, every log record is the event of some row, no row is lost or
      rewritten, and the log only grows. */
  lemma {:induction false} AtLeastOnce<E(!new)>(s: State<E>, steps: seq<Step>)
    requires Inv(s)
    ensures Inv(Run(s, steps)) && Extends(s, Run(s, steps))
  {
    if steps != [] {
      AtLeastOnce(s, steps[..|steps| - 1]);
      NextKeepsInv(Run(s, steps[..|steps| - 1]), steps[|steps| - 1]);
    }
  }

  // ---------- one whole relay call ----------

  /** One iteration of the relay loop: publish, and mark only when the publish was acknowledged. */
  function Deliver<E>(s: State<E>, id: nat, publish: Reply, mark: Reply): State<E>
    requires id < |s.rows|
  {
    State(
      if publish.Acked? then MarkRow(s.rows, id, mark) else s.rows,
      if publish.Refused? then s.log else s.log + [s.rows[id].event],
      s.passes)
  }

  /** The relay loop over `batch`; `publish` and `mark` say how the calls for each row end. */
  function DeliverAll<E>(s: State<E>, batch: seq<nat>, publish: nat -> Reply, mark: nat -> Reply): (s': State<E>)
    requires forall i :: 0 <= i < |batch| ==> batch[i] < |s.rows|
    ensures |s'.rows| == |s.rows|
  {
    if batch == [] then s
    else
      var last := batch[|batch| - 1];
      Deliver(DeliverAll(s, batch[..|batch| - 1], publish, mark), last, publish(last), mark(last))
  }

  lemma DeliverNext<E>(s: State<E>, batch: seq<nat>, i: nat, publish: nat -> Reply, mark: nat -> Reply)
    requires forall k :: 0 <= k < |batch| ==> batch[k] < |s.rows|
    requires i < |batch|
    ensures DeliverAll(s, batch[..i + 1], publish, mark)
            == Deliver(DeliverAll(s, batch[..i], publish, mark), batch[i], publish(batch[i]), mark(batch[i]))
  {
    assert batch[..i + 1][..i] == batch[..i];
  }

  /** One call of `relay`. */
  function RelayCall<E>(s: State<E>, publish: nat -> Reply, mark: nat -> Reply): State<E> {
    DeliverAll(s, Unpublished(s.rows, 0, BATCH), publish, mark)
  }

  /** The schedule of micro-steps that one uninterrupted relay call follows. */
  function Schedule(pass: nat, batch: seq<nat>, publish: nat -> Reply, mark: nat -> Reply): seq<Step> {
    if batch == [] then [Fetch]
    else
      var last := batch[|batch| - 1];
      Schedule(pass, batch[..|batch| - 1], publish, mark) + [Publish(pass, publish(last)), Mark(pass, mark(last))]
  }

  lemma {:induction false} DeliverAllIsScheduled<E(!new)>(s: State<E>, batch: seq<nat>, todo: seq<nat>,
                                                   publish: nat -> Reply, mark: nat -> Reply)
    requires Unpublished(s.rows, 0, BATCH) == batch + todo
    requires forall i :: 0 <= i < |batch| ==> batch[i] < |s.rows|
    ensures var s' := DeliverAll(s, batch, publish, mark);
            Run(s, Schedule(|s.passes|, batch, publish, mark)) == s'.(passes := s.passes + [Pass(todo, false)])
  {
    if batch == [] {
      assert batch + todo == todo;
      assert Run(s, []) == s;
    } else {
      var n := |batch| - 1;
      var last, front := batch[n], batch[..n];
      assert front + ([last] + todo) == batch + todo;
      DeliverAllIsScheduled(s, front, [last] + todo, publish, mark);
      var before := Schedule(|s.passes|, front, publish, mark);
      var pub, mk := Publish(|s.passes|, publish(last)), Mark(|s.passes|, mark(last));
      assert before + [pub, mk] == (before + [pub]) + [mk];
      assert (before + [pub, mk])[..|before| + 1] == before + [pub];
      assert (before + [pub])[..|before|] == before;
      var u := Run(s, before);
      var v := Next(u, pub);
      assert Run(s, before + [pub]) == v;
      assert Run(s, before + [pub, mk]) == Next(v, mk);
      assert ([last] + todo)[1..] == todo;
      assert u.passes[|s.passes|] == Pass([last] + todo, false);
      var d := DeliverAll(s, front, publish, mark);
      assert u.rows == d.rows && u.log == d.log;
      assert Next(v, mk).passes == s.passes + [Pass(todo, false)];
    }
  }

  /** A relay call that nothing interrupts is one run of the micro-steps. */
  lemma RelayCallIsRun<E(!new)>(s: State<E>, publish: nat -> Reply, mark: nat -> Reply)
    ensures var batch := Unpublished(s.rows, 0, 50);
            Run(s, Schedule(|s.passes|, batch, publish, mark))
            == RelayCall(s, publish, mark).(passes := s.passes + [Pass([], false)])
  {
    var batch := Unpublished(s.rows, 0, BATCH);
    assert batch + [] == batch;
    DeliverAllIsScheduled(s, batch, [], publish, mark);
  }

  /** The records that a relay loop over `batch` appends. */
  function Sent<E>(rows: seq<Row<E>>, batch: seq<nat>, publish: nat -> Reply): seq<E>
    requires forall i :: 0 <= i < |batch| ==> batch[i] < |rows|
  {
    if batch == [] then []
    else
      var last := batch[|batch| - 1];
      Sent(rows, batch[..|batch| - 1], publish) + if publish(last).Refused? then [] else [rows[last].event]
  }

  /** What a relay loop does, in closed form. */
  lemma {:induction false} DeliverAllEffect<E>(s: State<E>, batch: seq<nat>, publish: nat -> Reply, mark: nat -> Reply)
    requires forall i :: 0 <= i < |batch| ==> batch[i] < |s.rows|
    ensures var s' := DeliverAll(s, batch, publish, mark);
            && s'.log == s.log + Sent(s.rows, batch, publish)
            && s'.passes == s.passes
            && (forall j :: 0 <= j < |s.rows| ==> s'.rows[j].event == s.rows[j].event)
            && (forall j :: 0 <= j < |s.rows| ==>
                 (s'.rows[j].published <==>
                  s.rows[j].published || (j in batch && publish(j).Acked? && !mark(j).Refused?)))
  {
    if batch == [] {
    } else {
      var n := |batch| - 1;
      var front := batch[..n];
      assert batch == front + [batch[n]];
      DeliverAllEffect(s, front, publish, mark);
    }
  }
}
