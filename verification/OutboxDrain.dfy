/** How fast relay calls empty the outbox, and when they never do. */
module OutboxDrain {
  import opened Wrappers
  import opened Arithmetic
  import opened Outbox

  ghost predicate Increasing(ids: seq<nat>) {
    forall i, j :: 0 <= i < j < |ids| ==> ids[i] < ids[j]
  }

  /** An unpublished row is left out of a batch only if the batch is full and lies entirely before it. */
  ghost predicate LeavesOutOnlyNewer<E>(rows: seq<Row<E>>, start: nat, limit: nat, ids: seq<nat>) {
    forall j :: start <= j < |rows| && !rows[j].published && j !in ids ==>
      |ids| == limit && forall i :: 0 <= i < |ids| ==> ids[i] < j
  }

  ghost predicate IsOldest<E>(rows: seq<Row<E>>, start: nat, limit: nat, ids: seq<nat>) {
    Increasing(ids) && |ids| <= limit && LeavesOutOnlyNewer(rows, start, limit, ids)
  }

  /** A fetched batch is in table order and holds the oldest unpublished rows. */
  lemma {:induction false} BatchIsOldest<E>(rows: seq<Row<E>>, start: nat, limit: nat)
    ensures IsOldest(rows, start, limit, Unpublished(rows, start, limit))
    decreases |rows| - start
  {
    var ids := Unpublished(rows, start, limit);
    if start >= |rows| || limit == 0 {
      assert ids == [];
    } else if rows[start].published {
      BatchIsOldest(rows, start + 1, limit);
      assert ids == Unpublished(rows, start + 1, limit);
    } else {
      BatchIsOldest(rows, start + 1, limit - 1);
      var rest := Unpublished(rows, start + 1, limit - 1);
      BatchWithFirst(rows, start, limit, rest);
      assert ids == [start] + rest;
    }
  }

  lemma BatchWithFirst<E>(rows: seq<Row<E>>, start: nat, limit: nat, rest: seq<nat>)
    requires start < |rows| && limit > 0
    requires IsOldest(rows, start + 1, limit - 1, rest)
    requires forall i :: 0 <= i < |rest| ==> start < rest[i]
    ensures IsOldest(rows, start, limit, [start] + rest)
  {
    var ids := [start] + rest;
    forall j | start <= j < |rows| && !rows[j].published && j !in ids
      ensures |ids| == limit && forall i :: 0 <= i < |ids| ==> ids[i] < j
    {
      assert ids[0] == start;
      assert forall k :: 0 <= k < |rest| ==> ids[k + 1] == rest[k];
    }
  }

  function Elements(ids: seq<nat>): set<nat> {
    set j | j in ids
  }

  lemma {:induction false} IncreasingHasDistinct(ids: seq<nat>)
    requires Increasing(ids)
    ensures |Elements(ids)| == |ids|
  {
    if ids != [] {
      var front, last := ids[..|ids| - 1], ids[|ids| - 1];
      IncreasingHasDistinct(front);
      assert ids == front + [last];
      assert Elements(ids) == Elements(front) + {last};
      assert last !in front;
    }
  }

  lemma {:induction false} BelowIsSmall(s: set<nat>, n: nat)
    requires forall j :: j in s ==> j < n
    ensures |s| <= n
  {
    if n == 0 {
      assert s == {};
    } else {
      BelowIsSmall(s - {n - 1}, n - 1);
    }
  }

  /** Rows that must leave the queue before `target` can: unpublished, ahead of it, and not in `stuck`. */
  function Ahead<E>(rows: seq<Row<E>>, target: nat, stuck: set<nat>): set<nat> {
    set j | 0 <= j < target && j < |rows| && !rows[j].published && j !in stuck
  }

  function StuckAhead(target: nat, stuck: set<nat>): set<nat> {
    set j | j in stuck && j < target
  }

  /** A relay call fails, if at all, only on the rows in `stuck`. */
  ghost predicate FailsOnlyOn(publish: nat -> Reply, mark: nat -> Reply, stuck: set<nat>) {
    forall j :: j !in stuck ==> publish(j).Acked? && !mark(j).Refused?
  }

  /** One relay call either publishes `target` or takes a full batch ahead of it, of which at most
      `k` rows can remain. */
  lemma CallMakesProgress<E>(s: State<E>, target: nat, stuck: set<nat>, publish: nat -> Reply, mark: nat -> Reply)
    requires target < |s.rows| && target !in stuck
    requires FailsOnlyOn(publish, mark, stuck)
    ensures var s' := RelayCall(s, publish, mark);
            && (forall j :: 0 <= j < |s.rows| && s.rows[j].published ==> s'.rows[j].published)
            && (s'.rows[target].published
                || |Ahead(s'.rows, target, stuck)| + BATCH <= |Ahead(s.rows, target, stuck)| + |StuckAhead(target, stuck)|)
  {
    var ids := Unpublished(s.rows, 0, BATCH);
    BatchIsOldest(s.rows, 0, BATCH);
    DeliverAllEffect(s, ids, publish, mark);
    var s' := RelayCall(s, publish, mark);
    if !s'.rows[target].published {
      assert target !in ids;
      IncreasingHasDistinct(ids);
      var batch := Elements(ids);
      var ahead, ahead', stuckAhead := Ahead(s.rows, target, stuck), Ahead(s'.rows, target, stuck), StuckAhead(target, stuck);
      assert forall j :: j in batch ==> j < target && !s.rows[j].published;
      assert batch - stuckAhead <= ahead;
      assert ahead' <= ahead - (batch - stuckAhead) by {
        forall j | j in ahead' ensures j !in batch {
          assert !s'.rows[j].published;
        }
      }
      SubsetSize(ahead', ahead - (batch - stuckAhead));
      assert |ahead - (batch - stuckAhead)| == |ahead| - |batch - stuckAhead|;
      assert |batch - stuckAhead| >= |batch| - |stuckAhead| by {
        assert batch - stuckAhead == batch - (batch * stuckAhead);
        SubsetSize(batch * stuckAhead, stuckAhead);
      }
    }
  }

  lemma {:induction false} SubsetSize(a: set<nat>, b: set<nat>)
    requires a <= b
    ensures |a| <= |b|
  {
    if a != {} {
      var x :| x in a;
      SubsetSize(a - {x}, b - {x});
    }
  }

  /** What the replies are in one relay call, and which events are saved after it. */
  datatype Round<E> = Round(publish: nat -> Reply, mark: nat -> Reply, arrivals: seq<E>)

  function SaveAll<E>(rows: seq<Row<E>>, arrivals: seq<E>): (rows': seq<Row<E>>)
    ensures rows <= rows'
    ensures |rows'| == |rows| + |arrivals|
    ensures forall i :: 0 <= i < |arrivals| ==> rows'[|rows| + i] == Row(arrivals[i], false)
  {
    rows + seq(|arrivals|, i requires 0 <= i < |arrivals| => Row(arrivals[i], false))
  }

  function AfterRound<E>(s: State<E>, round: Round<E>): State<E> {
    var s' := RelayCall(s, round.publish, round.mark);
    s'.(rows := SaveAll(s'.rows, round.arrivals))
  }

  function AfterRounds<E>(s: State<E>, rounds: seq<Round<E>>): (s': State<E>)
    ensures |s'.rows| >= |s.rows|
    decreases |rounds|
  {
    if rounds == [] then s else AfterRounds(AfterRound(s, rounds[0]), rounds[1..])
  }

  lemma {:induction false} PublishedStays<E>(s: State<E>, rounds: seq<Round<E>>, target: nat)
    requires target < |s.rows| && s.rows[target].published
    ensures AfterRounds(s, rounds).rows[target].published
    decreases |rounds|
  {
    if rounds != [] {
      DeliverAllEffect(s, Unpublished(s.rows, 0, BATCH), rounds[0].publish, rounds[0].mark);
      PublishedStays(AfterRound(s, rounds[0]), rounds[1..], target);
    }
  }

  lemma {:induction false} DrainsEventually<E>(s: State<E>, rounds: seq<Round<E>>, target: nat, stuck: set<nat>, k: nat)
    requires target < |s.rows| && target !in stuck
    requires |StuckAhead(target, stuck)| <= k < 50
    requires forall r :: 0 <= r < |rounds| ==> FailsOnlyOn(rounds[r].publish, rounds[r].mark, stuck)
    requires |rounds| * (50 - k) > |Ahead(s.rows, target, stuck)|
    ensures AfterRounds(s, rounds).rows[target].published
    decreases |rounds|
  {
    var round := rounds[0];
    var called, s' := RelayCall(s, round.publish, round.mark), AfterRound(s, round);
    CallMakesProgress(s, target, stuck, round.publish, round.mark);
    if s'.rows[target].published {
      PublishedStays(s', rounds[1..], target);
    } else {
      assert Ahead(s'.rows, target, stuck) == Ahead(called.rows, target, stuck);
      OneLess(|rounds|, BATCH - k);
      DrainsEventually(s', rounds[1..], target, stuck, k);
    }
  }

  lemma OneLess(n: nat, d: nat)
    requires n > 0
    ensures (n - 1) * d == n * d - d
  {
  }

  lemma Reaches(n: nat, m: nat, d: nat)
    requires d > 0 && n >= m / d + 1
    ensures n * d > m
  {
    var q := m / d;
    assert m == q * d + m % d;
    assert (q + 1) * d == q * d + d;
    MulMonotone(q + 1, n, d);
  }

  /** Drain bound.  If at most k < 50 rows ahead of `target` can fail, then `target`, with m other
      unpublished rows ahead of it, is published within m / (50 - k) + 1 relay calls, whatever else is
      saved behind it meanwhile. */
  lemma {:induction false} DrainBound<E>(s: State<E>, rounds: seq<Round<E>>, target: nat, stuck: set<nat>, k: nat)
    requires target < |s.rows| && target !in stuck
    requires |StuckAhead(target, stuck)| <= k < 50
    requires forall r :: 0 <= r < |rounds| ==> FailsOnlyOn(rounds[r].publish, rounds[r].mark, stuck)
    requires |rounds| >= |Ahead(s.rows, target, stuck)| / (50 - k) + 1
    ensures AfterRounds(s, rounds).rows[target].published
  {
    Reaches(|rounds|, |Ahead(s.rows, target, stuck)|, BATCH - k);
    DrainsEventually(s, rounds, target, stuck, k);
  }

  lemma NotInBatch<E>(rows: seq<Row<E>>, target: nat, stuck: set<nat>)
    requires target < |rows| && |StuckAhead(target, stuck)| >= BATCH
    requires forall j :: j in stuck && j < target ==> !rows[j].published
    ensures target !in Unpublished(rows, 0, BATCH)
  {
    var ids := Unpublished(rows, 0, BATCH);
    BatchIsOldest(rows, 0, BATCH);
    if target in ids {
      var i :| 0 <= i < |ids| && ids[i] == target;
      StuckComeFirst(rows, target, stuck, ids, i);
      IncreasingHasDistinct(ids[..i]);
      SubsetSize(StuckAhead(target, stuck), Elements(ids[..i]));
      assert false;
    }
  }

  lemma StuckComeFirst<E>(rows: seq<Row<E>>, target: nat, stuck: set<nat>, ids: seq<nat>, i: nat)
    requires target < |rows| && i < |ids| && ids[i] == target
    requires Increasing(ids) && LeavesOutOnlyNewer(rows, 0, BATCH, ids)
    requires forall j :: j in stuck && j < target ==> !rows[j].published
    ensures StuckAhead(target, stuck) <= Elements(ids[..i])
  {
    forall j | j in StuckAhead(target, stuck) ensures j in ids[..i] {
      assert j in ids by {
        assert ids[i] >= j;
      }
      var k :| 0 <= k < |ids| && ids[k] == j;
      assert k < i;
    }
  }

  /** The bound k < 50 is sharp: behind fifty unpublished rows that are never acknowledged, a row is
      never published, however often the relay runs. */
  lemma {:induction false} FiftyStuckRowsStarve<E>(s: State<E>, rounds: seq<Round<E>>, target: nat, stuck: set<nat>)
    requires target < |s.rows| && !s.rows[target].published
    requires |StuckAhead(target, stuck)| >= 50
    requires forall j :: j in stuck && j < target ==> !s.rows[j].published
    requires forall r, j :: 0 <= r < |rounds| && j in stuck ==> !rounds[r].publish(j).Acked?
    ensures !AfterRounds(s, rounds).rows[target].published
    decreases |rounds|
  {
    if rounds != [] {
      NotInBatch(s.rows, target, stuck);
      DeliverAllEffect(s, Unpublished(s.rows, 0, BATCH), rounds[0].publish, rounds[0].mark);
      FiftyStuckRowsStarve(AfterRound(s, rounds[0]), rounds[1..], target, stuck);
    }
  }

  // ---------- without failures the relay is a FIFO queue ----------

  const ALWAYS: nat -> Reply := (_: nat) => Acked

  /** The unpublished rows, oldest first. */
  function Backlog<E>(rows: seq<Row<E>>): (ids: seq<nat>)
    ensures forall i :: 0 <= i < |ids| ==> ids[i] < |rows| && !rows[ids[i]].published
  {
    Unpublished(rows, 0, |rows|)
  }

  function EventsAt<E>(rows: seq<Row<E>>, ids: seq<nat>): seq<E>
    requires forall i :: 0 <= i < |ids| ==> ids[i] < |rows|
  {
    seq(|ids|, i requires 0 <= i < |ids| => rows[ids[i]].event)
  }

  lemma DropLast(ids: seq<nat>)
    requires Increasing(ids) && ids != []
    ensures var last := ids[|ids| - 1];
            && last in Elements(ids)
            && (forall j :: j in Elements(ids) ==> j <= last)
            && Elements(ids[..|ids| - 1]) == Elements(ids) - {last}
  {
    var front, last := ids[..|ids| - 1], ids[|ids| - 1];
    assert ids == front + [last];
  }

  lemma NotEmpty(ids: seq<nat>)
    ensures ids != [] ==> Elements(ids) != {}
  {
    if ids != [] {
      assert ids[0] in Elements(ids);
    }
  }

  /** An increasing sequence is determined by its elements. */
  lemma {:induction false} IncreasingIsUnique(a: seq<nat>, b: seq<nat>)
    requires Increasing(a) && Increasing(b)
    requires Elements(a) == Elements(b)
    ensures a == b
  {
    NotEmpty(a);
    NotEmpty(b);
    if a == [] || b == [] {
    } else {
      DropLast(a);
      DropLast(b);
      IncreasingIsUnique(a[..|a| - 1], b[..|b| - 1]);
      assert a == a[..|a| - 1] + [a[|a| - 1]];
      assert b == b[..|b| - 1] + [b[|b| - 1]];
    }
  }

  /** The batch is the beginning of the backlog. */
  lemma BatchIsPrefix<E>(rows: seq<Row<E>>)
    ensures var all := Backlog(rows);
            Unpublished(rows, 0, BATCH) == all[..Min(BATCH, |all|)]
    ensures Increasing(Backlog(rows))
    ensures forall j :: j in Backlog(rows) <==> 0 <= j < |rows| && !rows[j].published
  {
    var all, ids := Backlog(rows), Unpublished(rows, 0, BATCH);
    BatchIsOldest(rows, 0, BATCH);
    BatchIsOldest(rows, 0, |rows|);
    forall j | 0 <= j < |rows| && !rows[j].published ensures j in all {
      if j !in all {
        IncreasingHasDistinct(all);
        BelowIsSmall(Elements(all) , j);
        assert false;
      }
    }
    PrefixOfIncreasing(all, ids);
    assert |ids| < |all| ==> all[|ids|] in all && all[|ids|] !in ids;
  }

  /** An increasing selection from `all` that skips nothing before its last element is a prefix. */
  lemma {:induction false} PrefixOfIncreasing(all: seq<nat>, ids: seq<nat>)
    requires Increasing(all) && Increasing(ids)
    requires forall j :: j in ids ==> j in all
    requires forall j, i :: j in all && j !in ids && 0 <= i < |ids| ==> ids[i] < j
    ensures |ids| <= |all| && ids == all[..|ids|]
  {
    if ids != [] {
      assert ids[0] in ids;
      assert all[0] in all;
      var oldest, first := all[0], ids[0];
      assert oldest in ids || first < oldest;
      forall j | j in ids[1..] ensures j in all[1..] {
        assert j in ids;
        assert all == [all[0]] + all[1..];
      }
      forall j, i | j in all[1..] && j !in ids[1..] && 0 <= i < |ids[1..]| ensures ids[1..][i] < j {
        assert ids == [ids[0]] + ids[1..];
        assert j in all && j !in ids;
        assert ids[i + 1] < j;
      }
      PrefixOfIncreasing(all[1..], ids[1..]);
      assert all[..|ids|] == [all[0]] + all[1..][..|ids| - 1];
    }
  }

  lemma {:induction false} SentWithoutFailure<E>(rows: seq<Row<E>>, batch: seq<nat>)
    requires forall i :: 0 <= i < |batch| ==> batch[i] < |rows|
    ensures Sent(rows, batch, ALWAYS) == EventsAt(rows, batch)
  {
    if batch != [] {
      SentWithoutFailure(rows, batch[..|batch| - 1]);
      assert EventsAt(rows, batch) == EventsAt(rows, batch[..|batch| - 1]) + [rows[batch[|batch| - 1]].event];
    }
  }

  /** From `s` to `s'` the oldest `sent` unpublished events were appended to the log, in creation order and
      once each, and what remains is the rest of the backlog. */
  ghost predicate Relayed<E>(s: State<E>, s': State<E>, sent: nat) {
    var all := Backlog(s.rows);
    && sent <= |all|
    && s'.log == s.log + EventsAt(s.rows, all[..sent])
    && Backlog(s'.rows) == all[sent..]
    && |s'.rows| == |s.rows|
    && (forall j :: 0 <= j < |s.rows| ==> s'.rows[j].event == s.rows[j].event)
  }

  lemma OneCallIsFifo<E>(s: State<E>)
    ensures Relayed(s, RelayCall(s, ALWAYS, ALWAYS), Min(50, |Backlog(s.rows)|))
  {
    var s' := RelayCall(s, ALWAYS, ALWAYS);
    var all, ids := Backlog(s.rows), Unpublished(s.rows, 0, BATCH);
    BatchIsPrefix(s.rows);
    DeliverAllEffect(s, ids, ALWAYS, ALWAYS);
    SentWithoutFailure(s.rows, ids);
    Remaining(s.rows, s'.rows, |ids|);
  }

  /** When exactly the first rows of the backlog become published, the rest of it remains. */
  lemma Remaining<E>(rows: seq<Row<E>>, rows': seq<Row<E>>, taken: nat)
    requires |rows| == |rows'| && taken <= |Backlog(rows)|
    requires forall j :: 0 <= j < |rows| ==> (rows'[j].published <==> rows[j].published || j in Backlog(rows)[..taken])
    ensures Backlog(rows') == Backlog(rows)[taken..]
  {
    var all := Backlog(rows);
    BatchIsPrefix(rows);
    BatchIsPrefix(rows');
    IncreasingRest(all, taken);
    assert Elements(Backlog(rows')) == Elements(all[taken..]);
    IncreasingIsUnique(Backlog(rows'), all[taken..]);
  }

  lemma IncreasingRest(all: seq<nat>, n: nat)
    requires Increasing(all) && n <= |all|
    ensures Increasing(all[n..])
    ensures forall j :: j in all[n..] <==> j in all && j !in all[..n]
  {
    assert all == all[..n] + all[n..];
    forall j | j in all[n..] ensures j !in all[..n] {
      var y :| 0 <= y < |all[n..]| && all[n..][y] == j;
      assert all[n + y] == j;
    }
  }

  function Calls<E>(s: State<E>, n: nat): (s': State<E>)
    ensures |s'.rows| == |s.rows|
  {
    if n == 0 then s else RelayCall(Calls(s, n - 1), ALWAYS, ALWAYS)
  }

  /** n calls without failure relay the oldest 50 n events of the backlog. */
  lemma {:induction false} RelayIsFifo<E>(s: State<E>, n: nat)
    ensures Relayed(s, Calls(s, n), Min(50 * n, |Backlog(s.rows)|))
  {
    var all := Backlog(s.rows);
    if n == 0 {
      assert all[0..] == all;
    } else {
      RelayIsFifo(s, n - 1);
      var mid := Calls(s, n - 1);
      OneCallIsFifo(mid);
      MinStep(n, |all|);
      RelayedTwice(s, mid, Calls(s, n), Min(BATCH * (n - 1), |all|), Min(BATCH, |Backlog(mid.rows)|));
    }
  }

  lemma MinStep(n: nat, total: nat)
    requires n > 0
    ensures var done := Min(BATCH * (n - 1), total);
            done + Min(BATCH, total - done) == Min(BATCH * n, total)
  {
  }

  lemma RelayedTwice<E>(s: State<E>, mid: State<E>, s': State<E>, first: nat, second: nat)
    requires Relayed(s, mid, first) && Relayed(mid, s', second)
    ensures Relayed(s, s', first + second)
  {
    var all, rest := Backlog(s.rows), Backlog(mid.rows);
    assert all[..first + second] == all[..first] + rest[..second];
    EventsSplit(s.rows, all[..first], rest[..second]);
    EventsSame(s.rows, mid.rows, rest[..second]);
  }

  lemma EventsSplit<E>(rows: seq<Row<E>>, a: seq<nat>, b: seq<nat>)
    requires forall i :: 0 <= i < |a + b| ==> (a + b)[i] < |rows|
    ensures (forall i :: 0 <= i < |a| ==> a[i] < |rows|) && (forall i :: 0 <= i < |b| ==> b[i] < |rows|)
    ensures EventsAt(rows, a + b) == EventsAt(rows, a) + EventsAt(rows, b)
  {
    assert forall i :: 0 <= i < |a| ==> a[i] == (a + b)[i];
    assert forall i :: 0 <= i < |b| ==> b[i] == (a + b)[|a| + i];
  }

  lemma EventsSame<E>(rows: seq<Row<E>>, rows': seq<Row<E>>, ids: seq<nat>)
    requires |rows| == |rows'| && forall j :: 0 <= j < |rows| ==> rows'[j].event == rows[j].event
    requires forall i :: 0 <= i < |ids| ==> ids[i] < |rows|
    ensures EventsAt(rows, ids) == EventsAt(rows', ids)
  {
  }

  /** A backlog of n events is gone after ceil(n / 50) calls, and not one call sooner. */
  lemma DrainedInCeiling<E>(s: State<E>, calls: nat)
    ensures Backlog(Calls(s, calls).rows) == [] <==> calls >= (|Backlog(s.rows)| + 50 - 1) / 50
  {
    RelayIsFifo(s, calls);
  }
}
