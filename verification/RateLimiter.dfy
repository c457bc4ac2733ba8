/** The gateway's rate limiter: a counter per client whose expiry is refreshed by every request. */
module RateLimiter {
  import opened Wrappers
  import opened Arithmetic

  type Client = string

  /** The lifetime that each request gives the counter, in seconds. */
  const WINDOW: nat := 60

  /** A counter; without an expiry it never goes away by itself. */
  datatype Counter = Counter(count: nat, expires: Option<nat>)

  /** The pipeline of one request, and which of INCR and EXPIRE Redis executed. */
  datatype Touch = Touch(time: nat, counted: bool, refreshed: bool)

  function Live(c: Option<Counter>, now: nat): Option<Counter> {
    if c.Some? && c.value.expires.Some? && c.value.expires.value <= now then None else c
  }

  /** INCR: a missing counter starts at 1, without an expiry. */
  function Increment(c: Option<Counter>): Counter {
    if c.Some? then c.value.(count := c.value.count + 1) else Counter(1, None)
  }

  /** EXPIRE: it does nothing to a missing counter. */
  function Refresh(c: Option<Counter>, now: nat): Option<Counter> {
    if c.Some? then Some(c.value.(expires := Some(now + WINDOW))) else None
  }

  function Hit(c: Option<Counter>, t: Touch): Option<Counter> {
    var live := Live(c, t.time);
    var counted := if t.counted then Some(Increment(live)) else live;
    if t.refreshed then Refresh(counted, t.time) else counted
  }

  /** The counter after these pipelines. */
  function After(touches: seq<Touch>): Option<Counter> {
    if touches == [] then None else Hit(After(touches[..|touches| - 1]), touches[|touches| - 1])
  }

  /** A pipeline, whichever of its commands are executed: a counter that has not expired goes on, INCR adds one or
      starts at one, and EXPIRE gives whatever there then is sixty seconds. */
  lemma HitDoes(c: Option<Counter>, t: Touch)
    ensures var live := c.Some? && (c.value.expires.None? || t.time < c.value.expires.value);
            var c' := Hit(c, t);
            && (c'.Some? <==> live || t.counted)
            && (c'.Some? ==>
                  && c'.value.count == (if live then c.value.count else 0) + (if t.counted then 1 else 0)
                  && c'.value.expires == (if t.refreshed then Some(t.time + 60) else if live then c.value.expires else None))
  {
  }

  lemma HitNext(touches: seq<Touch>, touch: Touch)
    ensures After(touches + [touch]) == Hit(After(touches), touch)
  {
    assert (touches + [touch])[..|touches|] == touches;
  }

  // ---------- when Redis answers ----------

  /** Requests at these times, each with both commands executed. */
  function Answered(times: seq<nat>): seq<Touch> {
    seq(|times|, i requires 0 <= i < |times| => Touch(times[i], true, true))
  }

  /** Request k comes after an idle gap of at least a window, or is the first. */
  predicate Starts(times: seq<nat>, k: nat)
    requires k < |times|
  {
    k == 0 || times[k] >= times[k - 1] + WINDOW
  }

  /** How many requests there have been since the last idle gap, request k included. */
  function Position(times: seq<nat>, k: nat): nat
    requires k < |times|
  {
    if Starts(times, k) then 1 else Position(times, k - 1) + 1
  }

  lemma {:induction false} PositionOfPrefix(times: seq<nat>, n: nat, k: nat)
    requires k < n <= |times|
    ensures Position(times[..n], k) == Position(times, k)
    decreases k
  {
    if !Starts(times, k) {
      PositionOfPrefix(times, n, k - 1);
    }
  }

  /** The counter holds the position of the last request. */
  lemma {:induction false} CounterIsPosition(times: seq<nat>)
    requires times != []
    ensures After(Answered(times)) == Some(Counter(Position(times, |times| - 1), Some(times[|times| - 1] + 60)))
  {
    var n := |times| - 1;
    assert Answered(times)[..n] == Answered(times[..n]);
    if n > 0 {
      CounterIsPosition(times[..n]);
      PositionOfPrefix(times, n, n - 1);
    }
  }

  /** Request k is let through. */
  predicate Admits(times: seq<nat>, k: nat, rpm: nat)
    requires k < |times|
  {
    Position(times, k) <= rpm
  }

  /** The counter of a client whose pipelines are all executed restarts at 1 after sixty seconds without a request,
      and counts one more before that. */
  lemma CounterSteps(times: seq<nat>, now: nat)
    ensures var before, after := After(Answered(times)), After(Answered(times + [now]));
            && after.Some? && (times != [] ==> before.Some?)
            && after.value.count == (if times == [] || now >= times[|times| - 1] + 60 then 1 else before.value.count + 1)
            && after.value.expires == Some(now + 60)
  {
    assert Answered(times + [now]) == Answered(times) + [Touch(now, true, true)];
    HitNext(Answered(times), Touch(now, true, true));
    HitDoes(After(Answered(times)), Touch(now, true, true));
    if times == [] {
      assert Answered(times) == [];
    } else {
      CounterIsPosition(times);
    }
  }

  /** So a client whose pipelines were all executed is admitted by the position of its request. */
  lemma AnsweredAdmits(times: seq<nat>, rpm: nat)
    requires times != []
    ensures var counter := After(Answered(times));
            counter.Some? && (counter.value.count <= rpm <==> Admits(times, |times| - 1, rpm))
  {
    CounterIsPosition(times);
  }

  // ---------- when EXPIRE fails ----------

  function CountedIn(touches: seq<Touch>): nat {
    if touches == [] then 0
    else CountedIn(touches[..|touches| - 1]) + if touches[|touches| - 1].counted then 1 else 0
  }

  /** A counter that was never given its expiry outlives any pause, and only counts up, until some EXPIRE
      is executed. */
  lemma {:induction false} NoExpiryNoReset(touches: seq<Touch>, more: seq<Touch>)
    requires After(touches).Some? && After(touches).value.expires.None?
    requires forall i :: 0 <= i < |more| ==> !more[i].refreshed
    ensures After(touches + more) == Some(Counter(After(touches).value.count + CountedIn(more), None))
  {
    if more == [] {
      assert touches + more == touches;
    } else {
      NoExpiryNoReset(touches, more[..|more| - 1]);
      assert (touches + more)[..|touches + more| - 1] == touches + more[..|more| - 1];
    }
  }

  // ---------- the limiter ----------

  class RateLimiter {
    const rpm: nat
    var counters: map<Client, Counter>
    /** The pipelines of each client. */
    ghost var touches: map<Client, seq<Touch>>

    ghost predicate Valid()
      reads this
    {
      forall c :: After(TouchesOf(c)) == if c in counters then Some(counters[c]) else None
    }

    ghost function TouchesOf(client: Client): seq<Touch>
      reads this
    {
      if client in touches then touches[client] else []
    }

    constructor (rpm: nat)
      ensures Valid() && this.rpm == rpm && touches == map[]
    {
      this.rpm := rpm;
      this.counters := map[];
      this.touches := map[];
    }

    /** One request.  When both commands are acknowledged it is admitted by the counter; when Redis fails, it is
        admitted in any case. */
    method Limit(client: Client, now: nat, incr: Reply, expire: Reply) returns (admitted: bool)
      requires Valid()
      modifies this
      ensures Valid()
      ensures touches == old(touches)[client := old(TouchesOf(client)) + [Touch(now, !incr.Refused?, !expire.Refused?)]]
      ensures admitted <==> (incr.Acked? && expire.Acked? ==>
                After(TouchesOf(client)).Some? && After(TouchesOf(client)).value.count <= rpm)
    {
      var touch := Touch(now, !incr.Refused?, !expire.Refused?);
      ghost var before := TouchesOf(client);
      var known := if client in counters then Some(counters[client]) else None;
      var counter := Hit(known, touch);
      HitNext(before, touch);
      touches := touches[client := before + [touch]];
      counters := if counter.Some? then counters[client := counter.value] else counters - {client};
      if !incr.Acked? || !expire.Acked? {
        return true;
      }
      return counter.value.count <= rpm;
    }
  }

  // ---------- how many requests get through ----------

  /** How many of the requests lo, ..., hi - 1 are admitted. */
  function Admitted(times: seq<nat>, lo: nat, hi: nat, rpm: nat): nat
    requires lo <= hi <= |times|
    decreases hi
  {
    if lo == hi then 0
    else Admitted(times, lo, hi - 1, rpm) + if Admits(times, hi - 1, rpm) then 1 else 0
  }

  /** How many idle gaps lie between request lo and request hi - 1. */
  function Gaps(times: seq<nat>, lo: nat, hi: nat): nat
    requires lo < hi <= |times|
    decreases hi
  {
    if lo + 1 == hi then 0
    else Gaps(times, lo, hi - 1) + if Starts(times, hi - 1) then 1 else 0
  }

  ghost predicate InOrder(times: seq<nat>) {
    forall i, j :: 0 <= i < j < |times| ==> times[i] <= times[j]
  }

  lemma {:induction false} GapsTakeTime(times: seq<nat>, lo: nat, hi: nat)
    requires InOrder(times) && lo < hi <= |times|
    ensures 60 * Gaps(times, lo, hi) <= times[hi - 1] - times[lo]
    decreases hi
  {
    if lo + 1 < hi {
      GapsTakeTime(times, lo, hi - 1);
    }
  }

  /** At most rpm requests get through between two idle gaps. */
  lemma {:induction false} RpmPerGap(times: seq<nat>, lo: nat, hi: nat, rpm: nat)
    requires lo < hi <= |times|
    ensures Admitted(times, lo, hi, rpm) <= rpm * Gaps(times, lo, hi) + Min(rpm, Position(times, hi - 1))
    decreases hi
  {
    if lo + 1 == hi {
      assert Admitted(times, lo, lo, rpm) == 0;
      assert rpm * Gaps(times, lo, hi) == 0;
    } else {
      RpmPerGap(times, lo, hi - 1, rpm);
      assert rpm * (Gaps(times, lo, hi - 1) + 1) == rpm * Gaps(times, lo, hi - 1) + rpm;
    }
  }

  /** Whatever the requests of a client, those in any stretch of L seconds include at most
      rpm * (L / 60 + 1) admitted ones; so at most rpm within any stretch shorter than a minute. */
  lemma WindowBound(times: seq<nat>, lo: nat, hi: nat, rpm: nat)
    requires InOrder(times) && lo < hi <= |times|
    ensures var elapsed := times[hi - 1] - times[lo];
            && Admitted(times, lo, hi, rpm) <= rpm * (elapsed / 60 + 1)
            && (elapsed < 60 ==> Admitted(times, lo, hi, rpm) <= rpm)
  {
    GapsTakeTime(times, lo, hi);
    RpmPerGap(times, lo, hi, rpm);
    var gaps, most := Gaps(times, lo, hi), (times[hi - 1] - times[lo]) / 60;
    assert gaps <= most;
    GapsPay(rpm, gaps, most);
    assert rpm * 0 == 0;
  }

  lemma GapsPay(rpm: nat, gaps: nat, most: nat)
    requires gaps <= most
    ensures rpm * gaps + rpm <= rpm * (most + 1)
  {
    MulMonotone(gaps, most, rpm);
    assert rpm * (most + 1) == rpm * most + rpm;
  }

  // ---------- which requests get through ----------

  /** The request that the counter of request k has counted from. */
  function LastStart(times: seq<nat>, k: nat): (start: nat)
    requires k < |times|
    ensures start <= k && Starts(times, start) && forall i :: start < i <= k ==> !Starts(times, i)
  {
    if Starts(times, k) then k else LastStart(times, k - 1)
  }

  /** Admission, exactly: a request gets through when fewer than rpm requests, admitted or not, came between
      the last gap of sixty seconds and it. */
  lemma {:induction false} AdmissionRule(times: seq<nat>, k: nat, rpm: nat)
    requires k < |times|
    ensures Admits(times, k, rpm) <==> k - LastStart(times, k) < rpm
    ensures Position(times, k) == k - LastStart(times, k) + 1
    decreases k
  {
    if !Starts(times, k) {
      AdmissionRule(times, k - 1, rpm);
    }
  }

  /** The same in seconds: after a gap of sixty seconds and with no such gap since, the first rpm requests get
      through and no other. */
  lemma AdmissionInSeconds(times: seq<nat>, start: nat, k: nat, rpm: nat)
    requires start <= k < |times| && (start == 0 || times[start] >= times[start - 1] + 60)
    requires forall i :: start < i <= k ==> times[i] < times[i - 1] + 60
    ensures Admits(times, k, rpm) <==> k - start < rpm
  {
    assert forall i :: start < i <= k ==> !Starts(times, i);
    StartOfGroup(times, start, k);
    AdmissionRule(times, k, rpm);
  }

  /** How many of the first n requests were admitted less than a window before request k. */
  function Recent(times: seq<nat>, k: nat, n: nat, rpm: nat): nat
    requires n <= k < |times|
    decreases n
  {
    if n == 0 then 0
    else Recent(times, k, n - 1, rpm) + if times[k] < times[n - 1] + WINDOW && Admits(times, n - 1, rpm) then 1 else 0
  }

  /** The decision of a sliding window over what this limiter admitted: fewer than rpm in the window before. */
  predicate SlidingAdmits(times: seq<nat>, k: nat, rpm: nat)
    requires k < |times|
  {
    Recent(times, k, k, rpm) < rpm
  }

  /** The window of a request does not reach beyond the last idle gap. */
  lemma {:induction false} NothingBeforeTheGap(times: seq<nat>, k: nat, n: nat, rpm: nat)
    requires InOrder(times) && k < |times| && n <= LastStart(times, k)
    ensures Recent(times, k, n, rpm) == 0
    decreases n
  {
    if n > 0 {
      NothingBeforeTheGap(times, k, n - 1, rpm);
      var start := LastStart(times, k);
      assert times[n - 1] <= times[start - 1] && times[start] <= times[k];
    }
  }

  /** Within it are the first rpm requests after the gap, unless the first of them is a window old. */
  lemma {:induction false} RecentSinceTheGap(times: seq<nat>, k: nat, n: nat, rpm: nat)
    requires InOrder(times) && k < |times| && LastStart(times, k) <= n <= k
    ensures var start := LastStart(times, k);
            if times[k] < times[start] + WINDOW then Recent(times, k, n, rpm) == Min(n - start, rpm)
            else Recent(times, k, n, rpm) <= Min(n - start, rpm) - if n > start && rpm > 0 then 1 else 0
    decreases n
  {
    var start := LastStart(times, k);
    if n == start {
      NothingBeforeTheGap(times, k, n, rpm);
    } else {
      RecentSinceTheGap(times, k, n - 1, rpm);
      StartOfGroup(times, start, n - 1);
      AdmissionRule(times, n - 1, rpm);
      assert times[start] <= times[n - 1];
    }
  }

  lemma {:induction false} StartOfGroup(times: seq<nat>, start: nat, k: nat)
    requires start <= k < |times| && Starts(times, start)
    requires forall i :: start < i <= k ==> !Starts(times, i)
    ensures LastStart(times, k) == start
    decreases k
  {
    if start < k {
      StartOfGroup(times, start, k - 1);
    }
  }

  /** The limiter never admits what such a sliding window would refuse, and it agrees with it exactly on the first rpm
      requests after an idle gap and on those less than a window after that gap. */
  lemma SlidingExactly(times: seq<nat>, k: nat, rpm: nat)
    requires InOrder(times) && k < |times|
    ensures Admits(times, k, rpm) ==> SlidingAdmits(times, k, rpm)
    ensures var start := LastStart(times, k);
            (Admits(times, k, rpm) <==> SlidingAdmits(times, k, rpm))
            <==> rpm == 0 || k - start < rpm || times[k] - times[start] < 60
  {
    AdmissionRule(times, k, rpm);
    RecentSinceTheGap(times, k, k, rpm);
  }

  // ---------- a sliding window with a history of its own ----------

  /** How many of the first n requests a stand-alone sliding window has admitted less than a window before request k. */
  function OwnRecent(times: seq<nat>, k: nat, n: nat, rpm: nat): nat
    requires n <= k < |times|
    decreases k, n
  {
    if n == 0 then 0
    else OwnRecent(times, k, n - 1, rpm) + if times[k] < times[n - 1] + WINDOW && OwnAdmits(times, n - 1, rpm) then 1 else 0
  }

  /** A stand-alone sliding window admits a request when it has admitted fewer than rpm in the window before. */
  predicate OwnAdmits(times: seq<nat>, k: nat, rpm: nat)
    requires k < |times|
    decreases k, k + 1
  {
    OwnRecent(times, k, k, rpm) < rpm
  }

  lemma {:induction false} OwnBeforeTheGap(times: seq<nat>, k: nat, n: nat, rpm: nat)
    requires InOrder(times) && k < |times| && n <= LastStart(times, k)
    ensures OwnRecent(times, k, n, rpm) == 0
    decreases n
  {
    if n > 0 {
      OwnBeforeTheGap(times, k, n - 1, rpm);
      var start := LastStart(times, k);
      assert times[n - 1] <= times[start - 1] && times[start] <= times[k];
    }
  }

  lemma {:induction false} OwnAtMostAll(times: seq<nat>, k: nat, n: nat, rpm: nat)
    requires InOrder(times) && k < |times| && LastStart(times, k) <= n <= k
    ensures OwnRecent(times, k, n, rpm) <= n - LastStart(times, k)
    decreases n
  {
    if n == LastStart(times, k) {
      OwnBeforeTheGap(times, k, n, rpm);
    } else {
      OwnAtMostAll(times, k, n - 1, rpm);
    }
  }

  /** The decisions of both limiters on request k of the group that starts at `start`. */
  predicate Agree(times: seq<nat>, k: nat, rpm: nat)
    requires k < |times|
  {
    Admits(times, k, rpm) <==> OwnAdmits(times, k, rpm)
  }

  /** While they agree since the gap, the stand-alone window has admitted what the limiter has. */
  lemma {:induction false} OwnSinceTheGap(times: seq<nat>, k: nat, n: nat, rpm: nat)
    requires InOrder(times) && k < |times| && LastStart(times, k) <= n <= k
    requires forall j :: LastStart(times, k) <= j < n ==> Agree(times, j, rpm)
    ensures OwnRecent(times, k, n, rpm) == Recent(times, k, n, rpm)
    decreases n
  {
    if n == LastStart(times, k) {
      OwnBeforeTheGap(times, k, n, rpm);
      NothingBeforeTheGap(times, k, n, rpm);
    } else {
      OwnSinceTheGap(times, k, n - 1, rpm);
      assert Agree(times, n - 1, rpm);
    }
  }

  /** Request k is one of the first rpm after the last idle gap, or less than a window after it. */
  predicate Early(times: seq<nat>, k: nat, rpm: nat)
    requires k < |times|
  {
    var start := LastStart(times, k);
    rpm == 0 || k - start < rpm || times[k] < times[start] + WINDOW
  }

  /** If they have agreed since the gap, they agree on the next request exactly when it is an early one. */
  lemma AgreeNext(times: seq<nat>, k: nat, rpm: nat)
    requires InOrder(times) && k < |times|
    requires forall j :: LastStart(times, k) <= j < k ==> Agree(times, j, rpm)
    ensures Agree(times, k, rpm) <==> Early(times, k, rpm)
  {
    OwnSinceTheGap(times, k, k, rpm);
    SlidingExactly(times, k, rpm);
  }

  lemma EarlyBefore(times: seq<nat>, j: nat, k: nat, rpm: nat)
    requires InOrder(times) && k < |times| && LastStart(times, k) <= j <= k && Early(times, k, rpm)
    ensures Early(times, j, rpm)
  {
    StartOfGroup(times, LastStart(times, k), j);
    assert times[j] <= times[k];
  }

  /** The limiter never admits what a stand-alone sliding window would refuse, and the two decide alike on every
      request since the last idle gap exactly when the latest is still an early one. */
  lemma {:induction false} OwnSlidingExactly(times: seq<nat>, k: nat, rpm: nat)
    requires InOrder(times) && k < |times|
    ensures Admits(times, k, rpm) ==> OwnAdmits(times, k, rpm)
    ensures (forall j :: LastStart(times, k) <= j <= k ==> Agree(times, j, rpm)) <==> Early(times, k, rpm)
    decreases k
  {
    var start := LastStart(times, k);
    AdmissionRule(times, k, rpm);
    OwnAtMostAll(times, k, k, rpm);
    if k == start {
      AgreeNext(times, k, rpm);
    } else {
      StartOfGroup(times, start, k - 1);
      OwnSlidingExactly(times, k - 1, rpm);
      if Early(times, k, rpm) {
        EarlyBefore(times, k - 1, k, rpm);
      }
      if forall j :: start <= j < k ==> Agree(times, j, rpm) {
        AgreeNext(times, k, rpm);
      }
    }
  }

  /** A client that never pauses for a minute is admitted rpm times and then never again, however long it goes on. */
  lemma {:induction false} SteadyClientStarves(times: seq<nat>, n: nat, rpm: nat)
    requires n <= |times|
    requires forall i :: 0 < i < |times| ==> times[i] < times[i - 1] + 60
    ensures Admitted(times, 0, n, rpm) == Min(n, rpm)
  {
    if n > 0 {
      SteadyClientStarves(times, n - 1, rpm);
      StartOfGroup(times, 0, n - 1);
      AdmissionRule(times, n - 1, rpm);
    }
  }

  /** At one request a minute, of requests at 0, 50 and 100 seconds the last is refused, although a sliding window
      would admit it, whether it counts what this limiter admitted or what it would have admitted itself. */
  lemma NotASlidingWindow()
    ensures var times := [0, 50, 100];
            SlidingAdmits(times, 2, 1) && OwnAdmits(times, 2, 1) && !Admits(times, 2, 1)
  {
    var times := [0, 50, 100];
    StartOfGroup(times, 0, 1);
    StartOfGroup(times, 0, 2);
    AdmissionRule(times, 2, 1);
    SlidingExactly(times, 2, 1);
    OwnSlidingExactly(times, 1, 1);
    assert Early(times, 1, 1);
    AgreeNext(times, 2, 1);
  }
}
