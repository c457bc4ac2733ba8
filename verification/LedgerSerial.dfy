/** Concurrent requests are serialisable: whatever the interleaving, the failures and the redeliveries, the table
    is that of atomic transfers in the order of the landed debits, short of the credits that are still missing. */
module LedgerSerial {
  import opened Wrappers
  import opened Money
  import opened Events
  import opened AccountTable
  import opened AtomicLedger
  import opened Ledger
  import opened LedgerInvariant
  import opened Sums
  import LT = LedgerTheorems

  // ---------- the order of the debits ----------

  /** This step writes the debit of an attempt. */
  predicate LandsDebit(s: State, step: Step) {
    && step.Proceed? && step.attempt < |s.attempts|
    && var t := s.attempts[step.attempt];
       t.pc.AtWriteSource? && !step.reply.Refused? && Current(s.accounts, t.request.source, t.pc.source)
  }

  function OrderNext(order: seq<Request>, s: State, step: Step): seq<Request> {
    if LandsDebit(s, step) then order + [s.attempts[step.attempt].request] else order
  }

  /** The requests debited in a run, in the order in which their debits landed. */
  function DebitOrder(s: State, steps: seq<Step>): seq<Request> {
    if steps == [] then []
    else
      var front, last := steps[..|steps| - 1], steps[|steps| - 1];
      OrderNext(DebitOrder(s, front), Run(s, front), last)
  }

  /** `f` of the request of an attempt whose debit was written. */
  function Debited(f: Request -> int): Attempt -> int {
    (t: Attempt) => if DebitWritten in t.effects then f(t.request) else 0
  }

  ghost predicate Counted(order: seq<Request>, attempts: seq<Attempt>, f: Request -> int) {
    Sum(order, f) == Sum(attempts, Debited(f))
  }

  /** A step changes what the debited attempts add up to exactly by the debit that it lands. */
  lemma StepCounts(s: State, step: Step, order: seq<Request>, f: Request -> int)
    requires Inv(s) && Counted(order, s.attempts, f)
    ensures Counted(OrderNext(order, s, step), Next(s, step).attempts, f)
  {
    if LandsDebit(s, step) {
      SumPush(order, s.attempts[step.attempt].request, f);
    }
    var s' := Next(s, step);
    if step.Begin? {
      SumPush(s.attempts, s'.attempts[|s.attempts|], Debited(f));
    } else if step.Proceed? && step.attempt < |s.attempts| {
      var i := step.attempt;
      assert AttemptOk(s.accounts, s.attempts[i]);
      assert s'.attempts == s.attempts[i := s'.attempts[i]];
      SumUpdate(s.attempts, i, s'.attempts[i], Debited(f));
      ProceedDebits(s, i, step.reply);
    }
  }

  lemma ProceedDebits(s: State, i: nat, reply: Reply)
    requires i < |s.attempts| && AttemptOk(s.accounts, s.attempts[i])
    ensures var t, t' := s.attempts[i], ProceedWith(s, i, reply).attempts[i];
            && t'.request == t.request
            && (DebitWritten in t'.effects <==> DebitWritten in t.effects || LandsDebit(s, Proceed(i, reply)))
            && !(DebitWritten in t.effects && LandsDebit(s, Proceed(i, reply)))
  {
  }

  /** The order holds exactly the requests of the attempts whose debit was written. */
  lemma {:induction false} OrderCounts(accounts: Rows, steps: seq<Step>, f: Request -> int)
    requires Opened(accounts)
    ensures Counted(DebitOrder(Init(accounts), steps), Run(Init(accounts), steps).attempts, f)
  {
    if steps != [] {
      var front, last := steps[..|steps| - 1], steps[|steps| - 1];
      var mid := Run(Init(accounts), front);
      OrderCounts(accounts, front, f);
      InitInv(accounts);
      RunKeepsInv(Init(accounts), front);
      StepCounts(mid, last, DebitOrder(Init(accounts), front), f);
    }
  }

  // ---------- the missing credits ----------

  /** What account `id` still lacks because attempt `t` was debited and not credited. */
  function MissingOf(id: AccountId): Attempt -> int {
    (t: Attempt) => if LT.Stranded(t) && t.request.dest == id then CreditUnits(t.request.amount) else 0
  }

  function MissingWritesOf(id: AccountId): Attempt -> int {
    (t: Attempt) => if LT.Stranded(t) && t.request.dest == id then 1 else 0
  }

  /** The balance and the version of an account lack exactly the missing credits of a serial execution. */
  lemma ActualIsSerialShort(s: State, id: AccountId)
    requires Inv(s)
    ensures Sum(s.attempts, DeltaOf(id)) == Sum(s.attempts, Debited(NetOf(id))) - Sum(s.attempts, MissingOf(id))
    ensures Sum(s.attempts, WritesOf(id)) == Sum(s.attempts, Debited(TouchesOf(id))) - Sum(s.attempts, MissingWritesOf(id))
    ensures Sum(s.attempts, MissingOf(id)) >= 0
  {
    forall t | t in s.attempts
      ensures DeltaOf(id)(t) == Debited(NetOf(id))(t) - MissingOf(id)(t)
      ensures WritesOf(id)(t) == Debited(TouchesOf(id))(t) - MissingWritesOf(id)(t)
      ensures LT.ZERO(t) <= MissingOf(id)(t)
    {
      var i :| 0 <= i < |s.attempts| && s.attempts[i] == t;
      assert AttemptOk(s.accounts, t);
      CreditRounds(t.request.amount);
      if CreditWritten in t.effects {
        LT.CreditFollowsDebit(t);
      }
    }
    SumDifference(s.attempts, DeltaOf(id), Debited(NetOf(id)), MissingOf(id));
    SumDifference(s.attempts, WritesOf(id), Debited(TouchesOf(id)), MissingWritesOf(id));
    SumWithin(s.attempts, MissingOf(id), LT.ZERO, MissingOf(id));
    LT.SumZero(s.attempts);
  }

  // ---------- serialisability ----------

  /** A debit that lands is affordable after all the debits that landed before it, had they all been credited. */
  lemma LandingIsAffordable(accounts: Rows, steps: seq<Step>, step: Step)
    requires Opened(accounts)
    requires LandsDebit(Run(Init(accounts), steps), step)
    ensures var s := Run(Init(accounts), steps);
            Affordable(s.opening, DebitOrder(Init(accounts), steps), s.attempts[step.attempt].request)
  {
    var s := Run(Init(accounts), steps);
    InitInv(accounts);
    RunKeepsInv(Init(accounts), steps);
    var t := s.attempts[step.attempt];
    var r := t.request;
    assert AttemptOk(s.accounts, t);
    assert AccountOk(s, r.source) && AccountOk(s, r.dest);
    CoversCeiling(s.accounts[r.source].balance, r.amount);
    OrderCounts(accounts, steps, NetOf(r.source));
    ActualIsSerialShort(s, r.source);
  }

  /** Opening more accounts changes nothing for the requests between those already open. */
  lemma InFundsOfMore(rows: Rows, rows': Rows, requests: seq<Request>)
    requires InFunds(rows, requests)
    requires forall id :: id in rows ==> id in rows' && rows'[id] == rows[id]
    ensures InFunds(rows', requests)
  {
    forall k | 0 <= k < |requests| ensures Affordable(rows', requests[..k], requests[k]) {
      assert Affordable(rows, requests[..k], requests[k]);
    }
  }

  lemma StepStaysInFunds(s: State, step: Step, order: seq<Request>)
    requires s.accounts.Keys == s.opening.Keys && InFunds(s.opening, order)
    requires LandsDebit(s, step) ==> Affordable(s.opening, order, s.attempts[step.attempt].request)
    ensures InFunds(Next(s, step).opening, OrderNext(order, s, step))
  {
    LT.NextExtends(s, step);
    if LandsDebit(s, step) {
      InFundsNext(s.opening, order, s.attempts[step.attempt].request);
      assert Next(s, step).opening == s.opening;
    } else {
      InFundsOfMore(s.opening, Next(s, step).opening, order);
    }
  }

  lemma {:induction false} OrderIsInFunds(accounts: Rows, steps: seq<Step>)
    requires Opened(accounts)
    ensures InFunds(Run(Init(accounts), steps).opening, DebitOrder(Init(accounts), steps))
  {
    if steps != [] {
      var front, last := steps[..|steps| - 1], steps[|steps| - 1];
      var mid := Run(Init(accounts), front);
      OrderIsInFunds(accounts, front);
      InitInv(accounts);
      RunKeepsInv(Init(accounts), front);
      if LandsDebit(mid, last) {
        LandingIsAffordable(accounts, front, last);
      }
      StepStaysInFunds(mid, last, DebitOrder(Init(accounts), front));
    }
  }

  /** `rows` is `serial` without the credits that are still missing. */
  ghost predicate Short(rows: Rows, serial: Rows, attempts: seq<Attempt>) {
    && rows.Keys == serial.Keys
    && forall id :: id in rows ==>
         serial[id] == rows[id].(balance := rows[id].balance + Sum(attempts, MissingOf(id)),
                                 version := rows[id].version + Sum(attempts, MissingWritesOf(id)))
  }

  /** In every run, with any number of requests in flight and whatever fails: atomic transfers of the debited
      requests, in the order of their debits, all complete, and the table is theirs without the credits that
      are missing; it is exactly theirs if and only if no debit is without its credit. */
  lemma Serialisable(accounts: Rows, steps: seq<Step>)
    requires Opened(accounts)
    ensures var s := Run(Init(accounts), steps);
            var order := DebitOrder(Init(accounts), steps);
            var (serial, outcomes) := AtomicAll(s.opening, order);
            && AllCompleted(order, outcomes)
            && Short(s.accounts, serial, s.attempts)
            && (s.accounts == serial <==> forall i :: 0 <= i < |s.attempts| ==> !LT.Stranded(s.attempts[i]))
  {
    var s := Run(Init(accounts), steps);
    var order := DebitOrder(Init(accounts), steps);
    InitInv(accounts);
    RunKeepsInv(Init(accounts), steps);
    OrderIsInFunds(accounts, steps);
    AllComplete(s.opening, order);
    forall id ensures Counted(order, s.attempts, NetOf(id)) && Counted(order, s.attempts, TouchesOf(id)) {
      OrderCounts(accounts, steps, NetOf(id));
      OrderCounts(accounts, steps, TouchesOf(id));
    }
    SettledIsShort(s, order, AtomicAll(s.opening, order).0);
    ExactUnlessStranded(s, AtomicAll(s.opening, order).0);
  }

  lemma SettledIsShort(s: State, order: seq<Request>, serial: Rows)
    requires Inv(s) && Settled(s.opening, order, serial)
    requires forall id :: Counted(order, s.attempts, NetOf(id)) && Counted(order, s.attempts, TouchesOf(id))
    ensures Short(s.accounts, serial, s.attempts)
  {
    forall id | id in s.accounts
      ensures serial[id] == s.accounts[id].(balance := s.accounts[id].balance + Sum(s.attempts, MissingOf(id)),
                                            version := s.accounts[id].version + Sum(s.attempts, MissingWritesOf(id)))
    {
      assert AccountOk(s, id);
      assert Counted(order, s.attempts, NetOf(id));
      ActualIsSerialShort(s, id);
    }
  }

  lemma ExactUnlessStranded(s: State, serial: Rows)
    requires Inv(s) && Short(s.accounts, serial, s.attempts)
    ensures s.accounts == serial <==> forall i :: 0 <= i < |s.attempts| ==> !LT.Stranded(s.attempts[i])
  {
    if forall i :: 0 <= i < |s.attempts| ==> !LT.Stranded(s.attempts[i]) {
      forall id | id in s.accounts ensures s.accounts[id] == serial[id] {
        NoneMissing(s.attempts, id);
      }
    } else {
      var i :| 0 <= i < |s.attempts| && LT.Stranded(s.attempts[i]);
      assert AttemptOk(s.accounts, s.attempts[i]);
      SomeMissing(s.attempts, i);
    }
  }

  lemma {:induction false} NoneMissing(attempts: seq<Attempt>, id: AccountId)
    requires forall i :: 0 <= i < |attempts| ==> !LT.Stranded(attempts[i])
    ensures Sum(attempts, MissingOf(id)) == 0 && Sum(attempts, MissingWritesOf(id)) == 0
  {
    if attempts != [] {
      NoneMissing(attempts[..|attempts| - 1], id);
    }
  }

  lemma {:induction false} SomeMissing(attempts: seq<Attempt>, i: nat)
    requires i < |attempts| && LT.Stranded(attempts[i])
    ensures Sum(attempts, MissingWritesOf(attempts[i].request.dest)) > 0
  {
    var n := |attempts| - 1;
    var id := attempts[i].request.dest;
    if i < n {
      SomeMissing(attempts[..n], i);
    } else {
      SumWithin(attempts[..n], MissingWritesOf(id), LT.ZERO, MissingWritesOf(id));
      LT.SumZero(attempts[..n]);
    }
  }

  /** The request of `r` among others. */
  function Is(r: Request): Request -> int {
    (q: Request) => if q == r then 1 else 0
  }

  /** Nothing is left out of that order and nothing is invented: it holds a request as often as attempts for it
      were debited. */
  lemma OrderIsDebited(accounts: Rows, steps: seq<Step>, r: Request)
    requires Opened(accounts)
    ensures multiset(DebitOrder(Init(accounts), steps))[r] == Sum(Run(Init(accounts), steps).attempts, Debited(Is(r)))
  {
    OrderCounts(accounts, steps, Is(r));
    SumIsMultiplicity(DebitOrder(Init(accounts), steps), r);
  }

  lemma {:induction false} SumIsMultiplicity(requests: seq<Request>, r: Request)
    ensures Sum(requests, Is(r)) == multiset(requests)[r]
  {
    if requests != [] {
      var front, last := requests[..|requests| - 1], requests[|requests| - 1];
      SumIsMultiplicity(front, r);
      assert requests == front + [last];
    }
  }
}
