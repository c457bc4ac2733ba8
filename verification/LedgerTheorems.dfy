/** Safety of the ledger over whole runs: every interleaving of any number of requests, with crashes,
    lost replies and redeliveries. */
module LedgerTheorems {
  import opened Wrappers
  import opened Money
  import opened Events
  import AccountDomain
  import opened AccountTable
  import opened Ledger
  import opened LedgerInvariant
  import opened Sums
  import Outbox

  /** Each balance is the opening balance plus the landed credits minus the landed debits, each version is
      the opening version plus the number of landed writes, and no balance is negative. */
  lemma BalancesAreExact(accounts: Rows, steps: seq<Step>, id: AccountId)
    requires Opened(accounts)
    ensures var s := Run(Init(accounts), steps);
            id in s.accounts ==>
              && id in s.opening
              && s.accounts[id].balance == s.opening[id].balance + Sum(s.attempts, DeltaOf(id)) >= 0
              && s.accounts[id].version == s.opening[id].version + Sum(s.attempts, WritesOf(id))
  {
    InitInv(accounts);
    RunKeepsInv(Init(accounts), steps);
    var s := Run(Init(accounts), steps);
    if id in s.accounts {
      assert AccountOk(s, id);
    }
  }

  /** A copy whose version is that of the row has the balance of the row, so a conditional write can only land
      on the very row its copy was taken from. */
  lemma LandingWriteIsExact(accounts: Rows, steps: seq<Step>, i: nat)
    requires Opened(accounts)
    ensures var s := Run(Init(accounts), steps);
            i < |s.attempts| ==>
              var t := s.attempts[i];
              var r := t.request;
              && (t.pc.AtReadDest? || t.pc.AtWriteSource? ==> r.source in s.accounts)
              && (t.pc.AtReadDest? && t.pc.source.version == s.accounts[r.source].version ==>
                    t.pc.source.balance == s.accounts[r.source].balance as real)
              && (t.pc.AtWriteSource? && Current(s.accounts, r.source, t.pc.source) ==>
                    t.pc.source.balance == s.accounts[r.source].balance as real - r.amount)
              && (t.pc.AtWriteSource? && Current(s.accounts, r.dest, t.pc.dest) ==>
                    t.pc.dest.balance == s.accounts[r.dest].balance as real + r.amount)
              && (t.pc.AtWriteDest? && Current(s.accounts, r.dest, t.pc.dest) ==>
                    t.pc.dest.balance == s.accounts[r.dest].balance as real + r.amount)
  {
    InitInv(accounts);
    RunKeepsInv(Init(accounts), steps);
    var s := Run(Init(accounts), steps);
    if i < |s.attempts| {
      assert AttemptOk(s.accounts, s.attempts[i]);
    }
  }

  /** Opening an account stores the amount, rounded, under a new identifier, active and with version 1, unless the
      amount is negative or the insert is refused. */
  lemma OpenedAsAsked(s: State, id: AccountId, currency: Currency, initial: real, reply: Reply)
    requires s.accounts.Keys == s.opening.Keys
    ensures var row := Row(Quantise(initial), currency, AccountDomain.Active, 1);
            Next(s, Open(id, currency, initial, reply))
            == if initial < 0.0 || reply.Refused? || id in s.accounts then s
               else s.(accounts := s.accounts[id := row], opening := s.opening[id := row])
  {
  }

  /** Step k opened `id` with this row. */
  predicate OpenedAt(steps: seq<Step>, k: int, id: AccountId, row: Row) {
    && 0 <= k < |steps| && steps[k].Open? && steps[k].id == id && steps[k].initial >= 0.0 && !steps[k].reply.Refused?
    && row == Row(Quantise(steps[k].initial), steps[k].currency, AccountDomain.Active, 1)
  }

  /** The account is given at the outset, or was opened by a step. */
  ghost predicate OpeningTells(accounts: Rows, steps: seq<Step>, opening: Rows, id: AccountId) {
    && (id in accounts ==> id in opening && opening[id] == accounts[id])
    && (id in opening && id !in accounts ==> exists k :: OpenedAt(steps, k, id, opening[id]))
  }

  lemma OpeningNext(accounts: Rows, steps: seq<Step>, s: State, step: Step, id: AccountId)
    requires s.accounts.Keys == s.opening.Keys && OpeningTells(accounts, steps, s.opening, id)
    ensures OpeningTells(accounts, steps + [step], Next(s, step).opening, id)
  {
    if step.Open? {
      OpenedAsAsked(s, step.id, step.currency, step.initial, step.reply);
    } else {
      OthersOpenNothing(s, step);
    }
    var opening := Next(s, step).opening;
    if id in s.opening && id !in accounts {
      var k :| OpenedAt(steps, k, id, s.opening[id]);
      assert OpenedAt(steps + [step], k, id, opening[id]);
    } else if id in opening && id !in accounts {
      assert OpenedAt(steps + [step], |steps|, id, opening[id]);
    }
  }

  /** What the balances of a run are compared with: the accounts given at the outset, and every account opened since
      with what its opening step asked for. */
  lemma {:induction false} OpeningExactly(accounts: Rows, steps: seq<Step>, id: AccountId)
    requires Opened(accounts)
    ensures OpeningTells(accounts, steps, Run(Init(accounts), steps).opening, id)
  {
    if steps != [] {
      var front, last := steps[..|steps| - 1], steps[|steps| - 1];
      OpeningExactly(accounts, front, id);
      InitInv(accounts);
      RunKeepsInv(Init(accounts), front);
      OpeningNext(accounts, front, Run(Init(accounts), front), last, id);
      assert steps == front + [last];
    }
  }

  lemma OthersOpenNothing(s: State, step: Step)
    requires !step.Open?
    ensures Next(s, step).opening == s.opening
  {
  }

  predicate Stranded(t: Attempt) {
    DebitWritten in t.effects && CreditWritten !in t.effects
  }

  function StrandedOf(currency: Currency): Attempt -> int {
    (t: Attempt) => if t.request.currency == currency && Stranded(t) then DebitUnits(t.request.amount) else 0
  }

  /** The unit that rounding adds when the amount of a finished movement is a tie. */
  function TieOf(currency: Currency): Attempt -> int {
    (t: Attempt) => if t.request.currency == currency && CreditWritten in t.effects && Tie(t.request.amount) then 1 else 0
  }

  function CreditedOf(currency: Currency): Attempt -> int {
    (t: Attempt) => if t.request.currency == currency && CreditWritten in t.effects then 1 else 0
  }

  const ZERO: Attempt -> int := (_: Attempt) => 0

  lemma CreditFollowsDebit(t: Attempt)
    requires Disciplined(t) && CreditWritten in t.effects
    ensures DebitWritten in t.effects
  {
    var k :| 0 <= k < |t.effects| && t.effects[k] == CreditWritten;
    assert t.effects <= Success(t.request);
    assert Success(t.request)[k] == CreditWritten;
    assert t.effects[0] == Success(t.request)[0];
  }

  lemma OutstandingIsStrandedMinusTies(s: State, currency: Currency)
    requires Inv(s)
    ensures Sum(s.attempts, OutstandingOf(currency)) == Sum(s.attempts, StrandedOf(currency)) - Sum(s.attempts, TieOf(currency))
  {
    forall t | t in s.attempts
      ensures OutstandingOf(currency)(t) == StrandedOf(currency)(t) - TieOf(currency)(t)
    {
      var i :| 0 <= i < |s.attempts| && s.attempts[i] == t;
      assert AttemptOk(s.accounts, t);
      CreditMinusDebit(t.request.amount);
      if CreditWritten in t.effects {
        CreditFollowsDebit(t);
      }
    }
    SumDifference(s.attempts, OutstandingOf(currency), StrandedOf(currency), TieOf(currency));
  }

  lemma ConservationAt(s: State, currency: Currency)
    requires Inv(s)
    ensures var stranded, ties := Sum(s.attempts, StrandedOf(currency)), Sum(s.attempts, TieOf(currency));
            && Total(s.accounts, currency) + stranded == Total(s.opening, currency) + ties
            && 0 <= stranded
            && 0 <= ties <= Sum(s.attempts, CreditedOf(currency))
  {
    assert Conserved(s, currency);
    OutstandingIsStrandedMinusTies(s, currency);
    SumWithin(s.attempts, TieOf(currency), ZERO, CreditedOf(currency));
    forall t | t in s.attempts ensures 0 <= StrandedOf(currency)(t) {
      var i :| 0 <= i < |s.attempts| && s.attempts[i] == t;
      assert AttemptOk(s.accounts, t);
      if Stranded(t) {
        DebitWithinCeiling(t.request.amount);
      }
    }
    SumWithin(s.attempts, StrandedOf(currency), ZERO, StrandedOf(currency));
    SumZero(s.attempts);
  }

  /** Conservation, for amounts of any precision: balances plus stranded debits are the opening balances,
      plus one unit of 10^-8 for every movement whose amount was a tie. */
  lemma Conservation(accounts: Rows, steps: seq<Step>, currency: Currency)
    requires Opened(accounts)
    ensures var s := Run(Init(accounts), steps);
            var stranded, ties := Sum(s.attempts, StrandedOf(currency)), Sum(s.attempts, TieOf(currency));
            && Total(s.accounts, currency) + stranded == Total(s.opening, currency) + ties
            && 0 <= stranded
            && 0 <= ties <= Sum(s.attempts, CreditedOf(currency))
  {
    InitInv(accounts);
    RunKeepsInv(Init(accounts), steps);
    ConservationAt(Run(Init(accounts), steps), currency);
  }

  lemma {:induction false} SumZero(attempts: seq<Attempt>)
    ensures Sum(attempts, ZERO) == 0
  {
    if attempts != [] {
      SumZero(attempts[..|attempts| - 1]);
    }
  }

  ghost predicate AllWhole(attempts: seq<Attempt>) {
    forall i :: 0 <= i < |attempts| ==> Whole(attempts[i].request.amount)
  }

  lemma {:induction false} NoTies(attempts: seq<Attempt>, currency: Currency)
    requires AllWhole(attempts)
    ensures Sum(attempts, TieOf(currency)) == 0
  {
    if attempts != [] {
      NoTies(attempts[..|attempts| - 1], currency);
    }
  }

  lemma {:induction false} StrandedIsPositive(attempts: seq<Attempt>, currency: Currency)
    requires AllWhole(attempts)
    requires forall i :: 0 <= i < |attempts| && DebitWritten in attempts[i].effects ==> attempts[i].request.amount > 0.0
    ensures Sum(attempts, StrandedOf(currency)) >= 0
    ensures Sum(attempts, StrandedOf(currency)) == 0 <==>
              forall i :: 0 <= i < |attempts| && attempts[i].request.currency == currency ==> !Stranded(attempts[i])
  {
    if attempts != [] {
      var front, last := attempts[..|attempts| - 1], attempts[|attempts| - 1];
      StrandedIsPositive(front, currency);
      CreditMinusDebit(last.request.amount);
      assert last.request.amount > 0.0 ==> last.request.amount.Floor > 0;
      assert forall i :: 0 <= i < |front| ==> front[i] == attempts[i];
    }
  }

  lemma WholeConservationAt(s: State, currency: Currency)
    requires Inv(s) && AllWhole(s.attempts)
    ensures Total(s.accounts, currency) + Sum(s.attempts, StrandedOf(currency)) == Total(s.opening, currency)
    ensures Total(s.accounts, currency) <= Total(s.opening, currency)
    ensures Total(s.accounts, currency) == Total(s.opening, currency) <==>
              forall i :: 0 <= i < |s.attempts| && s.attempts[i].request.currency == currency ==> !Stranded(s.attempts[i])
  {
    ConservationAt(s, currency);
    NoTies(s.attempts, currency);
    forall i | 0 <= i < |s.attempts| && DebitWritten in s.attempts[i].effects
      ensures s.attempts[i].request.amount > 0.0
    {
      assert AttemptOk(s.accounts, s.attempts[i]);
    }
    StrandedIsPositive(s.attempts, currency);
  }

  /** With amounts of at most eight fractional digits money is never created, and the balances in a
      currency add up to the opening balances exactly when no debit in it is left without its credit. */
  lemma ConservationOfWholeAmounts(accounts: Rows, steps: seq<Step>, currency: Currency)
    requires Opened(accounts)
    requires AllWhole(Run(Init(accounts), steps).attempts)
    ensures var s := Run(Init(accounts), steps);
            && Total(s.accounts, currency) + Sum(s.attempts, StrandedOf(currency)) == Total(s.opening, currency)
            && Total(s.accounts, currency) <= Total(s.opening, currency)
            && (Total(s.accounts, currency) == Total(s.opening, currency) <==>
                  forall i :: 0 <= i < |s.attempts| && s.attempts[i].request.currency == currency ==> !Stranded(s.attempts[i]))
  {
    InitInv(accounts);
    RunKeepsInv(Init(accounts), steps);
    WholeConservationAt(Run(Init(accounts), steps), currency);
  }

  /** An attempt saves at most one event, and the event tells all its effects. */
  lemma SavedDecides(t: Attempt, event: Outcome)
    requires Disciplined(t) && Saved(event) in t.effects
    ensures event.transfer == t.request.transfer
    ensures event.Completed? ==> t.effects == Success(t.request)
    ensures event.Failed? ==> t.effects == [Saved(event)]
  {
    if t.effects <= Success(t.request) {
      var k :| 0 <= k < |t.effects| && t.effects[k] == Saved(event);
      assert Success(t.request)[k] == Saved(event);
      assert k == 2;
    }
  }

  lemma SavedTells(t: Attempt)
    requires Disciplined(t)
    ensures forall reason :: Saved(Failed(t.request.transfer, reason)) in t.effects ==>
              DebitWritten !in t.effects && CreditWritten !in t.effects
    ensures Saved(Completed(t.request.transfer)) in t.effects ==> t.effects == Success(t.request)
  {
    forall reason | Saved(Failed(t.request.transfer, reason)) in t.effects
      ensures DebitWritten !in t.effects && CreditWritten !in t.effects
    {
      SavedDecides(t, Failed(t.request.transfer, reason));
    }
    if Saved(Completed(t.request.transfer)) in t.effects {
      SavedDecides(t, Completed(t.request.transfer));
    }
  }

  /** The persistent effects of every attempt are one failure event alone, or a beginning of debit, credit,
      completed event: no attempt both writes a balance and reports a failure. */
  lemma PrefixDiscipline(accounts: Rows, steps: seq<Step>, i: nat)
    requires Opened(accounts)
    ensures var s := Run(Init(accounts), steps);
            i < |s.attempts| ==>
              var t := s.attempts[i];
              && Disciplined(t)
              && (forall reason :: Saved(Failed(t.request.transfer, reason)) in t.effects ==>
                    DebitWritten !in t.effects && CreditWritten !in t.effects)
              && (Saved(Completed(t.request.transfer)) in t.effects ==> t.effects == Success(t.request))
  {
    InitInv(accounts);
    RunKeepsInv(Init(accounts), steps);
    var s := Run(Init(accounts), steps);
    if i < |s.attempts| {
      assert AttemptOk(s.accounts, s.attempts[i]);
      SavedTells(s.attempts[i]);
    }
  }

  // ---------- stranded debits ----------

  /** The attempt is over, and its debit was left without a credit. */
  predicate EndsStranded(t: Attempt) {
    t.pc.Done? && Stranded(t)
  }

  /** This step leaves the debit of attempt `i` without its credit: the source write lands but its reply is lost,
      or the destination write is not executed or finds that the row has moved on. */
  predicate Strands(s: State, step: Step, i: nat) {
    && step.Proceed? && step.attempt == i < |s.attempts|
    && var t := s.attempts[i];
       || (t.pc.AtWriteSource? && step.reply.Lost? && Current(s.accounts, t.request.source, t.pc.source))
       || (t.pc.AtWriteDest? && (step.reply.Refused? || !Current(s.accounts, t.request.dest, t.pc.dest)))
  }

  /** No other step strands a debit. */
  lemma StrandsWhen(s: State, step: Step, i: nat)
    requires Inv(s) && i < |s.attempts|
    ensures i < |Next(s, step).attempts|
    ensures EndsStranded(Next(s, step).attempts[i]) <==> EndsStranded(s.attempts[i]) || Strands(s, step, i)
  {
    if step.Proceed? && step.attempt == i {
      assert AttemptOk(s.accounts, s.attempts[i]);
      ProceedStrands(s, i, step.reply);
    } else {
      assert Next(s, step).attempts[i] == s.attempts[i];
    }
  }

  lemma ProceedStrands(s: State, i: nat, reply: Reply)
    requires i < |s.attempts| && AttemptOk(s.accounts, s.attempts[i])
    ensures EndsStranded(ProceedWith(s, i, reply).attempts[i])
            <==> EndsStranded(s.attempts[i]) || Strands(s, Proceed(i, reply), i)
  {
  }

  /** Some step of the run strands the debit of attempt `i`. */
  ghost predicate StrandedIn(s: State, steps: seq<Step>, i: nat) {
    exists k :: 0 <= k < |steps| && Strands(Run(s, steps[..k]), steps[k], i)
  }

  lemma StrandedInNext(s: State, steps: seq<Step>, step: Step, i: nat)
    ensures StrandedIn(s, steps + [step], i) <==> StrandedIn(s, steps, i) || Strands(Run(s, steps), step, i)
  {
    var all := steps + [step];
    assert all[..|steps|] == steps;
    assert forall k :: 0 <= k < |steps| ==> all[..k] == steps[..k];
    if StrandedIn(s, steps, i) {
      var k :| 0 <= k < |steps| && Strands(Run(s, steps[..k]), steps[k], i);
      assert Strands(Run(s, all[..k]), all[k], i);
    }
    if Strands(Run(s, steps), step, i) {
      assert Strands(Run(s, all[..|steps|]), all[|steps|], i);
    }
  }

  /** Over whole runs: an attempt ends with its debit stranded exactly when some step of the run strands it. */
  lemma {:induction false} StrandedExactly(accounts: Rows, steps: seq<Step>, i: nat)
    requires Opened(accounts)
    ensures var s := Run(Init(accounts), steps);
            i < |s.attempts| && EndsStranded(s.attempts[i]) <==> StrandedIn(Init(accounts), steps, i)
  {
    if steps != [] {
      var front, last := steps[..|steps| - 1], steps[|steps| - 1];
      var mid := Run(Init(accounts), front);
      StrandedExactly(accounts, front, i);
      assert steps == front + [last];
      StrandedInNext(Init(accounts), front, last, i);
      InitInv(accounts);
      RunKeepsInv(Init(accounts), front);
      if i < |mid.attempts| {
        StrandsWhen(mid, last, i);
      } else {
        NewAttempts(mid, last, i);
      }
    }
  }

  /** The balances of whole amounts add up to the opening balances exactly when no step of the run stranded a debit
      in that currency and no attempt is between its two writes. */
  lemma ConservedUnlessStranded(accounts: Rows, steps: seq<Step>, currency: Currency)
    requires Opened(accounts)
    requires AllWhole(Run(Init(accounts), steps).attempts)
    ensures var s := Run(Init(accounts), steps);
            Total(s.accounts, currency) == Total(s.opening, currency) <==>
              forall i :: 0 <= i < |s.attempts| && s.attempts[i].request.currency == currency ==>
                !StrandedIn(Init(accounts), steps, i) && !s.attempts[i].pc.AtWriteDest?
  {
    InitInv(accounts);
    RunKeepsInv(Init(accounts), steps);
    ConservationOfWholeAmounts(accounts, steps, currency);
    var s := Run(Init(accounts), steps);
    forall i | 0 <= i < |s.attempts|
      ensures Stranded(s.attempts[i]) <==> StrandedIn(Init(accounts), steps, i) || s.attempts[i].pc.AtWriteDest?
    {
      assert AttemptOk(s.accounts, s.attempts[i]);
      StrandedExactly(accounts, steps, i);
    }
  }

  lemma NewAttempts(s: State, step: Step, i: nat)
    requires i >= |s.attempts|
    ensures i < |Next(s, step).attempts| ==> Next(s, step).attempts[i].pc == AtReadSource
  {
  }

  // ---------- attempts that end without an outcome event ----------

  /** The attempt is over and has reported nothing. */
  predicate Silent(t: Attempt) {
    t.pc.Done? && forall k :: 0 <= k < |t.effects| ==> !t.effects[k].Saved?
  }

  /** This step ends attempt `i` without an event: a write that is not acknowledged, or a refused save. */
  predicate Silences(s: State, step: Step, i: nat) {
    && step.Proceed? && step.attempt == i < |s.attempts|
    && var t := s.attempts[i];
       || (t.pc.AtWriteSource? && !UpdateAcked(s.accounts, t.request.source, t.pc.source, step.reply))
       || (t.pc.AtWriteDest? && !UpdateAcked(s.accounts, t.request.dest, t.pc.dest, step.reply))
       || (t.pc.AtSave? && step.reply.Refused?)
  }

  /** No other step silences an attempt. */
  lemma SilentWhen(s: State, step: Step, i: nat)
    requires Inv(s) && i < |s.attempts|
    ensures i < |Next(s, step).attempts|
    ensures Silent(Next(s, step).attempts[i]) <==> Silent(s.attempts[i]) || Silences(s, step, i)
  {
    if step.Proceed? && step.attempt == i {
      assert AttemptOk(s.accounts, s.attempts[i]);
      ProceedSilences(s, i, step.reply);
    } else {
      assert Next(s, step).attempts[i] == s.attempts[i];
    }
  }

  lemma ProceedSilences(s: State, i: nat, reply: Reply)
    requires i < |s.attempts| && AttemptOk(s.accounts, s.attempts[i])
    ensures Silent(ProceedWith(s, i, reply).attempts[i])
            <==> Silent(s.attempts[i]) || Silences(s, Proceed(i, reply), i)
  {
    var t, t' := s.attempts[i], ProceedWith(s, i, reply).attempts[i];
    if t.pc.AtSave? && !reply.Refused? {
      assert t'.effects[|t.effects|] == Saved(t.pc.event);
    }
  }

  ghost predicate SilencedIn(s: State, steps: seq<Step>, i: nat) {
    exists k :: 0 <= k < |steps| && Silences(Run(s, steps[..k]), steps[k], i)
  }

  lemma SilencedInNext(s: State, steps: seq<Step>, step: Step, i: nat)
    ensures SilencedIn(s, steps + [step], i) <==> SilencedIn(s, steps, i) || Silences(Run(s, steps), step, i)
  {
    var all := steps + [step];
    assert all[..|steps|] == steps;
    assert forall k :: 0 <= k < |steps| ==> all[..k] == steps[..k];
    if SilencedIn(s, steps, i) {
      var k :| 0 <= k < |steps| && Silences(Run(s, steps[..k]), steps[k], i);
      assert Silences(Run(s, all[..k]), all[k], i);
    }
    if Silences(Run(s, steps), step, i) {
      assert Silences(Run(s, all[..|steps|]), all[|steps|], i);
    }
  }

  /** Over whole runs: an attempt ends without any outcome event, whatever money it moved, exactly when one of its
      writes was not acknowledged or its save was refused. */
  lemma {:induction false} SilentExactly(accounts: Rows, steps: seq<Step>, i: nat)
    requires Opened(accounts)
    ensures var s := Run(Init(accounts), steps);
            i < |s.attempts| && Silent(s.attempts[i]) <==> SilencedIn(Init(accounts), steps, i)
  {
    if steps != [] {
      var front, last := steps[..|steps| - 1], steps[|steps| - 1];
      var mid := Run(Init(accounts), front);
      SilentExactly(accounts, front, i);
      assert steps == front + [last];
      SilencedInNext(Init(accounts), front, last, i);
      InitInv(accounts);
      RunKeepsInv(Init(accounts), front);
      if i < |mid.attempts| {
        SilentWhen(mid, last, i);
      } else {
        NewAttempts(mid, last, i);
      }
    }
  }

  lemma DoneStays(s: State, step: Step, i: nat)
    requires i < |s.attempts| && s.attempts[i].pc.Done?
    ensures i < |Next(s, step).attempts| && Next(s, step).attempts[i] == s.attempts[i]
  {
  }

  /** Nothing rolls a debit back: an attempt that ended without its credit stays so in every continuation. */
  lemma {:induction false} StrandedForever(s: State, more: seq<Step>, i: nat)
    requires i < |s.attempts| && s.attempts[i].pc.Done? && Stranded(s.attempts[i])
    ensures i < |Run(s, more).attempts| && Run(s, more).attempts[i] == s.attempts[i] && Stranded(Run(s, more).attempts[i])
  {
    if more != [] {
      StrandedForever(s, more[..|more| - 1], i);
      DoneStays(Run(s, more[..|more| - 1]), more[|more| - 1], i);
    }
  }

  /** Outcome events survive every failure: what an attempt saved is in the table, what is marked published is
      in the topic, and the topic holds nothing but what attempts saved. */
  lemma OutcomesAtLeastOnce(accounts: Rows, steps: seq<Step>)
    requires Opened(accounts)
    ensures var s := Run(Init(accounts), steps);
            && (forall i, event :: 0 <= i < |s.attempts| && Saved(event) in s.attempts[i].effects ==>
                  Outbox.SavedSomewhere(s.outbox.rows, event))
            && (forall j :: 0 <= j < |s.outbox.rows| && s.outbox.rows[j].published ==> s.outbox.rows[j].event in s.outbox.log)
            && (forall event :: event in s.outbox.log ==> SavedByAttempt(s.attempts, event))
  {
    InitInv(accounts);
    RunKeepsInv(Init(accounts), steps);
    var s := Run(Init(accounts), steps);
    forall event | event in s.outbox.log ensures SavedByAttempt(s.attempts, event) {
      assert Outbox.SavedSomewhere(s.outbox.rows, event);
      var j :| 0 <= j < |s.outbox.rows| && s.outbox.rows[j].event == event;
    }
  }

  /** Accounts are never removed, and a row changes only together with its version, which grows. */
  ghost predicate RowsExtend(rows: Rows, rows': Rows) {
    forall id :: id in rows ==>
      && id in rows'
      && rows'[id].version >= rows[id].version
      && (rows'[id].version == rows[id].version ==> rows'[id] == rows[id])
  }

  /** Requests are never rewritten, and persistent effects are only added to. */
  ghost predicate AttemptsExtend(attempts: seq<Attempt>, attempts': seq<Attempt>) {
    && |attempts| <= |attempts'|
    && (forall i :: 0 <= i < |attempts| ==>
          attempts'[i].request == attempts[i].request && attempts[i].effects <= attempts'[i].effects)
  }

  /** What is written stays written. */
  ghost predicate Extends(s: State, s': State) {
    && (forall id :: id in s.opening ==> id in s'.opening && s'.opening[id] == s.opening[id])
    && RowsExtend(s.accounts, s'.accounts)
    && AttemptsExtend(s.attempts, s'.attempts)
  }

  lemma {:induction false} RunExtends(s: State, steps: seq<Step>)
    requires s.accounts.Keys == s.opening.Keys
    ensures Run(s, steps).accounts.Keys == Run(s, steps).opening.Keys
    ensures Extends(s, Run(s, steps))
  {
    if steps != [] {
      var mid := Run(s, steps[..|steps| - 1]);
      RunExtends(s, steps[..|steps| - 1]);
      NextExtends(mid, steps[|steps| - 1]);
    }
  }

  lemma UpdateExtends(rows: Rows, id: AccountId, a: AccountDomain.Snapshot, reply: Reply)
    ensures Updated(rows, id, a, reply).Keys == rows.Keys
    ensures RowsExtend(rows, Updated(rows, id, a, reply))
  {
  }

  lemma ProceedExtends(s: State, i: nat, reply: Reply)
    requires i < |s.attempts| && s.accounts.Keys == s.opening.Keys
    ensures Extends(s, ProceedWith(s, i, reply))
    ensures ProceedWith(s, i, reply).accounts.Keys == s.accounts.Keys
    ensures ProceedWith(s, i, reply).opening == s.opening
  {
    var t := s.attempts[i];
    var s' := ProceedWith(s, i, reply);
    match t.pc {
      case AtWriteSource(source, _) => UpdateExtends(s.accounts, t.request.source, source, reply);
      case AtWriteDest(dest) => UpdateExtends(s.accounts, t.request.dest, dest, reply);
      case _ =>
    }
    assert RowsExtend(s.accounts, s'.accounts);
    assert s'.attempts == s.attempts[i := s'.attempts[i]];
    assert s'.attempts[i].request == t.request && t.effects <= s'.attempts[i].effects;
  }

  lemma NextExtends(s: State, step: Step)
    requires s.accounts.Keys == s.opening.Keys
    ensures Next(s, step).accounts.Keys == Next(s, step).opening.Keys
    ensures Extends(s, Next(s, step))
  {
    match step
    case Open(_, _, _, _) =>
    case Begin(_) =>
    case Relay(_) =>
    case Proceed(i, reply) =>
      if i < |s.attempts| {
        ProceedExtends(s, i, reply);
      }
  }
}
