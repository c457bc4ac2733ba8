/** The whole platform: the transfer service and the account service, joined by their topics.  Records are
    delivered in any order and any number of times. */
module Saga {
  import opened Events
  import opened TransferDomain
  import opened Sums
  import T = TransferStore
  import TI = TransferInvariant
  import TT = TransferTheorems
  import TE = TransferEffects
  import L = Ledger
  import LI = LedgerInvariant
  import LT = LedgerTheorems
  import LS = LedgerSerial
  import AtomicLedger
  import AccountTable
  import Outbox

  datatype State = State(transfers: T.State, ledger: L.State)

  /** A step of either service by itself, or the delivery of a record that is in a topic. */
  datatype Step =
    | Transfers(own: T.Step)
    | Accounts(act: L.Step)
    | Consume(request: nat)
    | Report(outcome: nat)

  function Init(accounts: AccountTable.Rows): State {
    State(T.Init(), L.Init(accounts))
  }

  ghost function Next(s: State, step: Step): State {
    match step
    case Transfers(own) => if own.Deliver? then s else s.(transfers := T.Next(s.transfers, own))
    case Accounts(act) => if act.Begin? then s else s.(ledger := L.Next(s.ledger, act))
    case Consume(n) =>
      if n < |s.transfers.outbox.log| then s.(ledger := L.Next(s.ledger, L.Begin(s.transfers.outbox.log[n]))) else s
    case Report(n) =>
      if n < |s.ledger.outbox.log| then s.(transfers := T.Next(s.transfers, T.Deliver(s.ledger.outbox.log[n]))) else s
  }

  ghost function Run(s: State, steps: seq<Step>): State {
    if steps == [] then s else Next(Run(s, steps[..|steps| - 1]), steps[|steps| - 1])
  }

  // ---------- the invariant ----------

  /** Only what was published is ever handled. */
  ghost predicate Linked(s: State) {
    && (forall i :: 0 <= i < |s.ledger.attempts| ==> s.ledger.attempts[i].request in s.transfers.outbox.log)
    && (forall i :: 0 <= i < |s.transfers.handlers| ==> s.transfers.handlers[i].event in s.ledger.outbox.log)
  }

  ghost predicate Inv(s: State) {
    TI.Inv(s.transfers) && LI.Inv(s.ledger) && Linked(s)
  }

  lemma InitInv(accounts: AccountTable.Rows)
    requires LI.Opened(accounts)
    ensures Inv(Init(accounts))
  {
    TI.InitInv();
    LI.InitInv(accounts);
  }

  lemma LogGrows<E(!new)>(s: Outbox.State<E>, step: Outbox.Step)
    ensures s.log <= Outbox.Next(s, step).log
  {
  }

  lemma TransfersKeepLog(s: T.State, step: T.Step)
    ensures s.outbox.log <= T.Next(s, step).outbox.log
    ensures !step.Deliver? ==> |T.Next(s, step).handlers| == |s.handlers|
    ensures forall i :: 0 <= i < |s.handlers| ==> T.Next(s, step).handlers[i].event == s.handlers[i].event
  {
    TT.NextGrows(s, step);
    if step.Relay? {
      LogGrows(s.outbox, step.step);
    }
  }

  lemma AccountsKeepLog(s: L.State, step: L.Step)
    requires s.accounts.Keys == s.opening.Keys
    ensures s.outbox.log <= L.Next(s, step).outbox.log
    ensures !step.Begin? ==> |L.Next(s, step).attempts| == |s.attempts|
    ensures forall i :: 0 <= i < |s.attempts| ==> L.Next(s, step).attempts[i].request == s.attempts[i].request
  {
    LT.NextExtends(s, step);
    if step.Relay? {
      LogGrows(s.outbox, step.step);
    }
  }

  lemma TransfersKeepLinked(s: State, own: T.Step)
    requires Linked(s) && !own.Deliver?
    ensures Linked(s.(transfers := T.Next(s.transfers, own)))
  {
    TransfersKeepLog(s.transfers, own);
  }

  lemma AccountsKeepLinked(s: State, act: L.Step)
    requires Linked(s) && !act.Begin? && s.ledger.accounts.Keys == s.ledger.opening.Keys
    ensures Linked(s.(ledger := L.Next(s.ledger, act)))
  {
    AccountsKeepLog(s.ledger, act);
  }

  lemma DeliveriesKeepLinked(s: State, step: Step)
    requires Linked(s) && (step.Consume? || step.Report?)
    ensures Linked(Next(s, step))
  {
  }

  lemma NextKeepsInv(s: State, step: Step)
    requires Inv(s)
    ensures Inv(Next(s, step))
  {
    match step
    case Transfers(own) =>
      if !own.Deliver? {
        TI.NextKeepsInv(s.transfers, own);
        TransfersKeepLinked(s, own);
      }
    case Accounts(act) =>
      if !act.Begin? {
        LI.NextKeepsInv(s.ledger, act);
        AccountsKeepLinked(s, act);
      }
    case Consume(n) =>
      DeliveriesKeepLinked(s, step);
      if n < |s.transfers.outbox.log| {
        LI.NextKeepsInv(s.ledger, L.Begin(s.transfers.outbox.log[n]));
      }
    case Report(n) =>
      DeliveriesKeepLinked(s, step);
      if n < |s.ledger.outbox.log| {
        TI.NextKeepsInv(s.transfers, T.Deliver(s.ledger.outbox.log[n]));
      }
  }

  lemma {:induction false} RunKeepsInv(s: State, steps: seq<Step>)
    requires Inv(s)
    ensures Inv(Run(s, steps))
  {
    if steps != [] {
      RunKeepsInv(s, steps[..|steps| - 1]);
      NextKeepsInv(Run(s, steps[..|steps| - 1]), steps[|steps| - 1]);
    }
  }

  // ---------- a run of the platform is a run of each service ----------

  /** What the transfer service sees of a step. */
  function TransferStep(s: State, step: Step): seq<T.Step> {
    match step
    case Transfers(own) => if own.Deliver? then [] else [own]
    case Accounts(_) => []
    case Consume(_) => []
    case Report(n) => if n < |s.ledger.outbox.log| then [T.Deliver(s.ledger.outbox.log[n])] else []
  }

  /** What the account service sees of a step. */
  function LedgerStep(s: State, step: Step): seq<L.Step> {
    match step
    case Transfers(_) => []
    case Accounts(act) => if act.Begin? then [] else [act]
    case Consume(n) => if n < |s.transfers.outbox.log| then [L.Begin(s.transfers.outbox.log[n])] else []
    case Report(_) => []
  }

  ghost function TransferSteps(s: State, steps: seq<Step>): seq<T.Step> {
    if steps == [] then []
    else TransferSteps(s, steps[..|steps| - 1]) + TransferStep(Run(s, steps[..|steps| - 1]), steps[|steps| - 1])
  }

  ghost function LedgerSteps(s: State, steps: seq<Step>): seq<L.Step> {
    if steps == [] then []
    else LedgerSteps(s, steps[..|steps| - 1]) + LedgerStep(Run(s, steps[..|steps| - 1]), steps[|steps| - 1])
  }

  lemma TransfersSeeStep(s: State, before: T.State, seen: seq<T.Step>, step: Step)
    requires s.transfers == T.Run(before, seen)
    ensures Next(s, step).transfers == T.Run(before, seen + TransferStep(s, step))
  {
    var own := TransferStep(s, step);
    if own == [] {
      assert seen + own == seen;
    } else {
      T.RunNext(before, seen, own[0]);
    }
  }

  lemma LedgerSeesStep(s: State, before: L.State, seen: seq<L.Step>, step: Step)
    requires s.ledger == L.Run(before, seen)
    ensures Next(s, step).ledger == L.Run(before, seen + LedgerStep(s, step))
  {
    var own := LedgerStep(s, step);
    if own == [] {
      assert seen + own == seen;
    } else {
      L.RunNext(before, seen, own[0]);
    }
  }

  /** So everything proved of the runs of either service holds of the platform. */
  lemma {:induction false} ServicesSeeRun(s: State, steps: seq<Step>)
    ensures Run(s, steps).transfers == T.Run(s.transfers, TransferSteps(s, steps))
    ensures Run(s, steps).ledger == L.Run(s.ledger, LedgerSteps(s, steps))
  {
    if steps != [] {
      var front, last := steps[..|steps| - 1], steps[|steps| - 1];
      ServicesSeeRun(s, front);
      TransfersSeeStep(Run(s, front), s.transfers, TransferSteps(s, front), last);
      LedgerSeesStep(Run(s, front), s.ledger, LedgerSteps(s, front), last);
    }
  }

  lemma RunGrows(s: State, steps: seq<Step>)
    ensures TT.Grows(s.transfers, Run(s, steps).transfers)
  {
    ServicesSeeRun(s, steps);
    TT.RunGrows(s.transfers, TransferSteps(s, steps));
  }

  // ---------- end-to-end causality ----------

  /** Attempt `i` was for transfer `id`, with the accounts, the currency and the amount of its row. */
  ghost predicate AttemptFor(s: State, id: TransferId, i: int) {
    && 0 <= i < |s.ledger.attempts|
    && s.ledger.attempts[i].request.transfer == id
    && id in s.transfers.rows
    && TI.Requests(s.transfers.rows[id], s.ledger.attempts[i].request)
  }

  /** Every attempt is for a stored transfer. */
  lemma AttemptsAreRequested(s: State, i: nat)
    requires Inv(s) && i < |s.ledger.attempts|
    ensures AttemptFor(s, s.ledger.attempts[i].request.transfer, i)
  {
    var r := s.ledger.attempts[i].request;
    assert Outbox.SavedSomewhere(s.transfers.outbox.rows, r);
    var j :| 0 <= j < |s.transfers.outbox.rows| && s.transfers.outbox.rows[j].event == r;
  }

  /** Every delivered outcome record was saved by an attempt for its transfer. */
  lemma OutcomesAreSaved(s: State, k: nat) returns (i: nat)
    requires Inv(s) && k < |s.transfers.handlers|
    ensures i < |s.ledger.attempts| && L.Saved(s.transfers.handlers[k].event) in s.ledger.attempts[i].effects
    ensures s.ledger.attempts[i].request.transfer == s.transfers.handlers[k].event.transfer
    ensures L.Disciplined(s.ledger.attempts[i])
  {
    var event := s.transfers.handlers[k].event;
    assert Outbox.SavedSomewhere(s.ledger.outbox.rows, event);
    var j :| 0 <= j < |s.ledger.outbox.rows| && s.ledger.outbox.rows[j].event == event;
    assert LI.SavedByAttempt(s.ledger.attempts, event);
    i :| 0 <= i < |s.ledger.attempts| && L.Saved(event) in s.ledger.attempts[i].effects;
    var t := s.ledger.attempts[i];
    assert LI.AttemptOk(s.ledger.accounts, t);
    LT.SavedDecides(t, event);
  }

  /** In every run, with any faults and any duplicates: a transfer stored as completed has an attempt that
      wrote both its debit and its credit, and one stored as failed has an attempt that reported that very
      reason and wrote no balance. */
  lemma Causality(accounts: AccountTable.Rows, steps: seq<Step>, id: TransferId)
    requires LI.Opened(accounts)
    ensures var s := Run(Init(accounts), steps);
            id in s.transfers.rows ==>
              var row := s.transfers.rows[id];
              && (row.status == HasCompleted ==>
                    exists i :: AttemptFor(s, id, i) && s.ledger.attempts[i].effects == L.Success(s.ledger.attempts[i].request))
              && (row.status == HasFailed ==>
                    exists i :: AttemptFor(s, id, i) && s.ledger.attempts[i].effects == [L.Saved(Failed(id, row.reason))])
  {
    InitInv(accounts);
    RunKeepsInv(Init(accounts), steps);
    var s := Run(Init(accounts), steps);
    if id in s.transfers.rows && s.transfers.rows[id].status != Pending {
      assert TI.RowExplained(s.transfers, id);
      var k :| TI.WroteLast(s.transfers, id, k);
      var i := OutcomesAreSaved(s, k);
      AttemptsAreRequested(s, i);
      LT.SavedDecides(s.ledger.attempts[i], s.transfers.handlers[k].event);
      assert AttemptFor(s, id, i);
    }
  }

  /** In every run, whatever is submitted, retried, relayed and redelivered: two attempts are for one idempotency key
      exactly when they are for one transfer. */
  lemma KeyNamesOneTransfer(accounts: AccountTable.Rows, steps: seq<Step>, i: nat, j: nat)
    requires LI.Opened(accounts)
    ensures var s := Run(Init(accounts), steps);
            i < |s.ledger.attempts| && j < |s.ledger.attempts| ==>
              var a, b := s.ledger.attempts[i].request.transfer, s.ledger.attempts[j].request.transfer;
              && AttemptFor(s, a, i) && AttemptFor(s, b, j)
              && (s.transfers.rows[a].key == s.transfers.rows[b].key <==> a == b)
  {
    InitInv(accounts);
    RunKeepsInv(Init(accounts), steps);
    var s := Run(Init(accounts), steps);
    if i < |s.ledger.attempts| && j < |s.ledger.attempts| {
      AttemptsAreRequested(s, i);
      AttemptsAreRequested(s, j);
    }
  }

  /** In every run each attempt is for exactly what was submitted under its transfer: a positive amount between two
      different accounts. */
  lemma AttemptAsSubmitted(accounts: AccountTable.Rows, steps: seq<Step>, i: nat)
    requires LI.Opened(accounts)
    ensures var s := Run(Init(accounts), steps);
            var own := TransferSteps(Init(accounts), steps);
            i < |s.ledger.attempts| ==>
              var r := s.ledger.attempts[i].request;
              && r.amount > 0.0 && r.source != r.dest
              && exists k :: && 0 <= k < |own| && own[k].Submit?
                             && r == Request(own[k].id, own[k].source, own[k].dest, own[k].amount, own[k].currency)
  {
    InitInv(accounts);
    RunKeepsInv(Init(accounts), steps);
    ServicesSeeRun(Init(accounts), steps);
    var s := Run(Init(accounts), steps);
    if i < |s.ledger.attempts| {
      var r := s.ledger.attempts[i].request;
      assert Outbox.SavedSomewhere(s.transfers.outbox.rows, r);
      var j :| 0 <= j < |s.transfers.outbox.rows| && s.transfers.outbox.rows[j].event == r;
      TE.EventAsSubmitted(TransferSteps(Init(accounts), steps), j);
    }
  }

  // ---------- transfers that are stored and never requested ----------

  /** Nobody requests an orphan, so nobody reports on it. */
  lemma OrphanIsPending(s: State, id: TransferId)
    requires Inv(s) && TT.Orphan(s.transfers, id)
    ensures s.transfers.rows[id].status == Pending
    ensures forall i :: !AttemptFor(s, id, i)
  {
    forall i: nat | i < |s.ledger.attempts| ensures s.ledger.attempts[i].request.transfer != id {
      var r := s.ledger.attempts[i].request;
      assert Outbox.SavedSomewhere(s.transfers.outbox.rows, r);
      var j :| 0 <= j < |s.transfers.outbox.rows| && s.transfers.outbox.rows[j].event == r;
      assert r.transfer == id ==> T.HasEvent(s.transfers, id);
    }
    if s.transfers.rows[id].status != Pending {
      assert TI.RowExplained(s.transfers, id);
      var k :| TI.WroteLast(s.transfers, id, k);
      var i := OutcomesAreSaved(s, k);
      assert false;
    }
  }

  /** In every continuation of every run an orphan stays pending and no money moves for it. */
  lemma OrphanNeverSettles(accounts: AccountTable.Rows, steps: seq<Step>, more: seq<Step>, id: TransferId)
    requires LI.Opened(accounts)
    ensures var s := Run(Init(accounts), steps);
            var s' := Run(s, more);
            TT.Orphan(s.transfers, id) ==>
              && id in s'.transfers.rows && s'.transfers.rows[id].status == Pending
              && forall i :: !AttemptFor(s', id, i)
  {
    InitInv(accounts);
    RunKeepsInv(Init(accounts), steps);
    var s := Run(Init(accounts), steps);
    if TT.Orphan(s.transfers, id) {
      ServicesSeeRun(s, more);
      TT.OrphanForever(s.transfers, TransferSteps(s, more), id);
      RunKeepsInv(s, more);
      OrphanIsPending(Run(s, more), id);
    }
  }

  // ---------- money ----------

  /** Over every run of the platform, in every currency: balances plus stranded debits are the opening
      balances plus one unit of 10^-8 per credited tie, so amounts of at most eight fractional digits never
      create money, and lose none from sight exactly when no debit is stranded. */
  lemma MoneyIsAccountedFor(accounts: AccountTable.Rows, steps: seq<Step>, currency: Currency)
    requires LI.Opened(accounts)
    ensures var s := Run(Init(accounts), steps).ledger;
            var total, opening := L.Total(s.accounts, currency), L.Total(s.opening, currency);
            && total + Sum(s.attempts, LT.StrandedOf(currency)) == opening + Sum(s.attempts, LT.TieOf(currency))
            && (LT.AllWhole(s.attempts) ==>
                  && total <= opening
                  && (total == opening <==>
                        forall i :: 0 <= i < |s.attempts| && s.attempts[i].request.currency == currency ==>
                          !LT.Stranded(s.attempts[i])))
  {
    InitInv(accounts);
    RunKeepsInv(Init(accounts), steps);
    var s := Run(Init(accounts), steps).ledger;
    LT.ConservationAt(s, currency);
    if LT.AllWhole(s.attempts) {
      LT.WholeConservationAt(s, currency);
    }
  }

  // ---------- one processing per request ----------

  /** No transfer was requested of the ledger twice. */
  ghost predicate ProcessedOnce(s: State) {
    forall i, j :: 0 <= i < j < |s.ledger.attempts| ==>
      s.ledger.attempts[i].request.transfer != s.ledger.attempts[j].request.transfer
  }

  lemma OutcomesOfOneAttemptAgree(s: State, k: nat)
    requires Inv(s) && ProcessedOnce(s) && k < |s.transfers.handlers|
    ensures TT.OutcomesAgree(s.transfers, s.transfers.handlers[k].event.transfer, s.transfers.handlers[k].event)
  {
    var event := s.transfers.handlers[k].event;
    var i := OutcomesAreSaved(s, k);
    LT.SavedDecides(s.ledger.attempts[i], event);
    forall m | 0 <= m < |s.transfers.handlers| && s.transfers.handlers[m].event.transfer == event.transfer
      ensures s.transfers.handlers[m].event == event
    {
      var n := OutcomesAreSaved(s, m);
      assert n == i;
      LT.SavedDecides(s.ledger.attempts[i], s.transfers.handlers[m].event);
    }
  }

  /** In runs that process no transfer twice, its outcome records all agree, and once it has left pending its
      status and its reason never change, however its outcome records are duplicated, reordered or raced. */
  lemma TerminalStatusIsStable(accounts: AccountTable.Rows, steps: seq<Step>, more: seq<Step>, id: TransferId)
    requires LI.Opened(accounts)
    requires ProcessedOnce(Run(Run(Init(accounts), steps), more))
    ensures var s := Run(Init(accounts), steps).transfers;
            var s' := Run(Run(Init(accounts), steps), more).transfers;
            id in s.rows && s.rows[id].status != Pending ==>
              && id in s'.rows
              && s'.rows[id].status == s.rows[id].status
              && s'.rows[id].reason == s.rows[id].reason
  {
    InitInv(accounts);
    RunKeepsInv(Init(accounts), steps);
    var s := Run(Init(accounts), steps);
    RunKeepsInv(s, more);
    RunGrows(s, more);
    var s' := Run(s, more);
    if id in s.transfers.rows && s.transfers.rows[id].status != Pending {
      assert TI.RowExplained(s.transfers, id);
      var k :| TI.WroteLast(s.transfers, id, k);
      assert s'.transfers.handlers[k].event == s.transfers.handlers[k].event;
      OutcomesOfOneAttemptAgree(s', k);
      TT.StableBetween(s.transfers, s'.transfers, id, s'.transfers.handlers[k].event);
    }
  }

  /** In every run of the platform, with every fault, duplicate and race: the outcome of a stored transfer is final
      exactly when the rest of the run lands no update that says something else. */
  lemma OutcomeIsFinalExactly(accounts: AccountTable.Rows, steps: seq<Step>, more: seq<Step>, id: TransferId)
    requires LI.Opened(accounts)
    ensures var s := Run(Init(accounts), steps);
            var own := TransferSteps(s, more);
            && Run(s, more).transfers == T.Run(s.transfers, own)
            && (id in s.transfers.rows ==> (TT.Stays(s.transfers, own, id) <==> !TT.OverwrittenIn(s.transfers, own, id)))
  {
    InitInv(accounts);
    RunKeepsInv(Init(accounts), steps);
    var s := Run(Init(accounts), steps);
    ServicesSeeRun(s, more);
    if id in s.transfers.rows {
      TT.OutcomeStaysExactly(s.transfers, TransferSteps(s, more), id);
    }
  }

  /** In every run of the platform the accounts are those of atomic transfers of the debited requests, in the order of
      their debits, less the missing credits; exactly those if and only if no debit is without its credit. */
  lemma PlatformIsSerialisable(accounts: AccountTable.Rows, steps: seq<Step>)
    requires LI.Opened(accounts)
    ensures var s := Run(Init(accounts), steps).ledger;
            var order := LS.DebitOrder(L.Init(accounts), LedgerSteps(Init(accounts), steps));
            var (serial, outcomes) := AtomicLedger.AtomicAll(s.opening, order);
            && AtomicLedger.AllCompleted(order, outcomes)
            && LS.Short(s.accounts, serial, s.attempts)
            && (s.accounts == serial <==> forall i :: 0 <= i < |s.attempts| ==> !LT.Stranded(s.attempts[i]))
  {
    ServicesSeeRun(Init(accounts), steps);
    LS.Serialisable(accounts, LedgerSteps(Init(accounts), steps));
  }
}
