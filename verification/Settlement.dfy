/** Without failures the platform settles every created transfer, however its remote calls interleave and in
    whatever order its records are delivered: two relays, each in one call at a time, and two consumers, each
    handling one record at a time, advance one remote call at a time. */
module Settlement {
  import opened Wrappers
  import opened Arithmetic
  import opened Money
  import opened Events
  import opened TransferDomain
  import opened OutboxDrain
  import opened Sums
  import S = Saga
  import T = TransferStore
  import TI = TransferInvariant
  import TS = TransferService
  import L = Ledger
  import LI = LedgerInvariant
  import A = AccountService
  import opened AtomicLedger
  import AccountTable
  import AccountDomain
  import TransferTable
  import Outbox

  // ---------- which steps are due ----------

  /** The relay call in progress, or one that has nothing left to do. */
  function Active<E>(o: Outbox.State<E>): Outbox.Pass {
    if o.passes == [] then Outbox.Pass([], false) else o.passes[|o.passes| - 1]
  }

  /** What the relay does next: a new call when the last one is done and rows are waiting. */
  predicate RelayDue<E>(o: Outbox.State<E>, step: Outbox.Step) {
    match step
    case Fetch => Active(o).todo == [] && |o.log| < |o.rows|
    case Publish(p, reply) => p == |o.passes| - 1 && reply.Acked? && Active(o).todo != [] && !Active(o).marking
    case Mark(p, reply) => p == |o.passes| - 1 && reply.Acked? && Active(o).marking
  }

  /** The account service's consumer is in the middle of a record. */
  predicate Busy(ledger: L.State) {
    ledger.attempts != [] && !ledger.attempts[|ledger.attempts| - 1].pc.Done?
  }

  /** The transfer service's consumer is in the middle of a record. */
  predicate Reporting(transfers: T.State) {
    transfers.handlers != [] && !transfers.handlers[|transfers.handlers| - 1].pc.Ended?
  }

  /** The requests taken so far, in the order in which they were taken. */
  function Taken(ledger: L.State): seq<Request> {
    seq(|ledger.attempts|, i requires 0 <= i < |ledger.attempts| => ledger.attempts[i].request)
  }

  /** The outcomes delivered so far, in the order of their delivery. */
  function Delivered(transfers: T.State): seq<Outcome> {
    seq(|transfers.handlers|, k requires 0 <= k < |transfers.handlers| => transfers.handlers[k].event)
  }

  /** The single remote calls and deliveries that can come next: each succeeds, and each consumer takes any published
      record that was not taken before, one at a time. */
  predicate Due(s: S.State, step: S.Step) {
    match step
    case Transfers(Relay(r)) => RelayDue(s.transfers.outbox, r)
    case Transfers(Handle(h, reply)) => Reporting(s.transfers) && h == |s.transfers.handlers| - 1 && reply.Acked?
    case Transfers(_) => false
    case Accounts(Relay(r)) => RelayDue(s.ledger.outbox, r)
    case Accounts(Proceed(i, reply)) => Busy(s.ledger) && i == |s.ledger.attempts| - 1 && reply.Acked?
    case Accounts(_) => false
    case Consume(n) => !Busy(s.ledger) && n < |s.transfers.outbox.log| && s.transfers.outbox.log[n] !in Taken(s.ledger)
    case Report(n) => !Reporting(s.transfers) && n < |s.ledger.outbox.log| && s.ledger.outbox.log[n] !in Delivered(s.transfers)
  }

  /** Each step is due when its turn comes. */
  ghost predicate Schedulable(s: S.State, steps: seq<S.Step>) {
    steps == [] || (Schedulable(s, steps[..|steps| - 1]) && Due(S.Run(s, steps[..|steps| - 1]), steps[|steps| - 1]))
  }

  // ---------- a relay, one remote call at a time ----------

  /** How many rows have been marked. */
  function Marks<E>(o: Outbox.State<E>): int {
    |o.log| - if Active(o).marking then 1 else 0
  }

  /** The log is the beginning of the table, the marked rows are a beginning too, and the relay call in progress
      holds the rows that follow them. */
  ghost predicate Lined<E(!new)>(o: Outbox.State<E>) {
    var todo := Active(o).todo;
    && |o.log| <= |o.rows| && 0 <= Marks(o)
    && (forall j :: 0 <= j < |o.log| ==> o.log[j] == o.rows[j].event)
    && (forall j :: 0 <= j < |o.rows| ==> (o.rows[j].published <==> j < Marks(o)))
    && (Active(o).marking ==> todo != [])
    && Marks(o) + |todo| <= |o.rows|
    && forall i :: 0 <= i < |todo| ==> todo[i] == Marks(o) + i
  }

  /** Remote calls left: for each row a place in a fetched batch, a publish and a mark. */
  function RelayWork<E>(o: Outbox.State<E>): int {
    3 * (|o.rows| - Marks(o)) - |Active(o).todo| - if Active(o).marking then 1 else 0
  }

  function Tail(start: nat, end: nat): (ids: seq<nat>)
    requires start <= end
    ensures |ids| == end - start && forall i :: 0 <= i < |ids| ==> ids[i] == start + i
  {
    seq(end - start, i requires 0 <= i < end - start => start + i)
  }

  lemma TailHas(start: nat, end: nat, j: nat)
    requires start <= end
    ensures j in Tail(start, end) <==> start <= j < end
  {
    if start <= j < end {
      assert Tail(start, end)[j - start] == j;
    }
  }

  /** A prefix of the table is marked exactly when the backlog is the rest of it. */
  lemma BacklogIsTail<E>(rows: seq<Outbox.Row<E>>, start: nat)
    requires start <= |rows|
    ensures Backlog(rows) == Tail(start, |rows|) <==> forall j :: 0 <= j < |rows| ==> (rows[j].published <==> j < start)
  {
    BatchIsPrefix(rows);
    forall j: nat ensures j in Tail(start, |rows|) <==> start <= j < |rows| {
      TailHas(start, |rows|, j);
    }
    if forall j :: 0 <= j < |rows| ==> (rows[j].published <==> j < start) {
      assert Elements(Backlog(rows)) == Elements(Tail(start, |rows|));
      IncreasingIsUnique(Backlog(rows), Tail(start, |rows|));
    }
  }

  /** The events of the table stay, and the log grows. */
  ghost predicate Relaying<E(!new)>(o: Outbox.State<E>, o': Outbox.State<E>) {
    && |o'.rows| == |o.rows| && o.log <= o'.log
    && forall j :: 0 <= j < |o.rows| ==> o'.rows[j].event == o.rows[j].event
  }

  lemma FetchKeepsLined<E(!new)>(o: Outbox.State<E>)
    requires Lined(o) && RelayDue(o, Outbox.Fetch)
    ensures var o' := Outbox.Next(o, Outbox.Fetch);
            Lined(o') && Relaying(o, o') && RelayWork(o') < RelayWork(o)
  {
    BacklogIsTail(o.rows, |o.log|);
    BatchIsPrefix(o.rows);
    var o' := Outbox.Next(o, Outbox.Fetch);
    assert Active(o').todo == Tail(|o.log|, |o.rows|)[..Min(Outbox.BATCH, |o.rows| - |o.log|)];
  }

  lemma PublishKeepsLined<E(!new)>(o: Outbox.State<E>, step: Outbox.Step)
    requires Lined(o) && RelayDue(o, step) && step.Publish?
    ensures var o' := Outbox.Next(o, step);
            Lined(o') && Relaying(o, o') && RelayWork(o') < RelayWork(o)
  {
    var o' := Outbox.Next(o, step);
    assert Active(o') == Outbox.Pass(Active(o).todo, true);
  }

  lemma MarkKeepsLined<E(!new)>(o: Outbox.State<E>, step: Outbox.Step)
    requires Lined(o) && RelayDue(o, step) && step.Mark?
    ensures var o' := Outbox.Next(o, step);
            Lined(o') && Relaying(o, o') && RelayWork(o') < RelayWork(o)
  {
    var o' := Outbox.Next(o, step);
    assert Active(o') == Outbox.Pass(Active(o).todo[1..], false);
  }

  lemma RelayKeepsLined<E(!new)>(o: Outbox.State<E>, step: Outbox.Step)
    requires Lined(o) && RelayDue(o, step)
    ensures var o' := Outbox.Next(o, step);
            Lined(o') && Relaying(o, o') && RelayWork(o') < RelayWork(o)
  {
    match step
    case Fetch => FetchKeepsLined(o);
    case Publish(_, _) => PublishKeepsLined(o, step);
    case Mark(_, _) => MarkKeepsLined(o, step);
  }

  lemma SaveKeepsLined<E(!new)>(o: Outbox.State<E>, e: E)
    requires Lined(o)
    ensures Lined(Outbox.Save(o, e, Acked)) && RelayWork(Outbox.Save(o, e, Acked)) == RelayWork(o) + 3
  {
  }

  // ---------- the account service, one database call at a time ----------

  /** How many requests have been handled to the end. */
  function Handled(ledger: L.State): int {
    |ledger.attempts| - if Busy(ledger) then 1 else 0
  }

  /** Where attempt `t` stands in an atomic transfer on `base`, when no other attempt is under way. */
  ghost predicate Tracks(base: AccountTable.Rows, rows: AccountTable.Rows, t: L.Attempt) {
    var r := t.request;
    match t.pc
    case AtReadSource => rows == base && t.effects == []
    case AtReadDest(source) =>
      rows == base && t.effects == [] && r.source in base && source == AccountTable.Load(base[r.source])
    case AtWriteSource(_, _) =>
      rows == base && t.effects == [] && Refusal(base, r) == NoReason && t.pc == BothCopies(base, r)
    case AtWriteDest(dest) =>
      && Refusal(base, r) == NoReason && t.effects == [L.DebitWritten]
      && rows == base[r.source := Changed(base[r.source], -DebitUnits(r.amount))]
      && dest == AccountDomain.Moved(AccountTable.Load(base[r.dest]), r.amount)
    case AtSave(event) => (rows, event) == Atomic(base, r) && t.effects + [L.Saved(event)] == EffectsOf(event)
    case Done(_) => false
  }

  /** Attempt i handled request i as an atomic transfer would in its turn, and saved outcome i. */
  ghost predicate InStep(opening: AccountTable.Rows, requests: seq<Request>, ledger: L.State) {
    && |ledger.attempts| <= |requests|
    && |ledger.outbox.rows| == Handled(ledger)
    && (forall i :: 0 <= i < |ledger.attempts| ==> ledger.attempts[i].request == requests[i])
    && var (base, outcomes) := AtomicAll(opening, requests[..Handled(ledger)]);
       && |outcomes| == Handled(ledger)
       && (forall i :: 0 <= i < Handled(ledger) ==>
             ledger.attempts[i] == Finished(requests[i], outcomes[i]) && ledger.outbox.rows[i].event == outcomes[i])
       && if Busy(ledger) then Tracks(base, ledger.accounts, ledger.attempts[|ledger.attempts| - 1])
          else ledger.accounts == base
  }

  lemma ReadTracks(base: AccountTable.Rows, ledger: L.State, i: nat)
    requires i < |ledger.attempts| && Tracks(base, ledger.accounts, ledger.attempts[i])
    requires ledger.attempts[i].pc.AtReadSource? || ledger.attempts[i].pc.AtReadDest?
    ensures Tracks(base, ledger.accounts, L.ProceedWith(ledger, i, Acked).attempts[i])
  {
    var t := ledger.attempts[i];
    var t' := L.ProceedWith(ledger, i, Acked).attempts[i];
    if t'.pc.AtSave? {
      assert t'.effects + [L.Saved(t'.pc.event)] == EffectsOf(t'.pc.event);
    }
  }

  lemma DebitTracks(base: AccountTable.Rows, ledger: L.State, i: nat)
    requires i < |ledger.attempts| && Tracks(base, ledger.accounts, ledger.attempts[i])
    requires ledger.attempts[i].pc.AtWriteSource? && Sound(ledger.accounts)
    ensures var ledger' := L.ProceedWith(ledger, i, Acked);
            Tracks(base, ledger'.accounts, ledger'.attempts[i])
  {
    var r := ledger.attempts[i].request;
    DebitIsExact(base[r.source].balance, r.amount);
  }

  lemma CreditTracks(base: AccountTable.Rows, ledger: L.State, i: nat)
    requires i < |ledger.attempts| && Tracks(base, ledger.accounts, ledger.attempts[i])
    requires ledger.attempts[i].pc.AtWriteDest? && Sound(ledger.accounts)
    requires ledger.attempts[i].request.source != ledger.attempts[i].request.dest
    ensures var ledger' := L.ProceedWith(ledger, i, Acked);
            Tracks(base, ledger'.accounts, ledger'.attempts[i])
  {
    var r := ledger.attempts[i].request;
    assert base[r.dest] == ledger.accounts[r.dest];
    CreditIsExact(base[r.dest].balance, r.amount);
    assert ([L.DebitWritten] + [L.CreditWritten]) + [L.Saved(Completed(r.transfer))] == EffectsOf(Completed(r.transfer));
  }

  /** Until its save an attempt without failures only follows the atomic transfer. */
  lemma TracksNext(base: AccountTable.Rows, ledger: L.State, i: nat, ledger': L.State)
    requires i < |ledger.attempts| && Tracks(base, ledger.accounts, ledger.attempts[i])
    requires !ledger.attempts[i].pc.AtSave? && Sound(ledger.accounts)
    requires ledger.attempts[i].request.source != ledger.attempts[i].request.dest
    requires ledger' == L.ProceedWith(ledger, i, Acked)
    ensures |ledger'.attempts| == |ledger.attempts| && Tracks(base, ledger'.accounts, ledger'.attempts[i])
    ensures ledger' == ledger.(accounts := ledger'.accounts, attempts := ledger.attempts[i := ledger'.attempts[i]])
    ensures ledger'.attempts[i].request == ledger.attempts[i].request
    ensures A.CallsLeft(ledger'.attempts[i].pc) < A.CallsLeft(ledger.attempts[i].pc)
  {
    match ledger.attempts[i].pc
    case AtReadSource => ReadTracks(base, ledger, i);
    case AtReadDest(_) => ReadTracks(base, ledger, i);
    case AtWriteSource(_, _) => DebitTracks(base, ledger, i);
    case AtWriteDest(_) => CreditTracks(base, ledger, i);
  }

  /** Calls left to the request in hand, and to its outcome. */
  function LedgerWork(ledger: L.State): int {
    (if Busy(ledger) then A.CallsLeft(ledger.attempts[|ledger.attempts| - 1].pc) + 6 else 0)
    + RelayWork(ledger.outbox) + 3 * |ledger.outbox.rows|
  }

  lemma ProceedInStep(opening: AccountTable.Rows, requests: seq<Request>, ledger: L.State, ledger': L.State)
    requires InStep(opening, requests, ledger) && Busy(ledger) && Sound(ledger.accounts) && Lined(ledger.outbox)
    requires requests[|ledger.attempts| - 1].source != requests[|ledger.attempts| - 1].dest
    requires ledger' == L.ProceedWith(ledger, |ledger.attempts| - 1, Acked)
    ensures InStep(opening, requests, ledger')
    ensures Lined(ledger'.outbox) && ledger'.outbox.log == ledger.outbox.log && ledger.outbox.rows <= ledger'.outbox.rows
    ensures LedgerWork(ledger') < LedgerWork(ledger) && |ledger'.attempts| == |ledger.attempts|
  {
    var i := |ledger.attempts| - 1;
    if ledger.attempts[i].pc.AtSave? {
      SaveInStep(opening, requests, ledger, ledger');
    } else {
      TracksNext(AtomicAll(opening, requests[..i]).0, ledger, i, ledger');
      TrackedInStep(opening, requests, ledger, ledger');
    }
  }

  lemma TrackedInStep(opening: AccountTable.Rows, requests: seq<Request>, ledger: L.State, ledger': L.State)
    requires InStep(opening, requests, ledger) && Busy(ledger)
    requires |ledger'.attempts| == |ledger.attempts|
    requires var i := |ledger.attempts| - 1;
             && ledger' == ledger.(accounts := ledger'.accounts, attempts := ledger.attempts[i := ledger'.attempts[i]])
             && Tracks(AtomicAll(opening, requests[..i]).0, ledger'.accounts, ledger'.attempts[i])
             && ledger'.attempts[i].request == ledger.attempts[i].request
             && A.CallsLeft(ledger'.attempts[i].pc) < A.CallsLeft(ledger.attempts[i].pc)
    ensures InStep(opening, requests, ledger') && LedgerWork(ledger') < LedgerWork(ledger)
  {
    assert Busy(ledger') && Handled(ledger') == Handled(ledger);
  }

  lemma SaveInStep(opening: AccountTable.Rows, requests: seq<Request>, ledger: L.State, ledger': L.State)
    requires InStep(opening, requests, ledger) && Busy(ledger) && Lined(ledger.outbox)
    requires ledger.attempts[|ledger.attempts| - 1].pc.AtSave?
    requires ledger' == L.ProceedWith(ledger, |ledger.attempts| - 1, Acked)
    ensures InStep(opening, requests, ledger') && Lined(ledger'.outbox) && LedgerWork(ledger') < LedgerWork(ledger)
  {
    var i := |ledger.attempts| - 1;
    var event := ledger.attempts[i].pc.event;
    SaveEffect(ledger);
    assert requests[..i + 1] == requests[..i] + [requests[i]];
    AtomicAllNext(opening, requests[..i], requests[i]);
    SavedInStep(opening, requests, ledger, ledger', event);
  }

  lemma SaveEffect(ledger: L.State)
    requires Busy(ledger) && ledger.attempts[|ledger.attempts| - 1].pc.AtSave? && Lined(ledger.outbox)
    ensures var i := |ledger.attempts| - 1;
            var t, ledger' := ledger.attempts[i], L.ProceedWith(ledger, i, Acked);
            && ledger'.attempts == ledger.attempts[i := L.Attempt(t.request, L.Done(true), t.effects + [L.Saved(t.pc.event)])]
            && ledger'.outbox == Outbox.Save(ledger.outbox, t.pc.event, Acked)
            && Lined(ledger'.outbox) && LedgerWork(ledger') < LedgerWork(ledger)
  {
    SaveKeepsLined(ledger.outbox, ledger.attempts[|ledger.attempts| - 1].pc.event);
  }

  lemma SavedInStep(opening: AccountTable.Rows, requests: seq<Request>, ledger: L.State, ledger': L.State, event: Outcome)
    requires InStep(opening, requests, ledger) && Busy(ledger)
    requires var i := |ledger.attempts| - 1;
             && ledger'.attempts == ledger.attempts[i := Finished(requests[i], event)]
             && ledger'.outbox.rows == ledger.outbox.rows + [Outbox.Row(event, false)]
             && var (base, outcomes) := AtomicAll(opening, requests[..i]);
                && (ledger.accounts, event) == Atomic(base, requests[i])
                && AtomicAll(opening, requests[..i + 1]) == (ledger.accounts, outcomes + [event])
    requires ledger'.accounts == ledger.accounts
    ensures InStep(opening, requests, ledger') && !Busy(ledger')
  {
    assert Handled(ledger') == |ledger.attempts|;
  }

  /** No transfer is requested twice. */
  ghost predicate Differ(requests: seq<Request>) {
    forall i, j :: 0 <= i < j < |requests| ==> requests[i].transfer != requests[j].transfer
  }

  /** Taking a record, whichever it is. */
  lemma BeginInStep(opening: AccountTable.Rows, ledger: L.State, r: Request, ledger': L.State)
    requires InStep(opening, Taken(ledger), ledger) && Differ(Taken(ledger)) && !Busy(ledger)
    requires forall i :: 0 <= i < |ledger.attempts| ==> ledger.attempts[i].request.transfer != r.transfer
    requires ledger' == L.Next(ledger, L.Begin(r))
    ensures InStep(opening, Taken(ledger'), ledger') && Differ(Taken(ledger'))
    ensures LedgerWork(ledger') == LedgerWork(ledger) + 11
    ensures ledger'.outbox == ledger.outbox && |ledger'.attempts| == |ledger.attempts| + 1
  {
    assert Busy(ledger') && Handled(ledger') == Handled(ledger);
    assert Taken(ledger') == Taken(ledger) + [r];
    assert Taken(ledger')[..Handled(ledger')] == Taken(ledger)[..Handled(ledger)];
  }

  lemma InStepRelayed(opening: AccountTable.Rows, requests: seq<Request>, ledger: L.State, outbox: Outbox.State<Outcome>)
    requires InStep(opening, requests, ledger) && Relaying(ledger.outbox, outbox)
    ensures InStep(opening, requests, ledger.(outbox := outbox))
    ensures LedgerWork(ledger.(outbox := outbox)) == LedgerWork(ledger) - RelayWork(ledger.outbox) + RelayWork(outbox)
  {
    var ledger' := ledger.(outbox := outbox);
    assert Busy(ledger') == Busy(ledger) && Handled(ledger') == Handled(ledger);
  }

  // ---------- the outcome handlers, one database call at a time ----------

  /** How many outcome records have been handled to the end. */
  function Reported(transfers: T.State): int {
    |transfers.handlers| - if Reporting(transfers) then 1 else 0
  }

  /** Every transfer whose outcome has been reported has its status, none is reported twice, and the update in hand
      will land. */
  ghost predicate Told(transfers: T.State) {
    && (forall k :: 0 <= k < |transfers.handlers| ==> transfers.handlers[k].event.transfer in transfers.rows)
    && (forall j, k :: 0 <= j < k < |transfers.handlers| ==>
          transfers.handlers[j].event.transfer != transfers.handlers[k].event.transfer)
    && (forall k :: 0 <= k < Reported(transfers) ==>
          transfers.rows[transfers.handlers[k].event.transfer].status == StatusOf(transfers.handlers[k].event))
    && (Reporting(transfers) ==>
          var pc := transfers.handlers[|transfers.handlers| - 1].pc;
          pc.AtUpdate? ==> TransferTable.Current(transfers.rows, pc.transfer))
  }

  function ReportWork(transfers: T.State): int {
    if !Reporting(transfers) then 0
    else if transfers.handlers[|transfers.handlers| - 1].pc.AtFetch? then 2 else 1
  }

  /** What the outcome handler in hand relies on: its copy is good. */
  ghost predicate Handleable(transfers: T.State)
    requires Reporting(transfers)
  {
    && TI.HandlerOk(transfers.rows, transfers.handlers[|transfers.handlers| - 1])
    && forall id :: id in transfers.rows ==> transfers.rows[id].id == id
  }

  lemma HandleTells(transfers: T.State, transfers': T.State)
    requires Told(transfers) && Reporting(transfers) && Handleable(transfers)
    requires transfers' == T.HandleWith(transfers, |transfers.handlers| - 1, Acked)
    ensures Told(transfers') && ReportWork(transfers') < ReportWork(transfers)
    ensures transfers'.outbox == transfers.outbox && transfers'.rows.Keys == transfers.rows.Keys
    ensures |transfers'.handlers| == |transfers.handlers|
  {
    var k := |transfers.handlers| - 1;
    var h := transfers.handlers[k];
    if h.pc.AtUpdate? {
      assert transfers'.rows == transfers.rows[h.event.transfer := Marked(transfers.rows[h.event.transfer], h.event)];
      assert Reported(transfers') == k + 1;
    } else {
      assert h.event.transfer in transfers.rows;
    }
  }

  lemma DeliverTells(transfers: T.State, event: Outcome, transfers': T.State)
    requires Told(transfers) && !Reporting(transfers) && event.transfer in transfers.rows
    requires forall k :: 0 <= k < |transfers.handlers| ==> transfers.handlers[k].event.transfer != event.transfer
    requires transfers' == T.Next(transfers, T.Deliver(event))
    ensures Told(transfers') && ReportWork(transfers') == 2
    ensures transfers'.outbox == transfers.outbox && transfers'.rows == transfers.rows
    ensures |transfers'.handlers| == |transfers.handlers| + 1
  {
    assert Reporting(transfers') && Reported(transfers') == Reported(transfers);
  }

  // ---------- the whole pipeline ----------

  ghost predicate AllRequested(transfers: T.State) {
    forall id :: id in transfers.rows ==> T.HasEvent(transfers, id)
  }

  ghost predicate Pipe(opening: AccountTable.Rows, s: S.State) {
    && Lined(s.transfers.outbox) && Lined(s.ledger.outbox)
    && InStep(opening, Taken(s.ledger), s.ledger) && Differ(Taken(s.ledger))
    && Told(s.transfers)
    && AllRequested(s.transfers)
  }

  ghost predicate Flow(opening: AccountTable.Rows, s: S.State) {
    S.Inv(s) && Pipe(opening, s)
  }

  /** Remote calls and deliveries left: at most fifteen for each transfer. */
  function Measure(s: S.State): int {
    RelayWork(s.transfers.outbox) + 12 * (|s.transfers.outbox.rows| - |s.ledger.attempts|)
    + LedgerWork(s.ledger) - 3 * |s.transfers.handlers| + ReportWork(s.transfers)
  }

  /** Transfers have been created, each with its event, and nothing else has happened yet. */
  ghost predicate JustCreated(s: S.State) {
    && S.Inv(s)
    && s.transfers.outbox.log == [] && Active(s.transfers.outbox).todo == []
    && s.ledger.outbox == Outbox.Empty()
    && s.ledger.attempts == [] && s.transfers.handlers == []
    && AllRequested(s.transfers)
  }

  lemma CreatedFlows(s: S.State)
    requires JustCreated(s)
    ensures Flow(s.ledger.accounts, s) && Measure(s) == 15 * |s.transfers.outbox.rows|
  {
    assert Outbox.PassOk(s.transfers.outbox, Active(s.transfers.outbox)) || s.transfers.outbox.passes == [];
    assert AtomicAll(s.ledger.accounts, []) == (s.ledger.accounts, []);
  }

  const CREATED := TS.CreateReplies(Acked, Acked, Acked, Acked, Acked)

  /** Every row has its event, except that call `i` may still be about to save its own. */
  ghost predicate RequestedBut(s: T.State, i: nat)
    requires i < |s.calls|
  {
    forall id :: id in s.rows && !(id == s.calls[i].id && s.calls[i].pc == T.AtSave) ==> T.HasEvent(s, id)
  }

  lemma RequestedStep(s: T.State, i: nat)
    requires i < |s.calls| && RequestedBut(s, i)
    ensures RequestedBut(TS.Go(s, i, CREATED), i)
  {
    var s' := TS.Go(s, i, CREATED);
    var c := s.calls[i];
    if c.pc == T.AtSave {
      assert s'.outbox.rows[|s.outbox.rows|].event.transfer == c.id;
      assert T.HasEvent(s', c.id);
    }
    assert TI.EventsGrow(s, s');
    forall id | id in s'.rows && !(id == s'.calls[i].id && s'.calls[i].pc == T.AtSave) ensures T.HasEvent(s', id) {
      if id != c.id || c.pc != T.AtSave {
        assert id in s.rows;
        TI.HasEventGrows(s, s', id);
      }
    }
  }

  lemma CreateAddsNoRecord(s: T.State, i: nat)
    requires i < |s.calls|
    ensures TS.Go(s, i, CREATED).outbox.log == s.outbox.log
    ensures TS.Go(s, i, CREATED).outbox.passes == s.outbox.passes
    ensures TS.Go(s, i, CREATED).handlers == s.handlers
  {
  }

  ghost predicate Building(s: T.State, i: nat) {
    && TI.Inv(s) && i < |s.calls| && RequestedBut(s, i)
    && s.outbox.log == [] && Active(s.outbox).todo == [] && s.handlers == []
  }

  lemma BuildStep(s: T.State, i: nat)
    requires Building(s, i)
    ensures Building(TS.Go(s, i, CREATED), i)
  {
    TS.GoKeepsInv(s, i, CREATED);
    RequestedStep(s, i);
    CreateAddsNoRecord(s, i);
  }

  lemma SubmitBuilds(s: T.State, submit: T.Step)
    requires TI.Inv(s) && AllRequested(s) && s.outbox.log == [] && Active(s.outbox).todo == [] && s.handlers == []
    requires submit.Submit? && T.FreshId(s, submit.id)
    ensures Building(T.Next(s, submit), |s.calls|)
  {
    TI.NextKeepsInv(s, submit);
    TI.SameEvents(s, T.Next(s, submit));
  }

  /** A CreateTransfer call without failures keeps every row accompanied by its event. */
  lemma CreateKeepsJustCreated(s: S.State, key: Key, source: AccountId, dest: AccountId, amount: real, currency: Currency,
                               id: TransferId)
    requires JustCreated(s) && T.FreshId(s.transfers, id)
    ensures JustCreated(s.(transfers := TS.Create(s.transfers, key, source, dest, amount, currency, id, CREATED)))
  {
    var i := |s.transfers.calls|;
    var submit := T.Submit(key, source, dest, amount, currency, id);
    SubmitBuilds(s.transfers, submit);
    var s1 := T.Next(s.transfers, submit);
    BuildStep(s1, i);
    var s2 := TS.Go(s1, i, CREATED);
    BuildStep(s2, i);
    var s3 := TS.Go(s2, i, CREATED);
    BuildStep(s3, i);
    var s4 := TS.Go(s3, i, CREATED);
    BuildStep(s4, i);
    var s5 := TS.Go(s4, i, CREATED);
    BuildStep(s5, i);
    TS.CreateFinishes(s.transfers, key, source, dest, amount, currency, id, CREATED);
    var built := TS.Create(s.transfers, key, source, dest, amount, currency, id, CREATED);
    assert built == TS.Go(s5, i, CREATED);
    BuiltIsCreated(s, built, i);
  }

  lemma BuiltIsCreated(s: S.State, built: T.State, i: nat)
    requires JustCreated(s) && Building(built, i) && TS.CallsLeft(built.calls[i].pc) == 0
    ensures JustCreated(s.(transfers := built))
  {
  }

  /** The parameters of a CreateTransfer call, and the identifier that uuid.New gives it. */
  datatype Order = Order(key: Key, source: AccountId, dest: AccountId, amount: real, currency: Currency, id: TransferId)

  /** The transfer service after these calls, one after another and without failures. */
  ghost function CreateAll(s: T.State, orders: seq<Order>): T.State {
    if orders == [] then s
    else
      var before, o := CreateAll(s, orders[..|orders| - 1]), orders[|orders| - 1];
      if T.FreshId(before, o.id) then TS.Create(before, o.key, o.source, o.dest, o.amount, o.currency, o.id, CREATED)
      else before
  }

  /** So any number of calls leads from the empty platform to where the settlement starts. */
  lemma {:induction false} CreateAllIsJustCreated(accounts: AccountTable.Rows, orders: seq<Order>)
    requires LI.Opened(accounts)
    ensures JustCreated(S.Init(accounts).(transfers := CreateAll(T.Init(), orders)))
  {
    if orders == [] {
      S.InitInv(accounts);
    } else {
      var o := orders[|orders| - 1];
      CreateAllIsJustCreated(accounts, orders[..|orders| - 1]);
      var before := CreateAll(T.Init(), orders[..|orders| - 1]);
      if T.FreshId(before, o.id) {
        CreateKeepsJustCreated(S.Init(accounts).(transfers := before), o.key, o.source, o.dest, o.amount, o.currency, o.id);
      }
    }
  }

  // ---------- every due step makes progress ----------

  /** A request that was taken is for two different accounts, and no other published request is for its transfer. */
  lemma TakenIsPublished(s: S.State, i: nat)
    requires S.Inv(s) && i < |s.ledger.attempts|
    ensures var r := s.ledger.attempts[i].request;
            && r.source != r.dest && r.transfer in s.transfers.rows
            && forall n :: 0 <= n < |s.transfers.outbox.log| && s.transfers.outbox.log[n].transfer == r.transfer ==>
                 s.transfers.outbox.log[n] == r
  {
    var r := s.ledger.attempts[i].request;
    assert Outbox.SavedSomewhere(s.transfers.outbox.rows, r);
    var j :| 0 <= j < |s.transfers.outbox.rows| && s.transfers.outbox.rows[j].event == r;
    forall n | 0 <= n < |s.transfers.outbox.log| && s.transfers.outbox.log[n].transfer == r.transfer
      ensures s.transfers.outbox.log[n] == r
    {
      assert Outbox.SavedSomewhere(s.transfers.outbox.rows, s.transfers.outbox.log[n]);
      var m :| 0 <= m < |s.transfers.outbox.rows| && s.transfers.outbox.rows[m].event == s.transfers.outbox.log[n];
      assert m == j;
    }
  }

  lemma LedgerIsSound(s: L.State)
    requires LI.Inv(s)
    ensures AtomicLedger.Sound(s.accounts)
  {
    forall id | id in s.accounts ensures s.accounts[id].balance >= 0 {
      assert LI.AccountOk(s, id);
    }
  }

  lemma RequestedStays(transfers: T.State, transfers': T.State)
    requires AllRequested(transfers) && transfers'.rows.Keys == transfers.rows.Keys
    requires |transfers'.outbox.rows| == |transfers.outbox.rows| && TI.EventsGrow(transfers, transfers')
    ensures AllRequested(transfers')
  {
    TI.SameEvents(transfers, transfers');
  }

  /** Outcome i is that of the request taken i-th. */
  lemma OutcomesAligned(opening: AccountTable.Rows, ledger: L.State, i: nat)
    requires InStep(opening, Taken(ledger), ledger) && i < |ledger.outbox.rows|
    ensures ledger.outbox.rows[i].event.transfer == ledger.attempts[i].request.transfer
  {
    OutcomeIsFor(opening, Taken(ledger)[..Handled(ledger)], i);
  }

  /** An atomic transfer reports on its own request. */
  lemma {:induction false} OutcomeIsFor(rows: AccountTable.Rows, requests: seq<Request>, k: nat)
    requires k < |requests|
    ensures |AtomicAll(rows, requests).1| == |requests|
    ensures AtomicAll(rows, requests).1[k].transfer == requests[k].transfer
  {
    OutcomesCounted(rows, requests);
    var n := |requests| - 1;
    OutcomesCounted(rows, requests[..n]);
    if k < n {
      OutcomeIsFor(rows, requests[..n], k);
    }
  }

  /** The step from `s` to `s'` kept the pipeline in order and left less to do. */
  ghost predicate Onward(opening: AccountTable.Rows, s: S.State, s': S.State) {
    Pipe(opening, s') && Measure(s') < Measure(s)
  }

  lemma RequestRelayOnward(opening: AccountTable.Rows, s: S.State, transfers: T.State)
    requires Pipe(opening, s) && transfers == s.transfers.(outbox := transfers.outbox)
    requires Lined(transfers.outbox) && Relaying(s.transfers.outbox, transfers.outbox)
    requires RelayWork(transfers.outbox) < RelayWork(s.transfers.outbox)
    ensures Onward(opening, s, s.(transfers := transfers))
  {
    assert ReportWork(transfers) == ReportWork(s.transfers) && Told(transfers);
    RequestedStays(s.transfers, transfers);
  }

  lemma LedgerOnward(opening: AccountTable.Rows, s: S.State, ledger: L.State)
    requires Pipe(opening, s) && Lined(ledger.outbox)
    requires InStep(opening, Taken(ledger), ledger) && Differ(Taken(ledger))
    requires LedgerWork(ledger) - 12 * |ledger.attempts| < LedgerWork(s.ledger) - 12 * |s.ledger.attempts|
    ensures Onward(opening, s, s.(ledger := ledger))
  {
  }

  lemma OutcomeRelayOnward(opening: AccountTable.Rows, s: S.State, outbox: Outbox.State<Outcome>)
    requires Pipe(opening, s) && Lined(outbox) && Relaying(s.ledger.outbox, outbox)
    requires RelayWork(outbox) < RelayWork(s.ledger.outbox)
    ensures Onward(opening, s, s.(ledger := s.ledger.(outbox := outbox)))
  {
    InStepRelayed(opening, Taken(s.ledger), s.ledger, outbox);
    assert Taken(s.ledger.(outbox := outbox)) == Taken(s.ledger);
    LedgerOnward(opening, s, s.ledger.(outbox := outbox));
  }

  lemma TransfersOnward(opening: AccountTable.Rows, s: S.State, transfers: T.State)
    requires Pipe(opening, s) && Told(transfers)
    requires transfers.outbox == s.transfers.outbox && transfers.rows.Keys == s.transfers.rows.Keys
    requires ReportWork(transfers) - 3 * |transfers.handlers| < ReportWork(s.transfers) - 3 * |s.transfers.handlers|
    ensures Onward(opening, s, s.(transfers := transfers))
  {
    RequestedStays(s.transfers, transfers);
  }

  lemma RelayOnward(opening: AccountTable.Rows, s: S.State, step: S.Step)
    requires Pipe(opening, s) && Due(s, step)
    requires (step.Transfers? && step.own.Relay?) || (step.Accounts? && step.act.Relay?)
    ensures Onward(opening, s, S.Next(s, step))
  {
    if step.Transfers? {
      RelayKeepsLined(s.transfers.outbox, step.own.step);
      RequestRelayOnward(opening, s, s.transfers.(outbox := Outbox.Next(s.transfers.outbox, step.own.step)));
    } else {
      RelayKeepsLined(s.ledger.outbox, step.act.step);
      OutcomeRelayOnward(opening, s, Outbox.Next(s.ledger.outbox, step.act.step));
    }
  }

  /** A database call of the request in hand. */
  lemma ProceedMoves(opening: AccountTable.Rows, ledger: L.State, ledger': L.State)
    requires InStep(opening, Taken(ledger), ledger) && Lined(ledger.outbox) && Busy(ledger) && Sound(ledger.accounts)
    requires var r := ledger.attempts[|ledger.attempts| - 1].request; r.source != r.dest
    requires ledger' == L.ProceedWith(ledger, |ledger.attempts| - 1, Acked)
    ensures InStep(opening, Taken(ledger'), ledger') && Taken(ledger') == Taken(ledger) && Lined(ledger'.outbox)
    ensures LedgerWork(ledger') < LedgerWork(ledger) && |ledger'.attempts| == |ledger.attempts|
  {
    ProceedInStep(opening, Taken(ledger), ledger, ledger');
    assert Taken(ledger') == Taken(ledger);
  }

  lemma ProceedOnward(opening: AccountTable.Rows, s: S.State, ledger: L.State)
    requires Pipe(opening, s) && Busy(s.ledger) && Sound(s.ledger.accounts)
    requires var r := s.ledger.attempts[|s.ledger.attempts| - 1].request; r.source != r.dest
    requires ledger == L.ProceedWith(s.ledger, |s.ledger.attempts| - 1, Acked)
    ensures Onward(opening, s, s.(ledger := ledger))
  {
    ProceedMoves(opening, s.ledger, ledger);
    LedgerOnward(opening, s, ledger);
  }

  lemma ConsumeOnward(opening: AccountTable.Rows, s: S.State, r: Request, ledger: L.State)
    requires Pipe(opening, s) && !Busy(s.ledger)
    requires forall i :: 0 <= i < |s.ledger.attempts| ==> s.ledger.attempts[i].request.transfer != r.transfer
    requires ledger == L.Next(s.ledger, L.Begin(r))
    ensures Onward(opening, s, s.(ledger := ledger))
  {
    BeginInStep(opening, s.ledger, r, ledger);
    LedgerOnward(opening, s, ledger);
  }

  lemma HandleOnward(opening: AccountTable.Rows, s: S.State, transfers: T.State)
    requires Pipe(opening, s) && Reporting(s.transfers) && Handleable(s.transfers)
    requires transfers == T.HandleWith(s.transfers, |s.transfers.handlers| - 1, Acked)
    ensures Onward(opening, s, s.(transfers := transfers))
  {
    HandleTells(s.transfers, transfers);
    TransfersOnward(opening, s, transfers);
  }

  lemma ReportOnward(opening: AccountTable.Rows, s: S.State, event: Outcome, transfers: T.State)
    requires Pipe(opening, s) && !Reporting(s.transfers) && event.transfer in s.transfers.rows
    requires forall k :: 0 <= k < |s.transfers.handlers| ==> s.transfers.handlers[k].event.transfer != event.transfer
    requires transfers == T.Next(s.transfers, T.Deliver(event))
    ensures Onward(opening, s, s.(transfers := transfers))
  {
    DeliverTells(s.transfers, event, transfers);
    TransfersOnward(opening, s, transfers);
  }

  /** The due steps other than those of the relays, as what they do to one of the services. */
  lemma StepMoves(s: S.State, step: S.Step)
    requires Due(s, step)
    ensures step.Transfers? && step.own.Handle? ==>
              S.Next(s, step) == s.(transfers := T.HandleWith(s.transfers, |s.transfers.handlers| - 1, Acked))
    ensures step.Accounts? && step.act.Proceed? ==>
              S.Next(s, step) == s.(ledger := L.ProceedWith(s.ledger, |s.ledger.attempts| - 1, Acked))
    ensures step.Consume? ==>
              S.Next(s, step) == s.(ledger := L.Next(s.ledger, L.Begin(s.transfers.outbox.log[step.request])))
    ensures step.Report? ==>
              S.Next(s, step) == s.(transfers := T.Next(s.transfers, T.Deliver(s.ledger.outbox.log[step.outcome])))
  {
  }

  lemma HandlerIsReady(transfers: T.State)
    requires TI.Inv(transfers) && Reporting(transfers)
    ensures Handleable(transfers)
  {
  }

  /** What the steps of the two consumers rely on. */
  ghost predicate Ready(s: S.State) {
    && Sound(s.ledger.accounts)
    && (forall i :: 0 <= i < |s.ledger.attempts| ==> s.ledger.attempts[i].request.source != s.ledger.attempts[i].request.dest)
    && (Reporting(s.transfers) ==> Handleable(s.transfers))
    && OneRequestEach(s) && OneOutcomeEach(s)
  }

  /** A published request for the transfer of a taken one is that one. */
  ghost predicate OneRequestEach(s: S.State) {
    forall i, n :: 0 <= i < |s.ledger.attempts| && 0 <= n < |s.transfers.outbox.log|
                   && s.ledger.attempts[i].request.transfer == s.transfers.outbox.log[n].transfer ==>
      s.ledger.attempts[i].request == s.transfers.outbox.log[n]
  }

  /** A published outcome for the transfer of a delivered one is that one, and every one is for a stored transfer. */
  ghost predicate OneOutcomeEach(s: S.State) {
    && (forall n :: 0 <= n < |s.ledger.outbox.log| ==> s.ledger.outbox.log[n].transfer in s.transfers.rows)
    && forall k, n :: 0 <= k < |s.transfers.handlers| && 0 <= n < |s.ledger.outbox.log|
                      && s.transfers.handlers[k].event.transfer == s.ledger.outbox.log[n].transfer ==>
         s.transfers.handlers[k].event == s.ledger.outbox.log[n]
  }

  /** The n-th published outcome is that of the request taken n-th. */
  lemma LogAligned(opening: AccountTable.Rows, ledger: L.State, n: nat)
    requires InStep(opening, Taken(ledger), ledger) && Lined(ledger.outbox) && n < |ledger.outbox.log|
    ensures n < |ledger.attempts| && ledger.outbox.log[n].transfer == Taken(ledger)[n].transfer
  {
    OutcomesAligned(opening, ledger, n);
  }

  lemma OutcomesAreOneEach(s: S.State)
    requires |s.ledger.outbox.log| <= |s.ledger.attempts| && Differ(Taken(s.ledger))
    requires forall n :: 0 <= n < |s.ledger.outbox.log| ==> s.ledger.outbox.log[n].transfer == Taken(s.ledger)[n].transfer
    requires forall i :: 0 <= i < |s.ledger.attempts| ==> Taken(s.ledger)[i].transfer in s.transfers.rows
    requires forall k :: 0 <= k < |s.transfers.handlers| ==> s.transfers.handlers[k].event in s.ledger.outbox.log
    ensures OneOutcomeEach(s)
  {
    forall k, n | 0 <= k < |s.transfers.handlers| && 0 <= n < |s.ledger.outbox.log|
                  && s.transfers.handlers[k].event.transfer == s.ledger.outbox.log[n].transfer
      ensures s.transfers.handlers[k].event == s.ledger.outbox.log[n]
    {
      var m :| 0 <= m < |s.ledger.outbox.log| && s.ledger.outbox.log[m] == s.transfers.handlers[k].event;
      assert Taken(s.ledger)[m].transfer == Taken(s.ledger)[n].transfer;
    }
  }

  lemma FlowIsReady(opening: AccountTable.Rows, s: S.State)
    requires Flow(opening, s)
    ensures Ready(s)
  {
    LedgerIsSound(s.ledger);
    forall i | 0 <= i < |s.ledger.attempts|
      ensures s.ledger.attempts[i].request.source != s.ledger.attempts[i].request.dest
      ensures Taken(s.ledger)[i].transfer in s.transfers.rows
      ensures forall n :: 0 <= n < |s.transfers.outbox.log|
                          && s.transfers.outbox.log[n].transfer == s.ledger.attempts[i].request.transfer ==>
                s.transfers.outbox.log[n] == s.ledger.attempts[i].request
    {
      TakenIsPublished(s, i);
    }
    forall n | 0 <= n < |s.ledger.outbox.log|
      ensures n < |s.ledger.attempts| && s.ledger.outbox.log[n].transfer == Taken(s.ledger)[n].transfer
    {
      LogAligned(opening, s.ledger, n);
    }
    OutcomesAreOneEach(s);
    if Reporting(s.transfers) {
      HandlerIsReady(s.transfers);
    }
  }

  /** What was not taken is not for the transfer of anything taken, and so it is with what was not delivered. */
  lemma NewIsDifferent(s: S.State)
    requires Ready(s)
    ensures forall n, i :: 0 <= n < |s.transfers.outbox.log| && s.transfers.outbox.log[n] !in Taken(s.ledger)
                           && 0 <= i < |s.ledger.attempts| ==>
              s.ledger.attempts[i].request.transfer != s.transfers.outbox.log[n].transfer
    ensures forall n, k :: 0 <= n < |s.ledger.outbox.log| && s.ledger.outbox.log[n] !in Delivered(s.transfers)
                           && 0 <= k < |s.transfers.handlers| ==>
              s.transfers.handlers[k].event.transfer != s.ledger.outbox.log[n].transfer
  {
    assert forall i :: 0 <= i < |s.ledger.attempts| ==> Taken(s.ledger)[i] == s.ledger.attempts[i].request;
    assert forall k :: 0 <= k < |s.transfers.handlers| ==> Delivered(s.transfers)[k] == s.transfers.handlers[k].event;
  }

  lemma StepOnward(opening: AccountTable.Rows, s: S.State, step: S.Step)
    requires Pipe(opening, s) && Ready(s) && Due(s, step)
    ensures Onward(opening, s, S.Next(s, step))
  {
    StepMoves(s, step);
    NewIsDifferent(s);
    match step
    case Transfers(Relay(_)) => RelayOnward(opening, s, step);
    case Transfers(Handle(_, _)) => HandleOnward(opening, s, S.Next(s, step).transfers);
    case Accounts(Relay(_)) => RelayOnward(opening, s, step);
    case Accounts(Proceed(_, _)) => ProceedOnward(opening, s, S.Next(s, step).ledger);
    case Consume(n) => ConsumeOnward(opening, s, s.transfers.outbox.log[n], S.Next(s, step).ledger);
    case Report(n) => ReportOnward(opening, s, s.ledger.outbox.log[n], S.Next(s, step).transfers);
  }

  /** Every due step keeps the pipeline in order and leaves strictly less to do. */
  lemma StepProgresses(opening: AccountTable.Rows, s: S.State, step: S.Step)
    requires Flow(opening, s) && Due(s, step)
    ensures Flow(opening, S.Next(s, step)) && Measure(S.Next(s, step)) < Measure(s)
  {
    FlowIsReady(opening, s);
    StepOnward(opening, s, step);
    S.NextKeepsInv(s, step);
  }

  // ---------- termination and the final state ----------

  lemma RelayWorkIsLeft<E(!new)>(o: Outbox.State<E>)
    requires Lined(o)
    ensures RelayWork(o) >= 0
    ensures RelayWork(o) == 0 <==> |o.log| == |o.rows| && Active(o).todo == []
  {
  }

  lemma {:induction false} ScheduleFlows(s: S.State, steps: seq<S.Step>)
    requires JustCreated(s) && Schedulable(s, steps)
    ensures Flow(s.ledger.accounts, S.Run(s, steps))
    ensures |steps| <= 15 * |s.transfers.outbox.rows| - Measure(S.Run(s, steps))
  {
    if steps == [] {
      CreatedFlows(s);
    } else {
      var front, last := steps[..|steps| - 1], steps[|steps| - 1];
      ScheduleFlows(s, front);
      StepProgresses(s.ledger.accounts, S.Run(s, front), last);
    }
  }

  /** Records that were taken are among those published, and some record is left unless all were taken. */
  ghost predicate Within<E(!new)>(taken: seq<E>, log: seq<E>) {
    && |taken| <= |log|
    && (|taken| < |log| ==> exists n :: 0 <= n < |log| && log[n] !in taken)
    && (|taken| == |log| ==> multiset(taken) == multiset(log))
  }

  lemma TakenOrLeft<E(!new)>(taken: seq<E>, log: seq<E>)
    requires Distinct(taken) && Distinct(log)
    requires forall i :: 0 <= i < |taken| ==> taken[i] in log
    ensures Within(taken, log)
  {
    DistinctWithin(taken, log);
    if forall n :: 0 <= n < |log| ==> log[n] in taken {
      DistinctWithin(log, taken);
    }
  }

  lemma RequestsWithin(s: S.State)
    requires S.Inv(s) && Lined(s.transfers.outbox) && Differ(Taken(s.ledger))
    ensures Within(Taken(s.ledger), s.transfers.outbox.log)
  {
    assert forall n :: 0 <= n < |s.transfers.outbox.log| ==> s.transfers.outbox.log[n] == s.transfers.outbox.rows[n].event;
    TakenOrLeft(Taken(s.ledger), s.transfers.outbox.log);
  }

  lemma OutcomesWithin(opening: AccountTable.Rows, ledger: L.State, delivered: seq<Outcome>)
    requires InStep(opening, Taken(ledger), ledger) && Differ(Taken(ledger)) && Lined(ledger.outbox)
    requires Distinct(delivered)
    requires forall k :: 0 <= k < |delivered| ==> delivered[k] in ledger.outbox.log
    ensures Within(delivered, ledger.outbox.log)
  {
    forall i, j | 0 <= i < j < |ledger.outbox.log| ensures ledger.outbox.log[i] != ledger.outbox.log[j] {
      LogAligned(opening, ledger, i);
      LogAligned(opening, ledger, j);
    }
    TakenOrLeft(delivered, ledger.outbox.log);
  }

  lemma DeliveredIsPublished(s: S.State)
    requires S.Linked(s) && Told(s.transfers)
    ensures Distinct(Delivered(s.transfers))
    ensures forall k :: 0 <= k < |Delivered(s.transfers)| ==> Delivered(s.transfers)[k] in s.ledger.outbox.log
  {
    assert forall k :: 0 <= k < |s.transfers.handlers| ==> Delivered(s.transfers)[k] == s.transfers.handlers[k].event;
  }

  /** What is left of both topics. */
  ghost predicate Left(s: S.State) {
    Within(Taken(s.ledger), s.transfers.outbox.log) && Within(Delivered(s.transfers), s.ledger.outbox.log)
  }

  lemma FlowIsWithin(opening: AccountTable.Rows, s: S.State)
    requires Flow(opening, s)
    ensures Left(s)
  {
    RequestsWithin(s);
    DeliveredIsPublished(s);
    OutcomesWithin(opening, s.ledger, Delivered(s.transfers));
  }

  lemma MeasureIsLeft(opening: AccountTable.Rows, s: S.State)
    requires Pipe(opening, s) && Left(s)
    ensures Measure(s) >= 0
  {
    RelayWorkIsLeft(s.transfers.outbox);
    RelayWorkIsLeft(s.ledger.outbox);
  }

  /** No deadlock: as long as something is left to do, some step is due. */
  lemma SomethingIsDue(opening: AccountTable.Rows, s: S.State) returns (step: S.Step)
    requires Flow(opening, s) && Measure(s) > 0
    ensures Due(s, step)
  {
    RelayWorkIsLeft(s.transfers.outbox);
    RelayWorkIsLeft(s.ledger.outbox);
    FlowIsWithin(opening, s);
    if RelayWork(s.transfers.outbox) > 0 {
      step := S.Transfers(T.Relay(RelayNext(s.transfers.outbox)));
    } else if RelayWork(s.ledger.outbox) > 0 {
      step := S.Accounts(L.Relay(RelayNext(s.ledger.outbox)));
    } else if Busy(s.ledger) {
      step := S.Accounts(L.Proceed(|s.ledger.attempts| - 1, Acked));
    } else if Reporting(s.transfers) {
      step := S.Transfers(T.Handle(|s.transfers.handlers| - 1, Acked));
    } else if |s.ledger.attempts| < |s.transfers.outbox.log| {
      var n :| 0 <= n < |s.transfers.outbox.log| && s.transfers.outbox.log[n] !in Taken(s.ledger);
      step := S.Consume(n);
    } else {
      var n :| 0 <= n < |s.ledger.outbox.log| && s.ledger.outbox.log[n] !in Delivered(s.transfers);
      step := S.Report(n);
    }
  }

  function RelayNext<E>(o: Outbox.State<E>): Outbox.Step {
    if Active(o).todo == [] then Outbox.Fetch
    else if Active(o).marking then Outbox.Mark(|o.passes| - 1, Acked)
    else Outbox.Publish(|o.passes| - 1, Acked)
  }

  /** Transfer `id` has been requested of the ledger exactly once; it is completed when that attempt wrote its
      debit and its credit, failed when it wrote neither balance, and nothing else is possible. */
  ghost predicate SettledTransfer(s: S.State, id: TransferId)
    requires id in s.transfers.rows
  {
    exists i ::
      && S.AttemptFor(s, id, i)
      && (forall k :: S.AttemptFor(s, id, k) ==> k == i)
      && var t, status := s.ledger.attempts[i], s.transfers.rows[id].status;
         && (status == HasCompleted <==> t.effects == L.Success(t.request))
         && (status == HasFailed <==> L.DebitWritten !in t.effects && L.CreditWritten !in t.effects)
         && status != Pending
  }

  lemma IdleHasNothingLeft(opening: AccountTable.Rows, s: S.State)
    requires Flow(opening, s) && forall step :: !Due(s, step)
    ensures Measure(s) == 0
  {
    FlowIsWithin(opening, s);
    MeasureIsLeft(opening, s);
    if Measure(s) > 0 {
      var step := SomethingIsDue(opening, s);
      assert false;
    }
  }

  lemma IdleCounts(opening: AccountTable.Rows, s: S.State)
    requires Pipe(opening, s) && Left(s) && Measure(s) == 0
    ensures !Busy(s.ledger) && !Reporting(s.transfers)
    ensures |s.transfers.outbox.rows| == |s.transfers.outbox.log| == |s.ledger.attempts|
    ensures |s.ledger.outbox.rows| == |s.ledger.outbox.log| == |s.transfers.handlers|
  {
    RelayWorkIsLeft(s.transfers.outbox);
    RelayWorkIsLeft(s.ledger.outbox);
  }

  lemma AllHandled(opening: AccountTable.Rows, ledger: L.State)
    requires InStep(opening, Taken(ledger), ledger) && !Busy(ledger)
    ensures ledger.accounts == AtomicAll(opening, Taken(ledger)).0
    ensures EventsOf(ledger.outbox.rows) == AtomicAll(opening, Taken(ledger)).1
  {
    assert Taken(ledger)[..Handled(ledger)] == Taken(ledger);
  }

  /** Everything has been requested, handled, published and reported. */
  ghost predicate Concluded(opening: AccountTable.Rows, s: S.State) {
    && !Busy(s.ledger) && !Reporting(s.transfers)
    && s.transfers.outbox.log == EventsOf(s.transfers.outbox.rows)
    && multiset(Taken(s.ledger)) == multiset(s.transfers.outbox.log)
    && (s.ledger.accounts, EventsOf(s.ledger.outbox.rows)) == AtomicAll(opening, Taken(s.ledger))
    && s.ledger.outbox.log == EventsOf(s.ledger.outbox.rows)
    && multiset(Delivered(s.transfers)) == multiset(s.ledger.outbox.log)
  }

  lemma NothingLeftIsFinished(opening: AccountTable.Rows, s: S.State)
    requires Pipe(opening, s) && Left(s) && Measure(s) == 0
    ensures Concluded(opening, s)
  {
    IdleCounts(opening, s);
    AllHandled(opening, s.ledger);
    assert s.transfers.outbox.log == EventsOf(s.transfers.outbox.rows);
    assert s.ledger.outbox.log == EventsOf(s.ledger.outbox.rows);
  }

  /** In an idle pipeline that is so. */
  lemma IdleIsDone(opening: AccountTable.Rows, s: S.State)
    requires Flow(opening, s) && forall step :: !Due(s, step)
    ensures Concluded(opening, s)
  {
    IdleHasNothingLeft(opening, s);
    FlowIsWithin(opening, s);
    NothingLeftIsFinished(opening, s);
  }

  function EventsOf<E>(rows: seq<Outbox.Row<E>>): seq<E> {
    seq(|rows|, i requires 0 <= i < |rows| => rows[i].event)
  }

  /** When every request has been taken, so has that of a stored transfer. */
  lemma AllTaken(s: S.State, id: TransferId) returns (i: nat)
    requires AllRequested(s.transfers) && id in s.transfers.rows
    requires s.transfers.outbox.log == EventsOf(s.transfers.outbox.rows)
    requires multiset(Taken(s.ledger)) == multiset(s.transfers.outbox.log)
    ensures i < |s.ledger.attempts| && s.ledger.attempts[i].request.transfer == id
  {
    assert T.HasEvent(s.transfers, id);
    var j :| 0 <= j < |s.transfers.outbox.rows| && s.transfers.outbox.rows[j].event.transfer == id;
    var r := s.transfers.outbox.log[j];
    assert r in multiset(s.transfers.outbox.log);
    i :| 0 <= i < |Taken(s.ledger)| && Taken(s.ledger)[i] == r;
  }

  /** When every outcome has been delivered, its transfer has the status it tells. */
  lemma AllTold(opening: AccountTable.Rows, s: S.State, i: nat)
    requires InStep(opening, Taken(s.ledger), s.ledger) && Told(s.transfers) && !Busy(s.ledger) && !Reporting(s.transfers)
    requires s.ledger.outbox.log == EventsOf(s.ledger.outbox.rows)
    requires multiset(Delivered(s.transfers)) == multiset(s.ledger.outbox.log)
    requires i < |s.ledger.attempts|
    ensures i < |s.ledger.outbox.rows|
    ensures var event := s.ledger.outbox.rows[i].event;
            && s.ledger.attempts[i].effects == EffectsOf(event)
            && event.transfer == s.ledger.attempts[i].request.transfer
            && event.transfer in s.transfers.rows
            && s.transfers.rows[event.transfer].status == StatusOf(event)
  {
    OutcomesAligned(opening, s.ledger, i);
    var event := s.ledger.outbox.log[i];
    assert event in multiset(s.ledger.outbox.log);
    var k :| 0 <= k < |Delivered(s.transfers)| && Delivered(s.transfers)[k] == event;
    assert s.transfers.handlers[k].event == event;
  }

  lemma IdleIsSettled(opening: AccountTable.Rows, s: S.State, id: TransferId)
    requires Flow(opening, s) && forall step :: !Due(s, step)
    requires id in s.transfers.rows
    ensures SettledTransfer(s, id)
  {
    IdleIsDone(opening, s);
    var i := AllTaken(s, id);
    S.AttemptsAreRequested(s, i);
    AllTold(opening, s, i);
    forall k | S.AttemptFor(s, id, k) ensures k == i {
      assert Taken(s.ledger)[k].transfer == Taken(s.ledger)[i].transfer;
    }
    OutcomeTells(s.ledger.attempts[i], s.transfers.rows[id].status, s.ledger.outbox.rows[i].event);
  }

  lemma OutcomeTells(t: L.Attempt, status: Status, outcome: Outcome)
    requires t.effects == AtomicLedger.EffectsOf(outcome) && status == StatusOf(outcome)
    requires outcome.transfer == t.request.transfer
    ensures status == HasCompleted <==> t.effects == L.Success(t.request)
    ensures status == HasFailed <==> L.DebitWritten !in t.effects && L.CreditWritten !in t.effects
    ensures status != Pending
  {
    assert outcome.Completed? ==> outcome == Completed(t.request.transfer);
    assert outcome.Failed? ==> t.effects == [L.Saved(outcome)];
  }

  /** From any set of created transfers and without failures, every interleaving terminates, in whatever order records
      are delivered: it takes at most fifteen steps for each transfer.  When no step is due any more, every transfer
      is settled, and accounts and outcomes are those of atomic transfers in the order in which the requests were
      taken, each of them once. */
  lemma SagaSettles(s: S.State, steps: seq<S.Step>)
    requires JustCreated(s) && Schedulable(s, steps)
    ensures |steps| <= 15 * |s.transfers.outbox.rows|
    ensures var end := S.Run(s, steps);
            (forall step :: !Due(end, step)) ==>
              && (forall id :: id in end.transfers.rows ==> SettledTransfer(end, id))
              && multiset(Taken(end.ledger)) == multiset(EventsOf(end.transfers.outbox.rows))
              && (end.ledger.accounts, EventsOf(end.ledger.outbox.rows)) == AtomicAll(s.ledger.accounts, Taken(end.ledger))
  {
    ScheduleFlows(s, steps);
    var end := S.Run(s, steps);
    FlowIsWithin(s.ledger.accounts, end);
    MeasureIsLeft(s.ledger.accounts, end);
    if forall step :: !Due(end, step) {
      IdleIsDone(s.ledger.accounts, end);
      forall id | id in end.transfers.rows ensures SettledTransfer(end, id) {
        IdleIsSettled(s.ledger.accounts, end, id);
      }
    }
  }
}
