/** Fault-free handling, one request after another, compared with transfers that are atomic. */
module AtomicLedger {
  import opened Wrappers
  import opened Money
  import opened Events
  import opened AccountDomain
  import opened AccountTable
  import opened AccountService
  import opened Sums
  import L = Ledger
  import LT = LedgerTheorems
  import Outbox

  const NO_FAULTS := Replies(Acked, Acked, Acked, Acked, Acked)

  /** Why `r` would be refused on these rows, or NoReason. */
  function Refusal(rows: Rows, r: Request): Reason {
    if r.source !in rows then SourceNotFound
    else if r.dest !in rows then DestNotFound
    else
      var debit := DebitRefusal(Load(rows[r.source]), r.amount, r.currency);
      if debit != NoReason then debit else CreditRefusal(Load(rows[r.dest]), r.amount, r.currency)
  }

  function Changed(row: Row, units: int): Row {
    row.(balance := row.balance + units, version := row.version + 1)
  }

  /** A transfer as one atomic change of the table, with its outcome. */
  function Atomic(rows: Rows, r: Request): (Rows, Outcome) {
    if Refusal(rows, r) != NoReason then (rows, Failed(r.transfer, Refusal(rows, r)))
    else
      var debited := rows[r.source := Changed(rows[r.source], -DebitUnits(r.amount))];
      (debited[r.dest := Changed(debited[r.dest], CreditUnits(r.amount))], Completed(r.transfer))
  }

  function EffectsOf(outcome: Outcome): seq<L.Effect> {
    if outcome.Completed? then [L.DebitWritten, L.CreditWritten, L.Saved(outcome)] else [L.Saved(outcome)]
  }

  function Finished(r: Request, outcome: Outcome): L.Attempt {
    L.Attempt(r, L.Done(true), EffectsOf(outcome))
  }

  ghost predicate Sound(rows: Rows) {
    forall id :: id in rows ==> rows[id].balance >= 0
  }

  function Atomically(s: L.State, r: Request): L.State {
    var outcome := Atomic(s.accounts, r).1;
    s.(accounts := Atomic(s.accounts, r).0,
       attempts := s.attempts + [Finished(r, outcome)],
       outbox := Outbox.Save(s.outbox, outcome, Acked))
  }

  lemma SetLast(attempts: seq<L.Attempt>, t: L.Attempt, t': L.Attempt)
    ensures (attempts + [t])[|attempts| := t'] == attempts + [t']
  {
  }

  /** Both copies after the in-memory debit and credit. */
  function BothCopies(rows: Rows, r: Request): L.Pc
    requires r.source in rows && r.dest in rows
  {
    L.AtWriteSource(Moved(Load(rows[r.source]), -r.amount), Moved(Load(rows[r.dest]), r.amount))
  }

  /** The two reads of a fault-free request and the in-memory operations. */
  lemma TwoReads(s: L.State, r: Request)
    requires r.source in s.accounts
    ensures var refusal := Refusal(s.accounts, r);
            Go(Go(L.Next(s, L.Begin(r)), |s.attempts|, NO_FAULTS), |s.attempts|, NO_FAULTS)
            == With(s, if refusal == NoReason then L.Attempt(r, BothCopies(s.accounts, r), [])
                       else L.Attempt(r, L.AtSave(Failed(r.transfer, refusal)), []))
  {
    var t1, t2 := L.Attempt(r, L.AtReadSource, []), L.Attempt(r, L.AtReadDest(Load(s.accounts[r.source])), []);
    SetLast(s.attempts, t1, t2);
    assert Go(With(s, t1), |s.attempts|, NO_FAULTS) == With(s, t2);
    SetLast(s.attempts, t2, L.DestRead(s.accounts, t2, t2.pc.source, Acked));
  }

  lemma SaveStep(s: L.State, r: Request, event: Outcome, effects: seq<L.Effect>)
    ensures Go(With(s, L.Attempt(r, L.AtSave(event), effects)), |s.attempts|, NO_FAULTS)
            == With(s, L.Attempt(r, L.Done(true), effects + [L.Saved(event)])).(outbox := Outbox.Save(s.outbox, event, Acked))
  {
    SetLast(s.attempts, L.Attempt(r, L.AtSave(event), effects), L.Attempt(r, L.Done(true), effects + [L.Saved(event)]));
  }

  /** The first conditional write. */
  lemma DebitStep(s: L.State, r: Request)
    requires Sound(s.accounts) && Refusal(s.accounts, r) == NoReason
    ensures var t := L.Attempt(r, BothCopies(s.accounts, r), []);
            var t' := L.Attempt(r, L.AtWriteDest(t.pc.dest), [L.DebitWritten]);
            Go(With(s, t), |s.attempts|, NO_FAULTS)
            == With(s, t').(accounts := s.accounts[r.source := Changed(s.accounts[r.source], -DebitUnits(r.amount))])
  {
    var t := L.Attempt(r, BothCopies(s.accounts, r), []);
    var t' := L.Attempt(r, L.AtWriteDest(t.pc.dest), [L.DebitWritten]);
    DebitIsExact(s.accounts[r.source].balance, r.amount);
    SetLast(s.attempts, t, t');
    assert [] + [L.DebitWritten] == [L.DebitWritten];
    assert L.Wrote(s.accounts, t, r.source, t.pc.source, Acked, L.DebitWritten, t'.pc) == t';
  }

  /** The second conditional write, while row `dest` is still the one that was read. */
  lemma CreditStep(s: L.State, r: Request, dest: Row)
    requires r.dest in s.accounts && s.accounts[r.dest] == dest && dest.balance >= 0 && r.amount > 0.0
    ensures var t := L.Attempt(r, L.AtWriteDest(Moved(Load(dest), r.amount)), [L.DebitWritten]);
            var t' := L.Attempt(r, L.AtSave(Completed(r.transfer)), [L.DebitWritten, L.CreditWritten]);
            Go(With(s, t), |s.attempts|, NO_FAULTS)
            == With(s, t').(accounts := s.accounts[r.dest := Changed(dest, CreditUnits(r.amount))])
  {
    var t := L.Attempt(r, L.AtWriteDest(Moved(Load(dest), r.amount)), [L.DebitWritten]);
    var t' := L.Attempt(r, L.AtSave(Completed(r.transfer)), [L.DebitWritten, L.CreditWritten]);
    CreditIsExact(dest.balance, r.amount);
    SetLast(s.attempts, t, t');
    assert [L.DebitWritten] + [L.CreditWritten] == [L.DebitWritten, L.CreditWritten];
    assert L.Wrote(s.accounts, t, r.dest, t.pc.dest, Acked, L.CreditWritten, t'.pc) == t';
  }

  /** The second conditional write, when row `dest` has moved on: an optimistic-lock error. */
  lemma StaleStep(s: L.State, r: Request, dest: Snapshot)
    requires r.dest in s.accounts && s.accounts[r.dest].version != dest.version - 1
    ensures Go(With(s, L.Attempt(r, L.AtWriteDest(dest), [L.DebitWritten])), |s.attempts|, NO_FAULTS)
            == With(s, L.Attempt(r, L.Done(false), [L.DebitWritten]))
  {
    SetLast(s.attempts, L.Attempt(r, L.AtWriteDest(dest), [L.DebitWritten]), L.Attempt(r, L.Done(false), [L.DebitWritten]));
  }

  lemma UnknownSource(s: L.State, r: Request)
    requires r.source !in s.accounts
    ensures Process(s, r, NO_FAULTS) == Atomically(s, r)
  {
    var event := Failed(r.transfer, SourceNotFound);
    var t1, t2 := L.Attempt(r, L.AtReadSource, []), L.Attempt(r, L.AtSave(event), []);
    SetLast(s.attempts, t1, t2);
    assert Go(With(s, t1), |s.attempts|, NO_FAULTS) == With(s, t2);
    SaveStep(s, r, event, []);
    assert [] + [L.Saved(event)] == EffectsOf(event);
  }

  /** The two conditional writes, one after the other. */
  lemma WritesAreAtomic(s: L.State, r: Request)
    requires Sound(s.accounts)
    requires r.source != r.dest && Refusal(s.accounts, r) == NoReason
    ensures var t := L.Attempt(r, BothCopies(s.accounts, r), []);
            var t' := L.Attempt(r, L.AtSave(Completed(r.transfer)), [L.DebitWritten, L.CreditWritten]);
            Go(Go(With(s, t), |s.attempts|, NO_FAULTS), |s.attempts|, NO_FAULTS)
            == With(s.(accounts := Atomic(s.accounts, r).0), t')
  {
    DebitStep(s, r);
    var s4 := s.(accounts := s.accounts[r.source := Changed(s.accounts[r.source], -DebitUnits(r.amount))]);
    CreditStep(s4, r, s.accounts[r.dest]);
  }

  lemma AtomicIsSound(rows: Rows, r: Request)
    requires Sound(rows) && Refusal(rows, r) == NoReason
    ensures Sound(Atomic(rows, r).0)
  {
    DebitIsExact(rows[r.source].balance, r.amount);
    CreditRounds(r.amount);
  }

  lemma AcceptedIsAtomic(s: L.State, r: Request)
    requires Sound(s.accounts)
    requires r.source != r.dest && Refusal(s.accounts, r) == NoReason
    ensures Process(s, r, NO_FAULTS) == Atomically(s, r)
    ensures Sound(Atomic(s.accounts, r).0)
  {
    TwoReads(s, r);
    WritesAreAtomic(s, r);
    var event := Completed(r.transfer);
    SaveStep(s.(accounts := Atomic(s.accounts, r).0), r, event, [L.DebitWritten, L.CreditWritten]);
    assert [L.DebitWritten, L.CreditWritten] + [L.Saved(event)] == EffectsOf(event);
    AtomicIsSound(s.accounts, r);
  }

  /** Between two different accounts the two separate conditional writes amount to one atomic transfer:
      same rows, one outcome event, no optimistic-lock error. */
  lemma ProcessIsAtomic(s: L.State, r: Request)
    requires Sound(s.accounts)
    requires r.source != r.dest || Refusal(s.accounts, r) != NoReason
    ensures Process(s, r, NO_FAULTS) == Atomically(s, r)
    ensures Sound(Atomic(s.accounts, r).0)
  {
    var refusal := Refusal(s.accounts, r);
    if r.source !in s.accounts {
      UnknownSource(s, r);
    } else if refusal == NoReason {
      AcceptedIsAtomic(s, r);
    } else {
      TwoReads(s, r);
      SaveStep(s, r, Failed(r.transfer, refusal), []);
      assert [] + [L.Saved(Failed(r.transfer, refusal))] == EffectsOf(Failed(r.transfer, refusal));
    }
  }

  /** When source and destination are the same account, an accepted request debits it, fails the second
      write, and reports nothing. */
  lemma SelfTransferStrands(s: L.State, r: Request)
    requires Sound(s.accounts)
    requires r.source == r.dest && Refusal(s.accounts, r) == NoReason
    ensures Process(s, r, NO_FAULTS)
            == With(s, L.Attempt(r, L.Done(false), [L.DebitWritten]))
               .(accounts := s.accounts[r.source := Changed(s.accounts[r.source], -DebitUnits(r.amount))])
  {
    TwoReads(s, r);
    DebitStep(s, r);
    var s4 := s.(accounts := s.accounts[r.source := Changed(s.accounts[r.source], -DebitUnits(r.amount))]);
    StaleStep(s4, r, Moved(Load(s.accounts[r.dest]), r.amount));
  }

  /** Whatever fails, a request handled without interruption leaves its debit without its credit exactly when it is
      acceptable, both reads succeed, and either the source write lands unacknowledged, or it is acknowledged and
      the destination write is not executed or goes to the same account. */
  lemma ProcessStrands(s: L.State, r: Request, f: Replies)
    ensures LT.EndsStranded(Process(s, r, f).attempts[|s.attempts|])
            <==> f.readSource.Acked? && f.readDest.Acked? && Refusal(s.accounts, r) == NoReason
                 && (f.writeSource.Lost? || (f.writeSource.Acked? && (f.writeDest.Refused? || r.source == r.dest)))
  {
    var i := |s.attempts|;
    var s1 := L.Next(s, L.Begin(r));
    var s2 := Go(s1, i, f);
    var s3 := Go(s2, i, f);
    ProcessFinishes(s, r, f);
    if f.readSource.Acked? && f.readDest.Acked? && Refusal(s.accounts, r) == NoReason {
      assert s2.attempts[i].pc == L.AtReadDest(Load(s.accounts[r.source]));
      assert s3.accounts == s.accounts && s3.attempts[i] == L.Attempt(r, BothCopies(s.accounts, r), []);
      WritesStrand(s3, i, r, f);
    } else {
      assert s3.attempts[i].pc.AtSave? || s3.attempts[i].pc.Done?;
    }
  }

  /** The two writes and what follows them. */
  lemma WritesStrand(s: L.State, i: nat, r: Request, f: Replies)
    requires i < |s.attempts| && r.source in s.accounts && r.dest in s.accounts
    requires s.attempts[i] == L.Attempt(r, BothCopies(s.accounts, r), [])
    ensures LT.EndsStranded(Go(Go(Go(s, i, f), i, f), i, f).attempts[i])
            <==> f.writeSource.Lost? || (f.writeSource.Acked? && (f.writeDest.Refused? || r.source == r.dest))
  {
    var s4 := Go(s, i, f);
    var s5 := Go(s4, i, f);
    if f.writeSource.Acked? {
      assert s4.attempts[i] == L.Attempt(r, L.AtWriteDest(Moved(Load(s.accounts[r.dest]), r.amount)), [L.DebitWritten]);
    } else {
      assert s4.attempts[i].pc == L.Done(false);
    }
  }

  /** Whatever fails, a request handled without interruption ends without any outcome event exactly when, being
      acceptable and read, one of its writes is not acknowledged or goes to the account just written, or its
      event is refused; and it has then moved its money unreported exactly when both writes landed. */
  lemma ProcessSilent(s: L.State, r: Request, f: Replies)
    ensures var t := Process(s, r, f).attempts[|s.attempts|];
            var accepted := f.readSource.Acked? && f.readDest.Acked? && Refusal(s.accounts, r) == NoReason;
            && (LT.Silent(t) <==>
                  f.save.Refused? || (accepted && !(f.writeSource.Acked? && f.writeDest.Acked? && r.source != r.dest)))
            && (LT.Silent(t) && L.CreditWritten in t.effects <==>
                  && accepted && r.source != r.dest && f.writeSource.Acked?
                  && (f.writeDest.Lost? || (f.writeDest.Acked? && f.save.Refused?)))
  {
    var i := |s.attempts|;
    var s1 := L.Next(s, L.Begin(r));
    var s2 := Go(s1, i, f);
    var s3 := Go(s2, i, f);
    ProcessFinishes(s, r, f);
    if f.readSource.Acked? && f.readDest.Acked? && Refusal(s.accounts, r) == NoReason {
      assert s2.attempts[i].pc == L.AtReadDest(Load(s.accounts[r.source]));
      assert s3.accounts == s.accounts && s3.attempts[i] == L.Attempt(r, BothCopies(s.accounts, r), []);
      WritesSilent(s3, i, r, f);
    } else {
      RefusedSilent(s, r, f);
    }
  }

  /** A request that is not accepted goes straight to the save of its failure. */
  lemma RefusedSilent(s: L.State, r: Request, f: Replies)
    requires !(f.readSource.Acked? && f.readDest.Acked? && Refusal(s.accounts, r) == NoReason)
    ensures var t := Process(s, r, f).attempts[|s.attempts|];
            (LT.Silent(t) <==> f.save.Refused?) && L.CreditWritten !in t.effects
  {
    var i := |s.attempts|;
    var s1 := L.Next(s, L.Begin(r));
    var s2 := Go(s1, i, f);
    var s3 := Go(s2, i, f);
    if s2.attempts[i].pc.AtSave? {
      SaveSilent(s2, i, f);
      SaveEnds(s2, i, f);
    } else {
      SaveSilent(s3, i, f);
      SaveEnds(s3, i, f);
    }
  }

  lemma SaveSilent(s: L.State, i: nat, f: Replies)
    requires i < |s.attempts| && s.attempts[i].pc.AtSave? && s.attempts[i].effects == []
    ensures var t := Go(s, i, f).attempts[i];
            (LT.Silent(t) <==> f.save.Refused?) && L.CreditWritten !in t.effects
  {
    assert !f.save.Refused? ==> Go(s, i, f).attempts[i].effects[0] == L.Saved(s.attempts[i].pc.event);
  }

  lemma WritesSilent(s: L.State, i: nat, r: Request, f: Replies)
    requires i < |s.attempts| && r.source in s.accounts && r.dest in s.accounts
    requires s.attempts[i] == L.Attempt(r, BothCopies(s.accounts, r), [])
    ensures var t := Go(Go(Go(s, i, f), i, f), i, f).attempts[i];
            && (LT.Silent(t) <==> !(f.writeSource.Acked? && f.writeDest.Acked? && r.source != r.dest && !f.save.Refused?))
            && (LT.Silent(t) && L.CreditWritten in t.effects <==>
                  && r.source != r.dest && f.writeSource.Acked?
                  && (f.writeDest.Lost? || (f.writeDest.Acked? && f.save.Refused?)))
  {
    var s4 := Go(s, i, f);
    if f.writeSource.Acked? {
      var dest := Moved(Load(s.accounts[r.dest]), r.amount);
      assert s4.attempts[i] == L.Attempt(r, L.AtWriteDest(dest), [L.DebitWritten]);
      CreditSilent(s4, i, r, dest, f);
    } else {
      assert s4.attempts[i].pc == L.Done(false) && L.CreditWritten !in s4.attempts[i].effects;
    }
  }

  lemma CreditSilent(s: L.State, i: nat, r: Request, dest: Snapshot, f: Replies)
    requires i < |s.attempts| && r.dest in s.accounts
    requires s.attempts[i] == L.Attempt(r, L.AtWriteDest(dest), [L.DebitWritten])
    ensures var t, current := Go(Go(s, i, f), i, f).attempts[i], Current(s.accounts, r.dest, dest);
            && (LT.Silent(t) <==> !(f.writeDest.Acked? && current && !f.save.Refused?))
            && (LT.Silent(t) && L.CreditWritten in t.effects <==>
                  current && (f.writeDest.Lost? || (f.writeDest.Acked? && f.save.Refused?)))
  {
    var s5 := Go(s, i, f);
    if f.writeDest.Acked? && Current(s.accounts, r.dest, dest) {
      var done := [L.DebitWritten, L.CreditWritten];
      assert s5.attempts[i] == L.Attempt(r, L.AtSave(Completed(r.transfer)), done);
      assert done[1] == L.CreditWritten;
      var t := Go(s5, i, f).attempts[i];
      assert t.effects == if f.save.Refused? then done else done + [L.Saved(Completed(r.transfer))];
      assert !f.save.Refused? ==> t.effects[2].Saved?;
    } else {
      var effects := if !f.writeDest.Refused? && Current(s.accounts, r.dest, dest) then [L.DebitWritten] + [L.CreditWritten]
                     else [L.DebitWritten];
      assert s5.attempts[i] == L.Attempt(r, L.Done(false), effects);
    }
  }

  /** A fault-free request gets exactly one outcome event, unless it is an acceptable transfer of an account
      to itself; then it gets none. */
  lemma OneOutcomeUnlessSelf(s: L.State, r: Request)
    requires Sound(s.accounts)
    ensures var rows, rows' := s.outbox.rows, Process(s, r, NO_FAULTS).outbox.rows;
            && (|rows'| == |rows| + 1 <==> !(r.source == r.dest && Refusal(s.accounts, r) == NoReason))
            && (|rows'| == |rows| + 1 || rows' == rows)
  {
    if r.source == r.dest && Refusal(s.accounts, r) == NoReason {
      SelfTransferStrands(s, r);
    } else {
      ProcessIsAtomic(s, r);
    }
  }

  // ---------- any number of requests ----------

  function ProcessAll(s: L.State, requests: seq<Request>): L.State {
    if requests == [] then s
    else Process(ProcessAll(s, requests[..|requests| - 1]), requests[|requests| - 1], NO_FAULTS)
  }

  function AtomicAll(rows: Rows, requests: seq<Request>): (Rows, seq<Outcome>) {
    if requests == [] then (rows, [])
    else
      var before := AtomicAll(rows, requests[..|requests| - 1]);
      var after := Atomic(before.0, requests[|requests| - 1]);
      (after.0, before.1 + [after.1])
  }

  function Saves(outcomes: seq<Outcome>): seq<Outbox.Row<Outcome>> {
    if outcomes == [] then []
    else Saves(outcomes[..|outcomes| - 1]) + [Outbox.Row(outcomes[|outcomes| - 1], false)]
  }

  function Records(requests: seq<Request>, outcomes: seq<Outcome>): (ts: seq<L.Attempt>)
    requires |requests| == |outcomes|
    ensures |ts| == |requests|
    ensures forall i :: 0 <= i < |ts| ==> ts[i] == Finished(requests[i], outcomes[i])
  {
    if requests == [] then []
    else
      var n := |requests| - 1;
      Records(requests[..n], outcomes[..n]) + [Finished(requests[n], outcomes[n])]
  }

  function AllAtomically(s: L.State, requests: seq<Request>): L.State {
    if requests == [] then s
    else Atomically(AllAtomically(s, requests[..|requests| - 1]), requests[|requests| - 1])
  }

  lemma {:induction false} ProcessAllOneByOne(s: L.State, requests: seq<Request>)
    requires Sound(s.accounts)
    requires forall r :: r in requests ==> r.source != r.dest
    ensures ProcessAll(s, requests) == AllAtomically(s, requests)
    ensures Sound(AllAtomically(s, requests).accounts)
  {
    if requests != [] {
      var n := |requests| - 1;
      ProcessAllOneByOne(s, requests[..n]);
      assert requests[n] in requests;
      ProcessIsAtomic(AllAtomically(s, requests[..n]), requests[n]);
    }
  }

  lemma {:induction false} AllAtomicallyIsAtomicAll(s: L.State, requests: seq<Request>)
    ensures var s' := AllAtomically(s, requests);
            var outcomes := AtomicAll(s.accounts, requests).1;
            && s'.accounts == AtomicAll(s.accounts, requests).0
            && |outcomes| == |requests|
            && s'.outbox.rows == s.outbox.rows + Saves(outcomes)
            && s'.attempts == s.attempts + Records(requests, outcomes)
  {
    if requests != [] {
      var front, last := requests[..|requests| - 1], requests[|requests| - 1];
      AllAtomicallyIsAtomicAll(s, front);
      var outcomes := AtomicAll(s.accounts, front).1;
      var outcome := Atomic(AtomicAll(s.accounts, front).0, last).1;
      assert AtomicAll(s.accounts, requests).1 == outcomes + [outcome];
      assert requests == front + [last];
      var mid, s' := AllAtomically(s, front), AllAtomically(s, requests);
      assert s' == Atomically(mid, last);
      assert mid.accounts == AtomicAll(s.accounts, front).0;
      AppendRecord(s, front, outcomes, last, outcome);
      assert s'.outbox.rows == mid.outbox.rows + [Outbox.Row(outcome, false)];
      assert s'.attempts == mid.attempts + [Finished(last, outcome)];
    }
  }

  lemma AppendRecord(s: L.State, requests: seq<Request>, outcomes: seq<Outcome>, r: Request, outcome: Outcome)
    requires |requests| == |outcomes|
    ensures s.outbox.rows + Saves(outcomes) + [Outbox.Row(outcome, false)] == s.outbox.rows + Saves(outcomes + [outcome])
    ensures s.attempts + Records(requests, outcomes) + [Finished(r, outcome)]
            == s.attempts + Records(requests + [r], outcomes + [outcome])
  {
    PushRecord(requests, outcomes, r, outcome);
  }

  /** Handling any list of requests between different accounts yields the table and the outcomes of atomic
      transfers in that order: one event each, and every attempt acknowledged. */
  lemma ProcessAllIsAtomic(s: L.State, requests: seq<Request>)
    requires Sound(s.accounts)
    requires forall r :: r in requests ==> r.source != r.dest
    ensures var s' := ProcessAll(s, requests);
            var (rows, outcomes) := AtomicAll(s.accounts, requests);
            && Sound(rows) && s'.accounts == rows
            && |outcomes| == |requests|
            && s'.outbox.rows == s.outbox.rows + Saves(outcomes)
            && s'.attempts == s.attempts + Records(requests, outcomes)
  {
    ProcessAllOneByOne(s, requests);
    AllAtomicallyIsAtomicAll(s, requests);
  }

  lemma PushRecord(requests: seq<Request>, outcomes: seq<Outcome>, r: Request, outcome: Outcome)
    requires |requests| == |outcomes|
    ensures Saves(outcomes + [outcome]) == Saves(outcomes) + [Outbox.Row(outcome, false)]
    ensures Records(requests + [r], outcomes + [outcome]) == Records(requests, outcomes) + [Finished(r, outcome)]
  {
    assert (outcomes + [outcome])[..|outcomes|] == outcomes;
    assert (requests + [r])[..|requests|] == requests;
  }

  // ---------- order independence ----------

  /** `r` names open, unfrozen accounts of its own currency and moves a positive amount. */
  predicate Admissible(rows: Rows, r: Request) {
    && r.source in rows && r.dest in rows
    && r.amount > 0.0
    && rows[r.source].status != Frozen && rows[r.dest].status != Frozen
    && rows[r.source].currency == r.currency == rows[r.dest].currency
  }

  /** An admissible request between two different accounts. */
  predicate Valid(rows: Rows, r: Request) {
    Admissible(rows, r) && r.source != r.dest
  }

  function NeedOf(id: AccountId): Request -> int {
    (r: Request) => if r.source == id then Ceiling(r.amount) else 0
  }

  function NetOf(id: AccountId): Request -> int {
    (r: Request) => (if r.dest == id then CreditUnits(r.amount) else 0) - (if r.source == id then DebitUnits(r.amount) else 0)
  }

  function TouchesOf(id: AccountId): Request -> int {
    (r: Request) => (if r.dest == id then 1 else 0) + (if r.source == id then 1 else 0)
  }

  /** Every account opens with enough for all its debits, each rounded up to a whole unit. */
  ghost predicate Covered(rows: Rows, requests: seq<Request>) {
    forall id :: id in rows ==> rows[id].balance >= Sum(requests, NeedOf(id))
  }

  /** The table after completed transfers, as a sum rather than a sequence of updates. */
  ghost predicate Settled(rows: Rows, requests: seq<Request>, rows': Rows) {
    && rows'.Keys == rows.Keys
    && forall id :: id in rows ==>
         rows'[id] == rows[id].(balance := rows[id].balance + Sum(requests, NetOf(id)),
                                version := rows[id].version + Sum(requests, TouchesOf(id)))
  }

  lemma {:induction false} NetWithinNeed(requests: seq<Request>, id: AccountId)
    requires forall r :: r in requests ==> r.amount > 0.0
    ensures Sum(requests, NeedOf(id)) >= 0
    ensures Sum(requests, NetOf(id)) >= -Sum(requests, NeedOf(id))
  {
    if requests != [] {
      var last := requests[|requests| - 1];
      NetWithinNeed(requests[..|requests| - 1], id);
      DebitWithinCeiling(last.amount);
      CreditRounds(last.amount);
    }
  }

  /** Every request is admissible, and when its turn comes its source has been left with enough. */
  ghost predicate InFunds(rows: Rows, requests: seq<Request>) {
    forall k :: 0 <= k < |requests| ==> Affordable(rows, requests[..k], requests[k])
  }

  /** `r` can be paid from what `before` leaves of the balances. */
  ghost predicate Affordable(rows: Rows, before: seq<Request>, r: Request) {
    Admissible(rows, r) && rows[r.source].balance + Sum(before, NetOf(r.source)) >= Ceiling(r.amount)
  }

  ghost predicate AllCompleted(requests: seq<Request>, outcomes: seq<Outcome>) {
    && |outcomes| == |requests|
    && forall i :: 0 <= i < |requests| ==> outcomes[i] == Completed(requests[i].transfer)
  }

  lemma InFundsNext(rows: Rows, front: seq<Request>, r: Request)
    ensures InFunds(rows, front + [r]) <==> InFunds(rows, front) && Affordable(rows, front, r)
  {
    var requests := front + [r];
    assert requests[..|front|] == front;
    assert forall k :: 0 <= k < |front| ==> requests[..k] == front[..k];
    if InFunds(rows, requests) {
      assert Affordable(rows, requests[..|front|], requests[|front|]);
      forall k | 0 <= k < |front| ensures Affordable(rows, front[..k], front[k]) {
        assert Affordable(rows, requests[..k], requests[k]);
      }
    }
  }

  /** On a table left by completed requests a request is accepted exactly when it is affordable. */
  lemma AcceptedWhenAffordable(rows: Rows, before: seq<Request>, mid: Rows, r: Request)
    requires Settled(rows, before, mid)
    ensures Refusal(mid, r) == NoReason <==> Affordable(rows, before, r)
  {
    if r.source in rows {
      CoversCeiling(mid[r.source].balance, r.amount);
    }
  }

  lemma SettledNext(rows: Rows, front: seq<Request>, mid: Rows, r: Request)
    requires Settled(rows, front, mid) && Refusal(mid, r) == NoReason
    ensures Settled(rows, front + [r], Atomic(mid, r).0)
  {
    var after := Atomic(mid, r).0;
    forall id | id in rows
      ensures after[id] == rows[id].(balance := rows[id].balance + Sum(front + [r], NetOf(id)),
                                     version := rows[id].version + Sum(front + [r], TouchesOf(id)))
    {
      SumPush(front, r, NetOf(id));
      SumPush(front, r, TouchesOf(id));
      AtomicChanges(mid, r, id);
    }
  }

  /** What an accepted transfer does to one account. */
  lemma AtomicChanges(rows: Rows, r: Request, id: AccountId)
    requires Refusal(rows, r) == NoReason && id in rows
    ensures var after := Atomic(rows, r).0;
            && after.Keys == rows.Keys
            && after[id] == rows[id].(balance := rows[id].balance + NetOf(id)(r), version := rows[id].version + TouchesOf(id)(r))
  {
  }

  /** Atomic transfers, one after another, all complete exactly when each of them is affordable in its turn, and then
      the final table is a sum, in which the order no longer appears. */
  lemma {:induction false} AllComplete(rows: Rows, requests: seq<Request>)
    ensures AllCompleted(requests, AtomicAll(rows, requests).1) <==> InFunds(rows, requests)
    ensures InFunds(rows, requests) ==> Settled(rows, requests, AtomicAll(rows, requests).0)
  {
    if requests != [] {
      var n := |requests| - 1;
      var front, r := requests[..n], requests[n];
      assert requests == front + [r];
      AllComplete(rows, front);
      InFundsNext(rows, front, r);
      var before, outcomes := AtomicAll(rows, front), AtomicAll(rows, requests).1;
      assert outcomes == before.1 + [Atomic(before.0, r).1];
      OutcomesCounted(rows, front);
      CompletedNext(front, before.1, r, Atomic(before.0, r).1);
      if InFunds(rows, front) {
        AcceptedWhenAffordable(rows, front, before.0, r);
        if Refusal(before.0, r) == NoReason {
          SettledNext(rows, front, before.0, r);
        }
      }
    }
  }

  /** `attempts` adds to `before` one completed attempt for each request. */
  ghost predicate AllFinished(before: seq<L.Attempt>, requests: seq<Request>, attempts: seq<L.Attempt>) {
    && |attempts| == |before| + |requests|
    && forall i :: 0 <= i < |requests| ==>
         attempts[|before| + i] == Finished(requests[i], Completed(requests[i].transfer))
  }

  /** And so it is with requests handled one by one, between two different accounts each. */
  lemma AllProcessed(s: L.State, requests: seq<Request>)
    requires Sound(s.accounts)
    requires forall r :: r in requests ==> r.source != r.dest
    ensures AllFinished(s.attempts, requests, ProcessAll(s, requests).attempts) <==> InFunds(s.accounts, requests)
    ensures InFunds(s.accounts, requests) ==> Settled(s.accounts, requests, ProcessAll(s, requests).accounts)
  {
    ProcessAllIsAtomic(s, requests);
    AllComplete(s.accounts, requests);
    AppendedTell(s.attempts, requests, AtomicAll(s.accounts, requests).1);
  }

  lemma AppendedTell(before: seq<L.Attempt>, requests: seq<Request>, outcomes: seq<Outcome>)
    requires |outcomes| == |requests|
    ensures AllFinished(before, requests, before + Records(requests, outcomes)) <==> AllCompleted(requests, outcomes)
  {
    FinishedTells(requests, outcomes);
    var all := before + Records(requests, outcomes);
    assert forall i :: 0 <= i < |requests| ==> all[|before| + i] == Records(requests, outcomes)[i];
  }

  lemma FinishedTells(requests: seq<Request>, outcomes: seq<Outcome>)
    requires |outcomes| == |requests|
    ensures AllCompleted(requests, outcomes) <==>
              forall i :: 0 <= i < |requests| ==>
                Records(requests, outcomes)[i] == Finished(requests[i], Completed(requests[i].transfer))
  {
    forall i | 0 <= i < |requests|
      ensures Finished(requests[i], outcomes[i]) == Finished(requests[i], Completed(requests[i].transfer))
              <==> outcomes[i] == Completed(requests[i].transfer)
    {
      var last, done := EffectsOf(outcomes[i]), EffectsOf(Completed(requests[i].transfer));
      assert last[|last| - 1] == L.Saved(outcomes[i]) && done[|done| - 1] == L.Saved(Completed(requests[i].transfer));
    }
  }

  lemma {:induction false} OutcomesCounted(rows: Rows, requests: seq<Request>)
    ensures |AtomicAll(rows, requests).1| == |requests|
  {
    if requests != [] {
      OutcomesCounted(rows, requests[..|requests| - 1]);
    }
  }

  lemma CompletedNext(front: seq<Request>, outcomes: seq<Outcome>, r: Request, outcome: Outcome)
    requires |outcomes| == |front|
    ensures AllCompleted(front + [r], outcomes + [outcome]) <==> AllCompleted(front, outcomes) && outcome == Completed(r.transfer)
  {
    var all, ends := front + [r], outcomes + [outcome];
    if AllCompleted(all, ends) {
      assert ends[|front|] == Completed(all[|front|].transfer);
      forall i | 0 <= i < |front| ensures outcomes[i] == Completed(front[i].transfer) {
        assert ends[i] == Completed(all[i].transfer);
      }
    }
  }

  /** Accounts that cover all their debits from the outset pay every request in every order. */
  lemma CoveredIsInFunds(rows: Rows, requests: seq<Request>)
    requires Covered(rows, requests)
    requires forall r :: r in requests ==> Valid(rows, r)
    ensures InFunds(rows, requests)
  {
    forall k | 0 <= k < |requests| ensures Affordable(rows, requests[..k], requests[k]) {
      var r := requests[k];
      assert Valid(rows, r);
      assert forall q :: q in requests ==> Valid(rows, q);
      assert forall q :: q in requests[..k] ==> q in requests;
      NetWithinNeed(requests[..k], r.source);
      NeedsOfPrefix(requests, k + 1, r.source);
      assert requests[..k + 1][..k] == requests[..k];
    }
  }

  lemma {:induction false} NeedsOfPrefix(requests: seq<Request>, k: nat, id: AccountId)
    requires k <= |requests|
    requires forall r :: r in requests ==> r.amount > 0.0
    ensures Sum(requests[..k], NeedOf(id)) <= Sum(requests, NeedOf(id))
  {
    if k == |requests| {
      assert requests[..k] == requests;
    } else {
      var n := |requests| - 1;
      DebitWithinCeiling(requests[n].amount);
      NeedsOfPrefix(requests[..n], k, id);
      assert requests[..n][..k] == requests[..k];
    }
  }

  // ---------- redelivery ----------

  function Repeat(r: Request, n: nat): (requests: seq<Request>)
    ensures |requests| == n
  {
    if n == 0 then [] else Repeat(r, n - 1) + [r]
  }

  /** How many of n deliveries a balance pays for, each delivery taking `units` and demanding `ceiling`. */
  function Payable(balance: int, units: nat, ceiling: int, n: nat): (m: nat)
    ensures m <= n
  {
    if n == 0 then 0
    else
      var m := Payable(balance, units, ceiling, n - 1);
      if m == n - 1 && balance >= m * units + ceiling then n else m
  }

  /** Payable is the longest run of deliveries that the balance pays for. */
  lemma {:induction false} PayableIsLongest(balance: int, units: nat, ceiling: int, n: nat)
    ensures var m := Payable(balance, units, ceiling, n);
            && (forall k: nat :: k < m ==> balance >= k * units + ceiling)
            && (m < n ==> balance < m * units + ceiling)
  {
    if n > 0 {
      PayableIsLongest(balance, units, ceiling, n - 1);
    }
  }

  /** The table after `paid` deliveries of `r` that moved money. */
  ghost predicate PaidTimes(rows: Rows, r: Request, paid: nat, rows': Rows)
    requires r.source in rows
  {
    Settled(rows, Repeat(r, paid), rows') && rows'[r.source].balance == rows[r.source].balance - paid * DebitUnits(r.amount)
  }

  ghost predicate FirstPaid(r: Request, paid: nat, outcomes: seq<Outcome>) {
    forall k :: 0 <= k < |outcomes| ==>
      outcomes[k] == if k < paid then Completed(r.transfer) else Failed(r.transfer, InsufficientFunds)
  }

  /** One more delivery moves the money again if the balance still covers it, and is refused otherwise. */
  lemma DeliveredAgain(rows: Rows, r: Request, paid: nat, mid: Rows)
    requires Valid(rows, r) && PaidTimes(rows, r, paid, mid)
    ensures var again := rows[r.source].balance >= paid * DebitUnits(r.amount) + Ceiling(r.amount);
            && Refusal(mid, r) == (if again then NoReason else InsufficientFunds)
            && PaidTimes(rows, r, if again then paid + 1 else paid, Atomic(mid, r).0)
  {
    CoversCeiling(mid[r.source].balance, r.amount);
    assert (paid + 1) * DebitUnits(r.amount) == paid * DebitUnits(r.amount) + DebitUnits(r.amount);
    if Refusal(mid, r) == NoReason {
      SettledNext(rows, Repeat(r, paid), mid, r);
    }
  }

  lemma PayableNext(balance: int, units: nat, ceiling: int, n: nat)
    ensures var m := Payable(balance, units, ceiling, n);
            Payable(balance, units, ceiling, n + 1) == if balance >= m * units + ceiling then m + 1 else m
    ensures balance >= Payable(balance, units, ceiling, n) * units + ceiling ==> Payable(balance, units, ceiling, n) == n
  {
    PayableIsLongest(balance, units, ceiling, n);
  }

  lemma AtomicAllNext(rows: Rows, front: seq<Request>, r: Request)
    ensures var before := AtomicAll(rows, front);
            AtomicAll(rows, front + [r]) == (Atomic(before.0, r).0, before.1 + [Atomic(before.0, r).1])
  {
    assert (front + [r])[..|front|] == front;
  }

  ghost predicate Redelivered(rows: Rows, r: Request, n: nat, paid: nat)
    requires r.source in rows
  {
    var (rows', outcomes) := AtomicAll(rows, Repeat(r, n));
    PaidTimes(rows, r, paid, rows') && |outcomes| == n && FirstPaid(r, paid, outcomes)
  }

  lemma NotDelivered(rows: Rows, r: Request)
    requires Valid(rows, r)
    ensures Redelivered(rows, r, 0, 0)
  {
    assert AtomicAll(rows, []) == (rows, []);
  }

  lemma RedeliveredNext(rows: Rows, r: Request, n: nat, paid: nat)
    requires Valid(rows, r) && paid <= n && Redelivered(rows, r, n, paid)
    requires rows[r.source].balance >= paid * DebitUnits(r.amount) + Ceiling(r.amount) ==> paid == n
    ensures var again := rows[r.source].balance >= paid * DebitUnits(r.amount) + Ceiling(r.amount);
            Redelivered(rows, r, n + 1, if again then paid + 1 else paid)
  {
    var (mid, outcomes) := AtomicAll(rows, Repeat(r, n));
    AtomicAllNext(rows, Repeat(r, n), r);
    DeliveredAgain(rows, r, paid, mid);
    var again := rows[r.source].balance >= paid * DebitUnits(r.amount) + Ceiling(r.amount);
    assert FirstPaid(r, if again then paid + 1 else paid, outcomes + [Atomic(mid, r).1]);
  }

  /** Nothing recognises a redelivered request.  Of n deliveries the first ones that the balance pays for move
      the money, each of them again, and every later one reports a failure after those completions. */
  lemma {:induction false} RedeliveryIsNotRecognised(rows: Rows, r: Request, n: nat)
    requires Valid(rows, r)
    ensures DebitUnits(r.amount) >= 0
    ensures Redelivered(rows, r, n, Payable(rows[r.source].balance, DebitUnits(r.amount), Ceiling(r.amount), n))
  {
    DebitWithinCeiling(r.amount);
    var units, ceiling, balance := DebitUnits(r.amount), Ceiling(r.amount), rows[r.source].balance;
    if n == 0 {
      NotDelivered(rows, r);
    } else {
      RedeliveryIsNotRecognised(rows, r, n - 1);
      PayableNext(balance, units, ceiling, n - 1);
      RedeliveredNext(rows, r, n - 1, Payable(balance, units, ceiling, n - 1));
    }
  }

  /** Requests of different transfers have no order among them; when every account covers its debits, none is
      needed: any permutation, handled one by one, completes every request and ends in the same table. */
  lemma OrderDoesNotMatter(s: L.State, a: seq<Request>, b: seq<Request>)
    requires multiset(a) == multiset(b)
    requires Sound(s.accounts) && Covered(s.accounts, a)
    requires forall r :: r in a ==> Valid(s.accounts, r)
    ensures ProcessAll(s, a).accounts == ProcessAll(s, b).accounts
    ensures Settled(s.accounts, a, ProcessAll(s, a).accounts)
    ensures forall i :: 0 <= i < |b| ==>
              && |s.attempts| + i < |ProcessAll(s, b).attempts|
              && ProcessAll(s, b).attempts[|s.attempts| + i] == Finished(b[i], Completed(b[i].transfer))
  {
    CoveredPermuted(s.accounts, a, b);
    ProcessAllIsAtomic(s, a);
    ProcessAllIsAtomic(s, b);
    CoveredIsInFunds(s.accounts, a);
    CoveredIsInFunds(s.accounts, b);
    AllComplete(s.accounts, a);
    AllComplete(s.accounts, b);
    SettledPermuted(s.accounts, a, b, ProcessAll(s, a).accounts, ProcessAll(s, b).accounts);
  }

  lemma CoveredPermuted(rows: Rows, a: seq<Request>, b: seq<Request>)
    requires multiset(a) == multiset(b)
    requires Covered(rows, a) && forall r :: r in a ==> Valid(rows, r)
    ensures Covered(rows, b) && forall r :: r in b ==> Valid(rows, r)
  {
    forall r | r in b ensures Valid(rows, r) {
      assert r in multiset(b);
      assert r in multiset(a);
    }
    forall id | id in rows ensures rows[id].balance >= Sum(b, NeedOf(id)) {
      SumPermuted(a, b, NeedOf(id));
    }
  }

  lemma SettledPermuted(rows: Rows, a: seq<Request>, b: seq<Request>, endA: Rows, endB: Rows)
    requires multiset(a) == multiset(b) && Settled(rows, a, endA) && Settled(rows, b, endB)
    ensures endA == endB
  {
    forall id | id in rows ensures endA[id] == endB[id] {
      SumPermuted(a, b, NetOf(id));
      SumPermuted(a, b, TouchesOf(id));
    }
  }
}
