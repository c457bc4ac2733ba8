/** What every reachable state of the ledger satisfies. */
module LedgerInvariant {
  import opened Wrappers
  import opened Money
  import opened Events
  import opened AccountDomain
  import opened AccountTable
  import opened Ledger
  import opened Sums
  import Outbox

  // ---------- totals over the table ----------

  lemma {:induction false} TotalWithout(rows: Rows, id: AccountId, currency: Currency)
    requires id in rows
    ensures Total(rows, currency) == Share(rows[id], currency) + Total(rows - {id}, currency)
    decreases |rows|
  {
    var pick :| pick in rows && Total(rows, currency) == Share(rows[pick], currency) + Total(rows - {pick}, currency);
    if pick != id {
      TotalWithout(rows - {pick}, id, currency);
      TotalWithout(rows - {id}, pick, currency);
      assert rows - {pick} - {id} == rows - {id} - {pick};
    }
  }

  lemma TotalUpdated(rows: Rows, id: AccountId, row: Row, currency: Currency)
    ensures Total(rows[id := row], currency)
            == Total(rows, currency) + Share(row, currency) - if id in rows then Share(rows[id], currency) else 0
  {
    TotalWithout(rows[id := row], id, currency);
    if id in rows {
      TotalWithout(rows, id, currency);
      assert rows[id := row] - {id} == rows - {id};
    } else {
      assert rows[id := row] - {id} == rows;
    }
  }

  // ---------- the invariant ----------

  /** A copy taken from row `id` and changed by `delta` in `ahead` versions: the row can only have moved
      on, and if it has not, the copy is the row plus `delta` exactly. */
  ghost predicate Held(rows: Rows, id: AccountId, a: Snapshot, delta: real, ahead: int) {
    && id in rows
    && rows[id].currency == a.currency && rows[id].status == a.status
    && a.version - ahead <= rows[id].version
    && (a.version - ahead == rows[id].version ==> a.balance == rows[id].balance as real + delta)
  }

  ghost predicate AttemptOk(rows: Rows, t: Attempt) {
    var r := t.request;
    && Disciplined(t)
    && (DebitWritten in t.effects ==> r.amount > 0.0 && r.source in rows && r.dest in rows)
    && match t.pc
       case AtReadSource => t.effects == []
       case AtReadDest(source) => t.effects == [] && Held(rows, r.source, source, 0.0, 0)
       case AtWriteSource(source, dest) =>
         && t.effects == [] && r.amount > 0.0
         && source.balance >= 0.0 && source.currency == r.currency && dest.currency == r.currency
         && source.status != Frozen && dest.status != Frozen
         && Held(rows, r.source, source, -r.amount, 1)
         && Held(rows, r.dest, dest, r.amount, 1)
       case AtWriteDest(dest) =>
         && t.effects == [DebitWritten]
         && dest.currency == r.currency
         && Held(rows, r.dest, dest, r.amount, 1)
       case AtSave(event) =>
         || (t.effects == [] && event.Failed? && event.transfer == r.transfer && event.reason != NoReason)
         || (t.effects == [DebitWritten, CreditWritten] && event == Completed(r.transfer))
       case Done(ok) => ok ==> exists event :: Saved(event) in t.effects
  }

  ghost predicate AccountOk(s: State, id: AccountId)
    requires id in s.accounts && id in s.opening
  {
    && s.accounts[id].currency == s.opening[id].currency
    && s.accounts[id].status == s.opening[id].status
    && s.accounts[id].balance == s.opening[id].balance + Sum(s.attempts, DeltaOf(id))
    && s.accounts[id].version == s.opening[id].version + Sum(s.attempts, WritesOf(id))
    && s.accounts[id].balance >= 0
  }

  ghost predicate AccountsOk(s: State) {
    && s.accounts.Keys == s.opening.Keys
    && (forall id :: id in s.accounts ==> AccountOk(s, id))
    && (forall id: AccountId :: id !in s.accounts ==> Sum(s.attempts, DeltaOf(id)) == 0 && Sum(s.attempts, WritesOf(id)) == 0)
  }

  ghost predicate Conserved(s: State, currency: Currency) {
    Total(s.accounts, currency) + Sum(s.attempts, OutstandingOf(currency)) == Total(s.opening, currency)
  }

  /** Some attempt for its transfer saved this event. */
  ghost predicate SavedByAttempt(attempts: seq<Attempt>, event: Outcome) {
    exists i :: 0 <= i < |attempts| && Saved(event) in attempts[i].effects
  }

  ghost predicate OutboxOk(s: State) {
    && Outbox.Inv(s.outbox)
    && (forall j :: 0 <= j < |s.outbox.rows| ==> SavedByAttempt(s.attempts, s.outbox.rows[j].event))
    && (forall i, event :: 0 <= i < |s.attempts| && Saved(event) in s.attempts[i].effects ==>
          Outbox.SavedSomewhere(s.outbox.rows, event))
  }

  ghost predicate AttemptsOk(s: State) {
    forall i :: 0 <= i < |s.attempts| ==> AttemptOk(s.accounts, s.attempts[i])
  }

  ghost predicate MoneyOk(s: State) {
    forall currency :: Conserved(s, currency)
  }

  ghost predicate Inv(s: State) {
    AccountsOk(s) && AttemptsOk(s) && MoneyOk(s) && OutboxOk(s)
  }

  ghost predicate Opened(rows: Rows) {
    forall id :: id in rows ==> rows[id].balance >= 0
  }

  lemma InitInv(accounts: Rows)
    requires Opened(accounts)
    ensures Inv(Init(accounts))
  {
  }

  // ---------- preservation ----------

  /** Attempts other than `i` still hold good copies after a conditional write. */
  lemma OthersHold(rows: Rows, id: AccountId, a: Snapshot, reply: Reply, t: Attempt)
    requires AttemptOk(rows, t)
    ensures AttemptOk(Updated(rows, id, a, reply), t)
  {
  }

  lemma OpenKeeps(s: State, id: AccountId, currency: Currency, initial: real, reply: Reply)
    requires Inv(s)
    ensures Inv(Next(s, Open(id, currency, initial, reply)))
  {
    var s' := Next(s, Open(id, currency, initial, reply));
    if s' != s {
      var row := Store(Snapshot(initial, currency, Active, 1));
      QuantiseIsNearest(initial, row.balance);
      assert s'.accounts == s.accounts[id := row] && s'.opening == s.opening[id := row];
      forall c ensures Conserved(s', c) {
        assert Conserved(s, c);
        TotalUpdated(s.accounts, id, row, c);
        TotalUpdated(s.opening, id, row, c);
      }
      forall i | 0 <= i < |s'.attempts| ensures AttemptOk(s'.accounts, s'.attempts[i]) {
        assert AttemptOk(s.accounts, s.attempts[i]);
      }
      forall x | x in s'.accounts ensures AccountOk(s', x) {
        if x != id {
          assert AccountOk(s, x);
        }
      }
    }
  }

  lemma BeginKeeps(s: State, request: Request)
    requires Inv(s)
    ensures Inv(Next(s, Begin(request)))
  {
    var t := Attempt(request, AtReadSource, []);
    var s' := Next(s, Begin(request));
    forall id: AccountId
      ensures Sum(s'.attempts, DeltaOf(id)) == Sum(s.attempts, DeltaOf(id))
      ensures Sum(s'.attempts, WritesOf(id)) == Sum(s.attempts, WritesOf(id))
    {
      SumPush(s.attempts, t, DeltaOf(id));
      SumPush(s.attempts, t, WritesOf(id));
    }
    forall id | id in s'.accounts ensures AccountOk(s', id) {
      assert AccountOk(s, id);
    }
    forall c ensures Conserved(s', c) {
      assert Conserved(s, c);
      SumPush(s.attempts, t, OutstandingOf(c));
    }
    SavedStays(s.attempts, s'.attempts);
  }

  lemma SavedStays(attempts: seq<Attempt>, attempts': seq<Attempt>)
    requires |attempts| <= |attempts'|
    requires forall i :: 0 <= i < |attempts| ==> attempts[i].effects <= attempts'[i].effects
    ensures forall event :: SavedByAttempt(attempts, event) ==> SavedByAttempt(attempts', event)
  {
    forall event | SavedByAttempt(attempts, event) ensures SavedByAttempt(attempts', event) {
      var i :| 0 <= i < |attempts| && Saved(event) in attempts[i].effects;
      assert Saved(event) in attempts'[i].effects;
    }
  }

  /** Nothing changes in the books when the written debits and credits stay as they are. */
  lemma BooksSame(s: State, s': State, i: nat, t: Attempt)
    requires AccountsOk(s) && MoneyOk(s) && i < |s.attempts|
    requires t.request == s.attempts[i].request
    requires DebitWritten in t.effects <==> DebitWritten in s.attempts[i].effects
    requires CreditWritten in t.effects <==> CreditWritten in s.attempts[i].effects
    requires s'.accounts == s.accounts && s'.opening == s.opening && s'.attempts == s.attempts[i := t]
    ensures AccountsOk(s') && MoneyOk(s')
  {
    forall id: AccountId
      ensures Sum(s'.attempts, DeltaOf(id)) == Sum(s.attempts, DeltaOf(id))
      ensures Sum(s'.attempts, WritesOf(id)) == Sum(s.attempts, WritesOf(id))
    {
      SumUpdate(s.attempts, i, t, DeltaOf(id));
      SumUpdate(s.attempts, i, t, WritesOf(id));
    }
    forall id | id in s'.accounts ensures AccountOk(s', id) {
      assert AccountOk(s, id);
    }
    forall c ensures Conserved(s', c) {
      assert Conserved(s, c);
      SumUpdate(s.attempts, i, t, OutstandingOf(c));
    }
  }

  /** A step of attempt `i` that writes nothing to the accounts table or the outbox. */
  lemma SilentKeeps(s: State, i: nat, t: Attempt)
    requires Inv(s) && i < |s.attempts|
    requires t.request == s.attempts[i].request && t.effects == s.attempts[i].effects
    requires AttemptOk(s.accounts, t)
    ensures Inv(s.(attempts := s.attempts[i := t]))
  {
    var s' := s.(attempts := s.attempts[i := t]);
    BooksSame(s, s', i, t);
    SavedStays(s.attempts, s'.attempts);
  }

  /** The write of `a` to row `id` is what the bookkeeping of attempt `i`, now `t`, says it is. */
  ghost predicate Accounted(s: State, i: nat, t: Attempt, id: AccountId, a: Snapshot)
    requires i < |s.attempts| && id in s.accounts
  {
    var was := s.attempts[i];
    && t.request == was.request
    && Quantise(a.balance) == s.accounts[id].balance + Delta(t, id) - Delta(was, id) >= 0
    && WritesOf(id)(t) == WritesOf(id)(was) + 1
    && (forall x :: x != id ==> Delta(t, x) == Delta(was, x) && WritesOf(x)(t) == WritesOf(x)(was))
    && (forall c :: Outstanding(t, c)
                    == Outstanding(was, c) - if c == s.accounts[id].currency then Delta(t, id) - Delta(was, id) else 0)
  }

  lemma WriteKeepsAccounts(s: State, i: nat, t: Attempt, id: AccountId, a: Snapshot)
    requires AccountsOk(s) && i < |s.attempts| && Current(s.accounts, id, a)
    requires Accounted(s, i, t, id, a)
    ensures AccountsOk(s.(accounts := Updated(s.accounts, id, a, Acked), attempts := s.attempts[i := t]))
  {
    var s' := s.(accounts := Updated(s.accounts, id, a, Acked), attempts := s.attempts[i := t]);
    forall x: AccountId
      ensures Sum(s'.attempts, DeltaOf(x)) == Sum(s.attempts, DeltaOf(x)) - Delta(s.attempts[i], x) + Delta(t, x)
      ensures Sum(s'.attempts, WritesOf(x)) == Sum(s.attempts, WritesOf(x)) - WritesOf(x)(s.attempts[i]) + WritesOf(x)(t)
    {
      SumUpdate(s.attempts, i, t, DeltaOf(x));
      SumUpdate(s.attempts, i, t, WritesOf(x));
    }
    forall x | x in s'.accounts ensures AccountOk(s', x) {
      assert AccountOk(s, x);
    }
  }

  lemma WriteKeepsMoney(s: State, i: nat, t: Attempt, id: AccountId, a: Snapshot)
    requires MoneyOk(s) && i < |s.attempts| && Current(s.accounts, id, a)
    requires Accounted(s, i, t, id, a)
    ensures MoneyOk(s.(accounts := Updated(s.accounts, id, a, Acked), attempts := s.attempts[i := t]))
  {
    var s' := s.(accounts := Updated(s.accounts, id, a, Acked), attempts := s.attempts[i := t]);
    forall c ensures Conserved(s', c) {
      assert Conserved(s, c);
      SumUpdate(s.attempts, i, t, OutstandingOf(c));
      TotalUpdated(s.accounts, id, s'.accounts[id], c);
    }
  }

  lemma WriteKeeps(s: State, i: nat, t: Attempt, id: AccountId, a: Snapshot)
    requires Inv(s) && i < |s.attempts| && Current(s.accounts, id, a)
    requires Accounted(s, i, t, id, a)
    requires s.attempts[i].effects <= t.effects
    requires forall event :: Saved(event) in t.effects <==> Saved(event) in s.attempts[i].effects
    requires AttemptOk(Updated(s.accounts, id, a, Acked), t)
    ensures Inv(s.(accounts := Updated(s.accounts, id, a, Acked), attempts := s.attempts[i := t]))
  {
    var s' := s.(accounts := Updated(s.accounts, id, a, Acked), attempts := s.attempts[i := t]);
    WriteKeepsAccounts(s, i, t, id, a);
    WriteKeepsMoney(s, i, t, id, a);
    forall j | 0 <= j < |s'.attempts| ensures AttemptOk(s'.accounts, s'.attempts[j]) {
      if j != i {
        OthersHold(s.accounts, id, a, Acked, s.attempts[j]);
      }
    }
    SavedStays(s.attempts, s'.attempts);
  }

  lemma DebitKeeps(s: State, i: nat, reply: Reply)
    requires Inv(s) && i < |s.attempts| && s.attempts[i].pc.AtWriteSource?
    ensures Inv(ProceedWith(s, i, reply))
  {
    var t := s.attempts[i];
    var r, source := t.request, t.pc.source;
    assert AttemptOk(s.accounts, t);
    var t' := Wrote(s.accounts, t, r.source, source, reply, DebitWritten, AtWriteDest(t.pc.dest));
    if reply.Refused? || !Current(s.accounts, r.source, source) {
      SilentKeeps(s, i, t');
    } else {
      DebitLands(s, i, reply, t');
    }
  }

  lemma DebitLands(s: State, i: nat, reply: Reply, t': Attempt)
    requires Inv(s) && i < |s.attempts| && s.attempts[i].pc.AtWriteSource? && !reply.Refused?
    requires var t := s.attempts[i];
             && Current(s.accounts, t.request.source, t.pc.source)
             && t' == Wrote(s.accounts, t, t.request.source, t.pc.source, reply, DebitWritten, AtWriteDest(t.pc.dest))
    ensures var t := s.attempts[i];
            Inv(s.(accounts := Updated(s.accounts, t.request.source, t.pc.source, Acked), attempts := s.attempts[i := t']))
  {
    var t := s.attempts[i];
    var r := t.request;
    assert AttemptOk(s.accounts, t);
    assert AccountOk(s, r.source);
    DebitIsExact(s.accounts[r.source].balance, r.amount);
    assert t'.effects == [DebitWritten];
    OthersHold(s.accounts, r.source, t.pc.source, Acked, t);
    WriteKeeps(s, i, t', r.source, t.pc.source);
  }

  lemma CreditKeeps(s: State, i: nat, reply: Reply)
    requires Inv(s) && i < |s.attempts| && s.attempts[i].pc.AtWriteDest?
    ensures Inv(ProceedWith(s, i, reply))
  {
    var t := s.attempts[i];
    var r, dest := t.request, t.pc.dest;
    assert AttemptOk(s.accounts, t);
    var t' := Wrote(s.accounts, t, r.dest, dest, reply, CreditWritten, AtSave(Completed(r.transfer)));
    if reply.Refused? || !Current(s.accounts, r.dest, dest) {
      SilentKeeps(s, i, t');
    } else {
      CreditLands(s, i, reply, t');
    }
  }

  lemma CreditLands(s: State, i: nat, reply: Reply, t': Attempt)
    requires Inv(s) && i < |s.attempts| && s.attempts[i].pc.AtWriteDest? && !reply.Refused?
    requires var t := s.attempts[i];
             && Current(s.accounts, t.request.dest, t.pc.dest)
             && t' == Wrote(s.accounts, t, t.request.dest, t.pc.dest, reply, CreditWritten, AtSave(Completed(t.request.transfer)))
    ensures var t := s.attempts[i];
            Inv(s.(accounts := Updated(s.accounts, t.request.dest, t.pc.dest, Acked), attempts := s.attempts[i := t']))
  {
    var t := s.attempts[i];
    var r := t.request;
    assert AttemptOk(s.accounts, t);
    assert AccountOk(s, r.dest);
    CreditIsExact(s.accounts[r.dest].balance, r.amount);
    CreditRounds(r.amount);
    assert t'.effects == [DebitWritten, CreditWritten];
    OthersHold(s.accounts, r.dest, t.pc.dest, Acked, t);
    WriteKeeps(s, i, t', r.dest, t.pc.dest);
  }

  lemma SaveKeeps(s: State, i: nat, reply: Reply)
    requires Inv(s) && i < |s.attempts| && s.attempts[i].pc.AtSave?
    ensures Inv(ProceedWith(s, i, reply))
  {
    var t := s.attempts[i];
    assert AttemptOk(s.accounts, t);
    var event := t.pc.event;
    if reply.Refused? {
      SilentKeeps(s, i, t.(pc := Done(false)));
    } else {
      var s' := ProceedWith(s, i, reply);
      var t' := s'.attempts[i];
      assert Saved(event) in t'.effects;
      assert Disciplined(t') by {
        if t.effects == [] {
          assert t'.effects == [Saved(Failed(t.request.transfer, event.reason))];
        } else {
          assert t'.effects == Success(t.request);
        }
      }
      BooksSame(s, s', i, t');
      SaveKeepsOutbox(s, i, t', event, reply);
    }
  }

  lemma SaveKeepsOutbox(s: State, i: nat, t': Attempt, event: Outcome, reply: Reply)
    requires OutboxOk(s) && i < |s.attempts| && !reply.Refused?
    requires t'.effects == s.attempts[i].effects + [Saved(event)]
    ensures OutboxOk(s.(outbox := Outbox.Save(s.outbox, event, reply), attempts := s.attempts[i := t']))
  {
    var s' := s.(outbox := Outbox.Save(s.outbox, event, reply), attempts := s.attempts[i := t']);
    Outbox.SaveKeepsInv(s.outbox, event, reply);
    SavedStays(s.attempts, s'.attempts);
    assert Saved(event) in s'.attempts[i].effects;
    assert SavedByAttempt(s'.attempts, event);
    assert s'.outbox.rows[|s.outbox.rows|].event == event;
    forall k, e | 0 <= k < |s'.attempts| && Saved(e) in s'.attempts[k].effects
      ensures Outbox.SavedSomewhere(s'.outbox.rows, e)
    {
      if e != event {
        assert Saved(e) in s.attempts[k].effects;
        var j :| 0 <= j < |s.outbox.rows| && s.outbox.rows[j].event == e;
        assert s'.outbox.rows[j].event == e;
      }
    }
  }

  lemma RelayKeepsOutbox(s: State, step: Outbox.Step)
    requires OutboxOk(s)
    ensures OutboxOk(s.(outbox := Outbox.Next(s.outbox, step)))
  {
    var s' := s.(outbox := Outbox.Next(s.outbox, step));
    Outbox.NextKeepsInv(s.outbox, step);
    assert |s'.outbox.rows| == |s.outbox.rows|;
    forall k, e | 0 <= k < |s'.attempts| && Saved(e) in s'.attempts[k].effects
      ensures Outbox.SavedSomewhere(s'.outbox.rows, e)
    {
      var j :| 0 <= j < |s.outbox.rows| && s.outbox.rows[j].event == e;
      assert s'.outbox.rows[j].event == e;
    }
  }

  lemma RelayKeeps(s: State, step: Outbox.Step)
    requires Inv(s)
    ensures Inv(Next(s, Relay(step)))
  {
    var s' := Next(s, Relay(step));
    RelayKeepsOutbox(s, step);
    forall id | id in s'.accounts ensures AccountOk(s', id) {
      assert AccountOk(s, id);
    }
    forall c ensures Conserved(s', c) {
      assert Conserved(s, c);
    }
  }

  lemma NextKeepsInv(s: State, step: Step)
    requires Inv(s)
    ensures Inv(Next(s, step))
  {
    match step
    case Open(id, currency, initial, reply) => OpenKeeps(s, id, currency, initial, reply);
    case Begin(request) => BeginKeeps(s, request);
    case Relay(r) => RelayKeeps(s, r);
    case Proceed(i, reply) =>
      if i < |s.attempts| {
        var t := s.attempts[i];
        assert AttemptOk(s.accounts, t);
        match t.pc {
          case AtReadSource => SilentKeeps(s, i, SourceRead(s.accounts, t, reply));
          case AtReadDest(source) =>
            if t.request.source in s.accounts {
              assert AccountOk(s, t.request.source);
            }
            SilentKeeps(s, i, DestRead(s.accounts, t, source, reply));
          case AtWriteSource(_, _) => DebitKeeps(s, i, reply);
          case AtWriteDest(_) => CreditKeeps(s, i, reply);
          case AtSave(_) => SaveKeeps(s, i, reply);
          case Done(_) =>
        }
      }
  }

  /** Every schedule keeps the invariant. */
  lemma {:induction false} RunKeepsInv(s: State, steps: seq<Step>)
    requires Inv(s)
    ensures Inv(Run(s, steps))
  {
    if steps != [] {
      RunKeepsInv(s, steps[..|steps| - 1]);
      NextKeepsInv(Run(s, steps[..|steps| - 1]), steps[|steps| - 1]);
    }
  }
}
