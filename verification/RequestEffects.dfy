/** What handling one transfer request does, spelt out on plain rows for every request and every combination of
    failing calls. */
module RequestEffects {
  import opened Wrappers
  import opened Money
  import opened Events
  import opened AccountDomain
  import opened AccountTable
  import opened AccountService
  import L = Ledger
  import Outbox

  /** One call of the last attempt, which only moves on. */
  lemma Moves(s: L.State, t: L.Attempt, t': L.Attempt, f: Replies)
    requires L.ProceedWith(With(s, t), |s.attempts|, ReplyFor(t.pc, f)) == With(s, t).(attempts := With(s, t).attempts[|s.attempts| := t'])
    ensures Go(With(s, t), |s.attempts|, f) == With(s, t')
  {
    assert (s.attempts + [t])[|s.attempts| := t'] == s.attempts + [t'];
  }

  lemma Reads(s: L.State, r: Request, f: Replies)
    ensures var t1 := L.Attempt(r, L.AtReadSource, []);
            var t2 := L.SourceRead(s.accounts, t1, f.readSource);
            && L.Next(s, L.Begin(r)) == With(s, t1)
            && Go(With(s, t1), |s.attempts|, f) == With(s, t2)
            && (t2.pc.AtReadDest? ==>
                  Go(With(s, t2), |s.attempts|, f) == With(s, L.DestRead(s.accounts, t2, t2.pc.source, f.readDest)))
  {
    var t1 := L.Attempt(r, L.AtReadSource, []);
    var t2 := L.SourceRead(s.accounts, t1, f.readSource);
    Moves(s, t1, t2, f);
    if t2.pc.AtReadDest? {
      Moves(s, t2, L.DestRead(s.accounts, t2, t2.pc.source, f.readDest), f);
    }
  }

  /** An attempt that has its event ready saves it, unless that is refused, and is over. */
  lemma Saves(s: L.State, r: Request, event: Outcome, effects: seq<L.Effect>, f: Replies)
    ensures var t := L.Attempt(r, L.AtSave(event), effects);
            var s' := Go(With(s, t), |s.attempts|, f);
            && s' == s.(attempts := s.attempts + [L.Attempt(r, L.Done(f.save.Acked?),
                                                            if f.save.Refused? then effects else effects + [L.Saved(event)])],
                        outbox := s.outbox.(rows := if f.save.Refused? then s.outbox.rows
                                                    else s.outbox.rows + [Outbox.Row(event, false)]))
            && Go(s', |s.attempts|, f) == s'
  {
    var t := L.Attempt(r, L.AtSave(event), effects);
    SaveEnds(With(s, t), |s.attempts|, f);
    var t' := L.Attempt(r, L.Done(f.save.Acked?), if f.save.Refused? then effects else effects + [L.Saved(event)]);
    assert (s.attempts + [t])[|s.attempts| := t'] == s.attempts + [t'];
  }

  /** A request is refused for the first of these reasons that applies, in this order: the source account is unknown
      or cannot be read; the destination likewise; the amount is not positive; the source is frozen, is of another
      currency, or holds less; the destination is frozen or of another currency.  It then changes no account, and
      saves one failure with that reason unless the save is refused. */
  lemma RefusedRequest(s: L.State, r: Request, f: Replies, reason: Reason)
    requires var a := s.accounts;
             var readable := f.readSource.Acked? && r.source in a;
             var both := readable && f.readDest.Acked? && r.dest in a;
             match reason
             case NoReason => false
             case SourceNotFound => !readable
             case DestNotFound => readable && !both
             case InvalidAmount => both && r.amount <= 0.0
             case AccountFrozen =>
               && both && r.amount > 0.0
               && (|| a[r.source].status == Frozen
                   || (a[r.source].currency == r.currency && r.amount <= a[r.source].balance as real && a[r.dest].status == Frozen))
             case CurrencyMismatch =>
               && both && r.amount > 0.0 && a[r.source].status != Frozen
               && (|| a[r.source].currency != r.currency
                   || (r.amount <= a[r.source].balance as real && a[r.dest].status != Frozen && a[r.dest].currency != r.currency))
             case InsufficientFunds =>
               && both && r.amount > 0.0 && a[r.source].status != Frozen && a[r.source].currency == r.currency
               && a[r.source].balance as real < r.amount
    ensures Process(s, r, f)
            == s.(attempts := s.attempts + [L.Attempt(r, L.Done(f.save.Acked?),
                                                      if f.save.Refused? then [] else [L.Saved(Failed(r.transfer, reason))])],
                  outbox := s.outbox.(rows := if f.save.Refused? then s.outbox.rows
                                              else s.outbox.rows + [Outbox.Row(Failed(r.transfer, reason), false)]))
  {
    Reads(s, r, f);
    Saves(s, r, Failed(r.transfer, reason), [], f);
    assert [] + [L.Saved(Failed(r.transfer, reason))] == [L.Saved(Failed(r.transfer, reason))];
  }

  /** A request that nothing speaks against is paid by two separate writes: the source loses the amount unless its
      write is refused; the destination gains it only after an acknowledged source write, on another account, unless
      refused in turn; and the completion is saved only after both are acknowledged. */
  lemma AcceptedRequest(s: L.State, r: Request, f: Replies)
    requires var a := s.accounts;
             && f.readSource.Acked? && r.source in a && f.readDest.Acked? && r.dest in a
             && 0.0 < r.amount <= a[r.source].balance as real
             && a[r.source].status != Frozen && a[r.dest].status != Frozen
             && a[r.source].currency == r.currency == a[r.dest].currency
    ensures var a, s' := s.accounts, Process(s, r, f);
            var credits := f.writeSource.Acked? && r.source != r.dest;
            var completes := credits && f.writeDest.Acked?;
            && s'.accounts.Keys == a.Keys
            && (forall id :: id in a ==>
                  s'.accounts[id]
                  == if id == r.source && !f.writeSource.Refused? then
                       a[id].(balance := Quantise(a[id].balance as real - r.amount), version := a[id].version + 1)
                     else if id == r.dest && credits && !f.writeDest.Refused? then
                       a[id].(balance := Quantise(a[id].balance as real + r.amount), version := a[id].version + 1)
                     else a[id])
            && s'.outbox == s.outbox.(rows := if completes && !f.save.Refused? then
                                                s.outbox.rows + [Outbox.Row(Completed(r.transfer), false)]
                                              else s.outbox.rows)
            && s'.opening == s.opening
            && |s'.attempts| == |s.attempts| + 1 && s'.attempts[..|s.attempts|] == s.attempts
            && s'.attempts[|s.attempts|].request == r
            && s'.attempts[|s.attempts|].pc == L.Done(completes && f.save.Acked?)
  {
    Reads(s, r, f);
    var source, dest := Moved(Load(s.accounts[r.source]), -r.amount), Moved(Load(s.accounts[r.dest]), r.amount);
    Writes(s, r, source, dest, f);
  }

  /** The two writes, and the save that follows them. */
  lemma Writes(s: L.State, r: Request, source: Snapshot, dest: Snapshot, f: Replies)
    requires r.source in s.accounts && r.dest in s.accounts
    requires source == Moved(Load(s.accounts[r.source]), -r.amount) && dest == Moved(Load(s.accounts[r.dest]), r.amount)
    ensures var i, a := |s.attempts|, s.accounts;
            var t := L.Attempt(r, L.AtWriteSource(source, dest), []);
            var s' := Go(Go(Go(With(s, t), i, f), i, f), i, f);
            var credits := f.writeSource.Acked? && r.source != r.dest;
            var completes := credits && f.writeDest.Acked?;
            var debited := if f.writeSource.Refused? then a
                           else a[r.source := a[r.source].(balance := Quantise(a[r.source].balance as real - r.amount),
                                                           version := a[r.source].version + 1)];
            && s'.accounts == (if credits && !f.writeDest.Refused? then
                                 debited[r.dest := a[r.dest].(balance := Quantise(a[r.dest].balance as real + r.amount),
                                                              version := a[r.dest].version + 1)]
                               else debited)
            && s'.outbox == s.outbox.(rows := if completes && !f.save.Refused? then
                                                s.outbox.rows + [Outbox.Row(Completed(r.transfer), false)]
                                              else s.outbox.rows)
            && s'.opening == s.opening
            && |s'.attempts| == i + 1 && s'.attempts[..i] == s.attempts
            && s'.attempts[i].request == r && s'.attempts[i].pc == L.Done(completes && f.save.Acked?)
  {
    var i, t := |s.attempts|, L.Attempt(r, L.AtWriteSource(source, dest), []);
    var t' := L.Wrote(s.accounts, t, r.source, source, f.writeSource, L.DebitWritten, L.AtWriteDest(dest));
    var written := s.(accounts := Updated(s.accounts, r.source, source, f.writeSource));
    assert (s.attempts + [t])[i := t'] == s.attempts + [t'];
    assert Go(With(s, t), i, f) == With(written, t');
    if f.writeSource.Acked? {
      Credits(written, r, dest, t'.effects, f);
    } else {
      assert t'.pc == L.Done(false);
    }
  }

  /** The second write, and the save that follows it. */
  lemma Credits(s: L.State, r: Request, dest: Snapshot, effects: seq<L.Effect>, f: Replies)
    requires r.dest in s.accounts
    ensures var t := L.Attempt(r, L.AtWriteDest(dest), effects);
            var s' := Go(Go(With(s, t), |s.attempts|, f), |s.attempts|, f);
            var matches := s.accounts[r.dest].version == dest.version - 1;
            && s'.accounts == (if matches && !f.writeDest.Refused? then
                                 s.accounts[r.dest := s.accounts[r.dest].(balance := Quantise(dest.balance), version := dest.version)]
                               else s.accounts)
            && s'.outbox == s.outbox.(rows := if matches && f.writeDest.Acked? && !f.save.Refused? then
                                                s.outbox.rows + [Outbox.Row(Completed(r.transfer), false)]
                                              else s.outbox.rows)
            && s'.opening == s.opening
            && |s'.attempts| == |s.attempts| + 1 && s'.attempts[..|s.attempts|] == s.attempts
            && s'.attempts[|s.attempts|].request == r
            && s'.attempts[|s.attempts|].pc == L.Done(matches && f.writeDest.Acked? && f.save.Acked?)
  {
    var i, t := |s.attempts|, L.Attempt(r, L.AtWriteDest(dest), effects);
    var t' := L.Wrote(s.accounts, t, r.dest, dest, f.writeDest, L.CreditWritten, L.AtSave(Completed(r.transfer)));
    var written := s.(accounts := Updated(s.accounts, r.dest, dest, f.writeDest));
    assert (s.attempts + [t])[i := t'] == s.attempts + [t'];
    assert Go(With(s, t), i, f) == With(written, t');
    if t'.pc.AtSave? {
      Saves(written, r, Completed(r.transfer), t'.effects, f);
    }
  }
}
