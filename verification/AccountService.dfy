/** The account service as sequential code over its repositories, refining the ledger's steps. */
module AccountService {
  import opened Wrappers
  import opened Money
  import opened Events
  import opened AccountDomain
  import opened AccountTable
  import opened OutboxRelay
  import L = Ledger
  import Outbox

  /** How the database calls of one request end. */
  datatype Replies = Replies(readSource: Reply, readDest: Reply, writeSource: Reply, writeDest: Reply, save: Reply)

  function ReplyFor(pc: L.Pc, f: Replies): Reply {
    match pc
    case AtReadSource => f.readSource
    case AtReadDest(_) => f.readDest
    case AtWriteSource(_, _) => f.writeSource
    case AtWriteDest(_) => f.writeDest
    case AtSave(_) => f.save
    case Done(_) => Acked
  }

  function Go(s: L.State, i: nat, f: Replies): (s': L.State)
    requires i < |s.attempts|
    ensures |s'.attempts| == |s.attempts|
  {
    L.Next(s, L.Proceed(i, ReplyFor(s.attempts[i].pc, f)))
  }

  /** `s` with one more attempt. */
  function With(s: L.State, t: L.Attempt): L.State {
    s.(attempts := s.attempts + [t])
  }

  /** One request taken from beginning to end with nothing in between: at most five database calls. */
  function Process(s: L.State, request: Request, f: Replies): L.State {
    var i := |s.attempts|;
    Go(Go(Go(Go(Go(L.Next(s, L.Begin(request)), i, f), i, f), i, f), i, f), i, f)
  }

  function GoStep(s: L.State, i: nat, f: Replies): L.Step
    requires i < |s.attempts|
  {
    L.Proceed(i, ReplyFor(s.attempts[i].pc, f))
  }

  /** The steps that `calls` database calls of attempt `i` follow. */
  function GoSteps(s: L.State, i: nat, f: Replies, calls: nat): seq<L.Step>
    requires i < |s.attempts|
    decreases calls
  {
    if calls == 0 then [] else [GoStep(s, i, f)] + GoSteps(Go(s, i, f), i, f, calls - 1)
  }

  /** The steps that an uninterrupted request follows. */
  function ProcessSteps(s: L.State, request: Request, f: Replies): seq<L.Step> {
    [L.Begin(request)] + GoSteps(L.Next(s, L.Begin(request)), |s.attempts|, f, 5)
  }

  lemma {:induction false} RunFront(s: L.State, step: L.Step, steps: seq<L.Step>)
    ensures L.Run(s, [step] + steps) == L.Run(L.Next(s, step), steps)
  {
    var all := [step] + steps;
    if steps == [] {
      assert all[..0] == [];
      assert L.Run(s, all) == L.Next(L.Run(s, []), step);
    } else {
      assert all[..|all| - 1] == [step] + steps[..|steps| - 1];
      RunFront(s, step, steps[..|steps| - 1]);
    }
  }

  lemma GoIsRun(s: L.State, i: nat, f: Replies, calls: nat)
    requires i < |s.attempts| && calls > 0
    ensures L.Run(s, GoSteps(s, i, f, calls)) == L.Run(Go(s, i, f), GoSteps(Go(s, i, f), i, f, calls - 1))
  {
    RunFront(s, GoStep(s, i, f), GoSteps(Go(s, i, f), i, f, calls - 1));
  }

  /** A request handled without interruption is one run of the ledger, so every theorem about runs holds of it. */
  lemma ProcessIsRun(s: L.State, request: Request, f: Replies)
    ensures Process(s, request, f) == L.Run(s, ProcessSteps(s, request, f))
  {
    var i := |s.attempts|;
    var s1 := L.Next(s, L.Begin(request));
    var s2 := Go(s1, i, f);
    var s3 := Go(s2, i, f);
    var s4 := Go(s3, i, f);
    var s5 := Go(s4, i, f);
    RunFront(s, L.Begin(request), GoSteps(s1, i, f, 5));
    GoIsRun(s1, i, f, 5);
    GoIsRun(s2, i, f, 4);
    GoIsRun(s3, i, f, 3);
    GoIsRun(s4, i, f, 2);
    GoIsRun(s5, i, f, 1);
  }

  /** How many database calls can still follow. */
  function CallsLeft(pc: L.Pc): nat {
    match pc
    case AtReadSource => 5
    case AtReadDest(_) => 4
    case AtWriteSource(_, _) => 3
    case AtWriteDest(_) => 2
    case AtSave(_) => 1
    case Done(_) => 0
  }

  lemma Progress(s: L.State, i: nat, f: Replies)
    requires i < |s.attempts|
    ensures var was, now := CallsLeft(s.attempts[i].pc), CallsLeft(Go(s, i, f).attempts[i].pc);
            if was == 0 then now == 0 else now < was
  {
  }

  lemma DoneStays(s: L.State, i: nat, f: Replies)
    requires i < |s.attempts| && s.attempts[i].pc.Done?
    ensures Go(s, i, f) == s
  {
  }

  /** After the save nothing is left to do. */
  lemma SaveEnds(s: L.State, i: nat, f: Replies)
    requires i < |s.attempts| && s.attempts[i].pc.AtSave?
    ensures var s' := Go(s, i, f);
            && s'.attempts[i].pc == L.Done(f.save.Acked?)
            && s'.outbox == Outbox.Save(s.outbox, s.attempts[i].pc.event, f.save)
            && s'.accounts == s.accounts && s'.opening == s.opening
            && Go(s', i, f) == s'
  {
  }

  /** Five calls are enough, whatever fails: no handled request is left unfinished. */
  lemma ProcessFinishes(s: L.State, request: Request, f: Replies)
    ensures Process(s, request, f).attempts[|s.attempts|].pc.Done?
  {
    var i := |s.attempts|;
    var s1 := L.Next(s, L.Begin(request));
    var s2 := Go(s1, i, f);
    var s3 := Go(s2, i, f);
    var s4 := Go(s3, i, f);
    var s5 := Go(s4, i, f);
    Progress(s1, i, f);
    Progress(s2, i, f);
    Progress(s3, i, f);
    Progress(s4, i, f);
    Progress(s5, i, f);
  }

  class AccountService {
    const repo: AccountRepository
    const outbox: OutboxRepository<Outcome>
    /** Where the relay of this service publishes. */
    ghost const topic: Producer<Outcome>
    /** Every request handled so far, and every account as it was opened. */
    ghost var attempts: seq<L.Attempt>
    ghost var opening: Rows

    constructor (repo: AccountRepository, outbox: OutboxRepository<Outcome>, ghost topic: Producer<Outcome>)
      ensures this.repo == repo && this.outbox == outbox && this.topic == topic
      ensures attempts == [] && opening == repo.rows
    {
      this.repo := repo;
      this.outbox := outbox;
      this.topic := topic;
      this.attempts := [];
      this.opening := repo.rows;
    }

    ghost function View(): L.State
      reads this, repo, outbox, topic
    {
      L.State(repo.rows, opening, attempts, Outbox.State(outbox.rows, topic.log, []))
    }

    /** `id` is what uuid.New returns. */
    method CreateAccount(id: AccountId, currency: Currency, initial: real, reply: Reply) returns (r: Option<Account>)
      requires repo.rows.Keys == opening.Keys
      modifies this, repo
      ensures View() == L.Next(old(View()), L.Open(id, currency, initial, reply))
      ensures r.Some? <==> initial >= 0.0 && reply.Acked? && id !in old(repo.rows)
      ensures r.Some? ==> r.value.id == id && r.value.Value() == Snapshot(initial, currency, Active, 1)
      ensures repo.rows == if initial < 0.0 || reply.Refused? || id in old(repo.rows) then old(repo.rows)
                           else old(repo.rows)[id := Row(Quantise(initial), currency, Active, 1)]
    {
      var account := NewAccount(id, currency, initial);
      if account.None? {
        return None;
      }
      opening := Inserted(opening, id, Snapshot(initial, currency, Active, 1), reply);
      var error := repo.Create(account.value, reply);
      if error.Some? {
        return None;
      }
      return account;
    }

    method ProcessTransferRequested(event: Request, f: Replies) returns (ok: bool)
      modifies this, repo, outbox
      ensures View() == Process(old(View()), event, f)
      ensures ok <==> attempts[|old(attempts)|].pc == L.Done(true)
    {
      ghost var i := |attempts|;
      ghost var s := L.Next(View(), L.Begin(event));
      var source := repo.GetByID(event.source, f.readSource);
      s := Go(s, i, f);
      if source.Err? {
        ok := PublishFailure(event.transfer, SourceNotFound, f.save);
        SaveEnds(s, i, f);
        attempts := Go(s, i, f).attempts;
        return;
      }
      var dest := repo.GetByID(event.dest, f.readDest);
      s := Go(s, i, f);
      if dest.Err? {
        ok := PublishFailure(event.transfer, DestNotFound, f.save);
        SaveEnds(s, i, f);
        attempts := Go(s, i, f).attempts;
        return;
      }
      var debit := source.value.Debit(event.amount, event.currency);
      if debit != NoReason {
        ok := PublishFailure(event.transfer, debit, f.save);
        SaveEnds(s, i, f);
        attempts := Go(s, i, f).attempts;
        return;
      }
      var credit := dest.value.Credit(event.amount, event.currency);
      if credit != NoReason {
        ok := PublishFailure(event.transfer, credit, f.save);
        SaveEnds(s, i, f);
        attempts := Go(s, i, f).attempts;
        return;
      }
      assert s.attempts[i].pc == L.AtWriteSource(source.value.Value(), dest.value.Value());
      var error := repo.UpdateWithVersion(source.value, f.writeSource);
      s := Go(s, i, f);
      if error.Some? {
        attempts := s.attempts;
        DoneStays(s, i, f);
        return false;
      }
      error := repo.UpdateWithVersion(dest.value, f.writeDest);
      s := Go(s, i, f);
      if error.Some? {
        attempts := s.attempts;
        DoneStays(s, i, f);
        return false;
      }
      ok := outbox.SaveEvent(Completed(event.transfer), f.save);
      SaveEnds(s, i, f);
      attempts := Go(s, i, f).attempts;
    }

    method PublishFailure(transfer: TransferId, reason: Reason, reply: Reply) returns (ok: bool)
      modifies outbox
      ensures Outbox.State(outbox.rows, topic.log, [])
              == Outbox.Save(old(Outbox.State(outbox.rows, topic.log, [])), Failed(transfer, reason), reply)
      ensures ok <==> reply.Acked?
    {
      ok := outbox.SaveEvent(Failed(transfer, reason), reply);
    }
  }

  /** The consumer: a record that does not decode is dropped, and so is one whose handling fails. */
  class Consumer {
    const service: AccountService

    constructor (service: AccountService)
      ensures this.service == service
    {
      this.service := service;
    }

    method HandleRecord(record: Record<Request>, f: Replies)
      modifies service, service.repo, service.outbox
      ensures service.View() == if record.Malformed? then old(service.View()) else Process(old(service.View()), record.event, f)
    {
      match record
      case Malformed => return;
      case Decoded(event) =>
        var ok := service.ProcessTransferRequested(event, f);
    }
  }
}
