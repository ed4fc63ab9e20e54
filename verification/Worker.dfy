/** The worker's handlers as they run: ordered effects on the job table and the broker, with anything the rest of the
    system may do between any two of them. Each one is shown to add to a run of the protocol its own steps in the code's
    order of claim, run, mark, publish and commit, which carries the protocol's theorems over to the code. */
module Worker {
  import opened Common
  import opened Store
  import opened Queue
  import P = Protocol
  import L = Limits
  import D = Delivery
  import Optimizer

  /** How an operation on the store or the broker ends: well, or with an error seen although it may have been applied. */
  datatype Fate = Works | Breaks(applied: bool)

  /** What the world does to one delivery. */
  datatype Fates = Fates(claim: Fate, persist: bool, mark: Fate, retry: Fate, bury: Fate, commit: bool)

  /** The optimizer's answer for the job. */
  datatype Answer = Report(rep: Optimizer.Report) | Error(cause: string)

  /** What the store has answered on the way: the attempt number of the claim, and whether the job is to be retried. */
  datatype Seen = Seen(claimed: Option<nat>, willRetry: bool)

  predicate Sound(a: Answer) {
    a.Report? && a.rep.best.Some? ==> a.rep.best.value < |a.rep.outcomes|
  }

  // ------------------------------------------------------------ a handler's own steps, in their order

  function MarkActions(h: nat, cause: string, fate: Fate): seq<P.Action> {
    [P.Fail(h, cause), match fate case Works => P.Mark(h) case Breaks(applied) => P.MarkFails(h, applied)]
  }

  function PublishActions(h: nat, fate: Fate): seq<P.Action> {
    [match fate case Works => P.Publish(h) case Breaks(applied) => P.PublishFails(h, applied)]
  }

  /** After a failed run: mark; publish to the tier if there is one; and to the dead letters if there is none or that failed. */
  function RetryActions(h: nat, attempt: nat, cause: string, fates: Fates, willRetry: bool): seq<P.Action> {
    MarkActions(h, cause, fates.mark) + AfterMarkActions(h, attempt, fates, willRetry)
  }

  function AfterMarkActions(h: nat, attempt: nat, fates: Fates, willRetry: bool): seq<P.Action> {
    if willRetry && RetryTopic(attempt).Some?
    then PublishActions(h, fates.retry) + if fates.retry.Works? then [] else PublishActions(h, fates.bury)
    else PublishActions(h, fates.bury)
  }

  function PersistActions(h: nat, rep: Optimizer.Report, persist: bool): seq<P.Action>
    requires rep.best.Some? ==> rep.best.value < |rep.outcomes|
  {
    [P.Succeed(h, Optimizer.Stored(rep)), if persist then P.Complete(h) else P.CompleteFails(h)]
  }

  /** `passed` are the earlier records of the partition that the commit covers. */
  function CommitActions(h: nat, works: bool, passed: set<nat>): seq<P.Action> {
    [if works then P.Commit(h, passed) else P.CommitFails(h)]
  }

  /** A retry record is committed only once it has been published to the main topic. */
  function RepublishActions(h: nat, fate: Fate, commit: bool, passed: set<nat>): seq<P.Action> {
    match fate
    case Breaks(applied) => [P.RepublishFails(h, applied)]
    case Works => [P.Republish(h)] + CommitActions(h, commit, passed)
  }

  function ClaimActions(h: nat, fate: Fate): seq<P.Action> {
    [match fate case Works => P.Claim(h) case Breaks(applied) => P.ClaimFails(h, applied)]
  }

  function OutcomeActions(h: nat, attempt: nat, answer: Answer, fates: Fates, willRetry: bool): seq<P.Action>
    requires Sound(answer)
  {
    match answer
    case Report(rep) => PersistActions(h, rep, fates.persist)
    case Error(cause) => RetryActions(h, attempt, cause, fates, willRetry)
  }

  /** One delivery: nothing after a failed or lost claim; otherwise the run and its outcome. */
  function HandleActions(h: nat, seen: Seen, answer: Answer, fates: Fates): seq<P.Action>
    requires Sound(answer)
  {
    ClaimActions(h, fates.claim) +
    if seen.claimed.None? then [] else OutcomeActions(h, seen.claimed.value, answer, fates, seen.willRetry)
  }

  // ------------------------------------------------------------ a handler's own steps in a run

  /** The steps of one handler in a run of all. */
  function Own(run: seq<P.Action>, h: nat): seq<P.Action> {
    if run == [] then [] else (if D.By(run[0], h) then [run[0]] else []) + Own(run[1..], h)
  }

  lemma {:induction false} OwnConcat(run: seq<P.Action>, more: seq<P.Action>, h: nat)
    ensures Own(run + more, h) == Own(run, h) + Own(more, h)
  {
    if run == [] {
      assert run + more == more;
    } else {
      assert (run + more)[1..] == run[1..] + more;
      OwnConcat(run[1..], more, h);
    }
  }

  lemma OwnOne(a: P.Action, h: nat)
    ensures Own([a], h) == if D.By(a, h) then [a] else []
  {
    assert [a][1..] == [];
  }

  lemma OtherStep(cfg: P.Config, s: P.State, a: P.Action, h: nat)
    requires P.Enabled(s, a) && !D.By(a, h)
    ensures h in P.Next(cfg, s, a).handlers <==> h in s.handlers
    ensures h in s.handlers ==> P.Next(cfg, s, a).handlers[h] == s.handlers[h]
    ensures s.now <= P.Next(cfg, s, a).now
  {
  }

  /** Whatever the others do, a handler stays where it stands, and time does not run back. */
  lemma {:induction false} OthersLeaveAlone(cfg: P.Config, s: P.State, run: seq<P.Action>, h: nat)
    requires P.Run(cfg, s, run) && Own(run, h) == []
    ensures var t := P.Exec(cfg, s, run);
            (h in t.handlers <==> h in s.handlers) && (h in s.handlers ==> t.handlers[h] == s.handlers[h]) && s.now <= t.now
    decreases run
  {
    if run != [] {
      OtherStep(cfg, s, run[0], h);
      OthersLeaveAlone(cfg, P.Next(cfg, s, run[0]), run[1..], h);
    }
  }

  /** One run after the other, with the handler's own steps of both. */
  lemma Chain(cfg: P.Config, h: nat, s: P.State, run: seq<P.Action>, t: P.State, more: seq<P.Action>, u: P.State)
    requires L.Reaches(cfg, L.Any, s, run, t) && L.Reaches(cfg, L.Any, t, more, u)
    ensures L.Reaches(cfg, L.Any, s, run + more, u) && Own(run + more, h) == Own(run, h) + Own(more, h)
  {
    L.Join(cfg, L.Any, s, run, t, more, u);
    OwnConcat(run, more, h);
  }

  /** One step of the handler's own. */
  lemma Single(cfg: P.Config, h: nat, s: P.State, a: P.Action)
    requires P.Enabled(s, a) && D.By(a, h)
    ensures L.Reaches(cfg, L.Any, s, [a], P.Next(cfg, s, a)) && Own([a], h) == [a]
  {
    L.Once(cfg, L.Any, s, a);
    OwnOne(a, h);
  }

  // ------------------------------------------------------------ the states after a step

  function Marked(rows: map<JobId, Row>, j: JobId, cause: string, now: int): map<JobId, Row> {
    if j in rows then rows[j := MarkedFailed(rows[j], cause, now)] else rows
  }

  /** Where a publish leaves the handler: a failed one to a tier is followed by one to the dead letters. */
  function AfterPublish(offset: nat, topic: Topic, next: Message, fate: Fate): P.Handler {
    if fate.Works? || topic.DeadLetter? then P.Committing(offset) else P.Publishing(offset, DeadLetter, P.Waited(next))
  }

  /** MarkFailure's answer for a row, as the handler sees it. */
  predicate WillRetry(rows: map<JobId, Row>, j: JobId, fate: Fate) {
    fate.Works? && j in rows && rows[j].attempts < rows[j].maxAttempts
  }

  /** The states after a mark, seen to work or seen to fail. */
  lemma AfterMark(cfg: P.Config, s: P.State, h: nat, f: P.Handler)
    requires f.Failing? && h in s.handlers && s.handlers[h] == f
    ensures var rows := Marked(s.rows, f.msg.job, f.cause, s.now);
            && P.Next(cfg, s, P.Mark(h)) ==
               s.(rows := rows, handlers := s.handlers[h := P.Rescheduled(f, WillRetry(s.rows, f.msg.job, Works), s.now)])
            && P.Next(cfg, s, P.MarkFails(h, true)) == s.(rows := rows, handlers := s.handlers[h := P.Rescheduled(f, false, s.now)])
            && P.Next(cfg, s, P.MarkFails(h, false)) == s.(handlers := s.handlers[h := P.Rescheduled(f, false, s.now)])
  {
  }

  /** The states after a claim, seen to work or seen to fail. */
  lemma AfterClaim(cfg: P.Config, s: P.State, h: nat, offset: nat, msg: Message)
    requires h in s.handlers && s.handlers[h] == P.Fetched(offset, msg)
    ensures P.Next(cfg, s, P.ClaimFails(h, false)) == s.(handlers := s.handlers[h := P.Committing(offset)])
    ensures if P.Claimable(s, msg.job) then
              var row := Claimed(s.rows[msg.job], s.now);
              var rows := s.rows[msg.job := row];
              && P.Next(cfg, s, P.Claim(h)) == s.(rows := rows, handlers := s.handlers[h := P.Working(offset, msg, row.attempts, s.now)])
              && P.Next(cfg, s, P.ClaimFails(h, true)) == s.(rows := rows, handlers := s.handlers[h := P.Committing(offset)])
            else
              && P.Next(cfg, s, P.Claim(h)) == s.(handlers := s.handlers[h := P.Committing(offset)])
              && P.Next(cfg, s, P.ClaimFails(h, true)) == s.(handlers := s.handlers[h := P.Committing(offset)])
  {
  }

  class Handlers {
    const table: JobTable
    const broker: Broker
    const cfg: P.Config

    constructor (table: JobTable, broker: Broker, cfg: P.Config)
      ensures this.table == table && this.broker == broker && this.cfg == cfg
    {
      this.table, this.broker, this.cfg := table, broker, cfg;
    }

    /** The protocol state, given the handlers in flight and the clock. */
    ghost function Snapshot(hs: map<nat, P.Handler>, now: int): P.State
      reads this, table, broker
    {
      P.State(table.rows, broker.log, broker.nextOffset, hs, now)
    }

    /** Between two of a handler's own steps the rest of the system takes any steps whatever: other handlers, crashes among
        them, the sweep and the clock. Callers know no more than this contract says; the body picks the least of it. */
    method Pause(now: int, ghost h: nat, ghost hs: map<nat, P.Handler>) returns (later: int, ghost run: seq<P.Action>, ghost hs': map<nat, P.Handler>)
      requires table.Valid()
      modifies table, broker
      ensures table.Valid() && Own(run, h) == []
      ensures L.Reaches(cfg, L.Any, old(Snapshot(hs, now)), run, Snapshot(hs', later))
      ensures now <= later && (h in hs' <==> h in hs) && (h in hs ==> hs'[h] == hs[h])
    {
      later, run, hs' := now, [], hs;
    }

    /** What happens to one record: claim, run the optimizer, write the outcome; the commit is left to the consumer. */
    method Handle(offset: nat, msg: Message, answer: Answer, fates: Fates, now: int, ghost h: nat, ghost hs: map<nat, P.Handler>)
      returns (later: int, ghost seen: Seen, ghost run: seq<P.Action>, ghost hs': map<nat, P.Handler>)
      requires table.Valid() && Sound(answer) && h in hs && hs[h] == P.Fetched(offset, msg)
      modifies table, broker
      ensures table.Valid() && now <= later && h in hs' && hs'[h] == P.Committing(offset)
      ensures Own(run, h) == HandleActions(h, seen, answer, fates) && (seen.claimed.Some? ==> fates.claim.Works?)
      ensures L.Reaches(cfg, L.Any, old(Snapshot(hs, now)), run, Snapshot(hs', later))
    {
      ghost var start := Snapshot(hs, now);
      var claimed;
      claimed, later, run, hs' := PausedClaim(offset, msg, fates.claim, now, h, hs);
      seen := Seen(claimed, false);
      if claimed.None? {
        return;
      }
      ghost var s, more, willRetry := Snapshot(hs', later), [], false;
      later, willRetry, more, hs' := RunAndRecord(offset, msg, claimed.value, answer, fates, later, h, hs');
      Chain(cfg, h, start, run, s, more, Snapshot(hs', later));
      run, seen := run + more, Seen(claimed, willRetry);
    }

    method PausedClaim(offset: nat, msg: Message, fate: Fate, now: int, ghost h: nat, ghost hs: map<nat, P.Handler>)
      returns (attempt: Option<nat>, later: int, ghost run: seq<P.Action>, ghost hs': map<nat, P.Handler>)
      requires table.Valid() && h in hs && hs[h] == P.Fetched(offset, msg)
      modifies table, broker
      ensures table.Valid() && now <= later && Own(run, h) == ClaimActions(h, fate) && (attempt.Some? ==> fate.Works?)
      ensures h in hs' && hs'[h] == if attempt.Some? then P.Working(offset, msg, attempt.value, later) else P.Committing(offset)
      ensures L.Reaches(cfg, L.Any, old(Snapshot(hs, now)), run, Snapshot(hs', later))
    {
      ghost var start := Snapshot(hs, now);
      later, run, hs' := Pause(now, h, hs);
      ghost var s, more := Snapshot(hs', later), [];
      attempt, more, hs' := ClaimStep(offset, msg, fate, later, h, hs');
      Chain(cfg, h, start, run, s, more, Snapshot(hs', later));
      run := run + more;
    }

    /** The claim: an attempt number, or nothing when it failed or the job was not there to be taken. */
    method ClaimStep(offset: nat, msg: Message, fate: Fate, now: int, ghost h: nat, ghost hs: map<nat, P.Handler>)
      returns (attempt: Option<nat>, ghost run: seq<P.Action>, ghost hs': map<nat, P.Handler>)
      requires table.Valid() && h in hs && hs[h] == P.Fetched(offset, msg)
      modifies table
      ensures table.Valid() && run == Own(run, h) == ClaimActions(h, fate)
      ensures attempt.Some? <==> fate.Works? && msg.job in old(table.rows) && old(table.rows)[msg.job].status.Waiting()
      ensures attempt.Some? ==> attempt.value == old(table.rows)[msg.job].attempts + 1
      ensures attempt.Some? ==> table.rows == old(table.rows)[msg.job := Claimed(old(table.rows)[msg.job], now)]
      ensures hs' == hs[h := if attempt.Some? then P.Working(offset, msg, attempt.value, now) else P.Committing(offset)]
      ensures L.Reaches(cfg, L.Any, old(Snapshot(hs, now)), run, Snapshot(hs', now))
    {
      ghost var start := Snapshot(hs, now);
      attempt, run := None, ClaimActions(h, fate);
      AfterClaim(cfg, start, h, offset, msg);
      match fate {
        case Breaks(applied) =>
          if applied {
            var _ := table.ClaimJob(msg.job, now);
          }
          Single(cfg, h, start, P.ClaimFails(h, applied));
        case Works =>
          var claimed := table.ClaimJob(msg.job, now);
          Single(cfg, h, start, P.Claim(h));
          if claimed.Ok? {
            attempt := Some(claimed.value.attempts);
          }
      }
      hs' := hs[h := if attempt.Some? then P.Working(offset, msg, attempt.value, now) else P.Committing(offset)];
    }

    /** The optimisation itself, and what is made of its answer. */
    method RunAndRecord(offset: nat, msg: Message, attempt: nat, answer: Answer, fates: Fates, now: int,
                        ghost h: nat, ghost hs: map<nat, P.Handler>)
      returns (later: int, ghost willRetry: bool, ghost run: seq<P.Action>, ghost hs': map<nat, P.Handler>)
      requires table.Valid() && Sound(answer) && h in hs
      requires hs[h].Working? && hs[h].offset == offset && hs[h].msg == msg && hs[h].attempt == attempt
      modifies table, broker
      ensures table.Valid() && now <= later && h in hs' && hs'[h] == P.Committing(offset)
      ensures Own(run, h) == OutcomeActions(h, attempt, answer, fates, willRetry)
      ensures L.Reaches(cfg, L.Any, old(Snapshot(hs, now)), run, Snapshot(hs', later))
    {
      ghost var start := Snapshot(hs, now);
      later, run, hs' := Pause(now, h, hs);
      ghost var s := Snapshot(hs', later);
      ghost var more;
      willRetry := false;
      match answer {
        case Report(rep) =>
          later, more, hs' := Persist(offset, msg, rep, fates, later, h, hs');
        case Error(cause) =>
          later, willRetry, more, hs' := ScheduleRetry(offset, msg, attempt, cause, fates, later, h, hs');
      }
      Chain(cfg, h, start, run, s, more, Snapshot(hs', later));
      run := run + more;
    }

    /** The end of a successful optimisation. A failure to persist is logged and the record committed all the same. */
    method Persist(offset: nat, msg: Message, rep: Optimizer.Report, fates: Fates, now: int, ghost h: nat, ghost hs: map<nat, P.Handler>)
      returns (later: int, ghost run: seq<P.Action>, ghost hs': map<nat, P.Handler>)
      requires table.Valid() && (rep.best.Some? ==> rep.best.value < |rep.outcomes|)
      requires h in hs && hs[h].Working? && hs[h].offset == offset && hs[h].msg == msg
      modifies table, broker
      ensures table.Valid() && now <= later && h in hs' && hs'[h] == P.Committing(offset)
      ensures Own(run, h) == PersistActions(h, rep, fates.persist)
      ensures L.Reaches(cfg, L.Any, old(Snapshot(hs, now)), run, Snapshot(hs', later))
    {
      ghost var start := Snapshot(hs, now);
      var report := Optimizer.Stored(rep);
      Single(cfg, h, start, P.Succeed(h, report));
      run, hs' := [P.Succeed(h, report)], hs[h := P.Finishing(offset, msg, hs[h].attempt, hs[h].since, report)];
      ghost var s := Snapshot(hs', now);
      ghost var more;
      later, more, hs' := Pause(now, h, hs');
      Chain(cfg, h, start, run, s, more, Snapshot(hs', later));
      run, s := run + more, Snapshot(hs', later);
      more, hs' := CompleteStep(offset, msg, report, fates.persist, later, h, hs');
      Chain(cfg, h, start, run, s, more, Snapshot(hs', later));
      run := run + more;
    }

    method CompleteStep(offset: nat, msg: Message, report: Store.Report, works: bool, now: int, ghost h: nat, ghost hs: map<nat, P.Handler>)
      returns (ghost run: seq<P.Action>, ghost hs': map<nat, P.Handler>)
      requires table.Valid() && h in hs
      requires hs[h].Finishing? && hs[h].offset == offset && hs[h].msg == msg && hs[h].report == report
      modifies table
      ensures table.Valid() && run == Own(run, h) == [if works then P.Complete(h) else P.CompleteFails(h)]
      ensures hs' == hs[h := P.Committing(offset)]
      ensures L.Reaches(cfg, L.Any, old(Snapshot(hs, now)), run, Snapshot(hs', now))
    {
      ghost var start := Snapshot(hs, now);
      hs' := hs[h := P.Committing(offset)];
      if works {
        table.CompleteJob(msg.job, report, now);
        Single(cfg, h, start, P.Complete(h));
        run := [P.Complete(h)];
      } else {
        Single(cfg, h, start, P.CompleteFails(h));
        run := [P.CompleteFails(h)];
      }
    }

    /** The end of a failed optimisation: mark the row, then publish to the retry tier or to the dead letters. */
    method ScheduleRetry(offset: nat, msg: Message, attempt: nat, cause: string, fates: Fates, now: int,
                         ghost h: nat, ghost hs: map<nat, P.Handler>)
      returns (later: int, ghost retried: bool, ghost run: seq<P.Action>, ghost hs': map<nat, P.Handler>)
      requires table.Valid() && h in hs
      requires hs[h].Working? && hs[h].offset == offset && hs[h].msg == msg && hs[h].attempt == attempt
      modifies table, broker
      ensures table.Valid() && now <= later && h in hs' && hs'[h] == P.Committing(offset)
      ensures Own(run, h) == RetryActions(h, attempt, cause, fates, retried)
      ensures L.Reaches(cfg, L.Any, old(Snapshot(hs, now)), run, Snapshot(hs', later))
    {
      ghost var start := Snapshot(hs, now);
      ghost var failing := P.Failing(offset, msg, attempt, hs[h].since, cause);
      later, run, hs' := FailStep(offset, msg, attempt, cause, now, failing, h, hs);
      ghost var s := Snapshot(hs', later);
      ghost var more;
      var willRetry;
      willRetry, more, hs' := MarkStep(offset, msg, attempt, cause, fates.mark, later, h, hs');
      Chain(cfg, h, start, run, s, more, Snapshot(hs', later));
      run, s, retried := run + more, Snapshot(hs', later), willRetry;
      later, more, hs' := PublishOutcome(offset, msg, attempt, cause, willRetry, fates, later, failing, h, hs');
      Chain(cfg, h, start, run, s, more, Snapshot(hs', later));
      run := run + more;
    }

    /** The optimizer's error comes back. */
    method FailStep(offset: nat, msg: Message, attempt: nat, cause: string, now: int, ghost failing: P.Handler,
                    ghost h: nat, ghost hs: map<nat, P.Handler>)
      returns (later: int, ghost run: seq<P.Action>, ghost hs': map<nat, P.Handler>)
      requires table.Valid() && h in hs && hs[h].Working? && hs[h].offset == offset && hs[h].msg == msg && hs[h].attempt == attempt
      requires failing == P.Failing(offset, msg, attempt, hs[h].since, cause)
      modifies table, broker
      ensures table.Valid() && now <= later && h in hs' && hs'[h] == failing && Own(run, h) == [P.Fail(h, cause)]
      ensures L.Reaches(cfg, L.Any, old(Snapshot(hs, now)), run, Snapshot(hs', later))
    {
      ghost var start := Snapshot(hs, now);
      Single(cfg, h, start, P.Fail(h, cause));
      run, hs' := [P.Fail(h, cause)], hs[h := failing];
      ghost var s := Snapshot(hs', now);
      ghost var more;
      later, more, hs' := Pause(now, h, hs');
      Chain(cfg, h, start, run, s, more, Snapshot(hs', later));
      run := run + more;
    }

    method MarkStep(offset: nat, msg: Message, attempt: nat, cause: string, fate: Fate, now: int, ghost h: nat, ghost hs: map<nat, P.Handler>)
      returns (willRetry: bool, ghost run: seq<P.Action>, ghost hs': map<nat, P.Handler>)
      requires table.Valid() && h in hs && hs[h].Failing?
      requires hs[h].offset == offset && hs[h].msg == msg && hs[h].attempt == attempt && hs[h].cause == cause
      modifies table
      ensures table.Valid() && willRetry == WillRetry(old(table.rows), msg.job, fate)
      ensures run == Own(run, h) == [match fate case Works => P.Mark(h) case Breaks(applied) => P.MarkFails(h, applied)]
      ensures hs' == hs[h := P.Rescheduled(hs[h], willRetry, now)]
      ensures L.Reaches(cfg, L.Any, old(Snapshot(hs, now)), run, Snapshot(hs', now))
    {
      ghost var start := Snapshot(hs, now);
      willRetry := false;
      AfterMark(cfg, start, h, hs[h]);
      match fate {
        case Works =>
          var r := table.MarkFailure(msg.job, cause, now);
          willRetry := r.Ok? && r.value;
          Single(cfg, h, start, P.Mark(h));
          run := [P.Mark(h)];
        case Breaks(applied) =>
          if applied {
            var _ := table.MarkFailure(msg.job, cause, now);
          }
          Single(cfg, h, start, P.MarkFails(h, applied));
          run := [P.MarkFails(h, applied)];
      }
      hs' := hs[h := P.Rescheduled(hs[h], willRetry, now)];
    }

    /** The publishing half: the tier first, if the job is retried and the ladder reaches that far. */
    method PublishOutcome(offset: nat, msg: Message, attempt: nat, cause: string, willRetry: bool, fates: Fates, now: int,
                          ghost failing: P.Handler, ghost h: nat, ghost hs: map<nat, P.Handler>)
      returns (later: int, ghost run: seq<P.Action>, ghost hs': map<nat, P.Handler>)
      requires table.Valid() && failing.Failing?
      requires failing.offset == offset && failing.msg == msg && failing.attempt == attempt && failing.cause == cause
      requires h in hs && hs[h] == P.Rescheduled(failing, willRetry, now)
      modifies table, broker
      ensures table.Valid() && now <= later && h in hs' && hs'[h] == P.Committing(offset)
      ensures Own(run, h) == AfterMarkActions(h, attempt, fates, willRetry)
      ensures L.Reaches(cfg, L.Any, old(Snapshot(hs, now)), run, Snapshot(hs', later))
    {
      ghost var start := Snapshot(hs, now);
      var next := msg.(attempt := attempt + 1, lastError := cause);
      ghost var s, more;
      later, run, hs', s := now, [], hs, start;
      if willRetry {
        var tier := RetryTopic(attempt);
        if tier.Some? {
          next := next.(notBefore := Some(now + tier.value.1));
          later, run, hs' := PausedPublish(offset, tier.value.0, next, fates.retry, now, h, hs);
          if fates.retry.Works? {
            return;
          }
          s := Snapshot(hs', later);
        }
      }
      next := next.(notBefore := None);
      later, more, hs' := PausedPublish(offset, DeadLetter, next, fates.bury, later, h, hs');
      Chain(cfg, h, start, run, s, more, Snapshot(hs', later));
      run := run + more;
    }

    method PausedPublish(offset: nat, topic: Topic, next: Message, fate: Fate, now: int, ghost h: nat, ghost hs: map<nat, P.Handler>)
      returns (later: int, ghost run: seq<P.Action>, ghost hs': map<nat, P.Handler>)
      requires table.Valid() && h in hs && hs[h] == P.Publishing(offset, topic, next)
      modifies table, broker
      ensures table.Valid() && now <= later && Own(run, h) == PublishActions(h, fate)
      ensures h in hs' && hs'[h] == AfterPublish(offset, topic, next, fate)
      ensures L.Reaches(cfg, L.Any, old(Snapshot(hs, now)), run, Snapshot(hs', later))
    {
      ghost var start := Snapshot(hs, now);
      later, run, hs' := Pause(now, h, hs);
      ghost var s := Snapshot(hs', later);
      ghost var more;
      more, hs' := PublishStep(offset, topic, next, fate, later, h, hs');
      Chain(cfg, h, start, run, s, more, Snapshot(hs', later));
      run := run + more;
    }

    method PublishStep(offset: nat, topic: Topic, next: Message, fate: Fate, ghost now: int, ghost h: nat, ghost hs: map<nat, P.Handler>)
      returns (ghost run: seq<P.Action>, ghost hs': map<nat, P.Handler>)
      requires h in hs && hs[h] == P.Publishing(offset, topic, next)
      modifies broker
      ensures run == Own(run, h) == PublishActions(h, fate)
      ensures hs' == hs[h := AfterPublish(offset, topic, next, fate)]
      ensures L.Reaches(cfg, L.Any, old(Snapshot(hs, now)), run, Snapshot(hs', now))
    {
      ghost var start := Snapshot(hs, now);
      run := PublishActions(h, fate);
      match fate {
        case Works =>
          broker.Publish(topic, next);
          Single(cfg, h, start, P.Publish(h));
        case Breaks(applied) =>
          if applied {
            broker.Publish(topic, next);
          }
          Single(cfg, h, start, P.PublishFails(h, applied));
      }
      hs' := hs[h := AfterPublish(offset, topic, next, fate)];
    }

    /** One turn of the main consumer's loop: fetch, handle, commit. */
    method ConsumeMain(offset: nat, answer: Answer, fates: Fates, now: int, ghost h: nat, ghost hs: map<nat, P.Handler>)
      returns (later: int, ghost seen: Seen, ghost passed: set<nat>, ghost run: seq<P.Action>, ghost hs': map<nat, P.Handler>)
      requires table.Valid() && Sound(answer) && h !in hs
      requires offset in broker.log && broker.log[offset].topic.Main?
      modifies table, broker
      ensures table.Valid() && now <= later && h !in hs'
      ensures Own(run, h) == [P.FetchMain(h, offset)] + HandleActions(h, seen, answer, fates) + CommitActions(h, fates.commit, passed)
      ensures L.Reaches(cfg, L.Any, old(Snapshot(hs, now)), run, Snapshot(hs', later))
    {
      ghost var start := Snapshot(hs, now);
      var msg := broker.log[offset].msg;
      Single(cfg, h, start, P.FetchMain(h, offset));
      run, hs' := [P.FetchMain(h, offset)], hs[h := P.Fetched(offset, msg)];
      ghost var s := Snapshot(hs', now);
      ghost var more;
      later, seen, more, hs' := Handle(offset, msg, answer, fates, now, h, hs');
      Chain(cfg, h, start, run, s, more, Snapshot(hs', later));
      run, s := run + more, Snapshot(hs', later);
      later, passed, more, hs' := PausedCommit(offset, Main, msg.job, fates.commit, later, h, hs');
      Chain(cfg, h, start, run, s, more, Snapshot(hs', later));
      run := run + more;
    }

    /** One turn of a retry tier's loop: wait until the record is due, publish it to the main topic, commit. */
    method ConsumeRetry(offset: nat, fate: Fate, commit: bool, now: int, ghost h: nat, ghost hs: map<nat, P.Handler>)
      returns (later: int, ghost passed: set<nat>, ghost run: seq<P.Action>, ghost hs': map<nat, P.Handler>)
      requires table.Valid() && h !in hs && offset in broker.log && broker.log[offset].topic.Retry?
      modifies table, broker
      ensures table.Valid() && now <= later && P.Due(old(broker.log)[offset].msg, later) && h !in hs'
      ensures Own(run, h) == [P.FetchRetry(h, offset)] + RepublishActions(h, fate, commit, passed)
      ensures L.Reaches(cfg, L.Any, old(Snapshot(hs, now)), run, Snapshot(hs', later))
    {
      ghost var start := Snapshot(hs, now);
      var msg, topic := broker.log[offset].msg, broker.log[offset].topic;
      Single(cfg, h, start, P.FetchRetry(h, offset));
      run, hs' := [P.FetchRetry(h, offset)], hs[h := P.Delaying(offset, msg)];
      ghost var s := Snapshot(hs', now);
      ghost var more;
      later, more, hs' := Wait(msg, now, h, hs');
      Chain(cfg, h, start, run, s, more, Snapshot(hs', later));
      run, s := run + more, Snapshot(hs', later);
      later, passed, more, hs' := RepublishStep(offset, topic, msg, fate, commit, later, h, hs');
      Chain(cfg, h, start, run, s, more, Snapshot(hs', later));
      run := run + more;
    }

    /** Sleeping until a record is due, while the others go on. */
    method Wait(msg: Message, now: int, ghost h: nat, ghost hs: map<nat, P.Handler>)
      returns (later: int, ghost run: seq<P.Action>, ghost hs': map<nat, P.Handler>)
      requires table.Valid() && h in hs
      modifies table, broker
      ensures table.Valid() && now <= later && P.Due(msg, later) && Own(run, h) == [] && h in hs' && hs'[h] == hs[h]
      ensures L.Reaches(cfg, L.Any, old(Snapshot(hs, now)), run, Snapshot(hs', later))
    {
      ghost var start := Snapshot(hs, now);
      later, run, hs' := Pause(now, h, hs);
      ghost var s := Snapshot(hs', later);
      if msg.notBefore.Some? && msg.notBefore.value > later {
        later := msg.notBefore.value;
        L.Once(cfg, L.Any, s, P.Tick(later));
        OwnOne(P.Tick(later), h);
        Chain(cfg, h, start, run, s, [P.Tick(later)], Snapshot(hs', later));
        run := run + [P.Tick(later)];
      }
    }

    method RepublishStep(offset: nat, topic: Topic, msg: Message, fate: Fate, commit: bool, now: int,
                         ghost h: nat, ghost hs: map<nat, P.Handler>)
      returns (later: int, ghost passed: set<nat>, ghost run: seq<P.Action>, ghost hs': map<nat, P.Handler>)
      requires table.Valid() && h in hs && hs[h] == P.Delaying(offset, msg) && P.Due(msg, now) && !topic.DeadLetter?
      modifies table, broker
      ensures table.Valid() && now <= later && h !in hs' && Own(run, h) == RepublishActions(h, fate, commit, passed)
      ensures L.Reaches(cfg, L.Any, old(Snapshot(hs, now)), run, Snapshot(hs', later))
    {
      ghost var start := Snapshot(hs, now);
      var req := msg.(notBefore := None);
      later, passed := now, {};
      match fate {
        case Breaks(applied) =>
          if applied {
            broker.Publish(Main, req);
          }
          Single(cfg, h, start, P.RepublishFails(h, applied));
          run, hs' := [P.RepublishFails(h, applied)], hs - {h};
        case Works =>
          broker.Publish(Main, req);
          Single(cfg, h, start, P.Republish(h));
          run, hs' := [P.Republish(h)], hs[h := P.Committing(offset)];
          ghost var s := Snapshot(hs', now);
          ghost var more;
          later, passed, more, hs' := PausedCommit(offset, topic, msg.job, commit, now, h, hs');
          Chain(cfg, h, start, run, s, more, Snapshot(hs', later));
          run := run + more;
      }
    }

    method PausedCommit(offset: nat, topic: Topic, job: JobId, works: bool, now: int, ghost h: nat, ghost hs: map<nat, P.Handler>)
      returns (later: int, ghost passed: set<nat>, ghost run: seq<P.Action>, ghost hs': map<nat, P.Handler>)
      requires table.Valid() && h in hs && hs[h] == P.Committing(offset) && !topic.DeadLetter?
      modifies table, broker
      ensures table.Valid() && now <= later && h !in hs' && Own(run, h) == CommitActions(h, works, passed)
      ensures L.Reaches(cfg, L.Any, old(Snapshot(hs, now)), run, Snapshot(hs', later))
    {
      ghost var start := Snapshot(hs, now);
      later, run, hs' := Pause(now, h, hs);
      ghost var s := Snapshot(hs', later);
      passed := broker.Passed(topic, job, offset);
      ghost var a := if works then P.Commit(h, passed) else P.CommitFails(h);
      if works {
        broker.Commit(topic, job, offset);
      }
      Single(cfg, h, s, a);
      hs' := hs' - {h};
      Chain(cfg, h, start, run, s, [a], Snapshot(hs', later));
      run := run + [a];
    }

    /** One sweep of the reclaimer. */
    method Sweep(now: int, ghost hs: map<nat, P.Handler>) returns (count: nat, ghost run: seq<P.Action>)
      requires table.Valid()
      modifies table
      ensures table.Valid()
      ensures run == [P.Reclaim] && L.Reaches(cfg, L.Any, old(Snapshot(hs, now)), run, Snapshot(hs, now))
      ensures count == |set j | j in old(table.rows) && Stale(old(table.rows)[j], now, Lease(cfg.jobTimeout))|
    {
      ghost var start := Snapshot(hs, now);
      count := table.ReclaimStale(now, Lease(cfg.jobTimeout));
      L.Once(cfg, L.Any, start, P.Reclaim);
      run := [P.Reclaim];
    }

    function AnnounceActions(h: nat, fate: Fate): seq<P.Action> {
      [match fate case Works => P.Announce(h) case Breaks(applied) => P.AnnounceFails(h, applied)]
    }

    /** The API's side: record the job, then publish it, unless its key has been seen before. */
    method CreateOptimization(id: JobId, key: string, sql: string, maxAttempts: int, fate: Fate, now: int,
                              ghost h: nat, ghost hs: map<nat, P.Handler>)
      returns (later: int, job: JobId, created: bool, ghost run: seq<P.Action>, ghost hs': map<nat, P.Handler>)
      requires table.Valid() && id !in table.rows && h !in hs
      modifies table, broker
      ensures table.Valid() && now <= later && h !in hs'
      ensures created <==> forall j :: j in old(table.rows) ==> old(table.rows)[j].key != key
      ensures if created then job == id else job in old(table.rows) && old(table.rows)[job].key == key
      ensures Own(run, h) == if !created then [] else [P.Create(h, id, key, sql, maxAttempts)] + AnnounceActions(h, fate)
      ensures L.Reaches(cfg, L.Any, old(Snapshot(hs, now)), run, Snapshot(hs', later))
    {
      ghost var start := Snapshot(hs, now);
      later, run, hs' := now, [], hs;
      job, created := table.CreateJob(id, key, sql, maxAttempts);
      if created {
        Single(cfg, h, start, P.Create(h, id, key, sql, maxAttempts));
        run, hs' := [P.Create(h, id, key, sql, maxAttempts)], hs[h := P.Creating(id)];
        ghost var s := Snapshot(hs', now);
        ghost var more;
        later, more, hs' := Pause(now, h, hs');
        Chain(cfg, h, start, run, s, more, Snapshot(hs', later));
        run, s := run + more, Snapshot(hs', later);
        more, hs' := AnnounceStep(id, fate, later, h, hs');
        Chain(cfg, h, start, run, s, more, Snapshot(hs', later));
        run := run + more;
      }
    }

    method AnnounceStep(id: JobId, fate: Fate, ghost now: int, ghost h: nat, ghost hs: map<nat, P.Handler>)
      returns (ghost run: seq<P.Action>, ghost hs': map<nat, P.Handler>)
      requires h in hs && hs[h] == P.Creating(id)
      modifies broker
      ensures run == Own(run, h) == AnnounceActions(h, fate) && hs' == hs - {h}
      ensures L.Reaches(cfg, L.Any, old(Snapshot(hs, now)), run, Snapshot(hs', now))
    {
      ghost var start := Snapshot(hs, now);
      run, hs' := AnnounceActions(h, fate), hs - {h};
      match fate {
        case Works =>
          broker.Publish(Main, Message(id, 1, None, ""));
          Single(cfg, h, start, P.Announce(h));
        case Breaks(applied) =>
          if applied {
            broker.Publish(Main, Message(id, 1, None, ""));
          }
          Single(cfg, h, start, P.AnnounceFails(h, applied));
      }
    }
  }
}
