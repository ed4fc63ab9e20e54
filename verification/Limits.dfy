/** Where the protocol's promises end: the runs on which they fail, and the exact condition under which they hold. */
module Limits {
  import opened Common
  import opened Store
  import opened Queue
  import opened Protocol
  import opened Exclusion
  import opened Delivery

  /** Nothing can ever reach the job again: it waits, and no record or handler mentions it. */
  ghost predicate Stranded(s: State, j: JobId) {
    && j in s.rows && s.rows[j].status.Waiting()
    && (forall o :: o in s.log && !s.log[o].topic.DeadLetter? ==> s.log[o].msg.job != j)
    && (forall h :: h in s.handlers ==> !Concerns(s.handlers[h], j))
  }

  predicate Concerns(f: Handler, j: JobId) {
    match f
    case Creating(job) => job == j
    case Committing(_) => false
    case Publishing(_, topic, next) => next.job == j && !topic.DeadLetter?
    case _ => f.msg.job == j
  }

  /** The handler a step leaves behind concerns a job only if the step found a handler or a record that does. */
  lemma UnconcernedStep(cfg: Config, s: State, a: Action, j: JobId, h: nat)
    requires Stranded(s, j) && Enabled(s, a) && h in Next(cfg, s, a).handlers
    ensures !Concerns(Next(cfg, s, a).handlers[h], j)
  {
    HandlersExtendStep(cfg, s, a);
    if By(a, h) {
      if h in s.handlers {
        StaysUnconcerned(cfg, s, a, j);
      } else {
        StartsUnconcerned(cfg, s, a, j);
      }
    }
  }

  lemma StaysUnconcerned(cfg: Config, s: State, a: Action, j: JobId)
    requires Enabled(s, a) && !a.Reclaim? && !a.Tick? && a.h in s.handlers && !Concerns(s.handlers[a.h], j)
    requires a.h in Next(cfg, s, a).handlers
    ensures !Concerns(Next(cfg, s, a).handlers[a.h], j)
  {
  }

  lemma StartsUnconcerned(cfg: Config, s: State, a: Action, j: JobId)
    requires Stranded(s, j) && Enabled(s, a) && !a.Reclaim? && !a.Tick? && a.h !in s.handlers
    requires a.h in Next(cfg, s, a).handlers
    ensures !Concerns(Next(cfg, s, a).handlers[a.h], j)
  {
  }

  lemma UntouchedRow(cfg: Config, s: State, a: Action, j: JobId)
    requires Enabled(s, a) && j in s.rows && s.rows[j].status.Waiting()
    requires !a.Reclaim? && !a.Tick? && a.h in s.handlers ==> !Concerns(s.handlers[a.h], j)
    ensures j in Next(cfg, s, a).rows && Next(cfg, s, a).rows[j] == s.rows[j]
  {
  }

  lemma UnmentionedRecord(cfg: Config, s: State, a: Action, j: JobId, o: nat)
    requires Enabled(s, a) && o in Next(cfg, s, a).log && !Next(cfg, s, a).log[o].topic.DeadLetter?
    requires o in s.log && !s.log[o].topic.DeadLetter? ==> s.log[o].msg.job != j
    requires !a.Reclaim? && !a.Tick? && a.h in s.handlers ==> !Concerns(s.handlers[a.h], j)
    ensures Next(cfg, s, a).log[o].msg.job != j
  {
  }

  lemma StrandedStep(cfg: Config, s: State, a: Action, j: JobId)
    requires Stranded(s, j) && Enabled(s, a)
    ensures Stranded(Next(cfg, s, a), j) && Next(cfg, s, a).rows[j] == s.rows[j]
  {
    var t := Next(cfg, s, a);
    UntouchedRow(cfg, s, a, j);
    forall o | o in t.log && !t.log[o].topic.DeadLetter?
      ensures t.log[o].msg.job != j
    {
      UnmentionedRecord(cfg, s, a, j, o);
    }
    forall h | h in t.handlers
      ensures !Concerns(t.handlers[h], j)
    {
      UnconcernedStep(cfg, s, a, j, h);
    }
  }

  /** A stranded job stays as it is in every continuation, whatever happens. */
  lemma {:induction false} StrandedForever(cfg: Config, s: State, run: seq<Action>, j: JobId)
    requires Stranded(s, j) && Run(cfg, s, run)
    ensures Stranded(Exec(cfg, s, run), j) && Exec(cfg, s, run).rows[j] == s.rows[j]
    decreases run
  {
    if run != [] {
      StrandedStep(cfg, s, run[0], j);
      StrandedForever(cfg, Next(cfg, s, run[0]), run[1..], j);
    }
  }

  // ------------------------------------------------------------ building runs step by step

  /** The run reaches `t` and is of the kind: within every lease, within another bound, without faults, or any run. */
  ghost predicate Reaches(cfg: Config, kind: Kind, s: State, run: seq<Action>, t: State) {
    Run(cfg, s, run) && Exec(cfg, s, run) == t &&
    match kind
    case Any => true
    case Timely => TimelyRun(cfg, s, run)
    case Bounded(bound) => BoundedRun(cfg, bound, s, run)
    case Nominal(limit) => NominalAnyhow(cfg, limit, s, run)
  }

  /** Without faults however the records lie in partitions, and whatever was read before. */
  ghost predicate NominalAnyhow(cfg: Config, limit: int, s: State, run: seq<Action>) {
    forall place: Layout, spent: set<nat> :: NominalRun(cfg, place, limit, s, spent, run)
  }

  ghost predicate FaultlessAnyhow(s: State, a: Action)
    requires Enabled(s, a)
  {
    forall place: Layout, spent: set<nat> :: Faultless(place, s, spent, a)
  }

  datatype Kind = Any | Timely | Bounded(bound: int) | Nominal(limit: int)

  ghost predicate Admits(cfg: Config, kind: Kind, s: State, a: Action, t: State)
    requires Enabled(s, a)
  {
    match kind
    case Any => true
    case Timely => WithinLease(cfg, t)
    case Bounded(bound) => WithinBound(bound, t)
    case Nominal(limit) =>
      WithinLease(cfg, t) && FaultlessAnyhow(s, a) && (a.Create? ==> EffectiveMax(a.maxAttempts) <= limit)
  }

  lemma Join(cfg: Config, kind: Kind, s: State, run: seq<Action>, t: State, more: seq<Action>, u: State)
    requires Reaches(cfg, kind, s, run, t) && Reaches(cfg, kind, t, more, u)
    ensures Reaches(cfg, kind, s, run + more, u)
  {
    RunConcat(cfg, s, run, more);
    if kind.Timely? {
      TimelyConcat(cfg, s, run, more);
    } else if kind.Bounded? {
      BoundedConcat(cfg, kind.bound, s, run, more);
    } else if kind.Nominal? {
      NominalJoin(cfg, kind.limit, s, run, t, more);
    }
  }

  lemma NominalJoin(cfg: Config, limit: int, s: State, run: seq<Action>, t: State, more: seq<Action>)
    requires NominalAnyhow(cfg, limit, s, run) && Run(cfg, s, run) && t == Exec(cfg, s, run) && NominalAnyhow(cfg, limit, t, more)
    ensures NominalAnyhow(cfg, limit, s, run + more)
  {
    forall place: Layout, spent: set<nat>
      ensures NominalRun(cfg, place, limit, s, spent, run + more)
    {
      assert NominalRun(cfg, place, limit, t, Spent(cfg, s, spent, run), more);
      NominalConcat(cfg, place, limit, s, spent, run, more);
    }
  }

  lemma {:induction false} TimelyConcat(cfg: Config, s: State, run: seq<Action>, more: seq<Action>)
    requires TimelyRun(cfg, s, run) && Run(cfg, s, run) && TimelyRun(cfg, Exec(cfg, s, run), more)
    ensures TimelyRun(cfg, s, run + more)
    decreases run
  {
    if run == [] {
      assert run + more == more;
    } else {
      assert (run + more)[1..] == run[1..] + more;
      TimelyConcat(cfg, Next(cfg, s, run[0]), run[1..], more);
    }
  }

  lemma Then(cfg: Config, kind: Kind, s: State, run: seq<Action>, t: State, a: Action) returns (longer: seq<Action>, u: State)
    requires Reaches(cfg, kind, s, run, t) && Enabled(t, a) && Admits(cfg, kind, t, a, Next(cfg, t, a))
    ensures longer == run + [a] && u == Next(cfg, t, a) && Reaches(cfg, kind, s, longer, u)
  {
    longer, u := run + [a], Next(cfg, t, a);
    Once(cfg, kind, t, a);
    Join(cfg, kind, s, run, t, [a], u);
  }

  lemma Once(cfg: Config, kind: Kind, s: State, a: Action)
    requires Enabled(s, a) && Admits(cfg, kind, s, a, Next(cfg, s, a))
    ensures Reaches(cfg, kind, s, [a], Next(cfg, s, a))
  {
    var t := Next(cfg, s, a);
    assert [a][1..] == [];
    assert Run(cfg, t, []) && Exec(cfg, t, []) == t;
  }

  // ------------------------------------------------------------ the retry ladder is three attempts long

  /** A job that waits with one uncommitted record in the main topic, and nothing else going on. */
  ghost predicate Ready(s: State, row: Row, o: nat, msg: Message) {
    && s.handlers == map[] && msg.job in s.rows && s.rows[msg.job] == row && row.status.Waiting()
    && s.log == map[o := Record(Main, msg)] && o < s.nextOffset
  }

  /** One failing attempt, up to the commit of its record. */
  lemma FailingAttempt(cfg: Config, s: State, row: Row, o: nat, msg: Message, limit: int) returns (run: seq<Action>, t: State)
    requires Ready(s, row, o, msg) && row.attempts + 1 < row.maxAttempts && Lease(cfg.jobTimeout) >= 0
    ensures Reaches(cfg, Nominal(limit), s, run, t)
    ensures var next := Rescheduled(Failing(o, msg, row.attempts + 1, s.now, ""), true, s.now);
            && t.handlers == map[] && t.now == s.now
            && t.rows == s.rows[msg.job := MarkedFailed(Claimed(row, s.now), "", s.now)]
            && t.log == map[s.nextOffset := Record(next.topic, next.next)] && t.nextOffset == s.nextOffset + 1
  {
    var claimed := ClaimedState(s, row, o, msg);
    run := AttemptClaims(cfg, s, row, o, msg, limit);
    var f := Failing(o, msg, row.attempts + 1, s.now, "");
    var next := Rescheduled(f, true, s.now);
    var rest := AttemptFails(cfg, claimed, Claimed(row, s.now), f, limit);
    t := claimed.(rows := claimed.rows[msg.job := MarkedFailed(Claimed(row, s.now), "", s.now)], handlers := map[],
         log := map[s.nextOffset := Record(next.topic, next.next)], nextOffset := s.nextOffset + 1);
    assert t.rows == s.rows[msg.job := MarkedFailed(Claimed(row, s.now), "", s.now)];
    Join(cfg, Nominal(limit), s, run, claimed, rest, t);
    run := run + rest;
  }

  function ClaimedState(s: State, row: Row, o: nat, msg: Message): State {
    s.(rows := s.rows[msg.job := Claimed(row, s.now)], handlers := map[0 := Working(o, msg, row.attempts + 1, s.now)])
  }

  lemma AttemptClaims(cfg: Config, s: State, row: Row, o: nat, msg: Message, limit: int) returns (run: seq<Action>)
    requires Ready(s, row, o, msg) && Lease(cfg.jobTimeout) >= 0
    ensures Reaches(cfg, Nominal(limit), s, run, ClaimedState(s, row, o, msg))
  {
    var t := s;
    run := [];
    run, t := Then(cfg, Nominal(limit), s, run, t, FetchMain(0, o));
    assert t.handlers == map[0 := Fetched(o, msg)];
    run, t := Then(cfg, Nominal(limit), s, run, t, Claim(0));
    assert t.handlers == map[0 := Working(o, msg, row.attempts + 1, s.now)];
  }

  lemma AttemptFails(cfg: Config, s: State, row: Row, f: Handler, limit: int) returns (run: seq<Action>)
    requires f.Failing? && s.handlers == map[0 := Working(f.offset, f.msg, f.attempt, f.since)]
    requires f.msg.job in s.rows && s.rows[f.msg.job] == row && row.attempts < row.maxAttempts
    requires f.offset in s.log && s.log.Keys == {f.offset} && f.offset < s.nextOffset
    requires WithinLease(cfg, s)
    ensures var next := Rescheduled(f, true, s.now);
            Reaches(cfg, Nominal(limit), s, run,
              s.(rows := s.rows[f.msg.job := MarkedFailed(row, f.cause, s.now)], handlers := map[],
                 log := map[s.nextOffset := Record(next.topic, next.next)], nextOffset := s.nextOffset + 1))
  {
    var t := s.(rows := s.rows[f.msg.job := MarkedFailed(row, f.cause, s.now)], handlers := map[0 := Rescheduled(f, true, s.now)]);
    run := FailureIsMarked(cfg, s, row, f, limit, t);
    var more, u := NoticeIsPublished(cfg, t, limit);
    Join(cfg, Nominal(limit), s, run, t, more, u);
    run := run + more;
  }

  lemma FailureIsMarked(cfg: Config, s: State, row: Row, f: Handler, limit: int, t: State) returns (run: seq<Action>)
    requires f.Failing? && s.handlers == map[0 := Working(f.offset, f.msg, f.attempt, f.since)]
    requires f.msg.job in s.rows && s.rows[f.msg.job] == row && row.attempts < row.maxAttempts
    requires WithinLease(cfg, s)
    requires t == s.(rows := s.rows[f.msg.job := MarkedFailed(row, f.cause, s.now)], handlers := map[0 := Rescheduled(f, true, s.now)])
    ensures Reaches(cfg, Nominal(limit), s, run, t)
  {
    var u;
    assert s.handlers[0].Holding();
    run, u := Then(cfg, Nominal(limit), s, [], s, Fail(0, f.cause));
    assert u.handlers == map[0 := f];
    run, u := Then(cfg, Nominal(limit), s, run, u, Mark(0));
    assert u.handlers == t.handlers;
  }

  /** The announcement goes out, and the record it stands for is done with. */
  lemma NoticeIsPublished(cfg: Config, s: State, limit: int) returns (run: seq<Action>, t: State)
    requires s.handlers.Keys == {0} && s.handlers[0].Publishing? && s.log.Keys == {s.handlers[0].offset}
    requires s.handlers[0].offset < s.nextOffset
    ensures Reaches(cfg, Nominal(limit), s, run, t)
    ensures t == s.(handlers := map[], log := map[s.nextOffset := Record(s.handlers[0].topic, s.handlers[0].next)],
                    nextOffset := s.nextOffset + 1)
  {
    var f := s.handlers[0];
    assert s.handlers == map[0 := f];
    run, t := Then(cfg, Nominal(limit), s, [], s, Publish(0));
    assert t.handlers == map[0 := Committing(f.offset)];
    run, t := Then(cfg, Nominal(limit), s, run, t, Commit(0, {}));
    assert t.handlers == map[];
    assert t.log == map[s.nextOffset := Record(f.topic, f.next)];
  }

  /** A retry record on its way back to the main topic. */
  lemma Backoff(cfg: Config, limit: int, s: State, o: nat, tier: nat, msg: Message) returns (run: seq<Action>, t: State)
    requires s.handlers == map[] && s.log == map[o := Record(Retry(tier), msg)] && o < s.nextOffset
    requires msg.notBefore.Some? && s.now <= msg.notBefore.value
    ensures Reaches(cfg, Nominal(limit), s, run, t)
    ensures t.handlers == map[] && t.rows == s.rows && t.nextOffset == s.nextOffset + 1
    ensures t.log == map[s.nextOffset := Record(Main, Waited(msg))]
  {
    run, t := BackoffWaits(cfg, limit, s, o, msg);
    var more, u := BackoffEnds(cfg, limit, t, o, msg);
    Join(cfg, Nominal(limit), s, run, t, more, u);
    run, t := run + more, u;
  }

  lemma BackoffWaits(cfg: Config, limit: int, s: State, o: nat, msg: Message) returns (run: seq<Action>, t: State)
    requires s.handlers == map[] && s.log.Keys == {o} && s.log[o].topic.Retry? && s.log[o].msg == msg
    requires msg.notBefore.Some? && s.now <= msg.notBefore.value
    ensures Reaches(cfg, Nominal(limit), s, run, t)
    ensures t == s.(handlers := map[0 := Delaying(o, msg)], now := msg.notBefore.value)
  {
    run, t := Then(cfg, Nominal(limit), s, [], s, FetchRetry(0, o));
    assert t.handlers == map[0 := Delaying(o, msg)];
    run, t := Then(cfg, Nominal(limit), s, run, t, Tick(msg.notBefore.value));
  }

  lemma BackoffEnds(cfg: Config, limit: int, s: State, o: nat, msg: Message) returns (run: seq<Action>, t: State)
    requires s.handlers == map[0 := Delaying(o, msg)] && s.log.Keys == {o} && o < s.nextOffset
    requires msg.notBefore == Some(s.now)
    ensures Reaches(cfg, Nominal(limit), s, run, t)
    ensures t.handlers == map[] && t.rows == s.rows && t.nextOffset == s.nextOffset + 1
    ensures t.log == map[s.nextOffset := Record(Main, Waited(msg))]
  {
    run, t := Then(cfg, Nominal(limit), s, [], s, Republish(0));
    assert t.handlers == map[0 := Committing(o)];
    run, t := Then(cfg, Nominal(limit), s, run, t, Commit(0, {}));
    assert t.handlers == map[];
  }

  /** From one ready state to the next, until the ladder is used up. */
  lemma {:induction false} Ladder(cfg: Config, s: State, row: Row, o: nat, msg: Message, limit: int)
    returns (run: seq<Action>, t: State, row': Row, o': nat, msg': Message)
    requires Ready(s, row, o, msg) && row.attempts <= |RETRY_TIERS| && |RETRY_TIERS| + 1 < row.maxAttempts && Lease(cfg.jobTimeout) >= 0
    ensures Reaches(cfg, Nominal(limit), s, run, t) && Ready(t, row', o', msg')
    ensures row'.attempts == |RETRY_TIERS| && row'.maxAttempts == row.maxAttempts && msg'.job == msg.job
    decreases |RETRY_TIERS| - row.attempts
  {
    if row.attempts == |RETRY_TIERS| {
      return [], s, row, o, msg;
    }
    var first, u := FailingAttempt(cfg, s, row, o, msg, limit);
    var next := Rescheduled(Failing(o, msg, row.attempts + 1, s.now, ""), true, s.now);
    assert next.topic == Retry(row.attempts + 1);
    var second, v := Backoff(cfg, limit, u, s.nextOffset, row.attempts + 1, next.next);
    Join(cfg, Nominal(limit), s, first, u, second, v);
    var rest;
    rest, t, row', o', msg' := Ladder(cfg, v, v.rows[msg.job], u.nextOffset, Waited(next.next), limit);
    Join(cfg, Nominal(limit), s, first + second, v, rest, t);
    run := first + second + rest;
  }

  /** With a longer limit, the failure after the last tier sends a retrying job to the dead letters. */
  lemma OneAttemptTooMany(cfg: Config, limit: int) returns (run: seq<Action>)
    requires |RETRY_TIERS| + 1 < limit && Lease(cfg.jobTimeout) >= 0
    ensures NominalAnyhow(cfg, limit, Init, run) && Run(cfg, Init, run)
    ensures Stranded(Exec(cfg, Init, run), 0) && DeadLettered(Exec(cfg, Init, run), 0) && !NothingLost(Exec(cfg, Init, run))
  {
    var kind := Nominal(limit);
    run := [];
    var s := Init;
    run, s := Then(cfg, kind, Init, run, s, Create(0, 0, "", "", limit));
    run, s := Then(cfg, kind, Init, run, s, Announce(0));
    assert s.handlers == map[];
    var msg := Message(0, 1, None, "");
    assert s.log == map[0 := Record(Main, msg)];
    var more, t, row, o, msg' := Ladder(cfg, s, s.rows[0], 0, msg, limit);
    Join(cfg, kind, Init, run, s, more, t);
    var last, u := FailingAttempt(cfg, t, row, o, msg', limit);
    Join(cfg, kind, Init, run + more, t, last, u);
    run := run + more + last;
    assert u.log[t.nextOffset].topic == DeadLetter;
    assert forall o :: !Pending(u, o, 0);
    assert forall h :: !Announcing(u, h, 0);
  }

  /** The retry ladder loses no job exactly when the attempt limit stays within one more than its tiers. */
  lemma NoJobIsLostExactlyWhen(cfg: Config, place: Layout, limit: int)
    requires Lease(cfg.jobTimeout) >= 0
    ensures (forall run :: NominalRun(cfg, place, limit, Init, {}, run) ==> Run(cfg, Init, run) && NothingLost(Exec(cfg, Init, run)))
            <==> limit <= |RETRY_TIERS| + 1
  {
    if limit <= |RETRY_TIERS| + 1 {
      forall run | NominalRun(cfg, place, limit, Init, {}, run)
        ensures Run(cfg, Init, run) && NothingLost(Exec(cfg, Init, run))
      {
        TighterLimit(cfg, place, limit, Init, {}, run);
        NoJobIsLost(cfg, place, run);
      }
    } else {
      var run := OneAttemptTooMany(cfg, limit);
      assert NominalRun(cfg, place, limit, Init, {}, run);
    }
  }

  lemma {:induction false} TighterLimit(cfg: Config, place: Layout, limit: int, s: State, spent: set<nat>, run: seq<Action>)
    requires NominalRun(cfg, place, limit, s, spent, run) && limit <= |RETRY_TIERS| + 1
    ensures NominalRun(cfg, place, |RETRY_TIERS| + 1, s, spent, run)
    decreases run
  {
    if run != [] {
      var t := Next(cfg, s, run[0]);
      TighterLimit(cfg, place, limit, t, Spend(spent, t), run[1..]);
    }
  }

  // ------------------------------------------------------------ crashes and late handlers

  /** A job just created and announced, and claimed by handler 0. */
  lemma FirstClaim(cfg: Config, kind: Kind, limit: int) returns (run: seq<Action>, s: State)
    requires !kind.Nominal? && (kind.Timely? ==> Lease(cfg.jobTimeout) >= 0) && (kind.Bounded? ==> kind.bound >= 0)
    ensures Reaches(cfg, kind, Init, run, s)
    ensures var msg := Message(0, 1, None, "");
            s == State(map[0 := Claimed(NewRow("", "", limit), 0)], map[0 := Record(Main, msg)], 1, map[0 := Working(0, msg, 1, 0)], 0)
  {
    var msg := Message(0, 1, None, "");
    run, s := [], Init;
    run, s := Then(cfg, kind, Init, run, s, Create(0, 0, "", "", limit));
    run, s := Then(cfg, kind, Init, run, s, Announce(0));
    assert s.handlers == map[] && s.log == map[0 := Record(Main, msg)];
    run, s := Then(cfg, kind, Init, run, s, FetchMain(0, 0));
    assert s.handlers == map[0 := Fetched(0, msg)];
    run, s := Then(cfg, kind, Init, run, s, Claim(0));
    assert s.rows == map[0 := Claimed(NewRow("", "", limit), 0)];
    assert s.handlers == map[0 := Working(0, msg, 1, 0)];
  }

  const FIRST := Message(0, 1, None, "")

  lemma CrashAndDrop(cfg: Config, limit: int) returns (run: seq<Action>, s: State)
    requires Lease(cfg.jobTimeout) >= 0
    ensures Reaches(cfg, Timely, Init, run, s)
    ensures s == State(map[0 := Claimed(NewRow("", "", limit), 0)], map[], 1, map[], 0)
  {
    run, s := FirstClaim(cfg, Timely, limit);
    run, s := Then(cfg, Timely, Init, run, s, Crash(0));
    assert s.handlers == map[];
    var more, t := DropRedelivered(cfg, s);
    Join(cfg, Timely, Init, run, s, more, t);
    run, s := run + more, t;
  }

  lemma DropRedelivered(cfg: Config, s: State) returns (run: seq<Action>, t: State)
    requires s.handlers == map[] && s.log == map[0 := Record(Main, FIRST)] && !Claimable(s, 0)
    ensures Reaches(cfg, Timely, s, run, t) && t == s.(log := map[])
  {
    run, t := Then(cfg, Timely, s, [], s, FetchMain(0, 0));
    run, t := Then(cfg, Timely, s, run, t, Claim(0));
    assert t.handlers == map[0 := Committing(0)];
    run, t := Then(cfg, Timely, s, run, t, Commit(0, {}));
    assert t.handlers == map[] && t.log == map[];
  }

  /** A handler dies while it holds the job; its record comes back, is dropped as a duplicate and committed; the
      sweep then releases a row that no record will ever bring to a worker again. */
  lemma CrashStrands(cfg: Config, limit: int) returns (run: seq<Action>)
    requires EffectiveMax(limit) > 1 && Lease(cfg.jobTimeout) >= 0
    ensures TimelyRun(cfg, Init, run) && Run(cfg, Init, run) && Stranded(Exec(cfg, Init, run), 0)
  {
    var s;
    run, s := CrashAndDrop(cfg, limit);
    run, s := Then(cfg, Timely, Init, run, s, Tick(Lease(cfg.jobTimeout) + 1));
    run, s := Then(cfg, Timely, Init, run, s, Reclaim);
    assert s.rows[0].status == Retrying;
  }

  // ------------------------------------------------------------ how late is too late

  /** The first instant at which the sweep takes a row claimed at 0 for stale. */
  function Expiry(cfg: Config): int {
    if Lease(cfg.jobTimeout) >= 0 then Lease(cfg.jobTimeout) + 1 else 0
  }

  /** Handler 0 still holds the job it claimed first; the sweep has let handler 1 claim it again. */
  lemma SecondClaim(cfg: Config, bound: int, limit: int) returns (run: seq<Action>, s: State)
    requires EffectiveMax(limit) > 2 && bound > Lease(cfg.jobTimeout) && bound >= 0
    ensures Reaches(cfg, Bounded(bound), Init, run, s)
    ensures 0 in s.rows && s.rows[0].attempts == 2 && s.rows[0].maxAttempts == EffectiveMax(limit)
    ensures s.handlers == map[0 := Working(0, FIRST, 1, 0), 1 := Working(0, FIRST, 2, s.now)] && 0 <= s.now <= bound
  {
    var kind := Bounded(bound);
    run, s := FirstClaim(cfg, kind, limit);
    run, s := Then(cfg, kind, Init, run, s, Tick(Expiry(cfg)));
    run, s := Then(cfg, kind, Init, run, s, Reclaim);
    assert s.rows[0].status == Retrying && s.rows[0].attempts == 1;
    var more, t := ClaimRedelivered(cfg, bound, s);
    Join(cfg, kind, Init, run, s, more, t);
    run, s := run + more, t;
  }

  lemma ClaimRedelivered(cfg: Config, bound: int, s: State) returns (run: seq<Action>, t: State)
    requires s.handlers == map[0 := Working(0, FIRST, 1, 0)] && 0 in s.log && s.log[0] == Record(Main, FIRST)
    requires Claimable(s, 0) && s.rows[0].attempts == 1 && 0 <= s.now <= bound
    ensures Reaches(cfg, Bounded(bound), s, run, t)
    ensures t.rows == s.rows[0 := Claimed(s.rows[0], s.now)] && t.now == s.now
    ensures t.handlers == map[0 := Working(0, FIRST, 1, 0), 1 := Working(0, FIRST, 2, s.now)]
  {
    run, t := Then(cfg, Bounded(bound), s, [], s, FetchMain(1, 0));
    assert t.handlers == map[0 := Working(0, FIRST, 1, 0), 1 := Fetched(0, FIRST)];
    run, t := Then(cfg, Bounded(bound), s, run, t, Claim(1));
    assert t.handlers == map[0 := Working(0, FIRST, 1, 0), 1 := Working(0, FIRST, 2, s.now)];
  }

  /** A handler that outlives its lease: the sweep hands its job to a second handler, which completes it, and the
      first one then turns the succeeded row back into a retrying one. Any bound beyond the lease leaves room for this. */
  lemma LateHandlerUndoesSuccess(cfg: Config, bound: int, limit: int, report: Report) returns (run: seq<Action>, more: seq<Action>)
    requires EffectiveMax(limit) > 2 && bound > Lease(cfg.jobTimeout) && bound >= 0
    ensures Run(cfg, Init, run) && BoundedRun(cfg, bound, Init, run)
    ensures Run(cfg, Exec(cfg, Init, run), more) && BoundedRun(cfg, bound, Exec(cfg, Init, run), more) && Run(cfg, Init, run + more)
    ensures 0 in Exec(cfg, Init, run).rows && Exec(cfg, Init, run).rows[0].status == Succeeded
    ensures 0 in Exec(cfg, Init, run + more).rows && Exec(cfg, Init, run + more).rows[0].status == Retrying
  {
    var s, t;
    run, s := SecondClaim(cfg, bound, limit);
    run, s := Then(cfg, Bounded(bound), Init, run, s, Succeed(1, report));
    run, s := Then(cfg, Bounded(bound), Init, run, s, Complete(1));
    assert s.rows[0].status == Succeeded && s.handlers[0] == Working(0, FIRST, 1, 0);
    assert s.handlers == map[0 := Working(0, FIRST, 1, 0), 1 := Committing(0)];
    more, t := LateFailure(cfg, bound, s);
    Join(cfg, Bounded(bound), Init, run, s, more, t);
  }

  lemma LateFailure(cfg: Config, bound: int, s: State) returns (run: seq<Action>, t: State)
    requires s.handlers == map[0 := Working(0, FIRST, 1, 0), 1 := Committing(0)] && s.now <= bound
    requires 0 in s.rows && s.rows[0].attempts < s.rows[0].maxAttempts
    ensures Reaches(cfg, Bounded(bound), s, run, t) && 0 in t.rows && t.rows[0].status == Retrying
  {
    run, t := [], s;
    run, t := Then(cfg, Bounded(bound), s, run, t, Fail(0, ""));
    assert t.handlers == map[0 := Failing(0, FIRST, 1, 0, ""), 1 := Committing(0)];
    run, t := Then(cfg, Bounded(bound), s, run, t, Mark(0));
  }

  ghost predicate OneHolder(s: State) {
    forall h, k, j :: s.Holds(h, j) && s.Holds(k, j) ==> h == k
  }

  ghost predicate HeldOnce(cfg: Config, run: seq<Action>) {
    Run(cfg, Init, run) && OneHolder(Exec(cfg, Init, run))
  }

  /** Under a negative bound nobody can hold anything. */
  ghost predicate Unheld(s: State) {
    forall h :: h in s.handlers ==> !s.handlers[h].Holding()
  }

  lemma {:induction false} UnheldRun(cfg: Config, bound: int, s: State, run: seq<Action>)
    requires BoundedRun(cfg, bound, s, run) && bound < 0 && Unheld(s)
    ensures Run(cfg, s, run) && TimelyRun(cfg, s, run)
    decreases run
  {
    if run != [] {
      var t := Next(cfg, s, run[0]);
      forall h | h in t.handlers
        ensures !t.handlers[h].Holding()
      {
        if t.handlers[h].Holding() {
          FreshHolder(cfg, s, run[0], h, t.handlers[h].msg.job);
        }
      }
      UnheldRun(cfg, bound, t, run[1..]);
    }
  }

  lemma FreshHolder(cfg: Config, s: State, a: Action, h: nat, j: JobId)
    requires Enabled(s, a) && Next(cfg, s, a).Holds(h, j) && !s.Holds(h, j)
    ensures Next(cfg, s, a).handlers[h].since == Next(cfg, s, a).now
  {
  }

  /** With a bound of this length or less nothing goes wrong. */
  predicate Safe(cfg: Config, bound: int) {
    bound <= Lease(cfg.jobTimeout) || bound < 0
  }

  lemma SafeIsTimely(cfg: Config, bound: int, run: seq<Action>)
    requires Safe(cfg, bound) && BoundedRun(cfg, bound, Init, run)
    ensures Run(cfg, Init, run) && TimelyRun(cfg, Init, run)
  {
    if bound < 0 {
      UnheldRun(cfg, bound, Init, run);
    } else {
      BoundedIsTimely(cfg, bound, Init, run);
      TimelyRunIsRun(cfg, Init, run);
    }
  }

  /** If every handler ends within `bound` of its claim, at most one handler holds a job at any time, in every run: this
      holds exactly when the bound is within the lease. (Under a negative bound no claim can be made at all.) */
  lemma MutualExclusionExactlyWhen(cfg: Config, bound: int)
    ensures (forall run :: BoundedRun(cfg, bound, Init, run) ==> HeldOnce(cfg, run))
            <==> bound <= Lease(cfg.jobTimeout) || bound < 0
  {
    if Safe(cfg, bound) {
      forall run | BoundedRun(cfg, bound, Init, run)
        ensures HeldOnce(cfg, run)
      {
        SafeIsTimely(cfg, bound, run);
        MutualExclusion(cfg, run);
      }
    } else {
      var run, s := SecondClaim(cfg, bound, 3);
      assert s.Holds(0, 0) && s.Holds(1, 0);
      assert BoundedRun(cfg, bound, Init, run) && !HeldOnce(cfg, run);
    }
  }

  /** So if every handler ends within the job timeout, as its context makes it do, mutual exclusion holds exactly when the
      timeout is half a second or more: below that, the lease is cut to nothing. */
  lemma TimeoutIsEnoughExactlyWhen(cfg: Config)
    requires cfg.jobTimeout > 0
    ensures (forall run :: BoundedRun(cfg, cfg.jobTimeout, Init, run) ==> HeldOnce(cfg, run)) <==> 2 * cfg.jobTimeout >= SECOND
  {
    MutualExclusionExactlyWhen(cfg, cfg.jobTimeout);
    LeaseCoversExactlyWhen(cfg.jobTimeout);
  }

  /** The settled rows of a state are unchanged in the other. */
  ghost predicate SettledStay(s: State, t: State) {
    forall j :: j in s.rows && s.rows[j].status.Final() ==> j in t.rows && t.rows[j] == s.rows[j]
  }

  /** A run cut in two, within the bound all along. */
  ghost predicate CutRun(cfg: Config, bound: int, run: seq<Action>, more: seq<Action>) {
    Run(cfg, Init, run) && BoundedRun(cfg, bound, Init, run + more)
  }

  ghost predicate SettledOver(cfg: Config, run: seq<Action>, more: seq<Action>) {
    Run(cfg, Init, run) && Run(cfg, Exec(cfg, Init, run), more) &&
    SettledStay(Exec(cfg, Init, run), Exec(cfg, Exec(cfg, Init, run), more))
  }

  /** In every run within the bound, settled rows stay as they are. */
  ghost predicate OutcomesAreFinal(cfg: Config, bound: int) {
    forall run, more :: CutRun(cfg, bound, run, more) ==> SettledOver(cfg, run, more)
  }

  lemma SafeIsFinal(cfg: Config, bound: int, run: seq<Action>, more: seq<Action>)
    requires Safe(cfg, bound) && CutRun(cfg, bound, run, more)
    ensures SettledOver(cfg, run, more)
  {
    SafeIsTimely(cfg, bound, run + more);
    TimelySplit(cfg, Init, run, more);
    ExclusiveRun(cfg, Init, run);
    var s := Exec(cfg, Init, run);
    TimelyRunIsRun(cfg, s, more);
    forall j | j in s.rows && s.rows[j].status.Final()
      ensures j in Exec(cfg, s, more).rows && Exec(cfg, s, more).rows[j] == s.rows[j]
    {
      FinalForever(cfg, s, more, j);
    }
  }

  lemma UnsafeIsNotFinal(cfg: Config, bound: int)
    requires !Safe(cfg, bound)
    ensures !OutcomesAreFinal(cfg, bound)
  {
    var run, more := LateHandlerUndoesSuccess(cfg, bound, 3, Report(0.0, 0.0, 0.0));
    BoundedConcat(cfg, bound, Init, run, more);
    RunConcat(cfg, Init, run, more);
    assert CutRun(cfg, bound, run, more) && !SettledOver(cfg, run, more);
  }

  /** And exactly then no settled row ever changes again. */
  lemma FinalityExactlyWhen(cfg: Config, bound: int)
    ensures OutcomesAreFinal(cfg, bound) <==> bound <= Lease(cfg.jobTimeout) || bound < 0
  {
    if Safe(cfg, bound) {
      forall run, more | CutRun(cfg, bound, run, more)
        ensures SettledOver(cfg, run, more)
      {
        SafeIsFinal(cfg, bound, run, more);
      }
    } else {
      UnsafeIsNotFinal(cfg, bound);
    }
  }

  lemma {:induction false} TimelySplit(cfg: Config, s: State, run: seq<Action>, more: seq<Action>)
    requires TimelyRun(cfg, s, run + more)
    ensures TimelyRun(cfg, s, run) && Run(cfg, s, run) && TimelyRun(cfg, Exec(cfg, s, run), more)
    decreases run
  {
    if run == [] {
      assert run + more == more;
    } else {
      assert (run + more)[1..] == run[1..] + more;
      TimelySplit(cfg, Next(cfg, s, run[0]), run[1..], more);
    }
  }
}
