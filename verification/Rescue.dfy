/** When a job that waits still comes back to a worker: after a sweep, and after a publish that failed. */
module Rescue {
  import opened Store
  import opened Queue
  import opened Protocol
  import opened Exclusion
  import opened Delivery
  import opened Limits
  import opened RowHistory

  /** The run brings the job to a worker: a handler holds it and its row is running. */
  ghost predicate Taken(cfg: Config, s: State, run: seq<Action>, j: JobId) {
    Run(cfg, s, run) && HeldRunning(Exec(cfg, s, run), j)
  }

  ghost predicate HeldRunning(s: State, j: JobId) {
    j in s.rows && s.rows[j].status == Running && exists h :: s.Holds(h, j)
  }

  /** Some continuation brings the job to a worker. */
  ghost predicate ComesBack(cfg: Config, s: State, j: JobId) {
    exists run :: Taken(cfg, s, run, j)
  }

  ghost predicate Unconcerned(s: State, j: JobId) {
    forall h :: h in s.handlers ==> !Concerns(s.handlers[h], j)
  }

  /** A number no handler has. */
  lemma {:induction false} Unused(used: set<nat>) returns (h: nat)
    ensures forall x :: x in used ==> x < h
  {
    if used == {} {
      h := 0;
    } else {
      var x :| x in used;
      var rest := Unused(used - {x});
      h := if x < rest then rest else x + 1;
      assert forall y :: y in used ==> y == x || y in used - {x};
    }
  }

  /** A record in the main topic is a fetch and a claim away. */
  lemma MainComesBack(cfg: Config, s: State, j: JobId, o: nat) returns (run: seq<Action>)
    requires Claimable(s, j) && o in s.log && s.log[o].topic.Main? && s.log[o].msg.job == j
    ensures Taken(cfg, s, run, j)
  {
    var h := Unused(s.handlers.Keys);
    var t;
    run, t := Then(cfg, Any, s, [], s, FetchMain(h, o));
    run, t := Then(cfg, Any, s, run, t, Claim(h));
    assert t.Holds(h, j);
  }

  /** A record in a retry topic is republished first, once it is due. */
  lemma RetryComesBack(cfg: Config, s: State, j: JobId, o: nat) returns (run: seq<Action>)
    requires Claimable(s, j) && o in s.log && s.log[o].topic.Retry? && s.log[o].msg.job == j
    ensures Taken(cfg, s, run, j)
  {
    var h := Unused(s.handlers.Keys);
    var msg := s.log[o].msg;
    var t;
    run, t := Then(cfg, Any, s, [], s, FetchRetry(h, o));
    assert t.handlers[h] == Delaying(o, msg);
    run, t := Then(cfg, Any, s, run, t, Tick(if msg.notBefore.Some? && msg.notBefore.value > s.now then msg.notBefore.value else s.now));
    run, t := Then(cfg, Any, s, run, t, Republish(h));
    assert t.log[s.nextOffset] == Record(Main, Waited(msg)) && t.rows == s.rows;
    var more := MainComesBack(cfg, t, j, s.nextOffset);
    Join(cfg, Any, s, run, t, more, Exec(cfg, t, more));
    run := run + more;
  }

  // ------------------------------------------------------------ handlers that bring a job back

  /** The handler can still put a record of the job into the main or a retry topic, or claim it. One that has gone past the
      ladder, or whose optimisation has succeeded, cannot. */
  predicate Brings(f: Handler, j: JobId) {
    match f
    case Creating(job) => job == j
    case Fetched(_, msg) => msg.job == j
    case Delaying(_, msg) => msg.job == j
    case Publishing(_, topic, next) => next.job == j && !topic.DeadLetter?
    case Working(_, msg, attempt, _) => msg.job == j && RetryTopic(attempt).Some?
    case Failing(_, msg, attempt, _, _) => msg.job == j && RetryTopic(attempt).Some?
    case _ => false
  }

  /** Something of the job is left outside its row. */
  ghost predicate Traced(s: State, j: JobId) {
    (exists o :: Pending(s, o, j)) || exists h :: h in s.handlers && Brings(s.handlers[h], j)
  }

  lemma AppendedComesBack(cfg: Config, s: State, a: Action, j: JobId) returns (run: seq<Action>)
    requires Enabled(s, a) && Next(cfg, s, a).rows == s.rows && Claimable(s, j)
    requires Pending(Next(cfg, s, a), s.nextOffset, j)
    ensures Taken(cfg, s, run, j)
  {
    var t := Next(cfg, s, a);
    Once(cfg, Any, s, a);
    var more := RecordComesBack(cfg, t, j, s.nextOffset);
    Join(cfg, Any, s, [a], t, more, Exec(cfg, t, more));
    run := [a] + more;
  }

  lemma RecordComesBack(cfg: Config, s: State, j: JobId, o: nat) returns (run: seq<Action>)
    requires Claimable(s, j) && Pending(s, o, j)
    ensures Taken(cfg, s, run, j)
  {
    if s.log[o].topic.Main? {
      run := MainComesBack(cfg, s, j, o);
    } else {
      run := RetryComesBack(cfg, s, j, o);
    }
  }

  lemma LateComesBack(cfg: Config, s: State, j: JobId, h: nat) returns (run: seq<Action>)
    requires Claimable(s, j) && h in s.handlers && s.handlers[h].Failing? && Brings(s.handlers[h], j)
    requires s.rows[j].attempts < s.rows[j].maxAttempts
    ensures Taken(cfg, s, run, j)
  {
    Once(cfg, Any, s, Mark(h));
    var t := Next(cfg, s, Mark(h));
    assert t.handlers[h].Publishing? && t.handlers[h].topic.Retry? && Claimable(t, j);
    var more := AppendedComesBack(cfg, t, Publish(h), j);
    Join(cfg, Any, s, [Mark(h)], t, more, Exec(cfg, t, more));
    run := [Mark(h)] + more;
  }

  lemma HandlerComesBack(cfg: Config, s: State, j: JobId, h: nat) returns (run: seq<Action>)
    requires Claimable(s, j) && h in s.handlers && Brings(s.handlers[h], j)
    requires s.handlers[h].Holding() ==> s.rows[j].attempts < s.rows[j].maxAttempts
    ensures Taken(cfg, s, run, j)
  {
    match s.handlers[h]
    case Creating(_) => run := AppendedComesBack(cfg, s, Announce(h), j);
    case Publishing(_, _, _) => run := AppendedComesBack(cfg, s, Publish(h), j);
    case Failing(_, _, _, _, _) => run := LateComesBack(cfg, s, j, h);
    case Fetched(_, _) =>
      Once(cfg, Any, s, Claim(h));
      assert Next(cfg, s, Claim(h)).Holds(h, j);
      run := [Claim(h)];
    case Delaying(_, msg) =>
      var due := Tick(if msg.notBefore.Some? && msg.notBefore.value > s.now then msg.notBefore.value else s.now);
      Once(cfg, Any, s, due);
      var t := Next(cfg, s, due);
      var more := AppendedComesBack(cfg, t, Republish(h), j);
      Join(cfg, Any, s, [due], t, more, Exec(cfg, t, more));
      run := [due] + more;
    case Working(_, _, _, _) =>
      Once(cfg, Any, s, Fail(h, ""));
      var t := Next(cfg, s, Fail(h, ""));
      var more := LateComesBack(cfg, t, j, h);
      Join(cfg, Any, s, [Fail(h, "")], t, more, Exec(cfg, t, more));
      run := [Fail(h, "")] + more;
  }

  // ------------------------------------------------------------ jobs without a trace

  /** The row is not running, and nothing outside it can make it so. */
  ghost predicate Lost(s: State, j: JobId) {
    j in s.rows && s.rows[j].status != Running && !Traced(s, j)
  }

  lemma LostRow(cfg: Config, s: State, a: Action, j: JobId)
    requires Lost(s, j) && Enabled(s, a)
    ensures j in Next(cfg, s, a).rows && Next(cfg, s, a).rows[j].status != Running
  {
    if a.Claim? || a.ClaimFails? {
      assert !Brings(s.handlers[a.h], j);
    }
  }

  lemma LostRecord(cfg: Config, s: State, a: Action, j: JobId, o: nat)
    requires Lost(s, j) && Enabled(s, a)
    ensures !Pending(Next(cfg, s, a), o, j)
  {
    assert !Pending(s, o, j);
    if !a.Reclaim? && !a.Tick? && a.h in s.handlers {
      assert !Brings(s.handlers[a.h], j);
    }
  }

  lemma LostActor(cfg: Config, s: State, a: Action, j: JobId)
    requires Lost(s, j) && Enabled(s, a) && !a.Reclaim? && !a.Tick? && a.h in s.handlers && a.h in Next(cfg, s, a).handlers
    ensures !Brings(Next(cfg, s, a).handlers[a.h], j)
  {
    assert !Brings(s.handlers[a.h], j);
  }

  lemma LostStarter(cfg: Config, s: State, a: Action, j: JobId)
    requires Lost(s, j) && Enabled(s, a) && !a.Reclaim? && !a.Tick? && a.h !in s.handlers
    ensures a.h in Next(cfg, s, a).handlers && !Brings(Next(cfg, s, a).handlers[a.h], j)
  {
    if a.FetchMain? || a.FetchRetry? {
      assert !Pending(s, a.offset, j);
    }
  }

  lemma LostStep(cfg: Config, s: State, a: Action, j: JobId)
    requires Lost(s, j) && Enabled(s, a)
    ensures Lost(Next(cfg, s, a), j)
  {
    var t := Next(cfg, s, a);
    LostRow(cfg, s, a, j);
    forall o
      ensures !Pending(t, o, j)
    {
      LostRecord(cfg, s, a, j, o);
    }
    HandlersExtendStep(cfg, s, a);
    forall h | h in t.handlers
      ensures !Brings(t.handlers[h], j)
    {
      if By(a, h) {
        if h in s.handlers {
          LostActor(cfg, s, a, j);
        } else {
          LostStarter(cfg, s, a, j);
        }
      } else {
        assert !Brings(s.handlers[h], j);
      }
    }
  }

  lemma {:induction false} LostForever(cfg: Config, s: State, run: seq<Action>, j: JobId)
    requires Lost(s, j) && Run(cfg, s, run)
    ensures Lost(Exec(cfg, s, run), j)
    decreases run
  {
    if run != [] {
      LostStep(cfg, s, run[0], j);
      LostForever(cfg, Next(cfg, s, run[0]), run[1..], j);
    }
  }

  lemma LostStays(cfg: Config, s: State, j: JobId)
    requires Lost(s, j)
    ensures !ComesBack(cfg, s, j)
  {
    if run :| Taken(cfg, s, run, j) {
      LostForever(cfg, s, run, j);
    }
  }

  /** In every state a run can lead to, a waiting job comes back exactly when an uncommitted record of the main or a retry
      topic names it, or a handler can still claim it or publish such a record. */
  lemma ComesBackExactlyWhen(cfg: Config, before: seq<Action>, s: State, j: JobId)
    requires Run(cfg, Init, before) && s == Exec(cfg, Init, before) && Claimable(s, j)
    ensures ComesBack(cfg, s, j) <==> Traced(s, j)
  {
    AllCoherentRun(cfg, Init, before);
    assert Coherent(s.rows[j], s.now);
    if o :| Pending(s, o, j) {
      var run := RecordComesBack(cfg, s, j, o);
    } else if h :| h in s.handlers && Brings(s.handlers[h], j) {
      if s.handlers[h].Holding() {
        assert s.Holds(h, j);
      }
      var run := HandlerComesBack(cfg, s, j, h);
    } else {
      LostStays(cfg, s, j);
    }
  }

  /** Where no handler is concerned with the job, the records alone decide, in any state at all. */
  lemma RecordsDecide(cfg: Config, s: State, j: JobId)
    requires Claimable(s, j) && Unconcerned(s, j)
    ensures ComesBack(cfg, s, j) <==> exists o :: Pending(s, o, j)
  {
    if o :| Pending(s, o, j) {
      var run := RecordComesBack(cfg, s, j, o);
    } else {
      forall h | h in s.handlers
        ensures !Brings(s.handlers[h], j)
      {
        assert !Concerns(s.handlers[h], j);
      }
      LostStays(cfg, s, j);
    }
  }

  // ------------------------------------------------------------ the sweep

  /** A failed row whose job nobody holds is never touched again. */
  ghost predicate Over(s: State, j: JobId) {
    j in s.rows && s.rows[j].status == Failed && forall h :: !s.Holds(h, j)
  }

  lemma OverStep(cfg: Config, s: State, a: Action, j: JobId)
    requires Over(s, j) && Enabled(s, a)
    ensures Over(Next(cfg, s, a), j)
  {
    if a.Complete? || a.Mark? || a.MarkFails? {
      assert s.Holds(a.h, s.handlers[a.h].msg.job);
    }
    forall h
      ensures !Next(cfg, s, a).Holds(h, j)
    {
      if Next(cfg, s, a).Holds(h, j) {
        HolderStep(cfg, s, a, h, j);
      }
    }
  }

  lemma {:induction false} OverForever(cfg: Config, s: State, run: seq<Action>, j: JobId)
    requires Over(s, j) && Run(cfg, s, run)
    ensures Over(Exec(cfg, s, run), j)
    decreases run
  {
    if run != [] {
      OverStep(cfg, s, run[0], j);
      OverForever(cfg, Next(cfg, s, run[0]), run[1..], j);
    }
  }

  /** A sweep rescues a job whose worker has died exactly when attempts are left and a record that names the job has not
      been committed before the sweep. */
  lemma SweepRescuesExactlyWhen(cfg: Config, s: State, j: JobId)
    requires j in s.rows && Stale(s.rows[j], s.now, Lease(cfg.jobTimeout)) && Unconcerned(s, j)
    ensures ComesBack(cfg, Next(cfg, s, Reclaim), j)
            <==> s.rows[j].attempts < s.rows[j].maxAttempts && exists o :: Pending(s, o, j)
  {
    var t := Next(cfg, s, Reclaim);
    assert t.log == s.log && forall o :: Pending(t, o, j) <==> Pending(s, o, j);
    if s.rows[j].attempts < s.rows[j].maxAttempts {
      RecordsDecide(cfg, t, j);
    } else {
      assert Over(t, j);
      if run :| Taken(cfg, t, run, j) {
        OverForever(cfg, t, run, j);
      }
    }
  }

  // ------------------------------------------------------------ a commit that passes over records

  /** A commit covers the earlier records of its partition, those too that a consumer has given up on. After it, a waiting
      job comes back exactly when a record is left that the commit does not cover, or a handler that can still help. */
  lemma CommitLeavesExactlyWhen(cfg: Config, before: seq<Action>, s: State, h: nat, passed: set<nat>, j: JobId)
    requires Run(cfg, Init, before) && s == Exec(cfg, Init, before) && Claimable(s, j) && Enabled(s, Commit(h, passed))
    ensures ComesBack(cfg, Next(cfg, s, Commit(h, passed)), j)
            <==> (exists o :: Pending(s, o, j) && o !in passed && o != s.handlers[h].offset) ||
                 exists k :: k in s.handlers && Brings(s.handlers[k], j)
  {
    var a := Commit(h, passed);
    var t := Next(cfg, s, a);
    Once(cfg, Any, s, a);
    Join(cfg, Any, Init, before, s, [a], t);
    ComesBackExactlyWhen(cfg, before + [a], t, j);
    assert forall o :: Pending(t, o, j) <==> Pending(s, o, j) && o !in passed && o != s.handlers[h].offset;
    assert forall k :: k in t.handlers <==> k in s.handlers && k != h;
    assert !Brings(s.handlers[h], j);
    if k :| k in s.handlers && Brings(s.handlers[k], j) {
      assert k in t.handlers && Brings(t.handlers[k], j);
    }
  }

  /** Two records of one retry tier, the first the only trace of its job. */
  ghost predicate TwoDelayed(s: State, o: nat, p: nat, j: JobId) {
    && s.handlers == map[] && o < p && o in s.log && p in s.log
    && s.log[o].topic.Retry? && s.log[p].topic == s.log[o].topic && s.log[o].msg.job == j && s.log[p].msg.job != j
    && Due(s.log[o].msg, s.now) && Due(s.log[p].msg, s.now) && p < s.nextOffset
    && Claimable(s, j) && forall r :: Pending(s, r, j) ==> r == o
  }

  /** The republish of the first fails and its consumer goes on to the second, whose commit passes over the first. */
  lemma FailedRepublishIsLost(cfg: Config, s: State, o: nat, p: nat, j: JobId) returns (run: seq<Action>)
    requires TwoDelayed(s, o, p, j)
    ensures Run(cfg, s, run) && !ComesBack(cfg, Exec(cfg, s, run), j)
  {
    run := FailsToRepublish(cfg, s, o);
    var more, t := PassesOver(cfg, s, o, p);
    Join(cfg, Any, s, run, s, more, t);
    run := run + more;
    forall r
      ensures !Pending(t, r, j)
    {
      assert r in t.log && r != s.nextOffset ==> r in s.log && t.log[r] == s.log[r];
      assert r in s.log && r != o ==> !Pending(s, r, j);
    }
    LostStays(cfg, t, j);
  }

  /** A fetch whose republish fails leaves everything as it was. */
  lemma FailsToRepublish(cfg: Config, s: State, o: nat) returns (run: seq<Action>)
    requires s.handlers == map[] && o in s.log && s.log[o].topic.Retry? && Due(s.log[o].msg, s.now)
    ensures Reaches(cfg, Any, s, run, s)
  {
    var t;
    run, t := Then(cfg, Any, s, [], s, FetchRetry(0, o));
    run, t := Then(cfg, Any, s, run, t, RepublishFails(0, false));
    assert t == s by {
      assert t.handlers == map[];
    }
  }

  /** The next record's commit covers the one before. */
  lemma PassesOver(cfg: Config, s: State, o: nat, p: nat) returns (run: seq<Action>, t: State)
    requires s.handlers == map[] && o < p < s.nextOffset && o in s.log && p in s.log
    requires s.log[o].topic.Retry? && s.log[p].topic == s.log[o].topic && Due(s.log[p].msg, s.now)
    ensures Reaches(cfg, Any, s, run, t)
    ensures t.handlers == map[] && t.rows == s.rows && t.log == s.log[s.nextOffset := Record(Main, Waited(s.log[p].msg))] - {o, p}
  {
    run, t := Then(cfg, Any, s, [], s, FetchRetry(0, p));
    assert t.handlers == map[0 := Delaying(p, s.log[p].msg)];
    run, t := Then(cfg, Any, s, run, t, Republish(0));
    assert t.handlers == map[0 := Committing(p)] && t.log == s.log[s.nextOffset := Record(Main, Waited(s.log[p].msg))];
    run, t := Then(cfg, Any, s, run, t, Commit(0, {o}));
    assert t.handlers == map[];
  }

  // ------------------------------------------------------------ a publish that fails

  /** Neither a record nor a handler knows of a job that has no row. */
  lemma UnknownJob(s: State, j: JobId)
    requires WellFormed(s) && j !in s.rows
    ensures Unconcerned(s, j) && forall o :: !Pending(s, o, j)
  {
    forall h | h in s.handlers
      ensures !Concerns(s.handlers[h], j)
    {
      assert Faithful(s, s.handlers[h]);
    }
  }

  function Announced(cfg: Config, s: State, h: nat, j: JobId, key: string, sql: string, max: int, applied: bool): State
    requires Enabled(s, Create(h, j, key, sql, max))
  {
    Next(cfg, Next(cfg, s, Create(h, j, key, sql, max)), AnnounceFails(h, applied))
  }

  /** When the first publish fails the client is told that the job will be retried. It comes back exactly when the
      record had reached the broker all the same. */
  lemma UnannouncedComesBackExactlyWhen(cfg: Config, s: State, h: nat, j: JobId, key: string, sql: string, max: int, applied: bool)
    requires WellFormed(s) && Enabled(s, Create(h, j, key, sql, max))
    ensures var t := Announced(cfg, s, h, j, key, sql, max, applied);
            && j in t.rows && t.rows[j].status == Queued
            && (ComesBack(cfg, t, j) <==> applied)
            && (Stranded(t, j) <==> !applied)
  {
    UnknownJob(s, j);
    var t := Announced(cfg, s, h, j, key, sql, max, applied);
    assert applied ==> Pending(t, s.nextOffset, j);
    assert !applied ==> forall o :: Pending(t, o, j) <==> Pending(s, o, j);
    assert Unconcerned(t, j);
    RecordsDecide(cfg, t, j);
    if !applied {
      forall o | o in t.log && !t.log[o].topic.DeadLetter?
        ensures t.log[o].msg.job != j
      {
        assert !Pending(t, o, j);
      }
    }
  }

  /** Nor does the client's own retry help: the row stays queued in every continuation, and its key turns away every
      further creation. */
  lemma KeyStaysTaken(cfg: Config, s: State, run: seq<Action>, j: JobId)
    requires Stranded(s, j) && Run(cfg, s, run)
    ensures var t := Exec(cfg, s, run);
            j in t.rows && t.rows[j] == s.rows[j] && forall h, i, sql, max :: !Enabled(t, Create(h, i, s.rows[j].key, sql, max))
  {
    StrandedForever(cfg, s, run, j);
    var t := Exec(cfg, s, run);
    assert t.rows[j].key == s.rows[j].key;
  }
}
