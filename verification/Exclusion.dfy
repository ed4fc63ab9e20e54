/** Safety of the protocol: a job is held by at most one handler, outcomes land where they belong, and settled rows stay
    settled, in every run whose handlers keep within their lease. */
module Exclusion {
  import opened Common
  import opened Store
  import opened Protocol

  lemma {:induction false} RunConcat(cfg: Config, s: State, run: seq<Action>, more: seq<Action>)
    requires Run(cfg, s, run) && Run(cfg, Exec(cfg, s, run), more)
    ensures Run(cfg, s, run + more) && Exec(cfg, s, run + more) == Exec(cfg, Exec(cfg, s, run), more)
    decreases run
  {
    if run == [] {
      assert run + more == more;
    } else {
      assert (run + more)[1..] == run[1..] + more;
      RunConcat(cfg, Next(cfg, s, run[0]), run[1..], more);
    }
  }

  // ------------------------------------------------------------ the lease assumption

  /** Every handler that holds a job is still within the lease of its claim. */
  ghost predicate WithinLease(cfg: Config, s: State) {
    forall h :: h in s.handlers && s.handlers[h].Holding() ==> s.now <= s.handlers[h].since + Lease(cfg.jobTimeout)
  }

  /** The assumption the code makes: a handler writes its outcome, or dies, within the lease of its claim. */
  ghost predicate TimelyRun(cfg: Config, s: State, run: seq<Action>)
    decreases run
  {
    run == [] ||
    (Enabled(s, run[0]) && WithinLease(cfg, Next(cfg, s, run[0])) && TimelyRun(cfg, Next(cfg, s, run[0]), run[1..]))
  }

  lemma {:induction false} TimelyRunIsRun(cfg: Config, s: State, run: seq<Action>)
    requires TimelyRun(cfg, s, run)
    ensures Run(cfg, s, run)
    decreases run
  {
    if run != [] {
      TimelyRunIsRun(cfg, Next(cfg, s, run[0]), run[1..]);
    }
  }

  /** The same with a bound of any length in place of the lease. */
  ghost predicate WithinBound(bound: int, s: State) {
    forall h :: h in s.handlers && s.handlers[h].Holding() ==> s.now <= s.handlers[h].since + bound
  }

  ghost predicate BoundedRun(cfg: Config, bound: int, s: State, run: seq<Action>)
    decreases run
  {
    run == [] ||
    (Enabled(s, run[0]) && WithinBound(bound, Next(cfg, s, run[0])) && BoundedRun(cfg, bound, Next(cfg, s, run[0]), run[1..]))
  }

  /** A tighter bound than the lease is kept by timely runs only. */
  lemma {:induction false} BoundedIsTimely(cfg: Config, bound: int, s: State, run: seq<Action>)
    requires BoundedRun(cfg, bound, s, run) && bound <= Lease(cfg.jobTimeout)
    ensures TimelyRun(cfg, s, run)
    decreases run
  {
    if run != [] {
      BoundedIsTimely(cfg, bound, Next(cfg, s, run[0]), run[1..]);
    }
  }

  lemma {:induction false} BoundedConcat(cfg: Config, bound: int, s: State, run: seq<Action>, more: seq<Action>)
    requires BoundedRun(cfg, bound, s, run) && Run(cfg, s, run) && BoundedRun(cfg, bound, Exec(cfg, s, run), more)
    ensures BoundedRun(cfg, bound, s, run + more)
    decreases run
  {
    if run == [] {
      assert run + more == more;
    } else {
      assert (run + more)[1..] == run[1..] + more;
      BoundedConcat(cfg, bound, Next(cfg, s, run[0]), run[1..], more);
    }
  }

  /** A job is held by at most one handler, and the row agrees with the handler that holds it. */
  ghost predicate Exclusive(s: State) {
    && (forall h, j :: s.Holds(h, j) ==> j in s.rows && Agrees(s.rows[j], s.handlers[h]))
    && (forall h, k, j :: s.Holds(h, j) && s.Holds(k, j) ==> h == k)
  }

  /** The row agrees with the handler. */
  predicate Agrees(row: Row, f: Handler) {
    f.Holding() && row.status == Running && row.attempts == f.attempt && row.startedAt == Some(f.since)
  }

  /** Only a claim makes a holder, and it leaves row and handler in agreement. */
  lemma HolderStep(cfg: Config, s: State, a: Action, h: nat, j: JobId)
    requires Enabled(s, a) && Next(cfg, s, a).Holds(h, j)
    ensures s.Holds(h, j) || (a == Claim(h) && Claimable(s, j) && Agrees(Next(cfg, s, a).rows[j], Next(cfg, s, a).handlers[h]))
  {
  }

  /** A holder that goes on holding keeps its attempt and its claim time. */
  lemma StillHolding(cfg: Config, s: State, a: Action, h: nat, j: JobId)
    requires Enabled(s, a) && s.Holds(h, j) && Next(cfg, s, a).Holds(h, j)
    requires j in s.rows && Agrees(s.rows[j], s.handlers[h]) && s.now <= s.handlers[h].since + Lease(cfg.jobTimeout)
    requires (a.Complete? || a.Mark? || a.MarkFails?) && s.Holds(a.h, j) ==> a.h == h
    ensures j in Next(cfg, s, a).rows && Agrees(Next(cfg, s, a).rows[j], Next(cfg, s, a).handlers[h])
  {
  }

  lemma ExclusiveStep(cfg: Config, s: State, a: Action)
    requires Exclusive(s) && WithinLease(cfg, s) && Enabled(s, a)
    ensures Exclusive(Next(cfg, s, a))
  {
    var t := Next(cfg, s, a);
    forall h, j | t.Holds(h, j)
      ensures j in t.rows && Agrees(t.rows[j], t.handlers[h])
    {
      HolderStep(cfg, s, a, h, j);
      if s.Holds(h, j) {
        StillHolding(cfg, s, a, h, j);
      }
    }
    forall h, k, j | t.Holds(h, j) && t.Holds(k, j)
      ensures h == k
    {
      HolderStep(cfg, s, a, h, j);
      HolderStep(cfg, s, a, k, j);
    }
  }

  lemma {:induction false} ExclusiveRun(cfg: Config, s: State, run: seq<Action>)
    requires Exclusive(s) && WithinLease(cfg, s) && TimelyRun(cfg, s, run)
    ensures Run(cfg, s, run)
    ensures Exclusive(Exec(cfg, s, run)) && WithinLease(cfg, Exec(cfg, s, run))
    decreases run
  {
    if run != [] {
      ExclusiveStep(cfg, s, run[0]);
      ExclusiveRun(cfg, Next(cfg, s, run[0]), run[1..]);
    }
  }

  /** Safety over every timely run, with any crashes, duplicates, sweeps and failed operations. */
  lemma MutualExclusion(cfg: Config, run: seq<Action>)
    requires TimelyRun(cfg, Init, run)
    ensures Run(cfg, Init, run)
    ensures forall h, k, j :: Exec(cfg, Init, run).Holds(h, j) && Exec(cfg, Init, run).Holds(k, j) ==> h == k
  {
    ExclusiveRun(cfg, Init, run);
  }

  /** Every outcome write of a timely run lands on the running row of the attempt its handler claimed. */
  lemma OutcomeWritesLand(cfg: Config, run: seq<Action>, h: nat)
    requires TimelyRun(cfg, Init, run)
    ensures Run(cfg, Init, run)
    ensures var s := Exec(cfg, Init, run);
            (Enabled(s, Complete(h)) || Enabled(s, Mark(h))) ==>
              var f := s.handlers[h];
              f.msg.job in s.rows && s.rows[f.msg.job].status == Running && s.rows[f.msg.job].attempts == f.attempt
  {
    ExclusiveRun(cfg, Init, run);
    var s := Exec(cfg, Init, run);
    if Enabled(s, Complete(h)) || Enabled(s, Mark(h)) {
      assert s.Holds(h, s.handlers[h].msg.job);
    }
  }

  lemma FinalStep(cfg: Config, s: State, a: Action, j: JobId)
    requires Exclusive(s) && Enabled(s, a)
    requires j in s.rows && s.rows[j].status.Final()
    ensures j in Next(cfg, s, a).rows && Next(cfg, s, a).rows[j] == s.rows[j]
  {
    if a.Complete? || a.Mark? || a.MarkFails? {
      assert s.Holds(a.h, s.handlers[a.h].msg.job);
    }
  }

  /** Succeeded and failed are absorbing: from any reachable point of a timely run on, the row never changes. */
  lemma {:induction false} FinalForever(cfg: Config, s: State, run: seq<Action>, j: JobId)
    requires Exclusive(s) && WithinLease(cfg, s) && TimelyRun(cfg, s, run)
    requires j in s.rows && s.rows[j].status.Final()
    ensures Run(cfg, s, run)
    ensures j in Exec(cfg, s, run).rows && Exec(cfg, s, run).rows[j] == s.rows[j]
    decreases run
  {
    if run != [] {
      ExclusiveStep(cfg, s, run[0]);
      FinalStep(cfg, s, run[0], j);
      FinalForever(cfg, Next(cfg, s, run[0]), run[1..], j);
    }
  }

  /** The same, told from the start: whatever is settled after `run` is settled in the same way after `run + more`. */
  lemma SettledRowsNeverChange(cfg: Config, run: seq<Action>, more: seq<Action>, j: JobId)
    requires TimelyRun(cfg, Init, run) && Run(cfg, Init, run) && TimelyRun(cfg, Exec(cfg, Init, run), more)
    requires j in Exec(cfg, Init, run).rows && Exec(cfg, Init, run).rows[j].status.Final()
    ensures Run(cfg, Init, run + more)
    ensures j in Exec(cfg, Init, run + more).rows && Exec(cfg, Init, run + more).rows[j] == Exec(cfg, Init, run).rows[j]
  {
    ExclusiveRun(cfg, Init, run);
    FinalForever(cfg, Exec(cfg, Init, run), more, j);
    RunConcat(cfg, Init, run, more);
  }
}
