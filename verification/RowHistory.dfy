/** What the columns of a job's row say about its past, whatever has happened to the job. */
module RowHistory {
  import opened Common
  import opened Store
  import opened Protocol
  import opened Exclusion
  import opened Limits
  import Optimizer
  import Verification

  const EXPIRED := "worker lease expired"

  /** True of a row in every state of every run, however late or broken its handlers. */
  predicate Coherent(row: Row, now: int) {
    && (row.status == Queued ==> row.attempts == 0 && row.lastError == "" && row.report.None?)
    && (row.attempts == 0 ==> row.status == Queued)
    && (row.startedAt.Some? <==> row.attempts >= 1)
    && (row.finishedAt.Some? ==> row.status.Final() && row.startedAt.Some? && row.startedAt.value <= row.finishedAt.value <= now)
    && (row.startedAt.Some? ==> row.startedAt.value <= now)
    && (row.status == Succeeded ==> row.report.Some? && row.finishedAt.Some? && row.lastError == "")
    && (row.status == Retrying ==> row.attempts < row.maxAttempts)
    && (row.status == Failed ==> row.attempts >= row.maxAttempts && (row.finishedAt.None? ==> row.lastError == EXPIRED))
  }

  ghost predicate AllCoherent(s: State) {
    && (forall j :: j in s.rows ==> Coherent(s.rows[j], s.now))
    && (forall h, j :: s.Holds(h, j) ==> j in s.rows && s.rows[j].attempts >= 1)
  }

  lemma RowStep(cfg: Config, s: State, a: Action, j: JobId)
    requires Enabled(s, a) && AllCoherent(s) && j in Next(cfg, s, a).rows
    ensures Coherent(Next(cfg, s, a).rows[j], Next(cfg, s, a).now)
    ensures j in s.rows ==> Next(cfg, s, a).rows[j].attempts >= s.rows[j].attempts
  {
    if a.Complete? || a.Mark? || a.MarkFails? {
      assert s.Holds(a.h, s.handlers[a.h].msg.job);
    }
  }

  lemma AllCoherentStep(cfg: Config, s: State, a: Action)
    requires Enabled(s, a) && AllCoherent(s)
    ensures AllCoherent(Next(cfg, s, a))
  {
    var t := Next(cfg, s, a);
    forall j | j in t.rows
      ensures Coherent(t.rows[j], t.now)
    {
      RowStep(cfg, s, a, j);
    }
    forall h, j | t.Holds(h, j)
      ensures j in t.rows && t.rows[j].attempts >= 1
    {
      HolderStep(cfg, s, a, h, j);
      if s.Holds(h, j) {
        StillThere(cfg, s, a, j);
        RowStep(cfg, s, a, j);
      }
    }
  }

  lemma StillThere(cfg: Config, s: State, a: Action, j: JobId)
    requires Enabled(s, a) && j in s.rows
    ensures j in Next(cfg, s, a).rows
  {
  }

  lemma {:induction false} AllCoherentRun(cfg: Config, s: State, run: seq<Action>)
    requires Run(cfg, s, run) && AllCoherent(s)
    ensures AllCoherent(Exec(cfg, s, run))
    decreases run
  {
    if run != [] {
      AllCoherentStep(cfg, s, run[0]);
      AllCoherentRun(cfg, Next(cfg, s, run[0]), run[1..]);
    }
  }

  /** Over every run whatever: a row's times, attempts, report and error agree with its status. */
  lemma RowsStayCoherent(cfg: Config, run: seq<Action>, j: JobId)
    requires Run(cfg, Init, run) && j in Exec(cfg, Init, run).rows
    ensures Coherent(Exec(cfg, Init, run).rows[j], Exec(cfg, Init, run).now)
  {
    AllCoherentRun(cfg, Init, run);
  }

  lemma OneRowPerKeyStep(cfg: Config, s: State, a: Action)
    requires Enabled(s, a) && UniqueKeys(s.rows)
    ensures UniqueKeys(Next(cfg, s, a).rows)
  {
    var t := Next(cfg, s, a);
    forall j | j in t.rows
      ensures if j in s.rows then t.rows[j].key == s.rows[j].key else a.Create? && a.job == j && t.rows[j].key == a.key
    {
      KeyStep(cfg, s, a, j);
    }
  }

  lemma KeyStep(cfg: Config, s: State, a: Action, j: JobId)
    requires Enabled(s, a) && j in Next(cfg, s, a).rows
    ensures var t := Next(cfg, s, a);
            if j in s.rows then t.rows[j].key == s.rows[j].key else a.Create? && a.job == j && t.rows[j].key == a.key
  {
  }

  lemma {:induction false} OneRowPerKeyRun(cfg: Config, s: State, run: seq<Action>)
    requires Run(cfg, s, run) && UniqueKeys(s.rows)
    ensures UniqueKeys(Exec(cfg, s, run).rows)
    decreases run
  {
    if run != [] {
      OneRowPerKeyStep(cfg, s, run[0]);
      OneRowPerKeyRun(cfg, Next(cfg, s, run[0]), run[1..]);
    }
  }

  /** After every run whatever, no two rows have one idempotency key. */
  lemma OneRowPerKey(cfg: Config, run: seq<Action>, i: JobId, j: JobId)
    requires Run(cfg, Init, run)
    ensures var rows := Exec(cfg, Init, run).rows;
            i in rows && j in rows && rows[i].key == rows[j].key ==> i == j
  {
    OneRowPerKeyRun(cfg, Init, run);
  }

  // ------------------------------------------------------------ rows without a finish time

  /** The step writes the job's row. */
  predicate WritesRow(cfg: Config, s: State, a: Action, j: JobId)
    requires Enabled(s, a)
  {
    match a
    case Create(_, job, _, _, _) => job == j
    case Claim(h) => s.handlers[h].msg.job == j && Claimable(s, j)
    case ClaimFails(h, applied) => s.handlers[h].msg.job == j && applied && Claimable(s, j)
    case Complete(h) => s.handlers[h].msg.job == j && j in s.rows
    case Mark(h) => s.handlers[h].msg.job == j && j in s.rows
    case MarkFails(h, applied) => s.handlers[h].msg.job == j && applied && j in s.rows
    case Reclaim => j in s.rows && Stale(s.rows[j], s.now, Lease(cfg.jobTimeout))
    case _ => false
  }

  /** The last step of the run that wrote the job's row, or the one before the run. */
  ghost function LastWrite(cfg: Config, s: State, run: seq<Action>, j: JobId, before: Option<Action>): Option<Action>
    requires Run(cfg, s, run)
    decreases run
  {
    if run == [] then before
    else LastWrite(cfg, Next(cfg, s, run[0]), run[1..], j, if WritesRow(cfg, s, run[0], j) then Some(run[0]) else before)
  }

  lemma UnwrittenRow(cfg: Config, s: State, a: Action, j: JobId)
    requires Enabled(s, a) && !WritesRow(cfg, s, a, j)
    ensures j in Next(cfg, s, a).rows <==> j in s.rows
    ensures j in s.rows ==> Next(cfg, s, a).rows[j] == s.rows[j]
  {
  }

  /** A failed row lacks its finish time exactly when the sweep was the last to write it. */
  ghost predicate FinishExplained(s: State, j: JobId, last: Option<Action>) {
    j in s.rows && s.rows[j].status == Failed ==> (s.rows[j].finishedAt.None? <==> last == Some(Reclaim))
  }

  lemma FinishStep(cfg: Config, s: State, a: Action, j: JobId, last: Option<Action>)
    requires Enabled(s, a) && AllCoherent(s) && FinishExplained(s, j, last)
    ensures FinishExplained(Next(cfg, s, a), j, if WritesRow(cfg, s, a, j) then Some(a) else last)
  {
    if WritesRow(cfg, s, a, j) {
      if a.Reclaim? {
        assert Coherent(s.rows[j], s.now);
      }
    } else {
      UnwrittenRow(cfg, s, a, j);
    }
  }

  lemma {:induction false} FinishRun(cfg: Config, s: State, run: seq<Action>, j: JobId, last: Option<Action>)
    requires Run(cfg, s, run) && AllCoherent(s) && FinishExplained(s, j, last)
    ensures FinishExplained(Exec(cfg, s, run), j, LastWrite(cfg, s, run, j, last))
    decreases run
  {
    if run != [] {
      FinishStep(cfg, s, run[0], j, last);
      AllCoherentStep(cfg, s, run[0]);
      FinishRun(cfg, Next(cfg, s, run[0]), run[1..], j, if WritesRow(cfg, s, run[0], j) then Some(run[0]) else last);
    }
  }

  /** After every run whatever, a failed row has no finish time exactly when the last write to it was the sweep's. */
  lemma NoFinishTimeExactlyWhen(cfg: Config, run: seq<Action>, j: JobId)
    requires Run(cfg, Init, run) && j in Exec(cfg, Init, run).rows && Exec(cfg, Init, run).rows[j].status == Failed
    ensures Exec(cfg, Init, run).rows[j].finishedAt.None? <==> LastWrite(cfg, Init, run, j, None) == Some(Reclaim)
  {
    FinishRun(cfg, Init, run, j, None);
  }

  /** The worker dies in the only attempt, and the sweep fails the job. */
  lemma SweepLeavesNoFinishTime(cfg: Config) returns (run: seq<Action>)
    requires Lease(cfg.jobTimeout) >= 0
    ensures TimelyRun(cfg, Init, run) && Run(cfg, Init, run) && 0 in Exec(cfg, Init, run).rows
    ensures Exec(cfg, Init, run).rows[0].status == Failed && Exec(cfg, Init, run).rows[0].finishedAt.None?
  {
    var s;
    run, s := CrashAndDrop(cfg, 1);
    run, s := Then(cfg, Timely, Init, run, s, Tick(Lease(cfg.jobTimeout) + 1));
    run, s := Then(cfg, Timely, Init, run, s, Reclaim);
  }

  // ------------------------------------------------------------ reports

  /** A report is on the row exactly when the job succeeded. */
  ghost predicate ReportsMeanSuccess(s: State) {
    forall j :: j in s.rows ==> (s.rows[j].report.Some? <==> s.rows[j].status == Succeeded)
  }

  lemma ReportStep(cfg: Config, s: State, a: Action, j: JobId)
    requires Exclusive(s) && Enabled(s, a) && j in Next(cfg, s, a).rows
    requires j in s.rows ==> (s.rows[j].report.Some? <==> s.rows[j].status == Succeeded)
    ensures Next(cfg, s, a).rows[j].report.Some? <==> Next(cfg, s, a).rows[j].status == Succeeded
  {
    if a.Complete? || a.Mark? || a.MarkFails? {
      assert s.Holds(a.h, s.handlers[a.h].msg.job);
    }
  }

  lemma {:induction false} ReportRun(cfg: Config, s: State, run: seq<Action>)
    requires Exclusive(s) && WithinLease(cfg, s) && TimelyRun(cfg, s, run) && ReportsMeanSuccess(s)
    ensures Run(cfg, s, run) && ReportsMeanSuccess(Exec(cfg, s, run))
    decreases run
  {
    if run != [] {
      var t := Next(cfg, s, run[0]);
      ExclusiveStep(cfg, s, run[0]);
      forall j | j in t.rows
        ensures t.rows[j].report.Some? <==> t.rows[j].status == Succeeded
      {
        ReportStep(cfg, s, run[0], j);
      }
      ReportRun(cfg, t, run[1..]);
    }
  }

  /** While every handler keeps within its lease, a report is on a row exactly when its job succeeded. */
  lemma ReportExactlyWhenSucceeded(cfg: Config, run: seq<Action>, j: JobId)
    requires TimelyRun(cfg, Init, run)
    ensures Run(cfg, Init, run)
    ensures j in Exec(cfg, Init, run).rows ==>
              (Exec(cfg, Init, run).rows[j].report.Some? <==> Exec(cfg, Init, run).rows[j].status == Succeeded)
  {
    ReportRun(cfg, Init, run);
  }

  // ------------------------------------------------------------ whose report it is

  /** What each handler has reported last, after one more step. */
  function Saying(said: map<nat, Report>, a: Action): map<nat, Report> {
    if a.Succeed? then said[a.h := a.report] else said
  }

  /** The report the job's row ought to show after one more step: that of the handler whose completion writes the row. */
  function Showing(s: State, a: Action, j: JobId, shown: Option<Report>, said: map<nat, Report>): Option<Report>
    requires Enabled(s, a)
  {
    if a.Complete? && s.handlers[a.h].msg.job == j && j in s.rows then
      if a.h in said then Some(said[a.h]) else None
    else shown
  }

  /** The report of the last completion in the run that wrote the job's row, or the one before the run. */
  ghost function LastReport(
    cfg: Config, s: State, run: seq<Action>, j: JobId, shown: Option<Report>, said: map<nat, Report>): Option<Report>
    requires Run(cfg, s, run)
    decreases run
  {
    if run == [] then shown
    else LastReport(cfg, Next(cfg, s, run[0]), run[1..], j, Showing(s, run[0], j, shown, said), Saying(said, run[0]))
  }

  ghost predicate ReportExplained(s: State, j: JobId, shown: Option<Report>, said: map<nat, Report>) {
    && (if j in s.rows then s.rows[j].report == shown else shown == None)
    && forall h :: h in s.handlers && s.handlers[h].Finishing? ==> h in said && said[h] == s.handlers[h].report
  }

  lemma ShownStep(cfg: Config, s: State, a: Action, j: JobId, shown: Option<Report>, said: map<nat, Report>)
    requires Enabled(s, a) && ReportExplained(s, j, shown, said)
    ensures var t := Next(cfg, s, a); if j in t.rows then t.rows[j].report == Showing(s, a, j, shown, said) else shown == None
    ensures j !in Next(cfg, s, a).rows ==> Showing(s, a, j, shown, said) == None
  {
  }

  lemma SaidStep(cfg: Config, s: State, a: Action, h: nat, said: map<nat, Report>)
    requires Enabled(s, a) && h in Next(cfg, s, a).handlers && Next(cfg, s, a).handlers[h].Finishing?
    requires h in s.handlers && s.handlers[h].Finishing? ==> h in said && said[h] == s.handlers[h].report
    ensures h in Saying(said, a) && Saying(said, a)[h] == Next(cfg, s, a).handlers[h].report
  {
  }

  lemma {:induction false} ReportsExplained(
    cfg: Config, s: State, run: seq<Action>, j: JobId, shown: Option<Report>, said: map<nat, Report>)
    requires Run(cfg, s, run) && ReportExplained(s, j, shown, said)
    ensures var t := Exec(cfg, s, run);
            if j in t.rows then t.rows[j].report == LastReport(cfg, s, run, j, shown, said)
            else LastReport(cfg, s, run, j, shown, said) == None
    decreases run
  {
    if run != [] {
      var t := Next(cfg, s, run[0]);
      ShownStep(cfg, s, run[0], j, shown, said);
      forall h | h in t.handlers && t.handlers[h].Finishing?
        ensures h in Saying(said, run[0]) && Saying(said, run[0])[h] == t.handlers[h].report
      {
        SaidStep(cfg, s, run[0], h, said);
      }
      ReportsExplained(cfg, t, run[1..], j, Showing(s, run[0], j, shown, said), Saying(said, run[0]));
    }
  }

  /** After every run whatever, the report on a row is the one its last completing handler came back with. */
  lemma ReportIsTheLastOne(cfg: Config, run: seq<Action>, j: JobId)
    requires Run(cfg, Init, run) && j in Exec(cfg, Init, run).rows
    ensures Exec(cfg, Init, run).rows[j].report == LastReport(cfg, Init, run, j, None, map[])
  {
    ReportsExplained(cfg, Init, run, j, None, map[]);
  }

  /** So a step of the run has reported it. */
  lemma {:induction false} ReportWasSaid(
    cfg: Config, s: State, run: seq<Action>, j: JobId, shown: Option<Report>, said: map<nat, Report>, all: set<Report>)
    requires Run(cfg, s, run) && LastReport(cfg, s, run, j, shown, said).Some?
    requires (shown.Some? ==> shown.value in all) && forall h :: h in said ==> said[h] in all
    requires forall i :: 0 <= i < |run| && run[i].Succeed? ==> run[i].report in all
    ensures LastReport(cfg, s, run, j, shown, said).value in all
    decreases run
  {
    if run != [] {
      ReportWasSaid(cfg, Next(cfg, s, run[0]), run[1..], j, Showing(s, run[0], j, shown, said), Saying(said, run[0]), all);
    }
  }

  // ------------------------------------------------------------ stored figures

  /** What a handler reports is what an optimisation run found. */
  ghost predicate Measured(eng: Verification.Engine, cfg: Verification.Config, a: Action) {
    a.Succeed? ==> exists sql, candidates, rep :: FoundBy(eng, cfg, sql, candidates, rep) && a.report == Optimizer.Stored(rep)
  }

  ghost predicate FoundBy(
    eng: Verification.Engine, cfg: Verification.Config, sql: string, candidates: seq<Verification.Candidate>, rep: Optimizer.Report)
  {
    Optimizer.IsReport(eng, cfg, sql, candidates, rep) && (rep.best.Some? ==> rep.best.value < |rep.outcomes|)
  }

  /** The three figures are those of the run: the baseline's median, and the median and percentage of the best outcome, or the
      baseline's once more and nothing gained. */
  ghost predicate FiguresOf(r: Report, rep: Optimizer.Report) {
    && r.baselineMs == rep.baselineMs
    && match rep.best
       case None => r.bestMs == rep.baselineMs && r.improvementPct == 0.0
       case Some(b) =>
         && b < |rep.outcomes| && rep.outcomes[b].verdict.Accepted?
         && r.bestMs == rep.outcomes[b].candidateMedianMs && r.improvementPct == rep.outcomes[b].improvementPct
  }

  ghost predicate Found(eng: Verification.Engine, cfg: Verification.Config, r: Report) {
    exists sql, candidates, rep :: FoundBy(eng, cfg, sql, candidates, rep) && FiguresOf(r, rep)
  }

  /** The best time is never above the baseline, and is the baseline less the percentage of it. */
  predicate Agrees(r: Report) {
    r.bestMs <= r.baselineMs && (r.baselineMs > 0.0 ==> r.bestMs == r.baselineMs - r.baselineMs * r.improvementPct / 100.0)
  }

  lemma ShareAgrees(r: Report)
    requires r.bestMs <= r.baselineMs && r.improvementPct == Verification.ImprovementPct(r.baselineMs, r.bestMs)
    ensures Agrees(r)
  {
    Verification.ImprovementIsShareSaved(r.baselineMs, r.bestMs);
  }

  lemma StoredFigures(rep: Optimizer.Report)
    requires rep.best.Some? ==> rep.best.value < |rep.outcomes| && rep.outcomes[rep.best.value].verdict.Accepted?
    ensures FiguresOf(Optimizer.Stored(rep), rep)
  {
  }

  lemma FiguresAgree(
    eng: Verification.Engine, cfg: Verification.Config, sql: string, candidates: seq<Verification.Candidate>, rep: Optimizer.Report)
    requires Verification.Ready(eng, cfg) && FoundBy(eng, cfg, sql, candidates, rep)
    ensures Found(eng, cfg, Optimizer.Stored(rep)) && Agrees(Optimizer.Stored(rep))
  {
    Optimizer.StoredIsConsistent(eng, cfg, sql, candidates, rep);
    ShareAgrees(Optimizer.Stored(rep));
    Optimizer.BestIsAccepted(eng, cfg, sql, candidates, rep);
    StoredFigures(rep);
  }

  lemma ReportIsReported(cfg: Config, run: seq<Action>, j: JobId) returns (i: nat)
    requires Run(cfg, Init, run) && j in Exec(cfg, Init, run).rows && Exec(cfg, Init, run).rows[j].report.Some?
    ensures i < |run| && run[i].Succeed? && run[i].report == Exec(cfg, Init, run).rows[j].report.value
  {
    ReportIsTheLastOne(cfg, run, j);
    var all := set i | 0 <= i < |run| && run[i].Succeed? :: run[i].report;
    ReportWasSaid(cfg, Init, run, j, None, map[], all);
    i :| 0 <= i < |run| && run[i].Succeed? && run[i].report == Exec(cfg, Init, run).rows[j].report.value;
  }

  /** In every run whose reports come from optimisation runs, a row shows the figures of one of these, and they agree. */
  lemma StoredFiguresAgree(eng: Verification.Engine, vcfg: Verification.Config, cfg: Config, run: seq<Action>, j: JobId)
    requires Verification.Ready(eng, vcfg) && Run(cfg, Init, run)
    requires forall i :: 0 <= i < |run| ==> Measured(eng, vcfg, run[i])
    requires j in Exec(cfg, Init, run).rows && Exec(cfg, Init, run).rows[j].report.Some?
    ensures var r := Exec(cfg, Init, run).rows[j].report.value;
            Found(eng, vcfg, r) && Agrees(r)
  {
    var i := ReportIsReported(cfg, run, j);
    assert Measured(eng, vcfg, run[i]);
    var sql, candidates, rep :| FoundBy(eng, vcfg, sql, candidates, rep) && run[i].report == Optimizer.Stored(rep);
    FiguresAgree(eng, vcfg, sql, candidates, rep);
  }
}
