/** The gate between a proposed rewrite and a human: proven equivalent by execution, and measurably faster. */
module Verification {
  import opened Common
  import opened Text
  import opened Shapes
  import opened Checksums
  import opened Sorting
  import opened Measuring

  datatype Parsed = Parsed(st: Statement) | Unparseable | NotReadOnly

  /** The database under optimisation as an oracle: what a text parses to, which rows it returns, and how long its
      executions take, whether it can be explained and the tables of a list introspected; with the digests and the
      collation the server sorts them by. */
  datatype Engine = Engine(
    parse: string -> Parsed, introspects: seq<string> -> bool, explains: string -> bool, rows: string -> Option<seq<string>>, executions: string -> seq<Execution>,
    rowDigest: string -> string, digest: string -> string, collation: (string, string) -> bool, configuredRuns: nat, warmup: nat)

  datatype Reason =
    | DoesNotParse | IsNotReadOnly | Identical | ShapeMismatch | ResultMismatch | ExecutionError | CandidateTimedOut | NotFaster

  datatype Candidate = Candidate(sql: string, source: string)

  datatype Verdict = Accepted | Rejected(reason: Reason)

  datatype Outcome = Outcome(
    candidate: Candidate, verdict: Verdict, baselineMedianMs: real, candidateMedianMs: real, speedup: real,
    improvementPct: real, resultsIdentical: bool, rowCount: nat)

  datatype Baseline = Baseline(st: Statement, measured: Measurement, checksum: ResultHash, ordered: bool)

  datatype Config = Config(minImprovementPct: real, runs: nat)

  function NormalizeSql(s: string): string {
    Lower(Squeeze(s))
  }

  /** Two texts count as one exactly when they have the same words, up to the case of letters. */
  lemma IdenticalExactlyWhen(a: string, b: string)
    ensures NormalizeSql(a) == NormalizeSql(b) <==>
            |Fields(a)| == |Fields(b)| && forall i :: 0 <= i < |Fields(a)| ==> EqualFold(Fields(a)[i], Fields(b)[i])
  {
    NormalIsWords(a);
    NormalIsWords(b);
    if LowerAll(Fields(a)) == LowerAll(Fields(b)) {
      assert |LowerAll(Fields(a))| == |LowerAll(Fields(b))|;
      forall i | 0 <= i < |Fields(a)|
        ensures EqualFold(Fields(a)[i], Fields(b)[i])
      {
        assert LowerAll(Fields(a))[i] == LowerAll(Fields(b))[i];
      }
    }
  }

  /** The words of a normal form are those of the text in lower case, and make it up. */
  lemma NormalIsWords(s: string)
    ensures Fields(NormalizeSql(s)) == LowerAll(Fields(s)) && NormalizeSql(s) == Join(LowerAll(Fields(s)), " ")
  {
    LowerOfJoin(Fields(s));
    FieldsOfLower(Squeeze(s));
    FieldsAreWords(s);
    FieldsOfJoin(Fields(s));
  }

  function ImprovementPct(baseline: real, candidate: real): real {
    if baseline <= 0.0 then 0.0 else (baseline - candidate) / baseline * 100.0
  }

  function MaxReal(a: real, b: real): real {
    if a > b then a else b
  }

  /** The improvement clears the floor and exceeds the run-to-run spread of either side. */
  predicate IsFaster(cfg: Config, base: Measurement, candidate: Measurement) {
    ImprovementPct(base.medianMs, candidate.medianMs) >= cfg.minImprovementPct &&
    base.medianMs - candidate.medianMs > MaxReal(base.spreadMs, candidate.spreadMs)
  }

  function RunChecksum(eng: Engine, sql: string, ordered: bool): Option<ResultHash> {
    match eng.rows(sql)
    case None => None
    case Some(rows) => Some(Checksum(eng.rowDigest, eng.digest, eng.collation, rows, ordered))
  }

  ghost predicate Ready(eng: Engine, cfg: Config) {
    cfg.runs >= 3 && forall sql :: |eng.executions(sql)| == eng.warmup + cfg.runs
  }

  /** What the timing of a query reports, if every execution comes back. */
  function TimedSummary(eng: Engine, sql: string): Measurement {
    var es := eng.executions(sql);
    if AllDone(es) then Summary(Timed(es, eng.warmup)) else Measurement(0, 0.0, 0.0, 0.0, 0.0, true)
  }

  // ------------------------------------------------------------ the baseline

  method EstablishBaseline(eng: Engine, cfg: Config, st: Statement) returns (r: Result<Baseline, ()>)
    requires Ready(eng, cfg)
    ensures r.Ok? <==> eng.explains(st.sql) && AllDone(eng.executions(st.sql)) && eng.rows(st.sql).Some?
    ensures r.Ok? ==> r.value.st == st && r.value.ordered == st.hasOrderBy
    ensures r.Ok? ==> Some(r.value.checksum) == RunChecksum(eng, st.sql, st.hasOrderBy)
    ensures r.Ok? ==> r.value.measured == TimedSummary(eng, st.sql)
  {
    if !eng.explains(st.sql) {
      return Err(());
    }
    var m := Measure(eng.executions(st.sql), cfg.runs, eng.configuredRuns, eng.warmup);
    if m.Err? || m.value.timedOut {
      return Err(());
    }
    var checksum := RunChecksum(eng, st.sql, st.hasOrderBy);
    if checksum.None? {
      return Err(());
    }
    return Ok(Baseline(st, m.value, checksum.value, st.hasOrderBy));
  }

  // ------------------------------------------------------------ the gates

  const REASONS := [DoesNotParse, IsNotReadOnly, Identical, ShapeMismatch, ExecutionError, ResultMismatch, ExecutionError, CandidateTimedOut, NotFaster]

  /** What the `k`-th gate asks of a candidate. */
  ghost predicate Passes(eng: Engine, cfg: Config, base: Baseline, c: Candidate, k: nat) {
    var p := eng.parse(c.sql);
    var es := eng.executions(c.sql);
    if k == 0 then !p.Unparseable?
    else if k == 1 then !p.NotReadOnly?
    else if k == 2 then p.Parsed? && NormalizeSql(p.st.sql) != NormalizeSql(base.st.sql)
    else if k == 3 then p.Parsed? && SameShape(base.st, p.st)
    else if k == 4 then eng.rows(c.sql).Some?
    else if k == 5 then Equal(Some(base.checksum), RunChecksum(eng, c.sql, base.ordered))
    else if k == 6 then AllDone(es) || FirstTimesOut(es)
    else if k == 7 then !FirstTimesOut(es)
    else IsFaster(cfg, base.measured, TimedSummary(eng, c.sql))
  }

  /** Accepted exactly by passing every gate; rejected with the reason of the first one failed. */
  method Verify(eng: Engine, cfg: Config, base: Baseline, c: Candidate) returns (res: Outcome, ghost failed: nat)
    requires Ready(eng, cfg)
    ensures failed <= |REASONS| && forall k :: 0 <= k < failed ==> Passes(eng, cfg, base, c, k)
    ensures failed < |REASONS| ==> !Passes(eng, cfg, base, c, failed)
    ensures res.verdict == if failed < |REASONS| then Rejected(REASONS[failed]) else Accepted
    ensures res.resultsIdentical <==> failed > 5
    ensures res.candidate == c && res.baselineMedianMs == base.measured.medianMs && res.rowCount == base.checksum.rowCount
    ensures failed < 8 ==> res.candidateMedianMs == res.improvementPct == res.speedup == 0.0
    ensures failed >= 8 ==>
              var b, m := base.measured.medianMs, TimedSummary(eng, c.sql).medianMs;
              res.candidateMedianMs == m && res.improvementPct == ImprovementPct(b, m) && res.speedup == if m > 0.0 then b / m else 0.0
  {
    failed := 0;
    res := Outcome(c, Accepted, base.measured.medianMs, 0.0, 0.0, 0.0, false, base.checksum.rowCount);

    var parsed := eng.parse(c.sql);
    if !parsed.Parsed? {
      return res.(verdict := Rejected(if parsed.NotReadOnly? then IsNotReadOnly else DoesNotParse)), if parsed.NotReadOnly? then 1 else 0;
    }
    if NormalizeSql(parsed.st.sql) == NormalizeSql(base.st.sql) {
      return res.(verdict := Rejected(Identical)), 2;
    }
    var shape := SameShapeAs(base.st, parsed.st);
    if shape.Err? {
      return res.(verdict := Rejected(ShapeMismatch)), 3;
    }
    var hash := RunChecksum(eng, c.sql, base.ordered);
    if hash.None? {
      return res.(verdict := Rejected(ExecutionError)), 4;
    }
    if !Equal(Some(base.checksum), hash) {
      return res.(verdict := Rejected(ResultMismatch)), 5;
    }
    res := res.(resultsIdentical := true);
    var m := Measure(eng.executions(c.sql), cfg.runs, eng.configuredRuns, eng.warmup);
    if m.Err? {
      return res.(verdict := Rejected(ExecutionError)), 6;
    }
    if m.value.timedOut {
      return res.(verdict := Rejected(CandidateTimedOut)), 7;
    }
    res := res.(candidateMedianMs := m.value.medianMs, improvementPct := ImprovementPct(base.measured.medianMs, m.value.medianMs));
    if m.value.medianMs > 0.0 {
      res := res.(speedup := base.measured.medianMs / m.value.medianMs);
    }
    if !IsFaster(cfg, base.measured, m.value) {
      return res.(verdict := Rejected(NotFaster)), 8;
    }
    failed := 9;
  }

  // ------------------------------------------------------------ what acceptance means

  ghost predicate AcceptedBy(eng: Engine, cfg: Config, base: Baseline, c: Candidate) {
    forall k :: 0 <= k < |REASONS| ==> Passes(eng, cfg, base, c, k)
  }

  /** The baseline of a statement, as EstablishBaseline leaves it. */
  ghost predicate IsBaseline(eng: Engine, base: Baseline) {
    && base.ordered == base.st.hasOrderBy && eng.rows(base.st.sql).Some?
    && Some(base.checksum) == RunChecksum(eng, base.st.sql, base.st.hasOrderBy)
    && AllDone(eng.executions(base.st.sql)) && base.measured == TimedSummary(eng, base.st.sql)
  }

  /** The server's digests behave on these two results: one width, and no two inputs met here share a digest. */
  ghost predicate DigestsApart(eng: Engine, r: seq<string>, s: seq<string>, ordered: bool) {
    && TotalPreorder(eng.collation)
    && (exists width :: FixedWidth(eng.rowDigest, width, r) && FixedWidth(eng.rowDigest, width, s))
    && !RowCollision(eng.rowDigest, r, s)
    && var a, b := Aggregate(eng.rowDigest, eng.collation, r, ordered), Aggregate(eng.rowDigest, eng.collation, s, ordered);
       eng.digest(a) == eng.digest(b) ==> a == b
  }

  /** An accepted candidate returns the rows of the original, in its order if it promises one, reads the same tables,
      and is a different text. */
  lemma AcceptedIsEquivalent(eng: Engine, cfg: Config, base: Baseline, c: Candidate)
    requires IsBaseline(eng, base) && AcceptedBy(eng, cfg, base, c)
    requires eng.rows(c.sql).Some? ==> DigestsApart(eng, eng.rows(base.st.sql).value, eng.rows(c.sql).value, base.st.hasOrderBy)
    ensures eng.rows(c.sql).Some? && SameResult(eng.rows(base.st.sql).value, eng.rows(c.sql).value, base.st.hasOrderBy)
    ensures eng.parse(c.sql).Parsed? && SameShape(base.st, eng.parse(c.sql).st)
    ensures NormalizeSql(eng.parse(c.sql).st.sql) != NormalizeSql(base.st.sql)
  {
    assert Passes(eng, cfg, base, c, 2) && Passes(eng, cfg, base, c, 3) && Passes(eng, cfg, base, c, 4) && Passes(eng, cfg, base, c, 5);
    var r, s := eng.rows(base.st.sql).value, eng.rows(c.sql).value;
    var width :| FixedWidth(eng.rowDigest, width, r) && FixedWidth(eng.rowDigest, width, s);
    SameChecksumOrCollision(eng.rowDigest, eng.digest, eng.collation, width, r, s, base.ordered);
  }

  /** The gate of results never turns away an equivalent candidate, if the collation tells the baseline's digests apart. */
  lemma EquivalentPassesResults(eng: Engine, cfg: Config, base: Baseline, c: Candidate)
    requires IsBaseline(eng, base) && TotalPreorder(eng.collation)
    requires !base.ordered ==> TellsApart(eng.collation, Digests(eng.rowDigest, eng.rows(base.st.sql).value))
    requires eng.rows(c.sql).Some? && SameResult(eng.rows(base.st.sql).value, eng.rows(c.sql).value, base.st.hasOrderBy)
    ensures Passes(eng, cfg, base, c, 5)
  {
    SameResultSameChecksum(eng.rowDigest, eng.digest, eng.collation, eng.rows(base.st.sql).value, eng.rows(c.sql).value, base.ordered);
  }

  /** The percentage is the share of the baseline that is saved, of a hundred. */
  lemma ImprovementIsShareSaved(baseline: real, candidate: real)
    ensures baseline > 0.0 ==> candidate == baseline - baseline * ImprovementPct(baseline, candidate) / 100.0
    ensures baseline <= 0.0 ==> ImprovementPct(baseline, candidate) == 0.0
  {
    if baseline > 0.0 {
      var share := (baseline - candidate) / baseline;
      assert baseline * (share * 100.0) / 100.0 == baseline * share == baseline - candidate;
    }
  }

  /** The last gate, told of the timed runs alone: it opens exactly when the candidate's median is below the baseline's by the
      demanded share of it, and by more than any two runs of one sample are apart. */
  lemma FasterExactlyWhen(cfg: Config, b: seq<real>, c: seq<real>)
    requires b != [] && c != [] && MedianOf(b) > 0.0
    ensures IsFaster(cfg, Summary(b), Summary(c)) <==>
              && MedianOf(c) <= MedianOf(b) * (1.0 - cfg.minImprovementPct / 100.0)
              && (forall i, j :: 0 <= i < |b| && 0 <= j < |b| ==> b[i] - b[j] < MedianOf(b) - MedianOf(c))
              && (forall i, j :: 0 <= i < |c| && 0 <= j < |c| ==> c[i] - c[j] < MedianOf(b) - MedianOf(c))
  {
    ShareSaved(MedianOf(b), MedianOf(c), cfg.minImprovementPct);
    SpreadBelow(b, MedianOf(b) - MedianOf(c));
    SpreadBelow(c, MedianOf(b) - MedianOf(c));
  }

  lemma ShareSaved(baseline: real, candidate: real, floor: real)
    requires baseline > 0.0
    ensures ImprovementPct(baseline, candidate) >= floor <==> candidate <= baseline * (1.0 - floor / 100.0)
  {
    ImprovementIsShareSaved(baseline, candidate);
    var pct := ImprovementPct(baseline, candidate);
    assert baseline * (1.0 - floor / 100.0) - candidate == baseline * (pct - floor) / 100.0;
    if pct >= floor {
      assert baseline * (pct - floor) >= 0.0;
    } else {
      assert baseline * (floor - pct) > 0.0;
    }
  }

  lemma SpreadBelow(times: seq<real>, gap: real)
    requires times != []
    ensures Summary(times).spreadMs < gap <==> forall i, j :: 0 <= i < |times| && 0 <= j < |times| ==> times[i] - times[j] < gap
  {
    RunsWithinReport(times);
    var m := Summary(times);
    var i :| 0 <= i < |times| && times[i] == m.maxMs;
    var j :| 0 <= j < |times| && times[j] == m.minMs;
    assert m.spreadMs == times[i] - times[j];
  }

  /** The noise test separates the samples: every timed run of the baseline is slower than the candidate's median, and
      every timed run of the candidate faster than the baseline's. */
  lemma FasterSeparatesSamples(cfg: Config, b: seq<real>, c: seq<real>)
    requires b != [] && c != [] && IsFaster(cfg, Summary(b), Summary(c))
    ensures forall i :: 0 <= i < |b| ==> b[i] > Summary(c).medianMs
    ensures forall i :: 0 <= i < |c| ==> c[i] < Summary(b).medianMs
    ensures ImprovementPct(Summary(b).medianMs, Summary(c).medianMs) >= cfg.minImprovementPct
  {
    RunsWithinReport(b);
    RunsWithinReport(c);
  }

  /** The same for an accepted candidate and its baseline. */
  lemma AcceptedSeparatesSamples(eng: Engine, cfg: Config, base: Baseline, c: Candidate)
    requires Ready(eng, cfg) && IsBaseline(eng, base) && AcceptedBy(eng, cfg, base, c)
    ensures AllDone(eng.executions(c.sql))
    ensures var b, t := Timed(eng.executions(base.st.sql), eng.warmup), Timed(eng.executions(c.sql), eng.warmup);
            && |b| == cfg.runs && |t| == cfg.runs
            && (forall i :: 0 <= i < |b| ==> b[i] > MedianOf(t))
            && (forall i :: 0 <= i < |t| ==> t[i] < MedianOf(b))
  {
    assert Passes(eng, cfg, base, c, 6) && Passes(eng, cfg, base, c, 7) && Passes(eng, cfg, base, c, 8);
    FasterSeparatesSamples(cfg, Timed(eng.executions(base.st.sql), eng.warmup), Timed(eng.executions(c.sql), eng.warmup));
  }
}
