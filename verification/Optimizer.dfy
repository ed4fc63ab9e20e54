/** One optimisation run: which candidates are tested, which one is best, and which indexes are worth recommending. */
module Optimizer {
  import opened Common
  import opened Text
  import opened Verification
  import Measuring
  import Schema
  import Sorting
  import Store

  // ------------------------------------------------------------ candidates

  /** The elements whose key is not in `seen` and not that of an earlier one. */
  function FirstOfKey<T>(cs: seq<T>, key: T -> string, seen: set<string>): seq<T> {
    if cs == [] then []
    else if key(cs[0]) in seen then FirstOfKey(cs[1..], key, seen)
    else [cs[0]] + FirstOfKey(cs[1..], key, seen + {key(cs[0])})
  }

  /** Every one kept is an element with a new key. */
  lemma {:induction false} FirstOfKeyIsNew<T(!new)>(cs: seq<T>, key: T -> string, seen: set<string>, c: T)
    requires c in FirstOfKey(cs, key, seen)
    ensures c in cs && key(c) !in seen
  {
    if key(cs[0]) in seen {
      FirstOfKeyIsNew(cs[1..], key, seen, c);
    } else if c != cs[0] {
      assert c in FirstOfKey(cs[1..], key, seen + {key(cs[0])});
      FirstOfKeyIsNew(cs[1..], key, seen + {key(cs[0])}, c);
    }
  }

  /** No key is kept twice. */
  lemma {:induction false} FirstOfKeyIsDistinct<T(!new)>(cs: seq<T>, key: T -> string, seen: set<string>, i: nat, j: nat)
    requires i < j < |FirstOfKey(cs, key, seen)|
    ensures key(FirstOfKey(cs, key, seen)[i]) != key(FirstOfKey(cs, key, seen)[j])
  {
    if key(cs[0]) in seen {
      FirstOfKeyIsDistinct(cs[1..], key, seen, i, j);
    } else if i > 0 {
      FirstOfKeyIsDistinct(cs[1..], key, seen + {key(cs[0])}, i - 1, j - 1);
    } else {
      var rest := FirstOfKey(cs[1..], key, seen + {key(cs[0])});
      FirstOfKeyIsNew(cs[1..], key, seen + {key(cs[0])}, rest[j - 1]);
    }
  }

  /** Every element is kept, up to repetition of its key. */
  lemma {:induction false} FirstOfKeyCovers<T(!new)>(cs: seq<T>, key: T -> string, seen: set<string>, c: T)
    requires c in cs
    ensures key(c) in seen || exists d :: d in FirstOfKey(cs, key, seen) && key(d) == key(c)
  {
    if key(cs[0]) in seen {
      if c != cs[0] {
        FirstOfKeyCovers(cs[1..], key, seen, c);
      }
    } else {
      assert cs[0] in FirstOfKey(cs, key, seen);
      if key(c) != key(cs[0]) {
        FirstOfKeyCovers(cs[1..], key, seen + {key(cs[0])}, c);
        assert forall d :: d in FirstOfKey(cs[1..], key, seen + {key(cs[0])}) ==> d in FirstOfKey(cs, key, seen);
      }
    }
  }

  function NormalForm(c: Candidate): string {
    NormalizeSql(c.sql)
  }

  /** The candidates a run tests: new normal forms, each once. */
  function Fresh(cs: seq<Candidate>, original: string): seq<Candidate> {
    FirstOfKey(cs, NormalForm, {NormalizeSql(original)})
  }

  /** Pairwise different from each other and from the original, and no candidate is left out but as a repetition. */
  lemma FreshIsExact(cs: seq<Candidate>, original: string)
    ensures var tested := Fresh(cs, original);
            && (forall c :: c in tested ==> c in cs && NormalForm(c) != NormalizeSql(original))
            && (forall i, j :: 0 <= i < j < |tested| ==> NormalForm(tested[i]) != NormalForm(tested[j]))
            && (forall c :: c in cs ==> NormalForm(c) == NormalizeSql(original) || exists d :: d in tested && NormalForm(d) == NormalForm(c))
  {
    var tested := Fresh(cs, original);
    forall c | c in tested
      ensures c in cs && NormalForm(c) != NormalizeSql(original)
    {
      FirstOfKeyIsNew(cs, NormalForm, {NormalizeSql(original)}, c);
    }
    forall i, j | 0 <= i < j < |tested|
      ensures NormalForm(tested[i]) != NormalForm(tested[j])
    {
      FirstOfKeyIsDistinct(cs, NormalForm, {NormalizeSql(original)}, i, j);
    }
    forall c | c in cs
      ensures NormalForm(c) == NormalizeSql(original) || exists d :: d in tested && NormalForm(d) == NormalForm(c)
    {
      FirstOfKeyCovers(cs, NormalForm, {NormalizeSql(original)}, c);
    }
  }

  /** What the gate may answer for a candidate. */
  ghost predicate Verified(eng: Engine, cfg: Config, base: Baseline, c: Candidate, o: Outcome) {
    && o.candidate == c && o.baselineMedianMs == base.measured.medianMs
    && (o.verdict.Accepted? <==> AcceptedBy(eng, cfg, base, c))
    && (o.verdict == Rejected(Identical) ==> !Passes(eng, cfg, base, c, 2) && Passes(eng, cfg, base, c, 0) && Passes(eng, cfg, base, c, 1))
    && (o.verdict.Accepted? ==>
          && o.candidateMedianMs == TimedSummary(eng, c.sql).medianMs
          && o.improvementPct == ImprovementPct(base.measured.medianMs, o.candidateMedianMs)
          && IsFaster(cfg, base.measured, TimedSummary(eng, c.sql)))
  }

  method VerifyOne(eng: Engine, cfg: Config, base: Baseline, c: Candidate) returns (o: Outcome)
    requires Ready(eng, cfg)
    ensures Verified(eng, cfg, base, c, o)
  {
    ghost var failed;
    o, failed := Verify(eng, cfg, base, c);
    if failed == |REASONS| {
      assert Passes(eng, cfg, base, c, 8);
    }
  }

  method TestCandidates(eng: Engine, cfg: Config, base: Baseline, cs: seq<Candidate>) returns (outcomes: seq<Outcome>)
    requires Ready(eng, cfg)
    ensures |outcomes| == |Fresh(cs, base.st.sql)|
    ensures forall i :: 0 <= i < |outcomes| ==> Verified(eng, cfg, base, Fresh(cs, base.st.sql)[i], outcomes[i])
  {
    outcomes := [];
    var seen := {NormalizeSql(base.st.sql)};
    ghost var all := Fresh(cs, base.st.sql);
    for i := 0 to |cs|
      invariant |outcomes| <= |all| && all[|outcomes|..] == FirstOfKey(cs[i..], NormalForm, seen)
      invariant forall k :: 0 <= k < |outcomes| ==> Verified(eng, cfg, base, all[k], outcomes[k])
    {
      var key := NormalizeSql(cs[i].sql);
      assert cs[i..][1..] == cs[i + 1..];
      if key in seen {
        continue;
      }
      seen := seen + {key};
      var o := VerifyOne(eng, cfg, base, cs[i]);
      assert all[|outcomes|] == all[|outcomes|..][0] == cs[i];
      assert all[|outcomes| + 1..] == all[|outcomes|..][1..];
      outcomes := outcomes + [o];
    }
  }

  /** The parsers hand on the text they were given, trimmed. */
  ghost predicate ParsersTrim(eng: Engine) {
    forall s :: eng.parse(s).Parsed? ==> eng.parse(s).st.sql == TrimSpace(s)
  }

  lemma NormalOfTrimmed(s: string)
    ensures NormalizeSql(TrimSpace(s)) == NormalizeSql(s)
  {
    FieldsOfTrimSpace(s);
  }

  /** The gate against the original query never closes in a run: its text has been filtered out already. */
  lemma NeverIdentical(eng: Engine, cfg: Config, base: Baseline, cs: seq<Candidate>, i: nat, o: Outcome)
    requires ParsersTrim(eng) && i < |Fresh(cs, base.st.sql)|
    requires Verified(eng, cfg, base, Fresh(cs, base.st.sql)[i], o)
    ensures o.verdict != Rejected(Identical)
  {
    var c := Fresh(cs, base.st.sql)[i];
    FirstOfKeyIsNew(cs, NormalForm, {NormalizeSql(base.st.sql)}, c);
    NormalOfTrimmed(c.sql);
  }

  // ------------------------------------------------------------ the best candidate

  /** The first accepted outcome of the largest improvement. */
  ghost predicate IsBest(outcomes: seq<Outcome>, best: Option<nat>) {
    match best
    case None => forall i :: 0 <= i < |outcomes| ==> !outcomes[i].verdict.Accepted?
    case Some(b) =>
      && b < |outcomes| && outcomes[b].verdict.Accepted?
      && (forall i :: 0 <= i < |outcomes| && outcomes[i].verdict.Accepted? ==> outcomes[i].improvementPct <= outcomes[b].improvementPct)
      && (forall i :: 0 <= i < b && outcomes[i].verdict.Accepted? ==> outcomes[i].improvementPct < outcomes[b].improvementPct)
  }

  method ChooseBest(outcomes: seq<Outcome>) returns (best: Option<nat>)
    ensures IsBest(outcomes, best)
  {
    best := None;
    for i := 0 to |outcomes|
      invariant best.Some? ==> best.value < i
      invariant IsBest(outcomes[..i], best)
    {
      if !outcomes[i].verdict.Accepted? {
        continue;
      }
      if best.None? || outcomes[i].improvementPct > outcomes[best.value].improvementPct {
        best := Some(i);
      }
    }
    assert outcomes[..|outcomes|] == outcomes;
  }

  lemma BestIsUnique(outcomes: seq<Outcome>, a: Option<nat>, b: Option<nat>)
    requires IsBest(outcomes, a) && IsBest(outcomes, b)
    ensures a == b
  {
  }

  // ------------------------------------------------------------ the whole run

  datatype Report = Report(baselineMs: real, outcomes: seq<Outcome>, best: Option<nat>)

  ghost predicate IsReport(eng: Engine, cfg: Config, sql: string, candidates: seq<Candidate>, rep: Report) {
    eng.parse(sql).Parsed? &&
    exists base :: IsBaseline(eng, base) && base.st == eng.parse(sql).st && IsReportFor(eng, cfg, base, candidates, rep)
  }

  ghost predicate IsReportFor(eng: Engine, cfg: Config, base: Baseline, candidates: seq<Candidate>, rep: Report) {
    var tested := Fresh(candidates, base.st.sql);
    && rep.baselineMs == base.measured.medianMs && |rep.outcomes| == |tested|
    && (forall i :: 0 <= i < |tested| ==> Verified(eng, cfg, base, tested[i], rep.outcomes[i]))
    && IsBest(rep.outcomes, rep.best)
  }

  function QualifiedNames(refs: seq<Schema.TableRef>): seq<string> {
    seq(|refs|, i requires 0 <= i < |refs| => Schema.Qualified(refs[i]))
  }

  method Run(eng: Engine, cfg: Config, sql: string, candidates: seq<Candidate>) returns (r: Result<Report, ()>)
    requires Ready(eng, cfg)
    ensures r.Ok? <==> var p := eng.parse(sql);
                       p.Parsed? && eng.introspects(QualifiedNames(p.st.tables)) && eng.explains(p.st.sql) &&
                       Measuring.AllDone(eng.executions(p.st.sql)) && eng.rows(p.st.sql).Some?
    ensures r.Ok? ==> IsReport(eng, cfg, sql, candidates, r.value)
  {
    var parsed := eng.parse(sql);
    if !parsed.Parsed? {
      return Err(());
    }
    var tables: seq<string> := [];
    for i := 0 to |parsed.st.tables|
      invariant tables == QualifiedNames(parsed.st.tables[..i])
    {
      tables := tables + [Schema.Qualified(parsed.st.tables[i])];
    }
    assert parsed.st.tables[..|parsed.st.tables|] == parsed.st.tables;
    if !eng.introspects(tables) {
      return Err(());
    }
    var base := EstablishBaseline(eng, cfg, parsed.st);
    if base.Err? {
      return Err(());
    }
    var outcomes := TestCandidates(eng, cfg, base.value, candidates);
    var best := ChooseBest(outcomes);
    var rep := Report(base.value.measured.medianMs, outcomes, best);
    assert IsReportFor(eng, cfg, base.value, candidates, rep);
    return Ok(rep);
  }

  // ------------------------------------------------------------ what the worker stores

  /** The figures written to the job's row. */
  function Stored(rep: Report): Store.Report
    requires rep.best.Some? ==> rep.best.value < |rep.outcomes|
  {
    if rep.best.Some?
    then Store.Report(rep.baselineMs, rep.outcomes[rep.best.value].candidateMedianMs, rep.outcomes[rep.best.value].improvementPct)
    else Store.Report(rep.baselineMs, rep.baselineMs, 0.0)
  }

  /** The stored row never reports a best time above the baseline, and its percentage is that of its two times. */
  lemma StoredIsConsistent(eng: Engine, cfg: Config, sql: string, candidates: seq<Candidate>, rep: Report)
    requires Ready(eng, cfg) && IsReport(eng, cfg, sql, candidates, rep)
    ensures rep.best.Some? ==> rep.best.value < |rep.outcomes|
    ensures Stored(rep).bestMs <= Stored(rep).baselineMs
    ensures Stored(rep).improvementPct == ImprovementPct(Stored(rep).baselineMs, Stored(rep).bestMs)
    ensures rep.best.Some? ==> Stored(rep).bestMs < Stored(rep).baselineMs && Stored(rep).improvementPct >= cfg.minImprovementPct
  {
    var base :| IsBaseline(eng, base) && base.st == eng.parse(sql).st && IsReportFor(eng, cfg, base, candidates, rep);
    var tested := Fresh(candidates, base.st.sql);
    if rep.best.Some? {
      var b := rep.best.value;
      assert Verified(eng, cfg, base, tested[b], rep.outcomes[b]);
      SpreadIsNotNegative(eng, base.st.sql);
      SpreadIsNotNegative(eng, tested[b].sql);
    }
  }

  lemma BestIsAccepted(eng: Engine, cfg: Config, sql: string, candidates: seq<Candidate>, rep: Report)
    requires IsReport(eng, cfg, sql, candidates, rep)
    ensures rep.best.Some? ==> rep.best.value < |rep.outcomes| && rep.outcomes[rep.best.value].verdict.Accepted?
  {
  }

  lemma SpreadIsNotNegative(eng: Engine, sql: string)
    ensures TimedSummary(eng, sql).spreadMs >= 0.0
  {
    var es := eng.executions(sql);
    if Measuring.AllDone(es) && Measuring.Timed(es, eng.warmup) != [] {
      Measuring.RunsWithinReport(Measuring.Timed(es, eng.warmup));
    }
  }

  // ------------------------------------------------------------ index experiments

  /** The query timed with the index in place, or why it could not be. */
  datatype Trial = Measured(medianMs: real) | Unsupported | Failed

  datatype Experiment = Experiment(ddl: string, improvementPct: real, recommended: bool)

  function ExperimentFor(ddl: string, trial: Trial, baselineMs: real, minImprovementPct: real): Experiment {
    match trial
    case Measured(ms) => Experiment(ddl, ImprovementPct(baselineMs, ms), !(ImprovementPct(baselineMs, ms) < minImprovementPct))
    case _ => Experiment(ddl, 0.0, false)
  }

  /** An index is recommended exactly when it was measured and the time with it is below the baseline by the demanded share. */
  lemma RecommendedExactlyWhen(ddl: string, trial: Trial, baselineMs: real, minPct: real)
    requires baselineMs > 0.0
    ensures var e := ExperimentFor(ddl, trial, baselineMs, minPct);
            && e.ddl == ddl
            && (e.recommended <==> trial.Measured? && trial.medianMs <= baselineMs * (1.0 - minPct / 100.0))
            && (trial.Measured? ==> trial.medianMs == baselineMs - baselineMs * e.improvementPct / 100.0)
            && (!trial.Measured? ==> e.improvementPct == 0.0)
  {
    if trial.Measured? {
      ShareSaved(baselineMs, trial.medianMs, minPct);
      ImprovementIsShareSaved(baselineMs, trial.medianMs);
    }
  }

  /** The findings that suggest an index, in order. */
  function Suggested(findings: seq<Option<string>>): seq<string> {
    if findings == [] then []
    else (if findings[0].Some? then [findings[0].value] else []) + Suggested(findings[1..])
  }

  function Take<T>(s: seq<T>, n: nat): seq<T> {
    if n <= |s| then s[..n] else s
  }

  function Tried(ddls: seq<string>, trial: string -> Trial, baselineMs: real, minPct: real): seq<Experiment> {
    seq(|ddls|, i requires 0 <= i < |ddls| => ExperimentFor(ddls[i], trial(ddls[i]), baselineMs, minPct))
  }

  const BY_IMPROVEMENT := (a: Experiment, b: Experiment) => a.improvementPct >= b.improvementPct

  /** sort.SliceStable by descending improvement. */
  function StableSort(s: seq<Experiment>): seq<Experiment> {
    Sorting.Sort(BY_IMPROVEMENT, s)
  }

  method RunIndexExperiments(findings: seq<Option<string>>, trial: string -> Trial, budget: nat, baselineMs: real, minPct: real)
    returns (out: seq<Experiment>)
    ensures out == StableSort(Tried(Take(Suggested(findings), budget), trial, baselineMs, minPct))
  {
    out := [];
    var tested, i := 0, 0;
    while i < |findings|
      invariant i <= |findings| && tested == |out| <= budget
      invariant out == Tried(Suggested(findings[..i]), trial, baselineMs, minPct)
    {
      SuggestedConcat(findings[..i], [findings[i]]);
      SuggestedConcat(findings[..i], findings[i..]);
      SuggestedConcat(findings[..i + 1], findings[i + 1..]);
      assert findings[..i + 1] == findings[..i] + [findings[i]];
      assert findings == findings[..i] + findings[i..] == findings[..i + 1] + findings[i + 1..];
      i := i + 1;
      if findings[i - 1].None? {
        continue;
      }
      if tested >= budget {
        assert Take(Suggested(findings), budget) == Suggested(findings[..i - 1]);
        return StableSort(out);
      }
      tested := tested + 1;
      out := out + [ExperimentFor(findings[i - 1].value, trial(findings[i - 1].value), baselineMs, minPct)];
    }
    assert findings[..i] == findings;
    assert Take(Suggested(findings), budget) == Suggested(findings);
    return StableSort(out);
  }

  lemma {:induction false} SuggestedConcat(a: seq<Option<string>>, b: seq<Option<string>>)
    ensures Suggested(a + b) == Suggested(a) + Suggested(b)
  {
    if a == [] {
      assert a + b == b;
    } else {
      var rest, first := a[1..], if a[0].Some? then [a[0].value] else [];
      assert (a + b)[0] == a[0] && (a + b)[1..] == rest + b;
      SuggestedConcat(rest, b);
      assert first + (Suggested(rest) + Suggested(b)) == (first + Suggested(rest)) + Suggested(b);
    }
  }

  /** Larger improvements first, none lost or added, and ties in the order they were tried. */
  lemma SortRanksExperiments(s: seq<Experiment>, pct: real)
    ensures multiset(StableSort(s)) == multiset(s)
    ensures forall i, j :: 0 <= i < j < |StableSort(s)| ==> StableSort(s)[i].improvementPct >= StableSort(s)[j].improvementPct
    ensures var tied := (e: Experiment) => e.improvementPct == pct; Sorting.Filter(tied, StableSort(s)) == Sorting.Filter(tied, s)
  {
    Sorting.SortSorts(BY_IMPROVEMENT, s);
    Sorting.SortIsStable(BY_IMPROVEMENT, (e: Experiment) => e.improvementPct == pct, s);
  }
}
