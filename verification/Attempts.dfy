/** How much work a job can cause, in runs where anything may go wrong: crashes, duplicates, failed operations,
    and handlers that outlive their lease. */
module Attempts {
  import opened Store
  import opened Protocol
  import opened Exclusion

  /** The attempts a job may use. A limit below one still allows the first. */
  function Budget(row: Row): int {
    if row.maxAttempts >= 1 then row.maxAttempts else 1
  }

  /** The step takes the job: its claim reaches the row. */
  predicate Claims(s: State, a: Action, j: JobId)
    requires Enabled(s, a)
  {
    (a.Claim? || (a.ClaimFails? && a.applied)) && s.handlers[a.h].msg.job == j && Claimable(s, j)
  }

  /** An UPDATE of the step matches the job's row. */
  predicate Writes(cfg: Config, s: State, a: Action, j: JobId)
    requires Enabled(s, a)
  {
    Claims(s, a, j) ||
    (j in s.rows && (a.Complete? || a.Mark? || (a.MarkFails? && a.applied)) && s.handlers[a.h].msg.job == j) ||
    (j in s.rows && a.Reclaim? && Stale(s.rows[j], s.now, Lease(cfg.jobTimeout)))
  }

  predicate RowWithinBudget(row: Row) {
    row.attempts <= Budget(row) && (row.status.Waiting() ==> row.attempts < Budget(row))
  }

  ghost predicate WithinBudget(s: State) {
    && (forall j :: j in s.rows ==> RowWithinBudget(s.rows[j]))
    && (forall h, j :: s.Holds(h, j) ==> j in s.rows)
  }

  lemma RowWithinBudgetStep(cfg: Config, s: State, a: Action, j: JobId)
    requires Enabled(s, a) && j in Next(cfg, s, a).rows && (j in s.rows ==> RowWithinBudget(s.rows[j]))
    ensures RowWithinBudget(Next(cfg, s, a).rows[j])
  {
  }

  lemma WithinBudgetStep(cfg: Config, s: State, a: Action)
    requires WithinBudget(s) && Enabled(s, a)
    ensures WithinBudget(Next(cfg, s, a))
  {
    var t := Next(cfg, s, a);
    forall j | j in t.rows
      ensures RowWithinBudget(t.rows[j])
    {
      RowWithinBudgetStep(cfg, s, a, j);
    }
    forall h, j | t.Holds(h, j)
      ensures j in t.rows
    {
      HolderStep(cfg, s, a, h, j);
      RowsStay(cfg, s, a, j);
    }
  }

  lemma RowsStay(cfg: Config, s: State, a: Action, j: JobId)
    requires Enabled(s, a) && j in s.rows
    ensures j in Next(cfg, s, a).rows && Budget(Next(cfg, s, a).rows[j]) == Budget(s.rows[j])
  {
  }

  ghost function Holders(s: State, j: JobId): set<nat> {
    set h | h in s.handlers && s.Holds(h, j)
  }

  /** Attempts left, outcomes still to be written, and whether the row is running. */
  ghost function Work(s: State, j: JobId): int
    requires j in s.rows
  {
    3 * (Budget(s.rows[j]) - s.rows[j].attempts) + |Holders(s, j)| + if s.rows[j].status == Running then 1 else 0
  }

  lemma HoldersStep(cfg: Config, s: State, a: Action, j: JobId)
    requires Enabled(s, a)
    ensures var grown := Holders(s, j) + if Claims(s, a, j) && a.Claim? then {a.h} else {};
            var writer := if (a.Complete? || a.Mark? || a.MarkFails?) && s.handlers[a.h].msg.job == j then {a.h} else {};
            Holders(Next(cfg, s, a), j) <= grown - writer && writer <= Holders(s, j)
  {
  }

  lemma WorkStep(cfg: Config, s: State, a: Action, j: JobId)
    requires WithinBudget(s) && Enabled(s, a) && j in s.rows
    ensures j in Next(cfg, s, a).rows && Budget(Next(cfg, s, a).rows[j]) == Budget(s.rows[j])
    ensures Work(Next(cfg, s, a), j) <= Work(s, j) - if Writes(cfg, s, a, j) then 1 else 0
    ensures Next(cfg, s, a).rows[j].attempts == s.rows[j].attempts + if Claims(s, a, j) then 1 else 0
    ensures !Writes(cfg, s, a, j) ==> Next(cfg, s, a).rows[j] == s.rows[j]
  {
    RowStep(cfg, s, a, j);
    HoldersStep(cfg, s, a, j);
    var t := Next(cfg, s, a);
    var grown := Holders(s, j) + if Claims(s, a, j) && a.Claim? then {a.h} else {};
    var writer := if (a.Complete? || a.Mark? || a.MarkFails?) && s.handlers[a.h].msg.job == j then {a.h} else {};
    Smaller(Holders(t, j), grown - writer);
    assert |grown| <= |Holders(s, j)| + 1;
    assert !Claims(s, a, j) ==> grown == Holders(s, j);
    if writer != {} {
      assert |grown - writer| == |grown| - 1;
    } else {
      assert grown - writer == grown;
    }
  }

  lemma RowStep(cfg: Config, s: State, a: Action, j: JobId)
    requires Enabled(s, a) && j in s.rows
    ensures j in Next(cfg, s, a).rows && Budget(Next(cfg, s, a).rows[j]) == Budget(s.rows[j])
    ensures Next(cfg, s, a).rows[j].attempts == s.rows[j].attempts + if Claims(s, a, j) then 1 else 0
    ensures !Writes(cfg, s, a, j) ==> Next(cfg, s, a).rows[j] == s.rows[j]
    ensures Next(cfg, s, a).rows[j].status == Running ==> s.rows[j].status == Running || Claims(s, a, j)
    ensures a.Reclaim? && Writes(cfg, s, a, j) ==> s.rows[j].status == Running && Next(cfg, s, a).rows[j].status != Running
  {
    RowsStay(cfg, s, a, j);
    if Writes(cfg, s, a, j) {
      WrittenRow(cfg, s, a, j);
    } else {
      UnwrittenRow(cfg, s, a, j);
    }
  }

  lemma UnwrittenRow(cfg: Config, s: State, a: Action, j: JobId)
    requires Enabled(s, a) && j in s.rows && !Writes(cfg, s, a, j)
    ensures j in Next(cfg, s, a).rows && Next(cfg, s, a).rows[j] == s.rows[j]
  {
  }

  lemma WrittenRow(cfg: Config, s: State, a: Action, j: JobId)
    requires Enabled(s, a) && j in s.rows && Writes(cfg, s, a, j)
    ensures j in Next(cfg, s, a).rows
    ensures Next(cfg, s, a).rows[j].attempts == s.rows[j].attempts + if Claims(s, a, j) then 1 else 0
    ensures Next(cfg, s, a).rows[j].status == Running ==> Claims(s, a, j)
    ensures a.Reclaim? ==> s.rows[j].status == Running
  {
  }

  lemma Smaller(a: set<nat>, b: set<nat>)
    requires a <= b
    ensures |a| <= |b|
  {
    assert b == a + (b - a);
  }

  /** How often the row is written in a run. */
  ghost function WriteCount(cfg: Config, s: State, run: seq<Action>, j: JobId): nat
    requires Run(cfg, s, run)
    decreases run
  {
    if run == [] then 0
    else (if Writes(cfg, s, run[0], j) then 1 else 0) + WriteCount(cfg, Next(cfg, s, run[0]), run[1..], j)
  }

  /** The attempt numbers handed out by the claims of a run, in order. Each one starts the optimizer at most once. */
  ghost function ClaimNumbers(cfg: Config, s: State, run: seq<Action>, j: JobId): seq<nat>
    requires Run(cfg, s, run)
    decreases run
  {
    if run == [] then []
    else
      var t := Next(cfg, s, run[0]);
      (if Claims(s, run[0], j) then [s.rows[j].attempts + 1] else []) + ClaimNumbers(cfg, t, run[1..], j)
  }

  function Counting(from: nat, to: nat): seq<nat>
    requires from <= to
  {
    seq(to - from, i requires 0 <= i < to - from => from + i + 1)
  }

  lemma CountingStep(from: nat, to: nat)
    requires from < to
    ensures Counting(from, to) == [from + 1] + Counting(from + 1, to)
  {
  }

  lemma {:induction false} WorkRun(cfg: Config, s: State, run: seq<Action>, j: JobId)
    requires WithinBudget(s) && Run(cfg, s, run) && j in s.rows
    ensures var t := Exec(cfg, s, run);
            && j in t.rows && Budget(t.rows[j]) == Budget(s.rows[j]) && s.rows[j].attempts <= t.rows[j].attempts <= Budget(t.rows[j])
            && WriteCount(cfg, s, run, j) + Work(t, j) <= Work(s, j)
            && ClaimNumbers(cfg, s, run, j) == Counting(s.rows[j].attempts, t.rows[j].attempts)
    decreases run
  {
    if run != [] {
      WithinBudgetStep(cfg, s, run[0]);
      WorkStep(cfg, s, run[0], j);
      WorkRun(cfg, Next(cfg, s, run[0]), run[1..], j);
      if Claims(s, run[0], j) {
        CountingStep(s.rows[j].attempts, Exec(cfg, s, run).rows[j].attempts);
      }
    }
  }

  lemma NobodyHoldsNew(cfg: Config, s: State, a: Action, j: JobId)
    requires WithinBudget(s) && Enabled(s, a) && j !in s.rows && j in Next(cfg, s, a).rows
    ensures a.Create? && Holders(Next(cfg, s, a), j) == {}
  {
    var t := Next(cfg, s, a);
    assert forall h :: t.Holds(h, j) ==> s.Holds(h, j);
  }

  lemma {:induction false} BeforeCreation(cfg: Config, s: State, run: seq<Action>, j: JobId)
    requires WithinBudget(s) && Run(cfg, s, run) && j !in s.rows
    ensures var t := Exec(cfg, s, run);
            j in t.rows ==>
              && t.rows[j].attempts <= Budget(t.rows[j])
              && WriteCount(cfg, s, run, j) + Work(t, j) <= 3 * Budget(t.rows[j])
              && ClaimNumbers(cfg, s, run, j) == Counting(0, t.rows[j].attempts)
    decreases run
  {
    if run != [] {
      var t := Next(cfg, s, run[0]);
      WithinBudgetStep(cfg, s, run[0]);
      if j in t.rows {
        NobodyHoldsNew(cfg, s, run[0], j);
        WorkRun(cfg, t, run[1..], j);
      } else {
        BeforeCreation(cfg, t, run[1..], j);
      }
    }
  }

  /** Over every run whatever: at most three writes per allowed attempt, and claims numbered 1, 2, 3, ... without
      repeats, never beyond the limit. */
  lemma BoundedWork(cfg: Config, run: seq<Action>, j: JobId)
    requires Run(cfg, Init, run) && j in Exec(cfg, Init, run).rows
    ensures var row := Exec(cfg, Init, run).rows[j];
            && WriteCount(cfg, Init, run, j) <= 3 * Budget(row)
            && ClaimNumbers(cfg, Init, run, j) == Counting(0, row.attempts)
            && row.attempts <= Budget(row)
  {
    BeforeCreation(cfg, Init, run, j);
    assert Work(Exec(cfg, Init, run), j) >= 0;
  }
}
