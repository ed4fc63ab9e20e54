/** The optimization_jobs table: what each SQL statement of the job store does to one row,
    and the table object whose methods issue those statements. */
module Store {
  import opened Common

  type JobId = nat

  /** Instants and durations are integer nanoseconds. */
  const SECOND := 1_000_000_000

  datatype Status = Queued | Running | Retrying | Succeeded | Failed {
    /** The statuses ClaimJob's WHERE clause admits. */
    predicate Waiting() {
      Queued? || Retrying?
    }

    predicate Final() {
      Succeeded? || Failed?
    }
  }

  datatype Report = Report(baselineMs: real, bestMs: real, improvementPct: real)

  datatype Row = Row(
    key: string, sql: string, status: Status, attempts: nat, maxAttempts: int, lastError: string,
    report: Option<Report>, startedAt: Option<int>, finishedAt: Option<int>)

  datatype Error = NotFound | AlreadyClaimed | Unavailable

  /** An unset attempt limit becomes three. */
  function EffectiveMax(maxAttempts: int): int {
    if maxAttempts == 0 then 3 else maxAttempts
  }

  function NewRow(key: string, sql: string, maxAttempts: int): Row {
    Row(key, sql, Queued, 0, EffectiveMax(maxAttempts), "", None, None, None)
  }

  function Claimed(row: Row, now: int): Row {
    row.(status := Running, attempts := row.attempts + 1, startedAt := Some(now))
  }

  function Completed(row: Row, report: Report, now: int): Row {
    row.(status := Succeeded, report := Some(report), lastError := "", finishedAt := Some(now))
  }

  function MarkedFailed(row: Row, cause: string, now: int): Row {
    if row.attempts < row.maxAttempts
    then row.(status := Retrying, lastError := Truncate(cause, 4000), finishedAt := None)
    else row.(status := Failed, lastError := Truncate(cause, 4000), finishedAt := Some(now))
  }

  /** Running past its lease. A row never started has a NULL start, which compares as unknown. */
  predicate Stale(row: Row, now: int, lease: int) {
    row.status == Running && row.startedAt.Some? && row.startedAt.value < now - lease
  }

  function Reclaimed(row: Row, now: int, lease: int): Row {
    if !Stale(row, now, lease) then row
    else if row.attempts < row.maxAttempts
    then row.(status := Retrying, lastError := "worker lease expired")
    else row.(status := Failed, lastError := "worker lease expired")
  }

  function ReclaimedAll(rows: map<JobId, Row>, now: int, lease: int): map<JobId, Row> {
    map j | j in rows :: Reclaimed(rows[j], now, lease)
  }

  /** The lease handed to the database: twice the job timeout, cut to whole seconds towards zero. */
  function Lease(jobTimeout: int): int {
    if jobTimeout >= 0 then 2 * jobTimeout / SECOND * SECOND else -(2 * -jobTimeout / SECOND * SECOND)
  }

  /** The lease covers the job timeout, unless cutting to whole seconds leaves nothing of it. */
  lemma LeaseCoversExactlyWhen(jobTimeout: int)
    requires jobTimeout > 0
    ensures jobTimeout <= Lease(jobTimeout) <==> 2 * jobTimeout >= SECOND
    ensures 2 * jobTimeout - SECOND < Lease(jobTimeout) <= 2 * jobTimeout && Lease(jobTimeout) % SECOND == 0
    ensures Lease(-jobTimeout) == -Lease(jobTimeout) && SECOND == 1_000_000_000
  {
    var q, r := 2 * jobTimeout / SECOND, 2 * jobTimeout % SECOND;
    assert 2 * jobTimeout == q * SECOND + r && 0 <= r < SECOND;
  }

  function Truncate(s: string, n: nat): string {
    if |s| <= n then s else s[..n] + "…"
  }

  /** One row per idempotency key: the UNIQUE constraint. */
  ghost predicate UniqueKeys(rows: map<JobId, Row>) {
    forall i, j :: i in rows && j in rows && rows[i].key == rows[j].key ==> i == j
  }

  class JobTable {
    var rows: map<JobId, Row>

    ghost predicate Valid()
      reads this
    {
      UniqueKeys(rows)
    }

    constructor ()
      ensures Valid() && rows == map[]
    {
      rows := map[];
    }

    /** INSERT ... ON CONFLICT (idempotency_key) DO NOTHING, then the SELECT of the row that was in the way. */
    method CreateJob(id: JobId, key: string, sql: string, maxAttempts: int) returns (job: JobId, created: bool)
      requires Valid() && id !in rows
      modifies this
      ensures Valid() && job in rows && rows[job].key == key
      ensures forall j :: j in rows && rows[j].key == key ==> j == job
      ensures created <==> forall j :: j in old(rows) ==> old(rows)[j].key != key
      ensures created ==> job == id && rows == old(rows)[id := NewRow(key, sql, maxAttempts)]
      ensures created ==>
                rows[id] == Row(key, sql, Queued, 0, if maxAttempts == 0 then 3 else maxAttempts, "", None, None, None)
      ensures !created ==> job in old(rows) && rows == old(rows)
    {
      if j :| j in rows && rows[j].key == key {
        return j, false;
      }
      rows := rows[id := NewRow(key, sql, maxAttempts)];
      return id, true;
    }

    method ClaimJob(id: JobId, now: int) returns (r: Result<Row, Error>)
      requires Valid()
      modifies this
      ensures Valid()
      ensures r.Ok? <==> id in old(rows) && old(rows)[id].status.Waiting()
      ensures r.Ok? ==> r.value == Claimed(old(rows)[id], now) && rows == old(rows)[id := r.value]
      ensures r.Ok? ==>
                var was := old(rows)[id];
                r.value == Row(was.key, was.sql, Running, was.attempts + 1, was.maxAttempts, was.lastError, was.report, Some(now), was.finishedAt)
      ensures r.Err? ==> rows == old(rows) && r.error == if id in rows then AlreadyClaimed else NotFound
    {
      if id in rows && rows[id].status.Waiting() {
        rows := rows[id := Claimed(rows[id], now)];
        return Ok(rows[id]);
      }
      return Err(if id in rows then AlreadyClaimed else NotFound);
    }

    /** Keyed by id alone: no guard on the status. */
    method CompleteJob(id: JobId, report: Report, now: int)
      requires Valid()
      modifies this
      ensures Valid()
      ensures rows == if id in old(rows) then old(rows)[id := Completed(old(rows)[id], report, now)] else old(rows)
      ensures id in old(rows) ==>
                var was := old(rows)[id];
                rows[id] == Row(was.key, was.sql, Succeeded, was.attempts, was.maxAttempts, "", Some(report), was.startedAt, Some(now))
    {
      if id in rows {
        rows := rows[id := Completed(rows[id], report, now)];
      }
    }

    /** Keyed by id alone: no guard on the status. */
    method MarkFailure(id: JobId, cause: string, now: int) returns (r: Result<bool, Error>)
      requires Valid()
      modifies this
      ensures Valid()
      ensures r.Ok? <==> id in old(rows)
      ensures r.Ok? ==> rows == old(rows)[id := MarkedFailed(old(rows)[id], cause, now)]
      ensures r.Ok? ==> r.value == (old(rows)[id].attempts < old(rows)[id].maxAttempts)
      ensures r.Ok? ==>
                var was, error := old(rows)[id], if |cause| <= 4000 then cause else cause[..4000] + "…";
                rows[id] == Row(was.key, was.sql, if r.value then Retrying else Failed, was.attempts, was.maxAttempts, error,
                                was.report, was.startedAt, if r.value then None else Some(now))
      ensures r.Err? ==> rows == old(rows) && r.error == NotFound
    {
      if id !in rows {
        return Err(NotFound);
      }
      rows := rows[id := MarkedFailed(rows[id], cause, now)];
      return Ok(rows[id].status == Retrying);
    }

    method ReclaimStale(now: int, lease: int) returns (count: nat)
      requires Valid()
      modifies this
      ensures Valid()
      ensures rows == ReclaimedAll(old(rows), now, lease)
      ensures rows.Keys == old(rows).Keys
      ensures forall j :: j in rows ==>
                var was := old(rows)[j];
                if was.status == Running && was.startedAt.Some? && was.startedAt.value + lease < now then
                  rows[j] == Row(was.key, was.sql, if was.attempts < was.maxAttempts then Retrying else Failed, was.attempts, was.maxAttempts,
                                 "worker lease expired", was.report, was.startedAt, was.finishedAt)
                else rows[j] == was
      ensures count == |set j | j in old(rows) && Stale(old(rows)[j], now, lease)|
    {
      count := |set j | j in rows && Stale(rows[j], now, lease)|;
      rows := ReclaimedAll(rows, now, lease);
    }
  }
}
