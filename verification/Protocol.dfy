/** The job protocol as an interleaved step system. Every SQL statement, every publish, every commit
    and every crash of a handler is one atomic step; any number of handlers run at once, and one
    record may be delivered to several of them. */
module Protocol {
  import opened Common
  import opened Store
  import opened Queue

  datatype Config = Config(jobTimeout: int)

  /** Where one goroutine stands between two atomic steps. */
  datatype Handler =
    | Creating(job: JobId)
    | Fetched(offset: nat, msg: Message)
    | Working(offset: nat, msg: Message, attempt: nat, since: int)
    | Finishing(offset: nat, msg: Message, attempt: nat, since: int, report: Report)
    | Failing(offset: nat, msg: Message, attempt: nat, since: int, cause: string)
    | Publishing(offset: nat, topic: Topic, next: Message)
    | Committing(offset: nat)
    | Delaying(offset: nat, msg: Message)
  {
    /** Between its claim and the write of its outcome. */
    predicate Holding() {
      Working? || Finishing? || Failing?
    }
  }

  datatype State = State(
    rows: map<JobId, Row>, log: map<nat, Record>, nextOffset: nat, handlers: map<nat, Handler>, now: int)
  {
    ghost predicate Holds(h: nat, j: JobId) {
      h in handlers && handlers[h].Holding() && handlers[h].msg.job == j
    }

    function Put(j: JobId, row: Row): State {
      this.(rows := rows[j := row])
    }

    function Move(h: nat, handler: Handler): State {
      this.(handlers := handlers[h := handler])
    }

    function Drop(h: nat): State {
      this.(handlers := handlers - {h})
    }

    function Append(topic: Topic, msg: Message): State {
      this.(log := log[nextOffset := Record(topic, msg)], nextOffset := nextOffset + 1)
    }

    function Remove(offsets: set<nat>): State {
      this.(log := log - offsets)
    }
  }

  const Init := State(map[], map[], 0, map[], 0)

  /** `applied` tells whether an operation whose caller saw an error took effect all the same. A commit covers the earlier
      records of its partition too: those in `passed`. */
  datatype Action =
    | Create(h: nat, job: JobId, key: string, sql: string, maxAttempts: int)
    | Announce(h: nat)
    | AnnounceFails(h: nat, applied: bool)
    | FetchMain(h: nat, offset: nat)
    | FetchRetry(h: nat, offset: nat)
    | Claim(h: nat)
    | ClaimFails(h: nat, applied: bool)
    | Succeed(h: nat, report: Report)
    | Fail(h: nat, cause: string)
    | Complete(h: nat)
    | CompleteFails(h: nat)
    | Mark(h: nat)
    | MarkFails(h: nat, applied: bool)
    | Publish(h: nat)
    | PublishFails(h: nat, applied: bool)
    | Republish(h: nat)
    | RepublishFails(h: nat, applied: bool)
    | Commit(h: nat, passed: set<nat>)
    | CommitFails(h: nat)
    | Crash(h: nat)
    | Reclaim
    | Tick(now: int)

  function Waited(next: Message): Message {
    next.(notBefore := None)
  }

  /** The handler that scheduleRetry becomes once MarkFailure has answered. */
  function Rescheduled(f: Handler, willRetry: bool, now: int): Handler
    requires f.Failing?
  {
    var next := f.msg.(attempt := f.attempt + 1, lastError := f.cause);
    var tier := RetryTopic(f.attempt);
    if willRetry && tier.Some?
    then Publishing(f.offset, tier.value.0, next.(notBefore := Some(now + tier.value.1)))
    else Publishing(f.offset, DeadLetter, Waited(next))
  }

  /** A claim seen by the table: the row it takes, if it takes one. */
  predicate Claimable(s: State, j: JobId) {
    j in s.rows && s.rows[j].status.Waiting()
  }

  predicate Enabled(s: State, a: Action) {
    match a
    case Create(h, j, key, sql, max) => h !in s.handlers && j !in s.rows && forall i :: i in s.rows ==> s.rows[i].key != key
    case Announce(h) => h in s.handlers && s.handlers[h].Creating?
    case AnnounceFails(h, _) => h in s.handlers && s.handlers[h].Creating?
    case FetchMain(h, o) => h !in s.handlers && o in s.log && s.log[o].topic.Main?
    case FetchRetry(h, o) => h !in s.handlers && o in s.log && s.log[o].topic.Retry?
    case Claim(h) => h in s.handlers && s.handlers[h].Fetched?
    case ClaimFails(h, _) => h in s.handlers && s.handlers[h].Fetched?
    case Succeed(h, _) => h in s.handlers && s.handlers[h].Working?
    case Fail(h, _) => h in s.handlers && s.handlers[h].Working?
    case Complete(h) => h in s.handlers && s.handlers[h].Finishing?
    case CompleteFails(h) => h in s.handlers && s.handlers[h].Finishing?
    case Mark(h) => h in s.handlers && s.handlers[h].Failing?
    case MarkFails(h, _) => h in s.handlers && s.handlers[h].Failing?
    case Publish(h) => h in s.handlers && s.handlers[h].Publishing?
    case PublishFails(h, _) => h in s.handlers && s.handlers[h].Publishing?
    case Republish(h) => h in s.handlers && s.handlers[h].Delaying? && Due(s.handlers[h].msg, s.now)
    case RepublishFails(h, _) => h in s.handlers && s.handlers[h].Delaying? && Due(s.handlers[h].msg, s.now)
    case Commit(h, passed) =>
      h in s.handlers && s.handlers[h].Committing? &&
      forall o :: o in passed ==> o in s.log && !s.log[o].topic.DeadLetter? && o < s.handlers[h].offset
    case CommitFails(h) => h in s.handlers && s.handlers[h].Committing?
    case Crash(h) => h in s.handlers
    case Reclaim => true
    case Tick(now) => s.now <= now
  }

  predicate Due(msg: Message, now: int) {
    msg.notBefore.None? || msg.notBefore.value <= now
  }

  function Next(cfg: Config, s: State, a: Action): State
    requires Enabled(s, a)
  {
    match a
    case Create(h, j, key, sql, max) => s.Put(j, NewRow(key, sql, max)).Move(h, Creating(j))
    case Announce(h) => s.Append(Main, Message(s.handlers[h].job, 1, None, "")).Drop(h)
    case AnnounceFails(h, applied) =>
      (if applied then s.Append(Main, Message(s.handlers[h].job, 1, None, "")) else s).Drop(h)
    case FetchMain(h, o) => s.Move(h, Fetched(o, s.log[o].msg))
    case FetchRetry(h, o) => s.Move(h, Delaying(o, s.log[o].msg))
    case Claim(h) =>
      var f := s.handlers[h];
      if Claimable(s, f.msg.job) then
        var row := Claimed(s.rows[f.msg.job], s.now);
        s.Put(f.msg.job, row).Move(h, Working(f.offset, f.msg, row.attempts, s.now))
      else
        s.Move(h, Committing(f.offset))
    case ClaimFails(h, applied) =>
      var f := s.handlers[h];
      (if applied && Claimable(s, f.msg.job) then s.Put(f.msg.job, Claimed(s.rows[f.msg.job], s.now)) else s)
      .Move(h, Committing(f.offset))
    case Succeed(h, report) =>
      var f := s.handlers[h];
      s.Move(h, Finishing(f.offset, f.msg, f.attempt, f.since, report))
    case Fail(h, cause) =>
      var f := s.handlers[h];
      s.Move(h, Failing(f.offset, f.msg, f.attempt, f.since, cause))
    case Complete(h) =>
      var f := s.handlers[h];
      (if f.msg.job in s.rows then s.Put(f.msg.job, Completed(s.rows[f.msg.job], f.report, s.now)) else s)
      .Move(h, Committing(f.offset))
    case CompleteFails(h) => s.Move(h, Committing(s.handlers[h].offset))
    case Mark(h) =>
      var f := s.handlers[h];
      if f.msg.job in s.rows then
        var row := MarkedFailed(s.rows[f.msg.job], f.cause, s.now);
        s.Put(f.msg.job, row).Move(h, Rescheduled(f, row.status == Retrying, s.now))
      else
        s.Move(h, Rescheduled(f, false, s.now))
    case MarkFails(h, applied) =>
      var f := s.handlers[h];
      (if applied && f.msg.job in s.rows then s.Put(f.msg.job, MarkedFailed(s.rows[f.msg.job], f.cause, s.now)) else s)
      .Move(h, Rescheduled(f, false, s.now))
    case Publish(h) =>
      var f := s.handlers[h];
      s.Append(f.topic, f.next).Move(h, Committing(f.offset))
    case PublishFails(h, applied) =>
      var f := s.handlers[h];
      (if applied then s.Append(f.topic, f.next) else s)
      .Move(h, if f.topic.DeadLetter? then Committing(f.offset) else Publishing(f.offset, DeadLetter, Waited(f.next)))
    case Republish(h) =>
      var f := s.handlers[h];
      s.Append(Main, Waited(f.msg)).Move(h, Committing(f.offset))
    case RepublishFails(h, applied) =>
      var f := s.handlers[h];
      (if applied then s.Append(Main, Waited(f.msg)) else s).Drop(h)
    case Commit(h, passed) => s.Remove({s.handlers[h].offset} + passed).Drop(h)
    case CommitFails(h) => s.Drop(h)
    case Crash(h) => s.Drop(h)
    case Reclaim => s.(rows := ReclaimedAll(s.rows, s.now, Lease(cfg.jobTimeout)))
    case Tick(now) => s.(now := now)
  }

  /** Runs are finite schedules of enabled steps. */
  ghost predicate Run(cfg: Config, s: State, run: seq<Action>)
    decreases run
  {
    run == [] || (Enabled(s, run[0]) && Run(cfg, Next(cfg, s, run[0]), run[1..]))
  }

  ghost function Exec(cfg: Config, s: State, run: seq<Action>): State
    requires Run(cfg, s, run)
    decreases run
  {
    if run == [] then s else Exec(cfg, Next(cfg, s, run[0]), run[1..])
  }
}
