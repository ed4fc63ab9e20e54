/** What the protocol promises to its clients when nothing breaks, and exactly how far that promise reaches. */
module Delivery {
  import opened Store
  import opened Queue
  import opened Protocol
  import opened Exclusion

  /** Which partition the record at an offset lies in. */
  type Layout = nat -> nat

  /** The earlier records of the partition that are still uncommitted. */
  ghost function Behind(place: Layout, s: State, o: nat): set<nat> {
    set p | p in s.log && p < o && place(p) == place(o) && !s.log[p].topic.DeadLetter?
  }

  /** No operation on the store or the broker fails, and no handler dies between its claim and its publish. A partition is
      read in order: its next record is fetched only when the handlers of all earlier ones have come to their commits,
      whether these then succeeded or not; `spent` are the records of which that is true. A commit covers earlier records
      of its own partition, and of no other.
      Failed commits, duplicate deliveries and handlers lost before a claim or after a publish are all allowed. */
  ghost predicate Faultless(place: Layout, s: State, spent: set<nat>, a: Action)
    requires Enabled(s, a)
  {
    match a
    case Crash(h) => s.handlers[h].Fetched? || s.handlers[h].Committing? || s.handlers[h].Delaying?
    case AnnounceFails(_, _) => false
    case ClaimFails(_, _) => false
    case CompleteFails(_) => false
    case MarkFails(_, _) => false
    case PublishFails(_, _) => false
    case RepublishFails(_, _) => false
    case FetchMain(_, o) => Behind(place, s, o) <= spent
    case FetchRetry(_, o) => Behind(place, s, o) <= spent
    case Commit(h, passed) => passed <= Behind(place, s, s.handlers[h].offset)
    case _ => true
  }

  /** The records whose handlers have come to their commits, after one more step. */
  ghost function Spend(spent: set<nat>, t: State): set<nat> {
    spent + set h | h in t.handlers && t.handlers[h].Committing? :: t.handlers[h].offset
  }

  ghost function Spent(cfg: Config, s: State, spent: set<nat>, run: seq<Action>): set<nat>
    requires Run(cfg, s, run)
    decreases run
  {
    if run == [] then spent
    else var t := Next(cfg, s, run[0]); Spent(cfg, t, Spend(spent, t), run[1..])
  }

  /** A timely, faultless run in which every job is created with an attempt limit of at most `limit`. */
  ghost predicate NominalRun(cfg: Config, place: Layout, limit: int, s: State, spent: set<nat>, run: seq<Action>)
    decreases run
  {
    run == [] ||
    (Enabled(s, run[0]) && Faultless(place, s, spent, run[0]) && (run[0].Create? ==> EffectiveMax(run[0].maxAttempts) <= limit) &&
     var t := Next(cfg, s, run[0]);
     WithinLease(cfg, t) && NominalRun(cfg, place, limit, t, Spend(spent, t), run[1..]))
  }

  lemma {:induction false} NominalRunIsTimely(cfg: Config, place: Layout, limit: int, s: State, spent: set<nat>, run: seq<Action>)
    requires NominalRun(cfg, place, limit, s, spent, run)
    ensures TimelyRun(cfg, s, run)
    decreases run
  {
    if run != [] {
      var t := Next(cfg, s, run[0]);
      NominalRunIsTimely(cfg, place, limit, t, Spend(spent, t), run[1..]);
    }
  }

  lemma {:induction false} NominalConcat(
    cfg: Config, place: Layout, limit: int, s: State, spent: set<nat>, run: seq<Action>, more: seq<Action>)
    requires NominalRun(cfg, place, limit, s, spent, run) && Run(cfg, s, run)
    requires NominalRun(cfg, place, limit, Exec(cfg, s, run), Spent(cfg, s, spent, run), more)
    ensures NominalRun(cfg, place, limit, s, spent, run + more)
    decreases run
  {
    if run == [] {
      assert run + more == more;
    } else {
      assert (run + more)[1..] == run[1..] + more;
      var t := Next(cfg, s, run[0]);
      NominalConcat(cfg, place, limit, t, Spend(spent, t), run[1..], more);
    }
  }

  // ------------------------------------------------------------ the promise

  /** A record that can still bring the job to a worker. */
  ghost predicate Pending(s: State, o: nat, j: JobId) {
    o in s.log && !s.log[o].topic.DeadLetter? && s.log[o].msg.job == j
  }

  /** A handler about to publish such a record. */
  ghost predicate Announcing(s: State, h: nat, j: JobId) {
    h in s.handlers &&
    match s.handlers[h]
    case Creating(job) => job == j
    case Publishing(_, topic, next) => topic.Retry? && next.job == j
    case _ => false
  }

  /** The job's dead letter is in its topic. */
  ghost predicate DeadLettered(s: State, j: JobId) {
    exists o :: o in s.log && s.log[o].topic.DeadLetter? && s.log[o].msg.job == j
  }

  /** A handler is about to publish the job's dead letter. */
  ghost predicate Burying(s: State, h: nat, j: JobId) {
    h in s.handlers && s.handlers[h].Publishing? && s.handlers[h].topic.DeadLetter? && s.handlers[h].next.job == j
  }

  /** A waiting job always has a record on its way to a worker, and a running job a handler that holds it. */
  ghost predicate NothingLost(s: State) {
    && (forall j :: j in s.rows && s.rows[j].status.Waiting() ==>
          (exists o :: Pending(s, o, j)) || (exists h :: Announcing(s, h, j)))
    && (forall j :: j in s.rows && s.rows[j].status == Running ==> exists h :: s.Holds(h, j))
  }

  // ------------------------------------------------------------ the invariant behind it

  /** The record a handler was given, while it is still uncommitted, is the one it works on. */
  ghost predicate Faithful(s: State, f: Handler) {
    match f
    case Creating(j) => j in s.rows
    case Committing(o) => o < s.nextOffset && (o in s.log ==> !s.log[o].topic.DeadLetter?)
    case Publishing(o, topic, next) =>
      next.job in s.rows && !topic.Main? && o < s.nextOffset &&
      (o in s.log ==> !s.log[o].topic.DeadLetter? && s.log[o].msg.job == next.job)
    case _ =>
      f.msg.job in s.rows && f.offset < s.nextOffset &&
      (f.offset in s.log ==> !s.log[f.offset].topic.DeadLetter? && s.log[f.offset].msg.job == f.msg.job)
  }

  ghost predicate WellFormed(s: State) {
    && (forall o :: o in s.log ==> o < s.nextOffset && s.log[o].msg.job in s.rows)
    && (forall h :: h in s.handlers ==> Faithful(s, s.handlers[h]))
    && (forall j :: j in s.rows && s.rows[j].status == Running ==> s.rows[j].attempts >= 1)
  }

  /** The handlers that have come to their commits are known, and each has its partition's earlier records behind it. */
  ghost predicate InOrder(place: Layout, s: State, spent: set<nat>) {
    && (forall o :: o in spent ==> o < s.nextOffset)
    && (forall h :: h in s.handlers && s.handlers[h].Committing? ==> s.handlers[h].offset in spent)
    && (forall h :: h in s.handlers && !s.handlers[h].Creating? ==> Behind(place, s, s.handlers[h].offset) <= spent)
  }

  /** A record no handler has come to the commit of, or a handler, stands for the job. */
  ghost predicate Carried(s: State, spent: set<nat>, j: JobId) {
    (exists o :: Pending(s, o, j) && o !in spent) || (exists h :: Announcing(s, h, j))
  }

  ghost predicate Buried(s: State, j: JobId) {
    DeadLettered(s, j) || exists h :: Burying(s, h, j)
  }

  ghost predicate Held(s: State, j: JobId) {
    exists h :: s.Holds(h, j)
  }

  /** One job: a waiting one is carried on, a running one is held, and the failed ones are those buried. */
  ghost predicate JobDelivered(s: State, spent: set<nat>, j: JobId)
    requires j in s.rows
  {
    && s.rows[j].maxAttempts <= |RETRY_TIERS| + 1
    && (s.rows[j].status.Waiting() ==> Carried(s, spent, j))
    && (s.rows[j].status == Running ==> Held(s, j))
    && (s.rows[j].status == Failed <==> Buried(s, j))
  }

  ghost predicate Delivered(place: Layout, s: State, spent: set<nat>) {
    WellFormed(s) && InOrder(place, s, spent) && forall j :: j in s.rows ==> JobDelivered(s, spent, j)
  }

  ghost predicate NominalStep(cfg: Config, place: Layout, s: State, spent: set<nat>, a: Action) {
    Exclusive(s) && WithinLease(cfg, s) && Enabled(s, a) && Faultless(place, s, spent, a) &&
    (a.Create? ==> EffectiveMax(a.maxAttempts) <= |RETRY_TIERS| + 1)
  }

  /** The step is taken by handler `h`. */
  predicate By(a: Action, h: nat) {
    !a.Reclaim? && !a.Tick? && a.h == h
  }

  /** Rows are never deleted and keep their attempt limit. */
  ghost predicate RowsExtend(s: State, t: State) {
    forall j :: j in s.rows ==> j in t.rows && t.rows[j].maxAttempts == s.rows[j].maxAttempts
  }

  /** Offsets are never reused, and only a commit removes a record. */
  ghost predicate LogExtends(s: State, a: Action, t: State) {
    && s.nextOffset <= t.nextOffset
    && (forall o :: o in t.log ==> (o in s.log && t.log[o] == s.log[o]) || s.nextOffset <= o < t.nextOffset)
    && (forall o :: o in s.log ==>
          (o in t.log && t.log[o] == s.log[o]) ||
          (a.Commit? && (o in a.passed || (a.h in s.handlers && s.handlers[a.h] == Committing(o)))))
  }

  /** Only the acting handler moves. */
  ghost predicate HandlersExtend(s: State, a: Action, t: State) {
    && (forall h :: h in t.handlers && !By(a, h) ==> h in s.handlers && t.handlers[h] == s.handlers[h])
    && (forall h :: h in s.handlers && !By(a, h) ==> h in t.handlers && t.handlers[h] == s.handlers[h])
  }

  lemma RowsExtendStep(cfg: Config, s: State, a: Action)
    requires Enabled(s, a)
    ensures RowsExtend(s, Next(cfg, s, a))
  {
  }

  lemma LogExtendsStep(cfg: Config, s: State, a: Action)
    requires s.nextOffset !in s.log && Enabled(s, a)
    ensures LogExtends(s, a, Next(cfg, s, a))
  {
  }

  lemma HandlersExtendStep(cfg: Config, s: State, a: Action)
    requires Enabled(s, a)
    ensures HandlersExtend(s, a, Next(cfg, s, a))
  {
  }

  lemma WellFormedStep(cfg: Config, s: State, a: Action)
    requires WellFormed(s) && Enabled(s, a)
    ensures WellFormed(Next(cfg, s, a))
  {
    var t := Next(cfg, s, a);
    RowsExtendStep(cfg, s, a);
    LogExtendsStep(cfg, s, a);
    HandlersExtendStep(cfg, s, a);
    forall o | o in t.log
      ensures o < t.nextOffset && t.log[o].msg.job in t.rows
    {
      RecordsStep(cfg, s, a, o);
    }
    forall h | h in t.handlers
      ensures Faithful(t, t.handlers[h])
    {
      if By(a, h) {
        ActorStep(cfg, s, a);
      }
    }
    forall j | j in t.rows && t.rows[j].status == Running
      ensures t.rows[j].attempts >= 1
    {
      RunningStep(cfg, s, a, j);
    }
  }

  /** What a step appends names a job that is there. */
  lemma AppendedStep(cfg: Config, s: State, a: Action, o: nat)
    requires Enabled(s, a) && o !in s.log && o in Next(cfg, s, a).log
    requires a.h in s.handlers ==> Faithful(s, s.handlers[a.h])
    ensures Next(cfg, s, a).log[o].msg.job in s.rows
  {
  }

  lemma RecordsStep(cfg: Config, s: State, a: Action, o: nat)
    requires WellFormed(s) && Enabled(s, a) && o in Next(cfg, s, a).log
    ensures o < Next(cfg, s, a).nextOffset && Next(cfg, s, a).log[o].msg.job in Next(cfg, s, a).rows
  {
    RowsExtendStep(cfg, s, a);
    LogExtendsStep(cfg, s, a);
    if o !in s.log {
      AppendedStep(cfg, s, a, o);
    }
  }

  lemma ActorFetches(cfg: Config, s: State, a: Action)
    requires WellFormed(s) && Enabled(s, a) && (a.FetchMain? || a.FetchRetry?)
    ensures Faithful(Next(cfg, s, a), Next(cfg, s, a).handlers[a.h])
  {
  }

  lemma ActorMoves(cfg: Config, s: State, a: Action)
    requires Enabled(s, a) && !a.Reclaim? && !a.Tick? && a.h in Next(cfg, s, a).handlers && !a.FetchMain? && !a.FetchRetry?
    requires s.nextOffset !in s.log && (a.h in s.handlers ==> Faithful(s, s.handlers[a.h]))
    ensures Faithful(Next(cfg, s, a), Next(cfg, s, a).handlers[a.h])
  {
  }

  lemma ActorStep(cfg: Config, s: State, a: Action)
    requires WellFormed(s) && Enabled(s, a) && !a.Reclaim? && !a.Tick? && a.h in Next(cfg, s, a).handlers
    ensures Faithful(Next(cfg, s, a), Next(cfg, s, a).handlers[a.h])
  {
    if a.FetchMain? || a.FetchRetry? {
      ActorFetches(cfg, s, a);
    } else {
      ActorMoves(cfg, s, a);
    }
  }

  lemma RunningStep(cfg: Config, s: State, a: Action, j: JobId)
    requires Enabled(s, a) && j in Next(cfg, s, a).rows && Next(cfg, s, a).rows[j].status == Running
    requires j in s.rows && s.rows[j].status == Running ==> s.rows[j].attempts >= 1
    ensures Next(cfg, s, a).rows[j].attempts >= 1
  {
  }

  /** While a handler holds the job, the sweep leaves its row alone. */
  lemma SweepSparesHeldRows(cfg: Config, place: Layout, s: State, spent: set<nat>, j: JobId)
    requires Delivered(place, s, spent) && Exclusive(s) && WithinLease(cfg, s) && j in s.rows
    ensures Next(cfg, s, Reclaim).rows[j] == s.rows[j]
  {
    if s.rows[j].status == Running {
      var h :| s.Holds(h, j);
    }
  }

  lemma CarriedStep(cfg: Config, place: Layout, s: State, spent: set<nat>, a: Action, j: JobId)
    requires Delivered(place, s, spent) && NominalStep(cfg, place, s, spent, a)
    requires j in Next(cfg, s, a).rows && Next(cfg, s, a).rows[j].status.Waiting()
    ensures Carried(Next(cfg, s, a), Spend(spent, Next(cfg, s, a)), j)
  {
    if j !in s.rows || !s.rows[j].status.Waiting() {
      CarriedAnew(cfg, place, s, spent, a, j);
    } else {
      assert JobDelivered(s, spent, j);
      if o :| Pending(s, o, j) && o !in spent {
        CarriedByRecord(cfg, place, s, spent, a, j, o);
      } else {
        var h :| Announcing(s, h, j);
        CarriedByHandler(cfg, place, s, spent, a, j, h);
      }
    }
  }

  /** The ways a faultless step can write the row of an existing job. */
  lemma RowStep(cfg: Config, place: Layout, s: State, spent: set<nat>, a: Action, j: JobId)
    requires Delivered(place, s, spent) && NominalStep(cfg, place, s, spent, a) && j in s.rows
    ensures var t := Next(cfg, s, a);
            t.rows[j] == s.rows[j] ||
            (!a.Reclaim? && !a.Tick? && a.h in s.handlers && !s.handlers[a.h].Creating? &&
             ((a.Claim? && s.handlers[a.h].msg.job == j && s.rows[j].status.Waiting() && t.rows[j].status == Running && t.Holds(a.h, j)) ||
              (a.Complete? && s.Holds(a.h, j) && t.rows[j].status == Succeeded) ||
              (a.Mark? && s.Holds(a.h, j) && t.rows[j].status == if s.rows[j].attempts < s.rows[j].maxAttempts then Retrying else Failed)))
  {
    if a.Reclaim? {
      SweepSparesHeldRows(cfg, place, s, spent, j);
    }
  }

  lemma CarriedAnew(cfg: Config, place: Layout, s: State, spent: set<nat>, a: Action, j: JobId)
    requires Delivered(place, s, spent) && NominalStep(cfg, place, s, spent, a)
    requires j in s.rows ==> !s.rows[j].status.Waiting()
    requires j in Next(cfg, s, a).rows && Next(cfg, s, a).rows[j].status.Waiting()
    ensures Carried(Next(cfg, s, a), Spend(spent, Next(cfg, s, a)), j)
  {
    if j in s.rows {
      RowStep(cfg, place, s, spent, a, j);
      MarkAnnounces(cfg, place, s, spent, a, j);
    } else {
      CreateAnnounces(cfg, s, a, j);
    }
    assert Announcing(Next(cfg, s, a), a.h, j);
  }

  lemma MarkAnnounces(cfg: Config, place: Layout, s: State, spent: set<nat>, a: Action, j: JobId)
    requires Delivered(place, s, spent) && NominalStep(cfg, place, s, spent, a) && j in s.rows
    requires a.Mark? && s.Holds(a.h, j) && s.rows[j].attempts < s.rows[j].maxAttempts
    ensures Announcing(Next(cfg, s, a), a.h, j)
  {
    assert s.rows[j].attempts == s.handlers[a.h].attempt;
  }

  lemma CreateAnnounces(cfg: Config, s: State, a: Action, j: JobId)
    requires Enabled(s, a)
    requires j !in s.rows && j in Next(cfg, s, a).rows
    ensures a.Create? && Announcing(Next(cfg, s, a), a.h, j)
  {
  }

  lemma CarriedByHandler(cfg: Config, place: Layout, s: State, spent: set<nat>, a: Action, j: JobId, h: nat)
    requires Delivered(place, s, spent) && NominalStep(cfg, place, s, spent, a) && Announcing(s, h, j)
    ensures Carried(Next(cfg, s, a), Spend(spent, Next(cfg, s, a)), j)
  {
    var t := Next(cfg, s, a);
    if By(a, h) {
      AppendedIsUnspent(cfg, place, s, spent, a);
      assert Pending(t, s.nextOffset, j);
    } else {
      HandlersExtendStep(cfg, s, a);
      assert Announcing(t, h, j);
    }
  }

  lemma CarriedByRecord(cfg: Config, place: Layout, s: State, spent: set<nat>, a: Action, j: JobId, o: nat)
    requires Delivered(place, s, spent) && NominalStep(cfg, place, s, spent, a)
    requires j in s.rows && s.rows[j].status.Waiting()
    requires j in Next(cfg, s, a).rows && Next(cfg, s, a).rows[j].status.Waiting()
    requires Pending(s, o, j) && o !in spent
    ensures Carried(Next(cfg, s, a), Spend(spent, Next(cfg, s, a)), j)
  {
    var t := Next(cfg, s, a);
    if (a.Publish? || a.Republish?) && s.handlers[a.h].offset == o {
      Handover(cfg, place, s, spent, a, j, o);
    } else {
      LogExtendsStep(cfg, s, a);
      HandlersExtendStep(cfg, s, a);
      CommitSparesUnspent(cfg, place, s, spent, a, o);
      assert Pending(t, o, j);
      forall h | h in t.handlers && t.handlers[h].Committing?
        ensures t.handlers[h].offset != o
      {
        if By(a, h) {
          NotSpentByActor(cfg, place, s, spent, a, j, o);
        }
      }
      assert o !in Spend(spent, t);
    }
  }

  /** A commit takes away only records whose handlers have come to their commits. */
  lemma CommitSparesUnspent(cfg: Config, place: Layout, s: State, spent: set<nat>, a: Action, o: nat)
    requires InOrder(place, s, spent) && Enabled(s, a) && Faultless(place, s, spent, a) && o in s.log && o !in spent
    ensures o in Next(cfg, s, a).log
  {
    if a.Commit? {
      assert a.passed <= Behind(place, s, s.handlers[a.h].offset) <= spent;
    }
  }

  /** So a commit passes over no record that is all a waiting job has. */
  lemma PassedIsSuperseded(place: Layout, s: State, spent: set<nat>, h: nat, passed: set<nat>, j: JobId)
    requires Delivered(place, s, spent) && Enabled(s, Commit(h, passed)) && Faultless(place, s, spent, Commit(h, passed))
    requires j in s.rows && s.rows[j].status.Waiting()
    ensures (exists o :: Pending(s, o, j) && o !in passed && o != s.handlers[h].offset) || exists k :: Announcing(s, k, j)
  {
    assert JobDelivered(s, spent, j);
    if o :| Pending(s, o, j) && o !in spent {
      assert passed <= Behind(place, s, s.handlers[h].offset) <= spent;
      assert Pending(s, o, j) && o !in passed;
    }
  }

  /** No handler has come to the commit of a record that has just been appended. */
  lemma AppendedIsUnspent(cfg: Config, place: Layout, s: State, spent: set<nat>, a: Action)
    requires WellFormed(s) && InOrder(place, s, spent) && Enabled(s, a)
    ensures s.nextOffset !in Spend(spent, Next(cfg, s, a))
  {
    var t := Next(cfg, s, a);
    HandlersExtendStep(cfg, s, a);
    forall h | h in t.handlers && t.handlers[h].Committing?
      ensures t.handlers[h].offset != s.nextOffset
    {
      if By(a, h) {
        SameRecord(cfg, s, a);
        assert Faithful(s, s.handlers[h]);
      }
    }
  }

  /** A handler keeps the record it was given. */
  lemma SameRecord(cfg: Config, s: State, a: Action)
    requires Enabled(s, a) && !a.Reclaim? && !a.Tick? && a.h in Next(cfg, s, a).handlers
    requires !Next(cfg, s, a).handlers[a.h].Creating?
    ensures var f := Next(cfg, s, a).handlers[a.h];
            if a.FetchMain? || a.FetchRetry? then f.offset == a.offset && !f.Committing?
            else a.h in s.handlers && !s.handlers[a.h].Creating? && f.offset == s.handlers[a.h].offset
  {
  }

  lemma InOrderStep(cfg: Config, place: Layout, s: State, spent: set<nat>, a: Action)
    requires WellFormed(s) && InOrder(place, s, spent) && Enabled(s, a) && Faultless(place, s, spent, a)
    ensures InOrder(place, Next(cfg, s, a), Spend(spent, Next(cfg, s, a)))
  {
    var t := Next(cfg, s, a);
    WellFormedStep(cfg, s, a);
    LogExtendsStep(cfg, s, a);
    HandlersExtendStep(cfg, s, a);
    forall h | h in t.handlers && !t.handlers[h].Creating?
      ensures Behind(place, t, t.handlers[h].offset) <= Spend(spent, t)
    {
      if By(a, h) {
        SameRecord(cfg, s, a);
      }
      NothingComesBehind(cfg, place, s, a, t.handlers[h].offset);
    }
    forall o | o in Spend(spent, t)
      ensures o < t.nextOffset
    {
      if o !in spent {
        var h :| h in t.handlers && t.handlers[h].Committing? && t.handlers[h].offset == o;
        assert Faithful(t, t.handlers[h]);
      }
    }
  }

  /** New records go to the ends of the partitions. */
  lemma NothingComesBehind(cfg: Config, place: Layout, s: State, a: Action, o: nat)
    requires WellFormed(s) && Enabled(s, a) && o < s.nextOffset
    ensures Behind(place, Next(cfg, s, a), o) <= Behind(place, s, o)
  {
    LogExtendsStep(cfg, s, a);
  }

  /** A handler that publishes on behalf of its record leaves a fresh record behind. */
  lemma Handover(cfg: Config, place: Layout, s: State, spent: set<nat>, a: Action, j: JobId, o: nat)
    requires Delivered(place, s, spent) && NominalStep(cfg, place, s, spent, a)
    requires j in s.rows && s.rows[j].status.Waiting() && Pending(s, o, j)
    requires (a.Publish? || a.Republish?) && s.handlers[a.h].offset == o
    ensures Pending(Next(cfg, s, a), s.nextOffset, j) && s.nextOffset !in Spend(spent, Next(cfg, s, a))
  {
    AppendedIsUnspent(cfg, place, s, spent, a);
    assert Faithful(s, s.handlers[a.h]) && JobDelivered(s, spent, j);
    if a.Publish? && s.handlers[a.h].topic.DeadLetter? {
      assert Burying(s, a.h, j);
      assert Buried(s, j);
    }
  }

  /** The faultless ways to reach a commit. */
  lemma CommitReached(cfg: Config, place: Layout, s: State, spent: set<nat>, a: Action)
    requires Enabled(s, a) && Faultless(place, s, spent, a)
    requires !a.Reclaim? && !a.Tick? && a.h in Next(cfg, s, a).handlers && Next(cfg, s, a).handlers[a.h].Committing?
    ensures a.h in s.handlers && !s.handlers[a.h].Creating?
    ensures Next(cfg, s, a).handlers[a.h] == Committing(s.handlers[a.h].offset)
    ensures (a.Claim? && !Claimable(s, s.handlers[a.h].msg.job)) || a.Complete? || a.Publish? || a.Republish?
  {
  }

  lemma NotSpentByActor(cfg: Config, place: Layout, s: State, spent: set<nat>, a: Action, j: JobId, o: nat)
    requires Delivered(place, s, spent) && NominalStep(cfg, place, s, spent, a)
    requires j in s.rows && s.rows[j].status.Waiting()
    requires Next(cfg, s, a).rows[j].status.Waiting()
    requires Pending(s, o, j)
    requires !a.Reclaim? && !a.Tick? && a.h in Next(cfg, s, a).handlers
    requires !((a.Publish? || a.Republish?) && s.handlers[a.h].offset == o)
    ensures Next(cfg, s, a).handlers[a.h] != Committing(o)
  {
    if Next(cfg, s, a).handlers[a.h].Committing? {
      CommitReached(cfg, place, s, spent, a);
      assert Faithful(s, s.handlers[a.h]);
    }
  }

  lemma HeldStep(cfg: Config, place: Layout, s: State, spent: set<nat>, a: Action, j: JobId)
    requires NominalStep(cfg, place, s, spent, a) && (j in s.rows && s.rows[j].status == Running ==> Held(s, j))
    requires j in Next(cfg, s, a).rows && Next(cfg, s, a).rows[j].status == Running
    ensures Held(Next(cfg, s, a), j)
  {
    var t := Next(cfg, s, a);
    if j !in s.rows || s.rows[j].status != Running {
      assert t.Holds(a.h, j);
    } else {
      var h :| s.Holds(h, j);
      assert t.Holds(h, j);
    }
  }

  lemma BuriedStep(cfg: Config, place: Layout, s: State, spent: set<nat>, a: Action, j: JobId)
    requires Delivered(place, s, spent) && NominalStep(cfg, place, s, spent, a)
    requires j in Next(cfg, s, a).rows
    ensures Next(cfg, s, a).rows[j].status == Failed <==> Buried(Next(cfg, s, a), j)
  {
    var t := Next(cfg, s, a);
    if j !in s.rows {
      NewRowNotBuried(cfg, place, s, spent, a, j);
    } else if t.rows[j].status == Failed {
      BuriedForward(cfg, place, s, spent, a, j);
    } else if Buried(t, j) {
      BuriedBackward(cfg, place, s, spent, a, j);
    }
  }

  lemma NewRowNotBuried(cfg: Config, place: Layout, s: State, spent: set<nat>, a: Action, j: JobId)
    requires Delivered(place, s, spent) && NominalStep(cfg, place, s, spent, a)
    requires j !in s.rows && j in Next(cfg, s, a).rows
    ensures Next(cfg, s, a).rows[j].status != Failed && !Buried(Next(cfg, s, a), j)
  {
    var t := Next(cfg, s, a);
    CreateAnnounces(cfg, s, a, j);
    assert forall h :: h in s.handlers ==> Faithful(s, s.handlers[h]);
    assert forall h :: !Burying(t, h, j);
  }

  lemma BuriedBackward(cfg: Config, place: Layout, s: State, spent: set<nat>, a: Action, j: JobId)
    requires Delivered(place, s, spent) && NominalStep(cfg, place, s, spent, a)
    requires j in s.rows && Buried(Next(cfg, s, a), j)
    ensures Next(cfg, s, a).rows[j].status == Failed
  {
    var t := Next(cfg, s, a);
    if Buried(s, j) {
      FinalStep(cfg, s, a, j);
    } else if h :| Burying(t, h, j) {
      HandlersExtendStep(cfg, s, a);
      assert !Burying(s, h, j);
      assert By(a, h);
      MarkBuries(cfg, place, s, spent, a, j);
    } else {
      var o :| o in t.log && t.log[o].topic.DeadLetter? && t.log[o].msg.job == j;
      LogExtendsStep(cfg, s, a);
      assert o !in s.log;
      PublishBuries(cfg, place, s, spent, a, j, o);
      assert false;
    }
  }

  lemma MarkBuries(cfg: Config, place: Layout, s: State, spent: set<nat>, a: Action, j: JobId)
    requires Delivered(place, s, spent) && NominalStep(cfg, place, s, spent, a) && j in s.rows
    requires !a.Reclaim? && !a.Tick? && !Burying(s, a.h, j) && Burying(Next(cfg, s, a), a.h, j)
    ensures Next(cfg, s, a).rows[j].status == Failed
  {
    assert a.Mark?;
    assert s.Holds(a.h, j);
  }

  lemma PublishBuries(cfg: Config, place: Layout, s: State, spent: set<nat>, a: Action, j: JobId, o: nat)
    requires Enabled(s, a) && Faultless(place, s, spent, a)
    requires o !in s.log && o in Next(cfg, s, a).log
    requires Next(cfg, s, a).log[o].topic.DeadLetter? && Next(cfg, s, a).log[o].msg.job == j
    ensures a.Publish? && Burying(s, a.h, j)
  {
  }

  lemma BuriedForward(cfg: Config, place: Layout, s: State, spent: set<nat>, a: Action, j: JobId)
    requires Delivered(place, s, spent) && NominalStep(cfg, place, s, spent, a)
    requires j in s.rows && Next(cfg, s, a).rows[j].status == Failed
    ensures Buried(Next(cfg, s, a), j)
  {
    var t := Next(cfg, s, a);
    RowStep(cfg, place, s, spent, a, j);
    LogExtendsStep(cfg, s, a);
    HandlersExtendStep(cfg, s, a);
    if s.rows[j].status != Failed {
      assert Burying(t, a.h, j);
    } else if o :| o in s.log && s.log[o].topic.DeadLetter? && s.log[o].msg.job == j {
      DeadLetterStays(cfg, s, a, o);
      assert o in t.log && t.log[o] == s.log[o];
    } else {
      assert Buried(s, j);
      var h :| Burying(s, h, j);
      BuryingGoesOn(cfg, place, s, spent, a, j, h);
    }
  }

  lemma BuryingGoesOn(cfg: Config, place: Layout, s: State, spent: set<nat>, a: Action, j: JobId, h: nat)
    requires Enabled(s, a) && Faultless(place, s, spent, a) && Burying(s, h, j)
    ensures Buried(Next(cfg, s, a), j)
  {
    var t := Next(cfg, s, a);
    if By(a, h) {
      assert t.log[s.nextOffset] == Record(DeadLetter, s.handlers[h].next);
    } else {
      HandlersExtendStep(cfg, s, a);
      assert Burying(t, h, j);
    }
  }

  lemma DeadLetterStays(cfg: Config, s: State, a: Action, o: nat)
    requires WellFormed(s) && Enabled(s, a) && o in s.log && s.log[o].topic.DeadLetter?
    ensures o in Next(cfg, s, a).log && Next(cfg, s, a).log[o] == s.log[o]
  {
    LogExtendsStep(cfg, s, a);
    if a.Commit? {
      assert Faithful(s, s.handlers[a.h]);
    }
  }

  lemma JobDeliveredStep(cfg: Config, place: Layout, s: State, spent: set<nat>, a: Action, j: JobId)
    requires Delivered(place, s, spent) && NominalStep(cfg, place, s, spent, a) && j in Next(cfg, s, a).rows
    ensures JobDelivered(Next(cfg, s, a), Spend(spent, Next(cfg, s, a)), j)
  {
    var t := Next(cfg, s, a);
    assert j in s.rows ==> JobDelivered(s, spent, j);
    LimitStep(cfg, s, a, j);
    if t.rows[j].status.Waiting() {
      CarriedStep(cfg, place, s, spent, a, j);
    }
    if t.rows[j].status == Running {
      HeldStep(cfg, place, s, spent, a, j);
    }
    BuriedStep(cfg, place, s, spent, a, j);
  }

  lemma LimitStep(cfg: Config, s: State, a: Action, j: JobId)
    requires Enabled(s, a) && j in Next(cfg, s, a).rows
    requires j in s.rows ==> s.rows[j].maxAttempts <= |RETRY_TIERS| + 1
    requires a.Create? ==> EffectiveMax(a.maxAttempts) <= |RETRY_TIERS| + 1
    ensures Next(cfg, s, a).rows[j].maxAttempts <= |RETRY_TIERS| + 1
  {
    RowsExtendStep(cfg, s, a);
  }

  lemma DeliveredStep(cfg: Config, place: Layout, s: State, spent: set<nat>, a: Action)
    requires Delivered(place, s, spent) && NominalStep(cfg, place, s, spent, a)
    ensures Delivered(place, Next(cfg, s, a), Spend(spent, Next(cfg, s, a)))
  {
    var t := Next(cfg, s, a);
    WellFormedStep(cfg, s, a);
    InOrderStep(cfg, place, s, spent, a);
    forall j | j in t.rows
      ensures JobDelivered(t, Spend(spent, t), j)
    {
      JobDeliveredStep(cfg, place, s, spent, a, j);
    }
  }

  lemma {:induction false} DeliveredRun(cfg: Config, place: Layout, s: State, spent: set<nat>, run: seq<Action>)
    requires Delivered(place, s, spent) && Exclusive(s) && WithinLease(cfg, s)
    requires NominalRun(cfg, place, |RETRY_TIERS| + 1, s, spent, run)
    ensures Run(cfg, s, run) && Delivered(place, Exec(cfg, s, run), Spent(cfg, s, spent, run))
    decreases run
  {
    if run != [] {
      var t := Next(cfg, s, run[0]);
      ExclusiveStep(cfg, s, run[0]);
      DeliveredStep(cfg, place, s, spent, run[0]);
      DeliveredRun(cfg, place, t, Spend(spent, t), run[1..]);
    }
  }

  lemma DeliveredLosesNothing(place: Layout, s: State, spent: set<nat>)
    requires Delivered(place, s, spent)
    ensures NothingLost(s)
  {
    forall j | j in s.rows && s.rows[j].status.Waiting()
      ensures (exists o :: Pending(s, o, j)) || exists h :: Announcing(s, h, j)
    {
      assert JobDelivered(s, spent, j);
    }
  }

  /** No job is lost, and a job fails exactly when its dead letter is published or about to be. */
  lemma NoJobIsLost(cfg: Config, place: Layout, run: seq<Action>)
    requires NominalRun(cfg, place, |RETRY_TIERS| + 1, Init, {}, run)
    ensures Run(cfg, Init, run)
    ensures var s := Exec(cfg, Init, run);
            NothingLost(s) &&
            forall j :: j in s.rows ==> (s.rows[j].status == Failed <==> DeadLettered(s, j) || exists h :: Burying(s, h, j))
  {
    DeliveredRun(cfg, place, Init, {}, run);
    var s, spent := Exec(cfg, Init, run), Spent(cfg, Init, {}, run);
    DeliveredLosesNothing(place, s, spent);
    forall j | j in s.rows
      ensures s.rows[j].status == Failed <==> DeadLettered(s, j) || exists h :: Burying(s, h, j)
    {
      assert JobDelivered(s, spent, j);
    }
  }

  /** Once no handler is busy and the job topics are drained, every job is settled: it succeeded, or it failed
      and its dead letter is published. */
  lemma IdleMeansSettled(cfg: Config, place: Layout, run: seq<Action>, j: JobId)
    requires NominalRun(cfg, place, |RETRY_TIERS| + 1, Init, {}, run)
    ensures Run(cfg, Init, run)
    ensures var s := Exec(cfg, Init, run);
            s.handlers == map[] && j in s.rows ==>
              && (s.rows[j].status == Failed <==> DeadLettered(s, j))
              && ((forall o :: o in s.log ==> s.log[o].topic.DeadLetter?) ==> s.rows[j].status.Final())
  {
    NoJobIsLost(cfg, place, run);
    var s := Exec(cfg, Init, run);
    if s.handlers == map[] && j in s.rows {
      assert forall h :: !Burying(s, h, j) && !Announcing(s, h, j) && !s.Holds(h, j);
      if forall o :: o in s.log ==> s.log[o].topic.DeadLetter? {
        assert forall o :: !Pending(s, o, j);
      }
    }
  }
}
