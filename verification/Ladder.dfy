/** How long a failed job waits before its next attempt, and what a record says of the failure it stands for. */
module Ladder {
  import opened Common
  import opened Delivery
  import opened Protocol
  import opened Queue
  import opened Store

  /** An attempt of a job came back with an error; a failed attempt was marked in the table at a time. */
  datatype Event =
    | Erred(job: JobId, attempt: nat, cause: string)
    | Marked(job: JobId, attempt: nat, at: int)

  /** What went wrong so far, after one more step. */
  function Noting(s: State, a: Action, events: set<Event>): set<Event>
    requires Enabled(s, a)
  {
    if a.Fail? then events + {Erred(s.handlers[a.h].msg.job, s.handlers[a.h].attempt, a.cause)}
    else if a.Mark? then events + {Marked(s.handlers[a.h].msg.job, s.handlers[a.h].attempt, s.now)}
    else events
  }

  ghost function Events(cfg: Config, s: State, run: seq<Action>, events: set<Event>): set<Event>
    requires Run(cfg, s, run)
    decreases run
  {
    if run == [] then events else Events(cfg, Next(cfg, s, run[0]), run[1..], Noting(s, run[0], events))
  }

  /** The message stands for a failure of attempt `tier`, and is dated as long after it as the tier says. */
  predicate Dated(msg: Message, tier: nat, events: set<Event>) {
    && msg.notBefore.Some? && 1 <= tier <= |RETRY_TIERS|
    && Marked(msg.job, tier, msg.notBefore.value - RETRY_TIERS[tier - 1]) in events
  }

  /** The message is for the attempt after one that failed, and names that one's error. */
  predicate Tells(msg: Message, events: set<Event>) {
    msg.attempt > 0 && Erred(msg.job, msg.attempt - 1, msg.lastError) in events
  }

  predicate HandlerDated(f: Handler, events: set<Event>) {
    match f
    case Failing(_, msg, attempt, _, cause) => Erred(msg.job, attempt, cause) in events
    case Publishing(_, topic, next) => (topic.Retry? ==> Dated(next, topic.tier, events)) && Tells(next, events)
    case Delaying(_, msg) => exists tier: nat :: tier <= |RETRY_TIERS| && Dated(msg, tier, events)
    case _ => true
  }

  ghost predicate AllDated(s: State, events: set<Event>) {
    && (forall o :: o in s.log && s.log[o].topic.Retry? ==> Dated(s.log[o].msg, s.log[o].topic.tier, events))
    && (forall o :: o in s.log && !s.log[o].topic.Main? ==> Tells(s.log[o].msg, events))
    && (forall h :: h in s.handlers ==> HandlerDated(s.handlers[h], events))
  }

  lemma MarkIsDated(cfg: Config, s: State, a: Action, events: set<Event>)
    requires Enabled(s, a) && a.Mark? && HandlerDated(s.handlers[a.h], events)
    ensures HandlerDated(Next(cfg, s, a).handlers[a.h], Noting(s, a, events))
  {
  }

  lemma ActorDated(cfg: Config, s: State, a: Action, events: set<Event>)
    requires Enabled(s, a) && AllDated(s, events) && !a.Reclaim? && !a.Tick? && a.h in Next(cfg, s, a).handlers
    ensures HandlerDated(Next(cfg, s, a).handlers[a.h], Noting(s, a, events))
  {
    if a.Mark? {
      MarkIsDated(cfg, s, a, events);
    } else if a.FetchRetry? {
      assert Dated(s.log[a.offset].msg, s.log[a.offset].topic.tier, events);
    }
  }

  lemma RecordDated(cfg: Config, s: State, a: Action, events: set<Event>, o: nat)
    requires Enabled(s, a) && AllDated(s, events) && o in Next(cfg, s, a).log
    ensures var r := Next(cfg, s, a).log[o];
            && (r.topic.Retry? ==> Dated(r.msg, r.topic.tier, Noting(s, a, events)))
            && (!r.topic.Main? ==> Tells(r.msg, Noting(s, a, events)))
  {
  }

  lemma AllDatedStep(cfg: Config, s: State, a: Action, events: set<Event>)
    requires Enabled(s, a) && AllDated(s, events)
    ensures AllDated(Next(cfg, s, a), Noting(s, a, events))
  {
    var t := Next(cfg, s, a);
    HandlersExtendStep(cfg, s, a);
    forall o | o in t.log
      ensures t.log[o].topic.Retry? ==> Dated(t.log[o].msg, t.log[o].topic.tier, Noting(s, a, events))
      ensures !t.log[o].topic.Main? ==> Tells(t.log[o].msg, Noting(s, a, events))
    {
      RecordDated(cfg, s, a, events, o);
    }
    forall h | h in t.handlers
      ensures HandlerDated(t.handlers[h], Noting(s, a, events))
    {
      if By(a, h) {
        ActorDated(cfg, s, a, events);
      } else {
        StaysDated(s.handlers[h], events, Noting(s, a, events));
      }
    }
  }

  lemma StaysDated(f: Handler, events: set<Event>, more: set<Event>)
    requires HandlerDated(f, events) && events <= more
    ensures HandlerDated(f, more)
  {
    if f.Delaying? {
      var tier: nat :| tier <= |RETRY_TIERS| && Dated(f.msg, tier, events);
      assert Dated(f.msg, tier, more);
    }
  }

  lemma {:induction false} AllDatedRun(cfg: Config, s: State, run: seq<Action>, events: set<Event>)
    requires Run(cfg, s, run) && AllDated(s, events)
    ensures AllDated(Exec(cfg, s, run), Events(cfg, s, run, events))
    decreases run
  {
    if run != [] {
      AllDatedStep(cfg, s, run[0], events);
      AllDatedRun(cfg, Next(cfg, s, run[0]), run[1..], Noting(s, run[0], events));
    }
  }

  /** In every run whatever, a job goes back to the main topic only when fifteen seconds have passed since its first failure was
      marked, or two minutes since its second. */
  lemma RetriesWait(cfg: Config, run: seq<Action>, h: nat) returns (failed: Event)
    requires Run(cfg, Init, run) && Enabled(Exec(cfg, Init, run), Republish(h))
    ensures var s := Exec(cfg, Init, run);
            && failed in Events(cfg, Init, run, {}) && failed.Marked? && failed.job == s.handlers[h].msg.job
            && ((failed.attempt == 1 && s.now >= failed.at + 15_000_000_000) ||
                (failed.attempt == 2 && s.now >= failed.at + 120_000_000_000))
  {
    AllDatedRun(cfg, Init, run, {});
    var s, events := Exec(cfg, Init, run), Events(cfg, Init, run, {});
    var msg := s.handlers[h].msg;
    assert HandlerDated(s.handlers[h], events);
    var tier: nat :| tier <= |RETRY_TIERS| && Dated(msg, tier, events);
    failed := Marked(msg.job, tier, msg.notBefore.value - RETRY_TIERS[tier - 1]);
    TheLadder(tier);
  }

  /** In every run whatever, a record outside the main topic names the error of an attempt that failed, and the attempt after it:
      a dead letter says what its job died of. */
  lemma RecordsTellTheError(cfg: Config, run: seq<Action>, o: nat)
    requires Run(cfg, Init, run) && o in Exec(cfg, Init, run).log && !Exec(cfg, Init, run).log[o].topic.Main?
    ensures var msg := Exec(cfg, Init, run).log[o].msg;
            msg.attempt > 0 && Erred(msg.job, msg.attempt - 1, msg.lastError) in Events(cfg, Init, run, {})
  {
    AllDatedRun(cfg, Init, run, {});
  }
}
