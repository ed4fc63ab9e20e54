/** The Kafka topics: the retry ladder, and the uncommitted records of an at-least-once log. */
module Queue {
  import opened Common
  import Store

  /** The backoff ladder. */
  const RETRY_TIERS: seq<int> := [15 * Store.SECOND, 120 * Store.SECOND]

  datatype Topic = Main | Retry(tier: nat) | DeadLetter

  /** `notBefore` is None for Go's zero time. */
  datatype Message = Message(job: Store.JobId, attempt: nat, notBefore: Option<int>, lastError: string)

  datatype Record = Record(topic: Topic, msg: Message)

  /** The topic and delay for a failed attempt, when the ladder reaches that far. */
  function RetryTopic(attempt: int): Option<(Topic, int)> {
    if attempt < 1 || attempt > |RETRY_TIERS| then None
    else Some((Retry(attempt), RETRY_TIERS[attempt - 1]))
  }

  /** The ladder spelled out: fifteen seconds after the first failed attempt, two minutes after the second, and no further. */
  lemma TheLadder(attempt: int)
    ensures RetryTopic(1) == Some((Retry(1), 15_000_000_000)) && RetryTopic(2) == Some((Retry(2), 120_000_000_000))
    ensures RetryTopic(attempt).Some? <==> attempt == 1 || attempt == 2
  {
  }

  method AllTopics() returns (out: seq<Topic>)
    ensures forall t :: t in out <==> t == Main || t == DeadLetter || exists a :: RetryTopic(a).Some? && RetryTopic(a).value.0 == t
    ensures forall i, j :: 0 <= i < j < |out| ==> out[i] != out[j]
  {
    out := [Main, DeadLetter];
    for i := 0 to |RETRY_TIERS|
      invariant |out| == 2 + i && out[0] == Main && out[1] == DeadLetter
      invariant forall k :: 2 <= k < |out| ==> out[k] == Retry(k - 1)
    {
      out := out + [RetryTopic(i + 1).value.0];
    }
    forall t
      ensures t in out <==> t == Main || t == DeadLetter || exists a :: RetryTopic(a).Some? && RetryTopic(a).value.0 == t
    {
      if t.Retry? {
        assert t in out <==> 1 <= t.tier <= |RETRY_TIERS| by {
          if 1 <= t.tier <= |RETRY_TIERS| {
            assert out[t.tier + 1] == t;
          }
        }
        assert RetryTopic(t.tier).Some? ==> RetryTopic(t.tier).value.0 == t;
      }
    }
  }

  /** The broker: every record published and not yet committed, by offset. */
  class Broker {
    var log: map<nat, Record>
    var nextOffset: nat

    /** The hash of a record's key, the job. */
    const partition: Store.JobId -> nat

    constructor (partition: Store.JobId -> nat)
      ensures log == map[] && nextOffset == 0 && this.partition == partition
    {
      log, nextOffset := map[], 0;
      this.partition := partition;
    }

    method Publish(topic: Topic, msg: Message)
      modifies this
      ensures log == old(log)[old(nextOffset) := Record(topic, msg)] && nextOffset == old(nextOffset) + 1
    {
      log := log[nextOffset := Record(topic, msg)];
      nextOffset := nextOffset + 1;
    }

    /** The earlier records of the topic's partition that the key belongs to. */
    function Passed(topic: Topic, job: Store.JobId, offset: nat): set<nat>
      reads this
    {
      set o | o in log && o < offset && log[o].topic == topic && partition(log[o].msg.job) == partition(job)
    }

    /** A committed offset stands for all earlier ones of its partition. */
    method Commit(topic: Topic, job: Store.JobId, offset: nat)
      modifies this`log
      ensures log == old(log) - ({offset} + old(Passed(topic, job, offset)))
      ensures forall o :: o in old(log) ==>
                var passed := old(log)[o].topic == topic && partition(old(log)[o].msg.job) == partition(job);
                (o !in log <==> o == offset || (o < offset && passed))
    {
      log := log - ({offset} + Passed(topic, job, offset));
    }
  }
}
