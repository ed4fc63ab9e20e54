/** Timing a query: several runs, their median and their spread. Times are real milliseconds. */
module Measuring {
  import opened Common
  import Sorting

  /** What one timed execution comes back with. */
  datatype Execution = Done(ms: real) | TimedOut | Broken

  datatype Measurement = Measurement(runs: int, medianMs: real, minMs: real, maxMs: real, spreadMs: real, timedOut: bool)

  // ------------------------------------------------------------ sorting and the median

  const LE := (a: real, b: real) => a <= b

  predicate Ascending(s: seq<real>) {
    forall i, j :: 0 <= i < j < |s| ==> s[i] <= s[j]
  }

  /** sort.Float64s */
  function Sort(s: seq<real>): seq<real> {
    Sorting.Sort(LE, s)
  }

  lemma SortSorts(s: seq<real>)
    ensures Ascending(Sort(s)) && multiset(Sort(s)) == multiset(s) && |Sort(s)| == |s|
  {
    Sorting.SortSorts(LE, s);
  }

  function Median(sorted: seq<real>): real {
    var n := |sorted|;
    if n == 0 then 0.0
    else if n % 2 == 1 then sorted[n / 2]
    else (sorted[n / 2 - 1] + sorted[n / 2]) / 2.0
  }

  function MedianOf(s: seq<real>): real {
    Median(Sort(s))
  }

  // ------------------------------------------------------------ the timing loop

  predicate AllDone(es: seq<Execution>) {
    forall i :: 0 <= i < |es| ==> es[i].Done?
  }

  /** The first execution that does not come back is one that timed out. */
  predicate FirstTimesOut(es: seq<Execution>) {
    exists i :: 0 <= i < |es| && es[i].TimedOut? && forall k :: 0 <= k < i ==> es[k].Done?
  }

  /** The timed part of the executions, when they all come back. */
  function Timed(executions: seq<Execution>, warmup: nat): seq<real>
    requires AllDone(executions)
  {
    seq(if |executions| >= warmup then |executions| - warmup else 0,
        i requires 0 <= i < |executions| - warmup => executions[warmup + i].ms)
  }

  /** The measurement the timed runs stand for; all zero when nothing was timed. */
  function Summary(times: seq<real>): Measurement {
    var sorted := Sort(times);
    SortSorts(times);
    if times == [] then Measurement(0, 0.0, 0.0, 0.0, 0.0, false)
    else Measurement(|times|, Median(sorted), sorted[0], sorted[|sorted| - 1], sorted[|sorted| - 1] - sorted[0], false)
  }

  /** How often a query is timed: as asked or, without a positive number, as configured. */
  function Effective(runs: int, configured: nat): nat {
    if runs <= 0 then configured else runs
  }

  /** The executions of one measurement, the first `warmup` of them discarded; the first that fails ends the loop. */
  method Measure(executions: seq<Execution>, runs: int, configured: nat, warmup: nat) returns (r: Result<Measurement, ()>)
    requires |executions| == warmup + Effective(runs, configured)
    ensures r.Ok? && !r.value.timedOut <==> AllDone(executions)
    ensures r.Ok? && !r.value.timedOut ==> r.value == Summary(Timed(executions, warmup))
    ensures r.Ok? && r.value.timedOut <==> FirstTimesOut(executions)
    ensures r.Ok? && r.value.timedOut ==> r.value == Measurement(Effective(runs, configured), 0.0, 0.0, 0.0, 0.0, true)
  {
    var total := if runs <= 0 then configured else runs;
    var durations: seq<real> := [];
    for i := 0 to |executions|
      invariant AllDone(executions[..i]) && forall k :: 0 <= k < i ==> executions[k].Done?
      invariant durations == Timed(executions[..i], warmup)
    {
      match executions[i]
      case TimedOut =>
        return Ok(Measurement(total, 0.0, 0.0, 0.0, 0.0, true));
      case Broken =>
        return Err(());
      case Done(ms) =>
        if i < warmup {
          continue;
        }
        durations := durations + [ms];
    }
    assert executions[..|executions|] == executions;
    if |durations| == 0 {
      return Ok(Measurement(total, 0.0, 0.0, 0.0, 0.0, false));
    }
    var sorted := Sort(durations);
    SortSorts(durations);
    r := Ok(Measurement(total, Median(sorted), sorted[0], sorted[|sorted| - 1], sorted[|sorted| - 1] - sorted[0], false));
  }

  // ------------------------------------------------------------ counting

  function CountLe(s: seq<real>, v: real): nat {
    if s == [] then 0 else (if s[0] <= v then 1 else 0) + CountLe(s[1..], v)
  }

  function CountGe(s: seq<real>, v: real): nat {
    if s == [] then 0 else (if s[0] >= v then 1 else 0) + CountGe(s[1..], v)
  }

  lemma {:induction false} CountsOfInsert(x: real, s: seq<real>, v: real)
    ensures CountLe(Sorting.Insert(LE, x, s), v) == CountLe([x], v) + CountLe(s, v)
    ensures CountGe(Sorting.Insert(LE, x, s), v) == CountGe([x], v) + CountGe(s, v)
  {
    if s == [] || x <= s[0] {
      assert ([x] + s)[1..] == s;
    } else {
      CountsOfInsert(x, s[1..], v);
      assert ([s[0]] + Sorting.Insert(LE, x, s[1..]))[1..] == Sorting.Insert(LE, x, s[1..]);
    }
  }

  lemma {:induction false} CountsOfSort(s: seq<real>, v: real)
    ensures CountLe(Sort(s), v) == CountLe(s, v) && CountGe(Sort(s), v) == CountGe(s, v)
  {
    if s != [] {
      CountsOfSort(s[1..], v);
      CountsOfInsert(s[0], Sort(s[1..]), v);
    }
  }

  lemma {:induction false} CountLeSorted(s: seq<real>, k: nat, v: real)
    requires Ascending(s) && k <= |s| && forall i :: 0 <= i < k ==> s[i] <= v
    ensures CountLe(s, v) >= k
  {
    if k > 0 {
      CountLeSorted(s[1..], k - 1, v);
    }
  }

  lemma {:induction false} CountGeSorted(s: seq<real>, k: nat, v: real)
    requires Ascending(s) && k <= |s| && forall i :: k <= i < |s| ==> s[i] >= v
    ensures CountGe(s, v) >= |s| - k
  {
    if s != [] {
      CountGeSorted(s[1..], if k == 0 then 0 else k - 1, v);
    }
  }

  lemma Middle(a: real, b: real)
    requires a <= b
    ensures a <= (a + b) / 2.0 <= b
  {
  }

  /** The median lies at or above everything before the middle and at or below everything after it. */
  lemma MedianSplits(t: seq<real>)
    requires Ascending(t) && t != []
    ensures forall i :: 0 <= i < (|t| + 1) / 2 ==> t[i] <= Median(t)
    ensures forall i :: |t| / 2 <= i < |t| ==> Median(t) <= t[i]
  {
    var n := |t|;
    if n % 2 == 0 {
      Middle(t[n / 2 - 1], t[n / 2]);
    }
  }

  /** What makes it a median: at least half the runs are no slower, and at least half no faster. */
  lemma MedianIsCentral(s: seq<real>)
    requires s != []
    ensures 2 * CountLe(s, MedianOf(s)) >= |s| && 2 * CountGe(s, MedianOf(s)) >= |s|
  {
    var t, m := Sort(s), MedianOf(s);
    SortSorts(s);
    CountsOfSort(s, m);
    MedianSplits(t);
    CountLeSorted(t, (|t| + 1) / 2, m);
    CountGeSorted(t, |t| / 2, m);
  }

  // ------------------------------------------------------------ the median of an even number of runs

  function Negated(s: seq<real>): (r: seq<real>)
    ensures |r| == |s|
  {
    seq(|s|, i requires 0 <= i < |s| => -s[i])
  }

  lemma {:induction false} CountsOfNegated(s: seq<real>, v: real)
    ensures CountLe(Negated(s), -v) == CountGe(s, v)
  {
    if s != [] {
      CountsOfNegated(s[1..], v);
      assert Negated(s)[1..] == Negated(s[1..]);
    }
  }

  /** An ascending list is determined by its counts. */
  lemma {:induction false} SortedByCounts(s: seq<real>, t: seq<real>, k: nat)
    requires Ascending(s) && Ascending(t) && |s| == |t| && k < |s|
    requires forall v :: CountLe(s, v) == CountLe(t, v)
    ensures s[k] == t[k]
  {
    if s[k] < t[k] {
      CountLeSorted(s, k + 1, s[k]);
      CountLeBelow(t, k, s[k]);
    } else if t[k] < s[k] {
      CountLeSorted(t, k + 1, t[k]);
      CountLeBelow(s, k, t[k]);
    }
  }

  lemma {:induction false} CountLeBelow(s: seq<real>, k: nat, v: real)
    requires Ascending(s) && k < |s| && v < s[k]
    ensures CountLe(s, v) <= k
  {
    if k > 0 {
      CountLeBelow(s[1..], k - 1, v);
    } else {
      NoneBelow(s, v);
    }
  }

  lemma {:induction false} NoneBelow(s: seq<real>, v: real)
    requires forall i :: 0 <= i < |s| ==> v < s[i]
    ensures CountLe(s, v) == 0
  {
    if s != [] {
      assert forall i :: 0 <= i < |s[1..]| ==> s[1..][i] == s[i + 1];
      NoneBelow(s[1..], v);
    }
  }

  /** The mirror image of a sorted list. */
  function Mirrored(s: seq<real>): (r: seq<real>)
    ensures |r| == |s|
  {
    seq(|s|, i requires 0 <= i < |s| => -s[|s| - 1 - i])
  }

  lemma {:induction false} CountsOfConcat(a: seq<real>, b: seq<real>, v: real)
    ensures CountLe(a + b, v) == CountLe(a, v) + CountLe(b, v)
  {
    if a == [] {
      assert a + b == b;
    } else {
      assert (a + b)[1..] == a[1..] + b;
      CountsOfConcat(a[1..], b, v);
    }
  }

  lemma {:induction false} CountsOfMirrored(s: seq<real>, v: real)
    ensures CountLe(Mirrored(s), v) == CountGe(s, -v)
  {
    if s != [] {
      CountsOfMirrored(s[1..], v);
      assert Mirrored(s) == Mirrored(s[1..]) + [-s[0]];
      CountsOfConcat(Mirrored(s[1..]), [-s[0]], v);
    }
  }

  lemma SortOfNegated(s: seq<real>)
    ensures Sort(Negated(s)) == Mirrored(Sort(s))
  {
    SortSorts(s);
    SortSorts(Negated(s));
    forall v
      ensures CountLe(Sort(Negated(s)), v) == CountLe(Mirrored(Sort(s)), v)
    {
      CountsOfSort(Negated(s), v);
      CountsOfNegated(s, -v);
      CountsOfMirrored(Sort(s), v);
      CountsOfSort(s, -v);
      assert - -v == v;
    }
    forall k | 0 <= k < |s|
      ensures Sort(Negated(s))[k] == Mirrored(Sort(s))[k]
    {
      SortedByCounts(Sort(Negated(s)), Mirrored(Sort(s)), k);
    }
  }

  /** Slow and fast are treated alike: turning every figure around turns the median around. */
  lemma MedianMirrors(s: seq<real>)
    ensures MedianOf(Negated(s)) == -MedianOf(s)
  {
    SortOfNegated(s);
    SortSorts(s);
  }

  /** For an even number of runs the median is as far from the last of the faster half as from the first of the slower. */
  lemma MedianIsHalfway(s: seq<real>)
    requires s != [] && |s| % 2 == 0
    ensures |Sort(s)| == |s|
    ensures var t, k := Sort(s), |s| / 2; MedianOf(s) - t[k - 1] == t[k] - MedianOf(s)
  {
    SortSorts(s);
  }

  // ------------------------------------------------------------ resistance to outliers

  /** The touched runs, by position. */
  ghost predicate Untouched(s: seq<real>, t: seq<real>, touched: set<int>) {
    |s| == |t| && forall i :: 0 <= i < |s| && i !in touched ==> s[i] == t[i]
  }

  /** More values on one side of `v` than touched positions leave an untouched one there. */
  lemma {:induction false} CountLeFindsUntouched(t: seq<real>, v: real, touched: set<int>, from: nat) returns (i: nat)
    requires CountLe(t, v) > |touched|
    requires forall k :: k in touched ==> k >= from
    ensures i < |t| && t[i] <= v && from + i !in touched
    decreases |t|
  {
    if t[0] <= v && from !in touched {
      return 0;
    }
    i := CountLeFindsUntouched(t[1..], v, touched - {from}, from + 1);
    i := i + 1;
  }

  lemma {:induction false} CountGeFindsUntouched(t: seq<real>, v: real, touched: set<int>, from: nat) returns (i: nat)
    requires CountGe(t, v) > |touched|
    requires forall k :: k in touched ==> k >= from
    ensures i < |t| && t[i] >= v && from + i !in touched
    decreases |t|
  {
    if t[0] >= v && from !in touched {
      return 0;
    }
    i := CountGeFindsUntouched(t[1..], v, touched - {from}, from + 1);
    i := i + 1;
  }

  /** Breakdown bound: as long as fewer than half of the runs are replaced, by whatever values, the median stays
      between two runs that were not replaced. */
  lemma MedianResists(s: seq<real>, t: seq<real>, touched: set<int>) returns (low: nat, high: nat)
    requires Untouched(s, t, touched) && (forall k :: k in touched ==> 0 <= k) && 2 * |touched| < |s|
    ensures low < |s| && low !in touched && high < |s| && high !in touched
    ensures s[low] <= MedianOf(t) <= s[high]
  {
    MedianIsCentral(t);
    low := CountLeFindsUntouched(t, MedianOf(t), touched, 0);
    high := CountGeFindsUntouched(t, MedianOf(t), touched, 0);
  }

  /** With the enforced minimum of three runs, one cold run never decides the median. */
  lemma OneColdRunIsHarmless(s: seq<real>, cold: nat, ms: real) returns (low: nat, high: nat)
    requires |s| >= 3 && cold < |s|
    ensures low < |s| && low != cold && high < |s| && high != cold
    ensures s[low] <= MedianOf(s[cold := ms]) <= s[high]
  {
    low, high := MedianResists(s, s[cold := ms], {cold});
  }

  lemma {:induction false} CountGeOfTouched(t: seq<real>, v: real, touched: set<int>, from: nat)
    requires forall k :: k in touched ==> from <= k < from + |t| && t[k - from] >= v
    ensures CountGe(t, v) >= |touched|
    decreases |t|
  {
    if t == [] {
      assert touched == {};
    } else {
      CountGeOfTouched(t[1..], v, touched - {from}, from + 1);
    }
  }

  lemma {:induction false} CountGeSum(s: seq<real>, k: nat, v: real)
    requires Ascending(s) && k < |s| && s[k] < v
    ensures CountGe(s, v) <= |s| - k - 1
    decreases |s|
  {
    CountGeBound(s[1..], v);
    if k > 0 {
      CountGeSum(s[1..], k - 1, v);
    }
  }

  lemma {:induction false} CountGeBound(s: seq<real>, v: real)
    ensures CountGe(s, v) <= |s|
  {
    if s != [] {
      CountGeBound(s[1..], v);
    }
  }

  /** If half of the values reach `v`, the upper middle one does. */
  lemma UpperMiddle(t: seq<real>, v: real)
    requires t != [] && 2 * CountGe(t, v) >= |t|
    ensures |Sort(t)| == |t| && Sort(t)[|t| / 2] >= v
  {
    SortSorts(t);
    CountsOfSort(t, v);
    if Sort(t)[|t| / 2] < v {
      CountGeSum(Sort(t), |t| / 2, v);
      assert false;
    }
  }

  lemma MedianAbove(t: seq<real>, floor: real, big: real)
    requires t != [] && 2 * CountGe(t, big) >= |t| && floor <= big && forall i :: 0 <= i < |t| ==> floor <= t[i]
    ensures MedianOf(t) >= (floor + big) / 2.0
  {
    UpperMiddle(t, big);
    SortSorts(t);
    var sorted, n := Sort(t), |t|;
    if n % 2 == 0 {
      assert sorted[n / 2 - 1] in multiset(sorted);
      assert sorted[n / 2 - 1] in t;
    }
  }

  /** The bound is tight: once half of the runs are replaced, the median can be pushed past any value. */
  lemma MedianBreaks(s: seq<real>, touched: set<int>, bound: real) returns (t: seq<real>)
    requires s != [] && (forall k :: k in touched ==> 0 <= k < |s|) && 2 * |touched| >= |s|
    ensures Untouched(s, t, touched) && MedianOf(t) > bound
  {
    var floor := Least(s);
    LeastIsLeast(s);
    var big := Max(2.0 * bound - floor + 1.0, floor);
    t := seq(|s|, i requires 0 <= i < |s| => if i in touched then big else s[i]);
    CountGeOfTouched(t, big, touched, 0);
    MedianAbove(t, floor, big);
  }

  function Max(a: real, b: real): real {
    if a > b then a else b
  }

  function Least(s: seq<real>): real
    requires s != []
  {
    if |s| == 1 then s[0] else if s[0] <= Least(s[1..]) then s[0] else Least(s[1..])
  }

  lemma {:induction false} LeastIsLeast(s: seq<real>)
    requires s != []
    ensures forall i :: 0 <= i < |s| ==> Least(s) <= s[i]
  {
    if |s| > 1 {
      LeastIsLeast(s[1..]);
      assert forall i :: 1 <= i < |s| ==> s[i] == s[1..][i - 1];
    }
  }

  // ------------------------------------------------------------ bounds of a report

  /** Every timed run lies between the reported minimum and maximum, and so does the median. */
  lemma RunsWithinReport(times: seq<real>)
    requires times != []
    ensures var m := Summary(times);
            && (forall i :: 0 <= i < |times| ==> m.minMs <= times[i] <= m.maxMs)
            && m.minMs <= m.medianMs <= m.maxMs && m.spreadMs >= 0.0
            && m.minMs in times && m.maxMs in times
  {
    SortSorts(times);
    var m, sorted := Summary(times), Sort(times);
    forall i | 0 <= i < |times|
      ensures m.minMs <= times[i] <= m.maxMs
    {
      assert times[i] in multiset(times);
      assert times[i] in multiset(sorted);
      var k :| 0 <= k < |sorted| && sorted[k] == times[i];
    }
    assert sorted[0] in multiset(sorted) && sorted[|sorted| - 1] in multiset(sorted);
  }
}
