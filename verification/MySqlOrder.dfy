/** The order of results: when the gate holds a candidate to the order its original promises, and what the walk of a MySQL
    statement makes of that promise. */
module MySqlOrder {
  import opened Common
  import opened Sorting
  import opened Checksums
  import opened Verification
  import W = MySqlWalk

  /** The result gate, told of the candidate's rows. */
  predicate PassesWith(eng: Engine, base: Baseline, rows: seq<string>) {
    Equal(Some(base.checksum), Some(Checksum(eng.rowDigest, eng.digest, eng.collation, rows, base.ordered)))
  }

  lemma GateReadsRows(eng: Engine, cfg: Config, base: Baseline, c: Candidate)
    ensures Passes(eng, cfg, base, c, 5) <==> eng.rows(c.sql).Some? && PassesWith(eng, base, eng.rows(c.sql).value)
  {
  }

  /** The digests tell the rows of this result, and its orders, apart. */
  ghost predicate OrderSeen(eng: Engine, r: seq<string>) {
    && TotalPreorder(eng.collation) && TellsApart(eng.collation, Digests(eng.rowDigest, r))
    && (exists width :: FixedWidth(eng.rowDigest, width, r))
    && (forall a, b :: a in r && b in r && eng.rowDigest(a) == eng.rowDigest(b) ==> a == b)
    && forall s :: multiset(s) == multiset(r) ==> SameAggregate(eng, r, s)
  }

  ghost predicate SameAggregate(eng: Engine, r: seq<string>, s: seq<string>) {
    var a, b := Aggregate(eng.rowDigest, eng.collation, r, true), Aggregate(eng.rowDigest, eng.collation, s, true);
    eng.digest(a) == eng.digest(b) ==> a == b
  }

  /** The same rows in any order, but in the original's order if they pass. */
  ghost predicate OrderIsKept(eng: Engine, base: Baseline, r: seq<string>) {
    forall s :: multiset(s) == multiset(r) && PassesWith(eng, base, s) ==> s == r
  }

  predicate AllAlike(r: seq<string>) {
    forall i, j :: 0 <= i < |r| && 0 <= j < |r| ==> r[i] == r[j]
  }

  lemma SameMembers(r: seq<string>, s: seq<string>)
    requires multiset(r) == multiset(s)
    ensures |r| == |s| && forall x :: x in r <==> x in s
  {
    assert |multiset(r)| == |r| && |multiset(s)| == |s|;
    forall x
      ensures x in r <==> x in s
    {
      assert x in r <==> x in multiset(r);
      assert x in s <==> x in multiset(s);
    }
  }

  lemma OrderedKeepsOrder(eng: Engine, base: Baseline, r: seq<string>, s: seq<string>, width: nat)
    requires OrderSeen(eng, r) && FixedWidth(eng.rowDigest, width, r) && base.ordered && multiset(s) == multiset(r)
    requires base.checksum == Checksum(eng.rowDigest, eng.digest, eng.collation, r, base.ordered) && PassesWith(eng, base, s)
    ensures s == r
  {
    SameMembers(r, s);
    assert SameAggregate(eng, r, s);
    assert FixedWidth(eng.rowDigest, width, s);
    SameChecksumOrCollision(eng.rowDigest, eng.digest, eng.collation, width, r, s, true);
  }

  lemma AlikeIsOne(r: seq<string>, s: seq<string>)
    requires AllAlike(r) && multiset(s) == multiset(r)
    ensures s == r
  {
    SameMembers(r, s);
    forall i | 0 <= i < |r|
      ensures s[i] == r[i]
    {
      assert s[i] in r;
    }
  }

  lemma Swapped(r: seq<string>, i: nat, j: nat)
    requires i < j < |r|
    ensures multiset(r[i := r[j]][j := r[i]]) == multiset(r)
  {
  }

  /** Without the flag every order passes. */
  lemma ReorderingPasses(eng: Engine, base: Baseline, r: seq<string>, s: seq<string>)
    requires TotalPreorder(eng.collation) && TellsApart(eng.collation, Digests(eng.rowDigest, r))
    requires !base.ordered && base.checksum == Checksum(eng.rowDigest, eng.digest, eng.collation, r, base.ordered)
    requires multiset(s) == multiset(r)
    ensures PassesWith(eng, base, s)
  {
    SameResultSameChecksum(eng.rowDigest, eng.digest, eng.collation, r, s, false);
  }

  /** The gate keeps a result's order exactly when the baseline was hashed in order, or the rows are all alike. */
  lemma OrderIsKeptExactlyWhen(eng: Engine, base: Baseline, r: seq<string>)
    requires OrderSeen(eng, r) && base.checksum == Checksum(eng.rowDigest, eng.digest, eng.collation, r, base.ordered)
    ensures OrderIsKept(eng, base, r) <==> base.ordered || AllAlike(r)
  {
    if base.ordered {
      var width :| FixedWidth(eng.rowDigest, width, r);
      forall s | multiset(s) == multiset(r) && PassesWith(eng, base, s)
        ensures s == r
      {
        OrderedKeepsOrder(eng, base, r, s, width);
      }
    } else if AllAlike(r) {
      forall s | multiset(s) == multiset(r) && PassesWith(eng, base, s)
        ensures s == r
      {
        AlikeIsOne(r, s);
      }
    } else {
      var i, j :| 0 <= i < j < |r| && r[i] != r[j];
      var s := r[i := r[j]][j := r[i]];
      Swapped(r, i, j);
      ReorderingPasses(eng, base, r, s);
      assert s[i] != r[i];
    }
  }

  // ------------------------------------------------------------ the promise of a MySQL statement

  /** What the walk makes of a statement. */
  ghost function FactsOf(root: W.Node): W.Facts {
    W.Gather(W.NOTHING, W.Visited(root))
  }

  /** The baseline of the statement the tree was parsed from. */
  ghost predicate BaselineOf(eng: Engine, base: Baseline, root: W.Node, r: seq<string>) {
    && base.st.hasOrderBy == FactsOf(root).hasOrderBy
    && IsBaseline(eng, base) && eng.rows(base.st.sql) == Some(r)
  }

  /** A SELECT's own ORDER BY is the one the gate goes by. */
  lemma SelectOrderIsKept(eng: Engine, base: Baseline, kind: W.Kind, kids: seq<W.Node>, r: seq<string>)
    requires kind.Select? && BaselineOf(eng, base, W.Inner(kind, kids), r) && OrderSeen(eng, r)
    ensures OrderIsKept(eng, base, r) <==> (kind.orderBy.Some? && kind.orderBy.value > 0) || AllAlike(r)
  {
    W.SelectRootIsItsOwn(kind, kids);
    OrderIsKeptExactlyWhen(eng, base, r);
  }

  /** For a set operation that promises an order the gate keeps it exactly when its leading SELECT has an ORDER BY of its
      own, or there is nothing to order. */
  lemma SetOperationOrderIsKeptExactlyWhen(eng: Engine, base: Baseline, kind: W.Kind, kids: seq<W.Node>, r: seq<string>)
    requires kind.SetOperation? && W.AllWithFree(kids) && W.LeadingAll(kids).Some? && kind.orderBy.Some? && kind.orderBy.value > 0
    requires BaselineOf(eng, base, W.Inner(kind, kids), r) && OrderSeen(eng, r)
    ensures var own := W.LeadingAll(kids).value.orderBy;
            OrderIsKept(eng, base, r) <==> (own.Some? && own.value > 0) || AllAlike(r)
  {
    W.SetOperationFlag(kind, kids);
    OrderIsKeptExactlyWhen(eng, base, r);
  }

  /** (SELECT ...) UNION (SELECT ...) ORDER BY ...: a candidate with the same rows in any other order passes. */
  lemma UnionReorderedPasses(eng: Engine, cfg: Config, base: Baseline, kind: W.Kind, kids: seq<W.Node>, r: seq<string>, c: Candidate)
    requires kind.SetOperation? && W.AllWithFree(kids) && W.LeadingAll(kids).Some?
    requires kind.orderBy.Some? && kind.orderBy.value > 0
    requires var own := W.LeadingAll(kids).value.orderBy; own.None? || own.value == 0
    requires BaselineOf(eng, base, W.Inner(kind, kids), r) && eng.rows(c.sql).Some? && multiset(eng.rows(c.sql).value) == multiset(r)
    requires TotalPreorder(eng.collation) && TellsApart(eng.collation, Digests(eng.rowDigest, r))
    ensures Passes(eng, cfg, base, c, 5)
  {
    W.SetOperationFlag(kind, kids);
    ReorderingPasses(eng, base, r, eng.rows(c.sql).value);
    GateReadsRows(eng, cfg, base, c);
  }
}
