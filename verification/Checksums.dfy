/** The result checksum: a digest of the concatenated row digests, in arrival order or sorted. */
module Checksums {
  import opened Common
  import opened Sorting
  import opened Text

  datatype ResultHash = ResultHash(hash: string, rowCount: nat, ordered: bool)

  /** A missing hash equals nothing. */
  predicate Equal(a: Option<ResultHash>, b: Option<ResultHash>) {
    a.Some? && b.Some? && a.value.ordered == b.value.ordered && a.value.rowCount == b.value.rowCount && a.value.hash == b.value.hash
  }

  // ------------------------------------------------------------ the database's side

  /** The database's collation ties no two different digests among these. Strings at large it may tie, as a
      case-insensitive one does. */
  ghost predicate TellsApart(le: (string, string) -> bool, ds: seq<string>) {
    forall a, b :: a in ds && b in ds && le(a, b) && le(b, a) ==> a == b
  }

  /** A collation blind to letter case tells digests in lower-case letters apart. */
  lemma CaseBlindTellsApart(le: (string, string) -> bool, ds: seq<string>)
    requires forall a, b :: le(a, b) && le(b, a) ==> EqualFold(a, b)
    requires forall d :: d in ds ==> Lower(d) == d
    ensures TellsApart(le, ds)
  {
  }

  /** string_agg(h, '') */
  function Concat(s: seq<string>): string {
    if s == [] then "" else s[0] + Concat(s[1..])
  }

  function Digests<T>(h: T -> string, rows: seq<T>): seq<string> {
    seq(|rows|, i requires 0 <= i < |rows| => h(rows[i]))
  }

  const EMPTY := "empty"

  function Aggregate<T>(h: T -> string, le: (string, string) -> bool, rows: seq<T>, ordered: bool): string {
    Concat(if ordered then Digests(h, rows) else Sort(le, Digests(h, rows)))
  }

  /** `h` digests a row's text, `g` the aggregate, which is NULL over no rows. */
  function Checksum<T>(h: T -> string, g: string -> string, le: (string, string) -> bool, rows: seq<T>, ordered: bool): ResultHash {
    ResultHash(if rows == [] then EMPTY else g(Aggregate(h, le, rows, ordered)), |rows|, ordered)
  }

  // ------------------------------------------------------------ what a checksum is to stand for

  /** The same rows, in the same order if order counts. */
  predicate SameResult<T(==)>(r: seq<T>, s: seq<T>, ordered: bool) {
    if ordered then r == s else multiset(r) == multiset(s)
  }

  ghost predicate RowCollision<T(!new)>(h: T -> string, r: seq<T>, s: seq<T>) {
    exists a, b :: a in r + s && b in r + s && a != b && h(a) == h(b)
  }

  ghost predicate FixedWidth<T(!new)>(h: T -> string, width: nat, rows: seq<T>) {
    forall a :: a in rows ==> |h(a)| == width
  }

  // ------------------------------------------------------------ sorting is canonical

  /** The head of a sorted list is below all its elements. */
  lemma HeadIsLeast(le: (string, string) -> bool, s: seq<string>, x: string)
    requires TotalPreorder(le) && SortedBy(le, s) && x in s
    ensures le(s[0], x)
  {
    var i :| 0 <= i < |s| && s[i] == x;
    assert le(x, x);
  }

  lemma TailMultiset(s: seq<string>)
    requires s != []
    ensures multiset(s[1..]) == multiset(s) - multiset{s[0]}
  {
    assert s == [s[0]] + s[1..];
  }

  lemma HeadsAgree(le: (string, string) -> bool, s: seq<string>, t: seq<string>)
    requires TotalPreorder(le) && TellsApart(le, s) && SortedBy(le, s) && SortedBy(le, t) && multiset(s) == multiset(t) && s != []
    ensures t != [] && s[0] == t[0]
  {
    assert |s| == |multiset(s)| == |multiset(t)| == |t|;
    assert s[0] in multiset(t) && t[0] in multiset(s);
    assert s[0] in t && t[0] in s;
    HeadIsLeast(le, s, t[0]);
    HeadIsLeast(le, t, s[0]);
  }

  lemma TailTellsApart(le: (string, string) -> bool, s: seq<string>)
    requires TellsApart(le, s) && SortedBy(le, s) && s != []
    ensures TellsApart(le, s[1..]) && SortedBy(le, s[1..])
  {
    assert forall a :: a in s[1..] ==> a in s;
  }

  /** Two sorted lists of the same elements are the same list. */
  lemma {:induction false} SortedIsCanonical(le: (string, string) -> bool, s: seq<string>, t: seq<string>)
    requires TotalPreorder(le) && TellsApart(le, s) && SortedBy(le, s) && SortedBy(le, t) && multiset(s) == multiset(t)
    ensures s == t
    decreases |s|
  {
    if s == [] {
      assert |multiset(t)| == |t|;
    } else {
      HeadsAgree(le, s, t);
      TailMultiset(s);
      TailMultiset(t);
      TailTellsApart(le, s);
      SortedIsCanonical(le, s[1..], t[1..]);
      assert s == [s[0]] + s[1..] && t == [t[0]] + t[1..];
    }
  }

  /** Sorted lists agree exactly when they hold the same elements equally often, if the order tells these elements apart. */
  lemma SortIsCanonical(le: (string, string) -> bool, s: seq<string>, t: seq<string>)
    requires TotalPreorder(le)
    ensures Sort(le, s) == Sort(le, t) ==> multiset(s) == multiset(t)
    ensures TellsApart(le, s) && multiset(s) == multiset(t) ==> Sort(le, s) == Sort(le, t)
  {
    SortSorts(le, s);
    SortSorts(le, t);
    if TellsApart(le, s) && multiset(s) == multiset(t) {
      forall a
        ensures a in Sort(le, s) ==> a in s
      {
        assert a in Sort(le, s) <==> a in multiset(Sort(le, s));
        assert a in s <==> a in multiset(s);
      }
      SortedIsCanonical(le, Sort(le, s), Sort(le, t));
    }
  }

  // ------------------------------------------------------------ fixed width decodes

  /** Words of one width can be read back from their concatenation. */
  lemma {:induction false} ConcatDecodes(s: seq<string>, t: seq<string>, width: nat)
    requires |s| == |t| && Concat(s) == Concat(t)
    requires forall i :: 0 <= i < |s| ==> |s[i]| == width && |t[i]| == width
    ensures s == t
  {
    if s != [] {
      assert s[0] == Concat(s)[..width] == Concat(t)[..width] == t[0];
      assert Concat(s[1..]) == Concat(s)[width..] == Concat(t)[width..] == Concat(t[1..]);
      ConcatDecodes(s[1..], t[1..], width);
      assert s == [s[0]] + s[1..] && t == [t[0]] + t[1..];
    }
  }

  // ------------------------------------------------------------ digests and multiplicities

  lemma {:induction false} Multiplicity<T(!new)>(h: T -> string, rows: seq<T>, x: T)
    requires forall a :: a in rows && h(a) == h(x) ==> a == x
    ensures multiset(Digests(h, rows))[h(x)] == multiset(rows)[x]
  {
    if rows != [] {
      Multiplicity(h, rows[1..], x);
      assert rows == [rows[0]] + rows[1..];
      assert Digests(h, rows) == [h(rows[0])] + Digests(h, rows[1..]);
    }
  }

  lemma SameDigestsSameRows<T(!new)>(h: T -> string, r: seq<T>, s: seq<T>)
    requires multiset(Digests(h, r)) == multiset(Digests(h, s)) && !RowCollision(h, r, s)
    ensures multiset(r) == multiset(s)
  {
    forall x
      ensures multiset(r)[x] == multiset(s)[x]
    {
      if x in r || x in s {
        assert x in r + s;
        assert forall a :: a in r || a in s ==> a in r + s;
        Multiplicity(h, r, x);
        Multiplicity(h, s, x);
      }
    }
  }

  lemma DigestsAround<T>(h: T -> string, before: seq<T>, x: T, after: seq<T>)
    ensures multiset(Digests(h, before + [x] + after)) == multiset(Digests(h, before + after)) + multiset{h(x)}
  {
    assert Digests(h, before + [x] + after) == Digests(h, before) + [h(x)] + Digests(h, after);
    assert Digests(h, before + after) == Digests(h, before) + Digests(h, after);
  }

  /** Taking the head of `r` out of both lists, wherever it stands in `s`. */
  lemma WithoutOne<T>(x: T, before: seq<T>, after: seq<T>)
    ensures multiset(before + after) == multiset(before + [x] + after) - multiset{x}
  {
  }

  lemma TakeOut<T>(r: seq<T>, s: seq<T>) returns (i: nat)
    requires r != [] && multiset(r) == multiset(s)
    ensures i < |s| && s == s[..i] + [r[0]] + s[i + 1..]
    ensures multiset(r[1..]) == multiset(s[..i] + s[i + 1..])
  {
    assert r[0] in multiset(s);
    i :| 0 <= i < |s| && s[i] == r[0];
    assert s == s[..i] + [r[0]] + s[i + 1..];
    WithoutOne(r[0], [], r[1..]);
    assert r == [] + [r[0]] + r[1..] && [] + r[1..] == r[1..];
    WithoutOne(r[0], s[..i], s[i + 1..]);
  }

  lemma {:induction false} SameRowsSameDigests<T>(h: T -> string, r: seq<T>, s: seq<T>)
    requires multiset(r) == multiset(s)
    ensures multiset(Digests(h, r)) == multiset(Digests(h, s))
    decreases |r|
  {
    assert |r| == |multiset(r)| == |multiset(s)| == |s|;
    if r != [] {
      var i := TakeOut(r, s);
      SameRowsSameDigests(h, r[1..], s[..i] + s[i + 1..]);
      DigestsAround(h, s[..i], r[0], s[i + 1..]);
      DigestsAround(h, [], r[0], r[1..]);
      assert [] + r[1..] == r[1..] && [] + [r[0]] + r[1..] == r;
    }
  }

  lemma SortedWidth<T(!new)>(h: T -> string, le: (string, string) -> bool, rows: seq<T>, width: nat)
    requires TotalPreorder(le) && FixedWidth(h, width, rows)
    ensures |Sort(le, Digests(h, rows))| == |rows| && forall i :: 0 <= i < |rows| ==> |Sort(le, Digests(h, rows))[i]| == width
  {
    var ds := Digests(h, rows);
    var sorted := Sort(le, ds);
    SortSorts(le, ds);
    assert |multiset(sorted)| == |multiset(ds)|;
    forall i | 0 <= i < |sorted|
      ensures |sorted[i]| == width
    {
      assert sorted[i] in multiset(sorted);
      assert sorted[i] in multiset(ds);
      var k :| 0 <= k < |ds| && ds[k] == sorted[i];
      assert rows[k] in rows;
    }
  }

  // ------------------------------------------------------------ the two directions

  /** Equal results always have equal checksums, however often digests collide. */
  lemma SameResultSameChecksum<T(!new)>(
    h: T -> string, g: string -> string, le: (string, string) -> bool, r: seq<T>, s: seq<T>, ordered: bool)
    requires TotalPreorder(le) && (!ordered ==> TellsApart(le, Digests(h, r))) && SameResult(r, s, ordered)
    ensures Equal(Some(Checksum(h, g, le, r, ordered)), Some(Checksum(h, g, le, s, ordered)))
  {
    if !ordered {
      assert |multiset(r)| == |r| && |multiset(s)| == |s|;
      SameRowsSameDigests(h, r, s);
      SortIsCanonical(le, Digests(h, r), Digests(h, s));
    }
  }

  /** Equal checksums mean equal results, or a collision of the digest can be read off the two results. */
  lemma SameChecksumOrCollision<T(!new)>(
    h: T -> string, g: string -> string, le: (string, string) -> bool, width: nat, r: seq<T>, s: seq<T>, ordered: bool)
    requires TotalPreorder(le) && FixedWidth(h, width, r) && FixedWidth(h, width, s)
    requires Equal(Some(Checksum(h, g, le, r, ordered)), Some(Checksum(h, g, le, s, ordered)))
    ensures var a, b := Aggregate(h, le, r, ordered), Aggregate(h, le, s, ordered);
            SameResult(r, s, ordered) || RowCollision(h, r, s) || (a != b && g(a) == g(b))
  {
    var a, b := Aggregate(h, le, r, ordered), Aggregate(h, le, s, ordered);
    if a == b && !RowCollision(h, r, s) {
      if ordered {
        ConcatDecodes(Digests(h, r), Digests(h, s), width);
        forall i | 0 <= i < |r|
          ensures r[i] == s[i]
        {
          assert Digests(h, r)[i] == Digests(h, s)[i];
          assert r[i] in r + s && s[i] in r + s;
        }
      } else {
        SortedWidth(h, le, r, width);
        SortedWidth(h, le, s, width);
        ConcatDecodes(Sort(le, Digests(h, r)), Sort(le, Digests(h, s)), width);
        SortIsCanonical(le, Digests(h, r), Digests(h, s));
        SameDigestsSameRows(h, r, s);
      }
    }
  }

  /** Without collisions among what was hashed, two checksums of one mode are equal exactly when the results are the
      same, and checksums of different modes never are. */
  lemma ChecksumIsExact<T(!new)>(
    h: T -> string, g: string -> string, le: (string, string) -> bool, width: nat, r: seq<T>, s: seq<T>, ordered: bool, ordered': bool)
    requires TotalPreorder(le) && (!ordered ==> TellsApart(le, Digests(h, r)))
    requires FixedWidth(h, width, r) && FixedWidth(h, width, s) && !RowCollision(h, r, s)
    requires var a, b := Aggregate(h, le, r, ordered), Aggregate(h, le, s, ordered'); g(a) == g(b) ==> a == b
    ensures Equal(Some(Checksum(h, g, le, r, ordered)), Some(Checksum(h, g, le, s, ordered')))
            <==> ordered == ordered' && SameResult(r, s, ordered)
  {
    if ordered == ordered' {
      if SameResult(r, s, ordered) {
        SameResultSameChecksum(h, g, le, r, s, ordered);
      } else if Equal(Some(Checksum(h, g, le, r, ordered)), Some(Checksum(h, g, le, s, ordered))) {
        SameChecksumOrCollision(h, g, le, width, r, s, ordered);
      }
    }
  }

  /** The stand-in for an empty result is no digest of another length. */
  lemma EmptyMeetsNoDigest<T(!new)>(h: T -> string, g: string -> string, le: (string, string) -> bool, r: seq<T>, ordered: bool)
    requires |g(Aggregate(h, le, r, ordered))| != 5
    ensures Checksum(h, g, le, r, ordered).hash == "empty" <==> r == []
  {
  }
}
