/** The text a MySQL row is digested from: its values joined by a separator, NULL replaced by a sentinel. */
module RowCodec {
  import opened Common
  import opened Text

  type Row = seq<Option<string>>

  /** COALESCE(CAST(c AS CHAR), sentinel) */
  function Coalesce(v: Option<string>, sentinel: string): string {
    match v case Some(text) => text case None => sentinel
  }

  function Coalesced(row: Row, sentinel: string): seq<string> {
    seq(|row|, i requires 0 <= i < |row| => Coalesce(row[i], sentinel))
  }

  /** CONCAT_WS(sep, ...) over values none of which is NULL any more. */
  function Encode(row: Row, sep: string, sentinel: string): string {
    Join(Coalesced(row, sentinel), sep)
  }

  /** No proper, non-empty prefix of the separator is also its suffix, so two occurrences never overlap. */
  ghost predicate Borderless(sep: string) {
    sep != "" && forall k :: 0 < k < |sep| ==> sep[..k] != sep[|sep| - k..]
  }

  /** Cutting at every occurrence of the separator, from the left. */
  function Split(s: string, sep: string): seq<string>
    requires sep != ""
    decreases |s|
  {
    var i := Index(s, sep);
    if i < 0 then [s] else [s[..i]] + Split(s[i + |sep|..], sep)
  }

  /** An occurrence that starts in `a` and ends in the separator after it makes a border. */
  lemma OverlapIsBorder(a: string, sep: string, b: string, j: nat)
    requires j < |a| < j + |sep| && OccursAt(a + sep + b, sep, j)
    ensures 0 < j + |sep| - |a| < |sep| && sep[..j + |sep| - |a|] == sep[|a| - j..]
  {
    var s := a + sep + b;
    var k := j + |sep| - |a|;
    assert sep[|a| - j..] == s[j..j + |sep|][|a| - j..] == s[|a|..j + |sep|];
    assert s[|a|..|a| + |sep|] == sep;
    assert s[|a|..j + |sep|] == sep[..k];
  }

  lemma InsideOccurrence(a: string, rest: string, sep: string, j: nat)
    requires j + |sep| <= |a|
    ensures OccursAt(a + rest, sep, j) <==> OccursAt(a, sep, j)
  {
    assert (a + rest)[j..j + |sep|] == a[j..j + |sep|];
  }

  lemma NoOverlap(a: string, sep: string, b: string, j: nat)
    requires Borderless(sep) && j < |a| && !OccursAt(a, sep, j)
    ensures !OccursAt(a + sep + b, sep, j)
  {
    assert a + (sep + b) == a + sep + b;
    if OccursAt(a + sep + b, sep, j) {
      if j + |sep| <= |a| {
        InsideOccurrence(a, sep + b, sep, j);
      } else {
        OverlapIsBorder(a, sep, b, j);
      }
      assert false;
    }
  }

  /** The first occurrence in `a + sep + b` is the one in `a`, if it has one, and otherwise the separator itself. */
  lemma FirstOccurrence(a: string, sep: string, b: string)
    requires Borderless(sep)
    ensures Index(a + sep + b, sep) == if Index(a, sep) >= 0 then Index(a, sep) else |a|
  {
    var i := if Index(a, sep) >= 0 then Index(a, sep) else |a|;
    IndexSpec(a, sep);
    if i < |a| {
      InsideOccurrence(a, sep + b, sep, i);
      assert a + (sep + b) == a + sep + b;
    }
    assert OccursAt(a + sep + b, sep, i);
    forall j | 0 <= j < i
      ensures !OccursAt(a + sep + b, sep, j)
    {
      NoOverlap(a, sep, b, j);
    }
    IndexIsFirst(a + sep + b, sep, i);
  }

  lemma Cuts(a: string, sep: string, b: string, i: nat)
    requires i + |sep| <= |a|
    ensures (a + sep + b)[i + |sep|..] == a[i + |sep|..] + sep + b && (a + sep + b)[..i] == a[..i]
  {
  }

  /** Splitting takes a join apart where it was put together. */
  lemma {:induction false} SplitAround(a: string, sep: string, b: string)
    requires Borderless(sep)
    ensures Split(a + sep + b, sep) == Split(a, sep) + Split(b, sep)
    decreases |a|
  {
    FirstOccurrence(a, sep, b);
    var s, i := a + sep + b, Index(a, sep);
    if i >= 0 {
      Cuts(a, sep, b, i);
      var rest := a[i + |sep|..];
      SplitAround(rest, sep, b);
      assert Split(s, sep) == [a[..i]] + Split(rest + sep + b, sep);
      assert Split(a, sep) == [a[..i]] + Split(rest, sep);
    } else {
      assert s[|a| + |sep|..] == b && s[..|a|] == a;
      assert Split(s, sep) == [a] + Split(b, sep);
    }
  }

  lemma {:induction false} SplitWhole(s: string, sep: string)
    requires sep != ""
    ensures |Split(s, sep)| >= 1
    ensures |Split(s, sep)| == 1 <==> !Contains(s, sep)
    ensures |Split(s, sep)| == 1 ==> Split(s, sep) == [s]
    decreases |s|
  {
    var i := Index(s, sep);
    IndexSpec(s, sep);
    if i >= 0 {
      SplitWhole(s[i + |sep|..], sep);
      assert OccursAt(s, sep, i);
    }
  }

  ghost predicate NoneContains(parts: seq<string>, sep: string) {
    forall i :: 0 <= i < |parts| ==> !Contains(parts[i], sep)
  }

  lemma NoneContainsHead(parts: seq<string>, sep: string)
    requires parts != []
    ensures NoneContains(parts, sep) <==> !Contains(parts[0], sep) && NoneContains(parts[1..], sep)
  {
    assert forall i :: 1 <= i < |parts| ==> parts[i] == parts[1..][i - 1];
    if !Contains(parts[0], sep) && NoneContains(parts[1..], sep) {
      forall i | 0 <= i < |parts|
        ensures !Contains(parts[i], sep)
      {
        assert i > 0 ==> parts[i] == parts[1..][i - 1];
      }
    }
    if NoneContains(parts, sep) {
      forall i | 0 <= i < |parts[1..]|
        ensures !Contains(parts[1..][i], sep)
      {
        assert parts[1..][i] == parts[i + 1];
      }
    }
  }

  /** A join splits into at least as many pieces as it was made of, and into exactly those if none holds the separator. */
  lemma {:induction false} SplitOfJoin(parts: seq<string>, sep: string)
    requires Borderless(sep) && parts != []
    ensures |Split(Join(parts, sep), sep)| >= |parts|
    ensures |Split(Join(parts, sep), sep)| == |parts| <==> NoneContains(parts, sep)
    ensures |Split(Join(parts, sep), sep)| == |parts| ==> Split(Join(parts, sep), sep) == parts
  {
    SplitWhole(parts[0], sep);
    NoneContainsHead(parts, sep);
    if |parts| == 1 {
      assert NoneContains(parts[1..], sep);
      assert parts == [parts[0]];
    } else {
      SplitAround(parts[0], sep, Join(parts[1..], sep));
      SplitOfJoin(parts[1..], sep);
      assert parts == [parts[0]] + parts[1..];
    }
  }

  /** The row is told apart from every other row of its arity. */
  ghost predicate Decodable(row: Row, sep: string, sentinel: string) {
    forall other: Row :: |other| == |row| && Encode(other, sep, sentinel) == Encode(row, sep, sentinel) ==> other == row
  }

  /** No value is NULL or reads like the sentinel, and where there are several, none holds the separator. */
  ghost predicate Plain(row: Row, sep: string, sentinel: string) {
    forall i :: 0 <= i < |row| ==> row[i].Some? && row[i].value != sentinel && (|row| > 1 ==> !Contains(row[i].value, sep))
  }

  lemma PlainIsDecodable(row: Row, sep: string, sentinel: string)
    requires Borderless(sep) && Plain(row, sep, sentinel)
    ensures Decodable(row, sep, sentinel)
  {
    forall other: Row | |other| == |row| && Encode(other, sep, sentinel) == Encode(row, sep, sentinel)
      ensures other == row
    {
      SamePieces(row, other, sep, sentinel);
      forall i | 0 <= i < |row|
        ensures other[i] == row[i]
      {
        assert Coalesced(other, sentinel)[i] == Coalesced(row, sentinel)[i];
      }
    }
  }

  lemma SamePieces(row: Row, other: Row, sep: string, sentinel: string)
    requires Borderless(sep) && |other| == |row| && Encode(other, sep, sentinel) == Encode(row, sep, sentinel)
    requires |row| > 1 ==> forall i :: 0 <= i < |row| ==> !Contains(Coalesce(row[i], sentinel), sep)
    ensures Coalesced(other, sentinel) == Coalesced(row, sentinel)
  {
    if |row| == 1 {
      assert Coalesced(other, sentinel) == [Coalesced(other, sentinel)[0]];
    } else if |row| > 1 {
      SplitOfJoin(Coalesced(row, sentinel), sep);
      SplitOfJoin(Coalesced(other, sentinel), sep);
    }
  }

  /** On rows whose values hold neither separator nor sentinel, NULL positions included, the encoding is injective. */
  lemma CleanRowsAreToldApart(row: Row, other: Row, sep: string, sentinel: string)
    requires Borderless(sep) && !Contains(sentinel, sep) && |row| == |other|
    requires forall i :: 0 <= i < |row| && row[i].Some? ==> row[i].value != sentinel && !Contains(row[i].value, sep)
    requires forall i :: 0 <= i < |row| && other[i].Some? ==> other[i].value != sentinel && !Contains(other[i].value, sep)
    ensures Encode(row, sep, sentinel) == Encode(other, sep, sentinel) <==> row == other
  {
    if Encode(row, sep, sentinel) == Encode(other, sep, sentinel) {
      SamePieces(row, other, sep, sentinel);
      forall i | 0 <= i < |row|
        ensures other[i] == row[i]
      {
        assert Coalesced(other, sentinel)[i] == Coalesced(row, sentinel)[i];
      }
    }
  }

  // ------------------------------------------------------------ the other direction

  lemma {:induction false} JoinAround(before: seq<string>, a: string, b: string, after: seq<string>, sep: string)
    ensures Join(before + [a, b] + after, sep) == Join(before + [a + sep + b] + after, sep)
  {
    if before == [] {
      var two := [a, b] + after;
      assert [] + two == two && two[1..] == [b] + after;
      var one := [a + sep + b] + after;
      assert [] + [a, b] + after == two && [] + [a + sep + b] + after == one;
      assert one[1..] == after && ([b] + after)[1..] == after;
      if after == [] {
        assert Join(two, sep) == a + sep + b;
      } else {
        assert Join(two, sep) == a + sep + (b + sep + Join(after, sep));
        assert Join(one, sep) == (a + sep + b) + sep + Join(after, sep);
        assert a + sep + (b + sep + Join(after, sep)) == (a + sep + b) + sep + Join(after, sep);
      }
    } else {
      assert (before + [a, b] + after)[1..] == before[1..] + [a, b] + after;
      assert (before + [a + sep + b] + after)[1..] == before[1..] + [a + sep + b] + after;
      JoinAround(before[1..], a, b, after, sep);
    }
  }

  /** A separator inside one value can change hands with the separator next to it. */
  lemma Regroup(before: seq<string>, p: string, q: string, c: string, after: seq<string>, sep: string)
    ensures Join(before + [p + sep + q, c] + after, sep) == Join(before + [p, q + sep + c] + after, sep)
  {
    JoinAround(before, p, q, [c] + after, sep);
    assert before + [p + sep + q] + ([c] + after) == before + [p + sep + q, c] + after;
    assert before + [p, q] + ([c] + after) == (before + [p]) + [q, c] + after;
    JoinAround(before + [p], q, c, after, sep);
    assert (before + [p]) + [q + sep + c] + after == before + [p, q + sep + c] + after;
  }

  lemma Broken(v: string, sep: string) returns (p: string, q: string)
    requires Contains(v, sep)
    ensures v == p + sep + q
  {
    var i :| 0 <= i <= |v| && OccursAt(v, sep, i);
    p, q := v[..i], v[i + |sep|..];
    assert v == v[..i] + v[i..i + |sep|] + v[i + |sep|..];
  }

  /** A row with the separator in a value, and another value beside it, has a double. */
  lemma SeparatorInValue(row: Row, i: nat, sep: string, sentinel: string) returns (other: Row)
    requires sep != "" && |row| > 1 && i < |row| && row[i].Some? && Contains(row[i].value, sep)
    ensures |other| == |row| && other != row && Encode(other, sep, sentinel) == Encode(row, sep, sentinel)
  {
    var p, q := Broken(row[i].value, sep);
    var cs := Coalesced(row, sentinel);
    if i + 1 < |row| {
      var c := cs[i + 1];
      other := row[i := Some(p)][i + 1 := Some(q + sep + c)];
      Regroup(cs[..i], p, q, c, cs[i + 2..], sep);
      assert cs == cs[..i] + [p + sep + q, c] + cs[i + 2..];
      assert Coalesced(other, sentinel) == cs[..i] + [p, q + sep + c] + cs[i + 2..];
      assert |other[i].value| < |row[i].value|;
    } else {
      var c := cs[i - 1];
      other := row[i - 1 := Some(c + sep + p)][i := Some(q)];
      Regroup(cs[..i - 1], c, p, q, [], sep);
      assert cs == cs[..i - 1] + [c, p + sep + q] + [];
      assert Coalesced(other, sentinel) == cs[..i - 1] + [c + sep + p, q] + [];
      assert |other[i].value| < |row[i].value|;
    }
  }

  /** NULL and the sentinel text are each other's doubles. */
  lemma SentinelIsNull(row: Row, i: nat, sep: string, sentinel: string) returns (other: Row)
    requires i < |row| && (row[i].None? || row[i].value == sentinel)
    ensures |other| == |row| && other != row && Encode(other, sep, sentinel) == Encode(row, sep, sentinel)
  {
    other := row[i := if row[i].None? then Some(sentinel) else None];
    assert other[i] != row[i];
    assert Coalesced(other, sentinel) == Coalesced(row, sentinel);
  }

  /** Exactly the plain rows are told apart from all other rows of their arity. */
  lemma DecodableExactlyWhen(row: Row, sep: string, sentinel: string)
    requires Borderless(sep)
    ensures Decodable(row, sep, sentinel) <==> Plain(row, sep, sentinel)
  {
    if Plain(row, sep, sentinel) {
      PlainIsDecodable(row, sep, sentinel);
    } else {
      var i :| 0 <= i < |row| && !(row[i].Some? && row[i].value != sentinel && (|row| > 1 ==> !Contains(row[i].value, sep)));
      if row[i].None? || row[i].value == sentinel {
        var other := SentinelIsNull(row, i, sep, sentinel);
      } else {
        var other := SeparatorInValue(row, i, sep, sentinel);
      }
    }
  }

  /** The separator MySQL reads from the literal the engine writes: the backslash is dropped and three letters stay. */
  const SEPARATOR := "x1f"

  const SENTINEL := "\0NULL\0"

  lemma SeparatorIsBorderless()
    ensures Borderless(SEPARATOR)
  {
    assert SEPARATOR[..1] == "x" && SEPARATOR[2..] == "f";
    assert SEPARATOR[..2] == "x1" && SEPARATOR[1..] == "1f";
  }

  /** So ordinary text can collide. */
  lemma TwoRowsOneText()
    ensures Encode([Some("ax1fb"), Some("c")], SEPARATOR, SENTINEL) == Encode([Some("a"), Some("bx1fc")], SEPARATOR, SENTINEL)
  {
    Regroup([], "a", "b", "c", [], SEPARATOR);
    assert "ax1fb" == "a" + SEPARATOR + "b" && "bx1fc" == "b" + SEPARATOR + "c";
    assert Coalesced([Some("ax1fb"), Some("c")], SENTINEL) == [] + ["a" + SEPARATOR + "b", "c"] + [];
    assert Coalesced([Some("a"), Some("bx1fc")], SENTINEL) == [] + ["a", "b" + SEPARATOR + "c"] + [];
  }
}
