/** Reducing the table references of a statement to the tables it reads. */
module TableRefs {
  import opened Text
  import opened Schema
  import opened Shapes

  const NUL := "\0"
  const ALIASED := "aliased"

  function Dotted(t: TableRef): string {
    Lower(t.schema + "." + t.name)
  }

  /** The identity of a reference: its table and its alias. */
  function Key(t: TableRef): string {
    Lower(t.schema + "." + t.name + NUL + t.alias)
  }

  /** Recorded for a table that has been seen under an alias. */
  function AliasedMark(t: TableRef): string {
    ALIASED + NUL + Dotted(t)
  }

  predicate NulFree(t: TableRef) {
    '\0' !in t.schema && '\0' !in t.name
  }

  ghost predicate AllNulFree(ts: seq<TableRef>) {
    forall i :: 0 <= i < |ts| ==> NulFree(ts[i])
  }

  // ------------------------------------------------------------ what is kept

  predicate SameRef(a: TableRef, b: TableRef) {
    Dotted(a) == Dotted(b) && Lower(a.alias) == Lower(b.alias)
  }

  /** `a` makes a later `b` superfluous: the same reference, or `b` is the bare form of a table met under an alias. */
  predicate Covers(a: TableRef, b: TableRef) {
    SameRef(a, b) || (b.alias == "" && a.alias != "" && Dotted(a) == Dotted(b))
  }

  ghost predicate Kept(ts: seq<TableRef>, i: nat) {
    i < |ts| && forall j :: 0 <= j < i ==> !Covers(ts[j], ts[i])
  }

  ghost function Deduped(ts: seq<TableRef>, n: nat): seq<TableRef>
    requires n <= |ts|
  {
    if n == 0 then [] else Deduped(ts, n - 1) + (if Kept(ts, n - 1) then [ts[n - 1]] else [])
  }

  ghost predicate MarkedAt(ts: seq<TableRef>, j: int, key: string) {
    0 <= j < |ts| && (key == Key(ts[j]) || (ts[j].alias != "" && key == AliasedMark(ts[j])))
  }

  ghost predicate EachMarked(seen: map<string, nat>, ts: seq<TableRef>, i: nat) {
    i <= |ts| && forall j :: 0 <= j < i ==> Marked(seen, ts[j])
  }

  predicate Marked(seen: map<string, nat>, t: TableRef) {
    if t.alias != "" then AliasedMark(t) in seen && Key(t) in seen else Key(t) in seen || AliasedMark(t) in seen
  }

  ghost predicate NothingElse(seen: map<string, nat>, ts: seq<TableRef>, i: nat) {
    i <= |ts| && forall key :: key in seen ==> exists j :: 0 <= j < i && MarkedAt(ts, j, key)
  }

  ghost predicate Recorded(seen: map<string, nat>, ts: seq<TableRef>, i: nat) {
    EachMarked(seen, ts, i) && NothingElse(seen, ts, i)
  }

  /** After the first `i` references. */
  ghost predicate Progress(seen: map<string, nat>, out: seq<TableRef>, ts: seq<TableRef>, i: nat) {
    Recorded(seen, ts, i) && out == Deduped(ts, i)
  }

  predicate Repeats(seen: map<string, nat>, t: TableRef) {
    Key(t) in seen || (t.alias == "" && AliasedMark(t) in seen)
  }

  function Record(seen: map<string, nat>, t: TableRef, at: nat): map<string, nat> {
    (if t.alias != "" then seen[AliasedMark(t) := at] else seen)[Key(t) := at]
  }

  method DedupeTables(ts: seq<TableRef>) returns (out: seq<TableRef>)
    ensures AllNulFree(ts) ==> out == Deduped(ts, |ts|)
  {
    var seen: map<string, nat> := map[];
    out := [];
    for i := 0 to |ts|
      invariant AllNulFree(ts) ==> Progress(seen, out, ts, i)
    {
      if AllNulFree(ts) {
        Progresses(seen, out, ts, i);
      }
      seen, out := Consider(seen, out, ts[i]);
    }
  }

  /** One turn of the loop. */
  method Consider(seen: map<string, nat>, out: seq<TableRef>, t: TableRef) returns (seen': map<string, nat>, out': seq<TableRef>)
    ensures if Repeats(seen, t) then seen' == seen && out' == out else seen' == Record(seen, t, |out|) && out' == out + [t]
  {
    seen', out' := seen, out;
    if Key(t) in seen {
      return;
    }
    if t.alias == "" {
      if AliasedMark(t) in seen {
        return;
      }
    } else {
      seen' := seen'[AliasedMark(t) := |out|];
    }
    seen' := seen'[Key(t) := |out|];
    out' := out' + [t];
  }

  lemma Progresses(seen: map<string, nat>, out: seq<TableRef>, ts: seq<TableRef>, i: nat)
    requires i < |ts| && AllNulFree(ts) && Progress(seen, out, ts, i)
    ensures if Repeats(seen, ts[i]) then Progress(seen, out, ts, i + 1)
            else Progress(Record(seen, ts[i], |out|), out + [ts[i]], ts, i + 1)
  {
    KeptIffUnmarked(seen, ts, i);
    if Repeats(seen, ts[i]) {
      RepeatRecorded(seen, ts, i);
    } else {
      RecordedNext(seen, ts, i, |out|);
    }
  }

  // ------------------------------------------------------------ keys tell references apart

  lemma KeyParts(t: TableRef)
    requires NulFree(t)
    ensures Key(t) == Dotted(t) + NUL + Lower(t.alias) && '\0' !in Dotted(t) && '.' in Dotted(t)
  {
    var bare := t.schema + "." + t.name;
    LowerOfConcat(bare, NUL);
    LowerOfConcat(bare + NUL, t.alias);
    assert Lower(NUL) == NUL;
    assert Dotted(t)[|t.schema|] == '.';
  }

  /** In the map's keys two references meet only when they are the same, and never an alias mark. */
  ghost predicate ToldApart(a: TableRef, b: TableRef) {
    && (Key(a) == Key(b) <==> SameRef(a, b))
    && Key(a) != AliasedMark(b)
    && (AliasedMark(a) == AliasedMark(b) <==> Dotted(a) == Dotted(b))
  }

  lemma KeysAreExact(a: TableRef, b: TableRef)
    requires NulFree(a) && NulFree(b)
    ensures ToldApart(a, b)
  {
    KeyParts(a);
    KeyParts(b);
    if Key(a) == Key(b) {
      SplitAtSeparator(Dotted(a), Lower(a.alias), Dotted(b), Lower(b.alias), '\0');
    }
    NeverAMark(Dotted(a), Lower(a.alias), Dotted(b));
    if AliasedMark(a) == AliasedMark(b) {
      SplitAtSeparator(ALIASED, Dotted(a), ALIASED, Dotted(b), '\0');
    }
  }

  lemma NeverAMark(dotted: string, alias: string, other: string)
    requires '\0' !in dotted && '.' in dotted
    ensures dotted + NUL + alias != ALIASED + NUL + other
  {
    if dotted + NUL + alias == ALIASED + NUL + other {
      SplitAtSeparator(dotted, alias, ALIASED, other, '\0');
    }
  }

  /** A key of the map stands for an earlier reference: the same one, or one of the same table under an alias. */
  lemma MarkMeans(seen: map<string, nat>, ts: seq<TableRef>, i: nat, key: string) returns (j: nat)
    requires i < |ts| && Recorded(seen, ts, i) && AllNulFree(ts) && key in seen
    requires key == Key(ts[i]) || key == AliasedMark(ts[i])
    ensures j < i && if key == Key(ts[i]) then SameRef(ts[j], ts[i]) else ts[j].alias != "" && Dotted(ts[j]) == Dotted(ts[i])
  {
    j :| 0 <= j < i && MarkedAt(ts, j, key);
    KeysAreExact(ts[j], ts[i]);
    KeysAreExact(ts[i], ts[j]);
    KeysAreExact(ts[i], ts[i]);
  }

  /** The loop's two lookups decide exactly whether an earlier reference covers this one. */
  lemma KeptIffUnmarked(seen: map<string, nat>, ts: seq<TableRef>, i: nat)
    requires i < |ts| && AllNulFree(ts) && Recorded(seen, ts, i)
    ensures Kept(ts, i) <==> !Repeats(seen, ts[i])
  {
    var t := ts[i];
    if Key(t) in seen {
      var j := MarkMeans(seen, ts, i, Key(t));
      assert Covers(ts[j], t);
    } else if t.alias == "" && AliasedMark(t) in seen {
      KeysAreExact(t, t);
      var j := MarkMeans(seen, ts, i, AliasedMark(t));
      assert Covers(ts[j], t);
    } else {
      forall j | 0 <= j < i
        ensures !Covers(ts[j], t)
      {
        KeysAreExact(ts[j], t);
        assert |Lower(ts[j].alias)| == |ts[j].alias|;
      }
    }
  }

  lemma RecordedNext(seen: map<string, nat>, ts: seq<TableRef>, i: nat, at: nat)
    requires i < |ts| && Recorded(seen, ts, i)
    ensures Recorded(Record(seen, ts[i], at), ts, i + 1)
  {
    var next := Record(seen, ts[i], at);
    forall key | key in next
      ensures exists j :: 0 <= j < i + 1 && MarkedAt(ts, j, key)
    {
      if key in seen {
        var j :| 0 <= j < i && MarkedAt(ts, j, key);
        assert MarkedAt(ts, j, key);
      } else {
        assert MarkedAt(ts, i, key);
      }
    }
  }

  lemma RepeatMarked(seen: map<string, nat>, ts: seq<TableRef>, i: nat)
    requires i < |ts| && AllNulFree(ts) && Recorded(seen, ts, i) && Repeats(seen, ts[i])
    ensures Marked(seen, ts[i])
  {
    if ts[i].alias != "" {
      var j := MarkMeans(seen, ts, i, Key(ts[i]));
      KeysAreExact(ts[i], ts[j]);
      assert |Lower(ts[j].alias)| == |Lower(ts[i].alias)|;
      assert Marked(seen, ts[j]);
    }
  }

  lemma OneMoreMarked(seen: map<string, nat>, ts: seq<TableRef>, i: nat)
    requires i < |ts| && EachMarked(seen, ts, i) && Marked(seen, ts[i])
    ensures EachMarked(seen, ts, i + 1)
  {
  }

  lemma RepeatRecorded(seen: map<string, nat>, ts: seq<TableRef>, i: nat)
    requires i < |ts| && AllNulFree(ts) && Recorded(seen, ts, i) && Repeats(seen, ts[i])
    ensures Recorded(seen, ts, i + 1)
  {
    RepeatMarked(seen, ts, i);
    OneMoreMarked(seen, ts, i);
    StillNothingElse(seen, ts, i);
  }

  lemma StillNothingElse(seen: map<string, nat>, ts: seq<TableRef>, i: nat)
    requires i < |ts| && NothingElse(seen, ts, i)
    ensures NothingElse(seen, ts, i + 1)
  {
    forall key | key in seen
      ensures exists j :: 0 <= j < i + 1 && MarkedAt(ts, j, key)
    {
      var j :| 0 <= j < i && MarkedAt(ts, j, key);
      assert MarkedAt(ts, j, key);
    }
  }

  // ------------------------------------------------------------ what the result is

  /** Where the kept references stood. */
  ghost function Positions(ts: seq<TableRef>, n: nat): seq<nat>
    requires n <= |ts|
  {
    if n == 0 then [] else Positions(ts, n - 1) + (if Kept(ts, n - 1) then [n - 1] else [])
  }

  ghost predicate Increasing(p: seq<nat>, n: nat) {
    (forall k :: 0 <= k < |p| ==> p[k] < n) && forall k, l :: 0 <= k < l < |p| ==> p[k] < p[l]
  }

  ghost function Selected(ts: seq<TableRef>, p: seq<nat>): seq<TableRef>
    requires Increasing(p, |ts|)
  {
    seq(|p|, k requires 0 <= k < |p| => ts[p[k]])
  }

  /** An order-preserving selection: the references no earlier one covers. */
  lemma DedupedIsSelection(ts: seq<TableRef>)
    ensures var p := Positions(ts, |ts|); Increasing(p, |ts|) && Deduped(ts, |ts|) == Selected(ts, p)
    ensures forall i :: 0 <= i < |ts| ==> (i in Positions(ts, |ts|) <==> Kept(ts, i))
  {
    PositionsIncrease(ts, |ts|);
    PositionsSelect(ts, |ts|);
    forall i | 0 <= i < |ts|
      ensures i in Positions(ts, |ts|) <==> Kept(ts, i)
    {
      PositionIsKept(ts, |ts|, i);
    }
  }

  lemma {:induction false} PositionsIncrease(ts: seq<TableRef>, n: nat)
    requires n <= |ts|
    ensures Increasing(Positions(ts, n), n)
  {
    if n > 0 {
      PositionsIncrease(ts, n - 1);
    }
  }

  lemma {:induction false} PositionIsKept(ts: seq<TableRef>, n: nat, i: nat)
    requires i < n <= |ts|
    ensures i in Positions(ts, n) <==> Kept(ts, i)
  {
    var before := Positions(ts, n - 1);
    if i < n - 1 {
      PositionIsKept(ts, n - 1, i);
    } else {
      PositionsIncrease(ts, n - 1);
      assert i !in before;
    }
  }

  lemma {:induction false} PositionsSelect(ts: seq<TableRef>, n: nat)
    requires n <= |ts|
    ensures Increasing(Positions(ts, n), |ts|) && Deduped(ts, n) == Selected(ts, Positions(ts, n))
  {
    PositionsIncrease(ts, n);
    if n > 0 {
      PositionsSelect(ts, n - 1);
      if Kept(ts, n - 1) {
        PositionsIncrease(ts, n - 1);
        SelectedOneMore(ts, Positions(ts, n - 1), n - 1);
      }
    }
  }

  lemma SelectedOneMore(ts: seq<TableRef>, p: seq<nat>, i: nat)
    requires Increasing(p, i) && i < |ts|
    ensures Increasing(p, |ts|) && Increasing(p + [i], |ts|) && Selected(ts, p + [i]) == Selected(ts, p) + [ts[i]]
  {
  }

  /** No reference of the result covers a later one; in particular no two are the same. */
  lemma NoneCoversAnother(ts: seq<TableRef>, k: nat, l: nat)
    requires k < l < |Deduped(ts, |ts|)|
    ensures !Covers(Deduped(ts, |ts|)[k], Deduped(ts, |ts|)[l])
  {
    DedupedIsSelection(ts);
    var p := Positions(ts, |ts|);
    assert p[l] in p;
    assert Kept(ts, p[l]);
  }

  /** Every table that went in is still there, with a reference that covers the one that went in. */
  lemma {:induction false} NothingIsForgotten(ts: seq<TableRef>, i: nat) returns (k: nat)
    requires i < |ts|
    ensures k < |Deduped(ts, |ts|)| && Covers(Deduped(ts, |ts|)[k], ts[i]) && Dotted(Deduped(ts, |ts|)[k]) == Dotted(ts[i])
  {
    DedupedIsSelection(ts);
    if Kept(ts, i) {
      assert i in Positions(ts, |ts|);
      k :| 0 <= k < |Positions(ts, |ts|)| && Positions(ts, |ts|)[k] == i;
    } else {
      var j :| 0 <= j < i && Covers(ts[j], ts[i]);
      k := NothingIsForgotten(ts, j);
    }
  }

  lemma {:induction false} AllKept(ts: seq<TableRef>, n: nat)
    requires n <= |ts| && forall i :: 0 <= i < n ==> Kept(ts, i)
    ensures Deduped(ts, n) == ts[..n]
  {
    if n > 0 {
      AllKept(ts, n - 1);
    }
  }

  lemma DedupeIsIdempotent(ts: seq<TableRef>)
    ensures var out := Deduped(ts, |ts|); Deduped(out, |out|) == out
  {
    var out := Deduped(ts, |ts|);
    forall l | 0 <= l < |out|
      ensures Kept(out, l)
    {
      forall k | 0 <= k < l
        ensures !Covers(out[k], out[l])
      {
        NoneCoversAnother(ts, k, l);
      }
    }
    AllKept(out, |out|);
    assert out[..|out|] == out;
  }

  /** The entry with the alias is not always the one kept: met first, the bare one stays beside it. */
  lemma BareFirstStays(t: TableRef, alias: string)
    requires t.alias == "" && alias != ""
    ensures var ts := [t, t.(alias := alias)]; Deduped(ts, 2) == ts && Deduped([ts[1], ts[0]], 2) == [ts[1]]
  {
    var ts := [t, t.(alias := alias)];
    assert |Lower(alias)| != |Lower("")|;
    assert Kept(ts, 0) && Kept(ts, 1);
    AllKept(ts, 2);
    var swapped := [ts[1], ts[0]];
    assert Covers(swapped[0], swapped[1]);
    assert !Kept(swapped, 1) && Kept(swapped, 0);
    assert Deduped(swapped, 1) == [swapped[0]] by {
      AllKept(swapped, 1);
    }
  }

  // ------------------------------------------------------------ references to CTEs

  ghost function LowerNames(names: seq<string>): set<string> {
    set n | n in names :: Lower(n)
  }

  method LowerSet(names: seq<string>) returns (out: set<string>)
    ensures out == LowerNames(names)
  {
    out := {};
    for i := 0 to |names|
      invariant out == LowerNames(names[..i])
    {
      out := out + {Lower(names[i])};
      assert forall n :: n in names[..i + 1] <==> n in names[..i] || n == names[i];
    }
    assert names[..|names|] == names;
  }

  ghost predicate IsCte(t: TableRef, ctes: seq<string>) {
    t.schema == "" && Lower(t.name) in LowerNames(ctes)
  }

  ghost function WithoutCtes(ts: seq<TableRef>, ctes: seq<string>): seq<TableRef> {
    if ts == [] then []
    else (if IsCte(ts[0], ctes) then [] else [ts[0]]) + WithoutCtes(ts[1..], ctes)
  }

  lemma {:induction false} WithoutCtesConcat(a: seq<TableRef>, b: seq<TableRef>, ctes: seq<string>)
    ensures WithoutCtes(a + b, ctes) == WithoutCtes(a, ctes) + WithoutCtes(b, ctes)
  {
    if a == [] {
      assert a + b == b;
    } else {
      assert (a + b)[1..] == a[1..] + b;
      WithoutCtesConcat(a[1..], b, ctes);
    }
  }

  lemma {:induction false} WithoutCtesIsExact(ts: seq<TableRef>, ctes: seq<string>, t: TableRef)
    ensures t in WithoutCtes(ts, ctes) <==> t in ts && !IsCte(t, ctes)
  {
    if ts != [] {
      WithoutCtesIsExact(ts[1..], ctes, t);
    }
  }

  lemma {:induction false} NoCtes(ts: seq<TableRef>)
    ensures WithoutCtes(ts, []) == ts
  {
    if ts != [] {
      NoCtes(ts[1..]);
    }
  }

  method FilterCtes(ts: seq<TableRef>, ctes: seq<string>) returns (out: seq<TableRef>)
    ensures AllNulFree(ts) ==> out == Deduped(WithoutCtes(ts, ctes), |WithoutCtes(ts, ctes)|)
  {
    if |ctes| == 0 {
      NoCtes(ts);
      out := DedupeTables(ts);
      return;
    }
    var cte := LowerSet(ctes);
    var kept: seq<TableRef> := [];
    for i := 0 to |ts|
      invariant kept == WithoutCtes(ts[..i], ctes)
    {
      var t := ts[i];
      assert ts[..i + 1] == ts[..i] + [t];
      WithoutCtesConcat(ts[..i], [t], ctes);
      if t.schema == "" && Lower(t.name) in cte {
        continue;
      }
      kept := kept + [t];
    }
    assert ts[..|ts|] == ts;
    if AllNulFree(ts) {
      forall k | 0 <= k < |kept|
        ensures NulFree(kept[k])
      {
        WithoutCtesIsExact(ts, ctes, kept[k]);
      }
    }
    out := DedupeTables(kept);
  }

  /** What a statement is reported to read. */
  ghost function Reported(ts: seq<TableRef>, ctes: seq<string>): seq<TableRef> {
    Deduped(WithoutCtes(ts, ctes), |WithoutCtes(ts, ctes)|)
  }

  /** Exactly the references that name no CTE: each is there, and nothing else is. */
  lemma ReportIsExact(ts: seq<TableRef>, ctes: seq<string>, t: TableRef)
    ensures t in Reported(ts, ctes) ==> t in ts && !IsCte(t, ctes)
    ensures t in ts && !IsCte(t, ctes) ==> exists k :: 0 <= k < |Reported(ts, ctes)| && Covers(Reported(ts, ctes)[k], t)
  {
    var rest := WithoutCtes(ts, ctes);
    WithoutCtesIsExact(ts, ctes, t);
    DedupedIsSelection(rest);
    if t in rest {
      var i :| 0 <= i < |rest| && rest[i] == t;
      var k := NothingIsForgotten(rest, i);
    }
  }

  // ------------------------------------------------------------ the table set of the shape gate

  /** Written so that the dot is the schema's end and the default schema is spelled as the service spells it. */
  predicate Regular(t: TableRef) {
    '.' !in t.schema && (EqualFold(t.schema, "public") ==> t.schema == "public")
  }

  lemma DottedTellsQualified(a: TableRef, b: TableRef)
    requires Regular(a) && Regular(b) && Dotted(a) == Dotted(b)
    ensures Lower(Qualified(a)) == Lower(Qualified(b))
  {
    LowerDotted(a);
    LowerDotted(b);
    SplitAtSeparator(Lower(a.schema), Lower(a.name), Lower(b.schema), Lower(b.name), '.');
    LowerQualified(a);
    LowerQualified(b);
    assert |Lower(a.schema)| == |Lower(b.schema)|;
  }

  lemma LowerDotted(t: TableRef)
    requires '.' !in t.schema
    ensures Dotted(t) == Lower(t.schema) + "." + Lower(t.name) && '.' !in Lower(t.schema)
  {
    LowerOfConcat(t.schema, ".");
    LowerOfConcat(t.schema + ".", t.name);
    assert Lower(".") == ".";
  }

  lemma LowerQualified(t: TableRef)
    requires Regular(t)
    ensures Lower(Qualified(t)) ==
            if t.schema != "" && !EqualFold(t.schema, "public") then Lower(t.schema) + "." + Lower(t.name) else Lower(t.name)
  {
    LowerDotted(t);
  }

  lemma StaysInTableSet(ts: seq<TableRef>, t: TableRef)
    requires t in ts && forall r :: r in ts ==> Regular(r)
    ensures Lower(Qualified(t)) in TableNames(Deduped(ts, |ts|))
  {
    var i :| 0 <= i < |ts| && ts[i] == t;
    var k := NothingIsForgotten(ts, i);
    var kept := Deduped(ts, |ts|)[k];
    KeptWasThere(ts, kept);
    DottedTellsQualified(kept, t);
  }

  lemma KeptWasThere(ts: seq<TableRef>, t: TableRef)
    requires t in Deduped(ts, |ts|)
    ensures t in ts
  {
    DedupedIsSelection(ts);
  }

  /** Dropping repeats never changes the set of tables the shape gate compares. */
  lemma DedupeKeepsTableSet(ts: seq<TableRef>)
    requires forall r :: r in ts ==> Regular(r)
    ensures TableNames(Deduped(ts, |ts|)) == TableNames(ts)
  {
    forall t | t in ts
      ensures Lower(Qualified(t)) in TableNames(Deduped(ts, |ts|))
    {
      StaysInTableSet(ts, t);
    }
    forall t | t in Deduped(ts, |ts|)
      ensures t in ts
    {
      KeptWasThere(ts, t);
    }
  }

  /** Two spellings of the default schema are the limit: the keys fold case before comparing, the table set does not
      before dropping the schema. */
  lemma SpellingOfPublic(name: string)
    ensures var ts := [TableRef("PUBLIC", name, ""), TableRef("public", name, "")];
            TableNames(Deduped(ts, 2)) == {Lower("PUBLIC." + name)} && Lower(name) in TableNames(ts) && Lower(name) != Lower("PUBLIC." + name)
  {
    var a, b := TableRef("PUBLIC", name, ""), TableRef("public", name, "");
    var ts := [a, b];
    LowerOfConcat("PUBLIC.", name);
    LowerOfConcat("public.", name);
    assert Lower("PUBLIC.") == "public." == Lower("public.");
    assert a.schema + "." + a.name == "PUBLIC." + name && b.schema + "." + b.name == "public." + name;
    assert Covers(ts[0], ts[1]);
    assert !Kept(ts, 1);
    AllKept(ts, 1);
    assert Deduped(ts, 2) == [a];
    assert forall t :: t in [a] <==> t == a;
    assert Qualified(a) == "PUBLIC." + name;
    assert b in ts && Qualified(b) == name;
  }
}
