/** The facts of a parsed PostgreSQL statement: refused CTEs, output columns, stars and tables. */
module PostgresWalk {
  import opened Common
  import opened Text
  import opened Schema
  import opened Shapes
  import Refs = TableRefs
  import Sorting

  datatype Part = Name(text: string) | Star

  /** One entry of the target list: its alias and, when it is a column reference, the parts of the name. */
  datatype Target = Target(alias: string, column: Option<seq<Part>>)

  /** `nested` are the queries in FROM, in the target list and in conditions. */
  datatype Query =
    | Select(ctes: seq<Cte>, setOperation: bool, left: Option<Query>, right: Option<Query>, targets: seq<Target>, nested: seq<Query>)
    | Other(kind: string)

  datatype Cte = Cte(name: string, query: Option<Query>)

  // ------------------------------------------------------------ data-modifying CTEs

  datatype Offender = Offender(cte: string, kind: string)

  function RejectDataModifyingCtes(q: Query): Option<Offender>
    decreases q, 0
  {
    if q.Select? then RejectIn(q.ctes) else None
  }

  function RejectIn(ctes: seq<Cte>): Option<Offender>
    decreases ctes
  {
    if ctes == [] then None
    else
      match Hidden(ctes[0])
      case Some(o) => Some(o)
      case None => RejectIn(ctes[1..])
  }

  function Hidden(c: Cte): Option<Offender>
    decreases c
  {
    match c.query
    case None => None
    case Some(Other(kind)) => Some(Offender(c.name, kind))
    case Some(q) => RejectDataModifyingCtes(q)
  }

  /** A chain of WITH clauses leads from the query to the CTE. */
  ghost predicate Reachable(q: Query, c: Cte)
    decreases q
  {
    q.Select? &&
    exists i :: 0 <= i < |q.ctes| && (q.ctes[i] == c || (q.ctes[i].query.Some? && Reachable(q.ctes[i].query.value, c)))
  }

  predicate Modifies(c: Cte) {
    c.query.Some? && c.query.value.Other?
  }

  /** A refusal names a CTE that a chain of WITH clauses leads to and that is no SELECT. */
  lemma {:induction false} RefusalIsReal(q: Query) returns (c: Cte)
    requires RejectDataModifyingCtes(q).Some?
    ensures Reachable(q, c) && Modifies(c) && RejectDataModifyingCtes(q) == Some(Offender(c.name, c.query.value.kind))
    decreases q
  {
    var i := FirstRejected(q.ctes);
    c := q.ctes[i];
    if !Modifies(c) {
      c := RefusalIsReal(q.ctes[i].query.value);
    }
  }

  lemma {:induction false} FirstRejected(ctes: seq<Cte>) returns (i: nat)
    requires RejectIn(ctes).Some?
    ensures i < |ctes| && RejectIn(ctes) == Hidden(ctes[i])
  {
    if Hidden(ctes[0]).Some? {
      i := 0;
    } else {
      i := FirstRejected(ctes[1..]);
      i := i + 1;
    }
  }

  lemma {:induction false} SilenceIsShared(ctes: seq<Cte>, i: nat)
    requires RejectIn(ctes).None? && i < |ctes|
    ensures Hidden(ctes[i]).None?
  {
    if i > 0 {
      SilenceIsShared(ctes[1..], i - 1);
    }
  }

  lemma {:induction false} SilenceIsReal(q: Query, c: Cte)
    requires RejectDataModifyingCtes(q).None? && Reachable(q, c)
    ensures !Modifies(c)
    decreases q
  {
    var i :| 0 <= i < |q.ctes| && (q.ctes[i] == c || (q.ctes[i].query.Some? && Reachable(q.ctes[i].query.value, c)));
    SilenceIsShared(q.ctes, i);
    if q.ctes[i] != c {
      SilenceIsReal(q.ctes[i].query.value, c);
    }
  }

  /** The check is silent exactly when every CTE that a chain of WITH clauses leads to is a SELECT. */
  lemma RejectionExactlyWhen(q: Query)
    ensures RejectDataModifyingCtes(q).None? <==> forall c :: Reachable(q, c) ==> !Modifies(c)
  {
    if RejectDataModifyingCtes(q).Some? {
      var c := RefusalIsReal(q);
    } else {
      forall c | Reachable(q, c)
        ensures !Modifies(c)
      {
        SilenceIsReal(q, c);
      }
    }
  }

  // ------------------------------------------------------------ what the check does not look at

  /** The branches of a set operation and the nested queries: none of them is on a chain of WITH clauses. */
  function Parts(q: Query): seq<Query> {
    if q.Select?
    then (if q.left.Some? then [q.left.value] else []) + (if q.right.Some? then [q.right.value] else []) + q.nested
    else []
  }

  lemma PartsAreAll(q: Query, p: Query)
    ensures p in Parts(q) <==> q.Select? && (q.left == Some(p) || q.right == Some(p) || p in q.nested)
  {
  }

  lemma PartIsSmaller(q: Query, i: nat)
    requires i < |Parts(q)|
    ensures Parts(q)[i] < q
  {
    var before := |Parts(q)| - |q.nested|;
    if i >= before {
      assert Parts(q)[i] == q.nested[i - before];
    }
  }

  /** The query stands anywhere in the other one. */
  ghost predicate Inside(q: Query, p: Query)
    decreases q
  {
    || p == q
    || (q.Select? && exists i :: 0 <= i < |q.ctes| && q.ctes[i].query.Some? && Inside(q.ctes[i].query.value, p))
    || (exists i :: 0 <= i < |Parts(q)| && InPart(q, i, p))
  }

  ghost predicate InPart(q: Query, i: nat, p: Query)
    requires i < |Parts(q)|
    decreases q, 0
  {
    PartIsSmaller(q, i);
    Inside(Parts(q)[i], p)
  }

  /** Inside the other one, and only a branch or a nested query leads there. */
  ghost predicate Aside(q: Query, p: Query)
    decreases q
  {
    || (q.Select? && exists i :: 0 <= i < |q.ctes| && q.ctes[i].query.Some? && Aside(q.ctes[i].query.value, p))
    || (exists i :: 0 <= i < |Parts(q)| && InPart(q, i, p))
  }

  lemma {:induction false} InsideTransitive(q: Query, p: Query, r: Query)
    requires Inside(q, p) && Inside(p, r)
    ensures Inside(q, r)
    decreases q
  {
    if q != p {
      if i :| q.Select? && 0 <= i < |q.ctes| && q.ctes[i].query.Some? && Inside(q.ctes[i].query.value, p) {
        InsideTransitive(q.ctes[i].query.value, p, r);
      } else {
        var i :| 0 <= i < |Parts(q)| && InPart(q, i, p);
        PartIsSmaller(q, i);
        InsideTransitive(Parts(q)[i], p, r);
        assert InPart(q, i, r);
      }
    }
  }

  /** A CTE on a chain of WITH clauses stands in a WITH clause inside the query. */
  lemma {:induction false} ReachableIsInside(q: Query, c: Cte) returns (p: Query)
    requires Reachable(q, c)
    ensures Inside(q, p) && p.Select? && c in p.ctes
    decreases q
  {
    var i :| 0 <= i < |q.ctes| && (q.ctes[i] == c || (q.ctes[i].query.Some? && Reachable(q.ctes[i].query.value, c)));
    if q.ctes[i] == c {
      p := q;
    } else {
      p := ReachableIsInside(q.ctes[i].query.value, c);
    }
  }

  lemma {:induction false} AsideIsInside(q: Query, p: Query)
    requires Aside(q, p)
    ensures Inside(q, p)
    decreases q
  {
    if i :| q.Select? && 0 <= i < |q.ctes| && q.ctes[i].query.Some? && Aside(q.ctes[i].query.value, p) {
      AsideIsInside(q.ctes[i].query.value, p);
    }
  }

  /** What stands inside and not aside is on a chain of WITH clauses. */
  lemma {:induction false} InsideIsReachableOrAside(q: Query, p: Query, c: Cte)
    requires Inside(q, p) && p.Select? && c in p.ctes
    ensures Reachable(q, c) || Aside(q, p)
    decreases q
  {
    if q != p && !Aside(q, p) {
      var i :| q.Select? && 0 <= i < |q.ctes| && q.ctes[i].query.Some? && Inside(q.ctes[i].query.value, p);
      InsideIsReachableOrAside(q.ctes[i].query.value, p, c);
    }
  }

  /** No WITH clause anywhere in the query, at whatever depth and behind whatever branch, holds anything but SELECTs. */
  ghost predicate NothingModifies(q: Query) {
    forall p, c :: Inside(q, p) && p.Select? && c in p.ctes ==> !Modifies(c)
  }

  predicate Silent(q: Query) {
    RejectDataModifyingCtes(q).None?
  }

  lemma SilentClause(p: Query, c: Cte)
    requires Silent(p) && p.Select? && c in p.ctes
    ensures !Modifies(c)
  {
    assert Reachable(p, c);
    SilenceIsReal(p, c);
  }

  /** Nothing in the query modifies data exactly when the check would be silent at every query inside it. */
  lemma NothingModifiesExactlyWhen(q: Query)
    ensures NothingModifies(q) <==> forall p :: Inside(q, p) ==> Silent(p)
  {
    if NothingModifies(q) {
      forall p | Inside(q, p)
        ensures Silent(p)
      {
        if !Silent(p) {
          var c := RefusalIsReal(p);
          var r := ReachableIsInside(p, c);
          InsideTransitive(q, p, r);
        }
      }
    } else {
      var p, c :| Inside(q, p) && p.Select? && c in p.ctes && Modifies(c);
      if Silent(p) {
        SilentClause(p, c);
      }
    }
  }

  /** The check's silence about a statement means that nothing in it modifies data exactly when it would be silent about
      each branch and each nested query too. */
  lemma SilenceCoversExactlyWhen(q: Query)
    requires Silent(q)
    ensures NothingModifies(q) <==> forall p :: Aside(q, p) ==> Silent(p)
  {
    NothingModifiesExactlyWhen(q);
    if NothingModifies(q) {
      forall p | Aside(q, p)
        ensures Silent(p)
      {
        AsideIsInside(q, p);
      }
    } else {
      var p, c :| Inside(q, p) && p.Select? && c in p.ctes && Modifies(c);
      InsideIsReachableOrAside(q, p, c);
      if Reachable(q, c) {
        SilenceIsReal(q, c);
      } else if Silent(p) {
        SilentClause(p, c);
      }
    }
  }

  /** WITH d AS (DELETE ...) SELECT ... */
  const DELETING := Select([Cte("d", Some(Other("DeleteStmt")))], false, None, None, [], [])

  /** A set operation and a FROM clause over that query: the check says nothing. */
  lemma BranchHidesDelete(right: Query)
    ensures var union := Select([], true, Some(DELETING), Some(right), [], []);
            Silent(union) && !NothingModifies(union)
    ensures var outer := Select([], false, None, None, [], [DELETING]);
            Silent(outer) && !NothingModifies(outer)
    ensures RejectDataModifyingCtes(DELETING) == Some(Offender("d", "DeleteStmt"))
  {
    var union, outer := Select([], true, Some(DELETING), Some(right), [], []), Select([], false, None, None, [], [DELETING]);
    assert Parts(union)[0] == DELETING && Parts(outer)[0] == DELETING;
    assert InPart(union, 0, DELETING) && InPart(outer, 0, DELETING);
    assert DELETING.ctes[0] in DELETING.ctes && Modifies(DELETING.ctes[0]);
  }

  // ------------------------------------------------------------ output columns

  function InferColumnName(t: Target): string {
    if t.column.None? || t.column.value == [] then ""
    else
      match t.column.value[|t.column.value| - 1]
      case Name(text) => text
      case Star => "*"
  }

  function TargetName(t: Target): string {
    if t.alias != "" then t.alias else InferColumnName(t)
  }

  function TargetNames(ts: seq<Target>): seq<string> {
    seq(|ts|, i requires 0 <= i < |ts| => TargetName(ts[i]))
  }

  /** The branch a set operation takes its names from. */
  function Leftmost(q: Query): Query
    decreases q
  {
    if q.Select? && q.setOperation && q.left.Some? then Leftmost(q.left.value) else q
  }

  method OutputColumns(q: Query) returns (cols: seq<string>)
    requires q.Select?
    ensures cols == if Leftmost(q).Select? then TargetNames(Leftmost(q).targets) else []
    decreases q
  {
    if q.setOperation && q.left.Some? {
      if q.left.value.Select? {
        cols := OutputColumns(q.left.value);
      } else {
        cols := [];
      }
      return;
    }
    cols := [];
    for i := 0 to |q.targets|
      invariant cols == TargetNames(q.targets[..i])
    {
      var t := q.targets[i];
      assert q.targets[..i + 1] == q.targets[..i] + [t];
      assert TargetNames(q.targets[..i + 1]) == TargetNames(q.targets[..i]) + [TargetName(t)];
      if t.alias != "" {
        cols := cols + [t.alias];
        continue;
      }
      cols := cols + [InferColumnName(t)];
    }
    assert q.targets[..|q.targets|] == q.targets;
  }

  /** A column goes by its alias, without one by the last part of its own name, and an expression by none. */
  lemma NamesOfTargets(q: Query, i: nat)
    requires q.Select? && i < |q.targets|
    ensures var t, name := q.targets[i], TargetNames(q.targets)[i];
            && (t.alias != "" ==> name == t.alias)
            && (t.alias == "" && t.column.None? ==> name == "")
            && (forall front, text :: t.alias == "" && t.column == Some(front + [Name(text)]) ==> name == text)
            && (forall front :: t.alias == "" && t.column == Some(front + [Star]) ==> name == "*")
  {
  }

  predicate IsStar(t: Target) {
    t.column.Some? && Star in t.column.value
  }

  predicate HasSelectStar(q: Query)
    decreases q
  {
    q.Select? &&
    if q.setOperation then (q.left.Some? && HasSelectStar(q.left.value)) || (q.right.Some? && HasSelectStar(q.right.value))
    else exists i :: 0 <= i < |q.targets| && IsStar(q.targets[i])
  }

  /** The plain SELECT `b` is one of the branches a query is put together from. */
  ghost predicate IsBranch(b: Query, q: Query)
    decreases q
  {
    if q.Select? && q.setOperation then
      (q.left.Some? && IsBranch(b, q.left.value)) || (q.right.Some? && IsBranch(b, q.right.value))
    else q.Select? && b == q
  }

  /** A target that ends in a star, or has one among the parts of its name. */
  ghost predicate Starred(t: Target) {
    exists front, tail :: t.column == Some(front + [Star] + tail)
  }

  lemma StarIsPart(t: Target)
    ensures IsStar(t) <==> Starred(t)
  {
    if IsStar(t) {
      var parts := t.column.value;
      var i :| 0 <= i < |parts| && parts[i] == Star;
      assert parts == parts[..i] + [Star] + parts[i + 1..];
    }
    if Starred(t) {
      var front, tail :| t.column == Some(front + [Star] + tail);
      assert (front + [Star] + tail)[|front|] == Star;
    }
  }

  ghost predicate StarsAbove(b: Query) {
    b.Select? && exists i :: 0 <= i < |b.targets| && Starred(b.targets[i])
  }

  /** A star is reported exactly when one of the branches has a target with one. */
  lemma {:induction false} StarReportedExactlyWhen(q: Query)
    ensures HasSelectStar(q) <==> exists b :: IsBranch(b, q) && StarsAbove(b)
    decreases q
  {
    if q.Select? {
      if q.setOperation {
        if q.left.Some? {
          StarReportedExactlyWhen(q.left.value);
        }
        if q.right.Some? {
          StarReportedExactlyWhen(q.right.value);
        }
      } else {
        forall i | 0 <= i < |q.targets|
          ensures IsStar(q.targets[i]) <==> Starred(q.targets[i])
        {
          StarIsPart(q.targets[i]);
        }
        assert HasSelectStar(q) <==> StarsAbove(q);
      }
    }
  }

  /** Both branches are there and are queries, all the way down. */
  predicate Complete(q: Query)
    decreases q
  {
    q.Select? &&
    (q.setOperation ==> q.left.Some? && q.right.Some? && Complete(q.left.value) && Complete(q.right.value))
  }

  /** Where no star is reported, the names are those of single columns: none comes from a star. */
  lemma {:induction false} NoStarInNames(q: Query)
    requires Complete(q) && !HasSelectStar(q)
    ensures Leftmost(q).Select? && forall i :: 0 <= i < |Leftmost(q).targets| ==> !IsStar(Leftmost(q).targets[i])
    decreases q
  {
    if q.setOperation {
      NoStarInNames(q.left.value);
    }
  }

  // ------------------------------------------------------------ tables

  function Key(t: TableRef): string {
    Lower(Qualified(t)) + "|" + Lower(t.alias)
  }

  predicate Distinct(refs: seq<TableRef>) {
    forall i, j :: 0 <= i < j < |refs| ==> Key(refs[i]) != Key(refs[j])
  }

  ghost predicate SameKeys(a: seq<TableRef>, b: seq<TableRef>) {
    (forall t :: t in a ==> t in b) && forall t :: t in b ==> Key(t) in KeysOf(a)
  }

  ghost function KeysOf(refs: seq<TableRef>): set<string> {
    set t | t in refs :: Key(t)
  }

  lemma Another(seen: set<string>, out: seq<TableRef>, all: seq<TableRef>, t: TableRef)
    requires KeysOf(out) == seen && Distinct(out) && SameKeys(out, all)
    ensures Key(t) in seen ==> SameKeys(out, all + [t])
    ensures Key(t) !in seen ==> KeysOf(out + [t]) == seen + {Key(t)} && Distinct(out + [t]) && SameKeys(out + [t], all + [t])
  {
    if Key(t) in seen {
      var r :| r in out && Key(r) == Key(t);
      assert SameKeys(out, all + [t]);
    } else {
      var more := out + [t];
      assert more[|out|] == t && forall i :: 0 <= i < |out| ==> more[i] == out[i];
      assert forall r :: r in more <==> r in out || r == t;
    }
  }

  // ------------------------------------------------------------ the order of the report

  /** Go's order on strings. */
  predicate StringLe(a: string, b: string) {
    a == "" || (b != "" && (a[0] < b[0] || (a[0] == b[0] && StringLe(a[1..], b[1..]))))
  }

  predicate NameLe(a: TableRef, b: TableRef) {
    StringLe(Qualified(a), Qualified(b))
  }

  lemma {:induction false} StringLeTotal(a: string, b: string)
    ensures StringLe(a, b) || StringLe(b, a)
  {
    if a != "" && b != "" && a[0] == b[0] {
      StringLeTotal(a[1..], b[1..]);
    }
  }

  lemma {:induction false} StringLeTransitive(a: string, b: string, c: string)
    requires StringLe(a, b) && StringLe(b, c)
    ensures StringLe(a, c)
  {
    if a != "" && a[0] == b[0] == c[0] {
      StringLeTransitive(a[1..], b[1..], c[1..]);
    }
  }

  lemma NameLeIsPreorder()
    ensures Sorting.TotalPreorder(NameLe)
  {
    forall a: TableRef, b: TableRef
      ensures NameLe(a, b) || NameLe(b, a)
    {
      StringLeTotal(Qualified(a), Qualified(b));
    }
    forall a: TableRef, b: TableRef, c: TableRef | NameLe(a, b) && NameLe(b, c)
      ensures NameLe(a, c)
    {
      StringLeTransitive(Qualified(a), Qualified(b), Qualified(c));
    }
  }

  /** A permutation of references keeps their keys, each once. */
  lemma PermutedKeys(out: seq<TableRef>, sorted: seq<TableRef>, all: seq<TableRef>)
    requires Distinct(out) && SameKeys(out, all) && multiset(out) == multiset(sorted)
    ensures Distinct(sorted) && SameKeys(sorted, all)
  {
    assert forall t :: t in sorted <==> t in multiset(sorted);
    assert forall t :: t in out <==> t in multiset(out);
    assert KeysOf(out) == KeysOf(sorted);
    forall i, j | 0 <= i < j < |sorted|
      ensures Key(sorted[i]) != Key(sorted[j])
    {
      if Key(sorted[i]) == Key(sorted[j]) {
        SameElement(out, sorted[i], sorted[j]);
        Twice(sorted, i, j);
        OnceIn(out, sorted[i]);
      }
    }
  }

  lemma SameElement(out: seq<TableRef>, a: TableRef, b: TableRef)
    requires Distinct(out) && a in out && b in out && Key(a) == Key(b)
    ensures a == b
  {
  }

  lemma Twice(s: seq<TableRef>, i: nat, j: nat)
    requires i < j < |s| && s[i] == s[j]
    ensures multiset(s)[s[i]] >= 2
  {
    assert s == s[..j] + [s[j]] + s[j + 1..];
    assert s[i] in s[..j];
  }

  lemma {:induction false} OnceIn(out: seq<TableRef>, a: TableRef)
    requires Distinct(out)
    ensures multiset(out)[a] <= 1
  {
    if out != [] {
      var first, rest := out[0], out[1..];
      assert out == [first] + rest && forall i :: 0 <= i < |rest| ==> rest[i] == out[i + 1];
      OnceIn(rest, a);
      if first == a {
        assert a !in rest;
      }
    }
  }

  /** `refs` are the references the walk meets, `ctes` the names of the outermost WITH clause. The report is in the order
      of the qualified names. */
  method CollectTables(refs: seq<TableRef>, ctes: seq<string>) returns (out: seq<TableRef>)
    ensures Distinct(out) && SameKeys(out, Refs.WithoutCtes(refs, ctes)) && Sorting.SortedBy(NameLe, out)
  {
    var met := WalkTables(refs, ctes);
    NameLeIsPreorder();
    Sorting.SortSorts(NameLe, met);
    out := Sorting.Sort(NameLe, met);
    PermutedKeys(met, out, Refs.WithoutCtes(refs, ctes));
  }

  method WalkTables(refs: seq<TableRef>, ctes: seq<string>) returns (out: seq<TableRef>)
    ensures Distinct(out) && SameKeys(out, Refs.WithoutCtes(refs, ctes))
  {
    var cte := Refs.LowerSet(ctes);
    out := [];
    var seen: set<string> := {};
    for i := 0 to |refs|
      invariant KeysOf(out) == seen && Distinct(out) && SameKeys(out, Refs.WithoutCtes(refs[..i], ctes))
    {
      OneMoreRef(refs, i, ctes);
      seen, out := Visit(seen, out, refs[i], cte, ctes, Refs.WithoutCtes(refs[..i], ctes));
    }
    assert refs[..|refs|] == refs;
  }

  lemma OneMoreRef(refs: seq<TableRef>, i: nat, ctes: seq<string>)
    requires i < |refs|
    ensures Refs.WithoutCtes(refs[..i + 1], ctes) == Refs.WithoutCtes(refs[..i], ctes) + (if Refs.IsCte(refs[i], ctes) then [] else [refs[i]])
  {
    assert refs[..i + 1] == refs[..i] + [refs[i]];
    Refs.WithoutCtesConcat(refs[..i], [refs[i]], ctes);
    assert [refs[i]][1..] == [];
  }

  /** What the walk does at one reference. */
  method Visit(seen: set<string>, out: seq<TableRef>, t: TableRef, cte: set<string>, ghost ctes: seq<string>, ghost all: seq<TableRef>)
    returns (seen': set<string>, out': seq<TableRef>)
    requires cte == Refs.LowerNames(ctes) && KeysOf(out) == seen && Distinct(out) && SameKeys(out, all)
    ensures KeysOf(out') == seen' && Distinct(out') && SameKeys(out', all + (if Refs.IsCte(t, ctes) then [] else [t]))
  {
    if Lower(t.name) in cte && t.schema == "" {
      assert all + [] == all;
      return seen, out;
    }
    Another(seen, out, all, t);
    if Key(t) in seen {
      return seen, out;
    }
    return seen + {Key(t)}, out + [t];
  }

  predicate BarFree(t: TableRef) {
    '|' !in Lower(Qualified(t))
  }

  lemma KeyTellsTable(a: TableRef, b: TableRef)
    requires Key(a) == Key(b) && BarFree(a) && BarFree(b)
    ensures Lower(Qualified(a)) == Lower(Qualified(b))
  {
    SplitAtSeparator(Lower(Qualified(a)), Lower(a.alias), Lower(Qualified(b)), Lower(b.alias), '|');
  }

  /** Dropping repeats never changes the set of tables the shape gate compares. */
  lemma KeysKeepTableSet(out: seq<TableRef>, all: seq<TableRef>)
    requires SameKeys(out, all) && forall t :: t in all ==> BarFree(t)
    ensures TableNames(out) == TableNames(all)
  {
    forall t | t in all
      ensures Lower(Qualified(t)) in TableNames(out)
    {
      var r :| r in out && Key(r) == Key(t);
      KeyTellsTable(r, t);
    }
  }
}
