/** The two visitors over a parsed MySQL statement: the read-only guard and the collector of facts. */
module MySqlWalk {
  import opened Common
  import opened Schema
  import opened TableRefs

  // ------------------------------------------------------------ the tree

  datatype Lock = NoLockClause | LockNone | ForUpdate | ForShare

  datatype WriteKind = Insert | Update | Delete | LoadData

  /** One entry of a SELECT list; `column` is the column's name when the entry is a bare column. */
  datatype Field = Wildcard | Field(alias: string, column: Option<string>)

  datatype Kind =
    | Select(lock: Lock, into: bool, limit: bool, orderBy: Option<nat>, fields: Option<seq<Field>>)
    | SetOperation(limit: bool, orderBy: Option<nat>)
    | Write(write: WriteKind)
    | With(ctes: seq<string>)
    | Plain

  /** A table source wraps one node; a table name is a leaf; every other node has children in visiting order. */
  datatype Node =
    | Inner(kind: Kind, kids: seq<Node>)
    | TableSource(source: Node, alias: string)
    | TableName(schema: string, name: string)

  /** Every node, parents before children. */
  ghost function Preorder(n: Node): (ns: seq<Node>)
    ensures ns != [] && ns[0] == n
    decreases n, 0
  {
    [n] + match n
          case Inner(_, kids) => PreorderAll(kids)
          case TableSource(source, _) => Preorder(source)
          case TableName(_, _) => []
  }

  ghost function PreorderAll(ns: seq<Node>): seq<Node>
    decreases ns
  {
    if ns == [] then [] else Preorder(ns[0]) + PreorderAll(ns[1..])
  }

  /** `m` stands somewhere in the tree of `n`, at any depth. */
  ghost predicate Within(m: Node, n: Node)
    decreases n
  {
    m == n || match n
              case Inner(_, kids) => exists i :: 0 <= i < |kids| && Within(m, kids[i])
              case TableSource(source, _) => Within(m, source)
              case TableName(_, _) => false
  }

  lemma {:induction false} PreorderIsWithin(m: Node, n: Node)
    ensures m in Preorder(n) <==> Within(m, n)
    decreases n, 0
  {
    match n
    case Inner(_, kids) => PreorderAllIsWithin(m, kids);
    case TableSource(source, _) => PreorderIsWithin(m, source);
    case TableName(_, _) =>
  }

  lemma {:induction false} PreorderAllIsWithin(m: Node, ns: seq<Node>)
    ensures m in PreorderAll(ns) <==> exists i :: 0 <= i < |ns| && Within(m, ns[i])
    decreases ns
  {
    if ns != [] {
      PreorderIsWithin(m, ns[0]);
      PreorderAllIsWithin(m, ns[1..]);
      if m in PreorderAll(ns[1..]) {
        var i :| 0 <= i < |ns[1..]| && Within(m, ns[1..][i]);
        assert Within(m, ns[i + 1]);
      }
      if exists i :: 0 <= i < |ns| && Within(m, ns[i]) {
        var i :| 0 <= i < |ns| && Within(m, ns[i]);
        assert i > 0 ==> Within(m, ns[1..][i - 1]);
      }
    }
  }

  // ------------------------------------------------------------ the guard

  datatype Refusal = LockingClause | IntoClause | WriteStatement(kind: WriteKind)

  function Offence(n: Node): Option<Refusal> {
    if !n.Inner? then None
    else
      match n.kind
      case Select(lock, into, _, _, _) =>
        if lock == ForUpdate || lock == ForShare then Some(LockingClause)
        else if into then Some(IntoClause)
        else None
      case Write(w) => Some(WriteStatement(w))
      case _ => None
  }

  /** The first refusal met. */
  ghost function FirstOffence(ns: seq<Node>): Option<Refusal> {
    if ns == [] then None
    else if Offence(ns[0]).Some? then Offence(ns[0])
    else FirstOffence(ns[1..])
  }

  lemma {:induction false} FirstOffenceConcat(a: seq<Node>, b: seq<Node>)
    ensures FirstOffence(a + b) == if FirstOffence(a).Some? then FirstOffence(a) else FirstOffence(b)
  {
    if a == [] {
      assert a + b == b;
    } else {
      assert (a + b)[1..] == a[1..] + b;
      FirstOffenceConcat(a[1..], b);
    }
  }

  lemma {:induction false} FirstOffenceIsFirst(ns: seq<Node>)
    ensures FirstOffence(ns).None? <==> forall n :: n in ns ==> Offence(n).None?
    ensures FirstOffence(ns).Some? ==>
              exists i :: 0 <= i < |ns| && FirstOffence(ns) == Offence(ns[i]) && forall j :: 0 <= j < i ==> Offence(ns[j]).None?
  {
    if ns != [] && Offence(ns[0]).None? {
      FirstOffenceIsFirst(ns[1..]);
      if FirstOffence(ns[1..]).Some? {
        var i :| 0 <= i < |ns[1..]| && FirstOffence(ns[1..]) == Offence(ns[1..][i]) && forall j :: 0 <= j < i ==> Offence(ns[1..][j]).None?;
        assert FirstOffence(ns) == Offence(ns[i + 1]);
        forall j | 0 <= j < i + 1
          ensures Offence(ns[j]).None?
        {
          assert j > 0 ==> ns[j] == ns[1..][j - 1];
        }
      }
    }
  }

  class Guard {
    var err: Option<Refusal>

    constructor ()
      ensures err == None
    {
      err := None;
    }

    method Enter(n: Node) returns (skip: bool)
      modifies this
      ensures err == if old(err).Some? then old(err) else Offence(n)
      ensures skip <==> err.Some?
    {
      if err.Some? {
        return true;
      }
      if n.Inner? {
        match n.kind
        case Select(lock, into, _, _, _) =>
          if lock != NoLockClause && lock != LockNone {
            err := Some(LockingClause);
            return true;
          }
          if into {
            err := Some(IntoClause);
            return true;
          }
        case Write(w) =>
          err := Some(WriteStatement(w));
          return true;
        case _ =>
      }
      return false;
    }

    /** The library's traversal: a node is entered, its children follow unless skipped, and a refusal stops it all. */
    method Accept(n: Node) returns (ok: bool)
      modifies this
      ensures err == if old(err).Some? then old(err) else FirstOffence(Preorder(n))
      ensures ok <==> err.None?
      decreases n, 0
    {
      var skip := Enter(n);
      if !skip {
        match n {
          case Inner(_, kids) =>
            var _ := AcceptAll(kids);
          case TableSource(source, _) =>
            var _ := Accept(source);
          case TableName(_, _) =>
        }
      }
      return err.None?;
    }

    method AcceptAll(ns: seq<Node>) returns (ok: bool)
      requires err.None?
      modifies this
      ensures err == FirstOffence(PreorderAll(ns))
      ensures ok <==> err.None?
      decreases ns
    {
      for i := 0 to |ns|
        invariant err.None? && FirstOffence(PreorderAll(ns)) == FirstOffence(PreorderAll(ns[i..]))
      {
        assert ns[i..][1..] == ns[i + 1..];
        FirstOffenceConcat(Preorder(ns[i]), PreorderAll(ns[i + 1..]));
        ok := Accept(ns[i]);
        if !ok {
          return;
        }
      }
      return true;
    }
  }

  /** Nothing that locks or writes stands anywhere in the tree. */
  ghost predicate ReadOnly(n: Node) {
    forall m :: Within(m, n) ==> Offence(m).None?
  }

  /** The guard is silent exactly when no node at any depth offends. */
  lemma GuardIsExact(n: Node)
    ensures FirstOffence(Preorder(n)).None? <==> ReadOnly(n)
  {
    FirstOffenceIsFirst(Preorder(n));
    forall m
      ensures m in Preorder(n) <==> Within(m, n)
    {
      PreorderIsWithin(m, n);
    }
  }

  // ------------------------------------------------------------ the collector

  function ColumnName(f: Field): string {
    match f
    case Wildcard => ""
    case Field(alias, column) => if alias != "" then alias else if column.Some? then column.value else ""
  }

  function ColumnNames(fields: seq<Field>): seq<string> {
    seq(|fields|, i requires 0 <= i < |fields| => ColumnName(fields[i]))
  }

  datatype Facts = Facts(
    tables: seq<TableRef>, cteNames: seq<string>, outputCols: seq<string>,
    selectStar: bool, hasLimit: bool, hasOrderBy: bool, seenTop: bool)

  const NOTHING := Facts([], [], [], false, false, false, false)

  /** The nodes the collector enters: all but the name inside a table source. */
  ghost function Visited(n: Node): (ns: seq<Node>)
    ensures ns != [] && ns[0] == n
    decreases n, 0
  {
    [n] + match n
          case Inner(_, kids) => VisitedAll(kids)
          case TableSource(source, _) => if source.TableName? then [] else Visited(source)
          case TableName(_, _) => []
  }

  ghost function VisitedAll(ns: seq<Node>): seq<Node>
    decreases ns
  {
    if ns == [] then [] else Visited(ns[0]) + VisitedAll(ns[1..])
  }

  function RefOf(n: Node): seq<TableRef> {
    match n
    case TableName(schema, name) => [TableRef(schema, name, "")]
    case TableSource(TableName(schema, name), alias) => [TableRef(schema, name, alias)]
    case _ => []
  }

  ghost function Refs(ns: seq<Node>): seq<TableRef> {
    if ns == [] then [] else RefOf(ns[0]) + Refs(ns[1..])
  }

  function CtesOf(n: Node): seq<string> {
    if n.Inner? && n.kind.With? then n.kind.ctes else []
  }

  ghost function Ctes(ns: seq<Node>): seq<string> {
    if ns == [] then [] else CtesOf(ns[0]) + Ctes(ns[1..])
  }

  predicate IsSelect(n: Node) {
    n.Inner? && n.kind.Select?
  }

  /** The first SELECT met. */
  ghost function FirstSelect(ns: seq<Node>): (first: Option<Kind>)
    ensures first.Some? ==> first.value.Select?
  {
    if ns == [] then None else if IsSelect(ns[0]) then Some(ns[0].kind) else FirstSelect(ns[1..])
  }

  predicate HasWildcard(k: Kind) {
    k.Select? && k.fields.Some? && Wildcard in k.fields.value
  }

  function Columns(k: Kind): seq<string> {
    if k.Select? && k.fields.Some? then ColumnNames(k.fields.value) else []
  }

  predicate Orders(k: Kind) {
    (k.Select? || k.SetOperation?) && k.orderBy.Some? && k.orderBy.value > 0
  }

  /** What entering the nodes adds to the facts: every reference and CTE name, and the first SELECT's own clauses. */
  ghost function Gather(f: Facts, ns: seq<Node>): Facts {
    Add(f, Refs(ns), Ctes(ns), FirstSelect(ns))
  }

  function Add(f: Facts, refs: seq<TableRef>, ctes: seq<string>, first: Option<Kind>): Facts
    requires first.Some? ==> first.value.Select?
  {
    var g := f.(tables := f.tables + refs, cteNames := f.cteNames + ctes);
    if f.seenTop || first.None? then g
    else
      var k := first.value;
      g.(outputCols := f.outputCols + Columns(k), selectStar := f.selectStar || HasWildcard(k),
         hasLimit := k.limit, hasOrderBy := Orders(k), seenTop := true)
  }

  lemma AddTwice(f: Facts, refs: seq<TableRef>, moreRefs: seq<TableRef>, ctes: seq<string>, moreCtes: seq<string>, a: Option<Kind>, b: Option<Kind>)
    requires (a.Some? ==> a.value.Select?) && (b.Some? ==> b.value.Select?)
    ensures Add(Add(f, refs, ctes, a), moreRefs, moreCtes, b) ==
            Add(f, refs + moreRefs, ctes + moreCtes, if a.Some? then a else b)
  {
    assert f.tables + refs + moreRefs == f.tables + (refs + moreRefs);
    assert f.cteNames + ctes + moreCtes == f.cteNames + (ctes + moreCtes);
  }

  lemma {:induction false} RefsConcat(a: seq<Node>, b: seq<Node>)
    ensures Refs(a + b) == Refs(a) + Refs(b)
  {
    if a == [] {
      assert a + b == b;
    } else {
      var rest := a[1..];
      assert (a + b)[0] == a[0] && (a + b)[1..] == rest + b;
      RefsConcat(rest, b);
      assert RefOf(a[0]) + (Refs(rest) + Refs(b)) == (RefOf(a[0]) + Refs(rest)) + Refs(b);
    }
  }

  lemma {:induction false} CtesConcat(a: seq<Node>, b: seq<Node>)
    ensures Ctes(a + b) == Ctes(a) + Ctes(b)
  {
    if a == [] {
      assert a + b == b;
    } else {
      var rest := a[1..];
      assert (a + b)[0] == a[0] && (a + b)[1..] == rest + b;
      CtesConcat(rest, b);
      assert CtesOf(a[0]) + (Ctes(rest) + Ctes(b)) == (CtesOf(a[0]) + Ctes(rest)) + Ctes(b);
    }
  }

  lemma {:induction false} FirstSelectConcat(a: seq<Node>, b: seq<Node>)
    ensures FirstSelect(a + b) == if FirstSelect(a).Some? then FirstSelect(a) else FirstSelect(b)
  {
    if a == [] {
      assert a + b == b;
    } else {
      assert (a + b)[1..] == a[1..] + b;
      FirstSelectConcat(a[1..], b);
    }
  }

  lemma GatherConcat(f: Facts, a: seq<Node>, b: seq<Node>)
    ensures Gather(Gather(f, a), b) == Gather(f, a + b)
  {
    RefsConcat(a, b);
    CtesConcat(a, b);
    FirstSelectConcat(a, b);
    AddTwice(f, Refs(a), Refs(b), Ctes(a), Ctes(b), FirstSelect(a), FirstSelect(b));
  }

  class Collector {
    var tables: seq<TableRef>
    var cteNames: seq<string>
    var outputCols: seq<string>
    var selectStar: bool
    var hasLimit: bool
    var hasOrderBy: bool
    var seenTop: bool

    function Current(): Facts
      reads this
    {
      Facts(tables, cteNames, outputCols, selectStar, hasLimit, hasOrderBy, seenTop)
    }

    constructor ()
      ensures Current() == NOTHING
    {
      tables, cteNames, outputCols := [], [], [];
      selectStar, hasLimit, hasOrderBy, seenTop := false, false, false, false;
    }

    method Enter(n: Node) returns (skip: bool)
      modifies this
      ensures Current() == Gather(old(Current()), [n])
      ensures skip <==> n.TableSource? && n.source.TableName?
    {
      GatherOne(Current(), n);
      match n {
        case TableSource(source, alias) =>
          if source.TableName? {
            tables := tables + [TableRef(source.schema, source.name, alias)];
            return true;
          }
        case TableName(schema, name) =>
          tables := tables + [TableRef(schema, name, "")];
        case Inner(With(ctes), _) =>
          AddCtes(ctes);
        case Inner(Select(_, _, limit, orderBy, fields), _) =>
          EnterSelect(n.kind);
        case _ =>
      }
      return false;
    }

    /** Only the first SELECT counts. */
    method EnterSelect(k: Kind)
      requires k.Select?
      modifies this
      ensures Current() == Add(old(Current()), [], [], Some(k))
    {
      if seenTop {
        return;
      }
      seenTop := true;
      hasLimit := k.limit;
      hasOrderBy := k.orderBy.Some? && k.orderBy.value > 0;
      if k.fields.Some? {
        AddFields(k.fields.value);
      }
    }

    method AddCtes(ctes: seq<string>)
      modifies this`cteNames
      ensures cteNames == old(cteNames) + ctes
    {
      for i := 0 to |ctes|
        invariant cteNames == old(cteNames) + ctes[..i]
      {
        cteNames := cteNames + [ctes[i]];
        assert ctes[..i + 1] == ctes[..i] + [ctes[i]];
      }
      assert ctes[..|ctes|] == ctes;
    }

    method AddFields(fields: seq<Field>)
      modifies this`outputCols, this`selectStar
      ensures outputCols == old(outputCols) + ColumnNames(fields)
      ensures selectStar <==> old(selectStar) || Wildcard in fields
    {
      for i := 0 to |fields|
        invariant outputCols == old(outputCols) + ColumnNames(fields[..i])
        invariant selectStar <==> old(selectStar) || Wildcard in fields[..i]
      {
        assert fields[..i + 1] == fields[..i] + [fields[i]];
        assert ColumnNames(fields[..i + 1]) == ColumnNames(fields[..i]) + [ColumnName(fields[i])];
        if fields[i].Wildcard? {
          selectStar := true;
          outputCols := outputCols + [""];
          continue;
        }
        outputCols := outputCols + [ColumnName(fields[i])];
      }
      assert fields[..|fields|] == fields;
    }

    method Accept(n: Node)
      modifies this
      ensures Current() == Gather(old(Current()), Visited(n))
      decreases n, 0
    {
      var skip := Enter(n);
      ghost var entered := Current();
      match n {
        case Inner(_, kids) =>
          AcceptAll(kids);
          GatherConcat(old(Current()), [n], VisitedAll(kids));
        case TableSource(source, _) =>
          if !skip {
            Accept(source);
            GatherConcat(old(Current()), [n], Visited(source));
          } else {
            assert Visited(n) == [n];
          }
        case TableName(_, _) =>
          assert Visited(n) == [n];
      }
    }

    method AcceptAll(ns: seq<Node>)
      modifies this
      ensures Current() == Gather(old(Current()), VisitedAll(ns))
      decreases ns
    {
      GatherNone(Current());
      for i := 0 to |ns|
        invariant Gather(Current(), VisitedAll(ns[i..])) == Gather(old(Current()), VisitedAll(ns))
      {
        assert ns[i..][1..] == ns[i + 1..];
        GatherConcat(Current(), Visited(ns[i]), VisitedAll(ns[i + 1..]));
        Accept(ns[i]);
      }
      GatherNone(Current());
    }
  }

  lemma GatherNone(f: Facts)
    ensures Gather(f, []) == f
  {
  }

  lemma GatherOne(f: Facts, n: Node)
    ensures Refs([n]) == RefOf(n) && Ctes([n]) == CtesOf(n)
    ensures FirstSelect([n]) == if IsSelect(n) then Some(n.kind) else None
  {
    assert [n][1..] == [];
  }

  // ------------------------------------------------------------ what is collected

  function NameOf(n: Node): seq<(string, string)> {
    if n.TableName? then [(n.schema, n.name)] else []
  }

  /** The table names of a sequence of nodes. */
  ghost function NamesIn(ns: seq<Node>): seq<(string, string)> {
    if ns == [] then [] else NameOf(ns[0]) + NamesIn(ns[1..])
  }

  ghost function RefNames(refs: seq<TableRef>): seq<(string, string)> {
    seq(|refs|, i requires 0 <= i < |refs| => (refs[i].schema, refs[i].name))
  }

  lemma {:induction false} NamesInConcat(a: seq<Node>, b: seq<Node>)
    ensures NamesIn(a + b) == NamesIn(a) + NamesIn(b)
  {
    if a == [] {
      assert a + b == b;
    } else {
      var rest := a[1..];
      assert (a + b)[0] == a[0] && (a + b)[1..] == rest + b;
      NamesInConcat(rest, b);
      assert NameOf(a[0]) + (NamesIn(rest) + NamesIn(b)) == (NameOf(a[0]) + NamesIn(rest)) + NamesIn(b);
    }
  }

  lemma RefNamesConcat(a: seq<TableRef>, b: seq<TableRef>)
    ensures RefNames(a + b) == RefNames(a) + RefNames(b)
  {
  }

  /** Every table name of the tree, at any depth, is recorded once and in order, whether a source wraps it or not. */
  lemma {:induction false} EveryTableOnce(n: Node)
    ensures RefNames(Refs(Visited(n))) == NamesIn(Preorder(n))
    decreases n, 0
  {
    GatherOne(NOTHING, n);
    match n
    case Inner(_, kids) =>
      EveryTableOnceAll(kids);
      RefsConcat([n], VisitedAll(kids));
      NamesInConcat([n], PreorderAll(kids));
    case TableSource(source, _) =>
      NamesInConcat([n], Preorder(source));
      if source.TableName? {
        assert Visited(n) == [n] && Preorder(source) == [source];
      } else {
        EveryTableOnce(source);
        RefsConcat([n], Visited(source));
      }
    case TableName(_, _) =>
      assert Visited(n) == [n] && Preorder(n) == [n];
  }

  lemma {:induction false} EveryTableOnceAll(ns: seq<Node>)
    ensures RefNames(Refs(VisitedAll(ns))) == NamesIn(PreorderAll(ns))
    decreases ns
  {
    if ns != [] {
      EveryTableOnce(ns[0]);
      EveryTableOnceAll(ns[1..]);
      RefsConcat(Visited(ns[0]), VisitedAll(ns[1..]));
      RefNamesConcat(Refs(Visited(ns[0])), Refs(VisitedAll(ns[1..])));
      NamesInConcat(Preorder(ns[0]), PreorderAll(ns[1..]));
    }
  }

  ghost predicate NamedIn(schema: string, name: string, n: Node) {
    Within(TableName(schema, name), n)
  }

  lemma {:induction false} InNamesIn(ns: seq<Node>, schema: string, name: string)
    ensures (schema, name) in NamesIn(ns) <==> TableName(schema, name) in ns
  {
    if ns != [] {
      InNamesIn(ns[1..], schema, name);
    }
  }

  /** The tables of a statement's report: a table name stands somewhere in the tree and is no CTE's, or it is not reported. */
  lemma ReportedTablesAreExact(n: Node, schema: string, name: string)
    ensures var all := Refs(Visited(n)); var ctes := Ctes(Visited(n)); var out := Reported(all, ctes);
            (exists k :: 0 <= k < |out| && out[k].schema == schema && out[k].name == name) ==>
              NamedIn(schema, name, n) && !IsCte(TableRef(schema, name, ""), ctes)
    ensures var all := Refs(Visited(n)); var ctes := Ctes(Visited(n)); var out := Reported(all, ctes);
            NamedIn(schema, name, n) && !IsCte(TableRef(schema, name, ""), ctes) ==>
              exists k :: 0 <= k < |out| && Dotted(out[k]) == Dotted(TableRef(schema, name, ""))
  {
    var all, ctes := Refs(Visited(n)), Ctes(Visited(n));
    var out := Reported(all, ctes);
    EveryTableOnce(n);
    InNamesIn(Preorder(n), schema, name);
    PreorderIsWithin(TableName(schema, name), n);
    if k :| 0 <= k < |out| && out[k].schema == schema && out[k].name == name {
      ReportIsExact(all, ctes, out[k]);
      NameOfRef(all, out[k]);
    }
    if NamedIn(schema, name, n) && !IsCte(TableRef(schema, name, ""), ctes) {
      var i :| 0 <= i < |all| && RefNames(all)[i] == (schema, name);
      ReportIsExact(all, ctes, all[i]);
    }
  }

  lemma NameOfRef(refs: seq<TableRef>, r: TableRef)
    requires r in refs
    ensures (r.schema, r.name) in RefNames(refs)
  {
    var i :| 0 <= i < |refs| && refs[i] == r;
    assert RefNames(refs)[i] == (r.schema, r.name);
  }

  /** For a SELECT, LIMIT, ORDER BY and output columns are its own, whatever is nested below. */
  lemma SelectRootIsItsOwn(kind: Kind, kids: seq<Node>)
    requires kind.Select?
    ensures var f := Gather(NOTHING, Visited(Inner(kind, kids)));
            f.hasLimit == kind.limit && f.hasOrderBy == (kind.orderBy.Some? && kind.orderBy.value > 0) &&
            f.outputCols == Columns(kind) && f.selectStar == HasWildcard(kind)
  {
    var n := Inner(kind, kids);
    GatherOne(NOTHING, n);
    FirstSelectConcat([n], VisitedAll(kids));
  }

  /** Its columns go by the names the result will carry: the alias before the column's own name, and none for an expression or
      a wildcard. */
  lemma NamesOfFields(kind: Kind, kids: seq<Node>, i: nat)
    requires kind.Select? && kind.fields.Some? && i < |kind.fields.value|
    ensures var names := Gather(NOTHING, Visited(Inner(kind, kids))).outputCols;
            && |names| == |kind.fields.value|
            && match kind.fields.value[i]
               case Wildcard => names[i] == ""
               case Field(alias, column) =>
                 (alias != "" ==> names[i] == alias) && (alias == "" && column.None? ==> names[i] == "")
                 && (alias == "" && column.Some? ==> names[i] == column.value)
  {
    SelectRootIsItsOwn(kind, kids);
  }

  /** The SELECT a set operation takes its columns from: the first one outside every WITH clause. */
  ghost function Leading(n: Node): (lead: Option<Kind>)
    ensures lead.Some? ==> lead.value.Select?
    decreases n, 0
  {
    match n
    case Inner(Select(_, _, _, _, _), _) => Some(n.kind)
    case Inner(With(_), _) => None
    case Inner(_, kids) => LeadingAll(kids)
    case TableSource(source, _) => Leading(source)
    case TableName(_, _) => None
  }

  ghost function LeadingAll(ns: seq<Node>): (lead: Option<Kind>)
    ensures lead.Some? ==> lead.value.Select?
    decreases ns
  {
    if ns == [] then None else if Leading(ns[0]).Some? then Leading(ns[0]) else LeadingAll(ns[1..])
  }

  /** No WITH clause stands in the tree. */
  ghost predicate WithFree(n: Node) {
    forall m :: Within(m, n) ==> !(m.Inner? && m.kind.With?)
  }

  ghost predicate AllWithFree(ns: seq<Node>) {
    forall i :: 0 <= i < |ns| ==> WithFree(ns[i])
  }

  lemma {:induction false} LeadingIsFirst(n: Node)
    requires WithFree(n)
    ensures FirstSelect(Visited(n)) == Leading(n)
    decreases n, 0
  {
    GatherOne(NOTHING, n);
    match n
    case Inner(kind, kids) =>
      assert Within(n, n);
      FirstSelectConcat([n], VisitedAll(kids));
      forall i | 0 <= i < |kids|
        ensures WithFree(kids[i])
      {
        KidIsWithFree(n, i);
      }
      LeadingIsFirstAll(kids);
    case TableSource(source, _) =>
      assert forall m :: Within(m, source) ==> Within(m, n);
      LeadingIsFirst(source);
      FirstSelectConcat([n], Visited(source));
      assert [n] + [] == [n];
    case TableName(_, _) =>
  }

  lemma KidIsWithFree(n: Node, i: nat)
    requires n.Inner? && WithFree(n) && i < |n.kids|
    ensures WithFree(n.kids[i])
  {
    assert forall m :: Within(m, n.kids[i]) ==> Within(m, n);
  }

  lemma {:induction false} LeadingIsFirstAll(ns: seq<Node>)
    requires AllWithFree(ns)
    ensures FirstSelect(VisitedAll(ns)) == LeadingAll(ns)
    decreases ns
  {
    if ns != [] {
      LeadingIsFirst(ns[0]);
      LeadingIsFirstAll(ns[1..]);
      FirstSelectConcat(Visited(ns[0]), VisitedAll(ns[1..]));
    }
  }

  /** The facts are those of the statement: LIMIT and ORDER BY the set operation's own, columns and star its leading SELECT's. */
  ghost predicate RootsOwn(f: Facts, kind: Kind, lead: Kind)
    requires kind.SetOperation? && lead.Select?
  {
    && f.hasLimit == kind.limit && f.hasOrderBy == (kind.orderBy.Some? && kind.orderBy.value > 0)
    && f.outputCols == Columns(lead) && f.selectStar == HasWildcard(lead)
  }

  /** The order flag of a set operation is its leading SELECT's. */
  lemma SetOperationFlag(kind: Kind, kids: seq<Node>)
    requires kind.SetOperation? && AllWithFree(kids) && LeadingAll(kids).Some?
    ensures var lead := LeadingAll(kids).value;
            Gather(NOTHING, Visited(Inner(kind, kids))).hasOrderBy == (lead.orderBy.Some? && lead.orderBy.value > 0)
  {
    var n := Inner(kind, kids);
    GatherOne(NOTHING, n);
    FirstSelectConcat([n], VisitedAll(kids));
    LeadingIsFirstAll(kids);
  }

  /** Without a WITH clause, the facts of a set operation are its own exactly when its leading SELECT carries the same
      LIMIT and ORDER BY; its columns and its star are right in any case. */
  lemma SetOperationRootExactlyWhen(kind: Kind, kids: seq<Node>)
    requires kind.SetOperation? && AllWithFree(kids) && LeadingAll(kids).Some?
    ensures var f, lead := Gather(NOTHING, Visited(Inner(kind, kids))), LeadingAll(kids).value;
            && f.outputCols == Columns(lead) && f.selectStar == HasWildcard(lead)
            && (RootsOwn(f, kind, lead) <==>
                  lead.limit == kind.limit && (lead.orderBy.Some? && lead.orderBy.value > 0 <==> kind.orderBy.Some? && kind.orderBy.value > 0))
  {
    var n := Inner(kind, kids);
    GatherOne(NOTHING, n);
    FirstSelectConcat([n], VisitedAll(kids));
    LeadingIsFirstAll(kids);
  }

  /** The first SELECT that begins in the tree, in the order of the text. */
  ghost function Opening(n: Node): (first: Option<Kind>)
    ensures first.Some? ==> first.value.Select?
    decreases n, 0
  {
    match n
    case Inner(kind, kids) => if kind.Select? then Some(kind) else OpeningAll(kids)
    case TableSource(source, _) => Opening(source)
    case TableName(_, _) => None
  }

  ghost function OpeningAll(ns: seq<Node>): (first: Option<Kind>)
    ensures first.Some? ==> first.value.Select?
    decreases ns
  {
    if ns == [] then None else if Opening(ns[0]).Some? then Opening(ns[0]) else OpeningAll(ns[1..])
  }

  lemma {:induction false} OpeningIsFirst(n: Node)
    ensures FirstSelect(Visited(n)) == Opening(n)
    decreases n, 0
  {
    GatherOne(NOTHING, n);
    match n
    case Inner(kind, kids) =>
      FirstSelectConcat([n], VisitedAll(kids));
      OpeningIsFirstAll(kids);
    case TableSource(source, _) =>
      OpeningIsFirst(source);
      FirstSelectConcat([n], Visited(source));
      assert [n] + [] == [n];
    case TableName(_, _) =>
  }

  lemma {:induction false} OpeningIsFirstAll(ns: seq<Node>)
    ensures FirstSelect(VisitedAll(ns)) == OpeningAll(ns)
    decreases ns
  {
    if ns != [] {
      OpeningIsFirst(ns[0]);
      OpeningIsFirstAll(ns[1..]);
      FirstSelectConcat(Visited(ns[0]), VisitedAll(ns[1..]));
    }
  }

  /** With a WITH clause in front, which is visited first, they are its own exactly when the SELECT that opens that clause,
      if there is one, looks like the statement in all four. */
  lemma WithRootExactlyWhen(kind: Kind, with: Node, branches: seq<Node>)
    requires kind.SetOperation? && with.Inner? && with.kind.With? && AllWithFree(branches) && LeadingAll(branches).Some?
    ensures var f, lead := Gather(NOTHING, Visited(Inner(kind, [with] + branches))), LeadingAll(branches).value;
            var seen := if Opening(with).Some? then Opening(with).value else lead;
            RootsOwn(f, kind, lead) <==>
              seen.limit == kind.limit && Orders(seen) == Orders(kind) && Columns(seen) == Columns(lead) && HasWildcard(seen) == HasWildcard(lead)
  {
    var kids := [with] + branches;
    var n := Inner(kind, kids);
    GatherOne(NOTHING, n);
    assert kids[1..] == branches;
    FirstSelectConcat([n], VisitedAll(kids));
    FirstSelectConcat(Visited(with), VisitedAll(branches));
    OpeningIsFirst(with);
    LeadingIsFirstAll(branches);
  }

  function Bare(column: string): Node {
    Inner(Select(NoLockClause, false, false, None, Some([Field("", Some(column))])), [])
  }

  /** WITH c AS (SELECT a ...) SELECT b ... UNION SELECT b ...: the column reported is a. */
  lemma CteNamesTheColumns()
    ensures var with := Inner(With(["c"]), [Bare("a")]);
            var union := Inner(SetOperation(false, None), [with, Bare("b"), Bare("b")]);
            Gather(NOTHING, Visited(union)).outputCols == ["a"] && LeadingAll([Bare("b"), Bare("b")]) == Some(Bare("b").kind)
  {
    var with := Inner(With(["c"]), [Bare("a")]);
    var kids := [with, Bare("b"), Bare("b")];
    var union := Inner(SetOperation(false, None), kids);
    GatherOne(NOTHING, union);
    GatherOne(NOTHING, with);
    assert VisitedAll([Bare("a")]) == Visited(Bare("a")) + VisitedAll([]);
    FirstSelectConcat([with], VisitedAll([Bare("a")]));
    FirstSelectConcat([union], VisitedAll(kids));
    FirstSelectConcat(Visited(with), VisitedAll(kids[1..]));
    assert Columns(Bare("a").kind) == ["a"];
  }

  /** So an ORDER BY over a whole UNION is never seen: the facts are the same with it and without. */
  lemma UnionOrderIsUnseen(limit: bool, orderBy: Option<nat>, other: bool, otherOrder: Option<nat>, kids: seq<Node>)
    ensures Gather(NOTHING, Visited(Inner(SetOperation(limit, orderBy), kids))) ==
            Gather(NOTHING, Visited(Inner(SetOperation(other, otherOrder), kids)))
  {
    var a, b := Inner(SetOperation(limit, orderBy), kids), Inner(SetOperation(other, otherOrder), kids);
    GatherOne(NOTHING, a);
    GatherOne(NOTHING, b);
    RefsConcat([a], VisitedAll(kids));
    RefsConcat([b], VisitedAll(kids));
    CtesConcat([a], VisitedAll(kids));
    CtesConcat([b], VisitedAll(kids));
    FirstSelectConcat([a], VisitedAll(kids));
    FirstSelectConcat([b], VisitedAll(kids));
  }

  // ------------------------------------------------------------ the two visitors together

  datatype ParseError = NotSelect | NotReadOnly(refusal: Refusal)

  /** The identifiers of the tree hold no NUL, which MySQL allows in none. */
  ghost predicate Clean(n: Node) {
    AllNulFree(Refs(Visited(n)))
  }

  /** From the tree to the statement's facts. */
  method Extract(root: Node) returns (r: Result<Facts, ParseError>)
    ensures r.Ok? <==> root.Inner? && (root.kind.Select? || root.kind.SetOperation?) && ReadOnly(root)
    ensures r.Ok? ==>
              var f := Gather(NOTHING, Visited(root));
              r.value.(tables := []) == f.(tables := []) && (Clean(root) ==> r.value.tables == Reported(f.tables, f.cteNames))
    ensures r.Err? && r.error.NotReadOnly? ==> Some(r.error.refusal) == FirstOffence(Preorder(root))
  {
    if !root.Inner? || !(root.kind.Select? || root.kind.SetOperation?) {
      return Err(NotSelect);
    }
    var guard := new Guard();
    var ok := guard.Accept(root);
    GuardIsExact(root);
    if guard.err.Some? {
      return Err(NotReadOnly(guard.err.value));
    }
    var c := new Collector();
    c.Accept(root);
    var tables := FilterCtes(c.tables, c.cteNames);
    return Ok(c.Current().(tables := tables));
  }
}
