/** Finding the comparisons of a parse tree that involve a column. */
module Comparisons {
  import opened Common
  import opened Text
  import opened IndexAdvice

  /** What an operator expression of the parser is: a comparison, or another construct spelled with a comparison's name. */
  datatype Kind = Operator | IsDistinct | IsNotDistinct | NullIf | InList | AnyOf | AllOf

  /** The parts of a libpg_query tree the extraction looks at; everything else is a node with children. */
  datatype Node =
    | ColumnRef(parts: seq<string>)
    | FuncCall(name: string, args: seq<Node>)
    | TypeCast(arg: Node, typeName: string)
    | Const(text: string)
    | Comparison(kind: Kind, op: string, l: Node, r: Node)
    | Other(children: seq<Node>)

  /** A column with the outermost function and the outermost cast that were in the way. */
  datatype Side = Side(table: string, column: string, wrapper: string, castTo: string)

  function ColumnSide(parts: seq<string>): Side {
    if |parts| == 0 then Side("", "", "", "")
    else if |parts| == 1 then Side("", parts[0], "", "")
    else Side(parts[|parts| - 2], parts[|parts| - 1], "", "")
  }

  /** One side of a comparison, unwrapped down to a column. */
  function AnalyseSide(n: Node): Option<Side>
    decreases n, 0
  {
    match n
    case ColumnRef(parts) => Some(ColumnSide(parts))
    case FuncCall(name, args) =>
      (match AnalyseArgs(args)
       case Some(s) => Some(s.(wrapper := name))
       case None => None)
    case TypeCast(arg, typeName) =>
      (match AnalyseSide(arg)
       case Some(s) => Some(s.(castTo := typeName))
       case None => None)
    case _ => None
  }

  /** The first argument that leads to a column. */
  function AnalyseArgs(args: seq<Node>): Option<Side>
    decreases args, 1
  {
    if args == [] then None
    else match AnalyseSide(args[0]) case Some(s) => Some(s) case None => AnalyseArgs(args[1..])
  }

  /** The columns under calls and casts alone, from left to right. */
  function ColumnsUnder(n: Node): seq<seq<string>>
    decreases n, 0
  {
    match n
    case ColumnRef(parts) => [parts]
    case FuncCall(_, args) => AllColumnsUnder(args)
    case TypeCast(arg, _) => ColumnsUnder(arg)
    case _ => []
  }

  function AllColumnsUnder(ns: seq<Node>): seq<seq<string>>
    decreases ns, 1
  {
    if ns == [] then [] else ColumnsUnder(ns[0]) + AllColumnsUnder(ns[1..])
  }

  /** The name of a column is the last part of what is written, and its table's the one before. */
  lemma ColumnByParts(front: seq<string>, table: string, column: string)
    ensures ColumnSide(front + [table, column]) == Side(table, column, "", "")
    ensures ColumnSide([column]) == Side("", column, "", "") && ColumnSide([]).column == ""
  {
  }

  /** A side is unwrapped exactly when a column is under its calls and casts, and then to the first of these. */
  lemma {:induction false} UnwrappedExactlyWhen(n: Node)
    ensures AnalyseSide(n).Some? <==> ColumnsUnder(n) != []
    ensures AnalyseSide(n).Some? ==>
              var s, c := AnalyseSide(n).value, ColumnSide(ColumnsUnder(n)[0]); s.table == c.table && s.column == c.column
    decreases n, 0
  {
    match n
    case FuncCall(_, args) => ArgsUnwrapped(args);
    case TypeCast(arg, _) => UnwrappedExactlyWhen(arg);
    case _ =>
  }

  lemma {:induction false} ArgsUnwrapped(args: seq<Node>)
    ensures AnalyseArgs(args).Some? <==> AllColumnsUnder(args) != []
    ensures AnalyseArgs(args).Some? ==>
              var s, c := AnalyseArgs(args).value, ColumnSide(AllColumnsUnder(args)[0]); s.table == c.table && s.column == c.column
    decreases args, 1
  {
    if args != [] {
      UnwrappedExactlyWhen(args[0]);
      ArgsUnwrapped(args[1..]);
    }
  }

  /** What is told of the wrapping: the outermost call and the outermost cast around the column. */
  lemma WrappersAreOutermost(name: string, args: seq<Node>, arg: Node, typeName: string, k: nat)
    requires k < |args| && AnalyseSide(args[k]).Some? && forall i :: 0 <= i < k ==> AnalyseSide(args[i]).None?
    ensures AnalyseSide(FuncCall(name, args)) == Some(AnalyseSide(args[k]).value.(wrapper := name))
    ensures AnalyseSide(arg).Some? ==> AnalyseSide(TypeCast(arg, typeName)) == Some(AnalyseSide(arg).value.(castTo := typeName))
    decreases k
  {
    FirstArgument(args, k);
  }

  lemma {:induction false} FirstArgument(args: seq<Node>, k: nat)
    requires k < |args| && AnalyseSide(args[k]).Some? && forall i :: 0 <= i < k ==> AnalyseSide(args[i]).None?
    ensures AnalyseArgs(args) == AnalyseSide(args[k])
  {
    if k > 0 {
      FirstArgument(args[1..], k - 1);
    }
  }

  /** The node is the other one, under any casts. */
  predicate IsCastOf(n: Node, m: Node) {
    n == m || (n.TypeCast? && IsCastOf(n.arg, m))
  }

  /** A constant is read through any casts, and nothing else is read. */
  lemma {:induction false} ConstantsAreRead(n: Node, text: string)
    requires text != ""
    ensures ConstText(n) == text <==> IsCastOf(n, Const(text))
  {
    if n.TypeCast? {
      ConstantsAreRead(n.arg, text);
    }
  }

  function ConstText(n: Node): string {
    match n
    case Const(text) => text
    case TypeCast(arg, _) => ConstText(arg)
    case _ => ""
  }

  const OPERATORS: seq<string> := ["=", "<", "<=", ">", ">=", "<>", "!="]

  function FlipOperator(op: string): string {
    if op == "<" then ">" else if op == "<=" then ">=" else if op == ">" then "<" else if op == ">=" then "<=" else op
  }

  /** What an operator says of two values of an ordered type. */
  predicate Compares(op: string, a: int, b: int) {
    if op == "=" then a == b else if op == "<" then a < b else if op == "<=" then a <= b
    else if op == ">" then a > b else if op == ">=" then a >= b else a != b
  }

  /** Writing the column first keeps the meaning of the comparison, and flipping twice restores it. */
  lemma FlipKeepsMeaning(op: string, a: int, b: int)
    requires op in OPERATORS
    ensures FlipOperator(op) in OPERATORS && FlipOperator(FlipOperator(op)) == op
    ensures Compares(op, a, b) <==> Compares(FlipOperator(op), b, a)
  {
  }

  // ------------------------------------------------------------ the walk

  /** Every node of the tree, each before what is below it. */
  function Preorder(n: Node): seq<Node>
    decreases n, 0
  {
    [n] + match n
          case FuncCall(_, args) => PreorderAll(args)
          case TypeCast(arg, _) => Preorder(arg)
          case Comparison(_, _, l, r) => Preorder(l) + Preorder(r)
          case Other(children) => PreorderAll(children)
          case _ => []
  }

  function PreorderAll(ns: seq<Node>): seq<Node>
    decreases ns, 1
  {
    if ns == [] then [] else Preorder(ns[0]) + PreorderAll(ns[1..])
  }

  /** What stands directly below a node, from left to right. */
  function Below(n: Node): seq<Node> {
    match n
    case FuncCall(_, args) => args
    case TypeCast(arg, _) => [arg]
    case Comparison(_, _, l, r) => [l, r]
    case Other(children) => children
    case _ => []
  }

  /** The node `m` stands somewhere in the tree `n`: it is the tree, or in what is below it. */
  ghost predicate Within(m: Node, n: Node)
    decreases n
  {
    m == n || exists i :: 0 <= i < |Below(n)| && Within(m, Below(n)[i])
  }

  lemma BelowIsAll(n: Node)
    ensures Preorder(n) == [n] + PreorderAll(Below(n))
  {
    match n
    case TypeCast(arg, _) => OneBelow(arg);
    case Comparison(_, _, l, r) =>
      OneBelow(r);
      assert [l, r][1..] == [r];
      assert PreorderAll([l, r]) == Preorder(l) + PreorderAll([r]);
    case _ =>
  }

  lemma OneBelow(n: Node)
    ensures PreorderAll([n]) == Preorder(n)
  {
    assert PreorderAll([n]) == Preorder(n) + PreorderAll([]);
  }

  /** The walk comes to every node at whatever depth, and to no other. */
  lemma {:induction false} WalkIsWithin(m: Node, n: Node)
    ensures m in Preorder(n) <==> Within(m, n)
    decreases n, 0
  {
    BelowIsAll(n);
    WalkAllIsWithin(m, n, Below(n));
  }

  lemma {:induction false} WalkAllIsWithin(m: Node, n: Node, ns: seq<Node>)
    requires forall i :: 0 <= i < |ns| ==> ns[i] < n
    ensures m in PreorderAll(ns) <==> exists i :: 0 <= i < |ns| && Within(m, ns[i])
    decreases n, 0, |ns|
  {
    if ns != [] {
      WalkIsWithin(m, ns[0]);
      WalkAllIsWithin(m, n, ns[1..]);
      if m in PreorderAll(ns[1..]) {
        var i :| 0 <= i < |ns[1..]| && Within(m, ns[1..][i]);
        assert Within(m, ns[i + 1]);
      }
      if i :| 0 <= i < |ns| && Within(m, ns[i]) {
        assert i > 0 ==> Within(m, ns[1..][i - 1]);
      }
    }
  }

  /** How many nodes a tree has. */
  function Size(n: Node): nat
    decreases n, 0
  {
    match n
    case FuncCall(_, args) => 1 + SizeAll(args)
    case TypeCast(arg, _) => 1 + Size(arg)
    case Comparison(_, _, l, r) => 1 + Size(l) + Size(r)
    case Other(children) => 1 + SizeAll(children)
    case _ => 1
  }

  function SizeAll(ns: seq<Node>): nat
    decreases ns, 1
  {
    if ns == [] then 0 else Size(ns[0]) + SizeAll(ns[1..])
  }

  lemma {:induction false} WalkLength(n: Node)
    ensures |Preorder(n)| == Size(n)
    decreases n, 0
  {
    match n
    case FuncCall(_, args) => WalkAllLength(args);
    case TypeCast(arg, _) => WalkLength(arg);
    case Comparison(_, _, l, r) =>
      WalkLength(l);
      WalkLength(r);
    case Other(children) => WalkAllLength(children);
    case _ =>
  }

  lemma {:induction false} WalkAllLength(ns: seq<Node>)
    ensures |PreorderAll(ns)| == SizeAll(ns)
    decreases ns, 1
  {
    if ns != [] {
      WalkLength(ns[0]);
      WalkAllLength(ns[1..]);
    }
  }

  /** The walk comes to a node before what is below it, and to what is below it from left to right, each once. */
  lemma WalkIsInOrder(n: Node, k: nat)
    requires k < |Below(n)|
    ensures Preorder(n)[0] == n && |Preorder(n)| == Size(n)
    ensures var at, c := 1 + SizeAll(Below(n)[..k]), Below(n)[k];
            at + Size(c) <= |Preorder(n)| && Preorder(n)[at..at + Size(c)] == Preorder(c)
  {
    BelowIsAll(n);
    WalkLength(n);
    BlockInAll(Below(n), k);
    var at, c := SizeAll(Below(n)[..k]), Below(n)[k];
    SliceBehind([n], PreorderAll(Below(n)), at, at + Size(c));
  }

  lemma SliceBehind(a: seq<Node>, b: seq<Node>, i: nat, j: nat)
    requires i <= j <= |b|
    ensures (a + b)[|a| + i..|a| + j] == b[i..j]
  {
  }

  lemma {:induction false} BlockInAll(ns: seq<Node>, k: nat)
    requires k < |ns|
    ensures var at := SizeAll(ns[..k]);
            at + Size(ns[k]) <= |PreorderAll(ns)| && PreorderAll(ns)[at..at + Size(ns[k])] == Preorder(ns[k])
  {
    WalkLength(ns[0]);
    var first, rest := Preorder(ns[0]), PreorderAll(ns[1..]);
    if k == 0 {
      assert (first + rest)[..|first|] == first;
    } else {
      BlockInAll(ns[1..], k - 1);
      SizeOfFront(ns, k);
      var at := SizeAll(ns[1..][..k - 1]);
      SliceBehind(first, rest, at, at + Size(ns[k]));
    }
  }

  lemma SizeOfFront(ns: seq<Node>, k: nat)
    requires 0 < k <= |ns|
    ensures SizeAll(ns[..k]) == Size(ns[0]) + SizeAll(ns[1..][..k - 1])
  {
    assert ns[..k][1..] == ns[1..][..k - 1];
  }

  /** The predicates one node gives rise to: the column always comes first. */
  function Proposals(n: Node): seq<Predicate> {
    if !n.Comparison? || n.op !in OPERATORS then []
    else
      match (AnalyseSide(n.l), AnalyseSide(n.r))
      case (Some(l), Some(r)) =>
        [Predicate(l.table, "", l.column, n.op, l.wrapper, l.castTo, "", true, r.table, r.column),
         Predicate(r.table, "", r.column, n.op, r.wrapper, r.castTo, "", true, l.table, l.column)]
      case (Some(l), None) => [Predicate(l.table, "", l.column, n.op, l.wrapper, l.castTo, ConstText(n.r), false, "", "")]
      case (None, Some(r)) =>
        [Predicate(r.table, "", r.column, FlipOperator(n.op), r.wrapper, r.castTo, ConstText(n.l), false, "", "")]
      case (None, None) => []
  }

  function AllProposals(nodes: seq<Node>): seq<Predicate> {
    if nodes == [] then [] else AllProposals(nodes[..|nodes| - 1]) + Proposals(nodes[|nodes| - 1])
  }

  function PredicateKey(p: Predicate): string {
    Lower(p.table + "|" + p.column + "|" + p.operator + "|" + p.wrappedBy + "|" + p.literalText)
  }

  /** The parts of the key in front of the literal are without the bar that separates them. */
  predicate BarFree(p: Predicate) {
    '|' !in p.table && '|' !in p.column && '|' !in p.operator && '|' !in p.wrappedBy
  }

  lemma KeyParts(p: Predicate)
    ensures PredicateKey(p) ==
            Lower(p.table) + ['|'] + (Lower(p.column) + ['|'] + (Lower(p.operator) + ['|'] + (Lower(p.wrappedBy) + ['|'] + Lower(p.literalText))))
  {
    assert Lower("|") == ['|'];
    LowerOfConcat(p.table + "|" + p.column + "|" + p.operator + "|" + p.wrappedBy + "|", p.literalText);
    LowerOfConcat(p.table + "|" + p.column + "|" + p.operator + "|" + p.wrappedBy, "|");
    LowerOfConcat(p.table + "|" + p.column + "|" + p.operator + "|", p.wrappedBy);
    LowerOfConcat(p.table + "|" + p.column + "|" + p.operator, "|");
    LowerOfConcat(p.table + "|" + p.column + "|", p.operator);
    LowerOfConcat(p.table + "|" + p.column, "|");
    LowerOfConcat(p.table + "|", p.column);
    LowerOfConcat(p.table, "|");
  }

  lemma BarOfLower(s: string)
    requires '|' !in s
    ensures '|' !in Lower(s)
  {
    forall i | 0 <= i < |s|
      ensures Lower(s)[i] != '|'
    {
      assert s[i] in s;
    }
  }

  /** Two predicates share a key exactly when they are of one column, operator, wrapper and literal, up to letter case. */
  lemma KeysMeetExactlyWhen(p: Predicate, q: Predicate)
    requires BarFree(p) && BarFree(q)
    ensures PredicateKey(p) == PredicateKey(q) <==>
              && EqualFold(p.table, q.table) && EqualFold(p.column, q.column) && EqualFold(p.operator, q.operator)
              && EqualFold(p.wrappedBy, q.wrappedBy) && EqualFold(p.literalText, q.literalText)
  {
    KeyParts(p);
    KeyParts(q);
    BarOfLower(p.table);
    BarOfLower(p.column);
    BarOfLower(p.operator);
    BarOfLower(p.wrappedBy);
    BarOfLower(q.table);
    BarOfLower(q.column);
    BarOfLower(q.operator);
    BarOfLower(q.wrappedBy);
    if PredicateKey(p) == PredicateKey(q) {
      FourBars(Lower(p.table), Lower(p.column), Lower(p.operator), Lower(p.wrappedBy), Lower(p.literalText),
               Lower(q.table), Lower(q.column), Lower(q.operator), Lower(q.wrappedBy), Lower(q.literalText));
    }
  }

  lemma FourBars(a: string, b: string, c: string, d: string, e: string, a': string, b': string, c': string, d': string, e': string)
    requires '|' !in a && '|' !in b && '|' !in c && '|' !in d && '|' !in a' && '|' !in b' && '|' !in c' && '|' !in d'
    requires a + ['|'] + (b + ['|'] + (c + ['|'] + (d + ['|'] + e))) == a' + ['|'] + (b' + ['|'] + (c' + ['|'] + (d' + ['|'] + e')))
    ensures a == a' && b == b' && c == c' && d == d' && e == e'
  {
    SplitAtSeparator(a, b + ['|'] + (c + ['|'] + (d + ['|'] + e)), a', b' + ['|'] + (c' + ['|'] + (d' + ['|'] + e')), '|');
    SplitAtSeparator(b, c + ['|'] + (d + ['|'] + e), b', c' + ['|'] + (d' + ['|'] + e'), '|');
    SplitAtSeparator(c, d + ['|'] + e, c', d' + ['|'] + e', '|');
    SplitAtSeparator(d, e, d', e', '|');
  }

  ghost predicate HasKey(ps: seq<Predicate>, key: string) {
    exists k :: 0 <= k < |ps| && PredicateKey(ps[k]) == key
  }

  /** Predicates with a column, the first of each key. */
  ghost function Distinct(ps: seq<Predicate>): seq<Predicate> {
    if ps == [] then []
    else
      var before := Distinct(ps[..|ps| - 1]);
      var p := ps[|ps| - 1];
      if p.column == "" || HasKey(before, PredicateKey(p)) then before else before + [p]
  }

  /** The `seen` set holds exactly the keys of what has been appended. */
  ghost predicate Seen(seen: set<string>, out: seq<Predicate>) {
    forall key :: key in seen <==> HasKey(out, key)
  }

  method AddPredicate(out: seq<Predicate>, seen: set<string>, p: Predicate, ghost all: seq<Predicate>)
    returns (out': seq<Predicate>, seen': set<string>)
    requires Seen(seen, out) && out == Distinct(all)
    ensures Seen(seen', out') && out' == Distinct(all + [p])
  {
    assert (all + [p])[..|all|] == all;
    if p.column == "" || PredicateKey(p) in seen {
      return out, seen;
    }
    seen' := seen + {PredicateKey(p)};
    out' := out + [p];
    assert out'[|out|] == p;
    assert forall k :: 0 <= k < |out| ==> out'[k] == out[k];
  }

  /** What the walk does at one node. */
  method Visit(out: seq<Predicate>, seen: set<string>, n: Node, ghost all: seq<Predicate>)
    returns (out': seq<Predicate>, seen': set<string>)
    requires Seen(seen, out) && out == Distinct(all)
    ensures Seen(seen', out') && out' == Distinct(all + Proposals(n))
  {
    out', seen' := out, seen;
    var ps := Proposals(n);
    assert all + [] == all;
    if |ps| >= 1 {
      out', seen' := AddPredicate(out', seen', ps[0], all);
    }
    if |ps| >= 2 {
      out', seen' := AddPredicate(out', seen', ps[1], all + [ps[0]]);
      assert all + [ps[0]] + [ps[1]] == all + ps;
    } else if |ps| == 1 {
      assert ps == [ps[0]];
    }
  }

  /** The predicate is proposed for a comparison somewhere in the tree. */
  ghost predicate Proposed(p: Predicate, root: Node) {
    exists n :: Within(n, root) && n.Comparison? && p in Proposals(n)
  }

  method ExtractPredicates(root: Node) returns (out: seq<Predicate>)
    ensures out == Distinct(AllProposals(Preorder(root)))
    ensures forall p :: Proposed(p, root) && p.column != "" ==> HasKey(out, PredicateKey(p))
    ensures forall p :: p in out ==> Proposed(p, root)
  {
    out := [];
    var seen: set<string> := {};
    var nodes := Preorder(root);
    for i := 0 to |nodes|
      invariant out == Distinct(AllProposals(nodes[..i])) && Seen(seen, out)
    {
      assert nodes[..i + 1][..i] == nodes[..i];
      out, seen := Visit(out, seen, nodes[i], AllProposals(nodes[..i]));
    }
    assert nodes[..|nodes|] == nodes;
    KeptIsExact(root, out);
  }

  lemma KeptIsExact(root: Node, out: seq<Predicate>)
    requires out == Distinct(AllProposals(Preorder(root)))
    ensures forall p :: Proposed(p, root) && p.column != "" ==> HasKey(out, PredicateKey(p))
    ensures forall p :: p in out ==> Proposed(p, root)
  {
    forall p | Proposed(p, root) && p.column != ""
      ensures HasKey(out, PredicateKey(p))
    {
      var n :| Within(n, root) && n.Comparison? && p in Proposals(n);
      EveryComparisonIsFound(root, n, p);
    }
    forall p | p in out
      ensures Proposed(p, root)
    {
      var i :| 0 <= i < |out| && out[i] == p;
      NothingElseIsKept(root, i);
    }
  }

  /** No key twice, and every proposal with a column is there under its key. */
  lemma {:induction false} DistinctIsExact(ps: seq<Predicate>)
    ensures forall i, j :: 0 <= i < j < |Distinct(ps)| ==> PredicateKey(Distinct(ps)[i]) != PredicateKey(Distinct(ps)[j])
    ensures forall i :: 0 <= i < |Distinct(ps)| ==> Distinct(ps)[i] in ps && Distinct(ps)[i].column != ""
    ensures forall p :: p in ps && p.column != "" ==> HasKey(Distinct(ps), PredicateKey(p))
  {
    if ps != [] {
      DistinctIsExact(ps[..|ps| - 1]);
      var before := Distinct(ps[..|ps| - 1]);
      var p := ps[|ps| - 1];
      assert ps == ps[..|ps| - 1] + [p];
      if Distinct(ps) != before {
        assert Distinct(ps)[|before|] == p;
      }
      assert forall k :: 0 <= k < |before| ==> Distinct(ps)[k] == before[k];
    }
  }

  lemma {:induction false} ProposalsOfNode(nodes: seq<Node>, i: nat)
    requires i < |nodes|
    ensures forall p :: p in Proposals(nodes[i]) ==> p in AllProposals(nodes)
  {
    if i < |nodes| - 1 {
      ProposalsOfNode(nodes[..|nodes| - 1], i);
    }
  }

  // ------------------------------------------------------------ what a kept predicate says

  /** `NoTruth` is what yields no truth value at all. */
  datatype Verdict = Yes | No | Unknown | NoTruth

  /** A value, or the values of a list or an array. NULL is None. */
  datatype Operand = One(v: Option<int>) | Many(vs: seq<Option<int>>)

  function FromBool(b: bool): Verdict {
    if b then Yes else No
  }

  /** A comparison of two values, as a kept predicate is meant. */
  function Said(op: string, a: Option<int>, b: Option<int>): Verdict {
    if a.None? || b.None? then Unknown else FromBool(Compares(op, a.value, b.value))
  }

  /** The comparison holds for one of the values. */
  function SaidOfSome(op: string, a: Option<int>, bs: seq<Option<int>>): Verdict {
    if exists i :: 0 <= i < |bs| && Said(op, a, bs[i]) == Yes then Yes
    else if exists i :: 0 <= i < |bs| && Said(op, a, bs[i]) == Unknown then Unknown
    else No
  }

  function SaidOfAll(op: string, a: Option<int>, bs: seq<Option<int>>): Verdict {
    if exists i :: 0 <= i < |bs| && Said(op, a, bs[i]) == No then No
    else if exists i :: 0 <= i < |bs| && Said(op, a, bs[i]) == Unknown then Unknown
    else Yes
  }

  /** What the construct says. IN and NOT IN go by the names = and <>. */
  function Says(kind: Kind, op: string, a: Option<int>, r: Operand): Verdict {
    match (kind, r)
    case (Operator, One(b)) => Said(op, a, b)
    case (IsDistinct, One(b)) => FromBool(a != b)
    case (IsNotDistinct, One(b)) => FromBool(a == b)
    case (InList, Many(bs)) => if op == "=" then SaidOfSome("=", a, bs) else SaidOfAll("<>", a, bs)
    case (AnyOf, Many(bs)) => SaidOfSome(op, a, bs)
    case (AllOf, Many(bs)) => SaidOfAll(op, a, bs)
    case _ => NoTruth
  }

  /** NOT IN is the negation of IN, and holds of no value where a NULL is in the list. */
  lemma NotInNegatesIn(a: Option<int>, bs: seq<Option<int>>)
    ensures SaidOfAll("<>", a, bs) == match SaidOfSome("=", a, bs) case Yes => No case No => Yes case _ => Unknown
    ensures SaidOfSome("=", a, bs) == Yes <==> a.Some? && a in bs
    ensures SaidOfSome("=", a, bs) == No <==> bs == [] || (a.Some? && a !in bs && None !in bs)
  {
    assert forall i :: 0 <= i < |bs| ==> (Said("<>", a, bs[i]) == No <==> Said("=", a, bs[i]) == Yes);
    assert forall i :: 0 <= i < |bs| ==> (Said("=", a, bs[i]) == Yes <==> a.Some? && bs[i] == a);
    assert forall i :: 0 <= i < |bs| ==> (Said("=", a, bs[i]) == Unknown <==> a.None? || bs[i].None?);
    if bs != [] && a.None? {
      assert Said("=", a, bs[0]) == Unknown;
    }
  }

  predicate Shaped(kind: Kind, r: Operand) {
    r.Many? <==> kind.InList? || kind.AnyOf? || kind.AllOf?
  }

  /** With the column on the left: some literal, the operand itself if it is a single value, makes the kept predicate say
      the same of every value of the column. */
  ghost predicate SameOnLeft(kind: Kind, op: string, kept: string, r: Operand) {
    exists b :: (r.One? ==> b == r.v) && SameFor(kind, op, kept, r, b)
  }

  ghost predicate SameFor(kind: Kind, op: string, kept: string, r: Operand, b: Option<int>) {
    forall a :: Says(kind, op, a, r) == Said(kept, a, b)
  }

  /** With the column on the right, where an array column is no single value to compare. */
  predicate SameOnRight(kind: Kind, op: string, kept: string, a: Option<int>, r: Operand) {
    Says(kind, op, a, r) == if r.One? then Said(kept, r.v, a) else NoTruth
  }

  lemma FlippedSays(op: string, a: Option<int>, b: Option<int>)
    requires op in OPERATORS
    ensures Said(op, a, b) == Said(FlipOperator(op), b, a)
  {
    if a.Some? && b.Some? {
      FlipKeepsMeaning(op, a.value, b.value);
    }
  }

  /** A construct of another kind is told from the kept predicate by an operand. */
  lemma OtherKindDiffers(kind: Kind, op: string, kept: string)
    requires kind != Operator && op in OPERATORS && (kind.InList? ==> op == "=" || op == "<>") && kept == op
    ensures exists r :: Shaped(kind, r) && !SameOnLeft(kind, op, kept, r)
  {
    if kind.AnyOf? || kind.AllOf? {
      var r := Many([]);
      forall b
        ensures !SameFor(kind, op, kept, r, b)
      {
        assert Says(kind, op, None, r) != Said(kept, None, b);
      }
      assert Shaped(kind, r) && !SameOnLeft(kind, op, kept, r);
    } else if kind.InList? {
      InListDiffers(op);
    } else {
      var r := One(None);
      assert Says(kind, op, None, r) != Said(kept, None, None);
      assert !SameFor(kind, op, kept, r, None);
      assert Shaped(kind, r) && !SameOnLeft(kind, op, kept, r);
    }
  }

  lemma InListDiffers(op: string)
    requires op == "=" || op == "<>"
    ensures Shaped(InList, Many([Some(0), Some(1)])) && !SameOnLeft(InList, op, op, Many([Some(0), Some(1)]))
  {
    var bs := [Some(0), Some(1)];
    assert bs[0] == Some(0) && bs[1] == Some(1);
    forall b
      ensures !SameFor(InList, op, op, Many(bs), b)
    {
      if b == Some(0) {
        assert Said("=", Some(1), bs[1]) == Yes && Said("<>", Some(1), bs[1]) == No;
        assert Says(InList, op, Some(1), Many(bs)) != Said(op, Some(1), b);
      } else {
        assert Said("=", Some(0), bs[0]) == Yes && Said("<>", Some(0), bs[0]) == No;
        assert Says(InList, op, Some(0), Many(bs)) != Said(op, Some(0), b);
      }
    }
  }

  lemma OperatorOnLeft(op: string, kept: string)
    requires kept == op
    ensures forall r :: Shaped(Operator, r) ==> SameOnLeft(Operator, op, kept, r)
  {
    forall r | Shaped(Operator, r)
      ensures SameOnLeft(Operator, op, kept, r)
    {
      assert SameFor(Operator, op, kept, r, r.v);
    }
  }

  lemma OtherKindDiffersOnRight(kind: Kind, op: string, kept: string)
    requires kind != Operator
    ensures exists a, r :: Shaped(kind, r) && !SameOnRight(kind, op, kept, a, r)
  {
    if kind.InList? || kind.AnyOf? || kind.AllOf? {
      assert Shaped(kind, Many([])) && !SameOnRight(kind, op, kept, None, Many([]));
    } else {
      assert Shaped(kind, One(None)) && !SameOnRight(kind, op, kept, None, One(None));
    }
  }

  lemma OperatorOnRight(op: string, kept: string)
    requires op in OPERATORS && kept == FlipOperator(op)
    ensures forall a, r :: Shaped(Operator, r) ==> SameOnRight(Operator, op, kept, a, r)
  {
    forall a, r: Operand | Shaped(Operator, r)
      ensures SameOnRight(Operator, op, kept, a, r)
    {
      FlippedSays(op, a, r.v);
    }
  }

  /** The predicate is about the column of the side, with its wrappers, and not yet resolved. */
  predicate KeptFrom(p: Predicate, s: Side) {
    p.table == s.table && p.column == s.column && p.wrappedBy == s.wrapper && p.castTo == s.castTo && p.qualifier == ""
  }

  /** A comparison with a column on one side only is kept as `column op literal`. It says the same of all values exactly when
      it is a plain operator: the name alone does not tell a comparison from IS DISTINCT FROM, NULLIF, IN, ANY and ALL. */
  lemma ProposalKeepsMeaningExactlyWhen(n: Node)
    requires n.Comparison? && n.op in OPERATORS && (AnalyseSide(n.l).Some? != AnalyseSide(n.r).Some?)
    requires n.kind.InList? ==> n.op == "=" || n.op == "<>"
    ensures |Proposals(n)| == 1 && KeptFrom(Proposals(n)[0], if AnalyseSide(n.l).Some? then AnalyseSide(n.l).value else AnalyseSide(n.r).value)
    ensures Proposals(n)[0].literalText == ConstText(if AnalyseSide(n.l).Some? then n.r else n.l)
    ensures !Proposals(n)[0].isJoin && Proposals(n)[0].otherTable == Proposals(n)[0].otherColumn == ""
    ensures AnalyseSide(n.l).Some? ==>
              ((forall r :: Shaped(n.kind, r) ==> SameOnLeft(n.kind, n.op, Proposals(n)[0].operator, r)) <==> n.kind == Operator)
    ensures AnalyseSide(n.r).Some? ==>
              ((forall a, r :: Shaped(n.kind, r) ==> SameOnRight(n.kind, n.op, Proposals(n)[0].operator, a, r)) <==> n.kind == Operator)
  {
    var kept := Proposals(n)[0].operator;
    if AnalyseSide(n.l).Some? {
      if n.kind == Operator {
        OperatorOnLeft(n.op, kept);
      } else {
        OtherKindDiffers(n.kind, n.op, kept);
      }
    } else {
      if n.kind == Operator {
        OperatorOnRight(n.op, kept);
      } else {
        OtherKindDiffersOnRight(n.kind, n.op, kept);
      }
    }
  }

  /** `a IS DISTINCT FROM 5` is kept as `a = 5`, which says the opposite of every value. */
  lemma DistinctIsKeptAsEqual()
    ensures var n := Comparison(IsDistinct, "=", ColumnRef(["a"]), Const("5"));
            && |Proposals(n)| == 1 && Proposals(n)[0].operator == "=" && Proposals(n)[0].literalText == "5"
            && Says(IsDistinct, "=", Some(5), One(Some(5))) == No && Said("=", Some(5), Some(5)) == Yes
            && Says(IsDistinct, "=", Some(6), One(Some(5))) == Yes && Said("=", Some(6), Some(5)) == No
  {
  }

  /** The operators that say the same with their operands exchanged. */
  predicate Symmetric(op: string) {
    op == "=" || op == "<>" || op == "!="
  }

  /** A comparison of two columns is kept twice, each column first once. The first says the same exactly for a plain
      operator; the second, which keeps the operator as it is, exactly for a plain operator that is symmetric. */
  lemma JoinProposalExactlyWhen(n: Node)
    requires n.Comparison? && n.op in OPERATORS && AnalyseSide(n.l).Some? && AnalyseSide(n.r).Some?
    ensures var l, r, ps := AnalyseSide(n.l).value, AnalyseSide(n.r).value, Proposals(n);
            && |ps| == 2 && ps[0].isJoin && ps[1].isJoin && ps[0].literalText == ps[1].literalText == ""
            && KeptFrom(ps[0], l) && (ps[0].otherTable, ps[0].otherColumn) == (r.table, r.column)
            && KeptFrom(ps[1], r) && (ps[1].otherTable, ps[1].otherColumn) == (l.table, l.column)
    ensures (forall a, r :: Shaped(n.kind, r) ==> FirstSame(n, a, r)) <==> n.kind == Operator
    ensures (forall a, r :: Shaped(n.kind, r) ==> SecondSame(n, a, r)) <==> n.kind == Operator && Symmetric(n.op)
  {
    if n.kind == Operator {
      if !Symmetric(n.op) {
        assert Shaped(n.kind, One(Some(1))) && !SecondSame(n, Some(0), One(Some(1)));
      }
    } else if n.kind.InList? || n.kind.AnyOf? || n.kind.AllOf? {
      assert Shaped(n.kind, Many([])) && !FirstSame(n, None, Many([])) && !SecondSame(n, None, Many([]));
    } else {
      assert Shaped(n.kind, One(None)) && !FirstSame(n, None, One(None)) && !SecondSame(n, None, One(None));
    }
  }

  predicate FirstSame(n: Node, a: Option<int>, r: Operand)
    requires n.Comparison? && |Proposals(n)| == 2
  {
    Says(n.kind, n.op, a, r) == if r.One? then Said(Proposals(n)[0].operator, a, r.v) else NoTruth
  }

  predicate SecondSame(n: Node, a: Option<int>, r: Operand)
    requires n.Comparison? && |Proposals(n)| == 2
  {
    Says(n.kind, n.op, a, r) == if r.One? then Said(Proposals(n)[1].operator, r.v, a) else NoTruth
  }

  /** `a.x < b.y` is also kept as `b.y < a.x`. */
  lemma JoinIsTurnedAround()
    ensures var n := Comparison(Operator, "<", ColumnRef(["a", "x"]), ColumnRef(["b", "y"]));
            && |Proposals(n)| == 2 && Proposals(n)[1].table == "b" && Proposals(n)[1].operator == "<"
            && Compares(n.op, 1, 2) && !Compares(Proposals(n)[1].operator, 2, 1)
  {
  }

  /** Whatever depth a comparison stands at, its columns reach the result under their keys. */
  lemma EveryComparisonIsFound(root: Node, n: Node, p: Predicate)
    requires Within(n, root) && p in Proposals(n) && p.column != ""
    ensures HasKey(Distinct(AllProposals(Preorder(root))), PredicateKey(p))
  {
    WalkIsWithin(n, root);
    var i :| 0 <= i < |Preorder(root)| && Preorder(root)[i] == n;
    ProposalsOfNode(Preorder(root), i);
    DistinctIsExact(AllProposals(Preorder(root)));
  }

  /** And every kept predicate is one of a comparison that stands there. */
  lemma NothingElseIsKept(root: Node, k: nat)
    requires k < |Distinct(AllProposals(Preorder(root)))|
    ensures Proposed(Distinct(AllProposals(Preorder(root)))[k], root)
  {
    DistinctIsExact(AllProposals(Preorder(root)));
    var p := Distinct(AllProposals(Preorder(root)))[k];
    var i := SomeNode(Preorder(root), p);
    WalkIsWithin(Preorder(root)[i], root);
  }

  lemma {:induction false} SomeNode(nodes: seq<Node>, p: Predicate) returns (i: nat)
    requires p in AllProposals(nodes)
    ensures i < |nodes| && p in Proposals(nodes[i])
  {
    i := |nodes| - 1;
    if p !in Proposals(nodes[i]) {
      i := SomeNode(nodes[..i], p);
    }
  }
}
