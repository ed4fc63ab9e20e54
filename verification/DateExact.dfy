/** Where the DATE() rewrite changes the meaning of a condition whose parts are all different. */
module DateExact {
  import opened Common

  import opened DateCondition
  import opened DateRewrite

  // ------------------------------------------------------------ conditions whose parts are all different

  predicate IsAtom(t: Symbol) {
    t.Other? || IsSite(t)
  }

  function Atoms(ts: seq<Symbol>): seq<Symbol> {
    if ts == [] then [] else if IsAtom(ts[0]) then [ts[0]] + Atoms(ts[1..]) else Atoms(ts[1..])
  }

  predicate NoRepeats(s: seq<Symbol>) {
    forall i, j :: 0 <= i < j < |s| ==> s[i] != s[j]
  }

  /** A condition as it is before the rewrite, no part of which occurs twice. */
  predicate ReadOnce(ts: seq<Symbol>) {
    NoRepeats(Atoms(ts)) && AtLeast !in ts && Before !in ts
  }

  function AtomsOf(e: Expr): seq<Symbol> {
    match e
    case Atom(p) => [p.base]
    case Paren(x) => AtomsOf(x)
    case Is(x, _) => AtomsOf(x)
    case Unlike(l, r, _) => AtomsOf(l) + AtomsOf(r)
    case Neg(x) => AtomsOf(x)
    case Conj(l, r) => AtomsOf(l) + AtomsOf(r)
    case Disj(l, r) => AtomsOf(l) + AtomsOf(r)
  }

  predicate ReadOnceTree(e: Expr) {
    NoRepeats(AtomsOf(e)) && forall t :: t in AtomsOf(e) ==> t.Other? || t == DateEq
  }

  predicate Binary(e: Expr) {
    e.Unlike? || e.Conj? || e.Disj?
  }

  lemma Parts(e: Expr)
    requires ReadOnceTree(e) && Binary(e)
    ensures ReadOnceTree(e.l) && ReadOnceTree(e.r)
    ensures forall t :: !(t in AtomsOf(e.l) && t in AtomsOf(e.r))
    ensures forall t :: t in AtomsOf(e) <==> t in AtomsOf(e.l) || t in AtomsOf(e.r)
  {
    var a, b := AtomsOf(e.l), AtomsOf(e.r);
    assert AtomsOf(e) == a + b;
    assert forall i :: 0 <= i < |a| ==> (a + b)[i] == a[i];
    assert forall i :: 0 <= i < |b| ==> (a + b)[|a| + i] == b[i];
  }

  lemma AtomsOfSite(lead: Option<nat>, base: Symbol, ts: seq<Symbol>)
    requires IsSite(base)
    ensures var (e, rest) := SiteAtom(lead, base, ts); [base] + Atoms(ts) == AtomsOf(e) + Atoms(rest)
  {
  }

  lemma {:induction false} AtomsUnit(ts: seq<Symbol>)
    requires ParseUnit(ts).Some?
    ensures var (e, rest) := ParseUnit(ts).value; Atoms(ts) == AtomsOf(e) + Atoms(rest)
    decreases |ts|, 0
  {
    if ts[0] == Open {
      AtomsOr(ts[1..]);
    } else if ts[0].Led? {
      assert Atoms(ts) == Atoms(ts[1..]) && ts[1..][1..] == ts[2..];
      AtomsOfSite(Some(ts[0].id), ts[1], ts[2..]);
    } else if IsSite(ts[0]) {
      AtomsOfSite(None, ts[0], ts[1..]);
    }
  }

  lemma {:induction false} AtomsTests(e: Expr, ts: seq<Symbol>)
    requires ParseTests(e, ts).Some?
    ensures var (f, rest) := ParseTests(e, ts).value; AtomsOf(e) + Atoms(ts) == AtomsOf(f) + Atoms(rest)
    decreases |ts|, 1
  {
    if !StartsTest(ts) {
      NoTestFollows(e, ts);
    } else if ts[0].Tested? {
      AtomsTests(Is(e, ts[0].test), ts[1..]);
    } else {
      ParseDistinct(e, ts);
      AtomsUnit(ts[1..]);
      var (r, rest) := ParseUnit(ts[1..]).value;
      Regroup(AtomsOf(e), AtomsOf(r), Atoms(rest));
    }
  }

  lemma Regroup(a: seq<Symbol>, b: seq<Symbol>, c: seq<Symbol>)
    ensures a + (b + c) == (a + b) + c
  {
  }

  lemma {:induction false} AtomsNot(ts: seq<Symbol>)
    requires ParseNot(ts).Some?
    ensures var (e, rest) := ParseNot(ts).value; Atoms(ts) == AtomsOf(e) + Atoms(rest)
    decreases |ts|, 2
  {
    if ts[0] == Not {
      AtomsNot(ts[1..]);
    } else {
      AtomsUnit(ts);
      var (e, rest) := ParseUnit(ts).value;
      AtomsTests(e, rest);
    }
  }

  lemma {:induction false} AtomsAnd(ts: seq<Symbol>)
    requires ParseAnd(ts).Some?
    ensures var (e, rest) := ParseAnd(ts).value; Atoms(ts) == AtomsOf(e) + Atoms(rest)
    decreases |ts|, 3
  {
    AtomsNot(ts);
    var (l, rest) := ParseNot(ts).value;
    if rest != [] && rest[0] == And {
      AtomsAnd(rest[1..]);
      var (r, last) := ParseAnd(rest[1..]).value;
      assert AtomsOf(l) + (AtomsOf(r) + Atoms(last)) == (AtomsOf(l) + AtomsOf(r)) + Atoms(last);
    }
  }

  lemma {:induction false} AtomsOr(ts: seq<Symbol>)
    requires ParseOr(ts).Some?
    ensures var (e, rest) := ParseOr(ts).value; Atoms(ts) == AtomsOf(e) + Atoms(rest)
    decreases |ts|, 4
  {
    AtomsAnd(ts);
    var (l, rest) := ParseAnd(ts).value;
    if rest != [] && rest[0] == Or {
      AtomsOr(rest[1..]);
      var (r, last) := ParseOr(rest[1..]).value;
      assert AtomsOf(l) + (AtomsOf(r) + Atoms(last)) == (AtomsOf(l) + AtomsOf(r)) + Atoms(last);
    }
  }

  lemma {:induction false} AtomsStand(ts: seq<Symbol>, t: Symbol)
    ensures t in Atoms(ts) <==> t in ts && IsAtom(t)
  {
    if ts != [] {
      AtomsStand(ts[1..], t);
    }
  }

  lemma ReadOnceParses(ts: seq<Symbol>)
    requires Parses(ts) && ReadOnce(ts)
    ensures ReadOnceTree(Tree(ts))
  {
    AtomsOr(ts);
    var e := Tree(ts);
    assert AtomsOf(e) + [] == AtomsOf(e) == Atoms(ts);
    forall t | t in AtomsOf(e)
      ensures t.Other? || t == DateEq
    {
      AtomsStand(ts, t);
    }
  }

  // ------------------------------------------------------------ the values a row gives

  /** What a part of the condition is worth on a row: as it was, and the one or two pieces it is read as afterwards; `last`
      is true where there is one piece. */
  datatype Case = Case(was: Truth, first: Truth, last: Truth) {
    function Becomes(): Truth {
      And3(first, last)
    }

    predicate Kept() {
      was == Becomes()
    }
  }

  /** The part is read as two pieces. */
  predicate Split(e: Expr) {
    match e
    case Atom(p) => p.base == DateEq
    case Is(x, _) => Split(x)
    case Unlike(l, r, _) => Split(l) || Split(r)
    case Neg(x) => Split(x)
    case _ => false
  }

  function Closed(c: Case): Case {
    Case(c.was, c.Becomes(), True)
  }

  function Checked(c: Case, test: BoolTest, split: bool): Case {
    if split then Case(Passed(test, c.was), c.first, Passed(test, c.last))
    else Case(Passed(test, c.was), Passed(test, c.first), c.last)
  }

  function Compares(a: Case, b: Case, negated: bool, split: bool): Case {
    if split then Case(Differ(a.was, b.was, negated), a.first, Differ(a.last, b.first, negated))
    else Case(Differ(a.was, b.was, negated), Differ(a.first, b.first, negated), b.last)
  }

  function Negates(c: Case): Case {
    Case(Not3(c.was), Not3(c.first), c.last)
  }

  function Both(a: Case, b: Case): Case {
    Case(And3(a.was, b.was), And3(a.Becomes(), b.Becomes()), True)
  }

  function Either(a: Case, b: Case): Case {
    Case(Or3(a.was, b.was), Or3(a.Becomes(), b.Becomes()), True)
  }

  function Joined(e: Expr, a: Case, b: Case): Case
    requires Binary(e)
  {
    match e
    case Unlike(l, _, negated) => Compares(a, b, negated, Split(l))
    case Conj(_, _) => Both(a, b)
    case Disj(_, _) => Either(a, b)
  }

  function Eval(e: Expr, w: World): Case {
    match e
    case Atom(p) =>
      if p.base == DateEq then
        Case(OperandValue(p, w), OperandValue(Operand(p.lead, AtLeast, None), w), OperandValue(Operand(None, Before, p.tail), w))
      else Case(OperandValue(p, w), OperandValue(p, w), True)
    case Paren(x) => Closed(Eval(x, w))
    case Is(x, test) => Checked(Eval(x, w), test, Split(x))
    case Neg(x) => Negates(Eval(x, w))
    case _ => Joined(e, Eval(e.l, w), Eval(e.r, w))
  }

  /** The pieces have these values. */
  ghost predicate Shows(ps: seq<Expr>, w: World, c: Case, split: bool) {
    if split then |ps| == 2 && Value(ps[0], w) == c.first && Value(ps[1], w) == c.last
    else |ps| == 1 && Value(ps[0], w) == c.first && c.last == True
  }

  lemma SplicedShows(e: Expr, w: World, c: Case)
    requires Shows(Pieces(e), w, c, Split(e))
    ensures AndAll(Pieces(e), w) == Value(Spliced(e), w) == c.Becomes()
  {
    var ps := Pieces(e);
    ChainValue(ps, None, w);
    if Split(e) {
      assert ps[1..] == [ps[1]];
    }
  }

  lemma {:induction false} SplitHoldsSite(e: Expr)
    requires Split(e)
    ensures DateEq in AtomsOf(e)
  {
    match e
    case Atom(_) =>
    case Is(x, _) => SplitHoldsSite(x);
    case Unlike(l, r, _) => if Split(l) { SplitHoldsSite(l); } else { SplitHoldsSite(r); }
    case Neg(x) => SplitHoldsSite(x);
  }

  /** The values computed along the tree are those of the tree and of the tree it is spliced to. */
  lemma {:induction false} EvalIsValue(e: Expr, w: World)
    requires ReadOnceTree(e)
    ensures Eval(e, w).was == Value(e, w) && Shows(Pieces(e), w, Eval(e, w), Split(e))
    decreases e, 1
  {
    match e
    case Atom(_) =>
    case Paren(x) =>
      EvalIsValue(x, w);
      SplicedShows(x, w, Eval(x, w));
    case Is(x, test) =>
      EvalIsValue(x, w);
      PiecesOfIs(x, test);
    case Neg(x) => EvalIsValue(x, w);
    case _ =>
      Parts(e);
      EvalIsValue(e.l, w);
      EvalIsValue(e.r, w);
      BinaryIsValue(e, w);
  }

  lemma BinaryIsValue(e: Expr, w: World)
    requires ReadOnceTree(e) && Binary(e)
    requires Eval(e.l, w).was == Value(e.l, w) && Shows(Pieces(e.l), w, Eval(e.l, w), Split(e.l))
    requires Eval(e.r, w).was == Value(e.r, w) && Shows(Pieces(e.r), w, Eval(e.r, w), Split(e.r))
    ensures Eval(e, w).was == Value(e, w) && Shows(Pieces(e), w, Eval(e, w), Split(e))
  {
    SplicedShows(e.l, w, Eval(e.l, w));
    SplicedShows(e.r, w, Eval(e.r, w));
    match e
    case Unlike(l, r, _) => UnlikeIsValue(e, w);
    case Conj(l, r) => ChainValue(Pieces(l), Some(Spliced(r)), w);
    case Disj(_, _) =>
  }

  lemma UnlikeIsValue(e: Expr, w: World)
    requires ReadOnceTree(e) && e.Unlike?
    requires Eval(e.l, w).was == Value(e.l, w) && Shows(Pieces(e.l), w, Eval(e.l, w), Split(e.l))
    requires Eval(e.r, w).was == Value(e.r, w) && Shows(Pieces(e.r), w, Eval(e.r, w), Split(e.r))
    ensures Eval(e, w).was == Value(e, w) && Shows(Pieces(e), w, Eval(e, w), Split(e))
  {
    Parts(e);
    if Split(e.l) {
      SplitHoldsSite(e.l);
    }
    if Split(e.r) {
      SplitHoldsSite(e.r);
    }
    PiecesOfUnlike(e.l, e.r, e.negated);
  }

  // ------------------------------------------------------------ the values all rows give

  /** What the column can make of the equality and the two halves. With a time of day in the literal, the range starts late
      and ends late; and a column of days then has no value both on the day and in the range. */
  function ColumnCases(env: Setting): set<Case> {
    {Case(Unknown, Unknown, Unknown), Case(False, False, True), Case(False, True, False)} +
    (if env.literal.timeOfDay == 0 then {} else {Case(True, False, True), Case(False, True, True)}) +
    if env.literal.timeOfDay == 0 || env.column.TimestamptzColumn? || env.column.TimestampColumn? then {Case(True, True, True)}
    else {}
  }

  function AllTruths(): set<Truth> {
    {True, False, Unknown}
  }

  lemma TruthIsOne(t: Truth)
    ensures t in AllTruths()
  {
    match t
    case True =>
    case False =>
    case Unknown =>
  }

  /** Operators whose meaning is not known may come out in any way, independently of each other. */
  function SiteCases(p: Operand, env: Setting): set<Case> {
    set c, o, f, l |
      && c in ColumnCases(env) && o in AllTruths() && f in AllTruths() && l in AllTruths()
      && (p.lead.None? && p.tail.None? ==> o == c.was) && (p.lead.None? ==> f == c.first) && (p.tail.None? ==> l == c.last)
      :: Case(o, f, l)
  }

  function Cases(e: Expr, env: Setting): set<Case> {
    match e
    case Atom(p) =>
      if p.base == DateEq then SiteCases(p, env)
      else {Case(True, True, True), Case(False, False, True), Case(Unknown, Unknown, True)}
    case Paren(x) => set c | c in Cases(x, env) :: Closed(c)
    case Is(x, test) => set c | c in Cases(x, env) :: Checked(c, test, Split(x))
    case Neg(x) => set c | c in Cases(x, env) :: Negates(c)
    case _ => set a, b | a in Cases(e.l, env) && b in Cases(e.r, env) :: Joined(e, a, b)
  }

  /** No site's literal is cast. */
  predicate Uncast(e: Expr) {
    match e
    case Atom(p) => !(p.base == DateEq && p.tail.Some? && p.tail.value.Cast?)
    case Paren(x) => Uncast(x)
    case Is(x, _) => Uncast(x)
    case Unlike(l, r, _) => Uncast(l) && Uncast(r)
    case Neg(x) => Uncast(x)
    case Conj(l, r) => Uncast(l) && Uncast(r)
    case Disj(l, r) => Uncast(l) && Uncast(r)
  }

  lemma ColumnGives(w: World, env: Setting)
    requires IsLiteral(env.literal) && RowOf(w, env)
    ensures Case(BaseValue(DateEq, w), BaseValue(AtLeast, w), BaseValue(Before, w)) in ColumnCases(env)
  {
    if w.column.Some? {
      match w.column.value
      case Instant(us) => Floor(us + w.offset, w.literal.day);
      case LocalTime(us) => Floor(us, w.literal.day);
      case Date(_) =>
      case Spelled(_) =>
    }
  }

  lemma SiteGives(p: Operand, w: World, env: Setting)
    requires IsLiteral(env.literal) && RowOf(w, env) && p.base == DateEq && Uncast(Atom(p))
    ensures Eval(Atom(p), w) in SiteCases(p, env)
  {
    ColumnGives(w, env);
    var c, d := Case(BaseValue(DateEq, w), BaseValue(AtLeast, w), BaseValue(Before, w)), Eval(Atom(p), w);
    TruthIsOne(d.was);
    TruthIsOne(d.first);
    TruthIsOne(d.last);
    assert c in ColumnCases(env) && d == Case(d.was, d.first, d.last);
  }

  /** Every row gives one of the cases. */
  lemma {:induction false} RowGivesCase(e: Expr, w: World, env: Setting)
    requires IsLiteral(env.literal) && RowOf(w, env) && forall t :: t in AtomsOf(e) ==> t.Other? || t == DateEq
    requires Uncast(e)
    ensures Eval(e, w) in Cases(e, env)
  {
    match e
    case Atom(p) =>
      assert p.base in AtomsOf(e);
      if p.base == DateEq {
        SiteGives(p, w, env);
      } else {
        match OperandValue(p, w)
        case True =>
        case False =>
        case Unknown =>
      }
    case Paren(x) => RowGivesCase(x, w, env);
    case Is(x, test) => RowGivesCase(x, w, env);
    case Neg(x) => RowGivesCase(x, w, env);
    case _ =>
      RowGivesCase(e.l, w, env);
      RowGivesCase(e.r, w, env);
  }

  // ------------------------------------------------------------ every case is the case on some row

  /** The value of the column's type for an instant of local time, at midnight where the type has only days. */
  function At(column: ColumnType, us: int): Temporal {
    match column
    case TimestamptzColumn => Instant(us)
    case TimestampColumn => LocalTime(us)
    case DateColumn => Date(us / DAY)
    case OtherColumn => Spelled(us / DAY)
  }

  /** A column that gives the case. */
  function ColumnFor(c: Case, env: Setting): Option<Temporal> {
    var midnight := env.literal.day * DAY;
    if c.was == Unknown then None
    else if c == Case(True, True, True) then Some(At(env.column, midnight + env.literal.timeOfDay))
    else if c == Case(False, True, False) then Some(At(env.column, midnight + 2 * DAY))
    else if c == Case(True, False, True) then Some(At(env.column, midnight))
    else if c == Case(False, True, True) then Some(At(env.column, midnight + DAY))
    else Some(At(env.column, midnight - DAY))
  }

  lemma DayOf(us: int, day: int)
    requires day * DAY <= us < day * DAY + DAY
    ensures us / DAY == day
  {
    Floor(us, day);
  }

  lemma ColumnForGives(c: Case, w: World, env: Setting)
    requires IsLiteral(env.literal) && c in ColumnCases(env) && w.literal == env.literal
    requires w.offset == 0 && w.column == ColumnFor(c, env)
    ensures RowOf(w, env) && Case(BaseValue(DateEq, w), BaseValue(AtLeast, w), BaseValue(Before, w)) == c
  {
    var midnight := env.literal.day * DAY;
    DayOf(midnight, env.literal.day);
    DayOf(midnight + env.literal.timeOfDay, env.literal.day);
    DayOf(midnight + DAY, env.literal.day + 1);
    DayOf(midnight + 2 * DAY, env.literal.day + 2);
    DayOf(midnight - DAY, env.literal.day - 1);
  }

  lemma SiteRow(p: Operand, env: Setting, c: Case) returns (w: World)
    requires IsLiteral(env.literal) && p.base == DateEq && Uncast(Atom(p)) && c in SiteCases(p, env)
    ensures RowOf(w, env) && Eval(Atom(p), w) == c
  {
    var d :| && d in ColumnCases(env) && (p.lead.None? && p.tail.None? ==> c.was == d.was)
             && (p.lead.None? ==> c.first == d.first) && (p.tail.None? ==> c.last == d.last);
    w := World(ColumnFor(d, env), 0, env.literal, _ => Unknown,
               (q: Operand) => if q.base == DateEq then c.was else if q.base == AtLeast then c.first else c.last);
    ColumnForGives(d, w, env);
  }

  /** The rows agree on all that the tree reads. */
  ghost predicate Alike(e: Expr, w: World, v: World) {
    && w.literal == v.literal && (forall id :: Other(id) in AtomsOf(e) ==> w.other(id) == v.other(id))
    && (DateEq in AtomsOf(e) ==> w.column == v.column && w.offset == v.offset && w.meant == v.meant)
  }

  lemma {:induction false} AlikeEval(e: Expr, w: World, v: World)
    requires Alike(e, w, v) && forall t :: t in AtomsOf(e) ==> t.Other? || t == DateEq
    ensures Eval(e, w) == Eval(e, v)
  {
    match e
    case Atom(p) => assert p.base in AtomsOf(e);
    case Paren(x) => AlikeEval(x, w, v);
    case Is(x, test) => AlikeEval(x, w, v);
    case Neg(x) => AlikeEval(x, w, v);
    case _ =>
      AlikeEval(e.l, w, v);
      AlikeEval(e.r, w, v);
  }

  /** Two parts that share nothing: one row does for both what two did. */
  lemma OneRow(e: Expr, env: Setting, w: World, v: World) returns (u: World)
    requires ReadOnceTree(e) && Binary(e) && RowOf(w, env) && RowOf(v, env)
    ensures RowOf(u, env) && Eval(e.l, u) == Eval(e.l, w) && Eval(e.r, u) == Eval(e.r, v)
  {
    Parts(e);
    var mine := AtomsOf(e.l);
    var x := if DateEq in mine then w else v;
    u := World(x.column, x.offset, x.literal, (id: nat) => if Other(id) in mine then w.other(id) else v.other(id), x.meant);
    AlikeEval(e.l, u, w);
    AlikeEval(e.r, u, v);
  }

  lemma {:induction false} CaseHasRow(e: Expr, env: Setting, c: Case) returns (w: World)
    requires IsLiteral(env.literal) && ReadOnceTree(e) && Uncast(e) && c in Cases(e, env)
    ensures RowOf(w, env) && Eval(e, w) == c
    decreases e, 1
  {
    match e
    case Atom(p) =>
      if p.base == DateEq {
        w := SiteRow(p, env, c);
      } else {
        assert p.base in AtomsOf(e);
        w := World(None, 0, env.literal, _ => c.was, _ => Unknown);
      }
    case Paren(x) =>
      var d :| d in Cases(x, env) && c == Closed(d);
      w := CaseHasRow(x, env, d);
    case Is(x, test) =>
      var d :| d in Cases(x, env) && c == Checked(d, test, Split(x));
      w := CaseHasRow(x, env, d);
    case Neg(x) =>
      var d :| d in Cases(x, env) && c == Negates(d);
      w := CaseHasRow(x, env, d);
    case _ => w := BinaryHasRow(e, env, c);
  }

  lemma BinaryHasRow(e: Expr, env: Setting, c: Case) returns (w: World)
    requires IsLiteral(env.literal) && ReadOnceTree(e) && Uncast(e) && c in Cases(e, env) && Binary(e)
    ensures RowOf(w, env) && Eval(e, w) == c
    decreases e, 0
  {
    Parts(e);
    var a, b :| a in Cases(e.l, env) && b in Cases(e.r, env) &&
                c == Joined(e, a, b);
    var x := CaseHasRow(e.l, env, a);
    var y := CaseHasRow(e.r, env, b);
    w := OneRow(e, env, x, y);
  }

  // ------------------------------------------------------------ the exact condition

  /** Whether the server takes the range, and the cases, decide. */
  predicate Keeps(e: Expr, env: Setting) {
    Takes(e, env) && forall c :: c in Cases(e, env) ==> c.Kept()
  }

  /** The server accepts the rewritten condition, and on all rows it has the value the condition had. */
  ghost predicate MeansTheSame(ts: seq<Symbol>, env: Setting)
    requires Parses(ts) && Parses(Splice(ts))
  {
    Typed(Tree(Splice(ts)), env) && forall w: World :: RowOf(w, env) ==> Meaning(Splice(ts), w) == Meaning(ts, w)
  }

  lemma {:induction false} TakesIsUncast(e: Expr, env: Setting)
    requires Takes(e, env)
    ensures Uncast(e)
  {
    match e
    case Atom(_) =>
    case Paren(x) => TakesIsUncast(x, env);
    case Is(x, _) => TakesIsUncast(x, env);
    case Neg(x) => TakesIsUncast(x, env);
    case _ =>
      TakesIsUncast(e.l, env);
      TakesIsUncast(e.r, env);
  }

  /** For every condition whose parts are all different, whatever stands in it and over it, for every type of column and every
      literal. */
  lemma RewriteKeepsMeaningExactlyWhen(ts: seq<Symbol>, env: Setting)
    requires Parses(ts) && ReadOnce(ts) && Typed(Tree(ts), env) && IsLiteral(env.literal)
    ensures Parses(Splice(ts)) && (MeansTheSame(ts, env) <==> Keeps(Tree(ts), env))
  {
    SpliceParses(ts);
    ReadOnceParses(ts);
    var e := Tree(ts);
    TakenExactlyWhen(e, env);
    if Takes(e, env) {
      TakesIsUncast(e, env);
    }
    if Keeps(e, env) {
      forall w: World | RowOf(w, env)
        ensures Meaning(Splice(ts), w) == Meaning(ts, w)
      {
        RowGivesCase(e, w, env);
        CaseIsMeaning(e, w);
      }
    } else if Takes(e, env) {
      var c :| c in Cases(e, env) && !c.Kept();
      var w := CaseHasRow(e, env, c);
      CaseIsMeaning(e, w);
    }
  }

  lemma CaseIsMeaning(e: Expr, w: World)
    requires ReadOnceTree(e)
    ensures Eval(e, w).was == Value(e, w) && Eval(e, w).Becomes() == Value(Spliced(e), w)
  {
    EvalIsValue(e, w);
    SplicedShows(e, w, Eval(e, w));
  }
}
