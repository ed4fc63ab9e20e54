/** What may stand beside the condition the DATE() rule replaces. */
module DateNeighbours {
  import opened Common

  import opened DateCondition
  import opened DateExact
  import opened DateRewrite

  // ------------------------------------------------------------ where tests stand only at the site

  /** Conditions under AND, OR, NOT and parentheses, none of them the one that is replaced. */
  predicate Calm(e: Expr) {
    match e
    case Atom(p) => p.base != DateEq
    case Paren(x) => Calm(x)
    case Neg(x) => Calm(x)
    case Conj(l, r) => Calm(l) && Calm(r)
    case Disj(l, r) => Calm(l) && Calm(r)
    case _ => false
  }

  /** IS tests, and IS [NOT] DISTINCT FROM, take only the replaced condition itself. */
  predicate Local(e: Expr) {
    match e
    case Atom(_) => true
    case Paren(x) => Local(x)
    case Is(x, _) => Chained(x)
    case Unlike(l, r, _) => (Chained(l) && Calm(r)) || (Calm(l) && r.Atom? && r.p.base == DateEq)
    case Neg(x) => Local(x)
    case Conj(l, r) => Local(l) && Local(r)
    case Disj(l, r) => Local(l) && Local(r)
  }

  function Same(v: Truth): Case {
    Case(v, v, True)
  }

  /** A calm condition can come out in any way. */
  lemma {:induction false} CalmIsFree(e: Expr, env: Setting, v: Truth)
    requires Calm(e)
    ensures Same(v) in Cases(e, env)
  {
    match e
    case Atom(_) =>
      TruthIsOne(v);
      assert Cases(e, env) == {Same(True), Same(False), Same(Unknown)};
    case Paren(x) =>
      CalmIsFree(x, env, v);
      assert Closed(Same(v)) == Same(v);
    case Neg(x) =>
      CalmIsFree(x, env, Not3(v));
      assert Negates(Same(Not3(v))) == Same(v);
    case Conj(l, r) =>
      CalmIsFree(l, env, v);
      CalmIsFree(r, env, v);
      assert Joined(e, Same(v), Same(v)) == Same(v);
    case Disj(l, r) =>
      CalmIsFree(l, env, v);
      CalmIsFree(r, env, v);
      assert Joined(e, Same(v), Same(v)) == Same(v);
  }

  /** Under NOTs, odd in number or even. */
  function UnderNots(odd: bool, c: Case): Case {
    if odd then Negates(c) else c
  }

  /** The rewrite shows in one of the cases, with the NOTs in front. */
  ghost predicate Shown(e: Expr, env: Setting, odd: bool) {
    exists c :: c in Cases(e, env) && !UnderNots(odd, c).Kept()
  }

  lemma {:induction false} CalmOrSite(e: Expr)
    requires Local(e) && ReadOnceTree(e)
    ensures Calm(e) || DateEq in AtomsOf(e)
    ensures DateEq !in AtomsOf(e) ==> SafeTree(e, false) && SafeTree(e, true)
  {
    match e
    case Atom(p) => assert p.base in AtomsOf(e);
    case Paren(x) => CalmOrSite(x);
    case Is(x, _) => ChainHoldsSite(e);
    case Neg(x) => CalmOrSite(x);
    case Unlike(l, r, _) =>
      Parts(e);
      if Chained(l) { ChainHoldsSite(l); }
    case _ =>
      Parts(e);
      CalmOrSite(e.l);
      CalmOrSite(e.r);
  }

  lemma {:induction false} ChainHoldsSite(e: Expr)
    requires Chained(e)
    ensures DateEq in AtomsOf(e)
  {
    if e.Is? {
      ChainHoldsSite(e.e);
    }
  }

  /** What the chain of tests makes of the site's case. */
  function ThroughCase(e: Expr, c: Case): Case
    requires Chained(e)
  {
    Case(Through(e, c.was), c.first, Through(e, c.last))
  }

  lemma {:induction false} ChainCases(e: Expr, env: Setting, c: Case)
    requires Chained(e) && c in SiteCases(SiteOf(e), env)
    ensures Split(e) && ThroughCase(e, c) in Cases(e, env)
  {
    if e.Is? {
      ChainCases(e.e, env, c);
      assert Checked(ThroughCase(e.e, c), e.test, true) == ThroughCase(e, c);
    }
  }

  const BEFORE_THE_DAY := Case(False, False, True)
  const AFTER_THE_DAY := Case(False, True, False)

  /** The case of a site on a row of the day before or after, or of a NULL. */
  lemma SiteCase(p: Operand, env: Setting, d: Case, c: Case)
    requires d in ColumnCases(env) && (p.lead.None? && p.tail.None? ==> c.was == d.was)
    requires (p.lead.None? ==> c.first == d.first) && (p.tail.None? ==> c.last == d.last)
    ensures c in SiteCases(p, env)
  {
    TruthIsOne(c.was);
    TruthIsOne(c.first);
    TruthIsOne(c.last);
    assert c == Case(c.was, c.first, c.last);
  }

  /** The row on which the rewrite shows at a chain of tests. */
  function Telling(p: Operand, t: Truth, f: Truth, u: Truth, odd: bool): (Case, Truth) {
    if p.lead.None? && p.tail.None? then
      if odd then if f != True then (AFTER_THE_DAY, False) else (Same(Unknown).(last := Unknown), Unknown)
      else if f != False then (BEFORE_THE_DAY, False) else (Same(Unknown).(last := Unknown), Unknown)
    else
      var idle := if odd then True else False;
      var v := if t != idle then True else if f != idle then False else Unknown;
      (if odd && !(t == f == u == True) then AFTER_THE_DAY else BEFORE_THE_DAY, v)
  }

  lemma {:induction false} ThroughTest(e: Expr, v: Truth)
    requires Chained(e)
    ensures Through(e, v) == v || (e.Is? && Through(e, v) != Unknown)
  {
  }

  lemma ChainShows(e: Expr, env: Setting, odd: bool)
    requires Chained(e) && Uncast(Atom(SiteOf(e))) && !ChainSafe(e, odd)
    ensures Shown(e, env, odd)
  {
    var p := SiteOf(e);
    var t, f, u := Through(e, True), Through(e, False), Through(e, Unknown);
    ThroughTest(e, True);
    ThroughTest(e, False);
    ThroughTest(e, Unknown);
    TellingIsCase(p, t, f, u, odd, env);
    TellingTells(p, t, f, u, odd);
    var (d, was) := Telling(p, t, f, u, odd);
    ThroughChosen(e, was);
    ThroughChosen(e, d.last);
    SiteCase(p, env, d, d.(was := was));
    ChainCases(e, env, d.(was := was));
  }

  lemma TellingIsCase(p: Operand, t: Truth, f: Truth, u: Truth, odd: bool, env: Setting)
    ensures var (d, was) := Telling(p, t, f, u, odd);
            d in ColumnCases(env) && (p.lead.None? && p.tail.None? ==> was == d.was)
  {
  }

  lemma ThroughChosen(e: Expr, v: Truth)
    requires Chained(e)
    ensures Through(e, v) == Chosen(Through(e, True), Through(e, False), Through(e, Unknown), v)
  {
    match v
    case True =>
    case False =>
    case Unknown =>
  }

  function Chosen(t: Truth, f: Truth, u: Truth, v: Truth): Truth {
    match v
    case True => t
    case False => f
    case Unknown => u
  }

  lemma TellingTells(p: Operand, t: Truth, f: Truth, u: Truth, odd: bool)
    requires (t == True && f == False && u == Unknown) || (t != Unknown && f != Unknown && u != Unknown)
    requires odd || if p.lead.Some? || p.tail.Some? then !(t == f == u == False) else !(f == False && u != True)
    ensures var (d, was) := Telling(p, t, f, u, odd);
            !UnderNots(odd, Case(Chosen(t, f, u, was), d.first, Chosen(t, f, u, d.last))).Kept()
  {
  }

  /** A value that IS [NOT] DISTINCT FROM finds as wanted beside `v`. */
  function Beside(v: Truth, negated: bool, wanted: bool): (y: Truth)
    ensures Differ(v, y, negated) == Differ(y, v, negated) == FromBool(wanted)
  {
    if negated == wanted then v else if v == True then False else True
  }

  lemma UnlikeShows(e: Expr, env: Setting, odd: bool)
    requires e.Unlike? && Local(e)
    ensures Shown(e, env, odd)
  {
    var d := if odd || !Chained(e.l) then AFTER_THE_DAY else BEFORE_THE_DAY;
    if Chained(e.l) {
      SiteCase(SiteOf(e.l), env, d, d);
      ChainCases(e.l, env, d);
      var a := ThroughCase(e.l, d);
      var y := Beside(a.was, e.negated, !odd);
      CalmIsFree(e.r, env, y);
      assert Joined(e, a, Same(y)) in Cases(e, env) && !UnderNots(odd, Joined(e, a, Same(y))).Kept();
    } else {
      SiteCase(SiteOf(e.r), env, d, d);
      ChainCases(e.r, env, d);
      var y := Beside(d.was, e.negated, !odd);
      CalmIsFree(e.l, env, y);
      CalmIsWhole(e.l);
      assert Joined(e, Same(y), d) in Cases(e, env) && !UnderNots(odd, Joined(e, Same(y), d)).Kept();
    }
  }

  lemma {:induction false} CalmIsWhole(e: Expr)
    requires Calm(e)
    ensures !Split(e)
  {
    if e.Neg? {
      CalmIsWhole(e.e);
    }
  }

  /** Where a site is not safe, the rewrite shows. */
  lemma {:induction false} UnsafeShows(e: Expr, env: Setting, odd: bool)
    requires Local(e) && ReadOnceTree(e) && Uncast(e) && !SafeTree(e, odd)
    ensures Shown(e, env, odd)
    decreases e, 1
  {
    match e
    case Atom(_) => ChainShows(e, env, odd);
    case Is(_, _) =>
      UncastChain(e);
      ChainShows(e, env, odd);
    case Unlike(_, _, _) => UnlikeShows(e, env, odd);
    case Paren(x) =>
      UnsafeShows(x, env, false);
      var c :| c in Cases(x, env) && !c.Kept();
      assert Closed(c) in Cases(e, env);
    case Neg(x) =>
      UnsafeShows(x, env, !odd);
      var c :| c in Cases(x, env) && !UnderNots(!odd, c).Kept();
      Not3Twice(c.was);
      Not3Twice(c.first);
      assert Negates(c) in Cases(e, env) && !UnderNots(odd, Negates(c)).Kept();
    case _ => UnsafePartShows(e, env, odd);
  }

  lemma {:induction false} UncastChain(e: Expr)
    requires Chained(e) && Uncast(e)
    ensures Uncast(Atom(SiteOf(e)))
  {
    if e.Is? {
      UncastChain(e.e);
    }
  }

  /** The part without the site does not get in the way: it is true under AND, false under OR. */
  lemma UnsafePartShows(e: Expr, env: Setting, odd: bool)
    requires Local(e) && ReadOnceTree(e) && Uncast(e) && (e.Conj? || e.Disj?) && !SafeTree(e, odd)
    ensures Shown(e, env, odd)
    decreases e, 0
  {
    Parts(e);
    CalmOrSite(e.l);
    CalmOrSite(e.r);
    var v := if e.Conj? then True else False;
    if !SafeTree(e.l, false) {
      UnsafeShows(e.l, env, false);
      CalmIsFree(e.r, env, v);
      var c :| c in Cases(e.l, env) && !c.Kept();
      JoinedShows(e, env, c, Same(v), odd);
    } else {
      UnsafeShows(e.r, env, false);
      CalmIsFree(e.l, env, v);
      var c :| c in Cases(e.r, env) && !c.Kept();
      JoinedShows(e, env, Same(v), c, odd);
    }
  }

  lemma JoinedShows(e: Expr, env: Setting, a: Case, b: Case, odd: bool)
    requires (e.Conj? || e.Disj?) && a in Cases(e.l, env) && b in Cases(e.r, env)
    requires var v := if e.Conj? then True else False; (!a.Kept() && b == Same(v)) || (a == Same(v) && !b.Kept())
    ensures Shown(e, env, odd)
  {
    var c := Joined(e, a, b);
    assert c in Cases(e, env);
    assert !c.Kept() && c.last == True;
    assert !UnderNots(odd, c).Kept();
  }

  /** Where tests stand only at the replaced condition, what stands beside it decides: a pure date's range means the same
      exactly when it is safe among its neighbours, and the server takes it there. */
  lemma NeighboursDecide(ts: seq<Symbol>, env: Setting)
    requires Parses(ts) && ReadOnce(ts) && Typed(Tree(ts), env) && Local(Tree(ts)) && env.literal.timeOfDay == 0
    ensures Parses(Splice(ts)) && (MeansTheSame(ts, env) <==> Safe(ts, false) && Takes(Tree(ts), env))
  {
    RewriteKeepsMeaningExactlyWhen(ts, env);
    SafeOr(ts);
    ReadOnceParses(ts);
    TakenExactlyWhen(Tree(ts), env);
    SpliceParses(ts);
    if Takes(Tree(ts), env) {
      if Safe(ts, false) {
        forall w: World | RowOf(w, env)
          ensures Meaning(Splice(ts), w) == Meaning(ts, w)
        {
          RewriteKeepsMeaning(ts, env, w);
        }
      } else {
        TakesIsUncast(Tree(ts), env);
        UnsafeShows(Tree(ts), env, false);
      }
    }
  }

  /** No operator and no cast stands beside the replaced condition. */
  predicate Plain(e: Expr) {
    match e
    case Atom(p) => p.base == DateEq ==> p.lead.None? && p.tail.None?
    case Paren(x) => Plain(x)
    case Is(x, _) => Plain(x)
    case Unlike(l, r, _) => Plain(l) && Plain(r)
    case Neg(x) => Plain(x)
    case Conj(l, r) => Plain(l) && Plain(r)
    case Disj(l, r) => Plain(l) && Plain(r)
  }

  /** Then the type of the column decides whether the server takes the range. */
  lemma {:induction false} PlainIsTakenExactlyWhen(e: Expr, env: Setting)
    requires Plain(e)
    ensures Takes(e, env) <==> (DateEq in AtomsOf(e) ==> env.column.DateLike())
  {
    match e
    case Atom(_) =>
    case Paren(x) => PlainIsTakenExactlyWhen(x, env);
    case Is(x, _) => PlainIsTakenExactlyWhen(x, env);
    case Neg(x) => PlainIsTakenExactlyWhen(x, env);
    case _ =>
      PlainIsTakenExactlyWhen(e.l, env);
      PlainIsTakenExactlyWhen(e.r, env);
  }

  // ------------------------------------------------------------ NOTs in front, tests behind

  function Under(n: nat, ts: seq<Symbol>): seq<Symbol> {
    if n == 0 then ts else [Not] + Under(n - 1, ts)
  }

  function Tests(tests: seq<BoolTest>): seq<Symbol> {
    if tests == [] then [] else [Tested(tests[0])] + Tests(tests[1..])
  }

  lemma {:induction false} UnderNot(n: nat, ts: seq<Symbol>, odd: bool, env: Setting)
    requires ParseNot(ts).Some? && ParseNot(ts).value.1 == [] && Local(ParseNot(ts).value.0)
    ensures var s := Under(n, ts);
            && ParseNot(s).Some? && ParseNot(s).value.1 == [] && Local(ParseNot(s).value.0) && Parses(s)
            && Tree(s) == ParseNot(s).value.0
            && Typed(Tree(s), env) == Typed(ParseNot(ts).value.0, env) && Takes(Tree(s), env) == Takes(ParseNot(ts).value.0, env)
            && Safe(s, odd) == Safe(ts, odd != (n % 2 == 1)) && Atoms(s) == Atoms(ts)
            && (AtLeast in s <==> AtLeast in ts) && (Before in s <==> Before in ts)
  {
    if n > 0 {
      UnderNot(n - 1, ts, !odd, env);
      assert Under(n, ts)[1..] == Under(n - 1, ts);
    }
  }

  lemma {:induction false} TestsParse(e: Expr, tests: seq<BoolTest>, env: Setting)
    requires Chained(e)
    ensures var ts := Tests(tests);
            && ParseTests(e, ts).Some? && ParseTests(e, ts).value.1 == [] && Chained(ParseTests(e, ts).value.0)
            && Typed(ParseTests(e, ts).value.0, env) == Typed(e, env) && Takes(ParseTests(e, ts).value.0, env) == Takes(e, env)
            && Safe(ts, false) && !DistinctFollows(ts) && Atoms(ts) == [] && AtLeast !in ts && Before !in ts
    decreases tests
  {
    if tests != [] {
      TestsParse(Is(e, tests[0]), tests[1..], env);
      assert Tests(tests)[1..] == Tests(tests[1..]);
    }
  }

  lemma SiteUnderTests(tests: seq<BoolTest>, odd: bool, env: Setting)
    ensures var ts := [DateEq] + Tests(tests);
            && ParseNot(ts).Some? && ParseNot(ts).value.1 == [] && Chained(ParseNot(ts).value.0)
            && Typed(ParseNot(ts).value.0, env) && (Takes(ParseNot(ts).value.0, env) <==> env.column.DateLike())
            && Atoms(ts) == [DateEq] && AtLeast !in ts && Before !in ts
            && (Safe(ts, odd) <==> !odd && AfterTests(False, Tests(tests)) == False && AfterTests(Unknown, Tests(tests)) != True)
  {
    var e, ts := Atom(Operand(None, DateEq, None)), [DateEq] + Tests(tests);
    TestsParse(e, tests, env);
    assert ts[1..] == Tests(tests);
    assert ParseUnit(ts) == Some((e, Tests(tests))) by {
      SiteStarts(ts);
    }
  }

  lemma UnitAlone(ts: seq<Symbol>)
    requires ParseUnit(ts).Some? && !StartsTest(ParseUnit(ts).value.1)
    ensures ParseNot(ts) == ParseUnit(ts)
  {
    ParseUnitIsNoTest(ts);
  }

  lemma PartAlone(ts: seq<Symbol>)
    requires ParseNot(ts).Some?
    requires var rest := ParseNot(ts).value.1; rest != [] ==> rest[0] != And && rest[0] != Or
    ensures ParseOr(ts) == ParseAnd(ts) == ParseNot(ts)
  {
  }

  lemma SiteStarts(ts: seq<Symbol>)
    requires ts != [] && ts[0] == DateEq
    ensures ParseUnit(ts) == Some(SiteAtom(None, DateEq, ts[1..]))
  {
  }

  lemma {:induction false} ChainIsLocal(e: Expr)
    requires Chained(e)
    ensures Local(e)
  {
  }

  /** Alone under NOTs and with tests behind it: exactly when the column is date-like, the NOTs cancel, and the tests leave
      false false and do not make NULL true. */
  lemma NotsAndTestsExactlyWhen(n: nat, tests: seq<BoolTest>, env: Setting)
    requires env.literal.timeOfDay == 0
    ensures var ts := Under(n, [DateEq] + Tests(tests));
            && Parses(ts) && Parses(Splice(ts))
            && (MeansTheSame(ts, env) <==>
                && env.column.DateLike() && n % 2 == 0
                && AfterTests(False, Tests(tests)) == False && AfterTests(Unknown, Tests(tests)) != True)
  {
    var site := [DateEq] + Tests(tests);
    SiteUnderTests(tests, n % 2 == 1, env);
    ChainIsLocal(ParseNot(site).value.0);
    UnderNot(n, site, false, env);
    NeighboursDecide(Under(n, site), env);
  }

  /** IS TRUE and IS NOT FALSE, behind the condition: the one is harmless, the other is not, as it makes NULL true. */
  lemma OneTest(test: BoolTest, env: Setting)
    requires env.literal.timeOfDay == 0
    ensures var ts := [DateEq, Tested(test)];
            Parses(ts) && Parses(Splice(ts)) && (MeansTheSame(ts, env) <==> env.column.DateLike() && test == IsTrue)
  {
    NotsAndTestsExactlyWhen(0, [test], env);
    assert Tests([test]) == [Tested(test)] && Under(0, [DateEq] + [Tested(test)]) == [DateEq, Tested(test)];
    assert forall v :: AfterTests(v, [Tested(test)]) == Passed(test, v);
  }

  // ------------------------------------------------------------ inputs that fail

  /** The server takes a cast of the literal exactly when it is to a day, a local time or an instant. */
  lemma CastTakenExactlyWhen(to: SqlType, env: Setting)
    ensures Parses([DateEq, Cast(to)])
    ensures Typed(Tree([DateEq, Cast(to)]), env) <==> to == DateType || to == TimestampType || to == TimestamptzType
  {
    CastParses(to);
  }

  lemma CastParses(to: SqlType)
    ensures var ts := [DateEq, Cast(to)]; Parses(ts) && Tree(ts) == Atom(Operand(None, DateEq, Some(Cast(to))))
  {
    var ts := [DateEq, Cast(to)];
    assert ts[1..] == [Cast(to)] && ts[1..][1..] == [];
    SiteStarts(ts);
    assert ParseUnit(ts) == Some((Atom(Operand(None, DateEq, Some(Cast(to)))), []));
    UnitAlone(ts);
    PartAlone(ts);
  }

  /** DATE(column) = '...'::date: the server takes it, and refuses the rewritten text, whose cast falls on the interval. */
  lemma CastLiteralIsRefused(to: SqlType, env: Setting)
    requires ComparesWithDay(to)
    ensures var ts := [DateEq, Cast(to)];
            Parses(ts) && Parses(Splice(ts)) && Typed(Tree(ts), env) && !Typed(Tree(Splice(ts)), env)
  {
    var ts := [DateEq, Cast(to)];
    var e := Atom(Operand(None, DateEq, Some(Cast(to))));
    CastParses(to);
    SpliceParses(ts);
    TakenExactlyWhen(e, env);
  }

  /** DATE(column) = '...' on a column of a type DATE() takes but no instant compares with: the server takes it, and refuses
      the bare column. Nothing in the text tells. */
  lemma OtherColumnIsRefused(env: Setting)
    requires env.column.OtherColumn?
    ensures Parses([DateEq]) && Parses(Splice([DateEq])) && Safe([DateEq], false)
    ensures Typed(Tree([DateEq]), env) && !Typed(Tree(Splice([DateEq])), env)
  {
    SiteStarts([DateEq]);
    UnitAlone([DateEq]);
    PartAlone([DateEq]);
    SpliceParses([DateEq]);
    TakenExactlyWhen(Atom(Operand(None, DateEq, None)), env);
  }

  const DISTINCT := [Other(0), Distinct(false), DateEq]

  lemma DistinctParses()
    ensures var x, site := Atom(Operand(None, Other(0), None)), Atom(Operand(None, DateEq, None));
            ParseOr(DISTINCT) == Some((Unlike(x, site, false), []))
    ensures Atoms(DISTINCT) == [Other(0), DateEq] && !Safe(DISTINCT, false)
  {
    var x, site, rest := Atom(Operand(None, Other(0), None)), Atom(Operand(None, DateEq, None)), [Distinct(false), DateEq];
    assert DISTINCT[1..] == rest && rest[1..] == [DateEq];
    SiteStarts([DateEq]);
    assert ParseTests(x, rest) == Some((Unlike(x, site, false), []));
    assert ParseNot(DISTINCT) == Some((Unlike(x, site, false), []));
    PartAlone(DISTINCT);
    assert Atoms(rest) == Atoms([DateEq]);
    assert !Safe(rest, false);
  }

  /** x IS DISTINCT FROM DATE(column) = '...', whatever x is. */
  lemma DistinctIsChanged(env: Setting)
    requires env.literal.timeOfDay == 0
    ensures Parses(DISTINCT) && Parses(Splice(DISTINCT)) && Typed(Tree(DISTINCT), env) && !MeansTheSame(DISTINCT, env)
  {
    DistinctParses();
    NeighboursDecide(DISTINCT, env);
  }

  /** (NOT DATE(column) = '...') IS UNKNOWN. */
  const HIDDEN := [Open, Not, DateEq, Close, Tested(IsUnknown)]

  lemma HiddenParses()
    ensures var site := Atom(Operand(None, DateEq, None));
            ParseOr(HIDDEN) == Some((Is(Paren(Neg(site)), IsUnknown), []))
  {
    var site, rest := Atom(Operand(None, DateEq, None)), [Close, Tested(IsUnknown)];
    assert HIDDEN[1..] == [Not, DateEq] + rest && ([Not, DateEq] + rest)[1..] == [DateEq] + rest && ([DateEq] + rest)[1..] == rest;
    SiteStarts([DateEq] + rest);
    UnitAlone([DateEq] + rest);
    PartAlone(HIDDEN[1..]);
    HiddenUnit(site);
  }

  lemma HiddenUnit(site: Expr)
    requires ParseOr(HIDDEN[1..]) == Some((Neg(site), [Close, Tested(IsUnknown)]))
    ensures ParseOr(HIDDEN) == Some((Is(Paren(Neg(site)), IsUnknown), []))
  {
    var test, unit := [Tested(IsUnknown)], Paren(Neg(site));
    assert [Close, Tested(IsUnknown)][1..] == test && test[1..] == [];
    assert ParseUnit(HIDDEN) == Some((unit, test));
    assert ParseTests(unit, test) == ParseTests(Is(unit, IsUnknown), []) == Some((Is(unit, IsUnknown), []));
    PartAlone(HIDDEN);
  }

  /** A test over a negated parenthesis works on the cases of what is in it. */
  lemma FromInside(x: Expr, test: BoolTest, env: Setting, c: Case) returns (a: Case)
    requires c in Cases(Is(Paren(Neg(x)), test), env)
    ensures a in Cases(x, env) && c == Checked(Closed(Negates(a)), test, false)
  {
    var paren, neg := Paren(Neg(x)), Neg(x);
    assert Cases(Is(paren, test), env) == set d | d in Cases(paren, env) :: Checked(d, test, Split(paren));
    var d :| d in Cases(paren, env) && c == Checked(d, test, false);
    a := FromNegated(x, env, d);
  }

  lemma FromNegated(x: Expr, env: Setting, d: Case) returns (a: Case)
    requires d in Cases(Paren(Neg(x)), env)
    ensures a in Cases(x, env) && d == Closed(Negates(a))
  {
    var b :| b in Cases(Neg(x), env) && d == Closed(b);
    a :| a in Cases(x, env) && b == Negates(a);
  }

  lemma HiddenCases(c: Case, env: Setting)
    requires c in Cases(Is(Paren(Neg(Atom(Operand(None, DateEq, None)))), IsUnknown), env) && env.literal.timeOfDay == 0
    ensures c.Kept()
  {
    var a := FromInside(Atom(Operand(None, DateEq, None)), IsUnknown, env, c);
    PlainSite(a, env);
    NegatedIsUnknown(a);
  }

  lemma PlainSite(a: Case, env: Setting)
    requires a in SiteCases(Operand(None, DateEq, None), env)
    ensures a in ColumnCases(env)
  {
  }

  lemma NegatedIsUnknown(a: Case)
    requires a.was == And3(a.first, a.last) && (a.first == Unknown <==> a.last == Unknown)
    ensures Checked(Closed(Negates(a)), IsUnknown, false).Kept()
  {
  }

  lemma HiddenKeeps(e: Expr, env: Setting)
    requires e == Is(Paren(Neg(Atom(Operand(None, DateEq, None)))), IsUnknown) && env.literal.timeOfDay == 0
    requires env.column.DateLike()
    ensures Keeps(e, env) && Typed(e, env)
  {
    assert Takes(e.e.e, env) && Typed(e.e.e, env);
    forall c | c in Cases(e, env)
      ensures c.Kept()
    {
      HiddenCases(c, env);
    }
  }

  lemma HiddenIsUnsafe()
    ensures !Safe(HIDDEN, false) && Atoms(HIDDEN) == [DateEq]
  {
    var rest := [Close, Tested(IsUnknown)];
    assert HIDDEN[1..][1..] == [DateEq] + rest && ([DateEq] + rest)[1..] == rest && rest[1..][1..] == [];
    assert !Safe([DateEq] + rest, true);
    assert Atoms(rest) == [];
    assert Atoms([DateEq] + rest) == [DateEq];
  }

  /** A test over a parenthesis may hide what an odd number of NOTs does. */
  lemma TestHides(env: Setting)
    requires env.literal.timeOfDay == 0 && env.column.DateLike()
    ensures Parses(HIDDEN) && Parses(Splice(HIDDEN)) && Typed(Tree(HIDDEN), env)
    ensures !Safe(HIDDEN, false) && MeansTheSame(HIDDEN, env)
  {
    HiddenParses();
    HiddenKeeps(Tree(HIDDEN), env);
    HiddenIsUnsafe();
    RewriteKeepsMeaningExactlyWhen(HIDDEN, env);
  }
}
