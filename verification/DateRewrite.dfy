/** The DATE() rewrite: an equality on DATE(column) becomes a half-open range on the bare column, spliced into the
    statement text without parentheses and parsed again. */
module DateRewrite {
  import opened Common

  import opened DateCondition

  // ------------------------------------------------------------ the splice

  /** The replacement carries no parentheses. */
  function Splice(ts: seq<Symbol>): seq<Symbol> {
    if ts == [] then []
    else (if ts[0] == DateEq then [AtLeast, And, Before] else [ts[0]]) + Splice(ts[1..])
  }

  lemma SpliceKeeps(ts: seq<Symbol>)
    requires ts != [] && ts[0] != DateEq
    ensures Splice(ts) != [] && Splice(ts)[0] == ts[0] && Splice(ts)[1..] == Splice(ts[1..])
  {
    assert Splice(ts) == [ts[0]] + Splice(ts[1..]);
  }

  lemma SpliceSite(ts: seq<Symbol>)
    requires ts != [] && ts[0] == DateEq
    ensures Splice(ts) == [AtLeast, And, Before] + Splice(ts[1..])
    ensures Splice(ts)[0] == AtLeast && Splice(ts)[1..] == [And, Before] + Splice(ts[1..])
  {
  }

  /** The conjuncts a part of the condition is read as once the range stands in it: what is in front goes with its first
      half, what comes after with its second. Anything else stays one part. */
  function Pieces(e: Expr): (ps: seq<Expr>)
    ensures ps != []
    decreases e, 0
  {
    match e
    case Atom(p) =>
      if p.base == DateEq then [Atom(Operand(p.lead, AtLeast, None)), Atom(Operand(None, Before, p.tail))] else [e]
    case Paren(x) => [Paren(Spliced(x))]
    case Is(x, test) =>
      var ps := Pieces(x);
      ps[..|ps| - 1] + [Is(ps[|ps| - 1], test)]
    case Unlike(l, r, negated) =>
      var a, b := Pieces(l), Pieces(r);
      a[..|a| - 1] + [Unlike(a[|a| - 1], b[0], negated)] + b[1..]
    case Neg(x) =>
      var ps := Pieces(x);
      [Neg(ps[0])] + ps[1..]
    case Conj(l, r) => [Chain(Pieces(l), Some(Spliced(r)))]
    case Disj(l, r) => [Disj(Spliced(l), Spliced(r))]
  }

  function Chain(ps: seq<Expr>, rest: Option<Expr>): Expr
    requires ps != []
  {
    if |ps| > 1 then Conj(ps[0], Chain(ps[1..], rest)) else if rest.Some? then Conj(ps[0], rest.value) else ps[0]
  }

  /** The tree the spliced text is read as. */
  function Spliced(e: Expr): Expr
    decreases e, 1
  {
    Chain(Pieces(e), None)
  }

  // ------------------------------------------------------------ the spliced text parses as the spliced tree

  /** The text is read as the units one after the other, ANDs between them, and `rest` is left. */
  ghost predicate ReadsUnits(s: seq<Symbol>, ps: seq<Expr>, rest: seq<Symbol>)
    decreases |ps|
  {
    ps != [] && ParseNot(s).Some? && ParseNot(s).value.0 == ps[0] && LeavesFor(ParseNot(s).value.1, ps, rest)
  }

  ghost predicate LeavesFor(left: seq<Symbol>, ps: seq<Expr>, rest: seq<Symbol>)
    requires ps != []
    decreases |ps|, 0
  {
    if |ps| == 1 then left == rest else left != [] && left[0] == And && ReadsUnits(left[1..], ps[1..], rest)
  }

  lemma ParseUnitIsNoTest(ts: seq<Symbol>)
    requires ParseUnit(ts).Some?
    ensures ts != [] && ts[0] != Not && ParseNot(ts) == ParseIs(ts)
  {
  }

  /** Where no test follows, a unit is a whole IS expression. */
  lemma NoTestFollows(e: Expr, ts: seq<Symbol>)
    requires !StartsTest(ts)
    ensures ParseTests(e, ts) == Some((e, ts))
  {
  }

  lemma StartsAlike(ts: seq<Symbol>)
    ensures StartsTest(Splice(ts)) == StartsTest(ts)
  {
    if ts != [] && ts[0] != DateEq {
      SpliceKeeps(ts);
    }
  }

  /** The two halves of a spliced site. */
  function LowerHalf(lead: Option<nat>): Expr {
    Atom(Operand(lead, AtLeast, None))
  }

  lemma SpliceAfterSite(lead: Option<nat>, ts: seq<Symbol>)
    requires ts != [] && ts[0] == DateEq
    ensures var (e, rest) := SiteAtom(lead, DateEq, ts[1..]);
            && SiteAtom(lead, AtLeast, Splice(ts)[1..]) == (LowerHalf(lead), [And, Before] + Splice(ts[1..]))
            && ParseUnit([Before] + Splice(ts[1..])) == Some((Atom(Operand(None, Before, e.p.tail)), Splice(rest)))
  {
    SpliceSite(ts);
    var after := ts[1..];
    var s := [Before] + Splice(after);
    assert s[0] == Before && s[1..] == Splice(after);
    if after != [] && after[0] != DateEq {
      SpliceKeeps(after);
    }
  }

  /** A unit is read as its one or two pieces. */
  predicate UnitRead(s: seq<Symbol>, ps: seq<Expr>, rest: seq<Symbol>) {
    ParseUnit(s).Some? && 1 <= |ps| <= 2 && ParseUnit(s).value.0 == ps[0] &&
    var left := ParseUnit(s).value.1;
    if |ps| == 1 then left == rest else left != [] && left[0] == And && ParseUnit(left[1..]) == Some((ps[1], rest))
  }

  lemma {:induction false} UnitSplices(ts: seq<Symbol>)
    requires ParseUnit(ts).Some?
    ensures var (e, rest) := ParseUnit(ts).value; UnitRead(Splice(ts), Pieces(e), Splice(rest)) && (e.Atom? || e.Paren?)
    decreases |ts|, 0
  {
    match ts[0]
    case Open =>
      SpliceOr(ts[1..]);
      SpliceParen(ts);
    case Other(_) => SpliceKeeps(ts);
    case Led(id) =>
      SpliceKeeps(ts);
      SpliceLed(ts);
    case _ => SpliceOfSite(ts);
  }

  lemma SpliceParen(ts: seq<Symbol>)
    requires ts != [] && ts[0] == Open && ParseUnit(ts).Some?
    requires var (e, rest) := ParseOr(ts[1..]).value; ParseOr(Splice(ts[1..])) == Some((Spliced(e), Splice(rest)))
    ensures var (e, rest) := ParseUnit(ts).value; e.Paren? && UnitRead(Splice(ts), Pieces(e), Splice(rest))
  {
    var (e, rest) := ParseOr(ts[1..]).value;
    SpliceKeeps(ts);
    SpliceKeeps(rest);
  }

  lemma SpliceOfSite(ts: seq<Symbol>)
    requires ts != [] && IsSite(ts[0])
    ensures var (e, rest) := SiteAtom(None, ts[0], ts[1..]); UnitRead(Splice(ts), Pieces(e), Splice(rest))
  {
    if ts[0] == DateEq {
      SpliceAfterSite(None, ts);
      SpliceSite(ts);
      assert ParseUnit(Splice(ts)) == Some(SiteAtom(None, AtLeast, Splice(ts)[1..]));
      TwoPieces(Splice(ts), None, ts);
    } else {
      SpliceKeeps(ts);
      SpliceTail(ts[1..]);
      assert ParseUnit(Splice(ts)) == Some(SiteAtom(None, ts[0], Splice(ts)[1..]));
    }
  }

  /** A site spliced is two units with an AND between them. */
  lemma TwoPieces(s: seq<Symbol>, lead: Option<nat>, ts: seq<Symbol>)
    requires ts != [] && ts[0] == DateEq
    requires ParseUnit(s) == Some((LowerHalf(lead), [And, Before] + Splice(ts[1..])))
    requires var (e, rest) := SiteAtom(lead, DateEq, ts[1..]);
             ParseUnit([Before] + Splice(ts[1..])) == Some((Atom(Operand(None, Before, e.p.tail)), Splice(rest)))
    ensures var (e, rest) := SiteAtom(lead, DateEq, ts[1..]); UnitRead(s, Pieces(e), Splice(rest))
  {
    var left := [And, Before] + Splice(ts[1..]);
    assert left[0] == And && left[1..] == [Before] + Splice(ts[1..]);
    var e := SiteAtom(lead, DateEq, ts[1..]).0;
    PiecesOfSite(e);
  }

  lemma PiecesOfSite(e: Expr)
    requires e.Atom? && e.p.base == DateEq
    ensures Pieces(e) == [LowerHalf(e.p.lead), Atom(Operand(None, Before, e.p.tail))]
  {
  }

  /** An operator that goes on with a half stays with it. */
  lemma SpliceTail(ts: seq<Symbol>)
    ensures ts != [] <==> Splice(ts) != []
    ensures ts != [] ==>
              && IsTail(Splice(ts)[0]) == IsTail(ts[0])
              && (IsTail(ts[0]) ==> Splice(ts)[0] == ts[0] && Splice(ts)[1..] == Splice(ts[1..]))
  {
    if ts != [] && ts[0] != DateEq {
      SpliceKeeps(ts);
    }
  }

  lemma ParseLed(s: seq<Symbol>, id: nat, base: Symbol, rest: seq<Symbol>)
    requires s == [Led(id), base] + rest && IsSite(base)
    ensures ParseUnit(s) == Some(SiteAtom(Some(id), base, rest))
  {
    assert s[0] == Led(id) && s[1] == base && s[2..] == rest;
  }

  lemma SpliceLed(ts: seq<Symbol>)
    requires |ts| > 1 && ts[0].Led? && IsSite(ts[1])
    ensures var (e, rest) := SiteAtom(Some(ts[0].id), ts[1], ts[2..]); UnitRead(Splice(ts), Pieces(e), Splice(rest))
  {
    var after, id := ts[1..], ts[0].id;
    assert after[0] == ts[1] && after[1..] == ts[2..];
    assert Splice(ts) == [Led(id)] + Splice(after);
    if ts[1] == DateEq {
      SpliceAfterSite(Some(id), after);
      SpliceSite(after);
      assert Splice(ts) == [Led(id), AtLeast] + ([And, Before] + Splice(ts[2..]));
      ParseLed(Splice(ts), id, AtLeast, [And, Before] + Splice(ts[2..]));
      TwoPieces(Splice(ts), Some(id), after);
    } else {
      SpliceHalf(ts, after);
    }
  }

  lemma SpliceHalf(ts: seq<Symbol>, after: seq<Symbol>)
    requires |ts| > 1 && ts[0].Led? && IsSite(ts[1]) && ts[1] != DateEq && after == ts[1..]
    ensures var (e, rest) := SiteAtom(Some(ts[0].id), ts[1], ts[2..]); UnitRead(Splice(ts), Pieces(e), Splice(rest))
  {
    assert after[1..] == ts[2..] && Splice(after) == [ts[1]] + Splice(ts[2..]);
    assert Splice(ts) == [ts[0], ts[1]] + Splice(ts[2..]);
    ParseLed(Splice(ts), ts[0].id, ts[1], Splice(ts[2..]));
    SpliceTail(ts[2..]);
  }

  // ------------------------------------------------------------ tests

  /** The last piece read so far goes on with the tests that follow it; `more` is what becomes of it. */
  ghost predicate TestsRead(p: Expr, s: seq<Symbol>, more: seq<Expr>, rest: seq<Symbol>) {
    more != [] && ParseTests(p, s).Some? && ParseTests(p, s).value.0 == more[0] && IsLeaves(ParseTests(p, s).value.1, more, rest)
  }

  ghost predicate IsLeaves(left: seq<Symbol>, ps: seq<Expr>, rest: seq<Symbol>)
    requires ps != []
  {
    if |ps| == 1 then left == rest
    else |ps| == 2 && left != [] && left[0] == And && ParseIs(left[1..]) == Some((ps[1], rest))
  }

  function Front(ps: seq<Expr>): seq<Expr>
    requires ps != []
  {
    ps[..|ps| - 1]
  }

  function Last(ps: seq<Expr>): Expr
    requires ps != []
  {
    ps[|ps| - 1]
  }

  /** What was read before the last piece stays, and the last piece goes on. */
  ghost predicate TestsSpliced(e: Expr, ts: seq<Symbol>)
    requires ParseTests(e, ts).Some?
  {
    var (f, rest) := ParseTests(e, ts).value;
    var n := |Pieces(e)| - 1;
    && |Pieces(f)| > n && Pieces(f)[..n] == Front(Pieces(e))
    && TestsRead(Last(Pieces(e)), Splice(ts), Pieces(f)[n..], Splice(rest))
  }

  lemma {:induction false} TestsSplice(e: Expr, ts: seq<Symbol>)
    requires ParseTests(e, ts).Some?
    ensures TestsSpliced(e, ts)
    decreases |ts|, 1
  {
    if !StartsTest(ts) {
      NoTestSplices(e, ts);
    } else if ts[0].Tested? {
      TestsSplice(Is(e, ts[0].test), ts[1..]);
      TestedSplices(e, ts);
    } else {
      UnitSplices(ts[1..]);
      DistinctSplices(e, ts);
    }
  }

  lemma NoTestSplices(e: Expr, ts: seq<Symbol>)
    requires !StartsTest(ts)
    ensures ParseTests(e, ts).Some? && TestsSpliced(e, ts)
  {
    var ps := Pieces(e);
    NoTestFollows(e, ts);
    StartsAlike(ts);
    NoTestFollows(Last(ps), Splice(ts));
    assert ps[|ps| - 1..] == [Last(ps)];
  }

  lemma TestsReadOn(p: Expr, s: seq<Symbol>, more: seq<Expr>, rest: seq<Symbol>)
    requires s != [] && s[0].Tested? && TestsRead(Is(p, s[0].test), s[1..], more, rest)
    ensures TestsRead(p, s, more, rest)
  {
  }

  lemma PiecesOfIs(e: Expr, test: BoolTest)
    ensures var ps, qs := Pieces(e), Pieces(Is(e, test));
            |qs| == |ps| && Front(qs) == Front(ps) && Last(qs) == Is(Last(ps), test)
  {
    assert Pieces(Is(e, test)) == Front(Pieces(e)) + [Is(Last(Pieces(e)), test)];
  }

  lemma TestedSplices(e: Expr, ts: seq<Symbol>)
    requires ts != [] && ts[0].Tested? && ParseTests(e, ts).Some? && TestsSpliced(Is(e, ts[0].test), ts[1..])
    ensures TestsSpliced(e, ts)
  {
    PiecesOfIs(e, ts[0].test);
    SpliceKeeps(ts);
    var (f, rest) := ParseTests(e, ts).value;
    TestsReadOn(Last(Pieces(e)), Splice(ts), Pieces(f)[|Pieces(e)| - 1..], Splice(rest));
  }

  lemma ParseDistinct(e: Expr, ts: seq<Symbol>)
    requires ts != [] && ts[0].Distinct? && ParseTests(e, ts).Some?
    ensures ParseUnit(ts[1..]).Some?
    ensures var (r, rest) := ParseUnit(ts[1..]).value;
            ParseTests(e, ts) == Some((Unlike(e, r, ts[0].negated), rest)) && !StartsTest(rest)
  {
  }

  lemma PiecesOfUnlike(l: Expr, r: Expr, negated: bool)
    ensures var a, b := Pieces(l), Pieces(r); var ps, n := Pieces(Unlike(l, r, negated)), |a| - 1;
            && ps == Front(a) + [Unlike(Last(a), b[0], negated)] + b[1..]
            && ps[..n] == Front(a) && ps[n..] == [Unlike(Last(a), b[0], negated)] + b[1..]
  {
    var a, b := Pieces(l), Pieces(r);
    Cut(Front(a), Unlike(Last(a), b[0], negated), b[1..]);
  }

  lemma Cut(a: seq<Expr>, x: Expr, b: seq<Expr>)
    ensures (a + [x] + b)[..|a|] == a && (a + [x] + b)[|a|..] == [x] + b
  {
  }

  lemma DistinctSplices(e: Expr, ts: seq<Symbol>)
    requires ts != [] && ts[0].Distinct? && ParseTests(e, ts).Some? && ParseUnit(ts[1..]).Some?
    requires var (r, rest) := ParseUnit(ts[1..]).value; UnitRead(Splice(ts[1..]), Pieces(r), Splice(rest))
    ensures TestsSpliced(e, ts)
  {
    ParseDistinct(e, ts);
    var (r, rest) := ParseUnit(ts[1..]).value;
    PiecesOfUnlike(e, r, ts[0].negated);
    SpliceKeeps(ts);
    StartsAlike(rest);
    DistinctReads(Last(Pieces(e)), Splice(ts), Pieces(r), Splice(rest));
  }

  lemma DistinctReads(p: Expr, s: seq<Symbol>, b: seq<Expr>, rest: seq<Symbol>)
    requires s != [] && s[0].Distinct? && UnitRead(s[1..], b, rest) && !StartsTest(rest)
    ensures TestsRead(p, s, [Unlike(p, b[0], s[0].negated)] + b[1..], rest)
  {
    if |b| == 2 {
      var left := ParseUnit(s[1..]).value.1;
      ParseUnitIsNoTest(left[1..]);
      NoTestFollows(b[1], rest);
      assert !StartsTest(left);
    }
  }

  lemma IsLevelSplices(ts: seq<Symbol>)
    requires ParseIs(ts).Some?
    requires var (e, rest) := ParseUnit(ts).value; UnitRead(Splice(ts), Pieces(e), Splice(rest))
    requires var (e, rest) := ParseUnit(ts).value; var (f, last) := ParseIs(ts).value; var n := |Pieces(e)| - 1;
             && |Pieces(f)| > n && Pieces(f)[..n] == Front(Pieces(e))
             && TestsRead(Last(Pieces(e)), Splice(rest), Pieces(f)[n..], Splice(last))
    ensures var (f, last) := ParseIs(ts).value; ReadsUnits(Splice(ts), Pieces(f), Splice(last))
  {
    var (e, rest) := ParseUnit(ts).value;
    var (f, last) := ParseIs(ts).value;
    var ps, qs, s, n := Pieces(e), Pieces(f), Splice(ts), |Pieces(e)| - 1;
    ParseUnitIsNoTest(s);
    var more := qs[n..];
    if n == 0 {
      assert more == qs;
      TailReads(ParseNot(s).value.1, more, Splice(last));
    } else {
      var left := ParseUnit(s).value.1;
      assert qs[0] == qs[..1][0] == ps[0] && qs[1..] == more;
      NoTestFollows(ps[0], left);
      ParseUnitIsNoTest(left[1..]);
      TailReads(ParseNot(left[1..]).value.1, more, Splice(last));
      assert ReadsUnits(left[1..], more, Splice(last));
    }
  }

  lemma TailReads(left: seq<Symbol>, more: seq<Expr>, rest: seq<Symbol>)
    requires more != [] && IsLeaves(left, more, rest)
    ensures LeavesFor(left, more, rest)
  {
    if |more| == 2 {
      var s := left[1..];
      assert ParseUnit(s).Some?;
      ParseUnitIsNoTest(s);
      assert more[1..] == [more[1]];
      assert ReadsUnits(s, more[1..], rest);
    }
  }

  lemma {:induction false} SpliceNot(ts: seq<Symbol>)
    requires ParseNot(ts).Some?
    ensures var (e, rest) := ParseNot(ts).value; ReadsUnits(Splice(ts), Pieces(e), Splice(rest)) && !e.Conj? && !e.Disj?
    decreases |ts|, 2
  {
    if ts[0] == Not {
      SpliceNot(ts[1..]);
      SpliceKeeps(ts);
      NegReads(ts);
    } else {
      UnitSplices(ts);
      var (e, rest) := ParseUnit(ts).value;
      TestsSplice(e, rest);
      IsLevelSplices(ts);
      TestsAreUnits(e, rest);
    }
  }

  lemma {:induction false} TestsAreUnits(e: Expr, ts: seq<Symbol>)
    requires ParseTests(e, ts).Some? && !e.Conj? && !e.Disj? && !e.Neg?
    ensures var f := ParseTests(e, ts).value.0; !f.Conj? && !f.Disj? && !f.Neg?
    decreases |ts|
  {
    if ts != [] && ts[0].Tested? {
      TestsAreUnits(Is(e, ts[0].test), ts[1..]);
    }
  }

  lemma NegReads(ts: seq<Symbol>)
    requires ts != [] && ts[0] == Not && ParseNot(ts).Some?
    requires var (e, rest) := ParseNot(ts[1..]).value; ReadsUnits(Splice(ts[1..]), Pieces(e), Splice(rest))
    requires Splice(ts) != [] && Splice(ts)[0] == Not && Splice(ts)[1..] == Splice(ts[1..])
    ensures var (e, rest) := ParseNot(ts).value; ReadsUnits(Splice(ts), Pieces(e), Splice(rest))
  {
    var (x, rest) := ParseNot(ts[1..]).value;
    var ps, qs := Pieces(x), Pieces(Neg(x));
    assert qs[0] == Neg(ps[0]) && qs[1..] == ps[1..];
  }

  // ------------------------------------------------------------ chains of ANDs and ORs

  lemma {:induction false} ChainReads(s: seq<Symbol>, ps: seq<Expr>, rest: seq<Symbol>)
    requires ReadsUnits(s, ps, rest) && (rest != [] && rest[0] == And ==> ParseAnd(rest[1..]).Some?)
    ensures ParseAnd(s) == Some(
      if rest != [] && rest[0] == And then (Chain(ps, Some(ParseAnd(rest[1..]).value.0)), ParseAnd(rest[1..]).value.1)
      else (Chain(ps, None), rest))
    decreases |ps|
  {
    var left := ParseNot(s).value.1;
    if |ps| > 1 {
      ChainReads(left[1..], ps[1..], rest);
    }
  }

  lemma {:induction false} SpliceAnd(ts: seq<Symbol>)
    requires ParseAnd(ts).Some?
    ensures var (e, rest) := ParseAnd(ts).value; !e.Disj? && ParseAnd(Splice(ts)) == Some((Spliced(e), Splice(rest)))
    decreases |ts|, 3
  {
    SpliceNot(ts);
    var (e, rest) := ParseNot(ts).value;
    if rest != [] {
      if rest[0] == And {
        SpliceKeeps(rest);
        SpliceAnd(rest[1..]);
      } else if rest[0] == DateEq {
        SpliceSite(rest);
      } else {
        SpliceKeeps(rest);
      }
    }
    ChainReads(Splice(ts), Pieces(e), Splice(rest));
  }

  lemma {:induction false} SpliceOr(ts: seq<Symbol>)
    requires ParseOr(ts).Some?
    ensures var (e, rest) := ParseOr(ts).value; ParseOr(Splice(ts)) == Some((Spliced(e), Splice(rest)))
    decreases |ts|, 4
  {
    SpliceAnd(ts);
    var rest := ParseAnd(ts).value.1;
    if rest != [] {
      if rest[0] == Or {
        SpliceKeeps(rest);
        SpliceOr(rest[1..]);
      } else if rest[0] == DateEq {
        SpliceSite(rest);
      } else {
        SpliceKeeps(rest);
      }
    }
  }

  /** The splice always parses, as the spliced tree. */
  lemma SpliceParses(ts: seq<Symbol>)
    requires Parses(ts)
    ensures Parses(Splice(ts)) && Tree(Splice(ts)) == Spliced(Tree(ts))
  {
    SpliceOr(ts);
  }

  // ------------------------------------------------------------ what stands beside a site

  /** What the tests at the front make of a value. */
  function AfterTests(v: Truth, ts: seq<Symbol>): Truth
    decreases |ts|
  {
    if ts != [] && ts[0].Tested? then AfterTests(Passed(ts[0].test, v), ts[1..]) else v
  }

  /** An IS DISTINCT FROM follows, behind any tests. */
  predicate DistinctFollows(ts: seq<Symbol>) {
    ts != [] && (ts[0].Distinct? || (ts[0].Tested? && DistinctFollows(ts[1..])))
  }

  /** The range may take the place of the condition, with `ts` behind it and an odd number of NOTs in front or not. No cast of
      the literal, no IS DISTINCT FROM, and no NOTs but pairs. Tests are harmless when they leave false false and do not make
      NULL true; where other operators take a part of the condition for their operand, only when they come out false always. */
  predicate SiteSafe(led: bool, ts: seq<Symbol>, odd: bool) {
    var rest := if ts != [] && ts[0].Continued? then ts[1..] else ts;
    !odd && !(ts != [] && ts[0].Cast?) && !DistinctFollows(rest) &&
    if led || rest != ts then AfterTests(True, rest) == AfterTests(False, rest) == AfterTests(Unknown, rest) == False
    else AfterTests(False, rest) == False && AfterTests(Unknown, rest) != True
  }

  predicate SiteFirst(ts: seq<Symbol>) {
    ts != [] && (ts[0] == DateEq || (|ts| > 1 && ts[0].Led? && ts[1] == DateEq))
  }

  /** Every site is safe among its neighbours; `odd` tells of the NOTs already passed. */
  predicate Safe(ts: seq<Symbol>, odd: bool) {
    if ts == [] then true
    else
      match ts[0]
      case Not => Safe(ts[1..], !odd)
      case DateEq => SiteSafe(false, ts[1..], odd) && Safe(ts[1..], false)
      case Led(_) =>
        if SiteFirst(ts) then SiteSafe(true, ts[2..], odd) && Safe(ts[2..], false) else Safe(ts[1..], false)
      case Distinct(_) => !SiteFirst(ts[1..]) && Safe(ts[1..], false)
      case _ => Safe(ts[1..], false)
  }

  /** A site with tests behind it and nothing else. */
  predicate Chained(e: Expr) {
    (e.Atom? && e.p.base == DateEq) || (e.Is? && Chained(e.e))
  }

  /** A site under NOTs. */
  predicate BareSite(e: Expr) {
    Chained(e) || (e.Neg? && BareSite(e.e))
  }

  function SiteOf(e: Expr): (p: Operand)
    requires Chained(e)
    ensures p.base == DateEq
  {
    if e.Atom? then e.p else SiteOf(e.e)
  }

  /** What the tests make of the site's value. */
  function Through(e: Expr, v: Truth): Truth
    requires Chained(e)
  {
    if e.Atom? then v else Passed(e.test, Through(e.e, v))
  }

  predicate ChainSafe(e: Expr, odd: bool)
    requires Chained(e)
  {
    var p := SiteOf(e);
    !odd && !(p.tail.Some? && p.tail.value.Cast?) &&
    if p.lead.Some? || p.tail.Some? then Through(e, True) == Through(e, False) == Through(e, Unknown) == False
    else Through(e, False) == False && Through(e, Unknown) != True
  }

  /** The same as Safe, told of the tree. */
  predicate SafeTree(e: Expr, odd: bool) {
    if Chained(e) then ChainSafe(e, odd)
    else
      match e
      case Atom(_) => true
      case Paren(x) => SafeTree(x, false)
      case Is(x, _) => !BareSite(x) && SafeTree(x, false)
      case Unlike(l, r, _) => !BareSite(l) && !BareSite(r) && SafeTree(l, false) && SafeTree(r, false)
      case Neg(x) => SafeTree(x, !odd)
      case Conj(l, r) => SafeTree(l, false) && SafeTree(r, false)
      case Disj(l, r) => SafeTree(l, false) && SafeTree(r, false)
  }

  /** A unit that is no site. */
  lemma {:induction false} SafeUnit(ts: seq<Symbol>)
    requires ParseUnit(ts).Some?
    ensures var (e, rest) := ParseUnit(ts).value;
            && (Chained(e) <==> SiteFirst(ts))
            && (!SiteFirst(ts) ==> (Safe(ts, false) <==> SafeTree(e, false) && Safe(rest, false)))
            && (!SiteFirst(ts) ==> Safe(ts, true) == Safe(ts, false))
    decreases |ts|, 0
  {
    if ts[0] == Open {
      SafeOr(ts[1..]);
    } else if ts[0].Led? {
      SafeTail(ts[2..]);
    } else {
      SafeTail(ts[1..]);
    }
  }

  lemma SafeTail(ts: seq<Symbol>)
    ensures ts != [] && IsTail(ts[0]) ==> Safe(ts, false) == Safe(ts[1..], false)
  {
  }

  lemma {:induction false} SafeTests(e: Expr, ts: seq<Symbol>)
    requires ParseTests(e, ts).Some? && !Chained(e) && !e.Neg?
    ensures var (f, rest) := ParseTests(e, ts).value;
            && !Chained(f) && !f.Neg? && (SafeTree(f, false) && Safe(rest, false) <==> SafeTree(e, false) && Safe(ts, false))
    decreases |ts|, 1
  {
    if ts != [] {
      match ts[0]
      case Tested(test) => SafeTests(Is(e, test), ts[1..]);
      case Distinct(_) => SafeUnit(ts[1..]);
      case _ =>
    }
  }

  /** Outside a chain the NOTs in front are settled. */
  lemma OddIsSettled(e: Expr)
    requires !Chained(e) && !e.Neg?
    ensures SafeTree(e, true) == SafeTree(e, false)
  {
  }

  lemma {:induction false} ChainedTests(e: Expr, ts: seq<Symbol>)
    requires ParseTests(e, ts).Some? && Chained(e)
    ensures var (f, rest) := ParseTests(e, ts).value;
            if DistinctFollows(ts) then f.Unlike? && Chained(f.l)
            else Chained(f) && SiteOf(f) == SiteOf(e) && Safe(ts, false) == Safe(rest, false) &&
                 forall v :: Through(f, v) == AfterTests(Through(e, v), ts)
    decreases |ts|
  {
    if ts != [] && ts[0].Tested? {
      ChainedTests(Is(e, ts[0].test), ts[1..]);
    }
  }

  /** A site and what follows it. */
  lemma SafeSite(lead: Option<nat>, ts: seq<Symbol>, odd: bool)
    requires var (e, rest) := SiteAtom(lead, DateEq, ts); ParseTests(e, rest).Some?
    ensures var (e, rest) := SiteAtom(lead, DateEq, ts); var (f, last) := ParseTests(e, rest).value;
            SiteSafe(lead.Some?, ts, odd) && Safe(ts, false) <==> SafeTree(f, odd) && Safe(last, false)
  {
    var (e, rest) := SiteAtom(lead, DateEq, ts);
    ChainedTests(e, rest);
    SafeTail(ts);
    var (f, last) := ParseTests(e, rest).value;
    if ts != [] && ts[0].Cast? {
      assert DistinctFollows(rest) || !ChainSafe(f, odd);
    }
    if !DistinctFollows(rest) {
      assert forall v :: Through(f, v) == AfterTests(v, rest);
    }
  }

  lemma {:induction false} SafeNot(ts: seq<Symbol>, odd: bool)
    requires ParseNot(ts).Some?
    ensures var (e, rest) := ParseNot(ts).value; Safe(ts, odd) <==> SafeTree(e, odd) && Safe(rest, false)
    decreases |ts|, 2
  {
    if ts[0] == Not {
      SafeNot(ts[1..], !odd);
    } else if ts[0] == DateEq {
      assert ParseUnit(ts) == Some(SiteAtom(None, DateEq, ts[1..]));
      SafeSite(None, ts[1..], odd);
    } else if SiteFirst(ts) {
      assert ParseUnit(ts) == Some(SiteAtom(Some(ts[0].id), DateEq, ts[2..]));
      SafeSite(Some(ts[0].id), ts[2..], odd);
    } else {
      var (e, rest) := ParseUnit(ts).value;
      SafeUnit(ts);
      UnitIsNoNeg(ts);
      SafeTests(e, rest);
      OddIsSettled(ParseTests(e, rest).value.0);
    }
  }

  lemma UnitIsNoNeg(ts: seq<Symbol>)
    requires ParseUnit(ts).Some?
    ensures ParseUnit(ts).value.0.Atom? || ParseUnit(ts).value.0.Paren?
  {
  }

  lemma {:induction false} SafeAnd(ts: seq<Symbol>)
    requires ParseAnd(ts).Some?
    ensures var (e, rest) := ParseAnd(ts).value; Safe(ts, false) <==> SafeTree(e, false) && Safe(rest, false)
    decreases |ts|, 3
  {
    SafeNot(ts, false);
    var rest := ParseNot(ts).value.1;
    if rest != [] && rest[0] == And {
      SafeAnd(rest[1..]);
    }
  }

  lemma {:induction false} SafeOr(ts: seq<Symbol>)
    requires ParseOr(ts).Some?
    ensures var (e, rest) := ParseOr(ts).value; Safe(ts, false) <==> SafeTree(e, false) && Safe(rest, false)
    decreases |ts|, 4
  {
    SafeAnd(ts);
    var rest := ParseAnd(ts).value.1;
    if rest != [] && rest[0] == Or {
      SafeOr(rest[1..]);
    }
  }

  // ------------------------------------------------------------ the spliced tree keeps its value

  /** On this row the range is the day, both halves are unknown together, and at least one holds otherwise. */
  ghost predicate RangeHolds(w: World) {
    var d, a, b := BaseValue(DateEq, w), BaseValue(AtLeast, w), BaseValue(Before, w);
    d == And3(a, b) && (a == Unknown <==> b == Unknown) && !(a == False && b == False)
  }

  function AndAll(ps: seq<Expr>, w: World): Truth
    requires ps != []
  {
    if |ps| == 1 then Value(ps[0], w) else And3(Value(ps[0], w), AndAll(ps[1..], w))
  }

  /** A grown chain keeps its value: AND associates. */
  lemma {:induction false} ChainValue(ps: seq<Expr>, rest: Option<Expr>, w: World)
    requires ps != []
    ensures Value(Chain(ps, rest), w) == if rest.Some? then And3(AndAll(ps, w), Value(rest.value, w)) else AndAll(ps, w)
  {
    if |ps| > 1 {
      ChainValue(ps[1..], rest, w);
    }
  }

  /** The two pieces of a chained site. */
  lemma {:induction false} ChainedPieces(e: Expr, w: World)
    requires Chained(e)
    ensures var p, ps := SiteOf(e), Pieces(e);
            && |ps| == 2 && ps[0] == LowerHalf(p.lead)
            && Value(e, w) == Through(e, OperandValue(p, w))
            && Value(ps[1], w) == Through(e, OperandValue(Operand(None, Before, p.tail), w))
  {
    if e.Is? {
      ChainedPieces(e.e, w);
      PiecesOfIs(e.e, e.test);
      var ps := Pieces(e.e);
      assert Pieces(e) == [ps[0]] + [Is(ps[1], e.test)];
    }
  }

  lemma SafeChainKeeps(e: Expr, w: World)
    requires Chained(e) && ChainSafe(e, false) && RangeHolds(w)
    ensures AndAll(Pieces(e), w) == Value(e, w)
  {
    ChainedPieces(e, w);
    var p, ps := SiteOf(e), Pieces(e);
    assert ps[1..] == [ps[1]];
    assert AndAll(ps, w) == And3(Value(ps[0], w), Value(ps[1], w));
    if p.lead.Some? || p.tail.Some? {
      AlwaysFalse(e, OperandValue(p, w));
      AlwaysFalse(e, OperandValue(Operand(None, Before, p.tail), w));
    } else {
      assert Through(e, BaseValue(DateEq, w)) == And3(BaseValue(AtLeast, w), Through(e, BaseValue(Before, w))) by {
        ThroughTwice(e, w);
      }
    }
  }

  lemma AlwaysFalse(e: Expr, v: Truth)
    requires Chained(e) && Through(e, True) == Through(e, False) == Through(e, Unknown) == False
    ensures Through(e, v) == False
  {
  }

  lemma ThroughTwice(e: Expr, w: World)
    requires Chained(e) && Through(e, False) == False && Through(e, Unknown) != True && RangeHolds(w)
    ensures Through(e, BaseValue(DateEq, w)) == And3(BaseValue(AtLeast, w), Through(e, BaseValue(Before, w)))
  {
    var d, a, b := BaseValue(DateEq, w), BaseValue(AtLeast, w), BaseValue(Before, w);
    if a == Unknown {
      assert d == Unknown && b == Unknown;
    } else if a == False {
      assert b == True && d == False;
    } else {
      assert d == b;
    }
  }

  lemma Not3Twice(v: Truth)
    ensures Not3(Not3(v)) == v
  {
  }

  /** NOTs before a bare site go with the first piece alone, and cancel. */
  lemma {:induction false} BareKeeps(e: Expr, w: World, odd: bool)
    requires BareSite(e) && SafeTree(e, odd) && RangeHolds(w)
    ensures |Pieces(e)| == 2
    ensures var c := Core(e);
            && ChainSafe(c, false) && |Pieces(c)| == 2 && Pieces(e)[1] == Pieces(c)[1]
            && Value(Pieces(e)[0], w) == Negated(odd, Value(Pieces(c)[0], w)) && Value(e, w) == Negated(odd, Value(c, w))
  {
    if e.Neg? {
      BareKeeps(e.e, w, !odd);
      Not3Twice(Value(Core(e), w));
      Not3Twice(Value(Pieces(Core(e))[0], w));
    } else {
      ChainedPieces(e, w);
    }
  }

  function Core(e: Expr): (c: Expr)
    requires BareSite(e)
    ensures Chained(c)
  {
    if Chained(e) then e else Core(e.e)
  }

  function Negated(odd: bool, v: Truth): Truth {
    if odd then Not3(v) else v
  }

  /** A unit without a bare site is one piece. */
  lemma {:induction false} UnitKeeps(e: Expr, w: World, odd: bool)
    requires !BareSite(e) && SafeTree(e, odd) && RangeHolds(w)
    ensures |Pieces(e)| == 1 && Value(Pieces(e)[0], w) == Value(e, w)
    decreases e, 0
  {
    match e
    case Atom(_) =>
    case Paren(x) => SplicedKeeps(x, w);
    case Is(x, _) => UnitKeeps(x, w, false);
    case Unlike(l, r, _) =>
      UnitKeeps(l, w, false);
      UnitKeeps(r, w, false);
    case Neg(x) => UnitKeeps(x, w, !odd);
    case Conj(l, r) =>
      PiecesKeep(l, w);
      SplicedKeeps(r, w);
      ChainValue(Pieces(l), Some(Spliced(r)), w);
    case Disj(l, r) =>
      SplicedKeeps(l, w);
      SplicedKeeps(r, w);
  }

  lemma PiecesKeep(e: Expr, w: World)
    requires SafeTree(e, false) && RangeHolds(w)
    ensures AndAll(Pieces(e), w) == Value(e, w)
    decreases e, 1
  {
    if BareSite(e) {
      BareKeeps(e, w, false);
      SafeChainKeeps(Core(e), w);
      var ps, qs := Pieces(e), Pieces(Core(e));
      assert ps[1..] == [ps[1]] && qs[1..] == [qs[1]];
    } else {
      UnitKeeps(e, w, false);
    }
  }

  /** Where every site is safe, the spliced tree has the same value as before. */
  lemma {:induction false} SplicedKeeps(e: Expr, w: World)
    requires SafeTree(e, false) && RangeHolds(w)
    ensures Value(Spliced(e), w) == Value(e, w)
    decreases e, 2
  {
    PiecesKeep(e, w);
    ChainValue(Pieces(e), None, w);
  }

  // ------------------------------------------------------------ what the server accepts

  /** The server takes the range in the place of every site: the column compares with an instant, no cast of the literal falls
      on the interval, and an operator beside the site is defined for the half it is left with. */
  predicate Takes(e: Expr, env: Setting) {
    match e
    case Atom(p) =>
      p.base == DateEq ==>
        && env.column.DateLike() && !(p.tail.Some? && p.tail.value.Cast?)
        && (p.lead.Some? ==> env.accepts(Operand(p.lead, AtLeast, None)))
        && (p.tail.Some? && p.tail.value.Continued? ==> env.accepts(Operand(None, Before, p.tail)))
    case Paren(x) => Takes(x, env)
    case Is(x, _) => Takes(x, env)
    case Unlike(l, r, _) => Takes(l, env) && Takes(r, env)
    case Neg(x) => Takes(x, env)
    case Conj(l, r) => Takes(l, env) && Takes(r, env)
    case Disj(l, r) => Takes(l, env) && Takes(r, env)
  }

  predicate AllTyped(ps: seq<Expr>, env: Setting) {
    forall i :: 0 <= i < |ps| ==> Typed(ps[i], env)
  }

  lemma {:induction false} ChainTyped(ps: seq<Expr>, rest: Option<Expr>, env: Setting)
    requires ps != []
    ensures Typed(Chain(ps, rest), env) <==> AllTyped(ps, env) && (rest.Some? ==> Typed(rest.value, env))
  {
    if |ps| > 1 {
      ChainTyped(ps[1..], rest, env);
      assert forall i :: 0 <= i < |ps| ==> i == 0 || ps[i] == ps[1..][i - 1];
      assert forall i :: 0 <= i < |ps[1..]| ==> ps[1..][i] == ps[i + 1];
    } else {
      assert ps == [ps[0]];
    }
  }

  lemma OneTyped(e: Expr, env: Setting)
    ensures AllTyped([e], env) <==> Typed(e, env)
  {
    assert [e][0] == e;
  }

  lemma AllTypedConcat(a: seq<Expr>, b: seq<Expr>, env: Setting)
    ensures AllTyped(a + b, env) <==> AllTyped(a, env) && AllTyped(b, env)
  {
    assert forall i :: 0 <= i < |a| ==> (a + b)[i] == a[i];
    assert forall i :: 0 <= i < |b| ==> (a + b)[|a| + i] == b[i];
  }

  lemma UnlikeTyped(e: Expr, env: Setting)
    requires e.Unlike?
    ensures AllTyped(Pieces(e), env) <==> AllTyped(Pieces(e.l), env) && AllTyped(Pieces(e.r), env)
  {
    var a, b := Pieces(e.l), Pieces(e.r);
    var p, q, mid := Last(a), b[0], Unlike(Last(a), b[0], e.negated);
    PiecesOfUnlike(e.l, e.r, e.negated);
    Ends(a);
    Ends(b);
    MiddleTyped(Front(a), p, b[1..], q, mid, env);
  }

  lemma Ends(ps: seq<Expr>)
    requires ps != []
    ensures ps == Front(ps) + [Last(ps)] == [ps[0]] + ps[1..]
  {
  }

  lemma MiddleTyped(a: seq<Expr>, p: Expr, b: seq<Expr>, q: Expr, mid: Expr, env: Setting)
    requires Typed(mid, env) <==> Typed(p, env) && Typed(q, env)
    ensures AllTyped(a + [mid] + b, env) <==> AllTyped(a + [p], env) && AllTyped([q] + b, env)
  {
    AllTypedConcat(a + [mid], b, env);
    AllTypedConcat(a, [mid], env);
    AllTypedConcat(a, [p], env);
    AllTypedConcat([q], b, env);
    OneTyped(mid, env);
    OneTyped(p, env);
    OneTyped(q, env);
  }

  /** The server accepts the spliced tree exactly when it takes the range in the place of every site. */
  lemma {:induction false} TakenExactlyWhen(e: Expr, env: Setting)
    requires Typed(e, env)
    ensures AllTyped(Pieces(e), env) <==> Takes(e, env)
    ensures Typed(Spliced(e), env) <==> Takes(e, env)
  {
    ChainTyped(Pieces(e), None, env);
    match e
    case Atom(_) =>
    case Paren(x) => TakenExactlyWhen(x, env);
    case Is(x, test) =>
      TakenExactlyWhen(x, env);
      var qs := Pieces(x);
      Ends(qs);
      AllTypedConcat(Front(qs), [Last(qs)], env);
      AllTypedConcat(Front(qs), [Is(Last(qs), test)], env);
      OneTyped(Last(qs), env);
      OneTyped(Is(Last(qs), test), env);
    case Neg(x) =>
      TakenExactlyWhen(x, env);
      var qs := Pieces(x);
      Ends(qs);
      AllTypedConcat([qs[0]], qs[1..], env);
      AllTypedConcat([Neg(qs[0])], qs[1..], env);
      OneTyped(qs[0], env);
      OneTyped(Neg(qs[0]), env);
    case Unlike(l, r, _) =>
      TakenExactlyWhen(l, env);
      TakenExactlyWhen(r, env);
      UnlikeTyped(e, env);
    case Conj(l, r) =>
      TakenExactlyWhen(l, env);
      TakenExactlyWhen(r, env);
      ChainTyped(Pieces(l), Some(Spliced(r)), env);
    case Disj(l, r) =>
      TakenExactlyWhen(l, env);
      TakenExactlyWhen(r, env);
  }

  // ------------------------------------------------------------ the range

  /** For a pure date, the half-open range is the day: NULL, and every kind of column, included. */
  lemma RangeIsDay(w: World)
    requires w.literal.timeOfDay == 0
    ensures RangeHolds(w)
  {
    if w.column.Some? {
      match w.column.value
      case Instant(us) => Floor(us + w.offset, w.literal.day);
      case LocalTime(us) => Floor(us, w.literal.day);
      case Date(_) =>
      case Spelled(_) =>
    }
  }

  lemma Floor(x: int, d: int)
    ensures x / DAY == d <==> d * DAY <= x < d * DAY + DAY
  {
    var q, r := x / DAY, x % DAY;
    assert x == q * DAY + r && 0 <= r < DAY;
  }

  /** Only for a pure date: with a time of day the range starts late and ends late. */
  lemma RangeIsDayExactlyWhen(literal: Literal)
    requires IsLiteral(literal)
    ensures (forall w: World :: w.literal == literal ==> RangeHolds(w)) <==> literal.timeOfDay == 0
  {
    if literal.timeOfDay == 0 {
      forall w: World | w.literal == literal
        ensures RangeHolds(w)
      {
        RangeIsDay(w);
      }
    } else {
      var w := World(Some(Date(literal.day)), 0, literal, _ => Unknown, _ => Unknown);
      assert !RangeHolds(w);
    }
  }

  /** Where every site is safe among its neighbours and the server takes the range in its place, the rewritten condition
      parses again, is accepted, and has the same three-valued value on every row, wherever the sites stand among ANDs, ORs,
      NOTs and parentheses, with IS tests and IS DISTINCT FROM over them or not. */
  lemma RewriteKeepsMeaning(ts: seq<Symbol>, env: Setting, w: World)
    requires Parses(ts) && Typed(Tree(ts), env) && Takes(Tree(ts), env) && Safe(ts, false) && w.literal.timeOfDay == 0
    ensures Parses(Splice(ts)) && Typed(Tree(Splice(ts)), env) && Meaning(Splice(ts), w) == Meaning(ts, w)
  {
    SpliceParses(ts);
    SafeOr(ts);
    RangeIsDay(w);
    SplicedKeeps(Tree(ts), w);
    TakenExactlyWhen(Tree(ts), env);
  }
}
