/** The DATE() rewrite from the text of a statement to the meaning of its condition. */
module DateQuery {
  import opened Common
  import opened SqlLexer
  import opened Text

  import opened DateCondition
  import opened DateExact
  import opened DateNeighbours
  import opened DateRewrite
  import opened DateRule
  import opened DateText
  import IndexAdvice
  import Schema

  // ------------------------------------------------------------ from lexemes to conditions

  /** A symbol of the condition with the lexemes that stand for it. */
  datatype Token = Token(symbol: Symbol, lexemes: seq<Lexeme>)

  predicate IsKeyword(ls: seq<Lexeme>, keyword: string) {
    |ls| == 1 && ls[0].Word? && Lower(ls[0].text) == keyword
  }

  /** The words of a keyword, or of several. */
  predicate AreWords(ls: seq<Lexeme>, words: seq<string>) {
    |ls| == |words| && forall i :: 0 <= i < |ls| ==> IsKeyword([ls[i]], words[i])
  }

  /** The ways to write a test; IS NULL asks of a truth value what IS UNKNOWN asks. */
  function TestSpellings(test: BoolTest): seq<seq<string>> {
    match test
    case IsTrue => [["is", "true"]]
    case IsNotTrue => [["is", "not", "true"]]
    case IsFalse => [["is", "false"]]
    case IsNotFalse => [["is", "not", "false"]]
    case IsUnknown => [["is", "unknown"], ["is", "null"], ["isnull"]]
    case IsNotUnknown => [["is", "not", "unknown"], ["is", "not", "null"], ["notnull"]]
  }

  function DistinctWords(negated: bool): seq<string> {
    if negated then ["is", "not", "distinct", "from"] else ["is", "distinct", "from"]
  }

  function TypeWord(to: SqlType): string {
    match to
    case DateType => "date"
    case TimestampType => "timestamp"
    case TimestamptzType => "timestamptz"
    case OtherType(name) => name
  }

  /** The lexemes spell the symbol. Another condition, and operators of other meaning, may be spelled in any way. */
  predicate Spells(t: Token, col: string, lit: string) {
    match t.symbol
    case And => IsKeyword(t.lexemes, "and")
    case Or => IsKeyword(t.lexemes, "or")
    case Not => IsKeyword(t.lexemes, "not")
    case Open => t.lexemes == [Mark('(')]
    case Close => t.lexemes == [Mark(')')]
    case Other(_) => t.lexemes != []
    case DateEq => LowerLexemes(t.lexemes) == LowerLexemes(DateEqLexemes(col, lit))
    case AtLeast => t.lexemes == BoundLexemes(col, ">=", lit)
    case Before => t.lexemes == BoundLexemes(col, "<", lit) + PLUS_A_DAY
    case Led(_) => t.lexemes != []
    case Continued(_) => t.lexemes != []
    case Cast(to) => |t.lexemes| == 2 && t.lexemes[0] == Operator("::") && IsKeyword(t.lexemes[1..], TypeWord(to))
    case Tested(test) => exists i :: 0 <= i < |TestSpellings(test)| && AreWords(t.lexemes, TestSpellings(test)[i])
    case Distinct(negated) => AreWords(t.lexemes, DistinctWords(negated))
  }

  predicate AllSpell(ts: seq<Token>, col: string, lit: string) {
    forall i :: 0 <= i < |ts| ==> Spells(ts[i], col, lit)
  }

  function Symbols(ts: seq<Token>): seq<Symbol> {
    seq(|ts|, i requires 0 <= i < |ts| => ts[i].symbol)
  }

  function Lexemes(ts: seq<Token>): seq<Lexeme> {
    if ts == [] then [] else ts[0].lexemes + Lexemes(ts[1..])
  }

  function Range(col: string, lit: string): seq<Token> {
    [Token(AtLeast, Lex(LowerBound(col, lit))), Token(And, [Word("AND")]), Token(Before, Lex(UpperBound(col, lit)))]
  }

  lemma {:induction false} LexemesConcat(a: seq<Token>, b: seq<Token>)
    ensures Lexemes(a + b) == Lexemes(a) + Lexemes(b)
  {
    if a == [] {
      assert a + b == b;
    } else {
      assert (a + b)[1..] == a[1..] + b;
      LexemesConcat(a[1..], b);
    }
  }

  lemma LexemesAround(head: seq<Lexeme>, pre: seq<Token>, mid: seq<Token>, post: seq<Token>, tail: seq<Lexeme>)
    ensures head + Lexemes(pre + mid + post) + tail == (head + Lexemes(pre)) + Lexemes(mid) + (Lexemes(post) + tail)
  {
    LexemesConcat(pre + mid, post);
    LexemesConcat(pre, mid);
  }

  lemma RangeIsRead(col: string, lit: string)
    requires IsName(col) && IsPlain(lit)
    ensures Lexemes(Range(col, lit)) == Lex(Replacement(col, lit)) && AllSpell(Range(col, lit), col, lit)
    ensures Symbols(Range(col, lit)) == [AtLeast, And, Before]
  {
    var ts := Range(col, lit);
    LexReplacement(col, lit);
    ConditionsAreSpelled(col, lit);
    assert Lexemes(ts[2..]) == Lex(UpperBound(col, lit)) + [];
    assert ts[1..][1..] == ts[2..];
    assert Lexemes(ts[1..]) == [Word("AND")] + Lexemes(ts[2..]);
    assert Lexemes(ts) == Lex(LowerBound(col, lit)) + Lexemes(ts[1..]);
    assert Lower("AND") == "and";
  }

  lemma {:induction false} SpliceConcat(a: seq<Symbol>, b: seq<Symbol>)
    ensures Splice(a + b) == Splice(a) + Splice(b)
  {
    if a == [] {
      assert a + b == b;
    } else {
      assert (a + b)[1..] == a[1..] + b;
      SpliceConcat(a[1..], b);
    }
  }

  lemma {:induction false} SpliceNothing(ts: seq<Symbol>)
    requires DateEq !in ts
    ensures Splice(ts) == ts
  {
    if ts != [] {
      SpliceNothing(ts[1..]);
    }
  }

  lemma SpliceAround(pre: seq<Symbol>, post: seq<Symbol>)
    requires DateEq !in pre && DateEq !in post
    ensures Splice(pre + [DateEq] + post) == pre + [AtLeast, And, Before] + post
  {
    SpliceConcat(pre + [DateEq], post);
    SpliceConcat(pre, [DateEq]);
    SpliceNothing(pre);
    SpliceNothing(post);
    assert Splice([DateEq]) == [AtLeast, And, Before] + Splice([]);
  }

  /** The replacement's three tokens stand where the window's one token stood. */
  lemma TokensSplice(pre: seq<Token>, hit: Token, post: seq<Token>, col: string, lit: string)
    requires IsName(col) && IsPlain(lit) && hit.symbol == DateEq && DateEq !in Symbols(pre) && DateEq !in Symbols(post)
    ensures Symbols(pre + Range(col, lit) + post) == Splice(Symbols(pre + [hit] + post))
  {
    RangeIsRead(col, lit);
    SpliceAround(Symbols(pre), Symbols(post));
    assert Symbols(pre + [hit] + post) == Symbols(pre) + [DateEq] + Symbols(post);
    assert Symbols(pre + Range(col, lit) + post) == Symbols(pre) + Symbols(Range(col, lit)) + Symbols(post);
  }

  /** The lexemes around the window are those of the statement's head, of the tokens of its condition, and of its tail. */
  ghost predicate ReadAs(text: string, head: seq<Lexeme>, ts: seq<Token>, tail: seq<Lexeme>) {
    Lex(text) == head + Lexemes(ts) + tail
  }

  predicate Around(
    before: string, after: string, col: string, lit: string, head: seq<Lexeme>, pre: seq<Token>, post: seq<Token>, tail: seq<Lexeme>)
  {
    && Lex(before) == head + Lexemes(pre) && AllSpell(pre, col, lit) && DateEq !in Symbols(pre)
    && Lex(after) == Lexemes(post) + tail && AllSpell(post, col, lit) && DateEq !in Symbols(post)
  }

  lemma AllSpellConcat(a: seq<Token>, b: seq<Token>, col: string, lit: string)
    requires AllSpell(a, col, lit) && AllSpell(b, col, lit)
    ensures AllSpell(a + b, col, lit)
  {
    forall i | 0 <= i < |a + b|
      ensures Spells((a + b)[i], col, lit)
    {
      assert (a + b)[i] == if i < |a| then a[i] else b[i - |a|];
    }
  }

  lemma ReadsInPlace(
    text: string, mid: seq<Token>, lexemes: seq<Lexeme>, before: string, after: string, col: string, lit: string,
    head: seq<Lexeme>, pre: seq<Token>, post: seq<Token>, tail: seq<Lexeme>)
    requires Around(before, after, col, lit, head, pre, post, tail) && Lexemes(mid) == lexemes && AllSpell(mid, col, lit)
    ensures ReadAs(text, head, pre + mid + post, tail) <==> Lex(text) == Lex(before) + lexemes + Lex(after)
    ensures AllSpell(pre + mid + post, col, lit)
  {
    LexemesAround(head, pre, mid, post, tail);
    AllSpellConcat(pre, mid, col, lit);
    AllSpellConcat(pre + mid, post, col, lit);
  }

  /** What the rule's text is read as: the statement with the range in the condition's place, exactly when the window does
      not fuse with the word in front of it. */
  lemma RewrittenIsRead(
    sql: string, col: string, lit: string, i: int, j: int, before: string, gap: string, core: string, after: string, out: string,
    head: seq<Lexeme>, pre: seq<Token>, post: seq<Token>, tail: seq<Lexeme>)
    requires Rewritten(sql, col, lit, i, j, before, gap, core, after, out) && Around(before, after, col, lit, head, pre, post, tail)
    ensures var original, rewritten := pre + [Token(DateEq, Lex(core))] + post, pre + Range(col, lit) + post;
            && ReadAs(sql, head, original, tail) && AllSpell(original, col, lit) && AllSpell(rewritten, col, lit)
            && (!Fuses(before, gap) ==> ReadAs(out, head, rewritten, tail))
            && (!ModeAfter(before).InLine? ==> (ReadAs(out, head, rewritten, tail) <==> !Fuses(before, gap)))
            && Symbols(rewritten) == Splice(Symbols(original))
  {
    ResultIsReadExactlyWhen(sql, col, lit, i, j, before, gap, core, after, out);
    ConditionInPlace(sql, core, before, after, col, lit, head, pre, post, tail);
    RangeInPlace(out, before, after, col, lit, head, pre, post, tail);
    TokensSplice(pre, Token(DateEq, Lex(core)), post, col, lit);
  }

  lemma ConditionInPlace(
    sql: string, core: string, before: string, after: string, col: string, lit: string,
    head: seq<Lexeme>, pre: seq<Token>, post: seq<Token>, tail: seq<Lexeme>)
    requires Around(before, after, col, lit, head, pre, post, tail)
    requires IsName(col) && IsPlain(lit) && LowerLexemes(Lex(core)) == LowerLexemes(Lex(Sought(col, lit)))
    ensures var original := pre + [Token(DateEq, Lex(core))] + post;
            AllSpell(original, col, lit) && (ReadAs(sql, head, original, tail) <==> Lex(sql) == Lex(before) + Lex(core) + Lex(after))
  {
    var hit := Token(DateEq, Lex(core));
    assert Lexemes([hit]) == hit.lexemes + [];
    ConditionsAreSpelled(col, lit);
    ReadsInPlace(sql, [hit], Lex(core), before, after, col, lit, head, pre, post, tail);
  }

  lemma RangeInPlace(
    out: string, before: string, after: string, col: string, lit: string,
    head: seq<Lexeme>, pre: seq<Token>, post: seq<Token>, tail: seq<Lexeme>)
    requires Around(before, after, col, lit, head, pre, post, tail) && IsName(col) && IsPlain(lit)
    ensures var rewritten := pre + Range(col, lit) + post;
            && AllSpell(rewritten, col, lit)
            && (ReadAs(out, head, rewritten, tail) <==> Lex(out) == Lex(before) + Lex(Replacement(col, lit)) + Lex(after))
  {
    RangeIsRead(col, lit);
    ReadsInPlace(out, Range(col, lit), Lex(Replacement(col, lit)), before, after, col, lit, head, pre, post, tail);
  }

  /** What the rule returns for a statement whose WHERE clause is read as `pre`, the condition and `post`: where every site is
      safe among its neighbours and the server takes the range in its place, the clause parses again, is accepted, and has the
      same value as before on every row; and unless the window fuses, that clause is what the returned text is read as. */
  lemma RewrittenQueryKeepsMeaning(
    sql: string, col: string, lit: string, i: int, j: int, before: string, gap: string, core: string, after: string, out: string,
    head: seq<Lexeme>, pre: seq<Token>, post: seq<Token>, tail: seq<Lexeme>, env: Setting, w: World)
    requires Rewritten(sql, col, lit, i, j, before, gap, core, after, out) && Around(before, after, col, lit, head, pre, post, tail)
    requires var ts := Original(pre, core, post);
             Parses(ts) && Typed(Tree(ts), env) && Takes(Tree(ts), env) && Safe(ts, false)
    requires w.literal.timeOfDay == 0
    ensures var original, rewritten := pre + [Token(DateEq, Lex(core))] + post, pre + Range(col, lit) + post;
            && ReadAs(sql, head, original, tail) && (!Fuses(before, gap) ==> ReadAs(out, head, rewritten, tail))
            && Parses(Symbols(rewritten)) && Typed(Tree(Symbols(rewritten)), env)
            && Meaning(Symbols(rewritten), w) == Meaning(Symbols(original), w)
  {
    RewrittenIsRead(sql, col, lit, i, j, before, gap, core, after, out, head, pre, post, tail);
    RewriteKeepsMeaning(Original(pre, core, post), env, w);
  }

  /** The clause as it was. */
  function Original(pre: seq<Token>, core: string, post: seq<Token>): seq<Symbol> {
    Symbols(pre + [Token(DateEq, Lex(core))] + post)
  }

  /** The returned text is read as a statement whose clause, with the range in it, the server takes and finds to have on all
      rows the value the clause had. */
  ghost predicate IsKept(
    out: string, col: string, lit: string, core: string, head: seq<Lexeme>, pre: seq<Token>, post: seq<Token>, tail: seq<Lexeme>,
    env: Setting)
  {
    var original, rewritten := Original(pre, core, post), Symbols(pre + Range(col, lit) + post);
    && ReadAs(out, head, pre + Range(col, lit) + post, tail)
    && Parses(original) && Parses(rewritten) && Typed(Tree(rewritten), env)
    && forall w: World :: RowOf(w, env) ==> Meaning(rewritten, w) == Meaning(original, w)
  }

  /** For a clause whose parts are all different, not behind an open line comment: exactly when nothing fuses, the server takes
      the range, and the cases of the clause are kept. */
  lemma RewrittenQueryIsKeptExactlyWhen(
    sql: string, col: string, lit: string, i: int, j: int, before: string, gap: string, core: string, after: string, out: string,
    head: seq<Lexeme>, pre: seq<Token>, post: seq<Token>, tail: seq<Lexeme>, env: Setting)
    requires Rewritten(sql, col, lit, i, j, before, gap, core, after, out) && Around(before, after, col, lit, head, pre, post, tail)
    requires var ts := Original(pre, core, post); Parses(ts) && Typed(Tree(ts), env) && ReadOnce(ts)
    requires IsLiteral(env.literal) && !ModeAfter(before).InLine?
    ensures IsKept(out, col, lit, core, head, pre, post, tail, env) <==>
              !Fuses(before, gap) && Keeps(Tree(Original(pre, core, post)), env)
  {
    RewrittenIsRead(sql, col, lit, i, j, before, gap, core, after, out, head, pre, post, tail);
    RewriteKeepsMeaningExactlyWhen(Original(pre, core, post), env);
  }

  lemma HoldsSite(pre: seq<Token>, core: string, post: seq<Token>)
    requires Parses(Original(pre, core, post))
    ensures DateEq in AtomsOf(Tree(Original(pre, core, post)))
  {
    var ts := Original(pre, core, post);
    AtomsOr(ts);
    assert ts[|pre|] == DateEq;
    AtomsStand(ts, DateEq);
    assert AtomsOf(Tree(ts)) + [] == AtomsOf(Tree(ts));
  }

  /** And where tests stand only at the condition itself, no operator and no cast beside it, and the literal is a pure date:
      exactly when nothing fuses, the condition is safe among its neighbours, and its column is date-like. */
  lemma PlainQueryIsKeptExactlyWhen(
    sql: string, col: string, lit: string, i: int, j: int, before: string, gap: string, core: string, after: string, out: string,
    head: seq<Lexeme>, pre: seq<Token>, post: seq<Token>, tail: seq<Lexeme>, env: Setting)
    requires Rewritten(sql, col, lit, i, j, before, gap, core, after, out) && Around(before, after, col, lit, head, pre, post, tail)
    requires var ts := Original(pre, core, post); Parses(ts) && Typed(Tree(ts), env) && ReadOnce(ts)
    requires var e := Tree(Original(pre, core, post)); Local(e) && Plain(e)
    requires env.literal.timeOfDay == 0 && !ModeAfter(before).InLine?
    ensures IsKept(out, col, lit, core, head, pre, post, tail, env) <==>
              !Fuses(before, gap) && Safe(Original(pre, core, post), false) && env.column.DateLike()
  {
    var ts := Original(pre, core, post);
    RewrittenQueryIsKeptExactlyWhen(sql, col, lit, i, j, before, gap, core, after, out, head, pre, post, tail, env);
    RewriteKeepsMeaningExactlyWhen(ts, env);
    NeighboursDecide(ts, env);
    HoldsSite(pre, core, post);
    PlainIsTakenExactlyWhen(Tree(ts), env);
  }

  // ------------------------------------------------------------ the rule's look at the schema

  /** The clause is kept for every type the column may have, as far as the rule's schema tells. */
  ghost predicate IsKeptSurely(
    p: IndexAdvice.Predicate, schema: Option<seq<Schema.Table>>, out: string, col: string, lit: string, core: string,
    head: seq<Lexeme>, pre: seq<Token>, post: seq<Token>, tail: seq<Lexeme>, env: Setting)
  {
    forall ty :: Possible(p, schema, ty) ==>
      IsKept(out, col, lit, core, head, pre, post, tail, env.(column := TypeNamed(ty)))
  }

  /** Where the rule applies, its look at the schema is enough exactly when the schema holds the column: the result is kept for
      every type the column may have exactly when, besides, nothing fuses and the condition is safe among its neighbours. */
  lemma RuleIsKeptExactlyWhen(
    p: IndexAdvice.Predicate, schema: Option<seq<Schema.Table>>, sql: string, col: string, lit: string, i: int, j: int,
    before: string, gap: string, core: string, after: string, out: string,
    head: seq<Lexeme>, pre: seq<Token>, post: seq<Token>, tail: seq<Lexeme>, env: Setting)
    requires Applies(p, schema) && col == Qualify(p.qualifier, p.column) && lit == TrimQuotes(p.literalText)
    requires Rewritten(sql, col, lit, i, j, before, gap, core, after, out) && Around(before, after, col, lit, head, pre, post, tail)
    requires var ts := Original(pre, core, post);
             Parses(ts) && ReadOnce(ts) && Local(Tree(ts)) && Plain(Tree(ts)) && forall c :: Typed(Tree(ts), env.(column := c))
    requires env.literal.timeOfDay == 0 && !ModeAfter(before).InLine?
    ensures IsKeptSurely(p, schema, out, col, lit, core, head, pre, post, tail, env) <==>
              !Fuses(before, gap) && Safe(Original(pre, core, post), false) && HoldsColumn(p, schema)
  {
    forall ty
      ensures IsKept(out, col, lit, core, head, pre, post, tail, env.(column := TypeNamed(ty))) <==>
                !Fuses(before, gap) && Safe(Original(pre, core, post), false) && Lower(ty) in DATE_LIKE
    {
      var there := env.(column := TypeNamed(ty));
      PlainQueryIsKeptExactlyWhen(sql, col, lit, i, j, before, gap, core, after, out, head, pre, post, tail, there);
      DateLikeByName(ty);
    }
    GuardsTypeExactlyWhen(p, schema);
    SomeType(p, schema);
  }

  /** Some type is possible. */
  lemma SomeType(p: IndexAdvice.Predicate, schema: Option<seq<Schema.Table>>)
    ensures exists ty :: Possible(p, schema, ty)
  {
    if HoldsColumn(p, schema) {
      var t := FoundTable(p, schema).value;
      var k :| 0 <= k < |t.columns| && EqualFold(t.columns[k].name, p.column);
      assert Possible(p, schema, t.columns[k].typeName);
    } else {
      assert Possible(p, schema, "date");
    }
  }
}
