/** Statements on which the DATE() rewrite returns a text no database can read: the blank-insensitive scan takes the blank
    in front of the condition into its window, and the column lands on the word before it. */
module DateFused {
  import opened Common
  import opened Text
  import opened TextRewrite
  import opened DateRule
  import opened DateText
  import opened SqlLexer
  import IndexAdvice
  import Schema

  /** The condition written with two blanks before the equals sign, behind one blank. */
  function Wide(col: string, lit: string): string {
    " " + (Call(col) + (" " + (" " + ("=" + (" " + InQuotes(lit))))))
  }

  lemma BlankFields(s: string)
    ensures Fields(" " + s) == Fields(s)
  {
    assert (" " + s)[1..] == s;
  }

  lemma WideReads(col: string, lit: string)
    requires IsName(col) && IsPlain(lit)
    ensures Squeeze(Wide(col, lit)) == Sought(col, lit) && |Wide(col, lit)| == |Sought(col, lit)| + 2
  {
    var q := InQuotes(lit);
    SoughtFields(col, lit);
    NameIsWord(col);
    FieldsOfJoin([q]);
    WordThenBlank("=", q);
    BlankFields("=" + (" " + q));
    WordThenBlank(Call(col), " " + ("=" + (" " + q)));
    BlankFields(Call(col) + (" " + (" " + ("=" + (" " + q)))));
    assert Fields(Wide(col, lit)) == [Call(col)] + (["="] + [q]);
    assert Fields(Wide(col, lit)) == SoughtWords(col, lit);
  }

  /** Of the matches that begin at one place there is a shortest. */
  lemma {:induction false} LeastEnd(s: string, target: string, i: int, j: int) returns (e: int)
    requires InReach(s, target, i, j) && Matches(s, target, i, j)
    ensures InReach(s, target, i, e) && Matches(s, target, i, e)
    ensures forall l :: InReach(s, target, i, l) && l < e ==> !Matches(s, target, i, l)
    decreases j - i
  {
    if l :| InReach(s, target, i, l) && l < j && Matches(s, target, i, l) {
      e := LeastEnd(s, target, i, l);
    } else {
      e := j;
    }
  }

  /** The first word of a text, at its indentation. */
  lemma {:induction false} FirstWord(s: string, n: nat)
    requires Fields(s) != [] && n < |Fields(s)[0]|
    ensures Indent(s) + n < |s| && Fields(s)[0][n] == s[Indent(s) + n]
    ensures forall k :: Indent(s) <= k <= Indent(s) + n ==> !IsSpace(s[k])
  {
    if IsSpace(s[0]) {
      FirstWord(s[1..], n);
    }
  }

  /** A parenthesis stands four places behind the first word's start, and no blank between. */
  predicate FirstWordOpens(s: string) {
    && Indent(s) + 4 < |s| && s[Indent(s) + 4] == '('
    && forall k :: Indent(s) <= k <= Indent(s) + 4 ==> !IsSpace(s[k])
  }

  lemma ParenthesisInLower(window: string, col: string, lit: string)
    requires IsName(col) && IsPlain(lit) && Reads(window, col, lit)
    ensures FirstWordOpens(Lower(window))
  {
    var call := Lower(Call(col));
    WindowFields(window, col, lit);
    assert LowerAll(SoughtWords(col, lit))[0] == call;
    assert Call(col)[4] == '(';
    assert call[4] == LowerChar('(') == '(';
    FirstWord(Lower(window), 4);
  }

  /** So it does in every window that reads like the condition. */
  lemma ParenthesisInside(window: string, col: string, lit: string)
    requires IsName(col) && IsPlain(lit) && Reads(window, col, lit)
    ensures FirstWordOpens(window)
  {
    ParenthesisInLower(window, col, lit);
    LowerShows(window);
  }

  lemma LowerShows(s: string)
    requires FirstWordOpens(Lower(s))
    ensures FirstWordOpens(s)
  {
    var n := Indent(s);
    IndentOfLower(s);
    forall k | n <= k <= n + 4
      ensures !IsSpace(s[k])
    {
      LowerCharClasses(s[k]);
    }
  }

  predicate Parenless(s: string) {
    '(' !in s
  }

  /** A window that begins in the lead has its first word there. */
  lemma IndentInLead(sql: string, lead: string, k: int, l: int)
    requires lead != "" && !IsSpace(lead[|lead| - 1]) && |lead| <= |sql| && sql[..|lead|] == lead
    requires 0 <= k < |lead| && k < l <= |sql|
    ensures k + Indent(sql[k..l]) < |lead|
  {
    var window := sql[k..l];
    if l >= |lead| {
      assert window[|lead| - 1 - k] == sql[..|lead|][|lead| - 1];
    }
  }

  /** No window that begins in the lead matches. */
  lemma NothingInLead(sql: string, lead: string, col: string, lit: string, k: int, l: int)
    requires IsName(col) && IsPlain(lit) && Parenless(lead) && lead != "" && !IsSpace(lead[|lead| - 1])
    requires |lead| < |sql| && sql[..|lead|] == lead && IsSpace(sql[|lead|])
    requires k < |lead| && InReach(sql, Sought(col, lit), k, l)
    ensures !Matches(sql, Sought(col, lit), k, l)
  {
    var window := sql[k..l];
    var m := Indent(window);
    IndentInLead(sql, lead, k, l);
    if m + 4 < |window| {
      if k + m + 4 < |lead| {
        assert window[m + 4] == sql[..|lead|][k + m + 4] == lead[k + m + 4];
      } else {
        assert window[|lead| - k] == sql[|lead|] && m <= |lead| - k <= m + 4;
      }
    }
    if Reads(window, col, lit) {
      ParenthesisInside(window, col, lit);
    }
  }

  lemma CallParenthesis(col: string, lit: string)
    requires IsName(col)
    ensures Sought(col, lit)[4] == '(' && Sought(col, lit)[|Call(col)| + 1] == '=' && |Sought(col, lit)| > |Call(col)| + 1
    ensures forall k :: 0 <= k < |Call(col)| && Call(col)[k] == '(' ==> k == 4
  {
    assert Sought(col, lit) == Call(col) + " = '" + lit + "'";
    assert forall k :: 0 <= k < |col| ==> Call(col)[k + 5] == col[k];
    assert forall k :: 5 <= k < 5 + |col| ==> Call(col)[k] == col[k - 5];
  }

  lemma OccursChar(s: string, sub: string, k: int, x: int)
    requires OccursAt(s, sub, k) && 0 <= x < |sub|
    ensures 0 <= k + x < |s| && s[k + x] == sub[x]
  {
    assert s[k..k + |sub|][x] == s[k + x];
  }

  lemma MarksOfLower(s: string)
    ensures forall x :: 0 <= x < |s| ==> (Lower(s)[x] == '(' <==> s[x] == '(') && (Lower(s)[x] == '=' <==> s[x] == '=')
  {
    forall x | 0 <= x < |s|
      ensures (Lower(s)[x] == '(' <==> s[x] == '(') && (Lower(s)[x] == '=' <==> s[x] == '=')
    {
      LowerCharClasses(s[x]);
    }
  }

  lemma OnlyParenthesis(sql: string, lead: string, col: string, lit: string, after: string, x: int)
    requires IsName(col) && Parenless(lead) && Parenless(lit) && Parenless(after)
    requires sql == lead + Wide(col, lit) + after && 0 <= x < |sql|
    ensures sql[x] == '(' ==> x == |lead| + 5
  {
    var wide, n := Wide(col, lit), |lead|;
    CallParenthesis(col, lit);
    if x < n {
      assert sql[x] == lead[x];
    } else if x < n + |wide| {
      WideParenthesis(col, lit, x - n);
      assert sql[x] == wide[x - n];
    } else {
      assert sql[x] == after[x - n - |wide|];
    }
  }

  lemma WideParenthesis(col: string, lit: string, y: int)
    requires IsName(col) && Parenless(lit) && 0 <= y < |Wide(col, lit)|
    ensures Wide(col, lit)[y] == '(' ==> y == 5
  {
    var wide := Wide(col, lit);
    CallParenthesis(col, lit);
    if 1 <= y < 1 + |Call(col)| {
      assert wide[y] == Call(col)[y - 1];
    } else if |Call(col)| + 5 < y < |wide| - 1 {
      assert wide[y] == lit[y - |Call(col)| - 6];
    }
  }

  /** The condition stands nowhere as the rule spells it. */
  lemma NotAsItIs(sql: string, lead: string, col: string, lit: string, after: string, k: int)
    requires IsName(col) && IsPlain(lit) && Parenless(lead) && Parenless(lit) && Parenless(after)
    requires sql == lead + Wide(col, lit) + after
    ensures !OccursAt(Lower(sql), Lower(Sought(col, lit)), k)
  {
    var target, e := Sought(col, lit), |Call(col)| + 1;
    CallParenthesis(col, lit);
    MarksOfLower(sql);
    MarksOfLower(target);
    forall x | 0 <= x < |sql|
      ensures sql[x] == '(' ==> x == |lead| + 5
    {
      OnlyParenthesis(sql, lead, col, lit, after, x);
    }
    assert Wide(col, lit)[e + 1] == ' ' && sql[|lead| + 1 + e] == Wide(col, lit)[e + 1];
    if OccursAt(Lower(sql), Lower(target), k) {
      OccursChar(Lower(sql), Lower(target), k, 4);
      OccursChar(Lower(sql), Lower(target), k, e);
    }
  }

  /** In every such statement the rule replaces a window that begins with the blank behind the lead. The result begins with
      the lead and, right behind it, the column; and where the lead ends in a word, the two are read as one. */
  lemma WideConditionFuses(sql: string, lead: string, col: string, lit: string, after: string) returns (e: int)
    requires IsName(col) && IsPlain(lit) && Parenless(lead) && Parenless(lit) && Parenless(after)
    requires lead != "" && !IsSpace(lead[|lead| - 1]) && sql == lead + Wide(col, lit) + after
    ensures Chosen(sql, Sought(col, lit), |lead|, e) && Matches(sql, Sought(col, lit), |lead|, e) && IsSpace(sql[|lead|])
    ensures forall out :: Replaced(sql, Sought(col, lit), Replacement(col, lit), out) ==> lead + Replacement(col, lit) <= out
    ensures ModeAfter(lead).InWord? ==> !ReadApart(lead, Replacement(col, lit))
  {
    var target, n, j := Sought(col, lit), |lead|, |lead| + |Wide(col, lit)|;
    WideReads(col, lit);
    assert sql[n..j] == Wide(col, lit) && sql[..n] == lead && sql[n] == ' ';
    assert InReach(sql, target, n, j) && Matches(sql, target, n, j);
    e := LeastEnd(sql, target, n, j);
    forall k
      ensures !OccursAt(Lower(sql), Lower(target), k)
    {
      NotAsItIs(sql, lead, col, lit, after, k);
    }
    forall k, l | InReach(sql, target, k, l) && k < n
      ensures !Matches(sql, target, k, l)
    {
      NothingInLead(sql, lead, col, lit, k, l);
    }
    assert FirstMatch(sql, target, n, e);
    assert FallbackAt(sql, target, n, e);
    forall out | Replaced(sql, target, Replacement(col, lit), out)
      ensures lead + Replacement(col, lit) <= out
    {
      ReplacedThere(sql, target, Replacement(col, lit), out, n, e);
    }
    if ModeAfter(lead).InWord? {
      NotReadInThree(lead, " ", col, lit, after);
    }
  }

  lemma ReplacementBegins(col: string, lit: string)
    ensures col + " >= '" <= Replacement(col, lit)
  {
    assert Replacement(col, lit) == (col + " >= '") + (lit + "'::timestamptz" + " AND " + UpperBound(col, lit));
  }

  lemma PrefixOfPrefix(a: string, b: string, c: string, d: string)
    requires b <= c && a + c <= d
    ensures a + b <= d
  {
    assert (a + c)[..|a + b|] == a + b;
  }

  /** The result the rule returns then. */
  lemma FusedResult(sql: string, lead: string, col: string, lit: string, after: string) returns (out: string)
    requires IsName(col) && IsPlain(lit) && Parenless(lead) && Parenless(lit) && Parenless(after)
    requires lead != "" && !IsSpace(lead[|lead| - 1]) && sql == lead + Wide(col, lit) + after
    ensures Replaced(sql, Sought(col, lit), Replacement(col, lit), out) && lead + (col + " >= '") <= out
  {
    var e := WideConditionFuses(sql, lead, col, lit, after);
    out := sql[..|lead|] + Replacement(col, lit) + sql[e..];
    ReplacementBegins(col, lit);
    PrefixOfPrefix(lead, col + " >= '", Replacement(col, lit), out);
  }

  const LEAD := "SELECT * FROM t WHERE"
  const CONDITION := " DATE(ts)  = '2024-01-01'"
  const STATEMENT := LEAD + CONDITION
  const COLUMN := "ts"
  const DAY_LITERAL := "2024-01-01"

  lemma ItsParts()
    ensures IsName(COLUMN) && IsPlain(DAY_LITERAL) && Parenless(LEAD) && Parenless(DAY_LITERAL) && !IsSpace(LEAD[|LEAD| - 1])
  {
  }

  lemma ItsCall()
    ensures Call(COLUMN) == "DATE(ts)"
  {
  }

  lemma ItsLiteral()
    ensures " " + (" " + ("=" + (" " + InQuotes(DAY_LITERAL)))) == "  = '2024-01-01'"
  {
  }

  lemma ItsSpelling()
    ensures Wide(COLUMN, DAY_LITERAL) == CONDITION
  {
    ItsCall();
    ItsLiteral();
    assert " " + ("DATE(ts)" + "  = '2024-01-01'") == CONDITION;
  }

  /** One such statement: the rule returns a text in which WHERE and the column are one word. */
  lemma WhereFuses() returns (out: string)
    ensures Replaced(STATEMENT, Sought(COLUMN, DAY_LITERAL), Replacement(COLUMN, DAY_LITERAL), out)
    ensures LEAD + (COLUMN + " >= '") <= out
  {
    var sql := LEAD + Wide(COLUMN, DAY_LITERAL) + "";
    ItsParts();
    ItsSpelling();
    assert sql == STATEMENT;
    out := FusedResult(sql, LEAD, COLUMN, DAY_LITERAL, "");
  }

  // ------------------------------------------------------------ a cast behind the condition

  lemma StandsThere(lead: string, target: string, after: string)
    ensures OccursAt(Lower(lead + target + after), Lower(target), |lead|)
    ensures (lead + target + after)[|lead|..|lead| + |target|] == target
  {
    var s, n := lead + target + after, |lead|;
    assert s[n..n + |target|] == target;
    assert Lower(s)[n..n + |target|] == Lower(target) by {
      forall x | 0 <= x < |target|
        ensures Lower(s)[n..n + |target|][x] == Lower(target)[x]
      {
        assert s[n + x] == target[x];
      }
    }
  }

  /** A text that cannot hold the beginning of the condition: it has no parenthesis, or no equals sign. */
  predicate Clear(lead: string) {
    '(' !in lead || '=' !in lead
  }

  /** It stands nowhere before. */
  lemma NotInLead(lead: string, col: string, lit: string, after: string, k: int)
    requires IsName(col) && Clear(lead) && 0 <= k < |lead|
    ensures !OccursAt(Lower(lead + Sought(col, lit) + after), Lower(Sought(col, lit)), k)
  {
    var target := Sought(col, lit);
    CallParenthesis(col, lit);
    MarksOfLower(lead + target + after);
    MarksOfLower(target);
    var x := if '(' !in lead then 4 else |Call(col)| + 1;
    NoneBefore(lead, col, lit, after, k + x);
    if OccursAt(Lower(lead + target + after), Lower(target), k) {
      OccursChar(Lower(lead + target + after), Lower(target), k, x);
    }
  }

  lemma NoneBefore(lead: string, col: string, lit: string, after: string, x: int)
    requires IsName(col) && 0 <= x
    ensures '(' !in lead && x < |lead| + 4 ==> (lead + Sought(col, lit) + after)[x] != '('
    ensures '=' !in lead && x < |lead| + |Call(col)| + 1 ==> (lead + Sought(col, lit) + after)[x] != '='
  {
    var target := Sought(col, lit);
    assert target == Call(col) + " = '" + lit + "'";
    if x < |lead| {
      assert (lead + target + after)[x] == lead[x];
    } else if x < |lead| + |Call(col)| + 1 {
      assert (lead + target + after)[x] == target[x - |lead|];
      SignFollows(col, lit, x - |lead|);
    }
  }

  /** Neither sign is met too early. */
  lemma SignFollows(col: string, lit: string, x: int)
    requires IsName(col) && 0 <= x < |Call(col)| + 1
    ensures Sought(col, lit)[x] != '=' && (x < 4 ==> Sought(col, lit)[x] != '(')
  {
    assert Sought(col, lit) == Call(col) + (" = '" + lit + "'");
    if 5 <= x < 5 + |col| {
      assert Call(col)[x] == col[x - 5];
    }
  }

  /** The condition as it is, behind a text that cannot hold its beginning: it is what the rule replaces, and what follows
      stays. */
  lemma AsItIsReplaced(lead: string, col: string, lit: string, after: string)
    requires IsName(col) && IsPlain(lit) && Clear(lead)
    ensures Chosen(lead + Sought(col, lit) + after, Sought(col, lit), |lead|, |lead| + |Sought(col, lit)|)
    ensures forall out :: Replaced(lead + Sought(col, lit) + after, Sought(col, lit), Replacement(col, lit), out) <==>
                          out == lead + Replacement(col, lit) + after
  {
    var target := Sought(col, lit);
    var sql, n, m := lead + target + after, |lead|, |lead| + |target|;
    StandsThere(lead, target, after);
    forall k | 0 <= k < n
      ensures !OccursAt(Lower(sql), Lower(target), k)
    {
      NotInLead(lead, col, lit, after, k);
    }
    assert ExactAt(sql, target, n);
    SoughtFields(col, lit);
    assert Matches(sql, target, n, m);
    ReplacedThen(sql, target, Replacement(col, lit), n, m);
    assert sql[..n] == lead && sql[m..] == after;
  }

  lemma ReplacedThen(s: string, target: string, replacement: string, i: int, j: int)
    requires Chosen(s, target, i, j) && Matches(s, target, i, j)
    ensures forall out :: Replaced(s, target, replacement, out) <==> out == s[..i] + replacement + s[j..]
  {
    forall out | Replaced(s, target, replacement, out)
      ensures out == s[..i] + replacement + s[j..]
    {
      ReplacedThere(s, target, replacement, out, i, j);
    }
  }

  const CAST_INTERVAL := "INTERVAL '1 day'::date"

  lemma ItsSpellings()
    ensures "'::timestamptz + INTERVAL '1 day'" == "'::timestamptz + " + "INTERVAL '1 day'"
    ensures "INTERVAL '1 day'" + "::date" == CAST_INTERVAL
  {
  }

  lemma Regrouped(lead: string, lower: string, col: string, lit: string, stamp: string, interval: string, cast_: string)
    ensures lead + (lower + " AND " + (col + " < '" + lit + (stamp + interval))) + cast_ ==
            (lead + lower + " AND " + col + " < '" + lit + stamp) + (interval + cast_)
  {
  }

  /** DATE(column) = '...'::date: the cast lands on the interval. */
  lemma CastLandsOnInterval(lead: string, col: string, lit: string, out: string)
    requires IsName(col) && IsPlain(lit) && Clear(lead)
    requires Replaced(lead + Sought(col, lit) + "::date", Sought(col, lit), Replacement(col, lit), out)
    ensures out == lead + LowerBound(col, lit) + " AND " + col + " < '" + lit + "'::timestamptz + " + CAST_INTERVAL
  {
    AsItIsReplaced(lead, col, lit, "::date");
    ItsSpellings();
    Regrouped(lead, LowerBound(col, lit), col, lit, "'::timestamptz + ", "INTERVAL '1 day'", "::date");
  }

  // ------------------------------------------------------------ a column the schema does not hold

  const DERIVED_HEAD := "SELECT * FROM (SELECT "
  const DERIVED_BODY := "payload->>'at' AS at "
  const DERIVED_TAIL := "FROM ev) x WHERE "
  const DERIVED_LEAD := DERIVED_HEAD + DERIVED_BODY + DERIVED_TAIL
  const DERIVED_COLUMN := "x.at"

  /** What the tree walk finds in that statement: the qualifier is no table's, and stays as it is. */
  function DerivedPredicate(): IndexAdvice.Predicate {
    IndexAdvice.Predicate("x", "x", "at", "=", "date", "", "'2024-01-01'", false, "", "")
  }

  lemma ItsLiteralText()
    ensures TrimQuotes("'2024-01-01'") == DAY_LITERAL && Qualify("x", "at") == DERIVED_COLUMN
  {
    var s := "'2024-01-01'";
    assert s[1..] == DAY_LITERAL + "'";
    var t := DAY_LITERAL + "'";
    assert t[..|t| - 1] == DAY_LITERAL;
    assert TrimQuotes(t) == TrimQuotes(DAY_LITERAL) == DAY_LITERAL;
  }

  lemma DerivedApplies(tables: seq<Schema.Table>)
    requires forall k :: 0 <= k < |tables| ==> !Schema.Answers(tables[k], "x")
    ensures Applies(DerivedPredicate(), Some(tables)) && !HoldsColumn(DerivedPredicate(), Some(tables))
    ensures IndexAdvice.Dealias([Schema.TableRef("", "ev", "")], "x") == "x"
  {
    assert Lower("date") == "date";
    assert Lower("ev") != Lower("x") && Lower("") != Lower("x");
  }

  lemma DerivedParts()
    ensures IsName(DERIVED_COLUMN) && IsPlain(DAY_LITERAL) && Clear(DERIVED_LEAD)
  {
    NoSign();
    assert '=' !in DERIVED_LEAD;
  }

  lemma NoSign()
    ensures '=' !in DERIVED_HEAD && '=' !in DERIVED_BODY && '=' !in DERIVED_TAIL
  {
  }

  /** The rule looks for the condition as it is written, and replaces it there. */
  lemma RuleReplaces(p: IndexAdvice.Predicate, lead: string, col: string, lit: string, out: string)
    requires Qualify(p.qualifier, p.column) == col && TrimQuotes(p.literalText) == lit
    requires IsName(col) && IsPlain(lit) && Clear(lead)
    requires Replaced(lead + Sought(col, lit), Squeeze(SoughtFor(p)), ReplacementFor(p), out)
    ensures out == lead + Replacement(col, lit)
  {
    SoughtFields(col, lit);
    AsItIsReplaced(lead, col, lit, "");
    assert lead + Sought(col, lit) + "" == lead + Sought(col, lit);
    assert lead + Replacement(col, lit) + "" == lead + Replacement(col, lit);
  }

  /** A column of a derived table, whose type no schema of tables tells: the rule applies, and puts the bare text column where
      its day was. */
  lemma DerivedColumnIsRewritten(tables: seq<Schema.Table>, out: string)
    requires forall k :: 0 <= k < |tables| ==> !Schema.Answers(tables[k], "x")
    requires Replaced(DERIVED_LEAD + Sought(DERIVED_COLUMN, DAY_LITERAL), Squeeze(SoughtFor(DerivedPredicate())),
                      ReplacementFor(DerivedPredicate()), out)
    ensures Applies(DerivedPredicate(), Some(tables)) && !HoldsColumn(DerivedPredicate(), Some(tables))
    ensures out == DERIVED_LEAD + Replacement(DERIVED_COLUMN, DAY_LITERAL)
  {
    DerivedApplies(tables);
    ItsLiteralText();
    DerivedParts();
    RuleReplaces(DerivedPredicate(), DERIVED_LEAD, DERIVED_COLUMN, DAY_LITERAL, out);
  }
}
