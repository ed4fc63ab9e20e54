/** What the DATE() rewrite does to the text of a statement: how the database reads the result, lexeme by lexeme, and
    that it means the same. */
module DateText {
  import opened Text
  import opened TextRewrite
  import opened DateRule
  import opened SqlLexer
  import IndexAdvice

  // ------------------------------------------------------------ names and literals

  /** A column as it is written without quotes, with or without a qualifier. */
  predicate IsName(col: string) {
    col != "" && IsWordChar(col[0]) && forall i :: 0 <= i < |col| ==> IsWordChar(col[i]) || col[i] == '.'
  }

  /** A literal without blanks and quotes, as every pure date is one. */
  predicate IsPlain(lit: string) {
    forall i :: 0 <= i < |lit| ==> !IsSpace(lit[i]) && lit[i] != '\''
  }

  lemma {:induction false} FeedName(s: State, col: string)
    requires s.mode.Rest? || s.mode.InWord?
    requires forall i :: 0 <= i < |col| ==> IsWordChar(col[i]) || col[i] == '.'
    ensures Feed(s, col).mode.Rest? || Feed(s, col).mode.InWord?
    decreases |col|
  {
    if col != "" {
      BlankIsNoOther(' ');
      FeedName(Step(s, col[0]), col[1..]);
    }
  }

  lemma {:induction false} FeedPlain(s: State, lit: string)
    requires s.mode.InQuote? && s.mode.quote == '\'' && forall i :: 0 <= i < |lit| ==> lit[i] != '\''
    ensures Feed(s, lit) == State(s.out, InQuote('\'', s.mode.text + lit))
    decreases |lit|
  {
    if lit == "" {
      assert s.mode.text + lit == s.mode.text;
    } else {
      FeedPlain(Step(s, lit[0]), lit[1..]);
      assert s.mode.text + [lit[0]] + lit[1..] == s.mode.text + lit;
    }
  }

  lemma LexQuoted(lit: string)
    requires forall i :: 0 <= i < |lit| ==> lit[i] != '\''
    ensures Lex("'" + lit + "'") == [Quoted("'" + lit + "'")] && ModeAfter("'" + lit + "'") == Shut('\'', "'" + lit + "'")
  {
    var s := Feed(START, "'");
    assert s == State([], InQuote('\'', "'"));
    FeedConcat(START, "'", lit);
    FeedPlain(s, lit);
    FeedConcat(START, "'" + lit, "'");
    assert Feed(State([], InQuote('\'', "'" + lit)), "'") == State([], Shut('\'', "'" + lit + "'"));
  }

  // ------------------------------------------------------------ the condition, blank by blank

  function Call(col: string): string {
    "DATE(" + col + ")"
  }

  function InQuotes(lit: string): string {
    "'" + lit + "'"
  }

  function SoughtWords(col: string, lit: string): seq<string> {
    [Call(col), "=", InQuotes(lit)]
  }

  lemma NameIsWord(col: string)
    requires IsName(col)
    ensures IsWord(col)
  {
    forall i | 0 <= i < |col|
      ensures !IsSpace(col[i])
    {
      if IsSpace(col[i]) {
        BlankIsNoOther(col[i]);
      }
    }
  }

  lemma SoughtFields(col: string, lit: string)
    requires IsName(col) && IsPlain(lit)
    ensures Fields(Sought(col, lit)) == SoughtWords(col, lit) && Squeeze(Sought(col, lit)) == Sought(col, lit)
  {
    var words := SoughtWords(col, lit);
    NameIsWord(col);
    assert IsWord(Call(col)) && IsWord("=") && IsWord(InQuotes(lit));
    FieldsOfJoin(words);
    assert Join(words[2..], " ") == InQuotes(lit);
    assert words[1..][1..] == words[2..];
    assert Join(words[1..], " ") == "=" + " " + InQuotes(lit);
    assert Join(words, " ") == Call(col) + " " + ("=" + " " + InQuotes(lit)) == Sought(col, lit);
  }

  const DATE := "DATE"

  lemma FeedWordThenOpen(word: string)
    requires word != "" && AllWordChars(word)
    ensures Feed(START, word + "(") == State([Word(word), Mark('(')], Rest)
  {
    LexWord(word);
    FeedConcat(START, word, "(");
    assert "("[1..] == "" && Step(State([], InWord(word)), '(') == State([Word(word), Mark('(')], Rest);
  }

  lemma FeedDate()
    ensures Feed(START, "DATE(") == State([Word(DATE), Mark('(')], Rest)
  {
    FeedWordThenOpen(DATE);
    assert DATE + "(" == "DATE(";
  }

  lemma CallIsCalm(col: string)
    requires IsName(col)
    ensures Calm(ModeAfter(Call(col)))
  {
    var s := Feed(START, "DATE(");
    FeedDate();
    FeedConcat(START, "DATE(", col);
    FeedName(s, col);
    FeedConcat(START, "DATE(" + col, ")");
  }

  lemma SoughtIsCalm(col: string, lit: string)
    requires IsName(col) && IsPlain(lit)
    ensures AllCalm(SoughtWords(col, lit)) && AllCalm(LowerAll(SoughtWords(col, lit)))
  {
    var words := SoughtWords(col, lit);
    CallIsCalm(col);
    LexQuoted(lit);
    forall i | 0 <= i < |words|
      ensures Calm(ModeAfter(words[i])) && Calm(ModeAfter(LowerAll(words)[i]))
    {
      LexLower(words[i]);
    }
  }

  /** A window that reads like the condition up to blanks and letter case. */
  predicate Reads(window: string, col: string, lit: string) {
    EqualFold(Squeeze(window), Sought(col, lit))
  }

  lemma WindowFields(window: string, col: string, lit: string)
    requires IsName(col) && IsPlain(lit) && Reads(window, col, lit)
    ensures Fields(Lower(window)) == LowerAll(SoughtWords(col, lit))
  {
    SqueezeOfLower(window);
    SoughtFields(col, lit);
    FieldsAreWords(Lower(window));
    FieldsOfJoin(Fields(Lower(window)));
    FieldsOfLower(Sought(col, lit));
  }

  lemma LexOfSought(text: string, col: string, lit: string)
    requires IsName(col) && IsPlain(lit) && Fields(text) == LowerAll(SoughtWords(col, lit))
    ensures Lex(text) == LexAll(LowerAll(SoughtWords(col, lit)))
    ensures text != "" && !IsSpace(text[|text| - 1]) ==> ModeAfter(text) == ModeAfter(Lower(InQuotes(lit)))
  {
    var words := LowerAll(SoughtWords(col, lit));
    SoughtIsCalm(col, lit);
    assert words[2] == Lower(InQuotes(lit));
    ThreeWords(text, words);
  }

  lemma ThreeWords(text: string, words: seq<string>)
    requires Fields(text) == words && AllCalm(words) && |words| == 3
    ensures Lex(text) == LexAll(words)
    ensures text != "" && !IsSpace(text[|text| - 1]) ==> ModeAfter(text) == ModeAfter(words[2])
  {
    LexOfFields(text);
  }

  /** Such a window is read as the condition. */
  lemma WindowLexes(window: string, col: string, lit: string)
    requires IsName(col) && IsPlain(lit) && Reads(window, col, lit)
    ensures LowerLexemes(Lex(window)) == LowerLexemes(Lex(Sought(col, lit)))
  {
    var sought := Sought(col, lit);
    WindowFields(window, col, lit);
    SoughtFields(col, lit);
    FieldsOfLower(sought);
    LexOfSought(Lower(window), col, lit);
    LexOfSought(Lower(sought), col, lit);
    LexLower(window);
    LexLower(sought);
  }

  /** What follows it begins afresh unless it is another quote. */
  lemma WindowShuts(window: string, col: string, lit: string)
    requires IsName(col) && IsPlain(lit) && Reads(window, col, lit) && window != "" && !IsSpace(window[|window| - 1])
    ensures ModeAfter(window).Shut? && ModeAfter(window).quote == '\''
  {
    assert ModeAfter(Lower(window)) == ModeAfter(Lower(InQuotes(lit))) by {
      WindowFields(window, col, lit);
      LowerCharClasses(window[|window| - 1]);
      LexOfSought(Lower(window), col, lit);
    }
    assert ModeAfter(Lower(InQuotes(lit))) == LowerMode(Shut('\'', InQuotes(lit))) by {
      LexQuoted(lit);
      LexLower(InQuotes(lit));
    }
    LexLower(window);
  }

  // ------------------------------------------------------------ the replacement

  lemma LexBlank(blank: string, text: string)
    requires blank == " "
    ensures Lex(blank + text) == Lex(text) && ModeAfter(blank + text) == ModeAfter(text)
  {
    assert (blank + text)[0] == ' ' && (blank + text)[1..] == text && Step(START, ' ') == START;
  }

  /** Behind a text at rest, a blank and another text. */
  lemma LexSpaced(a: string, b: string)
    requires Calm(ModeAfter(a))
    ensures Lex(a + " " + b) == Lex(a) + Lex(b) && ModeAfter(a + " " + b) == ModeAfter(b)
  {
    var blank := " ";
    CalmBreaksAtBlank(a, ' ');
    assert (blank + b)[0] == ' ';
    LexApart(a, blank + b);
    LexBlank(blank, b);
    assert a + blank + b == a + (blank + b);
  }

  lemma OperatorIsCalm(op: string)
    requires op == ">=" || op == "<" || op == "+"
    ensures Calm(ModeAfter(op))
  {
    if op == ">=" {
      assert ">="[1..] == "=" && "="[1..] == "";
      assert Step(START, '>') == State([], InOperator(">"));
      assert Step(State([], InOperator(">")), '=').mode.InOperator?;
    } else {
      assert op[1..] == "";
    }
  }

  const COLONS := "::"
  const TYPE := "timestamptz"
  const CAST := COLONS + TYPE

  lemma FeedColons()
    ensures ModeAfter(COLONS) == InOperator(COLONS)
  {
    assert "::"[1..] == ":" && ":"[1..] == "" && [':'] + [':'] == "::";
    assert Step(START, ':') == State([], InOperator(":"));
    assert Step(State([], InOperator(":")), ':') == State([], InOperator("::"));
  }

  lemma FeedCast()
    ensures ModeAfter(CAST) == InWord(TYPE)
  {
    FeedColons();
    LexWord(TYPE);
    assert Breaks(InOperator(COLONS), TYPE[0]);
    LexApart(COLONS, TYPE);
  }

  lemma CastIsCalm(lit: string)
    requires IsPlain(lit)
    ensures Calm(ModeAfter(InQuotes(lit) + CAST))
  {
    LexQuoted(lit);
    FeedCast();
    LexApart(InQuotes(lit), CAST);
  }

  lemma NameIsCalm(col: string)
    requires IsName(col)
    ensures Calm(ModeAfter(col))
  {
    FeedName(START, col);
  }

  /** col op 'lit'::timestamptz */
  function Bound(col: string, op: string, lit: string): string {
    col + " " + (op + " " + (InQuotes(lit) + CAST))
  }

  lemma BoundIsCalm(col: string, op: string, lit: string)
    requires IsName(col) && IsPlain(lit) && (op == ">=" || op == "<")
    ensures Calm(ModeAfter(Bound(col, op, lit)))
  {
    NameIsCalm(col);
    OperatorIsCalm(op);
    CastIsCalm(lit);
    LexSpaced(op, InQuotes(lit) + CAST);
    LexSpaced(col, op + " " + (InQuotes(lit) + CAST));
  }

  const INTERVAL := "INTERVAL"
  const ONE_DAY := "1 day"
  const A_DAY := INTERVAL + " " + InQuotes(ONE_DAY)

  lemma FeedOneDay()
    ensures ModeAfter(InQuotes(ONE_DAY)) == Shut('\'', InQuotes(ONE_DAY))
  {
    LexQuoted(ONE_DAY);
  }

  lemma FeedADay()
    ensures ModeAfter(A_DAY) == Shut('\'', InQuotes(ONE_DAY))
  {
    LexWord(INTERVAL);
    FeedOneDay();
    LexSpaced(INTERVAL, InQuotes(ONE_DAY));
  }

  lemma Spelling()
    ensures "'::timestamptz + INTERVAL '1 day'" == "'" + CAST + " " + ("+" + " " + A_DAY)
    ensures "'::timestamptz" == "'" + CAST
  {
  }

  lemma BoundsAreSpelled(col: string, lit: string)
    ensures LowerBound(col, lit) == Bound(col, ">=", lit)
    ensures UpperBound(col, lit) == Bound(col, "<", lit) + " " + ("+" + " " + A_DAY)
  {
    Spelling();
    var tail := CAST + " " + ("+" + " " + A_DAY);
    assert " >= '" == " " + (">=" + " " + "'") && " < '" == " " + ("<" + " " + "'");
    assert "'::timestamptz + INTERVAL '1 day'" == "'" + tail;
  }

  lemma UpperBoundShuts(col: string, lit: string)
    requires IsName(col) && IsPlain(lit)
    ensures ModeAfter(UpperBound(col, lit)) == Shut('\'', InQuotes(ONE_DAY))
  {
    var bound := Bound(col, "<", lit);
    BoundIsCalm(col, "<", lit);
    OperatorIsCalm("+");
    FeedADay();
    LexSpaced("+", A_DAY);
    LexSpaced(bound, "+" + " " + A_DAY);
    BoundsAreSpelled(col, lit);
  }

  /** The replacement is read as its three parts, and what follows it begins afresh unless it is another quote. */
  lemma LexReplacement(col: string, lit: string)
    requires IsName(col) && IsPlain(lit)
    ensures Lex(Replacement(col, lit)) == Lex(LowerBound(col, lit)) + [Word("AND")] + Lex(UpperBound(col, lit))
    ensures ModeAfter(Replacement(col, lit)) == Shut('\'', InQuotes(ONE_DAY))
  {
    var lower, upper := LowerBound(col, lit), UpperBound(col, lit);
    BoundIsCalm(col, ">=", lit);
    BoundsAreSpelled(col, lit);
    UpperBoundShuts(col, lit);
    LexWord("AND");
    LexSpaced("AND", upper);
    LexSpaced(lower, "AND" + " " + upper);
    assert Replacement(col, lit) == lower + " " + ("AND" + " " + upper);
  }

  // ------------------------------------------------------------ the conditions, lexeme by lexeme

  /** DATE ( col ) = 'lit' */
  function DateEqLexemes(col: string, lit: string): seq<Lexeme> {
    [Word("DATE"), Mark('(')] + Lex(col) + [Mark(')'), Operator("="), Quoted("'" + lit + "'")]
  }

  /** col op 'lit' :: timestamptz */
  function BoundLexemes(col: string, op: string, lit: string): seq<Lexeme> {
    Lex(col) + [Operator(op), Quoted("'" + lit + "'"), Operator("::"), Word("timestamptz")]
  }

  const PLUS_A_DAY := [Operator("+"), Word(INTERVAL), Quoted(InQuotes(ONE_DAY))]

  lemma SoughtLexes(col: string, lit: string)
    requires IsName(col) && IsPlain(lit)
    ensures Lex(Sought(col, lit)) == DateEqLexemes(col, lit)
  {
    CallLexes(col);
    CallIsCalm(col);
    LexQuoted(lit);
    LexOperator("=");
    LexThree(Call(col), "=", InQuotes(lit));
    assert Sought(col, lit) == Call(col) + " " + ("=" + " " + InQuotes(lit));
  }

  lemma CallLexes(col: string)
    requires IsName(col)
    ensures Lex(Call(col)) == [Word("DATE"), Mark('(')] + Lex(col) + [Mark(')')]
  {
    FeedDate();
    LexApart("DATE(", col);
    FeedName(START, col);
    LexApart("DATE(" + col, ")");
    FeedConcat(START, "DATE(", col);
    FeedName(Feed(START, "DATE("), col);
  }

  lemma LexOperator(op: string)
    requires op in {"=", ">=", "<", "+", "::"}
    ensures Lex(op) == [Operator(op)] && ModeAfter(op) == InOperator(op)
  {
    if |op| == 1 {
      assert op[1..] == "" && op == [op[0]];
    } else {
      assert op == [op[0]] + [op[1]];
      LexTwo(op[0], op[1]);
    }
  }

  lemma LexTwo(a: char, b: char)
    requires Begin([], a) == State([], InOperator([a])) && Joins([a], b) && a != '-' && a != '/'
    ensures var op := [a] + [b]; Lex(op) == [Operator(op)] && ModeAfter(op) == InOperator(op)
  {
    FeedConcat(START, [a], [b]);
    FeedOne(START, a);
    FeedOne(State([], InOperator([a])), b);
  }

  lemma BoundLexes(col: string, op: string, lit: string)
    requires IsName(col) && IsPlain(lit) && (op == ">=" || op == "<")
    ensures Lex(Bound(col, op, lit)) == BoundLexemes(col, op, lit)
  {
    NameIsCalm(col);
    OperatorIsCalm(op);
    LexOperator(op);
    CastLexes(lit);
    LexSpaced(op, InQuotes(lit) + CAST);
    LexSpaced(col, op + " " + (InQuotes(lit) + CAST));
  }

  lemma CastLexes(lit: string)
    requires IsPlain(lit)
    ensures Lex(InQuotes(lit) + CAST) == [Quoted("'" + lit + "'"), Operator("::"), Word("timestamptz")]
  {
    LexQuoted(lit);
    TypeLexes();
    LexApart(InQuotes(lit), CAST);
  }

  lemma TypeLexes()
    ensures Lex(CAST) == [Operator("::"), Word("timestamptz")] && CAST[0] == ':'
  {
    LexOperator(COLONS);
    OperatorThenWord(COLONS, TYPE);
  }

  lemma OperatorThenWord(op: string, word: string)
    requires Lex(op) == [Operator(op)] && ModeAfter(op) == InOperator(op) && word != "" && AllWordChars(word)
    ensures Lex(op + word) == [Operator(op), Word(word)]
  {
    LexWord(word);
    assert Breaks(InOperator(op), word[0]);
    LexApart(op, word);
  }

  /** A blank between each two of three. */
  lemma LexThree(a: string, b: string, c: string)
    requires Calm(ModeAfter(a)) && Calm(ModeAfter(b))
    ensures Lex(a + " " + (b + " " + c)) == Lex(a) + Lex(b) + Lex(c)
  {
    LexSpaced(b, c);
    LexSpaced(a, b + " " + c);
  }

  lemma PlusLexes(plus: string, word: string, text: string)
    requires Lex(plus) == [Operator(plus)] && Calm(ModeAfter(plus)) && word != "" && AllWordChars(word)
    requires forall i :: 0 <= i < |text| ==> text[i] != '\''
    ensures Lex(plus + " " + (word + " " + InQuotes(text))) == [Operator(plus), Word(word), Quoted(InQuotes(text))]
  {
    LexWord(word);
    LexQuoted(text);
    LexThree(plus, word, InQuotes(text));
  }

  lemma PlusADayLexes()
    ensures Lex("+" + " " + A_DAY) == PLUS_A_DAY
  {
    OperatorIsCalm("+");
    LexOperator("+");
    PlusLexes("+", INTERVAL, ONE_DAY);
  }

  /** What is sought and both halves of what replaces it, as the database cuts them. */
  lemma ConditionsAreSpelled(col: string, lit: string)
    requires IsName(col) && IsPlain(lit)
    ensures Lex(Sought(col, lit)) == DateEqLexemes(col, lit)
    ensures Lex(LowerBound(col, lit)) == BoundLexemes(col, ">=", lit)
    ensures Lex(UpperBound(col, lit)) == BoundLexemes(col, "<", lit) + PLUS_A_DAY
    ensures INTERVAL == "INTERVAL" && InQuotes(ONE_DAY) == "'1 day'"
  {
    var bound := Bound(col, "<", lit);
    SoughtLexes(col, lit);
    BoundLexes(col, ">=", lit);
    BoundLexes(col, "<", lit);
    BoundsAreSpelled(col, lit);
    BoundIsCalm(col, "<", lit);
    PlusADayLexes();
    LexSpaced(bound, "+" + " " + A_DAY);
  }

  // ------------------------------------------------------------ where the window lies

  /** The length of the run of blanks a text begins with. */
  function Indent(s: string): (n: nat)
    ensures n <= |s| && (forall i :: 0 <= i < n ==> IsSpace(s[i])) && (n < |s| ==> !IsSpace(s[n]))
  {
    if s != "" && IsSpace(s[0]) then 1 + Indent(s[1..]) else 0
  }

  /** The window with its three neighbours: the text before it, the blanks it begins with, the condition, the text after. */
  predicate Window(sql: string, i: int, j: int, before: string, gap: string, core: string, after: string) {
    && 0 <= i <= j <= |sql|
    && before == sql[..i] && after == sql[j..]
    && gap == sql[i..j][..Indent(sql[i..j])] && core == sql[i..j][Indent(sql[i..j])..]
  }

  lemma WindowJoins(sql: string, i: int, j: int, before: string, gap: string, core: string, after: string)
    requires Window(sql, i, j, before, gap, core, after)
    ensures sql[i..j] == gap + core && sql == before + gap + core + after
  {
  }

  /** The database reads the condition for itself: it lies in no literal and no comment, begins no word and ends none. */
  predicate StandsAlone(before: string, gap: string, core: string, after: string) {
    Apart(before + gap, core) && Apart(before + gap + core, after)
  }

  /** The window begins with a blank that ends a word, or a line comment, in front of it: the replacement, which begins
      with the column, goes on with the word, or with the comment. */
  predicate Fuses(before: string, gap: string) {
    gap != "" && (ModeAfter(before).InWord? || ModeAfter(before).InLine?)
  }

  lemma {:induction false} FeedGap(s: State, gap: string)
    requires forall i :: 0 <= i < |gap| ==> IsSpace(gap[i])
    requires Sane(s.mode)
    ensures Calm(s.mode) && gap != "" ==> Feed(s, gap) == State(s.out + SqlLexer.Pending(s.mode), Rest)
    ensures s.mode.InLine? ==> Feed(s, gap).out == s.out && (Feed(s, gap).mode.Rest? || Feed(s, gap).mode.InLine?)
    ensures s.mode.InQuote? ==> Feed(s, gap).mode.InQuote?
    ensures s.mode.InBlock? ==> Feed(s, gap).mode.InBlock?
    decreases |gap|
  {
    if gap != "" {
      BlankIsNoOther(gap[0]);
      var t := Step(s, gap[0]);
      FeedGap(t, gap[1..]);
    }
  }

  /** Blanks in front of a lexeme leave the lexemes before them as they are. */
  lemma GapKeeps(before: string, gap: string, c: char)
    requires forall i :: 0 <= i < |gap| ==> IsSpace(gap[i])
    requires Breaks(ModeAfter(before + gap), c)
    ensures Lex(before + gap) == Lex(before)
    ensures gap != "" ==> Calm(ModeAfter(before)) || ModeAfter(before).InLine?
  {
    FeedSane(START, before);
    FeedConcat(START, before, gap);
    FeedGap(Feed(START, before), gap);
    if gap == "" {
      assert before + gap == before;
    }
  }

  lemma WordCharsBreakAlike(mode: Mode, c: char, d: char)
    requires IsWordChar(c) && IsWordChar(d) && Sane(mode)
    ensures Breaks(mode, c) == Breaks(mode, d)
    ensures Calm(mode) ==> (Breaks(mode, c) <==> !mode.InWord?)
  {
  }

  /** The first character of the replacement begins a lexeme of its own exactly when nothing fuses. */
  lemma BorderExactlyWhen(before: string, gap: string, c: char, d: char)
    requires IsWordChar(c) && IsWordChar(d) && forall i :: 0 <= i < |gap| ==> IsSpace(gap[i])
    requires Breaks(ModeAfter(before + gap), c)
    ensures Breaks(ModeAfter(before), d) <==> !Fuses(before, gap)
  {
    FeedSane(START, before);
    GapKeeps(before, gap, c);
    if gap == "" {
      assert before + gap == before;
    }
    WordCharsBreakAlike(ModeAfter(before), c, d);
  }

  // ------------------------------------------------------------ the window that is replaced

  lemma {:induction false} FirstField(s: string)
    ensures Indent(s) == |s| <==> Fields(s) == []
    ensures Fields(s) != [] ==> Fields(s)[0] != "" && Fields(s)[0][0] == s[Indent(s)]
  {
    if s != "" && IsSpace(s[0]) {
      FirstField(s[1..]);
    }
  }

  lemma {:induction false} IndentOfLower(s: string)
    ensures Indent(Lower(s)) == Indent(s)
  {
    if s != "" {
      LowerCharClasses(s[0]);
      assert Lower(s)[1..] == Lower(s[1..]);
      IndentOfLower(s[1..]);
    }
  }

  /** Behind its blanks the window begins with the D of DATE. */
  lemma CoreBegins(window: string, col: string, lit: string)
    requires IsName(col) && IsPlain(lit) && Reads(window, col, lit)
    ensures Indent(window) < |window| && IsWordChar(window[Indent(window)])
  {
    WindowFields(window, col, lit);
    FirstField(Lower(window));
    IndentOfLower(window);
    var words := LowerAll(SoughtWords(col, lit));
    assert words[0] == Lower(Call(col));
    LowerCharClasses(window[Indent(window)]);
    LowerCharClasses('D');
    assert Lower(Call(col))[0] == LowerChar('D');
  }

  lemma ExactEndsInQuote(sql: string, target: string, i: int, j: int)
    requires ExactAt(sql, target, i) && j == i + |target| && target != "" && target[|target| - 1] == '\''
    ensures i < j <= |sql| && sql[j - 1] == '\''
  {
    assert Lower(sql)[i..j] == Lower(target);
    assert Lower(sql)[j - 1] == Lower(sql)[i..j][|target| - 1] == LowerChar(target[|target| - 1]);
    LowerCharClasses(sql[j - 1]);
  }

  /** The blank-insensitive scan takes the least end, and so no blank at the end. */
  lemma FallbackEndsTight(sql: string, target: string, i: int, j: int)
    requires FirstMatch(sql, target, i, j) && target != ""
    ensures !IsSpace(sql[j - 1])
  {
    if IsSpace(sql[j - 1]) {
      var window := sql[i..j - 1];
      assert sql[i..j] == window + [sql[j - 1]];
      FieldsBeforeBlank(window, sql[j - 1]);
      assert Squeeze(window) == Squeeze(sql[i..j]);
      if window != "" {
        assert InReach(sql, target, i, j - 1) && Matches(sql, target, i, j - 1);
      }
    }
  }

  /** A chosen window reads like the condition and ends with it. */
  lemma ChosenReads(sql: string, col: string, lit: string, i: int, j: int)
    requires IsName(col) && IsPlain(lit) && Chosen(sql, Sought(col, lit), i, j)
    ensures 0 <= i < j <= |sql| && Reads(sql[i..j], col, lit) && !IsSpace(sql[j - 1])
  {
    var target := Sought(col, lit);
    SoughtFields(col, lit);
    if ExactAt(sql, target, i) && j == i + |target| {
      ExactMatches(sql, target, i);
      ExactEndsInQuote(sql, target, i, j);
    } else {
      FallbackEndsTight(sql, target, i, j);
    }
  }

  // ------------------------------------------------------------ how the result is read

  /** The text before the window and the replacement, read together. */
  predicate ReadApart(a: string, b: string) {
    Lex(a + b) == Lex(a) + Lex(b)
  }

  lemma FusedWord(before: string, text: string)
    requires ModeAfter(before).InWord? && text != "" && IsWordChar(text[0])
    ensures |Lex(before)| > 0 && forall more :: Lex(before + text) != Lex(before) + more
  {
    var s := Feed(START, before);
    FeedConcat(START, before, text);
    WordGrows(s.out, s.mode.text, text);
    var n := |s.out|;
    assert Lex(before) == s.out + [Word(s.mode.text)];
    forall more
      ensures Lex(before + text) != Lex(before) + more
    {
      assert (Lex(before) + more)[n] == Word(s.mode.text);
    }
  }

  lemma FusedLine(before: string, text: string)
    requires ModeAfter(before).InLine? && forall i :: 0 <= i < |text| ==> !EndsLine(text[i])
    ensures Lex(before + text) == Lex(before)
  {
    var s := Feed(START, before);
    FeedConcat(START, before, text);
    LineGoesOn(s.out, text);
  }

  lemma ReplacementIsOneLine(col: string, lit: string)
    requires IsName(col) && IsPlain(lit)
    ensures Replacement(col, lit)[0] == col[0]
    ensures forall i :: 0 <= i < |Replacement(col, lit)| ==> !EndsLine(Replacement(col, lit)[i])
  {
    NameIsWord(col);
    assert forall i :: 0 <= i < |col| ==> !EndsLine(col[i]);
    assert forall i :: 0 <= i < |lit| ==> !EndsLine(lit[i]);
    OneLine(LowerBound(col, lit), col, " >= '", lit, "'::timestamptz");
    OneLine(UpperBound(col, lit), col, " < '", lit, "'::timestamptz + INTERVAL '1 day'");
  }

  lemma OneLine(text: string, a: string, b: string, c: string, d: string)
    requires text == a + b + c + d
    requires forall i :: 0 <= i < |a| ==> !EndsLine(a[i])
    requires forall i :: 0 <= i < |b| ==> !EndsLine(b[i])
    requires forall i :: 0 <= i < |c| ==> !EndsLine(c[i])
    requires forall i :: 0 <= i < |d| ==> !EndsLine(d[i])
    ensures forall i :: 0 <= i < |text| ==> !EndsLine(text[i])
  {
  }

  lemma CoreIsRead(window: string, gap: string, core: string)
    requires window == gap + core && forall k :: 0 <= k < |gap| ==> IsSpace(gap[k])
    ensures Lex(window) == Lex(core) && ModeAfter(window) == ModeAfter(core)
  {
    LexBlanks(gap);
    FeedConcat(START, gap, core);
  }

  lemma SqlIsRead(before: string, gap: string, core: string, after: string)
    requires StandsAlone(before, gap, core, after) && core != "" && forall k :: 0 <= k < |gap| ==> IsSpace(gap[k])
    ensures Lex(before + gap + core + after) == Lex(before) + Lex(core) + Lex(after)
    ensures ModeAfter(before + gap + core) == ModeAfter(core)
  {
    GapKeeps(before, gap, core[0]);
    LexApart(before + gap, core);
    LexApart(before + gap + core, after);
  }

  lemma NoQuoteFollows(before: string, gap: string, core: string, after: string)
    requires StandsAlone(before, gap, core, after) && ModeAfter(before + gap + core).Shut? && ModeAfter(before + gap + core).quote == '\''
    ensures after != "" ==> after[0] != '\''
  {
  }

  lemma CoreParts(window: string, gap: string, core: string, col: string, lit: string)
    requires IsName(col) && IsPlain(lit) && Reads(window, col, lit)
    requires gap == window[..Indent(window)] && core == window[Indent(window)..]
    ensures core != "" && IsWordChar(core[0]) && window == gap + core && forall k :: 0 <= k < |gap| ==> IsSpace(gap[k])
  {
    CoreBegins(window, col, lit);
  }

  /** What the parts of the window are read as. */
  lemma CoreReads(window: string, core: string, col: string, lit: string)
    requires IsName(col) && IsPlain(lit) && Reads(window, col, lit) && window != "" && !IsSpace(window[|window| - 1])
    requires Lex(window) == Lex(core) && ModeAfter(window) == ModeAfter(core)
    ensures LowerLexemes(Lex(core)) == LowerLexemes(Lex(Sought(col, lit)))
    ensures ModeAfter(core).Shut? && ModeAfter(core).quote == '\''
  {
    assert LowerLexemes(Lex(window)) == LowerLexemes(Lex(Sought(col, lit))) by {
      WindowLexes(window, col, lit);
    }
    assert ModeAfter(window).Shut? && ModeAfter(window).quote == '\'' by {
      WindowShuts(window, col, lit);
    }
  }

  lemma OriginalIsRead(sql: string, col: string, lit: string, i: int, j: int, before: string, gap: string, core: string, after: string)
    requires IsName(col) && IsPlain(lit) && 0 <= i < j <= |sql| && Reads(sql[i..j], col, lit) && !IsSpace(sql[j - 1])
    requires Window(sql, i, j, before, gap, core, after) && StandsAlone(before, gap, core, after)
    ensures core != "" && IsWordChar(core[0]) && forall k :: 0 <= k < |gap| ==> IsSpace(gap[k])
    ensures Lex(sql) == Lex(before) + Lex(core) + Lex(after) && LowerLexemes(Lex(core)) == LowerLexemes(Lex(Sought(col, lit)))
    ensures after != "" ==> after[0] != '\''
  {
    var window := sql[i..j];
    CoreParts(window, gap, core, col, lit);
    CoreIsRead(window, gap, core);
    CoreReads(window, core, col, lit);
    WindowJoins(sql, i, j, before, gap, core, after);
    SqlIsRead(before, gap, core, after);
    NoQuoteFollows(before, gap, core, after);
  }

  /** A border in front of the replacement and the text behind it. */
  lemma ReadInThree(before: string, col: string, lit: string, after: string)
    requires IsName(col) && IsPlain(lit) && Apart(before, Replacement(col, lit)) && (after != "" ==> after[0] != '\'')
    ensures ReadApart(before, Replacement(col, lit))
    ensures Lex(before + Replacement(col, lit) + after) == Lex(before) + Lex(Replacement(col, lit)) + Lex(after)
  {
    LexReplacement(col, lit);
    LexApart(before, Replacement(col, lit));
    LexApart(before + Replacement(col, lit), after);
  }

  /** No border there. */
  lemma NotReadInThree(before: string, gap: string, col: string, lit: string, after: string)
    requires IsName(col) && IsPlain(lit) && Fuses(before, gap)
    ensures !ReadApart(before, Replacement(col, lit))
    ensures ModeAfter(before).InWord? ==>
              Lex(before + Replacement(col, lit) + after) != Lex(before) + Lex(Replacement(col, lit)) + Lex(after)
  {
    var new_ := Replacement(col, lit);
    ReplacementIsOneLine(col, lit);
    if ModeAfter(before).InWord? {
      FusedWord(before, new_);
      FusedWord(before, new_ + after);
      assert before + (new_ + after) == before + new_ + after;
      assert Lex(before) + Lex(new_) + Lex(after) == Lex(before) + (Lex(new_) + Lex(after));
    } else {
      LexReplacement(col, lit);
      FusedLine(before, new_);
    }
  }

  /** The rule has put the replacement in the place of the window, whose condition the database reads for itself. */
  ghost predicate Rewritten(
    sql: string, col: string, lit: string, i: int, j: int, before: string, gap: string, core: string, after: string, out: string)
  {
    && IsName(col) && IsPlain(lit) && Chosen(sql, Sought(col, lit), i, j)
    && Window(sql, i, j, before, gap, core, after) && StandsAlone(before, gap, core, after)
    && Replaced(sql, Sought(col, lit), Replacement(col, lit), out)
  }

  /** What the database reads in the returned text: what it read before and after the window, and the replacement between,
      exactly when nothing fuses. */
  lemma ResultIsReadExactlyWhen(
    sql: string, col: string, lit: string, i: int, j: int, before: string, gap: string, core: string, after: string, out: string)
    requires Rewritten(sql, col, lit, i, j, before, gap, core, after, out)
    ensures out == before + Replacement(col, lit) + after
    ensures Lex(sql) == Lex(before) + Lex(core) + Lex(after) && LowerLexemes(Lex(core)) == LowerLexemes(Lex(Sought(col, lit)))
    ensures ReadApart(before, Replacement(col, lit)) <==> !Fuses(before, gap)
    ensures !ModeAfter(before).InLine? ==>
              (Lex(out) == Lex(before) + Lex(Replacement(col, lit)) + Lex(after) <==> !Fuses(before, gap))
    ensures !Fuses(before, gap) ==> Lex(out) == Lex(before) + Lex(Replacement(col, lit)) + Lex(after)
  {
    ReplacedThere(sql, Sought(col, lit), Replacement(col, lit), out, i, j);
    ChosenReads(sql, col, lit, i, j);
    OriginalIsRead(sql, col, lit, i, j, before, gap, core, after);
    if Fuses(before, gap) {
      NotReadInThree(before, gap, col, lit, after);
    } else {
      StartsAfresh(before, gap, core, col, lit);
      ReadInThree(before, col, lit, after);
    }
  }

  /** Every window the rule takes has these parts. */
  lemma RuleRewrites(sql: string, p: IndexAdvice.Predicate, out: string, i: int, j: int)
    returns (before: string, gap: string, core: string, after: string)
    requires var col, lit := Qualify(p.qualifier, p.column), TrimQuotes(p.literalText); IsName(col) && IsPlain(lit)
    requires Chosen(sql, Squeeze(SoughtFor(p)), i, j) && Replaced(sql, Squeeze(SoughtFor(p)), ReplacementFor(p), out)
    ensures var col, lit := Qualify(p.qualifier, p.column), TrimQuotes(p.literalText);
            && Window(sql, i, j, before, gap, core, after)
            && (StandsAlone(before, gap, core, after) ==> Rewritten(sql, col, lit, i, j, before, gap, core, after, out))
  {
    var col, lit := Qualify(p.qualifier, p.column), TrimQuotes(p.literalText);
    SoughtFields(col, lit);
    ChosenReads(sql, col, lit, i, j);
    var window := sql[i..j];
    before, gap, core, after := sql[..i], window[..Indent(window)], window[Indent(window)..], sql[j..];
  }

  lemma StartsAfresh(before: string, gap: string, core: string, col: string, lit: string)
    requires IsName(col) && IsPlain(lit) && !Fuses(before, gap) && core != "" && IsWordChar(core[0]) && Apart(before + gap, core)
    requires forall k :: 0 <= k < |gap| ==> IsSpace(gap[k])
    ensures Apart(before, Replacement(col, lit))
  {
    ReplacementIsOneLine(col, lit);
    BorderExactlyWhen(before, gap, core[0], col[0]);
  }
}
