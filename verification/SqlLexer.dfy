/** How PostgreSQL cuts a text into lexemes: words, quoted texts, operators and single marks, between blanks and comments.
    Dollar quotes, E'' escapes and the finer points of numbers are not told apart. */
module SqlLexer {
  import opened Text

  datatype Lexeme =
    | Word(text: string)
    | Quoted(text: string)
    | Operator(text: string)
    | Mark(c: char)
    | Unclosed(text: string)

  /** What the lexer is in the middle of. `Shut` stands behind a closing quote, which the same quote would open again. */
  datatype Mode =
    | Rest
    | InWord(text: string)
    | InOperator(text: string)
    | InQuote(quote: char, text: string)
    | Shut(quote: char, text: string)
    | InLine
    | InBlock(depth: nat, last: char)

  datatype State = State(out: seq<Lexeme>, mode: Mode)

  const START := State([], Rest)

  predicate IsWordChar(c: char) {
    'a' <= c <= 'z' || 'A' <= c <= 'Z' || '0' <= c <= '9' || c == '_' || c == '$' || (c >= '\U{80}' && !IsSpace(c))
  }

  predicate IsQuote(c: char) {
    c == '\'' || c == '"'
  }

  predicate IsOperatorChar(c: char) {
    c == '+' || c == '-' || c == '*' || c == '/' || c == '<' || c == '>' || c == '=' || c == '~' || c == '!' || c == '@' ||
    c == '#' || c == '%' || c == '^' || c == '&' || c == '|' || c == '`' || c == '?' || c == ':'
  }

  predicate EndsLine(c: char) {
    c == '\n' || c == '\r'
  }

  /** A character at a place where nothing is in progress. */
  function Begin(out: seq<Lexeme>, c: char): State {
    if IsSpace(c) then State(out, Rest)
    else if IsWordChar(c) then State(out, InWord([c]))
    else if IsQuote(c) then State(out, InQuote(c, [c]))
    else if IsOperatorChar(c) then State(out, InOperator([c]))
    else State(out + [Mark(c)], Rest)
  }

  /** The lexeme in progress, if the text ended here. */
  function Pending(mode: Mode): seq<Lexeme> {
    match mode
    case Rest => []
    case InWord(text) => [Word(text)]
    case InOperator(text) => [Operator(text)]
    case InQuote(_, text) => [Unclosed(text)]
    case Shut(_, text) => [Quoted(text)]
    case InLine => []
    case InBlock(_, _) => [Unclosed("/*")]
  }

  /** The colon goes with itself and with nothing else. */
  predicate Joins(text: string, c: char) {
    if text == ":" then c == ':' || c == '=' else IsOperatorChar(c) && c != ':' && text != "::" && text != ":="
  }

  predicate EndsWith(text: string, c: char) {
    text != "" && text[|text| - 1] == c
  }

  /** An operator with the character that turned out to open a comment taken off again. */
  function Cut(text: string): seq<Lexeme> {
    if |text| <= 1 then [] else [Operator(text[..|text| - 1])]
  }

  function InsideBlock(depth: nat, last: char, c: char): Mode {
    if last == '*' && c == '/' then (if depth <= 1 then Rest else InBlock(depth - 1, ' '))
    else if last == '/' && c == '*' then InBlock(depth + 1, ' ')
    else InBlock(depth, c)
  }

  function Step(s: State, c: char): State {
    match s.mode
    case Rest => Begin(s.out, c)
    case InWord(text) => if IsWordChar(c) then State(s.out, InWord(text + [c])) else Begin(s.out + [Word(text)], c)
    case InOperator(text) =>
      if EndsWith(text, '-') && c == '-' then State(s.out + Cut(text), InLine)
      else if EndsWith(text, '/') && c == '*' then State(s.out + Cut(text), InBlock(1, ' '))
      else if Joins(text, c) then State(s.out, InOperator(text + [c]))
      else Begin(s.out + [Operator(text)], c)
    case InQuote(quote, text) => State(s.out, if c == quote then Shut(quote, text + [c]) else InQuote(quote, text + [c]))
    case Shut(quote, text) => if c == quote then State(s.out, InQuote(quote, text + [c])) else Begin(s.out + [Quoted(text)], c)
    case InLine => State(s.out, if EndsLine(c) then Rest else InLine)
    case InBlock(depth, last) => State(s.out, InsideBlock(depth, last, c))
  }

  function Feed(s: State, text: string): State
    decreases |text|
  {
    if text == "" then s else Feed(Step(s, text[0]), text[1..])
  }

  function ModeAfter(text: string): Mode {
    Feed(START, text).mode
  }

  function Lex(text: string): seq<Lexeme> {
    var s := Feed(START, text);
    s.out + Pending(s.mode)
  }

  // ------------------------------------------------------------ borders

  /** The character neither goes on with what is in progress nor is swallowed by it. */
  predicate Breaks(mode: Mode, c: char) {
    match mode
    case Rest => true
    case InWord(_) => !IsWordChar(c)
    case InOperator(text) => !(EndsWith(text, '-') && c == '-') && !(EndsWith(text, '/') && c == '*') && !Joins(text, c)
    case Shut(quote, _) => c != quote
    case _ => false
  }

  /** No lexeme and no comment runs across the border of the two texts. */
  predicate Apart(a: string, b: string) {
    b != "" ==> Breaks(ModeAfter(a), b[0])
  }

  lemma {:induction false} FeedConcat(s: State, a: string, b: string)
    ensures Feed(s, a + b) == Feed(Feed(s, a), b)
    decreases |a|
  {
    if a == "" {
      assert a + b == b;
    } else {
      assert (a + b)[1..] == a[1..] + b;
      FeedConcat(Step(s, a[0]), a[1..], b);
    }
  }

  /** What has been put out does not matter for what comes. */
  lemma {:induction false} FeedOutput(out: seq<Lexeme>, mode: Mode, text: string)
    ensures Feed(State(out, mode), text) == State(out + Feed(State([], mode), text).out, Feed(State([], mode), text).mode)
    decreases |text|
  {
    if text != "" {
      var s, t := Step(State(out, mode), text[0]), Step(State([], mode), text[0]);
      StepOutput(out, mode, text[0]);
      FeedOutput(s.out, s.mode, text[1..]);
      FeedOutput(t.out, t.mode, text[1..]);
    }
  }

  lemma StepOutput(out: seq<Lexeme>, mode: Mode, c: char)
    ensures Step(State(out, mode), c) == State(out + Step(State([], mode), c).out, Step(State([], mode), c).mode)
  {
  }

  /** Behind a border the lexer starts afresh. */
  lemma FeedBehind(s: State, b: string)
    requires b != "" && Breaks(s.mode, b[0])
    ensures Feed(s, b) == Feed(State(s.out + Pending(s.mode), Rest), b)
  {
    assert Step(s, b[0]) == Step(State(s.out + Pending(s.mode), Rest), b[0]);
  }

  lemma FeedApart(a: string, b: string)
    requires b != "" && Apart(a, b)
    ensures Feed(START, a + b) == State(Lex(a) + Feed(START, b).out, ModeAfter(b))
  {
    FeedConcat(START, a, b);
    FeedBehind(Feed(START, a), b);
    FeedOutput(Lex(a), Rest, b);
  }

  /** Texts with a border between them are lexed one by one. */
  lemma LexApart(a: string, b: string)
    requires Apart(a, b)
    ensures Lex(a + b) == Lex(a) + Lex(b)
    ensures b != "" ==> ModeAfter(a + b) == ModeAfter(b)
  {
    if b == "" {
      assert a + b == a;
    } else {
      FeedApart(a, b);
    }
  }

  /** The mode in which a text begins again after blanks. */
  predicate Calm(mode: Mode) {
    mode.Rest? || mode.InWord? || mode.InOperator? || mode.Shut?
  }

  lemma BlankIsNoOther(c: char)
    requires IsSpace(c)
    ensures !IsWordChar(c) && !IsOperatorChar(c) && !IsQuote(c)
  {
  }

  /** Quoted texts are opened by quotes, and an operator in progress has a character. */
  predicate Sane(mode: Mode) {
    match mode
    case InOperator(text) => text != ""
    case InQuote(quote, _) => IsQuote(quote)
    case Shut(quote, _) => IsQuote(quote)
    case _ => true
  }

  lemma {:induction false} FeedSane(s: State, text: string)
    requires Sane(s.mode)
    ensures Sane(Feed(s, text).mode)
    decreases |text|
  {
    if text != "" {
      FeedSane(Step(s, text[0]), text[1..]);
    }
  }

  lemma CalmBreaksAtBlank(text: string, c: char)
    requires IsSpace(c) && Calm(ModeAfter(text))
    ensures Breaks(ModeAfter(text), c)
  {
    BlankIsNoOther(c);
    FeedSane(START, text);
  }

  lemma {:induction false} LexBlanks(gap: string)
    requires forall i :: 0 <= i < |gap| ==> IsSpace(gap[i])
    ensures Feed(START, gap) == START && Lex(gap) == []
  {
    if gap != "" {
      assert Step(START, gap[0]) == START;
      LexBlanks(gap[1..]);
    }
  }

  predicate AllWordChars(text: string) {
    forall i :: 0 <= i < |text| ==> IsWordChar(text[i])
  }

  lemma {:induction false} WordGoesOn(out: seq<Lexeme>, word: string, more: string)
    requires AllWordChars(more)
    ensures Feed(State(out, InWord(word)), more) == State(out, InWord(word + more))
    decreases |more|
  {
    if more == "" {
      assert word + more == word;
    } else {
      WordGoesOn(out, word + [more[0]], more[1..]);
      assert word + [more[0]] + more[1..] == word + more;
    }
  }

  lemma LexWord(word: string)
    requires word != "" && AllWordChars(word)
    ensures Feed(START, word) == State([], InWord(word)) && Lex(word) == [Word(word)]
  {
    if IsSpace(word[0]) {
      BlankIsNoOther(word[0]);
    }
    assert Step(START, word[0]) == State([], InWord([word[0]]));
    WordGoesOn([], [word[0]], word[1..]);
    assert [word[0]] + word[1..] == word;
  }

  /** A word in progress grows, or stays as it is if no word character follows. */
  lemma {:induction false} WordGrows(out: seq<Lexeme>, word: string, text: string)
    ensures var s := Feed(State(out, InWord(word)), text); var ls := s.out + Pending(s.mode);
            && |ls| > |out| && ls[..|out|] == out && ls[|out|].Word? && |ls[|out|].text| >= |word|
            && (text != "" && IsWordChar(text[0]) ==> |ls[|out|].text| > |word|)
    decreases |text|
  {
    if text != "" {
      if IsWordChar(text[0]) {
        WordGrows(out, word + [text[0]], text[1..]);
      } else {
        var s := Step(State(out, InWord(word)), text[0]);
        assert s == Begin(out + [Word(word)], text[0]);
        FeedOutput(s.out, s.mode, text[1..]);
      }
    }
  }

  /** A line comment swallows all up to the end of the line. */
  lemma {:induction false} LineGoesOn(out: seq<Lexeme>, text: string)
    requires forall i :: 0 <= i < |text| ==> !EndsLine(text[i])
    ensures Feed(State(out, InLine), text) == State(out, InLine)
    decreases |text|
  {
    if text != "" {
      LineGoesOn(out, text[1..]);
    }
  }

  // ------------------------------------------------------------ comments and quotes

  /** What brings the lexer back to its start may as well not be there. */
  lemma LexAfterStart(text: string, rest: string)
    requires Feed(START, text) == START
    ensures Lex(text + rest) == Lex(rest)
  {
    FeedConcat(START, text, rest);
  }

  /** A line comment is a blank. */
  lemma LineCommentIsBlank(line: string, rest: string)
    requires '\n' !in line && '\r' !in line
    ensures Lex("--" + line + "\n" + rest) == Lex(rest)
  {
    assert Step(START, '-') == State([], InOperator("-"));
    assert "--"[1..] == "-" && Feed(State([], InOperator("-")), "-") == State([], InLine);
    FeedConcat(START, "--", line);
    LineGoesOn([], line);
    FeedConcat(START, "--" + line, "\n");
    LexAfterStart("--" + line + "\n", rest);
  }

  /** It ends an operator in front of it. */
  lemma LineCommentEndsOperator(op: string, line: string)
    requires Feed(START, op) == State([], InOperator(op)) && op != "" && Joins(op, '-') && !EndsWith(op, '-')
    requires '\n' !in line && '\r' !in line
    ensures Lex(op + "--" + line) == [Operator(op)]
  {
    var s := State([], InOperator(op));
    var t := State([], InOperator(op + ['-']));
    assert Step(s, '-') == t;
    assert (op + ['-'])[..|op|] == op;
    assert Step(t, '-') == State([Operator(op)], InLine);
    FeedOne(t, '-');
    assert "--"[1..] == ['-'];
    assert Feed(s, "--") == Feed(t, ['-']);
    FeedConcat(START, op, "--");
    FeedConcat(START, op + "--", line);
    LineGoesOn([Operator(op)], line);
  }

  /** What a block comment may hold: characters other than its own two, and comments again. */
  datatype Comment = End | Text(c: char, rest: Comment) | Nested(inner: Comment, rest: Comment)

  function Print(m: Comment): string {
    match m
    case End => ""
    case Text(c, rest) => [c] + Print(rest)
    case Nested(inner, rest) => "/*" + Print(inner) + "*/" + Print(rest)
  }

  predicate Starless(m: Comment) {
    match m
    case End => true
    case Text(c, rest) => c != '*' && c != '/' && Starless(rest)
    case Nested(inner, rest) => Starless(inner) && Starless(rest)
  }

  /** Deep in a comment, and not at either of its marks. */
  predicate Deep(s: State, depth: nat) {
    s.out == [] && s.mode.InBlock? && s.mode.depth == depth >= 1 && s.mode.last != '*' && s.mode.last != '/'
  }

  lemma OpensDeeper(s: State, depth: nat)
    requires Deep(s, depth)
    ensures Deep(Feed(s, "/*"), depth + 1)
  {
    assert "/*"[1..] == "*";
    assert Feed(Step(s, '/'), "*") == Step(Step(s, '/'), '*');
  }

  lemma ClosesOne(s: State, depth: nat)
    requires Deep(s, depth)
    ensures if depth == 1 then Feed(s, "*/") == START else Deep(Feed(s, "*/"), depth - 1)
  {
    assert "*/"[1..] == "/";
    assert Feed(Step(s, '*'), "/") == Step(Step(s, '*'), '/');
  }

  lemma {:induction false} CommentGoesOn(s: State, depth: nat, m: Comment)
    requires Deep(s, depth) && Starless(m)
    ensures Deep(Feed(s, Print(m)), depth)
    decreases m
  {
    match m
    case End =>
    case Text(c, rest) =>
      assert Print(m)[1..] == Print(rest);
      CommentGoesOn(Step(s, c), depth, rest);
    case Nested(inner, rest) =>
      var open, body, close := "/*", Print(inner), "*/";
      var t := Feed(s, open);
      OpensDeeper(s, depth);
      CommentGoesOn(t, depth + 1, inner);
      ClosesOne(Feed(t, body), depth + 1);
      CommentGoesOn(Feed(Feed(t, body), close), depth, rest);
      FeedConcat(s, open, body);
      FeedConcat(s, open + body, close);
      FeedConcat(s, open + body + close, Print(rest));
  }

  /** A block comment is a blank, with the comments inside it. */
  lemma BlockCommentIsBlank(m: Comment, rest: string)
    requires Starless(m)
    ensures Lex("/*" + Print(m) + "*/" + rest) == Lex(rest)
  {
    var open, close := "/*", "*/";
    assert Step(START, '/') == State([], InOperator("/"));
    assert open[1..] == "*" && Feed(State([], InOperator("/")), "*") == State([], InBlock(1, ' '));
    var s := State([], InBlock(1, ' '));
    CommentGoesOn(s, 1, m);
    ClosesOne(Feed(s, Print(m)), 1);
    FeedConcat(START, open, Print(m));
    FeedConcat(START, open + Print(m), close);
    LexAfterStart(open + Print(m) + close, rest);
  }

  lemma {:induction false} QuoteGoesOn(s: State, text: string)
    requires s.mode.InQuote? && s.mode.quote !in text
    ensures Feed(s, text) == State(s.out, InQuote(s.mode.quote, s.mode.text + text))
    decreases |text|
  {
    if text == "" {
      assert s.mode.text + text == s.mode.text;
    } else {
      QuoteGoesOn(Step(s, text[0]), text[1..]);
      assert s.mode.text + [text[0]] + text[1..] == s.mode.text + text;
    }
  }

  /** Of a quoted text, a doubled quote is a part. */
  lemma DoubledQuoteStays(quote: char, a: string, b: string)
    requires IsQuote(quote) && quote !in a && quote !in b
    ensures var text := [quote] + a + [quote] + [quote] + b + [quote];
            Lex(text) == [Quoted(text)]
  {
    var q := [quote];
    var first, doubled := q + a, q + a + q + q;
    assert Feed(START, q) == State([], InQuote(quote, q));
    FeedConcat(START, q, a);
    QuoteGoesOn(State([], InQuote(quote, q)), a);
    FeedConcat(START, first, q);
    FeedConcat(START, first + q, q);
    FeedOne(State([], InQuote(quote, first)), quote);
    FeedOne(State([], Shut(quote, first + q)), quote);
    FeedConcat(START, doubled, b);
    QuoteGoesOn(State([], InQuote(quote, doubled)), b);
    FeedConcat(START, doubled + b, q);
    FeedOne(State([], InQuote(quote, doubled + b)), quote);
  }

  lemma FeedOne(s: State, c: char)
    ensures Feed(s, [c]) == Step(s, c)
  {
  }

  // ------------------------------------------------------------ blanks between words

  function LexAll(words: seq<string>): seq<Lexeme> {
    if words == [] then [] else Lex(words[0]) + LexAll(words[1..])
  }

  /** Every word leaves the lexer where a blank ends what is in progress. */
  ghost predicate AllCalm(words: seq<string>) {
    forall i :: 0 <= i < |words| ==> Calm(ModeAfter(words[i]))
  }

  /** The text is read word by word. */
  ghost predicate ReadByWords(s: string) {
    && Lex(s) == LexAll(Fields(s))
    && (s != "" && !IsSpace(s[|s| - 1]) ==> Fields(s) != [] && ModeAfter(s) == ModeAfter(Fields(s)[|Fields(s)| - 1]))
  }

  lemma AllCalmTail(words: seq<string>)
    requires words != [] && AllCalm(words)
    ensures Calm(ModeAfter(words[0])) && AllCalm(words[1..])
  {
    forall i | 0 <= i < |words[1..]|
      ensures Calm(ModeAfter(words[1..][i]))
    {
      assert words[1..][i] == words[i + 1];
    }
  }

  lemma LexWordFirst(word: string, rest: string)
    requires Calm(ModeAfter(word)) && (rest != "" ==> IsSpace(rest[0]))
    ensures Lex(word + rest) == Lex(word) + Lex(rest)
    ensures ModeAfter(word + rest) == if rest == "" then ModeAfter(word) else ModeAfter(rest)
  {
    if rest == "" {
      assert word + rest == word;
    } else {
      CalmBreaksAtBlank(word, rest[0]);
      LexApart(word, rest);
    }
  }

  lemma ReadFirstWord(s: string, word: string, rest: string)
    requires s == word + rest && word != "" && Fields(s) == [word] + Fields(rest)
    requires Calm(ModeAfter(word)) && (rest != "" ==> IsSpace(rest[0])) && ReadByWords(rest)
    ensures ReadByWords(s)
  {
    LexWordFirst(word, rest);
    assert Fields(s)[0] == word && Fields(s)[1..] == Fields(rest);
    if rest != "" && !IsSpace(s[|s| - 1]) {
      assert s[|s| - 1] == rest[|rest| - 1];
      assert Fields(s)[|Fields(s)| - 1] == Fields(rest)[|Fields(rest)| - 1];
    }
    if rest == "" {
      assert Fields(s) == [word];
    }
  }

  /** Blanks between such words make no difference, however many and of what kind. */
  lemma {:induction false} LexOfFields(s: string)
    requires AllCalm(Fields(s))
    ensures ReadByWords(s)
    decreases |s|
  {
    if s == "" {
    } else if IsSpace(s[0]) {
      assert Step(START, s[0]) == START;
      LexOfFields(s[1..]);
    } else {
      var word, rest := FirstOfFields(s);
      AllCalmTail(Fields(s));
      LexOfFields(rest);
      ReadFirstWord(s, word, rest);
    }
  }

  lemma FirstOfFields(s: string) returns (word: string, rest: string)
    requires s != "" && !IsSpace(s[0])
    ensures word == s[..WordLength(s)] && rest == s[WordLength(s)..] && s == word + rest && |rest| < |s|
    ensures Fields(s) == [word] + Fields(rest) && Fields(s)[1..] == Fields(rest)
  {
    word, rest := s[..WordLength(s)], s[WordLength(s)..];
  }

  // ------------------------------------------------------------ letter case

  function LowerLexeme(l: Lexeme): Lexeme {
    match l
    case Word(text) => Word(Lower(text))
    case Quoted(text) => Quoted(Lower(text))
    case Operator(text) => Operator(Lower(text))
    case Mark(c) => Mark(LowerChar(c))
    case Unclosed(text) => Unclosed(Lower(text))
  }

  function LowerLexemes(ls: seq<Lexeme>): seq<Lexeme> {
    seq(|ls|, i requires 0 <= i < |ls| => LowerLexeme(ls[i]))
  }

  function LowerMode(mode: Mode): Mode {
    match mode
    case Rest => Rest
    case InWord(text) => InWord(Lower(text))
    case InOperator(text) => InOperator(Lower(text))
    case InQuote(quote, text) => InQuote(quote, Lower(text))
    case Shut(quote, text) => Shut(quote, Lower(text))
    case InLine => InLine
    case InBlock(depth, last) => InBlock(depth, LowerChar(last))
  }

  function LowerState(s: State): State {
    State(LowerLexemes(s.out), LowerMode(s.mode))
  }

  lemma LowerCharClasses(c: char)
    ensures IsSpace(LowerChar(c)) == IsSpace(c) && IsWordChar(LowerChar(c)) == IsWordChar(c)
    ensures IsOperatorChar(LowerChar(c)) == IsOperatorChar(c) && (IsOperatorChar(c) ==> LowerChar(c) == c)
    ensures IsQuote(LowerChar(c)) == IsQuote(c) && (IsQuote(c) ==> LowerChar(c) == c)
    ensures EndsLine(LowerChar(c)) == EndsLine(c)
    ensures (LowerChar(c) == '*' <==> c == '*') && (LowerChar(c) == '/' <==> c == '/') && (LowerChar(c) == '-' <==> c == '-')
    ensures (LowerChar(c) == ':' <==> c == ':') && (LowerChar(c) == '=' <==> c == '=')
  {
  }

  lemma LowerConcat(a: seq<Lexeme>, b: seq<Lexeme>)
    ensures LowerLexemes(a + b) == LowerLexemes(a) + LowerLexemes(b)
  {
  }

  lemma LowerPlus(a: string, c: char)
    ensures Lower(a + [c]) == Lower(a) + [LowerChar(c)]
  {
  }

  lemma BeginLower(out: seq<Lexeme>, c: char)
    ensures LowerState(Begin(out, c)) == Begin(LowerLexemes(out), LowerChar(c))
  {
    LowerCharClasses(c);
    assert Lower([c]) == [LowerChar(c)];
    LowerConcat(out, [Mark(c)]);
    assert LowerLexemes([Mark(c)]) == [Mark(LowerChar(c))];
  }

  lemma OperatorLower(text: string, c: char)
    ensures EndsWith(Lower(text), '-') == EndsWith(text, '-') && EndsWith(Lower(text), '/') == EndsWith(text, '/')
    ensures Joins(Lower(text), LowerChar(c)) == Joins(text, c)
    ensures Cut(Lower(text)) == LowerLexemes(Cut(text))
  {
    LowerCharClasses(c);
    if text != "" {
      LowerCharClasses(text[|text| - 1]);
      LowerCharClasses(text[0]);
      assert Lower(text)[..|text| - 1] == Lower(text[..|text| - 1]);
    }
    if |text| == 2 {
      LowerCharClasses(text[1]);
      assert text == [text[0], text[1]] && Lower(text) == [Lower(text)[0], Lower(text)[1]];
    }
    assert |text| == 1 ==> text == [text[0]] && Lower(text) == [Lower(text)[0]];
  }

  /** What ends at the character is put out, and the character begins something new. */
  lemma BeginLowerBehind(out: seq<Lexeme>, l: Lexeme, c: char)
    ensures LowerState(Begin(out + [l], c)) == Begin(LowerLexemes(out) + [LowerLexeme(l)], LowerChar(c))
  {
    LowerConcat(out, [l]);
    assert LowerLexemes([l]) == [LowerLexeme(l)];
    BeginLower(out + [l], c);
  }

  lemma WordStepLower(s: State, c: char)
    requires s.mode.InWord?
    ensures LowerState(Step(s, c)) == Step(LowerState(s), LowerChar(c))
  {
    LowerCharClasses(c);
    LowerPlus(s.mode.text, c);
    BeginLowerBehind(s.out, Word(s.mode.text), c);
  }

  lemma OperatorStepLower(s: State, c: char)
    requires s.mode.InOperator? && s.mode.text != ""
    ensures LowerState(Step(s, c)) == Step(LowerState(s), LowerChar(c))
  {
    LowerCharClasses(c);
    OperatorLower(s.mode.text, c);
    LowerPlus(s.mode.text, c);
    LowerConcat(s.out, Cut(s.mode.text));
    BeginLowerBehind(s.out, Operator(s.mode.text), c);
  }

  lemma QuoteStepLower(s: State, c: char)
    requires s.mode.InQuote? && Sane(s.mode)
    ensures LowerState(Step(s, c)) == Step(LowerState(s), LowerChar(c))
  {
    LowerPlus(s.mode.text, c);
  }

  lemma ShutStepLower(s: State, c: char)
    requires s.mode.Shut? && Sane(s.mode)
    ensures LowerState(Step(s, c)) == Step(LowerState(s), LowerChar(c))
  {
    LowerPlus(s.mode.text, c);
    BeginLowerBehind(s.out, Quoted(s.mode.text), c);
  }

  lemma BlockStepLower(s: State, c: char)
    requires s.mode.InBlock?
    ensures LowerState(Step(s, c)) == Step(LowerState(s), LowerChar(c))
  {
    LowerCharClasses(c);
    LowerCharClasses(s.mode.last);
    LowerCharClasses(' ');
  }

  lemma StepLower(s: State, c: char)
    requires Sane(s.mode)
    ensures LowerState(Step(s, c)) == Step(LowerState(s), LowerChar(c))
  {
    match s.mode
    case Rest => BeginLower(s.out, c);
    case InWord(_) => WordStepLower(s, c);
    case InOperator(_) => OperatorStepLower(s, c);
    case InQuote(_, _) => QuoteStepLower(s, c);
    case Shut(_, _) => ShutStepLower(s, c);
    case InLine => LowerCharClasses(c);
    case InBlock(_, _) => BlockStepLower(s, c);
  }

  lemma {:induction false} FeedLower(s: State, text: string)
    requires Sane(s.mode)
    ensures Feed(LowerState(s), Lower(text)) == LowerState(Feed(s, text))
    decreases |text|
  {
    if text != "" {
      StepLower(s, text[0]);
      assert Lower(text)[1..] == Lower(text[1..]);
      FeedLower(Step(s, text[0]), text[1..]);
    }
  }

  /** Lexing and lower-casing commute. */
  lemma LexLower(text: string)
    ensures Lex(Lower(text)) == LowerLexemes(Lex(text))
    ensures ModeAfter(Lower(text)) == LowerMode(ModeAfter(text))
  {
    FeedLower(START, text);
    var s := Feed(START, text);
    LowerConcat(s.out, Pending(s.mode));
    assert LowerLexemes(Pending(s.mode)) == Pending(LowerMode(s.mode)) by {
      assert Lower("/*") == "/*";
    }
  }
}
