/** Pulling the first JSON value out of a model's answer. */
module ExtractJson {
  import opened Common
  import opened Text

  // ------------------------------------------------------------ the scanner

  datatype Scanner = Scanner(depth: int, inString: bool, escaped: bool)

  const START := Scanner(0, false, false)

  function CloseOf(open: char): char {
    if open == '[' then ']' else '}'
  }

  /** One byte of the scan. Only brackets of the opening kind count. */
  function Step(st: Scanner, c: char, open: char): Scanner {
    if st.escaped then st.(escaped := false)
    else if c == '\\' && st.inString then st.(escaped := true)
    else if c == '"' then st.(inString := !st.inString)
    else if st.inString then st
    else if c == open then st.(depth := st.depth + 1)
    else if c == CloseOf(open) then st.(depth := st.depth - 1)
    else st
  }

  /** The byte that ends the scan. */
  predicate Ends(st: Scanner, c: char, open: char) {
    !st.escaped && !st.inString && c == CloseOf(open) && c != open && Step(st, c, open).depth == 0
  }

  /** Where the scan ends, if it does. */
  function EndOf(st: Scanner, s: string, open: char): Option<nat>
    decreases s
  {
    if s == [] then None
    else if Ends(st, s[0], open) then Some(0)
    else match EndOf(Step(st, s[0], open), s[1..], open) case None => None case Some(n) => Some(n + 1)
  }

  /** The first opening bracket, or -1. */
  function FirstBracket(s: string): int {
    if s == [] then -1
    else if s[0] == '{' || s[0] == '[' then 0
    else var r := FirstBracket(s[1..]); if r < 0 then -1 else r + 1
  }

  lemma {:induction false} FirstBracketIsFirst(s: string)
    ensures var r := FirstBracket(s);
            -1 <= r < |s| && (r >= 0 ==> s[r] == '{' || s[r] == '[') &&
            forall i :: 0 <= i < (if r < 0 then |s| else r) ==> s[i] != '{' && s[i] != '['
  {
    if s != [] && s[0] != '{' && s[0] != '[' {
      FirstBracketIsFirst(s[1..]);
    }
  }

  const FENCE := "```"

  /** What follows the first line; everything when there is no line end. */
  function AfterLine(s: string): string {
    var nl := Index(s, "\n");
    if nl >= 0 then s[nl + 1..] else s
  }

  /** What follows the first fence, when there is one. */
  function AfterFence(s: string): Option<string> {
    var fence := Index(s, FENCE);
    if fence < 0 then None else Some(s[fence + 3..])
  }

  /** The text from the line after the first fence on. */
  function FenceBody(s: string): Option<string> {
    var rest := AfterFence(s);
    if rest.None? then None else Some(AfterLine(rest.value))
  }

  /** The answer without its code fence: what stands between the line of the first fence and the next one. */
  function Unfenced(s: string): string {
    var body := FenceBody(s);
    if body.None? then s
    else
      var end := Index(body.value, FENCE);
      if end >= 0 then TrimSpace(body.value[..end]) else s
  }

  /** The text holds a fence that is closed again. */
  predicate ClosedFence(s: string) {
    FenceBody(s).Some? && Index(FenceBody(s).value, FENCE) >= 0
  }

  /** From the first bracket to the byte that ends its scan. */
  function Bracketed(s: string): Option<string> {
    var start := FirstBracket(s);
    FirstBracketIsFirst(s);
    if start < 0 then None
    else
      match EndOf(START, s[start..], s[start])
      case None => None
      case Some(n) => if start + n + 1 <= |s| then Some(s[start..start + n + 1]) else None
  }

  method Unfence(text: string) returns (s: string)
    ensures s == Unfenced(text)
  {
    s := text;
    var rest := AfterFence(text);
    if rest.Some? {
      var body := DropLine(rest.value);
      var end := Index(body, FENCE);
      if end >= 0 {
        s := TrimSpace(body[..end]);
      }
    }
  }

  method DropLine(s: string) returns (rest: string)
    ensures rest == AfterLine(s)
  {
    rest := s;
    var nl := Index(rest, "\n");
    if nl >= 0 {
      rest := rest[nl + 1..];
    }
  }

  method FindValue(s: string) returns (out: string, ok: bool)
    ensures ok <==> Bracketed(s).Some?
    ensures ok ==> Bracketed(s) == Some(out)
  {
    var start := FirstBracket(s);
    FirstBracketIsFirst(s);
    if start < 0 {
      return "", false;
    }
    var end := ScanFrom(s, start);
    if end.None? || start + end.value + 1 > |s| {
      return "", false;
    }
    return s[start..start + end.value + 1], true;
  }

  method ExtractJSON(text: string) returns (out: string, ok: bool)
    ensures ok <==> Bracketed(Unfenced(TrimSpace(text))).Some?
    ensures ok ==> Bracketed(Unfenced(TrimSpace(text))) == Some(out)
  {
    var s := Unfence(TrimSpace(text));
    out, ok := FindValue(s);
  }

  /** The byte loop. */
  method ScanFrom(s: string, start: nat) returns (end: Option<nat>)
    requires start < |s| && IsOpen(s[start])
    ensures end == EndOf(START, s[start..], s[start])
  {
    var open := s[start];
    var depth, inStr, escaped := 0, false, false;
    for i := start to |s|
      invariant EndOf(START, s[start..], open) == Shift(EndOf(Scanner(depth, inStr, escaped), s[i..], open), i - start)
    {
      var c := s[i];
      ghost var st := Scanner(depth, inStr, escaped);
      assert s[i..] == [c] + s[i + 1..];
      if escaped {
        escaped := false;
      } else if c == '\\' && inStr {
        escaped := true;
      } else if c == '"' {
        inStr := !inStr;
      } else if inStr {
      } else if c == open {
        depth := depth + 1;
      } else if c == CloseOf(open) {
        depth := depth - 1;
        if depth == 0 {
          return Some(i - start);
        }
      }
      assert Scanner(depth, inStr, escaped) == Step(st, c, open) && !Ends(st, c, open);
      Advance(st, c, s[i + 1..], open);
    }
    return None;
  }

  function Shift(r: Option<nat>, k: nat): Option<nat> {
    match r case None => None case Some(n) => Some(k + n)
  }

  // ------------------------------------------------------------ JSON texts

  /** A piece of a string: a character, or a backslash and the character after it. */
  datatype Piece = Raw(c: char) | Escape(c: char)

  /** JSON values with the blanks between their tokens. */
  datatype Json =
    | Literal(text: string)
    | Str(body: seq<Piece>)
    | Arr(blank: string, items: Items)
    | Obj(blank: string, members: Members)

  datatype Items = NoItems | Item(v: Json, after: string, before: string, rest: Items)

  datatype Members =
    | NoMembers
    | Member(key: seq<Piece>, beforeColon: string, afterColon: string, v: Json, after: string, before: string, rest: Members)

  predicate Structural(c: char) {
    c == '{' || c == '}' || c == '[' || c == ']' || c == '"' || c == '\\'
  }

  /** No bracket and no quote: true of blanks, of numbers and of the three literal names. */
  predicate Plain(s: string) {
    forall i :: 0 <= i < |s| ==> !Structural(s[i])
  }

  predicate PieceOk(p: Piece) {
    p.Raw? ==> p.c != '"' && p.c != '\\'
  }

  predicate BodyOk(b: seq<Piece>) {
    forall i :: 0 <= i < |b| ==> PieceOk(b[i])
  }

  predicate Valid(v: Json) {
    match v
    case Literal(text) => Plain(text)
    case Str(body) => BodyOk(body)
    case Arr(blank, items) => Plain(blank) && ItemsValid(items)
    case Obj(blank, members) => Plain(blank) && MembersValid(members)
  }

  predicate ItemsValid(items: Items) {
    items.Item? ==> Valid(items.v) && Plain(items.after) && Plain(items.before) && ItemsValid(items.rest)
  }

  predicate MembersValid(ms: Members) {
    ms.Member? ==>
      BodyOk(ms.key) && Plain(ms.beforeColon) && Plain(ms.afterColon) && Valid(ms.v) && Plain(ms.after) && Plain(ms.before) && MembersValid(ms.rest)
  }

  function PrintPiece(p: Piece): string {
    match p case Raw(c) => [c] case Escape(c) => ['\\', c]
  }

  function PrintBody(b: seq<Piece>): string {
    if b == [] then "" else PrintPiece(b[0]) + PrintBody(b[1..])
  }

  function PrintString(b: seq<Piece>): string {
    "\"" + PrintBody(b) + "\""
  }

  function Print(v: Json): string {
    match v
    case Literal(text) => text
    case Str(body) => PrintString(body)
    case Arr(blank, items) => "[" + (blank + PrintItems(items)) + "]"
    case Obj(blank, members) => "{" + (blank + PrintMembers(members)) + "}"
  }

  function PrintItems(items: Items): string {
    match items
    case NoItems => ""
    case Item(v, after, before, rest) =>
      Print(v) + (after + (if rest.NoItems? then "" else "," + (before + PrintItems(rest))))
  }

  function PrintMembers(ms: Members): string {
    match ms
    case NoMembers => ""
    case Member(key, beforeColon, afterColon, v, after, before, rest) =>
      PrintString(key) + (beforeColon + (":" + (afterColon +
        (Print(v) + (after + (if rest.NoMembers? then "" else "," + (before + PrintMembers(rest))))))))
  }

  /** The values as the items of an array, without blanks. */
  function ItemsOf(vs: seq<Json>): Items {
    if vs == [] then NoItems else Item(vs[0], "", "", ItemsOf(vs[1..]))
  }

  function Prints(vs: seq<Json>): seq<string> {
    seq(|vs|, i requires 0 <= i < |vs| => Print(vs[i]))
  }

  /** An array is its values between brackets, with commas between them. */
  lemma {:induction false} ArrayIsJoined(vs: seq<Json>)
    ensures PrintItems(ItemsOf(vs)) == Join(Prints(vs), ",")
    ensures Print(Arr("", ItemsOf(vs))) == "[" + Join(Prints(vs), ",") + "]"
  {
    if vs != [] {
      ArrayIsJoined(vs[1..]);
      assert Prints(vs)[1..] == Prints(vs[1..]);
      assert ItemsOf(vs[1..]).NoItems? <==> |vs| == 1;
    }
  }

  /** Keys and values as the members of an object, without blanks. */
  function MembersOf(kvs: seq<(seq<Piece>, Json)>): Members {
    if kvs == [] then NoMembers else Member(kvs[0].0, "", "", kvs[0].1, "", "", MembersOf(kvs[1..]))
  }

  function PrintsOf(kvs: seq<(seq<Piece>, Json)>): seq<string> {
    seq(|kvs|, i requires 0 <= i < |kvs| => PrintString(kvs[i].0) + ":" + Print(kvs[i].1))
  }

  lemma FirstMember(key: seq<Piece>, v: Json, rest: Members)
    ensures PrintMembers(Member(key, "", "", v, "", "", rest)) ==
            PrintString(key) + ":" + Print(v) + if rest.NoMembers? then "" else "," + PrintMembers(rest)
  {
    var comma, more := ",", PrintMembers(rest);
    NoBlanks("", comma, more);
    JoinParts("", PrintString(key), ":", Print(v), if rest.NoMembers? then "" else comma + more);
  }

  lemma NoBlanks(none: string, a: string, b: string)
    requires none == ""
    ensures a + (none + b) == a + b
  {
    assert none + b == b;
  }

  lemma JoinParts(none: string, a: string, b: string, c: string, d: string)
    requires none == ""
    ensures a + (none + (b + (none + (c + (none + d))))) == a + b + c + d
  {
    assert none + d == d;
    assert none + (c + d) == c + d;
    assert none + (b + (c + d)) == b + (c + d);
    assert a + (b + (c + d)) == a + b + c + d;
  }

  /** An object is its members between braces, with commas between them. */
  lemma {:induction false} ObjectIsJoined(kvs: seq<(seq<Piece>, Json)>)
    ensures PrintMembers(MembersOf(kvs)) == Join(PrintsOf(kvs), ",")
    ensures Print(Obj("", MembersOf(kvs))) == "{" + Join(PrintsOf(kvs), ",") + "}"
  {
    if kvs != [] {
      var first, rest := kvs[0], kvs[1..];
      ObjectIsJoined(rest);
      FirstMember(first.0, first.1, MembersOf(rest));
      assert PrintsOf(kvs)[1..] == PrintsOf(rest);
      JoinFirst(PrintsOf(kvs), ",");
      assert MembersOf(rest).NoMembers? <==> PrintsOf(rest) == [];
    }
  }

  lemma JoinFirst(parts: seq<string>, sep: string)
    requires parts != []
    ensures Join(parts, sep) == parts[0] + if parts[1..] == [] then "" else sep + Join(parts[1..], sep)
  {
    if |parts| > 1 {
      assert parts[0] + sep + Join(parts[1..], sep) == parts[0] + (sep + Join(parts[1..], sep));
    }
  }

  // ------------------------------------------------------------ a value passes through the scanner

  /** Scanning the text neither ends the scan nor changes the scanner. */
  ghost predicate Neutral(st: Scanner, s: string, open: char) {
    forall rest :: Passes(st, s, rest, open)
  }

  predicate Passes(st: Scanner, s: string, rest: string, open: char) {
    EndOf(st, s + rest, open) == Shift(EndOf(st, rest, open), |s|)
  }

  predicate Resting(st: Scanner) {
    st.depth >= 1 && !st.inString && !st.escaped
  }

  predicate IsOpen(c: char) {
    c == '{' || c == '['
  }

  lemma NeutralConcat(st: Scanner, a: string, b: string, open: char)
    requires Neutral(st, a, open) && Neutral(st, b, open)
    ensures Neutral(st, a + b, open)
  {
    forall rest
      ensures Passes(st, a + b, rest, open)
    {
      assert (a + b) + rest == a + (b + rest);
      assert Passes(st, a, b + rest, open) && Passes(st, b, rest, open);
    }
  }

  lemma Advance(st: Scanner, c: char, rest: string, open: char)
    requires !Ends(st, c, open)
    ensures EndOf(st, [c] + rest, open) == Shift(EndOf(Step(st, c, open), rest, open), 1)
  {
    assert ([c] + rest)[1..] == rest;
  }

  lemma {:induction false} PlainIsNeutral(st: Scanner, s: string, open: char)
    requires Resting(st) && IsOpen(open) && Plain(s)
    ensures Neutral(st, s, open)
  {
    forall rest
      ensures Passes(st, s, rest, open)
    {
      PlainPasses(st, s, rest, open);
    }
  }

  lemma {:induction false} PlainPasses(st: Scanner, s: string, rest: string, open: char)
    requires Resting(st) && IsOpen(open) && Plain(s)
    ensures Passes(st, s, rest, open)
  {
    if s == [] {
      assert s + rest == rest;
    } else {
      assert s + rest == [s[0]] + (s[1..] + rest);
      Advance(st, s[0], s[1..] + rest, open);
      PlainPasses(st, s[1..], rest, open);
    }
  }

  lemma {:induction false} BodyPasses(st: Scanner, b: seq<Piece>, rest: string, open: char)
    requires st.inString && !st.escaped && IsOpen(open) && BodyOk(b)
    ensures Passes(st, PrintBody(b), rest, open)
  {
    if b == [] {
      assert PrintBody(b) + rest == rest;
    } else {
      var more := PrintBody(b[1..]);
      BodyPasses(st, b[1..], rest, open);
      PiecePasses(st, b[0], more + rest, open);
      assert PrintBody(b) + rest == PrintPiece(b[0]) + (more + rest);
    }
  }

  lemma PiecePasses(st: Scanner, p: Piece, rest: string, open: char)
    requires st.inString && !st.escaped && IsOpen(open) && PieceOk(p)
    ensures Passes(st, PrintPiece(p), rest, open)
  {
    match p
    case Raw(c) =>
      Advance(st, c, rest, open);
    case Escape(c) =>
      assert ['\\', c] + rest == ['\\'] + ([c] + rest);
      Advance(st, '\\', [c] + rest, open);
      Advance(st.(escaped := true), c, rest, open);
  }

  /** Brackets and escaped quotes inside a string never end the scan. */
  lemma StringIsNeutral(st: Scanner, b: seq<Piece>, open: char)
    requires Resting(st) && IsOpen(open) && BodyOk(b)
    ensures Neutral(st, PrintString(b), open)
  {
    forall rest
      ensures Passes(st, PrintString(b), rest, open)
    {
      var body, close := PrintBody(b), ['"'] + rest;
      assert PrintString(b) + rest == ['"'] + (body + close);
      Advance(st, '"', body + close, open);
      BodyPasses(st.(inString := true), b, close, open);
      Advance(st.(inString := true), '"', rest, open);
    }
  }

  /** A bracketed text is neutral if what it encloses is, one level deeper where the bracket counts. */
  lemma BracketsAreNeutral(st: Scanner, l: char, inner: string, open: char)
    requires Resting(st) && IsOpen(open) && IsOpen(l)
    requires Neutral(if l == open then st.(depth := st.depth + 1) else st, inner, open)
    ensures Neutral(st, [l] + inner + [CloseOf(l)], open)
  {
    var deeper := if l == open then st.(depth := st.depth + 1) else st;
    forall rest
      ensures Passes(st, [l] + inner + [CloseOf(l)], rest, open)
    {
      var close := [CloseOf(l)] + rest;
      Regroup([l], inner, [CloseOf(l)], rest);
      Advance(st, l, inner + close, open);
      assert Step(st, l, open) == deeper;
      assert Passes(deeper, inner, close, open);
      Advance(deeper, CloseOf(l), rest, open);
      assert Step(deeper, CloseOf(l), open) == st;
    }
  }

  lemma {:induction false} ValueIsNeutral(st: Scanner, v: Json, open: char)
    requires Resting(st) && IsOpen(open) && Valid(v)
    ensures Neutral(st, Print(v), open)
    decreases v
  {
    match v
    case Literal(text) => PlainIsNeutral(st, text, open);
    case Str(body) => StringIsNeutral(st, body, open);
    case Arr(blank, items) =>
      var deeper := if '[' == open then st.(depth := st.depth + 1) else st;
      InnerIsNeutral(deeper, v, open);
      BracketsAreNeutral(st, '[', blank + PrintItems(items), open);
    case Obj(blank, members) =>
      var deeper := if '{' == open then st.(depth := st.depth + 1) else st;
      InnerIsNeutral(deeper, v, open);
      BracketsAreNeutral(st, '{', blank + PrintMembers(members), open);
  }

  /** What stands between the brackets of an array or object. */
  function Inner(v: Json): string
    requires v.Arr? || v.Obj?
  {
    match v case Arr(blank, items) => blank + PrintItems(items) case Obj(blank, members) => blank + PrintMembers(members)
  }

  lemma {:induction false} InnerIsNeutral(st: Scanner, v: Json, open: char)
    requires Resting(st) && IsOpen(open) && Valid(v) && (v.Arr? || v.Obj?)
    ensures Neutral(st, Inner(v), open)
    decreases v, 0
  {
    PlainIsNeutral(st, v.blank, open);
    match v
    case Arr(blank, items) =>
      ItemsAreNeutral(st, items, open);
      NeutralConcat(st, blank, PrintItems(items), open);
    case Obj(blank, members) =>
      MembersAreNeutral(st, members, open);
      NeutralConcat(st, blank, PrintMembers(members), open);
  }

  lemma {:induction false} ItemsAreNeutral(st: Scanner, items: Items, open: char)
    requires Resting(st) && IsOpen(open) && ItemsValid(items)
    ensures Neutral(st, PrintItems(items), open)
    decreases items
  {
    PlainIsNeutral(st, "", open);
    if items.Item? {
      var tail := if items.rest.NoItems? then "" else "," + (items.before + PrintItems(items.rest));
      ValueIsNeutral(st, items.v, open);
      PlainIsNeutral(st, items.after, open);
      if !items.rest.NoItems? {
        ItemsAreNeutral(st, items.rest, open);
        PlainIsNeutral(st, items.before, open);
        PlainIsNeutral(st, ",", open);
        NeutralConcat(st, items.before, PrintItems(items.rest), open);
        NeutralConcat(st, ",", items.before + PrintItems(items.rest), open);
      }
      NeutralConcat(st, items.after, tail, open);
      NeutralConcat(st, Print(items.v), items.after + tail, open);
    }
  }

  lemma {:induction false} MembersAreNeutral(st: Scanner, ms: Members, open: char)
    requires Resting(st) && IsOpen(open) && MembersValid(ms)
    ensures Neutral(st, PrintMembers(ms), open)
    decreases ms
  {
    PlainIsNeutral(st, "", open);
    if ms.Member? {
      var tail := if ms.rest.NoMembers? then "" else "," + (ms.before + PrintMembers(ms.rest));
      StringIsNeutral(st, ms.key, open);
      PlainIsNeutral(st, ms.beforeColon, open);
      PlainIsNeutral(st, ":", open);
      PlainIsNeutral(st, ms.afterColon, open);
      ValueIsNeutral(st, ms.v, open);
      PlainIsNeutral(st, ms.after, open);
      if !ms.rest.NoMembers? {
        MembersAreNeutral(st, ms.rest, open);
        PlainIsNeutral(st, ms.before, open);
        PlainIsNeutral(st, ",", open);
        NeutralConcat(st, ms.before, PrintMembers(ms.rest), open);
        NeutralConcat(st, ",", ms.before + PrintMembers(ms.rest), open);
      }
      NeutralConcat(st, ms.after, tail, open);
      NeutralConcat(st, Print(ms.v), ms.after + tail, open);
      NeutralConcat(st, ms.afterColon, Print(ms.v) + (ms.after + tail), open);
      NeutralConcat(st, ":", ms.afterColon + (Print(ms.v) + (ms.after + tail)), open);
      NeutralConcat(st, ms.beforeColon, ":" + (ms.afterColon + (Print(ms.v) + (ms.after + tail))), open);
      NeutralConcat(st, PrintString(ms.key), ms.beforeColon + (":" + (ms.afterColon + (Print(ms.v) + (ms.after + tail)))), open);
    }
  }

  lemma BracketEndsScan(st: Scanner, open: char, inner: string, close: string)
    requires st == START && IsOpen(open) && Neutral(Step(st, open, open), inner, open)
    requires close != [] && close[0] == CloseOf(open)
    ensures EndOf(st, [open] + (inner + close), open) == Some(|inner| + 1)
  {
    Advance(st, open, inner + close, open);
    var inside := Step(st, open, open);
    assert Passes(inside, inner, close, open);
    assert Ends(inside, close[0], open);
    assert EndOf(inside, close, open) == Some(0);
  }

  /** The scan of an array or object ends with its own closing bracket, whatever follows. */
  lemma ValueEndsScan(v: Json, rest: string)
    requires Valid(v) && (v.Arr? || v.Obj?)
    ensures Print(v) != [] && EndOf(START, Print(v) + rest, Print(v)[0]) == Some(|Print(v)| - 1)
  {
    var open, inner := if v.Arr? then '[' else '{', Inner(v);
    var st := START;
    var close := [CloseOf(open)] + rest;
    InnerIsNeutral(Step(st, open, open), v, open);
    BracketEndsScan(st, open, inner, close);
    PrintBrackets(v);
    Regroup([open], inner, [CloseOf(open)], rest);
    FirstAndLength(open, inner, CloseOf(open));
  }

  lemma FirstAndLength(open: char, inner: string, close: char)
    ensures var s := [open] + inner + [close]; s != [] && s[0] == open && |s| == |inner| + 2
  {
  }

  lemma Regroup(a: string, b: string, c: string, d: string)
    ensures (a + b + c) + d == a + (b + (c + d))
  {
  }

  lemma PrintBrackets(v: Json)
    requires v.Arr? || v.Obj?
    ensures var open := if v.Arr? then '[' else '{';
            Print(v) == [open] + Inner(v) + [CloseOf(open)]
  {
  }

  // ------------------------------------------------------------ around the value

  lemma {:induction false} BracketAfterProse(p: string, m: string)
    requires m != [] && IsOpen(m[0]) && forall i :: 0 <= i < |p| ==> !IsOpen(p[i])
    ensures FirstBracket(p + m) == |p|
  {
    if p == [] {
      assert p + m == m;
    } else {
      assert (p + m)[1..] == p[1..] + m;
      BracketAfterProse(p[1..], m);
    }
  }

  /** After prose without an opening bracket, the first value is found whole. */
  lemma BracketedFindsValue(p: string, v: Json, q: string)
    requires Valid(v) && (v.Arr? || v.Obj?) && forall i :: 0 <= i < |p| ==> !IsOpen(p[i])
    ensures Bracketed(p + Print(v) + q) == Some(Print(v))
  {
    var s := p + (Print(v) + q);
    ValueEndsScan(v, q);
    BracketAfterProse(p, Print(v) + q);
    assert s == p + Print(v) + q;
    assert s[|p|..] == Print(v) + q && s[|p|] == Print(v)[0];
    assert s[|p|..|p| + |Print(v)|] == Print(v);
  }

  lemma EndsAreBrackets(v: Json)
    requires v.Arr? || v.Obj?
    ensures Print(v) != [] && !IsSpace(Print(v)[0]) && !IsSpace(Print(v)[|Print(v)| - 1])
  {
  }

  lemma TrimmedProse(p: string)
    requires forall i :: 0 <= i < |p| ==> !IsOpen(p[i])
    ensures forall i :: 0 <= i < |TrimLeft(p)| ==> !IsOpen(TrimLeft(p)[i])
  {
    TrimLeftSuffix(p);
  }

  lemma OccursInside(s: string, from: nat, to: nat, sub: string)
    requires from <= to <= |s| && sub != "" && Index(s[from..to], sub) >= 0
    ensures Index(s, sub) >= 0
  {
    var i := Index(s[from..to], sub);
    IndexSpec(s[from..to], sub);
    assert s[from..to][i..i + |sub|] == s[from + i..from + i + |sub|];
    assert OccursAt(s, sub, from + i);
    IndexSpec(s, sub);
  }

  lemma TrimSpaceIsPart(s: string) returns (from: nat, to: nat)
    ensures from <= to <= |s| && TrimSpace(s) == s[from..to] && from == |s| - |TrimLeft(s)|
  {
    TrimLeftSuffix(s);
    TrimRightPrefix(TrimLeft(s));
    from := |s| - |TrimLeft(s)|;
    to := from + |TrimSpace(s)|;
  }

  lemma OccursInFront(s: string, n: nat, sub: string, i: int)
    requires n <= |s| && OccursAt(s[..n], sub, i)
    ensures OccursAt(s, sub, i)
  {
    assert s[i..i + |sub|] == s[..n][i..i + |sub|];
  }

  /** What is cut from between two fences holds none. */
  lemma NoFenceBetween(t: string)
    requires ClosedFence(t)
    ensures Index(Unfenced(t), FENCE) < 0
  {
    var body := FenceBody(t).value;
    var end := Index(body, FENCE);
    IndexSpec(body, FENCE);
    var inner := body[..end];
    if Index(inner, FENCE) >= 0 {
      var i := Index(inner, FENCE);
      IndexSpec(inner, FENCE);
      OccursInFront(body, end, FENCE, i);
    }
    var from, to := TrimSpaceIsPart(inner);
    if Index(TrimSpace(inner), FENCE) >= 0 {
      OccursInside(inner, from, to, FENCE);
    }
  }

  lemma BracketedIsPart(s: string)
    requires Bracketed(s).Some? && Index(Bracketed(s).value, FENCE) >= 0
    ensures Index(s, FENCE) >= 0
  {
    var start := FirstBracket(s);
    FirstBracketIsFirst(s);
    var n := EndOf(START, s[start..], s[start]).value;
    OccursInside(s, start, start + n + 1, FENCE);
  }

  /** What is between the first fence's line and the next one. */
  function Enclosed(t: string): string
    requires ClosedFence(t)
  {
    FenceBody(t).value[..Index(FenceBody(t).value, FENCE)]
  }

  /** The text is bracket-free prose, the value's own text, and anything. */
  ghost predicate Announces(s: string, v: Json) {
    exists p, q :: s == p + Print(v) + q && forall i :: 0 <= i < |p| ==> !IsOpen(p[i])
  }

  lemma {:induction false} BlanksInFront(s: string)
    ensures |TrimLeft(s)| <= |s| && forall i :: 0 <= i < |s| - |TrimLeft(s)| ==> IsSpace(s[i])
  {
    if s != [] && IsSpace(s[0]) {
      BlanksInFront(s[1..]);
    }
  }

  /** That is what it takes for the value to be found in a text. */
  lemma FoundExactlyWhen(s: string, v: Json)
    requires Valid(v) && (v.Arr? || v.Obj?)
    ensures Bracketed(TrimSpace(s)) == Some(Print(v)) <==> Announces(s, v)
  {
    if Announces(s, v) {
      var p, q :| s == p + Print(v) + q && forall i :: 0 <= i < |p| ==> !IsOpen(p[i]);
      TrimmedValue(p, v, q);
    }
    if Bracketed(TrimSpace(s)) == Some(Print(v)) {
      FoundIsAnnounced(s, v);
    }
  }

  lemma FoundIsAnnounced(s: string, v: Json)
    requires Bracketed(TrimSpace(s)) == Some(Print(v))
    ensures Announces(s, v)
  {
    var from, to := TrimSpaceIsPart(s);
    BlanksInFront(s);
    var t := TrimSpace(s);
    var start := FirstBracket(t);
    FirstBracketIsFirst(t);
    assert t[start..start + |Print(v)|] == Print(v);
    PartOfPart(s, from, to, start, start + |Print(v)|);
    NoBracketBefore(s, from, to, start, s[..from + start]);
    assert s == s[..from + start] + Print(v) + s[from + start + |Print(v)|..];
  }

  lemma PartOfPart(s: string, from: nat, to: nat, start: nat, end: nat)
    requires from <= to <= |s| && start <= end <= to - from
    ensures s[from + start..from + end] == s[from..to][start..end]
    ensures s == s[..from + start] + s[from..to][start..end] + s[from + end..]
  {
    var part := s[from..to];
    assert forall k :: start <= k < end ==> part[k] == s[from + k];
    assert part[start..end] == s[from + start..from + end];
  }

  lemma NoBracketBefore(s: string, from: nat, to: nat, start: nat, p: string)
    requires from <= to <= |s| && start <= to - from && p == s[..from + start]
    requires (forall i :: 0 <= i < from ==> IsSpace(s[i])) && forall i :: 0 <= i < start ==> !IsOpen(s[from..to][i])
    ensures forall i :: 0 <= i < |p| ==> !IsOpen(p[i])
  {
    forall i | 0 <= i < |p|
      ensures !IsOpen(p[i])
    {
      if i >= from {
        assert s[i] == s[from..to][i - from];
      }
    }
  }

  /** Where the value is looked for: in what the first closed fence encloses, or in the whole text if no fence is closed. */
  function Searched(text: string): string {
    var t := TrimSpace(text);
    if ClosedFence(t) then Enclosed(t) else text
  }

  /** For any text and any value: it is returned exactly when the text it is looked for in is prose without a bracket, the
      value's own text, and anything. */
  lemma ReturnedExactlyWhen(text: string, v: Json)
    requires Valid(v) && (v.Arr? || v.Obj?)
    ensures Bracketed(Unfenced(TrimSpace(text))) == Some(Print(v)) <==> Announces(Searched(text), v)
  {
    FoundExactlyWhen(Searched(text), v);
  }

  /** A value that holds a fence itself, in one of its strings, is returned exactly when no closed fence stands in the text and
      nothing but prose without a bracket before the value: one that is cut from between two fences is never the value. */
  lemma FencedValueExactlyWhen(text: string, v: Json)
    requires Valid(v) && (v.Arr? || v.Obj?) && Index(Print(v), FENCE) >= 0
    ensures Bracketed(Unfenced(TrimSpace(text))) == Some(Print(v)) <==> !ClosedFence(TrimSpace(text)) && Announces(text, v)
  {
    ReturnedExactlyWhen(text, v);
    var t := TrimSpace(text);
    if ClosedFence(t) {
      NoFenceBetween(t);
      if Bracketed(Unfenced(t)) == Some(Print(v)) {
        BracketedIsPart(Unfenced(t));
      }
    }
  }

  /** A closed fence with another value gives that one. */
  lemma FencedValueIsReturned(t: string, w: Json)
    requires Valid(w) && (w.Arr? || w.Obj?) && ClosedFence(t) && Announces(Enclosed(t), w)
    ensures Bracketed(Unfenced(t)) == Some(Print(w))
  {
    FoundExactlyWhen(Enclosed(t), w);
  }

  lemma {:induction false} NoBracket(s: string)
    requires forall i :: 0 <= i < |s| ==> !IsOpen(s[i])
    ensures FirstBracket(s) == -1
  {
    if s != [] {
      NoBracket(s[1..]);
    }
  }

  /** A closed fence around anything without a bracket hides every value. */
  lemma BracketlessFenceHides(t: string)
    requires ClosedFence(t) && forall i :: 0 <= i < |Enclosed(t)| ==> !IsOpen(Enclosed(t)[i])
    ensures Bracketed(Unfenced(t)).None?
  {
    var from, to := TrimSpaceIsPart(Enclosed(t));
    NoBracket(TrimSpace(Enclosed(t)));
  }

  /** Where no code fence is closed, the value is returned that comes behind prose without a bracket, and no other. */
  lemma ExtractsFromProse(text: string, v: Json)
    requires Valid(v) && (v.Arr? || v.Obj?) && !ClosedFence(TrimSpace(text))
    ensures Bracketed(Unfenced(TrimSpace(text))) == Some(Print(v)) <==> Announces(text, v)
  {
    FoundExactlyWhen(text, v);
  }

  /** The fence after `a` is the first one in `a` and whatever follows. */
  predicate FenceAfter(a: string) {
    Index(a + FENCE, FENCE) == |a|
  }

  lemma FirstStays(a: string, sub: string, b: string)
    requires Index(a + sub, sub) == |a|
    ensures Index(a + sub + b, sub) == |a|
  {
    assert OccursAt(a + sub + b, sub, |a|);
    forall j | 0 <= j < |a|
      ensures !OccursAt(a + sub + b, sub, j)
    {
      IndexSpec(a + sub, sub);
      assert !OccursAt(a + sub, sub, j);
      assert (a + sub + b)[j..j + |sub|] == (a + sub)[j..j + |sub|];
    }
    IndexIsFirst(a + sub + b, sub, |a|);
  }

  lemma FenceAfterTrimmed(pre: string)
    requires FenceAfter(pre)
    ensures FenceAfter(TrimLeft(pre))
  {
    TrimLeftSuffix(pre);
    var t := TrimLeft(pre);
    var k := |pre| - |t|;
    assert OccursAt(t + FENCE, FENCE, |t|);
    IndexSpec(pre + FENCE, FENCE);
    forall j | 0 <= j < |t|
      ensures !OccursAt(t + FENCE, FENCE, j)
    {
      assert (t + FENCE)[j..j + 3] == (pre + FENCE)[k + j..k + j + 3];
      assert !OccursAt(pre + FENCE, FENCE, k + j);
    }
    IndexIsFirst(t + FENCE, FENCE, |t|);
  }

  lemma UnfencedBody(pre: string, tag: string, body: string, post: string)
    requires FenceAfter(pre) && FenceAfter(body) && '\n' !in tag
    ensures Unfenced(pre + FENCE + (tag + "\n" + body + FENCE + post)) == TrimSpace(body)
  {
    var rest := tag + "\n" + body + FENCE + post;
    var s := pre + FENCE + rest;
    FirstStays(pre, FENCE, rest);
    assert s[|pre| + 3..] == rest;
    assert rest == tag + "\n" + (body + FENCE + post);
    assert OccursAt(rest, "\n", |tag|);
    forall j | 0 <= j < |tag|
      ensures !OccursAt(rest, "\n", j)
    {
      assert rest[j..j + 1] == [tag[j]];
    }
    IndexIsFirst(rest, "\n", |tag|);
    assert rest[|tag| + 1..] == body + FENCE + post;
    FirstStays(body, FENCE, post);
    assert (body + FENCE + post)[..|body|] == body;
  }

  /** A code fence with its language tag. */
  function Fenced(tag: string, body: string): string {
    FENCE + (tag + "\n" + body + FENCE)
  }

  lemma FencedEnds(tag: string, body: string)
    ensures var block := Fenced(tag, body);
            block != [] && !IsSpace(block[0]) && !IsSpace(block[|block| - 1])
  {
    var block := Fenced(tag, body);
    assert block[0] == '`' && block[|block| - 1] == '`';
  }

  lemma FencedIsUnfenced(pre: string, tag: string, body: string, post: string)
    requires FenceAfter(pre) && FenceAfter(body) && '\n' !in tag
    ensures Unfenced(TrimSpace(pre + Fenced(tag, body) + post)) == TrimSpace(body)
  {
    FencedEnds(tag, body);
    TrimSpaceKeeps(pre, Fenced(tag, body), post);
    FenceAfterTrimmed(pre);
    UnfencedBody(TrimLeft(pre), tag, body, TrimRight(post));
    RegroupFence(TrimLeft(pre), FENCE, tag + "\n" + body, TrimRight(post));
  }

  lemma RegroupFence(a: string, fence: string, b: string, c: string)
    ensures a + (fence + (b + fence)) + c == a + fence + (b + fence + c)
  {
  }

  /** A value in a code fence is returned exactly, whatever precedes and follows the fence. */
  lemma ExtractsFromFence(pre: string, tag: string, p: string, v: Json, q: string, post: string)
    requires Valid(v) && (v.Arr? || v.Obj?) && forall i :: 0 <= i < |p| ==> !IsOpen(p[i])
    requires FenceAfter(pre) && FenceAfter(p + Print(v) + q) && '\n' !in tag
    ensures Bracketed(Unfenced(TrimSpace(pre + Fenced(tag, p + Print(v) + q) + post))) == Some(Print(v))
  {
    FencedIsUnfenced(pre, tag, p + Print(v) + q, post);
    TrimmedValue(p, v, q);
  }

  lemma TrimmedValue(p: string, v: Json, q: string)
    requires Valid(v) && (v.Arr? || v.Obj?) && forall i :: 0 <= i < |p| ==> !IsOpen(p[i])
    ensures Bracketed(TrimSpace(p + Print(v) + q)) == Some(Print(v))
  {
    EndsAreBrackets(v);
    TrimSpaceKeeps(p, Print(v), q);
    TrimmedProse(p);
    BracketedFindsValue(TrimLeft(p), v, TrimRight(q));
  }

  /** So where prose with a value is followed by a closed fence with another, the fence wins: the first value is not
      the one returned. */
  lemma FenceWins(p: string, v: Json, q: string, w: Json)
    requires Valid(w) && (w.Arr? || w.Obj?) && Print(v) != Print(w)
    requires FenceAfter(p + Print(v) + q) && FenceAfter(Print(w))
    ensures Bracketed(Unfenced(TrimSpace(p + Print(v) + q + Fenced("", Print(w)) + ""))) == Some(Print(w)) != Some(Print(v))
  {
    assert "" + Print(w) + "" == Print(w);
    ExtractsFromFence(p + Print(v) + q, "", "", w, "", "");
  }

  function Raws(s: string): seq<Piece> {
    seq(|s|, i requires 0 <= i < |s| => Raw(s[i]))
  }

  lemma {:induction false} PrintRaws(s: string)
    ensures PrintBody(Raws(s)) == s
  {
    if s != "" {
      PrintRaws(s[1..]);
      assert Raws(s)[1..] == Raws(s[1..]);
    }
  }

  /** An object with one string, in which code is quoted between fences. */
  function Quoting(key: string, before: string, code: string, after: string): Json {
    Obj("", Member(Raws(key), "", "", Str(Raws(before + FENCE + code + FENCE + after)), "", "", NoMembers))
  }

  /** Text that needs no escape, holds no fence and fits in one line. */
  predicate Simple(s: string) {
    forall i :: 0 <= i < |s| ==> s[i] != '"' && s[i] != '\\' && s[i] != '`' && s[i] != '\n'
  }

  function Opened(key: string, before: string): string {
    "{\"" + key + "\":\"" + before
  }

  lemma OneMemberPrints(key: seq<Piece>, body: seq<Piece>)
    ensures Print(Obj("", Member(key, "", "", Str(body), "", "", NoMembers))) == "{" + PrintString(key) + ":" + PrintString(body) + "}"
  {
    var members := Member(key, "", "", Str(body), "", "", NoMembers);
    var value := PrintString(body);
    assert Print(Str(body)) == value;
    assert PrintMembers(members) == PrintString(key) + ("" + (":" + ("" + (value + ("" + "")))));
    assert PrintMembers(members) == PrintString(key) + ":" + value;
    assert "" + PrintMembers(members) == PrintMembers(members);
  }

  lemma RawsAreOk(s: string)
    requires Simple(s)
    ensures BodyOk(Raws(s))
  {
  }

  lemma QuotingIsValid(key: string, before: string, code: string, after: string)
    requires Simple(key) && Simple(before) && Simple(code) && Simple(after)
    ensures Valid(Quoting(key, before, code, after))
  {
    RawsAreOk(key);
    var text := before + FENCE + code + FENCE + after;
    forall i | 0 <= i < |Raws(text)|
      ensures PieceOk(Raws(text)[i])
    {
      assert text[i] == '`' || text[i] in before || text[i] in code || text[i] in after;
    }
  }

  lemma QuotingPrints(key: string, before: string, code: string, after: string)
    ensures Print(Quoting(key, before, code, after)) == Opened(key, before) + FENCE + (code + FENCE + (after + "\"}"))
  {
    var text := before + FENCE + code + FENCE + after;
    PrintRaws(key);
    PrintRaws(text);
    OneMemberPrints(Raws(key), Raws(text));
    PrintedParts(key, before, FENCE, code, after);
  }

  lemma PrintedParts(key: string, a: string, f: string, code: string, b: string)
    ensures "{" + ("\"" + key + "\"") + ":" + ("\"" + (a + f + code + f + b) + "\"") + "}" == Opened(key, a) + f + (code + f + (b + "\"}"))
  {
    assert "\":\"" == "\"" + ":" + "\"" && "{\"" == "{" + "\"" && "\"}" == "\"" + "}";
  }

  /** The first fence, behind a text without a back quote. */
  lemma FenceIsFound(a: string, b: string)
    requires '`' !in a
    ensures Index(a + FENCE + b, FENCE) == |a| && (a + FENCE + b)[|a| + 3..] == b
  {
    var s := a + FENCE + b;
    assert OccursAt(s, FENCE, |a|);
    forall j | 0 <= j < |a|
      ensures !OccursAt(s, FENCE, j)
    {
      assert s[j] == a[j];
      assert j + 3 <= |s| ==> s[j..j + 3][0] == s[j];
    }
    IndexIsFirst(s, FENCE, |a|);
  }

  lemma NoLineEnd(s: string)
    requires '\n' !in s
    ensures AfterLine(s) == s
  {
    var nl := "\n";
    assert nl == ['\n'] && forall j :: 0 <= j < |s| ==> s[j..j + 1] == [s[j]];
    forall j
      ensures !OccursAt(s, nl, j)
    {
      if 0 <= j < |s| {
        assert s[j..j + 1][0] == s[j];
      }
    }
    IndexSpec(s, nl);
  }

  lemma FencedInside(a: string, code: string, b: string)
    requires '`' !in a && '`' !in code && '\n' !in code && '\n' !in b
    ensures var t := a + FENCE + (code + FENCE + b); ClosedFence(t) && Enclosed(t) == code
  {
    var rest := code + FENCE + b;
    FenceIsFound(a, rest);
    FenceIsFound(code, b);
    NoLineEnd(rest);
    assert rest[..|code|] == code;
  }

  /** A plain JSON answer, one of whose strings quotes code without brackets between fences, is not extracted at all. */
  lemma QuotedCodeHidesAnswer(key: string, before: string, code: string, after: string)
    requires Simple(key) && Simple(before) && Simple(code) && Simple(after) && forall i :: 0 <= i < |code| ==> !IsOpen(code[i])
    ensures var v := Quoting(key, before, code, after); Valid(v) && Bracketed(Unfenced(TrimSpace(Print(v)))).None?
  {
    var v := Quoting(key, before, code, after);
    QuotingIsValid(key, before, code, after);
    QuotingPrints(key, before, code, after);
    EndsAreBrackets(v);
    TrimSpaceKeeps("", Print(v), "");
    assert "" + Print(v) + "" == Print(v) && TrimLeft("") == "" == TrimRight("");
    FencedInside(Opened(key, before), code, after + "\"}");
    BracketlessFenceHides(Print(v));
  }

  /** A word in brackets in front of the value, as in Result [draft]: {"a":1}, is what is returned. */
  lemma BracketedWordWins(lead: string, word: string, after: string)
    requires Plain(word) && forall i :: 0 <= i < |lead| ==> !IsOpen(lead[i])
    requires !ClosedFence(TrimSpace(lead + ("[" + word + "]") + after))
    ensures Bracketed(Unfenced(TrimSpace(lead + ("[" + word + "]") + after))) == Some("[" + word + "]")
  {
    var u := Arr(word, NoItems);
    assert word + "" == word;
    assert Print(u) == "[" + word + "]";
    ExtractsFromProse(lead + Print(u) + after, u);
  }
}
