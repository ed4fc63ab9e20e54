/** Reading the column list out of a PostgreSQL index definition. */
module IndexColumns {
  import opened Common
  import opened Text

  // ------------------------------------------------------------ splitting at depth-zero commas

  /** How one character changes the parenthesis depth. */
  function After(depth: int, c: char): int {
    if c == '(' then depth + 1 else if c == ')' then depth - 1 else depth
  }

  /** The depth in front of character `i`, counted from `depth`. */
  function DepthAt(s: string, i: nat, depth: int): int
    requires i <= |s|
  {
    if i == 0 then depth else DepthAt(s[1..], i - 1, After(depth, s[0]))
  }

  /** The comma at `i` separates two entries. */
  predicate IsCut(s: string, i: nat, depth: int) {
    i < |s| && s[i] == ',' && DepthAt(s, i, depth) == 0
  }

  /** Text put in front of a first piece. */
  function Onto(text: string, pieces: seq<string>): seq<string>
    requires pieces != []
  {
    [text + pieces[0]] + pieces[1..]
  }

  lemma OntoNothing(pieces: seq<string>)
    requires pieces != []
    ensures Onto("", pieces) == pieces
  {
    assert "" + pieces[0] == pieces[0];
  }

  lemma OntoOnto(a: string, b: string, pieces: seq<string>)
    requires pieces != []
    ensures Onto(a, Onto(b, pieces)) == Onto(a + b, pieces)
  {
    assert a + (b + pieces[0]) == (a + b) + pieces[0];
  }

  /** A cut closes the piece that was being read. */
  lemma OntoCut(out: seq<string>, a: string, pieces: seq<string>)
    requires pieces != []
    ensures out + Onto(a, [""] + pieces) == (out + [a]) + Onto("", pieces)
  {
    OntoNothing(pieces);
    assert a + "" == a;
  }

  function Pieces(s: string, depth: int): (pieces: seq<string>)
    ensures pieces != []
  {
    if s == [] then [""]
    else if s[0] == ',' && depth == 0 then [""] + Pieces(s[1..], depth)
    else Onto([s[0]], Pieces(s[1..], After(depth, s[0])))
  }

  method SplitTopLevel(s: string) returns (out: seq<string>)
    ensures out == Pieces(s, 0)
  {
    out := [];
    var depth, start := 0, 0;
    OntoNothing(Pieces(s, 0));
    for i := 0 to |s|
      invariant 0 <= start <= i
      invariant Pieces(s, 0) == out + Onto(s[start..i], Pieces(s[i..], depth))
    {
      assert s[start..i + 1] == s[start..i] + [s[i]] && s[i..][1..] == s[i + 1..] && s[i + 1..i + 1] == "";
      OntoOnto(s[start..i], [s[i]], Pieces(s[i + 1..], After(depth, s[i])));
      OntoCut(out, s[start..i], Pieces(s[i + 1..], depth));
      match s[i]
      case '(' => depth := depth + 1;
      case ')' => depth := depth - 1;
      case ',' =>
        if depth == 0 {
          out := out + [s[start..i]];
          start := i + 1;
        }
      case _ =>
    }
    assert s[start..|s|] + "" == s[start..] && Pieces("", depth) == [""] && s[|s|..] == "";
    out := out + [s[start..]];
  }

  /** Where piece `k` begins in the joined text. */
  function PieceStart(pieces: seq<string>, k: nat): nat
    requires k < |pieces|
  {
    if k == 0 then 0 else |pieces[0]| + 1 + PieceStart(pieces[1..], k - 1)
  }

  /** Nothing is lost: joining the pieces gives the text back, whatever it is. */
  lemma {:induction false} JoinRestores(s: string, depth: int)
    ensures Join(Pieces(s, depth), ",") == s
  {
    if s != [] {
      var rest := Pieces(s[1..], After(depth, s[0]));
      JoinRestores(s[1..], After(depth, s[0]));
      if s[0] == ',' && depth == 0 {
        assert ([""] + rest)[1..] == rest;
        assert Join([""] + rest, ",") == "" + "," + Join(rest, ",");
      } else {
        JoinOnto([s[0]], rest);
      }
    }
  }

  lemma JoinOnto(text: string, pieces: seq<string>)
    requires pieces != []
    ensures Join(Onto(text, pieces), ",") == text + Join(pieces, ",")
  {
    assert Onto(text, pieces)[1..] == pieces[1..];
    if |pieces| > 1 {
      var rest := "," + Join(pieces[1..], ",");
      assert (text + pieces[0]) + rest == text + (pieces[0] + rest);
      assert Join(pieces, ",") == pieces[0] + rest && Join(Onto(text, pieces), ",") == (text + pieces[0]) + rest;
    }
  }

  /** Every piece but the first begins behind a depth-zero comma. */
  lemma {:induction false} StartsAreCuts(s: string, depth: int, k: nat)
    requires 1 <= k < |Pieces(s, depth)|
    ensures var start := PieceStart(Pieces(s, depth), k); start >= 1 && IsCut(s, start - 1, depth)
  {
    var rest := Pieces(s[1..], After(depth, s[0]));
    var pieces := Pieces(s, depth);
    if s[0] == ',' && depth == 0 {
      assert pieces[1..] == rest;
      if k > 1 {
        StartsAreCuts(s[1..], depth, k - 1);
      }
    } else {
      assert pieces[1..] == rest[1..];
      StartsAreCuts(s[1..], After(depth, s[0]), k);
    }
  }

  /** A piece begins behind every depth-zero comma. */
  lemma {:induction false} CutsAreStarts(s: string, depth: int, i: nat) returns (k: nat)
    requires IsCut(s, i, depth)
    ensures 1 <= k < |Pieces(s, depth)| && PieceStart(Pieces(s, depth), k) == i + 1
  {
    var rest := Pieces(s[1..], After(depth, s[0]));
    var pieces := Pieces(s, depth);
    if s[0] == ',' && depth == 0 {
      assert pieces[1..] == rest;
      k := 1;
      if i > 0 {
        k := CutsAreStarts(s[1..], depth, i - 1);
        k := k + 1;
      }
    } else {
      assert pieces[1..] == rest[1..];
      k := CutsAreStarts(s[1..], After(depth, s[0]), i - 1);
    }
  }

  // ------------------------------------------------------------ the list's closing parenthesis

  /** Where the depth returns to zero. */
  function Closing(s: string, depth: int): Option<nat>
    decreases s
  {
    if s == [] then None
    else if s[0] == ')' && depth == 1 then Some(0)
    else match Closing(s[1..], After(depth, s[0])) case None => None case Some(n) => Some(n + 1)
  }

  function Shift(r: Option<nat>, k: nat): Option<nat> {
    match r case None => None case Some(n) => Some(k + n)
  }

  method FindClosing(def: string, open: nat) returns (end: Option<nat>)
    requires open < |def|
    ensures end == Shift(Closing(def[open..], 0), open)
  {
    var depth := 0;
    end := None;
    for i := open to |def|
      invariant end == None
      invariant Closing(def[open..], 0) == Shift(Closing(def[i..], depth), i - open)
    {
      assert def[i..][1..] == def[i + 1..];
      match def[i] {
        case '(' => depth := depth + 1;
        case ')' =>
          depth := depth - 1;
          if depth == 0 {
            end := Some(i);
          }
        case _ =>
      }
      if end.Some? {
        return;
      }
    }
  }

  // ------------------------------------------------------------ ordering modifiers

  const DESC := " DESC"
  const ASC := " ASC"
  const NULLS_FIRST := " NULLS FIRST"
  const NULLS_LAST := " NULLS LAST"
  const SUFFIXES := [DESC, ASC, NULLS_FIRST, NULLS_LAST]

  predicate HasSuffix(s: string, suffix: string) {
    |suffix| <= |s| && s[|s| - |suffix|..] == suffix
  }

  /** strings.TrimSuffix */
  function TrimSuffix(s: string, suffix: string): string {
    if HasSuffix(s, suffix) then s[..|s| - |suffix|] else s
  }

  /** Each suffix is tried once, in order, on what the ones before it left. */
  function Strip(part: string, suffixes: seq<string>): string
    decreases suffixes
  {
    if suffixes == [] then part else Strip(TrimSuffix(TrimSpace(part), suffixes[0]), suffixes[1..])
  }

  function TrimQuotesLeft(s: string): string {
    if s != [] && s[0] == '"' then TrimQuotesLeft(s[1..]) else s
  }

  function TrimQuotesRight(s: string): string {
    if s != [] && s[|s| - 1] == '"' then TrimQuotesRight(s[..|s| - 1]) else s
  }

  /** strings.Trim with the double quote as its cut set. */
  function TrimQuotes(s: string): string {
    TrimQuotesRight(TrimQuotesLeft(s))
  }

  lemma ModifiersAreSpelled()
    ensures SUFFIXES == [" DESC", " ASC", " NULLS FIRST", " NULLS LAST"]
  {
  }

  method StripModifiers(text: string) returns (part: string)
    ensures part == Strip(TrimSpace(text), SUFFIXES)
  {
    part := TrimSpace(text);
    for k := 0 to |SUFFIXES|
      invariant Strip(TrimSpace(text), SUFFIXES) == Strip(part, SUFFIXES[k..])
    {
      part := TrimSuffix(TrimSpace(part), SUFFIXES[k]);
    }
  }

  /** The names the pieces give, those that are left empty skipped. */
  function Names(pieces: seq<string>): seq<string> {
    if pieces == [] then []
    else
      var part := Strip(TrimSpace(pieces[0]), SUFFIXES);
      (if part != "" then [TrimQuotes(part)] else []) + Names(pieces[1..])
  }

  lemma {:induction false} NamesOfConcat(a: seq<string>, b: seq<string>)
    ensures Names(a + b) == Names(a) + Names(b)
  {
    if a == [] {
      assert a + b == b;
    } else {
      assert (a + b)[1..] == a[1..] + b;
      NamesOfConcat(a[1..], b);
    }
  }

  /** What stands between the definition's first parenthesis and the one that closes it. */
  function ColumnList(def: string): Option<string> {
    var open := Index(def, "(");
    if open < 0 then None else ListAt(def, open)
  }

  function ListAt(def: string, open: nat): Option<string>
    requires open <= |def|
  {
    match Closing(def[open..], 0)
    case None => None
    case Some(n) => if 1 <= n < |def| - open then Some(def[open + 1..open + n]) else None
  }

  function Columns(def: string): seq<string> {
    match ColumnList(def) case None => [] case Some(list) => Names(Pieces(list, 0))
  }

  lemma {:induction false} ClosingInRange(s: string, depth: int)
    ensures Closing(s, depth).Some? ==> Closing(s, depth).value < |s| && s[Closing(s, depth).value] == ')'
  {
    if s != [] && !(s[0] == ')' && depth == 1) {
      ClosingInRange(s[1..], After(depth, s[0]));
    }
  }

  method FindList(def: string) returns (list: Option<string>)
    ensures list == ColumnList(def)
  {
    var open := Index(def, "(");
    if open < 0 {
      return None;
    }
    var end := FindClosing(def, open);
    ClosingInRange(def[open..], 0);
    if end.None? {
      return None;
    }
    return Some(def[open + 1..end.value]);
  }

  method IndexColumns(def: string) returns (cols: seq<string>)
    ensures cols == Columns(def)
  {
    var list := FindList(def);
    if list.None? {
      return [];
    }
    var parts := SplitTopLevel(list.value);
    cols := ReadNames(parts);
  }

  method ReadNames(parts: seq<string>) returns (cols: seq<string>)
    ensures cols == Names(parts)
  {
    cols := [];
    for k := 0 to |parts|
      invariant cols == Names(parts[..k])
    {
      assert parts[..k + 1] == parts[..k] + [parts[k]];
      NamesOfConcat(parts[..k], [parts[k]]);
      var part := StripModifiers(parts[k]);
      if part != "" {
        cols := cols + [TrimQuotes(part)];
      }
    }
    assert parts[..|parts|] == parts;
  }

  // ------------------------------------------------------------ reading undoes printing

  /** Parentheses balance from `depth` down to zero, and no comma stands at depth zero. */
  predicate Nested(s: string, depth: nat) {
    if s == [] then depth == 0
    else if s[0] == '(' then Nested(s[1..], depth + 1)
    else if s[0] == ')' then depth > 0 && Nested(s[1..], depth - 1)
    else (s[0] == ',' ==> depth > 0) && Nested(s[1..], depth)
  }

  lemma {:induction false} NestedConcat(a: string, b: string, depth: nat)
    requires Nested(a, depth) && Nested(b, 0)
    ensures Nested(a + b, depth)
  {
    if a == [] {
      assert a + b == b;
    } else {
      assert (a + b)[1..] == a[1..] + b;
      NestedConcat(a[1..], b, if a[0] == '(' then depth + 1 else if a[0] == ')' then depth - 1 else depth);
    }
  }

  predicate Flat(s: string) {
    forall i :: 0 <= i < |s| ==> s[i] != '(' && s[i] != ')' && s[i] != ','
  }

  lemma {:induction false} FlatIsNested(s: string)
    requires Flat(s)
    ensures Nested(s, 0)
  {
    if s != [] {
      FlatIsNested(s[1..]);
    }
  }

  /** An entry is never cut. */
  lemma {:induction false} NestedIsOnePiece(s: string, depth: nat, rest: string)
    requires Nested(s, depth)
    ensures Pieces(s + rest, depth) == Onto(s, Pieces(rest, 0))
  {
    if s == [] {
      assert s + rest == rest;
      OntoNothing(Pieces(rest, 0));
    } else {
      assert (s + rest)[1..] == s[1..] + rest;
      NestedIsOnePiece(s[1..], After(depth, s[0]), rest);
      assert [s[0]] + (s[1..] + Pieces(rest, 0)[0]) == s + Pieces(rest, 0)[0];
    }
  }

  /** Nor does it close the list. */
  lemma {:induction false} NestedStaysOpen(s: string, depth: nat, rest: string)
    requires Nested(s, depth)
    ensures Closing(s + rest, depth + 1) == Shift(Closing(rest, 1), |s|)
  {
    if s == [] {
      assert s + rest == rest;
    } else {
      assert (s + rest)[1..] == s[1..] + rest;
      NestedStaysOpen(s[1..], After(depth, s[0]), rest);
    }
  }

  ghost predicate AllNested(parts: seq<string>) {
    forall i :: 0 <= i < |parts| ==> Nested(parts[i], 0)
  }

  lemma {:induction false} SplitUndoesJoin(parts: seq<string>)
    requires parts != [] && AllNested(parts)
    ensures Pieces(Join(parts, ","), 0) == parts
  {
    if |parts| == 1 {
      NestedIsOnePiece(parts[0], 0, "");
      assert parts[0] + "" == parts[0];
      assert Pieces("", 0) == [""];
    } else {
      var rest := Join(parts[1..], ",");
      SplitUndoesJoin(parts[1..]);
      NestedIsOnePiece(parts[0], 0, "," + rest);
      assert ("," + rest)[1..] == rest;
      assert Onto(parts[0], [""] + parts[1..]) == parts by {
        assert parts[0] + "" == parts[0];
      }
      assert parts[0] + "," + rest == parts[0] + ("," + rest);
    }
  }

  lemma {:induction false} JoinStaysOpen(parts: seq<string>, rest: string)
    requires AllNested(parts)
    ensures Closing(Join(parts, ",") + rest, 1) == Shift(Closing(rest, 1), |Join(parts, ",")|)
  {
    if |parts| == 0 {
      assert "" + rest == rest;
    } else if |parts| == 1 {
      NestedStaysOpen(parts[0], 0, rest);
    } else {
      var tail := Join(parts[1..], ",") + rest;
      JoinStaysOpen(parts[1..], rest);
      NestedStaysOpen(parts[0], 0, "," + tail);
      assert ("," + tail)[1..] == tail;
      assert Join(parts, ",") + rest == parts[0] + ("," + tail);
    }
  }

  lemma OpensAt(head: string, body: string)
    requires '(' !in head
    ensures var def := head + ("(" + body); Index(def, "(") == |head| && def[|head|..] == "(" + body
  {
    var def := head + ("(" + body);
    assert OccursAt(def, "(", |head|);
    forall j | 0 <= j < |head|
      ensures !OccursAt(def, "(", j)
    {
      assert def[j] == head[j];
    }
    IndexIsFirst(def, "(", |head|);
  }

  /** The list is found between a head without parentheses and any tail. */
  lemma FindsList(head: string, parts: seq<string>, tail: string)
    requires '(' !in head && AllNested(parts)
    ensures ColumnList(head + ("(" + (Join(parts, ",") + (")" + tail)))) == Some(Join(parts, ","))
  {
    var list := Join(parts, ",");
    var body := list + (")" + tail);
    var def := head + ("(" + body);
    OpensAt(head, body);
    JoinStaysOpen(parts, ")" + tail);
    assert ("(" + body)[1..] == body;
    assert Closing(")" + tail, 1) == Some(0);
    assert Closing("(" + body, 0) == Some(|list| + 1);
    assert def[|head| + 1..|head| + 1 + |list|] == list;
  }

  // ------------------------------------------------------------ printed columns

  /** No blank at either end, not empty. */
  predicate Trimmed(s: string) {
    s != [] && !IsSpace(s[0]) && !IsSpace(s[|s| - 1])
  }

  lemma TrimmedIsKept(s: string)
    requires Trimmed(s)
    ensures TrimSpace(s) == s
  {
    TrimSpaceKeeps("", s, "");
    assert "" + s + "" == s && TrimLeft("") == "" && TrimRight("") == "";
  }

  predicate NoSuffix(s: string, suffixes: seq<string>) {
    forall i :: 0 <= i < |suffixes| ==> !HasSuffix(s, suffixes[i])
  }

  lemma {:induction false} StripNothing(s: string, suffixes: seq<string>)
    requires Trimmed(s) && NoSuffix(s, suffixes)
    ensures Strip(s, suffixes) == s
  {
    if suffixes != [] {
      TrimmedIsKept(s);
      StripNothing(s, suffixes[1..]);
    }
  }

  /** One modifier is stripped, and only one when none of the later ones follows underneath. */
  lemma {:induction false} StripOne(s: string, k: nat, suffixes: seq<string>)
    requires k < |suffixes| && Trimmed(s) && Trimmed(s + suffixes[k])
    requires NoSuffix(s + suffixes[k], suffixes[..k]) && NoSuffix(s, suffixes[k + 1..])
    ensures Strip(s + suffixes[k], suffixes) == s
  {
    var t, later := s + suffixes[k], suffixes[1..];
    TrimmedIsKept(t);
    if k == 0 {
      assert TrimSuffix(t, suffixes[0]) == s;
      StripNothing(s, later);
    } else {
      assert suffixes[..k][0] == suffixes[0];
      assert later[..k - 1] == suffixes[..k][1..] && later[k..] == suffixes[k + 1..];
      StripOne(s, k - 1, later);
    }
  }

  /** A text ends in at most one of the four. */
  lemma OneSuffixOnly(s: string, i: nat, j: nat)
    requires i < |SUFFIXES| && j < |SUFFIXES| && HasSuffix(s, SUFFIXES[i]) && HasSuffix(s, SUFFIXES[j])
    ensures i == j
  {
    SuffixLetters(s, i);
    SuffixLetters(s, j);
  }

  lemma SuffixLetters(s: string, i: nat)
    requires i < |SUFFIXES| && HasSuffix(s, SUFFIXES[i])
    ensures |s| >= 4 && s[|s| - 1] == (if i < 2 then 'C' else 'T') && s[|s| - 3] == (if i == 0 then 'E' else if i == 2 then 'R' else 'A')
  {
    var suffix := SUFFIXES[i];
    var n := |suffix|;
    assert |suffix| >= 4;
    assert s[|s| - n..][n - 1] == s[|s| - 1] && s[|s| - n..][n - 3] == s[|s| - 3];
  }

  /** A sort direction or none, and a place for NULLs or none. */
  datatype Direction = NoDirection | Descending | Ascending

  datatype Nulls = NoNulls | First | Last

  function PrintDirection(d: Direction): string {
    match d case NoDirection => "" case Descending => DESC case Ascending => ASC
  }

  function PrintNulls(n: Nulls): string {
    match n case NoNulls => "" case First => NULLS_FIRST case Last => NULLS_LAST
  }

  /** A column or an expression over columns, as it stands in the definition. */
  datatype Column = Column(text: string, quoted: bool, direction: Direction, nulls: Nulls, before: string, after: string)

  function Quoted(c: Column): string {
    if c.quoted then "\"" + c.text + "\"" else c.text
  }

  function Ordered(c: Column): string {
    Quoted(c) + PrintDirection(c.direction) + PrintNulls(c.nulls)
  }

  function PrintColumn(c: Column): string {
    c.before + Ordered(c) + c.after
  }

  predicate AllBlank(s: string) {
    forall i :: 0 <= i < |s| ==> IsSpace(s[i])
  }

  /** Balanced, without blanks at its ends and, unless quoted, not ending like a modifier. */
  predicate Readable(c: Column) {
    Nested(c.text, 0) && Trimmed(c.text) && (!c.quoted ==> NoSuffix(c.text, SUFFIXES)) && AllBlank(c.before) && AllBlank(c.after)
  }

  /** At most one ordering modifier. */
  predicate Single(c: Column) {
    c.direction == NoDirection || c.nulls == NoNulls
  }

  /** No quote of its own at either end, as the one that closes the name of a collation. */
  predicate Bare(c: Column)
    requires c.text != ""
  {
    c.text[0] != '"' && c.text[|c.text| - 1] != '"'
  }

  /** What trimming leaves has no quote at its ends. */
  lemma {:induction false} TrimmedQuotes(s: string)
    ensures var t := TrimQuotes(s); t != "" ==> t[0] != '"' && t[|t| - 1] != '"'
    decreases |s|
  {
    if s != "" && s[0] == '"' {
      TrimmedQuotes(s[1..]);
    } else if s != "" && s[|s| - 1] == '"' {
      assert TrimQuotesLeft(s) == s;
      assert s[..|s| - 1] != "" ==> s[..|s| - 1][0] == s[0];
      assert TrimQuotesLeft(s[..|s| - 1]) == s[..|s| - 1];
      TrimmedQuotes(s[..|s| - 1]);
    }
  }

  lemma QuotedEnds(c: Column)
    requires Readable(c)
    ensures Trimmed(Quoted(c)) && NoSuffix(Quoted(c), SUFFIXES) && (Bare(c) ==> TrimQuotes(Quoted(c)) == c.text)
  {
    if c.quoted {
      var q := Quoted(c);
      assert q[|q| - 1] == '"';
      forall i | 0 <= i < |SUFFIXES|
        ensures !HasSuffix(q, SUFFIXES[i])
      {
        if HasSuffix(q, SUFFIXES[i]) {
          SuffixLetters(q, i);
        }
      }
      if Bare(c) {
        var t := c.text + "\"";
        assert q[1..] == t && t[0] == c.text[0];
        assert TrimQuotesLeft(q) == t;
        assert t[|t| - 1] == '"' && t[..|t| - 1] == c.text;
        assert TrimQuotesRight(t) == TrimQuotesRight(c.text);
      }
    }
  }

  lemma EndsWith(s: string, k: nat)
    requires k < |SUFFIXES| && Trimmed(s)
    ensures HasSuffix(s + SUFFIXES[k], SUFFIXES[k]) && Trimmed(s + SUFFIXES[k])
  {
    var t := s + SUFFIXES[k];
    assert t[|t| - |SUFFIXES[k]|..] == SUFFIXES[k];
    SuffixLetters(t, k);
  }

  /** Adding a modifier and stripping once takes that modifier off again. */
  lemma StripLast(s: string, k: nat)
    requires k < |SUFFIXES| && Trimmed(s) && NoSuffix(s, SUFFIXES[k + 1..])
    ensures Strip(s + SUFFIXES[k], SUFFIXES) == s
  {
    EndsWith(s, k);
    forall i | 0 <= i < k
      ensures !HasSuffix(s + SUFFIXES[k], SUFFIXES[..k][i])
    {
      if HasSuffix(s + SUFFIXES[k], SUFFIXES[i]) {
        OneSuffixOnly(s + SUFFIXES[k], i, k);
      }
    }
    StripOne(s, k, SUFFIXES);
  }

  function DirectionIndex(d: Direction): nat
    requires d != NoDirection
  {
    if d == Descending then 0 else 1
  }

  function NullsIndex(n: Nulls): nat
    requires n != NoNulls
  {
    if n == First then 2 else 3
  }

  /** Exactly what is stripped: the whole of a single modifier, and of two only the last. */
  lemma StrippedTo(q: string, d: Direction, n: Nulls)
    requires Trimmed(q) && NoSuffix(q, SUFFIXES)
    ensures Strip(q + PrintDirection(d) + PrintNulls(n), SUFFIXES) ==
            if d == NoDirection || n == NoNulls then q else q + PrintDirection(d)
  {
    var s := q + PrintDirection(d);
    assert d == NoDirection ==> s == q;
    if n == NoNulls {
      assert s + PrintNulls(n) == s;
      if d == NoDirection {
        StripNothing(q, SUFFIXES);
      } else {
        StripLast(q, DirectionIndex(d));
      }
    } else {
      if d != NoDirection {
        EndsWith(q, DirectionIndex(d));
        NoOtherSuffix(s, DirectionIndex(d), NullsIndex(n) + 1);
      }
      StripLast(s, NullsIndex(n));
    }
  }

  lemma NoOtherSuffix(s: string, k: nat, from: nat)
    requires k < from <= |SUFFIXES| && HasSuffix(s, SUFFIXES[k])
    ensures NoSuffix(s, SUFFIXES[from..])
  {
    forall i | 0 <= i < |SUFFIXES[from..]|
      ensures !HasSuffix(s, SUFFIXES[from..][i])
    {
      if HasSuffix(s, SUFFIXES[from + i]) {
        OneSuffixOnly(s, k, from + i);
      }
    }
  }

  lemma {:induction false} BlankTrims(s: string)
    requires AllBlank(s)
    ensures TrimLeft(s) == "" && TrimRight(s) == ""
  {
    if s != [] {
      BlankTrims(s[1..]);
      BlankTrims(s[..|s| - 1]);
    }
  }

  lemma OrderedIsTrimmed(c: Column)
    requires Readable(c)
    ensures Trimmed(Ordered(c))
  {
    QuotedEnds(c);
    var s := Quoted(c) + PrintDirection(c.direction);
    if c.direction != NoDirection {
      EndsWith(Quoted(c), DirectionIndex(c.direction));
    } else {
      assert s == Quoted(c);
    }
    if c.nulls != NoNulls {
      EndsWith(s, NullsIndex(c.nulls));
    } else {
      assert Ordered(c) == s;
    }
  }

  /** What the column's piece is stripped to. */
  lemma ColumnStripped(c: Column)
    requires Readable(c)
    ensures Strip(TrimSpace(PrintColumn(c)), SUFFIXES) ==
            if Single(c) then Quoted(c) else Quoted(c) + PrintDirection(c.direction)
  {
    OrderedIsTrimmed(c);
    TrimSpaceKeeps(c.before, Ordered(c), c.after);
    BlankTrims(c.before);
    BlankTrims(c.after);
    assert "" + Ordered(c) + "" == Ordered(c);
    QuotedEnds(c);
    StrippedTo(Quoted(c), c.direction, c.nulls);
  }

  /** A printed column is read back exactly when it carries at most one modifier and no quote of its own at an end. */
  lemma ColumnReadBackExactlyWhen(c: Column)
    requires Readable(c)
    ensures Names([PrintColumn(c)]) == [c.text] <==> Single(c) && Bare(c)
  {
    ColumnStripped(c);
    QuotedEnds(c);
    if !Bare(c) {
      OneName(c);
      TrimmedQuotes(Strip(TrimSpace(PrintColumn(c)), SUFFIXES));
      assert Names([PrintColumn(c)])[0] == TrimQuotes(Strip(TrimSpace(PrintColumn(c)), SUFFIXES));
    } else if !Single(c) {
      EndsWith(Quoted(c), DirectionIndex(c.direction));
      LeftoverStays(c, DirectionIndex(c.direction));
      assert PrintDirection(c.direction) == SUFFIXES[DirectionIndex(c.direction)];
      var part := Quoted(c) + PrintDirection(c.direction);
      assert Names([PrintColumn(c)]) == [TrimQuotes(part)];
    }
  }

  /** Trimming quotes takes off the leading one, if there is one, when no other stands at an end. */
  lemma TrimsOneQuote(part: string, kept: string)
    requires kept != [] && kept[0] != '"' && kept[|kept| - 1] != '"' && (part == kept || part == ['"'] + kept)
    ensures TrimQuotes(part) == kept
  {
    assert part == kept || (part[0] == '"' && part[1..] == kept);
    assert TrimQuotesLeft(part) == kept;
  }

  lemma LeftoverStays(c: Column, k: nat)
    requires Readable(c) && Bare(c) && k < |SUFFIXES|
    ensures |TrimQuotes(Quoted(c) + SUFFIXES[k])| > |c.text|
  {
    var suffix := SUFFIXES[k];
    EndsWith(c.text, k);
    SuffixLetters(suffix, k);
    Leftover(c.text, c.quoted, Quoted(c), suffix);
  }

  lemma Leftover(text: string, quoted: bool, q: string, suffix: string)
    requires text != [] && text[0] != '"' && |suffix| > 0 && suffix[|suffix| - 1] != '"'
    requires q == if quoted then "\"" + text + "\"" else text
    ensures |TrimQuotes(q + suffix)| > |text|
  {
    var kept := (if quoted then text + "\"" else text) + suffix;
    assert kept[0] == text[0] && kept[|kept| - 1] == suffix[|suffix| - 1];
    assert quoted ==> q + suffix == ['"'] + kept;
    TrimsOneQuote(q + suffix, kept);
  }

  function PrintColumns(cols: seq<Column>): seq<string> {
    seq(|cols|, i requires 0 <= i < |cols| => PrintColumn(cols[i]))
  }

  function Texts(cols: seq<Column>): seq<string> {
    seq(|cols|, i requires 0 <= i < |cols| => cols[i].text)
  }

  ghost predicate AllReadable(cols: seq<Column>) {
    forall i :: 0 <= i < |cols| ==> Readable(cols[i])
  }

  ghost predicate AllPlain(cols: seq<Column>)
    requires AllReadable(cols)
  {
    forall i :: 0 <= i < |cols| ==> Single(cols[i]) && Bare(cols[i])
  }

  lemma {:induction false} NamesOfPrinted(cols: seq<Column>)
    requires AllReadable(cols)
    ensures |Names(PrintColumns(cols))| == |cols|
    ensures Names(PrintColumns(cols)) == Texts(cols) <==> AllPlain(cols)
  {
    if cols != [] {
      var c, rest := cols[0], cols[1..];
      var first, others := Names([PrintColumn(c)]), Names(PrintColumns(rest));
      PrintedHead(cols);
      OneName(c);
      ColumnReadBackExactlyWhen(c);
      NamesOfPrinted(rest);
      HeadAndTail(first, others, [c.text], Texts(rest));
      AllPlainSplits(cols);
    }
  }

  lemma PrintedHead(cols: seq<Column>)
    requires cols != []
    ensures Names(PrintColumns(cols)) == Names([PrintColumn(cols[0])]) + Names(PrintColumns(cols[1..]))
    ensures Texts(cols) == [cols[0].text] + Texts(cols[1..])
  {
    var first, rest := [PrintColumn(cols[0])], PrintColumns(cols[1..]);
    PrintedCons(cols);
    NamesOfConcat(first, rest);
  }

  lemma PrintedCons(cols: seq<Column>)
    requires cols != []
    ensures PrintColumns(cols) == [PrintColumn(cols[0])] + PrintColumns(cols[1..])
    ensures Texts(cols) == [cols[0].text] + Texts(cols[1..])
  {
  }

  lemma OneName(c: Column)
    requires Readable(c)
    ensures |Names([PrintColumn(c)])| == 1
  {
    ColumnStripped(c);
    QuotedEnds(c);
    var one := [PrintColumn(c)];
    assert one[1..] == [] && one[0] == PrintColumn(c);
  }

  lemma AllPlainSplits(cols: seq<Column>)
    requires cols != [] && AllReadable(cols)
    ensures AllPlain(cols) <==> Single(cols[0]) && Bare(cols[0]) && AllPlain(cols[1..])
  {
    assert forall i :: 0 <= i < |cols[1..]| ==> cols[1..][i] == cols[i + 1];
    assert forall i :: 0 <= i < |cols| ==> i == 0 || cols[i] == cols[1..][i - 1];
  }

  lemma HeadAndTail(a: seq<string>, b: seq<string>, c: seq<string>, d: seq<string>)
    requires |a| == |c|
    ensures a + b == c + d <==> a == c && b == d
  {
    if a + b == c + d {
      assert a == (a + b)[..|a|] && c == (c + d)[..|a|];
      assert b == (a + b)[|a|..] && d == (c + d)[|a|..];
    }
  }

  lemma QuotedIsNested(c: Column)
    requires Readable(c)
    ensures Nested(Quoted(c), 0)
  {
    if c.quoted {
      var quote := "\"";
      FlatIsNested(quote);
      NestedConcat(c.text, quote, 0);
      NestedConcat(quote, c.text + quote, 0);
      assert Quoted(c) == quote + (c.text + quote);
    }
  }

  lemma NestedPieces(before: string, q: string, direction: string, nulls: string, after: string)
    requires Nested(before, 0) && Nested(q, 0) && Nested(direction, 0) && Nested(nulls, 0) && Nested(after, 0)
    ensures Nested(before + (q + direction + nulls) + after, 0)
  {
    NestedConcat(q, direction, 0);
    NestedConcat(q + direction, nulls, 0);
    NestedConcat(before, q + direction + nulls, 0);
    NestedConcat(before + (q + direction + nulls), after, 0);
  }

  lemma {:induction false} BlankIsNested(s: string)
    requires AllBlank(s)
    ensures Nested(s, 0)
  {
    if s != [] {
      assert IsSpace(s[0]);
      BlankIsNested(s[1..]);
    }
  }

  lemma DirectionIsNested(d: Direction)
    ensures Nested(PrintDirection(d), 0)
  {
    var s := PrintDirection(d);
    assert Flat(s);
    FlatIsNested(s);
  }

  lemma NullsIsNested(n: Nulls)
    ensures Nested(PrintNulls(n), 0)
  {
    var s := PrintNulls(n);
    assert Flat(s);
    FlatIsNested(s);
  }

  lemma PrintedIsNested(c: Column)
    requires Readable(c)
    ensures Nested(PrintColumn(c), 0)
  {
    QuotedIsNested(c);
    BlankIsNested(c.before);
    BlankIsNested(c.after);
    DirectionIsNested(c.direction);
    NullsIsNested(c.nulls);
    NestedPieces(c.before, Quoted(c), PrintDirection(c.direction), PrintNulls(c.nulls), c.after);
  }

  /** Reading a definition undoes printing it exactly when no column carries two modifiers, or a quote of its own at an end. */
  lemma ReadsPrintedExactlyWhen(head: string, cols: seq<Column>, tail: string)
    requires '(' !in head && AllReadable(cols)
    ensures Columns(head + ("(" + (Join(PrintColumns(cols), ",") + (")" + tail)))) == Texts(cols) <==> AllPlain(cols)
  {
    var parts := PrintColumns(cols);
    forall i | 0 <= i < |parts|
      ensures Nested(parts[i], 0)
    {
      PrintedIsNested(cols[i]);
    }
    FindsList(head, parts, tail);
    NamesOfPrinted(cols);
    if cols == [] {
      assert Join(parts, ",") == "";
      NoNames();
    } else {
      SplitUndoesJoin(parts);
    }
  }

  /** name COLLATE "C" loses its last quote. */
  lemma CollationLosesQuote()
    ensures Names(["name COLLATE \"C\""]) == ["name COLLATE \"C"]
  {
    var c := Column("name COLLATE \"C\"", false, NoDirection, NoNulls, "", "");
    var kept := "name COLLATE \"C";
    CollationIsReadable(c);
    PlainStripped(c);
    assert c.text[..|c.text| - 1] == kept;
    LastQuoteGoes(c.text, kept);
    OneStripped(c.text);
  }

  lemma PlainStripped(c: Column)
    requires Readable(c) && !c.quoted && c.direction == NoDirection && c.nulls == NoNulls && c.before == c.after == ""
    ensures Strip(TrimSpace(c.text), SUFFIXES) == c.text
  {
    assert PrintColumn(c) == c.text;
    ColumnStripped(c);
  }

  lemma LastQuoteGoes(text: string, kept: string)
    requires |text| > 1 && text[0] != '"' && text[|text| - 1] == '"' && text[|text| - 2] != '"' && kept == text[..|text| - 1]
    ensures TrimQuotes(text) == kept
  {
    assert TrimQuotesLeft(text) == text;
    assert TrimQuotesRight(kept) == kept;
  }

  lemma OneStripped(text: string)
    requires Strip(TrimSpace(text), SUFFIXES) == text != ""
    ensures Names([text]) == [TrimQuotes(text)]
  {
    assert [text][1..] == [];
  }

  lemma CollationIsReadable(c: Column)
    requires c.text == "name COLLATE \"C\"" && !c.quoted && c.before == "" && c.after == ""
    ensures Readable(c)
  {
    FlatIsNested(c.text);
    QuoteEndsNoSuffix(c.text);
  }

  lemma QuoteEndsNoSuffix(s: string)
    requires s != "" && s[|s| - 1] == '"'
    ensures NoSuffix(s, SUFFIXES)
  {
    forall i | 0 <= i < |SUFFIXES|
      ensures !HasSuffix(s, SUFFIXES[i])
    {
      if HasSuffix(s, SUFFIXES[i]) {
        SuffixLetters(s, i);
      }
    }
  }

  lemma NoNames()
    ensures Names(Pieces("", 0)) == []
  {
    assert Pieces("", 0) == [""];
    assert TrimSpace("") == "";
    StripEmpty(SUFFIXES);
  }

  lemma {:induction false} StripEmpty(suffixes: seq<string>)
    ensures Strip("", suffixes) == ""
  {
    if suffixes != [] {
      assert TrimSpace("") == "";
      StripEmpty(suffixes[1..]);
    }
  }

  // ------------------------------------------------------------ quoted names of any kind

  predicate Hard(c: char) {
    c == '"' || c == ')'
  }

  ghost predicate AllSoft(suffixes: seq<string>) {
    forall i, k :: 0 <= i < |suffixes| && 0 <= k < |suffixes[i]| ==> !Hard(suffixes[i][k])
  }

  lemma SuffixesAreSoft()
    ensures AllSoft(SUFFIXES)
  {
  }

  /** Trimming keeps everything up to a quote or a parenthesis, behind a first character that is no blank. */
  lemma TrimKeepsUpTo(p: string, n: nat)
    requires n < |p| && !IsSpace(p[0]) && Hard(p[n])
    ensures n < |TrimSpace(p)| <= |p| && TrimSpace(p) == p[..|TrimSpace(p)|]
  {
    var kept, rest := p[..n + 1], p[n + 1..];
    assert p == "" + kept + rest;
    TrimSpaceKeeps("", kept, rest);
    TrimRightPrefix(rest);
    assert TrimSpace(p) == kept + TrimRight(rest);
  }

  lemma SuffixKeepsUpTo(p: string, n: nat, suffix: string)
    requires n < |p| && Hard(p[n]) && forall k :: 0 <= k < |suffix| ==> !Hard(suffix[k])
    ensures n < |TrimSuffix(p, suffix)| <= |p| && TrimSuffix(p, suffix) == p[..|TrimSuffix(p, suffix)|]
  {
    if HasSuffix(p, suffix) {
      assert forall k :: |p| - |suffix| <= k < |p| ==> p[k] == p[|p| - |suffix|..][k - (|p| - |suffix|)];
    }
  }

  /** So does stripping modifiers. */
  lemma {:induction false} StripKeepsUpTo(p: string, n: nat, suffixes: seq<string>)
    requires n < |p| && !IsSpace(p[0]) && Hard(p[n]) && AllSoft(suffixes)
    ensures n < |Strip(p, suffixes)| <= |p| && Strip(p, suffixes) == p[..|Strip(p, suffixes)|]
    decreases suffixes
  {
    if suffixes != [] {
      TrimKeepsUpTo(p, n);
      var s := TrimSpace(p);
      assert forall k :: 0 <= k < |suffixes[0]| ==> !Hard(suffixes[0][k]);
      SuffixKeepsUpTo(s, n, suffixes[0]);
      var u := TrimSuffix(s, suffixes[0]);
      assert AllSoft(suffixes[1..]);
      StripKeepsUpTo(u, n, suffixes[1..]);
    }
  }

  lemma {:induction false} TrimQuotesRightLength(s: string, n: nat)
    requires n < |s| && s[n] != '"'
    ensures n < |TrimQuotesRight(s)|
  {
    if s[|s| - 1] == '"' {
      TrimQuotesRightLength(s[..|s| - 1], n);
    }
  }

  lemma {:induction false} TrimQuotesRightShorter(s: string)
    ensures |TrimQuotesRight(s)| <= |s|
  {
    if s != [] && s[|s| - 1] == '"' {
      TrimQuotesRightShorter(s[..|s| - 1]);
    }
  }

  lemma {:induction false} TrimQuotesLeftShorter(s: string)
    ensures |TrimQuotesLeft(s)| <= |s| && (s != [] && s[0] == '"' ==> |TrimQuotesLeft(s)| < |s|)
  {
    if s != [] && s[0] == '"' {
      TrimQuotesLeftShorter(s[1..]);
    }
  }

  function InQuotes(name: string): string {
    "\"" + name + "\""
  }

  /** What the first piece is read as: shorter than the piece by the opening quote at least. */
  lemma FirstPieceName(p: string)
    requires p != "" && p[0] == '"'
    ensures Strip(TrimSpace(p), SUFFIXES) != "" && |TrimQuotes(Strip(TrimSpace(p), SUFFIXES))| < |p|
  {
    SuffixesAreSoft();
    TrimKeepsUpTo(p, 0);
    StripKeepsUpTo(TrimSpace(p), 0, SUFFIXES);
    var part := Strip(TrimSpace(p), SUFFIXES);
    TrimQuotesLeftShorter(part);
    TrimQuotesRightShorter(TrimQuotesLeft(part));
  }

  /** A first piece that goes on behind the closing quote with a parenthesis is not read as the name. */
  lemma ParenthesisStays(name: string, r: string)
    requires name != "" && name[0] != '"' && r != "" && r[0] == ')'
    ensures TrimQuotes(Strip(TrimSpace(InQuotes(name) + r), SUFFIXES)) != name
  {
    var p, n := InQuotes(name) + r, |name| + 2;
    SuffixesAreSoft();
    assert p[0] == '"' && p[n] == ')' && p[1] == name[0];
    TrimKeepsUpTo(p, n);
    StripKeepsUpTo(TrimSpace(p), n, SUFFIXES);
    var part := Strip(TrimSpace(p), SUFFIXES);
    assert part == p[..|part|];
    assert TrimQuotesLeft(part) == part[1..];
    assert part[1..][n - 1] == ')';
    TrimQuotesRightLength(part[1..], n - 1);
  }

  /** One piece that closes where it ends is nested. */
  lemma {:induction false} OnePieceIsNested(s: string, rest: string, depth: nat)
    requires |Pieces(s, depth)| == 1 && Closing(s + (")" + rest), depth + 1) == Some(|s|)
    ensures Nested(s, depth)
  {
    if s == [] {
      assert s + (")" + rest) == ")" + rest;
    } else {
      assert (s + (")" + rest))[1..] == s[1..] + (")" + rest);
      if s[0] == ')' {
        assert depth > 0;
      }
      OnePieceIsNested(s[1..], rest, After(depth, s[0]));
    }
  }

  lemma NestedInQuotes(name: string)
    ensures Nested(InQuotes(name), 0) <==> Nested(name, 0)
  {
    assert InQuotes(name)[1..] == name + "\"";
    NestedThenQuote(name, 0);
  }

  lemma {:induction false} NestedThenQuote(s: string, depth: nat)
    ensures Nested(s + "\"", depth) <==> Nested(s, depth)
  {
    if s == [] {
      assert s + "\"" == "\"" && "\""[1..] == "";
    } else {
      assert (s + "\"")[1..] == s[1..] + "\"";
      if s[0] != ')' || depth > 0 {
        NestedThenQuote(s[1..], After(depth, s[0]));
      }
    }
  }

  /** The first piece reaches to the first cut, or to the end. */
  lemma {:induction false} FirstPiece(s: string, depth: int)
    ensures var p := Pieces(s, depth)[0];
            && |p| <= |s| && p == s[..|p|] && (|p| < |s| ==> s[|p|] == ',') && (|p| == |s| <==> |Pieces(s, depth)| == 1)
  {
    if s != [] && !(s[0] == ',' && depth == 0) {
      FirstPiece(s[1..], After(depth, s[0]));
    }
  }

  lemma ListIsFound(def: string, open: nat, body: string)
    requires open < |def| && def[open] == '(' && def[open + 1..] == body
    ensures var m := Closing(body, 1);
            (m.None? ==> ListAt(def, open).None?) && (m.Some? ==> m.value < |body| && ListAt(def, open) == Some(body[..m.value]))
  {
    var m, s := Closing(body, 1), def[open..];
    ClosingInRange(body, 1);
    assert s[0] == '(' && s[1..] == body;
    assert Closing(s, 0) == Shift(m, 1);
    if m.Some? {
      assert def[open + 1..open + 1 + m.value] == body[..m.value];
    }
  }

  lemma ListOf(head: string, body: string)
    requires '(' !in head
    ensures var list := ColumnList(head + ("(" + body)); var m := Closing(body, 1);
            (m.None? ==> list.None?) && (m.Some? ==> m.value < |body| && list == Some(body[..m.value]))
  {
    var def := head + ("(" + body);
    OpensAt(head, body);
    assert def[|head|] == '(' && def[|head| + 1..] == body;
    ListIsFound(def, |head|, body);
  }

  lemma OneQuotedName(name: string)
    requires name != "" && '"' !in name
    ensures Names([InQuotes(name)]) == [name]
  {
    var q := InQuotes(name);
    SuffixesAreSoft();
    TrimKeepsUpTo(q, |q| - 1);
    StripKeepsUpTo(TrimSpace(q), |q| - 1, SUFFIXES);
    assert Strip(TrimSpace(q), SUFFIXES) == q;
    QuotesAreTrimmed(name, "\"");
    assert [q][1..] == [];
  }

  lemma QuotesAreTrimmed(name: string, quote: string)
    requires name != "" && '"' !in name && quote == "\""
    ensures TrimQuotes(quote + name + quote) == name
  {
    var q, t := quote + name + quote, name + quote;
    assert q[0] == '"' && q[1..] == t && t[0] == name[0] && t[0] != '"';
    assert TrimQuotesLeft(q) == t;
    assert t[|t| - 1] == '"' && t[..|t| - 1] == name;
    assert TrimQuotesRight(t) == TrimQuotesRight(name) == name;
  }

  /** A list that is read as the one name is the quoted name, in one piece. */
  lemma ReadAsOneName(name: string, body: string, m: nat, tail: string)
    requires name != "" && '"' !in name && body == InQuotes(name) + (")" + tail)
    requires Closing(body, 1) == Some(m) && m < |body| && Names(Pieces(body[..m], 0)) == [name]
    ensures m == |InQuotes(name)| && |Pieces(InQuotes(name), 0)| == 1
  {
    var q, list := InQuotes(name), body[..m];
    ClosingInRange(body, 1);
    assert body[0] == '"' && body[|q| - 1] == '"' && body[|q|] == ')';
    assert forall x :: 0 <= x < m ==> list[x] == body[x];
    FirstPiece(list, 0);
    var pieces := Pieces(list, 0);
    var p := pieces[0];
    FirstPieceName(p);
    assert Names(pieces)[0] == TrimQuotes(Strip(TrimSpace(p), SUFFIXES));
    PieceIsTheName(name, p, body, tail);
    assert list == q;
  }

  /** A prefix that is read as the name, and is not followed by the closing quote, is the quoted name. */
  lemma PieceIsTheName(name: string, p: string, body: string, tail: string)
    requires name != "" && '"' !in name && body == InQuotes(name) + (")" + tail) && p != "" && p <= body
    requires TrimQuotes(Strip(TrimSpace(p), SUFFIXES)) == name
    requires |p| < |body| ==> body[|p|] != '"'
    ensures p == InQuotes(name)
  {
    var q := InQuotes(name);
    assert body[0] == '"' && body[|q| - 1] == '"' && body[|q|] == ')';
    FirstPieceName(p);
    if |p| > |q| {
      assert p == q + p[|q|..] && p[|q|] == body[|q|];
      ParenthesisStays(name, p[|q|..]);
    }
  }

  lemma NestedIsReadBack(head: string, name: string, tail: string)
    requires '(' !in head && name != "" && '"' !in name && Nested(name, 0)
    ensures Columns(head + ("(" + (InQuotes(name) + (")" + tail)))) == [name]
  {
    var q := InQuotes(name);
    NestedInQuotes(name);
    ClosesBehind(q, tail);
    NestedAlone(q);
    OneQuotedName(name);
    OneListName(head, q, q + (")" + tail), name);
  }

  lemma ClosesBehind(q: string, tail: string)
    requires Nested(q, 0)
    ensures Closing(q + (")" + tail), 1) == Some(|q|)
  {
    NestedStaysOpen(q, 0, ")" + tail);
    assert Closing(")" + tail, 1) == Some(0);
  }

  lemma OneListName(head: string, list: string, body: string, name: string)
    requires '(' !in head && list <= body && Closing(body, 1) == Some(|list|)
    requires Pieces(list, 0) == [list] && Names([list]) == [name]
    ensures Columns(head + ("(" + body)) == [name]
  {
    ListOf(head, body);
    assert body[..|list|] == list;
  }

  lemma NestedAlone(s: string)
    requires Nested(s, 0)
    ensures Pieces(s, 0) == [s]
  {
    NestedIsOnePiece(s, 0, "");
    assert s + "" == s && Pieces("", 0) == [""];
  }

  lemma ReadBackIsNested(head: string, name: string, tail: string)
    requires '(' !in head && name != "" && '"' !in name
    requires Columns(head + ("(" + (InQuotes(name) + (")" + tail)))) == [name]
    ensures Nested(name, 0)
  {
    var q, body := InQuotes(name), InQuotes(name) + (")" + tail);
    ListOf(head, body);
    var m := Closing(body, 1);
    assert m.Some? && Names(Pieces(body[..m.value], 0)) == [name];
    ReadAsOneName(name, body, m.value, tail);
    assert Nested(q, 0) by {
      OnePieceIsNested(q, tail, 0);
    }
    NestedInQuotes(name);
  }

  /** A single quoted name, whatever stands in it but quotes, is read back exactly when its parentheses balance and no comma
      stands outside them. */
  lemma QuotedReadBackExactlyWhen(head: string, name: string, tail: string)
    requires '(' !in head && name != "" && '"' !in name
    ensures Columns(head + ("(" + (InQuotes(name) + (")" + tail)))) == [name] <==> Nested(name, 0)
  {
    if Nested(name, 0) {
      NestedIsReadBack(head, name, tail);
    } else if Columns(head + ("(" + (InQuotes(name) + (")" + tail)))) == [name] {
      ReadBackIsNested(head, name, tail);
    }
  }
}
