/** The string functions of Go's standard library that the service leans on. Letters are folded in ASCII only. */
module Text {
  /** Unicode's White_Space property, as unicode.IsSpace tests it. */
  predicate IsSpace(c: char) {
    c == ' ' || '\t' <= c <= '\r' || c == '\U{85}' || c == '\U{A0}' || c == '\U{1680}' || '\U{2000}' <= c <= '\U{200A}' ||
    c == '\U{2028}' || c == '\U{2029}' || c == '\U{202F}' || c == '\U{205F}' || c == '\U{3000}'
  }

  function LowerChar(c: char): char {
    if 'A' <= c <= 'Z' then (c as int + 32) as char else c
  }

  function Lower(s: string): (r: string)
    ensures |r| == |s| && forall i :: 0 <= i < |s| ==> r[i] == LowerChar(s[i])
  {
    seq(|s|, i requires 0 <= i < |s| => LowerChar(s[i]))
  }

  predicate EqualFold(a: string, b: string) {
    Lower(a) == Lower(b)
  }

  // ------------------------------------------------------------ searching

  predicate OccursAt(s: string, sub: string, i: int) {
    0 <= i && i + |sub| <= |s| && s[i..i + |sub|] == sub
  }

  /** strings.Index: the first occurrence, or -1. */
  function Index(s: string, sub: string): (r: int)
    ensures -1 <= r && (r >= 0 ==> r + |sub| <= |s|)
  {
    IndexFrom(s, sub, 0)
  }

  function IndexFrom(s: string, sub: string, from: nat): (r: int)
    requires from <= |s|
    ensures r == -1 || (from <= r && r + |sub| <= |s|)
    decreases |s| - from
  {
    if OccursAt(s, sub, from) then from
    else if from == |s| then -1
    else IndexFrom(s, sub, from + 1)
  }

  lemma {:induction false} IndexFromSpec(s: string, sub: string, from: nat)
    requires from <= |s|
    ensures var r := IndexFrom(s, sub, from);
            if r >= 0 then OccursAt(s, sub, r) && forall i :: from <= i < r ==> !OccursAt(s, sub, i)
            else forall i :: from <= i ==> !OccursAt(s, sub, i)
    decreases |s| - from
  {
    if !OccursAt(s, sub, from) && from < |s| {
      IndexFromSpec(s, sub, from + 1);
    }
  }

  lemma IndexSpec(s: string, sub: string)
    ensures var r := Index(s, sub);
            if r >= 0 then OccursAt(s, sub, r) && forall i :: 0 <= i < r ==> !OccursAt(s, sub, i)
            else forall i :: !OccursAt(s, sub, i)
  {
    IndexFromSpec(s, sub, 0);
  }

  predicate Contains(s: string, sub: string) {
    exists i :: 0 <= i <= |s| && OccursAt(s, sub, i)
  }

  lemma IndexIsFirst(s: string, sub: string, i: int)
    requires OccursAt(s, sub, i) && forall j :: 0 <= j < i ==> !OccursAt(s, sub, j)
    ensures Index(s, sub) == i
  {
    IndexSpec(s, sub);
  }

  // ------------------------------------------------------------ trimming

  function TrimLeft(s: string): string {
    if s != [] && IsSpace(s[0]) then TrimLeft(s[1..]) else s
  }

  function TrimRight(s: string): string {
    if s != [] && IsSpace(s[|s| - 1]) then TrimRight(s[..|s| - 1]) else s
  }

  /** strings.TrimSpace */
  function TrimSpace(s: string): string {
    TrimRight(TrimLeft(s))
  }

  lemma {:induction false} TrimLeftKeeps(p: string, m: string)
    requires m != [] && !IsSpace(m[0])
    ensures TrimLeft(p + m) == TrimLeft(p) + m
  {
    if p == [] {
      assert p + m == m;
    } else {
      assert (p + m)[1..] == p[1..] + m;
      TrimLeftKeeps(p[1..], m);
    }
  }

  lemma {:induction false} TrimRightKeeps(m: string, q: string)
    requires m != [] && !IsSpace(m[|m| - 1])
    ensures TrimRight(m + q) == m + TrimRight(q)
  {
    if q == [] {
      assert m + q == m;
    } else {
      assert (m + q)[..|m + q| - 1] == m + q[..|q| - 1];
      TrimRightKeeps(m, q[..|q| - 1]);
    }
  }

  /** Trimming only eats into what surrounds a text with blank-free ends. */
  lemma TrimSpaceKeeps(p: string, m: string, q: string)
    requires m != [] && !IsSpace(m[0]) && !IsSpace(m[|m| - 1])
    ensures TrimSpace(p + m + q) == TrimLeft(p) + m + TrimRight(q)
  {
    assert p + m + q == p + (m + q);
    TrimLeftKeeps(p, m + q);
    assert TrimLeft(p) + (m + q) == TrimLeft(p) + m + q;
    TrimRightKeeps(TrimLeft(p) + m, q);
  }

  lemma {:induction false} TrimLeftSuffix(s: string)
    ensures |TrimLeft(s)| <= |s| && TrimLeft(s) == s[|s| - |TrimLeft(s)|..]
  {
    if s != [] && IsSpace(s[0]) {
      TrimLeftSuffix(s[1..]);
    }
  }

  lemma {:induction false} TrimRightPrefix(s: string)
    ensures |TrimRight(s)| <= |s| && TrimRight(s) == s[..|TrimRight(s)|]
  {
    if s != [] && IsSpace(s[|s| - 1]) {
      TrimRightPrefix(s[..|s| - 1]);
    }
  }

  // ------------------------------------------------------------ joining and splitting into words

  function Join(parts: seq<string>, sep: string): string {
    if |parts| == 0 then ""
    else if |parts| == 1 then parts[0]
    else parts[0] + sep + Join(parts[1..], sep)
  }

  /** The length of the leading run of non-blanks. */
  function WordLength(s: string): (n: nat)
    ensures n <= |s| && (forall i :: 0 <= i < n ==> !IsSpace(s[i])) && (n < |s| ==> IsSpace(s[n]))
  {
    if s == [] || IsSpace(s[0]) then 0 else 1 + WordLength(s[1..])
  }

  /** strings.Fields */
  function Fields(s: string): seq<string> {
    if s == [] then []
    else if IsSpace(s[0]) then Fields(s[1..])
    else [s[..WordLength(s)]] + Fields(s[WordLength(s)..])
  }

  /** Runs of blanks become one space; blanks at the ends disappear. */
  function Squeeze(s: string): string {
    Join(Fields(s), " ")
  }

  predicate IsWord(w: string) {
    w != [] && forall i :: 0 <= i < |w| ==> !IsSpace(w[i])
  }

  lemma {:induction false} FieldsAreWords(s: string)
    ensures forall i :: 0 <= i < |Fields(s)| ==> IsWord(Fields(s)[i])
  {
    if s == [] {
    } else if IsSpace(s[0]) {
      FieldsAreWords(s[1..]);
    } else {
      FieldsAreWords(s[WordLength(s)..]);
    }
  }

  lemma {:induction false} WordLengthOf(w: string, rest: string)
    requires (forall i :: 0 <= i < |w| ==> !IsSpace(w[i])) && (rest != [] ==> IsSpace(rest[0]))
    ensures WordLength(w + rest) == |w|
  {
    if w == [] {
      assert w + rest == rest;
    } else {
      assert (w + rest)[1..] == w[1..] + rest;
      WordLengthOf(w[1..], rest);
    }
  }

  /** Splitting undoes joining. */
  lemma {:induction false} FieldsOfJoin(words: seq<string>)
    requires forall i :: 0 <= i < |words| ==> IsWord(words[i])
    ensures Fields(Join(words, " ")) == words
  {
    if |words| == 1 {
      WordLengthOf(words[0], "");
      assert words[0] + "" == words[0];
      assert Fields(words[0]) == [words[0]] + Fields([]);
    } else if |words| > 1 {
      var word, more := words[0], Join(words[1..], " ");
      FieldsOfJoin(words[1..]);
      WordThenBlank(word, more);
      assert Join(words, " ") == word + (" " + more);
    }
  }

  lemma WordThenBlank(word: string, more: string)
    requires IsWord(word)
    ensures Fields(word + (" " + more)) == [word] + Fields(more)
  {
    var rest := " " + more;
    WordLengthOf(word, rest);
    assert (word + rest)[..|word|] == word && (word + rest)[|word|..] == rest && rest[1..] == more;
  }

  lemma SqueezeIsIdempotent(s: string)
    ensures Squeeze(Squeeze(s)) == Squeeze(s)
  {
    FieldsAreWords(s);
    FieldsOfJoin(Fields(s));
  }

  function LowerAll(words: seq<string>): seq<string> {
    seq(|words|, i requires 0 <= i < |words| => Lower(words[i]))
  }

  lemma {:induction false} LowerOfJoin(words: seq<string>)
    ensures Lower(Join(words, " ")) == Join(LowerAll(words), " ")
  {
    if |words| > 1 {
      LowerOfJoin(words[1..]);
      assert LowerAll(words)[1..] == LowerAll(words[1..]);
      assert Lower(words[0] + " " + Join(words[1..], " ")) == Lower(words[0]) + " " + Lower(Join(words[1..], " "));
    }
  }

  lemma {:induction false} WordLengthOfLower(s: string)
    ensures WordLength(Lower(s)) == WordLength(s)
  {
    if s != [] && !IsSpace(s[0]) {
      assert Lower(s)[1..] == Lower(s[1..]);
      WordLengthOfLower(s[1..]);
    }
  }

  lemma {:induction false} FieldsOfLower(s: string)
    ensures Fields(Lower(s)) == LowerAll(Fields(s))
    decreases |s|
  {
    if s == [] {
    } else if IsSpace(s[0]) {
      assert Lower(s)[1..] == Lower(s[1..]);
      FieldsOfLower(s[1..]);
    } else {
      var n := WordLength(s);
      var word, rest := s[..n], s[n..];
      WordLengthOfLower(s);
      assert Lower(s)[n..] == Lower(rest) && Lower(s)[..n] == Lower(word);
      FieldsOfLower(rest);
      LowerAllCons(word, Fields(rest));
    }
  }

  lemma LowerAllCons(word: string, words: seq<string>)
    ensures LowerAll([word] + words) == [Lower(word)] + LowerAll(words)
  {
  }

  /** Squeezing and lower-casing commute. */
  lemma SqueezeOfLower(s: string)
    ensures Squeeze(Lower(s)) == Lower(Squeeze(s))
  {
    FieldsOfLower(s);
    LowerOfJoin(Fields(s));
  }

  lemma {:induction false} FieldsOfTrimLeft(s: string)
    ensures Fields(TrimLeft(s)) == Fields(s)
  {
    if s != [] && IsSpace(s[0]) {
      FieldsOfTrimLeft(s[1..]);
    }
  }

  lemma {:induction false} FieldsBeforeBlank(s: string, c: char)
    requires IsSpace(c)
    ensures Fields(s + [c]) == Fields(s)
    decreases |s|
  {
    if s == [] {
      assert s + [c] == [c];
    } else if IsSpace(s[0]) {
      assert (s + [c])[1..] == s[1..] + [c];
      FieldsBeforeBlank(s[1..], c);
    } else {
      var n := WordLength(s);
      assert s + [c] == s[..n] + (s[n..] + [c]);
      WordLengthOf(s[..n], s[n..] + [c]);
      assert (s + [c])[n..] == s[n..] + [c];
      FieldsBeforeBlank(s[n..], c);
    }
  }

  lemma {:induction false} FieldsOfTrimRight(s: string)
    ensures Fields(TrimRight(s)) == Fields(s)
  {
    if s != [] && IsSpace(s[|s| - 1]) {
      assert s == s[..|s| - 1] + [s[|s| - 1]];
      FieldsBeforeBlank(s[..|s| - 1], s[|s| - 1]);
      FieldsOfTrimRight(s[..|s| - 1]);
    }
  }

  /** Trimming first makes no difference to the words. */
  lemma FieldsOfTrimSpace(s: string)
    ensures Fields(TrimSpace(s)) == Fields(s)
  {
    FieldsOfTrimLeft(s);
    FieldsOfTrimRight(TrimLeft(s));
  }

  // ------------------------------------------------------------ keys of several parts

  lemma LowerOfConcat(a: string, b: string)
    ensures Lower(a + b) == Lower(a) + Lower(b)
  {
  }

  /** A text free of the separator is told from what follows it. */
  lemma SplitAtSeparator(a: string, b: string, c: string, d: string, sep: char)
    requires sep !in a && sep !in c && a + [sep] + b == c + [sep] + d
    ensures a == c && b == d
  {
    NotLonger(a, b, c, d, sep);
    NotLonger(c, d, a, b, sep);
    var l, r := a + [sep] + b, c + [sep] + d;
    assert l[..|a|] == a && r[..|a|] == c && l[|a| + 1..] == b && r[|a| + 1..] == d;
  }

  lemma NotLonger(a: string, b: string, c: string, d: string, sep: char)
    requires sep !in a && a + [sep] + b == c + [sep] + d
    ensures |a| <= |c|
  {
    assert (a + [sep] + b)[|c|] == (c + [sep] + d)[|c|] == sep;
  }
}
