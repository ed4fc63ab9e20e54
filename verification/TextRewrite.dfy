/** The text substitution behind the rule engine's rewrites. */
module TextRewrite {
  import opened Text

  /** How much longer than the target a window of the blank-insensitive scan may be. */
  const SLACK := 16

  /** The window reads like the target, up to letter case and blanks. */
  predicate Matches(s: string, target: string, i: int, j: int) {
    0 <= i <= j <= |s| && EqualFold(Squeeze(s[i..j]), target)
  }

  /** The first place where the target stands as it is, up to letter case. */
  ghost predicate ExactAt(s: string, target: string, i: int) {
    OccursAt(Lower(s), Lower(target), i) && forall k :: 0 <= k < i ==> !OccursAt(Lower(s), Lower(target), k)
  }

  predicate InReach(s: string, target: string, i: int, j: int) {
    0 <= i < j <= |s| && j - i <= |target| + SLACK
  }

  /** The least start, and for it the least end, of a window in reach that matches. */
  ghost predicate FirstMatch(s: string, target: string, i: int, j: int) {
    InReach(s, target, i, j) && Matches(s, target, i, j) &&
    forall k, l :: InReach(s, target, k, l) && (k < i || (k == i && l < j)) ==> !Matches(s, target, k, l)
  }

  ghost predicate NoMatch(s: string, target: string) {
    forall k, l :: InReach(s, target, k, l) ==> !Matches(s, target, k, l)
  }

  /** The blank-insensitive scan's window, taken only when the target stands nowhere as it is. */
  ghost predicate FallbackAt(s: string, target: string, i: int, j: int) {
    (forall k :: !OccursAt(Lower(s), Lower(target), k)) && FirstMatch(s, target, i, j)
  }

  ghost predicate Chosen(s: string, target: string, i: int, j: int) {
    (ExactAt(s, target, i) && j == i + |target|) || FallbackAt(s, target, i, j)
  }

  /** The text with one chosen window replaced. */
  ghost predicate Replaced(s: string, target: string, replacement: string, out: string) {
    exists i, j :: Chosen(s, target, i, j) && Matches(s, target, i, j) && out == s[..i] + replacement + s[j..]
  }

  method ReplaceFold(s: string, pattern: string, replacement: string) returns (out: string, ok: bool)
    ensures ok <==> exists i, j :: Chosen(s, Squeeze(pattern), i, j)
    ensures ok ==> Replaced(s, Squeeze(pattern), replacement, out)
    ensures !ok ==> out == s && NoMatch(s, Squeeze(pattern))
  {
    var target := Squeeze(pattern);
    var idx := Index(Lower(s), Lower(target));
    if idx >= 0 {
      ExactIsChosen(s, pattern, idx);
      return s[..idx] + replacement + s[idx + |target|..], true;
    }
    var from, to, found := Scan(s, target);
    if found {
      FallbackIsChosen(s, target, from, to);
      return s[..from] + replacement + s[to..], true;
    }
    NothingIsChosen(s, target);
    return s, false;
  }

  /** The blank-insensitive scan. */
  method Scan(s: string, target: string) returns (from: nat, to: nat, found: bool)
    ensures if found then FirstMatch(s, target, from, to) else NoMatch(s, target)
  {
    from := 0;
    while from < |s|
      invariant 0 <= from <= |s|
      invariant forall k, l :: InReach(s, target, k, l) && k < from ==> !Matches(s, target, k, l)
    {
      to := from + 1;
      while to <= |s| && to - from <= |target| + SLACK
        invariant from < to <= |s| + 1
        invariant forall l :: InReach(s, target, from, l) && l < to ==> !Matches(s, target, from, l)
      {
        if Matches(s, target, from, to) {
          return from, to, true;
        }
        to := to + 1;
      }
      from := from + 1;
    }
    return 0, 0, false;
  }

  /** A case-insensitive occurrence of a squeezed target is a match. */
  lemma ExactMatches(s: string, pattern: string, i: int)
    requires OccursAt(Lower(s), Lower(Squeeze(pattern)), i)
    ensures Matches(s, Squeeze(pattern), i, i + |Squeeze(pattern)|)
  {
    var target := Squeeze(pattern);
    var window := s[i..i + |target|];
    assert Lower(window) == Lower(s)[i..i + |target|];
    SqueezeOfLower(window);
    SqueezeOfLower(target);
    SqueezeIsIdempotent(pattern);
  }

  lemma ExactIsChosen(s: string, pattern: string, i: int)
    requires i >= 0 && i == Index(Lower(s), Lower(Squeeze(pattern)))
    ensures var target := Squeeze(pattern);
            i + |target| <= |s| && Chosen(s, target, i, i + |target|) && Matches(s, target, i, i + |target|)
  {
    IndexSpec(Lower(s), Lower(Squeeze(pattern)));
    ExactMatches(s, pattern, i);
    assert ExactAt(s, Squeeze(pattern), i);
  }

  lemma FallbackIsChosen(s: string, target: string, i: int, j: int)
    requires Index(Lower(s), Lower(target)) < 0 && FirstMatch(s, target, i, j)
    ensures Chosen(s, target, i, j)
  {
    IndexSpec(Lower(s), Lower(target));
    assert FallbackAt(s, target, i, j);
  }

  lemma NothingIsChosen(s: string, target: string)
    requires Index(Lower(s), Lower(target)) < 0 && NoMatch(s, target)
    ensures forall i, j :: !Chosen(s, target, i, j)
  {
    IndexSpec(Lower(s), Lower(target));
  }

  /** At most one window can be chosen, so the outcome is determined. */
  lemma ChosenIsUnique(s: string, target: string, i: int, j: int, k: int, l: int)
    requires Chosen(s, target, i, j) && Chosen(s, target, k, l)
    ensures i == k && j == l
  {
  }

  /** So a chosen window is the one that was replaced. */
  lemma ReplacedThere(s: string, target: string, replacement: string, out: string, i: int, j: int)
    requires Replaced(s, target, replacement, out) && Chosen(s, target, i, j)
    ensures 0 <= i <= j <= |s| && out == s[..i] + replacement + s[j..]
  {
    var k, l :| Chosen(s, target, k, l) && Matches(s, target, k, l) && out == s[..k] + replacement + s[l..];
    ChosenIsUnique(s, target, i, j, k, l);
  }

  /** The blank-insensitive scan swallows every blank before its window that its slack lets it reach. */
  lemma FallbackSwallowsBlanks(s: string, target: string, i: int, j: int)
    requires FallbackAt(s, target, i, j) && j - i < |target| + SLACK
    ensures i == 0 || !IsSpace(s[i - 1])
  {
    if i > 0 && IsSpace(s[i - 1]) {
      var wider := s[i - 1..j];
      assert wider[0] == s[i - 1] && wider[1..] == s[i..j];
      assert Fields(wider) == Fields(s[i..j]);
      assert InReach(s, target, i - 1, j) && Matches(s, target, i - 1, j);
    }
  }
}
