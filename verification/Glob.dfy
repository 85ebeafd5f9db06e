/** The test filters of gtest-all.cc: patterns with ? and *, separated by colons. */
module Glob {

  /** The recursive matcher: the pattern ends at a colon or where the string ends. */
  predicate PatternMatchesString(pattern: string, str: string)
    decreases |pattern| + |str|
  {
    if pattern == "" || pattern[0] == ':' then str == ""
    else if pattern[0] == '?' then str != "" && PatternMatchesString(pattern[1..], str[1..])
    else if pattern[0] == '*' then
      (str != "" && PatternMatchesString(pattern, str[1..])) || PatternMatchesString(pattern[1..], str)
    else str != "" && pattern[0] == str[0] && PatternMatchesString(pattern[1..], str[1..])
  }

  // ---------------------------------------------------------------- what patterns mean

  /** The cuts divide str into one piece for each character of the pattern: any piece for *,
      one character for ?, the character itself for any other. */
  ghost predicate Divides(cuts: seq<nat>, pattern: string, str: string) {
    && |cuts| == |pattern| + 1 && cuts[0] == 0 && cuts[|pattern|] == |str|
    && forall k, l :: 0 <= k < |pattern| && l == k + 1 ==> Piece(pattern[k], str, cuts[k], cuts[l])
  }

  predicate Piece(p: char, str: string, a: nat, b: nat) {
    a <= b <= |str| && (p == '*' || (b == a + 1 && (p == '?' || str[a] == p)))
  }

  /** str belongs to a pattern without colons. */
  ghost predicate Belongs(pattern: string, str: string) {
    exists cuts :: Divides(cuts, pattern, str)
  }

  function Shifted(cuts: seq<nat>, n: nat): (r: seq<nat>)
    ensures |r| == |cuts| && forall k :: 0 <= k < |r| ==> r[k] == cuts[k] + n
  {
    seq(|cuts|, k requires 0 <= k < |cuts| => cuts[k] + n)
  }

  function Lowered(cuts: seq<nat>, n: nat): (r: seq<nat>)
    requires forall k :: 0 <= k < |cuts| ==> cuts[k] >= n
    ensures |r| == |cuts| && forall k :: 0 <= k < |r| ==> r[k] == cuts[k] - n
  {
    if cuts == [] then [] else [cuts[0] - n] + Lowered(cuts[1..], n)
  }

  /** A first piece of n characters, and a division of the rest. */
  lemma {:induction false} DividesMore(pattern: string, str: string, n: nat, cuts: seq<nat>)
    requires pattern != "" && n <= |str| && Piece(pattern[0], str, 0, n) && Divides(cuts, pattern[1..], str[n..])
    ensures Divides([0] + Shifted(cuts, n), pattern, str)
  {
    var more := [0] + Shifted(cuts, n);
    assert more[1] == cuts[0] + n == n;
    forall k, l | 0 <= k < |pattern| && l == k + 1 ensures Piece(pattern[k], str, more[k], more[l]) {
      if k > 0 {
        assert Piece(pattern[1..][k - 1], str[n..], cuts[k - 1], cuts[k]);
      }
    }
  }

  /** The other way round. */
  lemma {:induction false} DividesRest(pattern: string, str: string, cuts: seq<nat>) returns (n: nat, rest: seq<nat>)
    requires pattern != "" && Divides(cuts, pattern, str)
    ensures n <= |str| && Piece(pattern[0], str, 0, n) && Divides(rest, pattern[1..], str[n..])
  {
    n := cuts[1];
    assert Piece(pattern[0], str, cuts[0], cuts[1]);
    CutsGrow(cuts, pattern, str, 1);
    forall k | 0 <= k < |cuts[1..]| ensures cuts[1..][k] >= n {
      CutsGrow(cuts, pattern, str, k + 1);
    }
    rest := Lowered(cuts[1..], n);
    forall k, l | 0 <= k < |pattern| - 1 && l == k + 1 ensures Piece(pattern[1..][k], str[n..], rest[k], rest[l]) {
      assert Piece(pattern[l], str, cuts[k + 1], cuts[l + 1]);
    }
  }

  lemma {:induction false} CutsGrow(cuts: seq<nat>, pattern: string, str: string, k: nat)
    requires Divides(cuts, pattern, str) && 1 <= k <= |pattern|
    ensures cuts[1] <= cuts[k] <= |str|
  {
    assert Piece(pattern[k - 1], str, cuts[k - 1], cuts[k]);
    if k > 1 {
      CutsGrow(cuts, pattern, str, k - 1);
    }
  }

  lemma {:induction false} BelongsIffFirst(pattern: string, str: string)
    requires pattern != ""
    ensures Belongs(pattern, str) <==>
      exists n :: 0 <= n <= |str| && Piece(pattern[0], str, 0, n) && Belongs(pattern[1..], str[n..])
  {
    if Belongs(pattern, str) {
      var cuts :| Divides(cuts, pattern, str);
      var n, rest := DividesRest(pattern, str, cuts);
      assert Belongs(pattern[1..], str[n..]);
    }
    if n :| 0 <= n <= |str| && Piece(pattern[0], str, 0, n) && Belongs(pattern[1..], str[n..]) {
      var cuts :| Divides(cuts, pattern[1..], str[n..]);
      DividesMore(pattern, str, n, cuts);
    }
  }

  lemma {:induction false} BelongsEmpty(str: string)
    ensures Belongs("", str) <==> str == ""
  {
    if str == "" {
      assert Divides([0], "", str);
    }
  }

  /** A star takes no character, or one and goes on. */
  lemma {:induction false} BelongsStar(pattern: string, str: string)
    requires pattern != "" && pattern[0] == '*'
    ensures Belongs(pattern, str) <==> Belongs(pattern[1..], str) || (str != "" && Belongs(pattern, str[1..]))
  {
    BelongsIffFirst(pattern, str);
    assert str[0..] == str;
    if str != "" {
      BelongsIffFirst(pattern, str[1..]);
      forall n: nat | n <= |str[1..]| ensures str[1..][n..] == str[n + 1..] {
      }
      if n :| 0 <= n <= |str[1..]| && Piece('*', str[1..], 0, n) && Belongs(pattern[1..], str[1..][n..]) {
        assert Piece('*', str, 0, n + 1) && Belongs(pattern[1..], str[n + 1..]);
      }
      if n :| 1 <= n <= |str| && Piece('*', str, 0, n) && Belongs(pattern[1..], str[n..]) {
        assert Piece('*', str[1..], 0, n - 1) && Belongs(pattern[1..], str[1..][n - 1..]);
      }
    }
  }

  /** Any other character takes exactly one. */
  lemma {:induction false} BelongsOne(pattern: string, str: string)
    requires pattern != "" && pattern[0] != '*'
    ensures Belongs(pattern, str) <==>
      str != "" && (pattern[0] == '?' || pattern[0] == str[0]) && Belongs(pattern[1..], str[1..])
  {
    BelongsIffFirst(pattern, str);
  }

  /** Where the pattern at the beginning of p ends. */
  function PatternEnd(p: string): (n: nat)
    ensures n <= |p| && ':' !in p[..n] && (n < |p| ==> p[n] == ':')
  {
    if p == "" || p[0] == ':' then 0 else
      var n := PatternEnd(p[1..]) + 1;
      assert p[..n] == [p[0]] + p[1..][..n - 1];
      n
  }

  /** The matcher decides the declarative meaning of the pattern up to its colon. */
  lemma {:induction false} MatcherIsExact(pattern: string, str: string)
    ensures PatternMatchesString(pattern, str) <==> Belongs(pattern[..PatternEnd(pattern)], str)
    decreases |pattern| + |str|
  {
    var p := pattern[..PatternEnd(pattern)];
    if pattern == "" || pattern[0] == ':' {
      BelongsEmpty(str);
    } else {
      assert p[0] == pattern[0] && p[1..] == pattern[1..][..PatternEnd(pattern[1..])];
      if pattern[0] == '*' {
        BelongsStar(p, str);
        MatcherIsExact(pattern[1..], str);
        if str != "" { MatcherIsExact(pattern, str[1..]); }
      } else {
        BelongsOne(p, str);
        if str != "" { MatcherIsExact(pattern[1..], str[1..]); }
      }
    }
  }

  // ---------------------------------------------------------------- filters

  /** filter[i..j] is one of the patterns between the colons. */
  predicate IsPattern(filter: string, i: nat, j: nat) {
    && i <= j <= |filter| && (i == 0 || filter[i - 1] == ':') && (j == |filter| || filter[j] == ':')
    && ':' !in filter[i..j]
  }

  /** Some pattern from the k-th character on has the name. */
  ghost predicate AcceptedFrom(filter: string, k: nat, name: string) {
    exists i: nat, j: nat :: k <= i && IsPattern(filter, i, j) && Belongs(filter[i..j], name)
  }

  lemma {:induction false} OnePattern(filter: string, i: nat, j: nat)
    requires IsPattern(filter, i, j)
    ensures j == i + PatternEnd(filter[i..]) && filter[i..j] == filter[i..][..j - i]
  {
    var n := PatternEnd(filter[i..]);
    assert filter[i..j] == filter[i..][..j - i];
  }

  lemma {:induction false} PatternHere(filter: string, i: nat)
    requires i <= |filter| && (i == 0 || filter[i - 1] == ':')
    ensures IsPattern(filter, i, i + PatternEnd(filter[i..]))
  {
    var n := PatternEnd(filter[i..]);
    assert filter[i..i + n] == filter[i..][..n];
    if n < |filter| - i { assert filter[i..][n] == filter[i + n]; }
  }

  /** The next place of a colon from k on, or the end. */
  method FindColon(s: string, k: nat) returns (c: nat)
    requires k <= |s|
    ensures k <= c <= |s| && ':' !in s[k..c] && (c < |s| ==> s[c] == ':')
  {
    c := k;
    while c < |s| && s[c] != ':'
      invariant k <= c <= |s| && ':' !in s[k..c]
    {
      assert s[k..c + 1] == s[k..c] + [s[c]];
      c := c + 1;
    }
  }

  /** A name passes the filter exactly when it belongs to one of its patterns. */
  method MatchesFilter(name: string, filter: string) returns (accepted: bool)
    ensures accepted <==> AcceptedFrom(filter, 0, name)
  {
    var cur := 0;
    while true
      invariant cur <= |filter| && (cur == 0 || filter[cur - 1] == ':')
      invariant AcceptedFrom(filter, 0, name) <==> AcceptedFrom(filter, cur, name)
      decreases |filter| - cur
    {
      PatternHere(filter, cur);
      MatcherIsExact(filter[cur..], name);
      ghost var end := cur + PatternEnd(filter[cur..]);
      OnePattern(filter, cur, end);
      if PatternMatchesString(filter[cur..], name) {
        assert IsPattern(filter, cur, end) && Belongs(filter[cur..end], name);
        return true;
      }
      var colon := FindColon(filter, cur);
      NextPattern(filter, cur, colon, name);
      if colon == |filter| {
        return false;
      }
      cur := colon + 1;
    }
  }

  lemma {:induction false} NextPattern(filter: string, cur: nat, colon: nat, name: string)
    requires cur <= colon <= |filter| && ':' !in filter[cur..colon] && (colon < |filter| ==> filter[colon] == ':')
    requires IsPattern(filter, cur, cur + PatternEnd(filter[cur..]))
    requires !Belongs(filter[cur..cur + PatternEnd(filter[cur..])], name)
    ensures AcceptedFrom(filter, cur, name) <==> colon < |filter| && AcceptedFrom(filter, colon + 1, name)
  {
    if AcceptedFrom(filter, cur, name) {
      var i: nat, j: nat :| cur <= i && IsPattern(filter, i, j) && Belongs(filter[i..j], name);
      OnePattern(filter, i, j);
      PatternBegins(filter, cur, colon, i);
      assert colon + 1 <= i && IsPattern(filter, i, j) && Belongs(filter[i..j], name);
    }
  }

  lemma {:induction false} PatternBegins(filter: string, cur: nat, colon: nat, i: nat)
    requires cur < i <= |filter| && filter[i - 1] == ':' && cur <= colon <= |filter| && ':' !in filter[cur..colon]
    ensures colon < i
  {
  }

  // ---------------------------------------------------------------- positive and negative filters

  lemma {:induction false} UniversalFilter(name: string)
    ensures AcceptedFrom("*", 0, name)
  {
    assert Divides([0, |name|], "*", name);
    assert IsPattern("*", 0, 1) && "*"[0..1] == "*" && Belongs("*", name);
  }

  predicate FirstDash(filter: string, dash: nat) {
    dash < |filter| && filter[dash] == '-' && '-' !in filter[..dash]
  }

  /** The part before the first dash, which lets everything pass if it is empty, names what to
      run; the part after it what to leave out. */
  ghost predicate Passes(filter: string, name: string) {
    if '-' !in filter then AcceptedFrom(filter, 0, name)
    else exists dash: nat :: FirstDash(filter, dash) && PassesSplit(filter[..dash], filter[dash + 1..], name)
  }

  ghost predicate PassesSplit(positive: string, negative: string, name: string) {
    (positive == "" || AcceptedFrom(positive, 0, name)) && !AcceptedFrom(negative, 0, name)
  }

  method FilterMatchesTest(testSuiteName: string, testName: string, filter: string) returns (accepted: bool)
    ensures accepted <==> Passes(filter, testSuiteName + "." + testName)
  {
    var fullName := testSuiteName + "." + testName;
    var dash := 0;
    while dash < |filter| && filter[dash] != '-'
      invariant dash <= |filter| && '-' !in filter[..dash]
    {
      assert filter[..dash + 1] == filter[..dash] + [filter[dash]];
      dash := dash + 1;
    }
    assert filter[..|filter|] == filter;
    var positive, negative := filter[..dash], "";
    if dash < |filter| {
      negative := filter[dash + 1..];
      if positive == "" {
        positive := "*";
      }
    }
    assert '-' in filter ==> FirstDash(filter, dash);
    UniversalFilter(fullName);
    NothingPasses(fullName);
    accepted := MatchesFilter(fullName, positive);
    if accepted {
      var excluded := MatchesFilter(fullName, negative);
      accepted := !excluded;
    }
  }

  lemma {:induction false} NothingPasses(name: string)
    requires name != ""
    ensures !AcceptedFrom("", 0, name)
  {
    BelongsEmpty(name);
  }

  // ---------------------------------------------------------------- patterns of literal text

  /** Text that stands for itself. */
  predicate Literal(p: string) {
    forall c :: c in p ==> c !in {'*', '?', ':'}
  }

  predicate EndsIn(s: string, p: string) {
    |p| <= |s| && s[|s| - |p|..] == p
  }

  predicate Contains(s: string, p: string) {
    exists k :: 0 <= k <= |s| && p <= s[k..]
  }

  /** Literal text with a star behind it, or nothing. */
  function Tail(star: bool): string {
    if star then "*" else ""
  }

  lemma {:induction false} BelongsTail(star: bool, str: string)
    ensures Belongs(Tail(star), str) <==> star || str == ""
  {
    BelongsEmpty(str);
    if star {
      BelongsIffFirst("*", str);
      BelongsEmpty(str[|str|..]);
      assert Piece('*', str, 0, |str|) && Belongs("*"[1..], str[|str|..]);
    }
  }

  /** Literal text, with a star behind it or not, is what the name begins with, or is. */
  lemma {:induction false} BelongsLiteral(p: string, star: bool, str: string)
    requires Literal(p)
    ensures Belongs(p + Tail(star), str) <==> if star then p <= str else p == str
  {
    if p == "" {
      assert p + Tail(star) == Tail(star);
      BelongsTail(star, str);
    } else {
      assert p[0] in p;
      assert (p + Tail(star))[0] == p[0] && (p + Tail(star))[1..] == p[1..] + Tail(star);
      BelongsOne(p + Tail(star), str);
      if str != "" {
        assert forall c :: c in p[1..] ==> c in p;
        BelongsLiteral(p[1..], star, str[1..]);
        assert p == [p[0]] + p[1..] && str == [str[0]] + str[1..];
      }
    }
  }

  /** With a star before it, it is what some rest of the name begins with, or is. */
  lemma {:induction false} BelongsAfterStar(p: string, star: bool, str: string)
    requires Literal(p)
    ensures Belongs("*" + p + Tail(star), str) <==> if star then Contains(str, p) else EndsIn(str, p)
  {
    var pattern := "*" + p + Tail(star);
    assert pattern[0] == '*' && pattern[1..] == p + Tail(star);
    BelongsIffFirst(pattern, str);
    forall n: nat | n <= |str|
      ensures Belongs(pattern[1..], str[n..]) <==> if star then p <= str[n..] else p == str[n..]
    {
      BelongsLiteral(p, star, str[n..]);
    }
    if !star && EndsIn(str, p) {
      assert Piece('*', str, 0, |str| - |p|) && Belongs(pattern[1..], str[|str| - |p|..]);
    }
    if star && Contains(str, p) {
      var k :| 0 <= k <= |str| && p <= str[k..];
      assert Piece('*', str, 0, k) && Belongs(pattern[1..], str[k..]);
    }
  }

  /** A filter of two patterns lets pass what belongs to one of them. */
  lemma {:induction false} TwoPatterns(a: string, b: string, name: string)
    requires ':' !in a && ':' !in b
    ensures AcceptedFrom(a + ":" + b, 0, name) <==> Belongs(a, name) || Belongs(b, name)
  {
    var filter := a + ":" + b;
    var m, n := |a|, |filter|;
    assert filter[0..m] == a && filter[m + 1..n] == b && filter[m] == ':';
    assert IsPattern(filter, 0, m) && IsPattern(filter, m + 1, n);
    if AcceptedFrom(filter, 0, name) {
      var i: nat, j: nat :| IsPattern(filter, i, j) && Belongs(filter[i..j], name);
      ColonOnce(a, b, i, j);
    }
  }

  lemma {:induction false} ColonOnce(a: string, b: string, i: nat, j: nat)
    requires ':' !in a && ':' !in b && IsPattern(a + ":" + b, i, j)
    ensures (i == 0 && j == |a|) || (i == |a| + 1 && j == |a| + 1 + |b|)
  {
    var filter := a + ":" + b;
    assert forall k :: 0 <= k < |filter| ==> (filter[k] == ':' <==> k == |a|);
    forall k | i <= k < j ensures filter[k] != ':' {
      assert filter[k] == filter[i..j][k - i];
    }
    assert filter[|a|] == ':';
  }
}
