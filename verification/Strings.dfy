/** The string helper of srclib/lib.c that the code generator uses. */
module Strings {

  function LTrim(s: string, seps: string): string {
    if s != "" && s[0] in seps then LTrim(s[1..], seps) else s
  }

  function RTrim(s: string, seps: string): string {
    if s != "" && s[|s| - 1] in seps then RTrim(s[..|s| - 1], seps) else s
  }

  function Trim(s: string, seps: string): string {
    LTrim(RTrim(s, seps), seps)
  }

  predicate Bare(s: string, seps: string) {
    s != "" ==> s[0] !in seps && s[|s| - 1] !in seps
  }

  lemma {:induction false} LTrimRun(a: string, s: string, seps: string)
    requires (forall c :: c in a ==> c in seps) && (s != "" ==> s[0] !in seps)
    ensures LTrim(a + s, seps) == s
  {
    if a == "" {
      assert a + s == s;
    } else {
      assert a[0] in a && (a + s)[1..] == a[1..] + s;
      LTrimRun(a[1..], s, seps);
    }
  }

  lemma {:induction false} RTrimRun(s: string, b: string, seps: string)
    requires (forall c :: c in b ==> c in seps) && (s != "" ==> s[|s| - 1] !in seps)
    ensures RTrim(s + b, seps) == s
  {
    if b == "" {
      assert s + b == s;
    } else {
      var n := |b| - 1;
      assert b[n] in b && (s + b)[|s + b| - 1] == b[n] && (s + b)[..|s + b| - 1] == s + b[..n];
      RTrimRun(s, b[..n], seps);
    }
  }

  /** Trimming takes off exactly the surrounding runs of separators. */
  lemma {:induction false} TrimRuns(a: string, s: string, b: string, seps: string)
    requires forall c :: c in a + b ==> c in seps
    requires Bare(s, seps)
    ensures Trim(a + s + b, seps) == s
  {
    assert forall c :: c in a ==> c in a + b;
    assert forall c :: c in b ==> c in a + b;
    if s == "" {
      RTrimRun("", a + b, seps);
      assert a + s + b == "" + (a + b);
    } else {
      assert (a + s)[|a + s| - 1] == s[|s| - 1];
      RTrimRun(a + s, b, seps);
      LTrimRun(a, s, seps);
    }
  }
}
