/** The simple regular expressions of gtest-all.cc: validator, backtracking matcher, and the
    language they are about.  Strings are C strings without their terminating zero. */
module SimpleRegex {

  // ---------------------------------------------------------------- characters

  predicate IsInSet(ch: char, set_: string) { ch in set_ }

  predicate IsAsciiDigit(ch: char) { '0' <= ch <= '9' }

  predicate IsAsciiPunct(ch: char) { IsInSet(ch, "^-!\"#$%&'()*+,./:;<=>?@[\\]_`{|}~") }

  predicate IsRepeat(ch: char) { IsInSet(ch, "?*+") }

  predicate IsAsciiWhiteSpace(ch: char) { IsInSet(ch, " \U{0C}\n\r\t\U{0B}") }

  predicate IsAsciiWordChar(ch: char) {
    'a' <= ch <= 'z' || 'A' <= ch <= 'Z' || '0' <= ch <= '9' || ch == '_'
  }

  predicate IsValidEscape(c: char) { IsAsciiPunct(c) || IsInSet(c, "dDfnrsStvwW") }

  predicate AtomMatchesChar(escaped: bool, p: char, ch: char) {
    if escaped then
      match p
      case 'd' => IsAsciiDigit(ch)
      case 'D' => !IsAsciiDigit(ch)
      case 'f' => ch == '\U{0C}'
      case 'n' => ch == '\n'
      case 'r' => ch == '\r'
      case 's' => IsAsciiWhiteSpace(ch)
      case 'S' => !IsAsciiWhiteSpace(ch)
      case 't' => ch == '\t'
      case 'v' => ch == '\U{0B}'
      case 'w' => IsAsciiWordChar(ch)
      case 'W' => !IsAsciiWordChar(ch)
      case _ => IsAsciiPunct(p) && p == ch
    else
      (p == '.' && ch != '\n') || p == ch
  }

  /** The decimal digits and the letters, by their codes in ASCII. */
  predicate IsDigit(ch: char) { 0x30 <= ch as int <= 0x39 }

  predicate IsLetter(ch: char) { 0x41 <= ch as int <= 0x5A || 0x61 <= ch as int <= 0x7A }

  /** The characters that an escape stands for, as documented. */
  lemma {:induction false} ClassesContain(ch: char)
    ensures AtomMatchesChar(true, 'd', ch) <==> IsDigit(ch)
    ensures AtomMatchesChar(true, 'D', ch) <==> !IsDigit(ch)
    ensures AtomMatchesChar(true, 'w', ch) <==> IsLetter(ch) || IsDigit(ch) || ch as int == 0x5F
    ensures AtomMatchesChar(true, 'W', ch) <==> !(IsLetter(ch) || IsDigit(ch) || ch as int == 0x5F)
  {
  }

  lemma {:induction false} BlanksContain(ch: char)
    ensures AtomMatchesChar(true, 's', ch) <==> ch == ' ' || 9 <= ch as int <= 13
    ensures AtomMatchesChar(true, 'S', ch) <==> ch != ' ' && !(9 <= ch as int <= 13)
    ensures AtomMatchesChar(true, 'f', ch) <==> ch as int == 12
    ensures AtomMatchesChar(true, 'n', ch) <==> ch as int == 10
    ensures AtomMatchesChar(true, 'r', ch) <==> ch as int == 13
    ensures AtomMatchesChar(true, 't', ch) <==> ch as int == 9
    ensures AtomMatchesChar(true, 'v', ch) <==> ch as int == 11
  {
  }

  /** Any other character can be escaped exactly when it is a punctuation mark, that is, printed
      ASCII and neither letter nor digit, and then stands for itself.  Plain characters stand for
      themselves, and a period for all but the end of a line. */
  lemma {:induction false} CharactersContain(c: char, ch: char)
    ensures IsAsciiPunct(c) <==> 0x21 <= c as int <= 0x7E && !IsLetter(c) && !IsDigit(c)
    ensures AtomMatchesChar(true, c, ch) && c !in "dDfnrsStvwW" <==> IsAsciiPunct(c) && ch == c
    ensures AtomMatchesChar(false, c, ch) <==> ch == c || (c == '.' && ch != '\n')
  {
    PunctIs(c);
  }

  lemma {:induction false} PunctIs(c: char)
    ensures IsAsciiPunct(c) <==>
            || 0x21 <= c as int <= 0x2F || 0x3A <= c as int <= 0x40
            || 0x5B <= c as int <= 0x60 || 0x7B <= c as int <= 0x7E
  {
  }

  // ---------------------------------------------------------------- syntax

  datatype Repeat = Once | ZeroOrOne | ZeroOrMore | OneOrMore

  /** An atom, plain or behind a backslash, with its repetition. */
  datatype Item = Item(escaped: bool, c: char, repeat: Repeat)

  datatype Regex = Regex(caret: bool, items: seq<Item>, dollar: bool)

  predicate WellFormedItem(item: Item) {
    if item.escaped then IsValidEscape(item.c) else !IsInSet(item.c, "\\^$?*+()[]{}|")
  }

  predicate WellFormed(items: seq<Item>) {
    forall k :: 0 <= k < |items| ==> WellFormedItem(items[k])
  }

  function PrintItem(item: Item): string {
    (if item.escaped then "\\" else "") + [item.c]
    + (match item.repeat
       case Once => ""
       case ZeroOrOne => "?"
       case ZeroOrMore => "*"
       case OneOrMore => "+")
  }

  function PrintTail(items: seq<Item>, dollar: bool): string {
    if items == [] then (if dollar then "$" else "") else PrintItem(items[0]) + PrintTail(items[1..], dollar)
  }

  function Print(r: Regex): string {
    (if r.caret then "^" else "") + PrintTail(r.items, r.dollar)
  }

  // ---------------------------------------------------------------- language

  /** The strings one atom with its repetition stands for. */
  ghost predicate ItemMatches(item: Item, s: string) {
    && (forall k :: 0 <= k < |s| ==> AtomMatchesChar(item.escaped, item.c, s[k]))
    && (match item.repeat
        case Once => |s| == 1
        case ZeroOrOne => |s| <= 1
        case ZeroOrMore => true
        case OneOrMore => |s| >= 1)
  }

  /** The strings a list of items stands for: a piece for each item. */
  ghost predicate InLanguage(items: seq<Item>, s: string) {
    if items == [] then s == ""
    else exists k :: 0 <= k <= |s| && ItemMatches(items[0], s[..k]) && InLanguage(items[1..], s[k..])
  }

  /** Some substring is in the language; '^' and '$' tie it to the ends. */
  ghost predicate MatchesSomewhere(r: Regex, s: string) {
    exists a, b :: 0 <= a <= b <= |s| && InLanguage(r.items, s[a..b]) && (r.caret ==> a == 0) && (r.dollar ==> b == |s|)
  }

  /** Some prefix is in the language. */
  ghost predicate MatchesHead(items: seq<Item>, dollar: bool, s: string) {
    exists b :: 0 <= b <= |s| && InLanguage(items, s[..b]) && (dollar ==> b == |s|)
  }

  lemma {:induction false} HeadOfNone(dollar: bool, s: string)
    ensures MatchesHead([], dollar, s) <==> (dollar ==> s == "")
  {
    if dollar ==> s == "" {
      assert s[..0] == "" && InLanguage([], s[..0]);
    }
  }

  /** Matching at the head, first item first. */
  lemma {:induction false} HeadOfMore(items: seq<Item>, dollar: bool, s: string)
    requires items != []
    ensures MatchesHead(items, dollar, s) <==>
            exists k :: 0 <= k <= |s| && ItemMatches(items[0], s[..k]) && MatchesHead(items[1..], dollar, s[k..])
  {
    if MatchesHead(items, dollar, s) {
      var b :| 0 <= b <= |s| && InLanguage(items, s[..b]) && (dollar ==> b == |s|);
      var k :| 0 <= k <= b && ItemMatches(items[0], s[..b][..k]) && InLanguage(items[1..], s[..b][k..]);
      assert s[..b][..k] == s[..k] && s[..b][k..] == s[k..][..b - k];
      assert MatchesHead(items[1..], dollar, s[k..]);
    }
    if k :| 0 <= k <= |s| && ItemMatches(items[0], s[..k]) && MatchesHead(items[1..], dollar, s[k..]) {
      var b :| 0 <= b <= |s[k..]| && InLanguage(items[1..], s[k..][..b]) && (dollar ==> b == |s[k..]|);
      assert s[..k + b][..k] == s[..k] && s[..k + b][k..] == s[k..][..b];
      assert InLanguage(items, s[..k + b]);
    }
  }

  lemma {:induction false} HeadOfOnce(items: seq<Item>, dollar: bool, s: string)
    requires items != [] && items[0].repeat == Once
    ensures MatchesHead(items, dollar, s) <==>
            s != "" && AtomMatchesChar(items[0].escaped, items[0].c, s[0]) && MatchesHead(items[1..], dollar, s[1..])
  {
    HeadOfMore(items, dollar, s);
    if s != "" && AtomMatchesChar(items[0].escaped, items[0].c, s[0]) && MatchesHead(items[1..], dollar, s[1..]) {
      assert ItemMatches(items[0], s[..1]);
    }
  }

  /** How a printed regex begins. */
  lemma {:induction false} TailShape(items: seq<Item>, dollar: bool)
    requires WellFormed(items)
    ensures
      var t := PrintTail(items, dollar);
      && (t != "" ==> !IsRepeat(t[0]) && t[0] != '^')
      && (t == "" <==> items == [] && !dollar)
      && (t != "" && t[0] == '$' ==> items == [] && t == "$")
      && (items == [] && dollar ==> t == "$")
      && (items != [] ==>
            var at := if items[0].escaped then t[1..] else t;
            && (items[0].escaped <==> t[0] == '\\') && |at| >= 1 && at[0] == items[0].c
            && (items[0].repeat == Once ==> at[1..] == PrintTail(items[1..], dollar) && !(|at| > 1 && IsRepeat(at[1])))
            && (items[0].repeat != Once ==>
                  |at| > 1 && IsRepeat(at[1]) && at[2..] == PrintTail(items[1..], dollar)
                  && items[0].repeat == match at[1] case '?' => ZeroOrOne case '*' => ZeroOrMore case _ => OneOrMore))
  {
    if items != [] {
      var t := PrintTail(items, dollar);
      var rest := PrintTail(items[1..], dollar);
      var at := if items[0].escaped then t[1..] else t;
      assert WellFormedItem(items[0]);
      assert forall k :: 0 <= k < |items[1..]| ==> WellFormedItem(items[1..][k]);
      if items[0].repeat == Once {
        assert at == [items[0].c] + rest;
        FirstOfTail(items[1..], dollar);
      } else {
        assert at[2..] == rest;
      }
    }
  }

  lemma {:induction false} FirstOfTail(items: seq<Item>, dollar: bool)
    requires WellFormed(items)
    ensures var t := PrintTail(items, dollar); t != "" ==> !IsRepeat(t[0]) && t[0] != '^'
  {
    if items != [] { assert WellFormedItem(items[0]); }
  }

  lemma {:induction false} NotBeyond(item: Item, str: string, i: nat)
    requires i <= |str| && (i == |str| || !AtomMatchesChar(item.escaped, item.c, str[i]))
    ensures forall k :: i < k <= |str| ==> !ItemMatches(item, str[..k])
  {
    forall k | i < k <= |str| ensures !ItemMatches(item, str[..k]) {
      assert str[..k][i] == str[i];
    }
  }

  // ---------------------------------------------------------------- the matcher

  const MAX_COUNT := 0xFFFF_FFFF_FFFF_FFFE  // static_cast<size_t>(-1) - 1

  /** Does a repeated atom followed by the rest of the regex match at the head? */
  method MatchRepetitionAndRegexAtHead(escaped: bool, c: char, repeat: char, regex: string, str: string,
                                       ghost items: seq<Item>, ghost dollar: bool)
    returns (b: bool)
    requires items != [] && WellFormed(items) && regex == PrintTail(items[1..], dollar)
    requires items[0].escaped == escaped && items[0].c == c && |str| <= MAX_COUNT
    requires items[0].repeat == match repeat case '?' => ZeroOrOne case '*' => ZeroOrMore case _ => OneOrMore
    requires IsRepeat(repeat)
    ensures b <==> MatchesHead(items, dollar, str)
    decreases |regex|, 1
  {
    var minCount := if repeat == '+' then 1 else 0;
    var maxCount := if repeat == '?' then 1 else MAX_COUNT;
    HeadOfMore(items, dollar, str);
    var i := 0;
    while i <= maxCount
      invariant 0 <= i <= maxCount + 1 && i <= |str|
      invariant forall k :: 0 <= k < i ==> AtomMatchesChar(escaped, c, str[k])
      invariant forall k :: minCount <= k < i ==> !MatchesHead(items[1..], dollar, str[k..])
    {
      if i >= minCount {
        var rest := MatchRegexAtHead(regex, str[i..], items[1..], dollar);
        if rest {
          assert ItemMatches(items[0], str[..i]);
          return true;
        }
      }
      if i == |str| || !AtomMatchesChar(escaped, c, str[i]) {
        NotBeyond(items[0], str, i);
        return false;
      }
      i := i + 1;
    }
    return false;
  }

  /** Does the regex match a prefix? */
  method MatchRegexAtHead(regex: string, str: string, ghost items: seq<Item>, ghost dollar: bool) returns (b: bool)
    requires WellFormed(items) && regex == PrintTail(items, dollar) && |str| <= MAX_COUNT
    ensures b <==> MatchesHead(items, dollar, str)
    decreases |regex|, 0
  {
    TailShape(items, dollar);
    HeadOfNone(dollar, str);
    if regex == "" {
      return true;
    }
    if regex[0] == '$' {
      return str == "";
    }
    var escaped := regex[0] == '\\';
    var at := if escaped then regex[1..] else regex;
    if |at| > 1 && IsRepeat(at[1]) {
      b := MatchRepetitionAndRegexAtHead(escaped, at[0], at[1], at[2..], str, items, dollar);
    } else {
      HeadOfOnce(items, dollar, str);
      if str != "" && AtomMatchesChar(escaped, at[0], str[0]) {
        b := MatchRegexAtHead(at[1..], str[1..], items[1..], dollar);
      } else {
        b := false;
      }
    }
  }

  lemma {:induction false} SomewhereIsHead(r: Regex, s: string)
    ensures MatchesSomewhere(r, s) <==>
            exists a :: 0 <= a <= |s| && (r.caret ==> a == 0) && MatchesHead(r.items, r.dollar, s[a..])
  {
    if MatchesSomewhere(r, s) {
      var a, b :| 0 <= a <= b <= |s| && InLanguage(r.items, s[a..b]) && (r.caret ==> a == 0) && (r.dollar ==> b == |s|);
      assert s[a..][..b - a] == s[a..b];
      assert MatchesHead(r.items, r.dollar, s[a..]);
    }
    if a :| 0 <= a <= |s| && (r.caret ==> a == 0) && MatchesHead(r.items, r.dollar, s[a..]) {
      var b :| 0 <= b <= |s[a..]| && InLanguage(r.items, s[a..][..b]) && (r.dollar ==> b == |s[a..]|);
      assert s[a..][..b] == s[a..a + b];
    }
  }

  /** Does the regex match any substring? */
  method MatchRegexAnywhere(regex: string, str: string, ghost r: Regex) returns (b: bool)
    requires WellFormed(r.items) && regex == Print(r) && |str| <= MAX_COUNT
    ensures b <==> MatchesSomewhere(r, str)
  {
    SomewhereIsHead(r, str);
    FirstOfTail(r.items, r.dollar);
    if regex != "" && regex[0] == '^' {
      b := MatchRegexAtHead(regex[1..], str, r.items, r.dollar);
      assert str[0..] == str;
      return;
    }
    var at := 0;
    while true
      invariant 0 <= at <= |str|
      invariant forall k :: 0 <= k < at ==> !MatchesHead(r.items, r.dollar, str[k..])
      decreases |str| - at
    {
      b := MatchRegexAtHead(regex, str[at..], r.items, r.dollar);
      if b { return; }
      if at == |str| { return; }
      at := at + 1;
    }
  }

  // ---------------------------------------------------------------- the validator

  /** The checks of ValidateRegex on the characters from place i on. */
  predicate ValidFrom(s: string, i: nat, prevRepeatable: bool)
    requires i <= |s|
    decreases |s| - i
  {
    if i == |s| then true
    else if s[i] == '\\' then
      i + 1 < |s| && IsValidEscape(s[i + 1]) && ValidFrom(s, i + 2, true)
    else
      && !(s[i] == '^' && i > 0)
      && !(s[i] == '$' && i + 1 < |s|)
      && !IsInSet(s[i], "()[]{}|")
      && !(IsRepeat(s[i]) && !prevRepeatable)
      && ValidFrom(s, i + 1, !IsInSet(s[i], "^$?*+"))
  }

  method ValidateRegex(regex: string) returns (isValid: bool)
    ensures isValid <==> ValidFrom(regex, 0, false)
    ensures isValid <==> exists r: Regex :: WellFormed(r.items) && Print(r) == regex
  {
    ValidIffPrinted(regex);
    isValid := true;
    var prevRepeatable := false;
    var i := 0;
    while i < |regex|
      invariant 0 <= i <= |regex|
      invariant isValid && ValidFrom(regex, i, prevRepeatable) <==> ValidFrom(regex, 0, false)
    {
      if regex[i] == '\\' {
        i := i + 1;
        if i == |regex| { return false; }
        if !IsValidEscape(regex[i]) { isValid := false; }
        prevRepeatable := true;
      } else {
        var ch := regex[i];
        if ch == '^' && i > 0 {
          isValid := false;
        } else if ch == '$' && i + 1 < |regex| {
          isValid := false;
        } else if IsInSet(ch, "()[]{}|") {
          isValid := false;
        } else if IsRepeat(ch) && !prevRepeatable {
          isValid := false;
        }
        prevRepeatable := !IsInSet(ch, "^$?*+");
      }
      i := i + 1;
    }
  }

  /** May an item, a final '$' or the end stand at place i? */
  predicate AtBoundary(s: string, i: nat, prevRepeatable: bool)
    requires i <= |s|
  {
    ValidFrom(s, i, prevRepeatable) && (i < |s| ==> !IsRepeat(s[i]) && (s[i] == '^' ==> i > 0))
  }

  lemma {:induction false} AfterAtom(s: string, i: nat, prevRepeatable: bool)
    requires i < |s| && AtBoundary(s, i, prevRepeatable) && s[i] != '$'
    ensures
      var at := if s[i] == '\\' then i + 1 else i;
      at < |s| && ValidFrom(s, at + 1, true)
  {
    assert ValidFrom(s, i, prevRepeatable);
    if s[i] != '\\' {
      assert s[i] != '^' && s[i] != '$' && !IsRepeat(s[i]);
      assert !IsInSet(s[i], "^$?*+");
    }
  }

  /** The item that stands at a place of a valid regex. */
  lemma {:induction false} ReadItem(s: string, i: nat, prevRepeatable: bool) returns (item: Item, next: nat)
    requires i < |s| && AtBoundary(s, i, prevRepeatable) && s[i] != '$'
    ensures WellFormedItem(item) && i < next <= |s|
    ensures s[i..next] == PrintItem(item)
    ensures AtBoundary(s, next, item.repeat == Once)
  {
    var escaped := s[i] == '\\';
    var at := if escaped then i + 1 else i;
    next := at + 1;
    AfterAtom(s, i, prevRepeatable);
    var atom := s[i..next];
    assert atom == (if escaped then "\\" else "") + [s[at]];
    if next == |s| || !IsRepeat(s[next]) {
      item := Item(escaped, s[at], Once);
      assert PrintItem(item) == atom + "";
    } else {
      var repeat := match s[next] case '?' => ZeroOrOne case '*' => ZeroOrMore case _ => OneOrMore;
      item := Item(escaped, s[at], repeat);
      assert PrintItem(item) == atom + [s[next]] == s[i..next + 1];
      next := next + 1;
    }
  }

  /** What a valid regex reads as from a place where an item may begin. */
  lemma {:induction false} ReadTail(s: string, i: nat, prevRepeatable: bool) returns (items: seq<Item>, dollar: bool)
    requires i <= |s| && AtBoundary(s, i, prevRepeatable)
    ensures WellFormed(items) && PrintTail(items, dollar) == s[i..]
    decreases |s| - i
  {
    if i == |s| { return [], false; }
    if s[i] == '$' {
      assert s[i..] == "$";
      return [], true;
    }
    var item, next := ReadItem(s, i, prevRepeatable);
    assert s[i..] == s[i..next] + s[next..];
    var rest;
    rest, dollar := ReadTail(s, next, item.repeat == Once);
    items := [item] + rest;
    assert items[1..] == rest;
  }

  lemma {:induction false} Parts(s: string, i: nat, p: string, rest: string)
    requires i <= |s| && s[i..] == p + rest
    ensures i + |p| <= |s| && s[i + |p|..] == rest
    ensures forall k :: 0 <= k < |p| ==> s[i + k] == p[k]
  {
    assert s[i..][|p|..] == s[i + |p|..];
    forall k | 0 <= k < |p| ensures s[i + k] == p[k] {
      assert s[i..][k] == p[k];
    }
  }

  /** A printed regex passes the checks. */
  lemma {:induction false} PrintedTailValid(s: string, i: nat, items: seq<Item>, dollar: bool, prevRepeatable: bool)
    requires i <= |s| && WellFormed(items) && s[i..] == PrintTail(items, dollar)
    ensures ValidFrom(s, i, prevRepeatable)
    decreases |items|
  {
    if items == [] {
      if dollar { assert s[i] == s[i..][0] && |s[i..]| == 1; }
    } else {
      var item, p := items[0], PrintItem(items[0]);
      var next := i + |p|;
      Parts(s, i, p, PrintTail(items[1..], dollar));
      assert WellFormedItem(item) && WellFormed(items[1..]);
      PrintedTailValid(s, next, items[1..], dollar, item.repeat == Once);
      PrintedItemValid(s, i, item, p, next, prevRepeatable);
    }
  }

  lemma {:induction false} PrintedItemValid(s: string, i: nat, item: Item, p: string, next: nat, prevRepeatable: bool)
    requires WellFormedItem(item) && p == PrintItem(item)
    requires next == i + |p| <= |s| && (forall k :: 0 <= k < |p| ==> s[i + k] == p[k])
    requires ValidFrom(s, next, item.repeat == Once)
    ensures ValidFrom(s, i, prevRepeatable)
  {
    var n := if item.escaped then 1 else 0;
    if item.repeat != Once { RepeatedValid(s, i, item, p, n); }
    AtomAt(s, i, item, p, n);
    AtomValid(s, i, item, i + n, prevRepeatable);
  }

  lemma {:induction false} AtomAt(s: string, i: nat, item: Item, p: string, n: nat)
    requires p == PrintItem(item) && n == if item.escaped then 1 else 0
    requires i + |p| <= |s| && (forall k :: 0 <= k < |p| ==> s[i + k] == p[k])
    ensures |p| == n + (if item.repeat == Once then 1 else 2)
    ensures s[i + n] == item.c && (item.escaped ==> s[i] == '\\')
  {
    ItemShape(item, p, n);
    assert s[i + 0] == p[0] && s[i + n] == p[n];
  }

  lemma {:induction false} RepeatedValid(s: string, i: nat, item: Item, p: string, n: nat)
    requires p == PrintItem(item) && item.repeat != Once && n == if item.escaped then 1 else 0
    requires i + |p| <= |s| && (forall k :: 0 <= k < |p| ==> s[i + k] == p[k]) && ValidFrom(s, i + |p|, false)
    ensures i + n + 1 <= |s| && ValidFrom(s, i + n + 1, true)
  {
    ItemShape(item, p, n);
    assert s[i + (n + 1)] == p[n + 1];
    RepeatValid(s, i + n + 1);
  }

  lemma {:induction false} ItemShape(item: Item, p: string, n: nat)
    requires p == PrintItem(item) && n == if item.escaped then 1 else 0
    ensures |p| == n + (if item.repeat == Once then 1 else 2) && p[n] == item.c && (item.escaped ==> p[0] == '\\')
    ensures item.repeat != Once ==> IsRepeat(p[n + 1])
  {
  }

  lemma {:induction false} RepeatValid(s: string, q: nat)
    requires q < |s| && IsRepeat(s[q]) && ValidFrom(s, q + 1, false)
    ensures ValidFrom(s, q, true)
  {
  }

  lemma {:induction false} AtomValid(s: string, i: nat, item: Item, at: nat, prevRepeatable: bool)
    requires WellFormedItem(item) && at == (if item.escaped then i + 1 else i) && at < |s| && s[at] == item.c
    requires (item.escaped ==> s[i] == '\\') && ValidFrom(s, at + 1, true)
    ensures ValidFrom(s, i, prevRepeatable)
  {
  }

  /** The validator accepts exactly the printed regular expressions. */
  lemma {:induction false} ValidIffPrinted(s: string)
    ensures ValidFrom(s, 0, false) <==> exists r: Regex :: WellFormed(r.items) && Print(r) == s
  {
    if ValidFrom(s, 0, false) {
      var r := ReadRegex(s);
    }
    if r: Regex :| WellFormed(r.items) && Print(r) == s {
      PrintedIsValid(r);
    }
  }

  lemma {:induction false} ReadRegex(s: string) returns (r: Regex)
    requires ValidFrom(s, 0, false)
    ensures WellFormed(r.items) && Print(r) == s
  {
    var start := if s != "" && s[0] == '^' then 1 else 0;
    var items, dollar := ReadTail(s, start, false);
    r := Regex(start == 1, items, dollar);
    assert s == s[..start] + s[start..];
  }

  lemma {:induction false} PrintedIsValid(r: Regex)
    requires WellFormed(r.items)
    ensures ValidFrom(Print(r), 0, false)
  {
    var s, start := Print(r), if r.caret then 1 else 0;
    assert s[start..] == PrintTail(r.items, r.dollar);
    PrintedTailValid(s, start, r.items, r.dollar, false);
  }

  // ---------------------------------------------------------------- full matches

  /** A final '$' that stands for itself. */
  predicate EndsInEscapedDollar(r: Regex) {
    !r.dollar && r.items != [] && r.items[|r.items| - 1] == Item(true, '$', Once)
  }

  /** The pattern Init builds for a full match: '^' and '$' unless they are there already. */
  function FullPatternOf(regex: string): string {
    (if regex != "" && regex[0] == '^' then "" else "^") + regex
    + (if regex == "" || regex[|regex| - 1] != '$' then "$" else "")
  }

  /** The regex that pattern is: an escaped dollar is taken for the anchor. */
  function FullRegex(r: Regex): Regex {
    Regex(true, r.items, !EndsInEscapedDollar(r))
  }

  lemma {:induction false} PrintTailDollar(items: seq<Item>)
    ensures PrintTail(items, true) == PrintTail(items, false) + "$"
  {
    if items != [] {
      PrintTailDollar(items[1..]);
      assert PrintItem(items[0]) + (PrintTail(items[1..], false) + "$")
          == PrintItem(items[0]) + PrintTail(items[1..], false) + "$";
    }
  }

  lemma {:induction false} LastOfTail(items: seq<Item>)
    requires WellFormed(items) && items != []
    ensures
      var t := PrintTail(items, false);
      t != "" && (t[|t| - 1] == '$' <==> items[|items| - 1] == Item(true, '$', Once))
  {
    assert WellFormedItem(items[0]);
    if |items| == 1 {
      assert PrintTail(items, false) == PrintItem(items[0]);
    } else {
      var rest := items[1..];
      assert rest[|rest| - 1] == items[|items| - 1];
      LastOfTail(rest);
    }
  }

  lemma {:induction false} FirstOfPrint(r: Regex)
    requires WellFormed(r.items)
    ensures Print(r) != "" && Print(r)[0] == '^' <==> r.caret
  {
    FirstOfTail(r.items, r.dollar);
  }

  lemma {:induction false} LastOfPrint(r: Regex)
    requires WellFormed(r.items)
    ensures Print(r) != "" && Print(r)[|Print(r)| - 1] == '$' <==> r.dollar || EndsInEscapedDollar(r)
  {
    var t := PrintTail(r.items, false);
    PrintTailDollar(r.items);
    if r.items != [] { LastOfTail(r.items); }
    assert r.dollar ==> PrintTail(r.items, true)[|t|] == '$';
  }

  lemma {:induction false} FullPatternParts(p: string, caret: bool, dollar: bool)
    requires p != "" && p[0] == '^' <==> caret
    requires p != "" && p[|p| - 1] == '$' <==> dollar
    ensures FullPatternOf(p) == (if caret then "" else "^") + p + (if dollar then "" else "$")
  {
  }

  lemma {:induction false} FullPatternPrinted(r: Regex)
    requires WellFormed(r.items)
    ensures FullPatternOf(Print(r)) == Print(FullRegex(r))
  {
    var t := PrintTail(r.items, r.dollar);
    var dollar := r.dollar || EndsInEscapedDollar(r);
    assert (if r.caret then "" else "^") + Print(r) == "^" + t;
    FirstOfPrint(r);
    LastOfPrint(r);
    FullPatternParts(Print(r), r.caret, dollar);
    PrintTailDollar(r.items);
    Tied(t, dollar);
  }

  lemma {:induction false} Tied(t: string, dollar: bool)
    ensures "^" + t + (if dollar then "" else "$") == "^" + (t + (if dollar then "" else "$"))
  {
  }

  /** Tied to both ends, a regex matches exactly the strings of its language. */
  lemma {:induction false} TiedIsWhole(items: seq<Item>, dollar: bool, s: string)
    ensures MatchesSomewhere(Regex(true, items, dollar), s) <==>
            if dollar then InLanguage(items, s) else MatchesHead(items, false, s)
  {
    SomewhereIsHead(Regex(true, items, dollar), s);
    assert s[0..] == s && s[..|s|] == s;
  }

  class RE {
    var pattern: string
    var fullPattern: string
    var isValid: bool
    ghost var read: Regex

    ghost predicate Valid()
      reads this
    {
      && (isValid <==> exists r: Regex :: WellFormed(r.items) && Print(r) == pattern)
      && (isValid ==> WellFormed(read.items) && Print(read) == pattern && fullPattern == Print(FullRegex(read)))
    }

    constructor Init(regex: string)
      ensures Valid() && pattern == regex
    {
      pattern := regex;
      fullPattern := "";
      isValid := false;
      new;
      isValid := ValidateRegex(regex);
      if isValid {
        ghost var r: Regex :| WellFormed(r.items) && Print(r) == regex;
        read := r;
        FullPatternPrinted(r);
        fullPattern := BuildFullPattern(regex);
      }
    }

    static method BuildFullPattern(regex: string) returns (buffer: string)
      ensures buffer == FullPatternOf(regex)
    {
      buffer := "";
      if regex == "" || regex[0] != '^' { buffer := buffer + "^"; }
      buffer := buffer + regex;
      if regex == "" || regex[|regex| - 1] != '$' { buffer := buffer + "$"; }
    }

    method PartialMatch(str: string) returns (b: bool)
      requires Valid() && |str| <= MAX_COUNT
      ensures b <==> isValid && MatchesSomewhere(read, str)
    {
      b := false;
      if isValid { b := MatchRegexAnywhere(pattern, str, read); }
    }

    /** The whole string is in the language, unless the regex ends in an escaped dollar: then
        a prefix of it is enough. */
    method FullMatch(str: string) returns (b: bool)
      requires Valid() && |str| <= MAX_COUNT
      ensures b <==> isValid && FullMatches(read, str)
      ensures isValid && !EndsInEscapedDollar(read) ==> (b <==> InLanguage(read.items, str))
    {
      b := false;
      if isValid { b := MatchRegexAnywhere(fullPattern, str, FullRegex(read)); }
      TiedIsWhole(read.items, !EndsInEscapedDollar(read), str);
    }
  }

  ghost predicate FullMatches(r: Regex, str: string) {
    MatchesSomewhere(FullRegex(r), str)
  }

  /** A character that an atom matches. */
  function Sample(item: Item): char {
    if !item.escaped then item.c
    else
      match item.c
      case 'd' => '0'
      case 'f' => '\U{0C}'
      case 'n' => '\n'
      case 'r' => '\r'
      case 's' => ' '
      case 't' => '\t'
      case 'v' => '\U{0B}'
      case 'W' => ' '
      case 'D' | 'S' | 'w' => 'a'
      case _ => item.c
  }

  /** Every language has a string. */
  function SampleOf(items: seq<Item>): (s: string)
  {
    if items == [] then "" else [Sample(items[0])] + SampleOf(items[1..])
  }

  lemma {:induction false} SampleInLanguage(items: seq<Item>)
    requires WellFormed(items)
    ensures InLanguage(items, SampleOf(items))
  {
    if items != [] {
      var s := SampleOf(items);
      assert WellFormedItem(items[0]);
      SampleInLanguage(items[1..]);
      assert s[..1] == [Sample(items[0])] && s[1..] == SampleOf(items[1..]);
      assert AtomMatchesChar(items[0].escaped, items[0].c, Sample(items[0]));
      assert ItemMatches(items[0], s[..1]);
    }
  }

  /** A language whose last item is an escaped dollar holds only strings that end in one. */
  lemma {:induction false} EndsInDollar(items: seq<Item>, s: string)
    requires items != [] && items[|items| - 1] == Item(true, '$', Once) && InLanguage(items, s)
    ensures s != "" && s[|s| - 1] == '$'
  {
    var k :| 0 <= k <= |s| && ItemMatches(items[0], s[..k]) && InLanguage(items[1..], s[k..]);
    if |items| == 1 {
      assert s[k..] == "" && s[..k] == s;
    } else {
      EndsInDollar(items[1..], s[k..]);
      assert s[k..][|s| - k - 1] == s[|s| - 1];
    }
  }

  /** A full match is a match of the whole string, for every string, exactly when the regex
      does not end in an escaped dollar. */
  lemma {:induction false} FullMatchIff(r: Regex)
    requires WellFormed(r.items)
    ensures (forall s :: FullMatches(r, s) <==> InLanguage(r.items, s)) <==> !EndsInEscapedDollar(r)
  {
    forall s ensures FullMatches(r, s) <==>
                     if EndsInEscapedDollar(r) then MatchesHead(r.items, false, s) else InLanguage(r.items, s)
    {
      TiedIsWhole(r.items, !EndsInEscapedDollar(r), s);
    }
    if EndsInEscapedDollar(r) {
      var w := SampleOf(r.items);
      var s := w + "x";
      SampleInLanguage(r.items);
      assert s[..|w|] == w;
      assert MatchesHead(r.items, false, s);
      if InLanguage(r.items, s) { EndsInDollar(r.items, s); }
      assert FullMatches(r, s) && !InLanguage(r.items, s);
    }
  }
}
