/** The text of a unified diff in gtest-all.cc, and reading it back. */
module DiffText {
  import opened Numbers
  import opened Options

  datatype Line = Line(edit: char, text: string)

  /** One side of a header, `start,length`; omitted when that side has no edits. */
  datatype Side = Omitted | Side(start: nat, length: nat)

  datatype PrintedHunk = PrintedHunk(left: Side, right: Side, body: seq<Line>)

  // ---------------------------------------------------------------- printing

  /** What is printed of a C string: it stops at a NUL. */
  function UpToNul(s: string): string {
    if s == "" || s[0] == '\0' then "" else [s[0]] + UpToNul(s[1..])
  }

  function SideText(sign: char, side: Side): string {
    if side.Omitted? then "" else [sign] + Digits(side.start) + "," + Digits(side.length)
  }

  function HeaderText(left: Side, right: Side): string {
    "@@ " + SideText('-', left) + (if left.Side? && right.Side? then " " else "") + SideText('+', right) + " @@\n"
  }

  function LineText(l: Line): string {
    [l.edit] + UpToNul(l.text) + "\n"
  }

  function BodyText(body: seq<Line>): string {
    if body == [] then "" else LineText(body[0]) + BodyText(body[1..])
  }

  function HunkText(h: PrintedHunk): string {
    HeaderText(h.left, h.right) + BodyText(h.body)
  }

  function TextOf(hunks: seq<PrintedHunk>): string {
    if hunks == [] then "" else HunkText(hunks[0]) + TextOf(hunks[1..])
  }

  // ---------------------------------------------------------------- reading

  /** The first position of c, or the length. */
  function Find(s: string, c: char): (k: nat)
    ensures k <= |s| && c !in s[..k] && (k < |s| ==> s[k] == c)
  {
    if s == "" || s[0] == c then 0
    else
      var k := Find(s[1..], c);
      assert s[..k + 1] == [s[0]] + s[1..][..k];
      k + 1
  }

  /** A side of a header with this sign, if there is one, and what follows its space. */
  function ReadSide(s: string, sign: char): Option<(Side, string)> {
    if s == "" || s[0] != sign then Some((Omitted, s))
    else
      var comma := Find(s, ',');
      if comma == |s| || comma == 0 then None
      else
        var rest := s[comma + 1..];
        var space := Find(rest, ' ');
        if space == |rest| || Value(s[1..comma]).None? || Value(rest[..space]).None? then None
        else Some((Side(Value(s[1..comma]).value, Value(rest[..space]).value), rest[space + 1..]))
  }

  /** The header of a hunk and what follows it. */
  function ReadHeader(s: string): Option<(Side, Side, string)> {
    if !("@@ " <= s) then None
    else
      var left := ReadSide(s[3..], '-');
      if left.None? then None
      else
        var right := ReadSide(left.value.1, '+');
        if right.None? || !("@@\n" <= right.value.1) then None
        else Some((left.value.0, right.value.0, right.value.1[3..]))
  }

  predicate IsEdit(c: char) {
    c == ' ' || c == '-' || c == '+'
  }

  /** The lines of a hunk, up to one that is none, and what follows them. */
  function ReadBody(s: string): (r: (seq<Line>, string))
    ensures |r.1| <= |s|
    decreases |s|
  {
    if s == "" || !IsEdit(s[0]) || Find(s[1..], '\n') == |s| - 1 then ([], s)
    else
      var end := Find(s[1..], '\n');
      var more := ReadBody(s[end + 2..]);
      ([Line(s[0], s[1..][..end])] + more.0, more.1)
  }

  function ReadDiff(s: string): Option<seq<PrintedHunk>>
    decreases |s|
  {
    if s == "" then Some([])
    else
      var header := ReadHeader(s);
      if header.None? then None
      else
        var body := ReadBody(header.value.2);
        ReadHeaderShrinks(s);
        var more := ReadDiff(body.1);
        if more.None? then None else Some([PrintedHunk(header.value.0, header.value.1, body.0)] + more.value)
  }

  lemma {:induction false} ReadHeaderShrinks(s: string)
    requires ReadHeader(s).Some?
    ensures |ReadHeader(s).value.2| < |s|
  {
  }

  // ---------------------------------------------------------------- what is printed is read

  /** A line that can be printed on one line. */
  predicate OneLine(text: string) {
    '\n' !in text && '\0' !in text
  }

  predicate Printable(body: seq<Line>) {
    forall l :: l in body ==> IsEdit(l.edit) && OneLine(l.text)
  }

  lemma {:induction false} FindAfter(a: string, c: char, b: string)
    requires c !in a
    ensures Find(a + [c] + b, c) == |a|
  {
    if a != "" {
      assert (a + [c] + b)[1..] == a[1..] + [c] + b;
      assert a[0] in a;
      FindAfter(a[1..], c, b);
    }
  }

  lemma {:induction false} NoNul(s: string)
    requires '\0' !in s
    ensures UpToNul(s) == s
  {
    if s != "" {
      NoNul(s[1..]);
      assert s == [s[0]] + s[1..];
    }
  }

  lemma {:induction false} NumberReads(n: nat, c: char, rest: string)
    requires !('0' <= c <= '9')
    ensures var s := Digits(n) + [c] + rest; var k := Find(s, c);
      && k == |Digits(n)| && k < |s| && s[..k] == Digits(n) && s[k + 1..] == rest && Value(s[..k]) == Some(n)
  {
    DigitsValue(n);
    FindAfter(Digits(n), c, rest);
  }

  lemma {:induction false} SideReads(sign: char, side: Side, rest: string)
    requires side.Side? && sign != ','
    ensures ReadSide(SideText(sign, side) + " " + rest, sign) == Some((side, rest))
  {
    var tail := Digits(side.length) + [' '] + rest;
    var numbers := Digits(side.start) + [','] + tail;
    var s := [sign] + numbers;
    SideParts(sign, side, rest);
    NumberReads(side.start, ',', tail);
    NumberReads(side.length, ' ', rest);
    assert s[1..] == numbers;
    var comma := |Digits(side.start)| + 1;
    assert Find(s, ',') == comma;
    assert s[1..comma] == Digits(side.start) && s[comma + 1..] == tail;
  }

  lemma {:induction false} SideParts(sign: char, side: Side, rest: string)
    requires side.Side?
    ensures SideText(sign, side) + " " + rest
         == [sign] + (Digits(side.start) + [','] + (Digits(side.length) + [' '] + rest))
  {
  }

  /** A header names its sides, if it has one. */
  lemma {:induction false} HeaderReads(left: Side, right: Side, rest: string)
    requires left.Side? || right.Side?
    ensures ReadHeader(HeaderText(left, right) + rest) == Some((left, right, rest))
  {
    var s := HeaderText(left, right) + rest;
    var end := "@@\n" + rest;
    var second := if right.Side? then SideText('+', right) + " " + end else end;
    var first := if left.Side? then SideText('-', left) + " " + second else second;
    HeaderParts(left, right, rest, first, second, end);
    assert s[3..] == first;
    if left.Side? { SideReads('-', left, second); }
    if right.Side? { SideReads('+', right, end); }
    assert end[3..] == rest;
  }

  lemma {:induction false} BothSides(l: string, r: string, rest: string)
    ensures "@@ " + l + " " + r + " @@\n" + rest == "@@ " + (l + " " + (r + " " + ("@@\n" + rest)))
  {
  }

  lemma {:induction false} OneSide(l: string, r: string, side: string, rest: string)
    requires side == l + "" + r
    ensures "@@ " + l + "" + r + " @@\n" + rest == "@@ " + (side + " " + ("@@\n" + rest))
  {
  }

  lemma {:induction false} HeaderParts(left: Side, right: Side, rest: string, first: string, second: string,
                                       end: string)
    requires left.Side? || right.Side?
    requires end == "@@\n" + rest
    requires second == if right.Side? then SideText('+', right) + " " + end else end
    requires first == if left.Side? then SideText('-', left) + " " + second else second
    ensures HeaderText(left, right) + rest == "@@ " + first
    ensures first != "" && (left.Omitted? ==> first[0] != '-') && (right.Omitted? ==> second[0] != '+')
  {
    var l, r := SideText('-', left), SideText('+', right);
    if left.Side? && right.Side? {
      BothSides(l, r, rest);
    } else {
      assert l + "" + r == (if left.Side? then l else r);
      OneSide(l, r, if left.Side? then l else r, rest);
    }
  }

  lemma {:induction false} LineReads(l: Line, more: string)
    requires IsEdit(l.edit) && OneLine(l.text)
    ensures var (lines, rest) := ReadBody(more); ReadBody(LineText(l) + more) == ([l] + lines, rest)
  {
    var s := LineText(l) + more;
    NoNul(l.text);
    LineParts(l.edit, l.text, more);
    FindAfter(l.text, '\n', more);
  }

  lemma {:induction false} LineParts(edit: char, text: string, more: string)
    ensures var s := [edit] + text + "\n" + more;
      && s[0] == edit && s[1..] == text + ['\n'] + more && s[1..][..|text|] == text && s[|text| + 2..] == more
  {
  }

  lemma {:induction false} BodyStep(body: seq<Line>, rest: string)
    requires body != [] && IsEdit(body[0].edit) && OneLine(body[0].text)
    requires ReadBody(BodyText(body[1..]) + rest) == (body[1..], rest)
    ensures ReadBody(BodyText(body) + rest) == (body, rest)
  {
    LineReads(body[0], BodyText(body[1..]) + rest);
    Regrouped(LineText(body[0]), BodyText(body[1..]), rest);
    assert [body[0]] + body[1..] == body;
  }

  lemma {:induction false} BodyReads(body: seq<Line>, rest: string)
    requires Printable(body) && (rest == "" || rest[0] == '@')
    ensures ReadBody(BodyText(body) + rest) == (body, rest)
  {
    if body == [] {
      assert BodyText(body) + rest == rest;
    } else {
      assert body[0] in body;
      assert forall m :: m in body[1..] ==> m in body;
      BodyReads(body[1..], rest);
      BodyStep(body, rest);
    }
  }

  lemma {:induction false} Regrouped(a: string, b: string, c: string)
    ensures a + b + c == a + (b + c)
  {
  }

  /** A hunk as CreateUnifiedDiff prints them: its lines are marked, and a side has edits. */
  predicate WellMarked(h: PrintedHunk) {
    (forall l :: l in h.body ==> IsEdit(l.edit)) && (h.left.Side? || h.right.Side?)
  }

  /** Its lines can be printed on one line each. */
  predicate OneLined(h: PrintedHunk) {
    forall l :: l in h.body ==> OneLine(l.text)
  }

  lemma {:induction false} StartsWithHunk(hunks: seq<PrintedHunk>)
    ensures hunks != [] ==> TextOf(hunks) != "" && TextOf(hunks)[0] == '@'
    ensures hunks == [] ==> TextOf(hunks) == ""
  {
  }

  lemma {:induction false} HunkReads(h: PrintedHunk, rest: string)
    requires WellMarked(h) && OneLined(h) && (rest == "" || rest[0] == '@')
    ensures ReadDiff(HunkText(h) + rest) == if ReadDiff(rest).None? then None else Some([h] + ReadDiff(rest).value)
  {
    Regrouped(HeaderText(h.left, h.right), BodyText(h.body), rest);
    HeaderReads(h.left, h.right, BodyText(h.body) + rest);
    BodyReads(h.body, rest);
  }

  lemma {:induction false} HunkStep(hunks: seq<PrintedHunk>, rest: string)
    requires hunks != [] && WellMarked(hunks[0]) && OneLined(hunks[0]) && rest == TextOf(hunks[1..])
    requires ReadDiff(rest) == Some(hunks[1..])
    ensures ReadDiff(TextOf(hunks)) == Some(hunks)
  {
    StartsWithHunk(hunks[1..]);
    HunkReads(hunks[0], rest);
    assert [hunks[0]] + hunks[1..] == hunks;
  }

  lemma {:induction false} PlainReads(hunks: seq<PrintedHunk>)
    requires forall h :: h in hunks ==> WellMarked(h) && OneLined(h)
    ensures ReadDiff(TextOf(hunks)) == Some(hunks)
  {
    if hunks != [] {
      assert hunks[0] in hunks;
      assert forall g :: g in hunks[1..] ==> g in hunks;
      PlainReads(hunks[1..]);
      HunkStep(hunks, TextOf(hunks[1..]));
    }
  }

  // ---------------------------------------------------------------- nothing else is

  lemma {:induction false} UpToNulHasNone(s: string)
    ensures '\0' !in UpToNul(s)
  {
    if s != "" { UpToNulHasNone(s[1..]); }
  }

  lemma {:induction false} SideHasNoNul(sign: char, side: Side)
    requires sign != '\0'
    ensures '\0' !in SideText(sign, side)
  {
    if side.Side? {
      DigitsValue(side.start);
      DigitsValue(side.length);
    }
  }

  lemma {:induction false} BodyHasNoNul(body: seq<Line>)
    requires forall l :: l in body ==> IsEdit(l.edit)
    ensures '\0' !in BodyText(body)
  {
    if body != [] {
      assert body[0] in body;
      UpToNulHasNone(body[0].text);
      assert forall l :: l in body[1..] ==> l in body;
      BodyHasNoNul(body[1..]);
    }
  }

  /** Nothing of a NUL is printed. */
  lemma {:induction false} TextHasNoNul(hunks: seq<PrintedHunk>)
    requires forall h :: h in hunks ==> WellMarked(h)
    ensures '\0' !in TextOf(hunks)
  {
    if hunks != [] {
      var h := hunks[0];
      assert h in hunks;
      SideHasNoNul('-', h.left);
      SideHasNoNul('+', h.right);
      BodyHasNoNul(h.body);
      assert forall g :: g in hunks[1..] ==> g in hunks;
      TextHasNoNul(hunks[1..]);
    }
  }

  predicate OneLines(lines: seq<Line>) {
    forall l :: l in lines ==> OneLine(l.text)
  }

  /** The reader ends a line at its line feed. */
  lemma {:induction false} BodyOneLined(s: string)
    requires '\0' !in s
    ensures OneLines(ReadBody(s).0) && '\0' !in ReadBody(s).1
    decreases |s|
  {
    if s != "" && IsEdit(s[0]) && Find(s[1..], '\n') != |s| - 1 {
      BodyOneLined(s[Find(s[1..], '\n') + 2..]);
    }
  }

  lemma {:induction false} SideLeavesNoNul(s: string, sign: char)
    requires '\0' !in s && ReadSide(s, sign).Some?
    ensures '\0' !in ReadSide(s, sign).value.1
  {
  }

  lemma {:induction false} HeaderLeavesNoNul(s: string)
    requires '\0' !in s && ReadHeader(s).Some?
    ensures '\0' !in ReadHeader(s).value.2
  {
    SideLeavesNoNul(s[3..], '-');
    SideLeavesNoNul(ReadSide(s[3..], '-').value.1, '+');
  }

  lemma {:induction false} ReadOneLined(s: string)
    requires '\0' !in s && ReadDiff(s).Some?
    ensures forall h :: h in ReadDiff(s).value ==> OneLined(h)
    decreases |s|
  {
    if s != "" {
      var rest := ReadHeader(s).value.2;
      ReadHeaderShrinks(s);
      HeaderLeavesNoNul(s);
      BodyOneLined(rest);
      ReadOneLined(ReadBody(rest).1);
    }
  }

  /** The text of a diff is read as the hunks it was printed from exactly when none of their
      lines has a NUL or a line feed. */
  lemma {:induction false} DiffReads(hunks: seq<PrintedHunk>)
    requires forall h :: h in hunks ==> WellMarked(h)
    ensures ReadDiff(TextOf(hunks)) == Some(hunks) <==> forall h :: h in hunks ==> OneLined(h)
  {
    if forall h :: h in hunks ==> OneLined(h) {
      PlainReads(hunks);
    } else if ReadDiff(TextOf(hunks)) == Some(hunks) {
      TextHasNoNul(hunks);
      ReadOneLined(TextOf(hunks));
    }
  }

  /** A line with a line feed is read as two. */
  lemma {:induction false} Misread()
    ensures
      var printed := PrintedHunk(Omitted, Side(1, 1), [Line('+', "a\n+b")]);
      var read := PrintedHunk(Omitted, Side(1, 1), [Line('+', "a"), Line('+', "b")]);
      WellMarked(printed) && ReadDiff(TextOf([printed])) == Some([read])
  {
    var one, two := [Line('+', "a\n+b")], [Line('+', "a"), Line('+', "b")];
    SameBody(one, two);
    var printed, read := PrintedHunk(Omitted, Side(1, 1), one), PrintedHunk(Omitted, Side(1, 1), two);
    assert TextOf([printed]) == HunkText(printed) + TextOf([printed][1..]);
    assert TextOf([read]) == HunkText(read) + TextOf([read][1..]);
    PlainReads([read]);
  }

  lemma {:induction false} SameBody(one: seq<Line>, two: seq<Line>)
    requires one == [Line('+', "a\n+b")] && two == [Line('+', "a"), Line('+', "b")]
    ensures BodyText(one) == BodyText(two)
  {
    NoNul("a\n+b");
    NoNul("a");
    NoNul("b");
    assert one[1..] == [] && two[1..] == [two[1]] && two[1..][1..] == [];
    assert BodyText(one) == LineText(one[0]) + "";
    assert BodyText(two) == LineText(two[0]) + (LineText(two[1]) + "");
  }
}
