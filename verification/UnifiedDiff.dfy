/** The unified diff of gtest-all.cc: hunks, their grouping, and what a reader of the diff can
    rebuild from it. */
module UnifiedDiff {
  import opened DiffText
  import opened EditScript
  import opened Numbers
  import opened Options

  /** The lines of one file in a hunk: the unchanged ones and those marked `mark`. */
  function SideOf(body: seq<Line>, mark: char): seq<string> {
    if body == [] then []
    else (if body[0].edit == ' ' || body[0].edit == mark then [body[0].text] else []) + SideOf(body[1..], mark)
  }

  function Marked(body: seq<Line>, mark: char): nat {
    if body == [] then 0 else (if body[0].edit == mark then 1 else 0) + Marked(body[1..], mark)
  }

  lemma {:induction false} SideConcat(a: seq<Line>, b: seq<Line>, mark: char)
    ensures SideOf(a + b, mark) == SideOf(a, mark) + SideOf(b, mark)
  {
    if a == [] {
      assert a + b == b;
    } else {
      assert (a + b)[0] == a[0] && (a + b)[1..] == a[1..] + b;
      SideConcat(a[1..], b, mark);
    }
  }

  lemma {:induction false} MarkedConcat(a: seq<Line>, b: seq<Line>, mark: char)
    ensures Marked(a + b, mark) == Marked(a, mark) + Marked(b, mark)
  {
    if a == [] {
      assert a + b == b;
    } else {
      assert (a + b)[0] == a[0] && (a + b)[1..] == a[1..] + b;
      MarkedConcat(a[1..], b, mark);
    }
  }

  lemma {:induction false} SideOfOne(l: Line, mark: char)
    ensures SideOf([l], mark) == if l.edit == ' ' || l.edit == mark then [l.text] else []
    ensures Marked([l], mark) == if l.edit == mark then 1 else 0
  {
    assert [l][1..] == [];
  }

  lemma {:induction false} SideOfOther(body: seq<Line>, mark: char)
    requires forall l :: l in body ==> l.edit != ' ' && l.edit != mark
    ensures SideOf(body, mark) == [] && Marked(body, mark) == 0
  {
    if body != [] {
      assert body[0] in body;
      assert forall l :: l in body[1..] ==> l in body;
      SideOfOther(body[1..], mark);
    }
  }

  /** The effect of one more line, put before lines that `mark` does not count. */
  lemma {:induction false} Inserted(pre: seq<Line>, l: Line, post: seq<Line>, mark: char)
    requires l.edit == ' ' || l.edit == mark ==> forall m :: m in post ==> m.edit != ' ' && m.edit != mark
    ensures SideOf(pre + [l] + post, mark) ==
            SideOf(pre + post, mark) + (if l.edit == ' ' || l.edit == mark then [l.text] else [])
    ensures Marked(pre + [l] + post, mark) == Marked(pre + post, mark) + (if l.edit == mark then 1 else 0)
  {
    SideConcat(pre + [l], post, mark);
    SideConcat(pre, [l], mark);
    SideConcat(pre, post, mark);
    MarkedConcat(pre + [l], post, mark);
    MarkedConcat(pre, [l], mark);
    MarkedConcat(pre, post, mark);
    SideOfOne(l, mark);
    if l.edit == ' ' || l.edit == mark { SideOfOther(post, mark); }
  }

  /** Lines added never come directly before lines removed. */
  ghost predicate Grouped(body: seq<Line>) {
    forall i, j :: 0 <= i < j < |body| && j == i + 1 && body[i].edit == '+' ==> body[j].edit != '-'
  }

  lemma {:induction false} InsertedSides(pre: seq<Line>, l: Line, post: seq<Line>, adds: nat, removes: nat, common: nat)
    requires l.edit == ' ' ==> post == []
    requires l.edit == '-' ==> forall m :: m in post ==> m.edit == '+'
    requires l.edit == '+' ==> post == []
    ensures SideOf(pre + [l] + post, '-')
            == SideOf(pre + post, '-') + (if l.edit == ' ' || l.edit == '-' then [l.text] else [])
    ensures SideOf(pre + [l] + post, '+')
            == SideOf(pre + post, '+') + (if l.edit == ' ' || l.edit == '+' then [l.text] else [])
    ensures Counted(pre + post, adds, removes, common) ==>
              Counted(pre + [l] + post,
                      adds + (if l.edit == '+' then 1 else 0),
                      removes + (if l.edit == '-' then 1 else 0),
                      common + (if l.edit == ' ' then 1 else 0))
  {
    Inserted(pre, l, post, '-');
    Inserted(pre, l, post, '+');
    Inserted(pre, l, post, ' ');
  }

  lemma {:induction false} GroupedFlush(h: seq<Line>, r: seq<Line>, a: seq<Line>, l: Line)
    requires Grouped(h) && (h != [] ==> h[|h| - 1].edit == ' ') && l.edit == ' '
    requires (forall m :: m in r ==> m.edit == '-') && (forall m :: m in a ==> m.edit == '+')
    ensures Grouped(h + r + a) && Grouped(h + r + a + [l])
  {
  }

  /** One more line, on the sides it belongs to. */
  predicate Grew(before: seq<Line>, after: seq<Line>, edit: char, line: string) {
    && SideOf(after, '-') == SideOf(before, '-') + (if edit == '+' then [] else [line])
    && SideOf(after, '+') == SideOf(before, '+') + (if edit == '-' then [] else [line])
  }

  /** The numbers of lines of each kind. */
  predicate Counted(body: seq<Line>, adds: nat, removes: nat, common: nat) {
    && adds == Marked(body, '+') && removes == Marked(body, '-') && common == Marked(body, ' ')
    && |SideOf(body, '-')| == removes + common
    && |SideOf(body, '+')| == adds + common
  }

  class Hunk {
    var leftStart: nat
    var rightStart: int  // of a hunk that is dropped, the original's unsigned count can wrap
    var adds: nat
    var removes: nat
    var common: nat
    var hunk: seq<Line>
    var hunkAdds: seq<Line>
    var hunkRemoves: seq<Line>

    /** The lines in printing order. */
    function Body(): seq<Line>
      reads this
    {
      hunk + hunkRemoves + hunkAdds
    }

    ghost predicate Valid()
      reads this
    {
      && (forall l :: l in hunkAdds ==> l.edit == '+')
      && (forall l :: l in hunkRemoves ==> l.edit == '-')
      && (forall l :: l in hunk ==> IsEdit(l.edit))
      && Grouped(hunk) && (hunk != [] ==> hunk[|hunk| - 1].edit == ' ')
      && Counted(Body(), adds, removes, common)
    }

    constructor (leftStart: nat, rightStart: int)
      ensures Valid() && Body() == []
      ensures this.leftStart == leftStart && this.rightStart == rightStart
    {
      this.leftStart, this.rightStart := leftStart, rightStart;
      adds, removes, common := 0, 0, 0;
      hunk, hunkAdds, hunkRemoves := [], [], [];
    }

    method FlushEdits()
      modifies this`hunk, this`hunkAdds, this`hunkRemoves
      ensures hunk == old(Body()) && hunkAdds == [] && hunkRemoves == []
    {
      hunk, hunkRemoves := hunk + hunkRemoves, [];
      hunk, hunkAdds := hunk + hunkAdds, [];
    }

    method PushCommon(line: string)
      requires Valid()
      modifies this`common, this`hunk, this`hunkAdds, this`hunkRemoves
      ensures Valid() && Grew(old(Body()), Body(), ' ', line)
    {
      ghost var before, l := Body(), Line(' ', line);
      InsertedSides(before, l, [], adds, removes, common);
      GroupedFlush(hunk, hunkRemoves, hunkAdds, l);
      common := common + 1;
      FlushEdits();
      hunk := hunk + [Line(' ', line)];
      assert Body() == before + [l] + [] && before == before + [];
    }

    method PushRemoved(line: string)
      requires Valid()
      modifies this`removes, this`hunkRemoves
      ensures Valid() && removes == old(removes) + 1 && Grew(old(Body()), Body(), '-', line)
    {
      ghost var kept, a, l := hunk + hunkRemoves, hunkAdds, Line('-', line);
      InsertedSides(kept, l, a, adds, removes, common);
      removes := removes + 1;
      hunkRemoves := hunkRemoves + [Line('-', line)];
      assert Body() == kept + [l] + a;
    }

    method PushAdded(line: string)
      requires Valid()
      modifies this`adds, this`hunkAdds
      ensures Valid() && adds == old(adds) + 1 && Grew(old(Body()), Body(), '+', line)
    {
      ghost var before, l := Body(), Line('+', line);
      InsertedSides(before, l, [], adds, removes, common);
      adds := adds + 1;
      hunkAdds := hunkAdds + [Line('+', line)];
      assert Body() == before + [l] + [] && before == before + [];
    }

    method PushLine(edit: char, line: string)
      requires Valid() && (edit == ' ' || edit == '-' || edit == '+')
      modifies this`adds, this`removes, this`common, this`hunk, this`hunkAdds, this`hunkRemoves
      ensures Valid()
      ensures SideOf(Body(), '-') == SideOf(old(Body()), '-') + (if edit == '+' then [] else [line])
      ensures SideOf(Body(), '+') == SideOf(old(Body()), '+') + (if edit == '-' then [] else [line])
      ensures adds == old(adds) + (if edit == '+' then 1 else 0)
      ensures removes == old(removes) + (if edit == '-' then 1 else 0)
    {
      if edit == ' ' {
        PushCommon(line);
      } else if edit == '-' {
        PushRemoved(line);
      } else {
        PushAdded(line);
      }
    }

    /** The sides that the header names. */
    function LeftSide(): Side
      reads this
    {
      if removes > 0 then Side(leftStart, removes + common) else Omitted
    }

    function RightSide(): Side
      requires rightStart >= 0
      reads this
    {
      if adds > 0 then Side(rightStart, adds + common) else Omitted
    }

    method PrintHeader() returns (ss: string)
      requires rightStart >= 0
      ensures ss == HeaderText(LeftSide(), RightSide())
    {
      var left, right := "", "";
      if removes > 0 {
        left := "-" + Digits(leftStart) + "," + Digits(removes + common);
      }
      if adds > 0 {
        right := "+" + Digits(rightStart) + "," + Digits(adds + common);
      }
      ss := "@@ " + left + (if removes > 0 && adds > 0 then " " else "") + right + " @@\n";
    }

    method PrintTo() returns (os: string, ghost printed: PrintedHunk)
      requires Valid() && rightStart >= 0
      modifies this`hunk, this`hunkAdds, this`hunkRemoves
      ensures os == HunkText(printed)
      ensures printed == PrintedHunk(
        if removes > 0 then Side(leftStart, |SideOf(old(Body()), '-')|) else Omitted,
        if adds > 0 then Side(rightStart, |SideOf(old(Body()), '+')|) else Omitted,
        old(Body()))
      ensures Grouped(printed.body) && AllEdits(printed.body)
    {
      ghost var h, r, a := hunk, hunkRemoves, hunkAdds;
      GroupedFlush(h, r, a, Line(' ', ""));
      printed := PrintedHunk(LeftSide(), RightSide(), Body());
      var header := PrintHeader();
      FlushEdits();
      os := PrintLines(header, hunk);
    }
  }

  predicate AllEdits(body: seq<Line>) {
    forall l :: l in body ==> IsEdit(l.edit)
  }

  /** The loop over the lines of a hunk. */
  method PrintLines(header: string, lines: seq<Line>) returns (os: string)
    ensures os == header + BodyText(lines)
  {
    os := header;
    assert lines[0..] == lines;
    for it := 0 to |lines|
      invariant os + BodyText(lines[it..]) == header + BodyText(lines)
    {
      LinePrinted(os, lines, it);
      os := os + [lines[it].edit] + UpToNul(lines[it].text) + "\n";
    }
  }

  lemma {:induction false} LinePrinted(os: string, lines: seq<Line>, it: nat)
    requires it < |lines|
    ensures os + BodyText(lines[it..])
         == os + [lines[it].edit] + UpToNul(lines[it].text) + "\n" + BodyText(lines[it + 1..])
  {
    assert lines[it..][0] == lines[it] && lines[it..][1..] == lines[it + 1..];
    var (a, b, c) := ([lines[it].edit], UpToNul(lines[it].text), BodyText(lines[it + 1..]));
    assert os + (a + b + "\n" + c) == os + a + b + "\n" + c;
  }

  // ---------------------------------------------------------------- places in a script

  /** Lines of left used up by a script. */
  function LeftCount(edits: seq<EditType>): nat
    decreases |edits|
  {
    if edits == [] then 0 else LeftCount(edits[..|edits| - 1]) + (if edits[|edits| - 1] == Add then 0 else 1)
  }

  function RightCount(edits: seq<EditType>): nat
    decreases |edits|
  {
    if edits == [] then 0 else RightCount(edits[..|edits| - 1]) + (if edits[|edits| - 1] == Remove then 0 else 1)
  }

  lemma {:induction false} CountNext(edits: seq<EditType>, k: nat)
    requires k < |edits|
    ensures LeftCount(edits[..k + 1]) == LeftCount(edits[..k]) + (if edits[k] == Add then 0 else 1)
    ensures RightCount(edits[..k + 1]) == RightCount(edits[..k]) + (if edits[k] == Remove then 0 else 1)
  {
    assert edits[..k + 1][..k] == edits[..k];
  }

  /** The lines at place k of the script are there, and equal if it is a match. */
  ghost predicate InStep<T>(edits: seq<EditType>, left: seq<T>, right: seq<T>, k: nat)
    requires k < |edits|
  {
    var i, j := LeftCount(edits[..k]), RightCount(edits[..k]);
    && i <= |left| && j <= |right|
    && (edits[k] != Add ==> i < |left|) && (edits[k] != Remove ==> j < |right|)
    && (edits[k] == Match ==> left[i] == right[j])
  }

  ghost predicate Follows<T>(edits: seq<EditType>, left: seq<T>, right: seq<T>) {
    && LeftCount(edits) == |left| && RightCount(edits) == |right|
    && forall k :: 0 <= k < |edits| ==> InStep(edits, left, right, k)
  }

  lemma {:induction false} ScriptFollows<T>(edits: seq<EditType>, left: seq<T>, right: seq<T>, i: nat, j: nat)
    requires i <= |left| && j <= |right| && Script(edits, left, right, i, j)
    ensures LeftCount(edits) == i && RightCount(edits) == j
    ensures forall k :: 0 <= k < |edits| ==> InStep(edits, left, right, k)
    decreases |edits|
  {
    if edits != [] {
      var n := |edits| - 1;
      var rest := edits[..n];
      ScriptFollows(rest, left, right, if edits[n] == Add then i else i - 1, if edits[n] == Remove then j else j - 1);
      forall k | 0 <= k < |edits| ensures InStep(edits, left, right, k) {
        if k < n {
          assert rest[..k] == edits[..k];
          assert InStep(rest, left, right, k);
        }
      }
    }
  }

  ghost predicate AllMatch(edits: seq<EditType>, a: int, b: int)
    requires 0 <= a && b <= |edits|
  {
    forall k :: a <= k < b ==> edits[k] == Match
  }

  /** A run of matches uses up the same number of equal lines on both sides. */
  lemma {:induction false} RunGrows<T>(left: seq<T>, right: seq<T>, i: nat, j: nat, n: nat)
    requires n > 0 && i + n <= |left| && j + n <= |right|
    requires left[i..i + n - 1] == right[j..j + n - 1] && left[i + n - 1] == right[j + n - 1]
    ensures left[i..i + n] == right[j..j + n]
  {
    assert left[i..i + n] == left[i..i + n - 1] + [left[i + n - 1]];
    assert right[j..j + n] == right[j..j + n - 1] + [right[j + n - 1]];
  }

  lemma {:induction false} MatchRun<T>(edits: seq<EditType>, left: seq<T>, right: seq<T>, a: nat, b: nat)
    requires a <= b <= |edits| && Follows(edits, left, right) && AllMatch(edits, a, b)
    ensures
      var i, j, n := LeftCount(edits[..a]), RightCount(edits[..a]), b - a;
      && LeftCount(edits[..b]) == i + n <= |left|
      && RightCount(edits[..b]) == j + n <= |right|
      && left[i..i + n] == right[j..j + n]
    decreases b
  {
    CountsFit(edits, left, right, a);
    if a < b {
      MatchRun(edits, left, right, a, b - 1);
      CountNext(edits, b - 1);
      assert InStep(edits, left, right, b - 1);
      RunGrows(left, right, LeftCount(edits[..a]), RightCount(edits[..a]), b - a);
    }
  }

  lemma {:induction false} CountsFit<T>(edits: seq<EditType>, left: seq<T>, right: seq<T>, k: nat)
    requires k <= |edits| && Follows(edits, left, right)
    ensures LeftCount(edits[..k]) <= |left| && RightCount(edits[..k]) <= |right|
  {
    if k == |edits| {
      assert edits[..k] == edits;
    } else {
      assert InStep(edits, left, right, k);
    }
  }

  // ---------------------------------------------------------------- hunks as parts of a script

  /** A hunk's part of the script: context from `start`, edits from `first` to `last`, context
      up to `end`. */
  datatype Range = Range(start: nat, first: nat, last: nat, end: nat)

  /** Full context on both sides, except at the ends of the files; inside, no run of unchanged
      lines long enough for two hunks. */
  ghost predicate RangeOk(edits: seq<EditType>, r: Range, context: nat) {
    && r.start <= r.first <= r.last < r.end <= |edits|
    && AllMatch(edits, r.start, r.first) && edits[r.first] != Match
    && edits[r.last] != Match && AllMatch(edits, r.last + 1, r.end)
    && (r.first - r.start == context || (r.first - r.start < context && r.start == 0))
    && (r.end - r.last - 1 == context || (r.end - r.last - 1 < context && r.end == |edits|))
    && NoLongRun(edits, r.first, r.last, context)
  }

  ghost predicate NoLongRun(edits: seq<EditType>, first: nat, last: nat, context: nat)
    requires last < |edits|
  {
    forall a, b :: first <= a <= b <= last && AllMatch(edits, a, b) ==> b - a < 2 * context
  }

  /** Where the part of the script before hunk k ends. */
  ghost function EndBefore(ranges: seq<Range>, k: nat): nat
    requires k <= |ranges|
  {
    if k == 0 then 0 else ranges[k - 1].end
  }

  ghost predicate Placed(edits: seq<EditType>, ranges: seq<Range>, k: nat, context: nat)
    requires k < |ranges|
  {
    && RangeOk(edits, ranges[k], context)
    && EndBefore(ranges, k) <= ranges[k].start
    && AllMatch(edits, EndBefore(ranges, k), ranges[k].start)
  }

  /** The ranges lie one after the other and every edit up to `upto` is in one of them. */
  ghost predicate Segmented(edits: seq<EditType>, ranges: seq<Range>, context: nat, upto: nat) {
    && (forall k :: 0 <= k < |ranges| ==> Placed(edits, ranges, k, context))
    && EndBefore(ranges, |ranges|) <= upto <= |edits|
    && AllMatch(edits, EndBefore(ranges, |ranges|), upto)
  }

  /** What is printed for a range: both files' lines, and a header that names them. */
  ghost predicate HunkFor(h: PrintedHunk, edits: seq<EditType>, left: seq<string>, right: seq<string>, r: Range)
  {
    && r.start <= r.end <= |edits|
    && Names(h, left, right, LeftCount(edits[..r.start]), LeftCount(edits[..r.end]),
             RightCount(edits[..r.start]), RightCount(edits[..r.end]))
  }

  /** The hunk holds lines l1 to l2 of left and r1 to r2 of right, and says so. */
  ghost predicate Names(h: PrintedHunk, left: seq<string>, right: seq<string>, l1: nat, l2: nat, r1: nat, r2: nat) {
    && l1 <= l2 <= |left| && r1 <= r2 <= |right|
    && SideOf(h.body, '-') == left[l1..l2]
    && SideOf(h.body, '+') == right[r1..r2]
    && Grouped(h.body) && AllEdits(h.body)
    && h.left == (if Marked(h.body, '-') > 0 then Side(l1 + 1, l2 - l1) else Omitted)
    && h.right == (if Marked(h.body, '+') > 0 then Side(r1 + 1, r2 - r1) else Omitted)
    && Marked(h.body, '-') + Marked(h.body, '+') > 0
  }

  lemma {:induction false} CountsGrow(edits: seq<EditType>, a: nat, b: nat)
    requires a <= b <= |edits|
    ensures LeftCount(edits[..a]) <= LeftCount(edits[..b]) && RightCount(edits[..a]) <= RightCount(edits[..b])
    decreases b
  {
    if a < b {
      CountsGrow(edits, a, b - 1);
      CountNext(edits, b - 1);
    }
  }

  // ---------------------------------------------------------------- reading a diff

  /** Applies hunks to the lines of left from `li` on, `done` being rebuilt already.  A hunk is
      found by the side of its header that is there; every number and every old line in it
      must fit. */
  function Apply(hunks: seq<PrintedHunk>, left: seq<string>, li: nat, done: seq<string>): Option<seq<string>>
    requires li <= |left|
    decreases |hunks|
  {
    if hunks == [] then Some(done + left[li..])
    else
      var h := hunks[0];
      var before, after := SideOf(h.body, '-'), SideOf(h.body, '+');
      var gap := if h.left.Side? then h.left.start - 1 - li
                 else if h.right.Side? then h.right.start - 1 - |done|
                 else -1;
      if gap < 0 || li + gap + |before| > |left| then None
      else if left[li + gap..li + gap + |before|] != before then None
      else if h.left.Side? && h.left.length != |before| then None
      else if h.right.Side? && (h.right.start != |done| + gap + 1 || h.right.length != |after|) then None
      else Apply(hunks[1..], left, li + gap + |before|, done + left[li..li + gap] + after)
  }

  ghost predicate HunksFor(hunks: seq<PrintedHunk>, ranges: seq<Range>, edits: seq<EditType>, left: seq<string>,
                           right: seq<string>, context: nat)
  {
    && |hunks| == |ranges|
    && (forall k :: 0 <= k < |ranges| ==> Placed(edits, ranges, k, context))
    && forall k :: 0 <= k < |ranges| ==> HunkFor(hunks[k], edits, left, right, ranges[k])
  }

  /** One hunk read: the gap is the same in both files, then its lines replace the old ones. */
  lemma {:induction false} ApplyOne(h: PrintedHunk, rest: seq<PrintedHunk>, left: seq<string>, right: seq<string>,
                                    li: nat, ri: nat, gap: nat, l2: nat, r2: nat)
    requires Names(h, left, right, li + gap, l2, ri + gap, r2)
    requires left[li..li + gap] == right[ri..ri + gap]
    ensures Apply([h] + rest, left, li, right[..ri]) == Apply(rest, left, l2, right[..r2])
  {
    assert ([h] + rest)[0] == h && ([h] + rest)[1..] == rest;
    assert right[..ri] + left[li..li + gap] + right[ri + gap..r2] == right[..r2];
  }

  lemma {:induction false} ApplyRange(h: PrintedHunk, rest: seq<PrintedHunk>, edits: seq<EditType>,
                                      left: seq<string>, right: seq<string>, e: nat, r: Range)
    requires Follows(edits, left, right) && e <= r.start <= r.end <= |edits| && AllMatch(edits, e, r.start)
    requires HunkFor(h, edits, left, right, r)
    ensures
      (CountsFit(edits, left, right, e);
       CountsFit(edits, left, right, r.end);
       Apply([h] + rest, left, LeftCount(edits[..e]), right[..RightCount(edits[..e])])
       == Apply(rest, left, LeftCount(edits[..r.end]), right[..RightCount(edits[..r.end])]))
  {
    CountsFit(edits, left, right, e);
    CountsFit(edits, left, right, r.end);
    MatchRun(edits, left, right, e, r.start);
    ApplyOne(h, rest, left, right, LeftCount(edits[..e]), RightCount(edits[..e]), r.start - e,
             LeftCount(edits[..r.end]), RightCount(edits[..r.end]));
  }

  /** After the last hunk the rest of both files is the same. */
  lemma {:induction false} ApplyEnd(edits: seq<EditType>, left: seq<string>, right: seq<string>, e: nat)
    requires e <= |edits| && Follows(edits, left, right) && AllMatch(edits, e, |edits|)
    ensures LeftCount(edits[..e]) <= |left| && RightCount(edits[..e]) <= |right|
    ensures Apply([], left, LeftCount(edits[..e]), right[..RightCount(edits[..e])]) == Some(right)
  {
    assert edits[..|edits|] == edits;
    MatchRun(edits, left, right, e, |edits|);
    var li, ri := LeftCount(edits[..e]), RightCount(edits[..e]);
    assert left[li..] == left[li..|left|] && right[..ri] + right[ri..|right|] == right;
  }

  /** What reading the hunks from the k-th on makes of the lines before them. */
  ghost function AppliedFrom(hunks: seq<PrintedHunk>, ranges: seq<Range>, edits: seq<EditType>,
                             left: seq<string>, right: seq<string>, context: nat, k: nat): Option<seq<string>>
    requires Follows(edits, left, right)
    requires HunksFor(hunks, ranges, edits, left, right, context) && k <= |hunks|
  {
    EndFits(edits, ranges, context, k);
    var e := EndBefore(ranges, k);
    CountsFit(edits, left, right, e);
    Apply(hunks[k..], left, LeftCount(edits[..e]), right[..RightCount(edits[..e])])
  }

  lemma {:induction false} ApplyRebuilds(hunks: seq<PrintedHunk>, ranges: seq<Range>, edits: seq<EditType>,
                                         left: seq<string>, right: seq<string>, context: nat, k: nat)
    requires Follows(edits, left, right)
    requires HunksFor(hunks, ranges, edits, left, right, context) && k <= |hunks|
    requires Segmented(edits, ranges, context, |edits|)
    ensures AppliedFrom(hunks, ranges, edits, left, right, context, k) == Some(right)
    decreases |hunks| - k
  {
    if k == |hunks| {
      AppliedEnd(hunks, ranges, edits, left, right, context);
    } else {
      ApplyRebuilds(hunks, ranges, edits, left, right, context, k + 1);
      AppliedNext(hunks, ranges, edits, left, right, context, k);
    }
  }

  lemma {:induction false} AppliedEnd(hunks: seq<PrintedHunk>, ranges: seq<Range>, edits: seq<EditType>,
                                      left: seq<string>, right: seq<string>, context: nat)
    requires Follows(edits, left, right)
    requires HunksFor(hunks, ranges, edits, left, right, context)
    requires Segmented(edits, ranges, context, |edits|)
    ensures AppliedFrom(hunks, ranges, edits, left, right, context, |hunks|) == Some(right)
  {
    EndFits(edits, ranges, context, |hunks|);
    ApplyEnd(edits, left, right, EndBefore(ranges, |hunks|));
    assert hunks[|hunks|..] == [];
  }

  lemma {:induction false} AppliedNext(hunks: seq<PrintedHunk>, ranges: seq<Range>, edits: seq<EditType>,
                                       left: seq<string>, right: seq<string>, context: nat, k: nat)
    requires Follows(edits, left, right)
    requires HunksFor(hunks, ranges, edits, left, right, context) && k < |hunks|
    requires AppliedFrom(hunks, ranges, edits, left, right, context, k + 1) == Some(right)
    ensures AppliedFrom(hunks, ranges, edits, left, right, context, k) == Some(right)
  {
    assert hunks[k..] == [hunks[k]] + hunks[k + 1..];
    assert Placed(edits, ranges, k, context);
    ApplyRange(hunks[k], hunks[k + 1..], edits, left, right, EndBefore(ranges, k), ranges[k]);
  }

  lemma {:induction false} EndFits(edits: seq<EditType>, ranges: seq<Range>, context: nat, k: nat)
    requires k <= |ranges| && forall i :: 0 <= i < |ranges| ==> Placed(edits, ranges, i, context)
    ensures EndBefore(ranges, k) <= |edits|
  {
    if k > 0 { assert Placed(edits, ranges, k - 1, context); }
  }

  // ---------------------------------------------------------------- making a diff

  /** So far the hunk holds the script from `a` to `e`, of which i and j lines are used up. */
  ghost predicate Holds(h: Hunk, edits: seq<EditType>, left: seq<string>, right: seq<string>, a: nat, e: nat, i: nat,
                        j: nat)
    reads h
  {
    && a <= e <= |edits|
    && LeftCount(edits[..a]) <= i == LeftCount(edits[..e]) <= |left|
    && RightCount(edits[..a]) <= j == RightCount(edits[..e]) <= |right|
    && h.Valid()
    && SideOf(h.Body(), '-') == left[LeftCount(edits[..a])..i]
    && SideOf(h.Body(), '+') == right[RightCount(edits[..a])..j]
  }

  lemma {:induction false} SliceNext<T>(s: seq<T>, i: nat, j: nat)
    requires i <= j < |s|
    ensures s[i..j + 1] == s[i..j] + [s[j]]
  {
  }

  /** The prefix context: the last lines of left before place i. */
  method PushLines(h: Hunk, left: seq<string>, i: nat, prefix: nat)
    requires prefix <= i <= |left|
    requires h.Valid() && h.Body() == [] && h.adds == h.removes == 0
    modifies h`adds, h`removes, h`common, h`hunk, h`hunkAdds, h`hunkRemoves
    ensures h.Valid() && h.adds == h.removes == 0
    ensures SideOf(h.Body(), '-') == left[i - prefix..i] && SideOf(h.Body(), '+') == left[i - prefix..i]
  {
    ghost var i0, k := i - prefix, 0;
    var n := prefix;
    while n > 0
      invariant 0 <= n <= prefix && k == prefix - n && h.Valid() && h.adds == h.removes == 0
      invariant SideOf(h.Body(), '-') == left[i0..i0 + k] && SideOf(h.Body(), '+') == left[i0..i0 + k]
    {
      SliceNext(left, i0, i0 + k);
      var line := left[i - n];
      h.PushLine(' ', line);
      n := n - 1;
      k := k + 1;
    }
  }

  /** The lines of one edit. */
  method PushLinesOf(h: Hunk, edit: EditType, left: seq<string>, right: seq<string>, i: nat, j: nat)
    requires (edit != Add ==> i < |left|) && (edit != Remove ==> j < |right|)
    requires edit == Match ==> left[i] == right[j]
    requires h.Valid()
    modifies h`adds, h`removes, h`common, h`hunk, h`hunkAdds, h`hunkRemoves
    ensures h.Valid()
    ensures SideOf(h.Body(), '-') == SideOf(old(h.Body()), '-') + (if edit == Add then [] else [left[i]])
    ensures SideOf(h.Body(), '+') == SideOf(old(h.Body()), '+') + (if edit == Remove then [] else [right[j]])
    ensures h.adds + h.removes >= old(h.adds + h.removes) + (if edit == Match then 0 else 1)
    ensures edit == Match ==> h.adds + h.removes == old(h.adds + h.removes)
  {
    if edit == Match || edit == Remove || edit == Replace {
      h.PushLine(if edit == Match then ' ' else '-', left[i]);
    }
    if edit == Add || edit == Replace {
      h.PushLine('+', right[j]);
    }
  }

  /** One edit of the script goes into the hunk. */
  method PushEdit(h: Hunk, edits: seq<EditType>, left: seq<string>, right: seq<string>, ghost a: nat, e: nat, i: nat,
                  j: nat)
    returns (e': nat, i': nat, j': nat)
    requires e < |edits| && Follows(edits, left, right) && Holds(h, edits, left, right, a, e, i, j)
    modifies h`adds, h`removes, h`common, h`hunk, h`hunkAdds, h`hunkRemoves
    ensures e' == e + 1 && Holds(h, edits, left, right, a, e', i', j')
    ensures h.adds + h.removes >= old(h.adds + h.removes) + (if edits[e] == Match then 0 else 1)
    ensures edits[e] == Match ==> h.adds + h.removes == old(h.adds + h.removes)
  {
    var edit := edits[e];
    ghost var l1, r1 := LeftCount(edits[..a]), RightCount(edits[..a]);
    assert InStep(edits, left, right, e);
    CountNext(edits, e);
    if edit != Add { SliceNext(left, l1, i); }
    if edit != Remove { SliceNext(right, r1, j); }
    PushLinesOf(h, edit, left, right, i, j);
    e' := e + 1;
    i' := if edit != Add then i + 1 else i;
    j' := if edit != Remove then j + 1 else j;
  }

  /** Is there no next edit, or is it too far away? */
  method TooFar(edits: seq<EditType>, e: nat, context: nat) returns (far: bool, ghost next: nat)
    requires e <= |edits|
    ensures far ==> AllMatch(edits, e, if e + context <= |edits| then e + context else |edits|)
    ensures !far ==> e <= next < |edits| && next < e + context && edits[next] != Match
  {
    var it := e;
    while it < |edits| && edits[it] == Match
      invariant e <= it <= |edits| && AllMatch(edits, e, it)
    {
      it := it + 1;
    }
    far := it == |edits| || it - e >= context;
    next := it;
  }

  /** The state of the edit loop of one hunk: nothing consumed yet, or `last` is the last edit
      consumed and a run of nSuffix matches follows it; a run longer than the context was
      entered only because the edit `next` is close. */
  ghost predicate Suffix(edits: seq<EditType>, first: nat, last: nat, e: nat, nSuffix: nat, next: nat, context: nat) {
    && first <= e <= |edits|
    && (if e == first then nSuffix == 0
        else
          && first <= last < e && edits[last] != Match
          && e == last + 1 + nSuffix && AllMatch(edits, last + 1, e)
          && NoLongRun(edits, first, last, context)
          && (nSuffix > context ==> Close(edits, last, e, next, context)))
  }

  ghost predicate Close(edits: seq<EditType>, last: nat, e: nat, next: nat, context: nat) {
    e <= next < |edits| && edits[next] != Match && next < last + 1 + 2 * context
  }

  lemma {:induction false} RunEnds(edits: seq<EditType>, first: nat, last: nat, e: nat, context: nat)
    requires first <= last < e < |edits| && edits[e] != Match && edits[last] != Match
    requires AllMatch(edits, last + 1, e) && NoLongRun(edits, first, last, context)
    requires e - last - 1 < 2 * context
    ensures NoLongRun(edits, first, e, context)
  {
    forall a, b | first <= a <= b <= e && AllMatch(edits, a, b) ensures b - a < 2 * context {
      assert !(a <= last < b);
    }
  }

  /** One turn of the edit loop that does not break. */
  lemma {:induction false} SuffixStep(edits: seq<EditType>, first: nat, last: nat, e: nat, nSuffix: nat, next: nat,
                                      context: nat)
    returns (last': nat)
    requires Suffix(edits, first, last, e, nSuffix, next, context) && e < |edits| && edits[first] != Match
    requires context >= 1 && (nSuffix >= context ==> Close(edits, last, e, next, context))
    ensures Suffix(edits, first, last', e + 1, if edits[e] == Match then nSuffix + 1 else 0, next, context)
    ensures edits[e] != Match ==> last' == e
  {
    last' := if edits[e] == Match then last else e;
    if edits[e] != Match && e != first {
      RunEnds(edits, first, last, e, context);
    }
  }

  /** The edits of one hunk, from its first edit until enough suffix is found or the input is
      over.  Without context the loop gives up at once. */
  method FillHunk(h: Hunk, edits: seq<EditType>, left: seq<string>, right: seq<string>, context: nat,
                  ghost a: nat, first: nat, i: nat, j: nat)
    returns (e: nat, i': nat, j': nat, ghost last: nat, ghost nSuffix: nat, ghost next: nat)
    requires first <= |edits| && Follows(edits, left, right) && h.Valid() && h.adds == h.removes == 0
    requires first < |edits| ==> edits[first] != Match && Holds(h, edits, left, right, a, first, i, j)
    modifies h`adds, h`removes, h`common, h`hunk, h`hunkAdds, h`hunkRemoves
    ensures first < |edits| ==> Holds(h, edits, left, right, a, e, i', j')
    ensures h.adds + h.removes > 0 <==> e > first
    ensures e > first <==> context >= 1 && first < |edits|
    ensures Suffix(edits, first, last, e, nSuffix, next, context)
    ensures e < |edits| ==>
              nSuffix == context && AllMatch(edits, e, if e + context <= |edits| then e + context else |edits|)
    ensures e == |edits| ==> nSuffix <= context
  {
    e, i', j' := first, i, j;
    var count := 0;
    last, next := first, first;
    while e < |edits|
      invariant first < |edits| ==> Holds(h, edits, left, right, a, e, i', j')
      invariant h.adds + h.removes > 0 <==> e > first
      invariant e > first ==> context >= 1 && first < |edits|
      invariant Suffix(edits, first, last, e, count, next, context)
    {
      if count >= context {
        var far;
        ghost var n;
        far, n := TooFar(edits, e, context);
        if far { break; }
        if count == context { next := n; }
      }
      last := SuffixStep(edits, first, last, e, count, next, context);
      count := if edits[e] == Match then count + 1 else 0;
      e, i', j' := PushEdit(h, edits, left, right, a, e, i', j');
    }
    nSuffix := count;
  }

  /** Skips the matches before the next edit. */
  method SkipMatches<T>(edits: seq<EditType>, e: nat, i: nat, j: nat, ghost left: seq<T>, ghost right: seq<T>)
    returns (first: nat, i': nat, j': nat)
    requires e <= |edits| && Follows(edits, left, right)
    requires i == LeftCount(edits[..e]) && j == RightCount(edits[..e])
    ensures e <= first <= |edits| && AllMatch(edits, e, first) && (first < |edits| ==> edits[first] != Match)
    ensures i' == i + (first - e) == LeftCount(edits[..first])
    ensures j' == j + (first - e) == RightCount(edits[..first])
  {
    first, i', j' := e, i, j;
    while first < |edits| && edits[first] == Match
      invariant e <= first <= |edits| && AllMatch(edits, e, first)
      invariant i' == i + (first - e) == LeftCount(edits[..first])
      invariant j' == j + (first - e) == RightCount(edits[..first])
    {
      CountNext(edits, first);
      first, i', j' := first + 1, i' + 1, j' + 1;
    }
  }

  lemma {:induction false} SegmentedSnoc(edits: seq<EditType>, ranges: seq<Range>, r: Range, context: nat, e: nat)
    requires Segmented(edits, ranges, context, e) && RangeOk(edits, r, context)
    requires EndBefore(ranges, |ranges|) <= r.start && AllMatch(edits, EndBefore(ranges, |ranges|), r.start)
    ensures Segmented(edits, ranges + [r], context, r.end)
  {
    var more := ranges + [r];
    assert EndBefore(more, |more|) == r.end && EndBefore(more, |ranges|) == EndBefore(ranges, |ranges|);
    forall k | 0 <= k < |more| ensures Placed(edits, more, k, context) {
      if k < |ranges| {
        assert Placed(edits, ranges, k, context) && EndBefore(more, k) == EndBefore(ranges, k);
      }
    }
  }

  /** Room for the prefix context: before the first hunk all there is, later at least the
      context that the last hunk left. */
  ghost predicate Room(edits: seq<EditType>, e: nat, i: nat, j: nat, context: nat)
    requires e <= |edits|
  {
    || (e == 0 && i == 0 && j == 0)
    || AllMatch(edits, e, if e + context <= |edits| then e + context else |edits|)
  }

  lemma {:induction false} PrefixFits(edits: seq<EditType>, left: seq<string>, right: seq<string>,
                                      e: nat, first: nat, i: nat, j: nat, context: nat)
    requires e <= first < |edits| && Follows(edits, left, right) && AllMatch(edits, e, first) && edits[first] != Match
    requires Room(edits, e, LeftCount(edits[..e]), RightCount(edits[..e]), context)
    requires i == LeftCount(edits[..first]) && j == RightCount(edits[..first])
    ensures
      var prefix := if i < context then i else context;
      && e <= first - prefix && prefix <= j
      && (prefix == context || (prefix < context && first == prefix))
      && AllMatch(edits, first - prefix, first)
      && LeftCount(edits[..first - prefix]) == i - prefix && i <= |left|
      && RightCount(edits[..first - prefix]) == j - prefix && j <= |right|
      && left[i - prefix..i] == right[j - prefix..j]
  {
    var prefix := if i < context then i else context;
    MatchRun(edits, left, right, e, first);
    if e + context > first { assert e == 0; }
    assert e <= first - prefix;
    MatchRun(edits, left, right, first - prefix, first);
  }

  lemma {:induction false} RangeFrom(edits: seq<EditType>, first: nat, last: nat, e: nat, nSuffix: nat, next: nat,
                                     prefix: nat, context: nat)
    requires first < e <= |edits| && prefix <= first && edits[first] != Match && AllMatch(edits, first - prefix, first)
    requires prefix == context || (prefix < context && first == prefix)
    requires Suffix(edits, first, last, e, nSuffix, next, context)
    requires e < |edits| ==> nSuffix == context
    requires e == |edits| ==> nSuffix <= context
    ensures RangeOk(edits, Range(first - prefix, first, last, e), context)
  {
  }

  method PrintHunk(hunk: Hunk, ghost edits: seq<EditType>, ghost left: seq<string>, ghost right: seq<string>,
                   ghost a: nat, ghost e: nat, ghost i: nat, ghost j: nat)
    returns (os: string, ghost h: PrintedHunk)
    requires Holds(hunk, edits, left, right, a, e, i, j) && hunk.adds + hunk.removes > 0
    requires hunk.leftStart == LeftCount(edits[..a]) + 1 && hunk.rightStart == RightCount(edits[..a]) + 1
    modifies hunk
    ensures os == HunkText(h)
    ensures Names(h, left, right, LeftCount(edits[..a]), i, RightCount(edits[..a]), j)
  {
    os, h := hunk.PrintTo();
  }

  method ContextHunk(left: seq<string>, i: nat, j: nat, prefix: nat) returns (hunk: Hunk)
    requires prefix <= i <= |left|
    ensures fresh(hunk) && hunk.Valid() && hunk.adds == hunk.removes == 0
    ensures hunk.leftStart == i - prefix + 1 && hunk.rightStart == j - prefix + 1
    ensures SideOf(hunk.Body(), '-') == left[i - prefix..i] && SideOf(hunk.Body(), '+') == left[i - prefix..i]
  {
    hunk := new Hunk(i - prefix + 1, j - prefix + 1);
    PushLines(hunk, left, i, prefix);
  }

  /** The hunk holds the script from `a`, the context before the edit at `first`. */
  ghost predicate OpenedAt(h: Hunk, edits: seq<EditType>, left: seq<string>, right: seq<string>, context: nat,
                           e: nat, a: nat, first: nat, i: nat, j: nat)
    requires e <= first < |edits|
    reads h
  {
    && edits[first] != Match && Holds(h, edits, left, right, a, first, i, j)
    && e <= a <= first && AllMatch(edits, a, first)
    && (first - a == context || (first - a < context && a == 0))
    && h.leftStart == LeftCount(edits[..a]) + 1 && h.rightStart == RightCount(edits[..a]) + 1
  }

  /** Finds the first edit from e on and opens a hunk with the context before it. */
  method OpenHunk(edits: seq<EditType>, left: seq<string>, right: seq<string>, context: nat, e: nat, i: nat, j: nat)
    returns (hunk: Hunk, first: nat, i': nat, j': nat, ghost a: nat)
    requires e <= |edits| && Follows(edits, left, right)
    requires i == LeftCount(edits[..e]) && j == RightCount(edits[..e]) && Room(edits, e, i, j, context)
    ensures fresh(hunk) && hunk.Valid() && hunk.adds == hunk.removes == 0
    ensures e <= first <= |edits| && AllMatch(edits, e, first)
    ensures first < |edits| ==> OpenedAt(hunk, edits, left, right, context, e, a, first, i', j')
  {
    first, i', j' := SkipMatches(edits, e, i, j, left, right);
    CountsFit(edits, left, right, first);
    var prefix := if i' < context then i' else context;
    hunk := ContextHunk(left, i', j', prefix);
    a := 0;
    if first < |edits| { a := HunkOpens(hunk, edits, left, right, context, e, first, i', j', prefix); }
  }

  lemma {:induction false} HunkOpens(h: Hunk, edits: seq<EditType>, left: seq<string>, right: seq<string>, context: nat,
                                     e: nat, first: nat, i: nat, j: nat, prefix: nat) returns (a: nat)
    requires e <= first < |edits| && Follows(edits, left, right) && AllMatch(edits, e, first) && edits[first] != Match
    requires Room(edits, e, LeftCount(edits[..e]), RightCount(edits[..e]), context)
    requires i == LeftCount(edits[..first]) <= |left| && j == RightCount(edits[..first])
    requires prefix == (if i < context then i else context)
    requires h.Valid() && SideOf(h.Body(), '-') == SideOf(h.Body(), '+') == left[i - prefix..i]
    requires h.leftStart == i - prefix + 1 && h.rightStart == j - prefix + 1
    ensures OpenedAt(h, edits, left, right, context, e, a, first, i, j)
  {
    PrefixFits(edits, left, right, e, first, i, j, context);
    a := first - prefix;
    ContextHolds(h, edits, left, right, a, first, prefix);
  }

  lemma {:induction false} ContextHolds(h: Hunk, edits: seq<EditType>, left: seq<string>, right: seq<string>,
                                        a: nat, first: nat, prefix: nat)
    requires a <= first <= |edits| && h.Valid()
    requires var (i, j) := (LeftCount(edits[..first]), RightCount(edits[..first]));
      && prefix <= i <= |left| && prefix <= j <= |right| && left[i - prefix..i] == right[j - prefix..j]
      && LeftCount(edits[..a]) == i - prefix && RightCount(edits[..a]) == j - prefix
      && SideOf(h.Body(), '-') == SideOf(h.Body(), '+') == left[i - prefix..i]
    ensures Holds(h, edits, left, right, a, first, LeftCount(edits[..first]), RightCount(edits[..first]))
  {
  }

  /** One turn of the outer loop: the next hunk, if there is one. */
  method NextHunk(edits: seq<EditType>, left: seq<string>, right: seq<string>, context: nat, e: nat, i: nat, j: nat)
    returns (found: bool, os: string, e': nat, i': nat, j': nat, ghost h: PrintedHunk, ghost r: Range)
    requires e <= |edits| && Follows(edits, left, right)
    requires i == LeftCount(edits[..e]) && j == RightCount(edits[..e]) && Room(edits, e, i, j, context)
    ensures !found ==> context == 0 || AllMatch(edits, e, |edits|)
    ensures found ==>
      && context >= 1 && e' <= |edits| && os == HunkText(h)
      && i' == LeftCount(edits[..e']) && j' == RightCount(edits[..e']) && Room(edits, e', i', j', context)
      && RangeOk(edits, r, context) && e <= r.start && AllMatch(edits, e, r.start) && r.end == e'
      && HunkFor(h, edits, left, right, r)
  {
    var hunk, first;
    ghost var a, last, count, next;
    hunk, first, i', j', a := OpenHunk(edits, left, right, context, e, i, j);
    e', i', j', last, count, next := FillHunk(hunk, edits, left, right, context, a, first, i', j');
    found, os := hunk.adds != 0 || hunk.removes != 0, "";
    h, r := PrintedHunk(Omitted, Omitted, []), Range(a, first, last, e');
    if found {
      RangeFrom(edits, first, last, e', count, next, first - a, context);
      os, h := PrintHunk(hunk, edits, left, right, a, e', i', j');
    }
  }

  /** No line of a file needs more than one line of text. */
  predicate PlainText(lines: seq<string>) {
    forall line :: line in lines ==> OneLine(line)
  }

  lemma {:induction false} LineOnSide(body: seq<Line>, l: Line, mark: char)
    requires l in body && (l.edit == ' ' || l.edit == mark)
    ensures l.text in SideOf(body, mark)
  {
    if l != body[0] { LineOnSide(body[1..], l, mark); }
  }

  /** Hunks of plain files can be printed line by line. */
  lemma {:induction false} HunkPrintable(h: PrintedHunk, left: seq<string>, right: seq<string>,
                                         l1: nat, l2: nat, r1: nat, r2: nat)
    requires Names(h, left, right, l1, l2, r1, r2)
    ensures WellMarked(h)
    ensures PlainText(left) && PlainText(right) ==> OneLined(h)
  {
    if PlainText(left) && PlainText(right) {
      forall l | l in h.body ensures OneLine(l.text) {
        if l.edit == '+' {
          LineOnSide(h.body, l, '+');
          assert l.text in right;
        } else {
          LineOnSide(h.body, l, '-');
          assert l.text in left;
        }
      }
    }
  }

  /** Reads the text of a diff and applies it. */
  function Patched(text: string, left: seq<string>): Option<seq<string>> {
    var hunks := ReadDiff(text);
    if hunks.None? then None else Apply(hunks.value, left, 0, [])
  }

  lemma {:induction false} TextReads(hunks: seq<PrintedHunk>, ranges: seq<Range>, edits: seq<EditType>,
                                     left: seq<string>, right: seq<string>, context: nat)
    requires HunksFor(hunks, ranges, edits, left, right, context)
    ensures ReadDiff(TextOf(hunks)) == Some(hunks) <==> forall h :: h in hunks ==> OneLined(h)
    ensures PlainText(left) && PlainText(right) ==> forall h :: h in hunks ==> OneLined(h)
  {
    forall h | h in hunks ensures WellMarked(h) && (PlainText(left) && PlainText(right) ==> OneLined(h)) {
      var k :| 0 <= k < |hunks| && hunks[k] == h;
      var r := ranges[k];
      assert HunkFor(hunks[k], edits, left, right, r);
      HunkPrintable(h, left, right, LeftCount(edits[..r.start]), LeftCount(edits[..r.end]),
                    RightCount(edits[..r.start]), RightCount(edits[..r.end]));
    }
    DiffReads(hunks);
  }

  lemma {:induction false} DiffTextSnoc(hunks: seq<PrintedHunk>, h: PrintedHunk)
    ensures TextOf(hunks + [h]) == TextOf(hunks) + HunkText(h)
  {
    if hunks == [] {
      assert [] + [h] == [h] && [h][1..] == [];
      assert HunkText(h) + "" == HunkText(h);
    } else {
      assert (hunks + [h])[1..] == hunks[1..] + [h];
      DiffTextSnoc(hunks[1..], h);
    }
  }

  /** The hunks of the unified diff of two files, and their text. */
  method PrintHunks(left: seq<string>, right: seq<string>, context: nat)
    returns (ss: string, ghost hunks: seq<PrintedHunk>, ghost ranges: seq<Range>, ghost edits: seq<EditType>)
    ensures edits == Path(left, right, |left|, |right|) && Follows(edits, left, right)
    ensures ss == TextOf(hunks)
    ensures context >= 1 ==> Segmented(edits, ranges, context, |edits|)
    ensures context >= 1 ==> HunksFor(hunks, ranges, edits, left, right, context)
    ensures context == 0 ==> hunks == []
  {
    edits := Path(left, right, |left|, |right|);
    var script := CalculateStringEdits(left, right);
    PathReplays(left, right, |left|, |right|);
    ScriptFollows(edits, left, right, |left|, |right|);
    var e, i, j := 0, 0, 0;
    ss, hunks, ranges := "", [], [];
    while e < |script|
      invariant 0 <= e <= |script| && ss == TextOf(hunks)
      invariant i == LeftCount(edits[..e]) && j == RightCount(edits[..e]) && Room(edits, e, i, j, context)
      invariant context == 0 ==> hunks == []
      invariant context >= 1 ==> Segmented(edits, ranges, context, e) && EndBefore(ranges, |ranges|) == e
      invariant context >= 1 ==> HunksFor(hunks, ranges, edits, left, right, context)
    {
      var found, os, e', i', j';
      ghost var h, r;
      found, os, e', i', j', h, r := NextHunk(script, left, right, context, e, i, j);
      if !found {
        if context >= 1 { SegmentedClose(edits, ranges, context, e); }
        break;
      }
      SegmentedSnoc(edits, ranges, r, context, e);
      HunksForSnoc(hunks, ranges, edits, left, right, context, h, r, e');
      DiffTextSnoc(hunks, h);
      ss := ss + os;
      hunks, ranges := hunks + [h], ranges + [r];
      e, i, j := e', i', j';
    }
  }

  /** The unified diff of two files: its text, read back as hunks and applied to left, gives
      right. */
  method CreateUnifiedDiff(left: seq<string>, right: seq<string>, context: nat)
    returns (ss: string, ghost hunks: seq<PrintedHunk>, ghost ranges: seq<Range>, ghost edits: seq<EditType>)
    ensures edits == Path(left, right, |left|, |right|) && Follows(edits, left, right)
    ensures ss == TextOf(hunks)
    ensures context >= 1 ==> Segmented(edits, ranges, context, |edits|)
    ensures context >= 1 ==> HunksFor(hunks, ranges, edits, left, right, context)
    ensures context == 0 ==> hunks == []
    ensures Apply(hunks, left, 0, []) == Some(right) <==> context >= 1 || left == right
    ensures context >= 1 ==> (hunks == [] <==> left == right)
    ensures ReadDiff(ss) == Some(hunks) <==> forall h :: h in hunks ==> OneLined(h)
    ensures PlainText(left) && PlainText(right) ==>
              (Patched(ss, left) == Some(right) <==> context >= 1 || left == right)
  {
    ss, hunks, ranges, edits := PrintHunks(left, right, context);
    DiffIsPatch(hunks, ranges, edits, left, right, context);
    if context >= 1 { TextReads(hunks, ranges, edits, left, right, context); }
  }

  lemma {:induction false} DiffIsPatch(hunks: seq<PrintedHunk>, ranges: seq<Range>, edits: seq<EditType>,
                                       left: seq<string>, right: seq<string>, context: nat)
    requires edits == Path(left, right, |left|, |right|) && Follows(edits, left, right)
    requires context >= 1 ==>
               Segmented(edits, ranges, context, |edits|) && HunksFor(hunks, ranges, edits, left, right, context)
    requires context == 0 ==> hunks == []
    ensures Apply(hunks, left, 0, []) == Some(right) <==> context >= 1 || left == right
    ensures context >= 1 ==> (hunks == [] <==> left == right)
  {
    if context >= 1 {
      assert hunks[0..] == hunks && edits[..0] == [] && right[..0] == [];
      ApplyRebuilds(hunks, ranges, edits, left, right, context, 0);
      DiffEmptyIffEqual(hunks, ranges, edits, left, right, context);
    } else {
      assert [] + left[0..] == left;
    }
  }

  lemma {:induction false} SegmentedClose(edits: seq<EditType>, ranges: seq<Range>, context: nat, e: nat)
    requires Segmented(edits, ranges, context, e) && EndBefore(ranges, |ranges|) == e && AllMatch(edits, e, |edits|)
    ensures Segmented(edits, ranges, context, |edits|)
  {
  }

  lemma {:induction false} HunksForSnoc(hunks: seq<PrintedHunk>, ranges: seq<Range>, edits: seq<EditType>,
                                        left: seq<string>, right: seq<string>, context: nat,
                                        h: PrintedHunk, r: Range, e: nat)
    requires HunksFor(hunks, ranges, edits, left, right, context) && HunkFor(h, edits, left, right, r)
    requires Segmented(edits, ranges + [r], context, e)
    ensures HunksFor(hunks + [h], ranges + [r], edits, left, right, context)
  {
  }

  lemma {:induction false} DiffEmptyIffEqual(hunks: seq<PrintedHunk>, ranges: seq<Range>, edits: seq<EditType>,
                                             left: seq<string>, right: seq<string>, context: nat)
    requires edits == Path(left, right, |left|, |right|) && Follows(edits, left, right) && context >= 1
    requires Segmented(edits, ranges, context, |edits|) && HunksFor(hunks, ranges, edits, left, right, context)
    ensures hunks == [] <==> left == right
  {
    assert edits[..|edits|] == edits && edits[..0] == [];
    assert left[..|left|] == left && right[..|right|] == right;
    if hunks == [] {
      MatchRun(edits, left, right, 0, |edits|);
    } else if left == right {
      CostZeroIffEqual(left, right, |left|, |right|);
      PathReplays(left, right, |left|, |right|);
      assert Placed(edits, ranges, 0, context);
      FreeHasNoEdits(edits, ranges[0].first);
    }
  }

  lemma {:induction false} FreeHasNoEdits(edits: seq<EditType>, k: nat)
    requires k < |edits| && edits[k] != Match
    ensures ScriptCost(edits) > 0.0
    decreases |edits|
  {
    var n := |edits| - 1;
    CostNotNegative(edits[..n]);
    if k < n { FreeHasNoEdits(edits[..n], k); }
  }

  lemma {:induction false} CostNotNegative(edits: seq<EditType>)
    ensures ScriptCost(edits) >= 0.0
    decreases |edits|
  {
    if edits != [] { CostNotNegative(edits[..|edits| - 1]); }
  }
}
