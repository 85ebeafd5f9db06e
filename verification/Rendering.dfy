/** The row printer of treeutil.c on values, and when its rows are the drawing.

    `Marks` lists what print_level prints on one row, left to right; `Render` is the text
    that the running cursor turns them into. */
module Rendering {
  import opened Layout

  /** A stroke is lone when its node has no child on the other side. */
  datatype Kind = Label | Slash(lone: bool) | Backslash(lone: bool)

  datatype Mark = Mark(col: int, text: string, kind: Kind) {
    function End(): int { col + |text| }
    predicate LoneSlash() { kind == Slash(true) }
    predicate LoneBackslash() { kind == Backslash(true) }
  }

  function Marks(d: Drawing, x: int, level: int): seq<Mark> {
    if d.Nil? then []
    else if level == 0 then [Mark(LabelStart(d, x), d.text, Label)]
    else if d.edge >= level then
      (if d.left.Node? then [Mark(x - level, "/", Slash(d.right.Nil?))] else [])
      + (if d.right.Node? then [Mark(x + level, "\\", Backslash(d.left.Nil?))] else [])
    else
      Marks(d.left, x - d.edge - 1, level - d.edge - 1)
      + Marks(d.right, x + d.edge + 1, level - d.edge - 1)
  }

  function Blanks(n: int): (s: string)
    ensures |s| == Max(0, n)
    ensures forall i :: 0 <= i < |s| ==> s[i] == ' '
  {
    if n <= 0 then "" else seq(n, _ => ' ')
  }

  /** One mark printed on a line whose cursor stands at its end. */
  function PrintMark(line: string, m: Mark): string {
    line + Blanks(m.col - |line|) + m.text
  }

  /** The line after `marks` are printed on it. */
  function Render(line: string, marks: seq<Mark>): string
    decreases |marks|
  {
    if marks == [] then line else Render(PrintMark(line, marks[0]), marks[1..])
  }

  /** The columns at which `marks` come out when the cursor stands at column `next`. */
  function PrintedColumns(next: int, marks: seq<Mark>): (cols: seq<int>)
    ensures |cols| == |marks|
    decreases |marks|
  {
    if marks == [] then []
    else
      var at := Max(next, marks[0].col);
      [at] + PrintedColumns(at + |marks[0].text|, marks[1..])
  }

  lemma {:induction false} RenderConcat(line: string, a: seq<Mark>, b: seq<Mark>)
    ensures Render(line, a + b) == Render(Render(line, a), b)
    decreases |a|
  {
    if a == [] {
      assert a + b == b;
    } else {
      assert (a + b)[0] == a[0] && (a + b)[1..] == a[1..] + b;
      RenderConcat(PrintMark(line, a[0]), a[1..], b);
    }
  }

  // ---------------------------------------------------------------- marks in their places

  ghost predicate AllFrom(next: int, marks: seq<Mark>) {
    forall m :: m in marks ==> next <= m.col
  }

  ghost predicate AllTexts(marks: seq<Mark>) {
    forall m :: m in marks ==> |m.text| >= 1
  }

  /** Marks follow each other without overlapping. */
  ghost predicate Apart(marks: seq<Mark>) {
    forall i, j :: 0 <= i < j < |marks| ==> marks[i].End() <= marks[j].col
  }

  ghost predicate Covers(m: Mark, col: int) {
    m.col <= col < m.End()
  }

  ghost predicate InkIn(marks: seq<Mark>, col: int, ch: char) {
    exists m :: m in marks && Covers(m, col) && m.text[col - m.col] == ch
  }

  ghost predicate EmptyAt(marks: seq<Mark>, col: int) {
    forall m :: m in marks ==> !Covers(m, col)
  }

  function Columns(marks: seq<Mark>): (cols: seq<int>)
    ensures |cols| == |marks|
  {
    if marks == [] then [] else [marks[0].col] + Columns(marks[1..])
  }

  /** The cursor has not passed any mark when its turn comes. */
  ghost predicate Fits(next: int, marks: seq<Mark>)
    decreases |marks|
  {
    marks == [] || (next <= marks[0].col && Fits(marks[0].End(), marks[1..]))
  }

  ghost predicate AllBefore(a: seq<Mark>, b: seq<Mark>) {
    forall m, n :: m in a && n in b ==> m.End() <= n.col
  }

  lemma {:induction false} ApartConcat(a: seq<Mark>, b: seq<Mark>)
    ensures Apart(a + b) <==> Apart(a) && Apart(b) && AllBefore(a, b)
  {
    if Apart(a + b) {
      forall i, j | 0 <= i < j < |a| ensures a[i].End() <= a[j].col {
        assert (a + b)[i].End() <= (a + b)[j].col;
      }
      forall i, j | 0 <= i < j < |b| ensures b[i].End() <= b[j].col {
        assert (a + b)[|a| + i].End() <= (a + b)[|a| + j].col;
      }
      forall m, n | m in a && n in b ensures m.End() <= n.col {
        var i :| 0 <= i < |a| && a[i] == m;
        var j :| 0 <= j < |b| && b[j] == n;
        assert (a + b)[i].End() <= (a + b)[|a| + j].col;
      }
    }
  }

  /** The cursor stays behind exactly when marks do not overlap. */
  lemma {:induction false} FitsIffApart(next: int, marks: seq<Mark>)
    requires AllTexts(marks)
    ensures Fits(next, marks) <==> AllFrom(next, marks) && Apart(marks)
    decreases |marks|
  {
    if marks != [] {
      var m0, rest := marks[0], marks[1..];
      assert marks == [m0] + rest;
      FitsIffApart(m0.End(), rest);
      ApartConcat([m0], rest);
      assert m0 in marks;
    }
  }

  /** Marks come out in their own columns exactly when the cursor stays behind. */
  lemma {:induction false} InPlaceIffFits(next: int, marks: seq<Mark>)
    ensures PrintedColumns(next, marks) == Columns(marks) <==> Fits(next, marks)
    decreases |marks|
  {
    if marks != [] {
      var m0, rest := marks[0], marks[1..];
      var at := Max(next, m0.col);
      var printed := PrintedColumns(at + |m0.text|, rest);
      InPlaceIffFits(at + |m0.text|, rest);
      assert PrintedColumns(next, marks)[0] == at && PrintedColumns(next, marks)[1..] == printed;
      assert Columns(marks)[0] == m0.col && Columns(marks)[1..] == Columns(rest);
    }
  }

  /** `line` shows `marks` from column `from` on: ink where a mark is, blanks elsewhere,
      nothing after the last mark. */
  ghost predicate Shows(from: int, marks: seq<Mark>, line: string) {
    && |line| == (if marks == [] then from else marks[|marks| - 1].End())
    && (forall col :: Max(0, from) <= col < |line| ==>
          InkIn(marks, col, line[col]) || (EmptyAt(marks, col) && line[col] == ' '))
    && (forall m, col :: m in marks && Covers(m, col) ==> 0 <= col < |line| && line[col] == m.text[col - m.col])
  }

  /** Marks that do not overlap are printed exactly. */
  lemma {:induction false} RenderExact(line: string, marks: seq<Mark>)
    requires Fits(|line|, marks) && AllTexts(marks)
    ensures line <= Render(line, marks)
    ensures Shows(|line|, marks, Render(line, marks))
    decreases |marks|
  {
    if marks != [] {
      var m0, rest := marks[0], marks[1..];
      var next := PrintMark(line, m0);
      assert |next| == m0.End();
      FitsIffApart(|next|, rest);
      RenderExact(next, rest);
      ShowsOneMore(line, m0, rest, Render(next, rest));
      assert marks == [m0] + rest;
    }
  }

  lemma {:induction false} ShowsOneMore(line: string, m0: Mark, rest: seq<Mark>, full: string)
    requires |line| <= m0.col && PrintMark(line, m0) <= full
    requires forall m :: m in rest ==> m0.End() <= m.col
    requires Shows(m0.End(), rest, full)
    ensures line <= full && Shows(|line|, [m0] + rest, full)
  {
    var marks := [m0] + rest;
    var next := PrintMark(line, m0);
    assert line <= next;
    forall col | |line| <= col < |full|
      ensures InkIn(marks, col, full[col]) || (EmptyAt(marks, col) && full[col] == ' ')
    {
      if col < m0.End() {
        assert full[col] == next[col];
        if m0.col <= col { assert m0 in marks && Covers(m0, col); }
      } else if InkIn(rest, col, full[col]) {
        var m :| m in rest && Covers(m, col) && m.text[col - m.col] == full[col];
        assert m in marks;
      }
    }
    forall m, col | m in marks && Covers(m, col)
      ensures 0 <= col < |full| && full[col] == m.text[col - m.col]
    {
      if m !in rest { assert full[col] == next[col]; }
    }
  }

  predicate EndsInInk(text: string) {
    text != "" && text[|text| - 1] != ' '
  }

  lemma {:induction false} RenderKeeps(line: string, marks: seq<Mark>)
    ensures line <= Render(line, marks)
    decreases |marks|
  {
    if marks != [] { RenderKeeps(PrintMark(line, marks[0]), marks[1..]); }
  }

  /** When the cursor passes a mark, the end of the last mark that is pushed to the right
      stands where no mark belongs. */
  lemma {:induction false} PushedMark(line: string, marks: seq<Mark>) returns (col: int)
    requires !Fits(|line|, marks) && forall m :: m in marks ==> EndsInInk(m.text)
    ensures |line| <= col < |Render(line, marks)| && Render(line, marks)[col] != ' '
    ensures EmptyAt(marks, col)
    decreases |marks|
  {
    var m0, rest := marks[0], marks[1..];
    var next := PrintMark(line, m0);
    assert marks == [m0] + rest;
    assert EndsInInk(m0.text);
    if Fits(|next|, rest) {
      FitsIffApart(|next|, rest);
      RenderKeeps(next, rest);
      col := |next| - 1;
    } else {
      col := PushedMark(next, rest);
    }
  }

  // ---------------------------------------------------------------- marks are the ink

  lemma {:induction false} InkNotAbove(d: Drawing, x: int, y: int, row: int, col: int, ch: char)
    requires Sized(d) && HasInk(d, x, y, row, col, ch)
    ensures y <= row < y + d.height
  {
    HeightPositive(d.left);
    HeightPositive(d.right);
    if HasInk(d.left, x - d.edge - 1, y + d.edge + 1, row, col, ch) {
      InkNotAbove(d.left, x - d.edge - 1, y + d.edge + 1, row, col, ch);
    }
    if HasInk(d.right, x + d.edge + 1, y + d.edge + 1, row, col, ch) {
      InkNotAbove(d.right, x + d.edge + 1, y + d.edge + 1, row, col, ch);
    }
  }

  /** The marks of a row carry exactly the ink of that row. */
  lemma {:induction false} MarksAreInk(d: Drawing, x: int, y: int, level: int, col: int, ch: char)
    requires Sized(d) && level >= 0
    ensures HasInk(d, x, y, y + level, col, ch) <==> InkIn(Marks(d, x, level), col, ch)
  {
    if d.Node? {
      if level <= d.edge {
        OwnMarksAreInk(d, x, y, level, col, ch);
      } else {
        var lower := level - d.edge - 1;
        MarksAreInk(d.left, x - d.edge - 1, y + d.edge + 1, lower, col, ch);
        MarksAreInk(d.right, x + d.edge + 1, y + d.edge + 1, lower, col, ch);
        InkInConcat(Marks(d.left, x - d.edge - 1, lower), Marks(d.right, x + d.edge + 1, lower), col, ch);
      }
    }
  }

  lemma {:induction false} OwnMarksAreInk(d: Drawing, x: int, y: int, level: int, col: int, ch: char)
    requires d.Node? && Sized(d) && 0 <= level <= d.edge
    ensures HasInk(d, x, y, y + level, col, ch) <==> InkIn(Marks(d, x, level), col, ch)
  {
    if HasInk(d.left, x - d.edge - 1, y + d.edge + 1, y + level, col, ch) {
      InkNotAbove(d.left, x - d.edge - 1, y + d.edge + 1, y + level, col, ch);
    }
    if HasInk(d.right, x + d.edge + 1, y + d.edge + 1, y + level, col, ch) {
      InkNotAbove(d.right, x + d.edge + 1, y + d.edge + 1, y + level, col, ch);
    }
    if level == 0 {
      InkInOne(Mark(LabelStart(d, x), d.text, Label), col, ch);
    } else {
      var l := Mark(x - level, "/", Slash(d.right.Nil?));
      var r := Mark(x + level, "\\", Backslash(d.left.Nil?));
      InkInOne(l, col, ch);
      InkInOne(r, col, ch);
      InkInConcat(if d.left.Node? then [l] else [], if d.right.Node? then [r] else [], col, ch);
    }
  }

  lemma {:induction false} InkInOne(m: Mark, col: int, ch: char)
    ensures InkIn([m], col, ch) <==> Covers(m, col) && m.text[col - m.col] == ch
  {
    assert m in [m];
  }

  lemma {:induction false} InkInConcat(a: seq<Mark>, b: seq<Mark>, col: int, ch: char)
    ensures InkIn(a + b, col, ch) <==> InkIn(a, col, ch) || InkIn(b, col, ch)
  {
    if InkIn(a, col, ch) {
      var m :| m in a && Covers(m, col) && m.text[col - m.col] == ch;
      assert m in a + b;
    }
    if InkIn(b, col, ch) {
      var m :| m in b && Covers(m, col) && m.text[col - m.col] == ch;
      assert m in a + b;
    }
  }

  lemma {:induction false} MarksHaveText(d: Drawing, x: int, level: int)
    requires Labelled(d)
    ensures AllTexts(Marks(d, x, level))
  {
    if d.Node? && level != 0 && d.edge < level {
      var xl, xr, lower := x - d.edge - 1, x + d.edge + 1, level - d.edge - 1;
      MarksHaveText(d.left, xl, lower);
      MarksHaveText(d.right, xr, lower);
      assert Marks(d, x, level) == Marks(d.left, xl, lower) + Marks(d.right, xr, lower);
    }
  }

  /** Labels end in a character that is not a blank, as strokes do. */
  predicate Legible(d: Drawing) {
    d.Node? ==> EndsInInk(d.text) && Legible(d.left) && Legible(d.right)
  }

  lemma {:induction false} LegibleIsLabelled(d: Drawing)
    requires Legible(d)
    ensures Labelled(d)
  {
    if d.Node? {
      LegibleIsLabelled(d.left);
      LegibleIsLabelled(d.right);
    }
  }

  lemma {:induction false} LayOutKeepsLegible(d: Drawing)
    requires Legible(d)
    ensures Legible(LayOut(d))
  {
    if d.Node? {
      LayOutKeepsLegible(d.left);
      LayOutKeepsLegible(d.right);
    }
  }

  lemma {:induction false} MarksEndInInk(d: Drawing, x: int, level: int)
    requires Legible(d)
    ensures forall m :: m in Marks(d, x, level) ==> EndsInInk(m.text)
  {
    if d.Node? && level != 0 && d.edge < level {
      var xl, xr, lower := x - d.edge - 1, x + d.edge + 1, level - d.edge - 1;
      MarksEndInInk(d.left, xl, lower);
      MarksEndInInk(d.right, xr, lower);
      assert Marks(d, x, level) == Marks(d.left, xl, lower) + Marks(d.right, xr, lower);
    }
  }

  // ---------------------------------------------------------------- profiles bound marks

  /** Membership in `Marks`, by cases. */
  ghost predicate IsMark(d: Drawing, x: int, level: int, m: Mark) {
    d.Node? && (
      if level == 0 then m == Mark(LabelStart(d, x), d.text, Label)
      else if d.edge >= level then
        || (d.left.Node? && m == Mark(x - level, "/", Slash(d.right.Nil?)))
        || (d.right.Node? && m == Mark(x + level, "\\", Backslash(d.left.Nil?)))
      else
        || IsMark(d.left, x - d.edge - 1, level - d.edge - 1, m)
        || IsMark(d.right, x + d.edge + 1, level - d.edge - 1, m))
  }

  lemma {:induction false} MarksAreMarks(d: Drawing, x: int, level: int)
    ensures forall m :: m in Marks(d, x, level) <==> IsMark(d, x, level, m)
  {
    if d.Node? && level != 0 && d.edge < level {
      MarksAreMarks(d.left, x - d.edge - 1, level - d.edge - 1);
      MarksAreMarks(d.right, x + d.edge + 1, level - d.edge - 1);
    }
  }

  /** `m` keeps within the profiles, but for lone strokes; `a` is where the profile was
      taken, `x` where the drawing is printed. */
  ghost predicate InProfiles(d: Drawing, a: int, x: int, level: int, m: Mark) {
    && (!m.LoneBackslash() ==> LProf(d, a, level) + (x - a) <= m.col)
    && (!m.LoneSlash() ==> m.End() - 1 <= RProf(d, a, level) + (x - a))
  }

  lemma {:induction false} ProfilesBound(d: Drawing, a: int, x: int, level: int, m: Mark)
    requires Labelled(d) && Sized(d) && level >= 0
    requires IsMark(d, x, level, m)
    ensures InProfiles(d, a, x, level, m)
  {
    if level > d.edge {
      var lower := level - d.edge - 1;
      if IsMark(d.left, x - d.edge - 1, lower, m) {
        ProfilesBound(d.left, a - d.edge - 1, x - d.edge - 1, lower, m);
      } else {
        ProfilesBound(d.right, a + d.edge + 1, x + d.edge + 1, lower, m);
      }
      ChildProfiles(d, a, x, level, m);
    } else {
      OwnProfiles(d, a, x, level, m);
    }
  }

  /** The profiles are no looser than they must be: some guarded mark attains them. */
  lemma {:induction false} LProfAttained(d: Drawing, x: int, level: int) returns (m: Mark)
    requires level >= 0 && LProf(d, x, level) < INFINITY
    ensures IsMark(d, x, level, m) && !m.LoneBackslash() && m.col == LProf(d, x, level)
  {
    if level == 0 {
      m := Mark(LabelStart(d, x), d.text, Label);
    } else if level <= d.edge {
      m := Mark(x - level, "/", Slash(d.right.Nil?));
    } else if LProf(d.left, x - d.edge - 1, level - d.edge - 1) == LProf(d, x, level) {
      m := LProfAttained(d.left, x - d.edge - 1, level - d.edge - 1);
    } else {
      m := LProfAttained(d.right, x + d.edge + 1, level - d.edge - 1);
    }
  }

  lemma {:induction false} RProfAttained(d: Drawing, x: int, level: int) returns (m: Mark)
    requires Labelled(d) && level >= 0 && RProf(d, x, level) > -INFINITY
    ensures IsMark(d, x, level, m) && !m.LoneSlash() && m.End() - 1 == RProf(d, x, level)
  {
    if level == 0 {
      m := Mark(LabelStart(d, x), d.text, Label);
    } else if level <= d.edge {
      m := Mark(x + level, "\\", Backslash(d.left.Nil?));
    } else if RProf(d.left, x - d.edge - 1, level - d.edge - 1) == RProf(d, x, level) {
      m := RProfAttained(d.left, x - d.edge - 1, level - d.edge - 1);
    } else {
      m := RProfAttained(d.right, x + d.edge + 1, level - d.edge - 1);
    }
  }

  lemma {:induction false} ChildProfiles(d: Drawing, a: int, x: int, level: int, m: Mark)
    requires d.Node? && d.edge >= 0 && level > d.edge
    requires InProfiles(d.left, a - d.edge - 1, x - d.edge - 1, level - d.edge - 1, m)
          || InProfiles(d.right, a + d.edge + 1, x + d.edge + 1, level - d.edge - 1, m)
    ensures InProfiles(d, a, x, level, m)
  {
    var lower := level - d.edge - 1;
    assert LProf(d, a, level) == Min(LProf(d.left, a - d.edge - 1, lower), LProf(d.right, a + d.edge + 1, lower));
    assert RProf(d, a, level) == Max(RProf(d.left, a - d.edge - 1, lower), RProf(d.right, a + d.edge + 1, lower));
  }

  lemma {:induction false} OwnProfiles(d: Drawing, a: int, x: int, level: int, m: Mark)
    requires d.Node? && 0 <= level <= d.edge && |d.text| >= 1
    requires level == 0 ==> m == Mark(LabelStart(d, x), d.text, Label)
    requires level != 0 ==>
              || (d.left.Node? && m == Mark(x - level, "/", Slash(d.right.Nil?)))
              || (d.right.Node? && m == Mark(x + level, "\\", Backslash(d.left.Nil?)))
    ensures InProfiles(d, a, x, level, m)
  {
    if level == 0 {
      assert LabelStart(d, x) + |d.text| - 1 == LabelEnd(d, x);
    }
  }

  lemma {:induction false} MarkRows(d: Drawing, x: int, level: int, m: Mark)
    requires Sized(d) && IsMark(d, x, level, m)
    ensures level < d.height
  {
    SizedRows(d);
    if level > d.edge {
      if IsMark(d.left, x - d.edge - 1, level - d.edge - 1, m) {
        MarkRows(d.left, x - d.edge - 1, level - d.edge - 1, m);
      } else {
        MarkRows(d.right, x + d.edge + 1, level - d.edge - 1, m);
      }
    }
  }

  /** Every mark, lone strokes included, lies right of the left profile of some row. */
  lemma {:induction false} LeftBound(d: Drawing, a: int, x: int, level: int, m: Mark) returns (row: int)
    requires Labelled(d) && Sized(d) && level >= 0
    requires IsMark(d, x, level, m)
    ensures 0 <= row < HeightOf(d) && LProf(d, a, row) + (x - a) <= m.col
  {
    SizedRows(d);
    if level <= d.edge {
      row := if m.LoneBackslash() then 0 else level;
      if row != 0 || level == 0 { OwnProfiles(d, a, x, level, m); }
    } else {
      var lower := level - d.edge - 1;
      if IsMark(d.left, x - d.edge - 1, lower, m) {
        row := LeftBound(d.left, a - d.edge - 1, x - d.edge - 1, lower, m);
      } else {
        row := LeftBound(d.right, a + d.edge + 1, x + d.edge + 1, lower, m);
      }
      row := row + d.edge + 1;
    }
  }

  lemma {:induction false} SizedRows(d: Drawing)
    requires Sized(d) && d.Node?
    ensures d.edge >= 0 && d.height >= 1
    ensures d.left.Node? ==> d.height >= d.left.height + d.edge + 1 > d.edge + 1
    ensures d.right.Node? ==> d.height >= d.right.height + d.edge + 1 > d.edge + 1
  {
    HeightPositive(d.left);
    HeightPositive(d.right);
  }

  /** The edge of this node is one shorter than its spread asks for: a child of height 1
      takes one off the spread, which the rounding does not give back when the spread is odd. */
  predicate Shortened(d: Drawing)
    requires d.Node? && d.left.Node? && d.right.Node?
  {
    var delta := Spread(d.left, d.right, CommonRows(d.left, d.right));
    (d.left.height == 1 || d.right.height == 1) && delta > 4 && delta % 2 == 1
  }

  /** Edge lengths keep the right profile of the left subtree at least `TREE_GAP` columns
      before the left profile of the right subtree, on every row they share. */
  lemma {:induction false} EdgeSeparates(d: Drawing, row: int)
    requires d.Node? && LaidOut(d) && d.left.Node? && d.right.Node?
    requires 0 <= row < d.left.height && row < d.right.height
    ensures RProf(d.left, 0, row) - (d.edge + 1) + TREE_GAP <= LProf(d.right, 0, row) + (d.edge + 1)
    ensures !Shortened(d) ==>
              RProf(d.left, 0, row) - (d.edge + 1) + TREE_GAP + 1 <= LProf(d.right, 0, row) + (d.edge + 1)
  {
    var delta := Spread(d.left, d.right, CommonRows(d.left, d.right));
    assert delta >= TREE_GAP + 1 + RProf(d.left, 0, row) - LProf(d.right, 0, row);
  }

  /** A spread above 4 is what some row asks for. */
  lemma {:induction false} SpreadAttained(l: Drawing, r: Drawing, n: nat) returns (row: int)
    requires Spread(l, r, n) > 4
    ensures 0 <= row < n && Spread(l, r, n) == TREE_GAP + 1 + RProf(l, 0, row) - LProf(r, 0, row)
  {
    row := n - 1;
    if Spread(l, r, n) == Spread(l, r, n - 1) { row := SpreadAttained(l, r, n - 1); }
  }

  /** On this row the profiles of the subtrees are `TREE_GAP` + 1 columns apart. */
  predicate WideAt(d: Drawing, row: int)
    requires d.Node?
  {
    RProf(d.left, 0, row) - (d.edge + 1) + TREE_GAP + 1 <= LProf(d.right, 0, row) + (d.edge + 1)
  }

  /** They are so on every row they share exactly when the edge is not shortened. */
  lemma {:induction false} WideGapIff(d: Drawing)
    requires d.Node? && LaidOut(d) && d.left.Node? && d.right.Node?
    ensures (forall row :: 0 <= row < CommonRows(d.left, d.right) ==> WideAt(d, row)) <==> !Shortened(d)
  {
    LaidOutIsSized(d);
    SizedRows(d);
    var n := CommonRows(d.left, d.right);
    if Shortened(d) {
      var row := SpreadAttained(d.left, d.right, n);
      assert !WideAt(d, row);
    } else {
      forall row | 0 <= row < n ensures WideAt(d, row) {
        EdgeSeparates(d, row);
      }
    }
  }

  /** With an edge of this length the profiles of two siblings are the gap apart on every row
      they share. */
  predicate KeepsApart(l: Drawing, r: Drawing, edge: int, gap: int) {
    forall row :: 0 <= row < HeightOf(l) && row < HeightOf(r) ==>
                    RProf(l, 0, row) - (edge + 1) + gap <= LProf(r, 0, row) + (edge + 1)
  }

  /** A leaf may come one column closer to its sibling. */
  function SiblingGap(l: Drawing, r: Drawing): int {
    if HeightOf(l) == 1 || HeightOf(r) == 1 then TREE_GAP else TREE_GAP + 1
  }

  /** The edge of a node with children is the shortest of length at least 1 that keeps them
      apart; a leaf has none. */
  lemma {:induction false} EdgeIsLeast(d: Drawing)
    requires d.Node? && LaidOut(d)
    ensures d.left.Nil? && d.right.Nil? ==> d.edge == 0
    ensures d.left.Node? || d.right.Node? ==>
              && d.edge >= 1 && KeepsApart(d.left, d.right, d.edge, SiblingGap(d.left, d.right))
              && forall e :: e >= 1 && KeepsApart(d.left, d.right, e, SiblingGap(d.left, d.right)) ==> d.edge <= e
  {
    var l, r := d.left, d.right;
    if l.Node? || r.Node? {
      LaidOutIsSized(d);
      HeightPositive(l);
      HeightPositive(r);
      forall e | e >= 1 && e < d.edge ensures !KeepsApart(l, r, e, SiblingGap(l, r)) {
        EdgeIsNeeded(d, e);
      }
    }
  }

  /** On some row any shorter edge is too short. */
  lemma {:induction false} EdgeIsNeeded(d: Drawing, e: int)
    requires d.Node? && LaidOut(d) && 1 <= e < d.edge
    ensures !KeepsApart(d.left, d.right, e, SiblingGap(d.left, d.right))
  {
    var row := SpreadAttained(d.left, d.right, CommonRows(d.left, d.right));
  }

  /** On a row shared by two siblings, only lone strokes can come closer than the gap. */
  lemma {:induction false} SiblingsApart(d: Drawing, x: int, level: int, m: Mark, n: Mark)
    requires d.Node? && LaidOut(d) && Labelled(d) && level > d.edge
    requires IsMark(d.left, x - d.edge - 1, level - d.edge - 1, m) && !m.LoneSlash()
    requires IsMark(d.right, x + d.edge + 1, level - d.edge - 1, n) && !n.LoneBackslash()
    ensures m.End() - 1 + TREE_GAP <= n.col
  {
    var lower := level - d.edge - 1;
    LaidOutIsSized(d.left);
    LaidOutIsSized(d.right);
    MarkRows(d.left, x - d.edge - 1, lower, m);
    MarkRows(d.right, x + d.edge + 1, lower, n);
    ProfilesBound(d.left, 0, x - d.edge - 1, lower, m);
    ProfilesBound(d.right, 0, x + d.edge + 1, lower, n);
    EdgeSeparates(d, lower);
  }

  // ---------------------------------------------------------------- exact rows

  ghost predicate LoneStrokesBefore(a: seq<Mark>, b: seq<Mark>) {
    forall m, n :: m in a && n in b && (m.LoneSlash() || n.LoneBackslash()) ==> m.End() <= n.col
  }

  /** No lone stroke runs into a mark of the sibling subtree on this row. */
  ghost predicate StraysClear(d: Drawing, x: int, level: int) {
    d.Node? && level > d.edge ==>
      var ml := Marks(d.left, x - d.edge - 1, level - d.edge - 1);
      var mr := Marks(d.right, x + d.edge + 1, level - d.edge - 1);
      && StraysClear(d.left, x - d.edge - 1, level - d.edge - 1)
      && StraysClear(d.right, x + d.edge + 1, level - d.edge - 1)
      && LoneStrokesBefore(ml, mr)
  }

  lemma {:induction false} ClearFromBelow(d: Drawing, x: int, level: int, xl: int, xr: int, lower: int)
    requires d.Node? && level > d.edge
    requires xl == x - d.edge - 1 && xr == x + d.edge + 1 && lower == level - d.edge - 1
    requires StraysClear(d.left, xl, lower) && StraysClear(d.right, xr, lower)
    requires LoneStrokesBefore(Marks(d.left, xl, lower), Marks(d.right, xr, lower))
    ensures StraysClear(d, x, level)
  {
  }

  lemma {:induction false} OwnMarksApart(d: Drawing, x: int, level: int)
    requires d.Node? ==> level <= d.edge
    requires level >= 0
    ensures Apart(Marks(d, x, level))
  {
  }

  lemma {:induction false} GuardedMarksApart(d: Drawing, x: int, level: int)
    requires d.Node? && LaidOut(d) && Labelled(d) && level > d.edge
    ensures
      var ml := Marks(d.left, x - d.edge - 1, level - d.edge - 1);
      var mr := Marks(d.right, x + d.edge + 1, level - d.edge - 1);
      AllBefore(ml, mr) <==> LoneStrokesBefore(ml, mr)
  {
    MarksAreMarks(d.left, x - d.edge - 1, level - d.edge - 1);
    MarksAreMarks(d.right, x + d.edge + 1, level - d.edge - 1);
    forall m, n |
      && m in Marks(d.left, x - d.edge - 1, level - d.edge - 1)
      && n in Marks(d.right, x + d.edge + 1, level - d.edge - 1)
      && !m.LoneSlash() && !n.LoneBackslash()
      ensures m.End() <= n.col
    {
      SiblingsApart(d, x, level, m, n);
    }
  }

  lemma {:induction false} ApartJoined(a: seq<Mark>, b: seq<Mark>, marks: seq<Mark>)
    requires marks == a + b && Apart(a) && Apart(b) && AllBefore(a, b)
    ensures Apart(marks)
  {
    ApartConcat(a, b);
  }

  /** What clear strokes mean below the root. */
  lemma {:induction false} ClearBelow(d: Drawing, x: int, level: int, xl: int, xr: int, lower: int)
    requires d.Node? && LaidOut(d) && Labelled(d) && level > d.edge && StraysClear(d, x, level)
    requires xl == x - d.edge - 1 && xr == x + d.edge + 1 && lower == level - d.edge - 1
    ensures StraysClear(d.left, xl, lower) && StraysClear(d.right, xr, lower)
    ensures AllBefore(Marks(d.left, xl, lower), Marks(d.right, xr, lower))
  {
    GuardedMarksApart(d, x, level);
  }

  lemma {:induction false} ClearIsApart(d: Drawing, x: int, level: int)
    requires LaidOut(d) && Labelled(d) && level >= 0 && StraysClear(d, x, level)
    ensures Apart(Marks(d, x, level))
    decreases d
  {
    if d.Node? && level > d.edge {
      var xl, xr, lower := x - d.edge - 1, x + d.edge + 1, level - d.edge - 1;
      ClearBelow(d, x, level, xl, xr, lower);
      ClearIsApart(d.left, xl, lower);
      ClearIsApart(d.right, xr, lower);
      ApartJoined(Marks(d.left, xl, lower), Marks(d.right, xr, lower), Marks(d, x, level));
    } else {
      OwnMarksApart(d, x, level);
    }
  }

  /** What overlap-free marks mean below the root. */
  lemma {:induction false} ApartBelow(d: Drawing, x: int, level: int, xl: int, xr: int, lower: int)
    requires d.Node? && LaidOut(d) && Labelled(d) && level > d.edge && level > 0 && Apart(Marks(d, x, level))
    requires xl == x - d.edge - 1 && xr == x + d.edge + 1 && lower == level - d.edge - 1
    ensures Apart(Marks(d.left, xl, lower)) && Apart(Marks(d.right, xr, lower))
    ensures LoneStrokesBefore(Marks(d.left, xl, lower), Marks(d.right, xr, lower))
  {
    assert Marks(d, x, level) == Marks(d.left, xl, lower) + Marks(d.right, xr, lower);
    ApartConcat(Marks(d.left, xl, lower), Marks(d.right, xr, lower));
  }

  lemma {:induction false} ApartIsClear(d: Drawing, x: int, level: int)
    requires LaidOut(d) && Labelled(d) && level >= 0 && Apart(Marks(d, x, level))
    ensures StraysClear(d, x, level)
    decreases d
  {
    if d.Node? && level > d.edge {
      var xl, xr, lower := x - d.edge - 1, x + d.edge + 1, level - d.edge - 1;
      ApartBelow(d, x, level, xl, xr, lower);
      ApartIsClear(d.left, xl, lower);
      ApartIsClear(d.right, xr, lower);
      ClearFromBelow(d, x, level, xl, xr, lower);
    }
  }

  /** A row of a laid-out tree is free of overlaps exactly when its lone strokes are clear. */
  lemma {:induction false} ApartIffStraysClear(d: Drawing, x: int, level: int)
    requires LaidOut(d) && Labelled(d) && level >= 0
    ensures Apart(Marks(d, x, level)) <==> StraysClear(d, x, level)
  {
    if StraysClear(d, x, level) {
      ClearIsApart(d, x, level);
    } else if Apart(Marks(d, x, level)) {
      ApartIsClear(d, x, level);
    }
  }

  // ---------------------------------------------------------------- covered shapes

  predicate NoLeftOnly(d: Drawing) {
    d.Node? ==> !(d.left.Node? && d.right.Nil?) && NoLeftOnly(d.left) && NoLeftOnly(d.right)
  }

  predicate NoRightOnly(d: Drawing) {
    d.Node? ==> !(d.right.Node? && d.left.Nil?) && NoRightOnly(d.left) && NoRightOnly(d.right)
  }

  /** Trees whose lone strokes cannot meet a sibling subtree; every tree whose inner nodes
      all have two children is one. */
  predicate Covered(d: Drawing) {
    d.Node? ==>
      && Covered(d.left) && Covered(d.right)
      && (d.left.Node? && d.right.Node? ==> NoLeftOnly(d.left) && NoRightOnly(d.right))
  }

  predicate Full(d: Drawing) {
    d.Node? ==> (d.left.Node? <==> d.right.Node?) && Full(d.left) && Full(d.right)
  }

  lemma {:induction false} FullIsCovered(d: Drawing)
    requires Full(d)
    ensures Covered(d) && NoLeftOnly(d) && NoRightOnly(d)
  {
    if d.Node? {
      FullIsCovered(d.left);
      FullIsCovered(d.right);
    }
  }

  lemma {:induction false} NoLoneSlashes(d: Drawing, x: int, level: int)
    requires NoLeftOnly(d)
    ensures forall m :: m in Marks(d, x, level) ==> !m.LoneSlash()
  {
    if d.Node? && level != 0 && d.edge < level {
      var xl, xr, lower := x - d.edge - 1, x + d.edge + 1, level - d.edge - 1;
      NoLoneSlashes(d.left, xl, lower);
      NoLoneSlashes(d.right, xr, lower);
      assert Marks(d, x, level) == Marks(d.left, xl, lower) + Marks(d.right, xr, lower);
    }
  }

  lemma {:induction false} NoLoneBackslashes(d: Drawing, x: int, level: int)
    requires NoRightOnly(d)
    ensures forall m :: m in Marks(d, x, level) ==> !m.LoneBackslash()
  {
    if d.Node? && level != 0 && d.edge < level {
      var xl, xr, lower := x - d.edge - 1, x + d.edge + 1, level - d.edge - 1;
      NoLoneBackslashes(d.left, xl, lower);
      NoLoneBackslashes(d.right, xr, lower);
      assert Marks(d, x, level) == Marks(d.left, xl, lower) + Marks(d.right, xr, lower);
    }
  }

  lemma {:induction false} CoveredPair(l: Drawing, r: Drawing, xl: int, xr: int, lower: int)
    requires l.Node? && r.Node? ==> NoLeftOnly(l) && NoRightOnly(r)
    ensures LoneStrokesBefore(Marks(l, xl, lower), Marks(r, xr, lower))
  {
    if l.Node? && r.Node? {
      NoLoneSlashes(l, xl, lower);
      NoLoneBackslashes(r, xr, lower);
    } else {
      assert Marks(l, xl, lower) == [] || Marks(r, xr, lower) == [];
    }
  }

  lemma {:induction false} CoveredIsClear(d: Drawing, x: int, level: int)
    requires Covered(d)
    ensures StraysClear(d, x, level)
    decreases d
  {
    if d.Node? && level > d.edge {
      var xl, xr, lower := x - d.edge - 1, x + d.edge + 1, level - d.edge - 1;
      CoveredIsClear(d.left, xl, lower);
      CoveredIsClear(d.right, xr, lower);
      CoveredPair(d.left, d.right, xl, xr, lower);
      ClearFromBelow(d, x, level, xl, xr, lower);
    }
  }

  // ---------------------------------------------------------------- boxes

  /** The least column of any glyph of a tree centred at column 0. */
  function BoxStart(d: Drawing): int
    requires d.Node?
  {
    var own := Min(LabelStart(d, 0), if d.left.Node? then -d.edge else 0);
    var left := if d.left.Node? then Min(own, BoxStart(d.left) - d.edge - 1) else own;
    if d.right.Node? then Min(left, BoxStart(d.right) + d.edge + 1) else left
  }

  /** The column after the last one of any glyph. */
  function BoxEnd(d: Drawing): int
    requires d.Node?
  {
    var own := Max(LabelStart(d, 0) + |d.text|, if d.right.Node? then d.edge + 1 else 1);
    var left := if d.left.Node? then Max(own, BoxEnd(d.left) - d.edge - 1) else own;
    if d.right.Node? then Max(left, BoxEnd(d.right) + d.edge + 1) else left
  }

  /** The boxes around sibling subtrees lie beside each other. */
  predicate BoxesApart(d: Drawing) {
    d.Node? ==>
      && BoxesApart(d.left) && BoxesApart(d.right)
      && (d.left.Node? && d.right.Node? ==> BoxEnd(d.left) - d.edge - 1 <= BoxStart(d.right) + d.edge + 1)
  }

  lemma {:induction false} MarkInBox(d: Drawing, x: int, level: int, m: Mark)
    requires Labelled(d) && Sized(d) && level >= 0 && IsMark(d, x, level, m)
    ensures x + BoxStart(d) <= m.col && m.End() <= x + BoxEnd(d)
  {
    if level > d.edge {
      var xl, xr, lower := x - d.edge - 1, x + d.edge + 1, level - d.edge - 1;
      if IsMark(d.left, xl, lower, m) {
        MarkInBox(d.left, xl, lower, m);
      } else {
        MarkInBox(d.right, xr, lower, m);
      }
    }
  }

  lemma {:induction false} BesideIsClear(l: Drawing, r: Drawing, xl: int, xr: int, lower: int)
    requires Labelled(l) && Sized(l) && Labelled(r) && Sized(r) && lower >= 0
    requires l.Node? && r.Node? ==> xl + BoxEnd(l) <= xr + BoxStart(r)
    ensures LoneStrokesBefore(Marks(l, xl, lower), Marks(r, xr, lower))
  {
    MarksAreMarks(l, xl, lower);
    MarksAreMarks(r, xr, lower);
    forall m, n | m in Marks(l, xl, lower) && n in Marks(r, xr, lower) ensures m.End() <= n.col {
      MarkInBox(l, xl, lower, m);
      MarkInBox(r, xr, lower, n);
    }
  }

  /** Then every stroke is clear. */
  lemma {:induction false} BoxesApartIsClear(d: Drawing, x: int, level: int)
    requires Labelled(d) && Sized(d) && level >= 0 && BoxesApart(d)
    ensures StraysClear(d, x, level)
    decreases d
  {
    if d.Node? && level > d.edge {
      var xl, xr, lower := x - d.edge - 1, x + d.edge + 1, level - d.edge - 1;
      BoxesApartIsClear(d.left, xl, lower);
      BoxesApartIsClear(d.right, xr, lower);
      BesideIsClear(d.left, d.right, xl, xr, lower);
      ClearFromBelow(d, x, level, xl, xr, lower);
    }
  }

  // ---------------------------------------------------------------- the whole drawing

  /** Least column of the left profile over the first `n` rows, and 0. */
  function XMin(d: Drawing, n: nat): (xmin: int)
    ensures xmin <= 0
    ensures forall i :: 0 <= i < n ==> xmin <= LProf(d, 0, i)
  {
    if n == 0 then 0 else Min(XMin(d, n - 1), LProf(d, 0, n - 1))
  }

  function Shift(d: Drawing): int {
    if d.Node? && d.height >= 0 then -XMin(d, d.height) else 0
  }

  /** The rows tree_print_ascii_tree prints for a laid-out tree. */
  function Row(d: Drawing, level: int): string {
    Render("", Marks(d, Shift(d), level))
  }

  lemma {:induction false} ShiftSuffices(d: Drawing, level: int)
    requires LaidOut(d) && Labelled(d) && level >= 0
    ensures AllFrom(0, Marks(d, Shift(d), level))
  {
    LaidOutIsSized(d);
    HeightPositive(d);
    MarksAreMarks(d, Shift(d), level);
    forall m | m in Marks(d, Shift(d), level) ensures 0 <= m.col {
      var row := LeftBound(d, 0, Shift(d), level, m);
    }
  }

  lemma {:induction false} MarkShifted(d: Drawing, x: int, level: int, m: Mark, k: int)
    requires IsMark(d, x, level, m)
    ensures IsMark(d, x + k, level, m.(col := m.col + k))
  {
    if level != 0 && d.edge < level {
      if IsMark(d.left, x - d.edge - 1, level - d.edge - 1, m) {
        MarkShifted(d.left, x - d.edge - 1, level - d.edge - 1, m, k);
      } else {
        MarkShifted(d.right, x + d.edge + 1, level - d.edge - 1, m, k);
      }
    }
  }

  lemma {:induction false} XMinAttained(d: Drawing, n: nat) returns (row: nat)
    requires n > 0 && LProf(d, 0, 0) <= 0
    ensures row < n && LProf(d, 0, row) == XMin(d, n)
  {
    if XMin(d, n) == LProf(d, 0, n - 1) || n == 1 {
      row := n - 1;
    } else {
      row := XMinAttained(d, n - 1);
    }
  }

  /** The picture is as far to the left as it can be: some mark is in the first column. */
  lemma {:induction false} ShiftIsLeast(d: Drawing) returns (row: nat, m: Mark)
    requires d.Node? && LaidOut(d) && Labelled(d)
    ensures row < d.height && m in Marks(d, Shift(d), row) && m.col == 0
  {
    LaidOutIsSized(d);
    HeightPositive(d);
    row := XMinAttained(d, d.height);
    var there := LProfAttained(d, 0, row);
    MarkShifted(d, 0, row, there, Shift(d));
    MarksAreMarks(d, Shift(d), row);
    m := there.(col := there.col + Shift(d));
  }

  /** `line` shows the drawing's ink on `row`, blanks between, and nothing after. */
  ghost predicate ShowsRow(d: Drawing, x: int, row: int, line: string) {
    && (forall col, ch :: HasInk(d, x, 0, row, col, ch) ==> 0 <= col < |line| && line[col] == ch)
    && (forall col :: 0 <= col < |line| ==> HasInk(d, x, 0, row, col, line[col]) || line[col] == ' ')
    && (line != "" ==> HasInk(d, x, 0, row, |line| - 1, line[|line| - 1]))
  }

  lemma {:induction false} FittingRowShows(d: Drawing, row: int)
    requires LaidOut(d) && Labelled(d) && row >= 0
    requires Fits(0, Marks(d, Shift(d), row))
    ensures ShowsRow(d, Shift(d), row, Row(d, row))
  {
    var marks := Marks(d, Shift(d), row);
    LaidOutIsSized(d);
    MarksHaveText(d, Shift(d), row);
    FitsIffApart(0, marks);
    RenderExact("", marks);
    InkOfRow(d, Shift(d), row, Row(d, row));
  }

  lemma {:induction false} InkIsMarks(d: Drawing, x: int, row: int)
    requires Sized(d) && row >= 0
    ensures forall col, ch :: HasInk(d, x, 0, row, col, ch) <==> InkIn(Marks(d, x, row), col, ch)
  {
    forall col, ch ensures HasInk(d, x, 0, row, col, ch) <==> InkIn(Marks(d, x, row), col, ch) {
      MarksAreInk(d, x, 0, row, col, ch);
    }
  }

  lemma {:induction false} InkOfRow(d: Drawing, x: int, row: int, line: string)
    requires Sized(d) && row >= 0
    requires Shows(0, Marks(d, x, row), line) && AllTexts(Marks(d, x, row))
    requires AllFrom(0, Marks(d, x, row))
    ensures ShowsRow(d, x, row, line)
  {
    var marks := Marks(d, x, row);
    InkIsMarks(d, x, row);
    if line != "" {
      var last := marks[|marks| - 1];
      assert last in marks && Covers(last, |line| - 1);
    }
  }

  /** Rendering is exact for every covered tree: each printed row is the drawing's row. */
  lemma {:induction false} CoveredTreesRenderExactly(d: Drawing, row: int)
    requires LaidOut(d) && Labelled(d) && Covered(d) && 0 <= row
    ensures ShowsRow(d, Shift(d), row, Row(d, row))
  {
    CoveredIsClear(d, Shift(d), row);
    RowExactIff(d, row);
  }

  /** A row that shows the drawing has no ink where no mark belongs. */
  lemma {:induction false} ShownInk(d: Drawing, x: int, row: int, line: string, col: int)
    requires Sized(d) && row >= 0 && ShowsRow(d, x, row, line)
    requires 0 <= col < |line| && EmptyAt(Marks(d, x, row), col)
    ensures line[col] == ' '
  {
    MarksAreInk(d, x, 0, row, col, line[col]);
  }

  /** A row that shows the drawing has every mark in its column. */
  lemma {:induction false} ShownRowFits(d: Drawing, row: int)
    requires LaidOut(d) && Legible(d) && row >= 0
    requires ShowsRow(d, Shift(d), row, Row(d, row))
    ensures Fits(0, Marks(d, Shift(d), row))
  {
    LaidOutIsSized(d);
    MarksEndInInk(d, Shift(d), row);
    if !Fits(0, Marks(d, Shift(d), row)) {
      var col := PushedMark("", Marks(d, Shift(d), row));
      ShownInk(d, Shift(d), row, Row(d, row), col);
    }
  }

  /** For any tree, a row comes out with every mark in its column exactly when no lone
      stroke runs into the sibling subtree, and exactly then it shows the drawing. */
  lemma {:induction false} RowExactIff(d: Drawing, row: int)
    requires LaidOut(d) && Labelled(d) && row >= 0
    ensures
      var marks := Marks(d, Shift(d), row);
      PrintedColumns(0, marks) == Columns(marks) <==> StraysClear(d, Shift(d), row)
    ensures StraysClear(d, Shift(d), row) ==> ShowsRow(d, Shift(d), row, Row(d, row))
    ensures Legible(d) && ShowsRow(d, Shift(d), row, Row(d, row)) ==> StraysClear(d, Shift(d), row)
  {
    var marks := Marks(d, Shift(d), row);
    ShiftSuffices(d, row);
    MarksHaveText(d, Shift(d), row);
    FitsIffApart(0, marks);
    InPlaceIffFits(0, marks);
    ApartIffStraysClear(d, Shift(d), row);
    if StraysClear(d, Shift(d), row) {
      FittingRowShows(d, row);
    } else if Legible(d) && ShowsRow(d, Shift(d), row, Row(d, row)) {
      ShownRowFits(d, row);
    }
  }

  /** Label separation, for all trees: on a shared row a label of the right subtree starts
      at least TREE_GAP columns after every label of the left subtree ends. */
  lemma {:induction false} LabelsApart(d: Drawing, x: int, row: int, f1: int, l1: int, f2: int, l2: int)
    requires d.Node? && LaidOut(d) && Labelled(d)
    requires HasLabel(d.left, x - d.edge - 1, d.edge + 1, row, f1, l1)
    requires HasLabel(d.right, x + d.edge + 1, d.edge + 1, row, f2, l2)
    ensures l1 + TREE_GAP <= f2
    ensures !Shortened(d) ==> l1 + TREE_GAP + 1 <= f2
  {
    LaidOutIsSized(d);
    LabelInProfiles(d.left, 0, x - d.edge - 1, d.edge + 1, row, f1, l1);
    LabelInProfiles(d.right, 0, x + d.edge + 1, d.edge + 1, row, f2, l2);
    EdgeSeparates(d, row - d.edge - 1);
  }

  lemma {:induction false} LabelInProfiles(d: Drawing, a: int, x: int, y: int, row: int, first: int, last: int)
    requires Labelled(d) && Sized(d) && HasLabel(d, x, y, row, first, last)
    ensures y <= row < y + HeightOf(d)
    ensures LProf(d, a, row - y) + (x - a) <= first
    ensures last <= RProf(d, a, row - y) + (x - a)
  {
    HeightPositive(d);
    HeightPositive(d.left);
    HeightPositive(d.right);
    if row != y || first != LabelStart(d, x) || last != LabelEnd(d, x) {
      if HasLabel(d.left, x - d.edge - 1, y + d.edge + 1, row, first, last) {
        LabelInProfiles(d.left, a - d.edge - 1, x - d.edge - 1, y + d.edge + 1, row, first, last);
      } else {
        LabelInProfiles(d.right, a + d.edge + 1, x + d.edge + 1, y + d.edge + 1, row, first, last);
      }
    }
  }
}
