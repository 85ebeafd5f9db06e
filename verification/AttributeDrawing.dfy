/** Queries without clauses that select one attribute: their layout in closed form, and by the
    lengths of their texts which of them are drawn right. */
module AttributeDrawing {
  import opened Layout
  import opened Rendering
  import opened Queries
  import opened Labels
  import opened QueryDrawing
  import F = Frontend
  import A = AsciiTree

  // ---------------------------------------------------------------- the from clause

  /** A from clause with its edge given. */
  function FromTree(name: string, typ: string, str: string, e: int): Drawing {
    Node("from", PARENT_LEFT,
         Above(name, PARENT_LEFT, Leaf(typ, PARENT_LEFT), Nil),
         Above("unary", PARENT_RIGHT, Leaf(str, PARENT_LEFT), Nil), e, e + 4)
  }

  predicate Short(text: string) { 1 <= |text| < LABEL_SIZE }

  /** What the declaration and the data source ask for. */
  function FromSpread(name: string, typ: string, str: string): int {
    Max(6 + |name| / 2, 4 + |typ| / 2 + (|str| - 1) / 2)
  }

  lemma {:induction false} FromRow(name: string, typ: string, str: string, row: int)
    requires Short(name) && Short(typ) && Short(str) && 0 <= row < 3
    ensures
      var l := Above(name, PARENT_LEFT, Leaf(typ, PARENT_LEFT), Nil);
      var r := Above("unary", PARENT_RIGHT, Leaf(str, PARENT_LEFT), Nil);
      var demand := TREE_GAP + 1 + RProf(l, 0, row) - LProf(r, 0, row);
      if row == 0 then demand == 6 + |name| / 2
      else if row == 1 then demand < 0
      else demand == 4 + |typ| / 2 + (|str| - 1) / 2
  {
    var l := Above(name, PARENT_LEFT, Leaf(typ, PARENT_LEFT), Nil);
    var r := Above("unary", PARENT_RIGHT, Leaf(str, PARENT_LEFT), Nil);
    if row == 2 {
      assert RProf(l, 0, 2) == RProf(Leaf(typ, PARENT_LEFT), -2, 0);
      assert LProf(r, 0, 2) == LProf(Leaf(str, PARENT_LEFT), -2, 0);
    }
  }

  lemma {:induction false} FromEdge(name: string, typ: string, str: string)
    requires Short(name) && Short(typ) && Short(str)
    ensures
      var l := Above(name, PARENT_LEFT, Leaf(typ, PARENT_LEFT), Nil);
      var r := Above("unary", PARENT_RIGHT, Leaf(str, PARENT_LEFT), Nil);
      EdgeLength(l, r) == (FromSpread(name, typ, str) + 1) / 2 - 1
  {
    var l := Above(name, PARENT_LEFT, Leaf(typ, PARENT_LEFT), Nil);
    var r := Above("unary", PARENT_RIGHT, Leaf(str, PARENT_LEFT), Nil);
    FromRow(name, typ, str, 0);
    FromRow(name, typ, str, 1);
    FromRow(name, typ, str, 2);
    SpreadIs(l, r, 3, FromSpread(name, typ, str));
    assert CommonRows(l, r) == 3;
  }

  /** The edge leaves room for both children. */
  predicate Roomy(name: string, typ: string, str: string, e: int) {
    && Short(name) && Short(typ) && Short(str)
    && e >= 3 && |name| / 2 <= 2 * e - 4 && |typ| / 2 + (|str| - 1) / 2 <= 2 * e - 2
  }

  /** The right profile of a from clause. */
  lemma {:induction false} FromRight(name: string, typ: string, str: string, e: int, row: int)
    requires Roomy(name, typ, str, e) && 0 <= row <= e + 3
    ensures RProf(FromTree(name, typ, str, e), 0, row) ==
            if row == 0 then 2
            else if row <= e then row
            else if row == e + 1 then e + 3
            else if row == e + 2 then -INFINITY
            else e - 1 + |str| / 2
  {
    var f := FromTree(name, typ, str, e);
    if row > e {
      assert RProf(f, 0, row) == Max(RProf(f.left, -e - 1, row - e - 1), RProf(f.right, e + 1, row - e - 1));
      if row == e + 3 {
        assert RProf(f.left, -e - 1, 2) == RProf(Leaf(typ, PARENT_LEFT), -e - 3, 0);
        assert RProf(f.right, e + 1, 2) == RProf(Leaf(str, PARENT_LEFT), e - 1, 0);
      }
    }
  }

  /** The only lone strokes of a from clause are the two above its leaves. */
  lemma {:induction false} FromLone(name: string, typ: string, str: string, e: int, x: int, row: int, m: Mark)
    requires e >= 0 && row >= 0 && IsMark(FromTree(name, typ, str, e), x, row, m)
    ensures !m.LoneBackslash()
    ensures m.LoneSlash() ==> row == e + 2 && m.End() <= x + e + 1
  {
    var f := FromTree(name, typ, str, e);
    if row > e {
      var lower := row - e - 1;
      if IsMark(f.left, x - e - 1, lower, m) {
        StemMarks(f.left, x - e - 1, lower, m);
      } else {
        StemMarks(f.right, x + e + 1, lower, m);
      }
    }
  }

  lemma {:induction false} LeafMark(text: string, dir: int, x: int, row: int, m: Mark)
    requires row >= 0 && IsMark(Leaf(text, dir), x, row, m)
    ensures row == 0 && m == Mark(LabelStart(Leaf(text, dir), x), text, Label)
  {
  }

  /** The marks of a label above one leaf on its left. */
  lemma {:induction false} StemMarks(d: Drawing, x: int, row: int, m: Mark)
    requires d.Node? && d.left.Node? && d == Above(d.text, d.dir, Leaf(d.left.text, PARENT_LEFT), Nil)
    requires row >= 0 && IsMark(d, x, row, m)
    ensures row <= 2 && !m.LoneBackslash()
    ensures row == 1 <==> m.LoneSlash()
    ensures row == 1 ==> m == Mark(x - 1, "/", Slash(true))
  {
    if row >= 2 { LeafMark(d.left.text, PARENT_LEFT, x - 2, row - 2, m); }
  }

  /** They do not run into each other's subtree. */
  lemma {:induction false} FromClear(name: string, typ: string, str: string, e: int, x: int, row: int)
    requires e >= 0 && row >= 0
    ensures StraysClear(FromTree(name, typ, str, e), x, row)
  {
    var f := FromTree(name, typ, str, e);
    if row > e {
      var xl, xr, lower := x - e - 1, x + e + 1, row - e - 1;
      StemClear(f.left, xl, lower);
      StemClear(f.right, xr, lower);
      MarksAreMarks(f.left, xl, lower);
      MarksAreMarks(f.right, xr, lower);
      forall m, n | m in Marks(f.left, xl, lower) && n in Marks(f.right, xr, lower)
                    && (m.LoneSlash() || n.LoneBackslash())
        ensures m.End() <= n.col
      {
        StemMarks(f.left, xl, lower, m);
        StemMarks(f.right, xr, lower, n);
      }
      ClearFromBelow(f, x, row, xl, xr, lower);
    }
  }

  lemma {:induction false} StemClear(d: Drawing, x: int, row: int)
    requires d.Node? && d.left.Node? && d == Above(d.text, d.dir, Leaf(d.left.text, PARENT_LEFT), Nil)
    ensures StraysClear(d, x, row)
  {
    assert Covered(d.left);
    CoveredIsClear(d, x, row);
  }

  // ---------------------------------------------------------------- the body

  function SelectedTree(id: string, prop: string, e: int): Drawing {
    Node("unary", PARENT_RIGHT, Leaf(id, PARENT_LEFT), Leaf(prop, PARENT_RIGHT), e, e + 2)
  }

  function BodyTree(id: string, prop: string, e: int): Drawing {
    BodyDrawing(SelectedTree(id, prop, e))
  }

  lemma {:induction false} SelectedEdge(id: string, prop: string)
    requires Short(id) && Short(prop) && |id| / 2 + |prop| / 2 > 0
    ensures
      var d := Joined("unary", PARENT_RIGHT, Leaf(id, PARENT_LEFT), Leaf(prop, PARENT_RIGHT));
      && d.edge == (4 + |id| / 2 + |prop| / 2) / 2 - 1
      && (Shortened(d) <==> (|id| / 2 + |prop| / 2) % 2 == 1)
  {
    var l, r := Leaf(id, PARENT_LEFT), Leaf(prop, PARENT_RIGHT);
    assert CommonRows(l, r) == 1;
    assert Spread(l, r, 0) == 4;
    assert RProf(l, 0, 0) == |id| / 2 && LProf(r, 0, 0) == -(|prop| / 2);
    assert Spread(l, r, 1) == 4 + |id| / 2 + |prop| / 2;
  }

  predicate RoomyBody(id: string, prop: string, e: int) {
    Short(id) && Short(prop) && 3 <= e <= MAX_HEIGHT && |id| / 2 + |prop| / 2 + 1 <= 2 * e
  }

  /** The left profile of a body. */
  lemma {:induction false} BodyLeft(id: string, prop: string, e: int, row: int)
    requires RoomyBody(id, prop, e) && 0 <= row <= e + 5
    ensures LProf(BodyTree(id, prop, e), 0, row) ==
            if row == 0 then -2
            else if row == 1 then -1
            else if row == 2 then -4
            else if row == 3 then INFINITY
            else SelectedStart(id, e, row - 4)
  {
    var d := SelectedTree(id, prop, e);
    var b := BodyTree(id, prop, e);
    if row >= 2 {
      assert LProf(b, 0, row) == LProf(b.left, -2, row - 2);
      if row >= 4 {
        assert LProf(b.left, -2, row - 2) == LProf(d, 0, row - 4);
        SelectedLeft(id, prop, e, row - 4);
      }
    }
  }

  /** The left profile of a selected attribute. */
  function SelectedStart(id: string, e: int, row: int): int {
    if row == 0 then -2 else if row <= e then -row else -(e + 1) - (|id| - 1) / 2
  }

  lemma {:induction false} SelectedLeft(id: string, prop: string, e: int, row: int)
    requires RoomyBody(id, prop, e) && 0 <= row <= e + 1
    ensures LProf(SelectedTree(id, prop, e), 0, row) == SelectedStart(id, e, row)
  {
    var d := SelectedTree(id, prop, e);
    if row == e + 1 {
      assert LProf(d.left, -e - 1, 0) == -(e + 1) - (|id| - 1) / 2;
      assert LProf(d.right, e + 1, 0) == e + 1 - |prop| / 2;
    }
  }

  lemma {:induction false} SelectedNotLone(id: string, prop: string, e: int, x: int, row: int, n: Mark)
    requires e >= 0 && row >= 0 && IsMark(SelectedTree(id, prop, e), x, row, n)
    ensures !n.LoneBackslash() && row <= e + 1
  {
    var d := SelectedTree(id, prop, e);
    if row > e {
      if IsMark(d.left, x - e - 1, row - e - 1, n) {
        LeafMark(id, PARENT_LEFT, x - e - 1, row - e - 1, n);
      } else {
        LeafMark(prop, PARENT_RIGHT, x + e + 1, row - e - 1, n);
      }
    }
  }

  lemma {:induction false} SelectMarks(id: string, prop: string, e: int, x: int, row: int, n: Mark)
    requires e >= 0 && row >= 0
    requires IsMark(Above("select", PARENT_LEFT, Nil, SelectedTree(id, prop, e)), x, row, n)
    ensures row <= e + 3
    ensures n.LoneBackslash() ==> row == 1 && n.col == x + 1
  {
    var d := Above("select", PARENT_LEFT, Nil, SelectedTree(id, prop, e));
    if row >= 2 {
      assert !IsMark(d.left, x - 2, row - 2, n);
      SelectedNotLone(id, prop, e, x + 2, row - 2, n);
    }
  }

  /** The only lone stroke on the right is the one below `select`. */
  lemma {:induction false} BodyMarks(id: string, prop: string, e: int, x: int, row: int, n: Mark)
    requires e >= 0 && row >= 0 && IsMark(BodyTree(id, prop, e), x, row, n)
    ensures row <= e + 5
    ensures n.LoneBackslash() ==> row == 3 && n.col == x - 1
  {
    if row >= 2 { SelectMarks(id, prop, e, x - 2, row - 2, n); }
  }

  lemma {:induction false} BodyClear(id: string, prop: string, e: int, x: int, row: int)
    ensures StraysClear(BodyTree(id, prop, e), x, row)
  {
    var d := SelectedTree(id, prop, e);
    assert Covered(d.left) && Covered(d.right);
    assert Covered(d);
    assert Covered(BodyTree(id, prop, e).left);
    CoveredIsClear(BodyTree(id, prop, e), x, row);
  }

  // ---------------------------------------------------------------- the whole query

  /** A query's drawing with the edges of both halves given. */
  function QueryTree(f: Drawing, b: Drawing): Drawing {
    Joined("query", PARENT_NONE, f, b)
  }

  predicate Parts(name: string, typ: string, str: string, id: string, prop: string, e: int, a: int) {
    Roomy(name, typ, str, e) && RoomyBody(id, prop, a)
  }

  /** The stroke above the data source's leaf comes out beside the labels of the attribute. */
  predicate Level(e: int, a: int) { e == a + 3 }

  lemma {:induction false} QueryRow(name: string, typ: string, str: string, id: string, prop: string, e: int, a: int,
                                    row: int)
    returns (demand: int)
    requires Parts(name, typ, str, id, prop, e, a) && 0 <= row < e + 4 && row < a + 6
    ensures demand == TREE_GAP + 1 + RProf(FromTree(name, typ, str, e), 0, row) - LProf(BodyTree(id, prop, a), 0, row)
    ensures row == 2 ==> demand == 10
    ensures row == e + 1 <= a + 4 ==> demand >= 2 * e + 4
    ensures Level(e, a) ==> demand <= 2 * e + 4
  {
    FromRight(name, typ, str, e, row);
    BodyLeft(id, prop, a, row);
    demand := TREE_GAP + 1 + RProf(FromTree(name, typ, str, e), 0, row) - LProf(BodyTree(id, prop, a), 0, row);
  }

  /** How long the edge below the root is. */
  lemma {:induction false} QueryEdge(name: string, typ: string, str: string, id: string, prop: string, e: int, a: int)
    requires Parts(name, typ, str, id, prop, e, a)
    ensures
      var g := EdgeLength(FromTree(name, typ, str, e), BodyTree(id, prop, a));
      && 2 * (g + 1) >= 10
      && (e + 1 <= a + 4 ==> 2 * (g + 1) >= 2 * e + 4)
      && (Level(e, a) ==> g == e + 1)
  {
    var f, b := FromTree(name, typ, str, e), BodyTree(id, prop, a);
    var n := CommonRows(f, b);
    assert n == Min(e + 4, a + 6);
    var d2 := QueryRow(name, typ, str, id, prop, e, a, 2);
    if e + 1 <= a + 4 { var d := QueryRow(name, typ, str, id, prop, e, a, e + 1); }
    if Level(e, a) {
      forall row | 0 <= row < n
        ensures TREE_GAP + 1 + RProf(f, 0, row) - LProf(b, 0, row) <= 2 * e + 4
      {
        var d := QueryRow(name, typ, str, id, prop, e, a, row);
      }
      SpreadIs(f, b, n, 2 * e + 4);
    }
  }

  lemma {:induction false} TreesFit(name: string, typ: string, str: string, id: string, prop: string, e: int, a: int)
    requires Parts(name, typ, str, id, prop, e, a)
    ensures Labelled(FromTree(name, typ, str, e)) && Sized(FromTree(name, typ, str, e))
    ensures Labelled(BodyTree(id, prop, a)) && Sized(BodyTree(id, prop, a))
  {
    LeafFits(name, PARENT_LEFT);
    LeafFits(typ, PARENT_LEFT);
    LeafFits(str, PARENT_LEFT);
    LeafFits(id, PARENT_LEFT);
    LeafFits(prop, PARENT_RIGHT);
    assert Sized(SelectedTree(id, prop, a)) && Labelled(SelectedTree(id, prop, a));
    StemFits("select", PARENT_LEFT, Nil, SelectedTree(id, prop, a));
    StemFits("qbody", PARENT_RIGHT, BodyTree(id, prop, a).left, Nil);
    StemFits(name, PARENT_LEFT, Leaf(typ, PARENT_LEFT), Nil);
    StemFits("unary", PARENT_RIGHT, Leaf(str, PARENT_LEFT), Nil);
  }

  lemma {:induction false} LeafFits(text: string, dir: int)
    requires text != ""
    ensures Labelled(Leaf(text, dir)) && Sized(Leaf(text, dir))
  {
    assert Sized(Nil) && Labelled(Nil);
  }

  lemma {:induction false} StemFits(text: string, dir: int, l: Drawing, r: Drawing)
    requires text != "" && Labelled(l) && Sized(l) && Labelled(r) && Sized(r)
    requires (l.Node? && l.height >= 1 && r.Nil?) || (l.Nil? && r.Node? && r.height >= 1)
    ensures Labelled(Above(text, dir, l, r)) && Sized(Above(text, dir, l, r))
  {
  }

  /** The marks of both halves at a row with a lone stroke, one right of the other. */
  lemma {:induction false} PairClear(name: string, typ: string, str: string, id: string, prop: string, e: int, a: int,
                                     xl: int, xr: int, row: int, m: Mark, n: Mark)
    requires Parts(name, typ, str, id, prop, e, a) && row >= 0
    requires xr - xl >= 10 && (e + 1 <= a + 4 ==> xr - xl >= 2 * e + 4)
    requires IsMark(FromTree(name, typ, str, e), xl, row, m) && IsMark(BodyTree(id, prop, a), xr, row, n)
    requires m.LoneSlash() || n.LoneBackslash()
    requires row == e + 2 && Level(e, a) ==> |id| <= 12
    ensures m.End() <= n.col
  {
    var f, b := FromTree(name, typ, str, e), BodyTree(id, prop, a);
    TreesFit(name, typ, str, id, prop, e, a);
    FromLone(name, typ, str, e, xl, row, m);
    BodyMarks(id, prop, a, xr, row, n);
    if n.LoneBackslash() {
      ProfilesBound(f, 0, xl, row, m);
      FromRight(name, typ, str, e, 3);
    } else {
      ProfilesBound(b, 0, xr, row, n);
      BodyLeft(id, prop, a, row);
    }
  }

  /** When the row of the data source's stroke is the row of the attribute's labels, a long
      identifier reaches the stroke. */
  lemma {:induction false} StrokeMeetsLabel(name: string, typ: string, str: string, id: string, prop: string,
                                            e: int, a: int, xl: int, xr: int)
    returns (stroke: Mark, word: Mark)
    requires Parts(name, typ, str, id, prop, e, a) && Level(e, a) && |id| > 12 && xr - xl == 2 * e + 4
    ensures stroke in Marks(FromTree(name, typ, str, e), xl, e + 2) && word in Marks(BodyTree(id, prop, a), xr, e + 2)
    ensures stroke.LoneSlash() && stroke.End() > word.col
  {
    var f, b := FromTree(name, typ, str, e), BodyTree(id, prop, a);
    stroke := Mark(xl + e, "/", Slash(true));
    word := Mark(LabelStart(Leaf(id, PARENT_LEFT), xr - a - 1), id, Label);
    assert IsMark(f.right, xl + e + 1, 1, stroke);
    assert IsMark(f, xl, e + 2, stroke);
    assert IsMark(b.left.right, xr, a + 1, word);
    assert IsMark(b.left, xr - 2, a + 3, word);
    assert IsMark(b, xr, a + 5, word);
    MarksAreMarks(f, xl, e + 2);
    MarksAreMarks(b, xr, e + 2);
  }

  lemma {:induction false} RowClearElse(name: string, typ: string, str: string, id: string, prop: string, e: int,
                                        a: int,
                                        d: Drawing, x: int, level: int)
    requires Parts(name, typ, str, id, prop, e, a) && level >= 0
    requires d == QueryTree(FromTree(name, typ, str, e), BodyTree(id, prop, a))
    requires !(level == d.edge + e + 3 && Level(e, a) && |id| > 12)
    ensures StraysClear(d, x, level)
  {
    QueryEdge(name, typ, str, id, prop, e, a);
    if level > d.edge {
      var xl, xr, row := x - d.edge - 1, x + d.edge + 1, level - d.edge - 1;
      FromClear(name, typ, str, e, xl, row);
      BodyClear(id, prop, a, xr, row);
      RowClear(name, typ, str, id, prop, e, a, xl, xr, row);
      ClearFromBelow(d, x, level, xl, xr, row);
    }
  }

  lemma {:induction false} RowUnclear(name: string, typ: string, str: string, id: string, prop: string, e: int, a: int,
                                      d: Drawing, x: int)
    requires Parts(name, typ, str, id, prop, e, a) && Level(e, a) && |id| > 12
    requires d == QueryTree(FromTree(name, typ, str, e), BodyTree(id, prop, a))
    ensures d.edge == e + 1 && !StraysClear(d, x, d.edge + e + 3)
  {
    QueryEdge(name, typ, str, id, prop, e, a);
    var xl, xr := x - d.edge - 1, x + d.edge + 1;
    var stroke, word := StrokeMeetsLabel(name, typ, str, id, prop, e, a, xl, xr);
    Unclear(d, x, d.edge + e + 3, Marks(d.left, xl, e + 2), Marks(d.right, xr, e + 2), stroke, word);
  }

  /** So that is the only way in which the query's drawing can go wrong. */
  lemma {:induction false} RowClearIff(name: string, typ: string, str: string, id: string, prop: string, e: int, a: int,
                                       d: Drawing, x: int, level: int)
    requires Parts(name, typ, str, id, prop, e, a) && level >= 0
    requires d == QueryTree(FromTree(name, typ, str, e), BodyTree(id, prop, a))
    ensures StraysClear(d, x, level) <==> !(level == d.edge + e + 3 && Level(e, a) && |id| > 12)
    ensures Level(e, a) ==> d.edge == e + 1
  {
    if level == d.edge + e + 3 && Level(e, a) && |id| > 12 {
      RowUnclear(name, typ, str, id, prop, e, a, d, x);
    } else {
      RowClearElse(name, typ, str, id, prop, e, a, d, x, level);
    }
    QueryEdge(name, typ, str, id, prop, e, a);
  }

  lemma {:induction false} ClearPair(d: Drawing, x: int, level: int, ml: seq<Mark>, mr: seq<Mark>, m: Mark, n: Mark)
    requires d.Node? && level > d.edge && StraysClear(d, x, level)
    requires ml == Marks(d.left, x - d.edge - 1, level - d.edge - 1)
    requires mr == Marks(d.right, x + d.edge + 1, level - d.edge - 1)
    requires m in ml && n in mr && m.LoneSlash()
    ensures m.End() <= n.col
  {
    assert LoneStrokesBefore(ml, mr);
  }

  lemma {:induction false} Unclear(d: Drawing, x: int, level: int, ml: seq<Mark>, mr: seq<Mark>, m: Mark, n: Mark)
    requires d.Node? && level > d.edge
    requires ml == Marks(d.left, x - d.edge - 1, level - d.edge - 1)
    requires mr == Marks(d.right, x + d.edge + 1, level - d.edge - 1)
    requires m in ml && n in mr && m.LoneSlash() && m.End() > n.col
    ensures !StraysClear(d, x, level)
  {
    if StraysClear(d, x, level) { ClearPair(d, x, level, ml, mr, m, n); }
  }

  lemma {:induction false} RowClear(name: string, typ: string, str: string, id: string, prop: string, e: int, a: int,
                                    xl: int, xr: int, row: int)
    requires Parts(name, typ, str, id, prop, e, a) && row >= 0
    requires xr - xl >= 10 && (e + 1 <= a + 4 ==> xr - xl >= 2 * e + 4)
    requires row == e + 2 && Level(e, a) ==> |id| <= 12
    ensures LoneStrokesBefore(Marks(FromTree(name, typ, str, e), xl, row), Marks(BodyTree(id, prop, a), xr, row))
  {
    var f, b := FromTree(name, typ, str, e), BodyTree(id, prop, a);
    MarksAreMarks(f, xl, row);
    MarksAreMarks(b, xr, row);
    forall m, n | m in Marks(f, xl, row) && n in Marks(b, xr, row) && (m.LoneSlash() || n.LoneBackslash())
      ensures m.End() <= n.col
    {
      PairClear(name, typ, str, id, prop, e, a, xl, xr, row, m, n);
    }
  }

  // ---------------------------------------------------------------- by the lengths of the texts

  /** The texts fit the labels they become part of. */
  predicate ShortTexts(name: string, source: string, id: string, attribute: string) {
    |name| <= 75 && |source| <= 74 && |id| <= 75 && |attribute| <= 73
  }

  function SourceEdge(t: F.TypeDef, name: string, source: string): int {
    (Max(8 + |name| / 2, 9 + |TypeName(t)| / 2 + |source| / 2) + 1) / 2 - 1
  }

  function LabelsEdge(id: string, attribute: string): int {
    (9 + |id| / 2 + |attribute| / 2) / 2 - 1
  }

  lemma {:induction false} FromRoomy(n: string, y: string, r: string, e: int)
    requires 4 <= |n| <= 79 && 7 <= |y| <= 13 && 5 <= |r| <= 79 && e == (FromSpread(n, y, r) + 1) / 2 - 1
    ensures Roomy(n, y, r, e) && e <= 42
  {
  }

  lemma {:induction false} FromShape(n: string, y: string, r: string, e: int)
    requires Roomy(n, y, r, e) && e == (FromSpread(n, y, r) + 1) / 2 - 1
    ensures Joined("from", PARENT_LEFT, Above(n, PARENT_LEFT, Leaf(y, PARENT_LEFT), Nil),
                   Above("unary", PARENT_RIGHT, Leaf(r, PARENT_LEFT), Nil)) == FromTree(n, y, r, e)
  {
    FromEdge(n, y, r);
  }

  lemma {:induction false} SourceEdgeIs(t: F.TypeDef, name: string, source: string, n: string, y: string, r: string)
    requires |n| == |name| + 4 && |y| == |TypeName(t)| + 6 && |r| == |source| + 5
    ensures SourceEdge(t, name, source) == (FromSpread(n, y, r) + 1) / 2 - 1
  {
  }

  lemma {:induction false} FromIs(t: F.TypeDef, name: string, source: string, n: string, y: string, r: string)
    requires |name| <= 75 && |source| <= 74
    requires n == "id(" + name + ")" && y == "type(" + TypeName(t) + ")" && r == "str(" + source + ")"
    ensures
      var e := SourceEdge(t, name, source);
      Roomy(n, y, r, e) && e <= 42 && FromDrawing(t, name, source) == FromTree(n, y, r, e)
  {
    TypeLength(t);
    SourceEdgeIs(t, name, source, n, y, r);
    FromRoomy(n, y, r, SourceEdge(t, name, source));
    FromShape(n, y, r, SourceEdge(t, name, source));
  }

  lemma {:induction false} TypeLength(t: F.TypeDef)
    ensures 1 <= |TypeName(t)| <= 7
  {
  }

  lemma {:induction false} SelectedShape(i: string, p: string, a: int)
    requires RoomyBody(i, p, a) && a == (4 + |i| / 2 + |p| / 2) / 2 - 1
    ensures Joined("unary", PARENT_RIGHT, Leaf(i, PARENT_LEFT), Leaf(p, PARENT_RIGHT)) == SelectedTree(i, p, a)
  {
    SelectedEdge(i, p);
  }

  lemma {:induction false} LabelsEdgeIs(id: string, attribute: string, i: string, p: string)
    requires |i| == |id| + 4 && |p| == |attribute| + 6
    ensures LabelsEdge(id, attribute) == (4 + |i| / 2 + |p| / 2) / 2 - 1
  {
  }

  lemma {:induction false} SelectedIs(id: string, attribute: string, i: string, p: string)
    requires |id| <= 75 && |attribute| <= 73 && i == "id(" + id + ")" && p == "prop(" + attribute + ")"
    ensures
      var a := LabelsEdge(id, attribute);
      RoomyBody(i, p, a) && a <= 41 && SelectedDrawing(id, attribute) == SelectedTree(i, p, a)
  {
    LabelsEdgeIs(id, attribute, i, p);
    BodyRoomy(i, p, LabelsEdge(id, attribute));
    SelectedShape(i, p, LabelsEdge(id, attribute));
  }

  lemma {:induction false} BodyRoomy(i: string, p: string, a: int)
    requires 4 <= |i| <= 79 && 6 <= |p| <= 79 && a == (4 + |i| / 2 + |p| / 2) / 2 - 1
    ensures RoomyBody(i, p, a) && a <= 41
  {
  }

  lemma {:induction false} DemandBound(name: string, typ: string, str: string, id: string, prop: string, e: int,
                                       a: int, row: int)
    requires Parts(name, typ, str, id, prop, e, a) && e <= 42 && a <= 41 && 0 <= row < e + 4 && row < a + 6
    ensures TREE_GAP + 1 + RProf(FromTree(name, typ, str, e), 0, row) - LProf(BodyTree(id, prop, a), 0, row) <= 200
  {
    FromRight(name, typ, str, e, row);
    BodyLeft(id, prop, a, row);
  }

  lemma {:induction false} NotTooHigh(name: string, typ: string, str: string, id: string, prop: string, e: int, a: int)
    requires Parts(name, typ, str, id, prop, e, a) && e <= 42 && a <= 41
    ensures QueryTree(FromTree(name, typ, str, e), BodyTree(id, prop, a)).height <= MAX_HEIGHT
  {
    var f, b := FromTree(name, typ, str, e), BodyTree(id, prop, a);
    var n := CommonRows(f, b);
    forall row | 0 <= row < n ensures TREE_GAP + 1 + RProf(f, 0, row) - LProf(b, 0, row) <= 200 {
      DemandBound(name, typ, str, id, prop, e, a, row);
    }
    SpreadIs(f, b, n, 200);
  }

  lemma {:induction false} FromTextsFit(t: F.TypeDef, name: string, source: string)
    requires |name| <= 75 && |source| <= 74
    ensures F.Tagged(BuildFrom(F.SimpleType(t), name, source)) && TextsFit(BuildFrom(F.SimpleType(t), name, source))
  {
    var from := BuildFrom(F.SimpleType(t), name, source);
    FromTagged(F.SimpleType(t), name, source);
    assert TextsFit(F.Empty);
    assert TextsFit(from.left.left);
    assert TextsFit(from.left);
    assert TextsFit(from.right.left);
    assert TextsFit(from.right);
  }

  lemma {:induction false} SelectedTextsFit(id: string, attribute: string)
    requires |id| <= 75 && |attribute| <= 73
    ensures F.Tagged(BuildExpression(Attribute(id, attribute))) && TextsFit(BuildExpression(Attribute(id, attribute)))
  {
    var t := BuildExpression(Attribute(id, attribute));
    ExpressionTagged(Attribute(id, attribute));
    assert TextsFit(F.Empty);
    assert TextsFit(t.left) && TextsFit(t.right);
  }

  lemma {:induction false} AttributeTextsFit(t: F.TypeDef, name: string, source: string, id: string, attribute: string)
    requires ShortTexts(name, source, id, attribute)
    ensures F.Tagged(BuildQuery(AttributeQuery(t, name, source, id, attribute)))
    ensures TextsFit(BuildQuery(AttributeQuery(t, name, source, id, attribute)))
  {
    var tree := BuildQuery(AttributeQuery(t, name, source, id, attribute));
    QueryTagged(AttributeQuery(t, name, source, id, attribute));
    FromTextsFit(t, name, source);
    SelectedTextsFit(id, attribute);
    assert TextsFit(F.Empty);
    assert TextsFit(tree.right.left);
    assert TextsFit(tree.right);
  }

  /** The drawing of the query in closed form. */
  lemma {:induction false} AttributeTree(t: F.TypeDef, name: string, source: string, id: string, attribute: string,
                                         n: string, y: string, r: string, i: string, p: string)
    requires ShortTexts(name, source, id, attribute)
    requires n == "id(" + name + ")" && y == "type(" + TypeName(t) + ")" && r == "str(" + source + ")"
    requires i == "id(" + id + ")" && p == "prop(" + attribute + ")"
    ensures
      var (e, a) := (SourceEdge(t, name, source), LabelsEdge(id, attribute));
      && Parts(n, y, r, i, p, e, a) && e <= 42 && a <= 41
      && Drawn(AttributeQuery(t, name, source, id, attribute)) == QueryTree(FromTree(n, y, r, e), BodyTree(i, p, a))
  {
    AttributeDrawn(t, name, source, id, attribute);
    FromIs(t, name, source, n, y, r);
    SelectedIs(id, attribute, i, p);
  }

  /** Every row is clear, but one if the edges agree and the identifier is long. */
  lemma {:induction false} AttributeRows(t: F.TypeDef, name: string, source: string, id: string, attribute: string,
                                         x: int, level: int)
    requires ShortTexts(name, source, id, attribute) && level >= 0
    ensures
      var (e, a) := (SourceEdge(t, name, source), LabelsEdge(id, attribute));
      var d := Drawn(AttributeQuery(t, name, source, id, attribute));
      && d.Node? && d.height <= MAX_HEIGHT && d.height >= d.edge + e + 4 && (Level(e, a) ==> d.edge == e + 1)
      && (StraysClear(d, x, level) <==> !(level == d.edge + e + 3 && Level(e, a) && |id| > 8))
  {
    var n, y, r := "id(" + name + ")", "type(" + TypeName(t) + ")", "str(" + source + ")";
    var i, p := "id(" + id + ")", "prop(" + attribute + ")";
    var e, a := SourceEdge(t, name, source), LabelsEdge(id, attribute);
    AttributeTree(t, name, source, id, attribute, n, y, r, i, p);
    NotTooHigh(n, y, r, i, p, e, a);
    RowClearIff(n, y, r, i, p, e, a, Drawn(AttributeQuery(t, name, source, id, attribute)), x, level);
    assert |i| == |id| + 4;
  }

  /** Such a query fits the printer's buffers, and its picture is its drawing exactly when the
      stroke below its data source is not on the row of the attribute's labels, or the
      identifier has at most eight characters. */
  lemma {:induction false} AttributeDrawnIff(t: F.TypeDef, name: string, source: string, id: string, attribute: string)
    requires ShortTexts(name, source, id, attribute)
    ensures A.Drawable(BuildQuery(AttributeQuery(t, name, source, id, attribute)))
    ensures A.PictureShows(Drawn(AttributeQuery(t, name, source, id, attribute))) <==>
            !(SourceEdge(t, name, source) == LabelsEdge(id, attribute) + 3 && |id| > 8)
  {
    var q := AttributeQuery(t, name, source, id, attribute);
    var d := Drawn(q);
    var e := SourceEdge(t, name, source);
    AttributeTextsFit(t, name, source, id, attribute);
    AttributeRows(t, name, source, id, attribute, Shift(d), 0);
    QueryDrawableIff(q);
    QueryPictureIff(q);
    forall level | 0 <= level < d.height
      ensures StraysClear(d, Shift(d), level) <==>
              !(level == d.edge + e + 3 && e == LabelsEdge(id, attribute) + 3 && |id| > 8)
    {
      AttributeRows(t, name, source, id, attribute, Shift(d), level);
    }
    assert 0 <= d.edge + e + 3 < d.height;
    if e == LabelsEdge(id, attribute) + 3 && |id| > 8 {
      assert !StraysClear(d, Shift(d), d.edge + e + 3);
    }
  }

  /** Between the two labels of the attribute the gap is one column narrower exactly when the
      halved lengths of identifier and attribute have an even sum. */
  lemma {:induction false} AttributeGap(id: string, attribute: string)
    requires |id| <= 75 && |attribute| <= 73
    ensures
      var d := SelectedDrawing(id, attribute);
      && (Shortened(d) <==> (|id| / 2 + |attribute| / 2) % 2 == 0)
      && LabelStart(d.right, d.edge + 1) - LabelEnd(d.left, -d.edge - 1) == TREE_GAP + if Shortened(d) then 0 else 1
  {
    var i, p := "id(" + id + ")", "prop(" + attribute + ")";
    SelectedIs(id, attribute, i, p);
    SelectedGap(i, p, LabelsEdge(id, attribute), |id| / 2, |attribute| / 2);
  }

  lemma {:induction false} SelectedGap(i: string, p: string, a: int, k: nat, l: nat)
    requires RoomyBody(i, p, a) && |i| / 2 == k + 2 && |p| / 2 == l + 3 && a == (9 + k + l) / 2 - 1
    ensures
      var d := SelectedTree(i, p, a);
      && (Shortened(d) <==> (k + l) % 2 == 0)
      && LabelStart(d.right, a + 1) - LabelEnd(d.left, -a - 1) == TREE_GAP + if Shortened(d) then 0 else 1
  {
    SelectedEdge(i, p);
  }

  // ---------------------------------------------------------------- three queries

  const NAME := "xxxxxxxxx"
  const DATA := "'vvvvvvvv'"

  lemma {:induction false} WrongEdges()
    ensures SourceEdge(F.TypeString, NAME, DATA) == 8 && LabelsEdge(NAME, "p") == 5 && ShortTexts(NAME, DATA, NAME, "p")
    ensures |NAME| == 9
  {
  }

  /** `from string xxxxxxxxx in 'vvvvvvvv' select xxxxxxxxx.p;` is drawn wrong, on row 20. */
  lemma {:induction false} DrawnWrong()
    ensures
      var d := Drawn(AttributeQuery(F.TypeString, NAME, DATA, NAME, "p"));
      !StraysClear(d, Shift(d), 20) && !A.PictureShows(d)
  {
    WrongEdges();
    AttributeDrawnIff(F.TypeString, NAME, DATA, NAME, "p");
    var q := AttributeQuery(F.TypeString, NAME, DATA, NAME, "p");
    AttributeRows(F.TypeString, NAME, DATA, NAME, "p", Shift(Drawn(q)), 20);
  }

  /** `from file x in 'dfg' select x.md5;` is drawn right. */
  lemma {:induction false} DrawnRight()
    ensures A.PictureShows(Drawn(AttributeQuery(F.TypeFile, "x", "'dfg'", "x", "md5")))
  {
    assert |"x"| == 1 && |"'dfg'"| == 5 && |"md5"| == 3;
    AttributeDrawnIff(F.TypeFile, "x", "'dfg'", "x", "md5");
  }

  /** In a query that selects `x.crc32` the gap between the two last labels is the narrow one. */
  lemma {:induction false} GapLost()
    ensures
      var d := SelectedDrawing("x", "crc32");
      Shortened(d) && LabelStart(d.right, d.edge + 1) - LabelEnd(d.left, -d.edge - 1) == TREE_GAP
  {
    assert |"x"| == 1 && |"crc32"| == 5;
    AttributeGap("x", "crc32");
  }
}
