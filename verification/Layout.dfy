/** Geometry of the ASCII tree drawing of treeutil.c, on values.

    A `Drawing` is what the linked `asciinode_t` records amount to.  This module says
    where every character of a drawing belongs (`HasInk`), how edge lengths and heights
    are chosen (`LayOut`), and proves that the rows the printer produces put every
    character in its place. */
module Layout {

  const MAX_HEIGHT := 1000
  const INFINITY := 0x10_0000  // 1 << 20
  const TREE_GAP := 3

  const PARENT_LEFT := -1
  const PARENT_NONE := 0
  const PARENT_RIGHT := 1

  datatype Drawing =
    | Nil
    | Node(text: string, dir: int, left: Drawing, right: Drawing, edge: int, height: int)

  function Max(a: int, b: int): int { if a < b then b else a }

  function Min(a: int, b: int): int { if a < b then a else b }

  function HeightOf(d: Drawing): int { if d.Nil? then 0 else d.height }

  /** First column of the label of a node centred at column `x`. */
  function LabelStart(d: Drawing, x: int): int
    requires d.Node?
  {
    x - (if d.dir == PARENT_LEFT then |d.text| - 1 else |d.text|) / 2
  }

  /** Last column of the label of a node centred at column `x`. */
  function LabelEnd(d: Drawing, x: int): int
    requires d.Node?
  {
    x + (if d.dir == PARENT_LEFT then |d.text| else |d.text| - 1) / 2
  }

  /** A label is as wide as its text and centred on its node; an even one leans towards the
      parent, to the right below the left edge of its parent. */
  lemma {:induction false} LabelCentred(d: Drawing, x: int)
    requires d.Node? && |d.text| >= 1
    ensures LabelEnd(d, x) - LabelStart(d, x) + 1 == |d.text|
    ensures (LabelEnd(d, x) - x) - (x - LabelStart(d, x))
         == if |d.text| % 2 == 1 then 0 else if d.dir == PARENT_LEFT then 1 else -1
  {
  }

  /** Labels are never empty: C's division then agrees with Dafny's. */
  predicate Labelled(d: Drawing) {
    d.Node? ==> |d.text| >= 1 && Labelled(d.left) && Labelled(d.right)
  }

  // ---------------------------------------------------------------- where characters go

  /** Character `ch` belongs at (`row`, `col`) when the root of `d` is centred at (`y`, `x`). */
  ghost predicate HasInk(d: Drawing, x: int, y: int, row: int, col: int, ch: char) {
    d.Node? && (
      || (row == y && 0 <= col - LabelStart(d, x) < |d.text| && d.text[col - LabelStart(d, x)] == ch)
      || (d.left.Node? && y < row <= y + d.edge && col == x - (row - y) && ch == '/')
      || (d.right.Node? && y < row <= y + d.edge && col == x + (row - y) && ch == '\\')
      || HasInk(d.left, x - d.edge - 1, y + d.edge + 1, row, col, ch)
      || HasInk(d.right, x + d.edge + 1, y + d.edge + 1, row, col, ch))
  }

  /** A label occupying columns `first` to `last` of `row`. */
  ghost predicate HasLabel(d: Drawing, x: int, y: int, row: int, first: int, last: int) {
    d.Node? && (
      || (row == y && first == LabelStart(d, x) && last == LabelEnd(d, x))
      || HasLabel(d.left, x - d.edge - 1, y + d.edge + 1, row, first, last)
      || HasLabel(d.right, x + d.edge + 1, y + d.edge + 1, row, first, last))
  }

  // ---------------------------------------------------------------- profiles

  /** The left profile: least column of a label or a '/' on `row`, capped by INFINITY. */
  function LProf(d: Drawing, x: int, row: int): (m: int)
    ensures m <= INFINITY
  {
    if d.Nil? || row < 0 then INFINITY
    else if row == 0 then Min(INFINITY, LabelStart(d, x))
    else if row <= d.edge then (if d.left.Node? then Min(INFINITY, x - row) else INFINITY)
    else Min(LProf(d.left, x - d.edge - 1, row - d.edge - 1),
             LProf(d.right, x + d.edge + 1, row - d.edge - 1))
  }

  /** The right profile: greatest column of a label or a '\' on `row`, capped by -INFINITY. */
  function RProf(d: Drawing, x: int, row: int): (m: int)
    ensures m >= -INFINITY
  {
    if d.Nil? || row < 0 then -INFINITY
    else if row == 0 then Max(-INFINITY, LabelEnd(d, x))
    else if row <= d.edge then (if d.right.Node? then Max(-INFINITY, x + row) else -INFINITY)
    else Max(RProf(d.left, x - d.edge - 1, row - d.edge - 1),
             RProf(d.right, x + d.edge + 1, row - d.edge - 1))
  }

  // ---------------------------------------------------------------- edge lengths and heights

  /** The `delta` of compute_edge_lengths after its first `n` rows. */
  function Spread(l: Drawing, r: Drawing, n: nat): (delta: int)
    ensures delta >= 4
    ensures forall i :: 0 <= i < n ==> delta >= TREE_GAP + 1 + RProf(l, 0, i) - LProf(r, 0, i)
  {
    if n == 0 then 4
    else Max(Spread(l, r, n - 1), TREE_GAP + 1 + RProf(l, 0, n - 1) - LProf(r, 0, n - 1))
  }

  function CommonRows(l: Drawing, r: Drawing): (n: nat) {
    if l.Nil? || r.Nil? || Min(r.height, l.height) < 0 then 0 else Min(r.height, l.height)
  }

  function EdgeLength(l: Drawing, r: Drawing): (e: int)
    ensures e >= 0
  {
    if l.Nil? && r.Nil? then 0
    else
      var delta := Spread(l, r, CommonRows(l, r));
      var tight := ((l.Node? && l.height == 1) || (r.Node? && r.height == 1)) && delta > 4;
      ((if tight then delta - 1 else delta) + 1) / 2 - 1
  }

  function HeightFrom(l: Drawing, r: Drawing, e: int): int {
    var h := if l.Node? then Max(l.height + e + 1, 1) else 1;
    if r.Node? then Max(r.height + e + 1, h) else h
  }

  /** What compute_edge_lengths makes of a tree. */
  function LayOut(d: Drawing): Drawing {
    match d
    case Nil => Nil
    case Node(text, dir, left, right, _, _) =>
      var l := LayOut(left);
      var r := LayOut(right);
      var e := EdgeLength(l, r);
      Node(text, dir, l, r, e, HeightFrom(l, r, e))
  }

  /** Heights agree with edge lengths: all that the profile passes rely on. */
  predicate Sized(d: Drawing) {
    d.Node? ==>
      && Sized(d.left) && Sized(d.right)
      && d.edge >= 0
      && d.height == HeightFrom(d.left, d.right, d.edge)
  }

  predicate LaidOut(d: Drawing) {
    d.Node? ==>
      && LaidOut(d.left) && LaidOut(d.right)
      && d.edge == EdgeLength(d.left, d.right)
      && d.height == HeightFrom(d.left, d.right, d.edge)
  }

  lemma {:induction false} LaidOutIsSized(d: Drawing)
    requires LaidOut(d)
    ensures Sized(d)
  {
    if d.Node? {
      LaidOutIsSized(d.left);
      LaidOutIsSized(d.right);
    }
  }

  lemma {:induction false} LayOutIsLaidOut(d: Drawing)
    ensures LaidOut(LayOut(d))
    ensures Labelled(d) ==> Labelled(LayOut(d))
  {
    if d.Node? {
      LayOutIsLaidOut(d.left);
      LayOutIsLaidOut(d.right);
    }
  }

  /** The rows of a sized drawing are exactly 0 .. height-1. */
  lemma {:induction false} HeightPositive(d: Drawing)
    requires Sized(d)
    ensures HeightOf(d) >= (if d.Node? then 1 else 0)
  {
  }

  lemma {:induction false} NoRowsOutside(d: Drawing, x: int, row: int)
    requires Sized(d) && (row < 0 || row >= HeightOf(d))
    ensures LProf(d, x, row) == INFINITY && RProf(d, x, row) == -INFINITY
  {
    if d.Node? && row >= 0 {
      HeightPositive(d.left);
      HeightPositive(d.right);
      if row > d.edge {
        NoRowsOutside(d.left, x - d.edge - 1, row - d.edge - 1);
        NoRowsOutside(d.right, x + d.edge + 1, row - d.edge - 1);
      }
    }
  }

  /** The picture is as high as the drawing: nothing is below its last row, and the last row
      is not empty. */
  lemma {:induction false} LastRowHasInk(d: Drawing, x: int, y: int) returns (col: int, ch: char)
    requires d.Node? && Sized(d) && Labelled(d)
    ensures HasInk(d, x, y, y + d.height - 1, col, ch)
  {
    HeightPositive(d.left);
    HeightPositive(d.right);
    if d.left.Node? && d.height == d.left.height + d.edge + 1 {
      col, ch := LastRowHasInk(d.left, x - d.edge - 1, y + d.edge + 1);
    } else if d.right.Node? {
      col, ch := LastRowHasInk(d.right, x + d.edge + 1, y + d.edge + 1);
    } else {
      col, ch := LabelStart(d, x), d.text[0];
    }
  }

  lemma {:induction false} InkInHeight(d: Drawing, x: int, y: int, row: int, col: int, ch: char)
    requires Sized(d) && HasInk(d, x, y, row, col, ch)
    ensures y <= row < y + d.height
  {
    HeightPositive(d.left);
    HeightPositive(d.right);
    if HasInk(d.left, x - d.edge - 1, y + d.edge + 1, row, col, ch) {
      InkInHeight(d.left, x - d.edge - 1, y + d.edge + 1, row, col, ch);
    }
    if HasInk(d.right, x + d.edge + 1, y + d.edge + 1, row, col, ch) {
      InkInHeight(d.right, x + d.edge + 1, y + d.edge + 1, row, col, ch);
    }
  }
}
