/** The ASCII tree drawer of treeutil.c: linked nodes whose edge lengths and heights are
    filled in place, two scratch arrays shared by every call, and a running cursor. */
module AsciiTree {
  import opened Layout
  import opened Rendering
  import F = Frontend
  import opened Labels

  class AsciiNode {
    var left: AsciiNode?
    var right: AsciiNode?
    var edgeLength: int
    var height: int
    var lablen: int
    var parentDir: int
    var text: string

    constructor (left: AsciiNode?, right: AsciiNode?, text: string)
      requires |text| < LABEL_SIZE
      ensures this.left == left && this.right == right && this.text == text && lablen == |text|
      ensures parentDir == PARENT_NONE && edgeLength == 0 && height == 0
    {
      this.left, this.right, this.text, lablen := left, right, text, |text|;
      parentDir, edgeLength, height := PARENT_NONE, 0, 0;
    }

    /** Records on which side of its parent this node hangs. */
    method HangOn(dir: int, ghost t: Shape, ghost d: Drawing, ghost all: set<object>)
      requires t.Fork? && t.node == this && Draws(t, d) && Tidy(t) && Nodes(t) <= all
      modifies this`parentDir
      ensures Draws(t, d.(dir := dir))
    {
      assert Draws(t.left, d.left) && Draws(t.right, d.right);
      parentDir := dir;
    }
  }

  /** The nodes of a linked tree in their places. */
  datatype Shape = Bare | Fork(node: AsciiNode, left: Shape, right: Shape)

  function Root(t: Shape): AsciiNode? {
    if t.Bare? then null else t.node
  }

  function Nodes(t: Shape): set<object> {
    if t.Bare? then {} else {t.node} + Nodes(t.left) + Nodes(t.right)
  }

  /** Writing a scratch array changes no node. */
  lemma {:induction false} NoArrayInTree(a: array<int>, t: Shape)
    ensures a !in Nodes(t)
  {
    if t.Fork? {
      NoArrayInTree(a, t.left);
      NoArrayInTree(a, t.right);
    }
  }

  /** No node has two places. */
  ghost predicate Tidy(t: Shape) {
    t.Fork? ==>
      && Tidy(t.left) && Tidy(t.right)
      && t.node !in Nodes(t.left) && t.node !in Nodes(t.right) && Nodes(t.left) !! Nodes(t.right)
  }

  /** The linked nodes of `t` amount to the drawing `d`. */
  ghost predicate Draws(t: Shape, d: Drawing)
    reads Nodes(t)
  {
    if t.Bare? then d.Nil?
    else
      && d.Node?
      && IsRoot(t.node, d)
      && t.node.left == Root(t.left) && t.node.right == Root(t.right)
      && Draws(t.left, d.left) && Draws(t.right, d.right)
  }

  ghost predicate IsRoot(n: AsciiNode, d: Drawing)
    reads n
  {
    && d.Node? && n.text == d.text && n.lablen == |d.text| && n.parentDir == d.dir
    && n.edgeLength == d.edge && n.height == d.height
  }

  lemma {:induction false} DrawsLaidOut(t: Shape, d: Drawing)
    requires t.Fork? && d.Node? && Draws(t.left, LayOut(d.left)) && Draws(t.right, LayOut(d.right))
    requires t.node.left == Root(t.left) && t.node.right == Root(t.right) && IsRoot(t.node, LayOut(d))
    ensures Draws(t, LayOut(d))
  {
  }

  ghost predicate IsRootBut(n: AsciiNode, d: Drawing)
    reads n
  {
    d.Node? && n.text == d.text && n.lablen == |d.text| && n.parentDir == d.dir
  }

  class TreePrinter {
    const lprofile: array<int>
    const rprofile: array<int>
    var printNext: int
    var line: string         // what the current line holds
    var lines: seq<string>   // the finished lines

    ghost predicate Ready() {
      lprofile.Length == MAX_HEIGHT && rprofile.Length == MAX_HEIGHT && lprofile != rprofile
    }

    constructor ()
      ensures Ready() && lines == [] && line == ""
      ensures fresh(lprofile) && fresh(rprofile) && Capped(lprofile[..]) && Floored(rprofile[..])
    {
      lprofile := new int[MAX_HEIGHT](_ => 0);
      rprofile := new int[MAX_HEIGHT](_ => 0);
      printNext, line, lines := 0, "", [];
    }

    /** The rows of the node itself: its label, and the '/' strokes to its left child. */
    method LowerOwnRows(node: AsciiNode, x: int, y: int, ghost d: Drawing)
      requires Ready() && IsRoot(node, d) && |d.text| >= 1 && d.edge >= 0
      requires (node.left != null <==> d.left.Node?) && (node.right != null <==> d.right.Node?)
      requires 0 <= y < MAX_HEIGHT && Capped(lprofile[..])
      requires d.left.Node? ==> y + d.edge < MAX_HEIGHT
      modifies lprofile
      ensures LoweredByRoot(old(lprofile[..]), lprofile[..], d, x, y, MAX_HEIGHT)
    {
      ghost var before := lprofile[..];
      var isleft := if node.parentDir == PARENT_LEFT then 1 else 0;
      lprofile[y] := Min(lprofile[y], x - (node.lablen - isleft) / 2);
      if node.left != null {
        var i := 1;
        while i <= node.edgeLength && y + i < MAX_HEIGHT
          invariant 1 <= i <= node.edgeLength + 1
          invariant LoweredByRoot(before, lprofile[..], d, x, y, y + i)
        {
          lprofile[y + i] := Min(lprofile[y + i], x - i);
          i := i + 1;
        }
      }
    }

    /** Lowers the scratch rows to the left profile of the tree centred at (x, y). */
    method ComputeTreeLProfile(node: AsciiNode?, x: int, y: int, ghost t: Shape, ghost d: Drawing,
                               ghost all: set<object>)
      requires Ready() && node == Root(t) && Draws(t, d) && Nodes(t) <= all
      requires Sized(d) && Labelled(d)
      requires d.Node? ==> 0 <= y && y + d.height <= MAX_HEIGHT
      requires Capped(lprofile[..])
      modifies lprofile
      ensures Lowered(old(lprofile[..]), lprofile[..], d, x, y)
      decreases t
    {
      if node == null { return; }
      ghost var before := lprofile[..];
      SizedRows(d);
      NoArrayInTree(lprofile, t.left);
      NoArrayInTree(lprofile, t.right);
      assert Draws(t.left, d.left) && Draws(t.right, d.right);
      LowerOwnRows(node, x, y, d);
      ghost var own := lprofile[..];
      LoweredCapped(before, own, d, x, y);
      ComputeTreeLProfile(node.left, x - node.edgeLength - 1, y + node.edgeLength + 1, t.left, d.left, all);
      ghost var half := lprofile[..];
      ComputeTreeLProfile(node.right, x + node.edgeLength + 1, y + node.edgeLength + 1, t.right, d.right, all);
      LoweredAgain(before, own, half, lprofile[..], d, x, y);
    }

    /** The rows of the node itself: its label, and the '\' strokes to its right child. */
    method RaiseOwnRows(node: AsciiNode, x: int, y: int, ghost d: Drawing)
      requires Ready() && IsRoot(node, d) && |d.text| >= 1 && d.edge >= 0
      requires (node.left != null <==> d.left.Node?) && (node.right != null <==> d.right.Node?)
      requires 0 <= y < MAX_HEIGHT && Floored(rprofile[..])
      requires d.right.Node? ==> y + d.edge < MAX_HEIGHT
      modifies rprofile
      ensures RaisedByRoot(old(rprofile[..]), rprofile[..], d, x, y, MAX_HEIGHT)
    {
      ghost var before := rprofile[..];
      var notleft := if node.parentDir != PARENT_LEFT then 1 else 0;
      rprofile[y] := Max(rprofile[y], x + (node.lablen - notleft) / 2);
      if node.right != null {
        var i := 1;
        while i <= node.edgeLength && y + i < MAX_HEIGHT
          invariant 1 <= i <= node.edgeLength + 1
          invariant RaisedByRoot(before, rprofile[..], d, x, y, y + i)
        {
          rprofile[y + i] := Max(rprofile[y + i], x + i);
          i := i + 1;
        }
      }
    }

    /** Raises the scratch rows to the right profile of the tree centred at (x, y). */
    method ComputeTreeRProfile(node: AsciiNode?, x: int, y: int, ghost t: Shape, ghost d: Drawing,
                               ghost all: set<object>)
      requires Ready() && node == Root(t) && Draws(t, d) && Nodes(t) <= all
      requires Sized(d) && Labelled(d)
      requires d.Node? ==> 0 <= y && y + d.height <= MAX_HEIGHT
      requires Floored(rprofile[..])
      modifies rprofile
      ensures Raised(old(rprofile[..]), rprofile[..], d, x, y)
      decreases t
    {
      if node == null { return; }
      ghost var before := rprofile[..];
      SizedRows(d);
      NoArrayInTree(rprofile, t.left);
      NoArrayInTree(rprofile, t.right);
      assert Draws(t.left, d.left) && Draws(t.right, d.right);
      RaiseOwnRows(node, x, y, d);
      ghost var own := rprofile[..];
      RaisedFloored(before, own, d, x, y);
      ComputeTreeRProfile(node.left, x - node.edgeLength - 1, y + node.edgeLength + 1, t.left, d.left, all);
      ghost var half := rprofile[..];
      ComputeTreeRProfile(node.right, x + node.edgeLength + 1, y + node.edgeLength + 1, t.right, d.right, all);
      RaisedAgain(before, own, half, rprofile[..], d, x, y);
    }

    /** Resets the rows of `node` and fills in its left profile. */
    method FillLProfile(node: AsciiNode, ghost t: Shape, ghost d: Drawing, ghost all: set<object>)
      requires Ready() && node == Root(t) && Draws(t, d) && Nodes(t) <= all
      requires Sized(d) && Labelled(d) && d.Node? && d.height <= MAX_HEIGHT
      requires Capped(lprofile[..])
      modifies lprofile
      ensures Capped(lprofile[..])
      ensures forall i :: 0 <= i < d.height ==> lprofile[i] == LProf(d, 0, i)
    {
      NoArrayInTree(lprofile, t);
      var i := 0;
      while i < node.height && i < MAX_HEIGHT
        invariant 0 <= i && Draws(t, d)
        invariant Capped(lprofile[..])
        invariant forall k :: 0 <= k < i && k < MAX_HEIGHT ==> lprofile[k] == INFINITY
      {
        lprofile[i] := INFINITY;
        i := i + 1;
      }
      ghost var before := lprofile[..];
      ComputeTreeLProfile(node, 0, 0, t, d, all);
      LoweredFromReset(before, lprofile[..], d, d.height);
    }

    /** Resets the rows of `node` and fills in its right profile. */
    method FillRProfile(node: AsciiNode, ghost t: Shape, ghost d: Drawing, ghost all: set<object>)
      requires Ready() && node == Root(t) && Draws(t, d) && Nodes(t) <= all
      requires Sized(d) && Labelled(d) && d.Node? && d.height <= MAX_HEIGHT
      requires Floored(rprofile[..])
      modifies rprofile
      ensures Floored(rprofile[..])
      ensures forall i :: 0 <= i < d.height ==> rprofile[i] == RProf(d, 0, i)
    {
      NoArrayInTree(rprofile, t);
      var i := 0;
      while i < node.height && i < MAX_HEIGHT
        invariant 0 <= i && Draws(t, d)
        invariant Floored(rprofile[..])
        invariant forall k :: 0 <= k < i && k < MAX_HEIGHT ==> rprofile[k] == -INFINITY
      {
        rprofile[i] := -INFINITY;
        i := i + 1;
      }
      ghost var before := rprofile[..];
      ComputeTreeRProfile(node, 0, 0, t, d, all);
      RaisedFromReset(before, rprofile[..], d, d.height);
    }

    /** The row loop of compute_edge_lengths. */
    method SpreadRows(hmin: int, ghost l: Drawing, ghost r: Drawing) returns (delta: int)
      requires Ready() && 0 <= hmin <= MAX_HEIGHT
      requires forall i :: 0 <= i < hmin ==> rprofile[i] == RProf(l, 0, i) && lprofile[i] == LProf(r, 0, i)
      ensures delta == Spread(l, r, hmin)
    {
      delta := 4;
      var i := 0;
      while i < hmin
        invariant 0 <= i <= hmin && delta == Spread(l, r, i)
      {
        delta := Max(delta, TREE_GAP + 1 + rprofile[i] - lprofile[i]);
        i := i + 1;
      }
    }

    /** The edge length of a node whose subtrees are laid out. */
    method ChooseEdgeLength(left: AsciiNode?, right: AsciiNode?, ghost tl: Shape, ghost tr: Shape,
                            ghost l: Drawing, ghost r: Drawing, ghost all: set<object>)
      returns (edgeLength: int)
      requires Ready() && left == Root(tl) && right == Root(tr)
      requires Draws(tl, l) && Draws(tr, r) && Nodes(tl) <= all && Nodes(tr) <= all
      requires Labelled(l) && Sized(l) && HeightOf(l) <= MAX_HEIGHT
      requires Labelled(r) && Sized(r) && HeightOf(r) <= MAX_HEIGHT
      requires Capped(lprofile[..]) && Floored(rprofile[..])
      modifies lprofile, rprofile
      ensures edgeLength == EdgeLength(l, r)
      ensures Capped(lprofile[..]) && Floored(rprofile[..])
    {
      HeightPositive(l);
      HeightPositive(r);
      NoArraysInTree(tl);
      NoArraysInTree(tr);
      if right == null && left == null {
        edgeLength := 0;
      } else {
        var hmin;
        if left != null {
          FillRProfile(left, tl, l, all);
          hmin := left.height;
        } else {
          hmin := 0;
        }
        if right != null {
          FillLProfile(right, tr, r, all);
          hmin := Min(right.height, hmin);
        } else {
          hmin := 0;
        }
        var delta := SpreadRows(hmin, l, r);
        if ((left != null && left.height == 1) || (right != null && right.height == 1)) && delta > 4 {
          delta := delta - 1;
        }
        edgeLength := (delta + 1) / 2 - 1;
      }
    }

    /** The node's own fields, once its subtrees are done. */
    method SetLengths(node: AsciiNode, e: int, ghost t: Shape, ghost d: Drawing)
      requires t.Fork? && t.node == node && d.Node? && IsRootBut(node, d) && e == LayOut(d).edge
      requires node !in Nodes(t.left) + Nodes(t.right)
      requires Draws(t.left, LayOut(d.left)) && Draws(t.right, LayOut(d.right))
      requires node.left == Root(t.left) && node.right == Root(t.right)
      modifies node
      ensures Draws(t, LayOut(d))
    {
      node.edgeLength := e;
      var h := 1;
      if node.left != null {
        h := Max(node.left.height + node.edgeLength + 1, h);
      }
      if node.right != null {
        h := Max(node.right.height + node.edgeLength + 1, h);
      }
      node.height := h;
      DrawsLaidOut(t, d);
    }

    /** Fills in the edge lengths and heights of a tree, children first. */
    method ComputeEdgeLengths(node: AsciiNode?, ghost t: Shape, ghost d: Drawing, ghost all: set<object>)
      requires Ready() && node == Root(t) && Draws(t, d) && Tidy(t) && Nodes(t) <= all
      requires Labelled(d) && HeightOf(LayOut(d)) <= MAX_HEIGHT
      requires Capped(lprofile[..]) && Floored(rprofile[..])
      modifies Nodes(t), lprofile, rprofile
      ensures Draws(t, LayOut(d))
      ensures Capped(lprofile[..]) && Floored(rprofile[..])
      decreases t
    {
      if node == null { return; }
      ghost var l, r := LayOut(d.left), LayOut(d.right);
      LaidOutChildren(d);
      NoArraysInTree(t);
      ComputeEdgeLengths(node.left, t.left, d.left, all);
      assert Draws(t.right, d.right);
      ComputeEdgeLengths(node.right, t.right, d.right, all);
      assert Draws(t.left, l);
      var e := ChooseEdgeLength(node.left, node.right, t.left, t.right, l, r, all);
      assert Draws(t.left, l) && Draws(t.right, r);
      SetLengths(node, e, t, d);
    }

    /** Blanks up to column `col`, if the cursor is not there yet, then `text`. */
    method PrintText(col: int, text: string)
      requires printNext == |line|
      modifies this`printNext, this`line
      ensures line == old(line) + Blanks(col - |old(line)|) + text && printNext == |line|
    {
      ghost var before := line;
      var i := 0;
      while i < col - printNext
        invariant 0 <= i <= Max(0, col - |before|) && printNext == |before|
        invariant line == before + Blanks(i)
      {
        line := line + " ";
        i := i + 1;
      }
      printNext := printNext + i;
      line := line + text;
      printNext := printNext + |text|;
    }

    /** The first row of a node: its label. */
    method PrintLabel(node: AsciiNode, x: int, ghost d: Drawing)
      requires IsRoot(node, d) && |d.text| >= 1 && printNext == |line|
      modifies this`printNext, this`line
      ensures line == Render(old(line), Marks(d, x, 0)) && printNext == |line|
    {
      RenderLabel(line, d, x);
      var isleft := if node.parentDir == PARENT_LEFT then 1 else 0;
      PrintText(x - (node.lablen - isleft) / 2, node.text);
    }

    /** A row of a node's edges: the strokes to its children. */
    method PrintStrokes(node: AsciiNode, x: int, level: int, ghost d: Drawing)
      requires IsRoot(node, d) && (node.left != null <==> d.left.Node?) && (node.right != null <==> d.right.Node?)
      requires 0 < level <= node.edgeLength && printNext == |line|
      modifies this`printNext, this`line
      ensures line == Render(old(line), Marks(d, x, level)) && printNext == |line|
    {
      RenderStrokes(line, d, x, level);
      if node.left != null {
        PrintText(x - level, "/");
      }
      if node.right != null {
        PrintText(x + level, "\\");
      }
    }

    /** Prints the part of a row that lies in one subtree. */
    method PrintLevel(node: AsciiNode?, x: int, level: int, ghost t: Shape, ghost d: Drawing, ghost all: set<object>)
      requires node == Root(t) && Draws(t, d) && Nodes(t) <= all && Labelled(d)
      requires level >= 0 && printNext == |line|
      modifies this`printNext, this`line
      ensures line == Render(old(line), Marks(d, x, level)) && printNext == |line|
      decreases t, 1
    {
      if node == null {
        return;
      }
      if level == 0 {
        PrintLabel(node, x, d);
      } else if node.edgeLength >= level {
        PrintStrokes(node, x, level, d);
      } else {
        PrintBelow(node, x, level, t, d, all);
      }
    }

    /** A row below a node's edges. */
    method PrintBelow(node: AsciiNode, x: int, level: int, ghost t: Shape, ghost d: Drawing, ghost all: set<object>)
      requires node == Root(t) && Draws(t, d) && Nodes(t) <= all && Labelled(d)
      requires level > 0 && level > node.edgeLength && printNext == |line|
      modifies this`printNext, this`line
      ensures line == Render(old(line), Marks(d, x, level)) && printNext == |line|
      decreases t, 0
    {
      NoPrinterInTree(this, t.left);
      NoPrinterInTree(this, t.right);
      assert Draws(t.left, d.left) && Draws(t.right, d.right);
      var xl, xr, lower := x - node.edgeLength - 1, x + node.edgeLength + 1, level - node.edgeLength - 1;
      RenderBelow(line, d, x, level, xl, xr, lower);
      PrintLevel(node.left, xl, lower, t.left, d.left, all);
      PrintLevel(node.right, xr, lower, t.right, d.right, all);
    }

    /** The least column of the filled-in left profile, and 0. */
    method LeftEdge(height: int, ghost d: Drawing) returns (xmin: int)
      requires Ready() && 0 <= height <= MAX_HEIGHT
      requires forall i :: 0 <= i < height ==> lprofile[i] == LProf(d, 0, i)
      ensures xmin == XMin(d, height)
    {
      xmin := 0;
      var i := 0;
      while i < height && i < MAX_HEIGHT
        invariant 0 <= i <= height && xmin == XMin(d, i)
      {
        xmin := Min(xmin, lprofile[i]);
        i := i + 1;
      }
    }

    /** One row of the row loop. */
    method PrintRow(proot: AsciiNode, x: int, level: int, ghost t: Shape, ghost d: Drawing, ghost all: set<object>)
      requires proot == Root(t) && Draws(t, d) && Nodes(t) <= all && Labelled(d)
      requires line == "" && level >= 0
      modifies this`printNext, this`line, this`lines
      ensures line == "" && lines == old(lines) + [Render("", Marks(d, x, level))]
    {
      NoPrinterInTree(this, t);
      printNext := 0;
      PrintLevel(proot, x, level, t, d, all);
      lines := lines + [line];
      line := "";
    }

    /** The row loop of tree_print_ascii_tree. */
    method PrintRows(proot: AsciiNode, xmin: int, ghost t: Shape, ghost d: Drawing, ghost all: set<object>)
      requires proot == Root(t) && Draws(t, d) && Nodes(t) <= all && Labelled(d)
      requires xmin == -Shift(d) && d.height >= 0 && line == ""
      modifies this`printNext, this`line, this`lines
      ensures line == "" && lines == old(lines) + PictureRows(d)
    {
      NoPrinterInTree(this, t);
      ghost var rows := PictureRows(d);
      ghost var before := lines;
      assert before + rows[..0] == before;
      var i := 0;
      while i < proot.height
        invariant 0 <= i <= |rows| && Draws(t, d) && line == ""
        invariant lines == before + rows[..i]
      {
        PrintRow(proot, -xmin, i, t, d, all);
        RowNext(before, rows, i, lines);
        i := i + 1;
      }
      assert rows[..i] == rows;
    }

    /** Lays out a tree that has been copied, and finds the left edge of its drawing. */
    method PlaceTree(proot: AsciiNode, ghost t: Shape, ghost sketch: Drawing, ghost d: Drawing, ghost all: set<object>)
      returns (xmin: int)
      requires Ready() && proot == Root(t) && Draws(t, sketch) && Tidy(t) && Nodes(t) <= all
      requires d == LayOut(sketch) && Labelled(sketch) && HeightOf(d) <= MAX_HEIGHT
      requires Capped(lprofile[..]) && Floored(rprofile[..])
      modifies Nodes(t), lprofile, rprofile
      ensures Draws(t, d) && xmin == -Shift(d)
      ensures Capped(lprofile[..]) && Floored(rprofile[..])
    {
      LayOutFits(sketch);
      NoArraysInTree(t);
      ComputeEdgeLengths(proot, t, sketch, all);
      FillLProfile(proot, t, d, all);
      xmin := LeftEdge(proot.height, d);
    }

    /** Lays out and prints a tree that has been copied. */
    method DrawTree(proot: AsciiNode, ghost t: Shape, ghost sketch: Drawing, ghost d: Drawing, ghost all: set<object>)
      requires Ready() && proot == Root(t) && Draws(t, sketch) && Tidy(t) && Nodes(t) <= all
      requires d == LayOut(sketch) && Labelled(sketch) && HeightOf(d) <= MAX_HEIGHT
      requires Capped(lprofile[..]) && Floored(rprofile[..]) && line == ""
      modifies Nodes(t), this`printNext, this`line, this`lines, lprofile, rprofile
      ensures line == "" && lines == old(lines) + Picture(d)
      ensures Capped(lprofile[..]) && Floored(rprofile[..])
    {
      LayOutFits(sketch);
      NoPrinterInTree(this, t);
      var xmin := PlaceTree(proot, t, sketch, d, all);
      PrintRows(proot, xmin, t, d, all);
      if proot.height >= MAX_HEIGHT {
        lines := lines + [TOO_TALL];
      }
    }

    /** Copies the syntax tree, lays the copy out and prints it. */
    method TreePrintAsciiTree(t: F.FendNode?, ghost shape: F.Shape, ghost ast: F.Ast, ghost given: set<object>)
      requires Ready() && t == F.Root(shape) && F.Denotes(shape, ast) && F.Nodes(shape) <= given && Drawable(ast)
      requires Capped(lprofile[..]) && Floored(rprofile[..]) && line == ""
      modifies this`printNext, this`line, this`lines, lprofile, rprofile
      ensures line == "" && lines == old(lines) + Picture(LayOut(Sketch(ast, PARENT_NONE)))
      ensures Capped(lprofile[..]) && Floored(rprofile[..])
    {
      if t == null { return; }
      SketchLabelled(ast, PARENT_NONE);
      var proot, copy, all := BuildAsciiTreeRecursive(t, shape, ast, given);
      DrawTree(proot, copy, Sketch(ast, PARENT_NONE), LayOut(Sketch(ast, PARENT_NONE)), all);
    }
  }

  lemma {:induction false} RowNext(before: seq<string>, rows: seq<string>, i: nat, lines: seq<string>)
    requires i < |rows| && lines == before + rows[..i] + [rows[i]]
    ensures lines == before + rows[..i + 1]
  {
    assert rows[..i + 1] == rows[..i] + [rows[i]];
  }

  lemma {:induction false} LayOutFits(d: Drawing)
    ensures Labelled(d) ==> Labelled(LayOut(d))
    ensures LaidOut(LayOut(d)) && Sized(LayOut(d)) && HeightOf(LayOut(d)) >= (if d.Node? then 1 else 0)
  {
    LayOutIsLaidOut(d);
    LaidOutIsSized(LayOut(d));
    HeightPositive(LayOut(d));
  }

  const TOO_TALL := "(This tree is taller than 1000, and may be drawn incorrectly.)"

  function PictureRows(d: Drawing): seq<string> {
    if HeightOf(d) < 0 then []
    else seq(HeightOf(d), k requires 0 <= k < HeightOf(d) => Row(d, k))
  }

  /** What tree_print_ascii_tree prints for a laid-out tree. */
  function Picture(d: Drawing): seq<string> {
    PictureRows(d) + (if HeightOf(d) >= MAX_HEIGHT then [TOO_TALL] else [])
  }

  /** The tree before it is laid out. */
  function Sketch(t: F.Ast, dir: int): Drawing
    requires F.Tagged(t)
  {
    match t
    case Empty => Nil
    case Tree(kind, value, left, right) =>
      Node(LabelOf(kind, value), dir, Sketch(left, PARENT_LEFT), Sketch(right, PARENT_RIGHT), 0, 0)
  }

  lemma {:induction false} SketchLabelled(t: F.Ast, dir: int)
    requires F.Tagged(t)
    ensures Labelled(Sketch(t, dir))
  {
    if t.Tree? {
      SketchLabelled(t.left, PARENT_LEFT);
      SketchLabelled(t.right, PARENT_RIGHT);
    }
  }

  lemma {:induction false} SketchLegible(t: F.Ast, dir: int)
    requires F.Tagged(t)
    ensures Legible(Sketch(t, dir))
  {
    if t.Tree? {
      SketchLegible(t.left, PARENT_LEFT);
      SketchLegible(t.right, PARENT_RIGHT);
    }
  }

  /** A new node above two copied subtrees. */
  method JoinTrees(left: AsciiNode?, right: AsciiNode?, text: string, ghost sl: Shape, ghost sr: Shape,
                   ghost l: Drawing, ghost r: Drawing, ghost al: set<object>, ghost ar: set<object>)
    returns (node: AsciiNode, ghost all: set<object>)
    requires left == Root(sl) && Draws(sl, l) && Tidy(sl) && Nodes(sl) <= al
    requires right == Root(sr) && Draws(sr, r) && Tidy(sr) && Nodes(sr) <= ar
    requires al !! ar && |text| < LABEL_SIZE
    modifies Nodes(sl), Nodes(sr)
    ensures fresh(node) && all == {node} + (al + ar)
    ensures Tidy(Fork(node, sl, sr)) && Nodes(Fork(node, sl, sr)) <= all
    ensures Draws(Fork(node, sl, sr), Node(text, PARENT_NONE, HungOn(l, PARENT_LEFT), HungOn(r, PARENT_RIGHT), 0, 0))
  {
    if left != null {
      left.HangOn(PARENT_LEFT, sl, l, al);
    }
    assert Draws(sl, HungOn(l, PARENT_LEFT)) && Draws(sr, r);
    if right != null {
      right.HangOn(PARENT_RIGHT, sr, r, ar);
    }
    assert Draws(sl, HungOn(l, PARENT_LEFT)) && Draws(sr, HungOn(r, PARENT_RIGHT));
    node := new AsciiNode(left, right, text);
    all := {node} + (al + ar);
  }

  function HungOn(d: Drawing, dir: int): Drawing {
    if d.Nil? then Nil else d.(dir := dir)
  }

  /** A sketch is the sketches of the subtrees, hung on their sides. */
  lemma {:induction false} HungSketch(ast: F.Ast, dir: int)
    requires F.Tagged(ast) && ast.Tree?
    ensures
      var l, r := Sketch(ast.left, PARENT_NONE), Sketch(ast.right, PARENT_NONE);
      Sketch(ast, dir) ==
      Node(LabelOf(ast.kind, ast.value), dir, HungOn(l, PARENT_LEFT), HungOn(r, PARENT_RIGHT), 0, 0)
  {
  }

  method CreateLabel(t: F.FendNode, ghost ast: F.Ast, ghost l: Drawing, ghost r: Drawing) returns (text: string)
    requires F.Tagged(ast) && LabelsFit(ast) && ast.Tree? && t.kind == ast.kind && t.value == ast.value
    requires l == Sketch(ast.left, PARENT_NONE) && r == Sketch(ast.right, PARENT_NONE)
    ensures Sketch(ast, PARENT_NONE) == Node(text, PARENT_NONE, HungOn(l, PARENT_LEFT), HungOn(r, PARENT_RIGHT), 0, 0)
    ensures |text| < LABEL_SIZE
  {
    text := LabelOf(t.kind, t.value);
    HungSketch(ast, PARENT_NONE);
  }

  method BuildAsciiTreeRecursive(t: F.FendNode?, ghost shape: F.Shape, ghost ast: F.Ast, ghost given: set<object>)
    returns (node: AsciiNode?, ghost copy: Shape, ghost all: set<object>)
    requires t == F.Root(shape) && F.Denotes(shape, ast) && F.Nodes(shape) <= given
    requires F.Tagged(ast) && LabelsFit(ast)
    ensures node == Root(copy) && Tidy(copy) && Draws(copy, Sketch(ast, PARENT_NONE))
    ensures Nodes(copy) <= all && fresh(all)
    decreases shape
  {
    if t == null { return null, Bare, {}; }
    ghost var l, r := Sketch(ast.left, PARENT_NONE), Sketch(ast.right, PARENT_NONE);
    var left, sl, al := BuildAsciiTreeRecursive(t.left, shape.left, ast.left, given);
    var right, sr, ar := BuildAsciiTreeRecursive(t.right, shape.right, ast.right, given);
    assert fresh(al + ar);
    var text := CreateLabel(t, ast, l, r);
    node, all := JoinTrees(left, right, text, sl, sr, l, r, al, ar);
    copy := Fork(node, sl, sr);
  }

  lemma {:induction false} RenderLabel(line: string, d: Drawing, x: int)
    requires d.Node?
    ensures Render(line, Marks(d, x, 0)) == PrintMark(line, Mark(LabelStart(d, x), d.text, Label))
  {
    assert Marks(d, x, 0)[1..] == [];
  }

  /** The strokes of a node on one of its edge rows, printed one after the other. */
  function StrokesOn(line: string, d: Drawing, x: int, level: int): string
    requires d.Node?
  {
    var line1 := if d.left.Node? then PrintMark(line, Mark(x - level, "/", Slash(d.right.Nil?))) else line;
    if d.right.Node? then PrintMark(line1, Mark(x + level, "\\", Backslash(d.left.Nil?))) else line1
  }

  lemma {:induction false} RenderStrokes(line: string, d: Drawing, x: int, level: int)
    requires d.Node? && level != 0 && d.edge >= level
    ensures Render(line, Marks(d, x, level)) == StrokesOn(line, d, x, level)
  {
    var l, r := Mark(x - level, "/", Slash(d.right.Nil?)), Mark(x + level, "\\", Backslash(d.left.Nil?));
    var ls: seq<Mark> := if d.left.Node? then [l] else [];
    var rs: seq<Mark> := if d.right.Node? then [r] else [];
    assert Marks(d, x, level) == ls + rs;
    RenderConcat(line, ls, rs);
    if d.left.Node? { assert ls[1..] == []; }
    if d.right.Node? { assert rs[1..] == []; }
  }

  /** Below a node's edge, its row is the left subtree's row, then the right subtree's. */
  lemma {:induction false} RenderBelow(line: string, d: Drawing, x: int, level: int, xl: int, xr: int, lower: int)
    requires d.Node? && level != 0 && level > d.edge
    requires xl == x - d.edge - 1 && xr == x + d.edge + 1 && lower == level - d.edge - 1
    ensures Render(line, Marks(d, x, level))
            == Render(Render(line, Marks(d.left, xl, lower)), Marks(d.right, xr, lower))
  {
    assert Marks(d, x, level) == Marks(d.left, xl, lower) + Marks(d.right, xr, lower);
    RenderConcat(line, Marks(d.left, xl, lower), Marks(d.right, xr, lower));
  }

  lemma {:induction false} NoPrinterInTree(p: TreePrinter, t: Shape)
    ensures p !in Nodes(t)
  {
    if t.Fork? {
      NoPrinterInTree(p, t.left);
      NoPrinterInTree(p, t.right);
    }
  }

  lemma {:induction false} LaidOutChildren(d: Drawing)
    requires d.Node?
    ensures
      var l, r, whole := LayOut(d.left), LayOut(d.right), LayOut(d);
      && Sized(l) && Sized(r)
      && (Labelled(d) ==> Labelled(l) && Labelled(r))
      && (l.Node? ==> 0 < l.height < whole.height) && (r.Node? ==> 0 < r.height < whole.height)
  {
    LayOutIsLaidOut(d.left);
    LayOutIsLaidOut(d.right);
    LaidOutIsSized(LayOut(d.left));
    LaidOutIsSized(LayOut(d.right));
    HeightPositive(LayOut(d.left));
    HeightPositive(LayOut(d.right));
  }

  lemma {:induction false} NoArraysInTree(t: Shape)
    ensures forall a: array<int> :: a !in Nodes(t)
  {
    if t.Fork? {
      NoArraysInTree(t.left);
      NoArraysInTree(t.right);
    }
  }

  lemma {:induction false} LoweredFromReset(before: seq<int>, after: seq<int>, d: Drawing, height: int)
    requires Capped(before) && Lowered(before, after, d, 0, 0)
    requires height <= |before| && forall k :: 0 <= k < height ==> before[k] == INFINITY
    ensures Capped(after)
    ensures forall k :: 0 <= k < height ==> after[k] == LProf(d, 0, k)
  {
  }

  lemma {:induction false} RaisedFromReset(before: seq<int>, after: seq<int>, d: Drawing, height: int)
    requires Floored(before) && Raised(before, after, d, 0, 0)
    requires height <= |before| && forall k :: 0 <= k < height ==> before[k] == -INFINITY
    ensures Floored(after)
    ensures forall k :: 0 <= k < height ==> after[k] == RProf(d, 0, k)
  {
  }

  lemma {:induction false} LoweredCapped(before: seq<int>, own: seq<int>, d: Drawing, x: int, y: int)
    requires d.Node? && Capped(before) && |before| <= MAX_HEIGHT
    requires LoweredByRoot(before, own, d, x, y, MAX_HEIGHT)
    ensures Capped(own)
  {
  }

  ghost predicate Capped(rows: seq<int>) {
    forall k :: 0 <= k < |rows| ==> rows[k] <= INFINITY
  }

  /** Every scratch row became its minimum with the left profile. */
  ghost predicate Lowered(before: seq<int>, after: seq<int>, d: Drawing, x: int, y: int) {
    |before| == |after| && forall k :: 0 <= k < |before| ==> after[k] == Min(before[k], LProf(d, x, k - y))
  }

  /** The same for the root's label and the '/' strokes above row `upto`. */
  ghost predicate LoweredByRoot(before: seq<int>, after: seq<int>, d: Drawing, x: int, y: int, upto: int)
    requires d.Node?
  {
    && |before| == |after|
    && (forall k :: 0 <= k < |before| && k < upto ==> after[k] == Min(before[k], OwnLProf(d, x, k - y)))
    && (forall k :: 0 <= k < |before| && k >= upto ==> after[k] == before[k])
  }

  lemma {:induction false} LoweredAgain(before: seq<int>, own: seq<int>, half: seq<int>, after: seq<int>, d: Drawing,
                                        x: int, y: int)
    requires d.Node? && Sized(d) && |own| <= MAX_HEIGHT
    requires Capped(before) && LoweredByRoot(before, own, d, x, y, MAX_HEIGHT)
    requires Lowered(own, half, d.left, x - d.edge - 1, y + d.edge + 1)
    requires Lowered(half, after, d.right, x + d.edge + 1, y + d.edge + 1)
    ensures Lowered(before, after, d, x, y)
  {
    forall k | 0 <= k < |before| ensures after[k] == Min(before[k], LProf(d, x, k - y)) {
      LProfSplits(d, x, k - y);
    }
  }

  /** The part of the left profile that comes from the root's label and '/' strokes. */
  function OwnLProf(d: Drawing, x: int, row: int): int
    requires d.Node?
  {
    if row == 0 then Min(INFINITY, LabelStart(d, x))
    else if 0 < row <= d.edge && d.left.Node? then Min(INFINITY, x - row)
    else INFINITY
  }

  lemma {:induction false} LProfSplits(d: Drawing, x: int, row: int)
    requires d.Node? && Sized(d)
    ensures LProf(d, x, row) ==
            Min(Min(OwnLProf(d, x, row), LProf(d.left, x - d.edge - 1, row - d.edge - 1)),
                LProf(d.right, x + d.edge + 1, row - d.edge - 1))
  {
  }

  lemma {:induction false} RaisedFloored(before: seq<int>, own: seq<int>, d: Drawing, x: int, y: int)
    requires d.Node? && Floored(before) && |before| <= MAX_HEIGHT
    requires RaisedByRoot(before, own, d, x, y, MAX_HEIGHT)
    ensures Floored(own)
  {
  }

  ghost predicate Floored(rows: seq<int>) {
    forall k :: 0 <= k < |rows| ==> rows[k] >= -INFINITY
  }

  /** Every scratch row became its maximum with the right profile. */
  ghost predicate Raised(before: seq<int>, after: seq<int>, d: Drawing, x: int, y: int) {
    |before| == |after| && forall k :: 0 <= k < |before| ==> after[k] == Max(before[k], RProf(d, x, k - y))
  }

  /** The same for the root's label and the '\' strokes above row `upto`. */
  ghost predicate RaisedByRoot(before: seq<int>, after: seq<int>, d: Drawing, x: int, y: int, upto: int)
    requires d.Node?
  {
    && |before| == |after|
    && (forall k :: 0 <= k < |before| && k < upto ==> after[k] == Max(before[k], OwnRProf(d, x, k - y)))
    && (forall k :: 0 <= k < |before| && k >= upto ==> after[k] == before[k])
  }

  lemma {:induction false} RaisedAgain(before: seq<int>, own: seq<int>, half: seq<int>, after: seq<int>, d: Drawing,
                                       x: int, y: int)
    requires d.Node? && Sized(d) && |own| <= MAX_HEIGHT
    requires Floored(before) && RaisedByRoot(before, own, d, x, y, MAX_HEIGHT)
    requires Raised(own, half, d.left, x - d.edge - 1, y + d.edge + 1)
    requires Raised(half, after, d.right, x + d.edge + 1, y + d.edge + 1)
    ensures Raised(before, after, d, x, y)
  {
    forall k | 0 <= k < |before| ensures after[k] == Max(before[k], RProf(d, x, k - y)) {
      RProfSplits(d, x, k - y);
    }
  }

  /** The part of the right profile that comes from the root's label and '\' strokes. */
  function OwnRProf(d: Drawing, x: int, row: int): int
    requires d.Node?
  {
    if row == 0 then Max(-INFINITY, LabelEnd(d, x))
    else if 0 < row <= d.edge && d.right.Node? then Max(-INFINITY, x + row)
    else -INFINITY
  }

  lemma {:induction false} RProfSplits(d: Drawing, x: int, row: int)
    requires d.Node? && Sized(d)
    ensures RProf(d, x, row) ==
            Max(Max(OwnRProf(d, x, row), RProf(d.left, x - d.edge - 1, row - d.edge - 1)),
                RProf(d.right, x + d.edge + 1, row - d.edge - 1))
  {
  }

  // ---------------------------------------------------------------- the picture of a syntax tree

  predicate SameShape(a: Drawing, b: Drawing) {
    if a.Nil? then b.Nil? else b.Node? && SameShape(a.left, b.left) && SameShape(a.right, b.right)
  }

  lemma {:induction false} LayOutKeepsShape(d: Drawing)
    ensures SameShape(d, LayOut(d))
  {
    if d.Node? {
      LayOutKeepsShape(d.left);
      LayOutKeepsShape(d.right);
    }
  }

  lemma {:induction false} ShapeDecidesCovered(a: Drawing, b: Drawing)
    requires SameShape(a, b)
    ensures (NoLeftOnly(a) <==> NoLeftOnly(b)) && (NoRightOnly(a) <==> NoRightOnly(b)) && (Covered(a) <==> Covered(b))
  {
    if a.Node? {
      ShapeDecidesCovered(a.left, b.left);
      ShapeDecidesCovered(a.right, b.right);
    }
  }

  /** Every inner node has two children. */
  predicate FullTree(t: F.Ast) {
    t.Tree? ==> (t.left.Tree? <==> t.right.Tree?) && FullTree(t.left) && FullTree(t.right)
  }

  lemma {:induction false} FullTreeCovered(t: F.Ast, dir: int)
    requires F.Tagged(t) && FullTree(t)
    ensures Full(Sketch(t, dir))
  {
    if t.Tree? {
      FullTreeCovered(t.left, PARENT_LEFT);
      FullTreeCovered(t.right, PARENT_RIGHT);
    }
  }

  /** The printed rows are the drawing: every character of it is on one of them, and each of
      them shows the drawing's row. */
  ghost predicate PictureShows(d: Drawing) {
    && |PictureRows(d)| == HeightOf(d)
    && (forall row, col, ch :: HasInk(d, Shift(d), 0, row, col, ch) ==> 0 <= row < HeightOf(d))
    && (forall k :: 0 <= k < |PictureRows(d)| ==> ShowsRow(d, Shift(d), k, PictureRows(d)[k]))
  }

  ghost predicate AllStraysClear(d: Drawing) {
    forall k :: 0 <= k < HeightOf(d) ==> StraysClear(d, Shift(d), k)
  }

  /** The trees that fit the printer's buffers: no label overruns its own, and the scratch
      arrays have an entry for every row. */
  predicate Drawable(t: F.Ast) {
    F.Tagged(t) && LabelsFit(t) && HeightOf(LayOut(Sketch(t, PARENT_NONE))) <= MAX_HEIGHT
  }

  /** What is printed for a syntax tree is its drawing exactly when on no row the stroke of an
      only child runs into the sibling subtree. */
  lemma {:induction false} PictureExactIff(t: F.Ast)
    requires Drawable(t)
    ensures var d := LayOut(Sketch(t, PARENT_NONE)); PictureShows(d) <==> AllStraysClear(d)
  {
    var sketch := Sketch(t, PARENT_NONE);
    var d := LayOut(sketch);
    SketchLabelled(t, PARENT_NONE);
    SketchLegible(t, PARENT_NONE);
    LayOutFits(sketch);
    LayOutKeepsLegible(sketch);
    NoInkOutside(d, Shift(d));
    forall k | 0 <= k < HeightOf(d)
      ensures PictureRows(d)[k] == Row(d, k)
      ensures ShowsRow(d, Shift(d), k, Row(d, k)) <==> StraysClear(d, Shift(d), k)
    {
      RowExactIff(d, k);
    }
  }

  lemma {:induction false} NoInkOutside(d: Drawing, x: int)
    requires Sized(d)
    ensures forall row, col, ch :: HasInk(d, x, 0, row, col, ch) ==> 0 <= row < HeightOf(d)
  {
    forall row, col, ch | HasInk(d, x, 0, row, col, ch) ensures 0 <= row < HeightOf(d) {
      InkNotAbove(d, x, 0, row, col, ch);
    }
  }

  /** Every row printed for a syntax tree shows exactly the drawing's row, if the tree's lone
      strokes are covered; they are in a tree whose inner nodes all have two children. */
  lemma {:induction false} PictureIsExact(t: F.Ast, k: nat)
    requires Drawable(t) && (FullTree(t) || Covered(Sketch(t, PARENT_NONE)))
    requires k < HeightOf(LayOut(Sketch(t, PARENT_NONE)))
    ensures var d := LayOut(Sketch(t, PARENT_NONE));
      LaidOut(d) && Labelled(d) && ShowsRow(d, Shift(d), k, PictureRows(d)[k])
  {
    var sketch := Sketch(t, PARENT_NONE);
    SketchLabelled(t, PARENT_NONE);
    LayOutFits(sketch);
    if FullTree(t) {
      FullTreeCovered(t, PARENT_NONE);
      FullIsCovered(sketch);
    }
    LayOutKeepsShape(sketch);
    ShapeDecidesCovered(sketch, LayOut(sketch));
    CoveredTreesRenderExactly(LayOut(sketch), k);
  }
}
