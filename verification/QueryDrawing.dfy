/** The drawings of queries: which fit the printer's buffers, and which come out right. */
module QueryDrawing {
  import opened Layout
  import opened Rendering
  import opened Queries
  import opened Labels
  import F = Frontend
  import A = AsciiTree

  function Drawn(q: Query): Drawing {
    QueryTagged(q);
    LayOut(A.Sketch(BuildQuery(q), PARENT_NONE))
  }

  /** The picture of a query that fits the printer's buffers is its drawing exactly when no
      stroke of an only child runs into the sibling subtree on any row. */
  lemma {:induction false} QueryPictureIff(q: Query)
    requires A.Drawable(BuildQuery(q))
    ensures A.PictureShows(Drawn(q)) <==> A.AllStraysClear(Drawn(q))
  {
    A.PictureExactIff(BuildQuery(q));
  }

  /** A query fits exactly when its texts are short enough and its drawing is not too high. */
  lemma {:induction false} QueryDrawableIff(q: Query)
    ensures F.Tagged(BuildQuery(q))
    ensures A.Drawable(BuildQuery(q)) <==> TextsFit(BuildQuery(q)) && HeightOf(Drawn(q)) <= MAX_HEIGHT
  {
    QueryTagged(q);
    LabelsFitIff(BuildQuery(q));
  }

  /** Any query with a declared identifier of more than 75 characters overruns a label. */
  lemma {:induction false} LongNameOverruns(q: Query)
    requires |q.name| > 75
    ensures F.Tagged(BuildQuery(q)) && !LabelsFit(BuildQuery(q)) && !A.Drawable(BuildQuery(q))
  {
    QueryTagged(q);
    var declaration := BuildQuery(q).left.left;
    assert declaration.kind == F.NodeIdentifier && declaration.value == F.StringValue(q.name);
    assert |LabelOf(declaration.kind, declaration.value)| == |q.name| + 4;
    assert !LabelsFit(BuildQuery(q).left);
  }

  const LONG_NAME: string := seq(76, _ => 'x')

  /** `from file` xx...x `in 'a' select` xx...x`.md5;` with names of 76 characters is one. */
  lemma {:induction false} LongNameBreaks()
    ensures !A.Drawable(BuildQuery(Query(F.SimpleType(F.TypeFile), LONG_NAME, "'a'", NoClauses,
                                         Select(Attribute(LONG_NAME, "md5")))))
  {
    LongNameOverruns(Query(F.SimpleType(F.TypeFile), LONG_NAME, "'a'", NoClauses, Select(Attribute(LONG_NAME, "md5"))));
  }

  /** No query's tree is covered: the declared identifier has its type as only child and the
      data source beside it. */
  lemma {:induction false} NeverCovered(q: Query)
    ensures F.Tagged(BuildQuery(q))
    ensures !A.FullTree(BuildQuery(q)) && !Covered(A.Sketch(BuildQuery(q), PARENT_NONE))
  {
    QueryTagged(q);
    var from := BuildFrom(q.typeInfo, q.name, q.source);
    assert BuildQuery(q).left == from;
    assert !A.FullTree(from) by { assert !A.FullTree(from.left); }
    assert !Covered(A.Sketch(from, PARENT_LEFT)) by { assert !NoLeftOnly(A.Sketch(from.left, PARENT_LEFT)); }
  }

  /** The picture is right whenever the boxes around sibling subtrees lie beside each other. */
  lemma {:induction false} ApartIsDrawnRight(q: Query)
    requires A.Drawable(BuildQuery(q)) && BoxesApart(Drawn(q))
    ensures A.PictureShows(Drawn(q))
  {
    QueryTagged(q);
    QueryPictureIff(q);
    A.SketchLabelled(BuildQuery(q), PARENT_NONE);
    A.LayOutFits(A.Sketch(BuildQuery(q), PARENT_NONE));
    forall k | 0 <= k < HeightOf(Drawn(q)) ensures StraysClear(Drawn(q), Shift(Drawn(q)), k) {
      BoxesApartIsClear(Drawn(q), Shift(Drawn(q)), k);
    }
  }

  // ---------------------------------------------------------------- queries for one attribute

  function Leaf(text: string, dir: int): Drawing { Node(text, dir, Nil, Nil, 0, 1) }

  /** A node above one subtree, on its left or on its right. */
  function Above(text: string, dir: int, l: Drawing, r: Drawing): Drawing {
    Node(text, dir, l, r, 1, HeightOf(l) + HeightOf(r) + 2)
  }

  function Joined(text: string, dir: int, l: Drawing, r: Drawing): Drawing {
    Node(text, dir, l, r, EdgeLength(l, r), HeightFrom(l, r, EdgeLength(l, r)))
  }

  function FromDrawing(t: F.TypeDef, name: string, source: string): Drawing {
    Joined("from", PARENT_LEFT,
           Above("id(" + name + ")", PARENT_LEFT, Leaf("type(" + TypeName(t) + ")", PARENT_LEFT), Nil),
           Above("unary", PARENT_RIGHT, Leaf("str(" + source + ")", PARENT_LEFT), Nil))
  }

  function SelectedDrawing(id: string, attribute: string): Drawing {
    Joined("unary", PARENT_RIGHT, Leaf("id(" + id + ")", PARENT_LEFT), Leaf("prop(" + attribute + ")", PARENT_RIGHT))
  }

  function BodyDrawing(selected: Drawing): Drawing {
    Above("qbody", PARENT_RIGHT, Above("select", PARENT_LEFT, Nil, selected), Nil)
  }

  function Laid(t: F.Ast, dir: int): Drawing
    requires F.Tagged(t)
  {
    LayOut(A.Sketch(t, dir))
  }

  lemma {:induction false} LaidLeaf(t: F.Ast, dir: int)
    requires F.Tagged(t) && t.Tree? && t.left.Empty? && t.right.Empty?
    ensures Laid(t, dir) == Leaf(LabelOf(t.kind, t.value), dir)
  {
    var bare := Node(LabelOf(t.kind, t.value), dir, Nil, Nil, 0, 0);
    assert A.Sketch(t, dir) == bare;
    assert LayOut(Nil) == Nil && EdgeLength(Nil, Nil) == 0;
    assert LayOut(bare) == bare.(edge := 0, height := HeightFrom(Nil, Nil, 0));
  }

  lemma {:induction false} LaidAbove(t: F.Ast, dir: int, l: Drawing, r: Drawing)
    requires F.Tagged(t) && t.Tree? && Laid(t.left, PARENT_LEFT) == l && Laid(t.right, PARENT_RIGHT) == r
    requires (l.Nil? && r.Node? && r.height >= 1) || (l.Node? && l.height >= 1 && r.Nil?)
    ensures Laid(t, dir) == Above(LabelOf(t.kind, t.value), dir, l, r)
  {
    LaidJoined(t, dir, l, r);
    assert Spread(l, r, 0) == 4;
    assert EdgeLength(l, r) == 1;
  }

  lemma {:induction false} LaidJoined(t: F.Ast, dir: int, l: Drawing, r: Drawing)
    requires F.Tagged(t) && t.Tree? && Laid(t.left, PARENT_LEFT) == l && Laid(t.right, PARENT_RIGHT) == r
    ensures Laid(t, dir) == Joined(LabelOf(t.kind, t.value), dir, l, r)
  {
    var sketch := A.Sketch(t, dir);
    assert LayOut(sketch.left) == l && LayOut(sketch.right) == r;
  }

  lemma {:induction false} LaidFrom(t: F.TypeDef, name: string, source: string)
    ensures F.Tagged(BuildFrom(F.SimpleType(t), name, source))
    ensures Laid(BuildFrom(F.SimpleType(t), name, source), PARENT_LEFT) == FromDrawing(t, name, source)
  {
    var from := BuildFrom(F.SimpleType(t), name, source);
    FromTagged(F.SimpleType(t), name, source);
    LaidLeaf(from.left.left, PARENT_LEFT);
    LaidAbove(from.left, PARENT_LEFT, Laid(from.left.left, PARENT_LEFT), Nil);
    LaidLeaf(from.right.left, PARENT_LEFT);
    LaidAbove(from.right, PARENT_RIGHT, Laid(from.right.left, PARENT_LEFT), Nil);
    LaidJoined(from, PARENT_LEFT, Laid(from.left, PARENT_LEFT), Laid(from.right, PARENT_RIGHT));
  }

  lemma {:induction false} LaidAttribute(id: string, attribute: string)
    ensures F.Tagged(BuildExpression(Attribute(id, attribute)))
    ensures Laid(BuildExpression(Attribute(id, attribute)), PARENT_RIGHT) == SelectedDrawing(id, attribute)
  {
    var t := BuildExpression(Attribute(id, attribute));
    ExpressionTagged(Attribute(id, attribute));
    LaidLeaf(t.left, PARENT_LEFT);
    LaidLeaf(t.right, PARENT_RIGHT);
    LaidJoined(t, PARENT_RIGHT, Laid(t.left, PARENT_LEFT), Laid(t.right, PARENT_RIGHT));
  }

  lemma {:induction false} LaidBody(t: F.Ast, selected: Drawing)
    requires F.Tagged(t) && t.Tree? && Laid(t, PARENT_RIGHT) == selected && selected.Node? && selected.height >= 1
    ensures Laid(F.OnQueryBody(F.Empty, t, F.Empty), PARENT_RIGHT) == BodyDrawing(selected)
  {
    var body := F.OnQueryBody(F.Empty, t, F.Empty);
    assert F.Tagged(body.left);
    LaidAbove(body.left, PARENT_LEFT, Nil, selected);
    LaidAbove(body, PARENT_RIGHT, Laid(body.left, PARENT_LEFT), Nil);
  }

  /** `from` type name `in` source `select` id.attribute. */
  function AttributeQuery(t: F.TypeDef, name: string, source: string, id: string, attribute: string): Query {
    Query(F.SimpleType(t), name, source, NoClauses, Select(Attribute(id, attribute)))
  }

  lemma {:induction false} AttributeDrawn(t: F.TypeDef, name: string, source: string, id: string, attribute: string)
    ensures Drawn(AttributeQuery(t, name, source, id, attribute)) ==
            Joined("query", PARENT_NONE, FromDrawing(t, name, source), BodyDrawing(SelectedDrawing(id, attribute)))
  {
    var tree := BuildQuery(AttributeQuery(t, name, source, id, attribute));
    QueryTagged(AttributeQuery(t, name, source, id, attribute));
    LaidFrom(t, name, source);
    LaidAttribute(id, attribute);
    LaidBody(tree.right.left.right, Laid(tree.right.left.right, PARENT_RIGHT));
    LaidJoined(tree, PARENT_NONE, FromDrawing(t, name, source), BodyDrawing(SelectedDrawing(id, attribute)));
  }

  /** The spread is the greatest of its rows' demands. */
  lemma {:induction false} SpreadIs(l: Drawing, r: Drawing, n: nat, delta: int)
    requires delta >= 4
    requires forall i :: 0 <= i < n ==> TREE_GAP + 1 + RProf(l, 0, i) - LProf(r, 0, i) <= delta
    ensures 4 <= Spread(l, r, n) <= delta
  {
    if n != 0 { SpreadIs(l, r, n - 1, delta); }
  }
}
