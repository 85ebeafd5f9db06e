/** The stack-driven traversals of treeutil.c.  The `action` callback is the list of the
    nodes it is called with, in order. */
module TreeTraversal {
  import opened Frontend

  function Preorder(t: Shape): seq<FendNode> {
    if t.Nil? then [] else [t.node] + Preorder(t.left) + Preorder(t.right)
  }

  function Inorder(t: Shape): seq<FendNode> {
    if t.Nil? then [] else Inorder(t.left) + [t.node] + Inorder(t.right)
  }

  function Postorder(t: Shape): seq<FendNode> {
    if t.Nil? then [] else Postorder(t.left) + Postorder(t.right) + [t.node]
  }

  /** The child pointers of the nodes agree with their places. */
  ghost predicate Mirrors(t: Shape)
    reads Nodes(t)
  {
    t.Fork? ==>
      && t.node.left == Root(t.left) && t.node.right == Root(t.right)
      && Mirrors(t.left) && Mirrors(t.right)
  }

  lemma {:induction false} DenotesMirrors(t: Shape, a: Ast)
    requires Denotes(t, a)
    ensures Mirrors(t)
  {
    if t.Fork? {
      DenotesMirrors(t.left, a.left);
      DenotesMirrors(t.right, a.right);
    }
  }

  // ---------------------------------------------------------------- no node twice

  ghost predicate Distinct<T>(s: seq<T>) {
    forall i, j :: 0 <= i < j < |s| ==> s[i] != s[j]
  }

  lemma {:induction false} DistinctConcat<T>(a: seq<T>, b: seq<T>)
    requires Distinct(a) && Distinct(b) && forall x :: x in a ==> x !in b
    ensures Distinct(a + b)
  {
    forall i, j | 0 <= i < j < |a + b| ensures (a + b)[i] != (a + b)[j] {
      if i < |a| <= j { assert a[i] in a && b[j - |a|] in b; }
    }
  }

  lemma {:induction false} PostorderDistinct(t: Shape)
    requires Tidy(t)
    ensures Distinct(Postorder(t)) && forall m :: m in Postorder(t) ==> m in Nodes(t)
  {
    if t.Fork? {
      PostorderDistinct(t.left);
      PostorderDistinct(t.right);
      DistinctConcat(Postorder(t.left), Postorder(t.right));
      DistinctConcat(Postorder(t.left) + Postorder(t.right), [t.node]);
    }
  }

  // ---------------------------------------------------------------- postorder

  /** A stack entry: an entered node has only itself left to visit, any other node its
      whole subtree. */
  datatype Frame = Frame(entered: bool, shape: Shape) {
    function List(): seq<FendNode> {
      if shape.Nil? then [] else if entered then [shape.node] else Postorder(shape)
    }
    /** Loop iterations left: an entered node is popped, any other is entered first. */
    function Work(): nat {
      if entered then 1 else 2 * |Postorder(shape)|
    }
  }

  function TopFirst(frames: seq<Frame>): seq<FendNode>
    decreases |frames|
  {
    if frames == [] then [] else frames[|frames| - 1].List() + TopFirst(frames[..|frames| - 1])
  }

  function Work(frames: seq<Frame>): nat
    decreases |frames|
  {
    if frames == [] then 0 else frames[|frames| - 1].Work() + Work(frames[..|frames| - 1])
  }

  lemma {:induction false} Push(frames: seq<Frame>, f: Frame)
    ensures TopFirst(frames + [f]) == f.List() + TopFirst(frames)
    ensures Work(frames + [f]) == f.Work() + Work(frames)
  {
    assert (frames + [f])[..|frames|] == frames;
  }

  ghost predicate IsChild(c: FendNode, t: Shape) {
    t.Fork? && (c == Root(t.left) || c == Root(t.right))
  }

  ghost predicate Framed(n: FendNode, f: Frame)
    reads Nodes(f.shape)
  {
    f.shape.Fork? && f.shape.node == n && Mirrors(f.shape)
  }

  /** Every stack entry stands for its frame, and directly above an entered node lies one of
      its children; `above` lies above the top. */
  ghost predicate Linked(stack: seq<FendNode>, frames: seq<Frame>, above: FendNode)
    reads set f, m | f in frames && m in Nodes(f.shape) :: m
  {
    && |stack| == |frames|
    && (forall k :: 0 <= k < |stack| ==> Framed(stack[k], frames[k]))
    && (forall j, k :: 0 <= k < j < |stack| && j == k + 1 && frames[k].entered ==> IsChild(stack[j], frames[k].shape))
    && (|stack| > 0 && frames[|stack| - 1].entered ==> IsChild(above, frames[|stack| - 1].shape))
  }

  lemma {:induction false} LinkedPop(stack: seq<FendNode>, frames: seq<Frame>, above: FendNode)
    requires Linked(stack, frames, above) && stack != []
    ensures var top := |stack| - 1; Linked(stack[..top], frames[..top], stack[top])
  {
  }

  lemma {:induction false} LinkedPush(stack: seq<FendNode>, frames: seq<Frame>, n: FendNode, f: Frame, above: FendNode)
    requires Linked(stack, frames, n) && Framed(n, f) && (f.entered ==> IsChild(above, f.shape))
    ensures Linked(stack + [n], frames + [f], above)
  {
  }

  /** The node visited last is a child of no node that has still to be entered. */
  lemma {:induction false} NotYetEntered(whole: Shape, visited: seq<FendNode>, last: FendNode, t: Shape,
                                         below: seq<FendNode>)
    requires whole.Fork? && Tidy(whole)
    requires visited + (Postorder(t) + below) == Postorder(whole)
    requires last == if visited == [] then whole.node else visited[|visited| - 1]
    ensures !IsChild(last, t)
  {
    PostorderDistinct(whole);
    var all := Postorder(whole);
    var v := |visited|;
    assert all[|all| - 1] == whole.node;
    if t.Fork? {
      assert v > 0 ==> all[v - 1] == last;
      if t.left.Fork? {
        var k := v + |Postorder(t.left)| - 1;
        assert all[k] == Postorder(t)[k - v] == t.left.node;
      }
      if t.right.Fork? {
        var k := v + |Postorder(t)| - 2;
        assert all[k] == Postorder(t)[k - v] == t.right.node;
      }
    }
  }

  /** The frame of a child, if there is a child. */
  function ChildFrame(t: Shape): seq<Frame> {
    if t.Nil? then [] else [Frame(false, t)]
  }

  function ChildNode(t: Shape): seq<FendNode> {
    if t.Nil? then [] else [t.node]
  }

  lemma {:induction false} PushChild(frames: seq<Frame>, t: Shape)
    ensures TopFirst(frames + ChildFrame(t)) == Postorder(t) + TopFirst(frames)
    ensures Work(frames + ChildFrame(t)) == 2 * |Postorder(t)| + Work(frames)
  {
    if t.Nil? {
      assert frames + ChildFrame(t) == frames;
    } else {
      Push(frames, Frame(false, t));
    }
  }

  /** Entering a node replaces its frame by its own and those of its children. */
  lemma {:induction false} EnterLists(below: seq<Frame>, t: Shape)
    requires t.Fork?
    ensures
      var frames := below + [Frame(true, t)] + ChildFrame(t.right) + ChildFrame(t.left);
      TopFirst(frames) == Postorder(t) + TopFirst(below) && Work(frames) < 2 * |Postorder(t)| + Work(below)
  {
    Push(below, Frame(true, t));
    PushChild(below + [Frame(true, t)], t.right);
    PushChild(below + [Frame(true, t)] + ChildFrame(t.right), t.left);
    Rearrange(Postorder(t.left), Postorder(t.right), [t.node], TopFirst(below));
  }

  lemma {:induction false} EnterLinked(under: seq<FendNode>, below: seq<Frame>, t: Shape, last: FendNode)
    requires t.Fork? && Mirrors(t) && Linked(under, below, t.node)
    requires t.left.Fork? || t.right.Fork?
    ensures Linked(under + [t.node] + ChildNode(t.right) + ChildNode(t.left),
                   below + [Frame(true, t)] + ChildFrame(t.right) + ChildFrame(t.left), last)
  {
    var above: FendNode := if t.left.Fork? then t.left.node else last;
    var stack, frames := under + [t.node], below + [Frame(true, t)];
    if t.right.Fork? {
      LinkedPush(under, below, t.node, Frame(true, t), t.right.node);
      LinkedPush(stack, frames, t.right.node, Frame(false, t.right), above);
    } else {
      LinkedPush(under, below, t.node, Frame(true, t), t.left.node);
      assert stack + ChildNode(t.right) == stack && frames + ChildFrame(t.right) == frames;
    }
    if t.left.Fork? {
      LinkedPush(stack + ChildNode(t.right), frames + ChildFrame(t.right), t.left.node, Frame(false, t.left), last);
    } else {
      assert stack + ChildNode(t.right) + ChildNode(t.left) == stack + ChildNode(t.right);
      assert frames + ChildFrame(t.right) + ChildFrame(t.left) == frames + ChildFrame(t.right);
    }
  }

  lemma {:induction false} Rearrange<T>(a: seq<T>, b: seq<T>, c: seq<T>, d: seq<T>)
    ensures a + (b + (c + d)) == a + b + c + d
  {
  }

  ghost predicate Inv(whole: Shape, stack: seq<FendNode>, frames: seq<Frame>, last: FendNode, visited: seq<FendNode>)
    reads set f, m | f in frames && m in Nodes(f.shape) :: m
  {
    && whole.Fork? && Tidy(whole)
    && Linked(stack, frames, last)
    && last == (if visited == [] then whole.node else visited[|visited| - 1])
    && visited + TopFirst(frames) == Postorder(whole)
  }

  /** The comparison with the node visited last finds exactly the entered nodes. */
  lemma {:induction false} FinishedIffEntered(whole: Shape, stack: seq<FendNode>, frames: seq<Frame>, last: FendNode,
                                              visited: seq<FendNode>)
    requires Inv(whole, stack, frames, last, visited) && stack != []
    ensures
      var next, f := stack[|stack| - 1], frames[|stack| - 1];
      && Framed(next, f) && f.shape.Fork?
      && (next.left == null <==> f.shape.left.Nil?) && (next.right == null <==> f.shape.right.Nil?)
      && ((next.right == last || next.left == last) <==> f.entered)
  {
    var k := |stack| - 1;
    if !frames[k].entered {
      NotYetEntered(whole, visited, last, frames[k].shape, TopFirst(frames[..k]));
    }
  }

  lemma {:induction false} PopStep(whole: Shape, stack: seq<FendNode>, frames: seq<Frame>, last: FendNode,
                                   visited: seq<FendNode>)
    requires Inv(whole, stack, frames, last, visited) && stack != []
    requires
      var f := frames[|stack| - 1];
      f.entered || (f.shape.Fork? && f.shape.left.Nil? && f.shape.right.Nil?)
    ensures
      var k := |stack| - 1;
      Inv(whole, stack[..k], frames[..k], stack[k], visited + [stack[k]]) && Work(frames[..k]) < Work(frames)
  {
    var k := |stack| - 1;
    LinkedPop(stack, frames, last);
    assert Framed(stack[k], frames[k]);
    assert Postorder(Fork(stack[k], Nil, Nil)) == [stack[k]];
    Visit(visited, stack[k], TopFirst(frames[..k]));
  }

  lemma {:induction false} EnterStep(whole: Shape, stack: seq<FendNode>, frames: seq<Frame>, last: FendNode,
                                     visited: seq<FendNode>)
    returns (frames': seq<Frame>)
    requires Inv(whole, stack, frames, last, visited) && stack != []
    requires
      var f := frames[|stack| - 1];
      !f.entered && f.shape.Fork? && (f.shape.left.Fork? || f.shape.right.Fork?)
    ensures
      var t := frames[|stack| - 1].shape;
      Inv(whole, stack + ChildNode(t.right) + ChildNode(t.left), frames', last, visited)
    ensures Work(frames') < Work(frames)
  {
    var k := |stack| - 1;
    var t := frames[k].shape;
    assert Framed(stack[k], frames[k]);
    assert stack[..k] + [t.node] == stack;
    LinkedPop(stack, frames, last);
    EnterLists(frames[..k], t);
    EnterLinked(stack[..k], frames[..k], t, last);
    frames' := frames[..k] + [Frame(true, t)] + ChildFrame(t.right) + ChildFrame(t.left);
  }

  /** The two conditional pushes put on the stack what `ChildNode` says. */
  lemma {:induction false} Pushes(stack: seq<FendNode>, next: FendNode, t: Shape)
    requires t.Fork? && t.node == next && Mirrors(t)
    ensures
      var stack1 := if next.right != null then stack + [next.right] else stack;
      var stack2 := if next.left != null then stack1 + [next.left] else stack1;
      stack2 == stack + ChildNode(t.right) + ChildNode(t.left)
  {
  }

  lemma {:induction false} Visit(visited: seq<FendNode>, n: FendNode, rest: seq<FendNode>)
    ensures visited + ([n] + rest) == visited + [n] + rest
  {
  }

  /** The loop tells a finished node by comparing its child pointers with the node visited
      last; it visits left subtree, right subtree, node. */
  method TreePostorder(root: FendNode?, ghost whole: Shape) returns (visited: seq<FendNode>)
    requires root == Root(whole) && Mirrors(whole) && Tidy(whole)
    ensures visited == Postorder(whole)
  {
    visited := [];
    if root == null { return; }
    var last: FendNode := root;
    var stack: seq<FendNode> := [root];
    ghost var frames := [Frame(false, whole)];
    Push([], frames[0]);
    while |stack| > 0
      invariant Inv(whole, stack, frames, last, visited)
      decreases Work(frames)
    {
      var next := stack[|stack| - 1];
      ghost var t := frames[|stack| - 1].shape;
      FinishedIffEntered(whole, stack, frames, last, visited);
      var finishedSubtrees := next.right == last || next.left == last;
      var isLeaf := next.left == null && next.right == null;
      if finishedSubtrees || isLeaf {
        PopStep(whole, stack, frames, last, visited);
        frames := frames[..|stack| - 1];
        stack := stack[..|stack| - 1];
        visited := visited + [next];
        last := next;
      } else {
        Pushes(stack, next, t);
        frames := EnterStep(whole, stack, frames, last, visited);
        if next.right != null {
          var child: FendNode := next.right;
          stack := stack + [child];
        }
        if next.left != null {
          var child: FendNode := next.left;
          stack := stack + [child];
        }
      }
    }
  }

  // ---------------------------------------------------------------- preorder and inorder

  ghost predicate Matched(stack: seq<FendNode>, shapes: seq<Shape>)
    reads set t, m | t in shapes && m in Nodes(t) :: m
  {
    |stack| == |shapes| && forall k :: 0 <= k < |stack| ==>
      shapes[k].Fork? && shapes[k].node == stack[k] && Mirrors(shapes[k])
  }

  function AllPreorder(shapes: seq<Shape>): seq<FendNode>
    decreases |shapes|
  {
    if shapes == [] then [] else Preorder(shapes[|shapes| - 1]) + AllPreorder(shapes[..|shapes| - 1])
  }

  function ChildShape(t: Shape): seq<Shape> {
    if t.Nil? then [] else [t]
  }

  lemma {:induction false} AllPreorderPush(shapes: seq<Shape>, t: Shape)
    ensures AllPreorder(shapes + ChildShape(t)) == Preorder(t) + AllPreorder(shapes)
  {
    if t.Nil? {
      assert shapes + ChildShape(t) == shapes;
    } else {
      assert (shapes + [t])[..|shapes|] == shapes;
    }
  }

  lemma {:induction false} MatchedPush(stack: seq<FendNode>, shapes: seq<Shape>, t: Shape)
    requires Matched(stack, shapes) && Mirrors(t)
    ensures Matched(stack + ChildNode(t), shapes + ChildShape(t))
  {
  }

  /** One turn of the preorder loop: the node first, then its subtrees. */
  lemma {:induction false} PreorderStep(stack: seq<FendNode>, shapes: seq<Shape>) returns (shapes': seq<Shape>)
    requires Matched(stack, shapes) && stack != []
    ensures
      var k, t := |stack| - 1, shapes[|stack| - 1];
      Matched(stack[..k] + ChildNode(t.right) + ChildNode(t.left), shapes')
    ensures AllPreorder(shapes) == [stack[|stack| - 1]] + AllPreorder(shapes')
  {
    var k := |stack| - 1;
    var t, below := shapes[k], shapes[..k];
    MatchedPush(stack[..k], below, t.right);
    MatchedPush(stack[..k] + ChildNode(t.right), below + ChildShape(t.right), t.left);
    AllPreorderPush(below, t.right);
    AllPreorderPush(below + ChildShape(t.right), t.left);
    Rearrange([t.node], Preorder(t.left), Preorder(t.right), AllPreorder(below));
    shapes' := below + ChildShape(t.right) + ChildShape(t.left);
  }

  method TreePreorder(root: FendNode?, ghost whole: Shape) returns (visited: seq<FendNode>)
    requires root == Root(whole) && Mirrors(whole) && Tidy(whole)
    ensures visited == Preorder(whole)
  {
    visited := [];
    if root == null { return; }
    var stack: seq<FendNode> := [root];
    ghost var shapes := [whole];
    AllPreorderPush([], whole);
    while |stack| > 0
      invariant Matched(stack, shapes)
      invariant visited + AllPreorder(shapes) == Preorder(whole)
      decreases |AllPreorder(shapes)|
    {
      var current := stack[|stack| - 1];
      Pushes(stack[..|stack| - 1], current, shapes[|stack| - 1]);
      ghost var shapes' := PreorderStep(stack, shapes);
      Visit(visited, current, AllPreorder(shapes'));
      stack := stack[..|stack| - 1];
      visited := visited + [current];
      if current.right != null {
        var child: FendNode := current.right;
        stack := stack + [child];
      }
      if current.left != null {
        var child: FendNode := current.left;
        stack := stack + [child];
      }
      shapes := shapes';
    }
  }

  /** An inorder stack entry stands for its node and right subtree. */
  function AllInorder(shapes: seq<Shape>): seq<FendNode>
    requires forall t :: t in shapes ==> t.Fork?
    decreases |shapes|
  {
    if shapes == [] then []
    else
      var t := shapes[|shapes| - 1];
      [t.node] + Inorder(t.right) + AllInorder(shapes[..|shapes| - 1])
  }

  lemma {:induction false} AllInorderPush(shapes: seq<Shape>, t: Shape)
    requires t.Fork? && forall u :: u in shapes ==> u.Fork?
    ensures Inorder(t) + AllInorder(shapes) == Inorder(t.left) + AllInorder(shapes + [t])
  {
    assert (shapes + [t])[..|shapes|] == shapes;
  }

  function Size(t: Shape): nat {
    if t.Nil? then 0 else 1 + Size(t.left) + Size(t.right)
  }

  lemma {:induction false} Regroup<T>(v: seq<T>, n: T, x: seq<T>, y: seq<T>)
    ensures v + ([] + ([n] + x + y)) == v + [n] + (x + y)
  {
  }

  /** Taking the top entry off the stack visits its node and goes on with its right subtree. */
  lemma {:induction false} InorderPop(visited: seq<FendNode>, at: Shape, shapes: seq<Shape>)
    requires at.Nil? && shapes != [] && forall u :: u in shapes ==> u.Fork?
    ensures
      var (t, rest) := (shapes[|shapes| - 1], shapes[..|shapes| - 1]);
      && visited + (Inorder(at) + AllInorder(shapes)) == visited + [t.node] + (Inorder(t.right) + AllInorder(rest))
      && |Inorder(at) + AllInorder(shapes)| > |Inorder(t.right) + AllInorder(rest)|
  {
    var (t, rest) := (shapes[|shapes| - 1], shapes[..|shapes| - 1]);
    Regroup(visited, t.node, Inorder(t.right), AllInorder(rest));
  }

  method TreeInorder(root: FendNode?, ghost whole: Shape) returns (visited: seq<FendNode>)
    requires root == Root(whole) && Mirrors(whole) && Tidy(whole)
    ensures visited == Inorder(whole)
  {
    visited := [];
    var stack: seq<FendNode> := [];
    var current := root;
    var done := false;
    ghost var shapes: seq<Shape> := [];
    ghost var at := whole;
    while !done
      invariant Matched(stack, shapes) && Mirrors(at) && Root(at) == current
      invariant done ==> shapes == [] && at.Nil?
      invariant visited + (Inorder(at) + AllInorder(shapes)) == Inorder(whole)
      decreases |Inorder(at) + AllInorder(shapes)|, Size(at), !done
    {
      if current != null {
        AllInorderPush(shapes, at);
        stack := stack + [current];
        shapes := shapes + [at];
        at := at.left;
        current := current.left;
      } else if |stack| > 0 {
        ghost var t := shapes[|shapes| - 1];
        InorderPop(visited, at, shapes);
        current := stack[|stack| - 1];
        stack := stack[..|stack| - 1];
        shapes := shapes[..|shapes| - 1];
        visited := visited + [current];
        at := t.right;
        current := current.right;
      } else {
        done := true;
      }
    }
  }
}
