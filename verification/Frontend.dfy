/** The abstract syntax tree of frontend.h, the node constructors of frontend.c, and the
    linked nodes that hold such a tree. */
module Frontend {

  datatype CondOp =
    | OpEq | OpNotEq | OpMatch | OpNotMatch | OpGe | OpLe | OpGeEq | OpLeEq | OpOr | OpAnd | OpNot

  datatype TypeDef = TypeDynamic | TypeFile | TypeDir | TypeString | TypeUser

  datatype Ordering = OrderingAsc | OrderingDesc

  datatype NodeType =
    | NodeQuery | NodeFrom | NodeWhere | NodeNotRel | NodeAndRel | NodeOrRel | NodeRelation
    | NodeInternalType | NodeStringLiteral | NodeNumericLiteral | NodeIdentifier | NodeProperty
    | NodeUnaryExpression | NodeEnum | NodeGroup | NodeLet | NodeQueryBody | NodeQueryContinuation
    | NodeSelect | NodeMethodCall | NodeJoin | NodeOn | NodeIn | NodeOrderBy | NodeOrdering

  /** The union `node_value_t`, tagged. */
  datatype NodeValue =
    | NoValue
    | TypeValue(typeDef: TypeDef)
    | NumberValue(number: int)
    | StringValue(str: string)
    | RelationValue(relationOp: CondOp)
    | OrderingValue(ordering: Ordering)

  /** What a linked `fend_node_t` amounts to. */
  datatype Ast =
    | Empty
    | Tree(kind: NodeType, value: NodeValue, left: Ast, right: Ast)

  /** The member of the union that nodes of this kind carry. */
  predicate TagFits(kind: NodeType, value: NodeValue) {
    match kind
    case NodeRelation => value.RelationValue?
    case NodeInternalType => value.TypeValue?
    case NodeStringLiteral => value.StringValue?
    case NodeNumericLiteral => value.NumberValue?
    case NodeIdentifier => value.StringValue?
    case NodeProperty => value.StringValue?
    case NodeMethodCall => value.StringValue?
    case NodeOrdering => value.OrderingValue?
    case _ => true
  }

  predicate Tagged(t: Ast) {
    t.Tree? ==> TagFits(t.kind, t.value) && Tagged(t.left) && Tagged(t.right)
  }

  // ---------------------------------------------------------------- constructors

  function Leaf(kind: NodeType, value: NodeValue): Ast {
    Tree(kind, value, Empty, Empty)
  }

  datatype TypeInfo = SimpleType(typeDef: TypeDef) | ComplexType(typeDef: TypeDef, info: string)

  function OnTypeAttribute(t: TypeInfo): Ast {
    Tree(NodeInternalType, TypeValue(t.typeDef),
         if t.ComplexType? then Leaf(NodeIdentifier, StringValue(t.info)) else Empty, Empty)
  }

  function OnIdentifier(id: string): Ast {
    Leaf(NodeIdentifier, StringValue(id))
  }

  /** Hangs the declared type below the identifier. */
  function OnIdentifierDeclaration(t: TypeInfo, identifier: Ast): Ast
    requires identifier.Tree?
  {
    identifier.(left := OnTypeAttribute(t))
  }

  function OnStringAttribute(p: string): Ast {
    Leaf(NodeProperty, StringValue(p))
  }

  function OnMethodCall(name: string, arguments: Ast): Ast {
    Tree(NodeMethodCall, StringValue(name), arguments, Empty)
  }

  function OnUnaryExpression(left: Ast, right: Ast): Ast {
    Tree(NodeUnaryExpression, NoValue, left, right)
  }

  function OnUnaryString(s: string): Ast {
    OnUnaryExpression(Leaf(NodeStringLiteral, StringValue(s)), Empty)
  }

  function OnUnaryNumber(n: int): Ast {
    OnUnaryExpression(Leaf(NodeNumericLiteral, NumberValue(n)), Empty)
  }

  function OnFrom(declaration: Ast, datasource: Ast): Ast {
    Tree(NodeFrom, NoValue, declaration, datasource)
  }

  function OnWhere(expr: Ast): Ast {
    Tree(NodeWhere, NoValue, expr, Empty)
  }

  function OnRelationalExpr(left: Ast, right: Ast, op: CondOp): Ast {
    Tree(NodeRelation, RelationValue(op), left, right)
  }

  function OnPredicate(left: Ast, right: Ast, kind: NodeType): Ast {
    Tree(kind, NoValue, left, right)
  }

  function OnEnum(left: Ast, right: Ast): Ast {
    Tree(NodeEnum, NoValue, left, right)
  }

  function OnGroup(left: Ast, right: Ast): Ast {
    Tree(NodeGroup, NoValue, left, right)
  }

  function OnLet(id: Ast, expr: Ast): Ast {
    Tree(NodeLet, NoValue, id, expr)
  }

  function OnOrderBy(ordering: Ast): Ast {
    Tree(NodeOrderBy, NoValue, ordering, Empty)
  }

  function OnOrdering(ordering: Ast, direction: Ordering): Ast {
    Tree(NodeOrdering, OrderingValue(direction), ordering, Empty)
  }

  function OnQueryBody(clauses: Ast, selectOrGroup: Ast, continuation: Ast): Ast {
    Tree(NodeQueryBody, NoValue, Tree(NodeSelect, NoValue, clauses, selectOrGroup), continuation)
  }

  function QueryComplete(from: Ast, body: Ast): Ast {
    Tree(NodeQuery, NoValue, from, body)
  }

  // ---------------------------------------------------------------- linked nodes

  class FendNode {
    var kind: NodeType
    var value: NodeValue
    var left: FendNode?
    var right: FendNode?

    constructor (left: FendNode?, right: FendNode?, kind: NodeType, value: NodeValue)
      ensures this.kind == kind && this.value == value && this.left == left && this.right == right
    {
      this.kind, this.value, this.left, this.right := kind, value, left, right;
    }
  }

  /** The nodes of a linked tree in their places. */
  datatype Shape = Nil | Fork(node: FendNode, left: Shape, right: Shape)

  function Root(t: Shape): FendNode? {
    if t.Nil? then null else t.node
  }

  function Nodes(t: Shape): set<object> {
    if t.Nil? then {} else {t.node} + Nodes(t.left) + Nodes(t.right)
  }

  /** No node has two places. */
  ghost predicate Tidy(t: Shape) {
    t.Fork? ==>
      && Tidy(t.left) && Tidy(t.right)
      && t.node !in Nodes(t.left) && t.node !in Nodes(t.right)
      && Nodes(t.left) !! Nodes(t.right)
  }

  /** The linked nodes of `t` amount to the syntax tree `a`. */
  ghost predicate Denotes(t: Shape, a: Ast)
    reads Nodes(t)
  {
    if t.Nil? then a.Empty?
    else
      && a.Tree?
      && t.node.kind == a.kind && t.node.value == a.value
      && t.node.left == Root(t.left) && t.node.right == Root(t.right)
      && Denotes(t.left, a.left) && Denotes(t.right, a.right)
  }
}
