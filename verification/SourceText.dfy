/** The text that a syntax tree stands for.  The tree of a query, read from left to right, gives
    the tokens of the query back: every keyword, operator, direction and name is still there, in
    its place.  Only the braces of anonymous types and superfluous parentheses are lost. */
module SourceText {
  import opened Frontend
  import opened Queries
  import opened CodeGeneration

  datatype Token =
    | Word(text: string)
    | Numeral(number: int)
    | Operator(op: CondOp)
    | Keyword(name: string)

  // ---------------------------------------------------------------- the tokens of a query

  function TypeTokens(t: TypeInfo): seq<Token> {
    match t
    case ComplexType(_, info) => [Word(info)]
    case SimpleType(TypeDynamic) => []
    case SimpleType(TypeFile) => [Keyword("file")]
    case SimpleType(TypeDir) => [Keyword("dir")]
    case SimpleType(_) => [Keyword("string")]
  }

  function TokensOf(e: Expression): seq<Token> {
    match e
    case Name(id) => [Word(id)]
    case Attribute(id, p) => [Word(id), Keyword("."), Word(p)]
    case Invocation(id, name) => [Word(id), Keyword("."), Word(name), Keyword("("), Keyword(")")]
    case InvocationOf(id, name, es) =>
      [Word(id)] + ([Keyword("."), Word(name), Keyword("(")] + TokensOfAll(es) + [Keyword(")")])
    case Text(s) => [Word(s)]
    case Number(n) => [Numeral(n)]
    case Anonymous(es) => TokensOfAll(es)
  }

  function TokensOfAll(es: Expressions): seq<Token> {
    match es
    case One(e) => TokensOf(e)
    case More(init, e) => TokensOfAll(init) + [Keyword(",")] + TokensOf(e)
  }

  /** A condition with all its parentheses. */
  function ConditionTokens(c: Condition): seq<Token> {
    match c
    case Compare(l, op, r) => [Keyword("(")] + TokensOf(l) + [Operator(op)] + TokensOf(r) + [Keyword(")")]
    case Not(d) => [Keyword("("), Keyword("!")] + ConditionTokens(d) + [Keyword(")")]
    case And(l, r) =>
      [Keyword("(")] + ConditionTokens(l) + [Keyword("&&")] + ConditionTokens(r) + [Keyword(")")]
    case Or(l, r) =>
      [Keyword("(")] + ConditionTokens(l) + [Keyword("||")] + ConditionTokens(r) + [Keyword(")")]
  }

  function DirectionToken(d: Ordering): Token {
    Keyword(if d == OrderingAsc then "ascending" else "descending")
  }

  function OrderingTokens(os: Orderings): seq<Token> {
    match os
    case Key(e, d) => TokensOf(e) + [DirectionToken(d)]
    case Keys(init, e, d) => OrderingTokens(init) + [Keyword(",")] + (TokensOf(e) + [DirectionToken(d)])
  }

  function ClauseTokens(c: Clause): seq<Token> {
    match c
    case Where(d) => [Keyword("where")] + ConditionTokens(d)
    case Let(id, e) => [Keyword("let")] + [Word(id)] + [Keyword("=")] + TokensOf(e)
    case OrderBy(os) => [Keyword("orderby")] + OrderingTokens(os)
  }

  function ClausesTokens(cs: Clauses): seq<Token> {
    match cs
    case First(c) => ClauseTokens(c)
    case Then(init, c) => ClausesTokens(init) + ClauseTokens(c)
  }

  function SelectionTokens(s: Selection): seq<Token> {
    match s
    case Select(e) => [Keyword("select")] + TokensOf(e)
    case Group(e, k) => [Keyword("group")] + TokensOf(e) + [Keyword("by")] + TokensOf(k)
  }

  function QueryTokens(q: Query): seq<Token> {
    [Keyword("from")] + (TypeTokens(q.typeInfo) + [Word(q.name)]) + [Keyword("in")] + [Word(q.source)]
    + ((if q.clauses.Some? then ClausesTokens(q.clauses.clauses) else []) + SelectionTokens(q.selection))
  }

  // ---------------------------------------------------------------- the tokens of a tree

  function NameTokens(value: NodeValue): seq<Token> {
    if value.StringValue? then [Word(value.str)] else []
  }

  /** The declared type below an identifier. */
  function DeclaredTokens(t: Ast): seq<Token> {
    if t.Empty? || !t.value.TypeValue? then []
    else if t.left.Tree? then NameTokens(t.left.value)
    else
      match t.value.typeDef
      case TypeFile => [Keyword("file")]
      case TypeDir => [Keyword("dir")]
      case TypeString => [Keyword("string")]
      case _ => []
  }

  /** The text of an expression's, a condition's or an ordering's tree. */
  function Unparse(t: Ast): seq<Token> {
    if t.Empty? then []
    else
      match t.kind
      case NodeIdentifier => DeclaredTokens(t.left) + NameTokens(t.value)
      case NodeStringLiteral => NameTokens(t.value)
      case NodeNumericLiteral => if t.value.NumberValue? then [Numeral(t.value.number)] else []
      case NodeProperty => [Keyword(".")] + NameTokens(t.value)
      case NodeMethodCall =>
        [Keyword(".")] + NameTokens(t.value) + [Keyword("(")] + Unparse(t.left) + [Keyword(")")]
      case NodeUnaryExpression => Unparse(t.left) + Unparse(t.right)
      case NodeEnum => Unparse(t.left) + [Keyword(",")] + Unparse(t.right)
      case NodeRelation =>
        [Keyword("(")] + Unparse(t.left) + (if t.value.RelationValue? then [Operator(t.value.relationOp)] else [])
        + Unparse(t.right) + [Keyword(")")]
      case NodeNotRel => [Keyword("("), Keyword("!")] + Unparse(t.left) + [Keyword(")")]
      case NodeAndRel => [Keyword("(")] + Unparse(t.left) + [Keyword("&&")] + Unparse(t.right) + [Keyword(")")]
      case NodeOrRel => [Keyword("(")] + Unparse(t.left) + [Keyword("||")] + Unparse(t.right) + [Keyword(")")]
      case NodeOrdering =>
        Unparse(t.left) + (if t.value.OrderingValue? then [DirectionToken(t.value.ordering)] else [])
      case NodeWhere => [Keyword("where")] + Unparse(t.left)
      case NodeLet => [Keyword("let")] + Unparse(t.left) + [Keyword("=")] + Unparse(t.right)
      case NodeOrderBy => [Keyword("orderby")] + Unparse(t.left)
      case NodeGroup => [Keyword("group")] + Unparse(t.left) + [Keyword("by")] + Unparse(t.right)
      case NodeFrom => [Keyword("from")] + Unparse(t.left) + [Keyword("in")] + Unparse(t.right)
      case _ => []
  }

  /** Clauses stand one after the other, without commas. */
  function UnparseClauses(t: Ast): seq<Token> {
    if t.Tree? && t.kind == NodeEnum then UnparseClauses(t.left) + UnparseClauses(t.right) else Unparse(t)
  }

  function UnparseSelection(t: Ast): seq<Token> {
    if t.Tree? && t.kind == NodeGroup then Unparse(t) else [Keyword("select")] + Unparse(t)
  }

  /** A query: from clause, and a body with clauses and selection below its select node. */
  function UnparseQuery(t: Ast): seq<Token> {
    if t.Empty? || t.right.Empty? || t.right.left.Empty? then []
    else
      var select := t.right.left;
      Unparse(t.left) + (UnparseClauses(select.left) + UnparseSelection(select.right))
  }

  // ---------------------------------------------------------------- the tree gives the text back

  lemma {:induction false} ExpressionText(e: Expression)
    ensures Unparse(BuildExpression(e)) == TokensOf(e)
    ensures BuildExpression(e).Tree? && BuildExpression(e).kind != NodeGroup
  {
    match e
    case Name(id) => LeafText(OnIdentifier(id), [Word(id)]);
    case Attribute(id, p) => PairText(id, OnStringAttribute(p), [Keyword("."), Word(p)]);
    case Invocation(id, name) =>
      CallText(id, name, Empty, []);
    case InvocationOf(id, name, es) =>
      ExpressionsText(es);
      CallText(id, name, BuildExpressions(es), TokensOfAll(es));
    case Text(s) => LeafText(Leaf(NodeStringLiteral, StringValue(s)), [Word(s)]);
    case Number(n) => LeafText(Leaf(NodeNumericLiteral, NumberValue(n)), [Numeral(n)]);
    case Anonymous(es) => ExpressionsText(es);
  }

  lemma {:induction false} LeafText(leaf: Ast, tokens: seq<Token>)
    requires Unparse(leaf) == tokens
    ensures Unparse(OnUnaryExpression(leaf, Empty)) == tokens
  {
    assert tokens + [] == tokens;
  }

  lemma {:induction false} PairText(id: string, second: Ast, tokens: seq<Token>)
    requires Unparse(second) == tokens
    ensures Unparse(OnUnaryExpression(OnIdentifier(id), second)) == [Word(id)] + tokens
  {
    assert Unparse(OnIdentifier(id)) == [Word(id)];
  }

  lemma {:induction false} CallText(id: string, name: string, arguments: Ast, tokens: seq<Token>)
    requires Unparse(arguments) == tokens
    ensures Unparse(OnUnaryExpression(OnIdentifier(id), OnMethodCall(name, arguments)))
         == [Word(id)] + ([Keyword("."), Word(name), Keyword("(")] + tokens + [Keyword(")")])
  {
    PairText(id, OnMethodCall(name, arguments), [Keyword("."), Word(name), Keyword("(")] + tokens + [Keyword(")")]);
  }

  lemma {:induction false} ExpressionsText(es: Expressions)
    ensures Unparse(BuildExpressions(es)) == TokensOfAll(es)
    ensures BuildExpressions(es).Tree? && BuildExpressions(es).kind != NodeGroup
  {
    match es
    case One(e) => ExpressionText(e);
    case More(init, e) => ExpressionsText(init); ExpressionText(e);
  }

  lemma {:induction false} ConditionText(c: Condition)
    ensures Unparse(BuildCondition(c)) == ConditionTokens(c)
  {
    match c
    case Compare(l, op, r) => ExpressionText(l); ExpressionText(r);
    case Not(d) => ConditionText(d);
    case And(l, r) => ConditionText(l); ConditionText(r);
    case Or(l, r) => ConditionText(l); ConditionText(r);
  }

  lemma {:induction false} OrderingsText(os: Orderings)
    ensures Unparse(BuildOrderings(os)) == OrderingTokens(os)
  {
    ExpressionText(os.key);
    if os.Keys? { OrderingsText(os.init); }
  }

  lemma {:induction false} ClauseText(c: Clause)
    ensures Unparse(BuildClause(c)) == ClauseTokens(c) && BuildClause(c).kind != NodeEnum
  {
    match c
    case Where(d) => ConditionText(d);
    case Let(id, e) => ExpressionText(e); assert Unparse(OnIdentifier(id)) == [Word(id)];
    case OrderBy(os) => OrderingsText(os);
  }

  lemma {:induction false} ClausesText(cs: Clauses)
    ensures UnparseClauses(BuildClauses(cs)) == ClausesTokens(cs)
  {
    ClauseText(cs.clause);
    if cs.Then? { ClausesText(cs.init); }
  }

  lemma {:induction false} SelectionText(s: Selection)
    ensures UnparseSelection(BuildSelection(s)) == SelectionTokens(s)
  {
    match s
    case Select(e) => ExpressionText(e);
    case Group(e, k) => ExpressionText(e); ExpressionText(k);
  }

  lemma {:induction false} FromText(t: TypeInfo, name: string, source: string)
    requires Declarable(t)
    ensures Unparse(BuildFrom(t, name, source))
         == [Keyword("from")] + (TypeTokens(t) + [Word(name)]) + [Keyword("in")] + [Word(source)]
  {
    assert Unparse(OnIdentifierDeclaration(t, OnIdentifier(name))) == TypeTokens(t) + [Word(name)];
    LeafText(Leaf(NodeStringLiteral, StringValue(source)), [Word(source)]);
  }

  /** The tree of every query, read back, is the text of the query. */
  lemma {:induction false} QueryText(q: Query)
    requires Declarable(q.typeInfo)
    ensures UnparseQuery(BuildQuery(q)) == QueryTokens(q)
  {
    FromText(q.typeInfo, q.name, q.source);
    if q.clauses.Some? { ClausesText(q.clauses.clauses); }
    SelectionText(q.selection);
  }

  /** So queries with different text, braces and superfluous parentheses aside, have different
      trees. */
  lemma {:induction false} TreeDecidesText(q: Query, r: Query)
    requires Declarable(q.typeInfo) && Declarable(r.typeInfo) && BuildQuery(q) == BuildQuery(r)
    ensures QueryTokens(q) == QueryTokens(r)
  {
    QueryText(q);
    QueryText(r);
  }

  /** An anonymous type with one member is that member. */
  lemma {:induction false} BracesAreLost(e: Expression)
    ensures BuildExpression(Anonymous(One(e))) == BuildExpression(e)
  {
  }
}
