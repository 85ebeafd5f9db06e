/** The queries of the grammar l2h.y that have one typed data source given as a string
    literal, and the syntax trees its actions build for them.  Lists are left-recursive, as
    in the grammar. */
module Queries {
  import opened Frontend

  datatype Expression =
    | Name(id: string)
    | Attribute(id: string, attribute: string)
    | Invocation(id: string, name: string)
    | InvocationOf(id: string, name: string, arguments: Expressions)
    | Text(text: string)
    | Number(number: int)
    | Anonymous(members: Expressions)

  datatype Expressions = One(only: Expression) | More(init: Expressions, last: Expression)

  datatype Condition =
    | Compare(left: Expression, op: CondOp, right: Expression)
    | Not(inner: Condition)
    | And(left1: Condition, right1: Condition)
    | Or(left2: Condition, right2: Condition)

  datatype Orderings =
    | Key(key: Expression, direction: Ordering)
    | Keys(init: Orderings, key: Expression, direction: Ordering)

  datatype Clause = Where(condition: Condition) | Let(id: string, value: Expression) | OrderBy(orderings: Orderings)

  datatype Clauses = First(clause: Clause) | Then(init: Clauses, clause: Clause)

  datatype OptClauses = NoClauses | Some(clauses: Clauses)

  datatype Selection = Select(expression: Expression) | Group(what: Expression, key: Expression)

  /** `from` typeInfo name `in` source, clauses, selection. */
  datatype Query = Query(typeInfo: TypeInfo, name: string, source: string, clauses: OptClauses, selection: Selection)

  function BuildExpression(e: Expression): Ast {
    match e
    case Name(id) => OnUnaryExpression(OnIdentifier(id), Empty)
    case Attribute(id, p) => OnUnaryExpression(OnIdentifier(id), OnStringAttribute(p))
    case Invocation(id, name) => OnUnaryExpression(OnIdentifier(id), OnMethodCall(name, Empty))
    case InvocationOf(id, name, es) =>
      OnUnaryExpression(OnIdentifier(id), OnMethodCall(name, BuildExpressions(es)))
    case Text(s) => OnUnaryString(s)
    case Number(n) => OnUnaryNumber(n)
    case Anonymous(es) => BuildExpressions(es)
  }

  function BuildExpressions(es: Expressions): Ast {
    match es
    case One(e) => BuildExpression(e)
    case More(init, e) => OnEnum(BuildExpressions(init), BuildExpression(e))
  }

  function BuildCondition(c: Condition): Ast {
    match c
    case Compare(l, op, r) => OnRelationalExpr(BuildExpression(l), BuildExpression(r), op)
    case Not(d) => OnPredicate(BuildCondition(d), Empty, NodeNotRel)
    case And(l, r) => OnPredicate(BuildCondition(l), BuildCondition(r), NodeAndRel)
    case Or(l, r) => OnPredicate(BuildCondition(l), BuildCondition(r), NodeOrRel)
  }

  function BuildOrderings(os: Orderings): Ast {
    match os
    case Key(e, d) => OnOrdering(BuildExpression(e), d)
    case Keys(init, e, d) => OnEnum(BuildOrderings(init), OnOrdering(BuildExpression(e), d))
  }

  function BuildClause(c: Clause): Ast {
    match c
    case Where(d) => OnWhere(BuildCondition(d))
    case Let(id, e) => OnLet(OnIdentifier(id), BuildExpression(e))
    case OrderBy(os) => OnOrderBy(BuildOrderings(os))
  }

  function BuildClauses(cs: Clauses): Ast {
    match cs
    case First(c) => BuildClause(c)
    case Then(init, c) => OnEnum(BuildClauses(init), BuildClause(c))
  }

  function BuildOptClauses(o: OptClauses): Ast {
    match o
    case NoClauses => Empty
    case Some(cs) => BuildClauses(cs)
  }

  function BuildSelection(s: Selection): Ast {
    match s
    case Select(e) => BuildExpression(e)
    case Group(e, k) => OnGroup(BuildExpression(e), BuildExpression(k))
  }

  function BuildFrom(t: TypeInfo, name: string, source: string): Ast {
    OnFrom(OnIdentifierDeclaration(t, OnIdentifier(name)), OnUnaryString(source))
  }

  function BuildQuery(q: Query): Ast {
    QueryComplete(BuildFrom(q.typeInfo, q.name, q.source),
                  OnQueryBody(BuildOptClauses(q.clauses), BuildSelection(q.selection), Empty))
  }

  lemma {:induction false} ExpressionTagged(e: Expression)
    ensures Tagged(BuildExpression(e)) && BuildExpression(e).Tree?
  {
    match e
    case InvocationOf(id, name, es) => ExpressionsTagged(es);
    case Anonymous(es) => ExpressionsTagged(es);
    case _ =>
  }

  lemma {:induction false} ExpressionsTagged(es: Expressions)
    ensures Tagged(BuildExpressions(es)) && BuildExpressions(es).Tree?
  {
    match es
    case One(e) => ExpressionTagged(e);
    case More(init, e) => ExpressionsTagged(init); ExpressionTagged(e);
  }

  lemma {:induction false} ConditionTagged(c: Condition)
    ensures Tagged(BuildCondition(c))
  {
    match c
    case Compare(l, _, r) => ExpressionTagged(l); ExpressionTagged(r);
    case Not(d) => ConditionTagged(d);
    case And(l, r) => ConditionTagged(l); ConditionTagged(r);
    case Or(l, r) => ConditionTagged(l); ConditionTagged(r);
  }

  lemma {:induction false} OrderingsTagged(os: Orderings)
    ensures Tagged(BuildOrderings(os))
  {
    ExpressionTagged(os.key);
    var last := OnOrdering(BuildExpression(os.key), os.direction);
    assert Tagged(last);
    if os.Keys? { OrderingsTagged(os.init); }
  }

  lemma {:induction false} ClauseTagged(c: Clause)
    ensures Tagged(BuildClause(c))
  {
    match c
    case Where(d) => ConditionTagged(d);
    case Let(_, e) => ExpressionTagged(e);
    case OrderBy(os) => OrderingsTagged(os);
  }

  lemma {:induction false} ClausesTagged(cs: Clauses)
    ensures Tagged(BuildClauses(cs))
  {
    ClauseTagged(cs.clause);
    if cs.Then? { ClausesTagged(cs.init); }
  }

  lemma {:induction false} SelectionTagged(s: Selection)
    ensures Tagged(BuildSelection(s))
  {
    match s
    case Select(e) => ExpressionTagged(e);
    case Group(e, k) => ExpressionTagged(e); ExpressionTagged(k);
  }

  /** Every node of every query's syntax tree carries a value that fits its kind. */
  lemma {:induction false} QueryTagged(q: Query)
    ensures Tagged(BuildQuery(q))
  {
    if q.clauses.Some? { ClausesTagged(q.clauses.clauses); }
    SelectionTagged(q.selection);
    FromTagged(q.typeInfo, q.name, q.source);
    assert Tagged(OnQueryBody(BuildOptClauses(q.clauses), BuildSelection(q.selection), Empty));
  }

  lemma {:induction false} FromTagged(t: TypeInfo, name: string, source: string)
    ensures Tagged(BuildFrom(t, name, source))
  {
    assert Tagged(if t.ComplexType? then Leaf(NodeIdentifier, StringValue(t.info)) else Empty);
    assert Tagged(OnTypeAttribute(t));
    assert Tagged(OnIdentifierDeclaration(t, OnIdentifier(name)));
  }
}
