/** The code of a query's body is the postfix form of its text, and the code of a condition,
    run on a stack of truth values, leaves the truth of the condition. */
module Postfix {
  import opened Frontend
  import opened Strings
  import opened Backend
  import opened Queries
  import opened CodeGeneration

  // ---------------------------------------------------------------- the postfix form of the text

  function Cleaned(s: string): Operand { StringOperand(Trim(s, QUOTES)) }

  /** The code of an expression: operands from left to right, the call after its arguments. */
  function ExpressionCode(e: Expression): seq<Triple> {
    match e
    case Name(id) => [Triple(OpUsage, NoOperand, Cleaned(id))]
    case Attribute(id, p) => [Triple(OpProperty, Cleaned(id), Cleaned(p))]
    case Invocation(id, name) => [Triple(OpCall, Cleaned(id), Cleaned(name))]
    case InvocationOf(id, name, es) =>
      [Triple(OpUsage, NoOperand, Cleaned(id))] + ExpressionsCode(es)
      + [Triple(OpCall, StringOperand(""), Cleaned(name))]
    case Text(s) => [Triple(OpString, Cleaned(s), NoOperand)]
    case Number(n) => [Triple(OpInteger, NumberOperand(n), NoOperand)]
    case Anonymous(es) => ExpressionsCode(es)
  }

  function ExpressionsCode(es: Expressions): seq<Triple> {
    match es
    case One(e) => ExpressionCode(e)
    case More(init, e) => ExpressionsCode(init) + ExpressionCode(e)
  }

  function ConditionCode(c: Condition): seq<Triple> {
    match c
    case Compare(l, op, r) =>
      ExpressionCode(l) + ExpressionCode(r) + [Triple(OpRelation, RelationOperand(op), NoOperand)]
    case Not(d) => ConditionCode(d) + [Triple(OpNotRel, NoOperand, NoOperand)]
    case And(l, r) => ConditionCode(l) + ConditionCode(r) + [Triple(OpAndRel, NoOperand, NoOperand)]
    case Or(l, r) => ConditionCode(l) + ConditionCode(r) + [Triple(OpOrRel, NoOperand, NoOperand)]
  }

  /** Directions leave no trace. */
  function OrderingsCode(os: Orderings): seq<Triple> {
    (if os.Keys? then OrderingsCode(os.init) else []) + ExpressionCode(os.key)
  }

  function ClauseCode(c: Clause): seq<Triple> {
    match c
    case Where(d) => ConditionCode(d)
    case Let(id, e) =>
      [Triple(OpUsage, NoOperand, Cleaned(id))] + ExpressionCode(e) + [Triple(OpLet, NoOperand, NoOperand)]
    case OrderBy(os) => OrderingsCode(os)
  }

  function ClausesCode(cs: Clauses): seq<Triple> {
    (if cs.Then? then ClausesCode(cs.init) else []) + ClauseCode(cs.clause)
  }

  function SelectedCode(s: Selection): seq<Triple> {
    match s
    case Select(e) => ExpressionCode(e)
    case Group(e, k) => ExpressionCode(e) + ExpressionCode(k)
  }

  /** The tree has this code. */
  predicate Has(t: Ast, code: seq<Triple>) {
    Plain(t) && Code(t) == code
  }

  lemma {:induction false} NothingHere()
    ensures Has(Empty, [])
  {
  }

  /** A leaf. */
  lemma {:induction false} LeafHas(t: Ast)
    requires t.Tree? && Plain(t) && t.left.Empty? && t.right.Empty?
    ensures Has(t, Own(t))
  {
    assert [] + [] + Own(t) == Own(t);
  }

  lemma {:induction false} NodeHas(t: Ast, l: seq<Triple>, r: seq<Triple>, own: seq<Triple>)
    requires t.Tree? && Plain(t) && !IsPair(t) && Has(t.left, l) && Has(t.right, r) && own == Own(t)
    ensures Has(t, l + r + own)
  {
  }

  lemma {:induction false} NodeHasFirst(t: Ast, l: seq<Triple>, own: seq<Triple>)
    requires t.Tree? && Plain(t) && !IsPair(t) && Has(t.left, l) && t.right.Empty? && own == Own(t)
    ensures Has(t, l + own)
  {
    NodeHas(t, l, [], own);
    assert l + [] == l;
  }

  lemma {:induction false} UnaryHas(t: Ast, l: seq<Triple>, r: seq<Triple>)
    requires t.Tree? && t.kind == NodeUnaryExpression && Plain(t) && !IsPair(t) && Has(t.left, l) && Has(t.right, r)
    ensures Has(t, l + r)
  {
    NodeHas(t, l, r, []);
    assert l + r + [] == l + r;
  }

  lemma {:induction false} ExpressionIsPostfix(e: Expression)
    ensures Has(BuildExpression(e), ExpressionCode(e)) && BuildExpression(e).Tree?
  {
    ExpressionPlain(e);
    var t := BuildExpression(e);
    match e
    case Name(id) => OperandHas(t);
    case Attribute(id, p) => assert IsPair(t);
    case Invocation(id, name) => assert IsPair(t);
    case InvocationOf(id, name, es) =>
      ExpressionsIsPostfix(es);
      CallHas(t, ExpressionsCode(es));
    case Text(s) => OperandHas(t);
    case Number(n) => OperandHas(t);
    case Anonymous(es) => ExpressionsIsPostfix(es);
  }

  /** A unary node over a leaf. */
  lemma {:induction false} OperandHas(t: Ast)
    requires t.Tree? && t.kind == NodeUnaryExpression && Plain(t) && t.right.Empty?
    requires t.left.Tree? && t.left.left.Empty? && t.left.right.Empty?
    ensures TagFits(t.left.kind, t.left.value) && Has(t, Own(t.left))
  {
    LeafHas(t.left);
    NothingHere();
    UnaryHas(t, Own(t.left), []);
    assert Own(t.left) + [] == Own(t.left);
  }

  lemma {:induction false} CallHas(t: Ast, arguments: seq<Triple>)
    requires t.Tree? && t.kind == NodeUnaryExpression && Plain(t) && !IsPair(t)
    requires t.left.Tree? && t.left.kind == NodeIdentifier && t.left.left.Empty? && t.left.right.Empty?
    requires t.right.Tree? && t.right.kind == NodeMethodCall && t.right.left.Tree? && t.right.right.Empty?
    requires Has(t.right.left, arguments)
    ensures TagFits(t.left.kind, t.left.value) && TagFits(t.right.kind, t.right.value)
    ensures Has(t, Own(t.left) + arguments + Own(t.right))
  {
    LeafHas(t.left);
    NodeHasFirst(t.right, arguments, Own(t.right));
    UnaryHas(t, Own(t.left), arguments + Own(t.right));
    Associate(Own(t.left), arguments, Own(t.right));
  }

  lemma {:induction false} ExpressionsIsPostfix(es: Expressions)
    ensures Has(BuildExpressions(es), ExpressionsCode(es)) && BuildExpressions(es).Tree?
  {
    ExpressionsPlain(es);
    match es
    case One(e) => ExpressionIsPostfix(e);
    case More(init, e) =>
      ExpressionsIsPostfix(init);
      ExpressionIsPostfix(e);
      ListHas(BuildExpressions(es), ExpressionsCode(init), ExpressionCode(e));
  }

  /** A node that emits nothing itself. */
  lemma {:induction false} ListHas(t: Ast, l: seq<Triple>, r: seq<Triple>)
    requires t.Tree? && Plain(t) && !IsPair(t) && Own(t) == [] && Has(t.left, l) && Has(t.right, r)
    ensures Has(t, l + r)
  {
    NodeHas(t, l, r, []);
    assert l + r + [] == l + r;
  }

  lemma {:induction false} ConditionIsPostfix(c: Condition)
    ensures Has(BuildCondition(c), ConditionCode(c))
  {
    ConditionPlain(c);
    var t := BuildCondition(c);
    match c
    case Compare(l, op, r) =>
      ExpressionIsPostfix(l);
      ExpressionIsPostfix(r);
      NodeHas(t, ExpressionCode(l), ExpressionCode(r), Own(t));
    case Not(d) => ConditionIsPostfix(d); NodeHasFirst(t, ConditionCode(d), Own(t));
    case And(l, r) =>
      ConditionIsPostfix(l); ConditionIsPostfix(r); NodeHas(t, ConditionCode(l), ConditionCode(r), Own(t));
    case Or(l, r) =>
      ConditionIsPostfix(l); ConditionIsPostfix(r); NodeHas(t, ConditionCode(l), ConditionCode(r), Own(t));
  }

  lemma {:induction false} OrderingsIsPostfix(os: Orderings)
    ensures Has(BuildOrderings(os), OrderingsCode(os))
  {
    var last := OnOrdering(BuildExpression(os.key), os.direction);
    OrderingsPlain(os);
    ExpressionIsPostfix(os.key);
    assert Plain(last);
    NothingHere();
    ListHas(last, ExpressionCode(os.key), []);
    assert ExpressionCode(os.key) + [] == ExpressionCode(os.key) == [] + ExpressionCode(os.key);
    if os.Keys? {
      OrderingsIsPostfix(os.init);
      ListHas(BuildOrderings(os), OrderingsCode(os.init), ExpressionCode(os.key));
    }
  }

  lemma {:induction false} ClauseIsPostfix(c: Clause)
    ensures Has(BuildClause(c), ClauseCode(c))
  {
    ClausePlain(c);
    NothingHere();
    var t := BuildClause(c);
    match c
    case Where(d) =>
      ConditionIsPostfix(d);
      ListHas(t, ConditionCode(d), []);
      assert ConditionCode(d) + [] == ConditionCode(d);
    case Let(id, e) =>
      ExpressionIsPostfix(e);
      LeafHas(t.left);
      NodeHas(t, Own(t.left), ExpressionCode(e), Own(t));
    case OrderBy(os) =>
      OrderingsIsPostfix(os);
      ListHas(t, OrderingsCode(os), []);
      assert OrderingsCode(os) + [] == OrderingsCode(os);
  }

  lemma {:induction false} ClausesIsPostfix(cs: Clauses)
    ensures Has(BuildClauses(cs), ClausesCode(cs))
  {
    ClausesPlain(cs);
    ClauseIsPostfix(cs.clause);
    if cs.Then? {
      ClausesIsPostfix(cs.init);
      ListHas(BuildClauses(cs), ClausesCode(cs.init), ClauseCode(cs.clause));
    } else {
      assert [] + ClauseCode(cs.clause) == ClauseCode(cs.clause);
    }
  }

  lemma {:induction false} SelectedIsPostfix(s: Selection)
    ensures Has(BuildSelection(s), SelectedCode(s))
  {
    SelectionPlain(s);
    match s
    case Select(e) => ExpressionIsPostfix(e);
    case Group(e, k) =>
      ExpressionIsPostfix(e);
      ExpressionIsPostfix(k);
      ListHas(BuildSelection(s), ExpressionCode(e), ExpressionCode(k));
  }

  /** The code of every query: header, the postfix forms of its clauses and of what it selects,
      select. */
  lemma {:induction false} QueryIsPostfix(q: Query)
    requires Declarable(q.typeInfo)
    ensures
      EmitAll([], PostItems(BuildQuery(q)))
      == Header(q.typeInfo, q.name, q.source)
         + ((if q.clauses.Some? then ClausesCode(q.clauses.clauses) else []) + SelectedCode(q.selection)) + [SELECT]
  {
    QueryCode(q);
    BodyPlain(q);
    NothingHere();
    if q.clauses.Some? { ClausesIsPostfix(q.clauses.clauses); }
    SelectedIsPostfix(q.selection);
  }

  // ---------------------------------------------------------------- what the code of a condition computes

  /** The truth values left so far, and the operands read since the last of them. */
  datatype Machine = Machine(stack: seq<bool>, operands: seq<Triple>)

  /** What holds between which operands. */
  type Relation = (seq<Triple>, CondOp) -> bool

  datatype Outcome = Stuck | Running(machine: Machine)

  function Execute(m: Machine, t: Triple, holds: Relation): Outcome {
    var n := |m.stack|;
    match t.code
    case OpRelation =>
      if !t.op1.RelationOperand? then Stuck
      else Running(Machine(m.stack + [holds(m.operands, t.op1.relationOp)], []))
    case OpNotRel =>
      if n < 1 || m.operands != [] then Stuck else Running(Machine(m.stack[..n - 1] + [!m.stack[n - 1]], []))
    case OpAndRel =>
      if n < 2 || m.operands != [] then Stuck
      else Running(Machine(m.stack[..n - 2] + [m.stack[n - 2] && m.stack[n - 1]], []))
    case OpOrRel =>
      if n < 2 || m.operands != [] then Stuck
      else Running(Machine(m.stack[..n - 2] + [m.stack[n - 2] || m.stack[n - 1]], []))
    case _ => Running(Machine(m.stack, m.operands + [t]))
  }

  function ExecuteAll(m: Machine, code: seq<Triple>, holds: Relation): Outcome
    decreases |code|
  {
    if code == [] then Running(m)
    else
      var next := Execute(m, code[0], holds);
      if next.Stuck? then Stuck else ExecuteAll(next.machine, code[1..], holds)
  }

  /** The truth of a condition, read off its text. */
  predicate Truth(c: Condition, holds: Relation) {
    match c
    case Compare(l, op, r) => holds(ExpressionCode(l) + ExpressionCode(r), op)
    case Not(d) => !Truth(d, holds)
    case And(l, r) => Truth(l, holds) && Truth(r, holds)
    case Or(l, r) => Truth(l, holds) || Truth(r, holds)
  }

  lemma {:induction false} ExecuteConcat(m: Machine, a: seq<Triple>, b: seq<Triple>, m': Machine, holds: Relation)
    requires ExecuteAll(m, a, holds) == Running(m')
    ensures ExecuteAll(m, a + b, holds) == ExecuteAll(m', b, holds)
    decreases |a|
  {
    if a == [] {
      assert a + b == b;
    } else {
      assert (a + b)[0] == a[0] && (a + b)[1..] == a[1..] + b;
      ExecuteConcat(Execute(m, a[0], holds).machine, a[1..], b, m', holds);
    }
  }

  predicate Operand(t: Triple) {
    t.code !in {OpRelation, OpNotRel, OpAndRel, OpOrRel}
  }

  lemma {:induction false} OperandsRead(m: Machine, code: seq<Triple>, holds: Relation)
    requires forall t :: t in code ==> Operand(t)
    ensures ExecuteAll(m, code, holds) == Running(Machine(m.stack, m.operands + code))
    decreases |code|
  {
    if code == [] {
      assert m.operands + [] == m.operands;
    } else {
      assert code[0] in code;
      var next := Execute(m, code[0], holds).machine;
      assert next == Machine(m.stack, m.operands + [code[0]]);
      OperandsRead(next, code[1..], holds);
      assert m.operands + [code[0]] + code[1..] == m.operands + code;
    }
  }

  lemma {:induction false} ExpressionOperands(e: Expression)
    ensures forall t :: t in ExpressionCode(e) ==> Operand(t)
  {
    match e
    case InvocationOf(_, _, es) => ExpressionsOperands(es);
    case Anonymous(es) => ExpressionsOperands(es);
    case _ =>
  }

  lemma {:induction false} ExpressionsOperands(es: Expressions)
    ensures forall t :: t in ExpressionsCode(es) ==> Operand(t)
  {
    match es
    case One(e) => ExpressionOperands(e);
    case More(init, e) => ExpressionsOperands(init); ExpressionOperands(e);
  }

  lemma {:induction false} LastExecuted(m: Machine, code: seq<Triple>, t: Triple, m': Machine, holds: Relation)
    requires ExecuteAll(m, code, holds) == Running(m')
    ensures ExecuteAll(m, code + [t], holds) == Execute(m', t, holds)
  {
    ExecuteConcat(m, code, [t], m', holds);
    assert [t][1..] == [];
  }

  /** Two values computed one after the other, and the triple that takes them. */
  lemma {:induction false} PairComputes(stack: seq<bool>, l: seq<Triple>, a: bool, r: seq<Triple>, b: bool, t: Triple,
                                        holds: Relation)
    requires ExecuteAll(Machine(stack, []), l, holds) == Running(Machine(stack + [a], []))
    requires ExecuteAll(Machine(stack + [a], []), r, holds) == Running(Machine(stack + [a] + [b], []))
    requires t.code == OpAndRel || t.code == OpOrRel
    ensures ExecuteAll(Machine(stack, []), l + r + [t], holds)
         == Running(Machine(stack + [if t.code == OpAndRel then a && b else a || b], []))
  {
    var m, first, second := Machine(stack, []), Machine(stack + [a], []), Machine(stack + [a] + [b], []);
    ExecuteConcat(m, l, r, first, holds);
    LastExecuted(m, l + r, t, second, holds);
    assert second.stack[..|stack|] == stack;
  }

  lemma {:induction false} NotComputes(stack: seq<bool>, l: seq<Triple>, a: bool, t: Triple, holds: Relation)
    requires ExecuteAll(Machine(stack, []), l, holds) == Running(Machine(stack + [a], []))
    requires t.code == OpNotRel
    ensures ExecuteAll(Machine(stack, []), l + [t], holds) == Running(Machine(stack + [!a], []))
  {
    LastExecuted(Machine(stack, []), l, t, Machine(stack + [a], []), holds);
    assert (stack + [a])[..|stack|] == stack;
  }

  /** The code of a condition leaves the truth of the condition on the stack, and what was below
      as it was. */
  lemma {:induction false} ConditionComputes(c: Condition, stack: seq<bool>, holds: Relation)
    ensures ExecuteAll(Machine(stack, []), ConditionCode(c), holds) == Running(Machine(stack + [Truth(c, holds)], []))
  {
    match c
    case Compare(l, op, r) => ComparisonComputes(l, op, r, stack, holds);
    case Not(d) =>
      ConditionComputes(d, stack, holds);
      NotComputes(stack, ConditionCode(d), Truth(d, holds), Triple(OpNotRel, NoOperand, NoOperand), holds);
    case And(l, r) =>
      ConditionComputes(l, stack, holds);
      ConditionComputes(r, stack + [Truth(l, holds)], holds);
      PairComputes(stack, ConditionCode(l), Truth(l, holds), ConditionCode(r), Truth(r, holds),
                   Triple(OpAndRel, NoOperand, NoOperand), holds);
    case Or(l, r) =>
      ConditionComputes(l, stack, holds);
      ConditionComputes(r, stack + [Truth(l, holds)], holds);
      PairComputes(stack, ConditionCode(l), Truth(l, holds), ConditionCode(r), Truth(r, holds),
                   Triple(OpOrRel, NoOperand, NoOperand), holds);
  }

  lemma {:induction false} ComparisonComputes(l: Expression, op: CondOp, r: Expression, stack: seq<bool>,
                                              holds: Relation)
    ensures ExecuteAll(Machine(stack, []), ConditionCode(Compare(l, op, r)), holds)
         == Running(Machine(stack + [holds(ExpressionCode(l) + ExpressionCode(r), op)], []))
  {
    var operands := ExpressionCode(l) + ExpressionCode(r);
    ExpressionOperands(l);
    ExpressionOperands(r);
    OperandsRead(Machine(stack, []), operands, holds);
    assert [] + operands == operands;
    LastExecuted(Machine(stack, []), operands, Triple(OpRelation, RelationOperand(op), NoOperand),
                 Machine(stack, operands), holds);
  }

  /** So do the triples that the generator makes of the condition's tree, from any list that ends
      in neither a type nor a select: `and` is generated for `&&`, `or` for `||`. */
  lemma {:induction false} GeneratedConditionComputes(code: seq<Triple>, c: Condition, stack: seq<bool>,
                                                      holds: Relation)
    requires Settled(code)
    ensures
      var generated := EmitAll(code, PostItems(BuildCondition(c)));
      && |generated| >= |code| && generated[..|code|] == code
      && ExecuteAll(Machine(stack, []), generated[|code|..], holds)
         == Running(Machine(stack + [Truth(c, holds)], []))
  {
    ConditionIsPostfix(c);
    Compositional(0, code, BuildCondition(c));
    ConditionComputes(c, stack, holds);
    assert (code + ConditionCode(c))[|code|..] == ConditionCode(c);
  }
}
