/** What the code generator makes of whole trees.  The fold is context-sensitive: the same
    identifier is a definition, a continuation's name or a usage depending on the triple
    before it, and triples are taken back; for expressions the result is nevertheless the
    concatenation of what the parts give. */
module CodeGeneration {
  import opened Frontend
  import opened Strings
  import opened Backend
  import opened Queries

  /** The items that tree_postorder hands to bend_emit. */
  function PostItems(t: Ast): seq<Item> {
    if t.Empty? then [] else PostItems(t.left) + PostItems(t.right) + [ItemOf(t)]
  }

  function EmitAll(code: seq<Triple>, items: seq<Item>): seq<Triple>
    decreases |items|
  {
    if items == [] || !Emittable(code, items[0]) then code
    else EmitAll(EmitStep(code, items[0]), items[1..])
  }

  /** The fold never takes back one of the first `base` triples. */
  predicate Above(base: nat, code: seq<Triple>, items: seq<Item>)
    decreases |items|
  {
    items == [] || (
      && Emittable(code, items[0])
      && |code| - Pops(code, items[0]) >= base
      && Above(base, EmitStep(code, items[0]), items[1..]))
  }

  lemma {:induction false} EmitConcat(base: nat, code: seq<Triple>, a: seq<Item>, b: seq<Item>)
    requires Above(base, code, a)
    ensures EmitAll(code, a + b) == EmitAll(EmitAll(code, a), b)
    ensures Above(base, EmitAll(code, a), b) ==> Above(base, code, a + b)
    decreases |a|
  {
    if a == [] {
      assert a + b == b;
    } else {
      assert (a + b)[0] == a[0] && (a + b)[1..] == a[1..] + b;
      EmitConcat(base, EmitStep(code, a[0]), a[1..], b);
    }
  }

  lemma {:induction false} EmitThree(base: nat, code: seq<Triple>, a: seq<Item>, b: seq<Item>, c: seq<Item>,
                                     code1: seq<Triple>, code2: seq<Triple>, code3: seq<Triple>)
    requires Above(base, code, a) && EmitAll(code, a) == code1
    requires Above(base, code1, b) && EmitAll(code1, b) == code2
    requires Above(base, code2, c) && EmitAll(code2, c) == code3
    ensures Above(base, code, a + b + c) && EmitAll(code, a + b + c) == code3
  {
    EmitConcat(base, code, a, b);
    EmitConcat(base, code, a + b, c);
  }

  lemma {:induction false} Associate<T>(a: seq<T>, b: seq<T>, c: seq<T>)
    ensures a + (b + c) == a + b + c
  {
  }

  /** What stays above `base` leaves the first `base` triples as they were. */
  lemma {:induction false} AboveKeeps(base: nat, code: seq<Triple>, items: seq<Item>)
    requires base <= |code| && Above(base, code, items)
    ensures base <= |EmitAll(code, items)| && EmitAll(code, items)[..base] == code[..base]
    decreases |items|
  {
    if items != [] {
      AboveKeeps(base, EmitStep(code, items[0]), items[1..]);
    }
  }

  // ---------------------------------------------------------------- expressions

  /** In this context an identifier is a usage. */
  predicate Settled(code: seq<Triple>) {
    code != [] && code[|code| - 1].code != OpType && code[|code| - 1].code != OpSelect
  }

  /** An identifier followed by a property or by a call without arguments: the second takes
      back the triple of the first. */
  predicate IsPair(t: Ast) {
    && t.Tree? && t.kind == NodeUnaryExpression
    && t.left.Tree? && t.left.kind == NodeIdentifier && t.left.value.StringValue? && ItemOf(t.left).childless
    && t.right.Tree? && (t.right.kind == NodeProperty || t.right.kind == NodeMethodCall)
    && t.right.value.StringValue? && ItemOf(t.right).childless
  }

  /** Trees whose nodes are neither declarations nor selections, and in which properties and
      calls without arguments follow an identifier. */
  predicate Plain(t: Ast) {
    t.Empty? || IsPair(t) || (
      && TagFits(t.kind, t.value)
      && Plain(t.left) && Plain(t.right)
      && (match t.kind
          case NodeFrom | NodeInternalType | NodeSelect | NodeProperty => false
          case NodeMethodCall => !ItemOf(t).childless
          case _ => true))
  }

  function Own(t: Ast): seq<Triple>
    requires t.Tree? && TagFits(t.kind, t.value)
  {
    match t.kind
    case NodeIdentifier => [Triple(OpUsage, NoOperand, CreateString(t.value))]
    case NodeStringLiteral => [Triple(OpString, CreateString(t.value), NoOperand)]
    case NodeNumericLiteral => [Triple(OpInteger, NumberOperand(t.value.number), NoOperand)]
    case NodeMethodCall => [Triple(OpCall, StringOperand(""), CreateString(t.value))]
    case NodeRelation => [Triple(OpRelation, RelationOperand(t.value.relationOp), NoOperand)]
    case NodeNotRel => [Triple(OpNotRel, NoOperand, NoOperand)]
    case NodeAndRel => [Triple(OpAndRel, NoOperand, NoOperand)]
    case NodeOrRel => [Triple(OpOrRel, NoOperand, NoOperand)]
    case NodeLet => [Triple(OpLet, NoOperand, NoOperand)]
    case _ => []
  }

  /** The code of a plain tree, part by part. */
  function Code(t: Ast): seq<Triple>
    requires Plain(t)
  {
    if t.Empty? then []
    else if IsPair(t) then
      [Triple(if t.right.kind == NodeProperty then OpProperty else OpCall,
              CreateString(t.left.value), CreateString(t.right.value))]
    else Code(t.left) + Code(t.right) + Own(t)
  }

  lemma {:induction false} CodeSettles(t: Ast)
    requires Plain(t)
    ensures forall c :: c in Code(t) ==> c.code != OpType && c.code != OpSelect && c.code != OpFrom && c.code != OpDef
  {
    if t.Tree? && !IsPair(t) {
      CodeSettles(t.left);
      CodeSettles(t.right);
    }
  }

  lemma {:induction false} StillSettled(code: seq<Triple>, more: seq<Triple>)
    requires Settled(code) && forall c :: c in more ==> c.code != OpType && c.code != OpSelect
    ensures Settled(code + more)
  {
    if more != [] { assert more[|more| - 1] in more; }
  }

  lemma {:induction false} EmitOne(base: nat, code: seq<Triple>, item: Item)
    requires Emittable(code, item) && |code| - Pops(code, item) >= base
    ensures Above(base, code, [item]) && EmitAll(code, [item]) == EmitStep(code, item)
  {
    assert [item][1..] == [];
  }

  lemma {:induction false} PairItems(t: Ast)
    requires IsPair(t)
    ensures PostItems(t) == [ItemOf(t.left)] + [ItemOf(t.right)] + [ItemOf(t)]
  {
    assert PostItems(t.left) == [ItemOf(t.left)] && PostItems(t.right) == [ItemOf(t.right)];
  }

  lemma {:induction false} PairSteps(code: seq<Triple>, t: Ast)
    requires Settled(code) && IsPair(t)
    ensures
      var usage := code + [Triple(OpUsage, NoOperand, CreateString(t.left.value))];
      && Emittable(code, ItemOf(t.left)) && Pops(code, ItemOf(t.left)) == 0 && EmitStep(code, ItemOf(t.left)) == usage
      && Emittable(usage, ItemOf(t.right)) && Pops(usage, ItemOf(t.right)) == 1
      && EmitStep(usage, ItemOf(t.right)) == code + Code(t)
  {
    assert code[..|code|] == code;
    var usage := code + [Triple(OpUsage, NoOperand, CreateString(t.left.value))];
    assert usage[..|usage| - 1] == code;
  }

  lemma {:induction false} NeutralStep(code: seq<Triple>, item: Item)
    requires item.kind == NodeUnaryExpression
    ensures Emittable(code, item) && Pops(code, item) == 0 && EmitStep(code, item) == code
  {
  }

  lemma {:induction false} PairCode(base: nat, code: seq<Triple>, t: Ast)
    requires Settled(code) && base <= |code| && IsPair(t)
    ensures Above(base, code, PostItems(t)) && EmitAll(code, PostItems(t)) == code + Code(t)
  {
    var i, j, u := ItemOf(t.left), ItemOf(t.right), ItemOf(t);
    PairItems(t);
    PairSteps(code, t);
    NeutralStep(code + Code(t), u);
    EmitOne(base, code, i);
    EmitOne(base, EmitStep(code, i), j);
    EmitOne(base, code + Code(t), u);
    EmitConcat(base, code, [i], [j]);
    EmitConcat(base, code, [i] + [j], [u]);
  }

  lemma {:induction false} OwnCode(base: nat, code: seq<Triple>, t: Ast)
    requires Settled(code) && base <= |code|
    requires t.Tree? && Plain(t) && !IsPair(t)
    ensures Above(base, code, [ItemOf(t)]) && EmitAll(code, [ItemOf(t)]) == code + Own(t)
  {
    assert code[..|code|] == code;
    EmitOne(base, code, ItemOf(t));
  }

  lemma {:induction false} NodeParts(code: seq<Triple>, t: Ast, l: seq<Triple>, r: seq<Triple>, own: seq<Triple>)
    requires t.Tree? && Plain(t) && !IsPair(t) && l == Code(t.left) && r == Code(t.right) && own == Own(t)
    ensures PostItems(t) == PostItems(t.left) + PostItems(t.right) + [ItemOf(t)]
    ensures code + l + r + own == code + Code(t)
  {
    Associate(code, l, r);
    Associate(code, l + r, own);
  }

  /** A node after its children. */
  lemma {:induction false} NodeCode(base: nat, code: seq<Triple>, t: Ast, code1: seq<Triple>, code2: seq<Triple>)
    requires t.Tree? && Plain(t) && !IsPair(t) && base <= |code2| && Settled(code2)
    requires code1 == code + Code(t.left) && code2 == code1 + Code(t.right)
    requires Above(base, code, PostItems(t.left)) && EmitAll(code, PostItems(t.left)) == code1
    requires Above(base, code1, PostItems(t.right)) && EmitAll(code1, PostItems(t.right)) == code2
    ensures Above(base, code, PostItems(t)) && EmitAll(code, PostItems(t)) == code + Code(t)
  {
    NodeParts(code, t, Code(t.left), Code(t.right), Own(t));
    OwnCode(base, code2, t);
    EmitThree(base, code, PostItems(t.left), PostItems(t.right), [ItemOf(t)], code1, code2, code2 + Own(t));
  }

  /** Compositional code generation: from any list whose last triple is neither a type nor a
      select, a plain tree appends exactly its own code and touches nothing earlier. */
  lemma {:induction false} Compositional(base: nat, code: seq<Triple>, t: Ast)
    requires Settled(code) && base <= |code| && Plain(t)
    ensures Above(base, code, PostItems(t))
    ensures EmitAll(code, PostItems(t)) == code + Code(t)
    decreases t
  {
    if t.Empty? {
    } else if IsPair(t) {
      PairCode(base, code, t);
    } else {
      var code1 := code + Code(t.left);
      var code2 := code1 + Code(t.right);
      CodeSettles(t.left);
      CodeSettles(t.right);
      StillSettled(code, Code(t.left));
      StillSettled(code1, Code(t.right));
      Compositional(base, code, t.left);
      Compositional(base, code1, t.right);
      NodeCode(base, code, t, code1, code2);
    }
  }

  // ---------------------------------------------------------------- declarations

  /** The types a declaration can name: a keyword, or an identifier, which is a user type. */
  predicate Declarable(t: TypeInfo) {
    t.ComplexType? <==> t.typeDef == TypeUser
  }

  function TypeOperandOf(t: TypeInfo): Operand {
    if t.ComplexType? then StringOperand(Trim(t.info, QUOTES)) else TypeOperand(t.typeDef)
  }

  function DefTriple(t: TypeInfo, name: string): Triple {
    Triple(OpDef, TypeOperandOf(t), StringOperand(Trim(name, QUOTES)))
  }

  function Declaration(t: TypeInfo, name: string): Ast {
    OnIdentifierDeclaration(t, OnIdentifier(name))
  }

  /** The list after a declaration: a user type takes back one triple too many unless it
      stands at the very start. */
  function Declared(code: seq<Triple>, t: TypeInfo, name: string): seq<Triple> {
    (if t.typeDef == TypeUser && code != [] then code[..|code| - 1] else code) + [DefTriple(t, name)]
  }

  lemma {:induction false} TypeItems(t: TypeInfo)
    ensures
      var a := OnTypeAttribute(t);
      PostItems(a) == (if t.ComplexType? then [Item(NodeIdentifier, StringValue(t.info), true)] else []) + [ItemOf(a)]
  {
    if t.ComplexType? {
      var i := Leaf(NodeIdentifier, StringValue(t.info));
      assert PostItems(i) == [ItemOf(i)];
    }
  }

  /** After the nodes of a type, the list ends in one type triple. */
  lemma {:induction false} TypeCode(code: seq<Triple>, t: TypeInfo)
    requires Declarable(t) && (code == [] || Settled(code))
    ensures
      var a := OnTypeAttribute(t);
      var kept := if t.typeDef == TypeUser && code != [] then |code| - 1 else |code|;
      && Above(kept, code, PostItems(a))
      && EmitAll(code, PostItems(a)) == code[..kept] + [Triple(OpType, TypeOperandOf(t), NoOperand)]
  {
    TypeItems(t);
    if t.ComplexType? {
      UserTypeCode(code, t.info);
    } else {
      assert code[..|code|] == code;
      EmitOne(|code|, code, ItemOf(OnTypeAttribute(t)));
    }
  }

  /** The identifier of a user type appends one triple, or two to an empty list; the type takes
      back two. */
  lemma {:induction false} UserTypeCode(code: seq<Triple>, info: string)
    requires code == [] || Settled(code)
    ensures
      var i := Item(NodeIdentifier, StringValue(info), true);
      var a := ItemOf(OnTypeAttribute(ComplexType(TypeUser, info)));
      var kept := if code != [] then |code| - 1 else 0;
      && Above(kept, code, [i] + [a])
      && EmitAll(code, [i] + [a]) == code[..kept] + [Triple(OpType, StringOperand(Trim(info, QUOTES)), NoOperand)]
  {
    var i := Item(NodeIdentifier, StringValue(info), true);
    var a := ItemOf(OnTypeAttribute(ComplexType(TypeUser, info)));
    var kept := if code != [] then |code| - 1 else 0;
    var code1 := EmitStep(code, i);
    assert code1[..|code1| - 2] == code[..kept];
    EmitOne(kept, code, i);
    EmitOne(kept, code1, a);
    EmitConcat(kept, code, [i], [a]);
  }

  /** An identifier turns the type before it into a definition. */
  lemma {:induction false} NameAfterType(kept: seq<Triple>, op1: Operand, d: Ast)
    requires d.Tree? && d.kind == NodeIdentifier && d.value.StringValue?
    ensures
      var code := kept + [Triple(OpType, op1, NoOperand)];
      && Above(|kept|, code, [ItemOf(d)])
      && EmitAll(code, [ItemOf(d)]) == kept + [Triple(OpDef, op1, CreateString(d.value))]
  {
    var code := kept + [Triple(OpType, op1, NoOperand)];
    assert code[..|code| - 1] == kept;
    EmitOne(|kept|, code, ItemOf(d));
  }

  lemma {:induction false} DeclarationCode(code: seq<Triple>, t: TypeInfo, name: string)
    requires Declarable(t) && (code == [] || Settled(code))
    ensures EmitAll(code, PostItems(Declaration(t, name))) == Declared(code, t, name)
    ensures Above(if t.typeDef == TypeUser && code != [] then |code| - 1 else |code|, code,
                  PostItems(Declaration(t, name)))
  {
    var d := Declaration(t, name);
    var a := PostItems(OnTypeAttribute(t));
    var kept := if t.typeDef == TypeUser && code != [] then code[..|code| - 1] else code;
    assert PostItems(d) == a + [ItemOf(d)];
    assert code[..|kept|] == kept;
    TypeCode(code, t);
    NameAfterType(kept, TypeOperandOf(t), d);
    EmitConcat(|kept|, code, a, [ItemOf(d)]);
  }

  /** A declaration appends one def triple and keeps the rest exactly when its type is not a
      user type or it is the first thing in the query. */
  lemma {:induction false} DeclarationAppendsIff(code: seq<Triple>, t: TypeInfo, name: string)
    requires Declarable(t) && (code == [] || Settled(code))
    ensures EmitAll(code, PostItems(Declaration(t, name))) == code + [DefTriple(t, name)]
            <==> code == [] || t.typeDef != TypeUser
  {
    DeclarationCode(code, t, name);
    if t.typeDef == TypeUser && code != [] {
      assert |Declared(code, t, name)| != |code + [DefTriple(t, name)]|;
    }
  }

  // ---------------------------------------------------------------- queries

  function Header(t: TypeInfo, name: string, source: string): seq<Triple> {
    [DefTriple(t, name),
     Triple(OpString, StringOperand(Trim(source, QUOTES)), NoOperand),
     Triple(OpFrom, NumberOperand(0), NumberOperand(1))]
  }

  lemma {:induction false} SourceCode(source: string)
    ensures Plain(OnUnaryString(source))
    ensures Code(OnUnaryString(source)) == [Triple(OpString, StringOperand(Trim(source, QUOTES)), NoOperand)]
  {
    var leaf := Leaf(NodeStringLiteral, StringValue(source));
    assert Plain(leaf);
    assert Code(leaf) == Own(leaf);
  }

  /** What a from clause makes of a list: declaration, data source, and a from whose operands
      are their places in the list. */
  function FromAfter(code: seq<Triple>, t: TypeInfo, name: string, source: string): seq<Triple> {
    var d := Declared(code, t, name);
    d + [Triple(OpString, StringOperand(Trim(source, QUOTES)), NoOperand)]
    + [Triple(OpFrom, NumberOperand(|d| - 1), NumberOperand(|d|))]
  }

  lemma {:induction false} FromCode(code: seq<Triple>, t: TypeInfo, name: string, source: string)
    requires Declarable(t) && (code == [] || Settled(code))
    ensures Above(0, code, PostItems(BuildFrom(t, name, source)))
    ensures EmitAll(code, PostItems(BuildFrom(t, name, source))) == FromAfter(code, t, name, source)
  {
    var from, decl, src := BuildFrom(t, name, source), Declaration(t, name), OnUnaryString(source);
    var d := Declared(code, t, name);
    var code2 := d + [Triple(OpString, StringOperand(Trim(source, QUOTES)), NoOperand)];
    DeclarationCode(code, t, name);
    AboveLower(0, if t.typeDef == TypeUser && code != [] then |code| - 1 else |code|, code, PostItems(decl));
    SourceCode(source);
    Compositional(0, d, src);
    FromStep(code2, ItemOf(from));
    EmitThree(0, code, PostItems(decl), PostItems(src), [ItemOf(from)], d, code2, FromAfter(code, t, name, source));
  }

  lemma {:induction false} FromStep(code: seq<Triple>, from: Item)
    requires from.kind == NodeFrom && TagFits(from.kind, from.value)
    ensures Above(0, code, [from])
    ensures EmitAll(code, [from]) == code + [Triple(OpFrom, NumberOperand(|code| - 2), NumberOperand(|code| - 1))]
  {
    assert code[..|code|] == code;
    EmitOne(0, code, from);
  }

  lemma {:induction false} HeaderCode(t: TypeInfo, name: string, source: string)
    requires Declarable(t)
    ensures Above(0, [], PostItems(BuildFrom(t, name, source)))
    ensures EmitAll([], PostItems(BuildFrom(t, name, source))) == Header(t, name, source)
  {
    FromCode([], t, name, source);
  }

  lemma {:induction false} ExpressionPlain(e: Expression)
    ensures Plain(BuildExpression(e)) && BuildExpression(e).Tree?
  {
    match e
    case Name(id) => assert Plain(OnIdentifier(id));
    case Attribute(id, p) => assert IsPair(BuildExpression(e));
    case Invocation(id, name) => assert IsPair(BuildExpression(e));
    case InvocationOf(id, name, es) =>
      ExpressionsPlain(es);
      var call := OnMethodCall(name, BuildExpressions(es));
      assert TagFits(call.kind, call.value);
      assert Plain(call.left);
      assert Plain(call.right);
      assert !ItemOf(call).childless;
      assert Plain(call);
      assert Plain(OnIdentifier(id));
    case Text(s) => assert Plain(Leaf(NodeStringLiteral, StringValue(s)));
    case Number(n) => assert Plain(Leaf(NodeNumericLiteral, NumberValue(n)));
    case Anonymous(es) => ExpressionsPlain(es);
  }

  lemma {:induction false} ExpressionsPlain(es: Expressions)
    ensures Plain(BuildExpressions(es)) && BuildExpressions(es).Tree?
  {
    match es
    case One(e) => ExpressionPlain(e);
    case More(init, e) => ExpressionsPlain(init); ExpressionPlain(e);
  }

  lemma {:induction false} ConditionPlain(c: Condition)
    ensures Plain(BuildCondition(c)) && BuildCondition(c).Tree?
  {
    match c
    case Compare(l, op, r) => ExpressionPlain(l); ExpressionPlain(r);
    case Not(d) => ConditionPlain(d);
    case And(l, r) => ConditionPlain(l); ConditionPlain(r);
    case Or(l, r) => ConditionPlain(l); ConditionPlain(r);
  }

  lemma {:induction false} OrderingsPlain(os: Orderings)
    ensures Plain(BuildOrderings(os)) && BuildOrderings(os).Tree?
  {
    ExpressionPlain(os.key);
    assert Plain(OnOrdering(BuildExpression(os.key), os.direction));
    if os.Keys? { OrderingsPlain(os.init); }
  }

  lemma {:induction false} ClausePlain(c: Clause)
    ensures Plain(BuildClause(c)) && BuildClause(c).Tree?
  {
    match c
    case Where(d) => ConditionPlain(d);
    case Let(id, e) =>
      ExpressionPlain(e);
      assert Plain(OnIdentifier(id));
    case OrderBy(os) => OrderingsPlain(os);
  }

  lemma {:induction false} ClausesPlain(cs: Clauses)
    ensures Plain(BuildClauses(cs)) && BuildClauses(cs).Tree?
  {
    ClausePlain(cs.clause);
    if cs.Then? { ClausesPlain(cs.init); }
  }

  lemma {:induction false} BodyPlain(q: Query)
    ensures Plain(BuildOptClauses(q.clauses)) && Plain(BuildSelection(q.selection)) && BuildSelection(q.selection).Tree?
  {
    if q.clauses.Some? { ClausesPlain(q.clauses.clauses); }
    SelectionPlain(q.selection);
  }

  lemma {:induction false} SelectionPlain(s: Selection)
    ensures Plain(BuildSelection(s)) && BuildSelection(s).Tree?
  {
    match s
    case Select(e) => ExpressionPlain(e);
    case Group(e, k) => ExpressionPlain(e); ExpressionPlain(k);
  }

  /** The code of a query's clauses and selection. */
  function BodyCode(q: Query): seq<Triple> {
    BodyPlain(q);
    Code(BuildOptClauses(q.clauses)) + Code(BuildSelection(q.selection))
  }

  const SELECT := Triple(OpSelect, NoOperand, NoOperand)

  /** The nodes above the selection: select, query body, query. */
  const CLOSING: seq<Item> :=
    [Item(NodeSelect, NoValue, false), Item(NodeQueryBody, NoValue, false), Item(NodeQuery, NoValue, false)]

  lemma {:induction false} ClosingCode(code: seq<Triple>)
    ensures Above(|code|, code, CLOSING) && EmitAll(code, CLOSING) == code + [SELECT]
  {
    var s, b, t := CLOSING[0], CLOSING[1], CLOSING[2];
    var done := code + [SELECT];
    assert CLOSING == [s] + [b] + [t];
    assert code[..|code|] == code && done[..|done|] == done;
    assert EmitStep(code, s) == done;
    assert EmitStep(done, b) == done && EmitStep(done, t) == done;
    EmitOne(|code|, code, s);
    EmitOne(|code|, done, b);
    EmitOne(|code|, done, t);
    EmitConcat(|code|, code, [s], [b]);
    EmitConcat(|code|, code, [s] + [b], [t]);
  }

  lemma {:induction false} BodyItems(clauses: Ast, selection: Ast)
    requires selection.Tree?
    ensures PostItems(OnQueryBody(clauses, selection, Empty))
            == PostItems(clauses) + PostItems(selection) + CLOSING[..2]
  {
    var body := OnQueryBody(clauses, selection, Empty);
    assert ItemOf(body.left) == CLOSING[0];
    assert PostItems(body.left) == PostItems(clauses) + PostItems(selection) + [CLOSING[0]];
    assert PostItems(body) == PostItems(body.left) + [CLOSING[1]];
  }

  lemma {:induction false} QueryItems(from: Ast, clauses: Ast, selection: Ast)
    requires from.Tree? && selection.Tree?
    ensures PostItems(QueryComplete(from, OnQueryBody(clauses, selection, Empty)))
            == PostItems(from) + PostItems(clauses) + PostItems(selection) + CLOSING
  {
    var body := OnQueryBody(clauses, selection, Empty);
    var top := PostItems(clauses) + PostItems(selection);
    BodyItems(clauses, selection);
    assert PostItems(body) == top + CLOSING[..2];
    assert top + CLOSING[..2] + [CLOSING[2]] == top + CLOSING;
  }

  lemma {:induction false} EmitFour(a: seq<Item>, b: seq<Item>, c: seq<Item>, d: seq<Item>,
                                    code1: seq<Triple>, code2: seq<Triple>, code3: seq<Triple>, code4: seq<Triple>)
    requires Above(0, [], a) && EmitAll([], a) == code1
    requires Above(0, code1, b) && EmitAll(code1, b) == code2
    requires Above(0, code2, c) && EmitAll(code2, c) == code3
    requires Above(0, code3, d) && EmitAll(code3, d) == code4
    ensures Above(0, [], a + b + c + d) && EmitAll([], a + b + c + d) == code4
  {
    EmitThree(0, [], a, b, c, code1, code2, code3);
    EmitConcat(0, [], a + b + c, d);
  }

  lemma {:induction false} BodyParts(h: seq<Triple>, clauses: Ast, selection: Ast)
    requires Settled(h) && Plain(clauses) && Plain(selection)
    ensures
      var a, b := PostItems(clauses), PostItems(selection);
      var h1 := h + Code(clauses);
      && Above(0, h, a) && EmitAll(h, a) == h1
      && Above(0, h1, b) && EmitAll(h1, b) == h + (Code(clauses) + Code(selection))
  {
    var a, b := Code(clauses), Code(selection);
    Associate(h, a, b);
    CodeSettles(clauses);
    StillSettled(h, a);
    Compositional(0, h, clauses);
    Compositional(0, h + a, selection);
  }

  /** The code of a whole query: header, clauses and selection part by part, select. */
  lemma {:induction false} QueryCode(q: Query)
    requires Declarable(q.typeInfo)
    ensures Above(0, [], PostItems(BuildQuery(q)))
    ensures EmitAll([], PostItems(BuildQuery(q))) == Header(q.typeInfo, q.name, q.source) + BodyCode(q) + [SELECT]
  {
    var from := BuildFrom(q.typeInfo, q.name, q.source);
    var clauses, selection := BuildOptClauses(q.clauses), BuildSelection(q.selection);
    var h := Header(q.typeInfo, q.name, q.source);
    BodyPlain(q);
    HeaderCode(q.typeInfo, q.name, q.source);
    BodyParts(h, clauses, selection);
    ClosingCode(h + BodyCode(q));
    AboveLower(0, |h + BodyCode(q)|, h + BodyCode(q), CLOSING);
    QueryItems(from, clauses, selection);
    EmitFour(PostItems(from), PostItems(clauses), PostItems(selection), CLOSING,
              h, h + Code(clauses), h + BodyCode(q), h + BodyCode(q) + [SELECT]);
  }

  lemma {:induction false} AboveLower(base: nat, top: nat, code: seq<Triple>, items: seq<Item>)
    requires base <= top && Above(top, code, items)
    ensures Above(base, code, items)
    decreases |items|
  {
    if items != [] { AboveLower(base, top, EmitStep(code, items[0]), items[1..]); }
  }

  // ---------------------------------------------------------------- a second from clause

  /** `from` t name `in` source, the clause `from` t2 name2 `in` source2, and the selection. */
  function TwoSources(t: TypeInfo, name: string, source: string, t2: TypeInfo, name2: string, source2: string,
                      s: Selection): Ast {
    QueryComplete(BuildFrom(t, name, source), OnQueryBody(BuildFrom(t2, name2, source2), BuildSelection(s), Empty))
  }

  function SelectionCode(s: Selection): seq<Triple> {
    SelectionPlain(s);
    Code(BuildSelection(s))
  }

  lemma {:induction false} TwoSourcesCode(t: TypeInfo, name: string, source: string,
                                          t2: TypeInfo, name2: string, source2: string, s: Selection)
    requires Declarable(t) && Declarable(t2)
    ensures
      EmitAll([], PostItems(TwoSources(t, name, source, t2, name2, source2, s)))
      == FromAfter(Header(t, name, source), t2, name2, source2) + SelectionCode(s) + [SELECT]
  {
    var from, from2, selection := BuildFrom(t, name, source), BuildFrom(t2, name2, source2), BuildSelection(s);
    var h := Header(t, name, source);
    var h2 := FromAfter(h, t2, name2, source2);
    var code := h2 + SelectionCode(s);
    HeaderCode(t, name, source);
    FromCode(h, t2, name2, source2);
    FromSettles(h, t2, name2, source2);
    SelectionAfter(h2, s, code);
    QueryItems(from, from2, selection);
    EmitFour(PostItems(from), PostItems(from2), PostItems(selection), CLOSING, h, h2, code, code + [SELECT]);
  }

  lemma {:induction false} FromSettles(code: seq<Triple>, t: TypeInfo, name: string, source: string)
    ensures Settled(FromAfter(code, t, name, source))
  {
  }

  lemma {:induction false} SelectionAfter(h: seq<Triple>, s: Selection, code: seq<Triple>)
    requires Settled(h) && code == h + SelectionCode(s)
    ensures BuildSelection(s).Tree?
    ensures Above(0, h, PostItems(BuildSelection(s))) && EmitAll(h, PostItems(BuildSelection(s))) == code
    ensures Above(0, code, CLOSING) && EmitAll(code, CLOSING) == code + [SELECT]
  {
    SelectionPlain(s);
    Compositional(0, h, BuildSelection(s));
    ClosingCode(code);
    AboveLower(0, |code|, code, CLOSING);
  }

  /** The first from triple is still there exactly when the second source has no user type:
      otherwise the second declaration has taken it back, and the only from triple is the
      second source's. */
  lemma {:induction false} FirstFromKeptIff(t: TypeInfo, name: string, source: string,
                                            t2: TypeInfo, name2: string, source2: string, s: Selection)
    requires Declarable(t) && Declarable(t2)
    ensures
      var code := EmitAll([], PostItems(TwoSources(t, name, source, t2, name2, source2, s)));
      Triple(OpFrom, NumberOperand(0), NumberOperand(1)) in code <==> t2.typeDef != TypeUser
    ensures
      var code := EmitAll([], PostItems(TwoSources(t, name, source, t2, name2, source2, s)));
      t2.typeDef == TypeUser ==>
        forall c :: c in code && c.code == OpFrom ==> c == Triple(OpFrom, NumberOperand(2), NumberOperand(3))
  {
    var h := Header(t, name, source);
    var after := FromAfter(h, t2, name2, source2);
    SelectionPlain(s);
    CodeSettles(BuildSelection(s));
    TwoSourcesCode(t, name, source, t2, name2, source2, s);
    if t2.typeDef == TypeUser {
      FromsAfter(h, h[..2], t2, name2, source2);
      NoMoreFroms(after, SelectionCode(s));
    } else {
      FromStays(h, t2, name2, source2);
    }
  }

  lemma {:induction false} NoMoreFroms(code: seq<Triple>, more: seq<Triple>)
    requires forall c :: c in more ==> c.code != OpFrom
    ensures forall c :: c in code + more + [SELECT] && c.code == OpFrom ==> c in code
  {
  }

  lemma {:induction false} FromStays(h: seq<Triple>, t: TypeInfo, name: string, source: string)
    requires t.typeDef != TypeUser
    ensures forall c :: c in h ==> c in FromAfter(h, t, name, source)
  {
  }

  lemma {:induction false} FromsAfter(h: seq<Triple>, sources: seq<Triple>, t: TypeInfo, name: string, source: string)
    requires |h| == 3 && sources == h[..2] && forall c :: c in sources ==> c.code != OpFrom
    requires t.typeDef == TypeUser
    ensures
      forall c :: c in FromAfter(h, t, name, source) && c.code == OpFrom ==>
                    c == Triple(OpFrom, NumberOperand(2), NumberOperand(3))
  {
  }

  /** `from string a in 'p' from md5 b in 'q' select b.string;` gives no from triple for `a`. */
  lemma {:induction false} FirstFromLost(query: Ast)
    requires query == TwoSources(SimpleType(TypeString), "a", "'p'", ComplexType(TypeUser, "md5"), "b", "'q'",
                                 Select(Attribute("b", "string")))
    ensures Triple(OpFrom, NumberOperand(0), NumberOperand(1)) !in EmitAll([], PostItems(query))
  {
    FirstFromKeptIff(SimpleType(TypeString), "a", "'p'", ComplexType(TypeUser, "md5"), "b", "'q'",
                     Select(Attribute("b", "string")));
  }
}
