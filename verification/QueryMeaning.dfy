/** What a query means: the calculation it asks for, read off its source text, and the proof
    that constructors, traversal, code generator and processor together ask for exactly it. */
module QueryMeaning {
  import opened Frontend
  import opened Strings
  import opened Backend
  import opened Queries
  import opened CodeGeneration
  import opened Processor
  import opened TreeTraversal
  import A = AsciiTree
  import L = Layout

  // ---------------------------------------------------------------- properties in the text

  function Clean(s: string): string { Trim(s, QUOTES) }

  /** The properties an expression names, in the order of the text. */
  function PropertiesOf(e: Expression): seq<Source> {
    match e
    case Attribute(id, p) => [Source(PropCall, Str(Clean(id)), Str(Clean(p)))]
    case InvocationOf(_, _, es) => PropertiesOfAll(es)
    case Anonymous(es) => PropertiesOfAll(es)
    case _ => []
  }

  function PropertiesOfAll(es: Expressions): seq<Source> {
    match es
    case One(e) => PropertiesOf(e)
    case More(init, e) => PropertiesOfAll(init) + PropertiesOf(e)
  }

  function PropertiesOfCondition(c: Condition): seq<Source> {
    match c
    case Compare(l, _, r) => PropertiesOf(l) + PropertiesOf(r)
    case Not(d) => PropertiesOfCondition(d)
    case And(l, r) => PropertiesOfCondition(l) + PropertiesOfCondition(r)
    case Or(l, r) => PropertiesOfCondition(l) + PropertiesOfCondition(r)
  }

  function PropertiesOfOrderings(os: Orderings): seq<Source> {
    match os
    case Key(e, _) => PropertiesOf(e)
    case Keys(init, e, _) => PropertiesOfOrderings(init) + PropertiesOf(e)
  }

  function PropertiesOfClause(c: Clause): seq<Source> {
    match c
    case Where(d) => PropertiesOfCondition(d)
    case Let(_, e) => PropertiesOf(e)
    case OrderBy(os) => PropertiesOfOrderings(os)
  }

  function PropertiesOfClauses(cs: Clauses): seq<Source> {
    match cs
    case First(c) => PropertiesOfClause(c)
    case Then(init, c) => PropertiesOfClauses(init) + PropertiesOfClause(c)
  }

  function PropertiesOfSelection(s: Selection): seq<Source> {
    match s
    case Select(e) => PropertiesOf(e)
    case Group(e, k) => PropertiesOf(e) + PropertiesOf(k)
  }

  function PropertiesOfQuery(q: Query): seq<Source> {
    (if q.clauses.Some? then PropertiesOfClauses(q.clauses.clauses) else [])
    + PropertiesOfSelection(q.selection)
  }

  /** A string literal in the body would be a second data source. */
  predicate NoText(e: Expression) {
    match e
    case Text(_) => false
    case InvocationOf(_, _, es) => NoTexts(es)
    case Anonymous(es) => NoTexts(es)
    case _ => true
  }

  predicate NoTexts(es: Expressions) {
    NoText(if es.One? then es.only else es.last) && (es.More? ==> NoTexts(es.init))
  }

  predicate NoTextInCondition(c: Condition) {
    match c
    case Compare(l, _, r) => NoText(l) && NoText(r)
    case Not(d) => NoTextInCondition(d)
    case And(l, r) => NoTextInCondition(l) && NoTextInCondition(r)
    case Or(l, r) => NoTextInCondition(l) && NoTextInCondition(r)
  }

  predicate NoTextInOrderings(os: Orderings) {
    NoText(os.key) && (os.Keys? ==> NoTextInOrderings(os.init))
  }

  predicate NoTextInClause(c: Clause) {
    match c
    case Where(d) => NoTextInCondition(d)
    case Let(_, e) => NoText(e)
    case OrderBy(os) => NoTextInOrderings(os)
  }

  predicate NoTextInClauses(cs: Clauses) {
    NoTextInClause(cs.clause) && (cs.Then? ==> NoTextInClauses(cs.init))
  }

  predicate NoTextInQuery(q: Query) {
    && (q.clauses.Some? ==> NoTextInClauses(q.clauses.clauses))
    && (match q.selection
        case Select(e) => NoText(e)
        case Group(e, k) => NoText(e) && NoText(k))
  }

  // ---------------------------------------------------------------- properties in the code

  /** The sources that code without definitions and selections leaves behind. */
  function CallsOf(code: seq<Triple>): seq<Source> {
    if code == [] then []
    else
      (if code[0].code == OpProperty && code[0].op1.StringOperand? && code[0].op2.StringOperand?
       then [Source(PropCall, Str(code[0].op1.str), Str(code[0].op2.str))] else [])
      + CallsOf(code[1..])
  }

  /** Triples that only add property calls to the array. */
  predicate Calling(t: Triple) {
    && t.code !in {OpFrom, OpDef, OpSelect, OpString}
    && (t.code == OpProperty ==> t.op1.StringOperand? && t.op2.StringOperand?)
  }

  predicate AllCalling(code: seq<Triple>) {
    forall t :: t in code ==> Calling(t)
  }

  lemma {:induction false} CallsConcat(a: seq<Triple>, b: seq<Triple>)
    ensures CallsOf(a + b) == CallsOf(a) + CallsOf(b)
  {
    if a == [] {
      assert a + b == b;
    } else {
      assert (a + b)[0] == a[0] && (a + b)[1..] == a[1..] + b;
      CallsConcat(a[1..], b);
    }
  }

  /** A tree's code adds the calls in `calls` and does nothing else. */
  predicate Adds(t: Ast, calls: seq<Source>) {
    Plain(t) && AllCalling(Code(t)) && CallsOf(Code(t)) == calls
  }

  lemma {:induction false} NoOwnCalls(t: Ast)
    requires t.Tree? && Plain(t) && !IsPair(t) && t.kind != NodeStringLiteral
    ensures AllCalling(Own(t)) && CallsOf(Own(t)) == []
  {
  }

  lemma {:induction false} AddsBoth(t: Ast, a: seq<Source>, b: seq<Source>)
    requires t.Tree? && Plain(t) && !IsPair(t)
    requires Adds(t.left, a) && Adds(t.right, b)
    requires t.kind != NodeStringLiteral
    ensures Adds(t, a + b)
  {
    var l, r, own := Code(t.left), Code(t.right), Own(t);
    assert forall c :: c in l + r + own ==> c in l || c in r || c in own;
    CallsConcat(l + r, own);
    CallsConcat(l, r);
    NoOwnCalls(t);
  }

  lemma {:induction false} AddsNothing(t: Ast)
    requires t.Empty? || (Plain(t) && !IsPair(t) && t.left.Empty? && t.right.Empty? && t.kind !in {NodeStringLiteral})
    ensures Adds(t, [])
  {
    if t.Tree? {
      assert Adds(t.left, []) && Adds(t.right, []);
      AddsBoth(t, [], []);
    }
  }

  lemma {:induction false} ExpressionAdds(e: Expression)
    requires NoText(e)
    ensures Adds(BuildExpression(e), PropertiesOf(e)) && BuildExpression(e).Tree?
  {
    ExpressionPlain(e);
    var t := BuildExpression(e);
    match e
    case Name(id) => OneLeaf(t);
    case Attribute(id, p) =>
      assert IsPair(t);
      assert Code(t)[1..] == [];
    case Invocation(id, name) =>
      assert IsPair(t);
      assert Code(t)[1..] == [];
    case InvocationOf(id, name, es) =>
      ExpressionsAdd(es);
      ExpressionsPlain(es);
      AddsNothing(t.left);
      AddsNothing(Empty);
      AddsBoth(t.right, PropertiesOfAll(es), []);
      AddsBoth(t, [], PropertiesOfAll(es) + []);
      assert [] + (PropertiesOfAll(es) + []) == PropertiesOfAll(es);
    case Number(n) => OneLeaf(t);
    case Anonymous(es) => ExpressionsAdd(es);
  }

  lemma {:induction false} OneLeaf(t: Ast)
    requires Plain(t) && t.Tree? && t.kind == NodeUnaryExpression && t.right.Empty?
    requires t.left.Tree? && t.left.left.Empty? && t.left.right.Empty?
    requires t.left.kind in {NodeIdentifier, NodeNumericLiteral}
    ensures Adds(t, [])
  {
    AddsNothing(t.left);
    AddsNothing(Empty);
    AddsBoth(t, [], []);
  }

  lemma {:induction false} ExpressionsAdd(es: Expressions)
    requires NoTexts(es)
    ensures Adds(BuildExpressions(es), PropertiesOfAll(es)) && BuildExpressions(es).Tree?
  {
    match es
    case One(e) => ExpressionAdds(e);
    case More(init, e) =>
      ExpressionsAdd(init);
      ExpressionAdds(e);
      ExpressionsPlain(es);
      AddsBoth(BuildExpressions(es), PropertiesOfAll(init), PropertiesOf(e));
  }

  lemma {:induction false} ConditionAdds(c: Condition)
    requires NoTextInCondition(c)
    ensures Adds(BuildCondition(c), PropertiesOfCondition(c))
  {
    ConditionPlain(c);
    var t := BuildCondition(c);
    match c
    case Compare(l, op, r) => ExpressionAdds(l); ExpressionAdds(r); AddsBoth(t, PropertiesOf(l), PropertiesOf(r));
    case Not(d) => ConditionAdds(d); AddsFirst(t, PropertiesOfCondition(d));
    case And(l, r) =>
      ConditionAdds(l); ConditionAdds(r); AddsBoth(t, PropertiesOfCondition(l), PropertiesOfCondition(r));
    case Or(l, r) =>
      ConditionAdds(l); ConditionAdds(r); AddsBoth(t, PropertiesOfCondition(l), PropertiesOfCondition(r));
  }

  lemma {:induction false} AddsFirst(t: Ast, a: seq<Source>)
    requires t.Tree? && Plain(t) && !IsPair(t) && t.kind !in {NodeStringLiteral}
    requires Adds(t.left, a) && t.right.Empty?
    ensures Adds(t, a)
  {
    AddsNothing(t.right);
    AddsBoth(t, a, []);
    assert a + [] == a;
  }

  lemma {:induction false} OrderingsAdd(os: Orderings)
    requires NoTextInOrderings(os)
    ensures Adds(BuildOrderings(os), PropertiesOfOrderings(os))
  {
    var last := OnOrdering(BuildExpression(os.key), os.direction);
    OrderingsPlain(os);
    ExpressionAdds(os.key);
    assert Plain(last);
    AddsFirst(last, PropertiesOf(os.key));
    if os.Keys? {
      OrderingsAdd(os.init);
      AddsBoth(BuildOrderings(os), PropertiesOfOrderings(os.init), PropertiesOf(os.key));
    }
  }

  lemma {:induction false} ClauseAdds(c: Clause)
    requires NoTextInClause(c)
    ensures Adds(BuildClause(c), PropertiesOfClause(c))
  {
    ClausePlain(c);
    var t := BuildClause(c);
    match c
    case Where(d) => ConditionAdds(d); AddsFirst(t, PropertiesOfCondition(d));
    case Let(id, e) =>
      ExpressionAdds(e);
      AddsNothing(t.left);
      AddsBoth(t, [], PropertiesOf(e));
      assert [] + PropertiesOf(e) == PropertiesOf(e);
    case OrderBy(os) => OrderingsAdd(os); AddsFirst(t, PropertiesOfOrderings(os));
  }

  lemma {:induction false} ClausesAdd(cs: Clauses)
    requires NoTextInClauses(cs)
    ensures Adds(BuildClauses(cs), PropertiesOfClauses(cs))
  {
    ClausesPlain(cs);
    ClauseAdds(cs.clause);
    if cs.Then? {
      ClausesAdd(cs.init);
      AddsBoth(BuildClauses(cs), PropertiesOfClauses(cs.init), PropertiesOfClause(cs.clause));
    }
  }

  lemma {:induction false} BodyAdds(q: Query)
    requires NoTextInQuery(q)
    ensures AllCalling(BodyCode(q)) && CallsOf(BodyCode(q)) == PropertiesOfQuery(q)
  {
    BodyPlain(q);
    var clauses, selection := BuildOptClauses(q.clauses), BuildSelection(q.selection);
    if q.clauses.Some? { ClausesAdd(q.clauses.clauses); } else { AddsNothing(clauses); }
    match q.selection {
      case Select(e) => ExpressionAdds(e);
      case Group(e, k) => ExpressionAdds(e); ExpressionAdds(k); AddsBoth(selection, PropertiesOf(e), PropertiesOf(k));
    }
    CallsConcat(Code(clauses), Code(selection));
  }

  // ---------------------------------------------------------------- running the code

  lemma {:induction false} RunConcat(st: State, a: seq<Triple>, b: seq<Triple>, hashes: set<string>)
    requires AllRunnable(st, a, hashes)
    ensures AllRunnable(st, a + b, hashes) <==> AllRunnable(Run(st, a, hashes), b, hashes)
    ensures AllRunnable(st, a + b, hashes) ==> Run(st, a + b, hashes) == Run(Run(st, a, hashes), b, hashes)
    decreases |a|
  {
    if a == [] {
      assert a + b == b;
    } else {
      assert (a + b)[0] == a[0] && (a + b)[1..] == a[1..] + b;
      RunConcat(RunOne(st, a[0], hashes), a[1..], b, hashes);
    }
  }

  /** The body of a query adds its property calls to the array, in order. */
  lemma {:induction false} CallsNext(sources: seq<Source>, code: seq<Triple>)
    requires code != [] && Calling(code[0])
    ensures Step(sources, code[0]) + CallsOf(code[1..]) == sources + CallsOf(code)
  {
    var rest := CallsOf(code[1..]);
    if code[0].code == OpProperty {
      var call := Source(PropCall, Str(code[0].op1.str), Str(code[0].op2.str));
      assert CallsOf(code) == [call] + rest && Step(sources, code[0]) == sources + [call];
      assert sources + [call] + rest == sources + ([call] + rest);
    } else {
      assert CallsOf(code) == [] + rest && Step(sources, code[0]) == sources;
      assert [] + rest == rest;
    }
  }

  lemma {:induction false} RunBody(st: State, code: seq<Triple>, hashes: set<string>)
    requires AllCalling(code)
    ensures AllRunnable(st, code, hashes)
    ensures Run(st, code, hashes) == State(st.sources + CallsOf(code), st.log)
    decreases |code|
  {
    if code == [] {
      assert st.sources + [] == st.sources;
    } else {
      assert code[0] in code;
      assert forall t :: t in code[1..] ==> t in code;
      var st1 := RunOne(st, code[0], hashes);
      RunBody(st1, code[1..], hashes);
      CallsNext(st.sources, code);
    }
  }

  function DeclKind(t: TypeDef): SourceKind {
    match t
    case TypeFile => FileDecl
    case TypeDir => DirDecl
    case TypeString => StringDecl
    case _ => HashDecl
  }

  /** The array after the header: the operands of the from triple find the declaration and
      its data source, and what is left is the declaration with its value, or, for a user
      type, the hash to restore. */
  function Linked(t: TypeInfo, name: string, source: string): seq<Source> {
    if t.ComplexType? then
      [Source(HashDecl, Str(Clean(name)), Str(Clean(t.info))),
       Source(HashDefinition, Str(Clean(t.info)), Str(Clean(source)))]
    else
      [Source(DeclKind(t.typeDef), Str(Clean(name)), Str(Clean(source)))]
  }

  lemma {:induction false} RunThree(st: State, a: Triple, b: Triple, c: Triple, hashes: set<string>)
    requires Runnable(st.sources, a, hashes)
    requires Runnable(RunOne(st, a, hashes).sources, b, hashes)
    requires Runnable(RunOne(RunOne(st, a, hashes), b, hashes).sources, c, hashes)
    ensures AllRunnable(st, [a, b, c], hashes)
    ensures Run(st, [a, b, c], hashes) == RunOne(RunOne(RunOne(st, a, hashes), b, hashes), c, hashes)
  {
    assert [a, b, c][1..] == [b, c] && [b, c][1..] == [c] && [c][1..] == [];
    var st2 := RunOne(RunOne(st, a, hashes), b, hashes);
    var st1 := RunOne(st, a, hashes);
    assert AllRunnable(RunOne(st2, c, hashes), [], hashes);
    assert Run(RunOne(st2, c, hashes), [], hashes) == RunOne(st2, c, hashes);
    assert AllRunnable(st2, [c], hashes) && Run(st2, [c], hashes) == RunOne(st2, c, hashes);
    assert AllRunnable(st1, [b, c], hashes) && Run(st1, [b, c], hashes) == Run(st2, [c], hashes);
    assert AllRunnable(st, [a, b, c], hashes) && Run(st, [a, b, c], hashes) == Run(st1, [b, c], hashes);
  }

  lemma {:induction false} OperandLinkage(t: TypeInfo, name: string, source: string, hashes: set<string>)
    requires Declarable(t) && t.typeDef != TypeDynamic
    ensures AllRunnable(State([], []), Header(t, name, source), hashes)
    ensures Run(State([], []), Header(t, name, source), hashes) == State(Linked(t, name, source), [])
  {
    var h := Header(t, name, source);
    var st0 := State([], []);
    var decl := Source(DeclKind(t.typeDef), Str(Clean(name)), if t.ComplexType? then Str(Clean(t.info)) else Null);
    var st1 := State([decl], []);
    var st2 := State([decl, Source(StringDef, Null, Str(Clean(source)))], []);
    assert RunOne(st0, h[0], hashes) == st1;
    assert RunOne(st1, h[1], hashes) == st2;
    assert RunOne(st2, h[2], hashes) == State(Linked(t, name, source), []);
    RunThree(st0, h[0], h[1], h[2], hashes);
  }

  // ---------------------------------------------------------------- the meaning

  /** The calculator for a source of a declared type. */
  function Calculator(t: TypeDef): CalculationKind {
    match t
    case TypeString => OfString
    case TypeFile => OfFile
    case TypeDir => OfDir
    case _ => OfHash
  }

  /** The calculation a query asks for: for a user type the hash is restored; otherwise the
      source is hashed by the first property of its name that is a registered hash. */
  function Meaning(q: Query, hashes: set<string>): seq<Calculation> {
    if q.typeInfo.ComplexType? then
      [Calculation(OfHash, Clean(q.typeInfo.info), Str(Clean(q.source)))]
    else
      var h := FirstHash(PropertiesOfQuery(q), Str(Clean(q.name)), hashes);
      if h.Str? then [Calculation(Calculator(q.typeInfo.typeDef), h.str, Str(Clean(q.source)))] else []
  }

  predicate AllCalls(calls: seq<Source>) {
    forall c :: c in calls ==> c.kind == PropCall && c.name.Str? && c.value.Str?
  }

  lemma {:induction false} CallsAreCalls(code: seq<Triple>)
    ensures AllCalls(CallsOf(code))
  {
    if code != [] { CallsAreCalls(code[1..]); }
  }

  lemma {:induction false} CallsSelectNothing(calls: seq<Source>, hashes: set<string>)
    requires AllCalls(calls)
    ensures Selected(calls, hashes) == [] && AllSelectable(calls, hashes)
  {
    if calls != [] {
      assert calls[0] in calls;
      assert forall c :: c in calls[1..] ==> c in calls;
      CallsSelectNothing(calls[1..], hashes);
    }
  }

  /** A hash can be restored when the query names some registered hash as a property, of
      whatever identifier; a query for a source of another type needs no hash. */
  predicate Restorable(q: Query, hashes: set<string>) {
    q.typeInfo.ComplexType? ==> exists c :: c in PropertiesOfQuery(q) && c.value.Str? && c.value.str in hashes
  }

  /** The select at the end of a linked query can run exactly when the query is restorable,
      and then it asks for the query's meaning. */
  lemma {:induction false} SelectMeaning(q: Query, calls: seq<Source>, hashes: set<string>)
    requires Declarable(q.typeInfo) && q.typeInfo.typeDef != TypeDynamic
    requires calls == PropertiesOfQuery(q) && AllCalls(calls)
    ensures
      var sources := Linked(q.typeInfo, q.name, q.source) + calls;
      && (AllSelectable(sources, hashes) <==> Restorable(q, hashes))
      && Selected(sources, hashes) == Meaning(q, hashes)
  {
    var head := Linked(q.typeInfo, q.name, q.source);
    var sources := head + calls;
    CallsSelectNothing(calls, hashes);
    if q.typeInfo.ComplexType? {
      assert sources[1..][1..] == calls && sources[1..][0] == head[1];
      assert Selected(sources[1..], hashes) == CalculationsOf(head[1], calls, hashes);
      assert AllSelectable(sources[1..], hashes) <==> SomeHash(calls, hashes);
    } else {
      assert sources[1..] == calls;
      assert Selected(sources, hashes) == [] + CalculationsOf(head[0], calls, hashes);
    }
  }

  /** The triples of a query whose source has a declared type run without error exactly when
      the query is restorable, and then they ask for exactly its meaning. */
  lemma {:induction false} CompiledMeaning(q: Query, hashes: set<string>)
    requires Declarable(q.typeInfo) && q.typeInfo.typeDef != TypeDynamic && NoTextInQuery(q)
    ensures
      var code := EmitAll([], PostItems(BuildQuery(q)));
      && (AllRunnable(State([], []), code, hashes) <==> Restorable(q, hashes))
      && (Restorable(q, hashes) ==> Run(State([], []), code, hashes).log == Meaning(q, hashes))
  {
    var h, body := Header(q.typeInfo, q.name, q.source), BodyCode(q);
    var head := Linked(q.typeInfo, q.name, q.source);
    var st := State(head, []);
    var full := State(head + CallsOf(body), []);
    QueryCode(q);
    OperandLinkage(q.typeInfo, q.name, q.source, hashes);
    BodyAdds(q);
    CallsAreCalls(body);
    RunBody(st, body, hashes);
    RunConcat(State([], []), h, body, hashes);
    SelectMeaning(q, CallsOf(body), hashes);
    RunSelect(full, hashes);
    RunConcat(State([], []), h + body, [SELECT], hashes);
  }

  lemma {:induction false} RunSelect(st: State, hashes: set<string>)
    ensures AllRunnable(st, [SELECT], hashes) <==> AllSelectable(st.sources, hashes)
    ensures AllRunnable(st, [SELECT], hashes) ==>
              Run(st, [SELECT], hashes) == State(st.sources, st.log + Selected(st.sources, hashes))
  {
    assert [SELECT][1..] == [];
    if Runnable(st.sources, SELECT, hashes) {
      assert AllRunnable(RunOne(st, SELECT, hashes), [], hashes);
    }
  }

  const DIGEST := "'202CB962AC59075B964B07152D234B70'"

  /** `from md5 x in '202CB962AC59075B964B07152D234B70' select x.string;` */
  const RESTORING := Query(ComplexType(TypeUser, "md5"), "x", DIGEST, NoClauses, Select(Attribute("x", "string")))

  /** The query that restores a string asks for a property that is no hash, and fails. */
  lemma {:induction false} RestoringFails(hashes: set<string>)
    requires "string" !in hashes
    ensures !AllRunnable(State([], []), EmitAll([], PostItems(BuildQuery(RESTORING))), hashes)
  {
    assert "" + "string" + "" == "string";
    TrimRuns("", "string", "", QUOTES);
    var p := Source(PropCall, Str(Clean("x")), Str("string"));
    assert PropertiesOfQuery(RESTORING) == [] + [p];
    CompiledMeaning(RESTORING, hashes);
  }

  // ---------------------------------------------------------------- the driver

  /** The items of the nodes a traversal visits are those of the tree. */
  lemma {:induction false} VisitedItems(t: Shape, a: Ast)
    requires Denotes(t, a)
    ensures |Postorder(t)| == |PostItems(a)|
    ensures forall k :: 0 <= k < |Postorder(t)| ==> ItemAt(Postorder(t)[k]) == PostItems(a)[k]
  {
    if t.Fork? {
      VisitedItems(t.left, a.left);
      VisitedItems(t.right, a.right);
    }
  }

  lemma {:induction false} EmitNext(code: seq<Triple>, items: seq<Item>, i: nat)
    requires i < |items| && Above(0, code, items[i..])
    ensures Emittable(code, items[i]) && Above(0, EmitStep(code, items[i]), items[i + 1..])
    ensures EmitAll(code, items[i..]) == EmitAll(EmitStep(code, items[i]), items[i + 1..])
  {
    assert items[i..][0] == items[i] && items[i..][1..] == items[i + 1..];
  }

  method EmitVisited(generator: CodeGenerator, visited: seq<FendNode>, ghost items: seq<Item>)
    requires |visited| == |items| && forall k :: 0 <= k < |visited| ==> ItemAt(visited[k]) == items[k]
    requires Above(0, generator.instructions, items)
    modifies generator
    ensures generator.instructions == EmitAll(old(generator.instructions), items)
  {
    var i := 0;
    assert items[0..] == items;
    while i < |visited|
      invariant 0 <= i <= |visited|
      invariant Above(0, generator.instructions, items[i..])
      invariant EmitAll(generator.instructions, items[i..]) == EmitAll(old(generator.instructions), items)
    {
      EmitNext(generator.instructions, items, i);
      generator.Emit(visited[i]);
      i := i + 1;
    }
  }

  lemma {:induction false} NoPrinterInTree(printer: A.TreePrinter, t: Shape)
    ensures printer !in Nodes(t) && printer.lprofile !in Nodes(t) && printer.rprofile !in Nodes(t)
  {
    if t.Fork? {
      NoPrinterInTree(printer, t.left);
      NoPrinterInTree(printer, t.right);
    }
  }

  /** The printer between two drawings: nothing is left on its line, and its scratch rows
      hold what an earlier drawing may leave there. */
  ghost predicate AtRest(printer: A.TreePrinter)
    reads printer, printer.lprofile, printer.rprofile
  {
    && printer.Ready() && printer.line == ""
    && A.Capped(printer.lprofile[..]) && A.Floored(printer.rprofile[..])
  }

  /** The lines the driver prints for a syntax tree. */
  function Drawn(a: Ast): seq<string>
    requires Tagged(a)
  {
    A.Picture(L.LayOut(A.Sketch(a, L.PARENT_NONE))) + ["", "---"]
  }

  function CodeOf(a: Ast): seq<Triple> {
    EmitAll([], PostItems(a))
  }

  /** The tree's triples can be generated, listed and run. */
  predicate Answerable(a: Ast, hashes: set<string>) {
    && Above(0, [], PostItems(a)) && AllListed(CodeOf(a))
    && AllRunnable(State([], []), CodeOf(a), hashes)
  }

  function LinesOf(a: Ast, hashes: set<string>): seq<string>
    requires Answerable(a, hashes)
  {
    Listing(CodeOf(a), |CodeOf(a)|)
  }

  function LogOf(a: Ast, hashes: set<string>): seq<Calculation>
    requires Answerable(a, hashes)
  {
    Run(State([], []), CodeOf(a), hashes).log
  }

  method DrawQuery(printer: A.TreePrinter, root: FendNode, ghost t: Shape, ghost a: Ast, ghost all: set<object>)
    requires root == Root(t) && Denotes(t, a) && Nodes(t) <= all
    requires AtRest(printer) && A.Drawable(a)
    modifies printer`printNext, printer`line, printer`lines, printer.lprofile, printer.rprofile
    ensures AtRest(printer) && printer.lines == old(printer.lines) + Drawn(a)
  {
    printer.TreePrintAsciiTree(root, t, a, all);
    printer.lines := printer.lines + ["", "---"];
  }

  /** Visit, emit, list and run. */
  method Answer(root: FendNode, hashes: set<string>, ghost t: Shape, ghost a: Ast, ghost all: set<object>)
    returns (log: seq<Calculation>, lines: seq<string>)
    requires root == Root(t) && Denotes(t, a) && Tidy(t) && Nodes(t) <= all
    requires Answerable(a, hashes)
    ensures log == LogOf(a, hashes) && lines == LinesOf(a, hashes)
  {
    DenotesMirrors(t, a);
    var visited := TreePostorder(root, t);
    var generator := new CodeGenerator();
    VisitedItems(t, a);
    EmitVisited(generator, visited, PostItems(a));
    var processor := new QueryProcessor(hashes);
    processor.RunTriples(generator.instructions);
    log, lines := processor.log, processor.lines;
  }

  /** One query, from its syntax tree to its drawing, its listing and its calculations. */
  method OnEachQuery(printer: A.TreePrinter, root: FendNode?, hashes: set<string>,
                     ghost t: Shape, ghost a: Ast, ghost all: set<object>)
    returns (log: seq<Calculation>)
    requires root == Root(t) && Denotes(t, a) && Tidy(t) && Nodes(t) <= all
    requires AtRest(printer) && A.Drawable(a) && Answerable(a, hashes)
    modifies printer`printNext, printer`line, printer`lines, printer.lprofile, printer.rprofile
    ensures AtRest(printer)
    ensures printer.lines == old(printer.lines) + (if a.Empty? then [] else Drawn(a) + LinesOf(a, hashes))
    ensures log == LogOf(a, hashes)
  {
    if root == null { return []; }
    NoPrinterInTree(printer, t);
    DrawQuery(printer, root, t, a, all);
    var lines;
    log, lines := Answer(root, hashes, t, a, all);
    Associate(old(printer.lines), Drawn(a), lines);
    printer.lines := printer.lines + lines;
  }

  lemma {:induction false} OwnListed(t: Ast)
    requires t.Tree? && TagFits(t.kind, t.value)
    ensures AllListed(Own(t))
  {
  }

  lemma {:induction false} PlainListed(t: Ast)
    requires Plain(t)
    ensures AllListed(Code(t))
  {
    if t.Tree? && !IsPair(t) {
      PlainListed(t.left);
      PlainListed(t.right);
      OwnListed(t);
      ListedConcat(Code(t.left), Code(t.right));
      ListedConcat(Code(t.left) + Code(t.right), Own(t));
    }
  }

  lemma {:induction false} HeaderListed(t: TypeInfo, name: string, source: string)
    ensures AllListed(Header(t, name, source)) && AllListed([SELECT])
  {
  }

  /** The code of every query can be listed: no operand is missing or of another kind. */
  lemma {:induction false} QueryListed(q: Query)
    requires Declarable(q.typeInfo)
    ensures AllListed(Header(q.typeInfo, q.name, q.source) + BodyCode(q) + [SELECT])
  {
    var header := Header(q.typeInfo, q.name, q.source);
    var clauses, selection := BuildOptClauses(q.clauses), BuildSelection(q.selection);
    BodyPlain(q);
    HeaderListed(q.typeInfo, q.name, q.source);
    PlainListed(clauses);
    PlainListed(selection);
    ListedConcat(Code(clauses), Code(selection));
    ListedConcat(header, BodyCode(q));
    ListedConcat(header + BodyCode(q), [SELECT]);
  }

  /** A query whose source has a declared type can be answered when it is restorable, and its
      triples ask for its meaning. */
  lemma {:induction false} QueryRuns(q: Query, hashes: set<string>)
    requires Declarable(q.typeInfo) && q.typeInfo.typeDef != TypeDynamic && NoTextInQuery(q) && Restorable(q, hashes)
    ensures Answerable(BuildQuery(q), hashes) && LogOf(BuildQuery(q), hashes) == Meaning(q, hashes)
  {
    QueryCode(q);
    CompiledMeaning(q, hashes);
    QueryListed(q);
  }

  /** What is listed for a query. */
  function LinesOfQuery(q: Query): seq<string>
    requires Declarable(q.typeInfo)
  {
    QueryListed(q);
    var code := Header(q.typeInfo, q.name, q.source) + BodyCode(q) + [SELECT];
    Listing(code, |code|)
  }

  /** A linked query whose source has a declared type is drawn, listed and answered with its
      meaning. */
  method AnswerQuery(printer: A.TreePrinter, root: FendNode, hashes: set<string>,
                     ghost q: Query, ghost a: Ast, ghost t: Shape, ghost all: set<object>)
    returns (log: seq<Calculation>)
    requires Declarable(q.typeInfo) && q.typeInfo.typeDef != TypeDynamic && NoTextInQuery(q) && Restorable(q, hashes)
    requires a == BuildQuery(q) && root == Root(t) && Denotes(t, a) && Tidy(t) && Nodes(t) <= all
    requires AtRest(printer) && A.Drawable(a)
    modifies printer`printNext, printer`line, printer`lines, printer.lprofile, printer.rprofile
    ensures AtRest(printer) && printer.lines == old(printer.lines) + (Drawn(a) + LinesOfQuery(q))
    ensures log == Meaning(q, hashes)
  {
    QueryRuns(q, hashes);
    QueryCode(q);
    log := OnEachQuery(printer, root, hashes, t, a, all);
  }
}
