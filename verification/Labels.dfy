/** The node labels of bend_create_label (backend.c) and the name tables of processor.c. */
module Labels {
  import opened Frontend
  import opened Numbers
  import opened Options

  function CondOpName(op: CondOp): string {
    match op
    case OpEq => "=="
    case OpNotEq => "!="
    case OpMatch => "~"
    case OpNotMatch => "!~"
    case OpGe => ">"
    case OpLe => "<"
    case OpGeEq => ">="
    case OpLeEq => "<="
    case OpOr => "or"
    case OpAnd => "and"
    case OpNot => "not"
  }

  function TypeName(t: TypeDef): string {
    match t
    case TypeDynamic => "dynamic"
    case TypeFile => "file"
    case TypeDir => "dir"
    case TypeString => "string"
    case TypeUser => "user"
  }

  /** The operators and the types as l2h.lex reads them: the names printed are those read. */
  function LexOperator(token: string): Option<CondOp> {
    if token == "==" then Some(OpEq)
    else if token == "!=" then Some(OpNotEq)
    else if token == ">" then Some(OpGe)
    else if token == ">=" then Some(OpGeEq)
    else if token == "<" then Some(OpLe)
    else if token == "<=" then Some(OpLeEq)
    else if token == "~" then Some(OpMatch)
    else if token == "!~" then Some(OpNotMatch)
    else None
  }

  function LexType(token: string): Option<TypeDef> {
    if token == "file" then Some(TypeFile)
    else if token == "string" then Some(TypeString)
    else if token == "dir" then Some(TypeDir)
    else None
  }

  /** Reading a printed operator gives it back, unless it is one between relations, which no
      relation holds. */
  lemma {:induction false} OperatorReads(op: CondOp)
    ensures LexOperator(CondOpName(op)) == if op in {OpOr, OpAnd, OpNot} then None else Some(op)
  {
  }

  /** Reading a printed type gives it back, if it is one that a query can name by keyword. */
  lemma {:induction false} TypeReads(t: TypeDef)
    ensures LexType(TypeName(t)) == if t in {TypeDynamic, TypeUser} then None else Some(t)
  {
  }

  /** The conversion `%d`, which looks at 32 bits only. */
  function Decimal(n: int): (s: string)
    ensures |s| >= 1
  {
    var low := n % 0x1_0000_0000;
    var value := if low < 0x8000_0000 then low else low - 0x1_0000_0000;
    if value < 0 then "-" + Digits(-value) else Digits(value)
  }

  function ReadDecimal(s: string): Option<int> {
    var negative := s != "" && s[0] == '-';
    var v := Value(if negative then s[1..] else s);
    if v.None? then None else Some(Signed(negative, v.value))
  }

  function Signed(negative: bool, n: int): int {
    if negative then -n else n
  }

  /** The 32-bit number that is printed. */
  function Low32(n: int): int {
    var low := n % 0x1_0000_0000;
    if low < 0x8000_0000 then low else low - 0x1_0000_0000
  }

  /** A number is printed as itself exactly when it fits 32 bits. */
  lemma {:induction false} DecimalReads(n: int)
    ensures ReadDecimal(Decimal(n)) == Some(Low32(n))
    ensures ReadDecimal(Decimal(n)) == Some(n) <==> -0x8000_0000 <= n < 0x8000_0000
  {
    SignedReads(Low32(n), Decimal(n));
    Wraps(n);
  }

  lemma {:induction false} SignedReads(value: int, s: string)
    requires s == if value < 0 then "-" + Digits(-value) else Digits(value)
    ensures ReadDecimal(s) == Some(value)
  {
    if value < 0 {
      DigitsValue(-value);
      assert s[1..] == Digits(-value);
    } else {
      DigitsValue(value);
      assert '0' <= Digits(value)[0] <= '9';
    }
  }

  /** The numeric literal 4294967296 is printed as 0. */
  lemma {:induction false} NumberMisprinted()
    ensures Decimal(4294967296) == "0"
  {
    assert Low32(4294967296) == 0 && Digits(0) == ['0'];
  }

  lemma {:induction false} Wraps(n: int)
    ensures Low32(n) == n <==> -0x8000_0000 <= n < 0x8000_0000
  {
  }

  function LabelOf(kind: NodeType, value: NodeValue): (s: string)
    requires TagFits(kind, value)
    ensures |s| >= 1 && s[|s| - 1] != ' '
  {
    match kind
    case NodeQuery => "query"
    case NodeFrom => "from"
    case NodeWhere => "where"
    case NodeNotRel => "not"
    case NodeAndRel => "and"
    case NodeOrRel => "or"
    case NodeRelation => "rel(" + CondOpName(value.relationOp) + ")"
    case NodeInternalType => "type(" + TypeName(value.typeDef) + ")"
    case NodeStringLiteral => "str(" + value.str + ")"
    case NodeNumericLiteral => "num(" + Decimal(value.number) + ")"
    case NodeIdentifier => "id(" + value.str + ")"
    case NodeProperty => "prop(" + value.str + ")"
    case NodeUnaryExpression => "unary"
    case NodeEnum => "enum"
    case NodeGroup => "grp"
    case NodeLet => "let"
    case NodeQueryBody => "qbody"
    case NodeQueryContinuation => "into"
    case NodeSelect => "select"
    case NodeMethodCall => "method(" + value.str + ")"
    case NodeJoin => "join"
    case NodeOn => "on"
    case NodeIn => "in"
    case NodeOrderBy => "OrderBy"
    case NodeOrdering => "order(" + (if value.ordering == OrderingAsc then "asc" else "desc") + ")"
  }

  // ---------------------------------------------------------------- labels in their buffers

  /** The characters a drawn node holds for its label, the NUL included. */
  const LABEL_SIZE := 80

  /** Every label of the tree fits where it is copied to. */
  predicate LabelsFit(t: Ast)
    requires Tagged(t)
  {
    t.Tree? ==> |LabelOf(t.kind, t.value)| < LABEL_SIZE && LabelsFit(t.left) && LabelsFit(t.right)
  }

  /** The texts of the query that go into labels, by length. */
  predicate TextFits(kind: NodeType, value: NodeValue)
    requires TagFits(kind, value)
  {
    match kind
    case NodeIdentifier => |value.str| <= 75
    case NodeStringLiteral => |value.str| <= 74
    case NodeProperty => |value.str| <= 73
    case NodeMethodCall => |value.str| <= 71
    case _ => true
  }

  predicate TextsFit(t: Ast)
    requires Tagged(t)
  {
    t.Tree? ==> TextFits(t.kind, t.value) && TextsFit(t.left) && TextsFit(t.right)
  }

  /** A power of ten bounds the number of digits. */
  lemma {:induction false} DigitsLength(n: nat, k: nat)
    requires k > 0 && n < Power10(k)
    ensures |Digits(n)| <= k
    decreases k
  {
    if n >= 10 { DigitsLength(n / 10, k - 1); }
  }

  function Power10(k: nat): nat {
    if k == 0 then 1 else 10 * Power10(k - 1)
  }

  lemma {:induction false} DecimalLength(n: int)
    ensures |Decimal(n)| <= 11
  {
    assert Power10(5) == 100000;
    assert Power10(10) == 10000000000;
    var low := n % 0x1_0000_0000;
    var value := if low < 0x8000_0000 then low else low - 0x1_0000_0000;
    DigitsLength(if value < 0 then -value else value, 10);
  }

  lemma {:induction false} LabelFitsIff(kind: NodeType, value: NodeValue)
    requires TagFits(kind, value)
    ensures |LabelOf(kind, value)| < LABEL_SIZE <==> TextFits(kind, value)
  {
    match kind
    case NodeNumericLiteral => DecimalLength(value.number);
    case NodeRelation => assert |CondOpName(value.relationOp)| <= 3;
    case NodeInternalType => assert |TypeName(value.typeDef)| <= 7;
    case _ =>
  }

  /** All labels fit exactly when every text of the query is short enough. */
  lemma {:induction false} LabelsFitIff(t: Ast)
    requires Tagged(t)
    ensures LabelsFit(t) <==> TextsFit(t)
  {
    if t.Tree? {
      LabelFitsIff(t.kind, t.value);
      LabelsFitIff(t.left);
      LabelsFitIff(t.right);
    }
  }
}
