/** The code generator of backend.c: a fold over the nodes of a query in postorder that
    pushes triples and takes earlier ones back. */
module Backend {
  import opened Frontend
  import opened Strings

  datatype OpCode =
    | OpFrom | OpDef | OpLet | OpSelect | OpCall | OpProperty | OpType | OpUsage | OpInteger | OpString
    | OpAndRel | OpOrRel | OpNotRel | OpRelation | OpQueryContinuation | OpInto

  /** The union `op_value_t`, tagged; `NoOperand` is a null pointer. */
  datatype Operand =
    | NoOperand
    | TypeOperand(typeDef: TypeDef)
    | NumberOperand(number: int)
    | StringOperand(str: string)
    | RelationOperand(relationOp: CondOp)

  datatype Triple = Triple(code: OpCode, op1: Operand, op2: Operand)

  const QUOTES := "'\""

  function CreateString(value: NodeValue): Operand
    requires value.StringValue?
  {
    StringOperand(Trim(value.str, QUOTES))
  }

  /** The part of a node that the generator looks at. */
  datatype Item = Item(kind: NodeType, value: NodeValue, childless: bool)

  function ItemOf(t: Ast): Item
    requires t.Tree?
  {
    Item(t.kind, t.value, t.left.Empty? && t.right.Empty?)
  }

  /** How many triples a node takes off the list. */
  function Pops(code: seq<Triple>, item: Item): nat {
    match item.kind
    case NodeInternalType => if item.value == TypeValue(TypeUser) then 2 else 0
    case NodeIdentifier => if code != [] && code[|code| - 1].code == OpType then 1 else 0
    case NodeProperty => 1
    case NodeMethodCall => if item.childless then 1 else 0
    case _ => 0
  }

  predicate Emittable(code: seq<Triple>, item: Item) {
    TagFits(item.kind, item.value) && Pops(code, item) <= |code|
  }

  /** The triples a node leaves in place of those it takes off. */
  function Pushes(code: seq<Triple>, item: Item): seq<Triple>
    requires Emittable(code, item)
  {
    var n := |code|;
    match item.kind
    case NodeFrom => [Triple(OpFrom, NumberOperand(n - 2), NumberOperand(n - 1))]
    case NodeNotRel => [Triple(OpNotRel, NoOperand, NoOperand)]
    case NodeAndRel => [Triple(OpAndRel, NoOperand, NoOperand)]
    case NodeOrRel => [Triple(OpOrRel, NoOperand, NoOperand)]
    case NodeRelation => [Triple(OpRelation, RelationOperand(item.value.relationOp), NoOperand)]
    case NodeInternalType =>
      [Triple(OpType,
              if item.value.typeDef == TypeUser then code[n - 1].op2 else TypeOperand(item.value.typeDef),
              NoOperand)]
    case NodeStringLiteral => [Triple(OpString, CreateString(item.value), NoOperand)]
    case NodeNumericLiteral => [Triple(OpInteger, NumberOperand(item.value.number), NoOperand)]
    case NodeIdentifier =>
      var name := CreateString(item.value);
      if n == 0 then
        [Triple(OpType, TypeOperand(TypeDynamic), NoOperand), Triple(OpDef, NumberOperand(0), name)]
      else if code[n - 1].code == OpType then [Triple(OpDef, code[n - 1].op1, name)]
      else if code[n - 1].code == OpSelect then [Triple(OpInto, NumberOperand(n - 1), name)]
      else [Triple(OpUsage, NoOperand, name)]
    case NodeProperty => [Triple(OpProperty, code[n - 1].op2, CreateString(item.value))]
    case NodeLet => [Triple(OpLet, NoOperand, NoOperand)]
    case NodeSelect => [Triple(OpSelect, NoOperand, NoOperand)]
    case NodeMethodCall =>
      [Triple(OpCall, if item.childless then code[n - 1].op2 else StringOperand(""), CreateString(item.value))]
    case _ => []
  }

  function EmitStep(code: seq<Triple>, item: Item): seq<Triple>
    requires Emittable(code, item)
  {
    code[..|code| - Pops(code, item)] + Pushes(code, item)
  }

  class CodeGenerator {
    var instructions: seq<Triple>

    constructor ()
      ensures instructions == []
    {
      instructions := [];
    }

    method Push(t: Triple)
      modifies this
      ensures instructions == old(instructions) + [t]
    {
      instructions := instructions + [t];
    }

    method Pop() returns (t: Triple)
      requires |instructions| > 0
      modifies this
      ensures instructions == old(instructions)[..|old(instructions)| - 1]
      ensures t == old(instructions)[|old(instructions)| - 1]
    {
      t := instructions[|instructions| - 1];
      instructions := instructions[..|instructions| - 1];
    }

    method CreateInternalTypeTriple(node: FendNode) returns (t: Triple)
      requires node.value.TypeValue?
      requires node.value.typeDef == TypeUser ==> |instructions| >= 2
      modifies this
      ensures node.value.typeDef == TypeUser ==>
                var n := |old(instructions)|;
                && t == Triple(OpType, old(instructions)[n - 1].op2, NoOperand)
                && instructions == old(instructions)[..n - 2]
      ensures node.value.typeDef != TypeUser ==>
                t == Triple(OpType, TypeOperand(node.value.typeDef), NoOperand) && instructions == old(instructions)
    {
      if node.value.typeDef == TypeUser {
        var prev := Pop();  // the user type's name
        t := Triple(OpType, prev.op2, NoOperand);
        var dynamic := Pop();  // meant to be the `dynamic` under it
      } else {
        t := Triple(OpType, TypeOperand(node.value.typeDef), NoOperand);
      }
    }

    /** An identifier is a definition after a type or at the very start, a continuation's
        name after a select, and a usage anywhere else. */
    method CreateIdentifierTriple(node: FendNode) returns (t: Triple)
      requires node.value.StringValue?
      modifies this
      ensures
        var code, n, name := old(instructions), |old(instructions)|, CreateString(node.value);
        if n == 0 then
          && instructions == [Triple(OpType, TypeOperand(TypeDynamic), NoOperand)]
          && t == Triple(OpDef, NumberOperand(0), name)
        else if code[n - 1].code == OpType then
          instructions == code[..n - 1] && t == Triple(OpDef, code[n - 1].op1, name)
        else
          && instructions == code
          && t == if code[n - 1].code == OpSelect then Triple(OpInto, NumberOperand(n - 1), name)
                  else Triple(OpUsage, NoOperand, name)
    {
      var count := |instructions|;
      var code, op1 := OpUsage, NoOperand;
      if count > 0 {
        var prev := instructions[count - 1];
        if prev.code == OpType {
          prev := Pop();
          code, op1 := OpDef, prev.op1;
        } else if prev.code == OpSelect {
          code, op1 := OpInto, NumberOperand(count - 1);
        }
      } else {
        Push(Triple(OpType, TypeOperand(TypeDynamic), NoOperand));
        code, op1 := OpDef, NumberOperand(0);
      }
      t := Triple(code, op1, CreateString(node.value));
    }

    method CreatePropertyTriple(node: FendNode) returns (t: Triple)
      requires node.value.StringValue? && |instructions| > 0
      modifies this
      ensures
        var n := |old(instructions)|;
        && instructions == old(instructions)[..n - 1]
        && t == Triple(OpProperty, old(instructions)[n - 1].op2, CreateString(node.value))
    {
      var prev := Pop();
      t := Triple(OpProperty, prev.op2, CreateString(node.value));
    }

    method CreateMethodCallTriple(node: FendNode) returns (t: Triple)
      requires node.value.StringValue?
      requires node.left == null && node.right == null ==> |instructions| > 0
      modifies this
      ensures
        var n := |old(instructions)|;
        if node.left == null && node.right == null then
          && instructions == old(instructions)[..n - 1]
          && t == Triple(OpCall, old(instructions)[n - 1].op2, CreateString(node.value))
        else
          && instructions == old(instructions)
          && t == Triple(OpCall, StringOperand(""), CreateString(node.value))
    {
      var op1 := StringOperand("");
      if node.left == null && node.right == null {
        var prev := Pop();
        op1 := prev.op2;
      }
      t := Triple(OpCall, op1, CreateString(node.value));
    }

    /** The triple constructors that look at nothing but the length of the list. */
    function SimpleTriple(node: FendNode): (t: Triple)
      requires TagFits(node.kind, node.value)
      reads this, node
    {
      match node.kind
      case NodeFrom =>
        Triple(OpFrom, NumberOperand(|instructions| - 2), NumberOperand(|instructions| - 1))
      case NodeNotRel => Triple(OpNotRel, NoOperand, NoOperand)
      case NodeAndRel => Triple(OpAndRel, NoOperand, NoOperand)
      case NodeOrRel => Triple(OpOrRel, NoOperand, NoOperand)
      case NodeRelation => Triple(OpRelation, RelationOperand(node.value.relationOp), NoOperand)
      case NodeStringLiteral => Triple(OpString, CreateString(node.value), NoOperand)
      case NodeNumericLiteral => Triple(OpInteger, NumberOperand(node.value.number), NoOperand)
      case NodeLet => Triple(OpLet, NoOperand, NoOperand)
      case _ => Triple(OpSelect, NoOperand, NoOperand)
    }

    method Emit(node: FendNode)
      requires Emittable(instructions, ItemAt(node))
      modifies this
      ensures instructions == EmitStep(old(instructions), old(ItemAt(node)))
    {
      var t;
      match node.kind {
        case NodeInternalType => t := CreateInternalTypeTriple(node);
        case NodeIdentifier => t := CreateIdentifierTriple(node);
        case NodeProperty => t := CreatePropertyTriple(node);
        case NodeMethodCall => t := CreateMethodCallTriple(node);
        case NodeFrom | NodeNotRel | NodeAndRel | NodeOrRel | NodeRelation
           | NodeStringLiteral | NodeNumericLiteral | NodeLet | NodeSelect => t := SimpleTriple(node);
        case _ => return;
      }
      Push(t);
    }
  }

  function ItemAt(node: FendNode): Item
    reads node
  {
    Item(node.kind, node.value, node.left == null && node.right == null)
  }
}
