/** A label of the drawing tells what its node is: reading it gives the kind and the text back. */
module ReadLabels {
  import opened Options
  import opened Frontend
  import opened Labels

  /** The kinds whose label is a word alone. */
  function WordKind(word: string): Option<NodeType> {
    if word == "query" then Some(NodeQuery)
    else if word == "from" then Some(NodeFrom)
    else if word == "where" then Some(NodeWhere)
    else if word == "not" then Some(NodeNotRel)
    else if word == "and" then Some(NodeAndRel)
    else if word == "or" then Some(NodeOrRel)
    else if word == "unary" then Some(NodeUnaryExpression)
    else if word == "enum" then Some(NodeEnum)
    else if word == "grp" then Some(NodeGroup)
    else if word == "let" then Some(NodeLet)
    else if word == "qbody" then Some(NodeQueryBody)
    else if word == "into" then Some(NodeQueryContinuation)
    else if word == "select" then Some(NodeSelect)
    else if word == "join" then Some(NodeJoin)
    else if word == "on" then Some(NodeOn)
    else if word == "in" then Some(NodeIn)
    else if word == "OrderBy" then Some(NodeOrderBy)
    else None
  }

  /** The kinds whose label has a text in parentheses. */
  function HeadKind(head: string): Option<NodeType> {
    if head == "rel" then Some(NodeRelation)
    else if head == "type" then Some(NodeInternalType)
    else if head == "str" then Some(NodeStringLiteral)
    else if head == "num" then Some(NodeNumericLiteral)
    else if head == "id" then Some(NodeIdentifier)
    else if head == "prop" then Some(NodeProperty)
    else if head == "method" then Some(NodeMethodCall)
    else if head == "order" then Some(NodeOrdering)
    else None
  }

  datatype Label = Label(kind: Option<NodeType>, text: string)

  function Opening(s: string): (n: nat)
    ensures n <= |s|
  {
    if s == "" || s[0] == '(' then 0 else Opening(s[1..]) + 1
  }

  function ReadLabel(s: string): Label {
    var n := Opening(s);
    if n + 2 <= |s| then Label(HeadKind(s[..n]), s[n + 1..|s| - 1]) else Label(WordKind(s), "")
  }

  /** The text a node's label shows: a name, an operator, a type, a number or a direction. */
  function ShownText(kind: NodeType, value: NodeValue): string
    requires TagFits(kind, value)
  {
    match kind
    case NodeRelation => CondOpName(value.relationOp)
    case NodeInternalType => TypeName(value.typeDef)
    case NodeNumericLiteral => Decimal(value.number)
    case NodeStringLiteral | NodeIdentifier | NodeProperty | NodeMethodCall => value.str
    case NodeOrdering => if value.ordering == OrderingAsc then "asc" else "desc"
    case _ => ""
  }

  lemma {:induction false} OpeningAfter(head: string, text: string)
    requires '(' !in head
    ensures Opening(head + "(" + text + ")") == |head|
  {
    if head != "" {
      assert (head + "(" + text + ")")[1..] == head[1..] + "(" + text + ")";
      assert head[0] in head;
      OpeningAfter(head[1..], text);
    }
  }

  lemma {:induction false} NoOpening(word: string)
    requires '(' !in word
    ensures Opening(word) == |word|
  {
    if word != "" {
      assert word[0] in word;
      NoOpening(word[1..]);
    }
  }

  lemma {:induction false} HeadReads(printed: string, head: string, front: string, text: string, kind: NodeType)
    requires printed == front + text + ")" && front == head + "(" && '(' !in head && HeadKind(head) == Some(kind)
    ensures ReadLabel(printed) == Label(Some(kind), text)
  {
    OpeningAfter(head, text);
    assert printed[..|head|] == head && printed[|head| + 1..|printed| - 1] == text;
  }

  lemma {:induction false} WordReads(word: string, kind: NodeType)
    requires '(' !in word && WordKind(word) == Some(kind)
    ensures ReadLabel(word) == Label(Some(kind), "")
  {
    NoOpening(word);
  }

  /** Every label is read back as its node's kind and text. */
  lemma {:induction false} LabelReads(kind: NodeType, value: NodeValue)
    requires TagFits(kind, value)
    ensures ReadLabel(LabelOf(kind, value)) == Label(Some(kind), ShownText(kind, value))
  {
    var (s, text) := (LabelOf(kind, value), ShownText(kind, value));
    match kind
    case NodeRelation => HeadReads(s, "rel", "rel(", text, kind);
    case NodeInternalType => HeadReads(s, "type", "type(", text, kind);
    case NodeStringLiteral => HeadReads(s, "str", "str(", text, kind);
    case NodeNumericLiteral => HeadReads(s, "num", "num(", text, kind);
    case NodeIdentifier => HeadReads(s, "id", "id(", text, kind);
    case NodeProperty => HeadReads(s, "prop", "prop(", text, kind);
    case NodeMethodCall => HeadReads(s, "method", "method(", text, kind);
    case NodeOrdering => HeadReads(s, "order", "order(", text, kind);
    case _ => WordLabelReads(kind, value);
  }

  /** A label without parentheses. */
  predicate IsWord(kind: NodeType) {
    kind !in {NodeRelation, NodeInternalType, NodeStringLiteral, NodeNumericLiteral, NodeIdentifier, NodeProperty,
              NodeMethodCall, NodeOrdering}
  }

  lemma {:induction false} WordLabelReads(kind: NodeType, value: NodeValue)
    requires TagFits(kind, value) && IsWord(kind)
    ensures ReadLabel(LabelOf(kind, value)) == Label(Some(kind), "")
  {
    WordIs(kind, value, LabelOf(kind, value));
    WordReads(LabelOf(kind, value), kind);
  }

  lemma {:induction false} WordIs(kind: NodeType, value: NodeValue, word: string)
    requires TagFits(kind, value) && IsWord(kind) && word == LabelOf(kind, value)
    ensures '(' !in word && WordKind(word) == Some(kind)
  {
  }
}
