/** The lines that processor.c lists triples in can be read back: the place, the name of the
    code, and the operands in their order. */
module ReadListing {
  import opened Options
  import opened Frontend
  import opened Backend
  import opened Labels
  import opened Numbers
  import opened Processor

  datatype Line = Line(place: string, name: string, first: string, second: Option<string>)

  /** Where the first comma with a blank behind it is, or the end. */
  function Separator(s: string): (n: nat)
    ensures n <= |s|
  {
    if |s| < 2 then |s| else if s[0] == ',' && s[1] == ' ' then 0 else Separator(s[1..]) + 1
  }

  function Colon(s: string): (n: nat)
    ensures n <= |s|
  {
    if s == "" || s[0] == ':' then 0 else Colon(s[1..]) + 1
  }

  function ReadOperands(s: string): (string, Option<string>) {
    var n := Separator(s);
    (s[..n], if n + 2 <= |s| then Some(s[n + 2..]) else None)
  }

  /** The place up to the colon, 16 characters of the name, and what the separator divides. */
  function ReadLine(line: string): Option<Line> {
    var c := Colon(line);
    if |line| < c + 19 then None
    else
      var operands := ReadOperands(line[c + 19..]);
      Some(Line(line[..c], line[c + 2..c + 18], operands.0, operands.1))
  }

  /** What a line says of its triple. */
  function LineOf(t: Triple, i: nat): Line
    requires Listed(t)
  {
    Line(Place(i), OpCodeName(t.code), OperandText(t.code, t.op1, false),
         if t.op2.NoOperand? then None else Some(OperandText(t.code, t.op2, true)))
  }

  lemma {:induction false} DigitsPlain(n: nat)
    ensures ':' !in Digits(n)
  {
    if n >= 10 { DigitsPlain(n / 10); }
  }

  lemma {:induction false} PlacePlain(i: nat)
    ensures ':' !in Place(i)
  {
    var low := i % 0x1_0000_0000;
    DigitsPlain(if low < 0x8000_0000 then low else 0x1_0000_0000 - low);
  }

  lemma {:induction false} ColonAfter(a: string, b: string)
    requires ':' !in a
    ensures Colon(a + ":" + b) == |a|
  {
    if a != "" {
      assert (a + ":" + b)[1..] == a[1..] + ":" + b;
      assert a[0] in a;
      ColonAfter(a[1..], b);
    }
  }

  /** The separator is found where it stands exactly when the first operand holds none. */
  lemma {:induction false} SeparatorAfter(a: string, b: string)
    ensures Separator(a + ", " + b) == |a| <==> Separator(a) == |a|
    ensures Separator(a + ", " + b) <= |a|
  {
    var s := a + ", " + b;
    if a == "" {
      assert s[0] == ',' && s[1] == ' ';
    } else {
      assert s[1..] == a[1..] + ", " + b && s[0] == a[0];
      SeparatorAfter(a[1..], b);
      if |a| == 1 { assert s[1] == ','; } else { assert s[1] == a[1]; }
    }
  }

  lemma {:induction false} OperandsRead(a: string, b: Option<string>)
    ensures ReadOperands(a + (if b.None? then "" else ", " + b.value)) == (a, b) <==> Separator(a) == |a|
  {
    if b.None? {
      assert a + "" == a;
    } else {
      var s := a + (", " + b.value);
      assert s == a + ", " + b.value;
      SeparatorAfter(a, b.value);
      assert s[..|a|] == a && s[|a| + 2..] == b.value;
    }
  }

  /** Different codes have different names: three characters tell them apart. */
  lemma {:induction false} NamesDiffer(a: OpCode, b: OpCode)
    requires a != b
    ensures OpCodeName(a) != OpCodeName(b)
  {
    NameMarks(a);
    NameMarks(b);
  }

  function Marks(code: OpCode): (char, char, char) {
    match code
    case OpFrom => ('f', 'r', 'm')
    case OpDef => ('d', 'e', ' ')
    case OpLet => ('l', 'e', ' ')
    case OpSelect => ('s', 'e', 'e')
    case OpCall => ('c', 'a', 'l')
    case OpProperty => ('p', 'r', 'p')
    case OpType => ('t', 'y', 'e')
    case OpUsage => ('u', 's', 'g')
    case OpInteger => ('i', 'n', 'e')
    case OpString => ('s', 't', 'i')
    case OpAndRel => ('a', 'n', '_')
    case OpOrRel => ('o', 'r', 'r')
    case OpNotRel => ('n', 'o', '_')
    case OpRelation => ('r', 'e', 'a')
    case OpQueryContinuation => ('c', 'o', 't')
    case OpInto => ('i', 'n', 'o')
  }

  lemma {:induction false} NameMarks(code: OpCode)
    ensures var name := OpCodeName(code); |name| == 16 && (name[7], name[8], name[10]) == Marks(code)
  {
  }

  lemma {:induction false} LineParts(place: string, name: string, operands: string)
    requires ':' !in place && |name| == 16
    ensures
      var line := place + ": " + name + " " + operands;
      && Colon(line) == |place| && |line| >= |place| + 19
      && line[..|place|] == place && line[|place| + 2..|place| + 18] == name && line[|place| + 19..] == operands
  {
    var line := place + ": " + name + " " + operands;
    ColonAfter(place, " " + name + " " + operands);
    assert line == place + ":" + (" " + name + " " + operands);
  }

  /** A line is read back as its code's name and its operands in their places exactly when the
      text of the first operand has no comma with a blank behind it. */
  lemma {:induction false} LineReads(t: Triple, i: nat)
    requires Listed(t)
    ensures ReadLine(ListingLine(t, i)) == Some(LineOf(t, i)) <==>
            Separator(OperandText(t.code, t.op1, false)) == |OperandText(t.code, t.op1, false)|
  {
    var line := LineOf(t, i);
    NameMarks(t.code);
    PlacePlain(i);
    PartsRead(ListingLine(t, i), line);
  }

  lemma {:induction false} PartsRead(printed: string, line: Line)
    requires ':' !in line.place && |line.name| == 16
    requires
      printed == line.place + ": " + line.name + " " + line.first
                 + (if line.second.None? then "" else ", " + line.second.value)
    ensures ReadLine(printed) == Some(line) <==> Separator(line.first) == |line.first|
  {
    var operands := line.first + (if line.second.None? then "" else ", " + line.second.value);
    LineParts(line.place, line.name, operands);
    OperandsRead(line.first, line.second);
    assert printed == line.place + ": " + line.name + " " + operands;
  }
}
