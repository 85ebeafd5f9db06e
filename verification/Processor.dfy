/** The processor of processor.c: it lists the triples and runs them against its own array of
    sources.  The calculators are a log of what they are asked to calculate. */
module Processor {
  import opened Frontend
  import opened Backend
  import opened Labels
  import opened Numbers

  datatype SourceKind = FileDecl | DirDecl | StringDecl | HashDecl | StringDef | PropCall | HashDefinition

  /** A C string that may be null. */
  datatype Text = Null | Str(str: string)

  datatype Source = Source(kind: SourceKind, name: Text, value: Text)

  datatype CalculationKind = OfString | OfFile | OfDir | OfHash

  datatype Calculation = Calculation(kind: CalculationKind, algorithm: string, subject: Text)

  // ---------------------------------------------------------------- one triple

  /** What reading the operand as a type gives: a string's address is no type. */
  function AsType(op: Operand): TypeDef {
    match op
    case TypeOperand(t) => t
    case NumberOperand(n) => TypeDynamic
    case _ => TypeUser
  }

  /** Triples whose operands the processor can read: they are there, and the places a from
      names are inside the array. */
  predicate Readable(sources: seq<Source>, t: Triple) {
    match t.code
    case OpDef =>
      && t.op2.StringOperand?
      && (t.op1.StringOperand? || (t.op1.TypeOperand? && t.op1.typeDef != TypeUser) || t.op1 == NumberOperand(0))
    case OpString => t.op1.StringOperand?
    case OpProperty => t.op1.StringOperand? && t.op2.StringOperand?
    case OpFrom =>
      && t.op1.NumberOperand? && 0 <= t.op1.number < |sources|
      && t.op2.NumberOperand? && 0 <= t.op2.number < |sources|
      && (sources[t.op1.number].kind == HashDecl ==> sources[t.op1.number].value.Str?)
    case _ => true
  }

  predicate Runnable(sources: seq<Source>, t: Triple, hashes: set<string>) {
    Readable(sources, t) && (t.code == OpSelect ==> AllSelectable(sources, hashes))
  }

  /** What a select can meet without asking the file system. */
  predicate Selectable(s: Source) {
    match s.kind
    case PropCall => s.name.Str? && s.value.Str?
    case HashDefinition => s.name.Str?
    case StringDef => false
    case _ => s.name.Str?
  }

  /** Some registered hash is called, whatever it is called on. */
  predicate SomeHash(calls: seq<Source>, hashes: set<string>) {
    exists c :: c in calls && c.kind == PropCall && c.value.Str? && c.value.str in hashes
  }

  /** A select reads the first entry of its table at every hash to restore, without asking
      whether there is one: a registered hash must be called later. */
  predicate AllSelectable(sources: seq<Source>, hashes: set<string>) {
    sources != [] ==>
      && AllSelectable(sources[1..], hashes)
      && Selectable(sources[0])
      && (sources[0].kind == HashDefinition ==> SomeHash(sources[1..], hashes))
  }

  lemma {:induction false} SelectableFrom(sources: seq<Source>, hashes: set<string>, i: nat)
    requires AllSelectable(sources, hashes) && i < |sources|
    ensures AllSelectable(sources[i..], hashes)
  {
    if i > 0 {
      SelectableFrom(sources[1..], hashes, i - 1);
      assert sources[1..][i - 1..] == sources[i..];
    } else {
      assert sources[0..] == sources;
    }
  }

  lemma {:induction false} SomeHashFirst(calls: seq<Source>, hashes: set<string>)
    requires calls != []
    ensures SomeHash(calls, hashes) <==>
            || (calls[0].kind == PropCall && calls[0].value.Str? && calls[0].value.str in hashes)
            || SomeHash(calls[1..], hashes)
  {
    assert calls == [calls[0]] + calls[1..];
  }

  /** The array after a triple other than select, which leaves it alone. */
  function Step(sources: seq<Source>, t: Triple): seq<Source>
    requires Readable(sources, t)
  {
    match t.code
    case OpDef =>
      (match AsType(t.op1)
       case TypeString => sources + [Source(StringDecl, Str(t.op2.str), Null)]
       case TypeFile => sources + [Source(FileDecl, Str(t.op2.str), Null)]
       case TypeDir => sources + [Source(DirDecl, Str(t.op2.str), Null)]
       case TypeDynamic => sources
       case TypeUser => sources + [Source(HashDecl, Str(t.op2.str), Str(t.op1.str))])
    case OpString => sources + [Source(StringDef, Null, Str(t.op1.str))]
    case OpProperty => sources + [Source(PropCall, Str(t.op1.str), Str(t.op2.str))]
    case OpFrom =>
      var to, from := sources[t.op1.number], sources[t.op2.number];
      if to.kind != HashDecl then
        sources[t.op1.number := to.(value := from.value)][..|sources| - 1]
      else
        sources[..|sources| - 1] + [Source(HashDefinition, to.value, from.value)]
    case _ => sources
  }

  // ---------------------------------------------------------------- the listing

  /** The names in the listing, each of 16 characters. */
  function OpCodeName(code: OpCode): string {
    match code
    case OpFrom => "opcode_from     "
    case OpDef => "opcode_def      "
    case OpLet => "opcode_let      "
    case OpSelect => "opcode_select   "
    case OpCall => "opcode_call     "
    case OpProperty => "opcode_property "
    case OpType => "opcode_type     "
    case OpUsage => "opcode_usage    "
    case OpInteger => "opcode_integer  "
    case OpString => "opcode_string   "
    case OpAndRel => "opcode_and_rel  "
    case OpOrRel => "opcode_or_rel   "
    case OpNotRel => "opcode_not_rel  "
    case OpRelation => "opcode_relation "
    case OpQueryContinuation => "opcode_continue "
    case OpInto => "opcode_into     "
  }

  /** Operands that the listing can read: of the kind the code says, and there unless the
      listing asks whether they are. */
  predicate Listable(code: OpCode, op: Operand, second: bool) {
    match code
    case OpInteger | OpFrom => op.NumberOperand?
    case OpString | OpProperty | OpCall => op.StringOperand?
    case OpUsage => second ==> op.StringOperand?
    case OpInto => if second then op.StringOperand? else op.NumberOperand? || op.NoOperand?
    case OpRelation => op.RelationOperand?
    case OpDef => op.StringOperand? || op.TypeOperand? || op == NumberOperand(0)
    case _ => true
  }

  predicate Listed(t: Triple) {
    Listable(t.code, t.op1, false) && (t.op2.NoOperand? || Listable(t.code, t.op2, true))
  }

  predicate AllListed(code: seq<Triple>) {
    forall i :: 0 <= i < |code| ==> Listed(code[i])
  }

  lemma {:induction false} ListedConcat(a: seq<Triple>, b: seq<Triple>)
    requires AllListed(a) && AllListed(b)
    ensures AllListed(a + b)
  {
  }

  function OperandText(code: OpCode, op: Operand, second: bool): string
    requires Listable(code, op, second)
  {
    match code
    case OpInteger | OpFrom => Decimal(op.number)
    case OpString | OpProperty | OpCall => op.str
    case OpUsage => if second then op.str else ""
    case OpInto => if second then op.str else if op.NumberOperand? then Decimal(op.number) else ""
    case OpRelation => CondOpName(op.relationOp)
    case OpDef => if op.StringOperand? then op.str else TypeName(AsType(op))
    case _ => ""
  }

  /** The place of a triple, in at least two columns. */
  function Place(i: nat): string {
    (if i < 10 then " " else "") + Decimal(i)
  }

  function ListingLine(t: Triple, i: nat): string
    requires Listed(t)
  {
    Place(i) + ": " + OpCodeName(t.code) + " " + OperandText(t.code, t.op1, false)
    + (if t.op2.NoOperand? then "" else ", " + OperandText(t.code, t.op2, true))
  }

  /** What is printed while the first n triples run. */
  function Listing(code: seq<Triple>, n: nat): seq<string>
    requires n <= |code| && AllListed(code)
  {
    if n == 0 then [] else Listing(code, n - 1) + [ListingLine(code[n - 1], n - 1)]
  }

  lemma {:induction false} ListingNext(code: seq<Triple>, i: nat)
    requires i < |code| && AllListed(code)
    ensures Listed(code[i]) && Listing(code, i + 1) == Listing(code, i) + [ListingLine(code[i], i)]
  {
  }

  // ---------------------------------------------------------------- select

  predicate IsHashCall(s: Source, name: Text, hashes: set<string>) {
    s.kind == PropCall && s.name == name && s.value.Str? && s.value.str in hashes
  }

  /** The first call of a registered hash on `name`. */
  function FirstHash(calls: seq<Source>, name: Text, hashes: set<string>): Text {
    if calls == [] then Null
    else if IsHashCall(calls[0], name, hashes) then calls[0].value
    else FirstHash(calls[1..], name, hashes)
  }

  /** It is the one before which there is none, and missing exactly when there is none at all. */
  lemma {:induction false} FirstHashIs(calls: seq<Source>, name: Text, hashes: set<string>, k: nat)
    requires k <= |calls| && forall j :: 0 <= j < k ==> !IsHashCall(calls[j], name, hashes)
    requires k < |calls| ==> IsHashCall(calls[k], name, hashes)
    ensures FirstHash(calls, name, hashes) == if k < |calls| then calls[k].value else Null
  {
    if k > 0 {
      assert forall j :: 0 <= j < k - 1 ==> calls[1..][j] == calls[j + 1];
      FirstHashIs(calls[1..], name, hashes, k - 1);
    }
  }

  function KindOf(k: SourceKind): CalculationKind {
    match k
    case StringDecl => OfString
    case FileDecl => OfFile
    case DirDecl => OfDir
    case _ => OfHash
  }

  /** What a declaration is worth, given the sources after it. */
  function CalculationsOf(s: Source, after: seq<Source>, hashes: set<string>): seq<Calculation> {
    match s.kind
    case StringDecl | FileDecl | DirDecl =>
      var h := FirstHash(after, s.name, hashes);
      if h.Str? then [Calculation(KindOf(s.kind), h.str, s.value)] else []
    case HashDefinition =>
      if s.name.Str? then [Calculation(OfHash, s.name.str, s.value)] else []
    case _ => []
  }

  /** What a select asks for, last source first: a declaration is calculated with the first
      registered hash called on it later. */
  function Selected(sources: seq<Source>, hashes: set<string>): seq<Calculation> {
    if sources == [] then []
    else Selected(sources[1..], hashes) + CalculationsOf(sources[0], sources[1..], hashes)
  }

  // ---------------------------------------------------------------- whole lists

  datatype State = State(sources: seq<Source>, log: seq<Calculation>)

  function Run(st: State, code: seq<Triple>, hashes: set<string>): State
    requires AllRunnable(st, code, hashes)
    decreases |code|
  {
    if code == [] then st else Run(RunOne(st, code[0], hashes), code[1..], hashes)
  }

  function RunOne(st: State, t: Triple, hashes: set<string>): State
    requires Runnable(st.sources, t, hashes)
  {
    State(Step(st.sources, t), if t.code == OpSelect then st.log + Selected(st.sources, hashes) else st.log)
  }

  predicate AllRunnable(st: State, code: seq<Triple>, hashes: set<string>)
    decreases |code|
  {
    code == [] || (Runnable(st.sources, code[0], hashes) && AllRunnable(RunOne(st, code[0], hashes), code[1..], hashes))
  }

  lemma {:induction false} RunNext(st: State, code: seq<Triple>, i: nat, hashes: set<string>)
    requires i < |code| && AllRunnable(st, code[i..], hashes)
    ensures Runnable(st.sources, code[i], hashes) && AllRunnable(RunOne(st, code[i], hashes), code[i + 1..], hashes)
    ensures Run(st, code[i..], hashes) == Run(RunOne(st, code[i], hashes), code[i + 1..], hashes)
  {
    assert code[i..][0] == code[i] && code[i..][1..] == code[i + 1..];
  }

  class QueryProcessor {
    const hashes: set<string>  // the names hsh_get_hash knows
    var sources: seq<Source>
    var log: seq<Calculation>
    var lines: seq<string>

    constructor (hashes: set<string>)
      ensures this.hashes == hashes && sources == [] && log == [] && lines == []
    {
      this.hashes, sources, log, lines := hashes, [], [], [];
    }

    method OnDef(t: Triple)
      requires t.code == OpDef && Readable(sources, t)
      modifies this`sources
      ensures sources == Step(old(sources), t)
    {
      match AsType(t.op1) {
        case TypeString => sources := sources + [Source(StringDecl, Str(t.op2.str), Null)];
        case TypeFile => sources := sources + [Source(FileDecl, Str(t.op2.str), Null)];
        case TypeDir => sources := sources + [Source(DirDecl, Str(t.op2.str), Null)];
        case TypeDynamic =>
        case TypeUser => sources := sources + [Source(HashDecl, Str(t.op2.str), Str(t.op1.str))];
      }
    }

    method OnString(t: Triple)
      requires t.code == OpString && Readable(sources, t)
      modifies this`sources
      ensures sources == Step(old(sources), t)
    {
      sources := sources + [Source(StringDef, Null, Str(t.op1.str))];
    }

    method OnFrom(t: Triple)
      requires t.code == OpFrom && Readable(sources, t)
      modifies this`sources
      ensures sources == Step(old(sources), t)
    {
      var to, from := sources[t.op1.number], sources[t.op2.number];
      if to.kind != HashDecl {
        sources := sources[t.op1.number := to.(value := from.value)];
        sources := sources[..|sources| - 1];
      } else {
        sources := sources[..|sources| - 1];
        sources := sources + [Source(HashDefinition, to.value, from.value)];
      }
    }

    method OnProperty(t: Triple)
      requires t.code == OpProperty && Readable(sources, t)
      modifies this`sources
      ensures sources == Step(old(sources), t)
    {
      sources := sources + [Source(PropCall, Str(t.op1.str), Str(t.op2.str))];
    }

    /** The table holds for every name the hash called on it first in `calls`, and is empty
        only when no registered hash is called there. */
    ghost predicate Table(properties: map<string, string>, calls: seq<Source>) {
      && (forall n :: (if n in properties then Str(properties[n]) else Null) == FirstHash(calls, Str(n), hashes))
      && (SomeHash(calls, hashes) ==> exists n :: n in properties)
    }

    /** One source of the scan.  At a hash to restore some entry of the table is read, and
        what it holds is ignored. */
    method OnSource(instr: Source, properties: map<string, string>, ghost after: seq<Source>, ghost whole: seq<Source>)
      returns (kept: map<string, string>)
      requires whole != [] && whole[0] == instr && whole[1..] == after
      requires Table(properties, after) && AllSelectable(whole, hashes)
      modifies this`log
      ensures Table(kept, whole)
      ensures log == old(log) + CalculationsOf(instr, after, hashes)
    {
      kept := properties;
      SomeHashFirst(whole, hashes);
      if instr.kind == PropCall {
        if instr.value.str in hashes {
          kept := properties[instr.name.str := instr.value.str];
          assert instr.name.str in kept;
        }
      }
      if instr.kind == StringDecl {
        if instr.name.str in properties {
          log := log + [Calculation(OfString, properties[instr.name.str], instr.value)];
        }
      }
      if instr.kind == HashDefinition {
        var hi :| hi in properties;
        var hashToCalculate := properties[hi];
        log := log + [Calculation(OfHash, instr.name.str, instr.value)];
      }
      if instr.kind == FileDecl {
        if instr.name.str in properties {
          log := log + [Calculation(OfFile, properties[instr.name.str], instr.value)];
        }
      }
      if instr.kind == DirDecl {
        if instr.name.str in properties {
          log := log + [Calculation(OfDir, properties[instr.name.str], instr.value)];
        }
      }
    }

    /** Scans the sources backwards, so that the table holds what is called on them later. */
    method OnSelect()
      requires AllSelectable(sources, hashes)
      modifies this`log
      ensures log == old(log) + Selected(sources, hashes)
    {
      var properties: map<string, string> := map[];
      var i := |sources| - 1;
      assert sources[i + 1..] == [];
      while i >= 0
        invariant -1 <= i < |sources|
        invariant Table(properties, sources[i + 1..])
        invariant log == old(log) + Selected(sources[i + 1..], hashes)
      {
        ghost var whole, after := sources[i..], sources[i + 1..];
        assert whole[0] == sources[i] && whole[1..] == after;
        SelectableFrom(sources, hashes, i);
        properties := OnSource(sources[i], properties, after, whole);
        assert Selected(whole, hashes) == Selected(after, hashes) + CalculationsOf(sources[i], after, hashes);
        i := i - 1;
      }
      assert sources[0..] == sources;
    }

    /** One triple is listed and then run. */
    method RunTriple(t: Triple, i: nat)
      requires Runnable(sources, t, hashes) && Listed(t)
      modifies this
      ensures lines == old(lines) + [ListingLine(t, i)]
      ensures State(sources, log) == RunOne(State(old(sources), old(log)), t, hashes)
    {
      lines := lines + [ListingLine(t, i)];
      match t.code {
        case OpDef => OnDef(t);
        case OpString => OnString(t);
        case OpFrom => OnFrom(t);
        case OpProperty => OnProperty(t);
        case OpSelect => OnSelect();
        case _ =>
      }
    }

    /** What has been listed and run when the triples before i are done. */
    ghost predicate Ran(st: State, before: seq<string>, code: seq<Triple>, i: nat)
      requires i <= |code| && AllListed(code) && AllRunnable(st, code, hashes)
      reads this
    {
      && lines == before + Listing(code, i)
      && AllRunnable(State(sources, log), code[i..], hashes)
      && Run(State(sources, log), code[i..], hashes) == Run(st, code, hashes)
    }

    method RunTriples(code: seq<Triple>)
      requires AllRunnable(State(sources, log), code, hashes) && AllListed(code)
      modifies this
      ensures lines == old(lines) + Listing(code, |code|)
      ensures State(sources, log) == Run(State(old(sources), old(log)), code, hashes)
    {
      var i := 0;
      ghost var st, before := State(sources, log), lines;
      assert code[0..] == code;
      while i < |code|
        invariant 0 <= i <= |code|
        invariant Ran(st, before, code, i)
      {
        RunNextTriple(code, i, st, before);
        i := i + 1;
      }
    }

    method RunNextTriple(code: seq<Triple>, i: nat, ghost st: State, ghost before: seq<string>)
      requires i < |code| && AllListed(code) && AllRunnable(st, code, hashes) && Ran(st, before, code, i)
      modifies this
      ensures Ran(st, before, code, i + 1)
    {
      ListingNext(code, i);
      RunNext(State(sources, log), code, i, hashes);
      RunTriple(code[i], i);
    }
  }
}
