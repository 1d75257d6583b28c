/** What each opcode's bytes are read as, and what becomes of them. */
module WasmOpcodes {
  import opened Bytes
  import opened Wrappers
  import opened Sequences
  import opened Leb128
  import opened WasmBinary
  import opened WasmCopying
  import opened WasmInstructions

  function Then32(s: seq<byte>): Read<(nat, nat)> {
    match ReadU32(s)
    case Bad => Bad
    case Got(a, rest) =>
      match ReadU32(rest)
      case Bad => Bad
      case Got(b, left) => Got((a, b), left)
  }

  /** What is read behind the opcode, made the operands of the instruction. */
  function As<T>(opcode: Opcode, read: Read<T>, operands: T -> seq<Operand>): Read<Instruction> {
    match read
    case Bad => Bad
    case Got(value, rest) => Got(Instruction(opcode, operands(value)), rest)
  }

  function AllOfThem(): seq<Operand> -> seq<Operand> {
    (operands: seq<Operand>) => operands
  }

  function ACallee(): nat -> seq<Operand> {
    (index: nat) => [Callee(index)]
  }

  function ANumber(): nat -> seq<Operand> {
    (n: nat) => [Number(n)]
  }

  function TwoNumbers(): ((nat, nat)) -> seq<Operand> {
    (pair: (nat, nat)) => [Number(pair.0), Number(pair.1)]
  }

  function ASigned(): int -> seq<Operand> {
    (n: int) => [Number(n)]
  }

  function AType(): byte -> seq<Operand> {
    (t: byte) => [ValueType(t)]
  }

  function SomeTypes(): seq<byte> -> seq<Operand> {
    (ts: seq<byte>) => [Types(ts)]
  }

  function LabelsAnd(labels: seq<nat>): nat -> seq<Operand> {
    (last: nat) => [Labels(labels), Number(last)]
  }

  // ---- unfolding ---------------------------------------------------------------------------

  lemma PlainOpcode(code: byte, s: seq<byte>)
    requires code != 0xFC
    ensures ReadOpcode()([code] + s) == if ImmediatesOfCode(code).Some? then Got(Plain(code), s) else Bad
  {
    assert ([code] + s)[1..] == s;
  }

  lemma PrefixedOpcode(s: seq<byte>)
    ensures var sub := ReadU32(s);
      ReadOpcode()([0xFC] + s)
      == if sub.Got? && ImmediatesOf(Prefixed(sub.value)).Some? then Got(Prefixed(sub.value), sub.rest) else Bad
  {
    hide ReadU32, ImmediatesOf;
    assert ([0xFC] + s)[1..] == s && AnyByte()([0xFC] + s) == Got(0xFC, s);
    SubOpcodeReads(s);
  }

  lemma SubOpcodeReads(s: seq<byte>)
    ensures var sub := ReadU32(s);
      SubOpcode()(PREFIX)(s) == if sub.Got? then Got(Prefixed(sub.value), sub.rest) else Bad
  {
    hide ReadU32;
    assert SubOpcode()(PREFIX) == Map(U32(), ToPrefixed());
    assert U32()(s) == ReadU32(s);
    if ReadU32(s).Got? {
      assert ToPrefixed()(ReadU32(s).value) == Prefixed(ReadU32(s).value);
      assert Map(U32(), ToPrefixed())(s) == Got(Prefixed(ReadU32(s).value), ReadU32(s).rest);
    }
  }

  function WithOperands(opcode: Read<Opcode>): Read<Instruction> {
    if opcode.Bad? then Bad else As(opcode.value, ReadOperands(Kinds(opcode.value))(opcode.rest), AllOfThem())
  }

  function WithCopies(r: Renumbering, s: seq<byte>, opcode: Read<Opcode>): Read<seq<byte>> {
    if opcode.Bad? then Bad
    else
      var copied := CopyOperands(r, Kinds(opcode.value))(opcode.rest);
      if copied.Bad? || |opcode.rest| > |s| then Bad else Got(Used(s, opcode.rest) + copied.value, copied.rest)
  }

  lemma AfterOpcode(s: seq<byte>)
    ensures ReadInstruction()(s) == WithOperands(ReadOpcode()(s))
  {
    hide ReadOpcode, ReadOperands, Kinds;
  }

  lemma NoOperands(s: seq<byte>)
    ensures ReadOperands([])(s) == Got([], s)
  {
  }

  lemma OneOperand(kind: Immediate, s: seq<byte>)
    ensures ReadOperands([kind])(s) ==
      match ReadOperand(kind)(s)
      case Bad => Bad
      case Got(operand, rest) => Got([operand], rest)
  {
    hide ReadOperand;
    assert [kind][1..] == [];
    if ReadOperand(kind)(s).Got? {
      NoOperands(ReadOperand(kind)(s).rest);
      assert [ReadOperand(kind)(s).value] + [] == [ReadOperand(kind)(s).value];
    }
  }

  lemma TwoOperands(a: Immediate, b: Immediate, s: seq<byte>)
    ensures ReadOperands([a, b])(s) ==
      match ReadOperand(a)(s)
      case Bad => Bad
      case Got(first, rest) =>
        match ReadOperand(b)(rest)
        case Bad => Bad
        case Got(second, left) => Got([first, second], left)
  {
    hide ReadOperand;
    assert [a, b][1..] == [b];
    if ReadOperand(a)(s).Got? {
      var rest := ReadOperand(a)(s).rest;
      OneOperand(b, rest);
      if ReadOperand(b)(rest).Got? {
        assert [ReadOperand(a)(s).value] + [ReadOperand(b)(rest).value] == [ReadOperand(a)(s).value, ReadOperand(b)(rest).value];
      }
    }
  }

  // ---- opcodes without operands -------------------------------------------------------------

  /** Control without a target, drop and select, the null test; comparisons, arithmetic and conversions. */
  lemma PlainInstruction(code: byte, s: seq<byte>)
    requires code in {0x00, 0x01, 0x05, 0x0B, 0x0F, 0x1A, 0x1B, 0xD1} || 0x45 <= code <= 0xC4
    ensures ReadInstruction()([code] + s) == Got(Instruction(Plain(code), []), s)
  {
    hide ReadInstruction, ReadOpcode, ReadOperands;
    PlainOpcode(code, s);
    AfterOpcode([code] + s);
    NoOperands(s);
  }

  // ---- the function index -------------------------------------------------------------------

  /** call and ref.func name a function. */
  lemma CallReads(code: byte, s: seq<byte>)
    requires code == 0x10 || code == 0xD2
    ensures ReadInstruction()([code] + s) == As(Plain(code), ReadU32(s), ACallee())
  {
    hide ReadInstruction, ReadOpcode, ReadOperands, ReadU32;
    PlainOpcode(code, s);
    AfterOpcode([code] + s);
    OneOperand(FunctionIndex, s);
  }

  /** The copy names the same function at its new index, whatever follows. */
  lemma CallIsRenumbered(r: Renumbering, code: byte, index: nat, t: seq<byte>)
    requires code == 0x10 || code == 0xD2
    requires index < 0x1_0000_0000
    ensures ReadInstruction()([code] + Encode(index) + t) == Got(Instruction(Plain(code), [Callee(index)]), t)
    ensures CopyInstruction(r)([code] + Encode(index) + t) == Got([code] + Encode(NewIndex(r, index)), t)
  {
    hide ReadInstruction, CopyInstruction, ReadOpcode, CopyOperands, ReadU32, Encode;
    AppendAssociates([code], Encode(index), t);
    U32RoundTrip(index, t);
    CallReads(code, Encode(index) + t);
    PlainOpcode(code, Encode(index) + t);
    CopyAfterOpcode(r, [code] + (Encode(index) + t));
    UsedAndRest([code], Encode(index) + t);
    OneCopied(r, FunctionIndex, Encode(index) + t);
  }

  lemma CopyAfterOpcode(r: Renumbering, s: seq<byte>)
    ensures CopyInstruction(r)(s) == WithCopies(r, s, ReadOpcode()(s))
  {
    hide ReadOpcode, CopyOperands, Kinds;
  }

  lemma OneCopied(r: Renumbering, kind: Immediate, s: seq<byte>)
    ensures CopyOperands(r, [kind])(s) == CopyOperand(r, kind)(s)
  {
    hide CopyOperand;
    assert [kind][1..] == [];
    if CopyOperand(r, kind)(s).Got? {
      assert CopyOperand(r, kind)(s).value + [] == CopyOperand(r, kind)(s).value;
    }
  }

  // ---- indices, labels, alignments, offsets ----------------------------------------------------

  /** br, br_if, the local, global and table accesses, memory.size and memory.grow: one number. */
  lemma NumberReads(code: byte, s: seq<byte>)
    requires code in {0x0C, 0x0D, 0x3F, 0x40} || 0x20 <= code <= 0x26
    ensures ReadInstruction()([code] + s) == As(Plain(code), ReadU32(s), ANumber())
  {
    hide ReadInstruction, ReadOpcode, ReadOperands, ReadU32;
    PlainOpcode(code, s);
    AfterOpcode([code] + s);
    OneOperand(U32Operand, s);
  }

  /** call_indirect, loads and stores: two numbers. */
  lemma TwoNumbersRead(code: byte, s: seq<byte>)
    requires code == 0x11 || 0x28 <= code <= 0x3E
    ensures ReadInstruction()([code] + s)
         == As(Plain(code), Then32(s), TwoNumbers())
  {
    hide ReadInstruction, ReadOpcode, ReadOperands, ReadU32;
    PlainOpcode(code, s);
    AfterOpcode([code] + s);
    TwoOperands(U32Operand, U32Operand, s);
  }

  // ---- constants and block types ----------------------------------------------------------------

  /** block, loop and if: a signed 33-bit block type; i32.const and i64.const: a signed number of their width. */
  lemma SignedReads(code: byte, s: seq<byte>)
    requires code in {0x02, 0x03, 0x04, 0x41, 0x42}
    ensures ReadInstruction()([code] + s)
         == As(Plain(code), ReadInteger(s, if code == 0x41 then 32 else if code == 0x42 then 64 else 33, true),
               ASigned())
  {
    hide ReadInstruction, ReadOpcode, ReadOperands, ReadInteger;
    PlainOpcode(code, s);
    AfterOpcode([code] + s);
    OneOperand(if code == 0x41 then S32 else if code == 0x42 then S64 else S33, s);
  }

  /** f32.const: four bytes; f64.const: eight. */
  lemma FloatReads(code: byte, s: seq<byte>)
    requires code == 0x43 || code == 0x44
    ensures var width := if code == 0x43 then 4 else 8;
      ReadInstruction()([code] + s)
      == if |s| >= width then Got(Instruction(Plain(code), [Bits(s[..width])]), s[width..]) else Bad
  {
    hide ReadInstruction, ReadOpcode, ReadOperands;
    PlainOpcode(code, s);
    AfterOpcode([code] + s);
    OneOperand(if code == 0x43 then F32 else F64, s);
  }

  // ---- value types and vectors --------------------------------------------------------------------

  /** The seven value types: the numbers, the vector and the two references. */
  lemma ValueTypeReads(s: seq<byte>)
    ensures ValType()(s)
         == if s != [] && s[0] in {0x7F, 0x7E, 0x7D, 0x7C, 0x7B, 0x70, 0x6F} then Got(s[0], s[1..]) else Bad
  {
  }

  /** ref.null: a type; select with types: a vector of them. */
  lemma TypesRead(code: byte, s: seq<byte>)
    requires code == 0xD0 || code == 0x1C
    ensures code == 0xD0 ==>
              ReadInstruction()([code] + s) == As(Plain(code), ValType()(s), AType())
    ensures code == 0x1C ==>
              ReadInstruction()([code] + s) == As(Plain(code), Vector(ValType())(s), SomeTypes())
  {
    hide ReadInstruction, ReadOpcode, ReadOperands, ValType, Vector;
    PlainOpcode(code, s);
    AfterOpcode([code] + s);
    OneOperand(if code == 0xD0 then ReferenceType else TypeVector, s);
  }

  /** br_table: a vector of labels, then one more. */
  lemma BranchTableReads(s: seq<byte>)
    ensures ReadInstruction()([0x0E] + s)
         == match Vector(U32())(s)
            case Bad => Bad
            case Got(labels, rest) => As(Plain(0x0E), ReadU32(rest), LabelsAnd(labels))
  {
    hide ReadInstruction, ReadOpcode, ReadOperands, Vector, ReadU32;
    PlainOpcode(0x0E, s);
    AfterOpcode([0x0E] + s);
    TwoOperands(LabelVector, U32Operand, s);
  }

  // ---- the prefixed opcodes ------------------------------------------------------------------------

  /** The saturating truncations, then the bulk memory and table instructions with two numbers or one. */
  lemma PrefixedReads(s: seq<byte>)
    ensures ReadInstruction()([0xFC] + s)
         == match ReadU32(s)
            case Bad => Bad
            case Got(sub, rest) =>
              if sub <= 7 then Got(Instruction(Prefixed(sub), []), rest)
              else if sub in {0x08, 0x0A, 0x0C, 0x0E}
              then As(Prefixed(sub), Then32(rest), TwoNumbers())
              else if sub in {0x09, 0x0B, 0x0D, 0x0F, 0x10, 0x11}
              then As(Prefixed(sub), ReadU32(rest), ANumber())
              else Bad
  {
    hide ReadInstruction, ReadOpcode, ReadOperands, ReadU32;
    PrefixedOpcode(s);
    AfterOpcode([0xFC] + s);
    if ReadU32(s).Got? {
      var sub, rest := ReadU32(s).value, ReadU32(s).rest;
      if sub <= 7 {
        NoOperands(rest);
      } else if sub in {0x08, 0x0A, 0x0C, 0x0E} {
        TwoOperands(U32Operand, U32Operand, rest);
      } else if sub in {0x09, 0x0B, 0x0D, 0x0F, 0x10, 0x11} {
        OneOperand(U32Operand, rest);
      }
    }
  }

  // ---- everything else --------------------------------------------------------------------------------

  const READ_OPCODES: set<byte> :=
    {0x00, 0x01, 0x02, 0x03, 0x04, 0x05, 0x0B, 0x0C, 0x0D, 0x0E, 0x0F, 0x10, 0x11, 0x1A, 0x1B, 0x1C,
     0xD0, 0xD1, 0xD2, 0xFC}

  /** No other opcode is read, and nothing is read from no bytes. */
  lemma OtherOpcodesAreRefused(code: byte, s: seq<byte>)
    requires code !in READ_OPCODES && !(0x20 <= code <= 0x26) && !(0x28 <= code <= 0xC4)
    ensures ReadInstruction()([code] + s) == Bad && ReadInstruction()([]) == Bad
  {
    hide ReadInstruction, ReadOpcode, ReadOperands;
    PlainOpcode(code, s);
    AfterOpcode([code] + s);
    AfterOpcode([]);
    NoOpcode();
  }

  lemma NoOpcode()
    ensures ReadOpcode()([]) == Bad
  {
  }

  /** Only call and ref.func name a function, and they name nothing else. */
  lemma OnlyCallsNameFunctions(s: seq<byte>)
    requires ReadInstruction()(s).Got?
    ensures var i := ReadInstruction()(s).value;
      if i.opcode == Plain(0x10) || i.opcode == Plain(0xD2)
      then |i.operands| == 1 && i.operands[0].Callee?
      else forall k :: 0 <= k < |i.operands| ==> !i.operands[k].Callee?
  {
    hide ReadInstruction, ReadOpcode, ReadOperand;
    AfterOpcode(s);
    var opcode, rest := ReadOpcode()(s).value, ReadOpcode()(s).rest;
    if opcode == Plain(0x10) || opcode == Plain(0xD2) {
      OneOperand(FunctionIndex, rest);
      IndexIsCallee(rest);
    } else {
      hide ReadOperands;
      NoFunctionIndex(opcode);
      NoCallees(Kinds(opcode), rest);
    }
  }

  lemma IndexIsCallee(s: seq<byte>)
    ensures ReadOperand(FunctionIndex)(s).Got? ==> ReadOperand(FunctionIndex)(s).value.Callee?
  {
  }

  lemma NoFunctionIndex(opcode: Opcode)
    requires opcode != Plain(0x10) && opcode != Plain(0xD2)
    ensures FunctionIndex !in Kinds(opcode)
  {
  }

  lemma {:induction false} NoCallees(kinds: seq<Immediate>, s: seq<byte>)
    requires FunctionIndex !in kinds && ReadOperands(kinds)(s).Got?
    ensures forall k :: 0 <= k < |ReadOperands(kinds)(s).value| ==> !ReadOperands(kinds)(s).value[k].Callee?
  {
    if kinds == [] {
    } else {
      hide ReadOperand;
      NotCallee(kinds[0], s);
      NoCallees(kinds[1..], ReadOperand(kinds[0])(s).rest);
    }
  }

  /** An instruction that names no function is copied byte for byte. */
  lemma OthersAreCopied(r: Renumbering, s: seq<byte>)
    requires ReadInstruction()(s).Got?
    requires ReadInstruction()(s).value.opcode !in {Plain(0x10), Plain(0xD2)}
    ensures var rest := ReadInstruction()(s).rest;
      |rest| <= |s| && CopyInstruction(r)(s) == Got(Used(s, rest), rest)
  {
    hide ReadInstruction, CopyInstruction, ReadOpcode, ReadOperands, CopyOperands, Exact;
    AfterOpcode(s);
    CopyAfterOpcode(r, s);
    OpcodeIsExact();
    OpcodeSplits(s);
    var opcode, rest := ReadOpcode()(s).value, ReadOpcode()(s).rest;
    NoFunctionIndex(opcode);
    OthersVerbatim(r, Kinds(opcode), rest);
    var left := ReadOperands(Kinds(opcode))(rest).rest;
    UsedInParts(s, rest, left);
  }

  lemma OpcodeSplits(s: seq<byte>)
    requires Exact(ReadOpcode()) && ReadOpcode()(s).Got?
    ensures |ReadOpcode()(s).rest| <= |s| && s == Used(s, ReadOpcode()(s).rest) + ReadOpcode()(s).rest
  {
    assert ExactAt(ReadOpcode(), s);
  }

  lemma UsedInParts(s: seq<byte>, rest: seq<byte>, left: seq<byte>)
    requires |left| <= |rest| <= |s| && s == Used(s, rest) + rest && rest == Used(rest, left) + left
    ensures Used(s, rest) + Used(rest, left) == Used(s, left) && s == Used(s, left) + left
  {
  }

  lemma {:induction false} OthersVerbatim(r: Renumbering, kinds: seq<Immediate>, s: seq<byte>)
    requires FunctionIndex !in kinds && ReadOperands(kinds)(s).Got?
    ensures var rest := ReadOperands(kinds)(s).rest;
      |rest| <= |s| && s == Used(s, rest) + rest && CopyOperands(r, kinds)(s) == Got(Used(s, rest), rest)
  {
    if kinds == [] {
    } else {
      hide ReadOperand, Used;
      var kind := kinds[0];
      assert ReadOperand(kind)(s).Got?;
      var first := ReadOperand(kind)(s).rest;
      OneVerbatim(r, kind, s);
      OthersVerbatim(r, kinds[1..], first);
      UsedInParts(s, first, ReadOperands(kinds)(s).rest);
    }
  }

  lemma OneVerbatim(r: Renumbering, kind: Immediate, s: seq<byte>)
    requires kind != FunctionIndex && ReadOperand(kind)(s).Got?
    ensures var rest := ReadOperand(kind)(s).rest;
      |rest| <= |s| && s == Used(s, rest) + rest && CopyOperand(r, kind)(s) == Got(Used(s, rest), rest)
  {
    hide ReadOperand, Used;
    OperandIsExact(kind);
    assert ExactAt(ReadOperand(kind), s);
  }

  // ---- constant expressions -----------------------------------------------------------------------------

  /** Constants, global.get, ref.null and ref.func up to the first `end`; nothing else. */
  lemma ConstantExpressionReads(s: seq<byte>)
    ensures ConstantExpression()(s)
         == match ReadInstruction()(s)
            case Bad => Bad
            case Got(i, rest) =>
              if i.opcode == Plain(0x0B) then Got([i], rest)
              else if i.opcode in {Plain(0x41), Plain(0x42), Plain(0x43), Plain(0x44), Plain(0x23), Plain(0xD0), Plain(0xD2)}
              then (match ConstantExpression()(rest)
                    case Bad => Bad
                    case Got(items, left) => Got([i] + items, left))
              else Bad
  {
    hide ReadInstruction;
    InstructionProgresses();
  }
}
