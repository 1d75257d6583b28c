/** The instructions of a function body, and the renumbering of the functions they name. */
module WasmInstructions {
  import opened Bytes
  import opened Wrappers
  import opened Sequences
  import opened Leb128
  import opened WasmBinary
  import opened WasmCopying

  // ---- renumbering --------------------------------------------------------------------------

  datatype Removal = Removal(imported: nat, first: nat, second: nat)

  predicate InOrder(r: Removal) {
    r.first < r.second < r.imported < TWO_32
  }

  /** Two removed imports, by ascending function index, among `imported` function imports. */
  type Renumbering = r: Removal | InOrder(r) witness Removal(2, 0, 1)

  /** Removed indices move just past the shorter import space; a kept one drops by the removed ones below it. */
  function NewIndex(r: Renumbering, index: nat): nat {
    if index == r.first then r.imported - 2
    else if index == r.second then r.imported - 1
    else if index < r.imported then
      index - (if r.first < index then 1 else 0) - (if r.second < index then 1 else 0)
    else index
  }

  /** Where the function now at an index was. */
  function OldIndex(r: Renumbering, index: nat): nat {
    if index < r.first then index
    else if index < r.second - 1 then index + 1
    else if index < r.imported - 2 then index + 2
    else if index == r.imported - 2 then r.first
    else if index == r.imported - 1 then r.second
    else index
  }

  function Renumber(r: Renumbering): nat -> nat {
    (index: nat) => NewIndex(r, index)
  }

  /** A bijection of every index space that holds the imports. */
  lemma RenumberingIsBijection(r: Renumbering, count: nat, i: nat, j: nat)
    requires r.imported <= count
    ensures NewIndex(r, i) < count <==> i < count
    ensures OldIndex(r, NewIndex(r, i)) == i && NewIndex(r, OldIndex(r, i)) == i
    ensures NewIndex(r, i) == NewIndex(r, j) <==> i == j
  {
    assert forall k: nat :: OldIndex(r, NewIndex(r, k)) == k;
  }

  predicate Kept(r: Renumbering, index: nat) {
    index < r.imported && index != r.first && index != r.second
  }

  /** Kept imports stay imports in their order; the removed ones become definitions; the others stay where they are. */
  lemma RenumberingOrder(r: Renumbering, i: nat, j: nat)
    ensures Kept(r, i) ==> NewIndex(r, i) < r.imported - 2
    ensures Kept(r, i) && Kept(r, j) ==> (NewIndex(r, i) < NewIndex(r, j) <==> i < j)
    ensures r.imported - 2 <= NewIndex(r, i) < r.imported <==> i == r.first || i == r.second
    ensures r.imported <= i ==> NewIndex(r, i) == i
  {
    if i < r.imported {
      assert OldIndex(r, NewIndex(r, i)) == i;
    }
  }

  // ---- opcodes and operands -------------------------------------------------------------------

  datatype Immediate = U32Operand | FunctionIndex | S32 | S33 | S64 | ReferenceType | F32 | F64 | LabelVector | TypeVector

  datatype Opcode = Plain(code: byte) | Prefixed(sub: nat)

  datatype Operand =
    | Number(value: int)
    | Callee(index: nat)
    | ValueType(code: byte)
    | Bits(bits: seq<byte>)
    | Labels(labels: seq<nat>)
    | Types(types: seq<byte>)

  datatype Instruction = Instruction(opcode: Opcode, operands: seq<Operand>)

  const PREFIX: byte := 0xFC
  const END := Plain(0x0B)

  /** The immediates of each opcode handled. */
  function ImmediatesOf(opcode: Opcode): Option<seq<Immediate>> {
    match opcode
    case Plain(code) => ImmediatesOfCode(code)
    case Prefixed(sub) =>
      if sub < 0x08 then Some([])
      else if sub in {0x08, 0x0A, 0x0C, 0x0E} then Some([U32Operand, U32Operand])
      else if sub in {0x09, 0x0B, 0x0D, 0x0F, 0x10, 0x11} then Some([U32Operand])
      else None
  }

  function ImmediatesOfCode(code: byte): Option<seq<Immediate>> {
    if code in {0x00, 0x01, 0x05, 0x0B, 0x0F, 0x1A, 0x1B, 0xD1} || 0x45 <= code < 0xC5 then Some([])
    else if 0x02 <= code < 0x05 then Some([S33])
    else if code == 0x0C || code == 0x0D then Some([U32Operand])
    else if code == 0x0E then Some([LabelVector, U32Operand])
    else if code == 0x10 || code == 0xD2 then Some([FunctionIndex])
    else if code == 0x11 then Some([U32Operand, U32Operand])
    else if code == 0x1C then Some([TypeVector])
    else if 0x20 <= code < 0x27 || code == 0x3F || code == 0x40 then Some([U32Operand])
    else if 0x28 <= code < 0x3F then Some([U32Operand, U32Operand])
    else if code == 0x41 then Some([S32])
    else if code == 0x42 then Some([S64])
    else if code == 0x43 then Some([F32])
    else if code == 0x44 then Some([F64])
    else if code == 0xD0 then Some([ReferenceType])
    else None
  }

  /** Allowed in a constant expression before its end. */
  predicate IsConstant(opcode: Opcode) {
    opcode.Plain? && opcode.code in {0x41, 0x42, 0x43, 0x44, 0x23, 0xD0, 0xD2}
  }

  // ---- reading ---------------------------------------------------------------------------------

  function ToPrefixed(): nat -> Opcode {
    (sub: nat) => Prefixed(sub)
  }

  function SubOpcode(): byte -> Parser<Opcode> {
    (code: byte) => if code == PREFIX then Map(U32(), ToPrefixed()) else Return(Plain(code))
  }

  function Known(): Opcode -> bool {
    (opcode: Opcode) => ImmediatesOf(opcode).Some?
  }

  function ReadOpcode(): Parser<Opcode> {
    Where(Bind(AnyByte(), SubOpcode()), Known())
  }

  function ToNumber(): int -> Operand {
    (value: int) => Number(value)
  }

  function NatToNumber(): nat -> Operand {
    (value: nat) => Number(value)
  }

  function ToCallee(): nat -> Operand {
    (index: nat) => Callee(index)
  }

  function ToType(): byte -> Operand {
    (code: byte) => ValueType(code)
  }

  function ToBits(): seq<byte> -> Operand {
    (bits: seq<byte>) => Bits(bits)
  }

  function ToLabels(): seq<nat> -> Operand {
    (labels: seq<nat>) => Labels(labels)
  }

  function ToTypes(): seq<byte> -> Operand {
    (types: seq<byte>) => Types(types)
  }

  function ReadOperand(kind: Immediate): Parser<Operand> {
    match kind
    case U32Operand => Map(U32(), NatToNumber())
    case FunctionIndex => Map(U32(), ToCallee())
    case S32 => Map(Signed(32), ToNumber())
    case S33 => Map(Signed(33), ToNumber())
    case S64 => Map(Signed(64), ToNumber())
    case ReferenceType => Map(ValType(), ToType())
    case F32 => Map(Raw(4), ToBits())
    case F64 => Map(Raw(8), ToBits())
    case LabelVector => Map(Vector(U32()), ToLabels())
    case TypeVector => Map(Vector(ValType()), ToTypes())
  }

  function Prepend<T>(): ((T, seq<T>)) -> seq<T> {
    (pair: (T, seq<T>)) => [pair.0] + pair.1
  }

  function ReadOperands(kinds: seq<Immediate>): Parser<seq<Operand>> {
    if kinds == [] then Return([])
    else Map(Pair(ReadOperand(kinds[0]), ReadOperands(kinds[1..])), Prepend())
  }

  function Operation(opcode: Opcode): seq<Operand> -> Instruction {
    (operands: seq<Operand>) => Instruction(opcode, operands)
  }

  function Kinds(opcode: Opcode): seq<Immediate> {
    match ImmediatesOf(opcode)
    case None => []
    case Some(kinds) => kinds
  }

  function ReadAfter(): Opcode -> Parser<Instruction> {
    (opcode: Opcode) => Map(ReadOperands(Kinds(opcode)), Operation(opcode))
  }

  function ReadInstruction(): Parser<Instruction> {
    Bind(ReadOpcode(), ReadAfter())
  }

  // ---- copying ---------------------------------------------------------------------------------

  function CopyOperand(r: Renumbering, kind: Immediate): Copier {
    if kind == FunctionIndex then Recode(U32(), Renumber(r)) else Verbatim(ReadOperand(kind))
  }

  function CopyOperands(r: Renumbering, kinds: seq<Immediate>): Copier {
    if kinds == [] then Return([])
    else CopyPair(CopyOperand(r, kinds[0]), CopyOperands(r, kinds[1..]))
  }

  function CopyAfter(r: Renumbering): Opcode -> Copier {
    (opcode: Opcode) => CopyOperands(r, Kinds(opcode))
  }

  /** One instruction, its function index renumbered and everything else as it is. */
  function CopyInstruction(r: Renumbering): Copier {
    CopyBind(ReadOpcode(), CopyAfter(r))
  }

  /** What the copy means. */
  function RenumberOperand(r: Renumbering): Operand -> Operand {
    (operand: Operand) => if operand.Callee? then Callee(NewIndex(r, operand.index)) else operand
  }

  function RenumberInstruction(r: Renumbering): Instruction -> Instruction {
    (i: Instruction) => Instruction(i.opcode, Changed(RenumberOperand(r), i.operands))
  }

  lemma OpcodeIsExact()
    ensures Exact(ReadOpcode())
  {
    AnyByteIsExact();
    U32IsExact();
    forall code: byte ensures Exact(SubOpcode()(code)) {
      MapIsExact(U32(), ToPrefixed());
      ReturnPrints(Plain(code));
    }
    BindIsExact(AnyByte(), SubOpcode());
    WhereIsExact(Bind(AnyByte(), SubOpcode()), Known());
  }

  lemma OperandIsExact(kind: Immediate)
    ensures Exact(ReadOperand(kind))
  {
    match kind
    case U32Operand =>
      U32IsExact();
      MapIsExact(U32(), NatToNumber());
    case FunctionIndex =>
      U32IsExact();
      MapIsExact(U32(), ToCallee());
    case S32 =>
      SignedIsExact(32);
      MapIsExact(Signed(32), ToNumber());
    case S33 =>
      SignedIsExact(33);
      MapIsExact(Signed(33), ToNumber());
    case S64 =>
      SignedIsExact(64);
      MapIsExact(Signed(64), ToNumber());
    case ReferenceType =>
      ByteInIsExact(VALUE_TYPES);
      MapIsExact(ValType(), ToType());
    case F32 =>
      RawIsExact(4);
      MapIsExact(Raw(4), ToBits());
    case F64 =>
      RawIsExact(8);
      MapIsExact(Raw(8), ToBits());
    case LabelVector =>
      U32IsExact();
      VectorIsExact(U32());
      MapIsExact(Vector(U32()), ToLabels());
    case TypeVector =>
      ByteInIsExact(VALUE_TYPES);
      VectorIsExact(ValType());
      MapIsExact(Vector(ValType()), ToTypes());
  }

  lemma RenumberedU32(r: Renumbering)
    ensures Preserves(U32(), Recode(U32(), Renumber(r)), Renumber(r))
  {
    forall s | U32()(s).Got? ensures RecodesAt(U32(), Renumber(r), s) {
      U32Prints(NewIndex(r, U32()(s).value));
    }
    RecodePreserves(U32(), Renumber(r));
  }

  lemma OperandIsPreserved(r: Renumbering, kind: Immediate)
    ensures Preserves(ReadOperand(kind), CopyOperand(r, kind), RenumberOperand(r))
  {
    if kind == FunctionIndex {
      RenumberedU32(r);
      PreservesMap(U32(), Recode(U32(), Renumber(r)), Renumber(r), ToCallee(), RenumberOperand(r));
    } else {
      OperandIsExact(kind);
      VerbatimPreserves(ReadOperand(kind));
      forall s ensures PreservesAt(ReadOperand(kind), CopyOperand(r, kind), RenumberOperand(r), None, s) {
        assert PreservesAt(ReadOperand(kind), Verbatim(ReadOperand(kind)), Same(), None, s);
        NotCallee(kind, s);
      }
    }
  }

  lemma NotCallee(kind: Immediate, s: seq<byte>)
    requires kind != FunctionIndex
    ensures ReadOperand(kind)(s).Got? ==> !ReadOperand(kind)(s).value.Callee?
  {
  }

  lemma {:induction false} OperandsArePreserved(r: Renumbering, kinds: seq<Immediate>)
    ensures Preserves(ReadOperands(kinds), CopyOperands(r, kinds), Each(RenumberOperand(r)))
  {
    var f := RenumberOperand(r);
    if kinds == [] {
      ReturnPrints<seq<Operand>>([]);
      forall s ensures PreservesAt(Return<seq<Operand>>([]), Return<seq<byte>>([]), Each(f), None, s) {
        assert Changed(f, []) == [];
      }
    } else {
      OperandIsPreserved(r, kinds[0]);
      OperandsArePreserved(r, kinds[1..]);
      var p, q := ReadOperand(kinds[0]), ReadOperands(kinds[1..]);
      var c, d := CopyOperand(r, kinds[0]), CopyOperands(r, kinds[1..]);
      PreservesPair(p, q, c, d, f, Each(f));
      forall pair: (Operand, seq<Operand>) ensures Prepend()(Both(f, Each(f))(pair)) == Each(f)(Prepend()(pair)) {
        ChangedPush(f, pair.0, pair.1);
      }
      PreservesMap(Pair(p, q), CopyPair(c, d), Both(f, Each(f)), Prepend(), Each(f));
    }
  }

  /** A copied instruction is read back with the same opcode and operands, its function index renumbered. */
  lemma InstructionIsPreserved(r: Renumbering)
    ensures Preserves(ReadInstruction(), CopyInstruction(r), RenumberInstruction(r))
  {
    OpcodeIsExact();
    forall opcode: Opcode ensures Preserves(ReadAfter()(opcode), CopyAfter(r)(opcode), RenumberInstruction(r)) {
      OperandsArePreserved(r, Kinds(opcode));
      AfterIsPreserved(r, opcode);
    }
    PreservesBind(ReadOpcode(), ReadAfter(), CopyAfter(r), RenumberInstruction(r));
  }

  lemma AfterIsPreserved(r: Renumbering, opcode: Opcode)
    requires Preserves(ReadOperands(Kinds(opcode)), CopyOperands(r, Kinds(opcode)), Each(RenumberOperand(r)))
    ensures Preserves(ReadAfter()(opcode), CopyAfter(r)(opcode), RenumberInstruction(r))
  {
    hide *;
    OperationCommutes(r, opcode);
    PreservesMap(ReadOperands(Kinds(opcode)), CopyOperands(r, Kinds(opcode)), Each(RenumberOperand(r)),
                 Operation(opcode), RenumberInstruction(r));
    ReadAfterIs(r, opcode);
  }

  lemma OperationCommutes(r: Renumbering, opcode: Opcode)
    ensures forall operands ::
              Operation(opcode)(Each(RenumberOperand(r))(operands)) == RenumberInstruction(r)(Operation(opcode)(operands))
  {
  }

  lemma ReadAfterIs(r: Renumbering, opcode: Opcode)
    ensures ReadAfter()(opcode) == Map(ReadOperands(Kinds(opcode)), Operation(opcode))
    ensures CopyAfter(r)(opcode) == CopyOperands(r, Kinds(opcode))
  {
  }

  lemma InstructionProgresses()
    ensures Progresses(ReadInstruction())
  {
    OpcodeIsExact();
    forall s | ReadInstruction()(s).Got? ensures |ReadInstruction()(s).rest| < |s| {
      assert ExactAt(ReadOpcode(), s);
      var opcode, rest := ReadOpcode()(s).value, ReadOpcode()(s).rest;
      OperandsUse(Kinds(opcode), rest);
      OpcodeUses(s);
    }
  }

  lemma OpcodeUses(s: seq<byte>)
    requires ReadOpcode()(s).Got?
    ensures |ReadOpcode()(s).rest| < |s|
  {
    U32IsExact();
    assert Bind(AnyByte(), SubOpcode())(s).Got?;
    assert AnyByte()(s).Got?;
    var code, rest := AnyByte()(s).value, AnyByte()(s).rest;
    assert SubOpcode()(code)(rest).Got?;
    if code == PREFIX {
      assert U32()(rest).Got?;
      assert ExactAt(U32(), rest);
    }
  }

  lemma {:induction false} OperandsUse(kinds: seq<Immediate>, s: seq<byte>)
    ensures ReadOperands(kinds)(s).Got? ==> |ReadOperands(kinds)(s).rest| <= |s|
  {
    if kinds != [] && ReadOperand(kinds[0])(s).Got? {
      OperandIsExact(kinds[0]);
      assert ExactAt(ReadOperand(kinds[0]), s);
      OperandsUse(kinds[1..], ReadOperand(kinds[0])(s).rest);
    }
  }

  // ---- expressions -----------------------------------------------------------------------------

  /** Every instruction to the end of a body. */
  function Expression(): Reading<seq<Instruction>> {
    InstructionProgresses();
    (s: seq<byte>) => All(ReadInstruction(), s)
  }

  function CopyExpression(r: Renumbering): Reading<seq<byte>> {
    CopyInstructionProgresses(r);
    (s: seq<byte>) =>
      match All(CopyInstruction(r), s)
      case None => None
      case Some(parts) => Some(Concat(parts))
  }

  function Ends(): Instruction -> bool {
    (i: Instruction) => i.opcode == END
  }

  function Constant(): Instruction -> bool {
    (i: Instruction) => IsConstant(i.opcode)
  }

  /** Constant instructions, the last of them the closing one. */
  function ConstantExpression(): Parser<seq<Instruction>> {
    InstructionProgresses();
    (s: seq<byte>) => ReadUntil(ReadInstruction(), Ends(), Constant(), s)
  }

  function CopyConstantExpression(r: Renumbering): Copier {
    InstructionProgresses();
    (s: seq<byte>) => CopyUntil(ReadInstruction(), CopyInstruction(r), Ends(), Constant(), s)
  }

  lemma CopyInstructionProgresses(r: Renumbering)
    ensures Progresses(CopyInstruction(r))
  {
    InstructionProgresses();
    InstructionIsPreserved(r);
    CopyProgresses(ReadInstruction(), CopyInstruction(r), RenumberInstruction(r));
  }

  /** A rewritten body is read back as the same instructions, every function index renumbered. */
  lemma ExpressionIsPreserved(r: Renumbering)
    ensures PreservesWhole(Expression(), CopyExpression(r), Each(RenumberInstruction(r)))
  {
    InstructionProgresses();
    InstructionIsPreserved(r);
    CopyInstructionProgresses(r);
    forall s ensures PreservesWholeAt(Expression(), CopyExpression(r), Each(RenumberInstruction(r)), s) {
      AllArePreserved(ReadInstruction(), CopyInstruction(r), RenumberInstruction(r), s);
    }
  }

  lemma ConstantExpressionIsPreserved(r: Renumbering)
    ensures Preserves(ConstantExpression(), CopyConstantExpression(r), Each(RenumberInstruction(r)))
  {
    InstructionProgresses();
    InstructionIsPreserved(r);
    forall s ensures PreservesAt(ConstantExpression(), CopyConstantExpression(r), Each(RenumberInstruction(r)), None, s) {
      UntilIsPreserved(ReadInstruction(), CopyInstruction(r), RenumberInstruction(r), Ends(), Constant(), s);
    }
  }
}
