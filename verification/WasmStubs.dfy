/** The bodies put in place of the removed imports: what their bytes decode to, and what they do. */
module WasmStubs {
  import opened Bytes
  import opened Wrappers
  import opened Leb128
  import opened WasmBinary
  import opened WasmCopying
  import opened WasmInstructions
  import opened WasmModule
  import opened WasmImports

  // ---- the bytes -------------------------------------------------------------------------------

  function StubExpression(name: Text): seq<byte> {
    if name == ENVIRON_SIZES_GET then
      [0x20, 0x00, 0x41, 0x00, 0x36, 0x02, 0x00,
       0x20, 0x01, 0x41, 0x00, 0x36, 0x02, 0x00,
       0x41, 0x00, 0x0B]
    else
      [0x41, 0x00, 0x0B]
  }

  /** No locals, then the expression. */
  function StubBody(name: Text): seq<byte> {
    EncodeSized(Encode(0) + StubExpression(name))
  }

  // ---- the instructions --------------------------------------------------------------------------

  function LocalGet(local: nat): Instruction {
    Instruction(Plain(0x20), [Number(local)])
  }

  function Const(value: int): Instruction {
    Instruction(Plain(0x41), [Number(value)])
  }

  function Store(align: nat, offset: nat): Instruction {
    Instruction(Plain(0x36), [Number(align), Number(offset)])
  }

  const FINISH := Instruction(END, [])

  function ClearWord(local: nat): seq<Instruction> {
    [LocalGet(local), Const(0), Store(2, 0)]
  }

  function StubCode(name: Text): seq<Instruction> {
    if name == ENVIRON_SIZES_GET then ClearWord(0) + ClearWord(1) + [Const(0), FINISH] else [Const(0), FINISH]
  }

  // ---- what the bytes decode to --------------------------------------------------------------------

  lemma InstructionPrints(code: byte, bytes: seq<byte>, operands: seq<Operand>)
    requires code != PREFIX && ImmediatesOfCode(code).Some?
    requires Prints(ReadOperands(Kinds(Plain(code))), bytes, operands)
    ensures Prints(ReadInstruction(), [code] + bytes, Instruction(Plain(code), operands))
  {
    AnyBytePrints(code);
    ReturnPrints(Plain(code));
    BindPrints(AnyByte(), SubOpcode(), [code], code, [], Plain(code));
    assert [code] + [] == [code];
    WherePrints(Bind(AnyByte(), SubOpcode()), Known(), [code], Plain(code));
    MapPrints(ReadOperands(Kinds(Plain(code))), Operation(Plain(code)), bytes, operands);
    BindPrints(ReadOpcode(), ReadAfter(), [code], Plain(code), bytes, Instruction(Plain(code), operands));
  }

  lemma NoOperandsPrint()
    ensures Prints(ReadOperands([]), [], [])
  {
    ReturnPrints<seq<Operand>>([]);
  }

  lemma OperandsPrint(kind: Immediate, kinds: seq<Immediate>, first: seq<byte>, operand: Operand,
                      rest: seq<byte>, operands: seq<Operand>)
    requires Prints(ReadOperand(kind), first, operand) && Prints(ReadOperands(kinds), rest, operands)
    ensures Prints(ReadOperands([kind] + kinds), first + rest, [operand] + operands)
  {
    hide ReadOperand, Prints;
    PairPrints(ReadOperand(kind), ReadOperands(kinds), first, operand, rest, operands);
    MapPrints(Pair(ReadOperand(kind), ReadOperands(kinds)), Prepend(), first + rest, (operand, operands));
    assert ([kind] + kinds)[1..] == kinds;
  }

  lemma SmallNumberPrints(n: nat)
    requires n < 128
    ensures Prints(ReadOperand(U32Operand), [n], Number(n))
  {
    U32Prints(n);
    MapPrints(U32(), NatToNumber(), [n], n);
  }

  lemma ZeroPrints()
    ensures Prints(ReadOperand(S32), [0], Number(0))
  {
    forall t: seq<byte> ensures Signed(32)([0] + t) == Got(0, t) {
      assert ReadGroups([], [0] + t, 5) == Got([0], t) by {
        assert ([0] + t)[1..] == t;
        assert [] + [0] == [0];
      }
      assert Pow2(31) >= 1;
    }
    MapPrints(Signed(32), ToNumber(), [0], 0);
  }

  lemma StubInstructionsPrint(local: nat)
    requires local < 128
    ensures Prints(ReadInstruction(), [0x20, local], LocalGet(local))
    ensures Prints(ReadInstruction(), [0x41, 0x00], Const(0))
    ensures Prints(ReadInstruction(), [0x36, 0x02, 0x00], Store(2, 0))
    ensures Prints(ReadInstruction(), [0x0B], FINISH)
  {
    hide Prints, ReadOperand, ReadOperands, ReadInstruction;
    NoOperandsPrint();
    SmallNumberPrints(local);
    SmallNumberPrints(0);
    SmallNumberPrints(2);
    ZeroPrints();
    OneOperandPrints(U32Operand, [local], Number(local));
    OneOperandPrints(S32, [0], Number(0));
    OneOperandPrints(U32Operand, [0], Number(0));
    OperandsPrint(U32Operand, [U32Operand], [2], Number(2), [0], [Number(0)]);
    assert [U32Operand] + [U32Operand] == [U32Operand, U32Operand] && [2] + [0] == [2, 0];
    assert [Number(2)] + [Number(0)] == [Number(2), Number(0)];
    InstructionPrints(0x20, [local], [Number(local)]);
    InstructionPrints(0x41, [0], [Number(0)]);
    InstructionPrints(0x36, [2, 0], [Number(2), Number(0)]);
    InstructionPrints(0x0B, [], []);
    assert [0x20] + [local] == [0x20, local] && [0x41] + [0] == [0x41, 0x00];
    assert [0x36] + [2, 0] == [0x36, 0x02, 0x00] && [0x0B] + [] == [0x0B];
  }

  lemma OneOperandPrints(kind: Immediate, bytes: seq<byte>, operand: Operand)
    requires Prints(ReadOperand(kind), bytes, operand)
    ensures Prints(ReadOperands([kind]), bytes, [operand])
  {
    hide Prints, ReadOperand, ReadOperands;
    NoOperandsPrint();
    OperandsPrint(kind, [], bytes, operand, [], []);
    assert [kind] + [] == [kind] && bytes + [] == bytes && [operand] + [] == [operand];
  }

  lemma ExpressionPrints(part: seq<byte>, i: Instruction, more: seq<byte>, code: seq<Instruction>)
    requires Prints(ReadInstruction(), part, i) && Expression()(more) == Some(code)
    ensures Expression()(part + more) == Some([i] + code)
  {
    InstructionProgresses();
    AllPrints(ReadInstruction(), part, i, more);
  }

  lemma NothingPrints()
    ensures Expression()([]) == Some([])
  {
  }

  lemma ReturnZeroPrints()
    ensures Expression()([0x41, 0x00, 0x0B]) == Some([Const(0), FINISH])
  {
    hide *;
    NothingPrints();
    StubInstructionsPrint(0);
    ExpressionPrints([0x0B], FINISH, [], []);
    ExpressionPrints([0x41, 0x00], Const(0), [0x0B] + [], [FINISH] + []);
    assert [0x41, 0x00] + ([0x0B] + []) == [0x41, 0x00, 0x0B];
    assert [Const(0)] + ([FINISH] + []) == [Const(0), FINISH];
  }

  lemma ClearWordPrints(local: nat, more: seq<byte>, code: seq<Instruction>)
    requires local < 128 && Expression()(more) == Some(code)
    ensures Expression()([0x20, local, 0x41, 0x00, 0x36, 0x02, 0x00] + more) == Some(ClearWord(local) + code)
  {
    hide Expression, LocalGet, Const, Store, Prints, ReadInstruction;
    StubInstructionsPrint(local);
    ExpressionPrints([0x36, 0x02, 0x00], Store(2, 0), more, code);
    var more1, code1 := [0x36, 0x02, 0x00] + more, [Store(2, 0)] + code;
    ExpressionPrints([0x41, 0x00], Const(0), more1, code1);
    ExpressionPrints([0x20, local], LocalGet(local), [0x41, 0x00] + more1, [Const(0)] + code1);
    assert [0x20, local] + ([0x41, 0x00] + more1) == [0x20, local, 0x41, 0x00, 0x36, 0x02, 0x00] + more;
    assert [LocalGet(local)] + ([Const(0)] + code1) == ClearWord(local) + code;
  }

  lemma StubExpressionPrints(name: Text)
    ensures Expression()(StubExpression(name)) == Some(StubCode(name))
  {
    hide Expression, ClearWord, Const;
    ReturnZeroPrints();
    if name == ENVIRON_SIZES_GET {
      var last, code := [0x41, 0x00, 0x0B], [Const(0), FINISH];
      ClearWordPrints(1, last, code);
      var tail := [0x20, 0x01, 0x41, 0x00, 0x36, 0x02, 0x00] + last;
      ClearWordPrints(0, tail, ClearWord(1) + code);
      assert StubExpression(name) == [0x20, 0x00, 0x41, 0x00, 0x36, 0x02, 0x00] + tail;
      assert StubCode(name) == ClearWord(0) + (ClearWord(1) + code);
    }
  }

  lemma NoLocalsPrint()
    ensures Prints(ReadLocals(), Encode(0), [])
  {
    VectorPrints(Pair(U32(), ValType()), [], []);
    assert EncodeVector([]) == Encode(0) + [] == Encode(0);
  }

  /** A stub's bytes are read as a body without locals and the stub's instructions. */
  lemma StubPrints(name: Text)
    ensures Prints(ReadBody(), StubBody(name), Body([], StubCode(name)))
  {
    hide Prints, ReadLocals, Expression;
    NoLocalsPrint();
    StubExpressionPrints(name);
    ThenPrints(ReadLocals(), Expression(), Encode(0), [], StubExpression(name), StubCode(name));
    var block := Then(ReadLocals(), Expression());
    WithinPrints(block, Encode(0) + StubExpression(name), ([], StubCode(name)));
    MapPrints(Within(block), ToBody(), StubBody(name), ([], StubCode(name)));
  }

  lemma ThenPrints<A, B>(p: Parser<A>, q: Reading<B>, first: seq<byte>, a: A, rest: seq<byte>, b: B)
    requires Prints(p, first, a) && q(rest) == Some(b)
    ensures Then(p, q)(first + rest) == Some((a, b))
  {
    assert p(first + rest) == Got(a, rest);
  }

  // ---- what the instructions do ----------------------------------------------------------------------

  /** A stack machine for the instructions the stubs use, over 32-bit words and a byte memory. */
  datatype Machine = Machine(locals: seq<nat>, stack: seq<nat>, memory: seq<byte>)

  function Word(value: nat): seq<byte> {
    [value % 256, value / 256 % 256, value / 65536 % 256, value / 16777216 % 256]
  }

  /** One step, or a trap. */
  function Step(i: Instruction, m: Machine): Option<Machine> {
    var top := |m.stack| - 1;
    if i == FINISH then Some(m)
    else match i.opcode
      case Plain(0x20) =>
        var local := NumberAt(i, 0);
        if 0 <= local < |m.locals| then Some(m.(stack := m.stack + [m.locals[local]])) else None
      case Plain(0x41) => Some(m.(stack := m.stack + [NumberAt(i, 0) % TWO_32]))
      case Plain(0x36) =>
        if top < 1 then None
        else
          var address := m.stack[top - 1] + NumberAt(i, 1);
          if 0 <= address && address + 4 <= |m.memory|
          then Some(Machine(m.locals, m.stack[..top - 1], Stored(m.memory, address, Word(m.stack[top]))))
          else None
      case _ => None
  }

  function NumberAt(i: Instruction, at: nat): int {
    if at < |i.operands| && i.operands[at].Number? then i.operands[at].value else 0
  }

  function Stored(memory: seq<byte>, address: nat, bytes: seq<byte>): (after: seq<byte>)
    requires address + |bytes| <= |memory|
    ensures |after| == |memory|
    ensures forall i :: 0 <= i < |memory| ==>
              after[i] == if address <= i < address + |bytes| then bytes[i - address] else memory[i]
  {
    memory[..address] + bytes + memory[address + |bytes|..]
  }

  function Run(code: seq<Instruction>, m: Machine): Option<Machine> {
    if code == [] then Some(m)
    else match Step(code[0], m)
      case None => None
      case Some(next) => Run(code[1..], next)
  }

  lemma RunStep(first: Instruction, code: seq<Instruction>, m: Machine)
    ensures Run([first] + code, m) == match Step(first, m) case None => None case Some(next) => Run(code, next)
  {
    assert ([first] + code)[1..] == code;
  }

  /** Words are little-endian. */
  lemma WordIs()
    ensures Word(0x0403_0201) == [1, 2, 3, 4]
  {
  }

  const ZERO_WORD: seq<byte> := [0, 0, 0, 0]

  /** Clearing a word: a trap outside memory. */
  lemma ClearWordRuns(local: nat, code: seq<Instruction>, m: Machine)
    requires local < |m.locals|
    ensures Run(ClearWord(local) + code, m)
         == if m.locals[local] + 4 <= |m.memory|
            then Run(code, m.(memory := Stored(m.memory, m.locals[local], ZERO_WORD)))
            else None
  {
    hide Run;
    var address := m.locals[local];
    assert ClearWord(local) + code == [LocalGet(local)] + ([Const(0)] + ([Store(2, 0)] + code));
    RunStep(LocalGet(local), [Const(0)] + ([Store(2, 0)] + code), m);
    var m1 := m.(stack := m.stack + [address]);
    RunStep(Const(0), [Store(2, 0)] + code, m1);
    var m2 := m1.(stack := m1.stack + [0]);
    RunStep(Store(2, 0), code, m2);
    assert m2.stack[..|m2.stack| - 2] == m.stack;
    assert Word(0) == ZERO_WORD;
  }

  lemma ReturnZeroRuns(m: Machine)
    ensures Run([Const(0), FINISH], m) == Some(m.(stack := m.stack + [0]))
  {
    hide Run;
    assert [Const(0), FINISH] == [Const(0)] + ([FINISH] + []);
    RunStep(Const(0), [FINISH] + [], m);
    RunStep(FINISH, [], m.(stack := m.stack + [0]));
    NothingRuns(m.(stack := m.stack + [0]));
  }

  lemma NothingRuns(m: Machine)
    ensures Run([], m) == Some(m)
  {
  }

  /**
   * One stub leaves memory alone; the other clears the two words its arguments name, first one first, and traps
   * at a word that is not all in memory. Either leaves a zero as its result.
   */
  lemma StubRuns(name: Text, p: nat, q: nat, memory: seq<byte>)
    ensures var after := Run(StubCode(name), Machine([p, q], [], memory));
      if name != ENVIRON_SIZES_GET then after == Some(Machine([p, q], [0], memory))
      else if p + 4 <= |memory| && q + 4 <= |memory| then
        after == Some(Machine([p, q], [0], Stored(Stored(memory, p, ZERO_WORD), q, ZERO_WORD)))
      else after == None
  {
    hide Run, Stored;
    var m := Machine([p, q], [], memory);
    assert m.stack + [0] == [0];
    if name == ENVIRON_SIZES_GET {
      var last := [Const(0), FINISH];
      assert StubCode(name) == ClearWord(0) + (ClearWord(1) + last);
      ClearWordRuns(0, ClearWord(1) + last, m);
      if p + 4 <= |memory| {
        var m1 := m.(memory := Stored(memory, p, ZERO_WORD));
        ClearWordRuns(1, last, m1);
        if q + 4 <= |memory| {
          ReturnZeroRuns(m1.(memory := Stored(m1.memory, q, ZERO_WORD)));
        }
      }
    } else {
      ReturnZeroRuns(m);
    }
  }
}
