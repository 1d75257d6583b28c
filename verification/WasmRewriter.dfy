/** The loops of the rewrite: instructions, imports and sections, stepped through in place. */
module WasmRewriter {
  import opened Bytes
  import opened Wrappers
  import opened Sequences
  import opened Leb128
  import opened WasmBinary
  import opened WasmCopying
  import opened WasmInstructions
  import opened WasmReader

  /** The bytes written so far. */
  class Output {
    var contents: seq<byte>

    constructor ()
      ensures contents == []
    {
      contents := [];
    }

    method Extend(more: seq<byte>)
      modifies this
      ensures contents == old(contents) + more
    {
      contents := contents + more;
    }
  }

  lemma SinceIsUsed(bytes: seq<byte>, start: nat, offset: nat, end: nat)
    requires start <= offset <= end <= |bytes|
    ensures Used(bytes[start..end], bytes[offset..end]) == bytes[start..offset]
  {
  }

  // ---- instructions ------------------------------------------------------------------------------

  /** The immediates of the instruction the opcode starts, reading a prefixed opcode's number. */
  method ReadOpcodeHere(reader: Reader) returns (opcode: Option<Opcode>)
    requires reader.Valid()
    modifies reader
    ensures reader.Valid() && reader.offset >= old(reader.offset)
    ensures Did(ReadOpcode()(old(reader.Left())), opcode, reader.Left())
  {
    hide ImmediatesOfCode, ReadU32;
    var code := reader.Byte();
    if code.None? {
      return None;
    }
    if code.value == PREFIX {
      var sub := reader.ReadUnsigned();
      opcode := if sub.Some? then Some(Prefixed(sub.value)) else None;
    } else {
      opcode := Some(Plain(code.value));
    }
    if opcode.Some? && ImmediatesOf(opcode.value).None? {
      opcode := None;
    }
  }

  /** Operands already copied, and the rest still to come. */
  ghost predicate SameOperands(r: Renumbering, kinds: seq<Immediate>, i: nat, start: seq<byte>, copied: seq<byte>, left: seq<byte>) {
    && i <= |kinds|
    && CopyOperands(r, kinds)(start) ==
         match CopyOperands(r, kinds[i..])(left)
         case Bad => Bad
         case Got(more, rest) => Got(copied + more, rest)
  }

  lemma OperandsStart(r: Renumbering, kinds: seq<Immediate>, start: seq<byte>)
    ensures SameOperands(r, kinds, 0, start, [], start)
  {
    assert kinds[0..] == kinds;
    if CopyOperands(r, kinds)(start).Got? {
      assert [] + CopyOperands(r, kinds)(start).value == CopyOperands(r, kinds)(start).value;
    }
  }

  lemma OperandsStep(r: Renumbering, kinds: seq<Immediate>, i: nat, start: seq<byte>, copied: seq<byte>, left: seq<byte>)
    requires i < |kinds| && SameOperands(r, kinds, i, start, copied, left)
    ensures CopyOperand(r, kinds[i])(left).Bad? ==> CopyOperands(r, kinds)(start).Bad?
    ensures CopyOperand(r, kinds[i])(left).Got? ==>
              SameOperands(r, kinds, i + 1, start, copied + CopyOperand(r, kinds[i])(left).value, CopyOperand(r, kinds[i])(left).rest)
  {
    hide CopyOperand;
    assert kinds[i..][1..] == kinds[i + 1..];
    var one := CopyOperand(r, kinds[i])(left);
    if one.Got? {
      var more := CopyOperands(r, kinds[i + 1..])(one.rest);
      if more.Got? {
        AppendAssociates(copied, one.value, more.value);
      }
    }
  }

  lemma OperandsEnd(r: Renumbering, kinds: seq<Immediate>, start: seq<byte>, copied: seq<byte>, left: seq<byte>)
    requires SameOperands(r, kinds, |kinds|, start, copied, left)
    ensures CopyOperands(r, kinds)(start) == Got(copied, left)
  {
    assert copied + [] == copied;
  }

  lemma OperandIsVerbatim(r: Renumbering, kind: Immediate, s: seq<byte>)
    requires kind != FunctionIndex
    ensures ReadOperand(kind)(s).Bad? ==> CopyOperand(r, kind)(s).Bad?
    ensures ReadOperand(kind)(s).Got? ==>
              && |ReadOperand(kind)(s).rest| <= |s|
              && CopyOperand(r, kind)(s) == Got(Used(s, ReadOperand(kind)(s).rest), ReadOperand(kind)(s).rest)
  {
    hide ReadOperand;
    OperandIsExact(kind);
    if ReadOperand(kind)(s).Got? {
      assert ExactAt(ReadOperand(kind), s);
    }
  }

  /** One operand into `out`, a function index renumbered. */
  method CopyOperandHere(reader: Reader, r: Renumbering, kind: Immediate, out: Output) returns (ok: bool)
    requires reader.Valid()
    modifies reader, out
    ensures reader.Valid() && reader.offset >= old(reader.offset)
    ensures ok <==> CopyOperand(r, kind)(old(reader.Left())).Got?
    ensures ok ==> CopyOperand(r, kind)(old(reader.Left())).rest == reader.Left()
    ensures ok ==> out.contents == old(out.contents) + CopyOperand(r, kind)(old(reader.Left())).value
  {
    hide ReadOperand;
    if kind == FunctionIndex {
      var index := reader.ReadUnsigned();
      if index.Some? {
        out.Extend(Encode(NewIndex(r, index.value)));
      }
      ok := index.Some?;
    } else {
      var start := reader.offset;
      OperandIsVerbatim(r, kind, reader.Left());
      var operand := reader.StepOver(kind);
      if operand.Some? {
        SinceIsUsed(reader.bytes, start, reader.offset, reader.end);
        out.Extend(reader.Since(start));
      }
      ok := operand.Some?;
    }
  }

  lemma OpcodeIsVerbatim(s: seq<byte>)
    ensures ReadOpcode()(s).Got? ==> |ReadOpcode()(s).rest| <= |s|
  {
    OpcodeIsExact();
    if ReadOpcode()(s).Got? {
      assert ExactAt(ReadOpcode(), s);
    }
  }

  /** What one copied instruction did. */
  ghost predicate CopiedOne(
    r: Renumbering, start: seq<byte>, before: seq<byte>, opcode: Option<Opcode>, after: seq<byte>, left: seq<byte>
  ) {
    match CopyInstruction(r)(start)
    case Bad => opcode.None?
    case Got(copied, rest) =>
      && ReadOpcode()(start).Got? && opcode == Some(ReadOpcode()(start).value)
      && after == before + copied && left == rest
  }

  lemma InstructionCopied(
    r: Renumbering, start: seq<byte>, before: seq<byte>, opcode: Opcode, rest: seq<byte>, copied: seq<byte>, left: seq<byte>
  )
    requires ReadOpcode()(start) == Got(opcode, rest) && |rest| <= |start|
    requires CopyOperands(r, Kinds(opcode))(rest) == Got(copied, left)
    ensures CopiedOne(r, start, before, Some(opcode), before + (Used(start, rest) + copied), left)
  {
    hide ReadOpcode, CopyOperands;
  }

  lemma InstructionRefused(r: Renumbering, start: seq<byte>, before: seq<byte>, after: seq<byte>, left: seq<byte>)
    requires ReadOpcode()(start).Got? ==> CopyOperands(r, Kinds(ReadOpcode()(start).value))(ReadOpcode()(start).rest).Bad?
    ensures CopiedOne(r, start, before, None, after, left)
  {
    hide ReadOpcode, CopyOperands;
  }

  /** One step of a body: `out` grows by the instruction at its new index. */
  method CopyOne(reader: Reader, r: Renumbering, out: Output) returns (opcode: Option<Opcode>)
    requires reader.Valid()
    modifies reader, out
    ensures reader.Valid() && reader.offset >= old(reader.offset)
    ensures CopiedOne(r, old(reader.Left()), old(out.contents), opcode, out.contents, reader.Left())
  {
    hide ReadOpcode, CopyOperands, CopyOperand, CopiedOne, SameOperands;
    ghost var before, whole := out.contents, reader.Left();
    var start := reader.offset;
    OpcodeIsVerbatim(reader.Left());
    opcode := ReadOpcodeHere(reader);
    if opcode.None? {
      InstructionRefused(r, whole, before, out.contents, reader.Left());
      return;
    }
    SinceIsUsed(reader.bytes, start, reader.offset, reader.end);
    out.Extend(reader.Since(start));
    ghost var rest, head := reader.Left(), reader.Since(start);
    ghost var copied: seq<byte> := [];
    var kinds := Kinds(opcode.value);
    OperandsStart(r, kinds, rest);
    var i: nat := 0;
    while i < |kinds|
      invariant reader.Valid() && reader.offset >= old(reader.offset) && i <= |kinds|
      invariant out.contents == before + head + copied
      invariant SameOperands(r, kinds, i, rest, copied, reader.Left())
    {
      OperandsStep(r, kinds, i, rest, copied, reader.Left());
      ghost var one := CopyOperand(r, kinds[i])(reader.Left());
      var ok := CopyOperandHere(reader, r, kinds[i], out);
      if !ok {
        InstructionRefused(r, whole, before, out.contents, reader.Left());
        return None;
      }
      AppendAssociates(before + head, copied, one.value);
      copied := copied + one.value;
      i := i + 1;
    }
    OperandsEnd(r, kinds, rest, copied, reader.Left());
    InstructionCopied(r, whole, before, opcode.value, rest, copied, reader.Left());
    AppendAssociates(before, head, copied);
  }

  // ---- expressions ---------------------------------------------------------------------------------

  ghost predicate SameAll(r: Renumbering, start: seq<byte>, copied: seq<byte>, left: seq<byte>) {
    CopyExpression(r)(start) ==
      match CopyExpression(r)(left)
      case None => None
      case Some(more) => Some(copied + more)
  }

  lemma AllStart(r: Renumbering, start: seq<byte>)
    ensures SameAll(r, start, [], start)
  {
    if CopyExpression(r)(start).Some? {
      assert [] + CopyExpression(r)(start).value == CopyExpression(r)(start).value;
    }
  }

  lemma AllStep(r: Renumbering, start: seq<byte>, copied: seq<byte>, left: seq<byte>)
    requires SameAll(r, start, copied, left) && left != []
    ensures CopyInstruction(r)(left).Bad? ==> CopyExpression(r)(start) == None
    ensures CopyInstruction(r)(left).Got? ==>
      SameAll(r, start, copied + CopyInstruction(r)(left).value, CopyInstruction(r)(left).rest)
    ensures CopyInstruction(r)(left).Got? ==> |CopyInstruction(r)(left).rest| < |left|
  {
    hide CopyInstruction, Concat;
    CopyInstructionProgresses(r);
    var one := CopyInstruction(r)(left);
    if one.Got? {
      var more := All(CopyInstruction(r), one.rest);
      if more.Some? {
        ConcatFirst(one.value, more.value);
        AppendAssociates(copied, one.value, Concat(more.value));
      }
    }
  }

  lemma AllEnd(r: Renumbering, start: seq<byte>, copied: seq<byte>)
    requires SameAll(r, start, copied, [])
    ensures CopyExpression(r)(start) == Some(copied)
  {
    assert copied + [] == copied;
  }

  lemma CopiedUnfolds(
    r: Renumbering, start: seq<byte>, before: seq<byte>, opcode: Option<Opcode>, after: seq<byte>, left: seq<byte>
  )
    requires CopiedOne(r, start, before, opcode, after, left)
    ensures opcode.None? <==> CopyInstruction(r)(start).Bad?
    ensures opcode.Some? ==> CopyInstruction(r)(start).Got? && after == before + CopyInstruction(r)(start).value
    ensures opcode.Some? ==> left == CopyInstruction(r)(start).rest
    ensures opcode.Some? ==> ReadOpcode()(start).Got? && opcode == Some(ReadOpcode()(start).value)
  {
    hide CopyInstruction, ReadOpcode;
  }

  /** Copies until nothing is left to read. */
  method RewriteExpression(reader: Reader, r: Renumbering) returns (rewritten: Option<seq<byte>>)
    requires reader.Valid()
    modifies reader
    ensures reader.Valid()
    ensures rewritten == CopyExpression(r)(old(reader.Left()))
  {
    hide CopyInstruction, CopyExpression, CopiedOne, SameAll, ReadOpcode;
    var out := new Output();
    ghost var start := reader.Left();
    AllStart(r, start);
    while !reader.AtEnd()
      invariant reader.Valid() && SameAll(r, start, out.contents, reader.Left())
      decreases |reader.Left()|
    {
      ghost var before, left := out.contents, reader.Left();
      AllStep(r, start, before, left);
      var opcode := CopyOne(reader, r, out);
      CopiedUnfolds(r, left, before, opcode, out.contents, reader.Left());
      if opcode.None? {
        return None;
      }
    }
    AllEnd(r, start, out.contents);
    rewritten := Some(out.contents);
  }

  ghost predicate SameUntil(r: Renumbering, start: seq<byte>, copied: seq<byte>, left: seq<byte>) {
    CopyConstantExpression(r)(start) ==
      match CopyConstantExpression(r)(left)
      case Bad => Bad
      case Got(more, rest) => Got(copied + more, rest)
  }

  lemma UntilStart(r: Renumbering, start: seq<byte>)
    ensures SameUntil(r, start, [], start)
  {
    if CopyConstantExpression(r)(start).Got? {
      assert [] + CopyConstantExpression(r)(start).value == CopyConstantExpression(r)(start).value;
    }
  }

  lemma InstructionHasOpcode(r: Renumbering, s: seq<byte>)
    ensures ReadInstruction()(s).Got? <==> CopyInstruction(r)(s).Got?
    ensures ReadInstruction()(s).Got? ==>
      && ReadOpcode()(s).Got?
      && ReadInstruction()(s).value.opcode == ReadOpcode()(s).value
      && ReadInstruction()(s).rest == CopyInstruction(r)(s).rest
      && |ReadInstruction()(s).rest| < |s|
  {
    hide ReadOpcode, ReadOperands, CopyOperands;
    InstructionIsPreserved(r);
    InstructionProgresses();
    assert PreservesAt(ReadInstruction(), CopyInstruction(r), RenumberInstruction(r), None, s);
  }

  /** One step of the constant expression: its end, an opcode it may not hold, or one more instruction. */
  lemma UntilStep(r: Renumbering, start: seq<byte>, copied: seq<byte>, left: seq<byte>)
    requires SameUntil(r, start, copied, left)
    ensures CopyInstruction(r)(left).Bad? ==> CopyConstantExpression(r)(start).Bad?
    ensures var one := CopyInstruction(r)(left);
      one.Got? ==>
        && ReadOpcode()(left).Got?
        && |one.rest| < |left|
        && var opcode := ReadOpcode()(left).value;
           if opcode == END then CopyConstantExpression(r)(start) == Got(copied + one.value, one.rest)
           else if !IsConstant(opcode) then CopyConstantExpression(r)(start).Bad?
           else SameUntil(r, start, copied + one.value, one.rest)
  {
    hide CopyInstruction, ReadInstruction, ReadOpcode, IsConstant;
    InstructionProgresses();
    InstructionHasOpcode(r, left);
    var one := CopyInstruction(r)(left);
    if one.Got? {
      var more := CopyConstantExpression(r)(one.rest);
      if more.Got? {
        AppendAssociates(copied, one.value, more.value);
      }
    }
  }

  /** Copies until the closing instruction, refusing what is not constant. */
  method RewriteConstantExpression(reader: Reader, r: Renumbering) returns (rewritten: Option<seq<byte>>)
    requires reader.Valid()
    modifies reader
    ensures reader.Valid() && Did(CopyConstantExpression(r)(old(reader.Left())), rewritten, reader.Left())
  {
    hide CopyInstruction, CopyConstantExpression, CopiedOne, SameUntil, ReadOpcode, IsConstant;
    var out := new Output();
    ghost var start := reader.Left();
    UntilStart(r, start);
    while true
      invariant reader.Valid() && SameUntil(r, start, out.contents, reader.Left())
      decreases |reader.Left()|
    {
      ghost var before, left := out.contents, reader.Left();
      UntilStep(r, start, before, left);
      var opcode := CopyOne(reader, r, out);
      CopiedUnfolds(r, left, before, opcode, out.contents, reader.Left());
      if opcode.None? {
        return None;
      }
      if opcode.value == END {
        return Some(out.contents);
      }
      if !IsConstant(opcode.value) {
        return None;
      }
    }
  }
}
