/** The reader that steps through a module in place, and the loops over it, each proved to be its parser. */
module WasmReader {
  import opened Bytes
  import opened Wrappers
  import opened Sequences
  import opened Leb128
  import opened WasmBinary
  import opened WasmInstructions

  /** A method's result and what it left are those of a read; after an error nothing is said of what is left. */
  ghost predicate Did<T>(read: Read<T>, result: Option<T>, left: seq<byte>) {
    match read
    case Bad => result.None?
    case Got(value, rest) => result == Some(value) && left == rest
  }

  lemma {:induction false} Pow2Of7(n: nat)
    ensures Pow2(7 * n) == Pow128(n)
  {
    if n == 0 {
    } else {
      Pow2Of7(n - 1);
      var m := 7 * (n - 1);
      assert Pow2(m + 7) == 2 * Pow2(m + 6) && Pow2(m + 6) == 2 * Pow2(m + 5) && Pow2(m + 5) == 2 * Pow2(m + 4);
      assert Pow2(m + 4) == 2 * Pow2(m + 3) && Pow2(m + 3) == 2 * Pow2(m + 2) && Pow2(m + 2) == 2 * Pow2(m + 1);
    }
  }

  /** The running value and shift after some groups. */
  ghost predicate Accumulated(read: seq<group>, result: nat, shift: nat) {
    result == Value(read) && shift == 7 * |read|
  }

  lemma NothingAccumulated()
    ensures Accumulated([], 0, 0)
  {
  }

  lemma AccumulateStep(read: seq<group>, result: nat, shift: nat, low: group)
    requires Accumulated(read, result, shift)
    ensures low * Pow2(shift) >= 0
    ensures Accumulated(read + [low], result + low * Pow2(shift), shift + 7)
  {
    hide Pow2, Value;
    ValuePush(read, low);
    Pow2Of7(|read|);
  }

  lemma AccumulatedInteger(read: seq<group>, result: nat, shift: nat, signed: bool)
    requires Accumulated(read, result, shift) && read != []
    ensures Integer(read, signed) == if signed && read[|read| - 1] >= 64 then result - Pow2(shift) else result
  {
    Pow2Of7(|read|);
  }

  lemma GroupStep(read: seq<group>, s: seq<byte>, most: nat)
    ensures most == 0 || s == [] ==> ReadGroups(read, s, most).Bad?
    ensures most > 0 && s != [] && s[0] < 128 ==> ReadGroups(read, s, most) == Got(read + [s[0]], s[1..])
    ensures most > 0 && s != [] && s[0] >= 128 ==> ReadGroups(read, s, most) == ReadGroups(read + [s[0] - 128], s[1..], most - 1)
  {
  }

  /** A read of `s` that leaves a suffix of it. */
  lemma SuffixOf(bytes: seq<byte>, offset: nat, end: nat, used: nat)
    requires offset + used <= end <= |bytes|
    ensures bytes[offset..end][used..] == bytes[offset + used..end]
    ensures bytes[offset..end][..used] == bytes[offset..offset + used]
  {
  }

  class Reader {
    const bytes: seq<byte>
    const end: nat
    var offset: nat

    ghost predicate Valid()
      reads this
    {
      offset <= end <= |bytes|
    }

    /** What is still to be read. */
    function Left(): seq<byte>
      reads this
      requires Valid()
    {
      bytes[offset..end]
    }

    constructor (bytes: seq<byte>, start: nat, end: nat)
      requires start <= end <= |bytes|
      ensures Valid() && Left() == bytes[start..end]
      ensures this.bytes == bytes && this.end == end && offset == start
    {
      this.bytes := bytes;
      this.end := end;
      offset := start;
    }

    predicate AtEnd()
      reads this
      requires Valid()
      ensures AtEnd() <==> Left() == []
    {
      offset >= end
    }

    /** The bytes from an earlier offset up to the current one. */
    function Since(start: nat): seq<byte>
      reads this
      requires Valid() && start <= offset
    {
      bytes[start..offset]
    }

    method Byte() returns (b: Option<byte>)
      requires Valid()
      modifies this
      ensures Valid() && offset >= old(offset) && Did(AnyByte()(old(Left())), b, Left())
    {
      if AtEnd() {
        return None;
      }
      b := Some(bytes[offset]);
      SuffixOf(bytes, offset, end, 1);
      offset := offset + 1;
    }

    /** Splits off what is to be read into a reader of its own, `count` bytes long, when there is that much. */
    method Take(count: nat) returns (r: Option<Reader>)
      requires Valid()
      modifies this
      ensures Valid() && offset >= old(offset)
      ensures r.None? <==> Raw(count)(old(Left())).Bad?
      ensures r.Some? ==> (
        && fresh(r.value) && r.value.Valid()
        && Raw(count)(old(Left())) == Got(r.value.Left(), Left()))
    {
      var remaining := end - offset;
      if count > remaining {
        return None;
      }
      var start := offset;
      SuffixOf(bytes, offset, end, count);
      offset := offset + count;
      var taken := new Reader(bytes, start, offset);
      r := Some(taken);
    }

    method TakeRaw(count: nat) returns (taken: Option<seq<byte>>)
      requires Valid()
      modifies this
      ensures Valid() && offset >= old(offset) && Did(Raw(count)(old(Left())), taken, Left())
    {
      var start := offset;
      var remaining := end - offset;
      if count > remaining {
        return None;
      }
      SuffixOf(bytes, offset, end, count);
      offset := offset + count;
      taken := Some(Since(start));
    }

    /** An integer of `bits` bits, at most seven of them in each byte. */
    method ReadLeb128(bits: nat, signed: bool) returns (value: Option<int>)
      requires Valid() && bits > 0
      modifies this
      ensures Valid() && offset >= old(offset) && Did(ReadInteger(old(Left()), bits, signed), value, Left())
    {
      hide Pow2, Pow128, Value, ReadGroups, Accumulated;
      var most := MostBytes(bits);
      var result: nat := 0;
      var shift: nat := 0;
      ghost var read: seq<group> := [];
      NothingAccumulated();
      var b: byte := 0;
      var done := false;
      var i: nat := 0;
      while i < most && !done
        invariant Valid() && offset >= old(offset) && i <= most && |read| == i
        invariant Accumulated(read, result, shift)
        invariant !done ==> ReadGroups([], old(Left()), most) == ReadGroups(read, Left(), most - i)
        invariant done ==>
                    && ReadGroups([], old(Left()), most) == Got(read, Left())
                    && read != [] && read[|read| - 1] == b && b < 128
        decreases most - i, !done
      {
        GroupStep(read, Left(), most - i);
        var next := Byte();
        if next.None? {
          return None;
        }
        b := next.value;
        var low := b % 128;
        AccumulateStep(read, result, shift, low);
        result := result + low * Pow2(shift);
        shift := shift + 7;
        i := i + 1;
        read := read + [low];
        done := b < 128;
      }
      GroupStep(read, Left(), most - i);
      if !done {
        return None;
      }
      var signedResult: int := if signed && b >= 64 then result - Pow2(shift) else result;
      AccumulatedInteger(read, result, shift, signed);
      if Lowest(bits, signed) <= signedResult < Bound(bits, signed) {
        value := Some(signedResult);
      } else {
        value := None;
      }
    }

    method ReadUnsigned() returns (value: Option<nat>)
      requires Valid()
      modifies this
      ensures Valid() && offset >= old(offset) && Did(U32()(old(Left())), value, Left())
    {
      U32IsInteger(Left());
      var read := ReadLeb128(32, false);
      value := if read.Some? && read.value >= 0 then Some(read.value) else None;
    }

    method ReadIndex(count: nat) returns (value: Option<nat>)
      requires Valid()
      modifies this
      ensures Valid() && offset >= old(offset) && Did(Index(count)(old(Left())), value, Left())
    {
      value := ReadUnsigned();
      if value.Some? && value.value >= count {
        value := None;
      }
    }

    /** One byte of a set of codes. */
    method ReadCode(codes: set<byte>) returns (code: Option<byte>)
      requires Valid()
      modifies this
      ensures Valid() && offset >= old(offset) && Did(ByteIn(codes)(old(Left())), code, Left())
    {
      code := Byte();
      if code.Some? && code.value !in codes {
        code := None;
      }
    }

    method ReadSized() returns (block: Option<seq<byte>>)
      requires Valid()
      modifies this
      ensures Valid() && offset >= old(offset) && Did(SizedBytes()(old(Left())), block, Left())
    {
      var length := ReadUnsigned();
      if length.None? {
        return None;
      }
      block := TakeRaw(length.value);
    }

    method ReadName() returns (name: Option<Text>)
      requires Valid()
      modifies this
      ensures Valid() && offset >= old(offset) && Did(Name()(old(Left())), name, Left())
    {
      name := ReadSized();
      if name.Some? && !ValidUtf8(name.value) {
        name := None;
      }
    }

    /** A vector of label indices. */
    method ReadLabels() returns (labels: Option<seq<nat>>)
      requires Valid()
      modifies this
      ensures Valid() && offset >= old(offset) && Did(Vector(U32())(old(Left())), labels, Left())
    {
      var count := ReadUnsigned();
      if count.None? {
        return None;
      }
      hide SameItems, ReadU32;
      ghost var start := Left();
      ItemsStart(U32(), count.value, start);
      var read: seq<nat> := [];
      var i := 0;
      while i < count.value
        invariant Valid() && offset >= old(offset) && i <= count.value && |read| == i
        invariant SameItems(U32(), count.value, start, read, Left())
      {
        ghost var before := Left();
        var target := ReadUnsigned();
        ItemsStep(U32(), count.value, start, read, before);
        if target.None? {
          return None;
        }
        read := read + [target.value];
        i := i + 1;
      }
      ItemsEnd(U32(), count.value, start, read, Left());
      labels := Some(read);
    }

    /** A vector of value types. */
    method ReadTypes() returns (types: Option<seq<byte>>)
      requires Valid()
      modifies this
      ensures Valid() && offset >= old(offset) && Did(Vector(ValType())(old(Left())), types, Left())
    {
      var count := ReadUnsigned();
      if count.None? {
        return None;
      }
      hide SameItems, ReadU32;
      ghost var start := Left();
      ItemsStart(ValType(), count.value, start);
      var read: seq<byte> := [];
      var i := 0;
      while i < count.value
        invariant Valid() && offset >= old(offset) && i <= count.value && |read| == i
        invariant SameItems(ValType(), count.value, start, read, Left())
      {
        ghost var before := Left();
        var valueType := ReadCode(VALUE_TYPES);
        ItemsStep(ValType(), count.value, start, read, before);
        if valueType.None? {
          return None;
        }
        read := read + [valueType.value];
        i := i + 1;
      }
      ItemsEnd(ValType(), count.value, start, read, Left());
      types := Some(read);
    }

    /** One operand that is not a function index, stepped over. */
    method StepOver(kind: Immediate) returns (operand: Option<Operand>)
      requires Valid() && kind != FunctionIndex
      modifies this
      ensures Valid() && offset >= old(offset) && Did(ReadOperand(kind)(old(Left())), operand, Left())
    {
      match kind {
        case U32Operand =>
          var value := ReadUnsigned();
          operand := if value.Some? then Some(Number(value.value)) else None;
        case S32 =>
          var value := ReadLeb128(32, true);
          operand := if value.Some? then Some(Number(value.value)) else None;
        case S33 =>
          var value := ReadLeb128(33, true);
          operand := if value.Some? then Some(Number(value.value)) else None;
        case S64 =>
          var value := ReadLeb128(64, true);
          operand := if value.Some? then Some(Number(value.value)) else None;
        case ReferenceType =>
          var code := ReadCode(VALUE_TYPES);
          operand := if code.Some? then Some(ValueType(code.value)) else None;
        case F32 =>
          var bits := TakeRaw(4);
          operand := if bits.Some? then Some(Bits(bits.value)) else None;
        case F64 =>
          var bits := TakeRaw(8);
          operand := if bits.Some? then Some(Bits(bits.value)) else None;
        case LabelVector =>
          var labels := ReadLabels();
          operand := if labels.Some? then Some(Labels(labels.value)) else None;
        case TypeVector =>
          var types := ReadTypes();
          operand := if types.Some? then Some(Types(types.value)) else None;
      }
    }
  }

  // ---- loops over a count of items -----------------------------------------------------------------

  /** Items already read, and the rest still to come. */
  ghost predicate SameItems<T>(p: Parser<T>, count: nat, start: seq<byte>, read: seq<T>, left: seq<byte>) {
    |read| <= count
    && ReadItems(p, count, start) ==
         match ReadItems(p, count - |read|, left)
         case Bad => Bad
         case Got(items, rest) => Got(read + items, rest)
  }

  lemma ItemsStart<T>(p: Parser<T>, count: nat, start: seq<byte>)
    ensures SameItems(p, count, start, [], start)
  {
    if ReadItems(p, count, start).Got? {
      assert [] + ReadItems(p, count, start).value == ReadItems(p, count, start).value;
    }
  }

  lemma ItemsStep<T>(p: Parser<T>, count: nat, start: seq<byte>, read: seq<T>, left: seq<byte>)
    requires SameItems(p, count, start, read, left) && |read| < count
    ensures p(left).Got? ==> SameItems(p, count, start, read + [p(left).value], p(left).rest)
    ensures p(left).Bad? ==> ReadItems(p, count, start).Bad?
  {
    if p(left).Got? {
      var tail := ReadItems(p, count - |read| - 1, p(left).rest);
      if tail.Got? {
        AppendAssociates(read, [p(left).value], tail.value);
      }
    }
  }

  lemma ItemsEnd<T>(p: Parser<T>, count: nat, start: seq<byte>, read: seq<T>, left: seq<byte>)
    requires SameItems(p, count, start, read, left) && |read| == count
    ensures ReadItems(p, count, start) == Got(read, left)
  {
    assert read + [] == read;
  }
}
