/** LEB128 integers (WebAssembly core specification, section 5.2.2). */
module Leb128 {
  import opened Bytes
  import opened Sequences

  /** A successful read and the bytes it leaves, or a format error. */
  datatype Read<+T> = Got(value: T, rest: seq<byte>) | Bad

  const TWO_32 := 0x1_0000_0000

  // ---- seven-bit groups, least significant first ---------------------------------------

  function Pow128(n: nat): (p: int)
    ensures p >= 1
  {
    if n == 0 then 1 else 128 * Pow128(n - 1)
  }

  type group = g: nat | g < 128

  function Value(groups: seq<group>): (v: nat)
  {
    if groups == [] then 0 else groups[0] + 128 * Value(groups[1..])
  }

  /** Groups up to and including the first byte without the continuation bit, at most `most` of them. */
  function ReadGroups(read: seq<group>, s: seq<byte>, most: nat): Read<seq<group>>
    decreases most
  {
    if most == 0 || s == [] then Bad
    else if s[0] < 128 then Got(read + [s[0]], s[1..])
    else ReadGroups(read + [s[0] - 128], s[1..], most - 1)
  }

  function MostBytes(bits: nat): nat {
    (bits + 6) / 7
  }

  function Pow2(n: nat): (p: int)
    ensures p >= 1
  {
    if n == 0 then 1 else 2 * Pow2(n - 1)
  }

  /** The groups as a two's-complement number when signed: the last group's sixth bit is the sign. */
  function Integer(groups: seq<group>, signed: bool): int {
    var value: int := Value(groups);
    if signed && groups != [] && groups[|groups| - 1] >= 64 then value - Pow128(|groups|) else value
  }

  function Lowest(bits: nat, signed: bool): int
    requires bits > 0
  {
    if signed then -Pow2(bits - 1) else 0
  }

  function Bound(bits: nat, signed: bool): int
    requires bits > 0
  {
    if signed then Pow2(bits - 1) else Pow2(bits)
  }

  function ReadInteger(s: seq<byte>, bits: nat, signed: bool): Read<int>
    requires bits > 0
  {
    match ReadGroups([], s, MostBytes(bits))
    case Bad => Bad
    case Got(groups, rest) =>
      var result := Integer(groups, signed);
      if Lowest(bits, signed) <= result < Bound(bits, signed) then Got(result, rest) else Bad
  }

  function ReadU32(s: seq<byte>): Read<nat> {
    match ReadGroups([], s, 5)
    case Bad => Bad
    case Got(groups, rest) => if Value(groups) < TWO_32 then Got(Value(groups), rest) else Bad
  }

  lemma Pow2Values()
    ensures Pow2(32) == TWO_32
  {
    assert Pow2(8) == 256;
    assert Pow2(16) == 65536 by {
      assert Pow2(12) == 4096;
    }
    assert Pow2(20) == 1048576;
    assert Pow2(24) == 16777216;
    assert Pow2(28) == 268435456;
  }

  /** `u32` is the unsigned 32-bit integer. */
  lemma U32IsInteger(s: seq<byte>)
    ensures ReadInteger(s, 32, false) == (match ReadU32(s) case Bad => Bad case Got(v, rest) => Got(v, rest))
  {
    Pow2Values();
    assert MostBytes(32) == 5;
    hide Pow2, Pow128, ReadGroups, Value, MostBytes;
  }

  // ---- encoding --------------------------------------------------------------------------

  /** Seven bits to a byte, low bits first, with no padding groups. */
  function Encode(value: nat): (s: seq<byte>)
    ensures s != []
  {
    if value < 128 then [value] else [value % 128 + 128] + Encode(value / 128)
  }

  function Groups(value: nat): (groups: seq<group>)
    ensures |groups| == |Encode(value)| && Value(groups) == value
  {
    if value < 128 then [value] else [value % 128] + Groups(value / 128)
  }

  lemma {:induction false} EncodedReads(read: seq<group>, value: nat, most: nat, t: seq<byte>)
    requires |Encode(value)| <= most
    ensures ReadGroups(read, Encode(value) + t, most) == Got(read + Groups(value), t)
    decreases most
  {
    if value < 128 {
      assert (Encode(value) + t)[1..] == t;
    } else {
      assert (Encode(value) + t)[1..] == Encode(value / 128) + t;
      EncodedReads(read + [value % 128], value / 128, most - 1, t);
      AppendAssociates(read, [value % 128], Groups(value / 128));
    }
  }

  /** No number below 128 to the `count` needs more than `count` bytes. */
  lemma {:induction false} EncodedLength(value: nat, count: nat)
    requires count >= 1 && value < Pow128(count)
    ensures |Encode(value)| <= count
  {
    if value < 128 {
    } else {
      EncodedLength(value / 128, count - 1);
    }
  }

  lemma Pow128Values()
    ensures TWO_32 <= Pow128(5)
  {
    assert Pow128(3) == 128 * 128 * 128;
  }

  /** `u32` undoes the encoding of every 32-bit number, in at most five bytes, and leaves exactly what follows. */
  lemma U32RoundTrip(value: nat, t: seq<byte>)
    requires value < TWO_32
    ensures |Encode(value)| <= 5 && ReadU32(Encode(value) + t) == Got(value, t)
  {
    Pow128Values();
    EncodedLength(value, 5);
    EncodedReads([], value, 5, t);
    assert [] + Groups(value) == Groups(value);
  }

  // ---- reading depends only on the bytes read ------------------------------------------

  /** The bytes a read used. */
  function Used(s: seq<byte>, rest: seq<byte>): seq<byte>
    requires |rest| <= |s|
  {
    s[..|s| - |rest|]
  }

  /** How many bytes the read used. */
  lemma {:induction false} GroupsUse(read: seq<group>, s: seq<byte>, most: nat)
    requires ReadGroups(read, s, most).Got?
    ensures var got := ReadGroups(read, s, most);
      |read| < |got.value| && |got.rest| == |s| - (|got.value| - |read|) && s == Used(s, got.rest) + got.rest
    decreases most
  {
    if s[0] < 128 {
    } else {
      GroupsUse(read + [s[0] - 128], s[1..], most - 1);
      assert s == [s[0]] + s[1..];
    }
  }

  lemma UsedFirst(s: seq<byte>, rest: seq<byte>, t: seq<byte>)
    requires |rest| < |s|
    ensures Used(s, rest) + t != [] && (Used(s, rest) + t)[0] == s[0]
    ensures (Used(s, rest) + t)[1..] == Used(s[1..], rest) + t
  {
  }

  lemma {:induction false} GroupsAreExact(read: seq<group>, s: seq<byte>, most: nat, t: seq<byte>)
    requires ReadGroups(read, s, most).Got?
    ensures var got := ReadGroups(read, s, most);
      && |read| < |got.value| && |got.rest| == |s| - (|got.value| - |read|)
      && s == Used(s, got.rest) + got.rest
      && ReadGroups(read, Used(s, got.rest) + t, most) == Got(got.value, t)
    decreases most
  {
    hide Used;
    var got := ReadGroups(read, s, most);
    GroupsUse(read, s, most);
    UsedFirst(s, got.rest, t);
    if s[0] < 128 {
      NothingUsed(s[1..], t);
    } else {
      GroupsAreExact(read + [s[0] - 128], s[1..], most - 1, t);
    }
  }

  lemma NothingUsed(s: seq<byte>, t: seq<byte>)
    ensures Used(s, s) + t == t
  {
  }

  lemma {:induction false} ValueBound(groups: seq<group>)
    ensures Value(groups) < Pow128(|groups|)
  {
    if groups == [] {
    } else {
      ValueBound(groups[1..]);
    }
  }

  /** The encoder's form is the shortest of all that read as the same number. */
  lemma EncodingIsShortest(s: seq<byte>)
    requires ReadU32(s).Got?
    ensures |Encode(ReadU32(s).value)| + |ReadU32(s).rest| <= |s|
  {
    GroupsAreExact([], s, 5, []);
    var groups := ReadGroups([], s, 5).value;
    ValueBound(groups);
    EncodedLength(Value(groups), |groups|);
  }

  lemma {:induction false} ValuePush(groups: seq<group>, g: group)
    ensures Value(groups + [g]) == Value(groups) + g * Pow128(|groups|)
  {
    if groups == [] {
      assert [g][1..] == [];
    } else {
      assert (groups + [g])[1..] == groups[1..] + [g];
      ValuePush(groups[1..], g);
      assert 128 * (g * Pow128(|groups| - 1)) == g * Pow128(|groups|);
    }
  }

  // ---- the algorithms ----------------------------------------------------------------------

  method EncodeU32(value: nat) returns (out: seq<byte>)
    ensures out == Encode(value)
  {
    out := [];
    var left := value;
    while true
      invariant out + Encode(left) == Encode(value)
      decreases left
    {
      var low := left % 128;
      left := left / 128;
      if left == 0 {
        out := out + [low];
        return;
      }
      AppendAssociates(out, [low + 128], Encode(left));
      out := out + [low + 128];
    }
  }
}
