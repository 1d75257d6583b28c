/** Unpadded base64url (RFC 4648, section 5): the strict decoder against the encoding it must undo. */
module Base64Url {
  import opened Bytes
  import opened Sequences
  import opened Wrappers

  type sextet = v: int | 0 <= v < 64

  /** The alphabet. */
  function Char(v: sextet): byte {
    if v < 26 then 65 + v
    else if v < 52 then 97 + v - 26
    else if v < 62 then 48 + v - 52
    else if v == 62 then 45
    else 95
  }

  /** The value of one character, if it is in the alphabet. */
  function Sextet(c: byte): Option<sextet> {
    if 65 <= c <= 90 then Some(c - 65)
    else if 97 <= c <= 122 then Some(c - 97 + 26)
    else if 48 <= c <= 57 then Some(c - 48 + 52)
    else if c == 45 then Some(62)
    else if c == 95 then Some(63)
    else None
  }

  // ---- the encoding, three bytes to four characters ----------------------------------

  function Sextet0(x: byte): sextet {
    x / 4
  }

  function Sextet1(x: byte, y: byte): sextet {
    x as int % 4 * 16 + y / 16
  }

  function Sextet2(y: byte, z: byte): sextet {
    y as int % 16 * 4 + z / 64
  }

  function Sextet3(z: byte): sextet {
    z % 64
  }

  /** A short last group is filled with zero bits. */
  function Sextets(x: seq<byte>): seq<sextet> {
    if |x| == 0 then []
    else if |x| == 1 then [Sextet0(x[0]), Sextet1(x[0], 0)]
    else if |x| == 2 then [Sextet0(x[0]), Sextet1(x[0], x[1]), Sextet2(x[1], 0)]
    else [Sextet0(x[0]), Sextet1(x[0], x[1]), Sextet2(x[1], x[2]), Sextet3(x[2])] + Sextets(x[3..])
  }

  function Chars(vs: seq<sextet>): (s: seq<byte>)
    ensures |s| == |vs|
  {
    seq(|vs|, i requires 0 <= i < |vs| => Char(vs[i]))
  }

  function Encode(x: seq<byte>): seq<byte> {
    Chars(Sextets(x))
  }

  // ---- the meaning of the decoder ----------------------------------------------------

  predicate InAlphabet(s: seq<byte>) {
    forall i :: 0 <= i < |s| ==> Sextet(s[i]).Some?
  }

  function Values(s: seq<byte>): (vs: seq<sextet>)
    requires InAlphabet(s)
    ensures |vs| == |s|
  {
    seq(|s|, i requires 0 <= i < |s| => Sextet(s[i]).value)
  }

  function Byte0(a: sextet, b: sextet): byte {
    a as int * 4 + b / 16
  }

  function Byte1(b: sextet, c: sextet): byte {
    b as int % 16 * 16 + c / 4
  }

  function Byte2(c: sextet, d: sextet): byte {
    c as int % 4 * 64 + d
  }

  /** The whole bytes the sextets hold. */
  function Packed(vs: seq<sextet>): seq<byte> {
    if |vs| < 2 then []
    else if |vs| == 2 then [Byte0(vs[0], vs[1])]
    else if |vs| == 3 then [Byte0(vs[0], vs[1]), Byte1(vs[1], vs[2])]
    else [Byte0(vs[0], vs[1]), Byte1(vs[1], vs[2]), Byte2(vs[2], vs[3])] + Packed(vs[4..])
  }

  /** The bits left over past the last whole byte. */
  function Leftover(vs: seq<sextet>): (left: nat)
    ensures left < Power2(LeftoverBits(|vs|))
  {
    if |vs| == 0 then 0
    else if |vs| == 1 then vs[0]
    else if |vs| == 2 then vs[1] % 16
    else if |vs| == 3 then vs[2] % 4
    else Leftover(vs[4..])
  }

  function LeftoverBits(count: nat): nat {
    if count % 4 == 0 then 0 else if count % 4 == 1 then 6 else if count % 4 == 2 then 4 else 2
  }

  /** The powers of two the accumulator is cut at. */
  function Power2(bits: nat): nat {
    if bits == 0 then 1 else if bits == 2 then 4 else if bits == 4 then 16 else 64
  }

  function Decode(s: seq<byte>, limit: nat): Option<seq<byte>> {
    if |s| > limit || |s| % 4 == 1 || !InAlphabet(s) || Leftover(Values(s)) != 0 then None
    else Some(Packed(Values(s)))
  }

  // ---- decoding is exactly undoing the encoding --------------------------------------

  lemma CharOfSextet(c: byte)
    ensures Sextet(c).Some? ==> Char(Sextet(c).value) == c
  {
  }

  lemma SextetOfChar(v: sextet)
    ensures Sextet(Char(v)) == Some(v)
  {
  }

  lemma BytesOfSextets(x: byte, y: byte, z: byte)
    ensures Byte0(Sextet0(x), Sextet1(x, y)) == x
    ensures Byte1(Sextet1(x, y), Sextet2(y, z)) == y
    ensures Byte2(Sextet2(y, z), Sextet3(z)) == z
    ensures Sextet1(x, 0) % 16 == 0 && Sextet2(y, 0) % 4 == 0
  {
  }

  lemma SextetsOfBytes(a: sextet, b: sextet, c: sextet, d: sextet)
    ensures Sextet0(Byte0(a, b)) == a
    ensures Sextet1(Byte0(a, b), Byte1(b, c)) == b
    ensures Sextet2(Byte1(b, c), Byte2(c, d)) == c
    ensures Sextet3(Byte2(c, d)) == d
    ensures b % 16 == 0 ==> Sextet1(Byte0(a, b), 0) == b
    ensures c % 4 == 0 ==> Sextet2(Byte1(b, c), 0) == c
  {
  }

  lemma {:induction false} PackedSextets(x: seq<byte>)
    ensures Packed(Sextets(x)) == x && Leftover(Sextets(x)) == 0 && |Sextets(x)| % 4 != 1
  {
    hide Sextet0, Sextet1, Sextet2, Sextet3, Byte0, Byte1, Byte2;
    if |x| >= 3 {
      BytesOfSextets(x[0], x[1], x[2]);
      PackedSextets(x[3..]);
      assert Sextets(x)[4..] == Sextets(x[3..]);
      assert x == [x[0], x[1], x[2]] + x[3..];
    } else if |x| == 2 {
      BytesOfSextets(x[0], x[1], 0);
    } else if |x| == 1 {
      BytesOfSextets(x[0], 0, 0);
    }
  }

  lemma {:induction false} SextetsPacked(vs: seq<sextet>)
    requires |vs| % 4 != 1 && Leftover(vs) == 0
    ensures Sextets(Packed(vs)) == vs
  {
    hide Sextet0, Sextet1, Sextet2, Sextet3, Byte0, Byte1, Byte2;
    if |vs| >= 4 {
      SextetsOfBytes(vs[0], vs[1], vs[2], vs[3]);
      SextetsPacked(vs[4..]);
      assert Packed(vs)[3..] == Packed(vs[4..]);
      assert vs == [vs[0], vs[1], vs[2], vs[3]] + vs[4..];
    } else if |vs| == 3 {
      SextetsOfBytes(vs[0], vs[1], vs[2], 0);
      assert vs == [vs[0], vs[1], vs[2]];
    } else if |vs| == 2 {
      SextetsOfBytes(vs[0], vs[1], 0, 0);
      assert vs == [vs[0], vs[1]];
    }
  }

  /** A text decodes to `x` exactly when it is within the limit and is the encoding of `x`. */
  lemma DecodeIff(s: seq<byte>, limit: nat, x: seq<byte>)
    ensures Decode(s, limit) == Some(x) <==> |s| <= limit && s == Encode(x)
  {
    if Decode(s, limit) == Some(x) {
      SextetsPacked(Values(s));
      forall i | 0 <= i < |s| ensures Encode(x)[i] == s[i] {
        CharOfSextet(s[i]);
      }
    }
    if |s| <= limit && s == Encode(x) {
      PackedSextets(x);
      forall i | 0 <= i < |s| ensures Sextet(s[i]) == Some(Sextets(x)[i]) {
        SextetOfChar(Sextets(x)[i]);
      }
      assert Values(s) == Sextets(x);
    }
  }

  /** No two accepted texts decode alike. */
  lemma DecodeIsInjective(s: seq<byte>, t: seq<byte>, limit: nat)
    requires Decode(s, limit).Some? && Decode(s, limit) == Decode(t, limit)
    ensures s == t
  {
    DecodeIff(s, limit, Decode(s, limit).value);
    DecodeIff(t, limit, Decode(t, limit).value);
  }

  // ---- the algorithm -------------------------------------------------------------------

  /** The byte a sextet completes, given the bits left over before it; none at the start of a quantum. */
  function Completed(bits: nat, left: nat, v: sextet): seq<byte>
    requires left < Power2(bits)
  {
    if bits == 0 then []
    else if bits == 2 then [left * 64 + v]
    else if bits == 4 then [left * 16 + v / 4]
    else [left * 4 + v / 16]
  }

  function Remaining(bits: nat, v: sextet): nat {
    if bits == 0 then v else if bits == 2 then 0 else if bits == 4 then v % 4 else v % 16
  }

  lemma CompletedBytes(a: sextet, b: sextet)
    ensures Completed(6, a, b) == [Byte0(a, b)]
    ensures Completed(4, a % 16, b) == [Byte1(a, b)]
    ensures Completed(2, a % 4, b) == [Byte2(a, b)]
  {
  }

  /** What `PushSextet` says of one sextet more. */
  ghost predicate Pushes(vs: seq<sextet>, v: sextet) {
    && Packed(vs + [v]) == Packed(vs) + Completed(LeftoverBits(|vs|), Leftover(vs), v)
    && Leftover(vs + [v]) == Remaining(LeftoverBits(|vs|), v)
  }

  lemma PushFirst(vs: seq<sextet>, v: sextet)
    requires |vs| == 0
    ensures Pushes(vs, v)
  {
    NothingCompleted(Leftover(vs), v);
  }

  lemma PushSecond(vs: seq<sextet>, v: sextet)
    requires |vs| == 1
    ensures Pushes(vs, v)
  {
    hide Byte0, Power2, Completed;
    CompletedBytes(vs[0], v);
    assert Packed(vs + [v]) == [Byte0(vs[0], v)] && Packed(vs) == [];
    assert Leftover(vs) == vs[0] && LeftoverBits(|vs|) == 6;
    assert Completed(LeftoverBits(|vs|), Leftover(vs), v) == [Byte0(vs[0], v)];
  }

  lemma PushThird(vs: seq<sextet>, v: sextet)
    requires |vs| == 2
    ensures Pushes(vs, v)
  {
    hide Byte0, Byte1, Power2, Completed;
    CompletedBytes(vs[1], v);
    assert Packed(vs + [v]) == [Byte0(vs[0], vs[1]), Byte1(vs[1], v)] && Packed(vs) == [Byte0(vs[0], vs[1])];
    assert Leftover(vs) == vs[1] % 16 && LeftoverBits(|vs|) == 4;
    assert Completed(LeftoverBits(|vs|), Leftover(vs), v) == [Byte1(vs[1], v)];
  }

  lemma PushFourth(vs: seq<sextet>, v: sextet)
    requires |vs| == 3
    ensures Pushes(vs, v)
  {
    hide Byte0, Byte1, Byte2, Power2, Completed;
    CompletedBytes(vs[2], v);
    assert (vs + [v])[4..] == [] && Packed([]) == [];
    assert Packed(vs + [v]) == [Byte0(vs[0], vs[1]), Byte1(vs[1], vs[2]), Byte2(vs[2], v)];
    assert Packed(vs) == [Byte0(vs[0], vs[1]), Byte1(vs[1], vs[2])];
    assert Leftover(vs) == vs[2] % 4 && LeftoverBits(|vs|) == 2;
    assert Completed(LeftoverBits(|vs|), Leftover(vs), v) == [Byte2(vs[2], v)];
    assert Leftover((vs + [v])[4..]) == 0;
  }

  lemma NothingCompleted(left: nat, v: sextet)
    requires left < Power2(0)
    ensures Completed(0, left, v) == []
  {
  }

  lemma {:induction false} PushSextet(vs: seq<sextet>, v: sextet)
    ensures Pushes(vs, v)
  {
    if |vs| == 0 {
      PushFirst(vs, v);
    } else if |vs| == 1 {
      PushSecond(vs, v);
    } else if |vs| == 2 {
      PushThird(vs, v);
    } else if |vs| == 3 {
      PushFourth(vs, v);
    } else {
      hide Completed, Remaining, Byte0, Byte1, Byte2, Power2, LeftoverBits;
      var tail, longer := vs[4..], vs + [v];
      PushSextet(tail, v);
      SameBits(|tail|);
      assert longer[4..] == tail + [v];
      var first := [Byte0(vs[0], vs[1]), Byte1(vs[1], vs[2]), Byte2(vs[2], vs[3])];
      assert Packed(longer) == first + Packed(tail + [v]) && Packed(vs) == first + Packed(tail);
      assert Leftover(vs) == Leftover(tail);
      AppendAssociates(first, Packed(tail), Completed(LeftoverBits(|tail|), Leftover(tail), v));
    }
  }

  lemma SameBits(count: nat)
    ensures LeftoverBits(count + 4) == LeftoverBits(count)
  {
  }

  lemma NextBits(count: nat)
    ensures LeftoverBits(count) in {0, 2, 4, 6}
    ensures LeftoverBits(count + 1) == if LeftoverBits(count) == 0 then 6 else LeftoverBits(count) - 2
  {
  }

  const TWO_32 := 0x1_0000_0000

  /** Dropping the bits above 32 keeps the lowest twelve. */
  lemma LowBitsSurvive(x: nat)
    ensures x % TWO_32 % 4096 == x % 4096
  {
    var q := x / TWO_32;
    assert x == 4096 * (1048576 * q) + x % TWO_32;
  }

  lemma DivideBy4(n: nat, q: nat, r: nat)
    requires n == 4 * q + r && r < 4
    ensures n / 4 == q && n % 4 == r
  {
  }

  lemma DivideBy16(n: nat, q: nat, r: nat)
    requires n == 16 * q + r && r < 16
    ensures n / 16 == q && n % 16 == r
  {
  }

  lemma DivideBy64(n: nat, q: nat, r: nat)
    requires n == 64 * q + r && r < 64
    ensures n / 64 == q && n % 64 == r
  {
  }

  lemma DivideBy256(n: nat, q: nat, r: nat)
    requires n == 256 * q + r && r < 256
    ensures n / 256 == q && n % 256 == r
  {
  }

  lemma DivideBy4096(n: nat, q: nat, r: nat)
    requires n == 4096 * q + r && r < 4096
    ensures n / 4096 == q && n % 4096 == r
  {
  }

  /** The low twelve bits after a shift, from the low six before it. */
  lemma ShiftedBits(acc: nat, v: sextet) returns (high: nat)
    ensures (acc * 64 + v) % TWO_32 == 4096 * high + acc % 64 * 64 + v
  {
    var x := acc * 64 + v;
    LowBitsSurvive(x);
    DivideBy4096(x, acc / 64, acc % 64 * 64 + v);
    high := x % TWO_32 / 4096;
  }

  /** What one shift keeps: the byte it completes, if any, and the bits left over after it. */
  ghost predicate Keeps(bits: nat, next: nat, acc: nat, shifted: nat, v: sextet) {
    && (bits > 0 ==> [shifted / Power2(next) % 256] == Completed(bits, acc % Power2(bits), v))
    && shifted % Power2(next) == Remaining(bits, v)
  }

  lemma KeepsNone(acc: nat, shifted: nat, high: nat, v: sextet)
    requires shifted == 4096 * high + acc % 64 * 64 + v
    ensures Keeps(0, 6, acc, shifted, v)
  {
    DivideBy64(shifted, 64 * high + acc % 64, v);
  }

  lemma KeepsSix(acc: nat, shifted: nat, high: nat, v: sextet)
    requires shifted == 4096 * high + acc % 64 * 64 + v
    ensures Keeps(6, 4, acc, shifted, v)
  {
    var low := acc % 64;
    DivideBy16(shifted, 256 * high + low * 4 + v / 16, v % 16);
    DivideBy256(256 * high + low * 4 + v / 16, high, low * 4 + v / 16);
  }

  lemma KeepsFour(acc: nat, shifted: nat, high: nat, v: sextet)
    requires shifted == 4096 * high + acc % 64 * 64 + v
    ensures Keeps(4, 2, acc, shifted, v)
  {
    var low := acc % 64;
    DivideBy16(acc, acc / 64 * 4 + low / 16, low % 16);
    DivideBy4(shifted, 1024 * high + low * 16 + v / 4, v % 4);
    DivideBy256(1024 * high + low * 16 + v / 4, 4 * high + low / 16, low % 16 * 16 + v / 4);
  }

  lemma KeepsTwo(acc: nat, shifted: nat, high: nat, v: sextet)
    requires shifted == 4096 * high + acc % 64 * 64 + v
    ensures Keeps(2, 0, acc, shifted, v)
  {
    var low := acc % 64;
    DivideBy4(acc, acc / 64 * 16 + low / 4, low % 4);
    DivideBy256(shifted, 16 * high + low / 4, low % 4 * 64 + v);
  }

  /** The unmasked accumulator keeps the leftover bits intact, whatever the shifts push out above them. */
  lemma ShiftKeepsLeftover(acc: nat, bits: nat, v: sextet)
    requires bits in {0, 2, 4, 6}
    ensures Keeps(bits, if bits == 0 then 6 else bits - 2, acc, (acc * 64 + v) % TWO_32, v)
  {
    hide Keeps;
    var shifted := (acc * 64 + v) % TWO_32;
    var high := ShiftedBits(acc, v);
    if bits == 0 {
      KeepsNone(acc, shifted, high, v);
    } else if bits == 6 {
      KeepsSix(acc, shifted, high, v);
    } else if bits == 4 {
      KeepsFour(acc, shifted, high, v);
    } else {
      KeepsTwo(acc, shifted, high, v);
    }
  }

  method DecodeWithLimit(s: seq<byte>, limit: nat) returns (r: Option<seq<byte>>)
    ensures r == Decode(s, limit)
  {
    if |s| > limit {
      return None;
    }
    if |s| % 4 == 1 {
      return None;
    }
    hide Packed, Leftover, LeftoverBits, Power2, Remaining, Sextet;
    var out: seq<byte> := [];
    var acc: nat, bits: nat := 0, 0;
    ghost var vs: seq<sextet> := [];
    for i := 0 to |s|
      invariant |vs| == i && forall j :: 0 <= j < i ==> Sextet(s[j]) == Some(vs[j])
      invariant bits == LeftoverBits(i) && acc < TWO_32
      invariant acc % Power2(bits) == Leftover(vs)
      invariant out == Packed(vs)
    {
      var value := Sextet(s[i]);
      if value.None? {
        return None;
      }
      NextBits(i);
      PushSextet(vs, value.value);
      ShiftKeepsLeftover(acc, bits, value.value);
      acc, bits := (acc * 64 + value.value) % TWO_32, bits + 6;
      if bits >= 8 {
        bits := bits - 8;
        out := out + [acc / Power2(bits) % 256];
      }
      vs := vs + [value.value];
    }
    assert vs == Values(s);
    if bits > 0 && acc % Power2(bits) != 0 {
      return None;
    }
    return Some(out);
  }
}
