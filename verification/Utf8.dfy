/** Well-formed UTF-8 is what encoding Unicode scalar values gives (RFC 3629, sections 3 and 4). */
module Utf8 {
  import opened Bytes
  import opened Sequences

  predicate IsScalar(c: nat) {
    c < 0xD800 || 0xE000 <= c < 0x11_0000
  }

  /** One scalar value in one to four bytes. */
  function Coded(c: nat): (s: seq<byte>)
    requires IsScalar(c)
    ensures s != []
  {
    if c < 0x80 then [c]
    else if c < 0x800 then [0xC0 + c / 64, 0x80 + c % 64]
    else if c < 0x1_0000 then [0xE0 + c / 4096, 0x80 + c / 64 % 64, 0x80 + c % 64]
    else [0xF0 + c / 262144, 0x80 + c / 4096 % 64, 0x80 + c / 64 % 64, 0x80 + c % 64]
  }

  ghost predicate AreScalars(cs: seq<nat>) {
    forall i :: 0 <= i < |cs| ==> IsScalar(cs[i])
  }

  function Encoded(cs: seq<nat>): seq<byte>
    requires AreScalars(cs)
  {
    if cs == [] then [] else Coded(cs[0]) + Encoded(cs[1..])
  }

  lemma CodedIsValid(c: nat, rest: seq<byte>)
    requires IsScalar(c)
    ensures ValidUtf8(Coded(c) + rest) <==> ValidUtf8(rest)
  {
    var s := Coded(c) + rest;
    assert s[|Coded(c)|..] == rest;
    if c < 0x80 {
    } else if c < 0x800 {
      assert 2 <= c / 64 < 32;
    } else if c < 0x1_0000 {
      assert c / 64 == c / 4096 * 64 + c / 64 % 64;
      assert c / 4096 == 0 ==> c / 64 % 64 >= 32;
      assert c / 4096 == 13 ==> c / 64 % 64 < 32;
    } else {
      assert c / 4096 == c / 262144 * 64 + c / 4096 % 64;
      assert c / 262144 == 0 ==> c / 4096 % 64 >= 16;
      assert c / 262144 == 4 ==> c / 4096 % 64 < 16;
    }
  }

  lemma {:induction false} EncodedIsValid(cs: seq<nat>)
    requires AreScalars(cs)
    ensures ValidUtf8(Encoded(cs))
  {
    if cs == [] {
    } else {
      EncodedIsValid(cs[1..]);
      CodedIsValid(cs[0], Encoded(cs[1..]));
    }
  }

  /** The first scalar value of a well-formed text. */
  lemma FirstScalar(s: seq<byte>) returns (c: nat)
    requires s != [] && ValidUtf8(s)
    ensures IsScalar(c) && |Coded(c)| <= |s| && s[..|Coded(c)|] == Coded(c) && ValidUtf8(s[|Coded(c)|..])
  {
    var first: int := s[0];
    if first < 0x80 {
      c := first;
    } else if first < 0xE0 {
      var second: int := s[1];
      c := (first - 0xC0) * 64 + (second - 0x80);
      assert c / 64 == first - 0xC0 && c % 64 == second - 0x80;
    } else if first < 0xF0 {
      var second: int, third: int := s[1], s[2];
      var high := (first - 0xE0) * 64 + (second - 0x80);
      c := high * 64 + (third - 0x80);
      assert c / 64 == high && c % 64 == third - 0x80 && c / 4096 == high / 64;
      assert high / 64 == first - 0xE0 && high % 64 == second - 0x80;
    } else {
      var second: int, third: int, fourth: int := s[1], s[2], s[3];
      var top := (first - 0xF0) * 64 + (second - 0x80);
      var high := top * 64 + (third - 0x80);
      c := high * 64 + (fourth - 0x80);
      assert c / 64 == high && c % 64 == fourth - 0x80 && c / 4096 == top && c / 262144 == top / 64;
      assert high % 64 == third - 0x80 && top / 64 == first - 0xF0 && top % 64 == second - 0x80;
    }
  }

  lemma {:induction false} ScalarsOf(s: seq<byte>) returns (cs: seq<nat>)
    requires ValidUtf8(s)
    ensures AreScalars(cs) && Encoded(cs) == s
    decreases |s|
  {
    if s == [] {
      return [];
    }
    var c := FirstScalar(s);
    var rest := ScalarsOf(s[|Coded(c)|..]);
    cs := [c] + rest;
    assert cs[1..] == rest;
  }

  /** A byte sequence is accepted exactly when it encodes some scalar values. */
  lemma ValidIff(s: seq<byte>)
    ensures ValidUtf8(s) <==> exists cs :: AreScalars(cs) && Encoded(cs) == s
  {
    if ValidUtf8(s) {
      var cs := ScalarsOf(s);
    }
    if cs :| AreScalars(cs) && Encoded(cs) == s {
      EncodedIsValid(cs);
    }
  }
}
