/** Reading the WebAssembly binary format: what each read accepts, and that it depends only on the bytes it uses. */
module WasmBinary {
  import opened Bytes
  import opened Sequences
  import opened Leb128

  type Parser<T> = seq<byte> -> Read<T>

  // ---- prints and exact reads ------------------------------------------------------------

  /** Whatever follows them, the bytes read as the value and leave what follows. */
  ghost predicate Prints<T>(p: Parser<T>, bytes: seq<byte>, value: T) {
    forall t :: p(bytes + t) == Got(value, t)
  }

  ghost predicate ExactAt<T>(p: Parser<T>, s: seq<byte>)
    requires p(s).Got?
  {
    && |p(s).rest| <= |s|
    && s == Used(s, p(s).rest) + p(s).rest
    && Prints(p, Used(s, p(s).rest), p(s).value)
  }

  /** Every successful read splits its input into the bytes it used, which print the value, and the rest. */
  ghost predicate Exact<T>(p: Parser<T>) {
    forall s :: p(s).Got? ==> ExactAt(p, s)
  }

  lemma UsedAndRest(used: seq<byte>, rest: seq<byte>)
    ensures Used(used + rest, rest) == used
  {
  }

  // ---- sequencing ------------------------------------------------------------------------

  function Bind<A, B>(p: Parser<A>, f: A -> Parser<B>): Parser<B> {
    (s: seq<byte>) =>
      match p(s)
      case Bad => Bad
      case Got(a, rest) => f(a)(rest)
  }

  function Return<A>(a: A): Parser<A> {
    (s: seq<byte>) => Got(a, s)
  }

  lemma ReturnPrints<A>(a: A)
    ensures Prints(Return(a), [], a) && Exact(Return(a))
  {
    forall t: seq<byte> ensures [] + t == t {}
    forall s: seq<byte> ensures ExactAt(Return(a), s) {
      assert Used(s, s) == [];
    }
  }

  lemma BindPrints<A, B>(p: Parser<A>, f: A -> Parser<B>, first: seq<byte>, a: A, second: seq<byte>, b: B)
    requires Prints(p, first, a) && Prints(f(a), second, b)
    ensures Prints(Bind(p, f), first + second, b)
  {
    forall t ensures Bind(p, f)(first + second + t) == Got(b, t) {
      AppendAssociates(first, second, t);
      assert p(first + (second + t)) == Got(a, second + t);
    }
  }

  lemma BindIsExact<A(!new), B>(p: Parser<A>, f: A -> Parser<B>)
    requires Exact(p) && forall a :: Exact(f(a))
    ensures Exact(Bind(p, f))
  {
    forall s | Bind(p, f)(s).Got? ensures ExactAt(Bind(p, f), s) {
      var first := p(s);
      var second := f(first.value)(first.rest);
      assert ExactAt(p, s);
      assert Exact(f(first.value)) && ExactAt(f(first.value), first.rest);
      var head, tail := Used(s, first.rest), Used(first.rest, second.rest);
      BindPrints(p, f, head, first.value, tail, second.value);
      AppendAssociates(head, tail, second.rest);
      UsedAndRest(head + tail, second.rest);
    }
  }

  function Map<A, B>(p: Parser<A>, f: A -> B): Parser<B> {
    (s: seq<byte>) =>
      match p(s)
      case Bad => Bad
      case Got(a, rest) => Got(f(a), rest)
  }

  /** A read whose value must satisfy a condition. */
  function Where<A>(p: Parser<A>, ok: A -> bool): Parser<A> {
    (s: seq<byte>) =>
      match p(s)
      case Bad => Bad
      case Got(a, rest) => if ok(a) then Got(a, rest) else Bad
  }

  function Pair<A, B>(p: Parser<A>, q: Parser<B>): Parser<(A, B)> {
    (s: seq<byte>) =>
      match p(s)
      case Bad => Bad
      case Got(a, rest) =>
        match q(rest)
        case Bad => Bad
        case Got(b, left) => Got((a, b), left)
  }

  lemma MapPrints<A, B>(p: Parser<A>, f: A -> B, bytes: seq<byte>, a: A)
    requires Prints(p, bytes, a)
    ensures Prints(Map(p, f), bytes, f(a))
  {
    forall t ensures Map(p, f)(bytes + t) == Got(f(a), t) {
      assert p(bytes + t) == Got(a, t);
    }
  }

  lemma MapIsExact<A, B>(p: Parser<A>, f: A -> B)
    requires Exact(p)
    ensures Exact(Map(p, f))
  {
    forall s | Map(p, f)(s).Got? ensures ExactAt(Map(p, f), s) {
      assert ExactAt(p, s);
      MapPrints(p, f, Used(s, p(s).rest), p(s).value);
    }
  }

  lemma WherePrints<A>(p: Parser<A>, ok: A -> bool, bytes: seq<byte>, a: A)
    requires Prints(p, bytes, a) && ok(a)
    ensures Prints(Where(p, ok), bytes, a)
  {
    forall t ensures Where(p, ok)(bytes + t) == Got(a, t) {
      assert p(bytes + t) == Got(a, t);
    }
  }

  lemma WhereIsExact<A>(p: Parser<A>, ok: A -> bool)
    requires Exact(p)
    ensures Exact(Where(p, ok))
  {
    forall s | Where(p, ok)(s).Got? ensures ExactAt(Where(p, ok), s) {
      assert ExactAt(p, s);
      WherePrints(p, ok, Used(s, p(s).rest), p(s).value);
    }
  }

  lemma PairPrints<A, B>(p: Parser<A>, q: Parser<B>, first: seq<byte>, a: A, second: seq<byte>, b: B)
    requires Prints(p, first, a) && Prints(q, second, b)
    ensures Prints(Pair(p, q), first + second, (a, b))
  {
    forall t ensures Pair(p, q)(first + second + t) == Got((a, b), t) {
      AppendAssociates(first, second, t);
      assert p(first + (second + t)) == Got(a, second + t);
      assert q(second + t) == Got(b, t);
    }
  }

  lemma PairIsExact<A, B>(p: Parser<A>, q: Parser<B>)
    requires Exact(p) && Exact(q)
    ensures Exact(Pair(p, q))
  {
    forall s | Pair(p, q)(s).Got? ensures ExactAt(Pair(p, q), s) {
      var first := p(s);
      var second := q(first.rest);
      assert ExactAt(p, s) && ExactAt(q, first.rest);
      var head, tail := Used(s, first.rest), Used(first.rest, second.rest);
      PairPrints(p, q, head, first.value, tail, second.value);
      AppendAssociates(head, tail, second.rest);
      UsedAndRest(head + tail, second.rest);
    }
  }

  // ---- bytes and integers ------------------------------------------------------------------

  function AnyByte(): Parser<byte> {
    (s: seq<byte>) => if s == [] then Bad else Got(s[0], s[1..])
  }

  /** The next `count` bytes. */
  function Raw(count: nat): Parser<seq<byte>> {
    (s: seq<byte>) => if count <= |s| then Got(s[..count], s[count..]) else Bad
  }

  function U32(): Parser<nat> {
    (s: seq<byte>) => ReadU32(s)
  }

  function Signed(bits: nat): Parser<int> {
    (s: seq<byte>) => if bits == 0 then Bad else ReadInteger(s, bits, true)
  }

  /** One byte of a set, such as the values of an enumeration. */
  function ByteIn(codes: set<byte>): Parser<byte> {
    Where(AnyByte(), (b: byte) => b in codes)
  }

  /** An index into `count` items. */
  function Index(count: nat): Parser<nat> {
    Where(U32(), (i: nat) => i < count)
  }

  lemma AnyBytePrints(b: byte)
    ensures Prints(AnyByte(), [b], b)
  {
    forall t: seq<byte> ensures AnyByte()([b] + t) == Got(b, t) {
      assert ([b] + t)[1..] == t;
    }
  }

  lemma AnyByteIsExact()
    ensures Exact(AnyByte())
  {
    forall s | AnyByte()(s).Got? ensures ExactAt(AnyByte(), s) {
      assert Used(s, s[1..]) == [s[0]];
      AnyBytePrints(s[0]);
    }
  }

  lemma ByteInPrints(codes: set<byte>, b: byte)
    requires b in codes
    ensures Prints(ByteIn(codes), [b], b)
  {
    AnyBytePrints(b);
    WherePrints(AnyByte(), (c: byte) => c in codes, [b], b);
  }

  lemma ByteInIsExact(codes: set<byte>)
    ensures Exact(ByteIn(codes))
  {
    AnyByteIsExact();
    WhereIsExact(AnyByte(), (b: byte) => b in codes);
  }

  lemma RawIsExact(count: nat)
    ensures Exact(Raw(count))
  {
    forall s | Raw(count)(s).Got? ensures ExactAt(Raw(count), s) {
      var used := s[..count];
      assert Used(s, s[count..]) == used;
      RawPrints(used);
    }
  }

  lemma RawPrints(bytes: seq<byte>)
    ensures Prints(Raw(|bytes|), bytes, bytes)
  {
    forall t: seq<byte> ensures Raw(|bytes|)(bytes + t) == Got(bytes, t) {
      assert (bytes + t)[..|bytes|] == bytes && (bytes + t)[|bytes|..] == t;
    }
  }

  lemma U32Prints(value: nat)
    requires value < TWO_32
    ensures Prints(U32(), Encode(value), value)
  {
    forall t: seq<byte> ensures U32()(Encode(value) + t) == Got(value, t) {
      U32RoundTrip(value, t);
    }
  }

  lemma U32IsExact()
    ensures Exact(U32())
  {
    forall s | U32()(s).Got? ensures ExactAt(U32(), s) {
      GroupsAreExact([], s, 5, []);
      forall t: seq<byte> ensures U32()(Used(s, U32()(s).rest) + t) == Got(U32()(s).value, t) {
        GroupsAreExact([], s, 5, t);
      }
    }
  }

  lemma IndexPrints(count: nat, i: nat)
    requires i < count && i < TWO_32
    ensures Prints(Index(count), Encode(i), i)
  {
    U32Prints(i);
    WherePrints(U32(), (j: nat) => j < count, Encode(i), i);
  }

  lemma IndexIsExact(count: nat)
    ensures Exact(Index(count))
  {
    U32IsExact();
    WhereIsExact(U32(), (i: nat) => i < count);
  }

  lemma SignedIsExact(bits: nat)
    ensures Exact(Signed(bits))
  {
    forall s | Signed(bits)(s).Got? ensures ExactAt(Signed(bits), s) {
      GroupsAreExact([], s, MostBytes(bits), []);
      forall t: seq<byte> ensures Signed(bits)(Used(s, Signed(bits)(s).rest) + t) == Got(Signed(bits)(s).value, t) {
        GroupsAreExact([], s, MostBytes(bits), t);
      }
    }
  }

  // ---- vectors -----------------------------------------------------------------------------

  function ReadItems<T>(p: Parser<T>, count: nat, s: seq<byte>): Read<seq<T>> {
    if count == 0 then Got([], s)
    else match p(s)
      case Bad => Bad
      case Got(item, rest) =>
        match ReadItems(p, count - 1, rest)
        case Bad => Bad
        case Got(items, left) => Got([item] + items, left)
  }

  function Items<T>(p: Parser<T>, count: nat): Parser<seq<T>> {
    (s: seq<byte>) => ReadItems(p, count, s)
  }

  function Counted<T>(p: Parser<T>): nat -> Parser<seq<T>> {
    (count: nat) => Items(p, count)
  }

  /** A count, then that many items. */
  function Vector<T>(p: Parser<T>): Parser<seq<T>> {
    Bind(U32(), Counted(p))
  }

  function EncodeVector(items: seq<seq<byte>>): seq<byte> {
    Encode(|items|) + Concat(items)
  }

  ghost predicate PrintsEach<T>(p: Parser<T>, parts: seq<seq<byte>>, values: seq<T>) {
    |parts| == |values| && forall i :: 0 <= i < |parts| ==> Prints(p, parts[i], values[i])
  }

  lemma {:induction false} ItemsPrint<T>(p: Parser<T>, parts: seq<seq<byte>>, values: seq<T>)
    requires PrintsEach(p, parts, values)
    ensures Prints(Items(p, |parts|), Concat(parts), values)
  {
    if parts == [] {
      forall t: seq<byte> ensures Items(p, 0)(Concat(parts) + t) == Got(values, t) {
        assert Concat(parts) + t == t && values == [];
      }
    } else {
      ItemsPrint(p, parts[1..], values[1..]);
      forall t ensures Items(p, |parts|)(Concat(parts) + t) == Got(values, t) {
        AppendAssociates(parts[0], Concat(parts[1..]), t);
        assert p(parts[0] + (Concat(parts[1..]) + t)) == Got(values[0], Concat(parts[1..]) + t);
        assert Items(p, |parts| - 1)(Concat(parts[1..]) + t) == Got(values[1..], t);
        assert [values[0]] + values[1..] == values;
      }
    }
  }

  lemma VectorPrints<T>(p: Parser<T>, parts: seq<seq<byte>>, values: seq<T>)
    requires PrintsEach(p, parts, values) && |parts| < TWO_32
    ensures Prints(Vector(p), EncodeVector(parts), values)
  {
    U32Prints(|parts|);
    ItemsPrint(p, parts, values);
    BindPrints<nat, seq<T>>(U32(), Counted(p), Encode(|parts|), |parts|, Concat(parts), values);
  }

  /** The bytes of each item of a successful read. */
  lemma {:induction false} ItemsSplit<T>(p: Parser<T>, count: nat, s: seq<byte>) returns (parts: seq<seq<byte>>)
    requires Exact(p) && ReadItems(p, count, s).Got?
    ensures |parts| == count && PrintsEach(p, parts, ReadItems(p, count, s).value)
    ensures s == Concat(parts) + ReadItems(p, count, s).rest
  {
    if count == 0 {
      return [];
    }
    assert ExactAt(p, s);
    var first := p(s);
    var rest := ItemsSplit(p, count - 1, first.rest);
    parts := [Used(s, first.rest)] + rest;
    assert parts[1..] == rest;
    AppendAssociates(parts[0], Concat(rest), ReadItems(p, count, s).rest);
  }

  lemma ItemsAreExact<T>(p: Parser<T>, count: nat)
    requires Exact(p)
    ensures Exact(Items(p, count))
  {
    forall s | Items(p, count)(s).Got? ensures ExactAt(Items(p, count), s) {
      var parts := ItemsSplit(p, count, s);
      ItemsPrint(p, parts, ReadItems(p, count, s).value);
      UsedAndRest(Concat(parts), ReadItems(p, count, s).rest);
    }
  }

  lemma VectorIsExact<T>(p: Parser<T>)
    requires Exact(p)
    ensures Exact(Vector(p))
  {
    U32IsExact();
    forall count: nat ensures Exact(Counted(p)(count)) {
      ItemsAreExact(p, count);
    }
    BindIsExact(U32(), Counted(p));
  }

  // ---- value types and names -----------------------------------------------------------------

  const VALUE_TYPES: set<byte> := {0x7F, 0x7E, 0x7D, 0x7C, 0x7B, 0x70, 0x6F}

  function ValType(): Parser<byte> {
    ByteIn(VALUE_TYPES)
  }

  function Sized(): nat -> Parser<seq<byte>> {
    (length: nat) => Raw(length)
  }

  /** A length, then that many bytes. */
  function SizedBytes(): Parser<seq<byte>> {
    Bind(U32(), Sized())
  }

  function EncodeSized(bytes: seq<byte>): seq<byte> {
    Encode(|bytes|) + bytes
  }

  /** A name, by its UTF-8 bytes. */
  function Name(): Parser<Text> {
    Where(SizedBytes(), ValidUtf8)
  }

  lemma SizedPrints(bytes: seq<byte>)
    requires |bytes| < TWO_32
    ensures Prints(SizedBytes(), EncodeSized(bytes), bytes)
  {
    U32Prints(|bytes|);
    RawPrints(bytes);
    BindPrints<nat, seq<byte>>(U32(), Sized(), Encode(|bytes|), |bytes|, bytes, bytes);
  }

  lemma SizedIsExact()
    ensures Exact(SizedBytes())
  {
    U32IsExact();
    forall length: nat ensures Exact(Sized()(length)) {
      RawIsExact(length);
    }
    BindIsExact(U32(), Sized());
  }

  lemma NamePrints(text: Text)
    requires ValidUtf8(text) && |text| < TWO_32
    ensures Prints(Name(), EncodeSized(text), text)
  {
    SizedPrints(text);
    WherePrints(SizedBytes(), ValidUtf8, EncodeSized(text), text);
  }

  lemma NameIsExact()
    ensures Exact(Name())
  {
    SizedIsExact();
    WhereIsExact(SizedBytes(), ValidUtf8);
  }
}
