/**
 * Copying what a parser reads while changing part of it. `Preserves` is the whole claim: the copy accepts
 * exactly what the read accepts, uses the same bytes, and is read back as the changed value. Only a block that
 * states its own size can outgrow what it can state; `PreservesUpTo` has the limit.
 */
module WasmCopying {
  import opened Bytes
  import opened Wrappers
  import opened Sequences
  import opened Leb128
  import opened WasmBinary

  type Copier = Parser<seq<byte>>

  /** A copy never needs more than this many bytes for each byte it copies: five for a one-byte number. */
  const GROWTH := 5

  predicate Below(bytes: seq<byte>, limit: Option<nat>) {
    limit.None? || |bytes| < limit.value
  }

  ghost predicate PreservesAt<T>(
    read: Parser<T>, copy: Copier, change: T -> T, limit: Option<nat>, s: seq<byte>
  ) {
    match read(s)
    case Bad => copy(s).Bad?
    case Got(value, rest) =>
      && copy(s).Got? && copy(s).rest == rest
      && |rest| <= |s|
      && |copy(s).value| <= GROWTH * (|s| - |rest|)
      && (Below(copy(s).value, limit) ==> Prints(read, copy(s).value, change(value)))
  }

  /** The copy is read back as the changed value as long as it stays below the limit, if there is one. */
  ghost predicate PreservesUpTo<T>(read: Parser<T>, copy: Copier, change: T -> T, limit: Option<nat>) {
    forall s :: PreservesAt(read, copy, change, limit, s)
  }

  ghost predicate Preserves<T>(read: Parser<T>, copy: Copier, change: T -> T) {
    PreservesUpTo(read, copy, change, None)
  }

  /** A read of a whole block, with nothing left over. */
  type Reading<T> = seq<byte> -> Option<T>

  ghost predicate PreservesWholeAt<T>(read: Reading<T>, copy: Reading<seq<byte>>, change: T -> T, s: seq<byte>) {
    match read(s)
    case None => copy(s).None?
    case Some(value) =>
      && copy(s).Some?
      && |copy(s).value| <= GROWTH * |s|
      && read(copy(s).value) == Some(change(value))
  }

  ghost predicate PreservesWhole<T>(read: Reading<T>, copy: Reading<seq<byte>>, change: T -> T) {
    forall s :: PreservesWholeAt(read, copy, change, s)
  }

  function Same<T>(): T -> T {
    (value: T) => value
  }

  function Both<A, B>(f: A -> A, g: B -> B): ((A, B)) -> (A, B) {
    (pair: (A, B)) => (f(pair.0), g(pair.1))
  }

  function Each<T>(f: T -> T): seq<T> -> seq<T> {
    (values: seq<T>) => Changed(f, values)
  }

  function Changed<T>(f: T -> T, values: seq<T>): (changed: seq<T>)
    ensures |changed| == |values| && forall i :: 0 <= i < |values| ==> changed[i] == f(values[i])
  {
    seq(|values|, i requires 0 <= i < |values| => f(values[i]))
  }

  // ---- copies ----------------------------------------------------------------------------

  /** The bytes a read uses, as they are. */
  function Verbatim<T>(p: Parser<T>): Copier {
    (s: seq<byte>) =>
      match p(s)
      case Bad => Bad
      case Got(_, rest) => if |rest| <= |s| then Got(Used(s, rest), rest) else Bad
  }

  function Joined(parts: Parser<(seq<byte>, seq<byte>)>): Copier {
    Map(parts, (pair: (seq<byte>, seq<byte>)) => pair.0 + pair.1)
  }

  /** Two copies, one after the other. */
  function CopyPair(c: Copier, d: Copier): Copier {
    Joined(Pair(c, d))
  }

  /** The first read copied as it is, then the copy it selects. */
  function CopyBind<A>(p: Parser<A>, copies: A -> Copier): Copier {
    (s: seq<byte>) =>
      match p(s)
      case Bad => Bad
      case Got(a, rest) =>
        match copies(a)(rest)
        case Bad => Bad
        case Got(copied, left) => if |rest| <= |s| then Got(Used(s, rest) + copied, left) else Bad
  }

  /** A vector of copies, its count encoded again. */
  function CopyVector(c: Copier): Copier {
    Map(Vector(c), (parts: seq<seq<byte>>) => EncodeVector(parts))
  }

  /** The number a read gives, changed and encoded again. */
  function Recode(p: Parser<nat>, g: nat -> nat): Copier {
    Map(p, (n: nat) => Encode(g(n)))
  }

  // ---- blocks ------------------------------------------------------------------------------

  function Whole<T>(p: Parser<T>): Reading<T> {
    (s: seq<byte>) =>
      match p(s)
      case Bad => None
      case Got(value, rest) => if rest == [] then Some(value) else None
  }

  /** A read, then the whole of what it leaves. */
  function Then<A, B>(p: Parser<A>, q: Reading<B>): Reading<(A, B)> {
    (s: seq<byte>) =>
      match p(s)
      case Bad => None
      case Got(a, rest) =>
        match q(rest)
        case None => None
        case Some(b) => Some((a, b))
  }

  function CopyThen(c: Copier, d: Reading<seq<byte>>): Reading<seq<byte>> {
    (s: seq<byte>) =>
      match c(s)
      case Bad => None
      case Got(copied, rest) =>
        match d(rest)
        case None => None
        case Some(more) => Some(copied + more)
  }

  /** A sized block, read as a whole. */
  function Within<T>(q: Reading<T>): Parser<T> {
    (s: seq<byte>) =>
      match SizedBytes()(s)
      case Bad => Bad
      case Got(block, rest) =>
        match q(block)
        case None => Bad
        case Some(value) => Got(value, rest)
  }

  /** A sized block, copied and sized again. */
  function CopyWithin(d: Reading<seq<byte>>): Copier {
    Map(Within(d), (bytes: seq<byte>) => EncodeSized(bytes))
  }

  // ---- repetition --------------------------------------------------------------------------

  /** Every successful read uses at least one byte. */
  ghost predicate Progresses<T>(p: Parser<T>) {
    forall s :: p(s).Got? ==> |p(s).rest| < |s|
  }

  /** Items to the end of the block. */
  function All<T>(p: Parser<T>, s: seq<byte>): Option<seq<T>>
    requires Progresses(p)
    decreases |s|
  {
    if s == [] then Some([])
    else match p(s)
      case Bad => None
      case Got(item, rest) =>
        match All(p, rest)
        case None => None
        case Some(items) => Some([item] + items)
  }

  /** Items up to the first that is last; those before it must be allowed. */
  function ReadUntil<T>(p: Parser<T>, last: T -> bool, allowed: T -> bool, s: seq<byte>): Read<seq<T>>
    requires Progresses(p)
    decreases |s|
  {
    match p(s)
    case Bad => Bad
    case Got(item, rest) =>
      if last(item) then Got([item], rest)
      else if !allowed(item) then Bad
      else match ReadUntil(p, last, allowed, rest)
        case Bad => Bad
        case Got(items, left) => Got([item] + items, left)
  }

  function CopyUntil<T>(p: Parser<T>, c: Copier, last: T -> bool, allowed: T -> bool, s: seq<byte>): Read<seq<byte>>
    requires Progresses(p)
    decreases |s|
  {
    match (p(s), c(s))
    case (Got(item, rest), Got(copied, _)) =>
      if last(item) then Got(copied, rest)
      else if !allowed(item) then Bad
      else (
        match CopyUntil(p, c, last, allowed, rest)
        case Bad => Bad
        case Got(more, left) => Got(copied + more, left)
      )
    case _ => Bad
  }

  // ---- what they preserve -----------------------------------------------------------------

  lemma VerbatimPreserves<T>(p: Parser<T>)
    requires Exact(p)
    ensures Preserves(p, Verbatim(p), Same<T>())
  {
    forall s ensures PreservesAt(p, Verbatim(p), Same<T>(), None, s) {
      if p(s).Got? {
        assert ExactAt(p, s);
      }
    }
  }

  lemma PreservesMapUpTo<A(!new), B>(
    p: Parser<A>, c: Copier, f: A -> A, wrap: A -> B, g: B -> B, limit: Option<nat>
  )
    requires PreservesUpTo(p, c, f, limit) && forall a :: wrap(f(a)) == g(wrap(a))
    ensures PreservesUpTo(Map(p, wrap), c, g, limit)
  {
    forall s ensures PreservesAt(Map(p, wrap), c, g, limit, s) {
      assert PreservesAt(p, c, f, limit, s);
      if p(s).Got? && Below(c(s).value, limit) {
        var a := p(s).value;
        MapPrints(p, wrap, c(s).value, f(a));
        assert wrap(f(a)) == g(wrap(a));
      }
    }
  }

  lemma PreservesMap<A(!new), B>(p: Parser<A>, c: Copier, f: A -> A, wrap: A -> B, g: B -> B)
    requires Preserves(p, c, f) && forall a :: wrap(f(a)) == g(wrap(a))
    ensures Preserves(Map(p, wrap), c, g)
  {
    PreservesMapUpTo(p, c, f, wrap, g, None);
  }

  lemma PreservesPair<A, B>(p: Parser<A>, q: Parser<B>, c: Copier, d: Copier, f: A -> A, g: B -> B)
    requires Preserves(p, c, f) && Preserves(q, d, g)
    ensures Preserves(Pair(p, q), CopyPair(c, d), Both(f, g))
  {
    forall s ensures PreservesAt(Pair(p, q), CopyPair(c, d), Both(f, g), None, s) {
      assert PreservesAt(p, c, f, None, s);
      if p(s).Got? {
        var rest := p(s).rest;
        assert PreservesAt(q, d, g, None, rest);
        if q(rest).Got? {
          PairPrints(p, q, c(s).value, f(p(s).value), d(rest).value, g(q(rest).value));
        }
      }
    }
  }

  /** The second read's change may depend on the first value, which is kept. */
  lemma PreservesBind<A(!new), B>(p: Parser<A>, k: A -> Parser<B>, copies: A -> Copier, g: B -> B)
    requires Exact(p) && forall a :: Preserves(k(a), copies(a), g)
    ensures Preserves(Bind(p, k), CopyBind(p, copies), g)
  {
    forall s ensures PreservesAt(Bind(p, k), CopyBind(p, copies), g, None, s) {
      if p(s).Got? {
        assert ExactAt(p, s);
        var a, rest := p(s).value, p(s).rest;
        assert Preserves(k(a), copies(a), g) && PreservesAt(k(a), copies(a), g, None, rest);
        if k(a)(rest).Got? {
          BindPrints(p, k, Used(s, rest), a, copies(a)(rest).value, g(k(a)(rest).value));
        }
      }
    }
  }

  /** The copies of consecutive items, and what each prints. */
  ghost predicate ItemsPreserved<T>(
    p: Parser<T>, c: Copier, f: T -> T, limit: Option<nat>, count: nat, s: seq<byte>
  ) {
    match ReadItems(p, count, s)
    case Bad => ReadItems(c, count, s).Bad?
    case Got(values, rest) =>
      && |values| == count
      && ReadItems(c, count, s).Got? && ReadItems(c, count, s).rest == rest
      && |rest| <= |s|
      && |ReadItems(c, count, s).value| == count
      && |Concat(ReadItems(c, count, s).value)| <= GROWTH * (|s| - |rest|)
      && (Below(Concat(ReadItems(c, count, s).value), limit) ==>
            PrintsEach(p, ReadItems(c, count, s).value, Changed(f, values)))
  }

  lemma PrintsEachPush<T>(p: Parser<T>, part: seq<byte>, value: T, parts: seq<seq<byte>>, values: seq<T>)
    requires Prints(p, part, value) && PrintsEach(p, parts, values)
    ensures PrintsEach(p, [part] + parts, [value] + values)
  {
  }

  lemma ChangedPush<T>(f: T -> T, value: T, values: seq<T>)
    ensures Changed(f, [value] + values) == [f(value)] + Changed(f, values)
  {
  }

  lemma ConcatFirst<T>(part: seq<T>, parts: seq<seq<T>>)
    ensures Concat([part] + parts) == part + Concat(parts)
  {
    assert ([part] + parts)[1..] == parts;
  }

  lemma {:induction false} ItemsArePreserved<T>(
    p: Parser<T>, c: Copier, f: T -> T, limit: Option<nat>, count: nat, s: seq<byte>
  )
    requires PreservesUpTo(p, c, f, limit)
    ensures ItemsPreserved(p, c, f, limit, count, s)
  {
    hide Prints, PrintsEach, Concat, Changed;
    if count == 0 {
      NoItems(p, f);
    } else {
      assert PreservesAt(p, c, f, limit, s);
      if p(s).Got? {
        var rest := p(s).rest;
        ItemsArePreserved(p, c, f, limit, count - 1, rest);
        if ReadItems(p, count - 1, rest).Got? {
          var values, parts := ReadItems(p, count - 1, rest).value, ReadItems(c, count - 1, rest).value;
          ConcatFirst(c(s).value, parts);
          ChangedPush(f, p(s).value, values);
          if Below(c(s).value + Concat(parts), limit) {
            PrintsEachPush(p, c(s).value, f(p(s).value), parts, Changed(f, values));
          }
        }
      }
    }
  }

  lemma NoItems<T>(p: Parser<T>, f: T -> T)
    ensures PrintsEach(p, [], Changed(f, [])) && Concat<byte>([]) == []
  {
  }

  lemma PreservesVector<T>(p: Parser<T>, c: Copier, f: T -> T)
    requires Preserves(p, c, f)
    ensures Preserves(Vector(p), CopyVector(c), Each(f))
  {
    U32IsExact();
    forall s ensures PreservesAt(Vector(p), CopyVector(c), Each(f), None, s) {
      if U32()(s).Got? {
        var count, rest := U32()(s).value, U32()(s).rest;
        assert ExactAt(U32(), s);
        EncodingIsShortest(s);
        ItemsArePreserved(p, c, f, None, count, rest);
        if ReadItems(p, count, rest).Got? {
          var parts := ReadItems(c, count, rest).value;
          VectorPrints(p, parts, Changed(f, ReadItems(p, count, rest).value));
        }
      }
    }
  }

  /** A renumbered index is read back, whatever reads it back as itself. */
  lemma RecodePreserves(p: Parser<nat>, g: nat -> nat)
    requires forall s :: p(s).Got? ==> RecodesAt(p, g, s)
    ensures Preserves(p, Recode(p, g), g)
  {
    forall s ensures PreservesAt(p, Recode(p, g), g, None, s) {
      if p(s).Got? {
        assert RecodesAt(p, g, s);
        U32IsExact();
        assert ExactAt(U32(), s);
        EncodingIsShortest(s);
        FiveBytes(g(p(s).value));
      }
    }
  }

  ghost predicate RecodesAt(p: Parser<nat>, g: nat -> nat, s: seq<byte>)
    requires p(s).Got?
  {
    var changed := g(p(s).value);
    U32()(s) == p(s) && changed < TWO_32 && Prints(p, Encode(changed), changed)
  }

  lemma PreservesRead<T>(p: Parser<T>, c: Copier, f: T -> T)
    requires Preserves(p, c, f)
    ensures PreservesWhole(Whole(p), Whole(c), f)
  {
    forall s ensures PreservesWholeAt(Whole(p), Whole(c), f, s) {
      assert PreservesAt(p, c, f, None, s);
      if Whole(p)(s).Some? {
        WholePrints(p, c(s).value, f(p(s).value));
      }
    }
  }

  lemma WholePrints<T>(p: Parser<T>, bytes: seq<byte>, value: T)
    requires Prints(p, bytes, value)
    ensures Whole(p)(bytes) == Some(value)
  {
    assert bytes + [] == bytes;
    assert p(bytes + []) == Got(value, []);
  }

  lemma PreservesThen<A, B>(p: Parser<A>, q: Reading<B>, c: Copier, d: Reading<seq<byte>>, f: A -> A, g: B -> B)
    requires Preserves(p, c, f) && PreservesWhole(q, d, g)
    ensures PreservesWhole(Then(p, q), CopyThen(c, d), Both(f, g))
  {
    forall s ensures PreservesWholeAt(Then(p, q), CopyThen(c, d), Both(f, g), s) {
      assert PreservesAt(p, c, f, None, s);
      if p(s).Got? {
        var rest := p(s).rest;
        assert PreservesWholeAt(q, d, g, rest);
        if q(rest).Some? {
          var copied := c(s).value + d(rest).value;
          assert CopyThen(c, d)(s) == Some(copied);
          assert p(copied) == Got(f(p(s).value), d(rest).value);
          assert Then(p, q)(copied) == Some((f(p(s).value), g(q(rest).value)));
        }
      }
    }
  }

  lemma WithinPrints<T>(q: Reading<T>, bytes: seq<byte>, value: T)
    requires q(bytes) == Some(value) && |bytes| < TWO_32
    ensures Prints(Within(q), EncodeSized(bytes), value)
  {
    SizedPrints(bytes);
    forall t ensures Within(q)(EncodeSized(bytes) + t) == Got(value, t) {
      assert SizedBytes()(EncodeSized(bytes) + t) == Got(bytes, t);
    }
  }

  /** A sized block is this long exactly when its contents outgrow a 32-bit size. */
  const SIZED_LIMIT := TWO_32 + 5

  lemma SizedBelowIff(bytes: seq<byte>)
    ensures Below(EncodeSized(bytes), Some(SIZED_LIMIT)) <==> |bytes| < TWO_32
  {
    if |bytes| < TWO_32 {
      FiveBytes(|bytes|);
    } else {
      FiveBytesOrMore(|bytes|);
    }
  }

  /** The one place with a limit: the new contents must have a size of 32 bits. */
  lemma PreservesWithin<T>(q: Reading<T>, d: Reading<seq<byte>>, f: T -> T)
    requires PreservesWhole(q, d, f)
    ensures PreservesUpTo(Within(q), CopyWithin(d), f, Some(SIZED_LIMIT))
  {
    forall s ensures PreservesAt(Within(q), CopyWithin(d), f, Some(SIZED_LIMIT), s) {
      if SizedBytes()(s).Got? {
        var block := SizedBytes()(s).value;
        assert PreservesWholeAt(q, d, f, block);
        SizedLength(s);
        if q(block).Some? {
          var copied := d(block).value;
          FiveBytes(|copied|);
          SizedBelowIff(copied);
          if |copied| < TWO_32 {
            WithinPrints(q, copied, f(q(block).value));
          }
        }
      }
    }
  }

  // ---- repetition preserves ------------------------------------------------------------------

  lemma CopyProgresses<T>(p: Parser<T>, c: Copier, f: T -> T)
    requires Preserves(p, c, f) && Progresses(p)
    ensures Progresses(c)
  {
    forall s | c(s).Got? ensures |c(s).rest| < |s| {
      assert PreservesAt(p, c, f, None, s);
    }
  }

  ghost predicate AllPreserved<T>(p: Parser<T>, c: Copier, f: T -> T, s: seq<byte>)
    requires Progresses(p) && Progresses(c)
  {
    match All(p, s)
    case None => All(c, s).None?
    case Some(values) =>
      && All(c, s).Some?
      && |Concat(All(c, s).value)| <= GROWTH * |s|
      && All(p, Concat(All(c, s).value)) == Some(Changed(f, values))
  }

  lemma AllPrints<T>(p: Parser<T>, part: seq<byte>, value: T, more: seq<byte>)
    requires Progresses(p) && Prints(p, part, value) && All(p, more).Some?
    ensures All(p, part + more) == Some([value] + All(p, more).value)
  {
    assert p(part + more) == Got(value, more);
    assert |more| < |part + more|;
  }

  lemma {:induction false} AllArePreserved<T>(p: Parser<T>, c: Copier, f: T -> T, s: seq<byte>)
    requires Preserves(p, c, f) && Progresses(p) && Progresses(c)
    ensures AllPreserved(p, c, f, s)
    decreases |s|
  {
    hide Prints, Concat, Changed;
    if s == [] {
      NoItems(p, f);
    } else {
      assert PreservesAt(p, c, f, None, s);
      if p(s).Got? {
        var rest := p(s).rest;
        AllArePreserved(p, c, f, rest);
        if All(p, rest).Some? {
          var values, parts := All(p, rest).value, All(c, rest).value;
          ConcatFirst(c(s).value, parts);
          ChangedPush(f, p(s).value, values);
          AllPrints(p, c(s).value, f(p(s).value), Concat(parts));
        }
      }
    }
  }

  /** Changing an item keeps whether it is last and whether it is allowed. */
  ghost predicate KeepsRole<T(!new)>(f: T -> T, last: T -> bool, allowed: T -> bool) {
    forall item :: last(f(item)) == last(item) && allowed(f(item)) == allowed(item)
  }

  ghost predicate UntilPreserved<T>(
    p: Parser<T>, c: Copier, f: T -> T, last: T -> bool, allowed: T -> bool, s: seq<byte>
  )
    requires Progresses(p)
  {
    match ReadUntil(p, last, allowed, s)
    case Bad => CopyUntil(p, c, last, allowed, s).Bad?
    case Got(values, rest) =>
      var copy := CopyUntil(p, c, last, allowed, s);
      && copy.Got? && copy.rest == rest && |rest| < |s|
      && |copy.value| <= GROWTH * (|s| - |rest|)
      && UntilPrints(p, last, allowed, copy.value, Changed(f, values))
  }

  ghost predicate UntilPrints<T>(
    p: Parser<T>, last: T -> bool, allowed: T -> bool, bytes: seq<byte>, values: seq<T>
  )
    requires Progresses(p)
  {
    forall t :: ReadUntil(p, last, allowed, bytes + t) == Got(values, t)
  }

  lemma {:induction false} UntilIsPreserved<T(!new)>(
    p: Parser<T>, c: Copier, f: T -> T, last: T -> bool, allowed: T -> bool, s: seq<byte>
  )
    requires Preserves(p, c, f) && Progresses(p) && KeepsRole(f, last, allowed)
    ensures UntilPreserved(p, c, f, last, allowed, s)
    decreases |s|
  {
    hide Prints, UntilPrints, Changed;
    assert PreservesAt(p, c, f, None, s);
    if p(s).Got? {
      var item, rest, copied := p(s).value, p(s).rest, c(s).value;
      var changed := f(item);
      assert last(f(item)) == last(item) && allowed(f(item)) == allowed(item);
      if last(item) {
        ChangedOne(f, item);
        UntilEnds(p, last, allowed, copied, changed);
      } else if allowed(item) {
        UntilIsPreserved(p, c, f, last, allowed, rest);
        if ReadUntil(p, last, allowed, rest).Got? {
          var values := ReadUntil(p, last, allowed, rest).value;
          var more := CopyUntil(p, c, last, allowed, rest).value;
          ChangedPush(f, item, values);
          UntilContinues(p, last, allowed, copied, changed, more, Changed(f, values));
        }
      }
    }
  }

  lemma ChangedOne<T>(f: T -> T, value: T)
    ensures Changed(f, [value]) == [f(value)]
  {
  }

  lemma UntilEnds<T>(p: Parser<T>, last: T -> bool, allowed: T -> bool, part: seq<byte>, value: T)
    requires Progresses(p) && Prints(p, part, value) && last(value)
    ensures UntilPrints(p, last, allowed, part, [value])
  {
    forall t ensures ReadUntil(p, last, allowed, part + t) == Got([value], t) {
      assert p(part + t) == Got(value, t);
    }
  }

  lemma UntilContinues<T>(
    p: Parser<T>, last: T -> bool, allowed: T -> bool, part: seq<byte>, value: T, more: seq<byte>, values: seq<T>
  )
    requires Progresses(p) && Prints(p, part, value) && !last(value) && allowed(value)
    requires UntilPrints(p, last, allowed, more, values)
    ensures UntilPrints(p, last, allowed, part + more, [value] + values)
  {
    forall t ensures ReadUntil(p, last, allowed, part + more + t) == Got([value] + values, t) {
      AppendAssociates(part, more, t);
      assert p(part + (more + t)) == Got(value, more + t);
      assert ReadUntil(p, last, allowed, more + t) == Got(values, t);
    }
  }

  // ---- sizes -----------------------------------------------------------------------------------

  lemma SizedLength(s: seq<byte>)
    requires SizedBytes()(s).Got?
    ensures |SizedBytes()(s).rest| + |SizedBytes()(s).value| + 1 <= |s|
    ensures |SizedBytes()(s).value| < TWO_32
  {
    U32IsExact();
    assert ExactAt(U32(), s);
    EncodingIsShortest(s);
  }

  lemma FiveBytes(value: nat)
    requires value <= GROWTH * TWO_32
    ensures |Encode(value)| <= 5
  {
    assert Pow128(3) == 128 * 128 * 128;
    EncodedLength(value, 5);
  }

  /** A number past 32 bits needs five bytes or more. */
  lemma {:induction false} FiveBytesOrMore(value: nat)
    requires value >= TWO_32
    ensures |Encode(value)| >= 5
  {
    assert value / 128 >= 0x200_0000 && value / 128 / 128 >= 0x4_0000 && value / 128 / 128 / 128 >= 0x800;
    assert |Encode(value / 128)| == 1 + |Encode(value / 128 / 128)|;
    assert |Encode(value / 128 / 128)| == 1 + |Encode(value / 128 / 128 / 128)|;
    assert |Encode(value / 128 / 128 / 128)| == 1 + |Encode(value / 128 / 128 / 128 / 128)|;
  }
}
