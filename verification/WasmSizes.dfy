/**
 * How long each rewritten section will be, as arithmetic on the old one: what every function reference needs at
 * its new index, what every count and size needs, and what is copied as it is. No new byte is built.
 */
module WasmSizes {
  import opened Bytes
  import opened Wrappers
  import opened Sequences
  import opened Leb128
  import opened WasmBinary
  import opened WasmCopying
  import opened WasmInstructions
  import opened WasmSections
  import opened WasmModule
  import opened WasmImports
  import opened WasmStubs
  import opened WasmStrip

  /** How many seven-bit groups a number needs. */
  function Width(n: nat): (w: nat)
    ensures w >= 1
  {
    if n < 128 then 1 else 1 + Width(n / 128)
  }

  function Sum(sizes: seq<nat>): nat {
    if sizes == [] then 0 else sizes[0] + Sum(sizes[1..])
  }

  lemma {:induction false} WidthIsLength(n: nat)
    ensures |Encode(n)| == Width(n)
  {
    if n < 128 {
    } else {
      WidthIsLength(n / 128);
    }
  }

  // ---- sizes of copies ------------------------------------------------------------------------

  ghost predicate MeasuresAt(copy: Copier, size: Parser<nat>, s: seq<byte>) {
    match copy(s)
    case Bad => size(s).Bad?
    case Got(copied, rest) => size(s) == Got(|copied|, rest)
  }

  /** The size accepts what the copy accepts and is the length of the copy. */
  ghost predicate Measures(copy: Copier, size: Parser<nat>) {
    forall s :: MeasuresAt(copy, size, s)
  }

  ghost predicate MeasuresWholeAt(copy: Reading<seq<byte>>, size: Reading<nat>, s: seq<byte>) {
    match copy(s)
    case None => size(s).None?
    case Some(copied) => size(s) == Some(|copied|)
  }

  ghost predicate MeasuresWhole(copy: Reading<seq<byte>>, size: Reading<nat>) {
    forall s :: MeasuresWholeAt(copy, size, s)
  }

  function SizeVerbatim<T>(p: Parser<T>): Parser<nat> {
    (s: seq<byte>) =>
      match p(s)
      case Bad => Bad
      case Got(_, rest) => if |rest| <= |s| then Got(|s| - |rest|, rest) else Bad
  }

  function SizeRecode(p: Parser<nat>, g: nat -> nat): Parser<nat> {
    Map(p, (n: nat) => Width(g(n)))
  }

  function SizePair(a: Parser<nat>, b: Parser<nat>): Parser<nat> {
    Map(Pair(a, b), (sizes: (nat, nat)) => sizes.0 + sizes.1)
  }

  function SizeBind<A>(p: Parser<A>, sizes: A -> Parser<nat>): Parser<nat> {
    (s: seq<byte>) =>
      match p(s)
      case Bad => Bad
      case Got(a, rest) =>
        match sizes(a)(rest)
        case Bad => Bad
        case Got(size, left) => if |rest| <= |s| then Got(|s| - |rest| + size, left) else Bad
  }

  function VectorSize(sizes: seq<nat>): nat {
    Width(|sizes|) + Sum(sizes)
  }

  function SizeVector(a: Parser<nat>): Parser<nat> {
    Map(Vector(a), (sizes: seq<nat>) => VectorSize(sizes))
  }

  function SizeThen(a: Parser<nat>, b: Reading<nat>): Reading<nat> {
    (s: seq<byte>) =>
      match a(s)
      case Bad => None
      case Got(size, rest) =>
        match b(rest)
        case None => None
        case Some(more) => Some(size + more)
  }

  function SizeWithin(b: Reading<nat>): Parser<nat> {
    Map(Within(b), (size: nat) => Width(size) + size)
  }

  function SizeUntil<T>(p: Parser<T>, a: Parser<nat>, last: T -> bool, allowed: T -> bool, s: seq<byte>): Read<nat>
    requires Progresses(p)
    decreases |s|
  {
    match (p(s), a(s))
    case (Got(item, rest), Got(size, _)) =>
      if last(item) then Got(size, rest)
      else if !allowed(item) then Bad
      else (
        match SizeUntil(p, a, last, allowed, rest)
        case Bad => Bad
        case Got(more, left) => Got(size + more, left)
      )
    case _ => Bad
  }

  // ---- they are the lengths ---------------------------------------------------------------------

  lemma VerbatimMeasures<T>(p: Parser<T>)
    ensures Measures(Verbatim(p), SizeVerbatim(p))
  {
    forall s ensures MeasuresAt(Verbatim(p), SizeVerbatim(p), s) {
      if p(s).Got? && |p(s).rest| <= |s| {
        assert |Used(s, p(s).rest)| == |s| - |p(s).rest|;
      }
    }
  }

  lemma RecodeMeasures(p: Parser<nat>, g: nat -> nat)
    ensures Measures(Recode(p, g), SizeRecode(p, g))
  {
    forall s ensures MeasuresAt(Recode(p, g), SizeRecode(p, g), s) {
      if p(s).Got? {
        WidthIsLength(g(p(s).value));
      }
    }
  }

  lemma PairMeasures(c: Copier, d: Copier, a: Parser<nat>, b: Parser<nat>)
    requires Measures(c, a) && Measures(d, b)
    ensures Measures(CopyPair(c, d), SizePair(a, b))
  {
    forall s ensures MeasuresAt(CopyPair(c, d), SizePair(a, b), s) {
      assert MeasuresAt(c, a, s);
      if c(s).Got? {
        assert MeasuresAt(d, b, c(s).rest);
      }
    }
  }

  lemma BindMeasures<A(!new)>(p: Parser<A>, copies: A -> Copier, sizes: A -> Parser<nat>)
    requires forall a :: Measures(copies(a), sizes(a))
    ensures Measures(CopyBind(p, copies), SizeBind(p, sizes))
  {
    forall s ensures MeasuresAt(CopyBind(p, copies), SizeBind(p, sizes), s) {
      if p(s).Got? {
        var a := p(s).value;
        assert Measures(copies(a), sizes(a)) && MeasuresAt(copies(a), sizes(a), p(s).rest);
      }
    }
  }

  ghost predicate ItemsMeasured(c: Copier, a: Parser<nat>, count: nat, s: seq<byte>) {
    match ReadItems(c, count, s)
    case Bad => ReadItems(a, count, s).Bad?
    case Got(parts, rest) =>
      var sizes := ReadItems(a, count, s);
      sizes.Got? && sizes.rest == rest && |parts| == |sizes.value| == count && Sum(sizes.value) == |Concat(parts)|
  }

  lemma SumFirst(size: nat, sizes: seq<nat>)
    ensures Sum([size] + sizes) == size + Sum(sizes)
  {
    assert ([size] + sizes)[1..] == sizes;
  }

  lemma {:induction false} ItemsAreMeasured(c: Copier, a: Parser<nat>, count: nat, s: seq<byte>)
    requires Measures(c, a)
    ensures ItemsMeasured(c, a, count, s)
  {
    if count == 0 {
    } else {
      hide Sum, Concat;
      assert MeasuresAt(c, a, s);
      if c(s).Got? {
        ItemsAreMeasured(c, a, count - 1, c(s).rest);
        if ReadItems(c, count - 1, c(s).rest).Got? {
          ConcatFirst(c(s).value, ReadItems(c, count - 1, c(s).rest).value);
          SumFirst(|c(s).value|, ReadItems(a, count - 1, c(s).rest).value);
        }
      }
    }
  }

  lemma VectorMeasures(c: Copier, a: Parser<nat>)
    requires Measures(c, a)
    ensures Measures(CopyVector(c), SizeVector(a))
  {
    hide ReadItems, Sum, Concat, U32, Width, Encode;
    forall s ensures MeasuresAt(CopyVector(c), SizeVector(a), s) {
      if U32()(s).Got? {
        var count := U32()(s).value;
        ItemsAreMeasured(c, a, count, U32()(s).rest);
        WidthIsLength(count);
      }
    }
  }

  lemma WholeMeasures(c: Copier, a: Parser<nat>)
    requires Measures(c, a)
    ensures MeasuresWhole(Whole(c), Whole(a))
  {
    forall s ensures MeasuresWholeAt(Whole(c), Whole(a), s) {
      assert MeasuresAt(c, a, s);
    }
  }

  lemma ThenMeasures(c: Copier, d: Reading<seq<byte>>, a: Parser<nat>, b: Reading<nat>)
    requires Measures(c, a) && MeasuresWhole(d, b)
    ensures MeasuresWhole(CopyThen(c, d), SizeThen(a, b))
  {
    forall s ensures MeasuresWholeAt(CopyThen(c, d), SizeThen(a, b), s) {
      assert MeasuresAt(c, a, s);
      if c(s).Got? {
        assert MeasuresWholeAt(d, b, c(s).rest);
      }
    }
  }

  lemma WithinMeasures(d: Reading<seq<byte>>, b: Reading<nat>)
    requires MeasuresWhole(d, b)
    ensures Measures(CopyWithin(d), SizeWithin(b))
  {
    hide SizedBytes, Width, Encode;
    forall s ensures MeasuresAt(CopyWithin(d), SizeWithin(b), s) {
      if SizedBytes()(s).Got? {
        var block := SizedBytes()(s).value;
        assert MeasuresWholeAt(d, b, block);
        if d(block).Some? {
          WidthIsLength(|d(block).value|);
        }
      }
    }
  }

  lemma {:induction false} AllAreMeasured(c: Copier, a: Parser<nat>, s: seq<byte>)
    requires Measures(c, a) && Progresses(c) && Progresses(a)
    ensures match All(c, s)
            case None => All(a, s).None?
            case Some(parts) => All(a, s).Some? && Sum(All(a, s).value) == |Concat(parts)|
    decreases |s|
  {
    if s == [] {
    } else {
      hide Sum, Concat;
      assert MeasuresAt(c, a, s);
      if c(s).Got? {
        AllAreMeasured(c, a, c(s).rest);
        if All(c, c(s).rest).Some? {
          ConcatFirst(c(s).value, All(c, c(s).rest).value);
          SumFirst(|c(s).value|, All(a, c(s).rest).value);
        }
      }
    }
  }

  lemma {:induction false} UntilIsMeasured<T>(
    p: Parser<T>, c: Copier, a: Parser<nat>, last: T -> bool, allowed: T -> bool, s: seq<byte>
  )
    requires Measures(c, a) && Progresses(p)
    ensures match CopyUntil(p, c, last, allowed, s)
            case Bad => SizeUntil(p, a, last, allowed, s).Bad?
            case Got(copied, rest) => SizeUntil(p, a, last, allowed, s) == Got(|copied|, rest)
    decreases |s|
  {
    assert MeasuresAt(c, a, s);
    if p(s).Got? && c(s).Got? && !last(p(s).value) && allowed(p(s).value) {
      UntilIsMeasured(p, c, a, last, allowed, p(s).rest);
    }
  }

  // ---- instructions -----------------------------------------------------------------------------

  /** A function index is as long as its new index; anything else is as long as it was. */
  function SizeOperand(r: Renumbering, kind: Immediate): Parser<nat> {
    if kind == FunctionIndex then SizeRecode(U32(), Renumber(r)) else SizeVerbatim(ReadOperand(kind))
  }

  function SizeNothing(): Parser<nat> {
    Return(0)
  }

  function SizeOperands(r: Renumbering, kinds: seq<Immediate>): Parser<nat> {
    if kinds == [] then SizeNothing() else SizePair(SizeOperand(r, kinds[0]), SizeOperands(r, kinds[1..]))
  }

  function SizeAfter(r: Renumbering): Opcode -> Parser<nat> {
    (opcode: Opcode) => SizeOperands(r, Kinds(opcode))
  }

  function SizeInstruction(r: Renumbering): Parser<nat> {
    SizeBind(ReadOpcode(), SizeAfter(r))
  }

  lemma {:induction false} OperandsAreMeasured(r: Renumbering, kinds: seq<Immediate>)
    ensures Measures(CopyOperands(r, kinds), SizeOperands(r, kinds))
  {
    if kinds == [] {
    } else {
      hide Measures, ReadOperand;
      VerbatimMeasures(ReadOperand(kinds[0]));
      RecodeMeasures(U32(), Renumber(r));
      OperandsAreMeasured(r, kinds[1..]);
      PairMeasures(CopyOperand(r, kinds[0]), CopyOperands(r, kinds[1..]), SizeOperand(r, kinds[0]), SizeOperands(r, kinds[1..]));
    }
  }

  lemma InstructionIsMeasured(r: Renumbering)
    ensures Measures(CopyInstruction(r), SizeInstruction(r))
  {
    hide Measures, CopyOperands, SizeOperands, ReadOpcode, Kinds;
    forall opcode: Opcode ensures Measures(CopyAfter(r)(opcode), SizeAfter(r)(opcode)) {
      OperandsAreMeasured(r, Kinds(opcode));
    }
    BindMeasures(ReadOpcode(), CopyAfter(r), SizeAfter(r));
  }

  lemma SizeProgresses(r: Renumbering)
    ensures Progresses(SizeInstruction(r))
  {
    hide CopyInstruction, SizeInstruction;
    CopyInstructionProgresses(r);
    InstructionIsMeasured(r);
    forall s | SizeInstruction(r)(s).Got? ensures |SizeInstruction(r)(s).rest| < |s| {
      assert MeasuresAt(CopyInstruction(r), SizeInstruction(r), s);
    }
  }

  function SizeExpression(r: Renumbering): Reading<nat> {
    SizeProgresses(r);
    (s: seq<byte>) =>
      match All(SizeInstruction(r), s)
      case None => None
      case Some(sizes) => Some(Sum(sizes))
  }

  function SizeConstantExpression(r: Renumbering): Parser<nat> {
    InstructionProgresses();
    (s: seq<byte>) => SizeUntil(ReadInstruction(), SizeInstruction(r), Ends(), Constant(), s)
  }

  lemma ExpressionIsMeasured(r: Renumbering)
    ensures MeasuresWhole(CopyExpression(r), SizeExpression(r))
  {
    hide CopyInstruction, SizeInstruction;
    CopyInstructionProgresses(r);
    SizeProgresses(r);
    InstructionIsMeasured(r);
    forall s ensures MeasuresWholeAt(CopyExpression(r), SizeExpression(r), s) {
      AllAreMeasured(CopyInstruction(r), SizeInstruction(r), s);
    }
  }

  lemma ConstantExpressionIsMeasured(r: Renumbering)
    ensures Measures(CopyConstantExpression(r), SizeConstantExpression(r))
  {
    hide CopyInstruction, SizeInstruction, ReadInstruction;
    InstructionProgresses();
    InstructionIsMeasured(r);
    forall s ensures MeasuresAt(CopyConstantExpression(r), SizeConstantExpression(r), s) {
      UntilIsMeasured(ReadInstruction(), CopyInstruction(r), SizeInstruction(r), Ends(), Constant(), s);
    }
  }

  // ---- exports, segments, bodies ------------------------------------------------------------------

  function SizeName(): Parser<nat> {
    Map(Name(), (text: Text) => Width(|text|) + |text|)
  }

  function SizeKindIndex(r: Renumbering, functionCount: nat, kind: byte): Parser<nat> {
    if kind == FUNCTION_KIND then SizeRecode(Index(functionCount), Renumber(r)) else SizeRecode(U32(), Same())
  }

  function SizeIndexOf(r: Renumbering, functionCount: nat): byte -> Parser<nat> {
    (kind: byte) => SizeKindIndex(r, functionCount, kind)
  }

  function SizeExport(r: Renumbering, functionCount: nat): Parser<nat> {
    SizePair(SizeName(), SizeBind(ByteIn(KINDS), SizeIndexOf(r, functionCount)))
  }

  function SizeSegment(r: Renumbering): Parser<nat> {
    SizePair(SizeRecode(ZeroFlags(), Same()),
             SizePair(SizeConstantExpression(r), SizeVector(SizeRecode(U32(), Renumber(r)))))
  }

  function SizeBody(r: Renumbering): Parser<nat> {
    SizeWithin(SizeThen(SizeVerbatim(ReadLocals()), SizeExpression(r)))
  }

  lemma NameIsMeasured()
    ensures Measures(CopyName(), SizeName())
  {
    forall s ensures MeasuresAt(CopyName(), SizeName(), s) {
      if Name()(s).Got? {
        WidthIsLength(|Name()(s).value|);
      }
    }
  }

  lemma ExportIsMeasured(r: Renumbering, count: nat)
    ensures Measures(CopyExport(r, count), SizeExport(r, count))
  {
    hide Measures, Recode, SizeRecode, CopyName, SizeName, CopyBind, SizeBind, Index;
    NameIsMeasured();
    forall kind: byte ensures Measures(CopyIndexOf(r, count)(kind), SizeIndexOf(r, count)(kind)) {
      RecodeMeasures(Index(count), Renumber(r));
      RecodeMeasures(U32(), Same());
    }
    BindMeasures(ByteIn(KINDS), CopyIndexOf(r, count), SizeIndexOf(r, count));
    PairMeasures(CopyName(), CopyBind(ByteIn(KINDS), CopyIndexOf(r, count)),
                 SizeName(), SizeBind(ByteIn(KINDS), SizeIndexOf(r, count)));
  }

  lemma SegmentIsMeasured(r: Renumbering)
    ensures Measures(CopySegment(r), SizeSegment(r))
  {
    hide Measures, Recode, SizeRecode, CopyConstantExpression, SizeConstantExpression, CopyVector, SizeVector,
         CopyPair, SizePair, ZeroFlags;
    RecodeMeasures(ZeroFlags(), Same());
    ConstantExpressionIsMeasured(r);
    RecodeMeasures(U32(), Renumber(r));
    VectorMeasures(Recode(U32(), Renumber(r)), SizeRecode(U32(), Renumber(r)));
    PairMeasures(CopyConstantExpression(r), CopyVector(Recode(U32(), Renumber(r))),
                 SizeConstantExpression(r), SizeVector(SizeRecode(U32(), Renumber(r))));
    PairMeasures(Recode(ZeroFlags(), Same()),
                 CopyPair(CopyConstantExpression(r), CopyVector(Recode(U32(), Renumber(r)))),
                 SizeRecode(ZeroFlags(), Same()),
                 SizePair(SizeConstantExpression(r), SizeVector(SizeRecode(U32(), Renumber(r)))));
  }

  lemma BodyIsMeasured(r: Renumbering)
    ensures Measures(CopyBody(r), SizeBody(r))
  {
    hide Measures, MeasuresWhole, CopyExpression, SizeExpression, ReadLocals, Verbatim, SizeVerbatim;
    VerbatimMeasures(ReadLocals());
    ExpressionIsMeasured(r);
    ThenMeasures(Verbatim(ReadLocals()), CopyExpression(r), SizeVerbatim(ReadLocals()), SizeExpression(r));
    WithinMeasures(CopyThen(Verbatim(ReadLocals()), CopyExpression(r)),
                   SizeThen(SizeVerbatim(ReadLocals()), SizeExpression(r)));
  }

  // ---- sections --------------------------------------------------------------------------------------

  /** The length of a vector with two more items ahead. */
  function SizeWithTwo(a: Parser<nat>, first: nat, second: nat): Reading<nat> {
    (s: seq<byte>) =>
      match Whole(Vector(a))(s)
      case None => None
      case Some(sizes) => Some(VectorSize([first, second] + sizes))
  }

  /** The lengths of the imports that stay. */
  function KeptSizes(items: seq<Item>): seq<nat> {
    if items == [] then []
    else (if IsTarget(items[0].value) then [] else [|items[0].bytes|]) + KeptSizes(items[1..])
  }

  function SizeImports(typeCount: nat): Reading<nat> {
    (s: seq<byte>) =>
      match Whole(Vector(ReadItem(typeCount)))(s)
      case None => None
      case Some(items) => Some(VectorSize(KeptSizes(items)))
  }

  /** How long the rewritten payload of a section will be. */
  function SectionSize(rw: Rewrite, section: Section): Option<nat> {
    var stubType := Width(rw.imports.first.typeIndex);
    if section.id == IMPORT then SizeImports(rw.typeCount)(section.payload)
    else if section.id == FUNCTION then
      SizeWithTwo(SizeVerbatim(Index(rw.typeCount)), stubType, stubType)(section.payload)
    else if section.id == EXPORT then Whole(SizeVector(SizeExport(rw.renumber, rw.functionCount)))(section.payload)
    else if section.id == START then Whole(SizeRecode(Index(rw.functionCount), Renumber(rw.renumber)))(section.payload)
    else if section.id == ELEMENT then Whole(SizeVector(SizeSegment(rw.renumber)))(section.payload)
    else if section.id == CODE then
      SizeWithTwo(SizeBody(rw.renumber), StubSize(rw.imports.first.name), StubSize(rw.imports.second.name))(section.payload)
    else Some(|section.payload|)
  }

  /** A stub's length, with its size ahead. */
  function StubSize(name: Text): nat {
    if name == ENVIRON_SIZES_GET then 19 else 5
  }

  lemma StubIsMeasured(name: Text)
    ensures |StubBody(name)| == StubSize(name)
  {
    assert |Encode(0)| == 1 && |Encode(4)| == 1 && |Encode(18)| == 1;
  }

  lemma SumTwo(first: nat, second: nat, sizes: seq<nat>)
    ensures Sum([first, second] + sizes) == first + second + Sum(sizes)
  {
    SumFirst(second, sizes);
    SumFirst(first, [second] + sizes);
    assert [first] + ([second] + sizes) == [first, second] + sizes;
  }

  ghost predicate VectorMeasured(c: Copier, a: Parser<nat>, s: seq<byte>) {
    match Whole(Vector(c))(s)
    case None => Whole(Vector(a))(s).None?
    case Some(parts) =>
      var sizes := Whole(Vector(a))(s);
      sizes.Some? && |sizes.value| == |parts| && Sum(sizes.value) == |Concat(parts)|
  }

  lemma VectorIsMeasured(c: Copier, a: Parser<nat>, s: seq<byte>)
    requires Measures(c, a)
    ensures VectorMeasured(c, a, s)
  {
    hide Sum, Concat, Measures, U32;
    if U32()(s).Got? {
      ItemsAreMeasured(c, a, U32()(s).value, U32()(s).rest);
    }
  }

  lemma WithTwoMeasures(c: Copier, a: Parser<nat>, first: seq<byte>, second: seq<byte>)
    requires Measures(c, a)
    ensures MeasuresWhole(WithTwo(c, first, second), SizeWithTwo(a, |first|, |second|))
  {
    hide Sum, Concat, Measures, Vector, Whole;
    forall s ensures MeasuresWholeAt(WithTwo(c, first, second), SizeWithTwo(a, |first|, |second|), s) {
      VectorIsMeasured(c, a, s);
      if Whole(Vector(c))(s).Some? {
        var parts, sizes := Whole(Vector(c))(s).value, Whole(Vector(a))(s).value;
        ConcatTwo(first, second, parts);
        SumTwo(|first|, |second|, sizes);
        WidthIsLength(|parts| + 2);
      }
    }
  }

  /** The section of the rewritten module has a length its header can say. */
  predicate FitsAfter(rw: Rewrite, section: Section) {
    match SectionSize(rw, section)
    case None => false
    case Some(size) => size < TWO_32
  }

  lemma {:induction false} KeptAreMeasured(items: seq<Item>)
    ensures |KeptSizes(items)| == |KeptBytes(items)| && Sum(KeptSizes(items)) == |Concat(KeptBytes(items))|
  {
    if items == [] {
    } else {
      KeptAreMeasured(items[1..]);
      assert [] + KeptSizes(items[1..]) == KeptSizes(items[1..]) && [] + KeptBytes(items[1..]) == KeptBytes(items[1..]);
      SumFirst(|items[0].bytes|, KeptSizes(items[1..]));
      ConcatFirst(items[0].bytes, KeptBytes(items[1..]));
    }
  }

  lemma ImportsAreMeasured(payload: seq<byte>, typeCount: nat)
    requires RewriteImports(payload, typeCount).Some?
    ensures SizeImports(typeCount)(payload) == Some(|RewriteImports(payload, typeCount).value.payload|)
  {
    hide Vector, ReadItem, Sum, Concat, Removals, FunctionImports, KeptBytes, KeptSizes;
    var items := Whole(Vector(ReadItem(typeCount)))(payload).value;
    KeptAreMeasured(items);
    WidthIsLength(|KeptBytes(items)|);
  }

  lemma StartIsMeasured(rw: Rewrite, payload: seq<byte>)
    requires Whole(Recode(Index(rw.functionCount), Renumber(rw.renumber)))(payload).Some?
    ensures Whole(SizeRecode(Index(rw.functionCount), Renumber(rw.renumber)))(payload)
         == Some(|Whole(Recode(Index(rw.functionCount), Renumber(rw.renumber)))(payload).value|)
  {
    hide Measures, Index, Recode, SizeRecode;
    var copy, size := Recode(Index(rw.functionCount), Renumber(rw.renumber)), SizeRecode(Index(rw.functionCount), Renumber(rw.renumber));
    RecodeMeasures(Index(rw.functionCount), Renumber(rw.renumber));
    WholeMeasures(copy, size);
    assert MeasuresWholeAt(Whole(copy), Whole(size), payload);
  }

  lemma VectorSectionIsMeasured(rw: Rewrite, section: Section)
    requires section.id in {FUNCTION, EXPORT, ELEMENT, CODE} && RewritePayload(rw, section).Some?
    ensures SectionSize(rw, section) == Some(|RewritePayload(rw, section).value|)
  {
    hide Measures, CopyExport, SizeExport, CopySegment, SizeSegment, CopyBody, SizeBody, Verbatim, SizeVerbatim, Index,
         StubBody, StubSize, CopyVector, SizeVector, Whole, WithTwo, SizeWithTwo;
    var r, payload := rw.renumber, section.payload;
    if section.id == FUNCTION {
      var stubType := Encode(rw.imports.first.typeIndex);
      var index := Index(rw.typeCount);
      WidthIsLength(rw.imports.first.typeIndex);
      VerbatimMeasures(index);
      WithTwoMeasures(Verbatim(index), SizeVerbatim(index), stubType, stubType);
      assert MeasuresWholeAt(WithTwo(Verbatim(index), stubType, stubType),
                             SizeWithTwo(SizeVerbatim(index), |stubType|, |stubType|), payload);
    } else if section.id == EXPORT {
      ExportIsMeasured(r, rw.functionCount);
      VectorMeasures(CopyExport(r, rw.functionCount), SizeExport(r, rw.functionCount));
      WholeMeasures(CopyVector(CopyExport(r, rw.functionCount)), SizeVector(SizeExport(r, rw.functionCount)));
      assert MeasuresWholeAt(Whole(CopyVector(CopyExport(r, rw.functionCount))),
                             Whole(SizeVector(SizeExport(r, rw.functionCount))), payload);
    } else if section.id == ELEMENT {
      SegmentIsMeasured(r);
      VectorMeasures(CopySegment(r), SizeSegment(r));
      WholeMeasures(CopyVector(CopySegment(r)), SizeVector(SizeSegment(r)));
      assert MeasuresWholeAt(Whole(CopyVector(CopySegment(r))), Whole(SizeVector(SizeSegment(r))), payload);
    } else {
      var first, second := StubBody(rw.imports.first.name), StubBody(rw.imports.second.name);
      StubIsMeasured(rw.imports.first.name);
      StubIsMeasured(rw.imports.second.name);
      BodyIsMeasured(r);
      WithTwoMeasures(CopyBody(r), SizeBody(r), first, second);
      assert MeasuresWholeAt(WithTwo(CopyBody(r), first, second), SizeWithTwo(SizeBody(r), |first|, |second|), payload);
    }
  }

  /** The arithmetic gives the length of every rewritten section, when the plan is that of its import section. */
  lemma SectionIsMeasured(rw: Rewrite, section: Section)
    requires RewritePayload(rw, section).Some?
    requires section.id == IMPORT ==> RewriteImports(section.payload, rw.typeCount) == Some(rw.imports)
    ensures SectionSize(rw, section) == Some(|RewritePayload(rw, section).value|)
  {
    hide Vector, Index, Verbatim, CopyExport, CopySegment, CopyBody, SizeImports, RewriteImports, Whole;
    if section.id in {FUNCTION, EXPORT, ELEMENT, CODE} {
      VectorSectionIsMeasured(rw, section);
    } else if section.id == IMPORT {
      ImportsAreMeasured(section.payload, rw.typeCount);
    } else if section.id == START {
      StartIsMeasured(rw, section.payload);
    }
  }

  /** A rewritten section has a length of 32 bits exactly when the arithmetic on the old one says so. */
  lemma FitsAfterIff(rw: Rewrite, section: Section)
    requires RewritePayload(rw, section).Some?
    requires section.id == IMPORT ==> RewriteImports(section.payload, rw.typeCount) == Some(rw.imports)
    ensures FitsAfter(rw, section) <==> |RewritePayload(rw, section).value| < TWO_32
  {
    hide RewritePayload, SectionSize;
    SectionIsMeasured(rw, section);
  }
}
