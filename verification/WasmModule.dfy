/** What the sections of a module hold, and the copies of it that follow a renumbering. */
module WasmModule {
  import opened Bytes
  import opened Wrappers
  import opened Leb128
  import opened WasmBinary
  import opened WasmCopying
  import opened WasmInstructions

  // ---- imports and types -----------------------------------------------------------------------

  datatype Signature = Signature(params: seq<byte>, results: seq<byte>)

  datatype Limits = Limits(flags: byte, minimum: nat, maximum: Option<nat>)

  datatype External =
    | Function(typeIndex: nat)
    | Table(element: byte, limits: Limits)
    | Memory(limits: Limits)
    | Global(value: byte, mutability: byte)
    | Tag(tagType: nat)

  datatype Import = Import(moduleName: Text, name: Text, external: External)

  const FUNCTION_TYPE_FORM: byte := 0x60
  const FUNCTION_KIND: byte := 0

  function ToSignature(): ((byte, (seq<byte>, seq<byte>))) -> Signature {
    (parts: (byte, (seq<byte>, seq<byte>))) => Signature(parts.1.0, parts.1.1)
  }

  function ReadSignature(): Parser<Signature> {
    Map(Pair(ByteIn({FUNCTION_TYPE_FORM}), Pair(Vector(ValType()), Vector(ValType()))), ToSignature())
  }

  function LimitsAfter(): byte -> Parser<Limits> {
    (flags: byte) =>
      if flags % 2 == 1
      then Map(Pair(U32(), U32()), (bounds: (nat, nat)) => Limits(flags, bounds.0, Some(bounds.1)))
      else Map(U32(), (minimum: nat) => Limits(flags, minimum, None))
  }

  function ReadLimits(): Parser<Limits> {
    Bind(ByteIn({0, 1, 2, 3}), LimitsAfter())
  }

  function ReadFunctionImport(typeCount: nat): Parser<External> {
    Map(Index(typeCount), (typeIndex: nat) => Function(typeIndex))
  }

  function ReadTable(): Parser<External> {
    Map(Pair(ValType(), ReadLimits()), (parts: (byte, Limits)) => Table(parts.0, parts.1))
  }

  function ReadMemory(): Parser<External> {
    Map(ReadLimits(), (limits: Limits) => Memory(limits))
  }

  function ReadGlobal(): Parser<External> {
    Map(Pair(ValType(), ByteIn({0, 1})), (parts: (byte, byte)) => Global(parts.0, parts.1))
  }

  function ReadTag(typeCount: nat): Parser<External> {
    Map(Pair(ByteIn({0}), Index(typeCount)), (parts: (byte, nat)) => Tag(parts.1))
  }

  function ReadExternalOf(typeCount: nat, kind: byte): Parser<External> {
    if kind == FUNCTION_KIND then ReadFunctionImport(typeCount)
    else if kind == 1 then ReadTable()
    else if kind == 2 then ReadMemory()
    else if kind == 3 then ReadGlobal()
    else ReadTag(typeCount)
  }

  function ExternalOf(typeCount: nat): byte -> Parser<External> {
    (kind: byte) => ReadExternalOf(typeCount, kind)
  }

  const KINDS: set<byte> := {0, 1, 2, 3, 4}

  function ReadExternal(typeCount: nat): Parser<External> {
    Bind(ByteIn(KINDS), ExternalOf(typeCount))
  }

  function ToImport(): (((Text, Text), External)) -> Import {
    (parts: ((Text, Text), External)) => Import(parts.0.0, parts.0.1, parts.1)
  }

  /** Two names and an entity, whose type, if it has one, is below `typeCount`. */
  function ReadImport(typeCount: nat): Parser<Import> {
    Map(Pair(Pair(Name(), Name()), ReadExternal(typeCount)), ToImport())
  }

  lemma LimitsAreExact()
    ensures Exact(ReadLimits())
  {
    U32IsExact();
    PairIsExact(U32(), U32());
    forall flags: byte ensures Exact(LimitsAfter()(flags)) {
      MapIsExact(Pair(U32(), U32()), (bounds: (nat, nat)) => Limits(flags, bounds.0, Some(bounds.1)));
      MapIsExact(U32(), (minimum: nat) => Limits(flags, minimum, None));
    }
    ByteInIsExact({0, 1, 2, 3});
    BindIsExact(ByteIn({0, 1, 2, 3}), LimitsAfter());
  }

  lemma SizedExternalsAreExact()
    ensures Exact(ReadTable()) && Exact(ReadMemory()) && Exact(ReadGlobal())
  {
    LimitsAreExact();
    ByteInIsExact(VALUE_TYPES);
    ByteInIsExact({0, 1});
    PairIsExact(ValType(), ReadLimits());
    MapIsExact(Pair(ValType(), ReadLimits()), (parts: (byte, Limits)) => Table(parts.0, parts.1));
    MapIsExact(ReadLimits(), (limits: Limits) => Memory(limits));
    PairIsExact(ValType(), ByteIn({0, 1}));
    MapIsExact(Pair(ValType(), ByteIn({0, 1})), (parts: (byte, byte)) => Global(parts.0, parts.1));
  }

  lemma TypedExternalsAreExact(typeCount: nat)
    ensures Exact(ReadFunctionImport(typeCount)) && Exact(ReadTag(typeCount))
  {
    IndexIsExact(typeCount);
    MapIsExact(Index(typeCount), (typeIndex: nat) => Function(typeIndex));
    ByteInIsExact({0});
    PairIsExact(ByteIn({0}), Index(typeCount));
    MapIsExact(Pair(ByteIn({0}), Index(typeCount)), (parts: (byte, nat)) => Tag(parts.1));
  }

  lemma ImportIsExact(typeCount: nat)
    ensures Exact(ReadImport(typeCount))
  {
    hide Exact, ReadTable, ReadMemory, ReadGlobal, ReadFunctionImport, ReadTag;
    SizedExternalsAreExact();
    TypedExternalsAreExact(typeCount);
    ByteInIsExact(KINDS);
    forall kind: byte ensures Exact(ExternalOf(typeCount)(kind)) {
    }
    BindIsExact(ByteIn(KINDS), ExternalOf(typeCount));
    NameIsExact();
    PairIsExact(Name(), Name());
    PairIsExact(Pair(Name(), Name()), ReadExternal(typeCount));
    MapIsExact(Pair(Pair(Name(), Name()), ReadExternal(typeCount)), ToImport());
  }

  // ---- exports ---------------------------------------------------------------------------------

  datatype Export = Export(name: Text, kind: byte, index: nat)

  function ExportedIndex(functionCount: nat): byte -> Parser<(byte, nat)> {
    (kind: byte) => Map(if kind == FUNCTION_KIND then Index(functionCount) else U32(), WithKind(kind))
  }

  function WithKind(kind: byte): nat -> (byte, nat) {
    (index: nat) => (kind, index)
  }

  function ToExport(): ((Text, (byte, nat))) -> Export {
    (parts: (Text, (byte, nat))) => Export(parts.0, parts.1.0, parts.1.1)
  }

  /** A name, a kind and an index, which for functions is below `functionCount`. */
  function ReadExport(functionCount: nat): Parser<Export> {
    Map(Pair(Name(), Bind(ByteIn(KINDS), ExportedIndex(functionCount))), ToExport())
  }

  function CopyName(): Copier {
    Map(Name(), (text: Text) => EncodeSized(text))
  }

  function CopyKindIndex(r: Renumbering, functionCount: nat, kind: byte): Copier {
    if kind == FUNCTION_KIND then Recode(Index(functionCount), Renumber(r)) else Recode(U32(), Same())
  }

  function CopyIndexOf(r: Renumbering, functionCount: nat): byte -> Copier {
    (kind: byte) => CopyKindIndex(r, functionCount, kind)
  }

  function CopyExport(r: Renumbering, functionCount: nat): Copier {
    CopyPair(CopyName(), CopyBind(ByteIn(KINDS), CopyIndexOf(r, functionCount)))
  }

  function RenumberKind(r: Renumbering): ((byte, nat)) -> (byte, nat) {
    (pair: (byte, nat)) => (pair.0, if pair.0 == FUNCTION_KIND then NewIndex(r, pair.1) else pair.1)
  }

  function RenumberExport(r: Renumbering): Export -> Export {
    (e: Export) => if e.kind == FUNCTION_KIND then e.(index := NewIndex(r, e.index)) else e
  }

  lemma NameIsPreserved()
    ensures Preserves(Name(), CopyName(), Same<Text>())
  {
    forall s ensures PreservesAt(Name(), CopyName(), Same<Text>(), None, s) {
      if Name()(s).Got? {
        var text := Name()(s).value;
        SizedLength(s);
        FiveBytes(|text|);
        NamePrints(text);
      }
    }
  }

  lemma RenumberedIndex(r: Renumbering, count: nat)
    requires r.imported <= count
    ensures Preserves(Index(count), Recode(Index(count), Renumber(r)), Renumber(r))
  {
    forall s | Index(count)(s).Got? ensures RecodesAt(Index(count), Renumber(r), s) {
      var i := Index(count)(s).value;
      RenumberingIsBijection(r, count, i, i);
      assert NewIndex(r, i) < TWO_32;
      IndexPrints(count, NewIndex(r, i));
    }
    RecodePreserves(Index(count), Renumber(r));
  }

  lemma CopiedU32()
    ensures Preserves(U32(), Recode(U32(), Same()), Same())
  {
    forall s | U32()(s).Got? ensures RecodesAt(U32(), Same(), s) {
      U32Prints(U32()(s).value);
    }
    RecodePreserves(U32(), Same());
  }

  lemma ExportedIndexIsPreserved(r: Renumbering, count: nat, kind: byte)
    requires r.imported <= count
    ensures Preserves(ExportedIndex(count)(kind), CopyIndexOf(r, count)(kind), RenumberKind(r))
  {
    if kind == FUNCTION_KIND {
      RenumberedIndex(r, count);
      PreservesMap(Index(count), Recode(Index(count), Renumber(r)), Renumber(r), WithKind(kind), RenumberKind(r));
    } else {
      CopiedU32();
      PreservesMap(U32(), Recode(U32(), Same()), Same(), WithKind(kind), RenumberKind(r));
    }
  }

  lemma ExportIsPreserved(r: Renumbering, count: nat)
    requires r.imported <= count
    ensures Preserves(ReadExport(count), CopyExport(r, count), RenumberExport(r))
  {
    NameIsPreserved();
    ByteInIsExact(KINDS);
    forall kind: byte ensures Preserves(ExportedIndex(count)(kind), CopyIndexOf(r, count)(kind), RenumberKind(r)) {
      ExportedIndexIsPreserved(r, count, kind);
    }
    PreservesBind(ByteIn(KINDS), ExportedIndex(count), CopyIndexOf(r, count), RenumberKind(r));
    var p, q := Name(), Bind(ByteIn(KINDS), ExportedIndex(count));
    var c, d := CopyName(), CopyBind(ByteIn(KINDS), CopyIndexOf(r, count));
    var f := Both(Same<Text>(), RenumberKind(r));
    PreservesPair(p, q, c, d, Same<Text>(), RenumberKind(r));
    assert forall parts :: ToExport()(f(parts)) == RenumberExport(r)(ToExport()(parts));
    PreservesMap(Pair(p, q), CopyPair(c, d), f, ToExport(), RenumberExport(r));
  }

  // ---- element segments --------------------------------------------------------------------------

  datatype Segment = Segment(offset: seq<Instruction>, functions: seq<nat>)

  /** Only segments with flags 0 are handled. */
  function ZeroFlags(): Parser<nat> {
    Where(U32(), (flags: nat) => flags == 0)
  }

  function ToSegment(): ((nat, (seq<Instruction>, seq<nat>))) -> Segment {
    (parts: (nat, (seq<Instruction>, seq<nat>))) => Segment(parts.1.0, parts.1.1)
  }

  function ReadSegment(): Parser<Segment> {
    Map(Pair(ZeroFlags(), Pair(ConstantExpression(), Vector(U32()))), ToSegment())
  }

  function CopySegment(r: Renumbering): Copier {
    CopyPair(Recode(ZeroFlags(), Same()),
             CopyPair(CopyConstantExpression(r), CopyVector(Recode(U32(), Renumber(r)))))
  }

  function RenumberSegment(r: Renumbering): Segment -> Segment {
    (s: Segment) => Segment(Changed(RenumberInstruction(r), s.offset), Changed(Renumber(r), s.functions))
  }

  lemma FlagsAreCopied()
    ensures Preserves(ZeroFlags(), Recode(ZeroFlags(), Same()), Same())
  {
    forall s | ZeroFlags()(s).Got? ensures RecodesAt(ZeroFlags(), Same(), s) {
      U32Prints(0);
      WherePrints(U32(), (flags: nat) => flags == 0, Encode(0), 0);
    }
    RecodePreserves(ZeroFlags(), Same());
  }

  lemma SegmentIsPreserved(r: Renumbering)
    ensures Preserves(ReadSegment(), CopySegment(r), RenumberSegment(r))
  {
    hide Preserves, PreservesUpTo, CopyConstantExpression, ConstantExpression, Recode, ZeroFlags, CopyVector, Vector, CopyPair;
    var offsets, functions := Each(RenumberInstruction(r)), Each(Renumber(r));
    FlagsAreCopied();
    ConstantExpressionIsPreserved(r);
    RenumberedU32(r);
    PreservesVector(U32(), Recode(U32(), Renumber(r)), Renumber(r));
    PreservesPair(ConstantExpression(), Vector(U32()),
                  CopyConstantExpression(r), CopyVector(Recode(U32(), Renumber(r))), offsets, functions);
    var p, q := ZeroFlags(), Pair(ConstantExpression(), Vector(U32()));
    var c, d := Recode(ZeroFlags(), Same()), CopyPair(CopyConstantExpression(r), CopyVector(Recode(U32(), Renumber(r))));
    var f := Both(Same<nat>(), Both(offsets, functions));
    PreservesPair(p, q, c, d, Same<nat>(), Both(offsets, functions));
    assert forall parts :: ToSegment()(f(parts)) == RenumberSegment(r)(ToSegment()(parts));
    PreservesMap(Pair(p, q), CopyPair(c, d), f, ToSegment(), RenumberSegment(r));
  }

  // ---- function bodies ---------------------------------------------------------------------------

  datatype Body = Body(locals: seq<(nat, byte)>, code: seq<Instruction>)

  function ReadLocals(): Parser<seq<(nat, byte)>> {
    Vector(Pair(U32(), ValType()))
  }

  function ToBody(): ((seq<(nat, byte)>, seq<Instruction>)) -> Body {
    (parts: (seq<(nat, byte)>, seq<Instruction>)) => Body(parts.0, parts.1)
  }

  function ReadBody(): Parser<Body> {
    Map(Within(Then(ReadLocals(), Expression())), ToBody())
  }

  function CopyBody(r: Renumbering): Copier {
    CopyWithin(CopyThen(Verbatim(ReadLocals()), CopyExpression(r)))
  }

  function RenumberBody(r: Renumbering): Body -> Body {
    (b: Body) => Body(b.locals, Changed(RenumberInstruction(r), b.code))
  }

  lemma LocalsAreCopied()
    ensures Preserves(ReadLocals(), Verbatim(ReadLocals()), Same<seq<(nat, byte)>>())
  {
    U32IsExact();
    ByteInIsExact(VALUE_TYPES);
    PairIsExact(U32(), ValType());
    VectorIsExact(Pair(U32(), ValType()));
    VerbatimPreserves(ReadLocals());
  }

  lemma BodyIsPreserved(r: Renumbering)
    ensures PreservesUpTo(ReadBody(), CopyBody(r), RenumberBody(r), Some(SIZED_LIMIT))
  {
    hide Preserves, PreservesUpTo, PreservesWhole, ReadLocals, Expression, CopyExpression;
    LocalsAreCopied();
    ExpressionIsPreserved(r);
    var locals := Same<seq<(nat, byte)>>();
    var f := Both(locals, Each(RenumberInstruction(r)));
    var p, c := Then(ReadLocals(), Expression()), CopyThen(Verbatim(ReadLocals()), CopyExpression(r));
    PreservesThen(ReadLocals(), Expression(), Verbatim(ReadLocals()), CopyExpression(r), locals, Each(RenumberInstruction(r)));
    PreservesWithin(p, c, f);
    assert forall parts :: ToBody()(f(parts)) == RenumberBody(r)(ToBody()(parts));
    PreservesMapUpTo(Within(p), CopyWithin(c), f, ToBody(), RenumberBody(r), Some(SIZED_LIMIT));
  }
}
