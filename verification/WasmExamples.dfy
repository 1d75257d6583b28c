/** Small modules that are accepted and rewritten into something other than the documentation says. */
module WasmExamples {
  import opened Bytes
  import opened Wrappers
  import opened Sequences
  import opened Leb128
  import opened WasmBinary
  import opened WasmCopying
  import opened WasmInstructions
  import opened WasmSections
  import opened WasmModule
  import opened WasmImports
  import opened WasmStubs
  import opened WasmStrip
  import opened WasmSizes
  import opened WasmMeaning
  import opened WasmFunctions
  import opened WasmTyping
  import opened WasmLayout

  /** A type, two imports of it, `count` definitions of it, and perhaps a code section; no memory. */
  datatype Example = Example(shared: Signature, first: Text, second: Text, count: nat, coded: bool)

  const DOCUMENTED := Signature([I32, I32], [I32])

  const MOST_DEFINITIONS: nat := 0xFFFF_FFFA

  predicate Named(e: Example) {
    && e.first in {ENVIRON_GET, ENVIRON_SIZES_GET} && e.second in {ENVIRON_GET, ENVIRON_SIZES_GET}
    && e.count <= MOST_DEFINITIONS
    && AreTypes(e.shared.params) && AreTypes(e.shared.results)
  }

  /** A short list of value types. */
  predicate AreTypes(types: seq<byte>) {
    |types| < 50 && forall i :: 0 <= i < |types| ==> types[i] in VALUE_TYPES
  }

  function Singly(types: seq<byte>): seq<seq<byte>> {
    seq(|types|, i requires 0 <= i < |types| => [types[i]])
  }

  function SignatureBytes(s: Signature): seq<byte> {
    [FUNCTION_TYPE_FORM] + (EncodeVector(Singly(s.params)) + EncodeVector(Singly(s.results)))
  }

  function ImportBytes(moduleName: Text, name: Text): seq<byte> {
    (EncodeSized(moduleName) + EncodeSized(name)) + ([FUNCTION_KIND] + Encode(0))
  }

  function ImportOf(name: Text): Import {
    Import(TARGET_MODULE, name, Function(0))
  }

  function Repeated<T>(value: T, count: nat): seq<T> {
    seq(count, _ => value)
  }

  function TypeSection(e: Example): Section {
    Section(TYPE, EncodeVector([SignatureBytes(e.shared)]))
  }

  function ImportSection(e: Example): Section {
    Section(IMPORT, EncodeVector([ImportBytes(TARGET_MODULE, e.first), ImportBytes(TARGET_MODULE, e.second)]))
  }

  function FunctionSection(e: Example): Section {
    Section(FUNCTION, EncodeVector(Repeated([0], e.count)))
  }

  function CodeSections(e: Example): seq<Section> {
    if e.coded then [Section(CODE, EncodeVector([]))] else []
  }

  function Sections(e: Example): seq<Section> {
    [TypeSection(e), ImportSection(e), FunctionSection(e)] + CodeSections(e)
  }

  function Contents(e: Example): seq<Content> {
    [Other(TYPE, TypeSection(e).payload), Imports([ImportOf(e.first), ImportOf(e.second)]), Functions(Repeated<nat>(0, e.count))]
    + (if e.coded then [Code([])] else [])
  }

  function ModuleBytes(e: Example): seq<byte> {
    EncodeModule(Sections(e))
  }

  // ---- the pieces --------------------------------------------------------------------------------

  lemma NamesAreText()
    ensures ValidUtf8(TARGET_MODULE) && ValidUtf8(ENVIRON_GET) && ValidUtf8(ENVIRON_SIZES_GET)
    ensures |TARGET_MODULE| == 22 && |ENVIRON_GET| == 11 && |ENVIRON_SIZES_GET| == 17
  {
    hide ValidUtf8;
    AsciiIsUtf8(TARGET_MODULE);
    AsciiIsUtf8(ENVIRON_GET);
    AsciiIsUtf8(ENVIRON_SIZES_GET);
  }

  lemma {:induction false} SinglyLength(types: seq<byte>)
    ensures |Concat(Singly(types))| == |types|
  {
    if types == [] {
    } else {
      SinglyLength(types[1..]);
      assert Singly(types)[1..] == Singly(types[1..]);
    }
  }

  lemma TypeListPrints(types: seq<byte>)
    requires AreTypes(types)
    ensures Prints(Vector(ValType()), EncodeVector(Singly(types)), types)
    ensures |EncodeVector(Singly(types))| < 60
  {
    forall i | 0 <= i < |types| ensures Prints(ValType(), Singly(types)[i], types[i]) {
      ByteInPrints(VALUE_TYPES, types[i]);
    }
    VectorPrints(ValType(), Singly(types), types);
    SinglyLength(types);
  }

  lemma SignaturePrints(s: Signature)
    requires AreTypes(s.params) && AreTypes(s.results)
    ensures Prints(ReadSignature(), SignatureBytes(s), s)
    ensures |SignatureBytes(s)| < 121
  {
    hide Prints, Vector, ValType, EncodeVector, Singly, AreTypes;
    var types: Parser<seq<byte>>, form := Vector(ValType()), ByteIn({FUNCTION_TYPE_FORM});
    var first, second := EncodeVector(Singly(s.params)), EncodeVector(Singly(s.results));
    TypeListPrints(s.params);
    TypeListPrints(s.results);
    ByteInPrints({FUNCTION_TYPE_FORM}, FUNCTION_TYPE_FORM);
    PairPrints(types, types, first, s.params, second, s.results);
    PairPrints(form, Pair(types, types), [FUNCTION_TYPE_FORM], FUNCTION_TYPE_FORM, first + second, (s.params, s.results));
    MapPrints(Pair(form, Pair(types, types)), ToSignature(), SignatureBytes(s), (FUNCTION_TYPE_FORM, (s.params, s.results)));
  }

  lemma ImportPrints(moduleName: Text, name: Text)
    requires ValidUtf8(moduleName) && ValidUtf8(name) && |moduleName| < TWO_32 && |name| < TWO_32
    ensures Prints(ReadImport(1), ImportBytes(moduleName, name), Import(moduleName, name, Function(0)))
  {
    hide Prints, Name, Encode, EncodeSized, ValidUtf8;
    NamePrints(moduleName);
    NamePrints(name);
    PairPrints(Name(), Name(), EncodeSized(moduleName), moduleName, EncodeSized(name), name);
    ByteInPrints(KINDS, FUNCTION_KIND);
    IndexPrints(1, 0);
    MapPrints(Index(1), (typeIndex: nat) => Function(typeIndex), Encode(0), 0);
    BindPrints(ByteIn(KINDS), ExternalOf(1), [FUNCTION_KIND], FUNCTION_KIND, Encode(0), Function(0));
    PairPrints(Pair(Name(), Name()), ReadExternal(1), EncodeSized(moduleName) + EncodeSized(name), (moduleName, name),
               [FUNCTION_KIND] + Encode(0), Function(0));
    MapPrints(Pair(Pair(Name(), Name()), ReadExternal(1)), ToImport(), ImportBytes(moduleName, name),
              ((moduleName, name), Function(0)));
  }

  lemma VectorIsWhole<T>(p: Parser<T>, parts: seq<seq<byte>>, values: seq<T>)
    requires PrintsEach(p, parts, values) && |parts| < TWO_32
    ensures Whole(Vector(p))(EncodeVector(parts)) == Some(values)
  {
    VectorPrints(p, parts, values);
    WholePrints(Vector(p), EncodeVector(parts), values);
  }

  lemma {:induction false} RepeatedLength(part: seq<byte>, count: nat)
    ensures |Concat(Repeated(part, count))| == count * |part|
  {
    if count == 0 {
    } else {
      RepeatedLength(part, count - 1);
      assert Repeated(part, count)[1..] == Repeated(part, count - 1);
    }
  }

  lemma {:induction false} RepeatedSum(size: nat, count: nat)
    ensures Sum(Repeated<nat>(size, count)) == count * size
  {
    if count == 0 {
    } else {
      RepeatedSum(size, count - 1);
      assert Repeated<nat>(size, count)[1..] == Repeated<nat>(size, count - 1);
    }
  }

  lemma ZerosPrint(count: nat)
    ensures PrintsEach(Index(1), Repeated([0], count), Repeated<nat>(0, count))
  {
    IndexPrints(1, 0);
  }

  lemma FunctionsAreRead(e: Example)
    requires Named(e)
    ensures Whole(Vector(Index(1)))(FunctionSection(e).payload) == Some(Repeated<nat>(0, e.count))
    ensures ReadDefined([FunctionSection(e)]) == Some(e.count)
    ensures |FunctionSection(e).payload| <= e.count + 5
  {
    hide Vector, Index, Whole;
    ZerosPrint(e.count);
    VectorIsWhole(Index(1), Repeated([0], e.count), Repeated<nat>(0, e.count));
    U32Prints(e.count);
    assert U32()(Encode(e.count) + Concat(Repeated([0], e.count))).Got?;
    RepeatedLength([0], e.count);
    FiveBytes(e.count);
  }

  lemma ImportsAreRead(e: Example)
    requires Named(e)
    ensures Whole(Vector(ReadImport(1)))(ImportSection(e).payload) == Some([ImportOf(e.first), ImportOf(e.second)])
    ensures |ImportSection(e).payload| < 200
  {
    hide Prints, ReadImport, Vector, ImportBytes, EncodeVector, ValidUtf8, Whole;
    NamesAreText();
    ImportPrints(TARGET_MODULE, e.first);
    ImportPrints(TARGET_MODULE, e.second);
    VectorIsWhole(ReadImport(1), [ImportBytes(TARGET_MODULE, e.first), ImportBytes(TARGET_MODULE, e.second)],
                  [ImportOf(e.first), ImportOf(e.second)]);
    ImportSize(TARGET_MODULE, e.first);
    ImportSize(TARGET_MODULE, e.second);
    TwoSize(ImportBytes(TARGET_MODULE, e.first), ImportBytes(TARGET_MODULE, e.second));
  }

  lemma TwoSize(first: seq<byte>, second: seq<byte>)
    ensures |EncodeVector([first, second])| == 1 + |first| + |second|
  {
    ConcatFirst(first, [second]);
    ConcatFirst(second, []);
    assert [first] + [second] == [first, second] && [second] + [] == [second];
  }

  lemma ImportSize(moduleName: Text, name: Text)
    requires |moduleName| < 128 && |name| < 128
    ensures |ImportBytes(moduleName, name)| == |moduleName| + |name| + 4
  {
  }

  lemma TypesAreRead(e: Example)
    requires Named(e)
    ensures Whole(Vector(ReadSignature()))(TypeSection(e).payload) == Some([e.shared])
    ensures |TypeSection(e).payload| < 200
  {
    hide Prints, ReadSignature, Vector, Whole, SignatureBytes, AreTypes;
    SignaturePrints(e.shared);
    VectorIsWhole(ReadSignature(), [SignatureBytes(e.shared)], [e.shared]);
    ConcatFirst(SignatureBytes(e.shared), []);
    assert [SignatureBytes(e.shared)] + [] == [SignatureBytes(e.shared)];
  }

  lemma BodiesAreRead()
    ensures Whole(Vector(ReadBody()))(EncodeVector([])) == Some([])
    ensures |EncodeVector([])| < 200
  {
    hide Vector, ReadBody;
    VectorIsWhole(ReadBody(), [], []);
  }

  /** Two targets of one type and nothing else. */
  lemma TwoTargets(a: Import, b: Import)
    requires IsTarget(a) && IsTarget(b) && a.external.typeIndex == b.external.typeIndex
    ensures Removals([a, b], 0) == [Removed(0, a.name, a.external.typeIndex), Removed(1, b.name, b.external.typeIndex)]
    ensures |FunctionImports([a, b])| == 2 && Rewritable([a, b])
  {
    assert [a, b][1..] == [b] && [b][1..] == [];
    assert Removals([b], 1) == [Removed(1, b.name, b.external.typeIndex)] + Removals([], 2);
  }

  // ---- the sections of an example --------------------------------------------------------------------

  lemma Tails<T>(a: T, b: T, c: T, rest: seq<T>)
    ensures ([a, b, c] + rest)[1..] == [b, c] + rest && ([b, c] + rest)[1..] == [c] + rest && ([c] + rest)[1..] == rest
    ensures [a] + ([b, c] + rest) == [a, b, c] + rest && [b] + ([c] + rest) == [b, c] + rest
  {
  }

  lemma SectionsAreFound(e: Example)
    ensures Find(Sections(e), TYPE) == Some(TypeSection(e)) && Find(Sections(e), IMPORT) == Some(ImportSection(e))
    ensures Find(Sections(e), FUNCTION) == Some(FunctionSection(e))
    ensures Find(Sections(e), CODE).Some? <==> e.coded
  {
    hide EncodeVector;
    var a, b, c, rest := TypeSection(e), ImportSection(e), FunctionSection(e), CodeSections(e);
    Tails(a, b, c, rest);
    assert Find([b, c] + rest, IMPORT) == Some(b) && Find([c] + rest, FUNCTION) == Some(c);
    assert Find([c] + rest, CODE) == Find(rest, CODE);
  }

  lemma Positions()
    ensures PositionIn(SECTION_ORDER, TYPE) == 0 && PositionIn(SECTION_ORDER, IMPORT) == 1
    ensures PositionIn(SECTION_ORDER, FUNCTION) == 2 && PositionIn(SECTION_ORDER, CODE) == 11
  {
    hide PositionIn;
    PlacesAre(TYPE);
    PlacesAre(IMPORT);
    PlacesAre(FUNCTION);
    PlacesAre(CODE);
  }

  lemma SectionsAreOrdered(e: Example)
    ensures Ordered(Sections(e), -1)
  {
    hide PositionIn, EncodeVector;
    var a, b, c, rest := TypeSection(e), ImportSection(e), FunctionSection(e), CodeSections(e);
    Tails(a, b, c, rest);
    Positions();
    assert Ordered(rest, 2) by {
      if e.coded {
        assert rest[1..] == [];
      }
    }
    assert Ordered([c] + rest, 1) && Ordered([b, c] + rest, 0);
  }

  lemma ContentsAreRead(e: Example)
    requires Named(e)
    ensures ReadContents(Sections(e), 1, 2 + e.count) == Some(Contents(e))
  {
    hide ReadContent;
    var a, b, c, rest := TypeSection(e), ImportSection(e), FunctionSection(e), CodeSections(e);
    var count := 2 + e.count;
    EachIsRead(e);
    Tails(a, b, c, rest);
    var end: seq<Content> := if e.coded then [Code([])] else [];
    assert ReadContents(rest, 1, count) == Some(end) by {
      if e.coded {
        ContentsPush(rest[0], [], 1, count);
        assert [rest[0]] + [] == rest && [Code([])] + [] == end;
      }
    }
    var x, y, z := Contents(e)[0], Contents(e)[1], Contents(e)[2];
    ContentsPush(c, rest, 1, count);
    ContentsPush(b, [c] + rest, 1, count);
    ContentsPush(a, [b, c] + rest, 1, count);
    Tails(x, y, z, end);
  }

  lemma EachIsRead(e: Example)
    requires Named(e)
    ensures ReadContent(TypeSection(e), 1, 2 + e.count) == Some(Contents(e)[0])
    ensures ReadContent(ImportSection(e), 1, 2 + e.count) == Some(Contents(e)[1])
    ensures ReadContent(FunctionSection(e), 1, 2 + e.count) == Some(Contents(e)[2])
    ensures ReadContent(Section(CODE, EncodeVector([])), 1, 2 + e.count) == Some(Code([]))
  {
    hide Vector, ReadImport, ReadExport, ReadSegment, ReadBody, Index, EncodeVector, Whole, Named;
    ImportsAreRead(e);
    FunctionsAreRead(e);
    BodiesAreRead();
  }

  lemma SectionsAreSized(e: Example)
    requires Named(e)
    ensures Sized32(Sections(e))
  {
    hide EncodeVector, Named, Sized32, Whole, Vector, ReadDefined, ReadSignature, ReadImport, Index, ReadBody;
    var a, b, c, rest := TypeSection(e), ImportSection(e), FunctionSection(e), CodeSections(e);
    ImportsAreRead(e);
    FunctionsAreRead(e);
    TypesAreRead(e);
    BodiesAreRead();
    FewDefinitions(e);
    Tails(a, b, c, rest);
    NoneSized();
    if e.coded {
      Sized32Splits(rest);
      assert rest[1..] == [];
    }
    Sized32Splits([c] + rest);
    Sized32Splits([b, c] + rest);
    Sized32Splits([a, b, c] + rest);
  }

  lemma NoneSized()
    ensures Sized32([])
  {
  }

  lemma FewDefinitions(e: Example)
    requires Named(e)
    ensures e.count + 5 < TWO_32
  {
  }

  /** What is known of an example. */
  lemma ExampleDecodes(e: Example)
    requires Named(e)
    ensures ReadSections(ModuleBytes(e)) == Some(Sections(e))
    ensures DecodeModule(ModuleBytes(e)) == Some(Module([e.shared], 2 + e.count, Contents(e)))
    ensures HasTargets(ModuleBytes(e))
  {
    hide ReadSections, EncodeModule, ReadImport, ReadSignature, Vector, Index, U32, EncodeVector, Sized32, Ordered, Find,
         Removals, FunctionImports, IsTarget, DecodeSections, ReadContents, ImportBytes, Rewritable, Contents, Sections, Named,
         Whole;
    var imports := [ImportOf(e.first), ImportOf(e.second)];
    SectionsAreFound(e);
    SectionsAreOrdered(e);
    SectionsAreSized(e);
    ModuleRoundTrip(Sections(e));
    TypesAreRead(e);
    ImportsAreRead(e);
    FunctionsAreRead(e);
    AreTargets(e);
    TwoTargets(ImportOf(e.first), ImportOf(e.second));
    ContentsAreRead(e);
    DefinedAlone(e);
    DecodeUnfolds(Sections(e), [e.shared], imports, e.count);
  }

  lemma DefinedAlone(e: Example)
    requires Find(Sections(e), FUNCTION) == Some(FunctionSection(e))
    ensures ReadDefined(Sections(e)) == ReadDefined([FunctionSection(e)])
  {
    hide U32, EncodeVector;
  }

  lemma AreTargets(e: Example)
    requires Named(e)
    ensures IsTarget(ImportOf(e.first)) && IsTarget(ImportOf(e.second))
  {
  }

  // ---- examples without definitions ------------------------------------------------------------------

  lemma ExampleIsSmall(e: Example)
    requires Named(e) && e.count == 0
    ensures GROWTH * |ModuleBytes(e)| + SLACK < TWO_32
  {
    hide EncodeSection, EncodeVector, Named, Whole, Vector, ReadDefined, ReadSignature, ReadImport, Index, ReadBody, Sized32;
    var a, b, c, rest := TypeSection(e), ImportSection(e), FunctionSection(e), CodeSections(e);
    Tails(a, b, c, rest);
    ImportsAreRead(e);
    FunctionsAreRead(e);
    TypesAreRead(e);
    BodiesAreRead();
    EncodedSectionSize(a);
    EncodedSectionSize(b);
    EncodedSectionSize(c);
    assert |EncodeSections(rest)| <= 204 by {
      if e.coded {
        EncodedSectionSize(rest[0]);
        assert EncodeSections(rest) == EncodeSection(rest[0]) + EncodeSections([]);
      }
    }
    assert EncodeSections([c] + rest) == EncodeSection(c) + EncodeSections(rest);
    assert EncodeSections([b, c] + rest) == EncodeSection(b) + EncodeSections([c] + rest);
  }

  lemma EncodedSectionSize(section: Section)
    requires |section.payload| < 200
    ensures |EncodeSection(section)| <= 204
  {
    EncodeIsMonotonic(|section.payload|, 200);
    assert |Encode(200)| == 2;
  }

  /** What replaced an import of an example. */
  function StubOf(e: Example, name: Text): Definition {
    Defined(0, if e.coded then Some(Body([], StubCode(name))) else None)
  }

  ghost predicate BecomesStubs(e: Example, after: Module) {
    && after.types == [e.shared]
    && FunctionAt(after, 0) == Some(StubOf(e, e.first))
    && FunctionAt(after, 1) == Some(StubOf(e, e.second))
  }

  /** Every example is accepted, and functions 0 and 1 of its rewrite are the stubs. */
  lemma ExampleIsRewritten(e: Example)
    requires Named(e) && e.count == 0
    ensures Strip(ModuleBytes(e)).Some? && AllFit(PlanOf(ModuleBytes(e)), ReadSections(ModuleBytes(e)).value)
    ensures DecodeModule(ModuleBytes(e)).Some? && DecodeModule(Strip(ModuleBytes(e)).value).Some?
    ensures BecomesStubs(e, DecodeModule(Strip(ModuleBytes(e)).value).value)
    ensures PlanOf(ModuleBytes(e)).imports.first.name == e.first && PlanOf(ModuleBytes(e)).imports.second.name == e.second
  {
    hide *;
    var bytes := ModuleBytes(e);
    ExampleDecodes(e);
    ExampleIsSmall(e);
    StripAccepts(bytes);
    SmallModulesAreRewritten(bytes);
    StripMovesFunctions(bytes);
    PlanKnows(bytes);
    ExampleLists(e);
    ExamplePlan(e, PlanOf(bytes), DecodeModule(bytes).value);
    StubsAreFirst(e, PlanOf(bytes), DecodeModule(bytes).value, DecodeModule(Strip(bytes).value).value);
  }

  lemma ExampleLists(e: Example)
    requires Named(e)
    ensures ImportsOf(Contents(e)) == [ImportOf(e.first), ImportOf(e.second)]
    ensures BodiesOf(Contents(e)).Some? <==> e.coded
    ensures Removals(ImportsOf(Contents(e)), 0) == [Removed(0, e.first, 0), Removed(1, e.second, 0)]
    ensures |FunctionImports(ImportsOf(Contents(e)))| == 2
  {
    hide EncodeVector, Removals, FunctionImports, IsTarget, Named;
    var x, y, z, end := Contents(e)[0], Contents(e)[1], Contents(e)[2], Contents(e)[3..];
    Tails(x, y, z, end);
    assert Contents(e) == [x, y, z] + end;
    assert BodiesOf([y, z] + end) == BodiesOf([z] + end) == BodiesOf(end);
    AreTargets(e);
    TwoTargets(ImportOf(e.first), ImportOf(e.second));
  }

  lemma ExamplePlan(e: Example, rw: Rewrite, m: Module)
    requires Agrees(rw, m) && rw.renumber == RemovalOf(rw.imports)
    requires Removals(ImportsOf(m.contents), 0) == [Removed(0, e.first, 0), Removed(1, e.second, 0)]
    requires |FunctionImports(ImportsOf(m.contents))| == 2
    ensures rw.imports.first == Removed(0, e.first, 0) && rw.imports.second == Removed(1, e.second, 0)
    ensures rw.renumber == Removal(2, 0, 1)
  {
    hide ImportsOf, TypesOf;
  }

  lemma StubsAreFirst(e: Example, rw: Rewrite, m: Module, after: Module)
    requires Follows(rw, m, after) && m.types == [e.shared] && (BodiesOf(m.contents).Some? <==> e.coded)
    requires rw.imports.first == Removed(0, e.first, 0) && rw.imports.second == Removed(1, e.second, 0)
    requires rw.renumber == Removal(2, 0, 1)
    ensures BecomesStubs(e, after)
  {
    hide FunctionAt, BodiesOf, ImportsOf, IsRemovedTarget, Changed, ExportsOf, SegmentsOf, StartOf, StubCode;
    assert FunctionAt(after, NewIndex(rw.renumber, 0)) == Moved(rw, m, 0);
    assert FunctionAt(after, NewIndex(rw.renumber, 1)) == Moved(rw, m, 1);
  }

  /** Accepted, although the new functions 0 and 1 are declared and have no bodies. */
  lemma StubsWithoutBodies()
    ensures var bytes := ModuleBytes(Example(DOCUMENTED, ENVIRON_GET, ENVIRON_SIZES_GET, 0, false));
      && Strip(bytes).Some? && DecodeModule(Strip(bytes).value).Some?
      && FunctionAt(DecodeModule(Strip(bytes).value).value, 0) == Some(Defined(0, None))
      && FunctionAt(DecodeModule(Strip(bytes).value).value, 1) == Some(Defined(0, None))
  {
    hide ModuleBytes, Strip, DecodeModule, FunctionAt, ReadSections, PlanOf, AllFit;
    ExampleIsRewritten(Example(DOCUMENTED, ENVIRON_GET, ENVIRON_SIZES_GET, 0, false));
  }

  /** Accepted with one of the functions imported twice: each copy has its own stub, and the other has none. */
  lemma SameImportTwice()
    ensures var bytes := ModuleBytes(Example(DOCUMENTED, ENVIRON_GET, ENVIRON_GET, 0, true));
      && Strip(bytes).Some? && DecodeModule(bytes).Some? && DecodeModule(Strip(bytes).value).Some?
      && var before, after := DecodeModule(bytes).value, DecodeModule(Strip(bytes).value).value;
         && FunctionAt(after, 0) == FunctionAt(after, 1) == Some(Defined(0, Some(Body([], StubCode(ENVIRON_GET)))))
         && !Replaced(PlanOf(bytes), before, after, ENVIRON_SIZES_GET)
  {
    hide ModuleBytes, Strip, DecodeModule, FunctionAt, ReadSections, PlanOf, AllFit, StubCode, Replaced;
    var e := Example(DOCUMENTED, ENVIRON_GET, ENVIRON_GET, 0, true);
    ExampleIsRewritten(e);
    OnlyGet(e);
  }

  lemma OnlyGet(e: Example)
    requires Named(e) && e.count == 0 && e.first == e.second == ENVIRON_GET
    ensures Strip(ModuleBytes(e)).Some? && DecodeModule(ModuleBytes(e)).Some? && DecodeModule(Strip(ModuleBytes(e)).value).Some?
    ensures var rw, before := PlanOf(ModuleBytes(e)), DecodeModule(ModuleBytes(e)).value;
      !Replaced(rw, before, DecodeModule(Strip(ModuleBytes(e)).value).value, ENVIRON_SIZES_GET)
  {
    hide *;
    var bytes := ModuleBytes(e);
    ExampleIsRewritten(e);
    StripMovesFunctions(bytes);
    PlanKnows(bytes);
    var rw, m, after := PlanOf(bytes), DecodeModule(bytes).value, DecodeModule(Strip(bytes).value).value;
    ReplacedIff(rw, m, after, ENVIRON_SIZES_GET);
    RemovedNames(rw, m, after);
  }

  // ---- badly typed stubs -------------------------------------------------------------------------------

  /** Accepted with targets of a type that neither stub's body fits. */
  lemma WronglyTypedStubs()
    ensures var bytes := ModuleBytes(Example(Signature([], []), ENVIRON_GET, ENVIRON_SIZES_GET, 0, true));
      && Strip(bytes).Some? && DecodeModule(Strip(bytes).value).Some?
      && !WellTyped(DecodeModule(Strip(bytes).value).value, 0) && !WellTyped(DecodeModule(Strip(bytes).value).value, 1)
  {
    hide ModuleBytes, Strip, DecodeModule, FunctionAt, ReadSections, PlanOf, AllFit, StubCode, FitsType, HasMemory;
    var e := Example(Signature([], []), ENVIRON_GET, ENVIRON_SIZES_GET, 0, true);
    ExampleIsRewritten(e);
    var after := DecodeModule(Strip(ModuleBytes(e)).value).value;
    StubFitsIff(HasMemory(after), ENVIRON_GET, e.shared);
    StubFitsIff(HasMemory(after), ENVIRON_SIZES_GET, e.shared);
  }

  /** Examples have no memory, and the rewrite gives them none. */
  lemma ExampleHasNoMemory(e: Example)
    requires Named(e) && e.count == 0
    ensures Strip(ModuleBytes(e)).Some? && DecodeModule(Strip(ModuleBytes(e)).value).Some?
    ensures !HasMemory(DecodeModule(Strip(ModuleBytes(e)).value).value)
  {
    hide *;
    var bytes := ModuleBytes(e);
    ExampleIsRewritten(e);
    ExampleDecodes(e);
    StripPreservesMeaning(bytes);
    MemoryStays(PlanOf(bytes), DecodeModule(bytes).value);
    NoMemoryInContents(e, DecodeModule(bytes).value);
  }

  lemma NoMemoryInContents(e: Example, m: Module)
    requires Named(e) && m.contents == Contents(e)
    ensures !HasMemory(m)
  {
    hide Named, EncodeVector, DefinesMemory;
    ExampleLists(e);
    forall content | content in m.contents ensures !DefinesMemory(content) {
      NotMemory(content);
    }
  }

  lemma NotMemory(content: Content)
    requires content.Other? ==> content.id != MEMORY
    ensures !DefinesMemory(content)
  {
  }

  /** Accepted with the documented type and no memory: the stub that stores is ill-typed, the other is not. */
  lemma StoreWithoutMemory()
    ensures var bytes := ModuleBytes(Example(DOCUMENTED, ENVIRON_GET, ENVIRON_SIZES_GET, 0, true));
      && Strip(bytes).Some? && DecodeModule(Strip(bytes).value).Some?
      && WellTyped(DecodeModule(Strip(bytes).value).value, 0) && !WellTyped(DecodeModule(Strip(bytes).value).value, 1)
  {
    hide ModuleBytes, Strip, DecodeModule, FunctionAt, ReadSections, PlanOf, AllFit, StubCode, FitsType, HasMemory;
    var e := Example(DOCUMENTED, ENVIRON_GET, ENVIRON_SIZES_GET, 0, true);
    ExampleIsRewritten(e);
    ExampleHasNoMemory(e);
    StubFitsIff(false, ENVIRON_GET, e.shared);
    StubFitsIff(false, ENVIRON_SIZES_GET, e.shared);
  }

  // ---- a section that outgrows its length --------------------------------------------------------------

  lemma OneByteSingly(count: nat)
    ensures PrintsEach(SizeVerbatim(Index(1)), Repeated([0], count), Repeated<nat>(1, count))
  {
    IndexPrints(1, 0);
    forall t ensures SizeVerbatim(Index(1))([0] + t) == Got(1, t) {
      assert Index(1)([0] + t) == Got(0, t);
    }
  }

  lemma DefinitionsMeasured(rw: Rewrite, e: Example)
    requires Named(e) && rw.typeCount == 1 && rw.imports.first.typeIndex == 0
    ensures SectionSize(rw, FunctionSection(e)) == Some(Width(e.count + 2) + e.count + 2)
  {
    hide Vector, Index, Prints;
    OneByteSingly(e.count);
    VectorIsWhole(SizeVerbatim(Index(1)), Repeated([0], e.count), Repeated<nat>(1, e.count));
    SumTwo(1, 1, Repeated<nat>(1, e.count));
    RepeatedSum(1, e.count);
  }

  /** A function section of `count` one-byte type indices needs two more bytes, and a count of two more. */
  lemma OutgrownSection()
    ensures var bytes := ModuleBytes(Example(DOCUMENTED, ENVIRON_GET, ENVIRON_SIZES_GET, MOST_DEFINITIONS, false));
      DecodeModule(bytes).Some? && Strip(bytes).Some? && DecodeModule(Strip(bytes).value).None?
  {
    hide *;
    var e := Example(DOCUMENTED, ENVIRON_GET, ENVIRON_SIZES_GET, MOST_DEFINITIONS, false);
    MostAreNamed(e);
    var bytes := ModuleBytes(e);
    ExampleDecodes(e);
    StripAccepts(bytes);
    PlanKnows(bytes);
    ExampleLists(e);
    ExamplePlan(e, PlanOf(bytes), DecodeModule(bytes).value);
    PlanTypes(bytes);
    StripPreservesMeaning(bytes);
    DefinitionsMeasured(PlanOf(bytes), e);
    NotAllFit(PlanOf(bytes), e);
  }

  lemma MostAreNamed(e: Example)
    requires e == Example(DOCUMENTED, ENVIRON_GET, ENVIRON_SIZES_GET, MOST_DEFINITIONS, false)
    ensures Named(e)
  {
  }

  lemma PlanTypes(bytes: seq<byte>)
    requires Strip(bytes).Some? && DecodeModule(bytes).Some?
    ensures PlanOf(bytes).typeCount == |DecodeModule(bytes).value.types|
  {
    hide *;
    StripUnfolds(bytes);
    PlanOfUnfolds(bytes);
    PlanFactsShort(ReadSections(bytes).value);
    TypesKept(ReadSections(bytes).value);
  }

  lemma NotAllFit(rw: Rewrite, e: Example)
    requires e.count == MOST_DEFINITIONS
    requires SectionSize(rw, FunctionSection(e)) == Some(Width(e.count + 2) + e.count + 2)
    ensures !AllFit(rw, Sections(e))
  {
    hide EncodeVector, SectionSize;
    WidthIsLength(e.count + 2);
    assert Sections(e)[2] == FunctionSection(e);
    assert !FitsAfter(rw, Sections(e)[2]) by {
      FiveBytesFrom(e.count + 2);
    }
  }

  lemma FiveBytesFrom(value: nat)
    requires value >= 0x1000_0000
    ensures Width(value) >= 5
  {
    assert value / 128 >= 0x20_0000 && value / 128 / 128 >= 0x4000 && value / 128 / 128 / 128 >= 0x80;
    assert Width(value / 128) == 1 + Width(value / 128 / 128);
    assert Width(value / 128 / 128) == 1 + Width(value / 128 / 128 / 128);
    assert Width(value / 128 / 128 / 128) == 1 + Width(value / 128 / 128 / 128 / 128);
  }
}
