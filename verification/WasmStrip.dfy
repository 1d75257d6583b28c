/** Replacing the two imports by stubs, and what the rewritten module means. */
module WasmStrip {
  import opened Bytes
  import opened Wrappers
  import opened Sequences
  import opened Leb128
  import opened WasmBinary
  import opened WasmCopying
  import opened WasmInstructions
  import opened WasmSections
  import opened WasmModule
  import opened WasmImports
  import opened WasmStubs

  // ---- what a module means -----------------------------------------------------------------------

  datatype Content =
    | Imports(imports: seq<Import>)
    | Functions(types: seq<nat>)
    | Exports(exports: seq<Export>)
    | Start(index: nat)
    | Elements(segments: seq<Segment>)
    | Code(bodies: seq<Body>)
    | Other(id: byte, payload: seq<byte>)

  datatype Module = Module(types: seq<Signature>, functionCount: nat, contents: seq<Content>)

  function ReadContent(section: Section, typeCount: nat, functionCount: nat): Option<Content> {
    if section.id == IMPORT then
      match Whole(Vector(ReadImport(typeCount)))(section.payload)
      case None => None
      case Some(imports) => Some(Imports(imports))
    else if section.id == FUNCTION then
      match Whole(Vector(Index(typeCount)))(section.payload)
      case None => None
      case Some(types) => Some(Functions(types))
    else if section.id == EXPORT then
      match Whole(Vector(ReadExport(functionCount)))(section.payload)
      case None => None
      case Some(exports) => Some(Exports(exports))
    else if section.id == START then
      match Whole(Index(functionCount))(section.payload)
      case None => None
      case Some(index) => Some(Start(index))
    else if section.id == ELEMENT then
      match Whole(Vector(ReadSegment()))(section.payload)
      case None => None
      case Some(segments) => Some(Elements(segments))
    else if section.id == CODE then
      match Whole(Vector(ReadBody()))(section.payload)
      case None => None
      case Some(bodies) => Some(Code(bodies))
    else Some(Other(section.id, section.payload))
  }

  function ReadContents(sections: seq<Section>, typeCount: nat, functionCount: nat): Option<seq<Content>> {
    if sections == [] then Some([])
    else match ReadContent(sections[0], typeCount, functionCount)
      case None => None
      case Some(content) =>
        match ReadContents(sections[1..], typeCount, functionCount)
        case None => None
        case Some(contents) => Some([content] + contents)
  }

  /** The function types; none when the module lacks the section. */
  function ReadTypes(sections: seq<Section>): Option<seq<Signature>> {
    match Find(sections, TYPE)
    case None => Some([])
    case Some(section) => Whole(Vector(ReadSignature()))(section.payload)
  }

  function ReadImports(sections: seq<Section>, typeCount: nat): Option<seq<Import>> {
    match Find(sections, IMPORT)
    case None => Some([])
    case Some(section) => Whole(Vector(ReadImport(typeCount)))(section.payload)
  }

  /** How many functions the function section says it defines. */
  function ReadDefined(sections: seq<Section>): Option<nat> {
    match Find(sections, FUNCTION)
    case None => Some(0)
    case Some(section) =>
      match U32()(section.payload)
      case Bad => None
      case Got(count, _) => Some(count)
  }

  function DecodeSections(sections: seq<Section>): Option<Module> {
    match ReadTypes(sections)
    case None => None
    case Some(types) =>
      match (ReadImports(sections, |types|), ReadDefined(sections))
      case (Some(imports), Some(defined)) =>
        var functionCount := |FunctionImports(imports)| + defined;
        (match ReadContents(sections, |types|, functionCount)
         case None => None
         case Some(contents) => Some(Module(types, functionCount, contents)))
      case _ => None
  }

  /** The meaning of a module's bytes. */
  function DecodeModule(bytes: seq<byte>): Option<Module> {
    match ReadSections(bytes)
    case None => None
    case Some(sections) => DecodeSections(sections)
  }

  // ---- the rewrite -------------------------------------------------------------------------------

  datatype Rewrite = Rewrite(imports: ImportRewrite, renumber: Renumbering, typeCount: nat, functionCount: nat)

  function PlanRewrite(sections: seq<Section>): Option<Rewrite> {
    match ReadTypes(sections)
    case None => None
    case Some(types) =>
      match (Find(sections, IMPORT), Find(sections, FUNCTION))
      case (Some(imports), Some(functions)) =>
        (match RewriteImports(imports.payload, |types|)
         case None => None
         case Some(rewrite) =>
           match U32()(functions.payload)
           case Bad => None
           case Got(defined, _) =>
             RenumberingIsOrdered(imports.payload, |types|);
             Some(Rewrite(rewrite, RemovalOf(rewrite), |types|, rewrite.imported + defined)))
      case _ => None
  }

  lemma RenumberingIsOrdered(payload: seq<byte>, typeCount: nat)
    requires RewriteImports(payload, typeCount).Some?
    ensures InOrder(RemovalOf(RewriteImports(payload, typeCount).value))
  {
    ImportsAreRewritten(payload, typeCount);
    var imports := Whole(Vector(ReadImport(typeCount)))(payload).value;
    var rewrite := RewriteImports(payload, typeCount).value;
    VectorCount(ReadImport(typeCount), payload);
    TwoRemoved(imports, 0);
    KeptImportsMove(imports, rewrite, rewrite.first.index);
  }

  lemma {:induction false} ItemsCount<T>(p: Parser<T>, count: nat, s: seq<byte>)
    requires ReadItems(p, count, s).Got?
    ensures |ReadItems(p, count, s).value| == count
  {
    if count == 0 {
    } else {
      ItemsCount(p, count - 1, p(s).rest);
    }
  }

  lemma VectorCount<T>(p: Parser<T>, payload: seq<byte>)
    requires Whole(Vector(p))(payload).Some?
    ensures U32()(payload).Got? && |Whole(Vector(p))(payload).value| == U32()(payload).value < TWO_32
  {
    ItemsCount(p, U32()(payload).value, U32()(payload).rest);
  }

  /** Two more items ahead of the copies of a vector's items. */
  function WithTwo(c: Copier, first: seq<byte>, second: seq<byte>): Reading<seq<byte>> {
    (s: seq<byte>) =>
      match Whole(Vector(c))(s)
      case None => None
      case Some(parts) => Some(EncodeVector([first, second] + parts))
  }

  function RewritePayload(rw: Rewrite, section: Section): Option<seq<byte>> {
    var removed, stubType := rw.imports, Encode(rw.imports.first.typeIndex);
    if section.id == IMPORT then Some(removed.payload)
    else if section.id == FUNCTION then WithTwo(Verbatim(Index(rw.typeCount)), stubType, stubType)(section.payload)
    else if section.id == EXPORT then Whole(CopyVector(CopyExport(rw.renumber, rw.functionCount)))(section.payload)
    else if section.id == START then Whole(Recode(Index(rw.functionCount), Renumber(rw.renumber)))(section.payload)
    else if section.id == ELEMENT then Whole(CopyVector(CopySegment(rw.renumber)))(section.payload)
    else if section.id == CODE then
      WithTwo(CopyBody(rw.renumber), StubBody(removed.first.name), StubBody(removed.second.name))(section.payload)
    else Some(section.payload)
  }

  function RewriteSections(rw: Rewrite, sections: seq<Section>): Option<seq<Section>> {
    if sections == [] then Some([])
    else match RewritePayload(rw, sections[0])
      case None => None
      case Some(payload) =>
        match RewriteSections(rw, sections[1..])
        case None => None
        case Some(rest) => Some([Section(sections[0].id, payload)] + rest)
  }

  /** Plans from the old sections, then rewrites each of them. */
  function StripSections(sections: seq<Section>): Option<seq<Section>> {
    match PlanRewrite(sections)
    case None => None
    case Some(rw) => RewriteSections(rw, sections)
  }

  function Strip(bytes: seq<byte>): Option<seq<byte>> {
    match ReadSections(bytes)
    case None => None
    case Some(sections) =>
      match StripSections(sections)
      case None => None
      case Some(rewritten) => Some(EncodeModule(rewritten))
  }

  // ---- what the rewrite means ----------------------------------------------------------------------

  function Stub(removed: Removed): Body {
    Body([], StubCode(removed.name))
  }

  function RewriteContent(rw: Rewrite, content: Content): Content {
    var removed, r := rw.imports, rw.renumber;
    match content
    case Imports(imports) => Imports(KeptImports(imports))
    case Functions(types) => Functions([removed.first.typeIndex, removed.first.typeIndex] + types)
    case Exports(exports) => Exports(Changed(RenumberExport(r), exports))
    case Start(index) => Start(NewIndex(r, index))
    case Elements(segments) => Elements(Changed(RenumberSegment(r), segments))
    case Code(bodies) => Code([Stub(removed.first), Stub(removed.second)] + Changed(RenumberBody(r), bodies))
    case Other(_, _) => content
  }

  function RewriteContents(rw: Rewrite, contents: seq<Content>): seq<Content> {
    if contents == [] then [] else [RewriteContent(rw, contents[0])] + RewriteContents(rw, contents[1..])
  }

  function RewriteModule(rw: Rewrite, m: Module): Module {
    m.(contents := RewriteContents(rw, m.contents))
  }

  // ---- each section ----------------------------------------------------------------------------------

  /** The stubs and the counts add at most this much to a section. */
  const SLACK := 64

  ghost predicate RewrittenAs(rw: Rewrite, section: Section) {
    var tc, fc := rw.typeCount, rw.functionCount;
    match ReadContent(section, tc, fc)
    case None => RewritePayload(rw, section).None?
    case Some(content) =>
      var payload := RewritePayload(rw, section);
      && payload.Some?
      && |payload.value| <= GROWTH * |section.payload| + SLACK
      && (|payload.value| < TWO_32 ==>
            ReadContent(Section(section.id, payload.value), tc, fc) == Some(RewriteContent(rw, content)))
  }

  ghost predicate TwoAdded<T>(p: Parser<T>, d: Reading<seq<byte>>, f: T -> T, two: seq<T>, s: seq<byte>) {
    match Whole(Vector(p))(s)
    case None => d(s).None?
    case Some(values) =>
      && d(s).Some?
      && |d(s).value| <= GROWTH * |s| + SLACK
      && (|d(s).value| < TWO_32 ==> Whole(Vector(p))(d(s).value) == Some(two + Changed(f, values)))
  }

  lemma {:induction false} CountBelowSize<T>(p: Parser<T>, parts: seq<seq<byte>>, values: seq<T>)
    requires PrintsEach(p, parts, values) && Progresses(p)
    ensures |parts| <= |Concat(parts)|
  {
    if parts == [] {
    } else {
      assert parts[0] + [] == parts[0] && p(parts[0] + []) == Got(values[0], []);
      CountBelowSize(p, parts[1..], values[1..]);
    }
  }

  lemma ConcatTwo(first: seq<byte>, second: seq<byte>, parts: seq<seq<byte>>)
    ensures Concat([first, second] + parts) == first + (second + Concat(parts))
  {
    ConcatFirst(second, parts);
    ConcatFirst(first, [second] + parts);
    assert [first] + ([second] + parts) == [first, second] + parts;
  }

  lemma PrintsTwoMore<T>(p: Parser<T>, first: seq<byte>, a: T, second: seq<byte>, b: T, parts: seq<seq<byte>>, values: seq<T>)
    requires Prints(p, first, a) && Prints(p, second, b) && PrintsEach(p, parts, values) && Progresses(p)
    requires |first| + |second| + |Concat(parts)| < TWO_32
    ensures Whole(Vector(p))(EncodeVector([first, second] + parts)) == Some([a, b] + values)
  {
    hide Prints, Concat, Progresses;
    PrintsEachPush(p, second, b, parts, values);
    PrintsEachPush(p, first, a, [second] + parts, [b] + values);
    assert [first] + ([second] + parts) == [first, second] + parts && [a] + ([b] + values) == [a, b] + values;
    ConcatTwo(first, second, parts);
    CountBelowSize(p, [first, second] + parts, [a, b] + values);
    VectorPrints(p, [first, second] + parts, [a, b] + values);
    WholePrints(Vector(p), EncodeVector([first, second] + parts), [a, b] + values);
  }

  lemma TwoAreAdded<T>(
    p: Parser<T>, c: Copier, f: T -> T, limit: Option<nat>, first: seq<byte>, a: T, second: seq<byte>, b: T, s: seq<byte>
  )
    requires limit.None? || limit.value >= TWO_32
    requires PreservesUpTo(p, c, f, limit) && Progresses(p) && Prints(p, first, a) && Prints(p, second, b)
    requires |first| + |second| <= SLACK - 10
    ensures TwoAdded(p, WithTwo(c, first, second), f, [a, b], s)
  {
    hide Prints, PrintsEach, PreservesUpTo, Progresses, Concat, Changed;
    U32IsExact();
    if U32()(s).Got? {
      var count, rest := U32()(s).value, U32()(s).rest;
      assert ExactAt(U32(), s);
      ItemsArePreserved(p, c, f, limit, count, rest);
      if Whole(Vector(p))(s).Some? {
        var values, parts := ReadItems(p, count, rest).value, ReadItems(c, count, rest).value;
        ConcatTwo(first, second, parts);
        FiveBytes(count + 2);
        assert Whole(Vector(c))(s) == Some(parts);
        if |EncodeVector([first, second] + parts)| < TWO_32 {
          PrintsTwoMore(p, first, a, second, b, parts, Changed(f, values));
        }
      } else {
        assert Whole(Vector(c))(s) == None;
      }
    } else {
      assert Whole(Vector(p))(s) == None && Whole(Vector(c))(s) == None;
    }
  }

  lemma IndexProgresses(count: nat)
    ensures Progresses(Index(count))
  {
    U32IsExact();
    forall s | Index(count)(s).Got? ensures |Index(count)(s).rest| < |s| {
      EncodingIsShortest(s);
    }
  }

  lemma BodyProgresses()
    ensures Progresses(ReadBody())
  {
    forall s | ReadBody()(s).Got? ensures |ReadBody()(s).rest| < |s| {
      SizedLength(s);
    }
  }

  lemma FunctionSectionIsRewritten(rw: Rewrite, section: Section)
    requires section.id == FUNCTION && rw.imports.first.typeIndex < rw.typeCount && rw.imports.first.typeIndex < TWO_32
    ensures RewrittenAs(rw, section)
  {
    hide Prints, Progresses, PreservesUpTo, Exact, Index, Verbatim, Vector;
    var stubType := rw.imports.first.typeIndex;
    IndexIsExact(rw.typeCount);
    IndexProgresses(rw.typeCount);
    VerbatimPreserves(Index(rw.typeCount));
    IndexPrints(rw.typeCount, stubType);
    FiveBytes(stubType);
    TwoAreAdded(Index(rw.typeCount), Verbatim(Index(rw.typeCount)), Same<nat>(), None,
                Encode(stubType), stubType, Encode(stubType), stubType, section.payload);
    if ReadContent(section, rw.typeCount, rw.functionCount).Some? {
      var types := Whole(Vector(Index(rw.typeCount)))(section.payload).value;
      assert Changed(Same<nat>(), types) == types;
    }
  }

  lemma StubsAreShort(rw: Rewrite)
    ensures |StubBody(rw.imports.first.name)| + |StubBody(rw.imports.second.name)| <= SLACK - 10
  {
    assert |Encode(0)| == 1;
    assert |Encode(4)| == 1 && |Encode(18)| == 1;
  }

  lemma CodeSectionIsRewritten(rw: Rewrite, section: Section)
    requires section.id == CODE
    ensures RewrittenAs(rw, section)
  {
    hide Prints, Progresses, PreservesUpTo, ReadBody, CopyBody, Vector, StubBody, StubCode;
    var first, second := rw.imports.first, rw.imports.second;
    BodyIsPreserved(rw.renumber);
    BodyProgresses();
    StubPrints(first.name);
    StubPrints(second.name);
    StubsAreShort(rw);
    TwoAreAdded(ReadBody(), CopyBody(rw.renumber), RenumberBody(rw.renumber), Some(SIZED_LIMIT),
                StubBody(first.name), Stub(first), StubBody(second.name), Stub(second), section.payload);
  }

  lemma ReferenceSectionIsRewritten(rw: Rewrite, section: Section)
    requires section.id == EXPORT || section.id == START || section.id == ELEMENT
    requires rw.renumber.imported <= rw.functionCount
    ensures RewrittenAs(rw, section)
  {
    hide Preserves, PreservesUpTo, ReadExport, CopyExport, ReadSegment, CopySegment, Index, Recode, CopyVector, Vector;
    var r, count := rw.renumber, rw.functionCount;
    if section.id == EXPORT {
      ExportIsPreserved(r, count);
      PreservesVector(ReadExport(count), CopyExport(r, count), RenumberExport(r));
      PreservesRead(Vector(ReadExport(count)), CopyVector(CopyExport(r, count)), Each(RenumberExport(r)));
      assert PreservesWholeAt(Whole(Vector(ReadExport(count))), Whole(CopyVector(CopyExport(r, count))),
                              Each(RenumberExport(r)), section.payload);
    } else if section.id == START {
      RenumberedIndex(r, count);
      PreservesRead(Index(count), Recode(Index(count), Renumber(r)), Renumber(r));
      assert PreservesWholeAt(Whole(Index(count)), Whole(Recode(Index(count), Renumber(r))), Renumber(r), section.payload);
    } else {
      SegmentIsPreserved(r);
      PreservesVector(ReadSegment(), CopySegment(r), RenumberSegment(r));
      PreservesRead(Vector(ReadSegment()), CopyVector(CopySegment(r)), Each(RenumberSegment(r)));
      assert PreservesWholeAt(Whole(Vector(ReadSegment())), Whole(CopyVector(CopySegment(r))),
                              Each(RenumberSegment(r)), section.payload);
    }
  }
}
