/** The rewritten module means the old one with its functions renumbered and two imports replaced by stubs. */
module WasmMeaning {
  import opened Bytes
  import opened Wrappers
  import opened Leb128
  import opened WasmBinary
  import opened WasmCopying
  import opened WasmSections
  import opened WasmModule
  import opened WasmImports
  import opened WasmStrip
  import opened WasmSizes

  // ---- every section is rewritten as its content --------------------------------------------------

  /** The section at an index is the one its id finds. */
  lemma {:induction false} FindIsIt(sections: seq<Section>, last: int, i: nat)
    requires Ordered(sections, last) && i < |sections| && sections[i].id != CUSTOM
    ensures Find(sections, sections[i].id) == Some(sections[i])
  {
    hide Fits, After, IsSectionId;
    if i == 0 {
    } else {
      if sections[0].id == sections[i].id {
        SectionIsUnique(sections, last, 0, i);
      }
      FindIsIt(sections[1..], After(sections[0].id, last), i - 1);
    }
  }

  predicate TypesInRange(imports: seq<Import>, typeCount: nat) {
    forall i :: 0 <= i < |imports| && imports[i].external.Function? ==>
      imports[i].external.typeIndex < typeCount && imports[i].external.typeIndex < TWO_32
  }

  lemma ImportTypeInRange(typeCount: nat, s: seq<byte>)
    requires ReadImport(typeCount)(s).Got? && ReadImport(typeCount)(s).value.external.Function?
    ensures ReadImport(typeCount)(s).value.external.typeIndex < typeCount
    ensures ReadImport(typeCount)(s).value.external.typeIndex < TWO_32
  {
    hide Name, ReadLimits, ValType, ByteIn, U32, ReadU32;
    var names := Pair(Name(), Name())(s);
    assert ReadExternal(typeCount)(names.rest).Got?;
    var kind := ByteIn(KINDS)(names.rest);
    assert ReadExternalOf(typeCount, kind.value)(kind.rest).value.Function?;
    assert kind.value == FUNCTION_KIND;
    assert Index(typeCount)(kind.rest).Got?;
    U32Bound(kind.rest);
  }

  lemma U32Bound(s: seq<byte>)
    ensures U32()(s).Got? ==> U32()(s).value < TWO_32
  {
  }

  lemma {:induction false} ImportTypesInRange(typeCount: nat, count: nat, s: seq<byte>)
    requires ReadItems(ReadImport(typeCount), count, s).Got?
    ensures TypesInRange(ReadItems(ReadImport(typeCount), count, s).value, typeCount)
  {
    hide ReadImport;
    if count == 0 {
    } else {
      var p := ReadImport(typeCount);
      if p(s).value.external.Function? {
        ImportTypeInRange(typeCount, s);
      }
      ImportTypesInRange(typeCount, count - 1, p(s).rest);
    }
  }

  lemma {:induction false} FunctionsAreImports(imports: seq<Import>, typeCount: nat)
    requires TypesInRange(imports, typeCount)
    ensures TypesInRange(FunctionImports(imports), typeCount)
  {
    if imports == [] {
    } else {
      assert imports[0].external.Function? ==> imports[0].external.typeIndex < typeCount;
      FunctionsAreImports(imports[1..], typeCount);
    }
  }

  /** What a plan knows about the module. */
  ghost predicate Plans(rw: Rewrite, imports: seq<Import>) {
    && Selects(imports, rw.imports)
    && rw.renumber == RemovalOf(rw.imports)
    && |imports| < TWO_32
    && rw.renumber.imported <= rw.functionCount
    && rw.imports.first.typeIndex < rw.typeCount && rw.imports.first.typeIndex < TWO_32
  }

  lemma PlanFacts(sections: seq<Section>)
    requires PlanRewrite(sections).Some?
    ensures var rw := PlanRewrite(sections).value;
      && ReadTypes(sections).Some? && rw.typeCount == |ReadTypes(sections).value|
      && Find(sections, IMPORT).Some? && Find(sections, FUNCTION).Some?
      && Rewrites(rw.typeCount, Find(sections, IMPORT).value.payload, rw.imports)
      && Plans(rw, ReadImports(sections, rw.typeCount).value)
      && ReadDefined(sections).Some? && rw.functionCount == rw.renumber.imported + ReadDefined(sections).value
  {
    hide ReadImport, ReadSignature, RewriteImports, Removals, FunctionImports, KeptImports, Vector;
    var rw, payload := PlanRewrite(sections).value, Find(sections, IMPORT).value.payload;
    ImportsAreRewritten(payload, rw.typeCount);
    ImportsInRange(payload, rw.typeCount);
    var imports := ReadImports(sections, rw.typeCount).value;
    RemovedTypeInRange(imports, rw.imports, rw.typeCount);
  }

  lemma ImportsInRange(payload: seq<byte>, typeCount: nat)
    requires Whole(Vector(ReadImport(typeCount)))(payload).Some?
    ensures TypesInRange(Whole(Vector(ReadImport(typeCount)))(payload).value, typeCount)
    ensures |Whole(Vector(ReadImport(typeCount)))(payload).value| < TWO_32
  {
    hide ReadImport;
    VectorCount(ReadImport(typeCount), payload);
    ImportTypesInRange(typeCount, U32()(payload).value, U32()(payload).rest);
  }

  lemma RemovedTypeInRange(imports: seq<Import>, rewrite: ImportRewrite, typeCount: nat)
    requires Selects(imports, rewrite) && TypesInRange(imports, typeCount) && |imports| < TWO_32
    ensures rewrite.first.typeIndex < typeCount && rewrite.first.typeIndex < TWO_32
  {
    hide Removals, FunctionImports, KeptImports;
    TwoRemoved(imports, 0);
    FunctionsAreImports(imports, typeCount);
    assert IsRemoval(FunctionImports(imports), 0, rewrite.first);
    assert FunctionImports(imports)[rewrite.first.index].external.typeIndex < typeCount;
  }

  lemma SectionIsRewritten(sections: seq<Section>, i: nat)
    requires Ordered(sections, -1) && Sized32(sections) && PlanRewrite(sections).Some? && i < |sections|
    ensures RewrittenAs(PlanRewrite(sections).value, sections[i])
  {
    hide PlanRewrite, Vector, ReadImport, RewrittenAs, Removals, FunctionImports, KeptImports;
    var rw, section := PlanRewrite(sections).value, sections[i];
    PlanFacts(sections);
    if section.id == IMPORT {
      FindIsIt(sections, -1, i);
      ImportSectionIsRewritten(rw, section);
    } else if section.id == FUNCTION {
      FunctionSectionIsRewritten(rw, section);
    } else if section.id == CODE {
      CodeSectionIsRewritten(rw, section);
    } else if section.id == EXPORT || section.id == START || section.id == ELEMENT {
      ReferenceSectionIsRewritten(rw, section);
    } else {
      OtherSectionIsRewritten(rw, section);
    }
  }

  lemma ImportSectionIsRewritten(rw: Rewrite, section: Section)
    requires section.id == IMPORT && |section.payload| < TWO_32
    requires Rewrites(rw.typeCount, section.payload, rw.imports)
    ensures RewrittenAs(rw, section)
  {
    hide Vector, ReadImport, KeptImports, Removals, FunctionImports;
  }

  lemma OtherSectionIsRewritten(rw: Rewrite, section: Section)
    requires section.id !in {IMPORT, FUNCTION, EXPORT, START, ELEMENT, CODE}
    ensures RewrittenAs(rw, section)
  {
    hide Vector, ReadImport, KeptImports, Removals, FunctionImports;
  }

  // ---- the whole module ---------------------------------------------------------------------------

  ghost predicate SectionsRewrittenAs(rw: Rewrite, sections: seq<Section>) {
    match ReadContents(sections, rw.typeCount, rw.functionCount)
    case None => RewriteSections(rw, sections).None?
    case Some(contents) =>
      var rewritten := RewriteSections(rw, sections);
      && rewritten.Some? && |rewritten.value| == |sections|
      && (forall i :: 0 <= i < |sections| ==>
            && rewritten.value[i].id == sections[i].id
            && |rewritten.value[i].payload| <= GROWTH * |sections[i].payload| + SLACK)
      && (Sized32(rewritten.value) ==>
            ReadContents(rewritten.value, rw.typeCount, rw.functionCount) == Some(RewriteContents(rw, contents)))
  }

  lemma ContentsPush(section: Section, sections: seq<Section>, typeCount: nat, functionCount: nat)
    ensures ReadContents([section] + sections, typeCount, functionCount) ==
      match ReadContent(section, typeCount, functionCount)
      case None => None
      case Some(content) =>
        match ReadContents(sections, typeCount, functionCount)
        case None => None
        case Some(contents) => Some([content] + contents)
  {
    assert ([section] + sections)[1..] == sections;
  }

  lemma RewriteContentsPush(rw: Rewrite, content: Content, contents: seq<Content>)
    ensures RewriteContents(rw, [content] + contents) == [RewriteContent(rw, content)] + RewriteContents(rw, contents)
  {
    assert ([content] + contents)[1..] == contents;
  }

  lemma {:induction false} SectionsAreRewritten(rw: Rewrite, sections: seq<Section>)
    requires forall i :: 0 <= i < |sections| ==> RewrittenAs(rw, sections[i])
    ensures SectionsRewrittenAs(rw, sections)
  {
    hide ReadContent, RewritePayload, RewriteContent, RewriteContents;
    if sections == [] {
      NoContents(rw);
    } else {
      var section, rest := sections[0], sections[1..];
      assert RewrittenAs(rw, section);
      SectionsAreRewritten(rw, rest);
      if ReadContent(section, rw.typeCount, rw.functionCount).Some? && ReadContents(rest, rw.typeCount, rw.functionCount).Some? {
        var content := ReadContent(section, rw.typeCount, rw.functionCount).value;
        var contents := ReadContents(rest, rw.typeCount, rw.functionCount).value;
        var first, others := Section(section.id, RewritePayload(rw, section).value), RewriteSections(rw, rest).value;
        RewriteContentsPush(rw, content, contents);
        ContentsPush(first, others, rw.typeCount, rw.functionCount);
        assert ([first] + others)[1..] == others;
        Sized32Splits([first] + others);
      }
    }
  }

  lemma NoContents(rw: Rewrite)
    ensures RewriteContents(rw, []) == []
  {
  }

  ghost predicate FoundRewritten(rw: Rewrite, before: Option<Section>, after: Option<Section>) {
    match before
    case None => after == None
    case Some(section) =>
      var payload := RewritePayload(rw, section);
      payload.Some? && after == Some(Section(section.id, payload.value))
  }

  lemma {:induction false} FindRewritten(rw: Rewrite, sections: seq<Section>, id: byte)
    requires RewriteSections(rw, sections).Some?
    ensures FoundRewritten(rw, Find(sections, id), Find(RewriteSections(rw, sections).value, id))
  {
    hide RewritePayload;
    if sections == [] {
    } else {
      FindRewritten(rw, sections[1..], id);
      var first, others := Section(sections[0].id, RewritePayload(rw, sections[0]).value), RewriteSections(rw, sections[1..]).value;
      assert ([first] + others)[1..] == others;
    }
  }

  /** The rewritten function section counts two more functions. */
  lemma DefinedIsTwoMore(rw: Rewrite, payload: seq<byte>, section: Section)
    requires section.id == FUNCTION && U32()(section.payload).Got? && RewritePayload(rw, section) == Some(payload)
    requires |payload| < TWO_32 && RewrittenAs(rw, section)
    ensures U32()(payload).Got? && U32()(payload).value == U32()(section.payload).value + 2
  {
    hide Index, Changed;
    assert ReadContent(section, rw.typeCount, rw.functionCount).Some?;
    VectorCount(Index(rw.typeCount), section.payload);
    VectorCount(Index(rw.typeCount), payload);
  }

  /** The rewritten sections have the same types, the kept imports and two more definitions. */
  ghost predicate CountsPreserved(sections: seq<Section>, rw: Rewrite, rewritten: seq<Section>) {
    var imports, defined := ReadImports(sections, rw.typeCount), ReadDefined(sections);
    && imports.Some? && defined.Some?
    && ReadTypes(rewritten) == ReadTypes(sections)
    && ReadImports(rewritten, rw.typeCount) == Some(KeptImports(imports.value))
    && ReadDefined(rewritten) == Some(defined.value + 2)
    && |FunctionImports(KeptImports(imports.value))| == rw.renumber.imported - 2
  }

  lemma FunctionsAreTwoMore(sections: seq<Section>, rw: Rewrite, rewritten: seq<Section>)
    requires Ordered(sections, -1) && Sized32(sections)
    requires PlanRewrite(sections) == Some(rw) && RewriteSections(rw, sections) == Some(rewritten) && Sized32(rewritten)
    requires Find(sections, FUNCTION).Some? && ReadDefined(sections).Some?
    ensures ReadDefined(rewritten) == Some(ReadDefined(sections).value + 2)
  {
    hide PlanRewrite, RewriteSections, RewrittenAs, RewritePayload, Ordered;
    FindRewritten(rw, sections, FUNCTION);
    var functions := Find(sections, FUNCTION).value;
    var i: nat :| i < |sections| && sections[i] == functions;
    SectionIsRewritten(sections, i);
    DefinedIsTwoMore(rw, Find(rewritten, FUNCTION).value.payload, functions);
  }

  lemma CountsArePreserved(sections: seq<Section>, rw: Rewrite, rewritten: seq<Section>)
    requires Ordered(sections, -1) && Sized32(sections)
    requires PlanRewrite(sections) == Some(rw) && RewriteSections(rw, sections) == Some(rewritten) && Sized32(rewritten)
    ensures CountsPreserved(sections, rw, rewritten)
  {
    hide PlanRewrite, Vector, ReadImport, ReadSignature, RewrittenAs, RewritePayload, Removals, FunctionImports, KeptImports;
    PlanFacts(sections);
    FindRewritten(rw, sections, TYPE);
    FindRewritten(rw, sections, IMPORT);
    FindRewritten(rw, sections, FUNCTION);
    UnchangedPayloads(rw, sections);
    FunctionsAreTwoMore(sections, rw, rewritten);
    var imports := ReadImports(sections, rw.typeCount).value;
    KeptImportsMove(imports, rw.imports, rw.imports.first.index);
  }

  lemma UnchangedPayloads(rw: Rewrite, sections: seq<Section>)
    ensures Find(sections, TYPE).Some? ==>
              RewritePayload(rw, Find(sections, TYPE).value) == Some(Find(sections, TYPE).value.payload)
    ensures Find(sections, IMPORT).Some? ==> RewritePayload(rw, Find(sections, IMPORT).value) == Some(rw.imports.payload)
  {
    hide Vector;
  }

  predicate HasTargets(bytes: seq<byte>) {
    var sections := ReadSections(bytes);
    && sections.Some?
    && Find(sections.value, IMPORT).Some? && Find(sections.value, FUNCTION).Some?
    && ReadTypes(sections.value).Some?
    && var imports := ReadImports(sections.value, |ReadTypes(sections.value).value|);
       imports.Some? && Rewritable(imports.value)
  }

  lemma PlanIff(sections: seq<Section>)
    requires ReadTypes(sections).Some?
    ensures PlanRewrite(sections).Some? <==>
      && Find(sections, IMPORT).Some? && Find(sections, FUNCTION).Some? && ReadDefined(sections).Some?
      && ReadImports(sections, |ReadTypes(sections).value|).Some?
      && Rewritable(ReadImports(sections, |ReadTypes(sections).value|).value)
  {
    hide Vector, ReadImport, ReadSignature, RewriteImports, Removals, Rewritable;
    if Find(sections, IMPORT).Some? {
      ImportsAreRewritten(Find(sections, IMPORT).value.payload, |ReadTypes(sections).value|);
    }
  }

  lemma AllSectionsAreRewritten(sections: seq<Section>)
    requires Ordered(sections, -1) && Sized32(sections) && PlanRewrite(sections).Some?
    ensures SectionsRewrittenAs(PlanRewrite(sections).value, sections)
  {
    hide *;
    var rw := PlanRewrite(sections).value;
    forall i | 0 <= i < |sections| ensures RewrittenAs(rw, sections[i]) {
      SectionIsRewritten(sections, i);
    }
    SectionsAreRewritten(rw, sections);
  }

  lemma StripUnfolds(bytes: seq<byte>)
    ensures Strip(bytes).Some? <==> ReadSections(bytes).Some? && StripSections(ReadSections(bytes).value).Some?
    ensures Strip(bytes).Some? ==> Strip(bytes).value == EncodeModule(StripSections(ReadSections(bytes).value).value)
    ensures DecodeModule(bytes)
         == if ReadSections(bytes).Some? then DecodeSections(ReadSections(bytes).value) else None
  {
    hide StripSections, DecodeSections, ReadSections, EncodeModule;
  }

  /** What decoding the sections needs beside the contents. */
  lemma DecodeUnfolds(sections: seq<Section>, types: seq<Signature>, imports: seq<Import>, defined: nat)
    requires ReadTypes(sections) == Some(types) && ReadImports(sections, |types|) == Some(imports)
    requires ReadDefined(sections) == Some(defined)
    ensures var functionCount := |FunctionImports(imports)| + defined;
      DecodeSections(sections) ==
        match ReadContents(sections, |types|, functionCount)
        case None => None
        case Some(contents) => Some(Module(types, functionCount, contents))
  {
    hide ReadTypes, ReadImports, ReadDefined, ReadContents, FunctionImports;
  }

  lemma DecodeNeeds(sections: seq<Section>)
    requires DecodeSections(sections).Some?
    ensures ReadTypes(sections).Some? && ReadImports(sections, |ReadTypes(sections).value|).Some?
    ensures ReadDefined(sections).Some?
  {
    hide ReadTypes, ReadImports, ReadDefined, ReadContents, FunctionImports;
  }

  lemma StripSectionsUnfolds(sections: seq<Section>)
    ensures StripSections(sections)
         == if PlanRewrite(sections).Some? then RewriteSections(PlanRewrite(sections).value, sections) else None
  {
    hide PlanRewrite, RewriteSections;
  }

  lemma RewritesAsContents(sections: seq<Section>, rw: Rewrite)
    requires SectionsRewrittenAs(rw, sections)
    ensures RewriteSections(rw, sections).Some? <==> ReadContents(sections, rw.typeCount, rw.functionCount).Some?
    ensures RewriteSections(rw, sections).Some? && Sized32(RewriteSections(rw, sections).value) ==>
              ReadContents(RewriteSections(rw, sections).value, rw.typeCount, rw.functionCount)
              == Some(RewriteContents(rw, ReadContents(sections, rw.typeCount, rw.functionCount).value))
  {
    hide RewriteSections, ReadContents, RewriteContents, Sized32;
  }

  lemma PlanCounts(sections: seq<Section>)
    requires PlanRewrite(sections).Some?
    ensures var rw := PlanRewrite(sections).value;
      && ReadTypes(sections).Some? && rw.typeCount == |ReadTypes(sections).value|
      && ReadImports(sections, rw.typeCount).Some? && ReadDefined(sections).Some?
      && rw.functionCount == |FunctionImports(ReadImports(sections, rw.typeCount).value)| + ReadDefined(sections).value
  {
    hide PlanRewrite, ReadTypes, ReadDefined, Vector, ReadImport, Removals, FunctionImports, KeptImports;
    PlanFacts(sections);
  }

  lemma SectionsAreStripped(sections: seq<Section>)
    requires Ordered(sections, -1) && Sized32(sections)
    ensures StripSections(sections).Some? <==> DecodeSections(sections).Some? && PlanRewrite(sections).Some?
    ensures StripSections(sections).Some? ==> RewriteSections(PlanRewrite(sections).value, sections) == StripSections(sections)
  {
    hide *;
    StripSectionsUnfolds(sections);
    if PlanRewrite(sections).Some? {
      var rw := PlanRewrite(sections).value;
      PlanCounts(sections);
      AllSectionsAreRewritten(sections);
      RewritesAsContents(sections, rw);
      DecodeUnfolds(sections, ReadTypes(sections).value, ReadImports(sections, rw.typeCount).value, ReadDefined(sections).value);
    }
  }

  /** The rewrite accepts exactly the modules it can decode that have both sections and two targets of one type. */
  lemma StripAccepts(bytes: seq<byte>)
    ensures Strip(bytes).Some? <==> DecodeModule(bytes).Some? && HasTargets(bytes)
  {
    hide Strip, DecodeModule, ReadSections, StripSections, DecodeSections, ReadTypes, ReadImports, ReadDefined,
         PlanRewrite, Rewritable;
    StripUnfolds(bytes);
    if ReadSections(bytes).Some? {
      var sections := ReadSections(bytes).value;
      ReadSectionsAreOrdered(bytes);
      SectionsAreStripped(sections);
      if DecodeSections(sections).Some? {
        DecodeNeeds(sections);
        PlanIff(sections);
      }
    }
  }

  function PlanOf(bytes: seq<byte>): Rewrite
    requires Strip(bytes).Some?
  {
    PlanRewrite(ReadSections(bytes).value).value
  }

  function Stripped(bytes: seq<byte>): seq<Section>
    requires Strip(bytes).Some?
  {
    StripSections(ReadSections(bytes).value).value
  }

  // ---- which modules stay within 32-bit lengths -----------------------------------------------------

  /** Every section will have a length of 32 bits, by arithmetic on the old sections. */
  predicate AllFit(rw: Rewrite, sections: seq<Section>) {
    forall i :: 0 <= i < |sections| ==> FitsAfter(rw, sections[i])
  }

  lemma AllFitSplits(rw: Rewrite, sections: seq<Section>)
    requires sections != []
    ensures AllFit(rw, sections) <==> FitsAfter(rw, sections[0]) && AllFit(rw, sections[1..])
  {
    hide FitsAfter;
    if FitsAfter(rw, sections[0]) && AllFit(rw, sections[1..]) {
      forall i | 0 <= i < |sections| ensures FitsAfter(rw, sections[i]) {
        if i > 0 {
          assert sections[i] == sections[1..][i - 1];
        }
      }
    }
  }

  lemma {:induction false} RewrittenFitIff(rw: Rewrite, sections: seq<Section>)
    requires RewriteSections(rw, sections).Some?
    requires forall i :: 0 <= i < |sections| && sections[i].id == IMPORT ==>
      RewriteImports(sections[i].payload, rw.typeCount) == Some(rw.imports)
    ensures Sized32(RewriteSections(rw, sections).value) <==> AllFit(rw, sections)
  {
    if sections == [] {
    } else {
      hide RewritePayload, RewriteImports, FitsAfter, AllFit, Sized32;
      var first, others := RewritePayload(rw, sections[0]).value, RewriteSections(rw, sections[1..]).value;
      RewrittenFitIff(rw, sections[1..]);
      AllFitSplits(rw, sections);
      FitsAfterIff(rw, sections[0]);
      var rewritten := [Section(sections[0].id, first)] + others;
      assert rewritten[1..] == others;
      Sized32Splits(rewritten);
    }
  }

  /** The rewritten sections have 32-bit lengths exactly when the arithmetic on the old ones says so. */
  lemma StrippedFitIff(bytes: seq<byte>)
    requires Strip(bytes).Some?
    ensures Sized32(Stripped(bytes)) <==> AllFit(PlanOf(bytes), ReadSections(bytes).value)
  {
    hide ReadSections, RewriteSections, PlanRewrite, RewriteImports, AllFit, Sized32, Ordered, Find;
    var rw, sections := PlanOf(bytes), ReadSections(bytes).value;
    ReadSectionsAreOrdered(bytes);
    forall i | 0 <= i < |sections| && sections[i].id == IMPORT
      ensures RewriteImports(sections[i].payload, rw.typeCount) == Some(rw.imports)
    {
      FindIsIt(sections, -1, i);
      PlanImports(sections);
    }
    RewrittenFitIff(rw, sections);
  }

  lemma PlanImports(sections: seq<Section>)
    requires PlanRewrite(sections).Some?
    ensures Find(sections, IMPORT).Some?
    ensures var rw := PlanRewrite(sections).value;
      RewriteImports(Find(sections, IMPORT).value.payload, rw.typeCount) == Some(rw.imports)
  {
    hide RewriteImports, ReadTypes;
  }

  /**
   * The new bytes decode to the old module, rewritten, exactly when every section of the old module leaves room
   * for its longer indices and the stubs; otherwise they are not a module.
   */
  lemma StripPreservesMeaning(bytes: seq<byte>)
    requires Strip(bytes).Some?
    ensures DecodeModule(bytes).Some?
    ensures DecodeModule(Strip(bytes).value)
         == if AllFit(PlanOf(bytes), ReadSections(bytes).value)
            then Some(RewriteModule(PlanOf(bytes), DecodeModule(bytes).value)) else None
  {
    hide *;
    StrippedFitIff(bytes);
    StripUnfolds(bytes);
    StripUnfolds(Strip(bytes).value);
    ReadSectionsAreOrdered(bytes);
    PlanOfUnfolds(bytes);
    SectionsDecode(ReadSections(bytes).value);
  }

  lemma PlanOfUnfolds(bytes: seq<byte>)
    requires Strip(bytes).Some?
    ensures ReadSections(bytes).Some? && PlanRewrite(ReadSections(bytes).value) == Some(PlanOf(bytes))
    ensures StripSections(ReadSections(bytes).value) == Some(Stripped(bytes))
  {
    hide ReadSections, PlanRewrite, RewriteSections;
  }

  lemma RewriteModuleUnfolds(rw: Rewrite, types: seq<Signature>, functionCount: nat, contents: seq<Content>)
    ensures RewriteModule(rw, Module(types, functionCount, contents)) == Module(types, functionCount, RewriteContents(rw, contents))
  {
  }

  lemma StrippedIsOrdered(sections: seq<Section>)
    requires Ordered(sections, -1) && Sized32(sections) && StripSections(sections).Some?
    ensures Ordered(StripSections(sections).value, -1)
  {
    hide StripSections, Ordered, Sized32, RewriteSections, ReadContents, RewriteContents, PlanRewrite;
    SectionsAreStripped(sections);
    AllSectionsAreRewritten(sections);
    OrderIsById(sections, StripSections(sections).value, -1);
  }

  lemma CountsUnfold(sections: seq<Section>, rw: Rewrite, rewritten: seq<Section>)
    requires CountsPreserved(sections, rw, rewritten)
    ensures ReadImports(sections, rw.typeCount).Some? && ReadDefined(sections).Some?
    ensures var imports := ReadImports(sections, rw.typeCount).value;
      && ReadTypes(rewritten) == ReadTypes(sections)
      && ReadImports(rewritten, rw.typeCount) == Some(KeptImports(imports))
      && ReadDefined(rewritten) == Some(ReadDefined(sections).value + 2)
      && |FunctionImports(KeptImports(imports))| == rw.renumber.imported - 2
  {
    hide ReadImports, ReadTypes, ReadDefined, KeptImports, FunctionImports;
  }

  lemma RenumberedAre(sections: seq<Section>)
    requires PlanRewrite(sections).Some?
    ensures var rw := PlanRewrite(sections).value;
      ReadImports(sections, rw.typeCount).Some?
      && |FunctionImports(ReadImports(sections, rw.typeCount).value)| == rw.renumber.imported
  {
    hide PlanRewrite, ReadTypes, ReadDefined, Vector, ReadImport, Removals, FunctionImports, KeptImports;
    PlanFacts(sections);
  }

  lemma SectionsDecode(sections: seq<Section>)
    requires Ordered(sections, -1) && Sized32(sections) && StripSections(sections).Some?
    ensures PlanRewrite(sections).Some? && DecodeSections(sections).Some?
    ensures var rw, rewritten := PlanRewrite(sections).value, StripSections(sections).value;
      var decoded := ReadSections(EncodeModule(rewritten));
      if Sized32(rewritten)
      then decoded.Some? && DecodeSections(decoded.value) == Some(RewriteModule(rw, DecodeSections(sections).value))
      else decoded.None?
  {
    hide *;
    SectionsAreStripped(sections);
    StrippedIsOrdered(sections);
    var rw, rewritten := PlanRewrite(sections).value, StripSections(sections).value;
    ModuleRoundTrip(rewritten);
    PlanCounts(sections);
    AllSectionsAreRewritten(sections);
    RewritesAsContents(sections, rw);
    var types, imports, defined := ReadTypes(sections).value, ReadImports(sections, rw.typeCount).value, ReadDefined(sections).value;
    DecodeUnfolds(sections, types, imports, defined);
    if Sized32(rewritten) {
      CountsArePreserved(sections, rw, rewritten);
      CountsUnfold(sections, rw, rewritten);
      RenumberedAre(sections);
      DecodeUnfolds(rewritten, types, KeptImports(imports), defined + 2);
      RewriteModuleUnfolds(rw, types, rw.functionCount, ReadContents(sections, |types|, rw.functionCount).value);
    }
  }

  // ---- modules small enough ---------------------------------------------------------------------------

  lemma PayloadFits(s: seq<byte>)
    requires ReadSection()(s).Got?
    ensures |ReadSection()(s).value.1| <= |s|
  {
    assert Where(AnyByte(), IsSectionId)(s).Got?;
    SizedLength(s[1..]);
  }

  lemma {:induction false} PayloadsFit(s: seq<byte>, last: int, i: nat)
    requires SectionList(s, last).Some? && i < |SectionList(s, last).value|
    ensures |SectionList(s, last).value[i].payload| <= |s|
    decreases |s|
  {
    hide ReadSection, Fits, After;
    SectionProgresses(s);
    var head, rest := ReadSection()(s).value, ReadSection()(s).rest;
    PayloadFits(s);
    if i == 0 {
    } else {
      var others := SectionList(rest, After(head.0, last)).value;
      assert SectionList(s, last).value[i] == others[i - 1];
      PayloadsFit(rest, After(head.0, last), i - 1);
    }
  }

  /** A module of at most 858,993,446 bytes is always rewritten into a module. */
  lemma SmallModulesAreRewritten(bytes: seq<byte>)
    requires Strip(bytes).Some? && GROWTH * |bytes| + SLACK < TWO_32
    ensures AllFit(PlanOf(bytes), ReadSections(bytes).value)
  {
    hide RewriteSections, PlanRewrite, ReadContents, SectionList, AllFit;
    StrippedFitIff(bytes);
    var sections := ReadSections(bytes).value;
    ReadSectionsAreOrdered(bytes);
    AllSectionsAreRewritten(sections);
    forall i | 0 <= i < |sections| ensures |Stripped(bytes)[i].payload| < TWO_32 {
      PayloadsFit(bytes[|MAGIC_AND_VERSION|..], -1, i);
    }
  }
}
