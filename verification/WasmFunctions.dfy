/** Every function of a stripped module, by its new index. */
module WasmFunctions {
  import opened Bytes
  import opened Wrappers
  import opened WasmBinary
  import opened WasmCopying
  import opened WasmInstructions
  import opened WasmSections
  import opened WasmModule
  import opened WasmImports
  import opened WasmStrip
  import opened WasmMeaning

  datatype Definition = Imported(source: Import) | Defined(typeIndex: nat, body: Option<Body>)

  function ImportsOf(contents: seq<Content>): seq<Import> {
    if contents == [] then []
    else if contents[0].Imports? then contents[0].imports
    else ImportsOf(contents[1..])
  }

  function TypesOf(contents: seq<Content>): Option<seq<nat>> {
    if contents == [] then None
    else if contents[0].Functions? then Some(contents[0].types)
    else TypesOf(contents[1..])
  }

  function BodiesOf(contents: seq<Content>): Option<seq<Body>> {
    if contents == [] then None
    else if contents[0].Code? then Some(contents[0].bodies)
    else BodiesOf(contents[1..])
  }

  function ExportsOf(contents: seq<Content>): seq<Export> {
    if contents == [] then []
    else if contents[0].Exports? then contents[0].exports
    else ExportsOf(contents[1..])
  }

  function StartOf(contents: seq<Content>): Option<nat> {
    if contents == [] then None
    else if contents[0].Start? then Some(contents[0].index)
    else StartOf(contents[1..])
  }

  function SegmentsOf(contents: seq<Content>): seq<Segment> {
    if contents == [] then []
    else if contents[0].Elements? then contents[0].segments
    else SegmentsOf(contents[1..])
  }

  function Nth<T>(list: Option<seq<T>>, index: nat): Option<T> {
    if list.Some? && index < |list.value| then Some(list.value[index]) else None
  }

  /** The function at an index: the imports come first, then the definitions. */
  function FunctionAt(m: Module, index: nat): Option<Definition> {
    var imported := FunctionImports(ImportsOf(m.contents));
    if index < |imported| then Some(Imported(imported[index]))
    else match Nth(TypesOf(m.contents), index - |imported|)
      case None => None
      case Some(typeIndex) => Some(Defined(typeIndex, Nth(BodiesOf(m.contents), index - |imported|)))
  }

  /** The same function with every function index in its body renumbered. */
  function RenumberDefinition(r: Renumbering, d: Definition): Definition {
    match d
    case Imported(_) => d
    case Defined(typeIndex, None) => d
    case Defined(typeIndex, Some(body)) => Defined(typeIndex, Some(RenumberBody(r)(body)))
  }

  /** A stub has its import's type; its body is there when the module has a code section. */
  function StubDefinition(m: Module, removed: Removed): Definition {
    Defined(removed.typeIndex, if BodiesOf(m.contents).Some? then Some(Stub(removed)) else None)
  }

  /** What stands at the new index of an old function. */
  function Moved(rw: Rewrite, m: Module, index: nat): Option<Definition> {
    if index == rw.renumber.first then Some(StubDefinition(m, rw.imports.first))
    else if index == rw.renumber.second then Some(StubDefinition(m, rw.imports.second))
    else match FunctionAt(m, index)
      case None => None
      case Some(d) => Some(RenumberDefinition(rw.renumber, d))
  }

  // ---- the lists of a rewritten module --------------------------------------------------------------

  lemma {:induction false} ListsAreRewritten(rw: Rewrite, contents: seq<Content>)
    ensures ImportsOf(RewriteContents(rw, contents)) == KeptImports(ImportsOf(contents))
    ensures TypesOf(RewriteContents(rw, contents)) ==
      match TypesOf(contents)
      case None => None
      case Some(types) => Some([rw.imports.first.typeIndex, rw.imports.first.typeIndex] + types)
    ensures BodiesOf(RewriteContents(rw, contents)) ==
      match BodiesOf(contents)
      case None => None
      case Some(bodies) =>
        Some([Stub(rw.imports.first), Stub(rw.imports.second)] + Changed(RenumberBody(rw.renumber), bodies))
  {
    hide FunctionImports, Changed, Stub;
    if contents == [] {
    } else {
      ListsAreRewritten(rw, contents[1..]);
      var first, rest := RewriteContent(rw, contents[0]), RewriteContents(rw, contents[1..]);
      assert ([first] + rest)[1..] == rest;
    }
  }

  /** Exports, the start function and the element segments follow the renumbering. */
  lemma {:induction false} ReferencesAreRewritten(rw: Rewrite, contents: seq<Content>)
    ensures ExportsOf(RewriteContents(rw, contents)) == Changed(RenumberExport(rw.renumber), ExportsOf(contents))
    ensures SegmentsOf(RewriteContents(rw, contents)) == Changed(RenumberSegment(rw.renumber), SegmentsOf(contents))
    ensures StartOf(RewriteContents(rw, contents)) ==
      match StartOf(contents)
      case None => None
      case Some(index) => Some(NewIndex(rw.renumber, index))
  {
    hide KeptImports, NewIndex, RenumberExport, RenumberSegment, RenumberBody, Stub;
    if contents == [] {
    } else {
      ReferencesAreRewritten(rw, contents[1..]);
      var first, rest := RewriteContent(rw, contents[0]), RewriteContents(rw, contents[1..]);
      assert ([first] + rest)[1..] == rest;
    }
  }

  lemma ContentKind(section: Section, typeCount: nat, functionCount: nat)
    requires ReadContent(section, typeCount, functionCount).Some?
    ensures var content := ReadContent(section, typeCount, functionCount).value;
      && (content.Functions? <==> section.id == FUNCTION) && (content.Code? <==> section.id == CODE)
      && (content.Imports? <==> section.id == IMPORT)
      && (content.Imports? ==> Whole(Vector(ReadImport(typeCount)))(section.payload) == Some(content.imports))
  {
    hide ReadImport, ReadExport, ReadSegment, ReadBody, Vector, Index;
  }

  ghost predicate ListsOf(sections: seq<Section>, typeCount: nat, contents: seq<Content>) {
    && ReadImports(sections, typeCount) == Some(ImportsOf(contents))
    && (Find(sections, FUNCTION).Some? <==> TypesOf(contents).Some?)
    && (Find(sections, CODE).Some? <==> BodiesOf(contents).Some?)
  }

  /** The lists are those of the sections. */
  lemma {:induction false} ListsAreRead(sections: seq<Section>, typeCount: nat, functionCount: nat)
    requires ReadContents(sections, typeCount, functionCount).Some?
    ensures ListsOf(sections, typeCount, ReadContents(sections, typeCount, functionCount).value)
  {
    hide ReadContent, ReadImport, Vector;
    if sections == [] {
    } else {
      ListsAreRead(sections[1..], typeCount, functionCount);
      ContentKind(sections[0], typeCount, functionCount);
      var first := ReadContent(sections[0], typeCount, functionCount).value;
      var rest := ReadContents(sections[1..], typeCount, functionCount).value;
      assert ([first] + rest)[1..] == rest;
    }
  }

  // ---- every function follows its index ----------------------------------------------------------------

  lemma NthAfterTwo<T>(a: T, b: T, rest: seq<T>, k: nat)
    ensures Nth(Some([a, b] + rest), k + 2) == Nth(Some(rest), k)
    ensures Nth(Some([a, b] + rest), 0) == Some(a) && Nth(Some([a, b] + rest), 1) == Some(b)
  {
  }

  lemma NthChanged<T>(f: T -> T, values: seq<T>, k: nat)
    ensures Nth(Some(Changed(f, values)), k)
         == match Nth(Some(values), k) case None => None case Some(value) => Some(f(value))
  {
  }

  ghost predicate Agrees(rw: Rewrite, m: Module) {
    && Plans(rw, ImportsOf(m.contents))
    && rw.imports.first.typeIndex == rw.imports.second.typeIndex
    && TypesOf(m.contents).Some?
  }

  lemma DefinitionMoves(rw: Rewrite, m: Module, k: nat)
    requires TypesOf(m.contents).Some?
    ensures var r, after := rw.renumber, RewriteContents(rw, m.contents);
      && Nth(TypesOf(after), k + 2) == Nth(TypesOf(m.contents), k)
      && Nth(BodiesOf(after), k + 2) == (
           match Nth(BodiesOf(m.contents), k)
           case None => None
           case Some(body) => Some(RenumberBody(r)(body)))
  {
    hide RenumberBody, Changed, Nth;
    ListsAreRewritten(rw, m.contents);
    NthAfterTwo(rw.imports.first.typeIndex, rw.imports.first.typeIndex, TypesOf(m.contents).value, k);
    if BodiesOf(m.contents).Some? {
      var bodies := BodiesOf(m.contents).value;
      NthAfterTwo(Stub(rw.imports.first), Stub(rw.imports.second), Changed(RenumberBody(rw.renumber), bodies), k);
      NthChanged(RenumberBody(rw.renumber), bodies, k);
    } else {
      NoneAtAll<Body>(k);
      NoneAtAll<Body>(k + 2);
    }
  }

  lemma NoneAtAll<T>(k: nat)
    ensures Nth<T>(None, k) == None
  {
  }

  /**
   * The function at the new index of an old function: a removed import has become its stub, with the import's
   * type; a kept import is the same import; a definition has the same type and the same body with its function
   * indices renumbered; and there is nothing where there was nothing.
   */
  lemma FunctionsFollow(rw: Rewrite, m: Module, index: nat)
    requires Agrees(rw, m)
    ensures FunctionAt(RewriteModule(rw, m), NewIndex(rw.renumber, index)) == Moved(rw, m, index)
  {
    hide Removals, FunctionImports, KeptImports, ImportsOf, TypesOf, BodiesOf, RewriteContents, IsRemoval, Stub, Nth,
         RenumberBody;
    var imports, imported, at := ImportsOf(m.contents), rw.renumber.imported, NewIndex(rw.renumber, index);
    ListsAreRewritten(rw, m.contents);
    KeptImportsMove(imports, rw.imports, if index < imported then index else rw.imports.first.index);
    RenumberingOrder(rw.renumber, index, index);
    if index >= imported {
      DefinitionMoves(rw, m, index - imported);
    } else if index == rw.renumber.first || index == rw.renumber.second {
      StubsStand(rw, m);
    }
  }

  lemma StubsStand(rw: Rewrite, m: Module)
    requires TypesOf(m.contents).Some?
    ensures var after, stubType := RewriteContents(rw, m.contents), rw.imports.first.typeIndex;
      && Nth(TypesOf(after), 0) == Some(stubType) && Nth(TypesOf(after), 1) == Some(stubType)
      && Nth(BodiesOf(after), 0) == (if BodiesOf(m.contents).Some? then Some(Stub(rw.imports.first)) else None)
      && Nth(BodiesOf(after), 1) == (if BodiesOf(m.contents).Some? then Some(Stub(rw.imports.second)) else None)
  {
    hide Stub, Changed;
    ListsAreRewritten(rw, m.contents);
  }

  // ---- the theorem on bytes ------------------------------------------------------------------------------

  /** A removed import is a target with the recorded name and type. */
  predicate IsRemovedTarget(m: Module, removed: Removed) {
    match FunctionAt(m, removed.index)
    case Some(Imported(source)) =>
      IsTarget(source) && source.name == removed.name && source.external.typeIndex == removed.typeIndex
    case _ => false
  }

  /** The rewritten module: every function, and every reference to one. */
  ghost predicate Follows(rw: Rewrite, before: Module, after: Module) {
    && after.types == before.types && after.functionCount == before.functionCount
    && IsRemovedTarget(before, rw.imports.first) && IsRemovedTarget(before, rw.imports.second)
    && (forall index: nat :: FunctionAt(after, NewIndex(rw.renumber, index)) == Moved(rw, before, index))
    && ExportsOf(after.contents) == Changed(RenumberExport(rw.renumber), ExportsOf(before.contents))
    && SegmentsOf(after.contents) == Changed(RenumberSegment(rw.renumber), SegmentsOf(before.contents))
    && StartOf(after.contents)
       == (match StartOf(before.contents) case None => None case Some(index) => Some(NewIndex(rw.renumber, index)))
  }

  lemma RemovedAreTargets(rw: Rewrite, m: Module)
    requires Agrees(rw, m)
    ensures IsRemovedTarget(m, rw.imports.first) && IsRemovedTarget(m, rw.imports.second)
  {
    hide Removals, FunctionImports, KeptImports, ImportsOf, TypesOf, BodiesOf;
    KeptImportsMove(ImportsOf(m.contents), rw.imports, rw.imports.first.index);
  }

  lemma PlanAgrees(sections: seq<Section>)
    requires PlanRewrite(sections).Some? && DecodeSections(sections).Some?
    ensures Agrees(PlanRewrite(sections).value, DecodeSections(sections).value)
    ensures BodiesOf(DecodeSections(sections).value.contents).Some? <==> Find(sections, CODE).Some?
  {
    hide PlanRewrite, ReadTypes, ReadDefined, ReadImports, ReadContents, DecodeSections, Removals, FunctionImports,
         KeptImports, ImportsOf, TypesOf, BodiesOf, RemovalOf, Vector, ReadImport, Rewrites;
    var rw := PlanRewrite(sections).value;
    PlanCounts(sections);
    PlanFacts(sections);
    DecodeUnfolds(sections, ReadTypes(sections).value, ReadImports(sections, rw.typeCount).value, ReadDefined(sections).value);
    ListsAreRead(sections, rw.typeCount, rw.functionCount);
  }

  /**
   * A module that can be rewritten, and whose sections leave room for the stubs, is rewritten into a module with the
   * same types in which every function is found at its new index.
   */
  lemma StripMovesFunctions(bytes: seq<byte>)
    requires Strip(bytes).Some? && AllFit(PlanOf(bytes), ReadSections(bytes).value)
    ensures DecodeModule(bytes).Some? && DecodeModule(Strip(bytes).value).Some?
    ensures Follows(PlanOf(bytes), DecodeModule(bytes).value, DecodeModule(Strip(bytes).value).value)
    ensures BodiesOf(DecodeModule(bytes).value.contents).Some? <==> Find(ReadSections(bytes).value, CODE).Some?
  {
    hide *;
    StripPreservesMeaning(bytes);
    StripUnfolds(bytes);
    PlanOfUnfolds(bytes);
    PlanAgrees(ReadSections(bytes).value);
    RewrittenFollows(PlanOf(bytes), DecodeModule(bytes).value);
  }

  lemma RewrittenFollows(rw: Rewrite, m: Module)
    requires Agrees(rw, m)
    ensures Follows(rw, m, RewriteModule(rw, m))
  {
    hide FunctionAt, Moved, RewriteContents, Agrees, IsRemovedTarget, Changed, ExportsOf, SegmentsOf, StartOf;
    RemovedAreTargets(rw, m);
    ReferencesAreRewritten(rw, m.contents);
    forall index: nat ensures FunctionAt(RewriteModule(rw, m), NewIndex(rw.renumber, index)) == Moved(rw, m, index) {
      FunctionsFollow(rw, m, index);
    }
  }
}
