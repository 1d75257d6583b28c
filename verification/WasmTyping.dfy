/** Which types the stubs fit, and when both imports are replaced. */
module WasmTyping {
  import opened Bytes
  import opened Wrappers
  import opened WasmBinary
  import opened WasmCopying
  import opened WasmInstructions
  import opened WasmSections
  import opened WasmModule
  import opened WasmImports
  import opened WasmStubs
  import opened WasmStrip
  import opened WasmMeaning
  import opened WasmFunctions

  const I32: byte := 0x7F

  // ---- memory ------------------------------------------------------------------------------------

  predicate IsMemory(i: Import) {
    i.external.Memory?
  }

  /** A memory section that counts at least one memory. */
  predicate DefinesMemory(content: Content) {
    && content.Other? && content.id == MEMORY
    && U32()(content.payload).Got? && U32()(content.payload).value >= 1
  }

  /** Memories are defined in section 5, behind their count. */
  lemma MemorySectionIs(id: byte, payload: seq<byte>)
    ensures DefinesMemory(Other(id, payload)) <==> id == 5 && U32()(payload).Got? && U32()(payload).value != 0
  {
  }

  /** Memory 0 exists: some memory is imported or defined. */
  predicate HasMemory(m: Module) {
    || (exists i :: i in ImportsOf(m.contents) && IsMemory(i))
    || (exists content :: content in m.contents && DefinesMemory(content))
  }

  lemma {:induction false} KeptImportsAre(imports: seq<Import>, i: Import)
    ensures i in KeptImports(imports) <==> i in imports && !IsTarget(i)
  {
    if imports == [] {
    } else {
      KeptImportsAre(imports[1..], i);
    }
  }

  lemma {:induction false} MemorySectionsStay(rw: Rewrite, contents: seq<Content>, content: Content)
    requires DefinesMemory(content)
    ensures content in RewriteContents(rw, contents) <==> content in contents
  {
    if contents == [] {
    } else {
      MemorySectionsStay(rw, contents[1..], content);
    }
  }

  /** The rewrite neither adds nor drops a memory. */
  lemma MemoryStays(rw: Rewrite, m: Module)
    ensures HasMemory(RewriteModule(rw, m)) <==> HasMemory(m)
  {
    hide IsTarget, KeptImports, RewriteContents, ImportsOf, DefinesMemory;
    var after := RewriteModule(rw, m);
    ListsAreRewritten(rw, m.contents);
    forall i | IsMemory(i) ensures i in ImportsOf(after.contents) <==> i in ImportsOf(m.contents) {
      KeptImportsAre(ImportsOf(m.contents), i);
      MemoryIsNoTarget(i);
    }
    forall content | DefinesMemory(content) ensures content in after.contents <==> content in m.contents {
      MemorySectionsStay(rw, m.contents, content);
    }
  }

  lemma MemoryIsNoTarget(i: Import)
    requires IsMemory(i)
    ensures !IsTarget(i)
  {
  }

  // ---- typing ------------------------------------------------------------------------------------

  /** Where code stands: the types of its locals, and whether there is a memory. */
  datatype Context = Context(locals: seq<byte>, memory: bool)

  /** The operand types after an instruction the stubs use (WebAssembly core specification, section 3.3). */
  function TypeStep(c: Context, i: Instruction, stack: seq<byte>): Option<seq<byte>> {
    var top := |stack| - 1;
    if i == FINISH then Some(stack)
    else match i.opcode
      case Plain(0x20) =>
        var local := NumberAt(i, 0);
        if 0 <= local < |c.locals| then Some(stack + [c.locals[local]]) else None
      case Plain(0x41) => Some(stack + [I32])
      case Plain(0x36) =>
        if c.memory && top >= 1 && stack[top] == I32 && stack[top - 1] == I32 && NumberAt(i, 0) <= 2
        then Some(stack[..top - 1])
        else None
      case _ => None
  }

  function TypeCode(c: Context, code: seq<Instruction>, stack: seq<byte>): Option<seq<byte>> {
    if code == [] then Some(stack)
    else match TypeStep(c, code[0], stack)
      case None => None
      case Some(next) => TypeCode(c, code[1..], next)
  }

  /** Parameters first, then the declared locals. */
  function LocalTypes(params: seq<byte>, locals: seq<(nat, byte)>): seq<byte>
    decreases |locals|
  {
    if locals == [] then params
    else LocalTypes(params + seq(locals[0].0, _ => locals[0].1), locals[1..])
  }

  /** From no operands, the code ends with exactly the results. */
  predicate FitsType(memory: bool, body: Body, s: Signature) {
    TypeCode(Context(LocalTypes(s.params, body.locals), memory), body.code, []) == Some(s.results)
  }

  lemma TypeOne(c: Context, first: Instruction, code: seq<Instruction>, stack: seq<byte>)
    ensures TypeCode(c, [first] + code, stack)
         == match TypeStep(c, first, stack) case None => None case Some(next) => TypeCode(c, code, next)
  {
    assert ([first] + code)[1..] == code;
  }

  predicate IsWord(locals: seq<byte>, local: nat) {
    local < |locals| && locals[local] == I32
  }

  lemma ClearWordTypes(c: Context, local: nat, code: seq<Instruction>)
    ensures TypeCode(c, ClearWord(local) + code, [])
         == if c.memory && IsWord(c.locals, local) then TypeCode(c, code, []) else None
  {
    hide TypeCode;
    assert ClearWord(local) + code == [LocalGet(local)] + ([Const(0)] + ([Store(2, 0)] + code));
    TypeOne(c, LocalGet(local), [Const(0)] + ([Store(2, 0)] + code), []);
    if local < |c.locals| {
      var one := [] + [c.locals[local]];
      TypeOne(c, Const(0), [Store(2, 0)] + code, one);
      TypeOne(c, Store(2, 0), code, one + [I32]);
      assert (one + [I32])[..0] == [];
    }
  }

  lemma ReturnZeroTypes(c: Context)
    ensures TypeCode(c, [Const(0), FINISH], []) == Some([I32])
  {
    hide TypeCode;
    assert [Const(0), FINISH] == [Const(0)] + ([FINISH] + []) && [] + [I32] == [I32];
    TypeOne(c, Const(0), [FINISH] + [], []);
    TypeOne(c, FINISH, [], [I32]);
    NoCode(c, [I32]);
  }

  lemma NoCode(c: Context, stack: seq<byte>)
    ensures TypeCode(c, [], stack) == Some(stack)
  {
  }

  /** What a stub needs: one 32-bit result and, when it stores, a memory and two leading 32-bit parameters. */
  predicate StubType(memory: bool, name: Text, s: Signature) {
    && s.results == [I32]
    && (name == ENVIRON_SIZES_GET ==> memory && IsWord(s.params, 0) && IsWord(s.params, 1))
  }

  lemma StubFitsIff(memory: bool, name: Text, s: Signature)
    ensures FitsType(memory, Body([], StubCode(name)), s) <==> StubType(memory, name, s)
  {
    hide TypeCode, ClearWord, Const;
    var c, last := Context(s.params, memory), [Const(0), FINISH];
    ReturnZeroTypes(c);
    if name == ENVIRON_SIZES_GET {
      assert StubCode(name) == ClearWord(0) + (ClearWord(1) + last);
      ClearWordTypes(c, 0, ClearWord(1) + last);
      ClearWordTypes(c, 1, last);
    }
  }

  /** With a memory the documented type of both functions fits both stubs, and so does any with further parameters. */
  lemma DocumentedTypeFits(more: seq<byte>)
    ensures FitsType(true, Body([], StubCode(ENVIRON_GET)), Signature([I32, I32] + more, [I32]))
    ensures FitsType(true, Body([], StubCode(ENVIRON_SIZES_GET)), Signature([I32, I32] + more, [I32]))
  {
    hide FitsType;
    StubFitsIff(true, ENVIRON_GET, Signature([I32, I32] + more, [I32]));
    StubFitsIff(true, ENVIRON_SIZES_GET, Signature([I32, I32] + more, [I32]));
  }

  // ---- the stubs of a stripped module ----------------------------------------------------------------

  /** The function is defined, with a body that fits its declared type. */
  predicate WellTyped(m: Module, index: nat) {
    match FunctionAt(m, index)
    case Some(Defined(typeIndex, Some(body))) =>
      typeIndex < |m.types| && FitsType(HasMemory(m), body, m.types[typeIndex])
    case _ => false
  }

  /**
   * Both stubs are well typed exactly when the old module has a code section, the type both imports share is one
   * the stubs fit and, when `environ_sizes_get` is among the two, there is a memory to store to.
   */
  lemma StubsAreWellTypedIff(bytes: seq<byte>)
    requires Strip(bytes).Some? && AllFit(PlanOf(bytes), ReadSections(bytes).value)
    ensures DecodeModule(bytes).Some? && DecodeModule(Strip(bytes).value).Some?
    ensures PlanOf(bytes).imports.first.typeIndex < |DecodeModule(bytes).value.types|
    ensures var rw, m, after := PlanOf(bytes), DecodeModule(bytes).value, DecodeModule(Strip(bytes).value).value;
      var shared := m.types[rw.imports.first.typeIndex];
      WellTyped(after, NewIndex(rw.renumber, rw.renumber.first)) && WellTyped(after, NewIndex(rw.renumber, rw.renumber.second))
      <==> Find(ReadSections(bytes).value, CODE).Some?
           && StubType(HasMemory(m), rw.imports.first.name, shared) && StubType(HasMemory(m), rw.imports.second.name, shared)
  {
    hide *;
    var rw := PlanOf(bytes);
    StripMovesFunctions(bytes);
    PlanKnows(bytes);
    var m, after := DecodeModule(bytes).value, DecodeModule(Strip(bytes).value).value;
    RemovedDiffer(rw.renumber);
    StripPreservesMeaning(bytes);
    MemoryStays(rw, m);
    StubTypedIff(rw, m, after, rw.renumber.first, rw.imports.first);
    StubTypedIff(rw, m, after, rw.renumber.second, rw.imports.second);
  }

  lemma RemovedDiffer(r: Renumbering)
    ensures r.first < r.second
  {
  }

  lemma PlanKnows(bytes: seq<byte>)
    requires Strip(bytes).Some? && DecodeModule(bytes).Some?
    ensures var rw, m := PlanOf(bytes), DecodeModule(bytes).value;
      && Agrees(rw, m)
      && rw.imports.first.typeIndex == rw.imports.second.typeIndex < |m.types|
      && rw.renumber == RemovalOf(rw.imports)
  {
    hide *;
    StripUnfolds(bytes);
    PlanOfUnfolds(bytes);
    var sections := ReadSections(bytes).value;
    PlanAgrees(sections);
    PlanFactsShort(sections);
    TypesKept(sections);
  }

  lemma PlanFactsShort(sections: seq<Section>)
    requires PlanRewrite(sections).Some?
    ensures var rw := PlanRewrite(sections).value;
      && ReadTypes(sections).Some? && rw.typeCount == |ReadTypes(sections).value|
      && rw.imports.first.typeIndex == rw.imports.second.typeIndex < rw.typeCount
      && rw.renumber == RemovalOf(rw.imports)
  {
    hide PlanRewrite, ReadTypes, Find, Rewrites, ReadImports, ReadDefined, Removals, FunctionImports;
    PlanFacts(sections);
  }

  lemma TypesKept(sections: seq<Section>)
    requires DecodeSections(sections).Some?
    ensures ReadTypes(sections) == Some(DecodeSections(sections).value.types)
  {
    hide ReadTypes, ReadImports, ReadDefined, ReadContents, FunctionImports;
  }

  lemma StubTypedIff(rw: Rewrite, m: Module, after: Module, index: nat, removed: Removed)
    requires Agrees(rw, m) && Follows(rw, m, after) && rw.renumber == RemovalOf(rw.imports)
    requires (index == rw.renumber.first && removed == rw.imports.first)
             || (index == rw.renumber.second && removed == rw.imports.second && index != rw.renumber.first)
    requires removed.typeIndex < |m.types| && (HasMemory(after) <==> HasMemory(m))
    ensures WellTyped(after, NewIndex(rw.renumber, index))
       <==> BodiesOf(m.contents).Some? && StubType(HasMemory(m), removed.name, m.types[removed.typeIndex])
  {
    hide FunctionAt, BodiesOf, FitsType, StubType, HasMemory, NewIndex, Agrees, IsRemovedTarget, StubCode, Changed, ExportsOf,
         SegmentsOf, StartOf;
    assert FunctionAt(after, NewIndex(rw.renumber, index)) == Moved(rw, m, index) == Some(StubDefinition(m, removed));
    StubFitsIff(HasMemory(m), removed.name, m.types[removed.typeIndex]);
  }

  // ---- both imports ------------------------------------------------------------------------------------

  /** An import of this name has become its own stub. */
  ghost predicate Replaced(rw: Rewrite, m: Module, after: Module, name: Text) {
    exists index: nat :: ReplacedAt(rw, m, after, name, index)
  }

  predicate ReplacedAt(rw: Rewrite, m: Module, after: Module, name: Text, index: nat) {
    match FunctionAt(m, index)
    case Some(Imported(source)) =>
      && IsTarget(source) && source.name == name
      && FunctionAt(after, NewIndex(rw.renumber, index))
         == Some(StubDefinition(m, Removed(index, name, source.external.typeIndex)))
    case _ => false
  }

  /** Both functions are replaced exactly when the two removed imports have different names. */
  lemma BothAreReplacedIff(bytes: seq<byte>)
    requires Strip(bytes).Some? && AllFit(PlanOf(bytes), ReadSections(bytes).value)
    ensures DecodeModule(bytes).Some? && DecodeModule(Strip(bytes).value).Some?
    ensures var rw, m, after := PlanOf(bytes), DecodeModule(bytes).value, DecodeModule(Strip(bytes).value).value;
      Replaced(rw, m, after, ENVIRON_GET) && Replaced(rw, m, after, ENVIRON_SIZES_GET)
      <==> rw.imports.first.name != rw.imports.second.name
  {
    hide *;
    StripMovesFunctions(bytes);
    PlanKnows(bytes);
    var rw, m, after := PlanOf(bytes), DecodeModule(bytes).value, DecodeModule(Strip(bytes).value).value;
    ReplacedIff(rw, m, after, ENVIRON_GET);
    ReplacedIff(rw, m, after, ENVIRON_SIZES_GET);
    RemovedNames(rw, m, after);
  }

  lemma RemovedNames(rw: Rewrite, m: Module, after: Module)
    requires Follows(rw, m, after)
    ensures rw.imports.first.name in {ENVIRON_GET, ENVIRON_SIZES_GET}
    ensures rw.imports.second.name in {ENVIRON_GET, ENVIRON_SIZES_GET}
    ensures ENVIRON_GET != ENVIRON_SIZES_GET
  {
    hide FunctionAt, Moved, Changed, ExportsOf, SegmentsOf, StartOf, NewIndex;
    assert |ENVIRON_GET| == 11 && |ENVIRON_SIZES_GET| == 17;
  }

  lemma ReplacedIff(rw: Rewrite, m: Module, after: Module, name: Text)
    requires Agrees(rw, m) && Follows(rw, m, after) && rw.renumber == RemovalOf(rw.imports)
    ensures Replaced(rw, m, after, name) <==> name == rw.imports.first.name || name == rw.imports.second.name
  {
    hide FunctionAt, NewIndex, Agrees, Stub, Changed, ExportsOf, SegmentsOf, StartOf, BodiesOf, IsTarget;
    if index: nat :| ReplacedAt(rw, m, after, name, index) {
      assert FunctionAt(after, NewIndex(rw.renumber, index)) == Moved(rw, m, index);
    }
    if name == rw.imports.first.name {
      RemovedIsReplaced(rw, m, after, rw.imports.first);
    }
    if name == rw.imports.second.name {
      RemovedIsReplaced(rw, m, after, rw.imports.second);
    }
  }

  lemma RemovedIsReplaced(rw: Rewrite, m: Module, after: Module, removed: Removed)
    requires Agrees(rw, m) && Follows(rw, m, after) && rw.renumber == RemovalOf(rw.imports)
    requires removed == rw.imports.first || removed == rw.imports.second
    ensures ReplacedAt(rw, m, after, removed.name, removed.index)
  {
    hide FunctionAt, NewIndex, Agrees, Changed, ExportsOf, SegmentsOf, StartOf, BodiesOf, IsTarget;
    assert FunctionAt(after, NewIndex(rw.renumber, removed.index)) == Moved(rw, m, removed.index);
  }
}
