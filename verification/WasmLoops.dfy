/** The loops over a module's imports and over its sections. */
module WasmLoops {
  import opened Bytes
  import opened Wrappers
  import opened Sequences
  import opened Leb128
  import opened WasmBinary
  import opened WasmSections
  import opened WasmModule
  import opened WasmImports
  import opened WasmReader
  import opened WasmRewriter

  // ---- one import ------------------------------------------------------------------------------

  /** One bound or two, by the lowest flag bit. */
  method ReadLimitsHere(reader: Reader) returns (limits: Option<Limits>)
    requires reader.Valid()
    modifies reader
    ensures reader.Valid() && reader.offset >= old(reader.offset)
    ensures Did(ReadLimits()(old(reader.Left())), limits, reader.Left())
  {
    hide ReadU32;
    var flags := reader.ReadCode({0, 1, 2, 3});
    if flags.None? {
      return None;
    }
    var minimum := reader.ReadUnsigned();
    if minimum.None? {
      return None;
    }
    if flags.value % 2 == 1 {
      var maximum := reader.ReadUnsigned();
      limits := if maximum.Some? then Some(Limits(flags.value, minimum.value, Some(maximum.value))) else None;
    } else {
      limits := Some(Limits(flags.value, minimum.value, None));
    }
  }

  /** The imported entity of a kind. */
  method ReadExternalHere(reader: Reader, typeCount: nat, kind: byte) returns (external: Option<External>)
    requires reader.Valid()
    modifies reader
    ensures reader.Valid() && reader.offset >= old(reader.offset)
    ensures Did(ReadExternalOf(typeCount, kind)(old(reader.Left())), external, reader.Left())
  {
    hide ReadU32, ReadLimits, ValType, ByteIn, Index;
    if kind == FUNCTION_KIND {
      var typeIndex := reader.ReadIndex(typeCount);
      external := if typeIndex.Some? then Some(Function(typeIndex.value)) else None;
    } else if kind == 1 {
      TypeCodes();
      var element := reader.ReadCode(VALUE_TYPES);
      if element.None? {
        return None;
      }
      var limits := ReadLimitsHere(reader);
      external := if limits.Some? then Some(Table(element.value, limits.value)) else None;
    } else if kind == 2 {
      var limits := ReadLimitsHere(reader);
      external := if limits.Some? then Some(Memory(limits.value)) else None;
    } else if kind == 3 {
      TypeCodes();
      var value := reader.ReadCode(VALUE_TYPES);
      if value.None? {
        return None;
      }
      var mutability := reader.ReadCode({0, 1});
      external := if mutability.Some? then Some(Global(value.value, mutability.value)) else None;
    } else {
      var form := reader.ReadCode({0});
      if form.None? {
        return None;
      }
      var typeIndex := reader.ReadIndex(typeCount);
      external := if typeIndex.Some? then Some(Tag(typeIndex.value)) else None;
    }
  }

  lemma TypeCodes()
    ensures ValType() == ByteIn(VALUE_TYPES)
  {
  }

  method ReadImportHere(reader: Reader, typeCount: nat) returns (item: Option<Import>)
    requires reader.Valid()
    modifies reader
    ensures reader.Valid() && reader.offset >= old(reader.offset)
    ensures Did(ReadImport(typeCount)(old(reader.Left())), item, reader.Left())
  {
    hide Name, ReadExternalOf, ByteIn;
    var moduleName := reader.ReadName();
    if moduleName.None? {
      return None;
    }
    var name := reader.ReadName();
    if name.None? {
      return None;
    }
    var kind := reader.ReadCode(KINDS);
    if kind.None? {
      return None;
    }
    var external := ReadExternalHere(reader, typeCount, kind.value);
    item := if external.Some? then Some(Import(moduleName.value, name.value, external.value)) else None;
  }

  // ---- the import section ------------------------------------------------------------------------

  /** What the loop has gathered from the items so far. */
  ghost predicate Gathered(items: seq<Item>, kept: seq<seq<byte>>, removed: seq<Removed>, imported: nat) {
    && kept == KeptBytes(items)
    && removed == Removals(Values(items), 0)
    && imported == |FunctionImports(Values(items))|
  }

  lemma {:induction false} ValuesPush(items: seq<Item>, item: Item)
    ensures Values(items + [item]) == Values(items) + [item.value]
    ensures KeptBytes(items + [item]) == KeptBytes(items) + (if IsTarget(item.value) then [] else [item.bytes])
  {
    hide IsTarget;
    if items == [] {
      assert [item][1..] == [] && [] + [item] == [item];
    } else {
      assert (items + [item])[1..] == items[1..] + [item];
      ValuesPush(items[1..], item);
    }
  }

  lemma {:induction false} FunctionImportsPush(imports: seq<Import>, last: Import)
    ensures FunctionImports(imports + [last]) == FunctionImports(imports) + (if last.external.Function? then [last] else [])
  {
    if imports == [] {
      assert [last][1..] == [] && [] + [last] == [last];
    } else {
      assert (imports + [last])[1..] == imports[1..] + [last];
      FunctionImportsPush(imports[1..], last);
    }
  }

  function RemovalOne(i: Import, imported: nat): seq<Removed> {
    if IsTarget(i) then [Removed(imported, i.name, i.external.typeIndex)] else []
  }

  lemma {:induction false} RemovalsPush(imports: seq<Import>, last: Import, imported: nat)
    ensures Removals(imports + [last], imported)
         == Removals(imports, imported) + RemovalOne(last, imported + |FunctionImports(imports)|)
  {
    hide RemovalOne, Removals, FunctionImports, IsTarget;
    if imports == [] {
      assert [] + [last] == [last];
      RemovalsOfOne(last, imported);
    } else {
      var first, rest := imports[0], imports[1..];
      assert (imports + [last])[1..] == rest + [last];
      var next := if first.external.Function? then imported + 1 else imported;
      RemovalsPush(rest, last, next);
      RemovalsStep(imports, imported);
      RemovalsStep(imports + [last], imported);
      AppendAssociates(RemovalOne(first, imported), Removals(rest, next), RemovalOne(last, next + |FunctionImports(rest)|));
    }
  }

  lemma RemovalsOfOne(last: Import, imported: nat)
    ensures FunctionImports([]) == [] && Removals([], imported) == []
    ensures Removals([last], imported) == RemovalOne(last, imported)
  {
    hide IsTarget;
    assert [last][1..] == [];
  }

  lemma RemovalsStep(imports: seq<Import>, imported: nat)
    requires imports != []
    ensures Removals(imports, imported) == RemovalOne(imports[0], imported)
      + Removals(imports[1..], if imports[0].external.Function? then imported + 1 else imported)
    ensures |FunctionImports(imports)| == |FunctionImports(imports[1..])| + if imports[0].external.Function? then 1 else 0
  {
    hide IsTarget;
  }

  lemma GatheredPush(items: seq<Item>, item: Item, kept: seq<seq<byte>>, removed: seq<Removed>, imported: nat)
    requires Gathered(items, kept, removed, imported)
    ensures Gathered(
              items + [item],
              if IsTarget(item.value) then kept else kept + [item.bytes],
              if IsTarget(item.value) then removed + [Removed(imported, item.value.name, item.value.external.typeIndex)] else removed,
              if item.value.external.Function? then imported + 1 else imported)
  {
    hide Values, KeptBytes, Removals, FunctionImports;
    ValuesPush(items, item);
    FunctionImportsPush(Values(items), item.value);
    RemovalsPush(Values(items), item.value, 0);
  }

  lemma NothingGathered()
    ensures Gathered([], [], [], 0)
  {
  }

  lemma ItemIsRead(typeCount: nat, s: seq<byte>)
    ensures ReadImport(typeCount)(s).Bad? ==> ReadItem(typeCount)(s).Bad?
    ensures ReadImport(typeCount)(s).Got? ==>
              && |ReadImport(typeCount)(s).rest| <= |s|
              && ReadItem(typeCount)(s) == Got(Item(ReadImport(typeCount)(s).value, Used(s, ReadImport(typeCount)(s).rest)),
                                               ReadImport(typeCount)(s).rest)
  {
    hide ReadImport;
    ImportIsExact(typeCount);
    if ReadImport(typeCount)(s).Got? {
      assert ExactAt(ReadImport(typeCount), s);
    }
  }

  lemma RewriteFromItems(payload: seq<byte>, typeCount: nat, count: nat, rest: seq<byte>)
    requires U32()(payload) == Got(count, rest)
    ensures RewriteImports(payload, typeCount) ==
      match ReadItems(ReadItem(typeCount), count, rest)
      case Bad => None
      case Got(items, left) => if left == [] then RewriteItems(items) else None
  {
    hide ReadItem, RewriteItems, U32;
    VectorOfItems(ReadItem(typeCount), payload, count, rest);
  }

  lemma VectorOfItems<T>(p: Parser<T>, payload: seq<byte>, count: nat, rest: seq<byte>)
    requires U32()(payload) == Got(count, rest)
    ensures Vector(p)(payload) == ReadItems(p, count, rest)
  {
    hide U32, ReadItems;
  }

  lemma NoCount(payload: seq<byte>, typeCount: nat)
    requires U32()(payload).Bad?
    ensures RewriteImports(payload, typeCount) == None
  {
    hide U32;
  }

  lemma GatheredRewrite(items: seq<Item>, kept: seq<seq<byte>>, removed: seq<Removed>, imported: nat)
    requires Gathered(items, kept, removed, imported)
    ensures RewriteItems(items) ==
      if |removed| != 2 || removed[0].typeIndex != removed[1].typeIndex then None
      else Some(ImportRewrite(EncodeVector(kept), imported, removed[0], removed[1]))
  {
    hide Values, KeptBytes, Removals, FunctionImports;
  }

  /** The import section without its targets: one pass over the section. */
  method RewriteImportSection(payload: seq<byte>, typeCount: nat) returns (rewrite: Option<ImportRewrite>)
    ensures rewrite == RewriteImports(payload, typeCount)
  {
    hide ReadU32, ReadImport, ReadItem, SameItems, Gathered, RewriteImports, RewriteItems, IsTarget;
    var reader := new Reader(payload, 0, |payload|);
    assert reader.Left() == payload;
    var count := reader.ReadUnsigned();
    if count.None? {
      NoCount(payload, typeCount);
      return None;
    }
    ghost var rest := reader.Left();
    RewriteFromItems(payload, typeCount, count.value, rest);
    var kept: seq<seq<byte>> := [];
    var removed: seq<Removed> := [];
    var imported: nat := 0;
    ghost var items: seq<Item> := [];
    ItemsStart(ReadItem(typeCount), count.value, rest);
    NothingGathered();
    var i: nat := 0;
    while i < count.value
      invariant reader.Valid() && fresh(reader) && i <= count.value && |items| == i
      invariant SameItems(ReadItem(typeCount), count.value, rest, items, reader.Left())
      invariant Gathered(items, kept, removed, imported)
    {
      var start := reader.offset;
      ghost var left := reader.Left();
      ItemIsRead(typeCount, left);
      ItemsStep(ReadItem(typeCount), count.value, rest, items, left);
      var item := ReadImportHere(reader, typeCount);
      if item.None? {
        return None;
      }
      SinceIsUsed(reader.bytes, start, reader.offset, reader.end);
      var part := reader.Since(start);
      GatheredPush(items, Item(item.value, part), kept, removed, imported);
      items := items + [Item(item.value, part)];
      if IsTarget(item.value) {
        FunctionTarget(item.value);
        removed := removed + [Removed(imported, item.value.name, item.value.external.typeIndex)];
      } else {
        kept := kept + [part];
      }
      if item.value.external.Function? {
        imported := imported + 1;
      }
      i := i + 1;
    }
    ItemsEnd(ReadItem(typeCount), count.value, rest, items, reader.Left());
    if !reader.AtEnd() {
      return None;
    }
    GatheredRewrite(items, kept, removed, imported);
    if |removed| != 2 {
      return None;
    }
    if removed[0].typeIndex != removed[1].typeIndex {
      return None;
    }
    rewrite := Some(ImportRewrite(EncodeVector(kept), imported, removed[0], removed[1]));
  }

  lemma FunctionTarget(i: Import)
    requires IsTarget(i)
    ensures i.external.Function?
  {
  }

  // ---- the sections --------------------------------------------------------------------------------

  ghost predicate SameSections(start: seq<byte>, read: seq<Section>, left: seq<byte>, last: int) {
    SectionList(start, -1) ==
      match SectionList(left, last)
      case None => None
      case Some(more) => Some(read + more)
  }

  lemma SectionsStart(start: seq<byte>)
    ensures SameSections(start, [], start, -1)
  {
    if SectionList(start, -1).Some? {
      assert [] + SectionList(start, -1).value == SectionList(start, -1).value;
    }
  }

  lemma SectionsEnd(start: seq<byte>, read: seq<Section>, last: int)
    requires SameSections(start, read, [], last)
    ensures SectionList(start, -1) == Some(read)
  {
    assert read + [] == read;
  }

  lemma SectionsStep(start: seq<byte>, read: seq<Section>, left: seq<byte>, last: int)
    requires SameSections(start, read, left, last) && left != []
    ensures ReadSection()(left).Bad? ==> SectionList(start, -1) == None
    ensures ReadSection()(left).Got? ==>
      var head, rest := ReadSection()(left).value, ReadSection()(left).rest;
      && |rest| < |left|
      && if !Fits(head.0, last) then SectionList(start, -1) == None
         else SameSections(start, read + [Section(head.0, head.1)], rest, After(head.0, last))
  {
    hide ReadSection, Fits, After;
    if ReadSection()(left).Got? {
      SectionProgresses(left);
      var head, rest := ReadSection()(left).value, ReadSection()(left).rest;
      if SectionList(rest, After(head.0, last)).Some? {
        AppendAssociates(read, [Section(head.0, head.1)], SectionList(rest, After(head.0, last)).value);
      }
    }
  }

  method ReadSectionHere(reader: Reader) returns (section: Option<Section>)
    requires reader.Valid()
    modifies reader
    ensures reader.Valid()
    ensures section.None? <==> ReadSection()(old(reader.Left())).Bad?
    ensures section.Some? ==>
              ReadSection()(old(reader.Left())) == Got((section.value.id, section.value.payload), reader.Left())
  {
    hide ReadU32;
    var id := reader.Byte();
    if id.None? || !IsSectionId(id.value) {
      return None;
    }
    var payload := reader.ReadSized();
    section := if payload.Some? then Some(Section(id.value, payload.value)) else None;
  }

  /** The loop over a whole module that gathers its sections. */
  method SectionsOf(bytes: seq<byte>) returns (sections: Option<seq<Section>>)
    ensures sections == ReadSections(bytes)
  {
    hide ReadSection, SectionList, SameSections;
    if !(MAGIC_AND_VERSION <= bytes) {
      return None;
    }
    var reader := new Reader(bytes, |MAGIC_AND_VERSION|, |bytes|);
    ghost var start := reader.Left();
    assert start == bytes[|MAGIC_AND_VERSION|..];
    var read: seq<Section> := [];
    var lastPosition: int := -1;
    SectionsStart(start);
    while !reader.AtEnd()
      invariant reader.Valid() && fresh(reader)
      invariant SameSections(start, read, reader.Left(), lastPosition)
      decreases |reader.Left()|
    {
      SectionsStep(start, read, reader.Left(), lastPosition);
      var section := ReadSectionHere(reader);
      if section.None? {
        return None;
      }
      if section.value.id != CUSTOM {
        var position := PositionIn(SECTION_ORDER, section.value.id);
        if position <= lastPosition {
          return None;
        }
        lastPosition := position;
      }
      read := read + [section.value];
    }
    SectionsEnd(start, read, lastPosition);
    sections := Some(read);
  }
}
