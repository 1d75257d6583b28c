/** Where everything stands in a module's bytes: header, section ids and their order, names, imports, locals. */
module WasmLayout {
  import opened Bytes
  import opened Wrappers
  import opened Sequences
  import opened Leb128
  import opened WasmBinary
  import opened WasmCopying
  import opened WasmInstructions
  import opened WasmSections
  import opened WasmModule
  import opened WasmImports
  import opened WasmStrip

  // ---- header and order ------------------------------------------------------------------------

  /** A module starts with "\0asm" and version 1, and nothing need follow. */
  lemma HeaderIs(bytes: seq<byte>)
    ensures ReadSections(bytes).Some? ==> |bytes| >= 8 && bytes[..8] == [0x00, 0x61, 0x73, 0x6D, 0x01, 0x00, 0x00, 0x00]
    ensures ReadSections([0x00, 0x61, 0x73, 0x6D, 0x01, 0x00, 0x00, 0x00]) == Some([])
  {
    var header: seq<byte> := [0x00, 0x61, 0x73, 0x6D, 0x01, 0x00, 0x00, 0x00];
    assert header[8..] == [];
  }

  /** The place of each section id (WebAssembly core specification, section 5.5.2, with the tag section behind memories). */
  function Place(id: byte): nat {
    if id <= 5 then id else if id == 13 then 6 else if id <= 9 then id + 1 else if id == 12 then 11 else id + 2
  }

  /** Two sections may follow each other when both ids exist and the first stands before the second or one is custom. */
  lemma OrderIs(a: Section, b: Section)
    ensures Ordered([a, b], -1) <==>
      a.id <= 13 && b.id <= 13 && (a.id == 0 || b.id == 0 || Place(a.id) < Place(b.id))
  {
    hide PositionIn, IsSectionId;
    assert [a, b][1..] == [b] && [b][1..] == [];
    assert Ordered([], After(b.id, After(a.id, -1)));
    assert Ordered([b], After(a.id, -1)) <==> IsSectionId(b.id) && Fits(b.id, After(a.id, -1));
    IdsAre(a.id);
    IdsAre(b.id);
    if 1 <= a.id <= 13 {
      PlacesAre(a.id);
    }
    if 1 <= b.id <= 13 {
      PlacesAre(b.id);
    }
  }

  lemma IdsAre(id: byte)
    ensures IsSectionId(id) <==> id <= 13
  {
  }

  lemma PlacesAre(id: byte)
    requires 1 <= id <= 13
    ensures PositionIn(SECTION_ORDER, id) == Place(id) - 1
  {
    hide PositionIn;
    PositionAt(SECTION_ORDER, Place(id) - 1);
  }

  lemma {:induction false} PositionAt(order: seq<byte>, i: nat)
    requires i < |order| && forall j :: 0 <= j < i ==> order[j] != order[i]
    ensures PositionIn(order, order[i]) == i
  {
    if i == 0 {
    } else {
      assert order[0] != order[i];
      PositionAt(order[1..], i - 1);
    }
  }

  /** What each section holds, by its id. */
  lemma ContentsById(payload: seq<byte>, typeCount: nat, functionCount: nat, id: byte)
    ensures var content := ReadContent(Section(id, payload), typeCount, functionCount);
      && (id == 2 ==> Held(content, Whole(Vector(ReadImport(typeCount)))(payload), (xs: seq<Import>) => Imports(xs)))
      && (id == 3 ==> Held(content, Whole(Vector(Index(typeCount)))(payload), (xs: seq<nat>) => Functions(xs)))
      && (id == 7 ==> Held(content, Whole(Vector(ReadExport(functionCount)))(payload), (xs: seq<Export>) => Exports(xs)))
      && (id == 8 ==> Held(content, Whole(Index(functionCount))(payload), (x: nat) => Start(x)))
      && (id == 9 ==> Held(content, Whole(Vector(ReadSegment()))(payload), (xs: seq<Segment>) => Elements(xs)))
      && (id == 10 ==> Held(content, Whole(Vector(ReadBody()))(payload), (xs: seq<Body>) => Code(xs)))
      && (id !in {2, 3, 7, 8, 9, 10} ==> content == Some(Other(id, payload)))
  {
    hide Vector, ReadImport, ReadExport, ReadSegment, ReadBody, Index;
  }

  ghost predicate Held<T>(content: Option<Content>, read: Option<T>, made: T -> Content) {
    content == if read.Some? then Some(made(read.value)) else None
  }

  /** The types are those of section 1. */
  lemma TypesAreSectionOne(payload: seq<byte>, rest: seq<Section>)
    ensures ReadTypes([Section(1, payload)] + rest) == Whole(Vector(ReadSignature()))(payload)
  {
    hide Vector, ReadSignature;
  }

  /** A module without sections has no types, no functions and no contents. */
  lemma NothingIsDecoded()
    ensures DecodeSections([]) == Some(Module([], 0, []))
  {
  }

  // ---- names -----------------------------------------------------------------------------------

  /** The two functions, by the bytes of their module and names. */
  lemma TargetsAre(i: Import)
    ensures IsTarget(i) <==>
      && i.external.Function?
      && i.moduleName == [119, 97, 115, 105, 95, 115, 110, 97, 112, 115, 104, 111, 116, 95, 112, 114, 101, 118, 105, 101, 119, 49]
      && (i.name == [101, 110, 118, 105, 114, 111, 110, 95, 103, 101, 116]
          || i.name == [101, 110, 118, 105, 114, 111, 110, 95, 115, 105, 122, 101, 115, 95, 103, 101, 116])
  {
    assert TARGET_MODULE == [119, 97, 115, 105, 95, 115, 110, 97, 112, 115, 104, 111, 116, 95, 112, 114, 101, 118, 105, 101, 119, 49];
    assert ENVIRON_GET == [101, 110, 118, 105, 114, 111, 110, 95, 103, 101, 116];
    assert ENVIRON_SIZES_GET == [101, 110, 118, 105, 114, 111, 110, 95, 115, 105, 122, 101, 115, 95, 103, 101, 116];
  }

  // ---- exports, imports, types and locals --------------------------------------------------------

  /** The kinds of exports and imports: functions, tables, memories, globals and tags. */
  lemma KindsAre(s: seq<byte>)
    ensures ByteIn(KINDS)(s) == if s != [] && s[0] <= 4 then Got(s[0], s[1..]) else Bad
  {
  }

  lemma OneByte(codes: set<byte>, s: seq<byte>)
    ensures ByteIn(codes)(s) == if s != [] && s[0] in codes then Got(s[0], s[1..]) else Bad
  {
  }

  /** An exported function is named by its index; kind 0 is the functions. */
  lemma ExportReads(name: Text, kind: byte, index: nat, functionCount: nat, t: seq<byte>)
    requires ValidUtf8(name) && |name| < TWO_32 && kind <= 4 && index < TWO_32
    requires kind == 0 ==> index < functionCount
    ensures ReadExport(functionCount)(EncodeSized(name) + ([kind] + Encode(index)) + t) == Got(Export(name, kind, index), t)
  {
    hide Prints, Name, EncodeSized, Encode, ValidUtf8, Index;
    NamePrints(name);
    ByteInPrints(KINDS, kind);
    if kind == 0 {
      IndexPrints(functionCount, index);
      MapPrints(Index(functionCount), WithKind(kind), Encode(index), index);
    } else {
      U32Prints(index);
      MapPrints(U32(), WithKind(kind), Encode(index), index);
    }
    var rest := Bind(ByteIn(KINDS), ExportedIndex(functionCount));
    BindPrints(ByteIn(KINDS), ExportedIndex(functionCount), [kind], kind, Encode(index), (kind, index));
    PairPrints(Name(), rest, EncodeSized(name), name, [kind] + Encode(index), (kind, index));
    MapPrints(Pair(Name(), rest), ToExport(), EncodeSized(name) + ([kind] + Encode(index)), (name, (kind, index)));
    PrintsAt(ReadExport(functionCount), EncodeSized(name) + ([kind] + Encode(index)), Export(name, kind, index), t);
  }

  lemma PrintsAt<T>(p: Parser<T>, bytes: seq<byte>, value: T, t: seq<byte>)
    requires Prints(p, bytes, value)
    ensures p(bytes + t) == Got(value, t)
  {
  }

  /** An imported function is kind 0 and its type. */
  lemma FunctionImportReads(moduleName: Text, name: Text, typeIndex: nat, typeCount: nat, t: seq<byte>)
    requires ValidUtf8(moduleName) && ValidUtf8(name) && |moduleName| < TWO_32 && |name| < TWO_32
    requires typeIndex < typeCount && typeIndex < TWO_32
    ensures ReadImport(typeCount)((EncodeSized(moduleName) + EncodeSized(name)) + ([0x00] + Encode(typeIndex)) + t)
         == Got(Import(moduleName, name, Function(typeIndex)), t)
  {
    hide Prints, Name, Encode, EncodeSized, ValidUtf8, Index;
    NamePrints(moduleName);
    NamePrints(name);
    PairPrints(Name(), Name(), EncodeSized(moduleName), moduleName, EncodeSized(name), name);
    ByteInPrints(KINDS, 0);
    IndexPrints(typeCount, typeIndex);
    MapPrints(Index(typeCount), (i: nat) => Function(i), Encode(typeIndex), typeIndex);
    BindPrints(ByteIn(KINDS), ExternalOf(typeCount), [0x00], 0, Encode(typeIndex), Function(typeIndex));
    PairPrints(Pair(Name(), Name()), ReadExternal(typeCount), EncodeSized(moduleName) + EncodeSized(name), (moduleName, name),
               [0x00] + Encode(typeIndex), Function(typeIndex));
    MapPrints(Pair(Pair(Name(), Name()), ReadExternal(typeCount)), ToImport(),
              (EncodeSized(moduleName) + EncodeSized(name)) + ([0x00] + Encode(typeIndex)), ((moduleName, name), Function(typeIndex)));
    PrintsAt(ReadImport(typeCount), (EncodeSized(moduleName) + EncodeSized(name)) + ([0x00] + Encode(typeIndex)),
             Import(moduleName, name, Function(typeIndex)), t);
  }

  /** A group of locals is how many, then their type; a body has a vector of groups ahead of its code. */
  lemma LocalsRead(s: seq<byte>)
    ensures ReadLocals()(s) == Vector(LocalGroup())(s)
    ensures LocalGroup()(s) ==
      match ReadU32(s)
      case Bad => Bad
      case Got(count, rest) =>
        if rest != [] && rest[0] in {0x7F, 0x7E, 0x7D, 0x7C, 0x7B, 0x70, 0x6F} then Got((count, rest[0]), rest[1..]) else Bad
  {
    hide Vector, ReadU32;
  }

  function LocalGroup(): Parser<(nat, byte)> {
    Pair(U32(), ByteIn({0x7F, 0x7E, 0x7D, 0x7C, 0x7B, 0x70, 0x6F}))
  }

  /** A function type is 0x60, the parameters, the results. */
  lemma SignatureReads(s: seq<byte>)
    ensures ReadSignature()(s) ==
      if s == [] || s[0] != 0x60 then Bad
      else match Vector(ValType())(s[1..])
        case Bad => Bad
        case Got(params, rest) =>
          match Vector(ValType())(rest)
          case Bad => Bad
          case Got(results, left) => Got(Signature(params, results), left)
  {
    hide Vector, ValType;
    assert ByteIn({FUNCTION_TYPE_FORM})(s) == if s != [] && s[0] == 0x60 then Got(s[0], s[1..]) else Bad;
  }
}
