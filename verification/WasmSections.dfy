/** The sections of a module: their order, and the round trip through their encoding. */
module WasmSections {
  import opened Bytes
  import opened Wrappers
  import opened Leb128
  import opened WasmBinary

  datatype Section = Section(id: byte, payload: seq<byte>)

  const CUSTOM: byte := 0
  const TYPE: byte := 1
  const IMPORT: byte := 2
  const FUNCTION: byte := 3
  const MEMORY: byte := 5
  const EXPORT: byte := 7
  const START: byte := 8
  const ELEMENT: byte := 9
  const CODE: byte := 10

  const MAGIC_AND_VERSION: seq<byte> := [0x00, 0x61, 0x73, 0x6D, 0x01, 0x00, 0x00, 0x00]

  /** The ids with a fixed place, first to last. */
  const SECTION_ORDER: seq<byte> := [1, 2, 3, 4, 5, 13, 6, 7, 8, 9, 12, 10, 11]

  function PositionIn(order: seq<byte>, id: byte): (position: nat)
    ensures id in order ==> position < |order| && order[position] == id
  {
    if order == [] || order[0] == id then 0 else 1 + PositionIn(order[1..], id)
  }

  predicate IsSectionId(id: byte) {
    id == CUSTOM || id in SECTION_ORDER
  }

  function ReadSection(): Parser<(byte, seq<byte>)> {
    Pair(Where(AnyByte(), IsSectionId), SizedBytes())
  }

  /** The position the next section must lie after. */
  function After(id: byte, last: int): int {
    if id == CUSTOM then last else PositionIn(SECTION_ORDER, id)
  }

  predicate Fits(id: byte, last: int) {
    id == CUSTOM || PositionIn(SECTION_ORDER, id) > last
  }

  lemma SectionProgresses(s: seq<byte>)
    requires ReadSection()(s).Got?
    ensures |ReadSection()(s).rest| < |s|
  {
    assert Where(AnyByte(), IsSectionId)(s).Got?;
    assert AnyByte()(s).Got?;
    SizedIsExact();
    assert ExactAt(SizedBytes(), s[1..]);
  }

  function SectionList(s: seq<byte>, last: int): Option<seq<Section>>
    decreases |s|
  {
    if s == [] then Some([])
    else match ReadSection()(s)
      case Bad => None
      case Got(head, rest) =>
        SectionProgresses(s);
        if !Fits(head.0, last) then None
        else match SectionList(rest, After(head.0, last))
          case None => None
          case Some(sections) => Some([Section(head.0, head.1)] + sections)
  }

  /** What follows a valid header, when its sections stand in order. */
  function ReadSections(bytes: seq<byte>): Option<seq<Section>> {
    if MAGIC_AND_VERSION <= bytes then SectionList(bytes[|MAGIC_AND_VERSION|..], -1) else None
  }

  function EncodeSection(section: Section): seq<byte> {
    [section.id] + EncodeSized(section.payload)
  }

  function EncodeSections(sections: seq<Section>): seq<byte> {
    if sections == [] then [] else EncodeSection(sections[0]) + EncodeSections(sections[1..])
  }

  function EncodeModule(sections: seq<Section>): seq<byte> {
    MAGIC_AND_VERSION + EncodeSections(sections)
  }

  predicate Ordered(sections: seq<Section>, last: int) {
    sections == [] || (
      && IsSectionId(sections[0].id)
      && Fits(sections[0].id, last)
      && Ordered(sections[1..], After(sections[0].id, last))
    )
  }

  ghost predicate Sized32(sections: seq<Section>) {
    forall i :: 0 <= i < |sections| ==> |sections[i].payload| < TWO_32
  }

  // ---- what reading gives --------------------------------------------------------------------

  lemma SizedValue(s: seq<byte>)
    requires SizedBytes()(s).Got?
    ensures |SizedBytes()(s).value| < TWO_32
  {
  }

  lemma {:induction false} SectionListIsOrdered(s: seq<byte>, last: int)
    requires SectionList(s, last).Some?
    ensures Ordered(SectionList(s, last).value, last) && Sized32(SectionList(s, last).value)
    decreases |s|
  {
    if s == [] {
    } else {
      SectionProgresses(s);
      var head, rest := ReadSection()(s).value, ReadSection()(s).rest;
      SectionListIsOrdered(rest, After(head.0, last));
      assert Where(AnyByte(), IsSectionId)(s).Got?;
      SizedValue(s[1..]);
      var sections := SectionList(s, last).value;
      assert sections[1..] == SectionList(rest, After(head.0, last)).value;
    }
  }

  lemma SectionPrints(section: Section)
    requires IsSectionId(section.id) && |section.payload| < TWO_32
    ensures Prints(ReadSection(), EncodeSection(section), (section.id, section.payload))
  {
    AnyBytePrints(section.id);
    WherePrints(AnyByte(), IsSectionId, [section.id], section.id);
    SizedPrints(section.payload);
    PairPrints(Where(AnyByte(), IsSectionId), SizedBytes(), [section.id], section.id,
               EncodeSized(section.payload), section.payload);
  }

  /** The encoding of a number that needs more than 32 bits is refused. */
  lemma {:induction false} TooBigIsRefused(value: nat, t: seq<byte>)
    requires value >= TWO_32
    ensures ReadU32(Encode(value) + t).Bad?
  {
    if |Encode(value)| <= 5 {
      EncodedReads([], value, 5, t);
      assert [] + Groups(value) == Groups(value);
    } else {
      LongGroupsAreRefused([], value, 5, t);
    }
  }

  lemma {:induction false} LongGroupsAreRefused(read: seq<group>, value: nat, most: nat, t: seq<byte>)
    requires |Encode(value)| > most
    ensures ReadGroups(read, Encode(value) + t, most).Bad?
    decreases most
  {
    if most == 0 {
    } else {
      assert (Encode(value) + t)[1..] == Encode(value / 128) + t;
      LongGroupsAreRefused(read + [value % 128], value / 128, most - 1, t);
    }
  }

  lemma LargeSectionIsRefused(section: Section, t: seq<byte>)
    requires |section.payload| >= TWO_32
    ensures ReadSection()(EncodeSection(section) + t).Bad?
  {
    var s := EncodeSection(section) + t;
    assert s[1..] == Encode(|section.payload|) + (section.payload + t);
    TooBigIsRefused(|section.payload|, section.payload + t);
    if Where(AnyByte(), IsSectionId)(s).Got? {
      assert SizedBytes()(s[1..]).Bad?;
    }
  }

  /**
   * Encoded sections in order are read back as they are when every payload's length fits 32 bits; when one
   * does not, the module is refused.
   */
  lemma {:induction false} SectionListRoundTrip(sections: seq<Section>, last: int)
    requires Ordered(sections, last)
    ensures SectionList(EncodeSections(sections), last) == if Sized32(sections) then Some(sections) else None
  {
    hide EncodeSection, ReadSection, Fits, After, IsSectionId;
    if sections == [] {
    } else {
      var first, rest := sections[0], EncodeSections(sections[1..]);
      EncodedSectionIsNotEmpty(first);
      SectionListRoundTrip(sections[1..], After(first.id, last));
      Sized32Splits(sections);
      if |first.payload| < TWO_32 {
        SectionPrints(first);
        assert ReadSection()(EncodeSection(first) + rest) == Got((first.id, first.payload), rest);
        assert [Section(first.id, first.payload)] + sections[1..] == sections;
      } else {
        LargeSectionIsRefused(first, rest);
      }
    }
  }

  lemma EncodedSectionIsNotEmpty(section: Section)
    ensures EncodeSection(section) != []
  {
  }

  lemma Sized32Splits(sections: seq<Section>)
    requires sections != []
    ensures Sized32(sections) <==> |sections[0].payload| < TWO_32 && Sized32(sections[1..])
  {
    if Sized32(sections[1..]) && |sections[0].payload| < TWO_32 {
      forall i | 0 <= i < |sections| ensures |sections[i].payload| < TWO_32 {
        if i > 0 {
          assert sections[i] == sections[1..][i - 1];
        }
      }
    }
  }

  lemma ModuleRoundTrip(sections: seq<Section>)
    requires Ordered(sections, -1)
    ensures ReadSections(EncodeModule(sections)) == if Sized32(sections) then Some(sections) else None
  {
    SectionListRoundTrip(sections, -1);
    assert EncodeModule(sections)[|MAGIC_AND_VERSION|..] == EncodeSections(sections);
  }

  lemma ReadSectionsAreOrdered(bytes: seq<byte>)
    requires ReadSections(bytes).Some?
    ensures Ordered(ReadSections(bytes).value, -1) && Sized32(ReadSections(bytes).value)
  {
    SectionListIsOrdered(bytes[|MAGIC_AND_VERSION|..], -1);
  }

  // ---- at most one section of each kind ---------------------------------------------------------

  lemma {:induction false} OrderedPositions(sections: seq<Section>, last: int, i: nat)
    requires Ordered(sections, last) && i < |sections| && sections[i].id != CUSTOM
    ensures sections[i].id in SECTION_ORDER && PositionIn(SECTION_ORDER, sections[i].id) > last
  {
    if i == 0 {
    } else {
      OrderedPositions(sections[1..], After(sections[0].id, last), i - 1);
    }
  }

  lemma {:induction false} SectionIsUnique(sections: seq<Section>, last: int, i: nat, j: nat)
    requires Ordered(sections, last) && i < j < |sections|
    requires sections[i].id != CUSTOM
    ensures sections[i].id != sections[j].id
  {
    if i == 0 {
      if sections[j].id == sections[0].id {
        OrderedPositions(sections[1..], After(sections[0].id, last), j - 1);
      }
    } else {
      SectionIsUnique(sections[1..], After(sections[0].id, last), i - 1, j - 1);
    }
  }

  /** Whether sections are in order depends on their ids alone. */
  lemma {:induction false} OrderIsById(a: seq<Section>, b: seq<Section>, last: int)
    requires Ordered(a, last) && |a| == |b| && forall i :: 0 <= i < |a| ==> b[i].id == a[i].id
    ensures Ordered(b, last)
  {
    if a == [] {
    } else {
      assert b[0].id == a[0].id;
      OrderIsById(a[1..], b[1..], After(a[0].id, last));
    }
  }

  // ---- finding a section ------------------------------------------------------------------------

  /** The first section with an id. */
  function Find(sections: seq<Section>, id: byte): (found: Option<Section>)
    ensures found.Some? ==> found.value in sections && found.value.id == id
    ensures found.None? ==> forall i :: 0 <= i < |sections| ==> sections[i].id != id
  {
    if sections == [] then None
    else if sections[0].id == id then Some(sections[0])
    else Find(sections[1..], id)
  }
}
