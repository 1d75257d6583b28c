/** The reader against the printer: round trips, shortest form, and what every accepted item satisfies. */
module CborFacts {
  import opened Bytes
  import opened Sequences
  import opened Cbor

  // ---- heads ---------------------------------------------------------------------

  lemma Pow256Values()
    ensures Pow256(1) == 0x100 && Pow256(2) == 0x1_0000 && Pow256(4) == 0x1_0000_0000 && Pow256(8) == TWO_64
  {
    assert Pow256(2) == 256 * Pow256(1);
    assert Pow256(3) == 256 * Pow256(2);
    assert Pow256(4) == 256 * Pow256(3);
    assert Pow256(5) == 256 * Pow256(4);
    assert Pow256(6) == 256 * Pow256(5);
    assert Pow256(7) == 256 * Pow256(6);
  }

  /** The initial byte and the rest of a head, read back. */
  lemma HeadReads(major: nat, n: nat, t: seq<byte>)
    requires major < 7 && n < TWO_64
    ensures var s := Head(major, n) + t;
      && s[0] / 32 == major && s[0] % 32 < 28
      && ReadArgument(s[1..], s[0] % 32) == Got(n, t)
  {
    Pow256Values();
    var head := Head(major, n);
    var s := head + t;
    var bytes := head[1..];
    assert s[1..] == bytes + t;
    if n >= 24 {
      if n < 0x100 {
        assert bytes[..0] == [];
        assert BigEndian([]) == 0;
        assert BigEndian(bytes) == n;
      }
      assert |bytes| == ArgumentWidth(s[0] % 32) && BigEndian(bytes) == n;
      assert (bytes + t)[..|bytes|] == bytes && (bytes + t)[|bytes|..] == t;
    }
  }

  lemma HeadThenBody(major: nat, n: nat, body: seq<byte>, depth: nat)
    requires major < 7 && n < TWO_64 && depth <= MAX_DEPTH
    ensures ReadItem(Head(major, n) + body, depth) == ReadBody(major, n, body, depth)
  {
    HeadReads(major, n, body);
  }

  /** No head that reads as `n` is shorter than the printed one. */
  lemma HeadIsShortest(major: nat, s: seq<byte>, info: nat)
    requires major < 7 && ReadArgument(s, info).Got?
    ensures var read := ReadArgument(s, info);
      read.value < TWO_64 && |Head(major, read.value)| + |read.rest| <= 1 + |s|
  {
    Pow256Values();
    if info > 23 {
      assert |s[..ArgumentWidth(info)]| == ArgumentWidth(info);
    }
  }

  // ---- printing then reading -------------------------------------------------------

  predicate Encodable(item: Item, depth: nat) {
    WellFormed(item, depth) && Printable(item)
  }

  ghost predicate EncodableItems(items: seq<Item>, depth: nat) {
    forall i :: 0 <= i < |items| ==> WellFormed(items[i], depth) && Printable(items[i])
  }

  ghost predicate EncodableEntries(entries: seq<Entry>, depth: nat) {
    forall i :: 0 <= i < |entries| ==>
      && WellFormed(entries[i].key, depth) && Printable(entries[i].key)
      && WellFormed(entries[i].value, depth) && Printable(entries[i].value)
  }

  lemma EncodingIsNotEmpty(item: Item)
    requires Printable(item) && (item.Other? ==> IsSimple(item.raw))
    ensures Encode(item) != []
  {
  }

  /** An item within the limits, printed and followed by anything, reads back with exactly that left. */
  lemma {:induction false} RoundTrip(item: Item, depth: nat, t: seq<byte>)
    requires Encodable(item, depth)
    ensures ReadItem(Encode(item) + t, depth) == Got(item, t)
    decreases item, 0
  {
    match item
    case Uint(n) => HeadThenBody(0, n, t, depth);
    case Bytes(bytes) => BytesReadBack(2, bytes, depth, t);
    case Text(utf8) => BytesReadBack(3, utf8, depth, t);
    case Array(items) =>
      ItemsRoundTrip([], items, depth + 1, t);
      ArrayReadsBack(items, depth, t);
    case Map(entries) =>
      EntriesRoundTrip([], entries, depth + 1, t);
      MapReadsBack(entries, depth, t);
    case Tag(number, inner) =>
      assert Encode(item) + t == Head(6, number) + (Encode(inner) + t);
      HeadThenBody(6, number, Encode(inner) + t, depth);
      RoundTrip(inner, depth + 1, t);
    case Bool(flag) => assert (Encode(item) + t)[1..] == t;
    case Other(raw) => SimpleReadsBack(raw, t);
  }

  lemma ArrayReadsBack(items: seq<Item>, depth: nat, t: seq<byte>)
    requires |items| < TWO_64 && depth <= MAX_DEPTH && EncodableItems(items, depth + 1)
    requires ReadItems([], EncodeItems(items) + t, depth + 1, |items|) == Got([] + items, t)
    ensures ReadItem(Head(4, |items|) + EncodeItems(items) + t, depth) == Got(Array(items), t)
  {
    var body := EncodeItems(items) + t;
    assert Head(4, |items|) + EncodeItems(items) + t == Head(4, |items|) + body;
    HeadThenBody(4, |items|, body, depth);
    ItemsTakeBytes(items, depth + 1);
    assert [] + items == items;
  }

  lemma MapReadsBack(entries: seq<Entry>, depth: nat, t: seq<byte>)
    requires |entries| < TWO_64 && depth <= MAX_DEPTH && EncodableEntries(entries, depth + 1)
    requires ReadEntries([], EncodeEntries(entries) + t, depth + 1, |entries|) == Got([] + entries, t)
    ensures ReadItem(Head(5, |entries|) + EncodeEntries(entries) + t, depth) == Got(Map(entries), t)
  {
    var body := EncodeEntries(entries) + t;
    assert Head(5, |entries|) + EncodeEntries(entries) + t == Head(5, |entries|) + body;
    HeadThenBody(5, |entries|, body, depth);
    EntriesTakeBytes(entries, depth + 1);
    assert [] + entries == entries;
  }

  lemma BytesReadBack(major: nat, bytes: seq<byte>, depth: nat, t: seq<byte>)
    requires (major == 2 || (major == 3 && ValidUtf8(bytes))) && |bytes| < TWO_64 && depth <= MAX_DEPTH
    ensures ReadItem(Head(major, |bytes|) + bytes + t, depth)
         == Got(if major == 2 then Bytes(bytes) else Text(bytes), t)
  {
    assert Head(major, |bytes|) + bytes + t == Head(major, |bytes|) + (bytes + t);
    HeadThenBody(major, |bytes|, bytes + t, depth);
    assert (bytes + t)[..|bytes|] == bytes && (bytes + t)[|bytes|..] == t;
  }

  lemma SimpleReadsBack(raw: seq<byte>, t: seq<byte>)
    requires IsSimple(raw)
    ensures ReadSimple(raw[0], raw[0] % 32, (raw + t)[1..]) == Got(Other(raw), t)
  {
    var bytes := raw[1..];
    assert (raw + t)[1..] == bytes + t;
    assert (bytes + t)[..|bytes|] == bytes && (bytes + t)[|bytes|..] == t;
    assert [raw[0]] + bytes == raw;
  }

  lemma {:induction false} ItemsRoundTrip(read: seq<Item>, items: seq<Item>, depth: nat, t: seq<byte>)
    requires EncodableItems(items, depth)
    ensures ReadItems(read, EncodeItems(items) + t, depth, |items|) == Got(read + items, t)
    decreases items, 1
  {
    if items == [] {
      assert EncodeItems(items) + t == t && read + items == read;
    } else {
      var tail := EncodeItems(items[1..]) + t;
      assert EncodeItems(items) + t == Encode(items[0]) + tail;
      RoundTrip(items[0], depth, tail);
      ItemsRoundTrip(read + [items[0]], items[1..], depth, t);
      assert read + [items[0]] + items[1..] == read + items;
    }
  }

  lemma {:induction false} ItemsTakeBytes(items: seq<Item>, depth: nat)
    requires EncodableItems(items, depth)
    ensures |EncodeItems(items)| >= |items|
  {
    if items == [] {
    } else {
      EncodingIsNotEmpty(items[0]);
      ItemsTakeBytes(items[1..], depth);
    }
  }

  lemma {:induction false} EntryRoundTrip(entry: Entry, depth: nat, t: seq<byte>)
    requires Encodable(entry.key, depth) && Encodable(entry.value, depth)
    ensures ReadItem(Encode(entry.key) + (Encode(entry.value) + t), depth) == Got(entry.key, Encode(entry.value) + t)
    ensures ReadItem(Encode(entry.value) + t, depth) == Got(entry.value, t)
    decreases entry, 1
  {
    RoundTrip(entry.key, depth, Encode(entry.value) + t);
    RoundTrip(entry.value, depth, t);
  }

  lemma FreshKey(read: seq<Entry>, entries: seq<Entry>)
    requires entries != [] && DistinctKeys(read + entries)
    ensures !HasKey(read, entries[0].key)
  {
    assert (read + entries)[|read|] == entries[0];
    assert forall i :: 0 <= i < |read| ==> (read + entries)[i] == read[i];
  }

  lemma EntriesStep(read: seq<Entry>, entry: Entry, s: seq<byte>, afterKey: seq<byte>, rest: seq<byte>, depth: nat, count: nat)
    requires ReadItem(s, depth) == Got(entry.key, afterKey) && ReadItem(afterKey, depth) == Got(entry.value, rest)
    requires count > 0 && !HasKey(read, entry.key)
    ensures ReadEntries(read, s, depth, count) == ReadEntries(read + [entry], rest, depth, count - 1)
  {
    assert Entry(entry.key, entry.value) == entry;
  }

  lemma {:induction false} EntriesRoundTrip(read: seq<Entry>, entries: seq<Entry>, depth: nat, t: seq<byte>)
    requires EncodableEntries(entries, depth) && DistinctKeys(read + entries)
    ensures ReadEntries(read, EncodeEntries(entries) + t, depth, |entries|) == Got(read + entries, t)
    decreases entries, 2
  {
    if entries == [] {
      assert EncodeEntries(entries) + t == t && read + entries == read;
    } else {
      var entry, tail := entries[0], EncodeEntries(entries[1..]) + t;
      var all, afterKey := EncodeEntries(entries) + t, Encode(entry.value) + tail;
      AppendAssociates(EncodeEntry(entry), EncodeEntries(entries[1..]), t);
      AppendAssociates(Encode(entry.key), Encode(entry.value), tail);
      EntryRoundTrip(entry, depth, tail);
      FreshKey(read, entries);
      EntriesStep(read, entry, all, afterKey, tail, depth, |entries|);
      AppendAssociates(read, [entry], entries[1..]);
      assert [entry] + entries[1..] == entries;
      EntriesRoundTrip(read + [entry], entries[1..], depth, t);
    }
  }

  lemma {:induction false} EntriesTakeBytes(entries: seq<Entry>, depth: nat)
    requires EncodableEntries(entries, depth)
    ensures |EncodeEntries(entries)| >= |entries|
  {
    if entries == [] {
    } else {
      EncodingIsNotEmpty(entries[0].key);
      EntriesTakeBytes(entries[1..], depth);
    }
  }

  /** A whole presentation item survives the wire. */
  lemma DecodeEncode(item: Item)
    requires Encodable(item, 0)
    ensures Decode(Encode(item)) == Got(item, [])
  {
    RoundTrip(item, 0, []);
    assert Encode(item) + [] == Encode(item);
  }

  // ---- what every accepted item satisfies --------------------------------------------

  /** The items of an item, itself included. */
  function Nodes(item: Item): nat
    decreases item, 0
  {
    match item
    case Array(items) => 1 + NodesOf(items)
    case Map(entries) => 1 + NodesIn(entries)
    case Tag(_, inner) => 1 + Nodes(inner)
    case _ => 1
  }

  function NodesOf(items: seq<Item>): nat
    decreases items, 1
  {
    if items == [] then 0 else Nodes(items[0]) + NodesOf(items[1..])
  }

  function NodesOfEntry(entry: Entry): nat
    decreases entry, 1
  {
    Nodes(entry.key) + Nodes(entry.value)
  }

  function NodesIn(entries: seq<Entry>): nat
    decreases entries, 2
  {
    if entries == [] then 0 else NodesOfEntry(entries[0]) + NodesIn(entries[1..])
  }

  /** `item` is an acceptable reading of the bytes of `s` before `rest`, and no longer than its printed form. */
  ghost predicate Sound(item: Item, depth: nat, s: seq<byte>, rest: seq<byte>) {
    && WellFormed(item, depth)
    && |rest| < |s| && rest == s[|s| - |rest|..]
    && Nodes(item) <= |s| - |rest|
    && (Printable(item) ==> |Encode(item)| <= |s| - |rest|)
  }

  ghost predicate SoundItems(items: seq<Item>, depth: nat, s: seq<byte>, rest: seq<byte>) {
    && (forall i :: 0 <= i < |items| ==> WellFormed(items[i], depth))
    && |rest| <= |s| && rest == s[|s| - |rest|..]
    && NodesOf(items) <= |s| - |rest|
    && ((forall i :: 0 <= i < |items| ==> Printable(items[i])) ==> |EncodeItems(items)| <= |s| - |rest|)
  }

  ghost predicate SoundEntries(entries: seq<Entry>, depth: nat, s: seq<byte>, rest: seq<byte>) {
    && (forall i :: 0 <= i < |entries| ==> WellFormed(entries[i].key, depth) && WellFormed(entries[i].value, depth))
    && |rest| <= |s| && rest == s[|s| - |rest|..]
    && NodesIn(entries) <= |s| - |rest|
    && ((forall i :: 0 <= i < |entries| ==> Printable(entries[i].key) && Printable(entries[i].value))
        ==> |EncodeEntries(entries)| <= |s| - |rest|)
  }

  lemma {:induction false} ReadsAreSound(s: seq<byte>, depth: nat)
    requires ReadItem(s, depth).Got?
    ensures Sound(ReadItem(s, depth).value, depth, s, ReadItem(s, depth).rest)
    decreases Levels(depth), 0, 0
  {
    var major, info := s[0] / 32, s[0] % 32;
    if major == 7 {
      SimplesAreSound(s, depth);
    } else {
      hide ReadBody, WellFormed, Printable, Nodes, Encode, Head;
      var argument := ReadArgument(s[1..], info);
      HeadIsShortest(major, s[1..], info);
      BodiesAreSound(major, argument.value, argument.rest, depth);
    }
  }

  lemma SimplesAreSound(s: seq<byte>, depth: nat)
    requires s != [] && s[0] / 32 == 7 && depth <= MAX_DEPTH && ReadSimple(s[0], s[0] % 32, s[1..]).Got?
    ensures var read := ReadSimple(s[0], s[0] % 32, s[1..]);
      Sound(read.value, depth, s, read.rest)
  {
    var width := SimpleWidth(s[0] % 32);
    assert s[1..][width..] == s[1 + width..];
  }

  /** The body of an item, read after a head of the printed size. */
  lemma {:induction false} BodiesAreSound(major: nat, n: nat, s: seq<byte>, depth: nat)
    requires major < 7 && n < TWO_64 && depth <= MAX_DEPTH && ReadBody(major, n, s, depth).Got?
    ensures var read := ReadBody(major, n, s, depth);
      && WellFormed(read.value, depth)
      && |read.rest| <= |s| && read.rest == s[|s| - |read.rest|..]
      && Nodes(read.value) <= 1 + |s| - |read.rest|
      && (Printable(read.value) ==> |Encode(read.value)| <= |Head(major, n)| + |s| - |read.rest|)
    decreases Levels(depth + 1), 2, 0
  {
    var read := ReadBody(major, n, s, depth);
    if major == 4 {
      ItemsAreSound([], s, depth + 1, n);
      ArrayIsSound(n, s, depth, read.value.items, read.rest);
    } else if major == 5 {
      EntriesAreSound([], s, depth + 1, n);
      MapIsSound(n, s, depth, read.value.entries, read.rest);
    } else if major == 6 {
      ReadsAreSound(s, depth + 1);
    }
  }

  lemma ArrayIsSound(n: nat, s: seq<byte>, depth: nat, items: seq<Item>, rest: seq<byte>)
    requires n < TWO_64 && depth <= MAX_DEPTH && |items| == n && SoundItems(items[0..], depth + 1, s, rest)
    ensures WellFormed(Array(items), depth) && Nodes(Array(items)) <= 1 + |s| - |rest|
    ensures Printable(Array(items)) ==> |Encode(Array(items))| <= |Head(4, n)| + |s| - |rest|
  {
    assert items[0..] == items;
  }

  lemma MapIsSound(n: nat, s: seq<byte>, depth: nat, entries: seq<Entry>, rest: seq<byte>)
    requires n < TWO_64 && depth <= MAX_DEPTH && |entries| == n && DistinctKeys(entries)
    requires SoundEntries(entries[0..], depth + 1, s, rest)
    ensures WellFormed(Map(entries), depth) && Nodes(Map(entries)) <= 1 + |s| - |rest|
    ensures Printable(Map(entries)) ==> |Encode(Map(entries))| <= |Head(5, n)| + |s| - |rest|
  {
    assert entries[0..] == entries;
  }

  lemma {:induction false} ItemsAreSound(read: seq<Item>, s: seq<byte>, depth: nat, count: nat)
    requires ReadItems(read, s, depth, count).Got?
    ensures var all := ReadItems(read, s, depth, count);
      && |all.value| == |read| + count && all.value[..|read|] == read
      && SoundItems(all.value[|read|..], depth, s, all.rest)
    decreases Levels(depth), 1, count
  {
    hide ReadItem, ReadBody, WellFormed, Printable, Nodes, NodesOf, EncodeItems, Sound;
    if count == 0 {
      NoItems(read, s, depth);
    } else {
      var first := ReadItem(s, depth);
      ReadsAreSound(s, depth);
      ItemsAreSound(read + [first.value], first.rest, depth, count - 1);
      var all := ReadItems(read, s, depth, count);
      SoundItemsPush(first.value, all.value[|read| + 1..], depth, s, first.rest, all.rest);
      SplitAfter(all.value, read, first.value);
    }
  }

  lemma NoItems(read: seq<Item>, s: seq<byte>, depth: nat)
    ensures read[|read|..] == [] && read[..|read|] == read && SoundItems(read[|read|..], depth, s, s)
  {
  }

  lemma SoundItemsPush(
    item: Item, more: seq<Item>, depth: nat, s: seq<byte>, after: seq<byte>, rest: seq<byte>)
    requires Sound(item, depth, s, after) && SoundItems(more, depth, after, rest)
    ensures SoundItems([item] + more, depth, s, rest)
  {
    var all := [item] + more;
    assert all[1..] == more && all[0] == item;
    assert forall i :: 0 <= i < |more| ==> more[i] == all[i + 1];
  }

  lemma SoundEntriesPush(
    entry: Entry, more: seq<Entry>, depth: nat, s: seq<byte>, afterKey: seq<byte>, afterValue: seq<byte>, rest: seq<byte>)
    requires Sound(entry.key, depth, s, afterKey) && Sound(entry.value, depth, afterKey, afterValue)
    requires SoundEntries(more, depth, afterValue, rest)
    ensures SoundEntries([entry] + more, depth, s, rest)
  {
    var all := [entry] + more;
    assert all[1..] == more && all[0] == entry;
    assert forall i :: 0 <= i < |more| ==> more[i] == all[i + 1];
  }

  lemma NoEntries(read: seq<Entry>, s: seq<byte>, depth: nat)
    ensures read[|read|..] == [] && read[..|read|] == read && SoundEntries(read[|read|..], depth, s, s)
  {
  }

  lemma DistinctPush(read: seq<Entry>, entry: Entry)
    requires DistinctKeys(read) && !HasKey(read, entry.key)
    ensures DistinctKeys(read + [entry])
  {
  }

  lemma {:induction false} EntriesAreSound(read: seq<Entry>, s: seq<byte>, depth: nat, count: nat)
    requires ReadEntries(read, s, depth, count).Got?
    requires DistinctKeys(read)
    ensures var all := ReadEntries(read, s, depth, count);
      && |all.value| == |read| + count && all.value[..|read|] == read && DistinctKeys(all.value)
      && SoundEntries(all.value[|read|..], depth, s, all.rest)
    decreases Levels(depth), 1, count
  {
    hide ReadItem, ReadBody, WellFormed, Printable, Nodes, NodesIn, EncodeEntries, HasKey, DistinctKeys, Sound;
    if count == 0 {
      NoEntries(read, s, depth);
    } else {
      var key := ReadItem(s, depth);
      ReadsAreSound(s, depth);
      var value := ReadItem(key.rest, depth);
      ReadsAreSound(key.rest, depth);
      var entry := Entry(key.value, value.value);
      DistinctPush(read, entry);
      EntriesAreSound(read + [entry], value.rest, depth, count - 1);
      var all := ReadEntries(read, s, depth, count);
      var more := all.value[|read| + 1..];
      SoundEntriesPush(entry, more, depth, s, key.rest, value.rest, all.rest);
      SplitAfter(all.value, read, entry);
    }
  }

  lemma SplitAfter<T>(all: seq<T>, read: seq<T>, x: T)
    requires |all| > |read| && all[..|read| + 1] == read + [x]
    ensures all[..|read|] == read && all[|read|..] == [x] + all[|read| + 1..]
  {
    assert all[|read|] == all[..|read| + 1][|read|];
    assert all[..|read|] == all[..|read| + 1][..|read|];
  }

  // ---- reading depends only on the bytes read ---------------------------------------

  lemma {:induction false} ReadsAreLocal(s: seq<byte>, depth: nat, t: seq<byte>)
    requires ReadItem(s, depth).Got?
    ensures ReadItem(s + t, depth) == Got(ReadItem(s, depth).value, ReadItem(s, depth).rest + t)
    decreases Levels(depth), 0, 0
  {
    var major, info := s[0] / 32, s[0] % 32;
    assert (s + t)[1..] == s[1..] + t;
    if major == 7 {
      TakeIsLocal(s[1..], SimpleWidth(info), t);
    } else {
      if info > 23 {
        TakeIsLocal(s[1..], ArgumentWidth(info), t);
      }
      var argument := ReadArgument(s[1..], info);
      BodiesAreLocal(major, argument.value, argument.rest, depth, t);
    }
  }

  lemma {:induction false} BodiesAreLocal(major: nat, n: nat, s: seq<byte>, depth: nat, t: seq<byte>)
    requires major < 7 && depth <= MAX_DEPTH && ReadBody(major, n, s, depth).Got?
    ensures var read := ReadBody(major, n, s, depth);
      ReadBody(major, n, s + t, depth) == Got(read.value, read.rest + t)
    decreases Levels(depth + 1), 2, 0
  {
    if major == 2 || major == 3 {
      TakeIsLocal(s, n, t);
    } else if major == 4 {
      ItemsAreLocal([], s, depth + 1, n, t);
    } else if major == 5 {
      EntriesAreLocal([], s, depth + 1, n, t);
    } else if major == 6 {
      ReadsAreLocal(s, depth + 1, t);
    }
  }

  lemma TakeIsLocal(s: seq<byte>, n: nat, t: seq<byte>)
    ensures TakeBytes(s, n).Got? ==> TakeBytes(s + t, n) == Got(TakeBytes(s, n).value, TakeBytes(s, n).rest + t)
  {
    if n <= |s| {
      assert (s + t)[..n] == s[..n] && (s + t)[n..] == s[n..] + t;
    }
  }

  lemma {:induction false} ItemsAreLocal(read: seq<Item>, s: seq<byte>, depth: nat, count: nat, t: seq<byte>)
    requires ReadItems(read, s, depth, count).Got?
    ensures var all := ReadItems(read, s, depth, count);
      ReadItems(read, s + t, depth, count) == Got(all.value, all.rest + t)
    decreases Levels(depth), 1, count
  {
    if count == 0 {
    } else {
      var first := ReadItem(s, depth);
      ReadsAreLocal(s, depth, t);
      ItemsAreLocal(read + [first.value], first.rest, depth, count - 1, t);
    }
  }

  lemma {:induction false} EntriesAreLocal(read: seq<Entry>, s: seq<byte>, depth: nat, count: nat, t: seq<byte>)
    requires ReadEntries(read, s, depth, count).Got?
    ensures var all := ReadEntries(read, s, depth, count);
      ReadEntries(read, s + t, depth, count) == Got(all.value, all.rest + t)
    decreases Levels(depth), 1, count
  {
    if count == 0 {
    } else {
      var key := ReadItem(s, depth);
      ReadsAreLocal(s, depth, t);
      var value := ReadItem(key.rest, depth);
      ReadsAreLocal(key.rest, depth, t);
      EntriesAreLocal(read + [Entry(key.value, value.value)], value.rest, depth, count - 1, t);
    }
  }

  /** No accepted encoding is a proper prefix of another. */
  lemma AcceptedIsPrefixFree(s: seq<byte>, t: seq<byte>)
    requires Decode(s).Got? && Decode(s + t).Got?
    ensures t == []
  {
    ReadsAreLocal(s, 0, t);
  }

  /** What is accepted is well formed at every level, has no more items than bytes, and prints no longer than it came. */
  lemma AcceptedIsWellFormed(s: seq<byte>)
    requires Decode(s).Got?
    ensures var item := Decode(s).value;
      && WellFormed(item, 0) && Nodes(item) <= |s|
      && (Printable(item) ==> |Encode(item)| <= |s| && Decode(Encode(item)) == Decode(s))
  {
    ReadsAreSound(s, 0);
    if Printable(Decode(s).value) {
      DecodeEncode(Decode(s).value);
    }
  }

  // ---- the depth limit -----------------------------------------------------------------

  /** An integer inside this many tags. */
  function Tagged(count: nat): (item: Item) {
    if count == 0 then Uint(0) else Tag(0, Tagged(count - 1))
  }

  function TaggedBytes(count: nat): seq<byte> {
    if count == 0 then [0x00] else [0xC0] + TaggedBytes(count - 1)
  }

  lemma {:induction false} TaggedReads(count: nat, depth: nat)
    ensures ReadItem(TaggedBytes(count), depth) == if depth + count <= 16 then Got(Tagged(count), []) else Refused(Malformed)
  {
    var s := TaggedBytes(count);
    if depth > 16 {
    } else if count == 0 {
      assert s[1..] == [];
    } else {
      assert s[1..] == TaggedBytes(count - 1);
      TaggedReads(count - 1, depth + 1);
    }
  }

  /** An integer inside at most 16 tags is read; one more is malformed. */
  lemma DepthIsSixteen(count: nat)
    ensures Decode(TaggedBytes(count)) == if count <= 16 then Got(Tagged(count), []) else Refused(Malformed)
  {
    TaggedReads(count, 0);
  }

  // ---- what has no argument ---------------------------------------------------------------

  /** False, true, the other simple values, and floats of two, four and eight bytes. */
  lemma SimpleReads(info: nat, tail: seq<byte>)
    requires info < 32
    ensures var width := if info == 24 then 1 else if info == 25 then 2 else if info == 26 then 4 else if info == 27 then 8 else 0;
      ReadItem([0xE0 + info] + tail, 0) ==
        if info == 20 then Got(Bool(false), tail)
        else if info == 21 then Got(Bool(true), tail)
        else if info >= 28 || |tail| < width then Refused(Malformed)
        else Got(Other([0xE0 + info] + tail[..width]), tail[width..])
  {
    hide BigEndian;
    assert ([0xE0 + info] + tail)[1..] == tail && (0xE0 + info) / 32 == 7 && (0xE0 + info) % 32 == info;
    SimpleIs(0xE0 + info, info, tail);
  }

  lemma SimpleIs(initial: byte, info: nat, tail: seq<byte>)
    requires info < 32
    ensures var width := if info == 24 then 1 else if info == 25 then 2 else if info == 26 then 4 else if info == 27 then 8 else 0;
      ReadSimple(initial, info, tail) ==
        if info == 20 then Got(Bool(false), tail)
        else if info == 21 then Got(Bool(true), tail)
        else if info >= 28 || |tail| < width then Refused(Malformed)
        else Got(Other([initial] + tail[..width]), tail[width..])
  {
  }

  /** Byte and text strings, arrays and maps of unstated length are refused as such; other reserved heads are malformed. */
  lemma ReservedHeads(major: nat, info: nat, tail: seq<byte>)
    requires major < 7 && 28 <= info < 32
    ensures ReadItem([major * 32 + info] + tail, 0)
         == Refused(if info == 31 && major in {2, 3, 4, 5} then Indefinite else Malformed)
  {
    assert ([major * 32 + info] + tail)[1..] == tail;
  }
}
