/** The CBOR items a presentation may use (RFC 8949, section 3): what the strict reader means, and the shortest-form printer. */
module Cbor {
  import opened Bytes

  /** Negative integers keep no value. `Other` keeps floats and the remaining simple values as their bytes. */
  datatype Item =
    | Uint(n: nat)
    | Nint
    | Bytes(bytes: seq<byte>)
    | Text(utf8: seq<byte>)
    | Array(items: seq<Item>)
    | Map(entries: seq<Entry>)
    | Tag(number: nat, item: Item)
    | Bool(flag: bool)
    | Other(raw: seq<byte>)

  datatype Entry = Entry(key: Item, value: Item)

  datatype Error = Malformed | Indefinite | Trailing | DuplicateKey

  /** A successful read and the bytes it leaves, or why it was refused. */
  datatype Read<+T> = Got(value: T, rest: seq<byte>) | Refused(error: Error)

  const MAX_DEPTH := 16
  const TWO_64 := 0x1_0000_0000_0000_0000

  // ---- the meaning of the reader -------------------------------------------------

  function TakeBytes(s: seq<byte>, n: nat): Read<seq<byte>> {
    if n <= |s| then Got(s[..n], s[n..]) else Refused(Malformed)
  }

  /** The number of bytes after the initial one that hold the argument. */
  function ArgumentWidth(info: nat): nat {
    if info == 24 then 1 else if info == 25 then 2 else if info == 26 then 4 else 8
  }

  function ReadArgument(s: seq<byte>, info: nat): Read<nat> {
    if info <= 23 then Got(info, s)
    else if info > 27 then Refused(Malformed)
    else match TakeBytes(s, ArgumentWidth(info))
      case Got(bytes, rest) => Got(BigEndian(bytes), rest)
      case Refused(e) => Refused(e)
  }

  function SimpleWidth(info: nat): nat {
    if 24 <= info <= 27 then ArgumentWidth(info) else 0
  }

  function ReadSimple(initial: byte, info: nat, s: seq<byte>): Read<Item> {
    if info == 20 then Got(Bool(false), s)
    else if info == 21 then Got(Bool(true), s)
    else if 28 <= info then Refused(Malformed)
    else match TakeBytes(s, SimpleWidth(info))
      case Got(bytes, rest) => Got(Other([initial] + bytes), rest)
      case Refused(e) => Refused(e)
  }

  function Levels(depth: nat): nat {
    if depth <= MAX_DEPTH then MAX_DEPTH + 1 - depth else 0
  }

  function ReadItem(s: seq<byte>, depth: nat): Read<Item>
    decreases Levels(depth), 0, 0
  {
    if depth > MAX_DEPTH || s == [] then Refused(Malformed)
    else
      var major, info := s[0] / 32, s[0] % 32;
      if major == 7 then ReadSimple(s[0], info, s[1..])
      else if info == 31 then Refused(if 2 <= major <= 5 then Indefinite else Malformed)
      else match ReadArgument(s[1..], info)
        case Refused(e) => Refused(e)
        case Got(argument, rest) => ReadBody(major, argument, rest, depth)
  }

  /** What follows the head of an item of major type 0 to 6. */
  function ReadBody(major: nat, argument: nat, s: seq<byte>, depth: nat): Read<Item>
    requires depth <= MAX_DEPTH
    decreases Levels(depth + 1), 2, 0
  {
    if major == 0 then Got(Uint(argument), s)
    else if major == 1 then Got(Nint, s)
    else if major == 2 || major == 3 then
      match TakeBytes(s, argument)
      case Refused(e) => Refused(e)
      case Got(bytes, rest) =>
        if major == 2 then Got(Bytes(bytes), rest)
        else if ValidUtf8(bytes) then Got(Text(bytes), rest)
        else Refused(Malformed)
    else if major == 4 then
      if argument > |s| then Refused(Malformed)
      else match ReadItems([], s, depth + 1, argument)
        case Refused(e) => Refused(e)
        case Got(items, rest) => Got(Array(items), rest)
    else if major == 5 then
      if argument > |s| then Refused(Malformed)
      else match ReadEntries([], s, depth + 1, argument)
        case Refused(e) => Refused(e)
        case Got(entries, rest) => Got(Map(entries), rest)
    else
      match ReadItem(s, depth + 1)
      case Refused(e) => Refused(e)
      case Got(item, rest) => Got(Tag(argument, item), rest)
  }

  /** `count` more items after those already read. */
  function ReadItems(read: seq<Item>, s: seq<byte>, depth: nat, count: nat): Read<seq<Item>>
    decreases Levels(depth), 1, count
  {
    if count == 0 then Got(read, s)
    else match ReadItem(s, depth)
      case Refused(e) => Refused(e)
      case Got(item, rest) => ReadItems(read + [item], rest, depth, count - 1)
  }

  predicate HasKey(entries: seq<Entry>, key: Item) {
    exists i :: 0 <= i < |entries| && entries[i].key == key
  }

  /** `count` more entries; a key equal to an earlier one is refused once its value has been read. */
  function ReadEntries(read: seq<Entry>, s: seq<byte>, depth: nat, count: nat): Read<seq<Entry>>
    decreases Levels(depth), 1, count
  {
    if count == 0 then Got(read, s)
    else match ReadItem(s, depth)
      case Refused(e) => Refused(e)
      case Got(key, afterKey) =>
        match ReadItem(afterKey, depth)
        case Refused(e) => Refused(e)
        case Got(value, rest) =>
          if HasKey(read, key) then Refused(DuplicateKey)
          else ReadEntries(read + [Entry(key, value)], rest, depth, count - 1)
  }

  /** One item and nothing after it. */
  function Decode(s: seq<byte>): Read<Item> {
    match ReadItem(s, 0)
    case Refused(e) => Refused(e)
    case Got(item, rest) => if rest == [] then Got(item, []) else Refused(Trailing)
  }

  // ---- the printer ---------------------------------------------------------------

  /** The initial byte and argument, in the fewest bytes. */
  function Head(major: nat, n: nat): seq<byte>
    requires major < 8 && n < TWO_64
  {
    if n < 24 then [major * 32 + n]
    else if n < 0x100 then [major * 32 + 24, n]
    else if n < 0x1_0000 then [major * 32 + 25] + ToBigEndian(n, 2)
    else if n < 0x1_0000_0000 then [major * 32 + 26] + ToBigEndian(n, 4)
    else [major * 32 + 27] + ToBigEndian(n, 8)
  }

  /** A floating-point or simple value other than the booleans, as its own bytes. */
  predicate IsSimple(raw: seq<byte>) {
    && raw != [] && raw[0] / 32 == 7
    && var info := raw[0] % 32; info != 20 && info != 21 && info < 28 && |raw| == 1 + SimpleWidth(info)
  }

  predicate DistinctKeys(entries: seq<Entry>) {
    forall i, j :: 0 <= i < j < |entries| ==> entries[i].key != entries[j].key
  }

  /** What any accepted item is: within the depth limit, with distinct keys, valid text and 64-bit arguments at every level. */
  predicate WellFormed(item: Item, depth: nat)
    decreases item
  {
    depth <= MAX_DEPTH &&
    match item
    case Uint(n) => n < TWO_64
    case Nint => true
    case Bytes(bytes) => |bytes| < TWO_64
    case Text(utf8) => |utf8| < TWO_64 && ValidUtf8(utf8)
    case Array(items) => |items| < TWO_64 && forall i :: 0 <= i < |items| ==> WellFormed(items[i], depth + 1)
    case Map(entries) =>
      && |entries| < TWO_64 && DistinctKeys(entries)
      && forall i :: 0 <= i < |entries| ==>
           WellFormed(entries[i].key, depth + 1) && WellFormed(entries[i].value, depth + 1)
    case Tag(number, inner) => number < TWO_64 && WellFormed(inner, depth + 1)
    case Bool(_) => true
    case Other(raw) => IsSimple(raw)
  }

  /** The printer has no form for negative integers, whose value the reader drops, nor for counts past 64 bits. */
  predicate Printable(item: Item)
    decreases item
  {
    match item
    case Uint(n) => n < TWO_64
    case Nint => false
    case Bytes(bytes) => |bytes| < TWO_64
    case Text(utf8) => |utf8| < TWO_64
    case Array(items) => |items| < TWO_64 && forall i :: 0 <= i < |items| ==> Printable(items[i])
    case Map(entries) =>
      |entries| < TWO_64 && forall i :: 0 <= i < |entries| ==> Printable(entries[i].key) && Printable(entries[i].value)
    case Tag(number, inner) => number < TWO_64 && Printable(inner)
    case _ => true
  }

  function Encode(item: Item): seq<byte>
    requires Printable(item)
    decreases item, 0
  {
    match item
    case Uint(n) => Head(0, n)
    case Bytes(bytes) => Head(2, |bytes|) + bytes
    case Text(utf8) => Head(3, |utf8|) + utf8
    case Array(items) => Head(4, |items|) + EncodeItems(items)
    case Map(entries) => Head(5, |entries|) + EncodeEntries(entries)
    case Tag(number, inner) => Head(6, number) + Encode(inner)
    case Bool(flag) => if flag then [0xF5] else [0xF4]
    case Other(raw) => raw
  }

  function EncodeItems(items: seq<Item>): seq<byte>
    requires forall i :: 0 <= i < |items| ==> Printable(items[i])
    decreases items, 1
  {
    if items == [] then [] else Encode(items[0]) + EncodeItems(items[1..])
  }

  function EncodeEntry(entry: Entry): seq<byte>
    requires Printable(entry.key) && Printable(entry.value)
    decreases entry, 1
  {
    Encode(entry.key) + Encode(entry.value)
  }

  function EncodeEntries(entries: seq<Entry>): seq<byte>
    requires forall i :: 0 <= i < |entries| ==> Printable(entries[i].key) && Printable(entries[i].value)
    decreases entries, 2
  {
    if entries == [] then [] else EncodeEntry(entries[0]) + EncodeEntries(entries[1..])
  }
}
