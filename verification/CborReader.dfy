/** The strict CBOR reader: a recursive descent over a shrinking slice. */
module CborReader {
  import opened Bytes
  import opened Wrappers
  import opened Cbor

  class Reader {
    var rest: seq<byte>

    constructor (bytes: seq<byte>)
      ensures rest == bytes
    {
      rest := bytes;
    }

    method Take(n: nat) returns (r: Result<seq<byte>, Error>)
      modifies this
      ensures Agrees(r, rest, TakeBytes(old(rest), n))
    {
      if n > |rest| {
        return Err(Malformed);
      }
      r := Ok(rest[..n]);
      rest := rest[n..];
    }

    method Argument(info: nat) returns (r: Result<nat, Error>)
      modifies this
      ensures Agrees(r, rest, ReadArgument(old(rest), info))
    {
      if info <= 23 {
        return Ok(info);
      }
      if info > 27 {
        return Err(Malformed);
      }
      var taken := Take(ArgumentWidth(info));
      match taken
      case Err(e) => return Err(e);
      case Ok(bytes) =>
        var argument := Fold(bytes);
        return Ok(argument);
    }

    method Item(depth: nat) returns (r: Result<Item, Error>)
      modifies this
      ensures Agrees(r, rest, ReadItem(old(rest), depth))
      decreases Levels(depth), 0, 0
    {
      if depth > MAX_DEPTH {
        return Err(Malformed);
      }
      var first := Take(1);
      if first.Err? {
        return Err(first.error);
      }
      var initial := first.value[0];
      var major, info := initial / 32, initial % 32;
      if major == 7 {
        r := Simple(initial, info);
        return;
      }
      if info == 31 {
        return Err(if 2 <= major <= 5 then Indefinite else Malformed);
      }
      var argument := Argument(info);
      match argument
      case Err(e) => return Err(e);
      case Ok(n) => r := Body(major, n, depth);
    }

    method Simple(initial: byte, info: nat) returns (r: Result<Item, Error>)
      modifies this
      ensures Agrees(r, rest, ReadSimple(initial, info, old(rest)))
    {
      if info == 20 {
        return Ok(Bool(false));
      }
      if info == 21 {
        return Ok(Bool(true));
      }
      if info >= 28 {
        return Err(Malformed);
      }
      var taken := Take(SimpleWidth(info));
      match taken
      case Err(e) => return Err(e);
      case Ok(bytes) => return Ok(Other([initial] + bytes));
    }

    method Body(major: nat, n: nat, depth: nat) returns (r: Result<Item, Error>)
      requires depth <= MAX_DEPTH
      modifies this
      ensures Agrees(r, rest, ReadBody(major, n, old(rest), depth))
      decreases Levels(depth + 1), 2, 0
    {
      if major == 0 {
        return Ok(Uint(n));
      }
      if major == 1 {
        return Ok(Nint);
      }
      if major == 2 || major == 3 {
        var taken := Take(n);
        if taken.Err? {
          return Err(taken.error);
        }
        if major == 2 {
          return Ok(Bytes(taken.value));
        }
        return if ValidUtf8(taken.value) then Ok(Text(taken.value)) else Err(Malformed);
      }
      if major == 4 {
        r := ArrayBody(n, depth);
        return;
      }
      if major == 5 {
        r := MapBody(n, depth);
        return;
      }
      var inner := Item(depth + 1);
      match inner
      case Err(e) => return Err(e);
      case Ok(item) => return Ok(Tag(n, item));
    }

    method ArrayBody(n: nat, depth: nat) returns (r: Result<Item, Error>)
      requires depth <= MAX_DEPTH
      modifies this
      ensures Agrees(r, rest, ReadBody(4, n, old(rest), depth))
      decreases Levels(depth + 1), 1, 0
    {
      hide ReadItem;
      if n > |rest| {
        return Err(Malformed);
      }
      var out: seq<Item> := [];
      for i := 0 to n
        invariant ReadItems([], old(rest), depth + 1, n) == ReadItems(out, rest, depth + 1, n - i)
      {
        var item := Item(depth + 1);
        if item.Err? {
          return Err(item.error);
        }
        out := out + [item.value];
      }
      return Ok(Array(out));
    }

    method MapBody(n: nat, depth: nat) returns (r: Result<Item, Error>)
      requires depth <= MAX_DEPTH
      modifies this
      ensures Agrees(r, rest, ReadBody(5, n, old(rest), depth))
      decreases Levels(depth + 1), 1, 0
    {
      hide ReadItem, HasKey;
      if n > |rest| {
        return Err(Malformed);
      }
      var out: seq<Entry> := [];
      for i := 0 to n
        invariant ReadEntries([], old(rest), depth + 1, n) == ReadEntries(out, rest, depth + 1, n - i)
      {
        var key := Item(depth + 1);
        if key.Err? {
          return Err(key.error);
        }
        var value := Item(depth + 1);
        if value.Err? {
          return Err(value.error);
        }
        if HasKey(out, key.value) {
          return Err(DuplicateKey);
        }
        out := out + [Entry(key.value, value.value)];
      }
      return Ok(Map(out));
    }
  }

  /** A call returned, and left behind, what the meaning of the reader says. */
  ghost predicate Agrees<T>(r: Result<T, Error>, rest: seq<byte>, read: Read<T>) {
    match read
    case Got(value, left) => r == Ok(value) && rest == left
    case Refused(e) => r == Err(e)
  }

  /** Shifts the bytes in, most significant first. */
  method Fold(bytes: seq<byte>) returns (acc: nat)
    ensures acc == BigEndian(bytes)
  {
    acc := 0;
    for i := 0 to |bytes|
      invariant acc == BigEndian(bytes[..i])
    {
      assert bytes[..i + 1][..i] == bytes[..i];
      acc := acc * 256 + bytes[i];
    }
    assert bytes[..|bytes|] == bytes;
  }

  /** The single item that fills the bytes. */
  method DecodeCbor(bytes: seq<byte>) returns (r: Result<Item, Error>)
    ensures Agrees(r, [], Decode(bytes))
  {
    var reader := new Reader(bytes);
    r := reader.Item(0);
    if r.Ok? && reader.rest != [] {
      return Err(Trailing);
    }
  }
}
