/** The credential blob: how a wallet builds it, and how the matcher finds a credential's icon in it. */
module CredentialBlob {
  import opened Bytes
  import opened Wrappers
  import opened Sequences

  const TWO_32 := 0x1_0000_0000

  datatype Claim = Claim(path: seq<Text>, value: Text, display: Text, displayValue: Option<Text>)

  /** A slice of the icon bytes; both numbers are 32 bits wide. */
  datatype IconRef = IconRef(start: nat, len: nat)

  /** A credential as the wallet gives it to the builder. */
  datatype WalletCredential = WalletCredential(
    id: Text, format: Text, doctype: Option<Text>, vct: Option<Text>, title: Text, subtitle: Text,
    iconId: Option<Text>, claims: seq<Claim>)

  datatype Credential = Credential(
    id: Text, format: Text, doctype: Option<Text>, vct: Option<Text>, title: Text, subtitle: Text,
    icon: Option<IconRef>, claims: seq<Claim>)

  datatype Database = Database(debug: bool, credentials: seq<Credential>, icons: seq<byte>) {
    /** The icon's bytes when the reference lies within bounds; `most` is the largest `usize`. */
    function IconBytes(credential: Credential, most: nat): Option<seq<byte>> {
      match credential.icon
      case None => None
      case Some(r) =>
        if r.start + r.len > most || r.start + r.len > |icons| then None
        else Some(icons[r.start..r.start + r.len])
    }
  }

  datatype BlobError = UnknownIcon(credentialId: Text, iconId: Text)

  datatype Icon = Icon(id: Text, bytes: seq<byte>)

  // ---- the icon table ----------------------------------------------------------------------------

  function Without(icons: seq<Icon>, id: Text): seq<Icon> {
    if icons == [] then []
    else (if icons[0].id == id then [] else [icons[0]]) + Without(icons[1..], id)
  }

  function Added(icons: seq<Icon>, icon: Icon): seq<Icon> {
    Without(icons, icon.id) + [icon]
  }

  ghost predicate UniqueIcons(icons: seq<Icon>) {
    forall i, j :: 0 <= i < j < |icons| ==> icons[i].id != icons[j].id
  }

  /** The bytes of the icon with an id. */
  function BytesOf(icons: seq<Icon>, id: Text): Option<seq<byte>> {
    if icons == [] then None
    else if icons[0].id == id then Some(icons[0].bytes)
    else BytesOf(icons[1..], id)
  }

  function Parts(icons: seq<Icon>): seq<seq<byte>> {
    seq(|icons|, i requires 0 <= i < |icons| => icons[i].bytes)
  }

  /** Every icon's bytes, in table order. */
  function Pool(icons: seq<Icon>): seq<byte> {
    Concat(Parts(icons))
  }

  /** Casting to 32 bits keeps the low ones. */
  function Cast32(n: nat): nat {
    n % TWO_32
  }

  /** The reference recorded for an id: where its bytes start in the pool and how many there are, cast to 32 bits. */
  function RefFrom(icons: seq<Icon>, id: Text, start: nat): Option<IconRef> {
    if icons == [] then None
    else if icons[0].id == id then Some(IconRef(Cast32(start), Cast32(|icons[0].bytes|)))
    else RefFrom(icons[1..], id, start + |icons[0].bytes|)
  }

  function RefOf(icons: seq<Icon>, id: Text): Option<IconRef> {
    RefFrom(icons, id, 0)
  }

  lemma {:induction false} RefIffBytes(icons: seq<Icon>, id: Text, start: nat)
    ensures RefFrom(icons, id, start).Some? <==> BytesOf(icons, id).Some?
    ensures BytesOf(icons, id).Some? <==> exists i :: 0 <= i < |icons| && icons[i].id == id
  {
    if icons == [] {
    } else {
      assert icons[0].id == id ==> exists i :: 0 <= i < |icons| && icons[i].id == id;
      RefIffBytes(icons[1..], id, start + |icons[0].bytes|);
      if i :| 1 <= i < |icons| && icons[i].id == id {
        assert icons[1..][i - 1].id == id;
      }
      if i :| 0 <= i < |icons[1..]| && icons[1..][i].id == id {
        assert icons[i + 1].id == id;
      }
    }
  }

  /** Retaining the others and adding one icon changes that id alone. */
  lemma {:induction false} WithoutKeepsOthers(icons: seq<Icon>, id: Text, other: Text)
    ensures BytesOf(Without(icons, id), other) == if other == id then None else BytesOf(icons, other)
  {
    if icons == [] {
    } else {
      WithoutKeepsOthers(icons[1..], id, other);
      var rest := Without(icons[1..], id);
      assert [] + rest == rest && ([icons[0]] + rest)[1..] == rest;
    }
  }

  lemma {:induction false} BytesOfPush(icons: seq<Icon>, icon: Icon, id: Text)
    ensures BytesOf(icons + [icon], id)
         == if BytesOf(icons, id).Some? then BytesOf(icons, id) else if icon.id == id then Some(icon.bytes) else None
  {
    if icons == [] {
      assert [] + [icon] == [icon] && [icon][1..] == [];
    } else {
      assert (icons + [icon])[1..] == icons[1..] + [icon];
      BytesOfPush(icons[1..], icon, id);
    }
  }

  lemma AddedBytes(icons: seq<Icon>, icon: Icon, id: Text)
    ensures BytesOf(Added(icons, icon), id) == if id == icon.id then Some(icon.bytes) else BytesOf(icons, id)
  {
    WithoutKeepsOthers(icons, icon.id, id);
    BytesOfPush(Without(icons, icon.id), icon, id);
  }

  lemma {:induction false} WithoutIsUnique(icons: seq<Icon>, id: Text)
    requires UniqueIcons(icons)
    ensures UniqueIcons(Without(icons, id))
    ensures forall x :: x in Without(icons, id) <==> x in icons && x.id != id
  {
    if icons == [] {
    } else {
      WithoutIsUnique(icons[1..], id);
      var rest := Without(icons[1..], id);
      forall x | x in rest ensures x.id != icons[0].id {
        var i :| 0 <= i < |icons[1..]| && icons[1..][i] == x;
        assert icons[i + 1] == x;
      }
    }
  }

  lemma AddedIsUnique(icons: seq<Icon>, icon: Icon)
    requires UniqueIcons(icons)
    ensures UniqueIcons(Added(icons, icon))
  {
    WithoutIsUnique(icons, icon.id);
    var kept := Without(icons, icon.id);
    forall i | 0 <= i < |kept| ensures kept[i].id != icon.id {
      assert kept[i] in kept;
    }
  }

  // ---- building ----------------------------------------------------------------------------------

  /** The builder's collections. */
  datatype State = State(credentials: seq<WalletCredential>, icons: seq<Icon>, debug: bool)

  predicate KnowsIcon(icons: seq<Icon>, c: WalletCredential) {
    c.iconId.None? || BytesOf(icons, c.iconId.value).Some?
  }

  /** The first credential that names an icon the table lacks. */
  function FirstUnknown(icons: seq<Icon>, credentials: seq<WalletCredential>): Option<WalletCredential> {
    if credentials == [] then None
    else if !KnowsIcon(icons, credentials[0]) then Some(credentials[0])
    else FirstUnknown(icons, credentials[1..])
  }

  function Stored(icons: seq<Icon>, c: WalletCredential): Credential {
    Credential(c.id, c.format, c.doctype, c.vct, c.title, c.subtitle,
               if c.iconId.Some? then RefOf(icons, c.iconId.value) else None, c.claims)
  }

  function AllStored(icons: seq<Icon>, credentials: seq<WalletCredential>): seq<Credential> {
    seq(|credentials|, i requires 0 <= i < |credentials| => Stored(icons, credentials[i]))
  }

  function BlobOf(s: State): Result<Database, BlobError> {
    match FirstUnknown(s.icons, s.credentials)
    case Some(c) => Err(UnknownIcon(c.id, if c.iconId.Some? then c.iconId.value else []))
    case None => Ok(Database(s.debug, AllStored(s.icons, s.credentials), Pool(s.icons)))
  }

  // ---- every run of the builder --------------------------------------------------------------------

  datatype Call = CredentialAdded(credential: WalletCredential) | IconAdded(id: Text, bytes: seq<byte>) | DebugSet(debug: bool)

  function Applied(s: State, call: Call): State {
    match call
    case CredentialAdded(c) => s.(credentials := s.credentials + [c])
    case IconAdded(id, bytes) => s.(icons := Added(s.icons, Icon(id, bytes)))
    case DebugSet(debug) => s.(debug := debug)
  }

  function After(calls: seq<Call>): State {
    if calls == [] then State([], [], false)
    else Applied(After(calls[..|calls| - 1]), calls[|calls| - 1])
  }

  /** The bytes last added under an id. */
  function LastAdded(calls: seq<Call>, id: Text): Option<seq<byte>> {
    if calls == [] then None
    else
      var last := calls[|calls| - 1];
      if last.IconAdded? && last.id == id then Some(last.bytes) else LastAdded(calls[..|calls| - 1], id)
  }

  /** The credentials, in the order they were added. */
  function AddedCredentials(calls: seq<Call>): seq<WalletCredential> {
    if calls == [] then []
    else
      var last := calls[|calls| - 1];
      AddedCredentials(calls[..|calls| - 1]) + if last.CredentialAdded? then [last.credential] else []
  }

  /** After any run the table holds, once each, exactly the ids ever added, with the bytes last added. */
  lemma {:induction false} TableHoldsLastAdded(calls: seq<Call>, id: Text)
    ensures UniqueIcons(After(calls).icons)
    ensures BytesOf(After(calls).icons, id) == LastAdded(calls, id)
    ensures After(calls).credentials == AddedCredentials(calls)
  {
    if calls == [] {
    } else {
      var before, last := After(calls[..|calls| - 1]), calls[|calls| - 1];
      TableHoldsLastAdded(calls[..|calls| - 1], id);
      if last.IconAdded? {
        AddedBytes(before.icons, Icon(last.id, last.bytes), id);
        AddedIsUnique(before.icons, Icon(last.id, last.bytes));
      }
    }
  }

  // ---- what a reference reads back --------------------------------------------------------------------

  lemma PoolPush(icon: Icon, icons: seq<Icon>)
    ensures Pool([icon] + icons) == icon.bytes + Pool(icons)
  {
    assert Parts([icon] + icons) == [icon.bytes] + Parts(icons);
    assert ([icon.bytes] + Parts(icons))[1..] == Parts(icons);
  }

  /** Where the bytes for an id really start. */
  function StartFrom(icons: seq<Icon>, id: Text, start: nat): nat {
    if icons == [] || icons[0].id == id then start else StartFrom(icons[1..], id, start + |icons[0].bytes|)
  }

  function StartOf(icons: seq<Icon>, id: Text): nat {
    StartFrom(icons, id, 0)
  }

  /** The true place of the bytes for an id, when `before` precedes these icons in the pool, and its reference. */
  lemma {:induction false} PlaceInPool(icons: seq<Icon>, id: Text, before: seq<byte>)
    requires BytesOf(icons, id).Some?
    ensures var start, bytes := StartFrom(icons, id, |before|), BytesOf(icons, id).value;
      && |before| <= start && start + |bytes| <= |before + Pool(icons)|
      && (before + Pool(icons))[start..start + |bytes|] == bytes
      && RefFrom(icons, id, |before|) == Some(IconRef(Cast32(start), Cast32(|bytes|)))
  {
    var first, rest := icons[0], icons[1..];
    assert icons == [first] + rest;
    PoolPush(first, rest);
    AppendAssociates(before, first.bytes, Pool(rest));
    if first.id == id {
      assert (before + (first.bytes + Pool(rest)))[|before|..|before| + |first.bytes|] == first.bytes;
    } else {
      PlaceInPool(rest, id, before + first.bytes);
    }
  }

  lemma {:induction false} FirstUnknownIff(icons: seq<Icon>, credentials: seq<WalletCredential>)
    ensures match FirstUnknown(icons, credentials)
            case None => forall i :: 0 <= i < |credentials| ==> KnowsIcon(icons, credentials[i])
            case Some(c) =>
              exists i :: 0 <= i < |credentials| && credentials[i] == c && !KnowsIcon(icons, c)
                          && forall j :: 0 <= j < i ==> KnowsIcon(icons, credentials[j])
  {
    if credentials != [] && KnowsIcon(icons, credentials[0]) {
      var rest := credentials[1..];
      FirstUnknownIff(icons, rest);
      if FirstUnknown(icons, rest).Some? {
        var i :| 0 <= i < |rest| && rest[i] == FirstUnknown(icons, rest).value && !KnowsIcon(icons, rest[i])
                 && forall j :: 0 <= j < i ==> KnowsIcon(icons, rest[j]);
        assert credentials[i + 1] == rest[i];
        forall j | 0 <= j < i + 1 ensures KnowsIcon(icons, credentials[j]) {
          if j > 0 {
            assert credentials[j] == rest[j - 1];
          }
        }
      }
    }
  }

  predicate WasAdded(calls: seq<Call>, c: WalletCredential) {
    c.iconId.None? || LastAdded(calls, c.iconId.value).Some?
  }

  lemma KnownIsAdded(calls: seq<Call>, c: WalletCredential)
    ensures KnowsIcon(After(calls).icons, c) <==> WasAdded(calls, c)
  {
    if c.iconId.Some? {
      TableHoldsLastAdded(calls, c.iconId.value);
    }
  }

  /** Building fails exactly when some credential names an icon never added, and names the first that does. */
  lemma BuildFailsIff(calls: seq<Call>)
    ensures match BlobOf(After(calls))
            case Ok(_) => forall i :: 0 <= i < |AddedCredentials(calls)| ==> WasAdded(calls, AddedCredentials(calls)[i])
            case Err(UnknownIcon(credentialId, iconId)) =>
              exists i :: 0 <= i < |AddedCredentials(calls)| && !WasAdded(calls, AddedCredentials(calls)[i])
                && AddedCredentials(calls)[i].id == credentialId && AddedCredentials(calls)[i].iconId == Some(iconId)
                && forall j :: 0 <= j < i ==> WasAdded(calls, AddedCredentials(calls)[j])
  {
    hide WasAdded, KnowsIcon, BytesOf, LastAdded, AllStored;
    var s, credentials := After(calls), AddedCredentials(calls);
    TableHoldsLastAdded(calls, []);
    FirstUnknownIff(s.icons, credentials);
    forall i | 0 <= i < |credentials| ensures KnowsIcon(s.icons, credentials[i]) <==> WasAdded(calls, credentials[i]) {
      KnownIsAdded(calls, credentials[i]);
    }
    if FirstUnknown(s.icons, credentials).Some? {
      UnknownNames(s.icons, FirstUnknown(s.icons, credentials).value);
    }
  }

  lemma UnknownNames(icons: seq<Icon>, c: WalletCredential)
    requires !KnowsIcon(icons, c)
    ensures c.iconId.Some?
  {
  }

  predicate SameApartFromIcon(stored: Credential, c: WalletCredential) {
    && stored.id == c.id && stored.format == c.format && stored.doctype == c.doctype && stored.vct == c.vct
    && stored.title == c.title && stored.subtitle == c.subtitle && stored.claims == c.claims
  }

  /**
   * The matcher can address these bytes: there are none, or start and length fit 32 bits and the end fits the
   * reader's own `usize`, whose largest value is `most`.
   */
  predicate Addressable(start: nat, len: nat, most: nat) {
    len == 0 || (start < TWO_32 && len < TWO_32 && start + len <= most)
  }

  predicate IconIsAddressable(calls: seq<Call>, id: Text, most: nat) {
    match LastAdded(calls, id)
    case None => true
    case Some(bytes) => Addressable(StartOf(After(calls).icons, id), |bytes|, most)
  }

  /** A credential reads back the bytes last added under its icon id, when its own icon can be addressed. */
  lemma IconsReadBack(calls: seq<Call>, most: nat, i: nat)
    requires BlobOf(After(calls)).Ok? && i < |AddedCredentials(calls)| && TWO_32 - 1 <= most
    requires var c := AddedCredentials(calls)[i]; c.iconId.Some? ==> IconIsAddressable(calls, c.iconId.value, most)
    ensures var db, c := BlobOf(After(calls)).value, AddedCredentials(calls)[i];
      && |db.credentials| == |AddedCredentials(calls)|
      && SameApartFromIcon(db.credentials[i], c)
      && db.IconBytes(db.credentials[i], most) == if c.iconId.Some? then LastAdded(calls, c.iconId.value) else None
  {
    var s, c := After(calls), AddedCredentials(calls)[i];
    TableHoldsLastAdded(calls, if c.iconId.Some? then c.iconId.value else []);
    if c.iconId.Some? {
      var id := c.iconId.value;
      KnownWhenBuilt(s, i);
      AddressableIsRead(BlobOf(s).value, s.icons, BlobOf(s).value.credentials[i], id, most);
    }
  }

  lemma AddressableIsRead(db: Database, icons: seq<Icon>, c: Credential, id: Text, most: nat)
    requires db.icons == Pool(icons) && c.icon == RefOf(icons, id) && BytesOf(icons, id).Some? && TWO_32 - 1 <= most
    requires Addressable(StartOf(icons, id), |BytesOf(icons, id).value|, most)
    ensures db.IconBytes(c, most) == BytesOf(icons, id)
  {
    PlaceInPool(icons, id, []);
    assert [] + Pool(icons) == Pool(icons);
    var start, bytes := StartOf(icons, id), BytesOf(icons, id).value;
    assert Cast32(start) <= start;
    assert bytes == [] ==> Pool(icons)[Cast32(start)..Cast32(start)] == bytes;
  }

  lemma KnownWhenBuilt(s: State, i: nat)
    requires BlobOf(s).Ok? && i < |s.credentials|
    ensures KnowsIcon(s.icons, s.credentials[i])
  {
    FirstUnknownIff(s.icons, s.credentials);
  }

  /** Each id's bytes are stored once: the pool is the concatenation of the last bytes of every id, each once. */
  lemma EachIconStoredOnce(calls: seq<Call>, icon: Icon)
    ensures BlobOf(After(calls)).Ok? ==> BlobOf(After(calls)).value.icons == Pool(After(calls).icons)
    ensures UniqueIcons(After(calls).icons)
    ensures icon in After(calls).icons <==> LastAdded(calls, icon.id) == Some(icon.bytes)
  {
    TableHoldsLastAdded(calls, icon.id);
    MemberIsFound(After(calls).icons, icon);
  }

  lemma {:induction false} MemberIsFound(icons: seq<Icon>, icon: Icon)
    requires UniqueIcons(icons)
    ensures icon in icons <==> BytesOf(icons, icon.id) == Some(icon.bytes)
  {
    if icons == [] {
    } else {
      MemberIsFound(icons[1..], icon);
      if icon in icons[1..] {
        var i :| 0 <= i < |icons[1..]| && icons[1..][i] == icon;
        assert icons[i + 1] == icon;
      }
    }
  }

  // ---- icons past 32 bits --------------------------------------------------------------------------

  /** The same call, up to the contents of an icon. */
  predicate SameShapeCall(a: Call, b: Call) {
    match (a, b)
    case (IconAdded(x, p), IconAdded(y, q)) => x == y && |p| == |q|
    case _ => a == b
  }

  predicate SameShape(a: seq<Call>, b: seq<Call>) {
    |a| == |b| && forall i :: 0 <= i < |a| ==> SameShapeCall(a[i], b[i])
  }

  predicate SameLayout(a: seq<Icon>, b: seq<Icon>) {
    |a| == |b| && forall i :: 0 <= i < |a| ==> a[i].id == b[i].id && |a[i].bytes| == |b[i].bytes|
  }

  lemma {:induction false} WithoutKeepsLayout(a: seq<Icon>, b: seq<Icon>, id: Text)
    requires SameLayout(a, b)
    ensures SameLayout(Without(a, id), Without(b, id))
  {
    if a == [] {
    } else {
      WithoutKeepsLayout(a[1..], b[1..], id);
    }
  }

  /** Runs of one shape have the same credentials, and icons of the same lengths at the same places. */
  lemma {:induction false} ShapeGivesLayout(a: seq<Call>, b: seq<Call>)
    requires SameShape(a, b)
    ensures SameLayout(After(a).icons, After(b).icons) && After(a).credentials == After(b).credentials
  {
    if a == [] {
    } else {
      var last := |a| - 1;
      ShapeGivesLayout(a[..last], b[..last]);
      assert SameShapeCall(a[last], b[last]);
      if a[last].IconAdded? {
        WithoutKeepsLayout(After(a[..last]).icons, After(b[..last]).icons, a[last].id);
      }
    }
  }

  lemma {:induction false} LayoutGivesPlace(a: seq<Icon>, b: seq<Icon>, id: Text, start: nat)
    requires SameLayout(a, b)
    ensures StartFrom(a, id, start) == StartFrom(b, id, start)
    ensures BytesOf(a, id).Some? <==> BytesOf(b, id).Some?
    ensures BytesOf(a, id).Some? ==> |BytesOf(a, id).value| == |BytesOf(b, id).value|
  {
    if a == [] {
    } else {
      LayoutGivesPlace(a[1..], b[1..], id, start + |a[0].bytes|);
    }
  }

  lemma {:induction false} LayoutKeepsUnknown(a: seq<Icon>, b: seq<Icon>, credentials: seq<WalletCredential>)
    requires SameLayout(a, b)
    ensures FirstUnknown(a, credentials) == FirstUnknown(b, credentials)
  {
    if credentials == [] {
    } else {
      if credentials[0].iconId.Some? {
        LayoutGivesPlace(a, b, credentials[0].iconId.value, 0);
      }
      LayoutKeepsUnknown(a, b, credentials[1..]);
    }
  }

  /** A run of the same shape builds too, and has the icon at the same place. */
  lemma ShapeGivesPlace(a: seq<Call>, b: seq<Call>, id: Text)
    requires SameShape(a, b)
    ensures AddedCredentials(a) == AddedCredentials(b)
    ensures BlobOf(After(a)).Ok? <==> BlobOf(After(b)).Ok?
    ensures StartOf(After(a).icons, id) == StartOf(After(b).icons, id)
    ensures LastAdded(a, id).Some? <==> LastAdded(b, id).Some?
    ensures LastAdded(a, id).Some? ==> |LastAdded(a, id).value| == |LastAdded(b, id).value|
  {
    ShapeGivesLayout(a, b);
    LayoutGivesPlace(After(a).icons, After(b).icons, id, 0);
    LayoutKeepsUnknown(After(a).icons, After(b).icons, After(a).credentials);
    TableHoldsLastAdded(a, id);
    TableHoldsLastAdded(b, id);
  }

  // ---- a run that tells the icon from what precedes it

  function Paint(id: Text, other: Text): byte {
    if id == other then 1 else 0
  }

  function Painted(calls: seq<Call>, id: Text): seq<Call> {
    seq(|calls|, i requires 0 <= i < |calls| => PaintedCall(calls[i], id))
  }

  function PaintedCall(call: Call, id: Text): Call {
    match call
    case IconAdded(other, bytes) => IconAdded(other, seq(|bytes|, _ => Paint(id, other)))
    case _ => call
  }

  predicate IsPainted(icons: seq<Icon>, id: Text) {
    forall i, k :: 0 <= i < |icons| && 0 <= k < |icons[i].bytes| ==> icons[i].bytes[k] == Paint(id, icons[i].id)
  }

  lemma {:induction false} PaintedRun(calls: seq<Call>, id: Text)
    ensures SameShape(calls, Painted(calls, id)) && IsPainted(After(Painted(calls, id)).icons, id)
  {
    if calls == [] {
    } else {
      var last, painted := |calls| - 1, Painted(calls, id);
      PaintedRun(calls[..last], id);
      assert painted[..last] == Painted(calls[..last], id);
      var before := After(painted[..last]).icons;
      if calls[last].IconAdded? {
        TableHoldsLastAdded(painted[..last], id);
        WithoutIsUnique(before, calls[last].id);
        forall i | 0 <= i < |Without(before, calls[last].id)| ensures Without(before, calls[last].id)[i] in before {
        }
      }
    }
  }

  /** Before the icon there is only the other colour. */
  lemma {:induction false} PaintedBefore(icons: seq<Icon>, id: Text, before: seq<byte>, k: nat)
    requires IsPainted(icons, id) && BytesOf(icons, id).Some?
    requires forall j :: 0 <= j < |before| ==> before[j] == 0
    requires k < StartFrom(icons, id, |before|)
    ensures k < |before + Pool(icons)| && (before + Pool(icons))[k] == 0
  {
    var first, rest := icons[0], icons[1..];
    assert icons == [first] + rest;
    PoolPush(first, rest);
    AppendAssociates(before, first.bytes, Pool(rest));
    if first.id == id {
    } else {
      PaintedBefore(rest, id, before + first.bytes, k);
    }
  }

  ghost predicate ReadsItsIcon(calls: seq<Call>, most: nat, i: nat)
    requires BlobOf(After(calls)).Ok? && i < |AddedCredentials(calls)| && AddedCredentials(calls)[i].iconId.Some?
  {
    var db := BlobOf(After(calls)).value;
    && i < |db.credentials|
    && db.IconBytes(db.credentials[i], most) == LastAdded(calls, AddedCredentials(calls)[i].iconId.value)
  }

  /** An icon that cannot be addressed is misread, at the latest when it is painted. */
  lemma PaintedIsMisread(calls: seq<Call>, most: nat, i: nat, id: Text)
    requires BlobOf(After(calls)).Ok? && i < |AddedCredentials(calls)| && AddedCredentials(calls)[i].iconId == Some(id)
    requires !IconIsAddressable(calls, id, most) && IsPainted(After(calls).icons, id)
    ensures !ReadsItsIcon(calls, most, i)
  {
    var s := After(calls);
    TableHoldsLastAdded(calls, id);
    KnownWhenBuilt(s, i);
    PlaceInPool(s.icons, id, []);
    assert [] + Pool(s.icons) == Pool(s.icons);
    var start, bytes := StartOf(s.icons, id), BytesOf(s.icons, id).value;
    if start >= TWO_32 && |bytes| < TWO_32 {
      assert Cast32(start) + |bytes| <= start;
      MisreadAt(s.icons, id, start, bytes);
    }
  }

  /** The wrapped slice lies before the icon, so it has the other colour. */
  lemma MisreadAt(icons: seq<Icon>, id: Text, start: nat, bytes: seq<byte>)
    requires IsPainted(icons, id) && BytesOf(icons, id) == Some(bytes) && start == StartOf(icons, id)
    requires 0 < |bytes| && Cast32(start) + |bytes| <= start <= |Pool(icons)|
    ensures Pool(icons)[Cast32(start)..Cast32(start) + |bytes|] != bytes
  {
    assert [] + Pool(icons) == Pool(icons);
    PaintedBefore(icons, id, [], Cast32(start));
    BytesArePainted(icons, id);
    assert Pool(icons)[Cast32(start)..Cast32(start) + |bytes|][0] == 0;
  }

  lemma {:induction false} BytesArePainted(icons: seq<Icon>, id: Text)
    requires IsPainted(icons, id) && BytesOf(icons, id).Some?
    ensures forall k :: 0 <= k < |BytesOf(icons, id).value| ==> BytesOf(icons, id).value[k] == 1
  {
    if icons[0].id == id {
      assert forall k :: 0 <= k < |icons[0].bytes| ==> icons[0].bytes[k] == Paint(id, icons[0].id);
    } else {
      BytesArePainted(icons[1..], id);
    }
  }

  /**
   * A credential reads its icon back whatever the icons contain exactly when its icon can be addressed: from the
   * true start, the length and the reader's `usize` alone.
   */
  lemma IconReadsBackIff(calls: seq<Call>, most: nat, i: nat, id: Text)
    requires BlobOf(After(calls)).Ok? && i < |AddedCredentials(calls)| && AddedCredentials(calls)[i].iconId == Some(id)
    requires TWO_32 - 1 <= most
    ensures forall other :: SameShape(calls, other) ==>
              AddedCredentials(other) == AddedCredentials(calls) && BlobOf(After(other)).Ok?
    ensures IconIsAddressable(calls, id, most)
       <==> forall other :: SameShape(calls, other) ==> ReadsItsIcon(other, most, i)
  {
    hide Addressable, SameShape, ReadsItsIcon;
    forall other | SameShape(calls, other)
      ensures AddedCredentials(other) == AddedCredentials(calls) && BlobOf(After(other)).Ok?
      ensures IconIsAddressable(other, id, most) <==> IconIsAddressable(calls, id, most)
      ensures IconIsAddressable(calls, id, most) ==> ReadsItsIcon(other, most, i)
    {
      ShapeGivesPlace(calls, other, id);
      if IconIsAddressable(calls, id, most) {
        ReadsWhenAddressable(other, most, i, id);
      }
    }
    if !IconIsAddressable(calls, id, most) {
      PaintedRun(calls, id);
      PaintedIsMisread(Painted(calls, id), most, i, id);
    }
  }

  lemma ReadsWhenAddressable(calls: seq<Call>, most: nat, i: nat, id: Text)
    requires BlobOf(After(calls)).Ok? && i < |AddedCredentials(calls)| && AddedCredentials(calls)[i].iconId == Some(id)
    requires TWO_32 - 1 <= most && IconIsAddressable(calls, id, most)
    ensures ReadsItsIcon(calls, most, i)
  {
    IconsReadBack(calls, most, i);
  }

  /** For the 32-bit matcher: the icon is empty or ends within 2^32 - 1 bytes. */
  lemma AddressableIn32Bits(start: nat, len: nat)
    ensures Addressable(start, len, 0xFFFF_FFFF) <==> len == 0 || start + len <= 0xFFFF_FFFF
  {
  }

  /** An icon of 2^32 bytes is read back as no bytes at all. */
  lemma LargeIconReadsEmpty(id: Text, bytes: seq<byte>, c: WalletCredential, most: nat)
    requires |bytes| == 0x1_0000_0000 && c.iconId == Some(id)
    ensures var calls := [IconAdded(id, bytes), CredentialAdded(c)];
      && BlobOf(After(calls)).Ok?
      && LastAdded(calls, id) == Some(bytes)
      && BlobOf(After(calls)).value.IconBytes(BlobOf(After(calls)).value.credentials[0], most) == Some([])
  {
    var calls := [IconAdded(id, bytes), CredentialAdded(c)];
    assert calls[..1] == [IconAdded(id, bytes)] && calls[..1][..0] == [];
    assert After(calls[..1]).icons == [Icon(id, bytes)];
    assert After(calls) == State([c], [Icon(id, bytes)], false);
    assert LastAdded(calls[..1], id) == Some(bytes);
    assert RefOf([Icon(id, bytes)], id) == Some(IconRef(0, 0));
    assert KnowsIcon([Icon(id, bytes)], c) && FirstUnknown([Icon(id, bytes)], [c][1..]) == None;
  }

  /** The second of two icons, past the end of the 32-bit address space: a 32-bit reader finds nothing. */
  lemma IconPastTheEndIsLost(a: Icon, b: Icon, c: WalletCredential, most: nat)
    requires |a.bytes| == 0xFFFF_FFFF && |b.bytes| == 2 && a.id != b.id && c.iconId == Some(b.id)
    requires most >= TWO_32 - 1
    ensures var calls := [IconAdded(a.id, a.bytes), IconAdded(b.id, b.bytes), CredentialAdded(c)];
      && BlobOf(After(calls)).Ok? && LastAdded(calls, b.id) == Some(b.bytes)
      && |BlobOf(After(calls)).value.credentials| == 1
      && BlobOf(After(calls)).value.IconBytes(BlobOf(After(calls)).value.credentials[0], most)
         == if most > 0x1_0000_0000 then Some(b.bytes) else None
  {
    var calls := [IconAdded(a.id, a.bytes), IconAdded(b.id, b.bytes), CredentialAdded(c)];
    assert calls[..2] == [IconAdded(a.id, a.bytes), IconAdded(b.id, b.bytes)];
    assert calls[..2][..1] == [IconAdded(a.id, a.bytes)] && calls[..2][..1][..0] == [];
    assert After(calls[..2][..1]).icons == [a];
    assert After(calls[..2]).icons == [a, b] by {
      assert Without([a], b.id) == [a] + Without([], b.id);
    }
    assert After(calls) == State([c], [a, b], false);
    assert LastAdded(calls, b.id) == LastAdded(calls[..2], b.id);
    assert [a, b][1..] == [b] && BytesOf([a, b], b.id) == Some(b.bytes);
    assert KnowsIcon([a, b], c) && FirstUnknown([a, b], [c][1..]) == None;
    PlaceInPool([a, b], b.id, []);
    assert StartFrom([a, b], b.id, 0) == StartFrom([b], b.id, |a.bytes|) == |a.bytes|;
    assert [] + Pool([a, b]) == Pool([a, b]);
  }

  // ---- the builder ---------------------------------------------------------------------------------

  class SirosBlobBuilder {
    var credentials: seq<WalletCredential>
    var icons: seq<Icon>
    var debug: bool

    function Abstract(): State
      reads this
    {
      State(credentials, icons, debug)
    }

    ghost predicate Valid()
      reads this
    {
      UniqueIcons(icons)
    }

    constructor ()
      ensures Valid() && Abstract() == After([])
    {
      credentials := [];
      icons := [];
      debug := false;
    }

    method AddCredential(credential: WalletCredential)
      requires Valid()
      modifies this
      ensures Valid() && Abstract() == Applied(old(Abstract()), CredentialAdded(credential))
    {
      credentials := credentials + [credential];
    }

    /** Keeps the other icons, then adds this one. */
    method AddIcon(id: Text, bytes: seq<byte>)
      requires Valid()
      modifies this
      ensures Valid() && Abstract() == Applied(old(Abstract()), IconAdded(id, bytes))
    {
      AddedIsUnique(icons, Icon(id, bytes));
      var kept: seq<Icon> := [];
      for i := 0 to |icons|
        invariant Abstract() == old(Abstract())
        invariant kept + Without(icons[i..], id) == Without(icons, id)
      {
        assert icons[i..][1..] == icons[i + 1..];
        if icons[i].id != id {
          AppendAssociates(kept, [icons[i]], Without(icons[i + 1..], id));
          kept := kept + [icons[i]];
        } else {
          assert [] + Without(icons[i + 1..], id) == Without(icons[i + 1..], id);
        }
      }
      assert icons[|icons|..] == [] && Without(icons[|icons|..], id) == [] && kept + [] == kept;
      icons := kept + [Icon(id, bytes)];
    }

    method SetDebug(on: bool)
      requires Valid()
      modifies this
      ensures Valid() && Abstract() == Applied(old(Abstract()), DebugSet(on))
    {
      debug := on;
    }

    /** The pool, and where each icon lies in it. */
    method PoolIcons() returns (pool: seq<byte>, offsets: map<Text, IconRef>)
      requires Valid()
      ensures pool == Pool(icons)
      ensures Indexes(offsets, icons)
    {
      pool := [];
      offsets := map[];
      for i := 0 to |icons|
        invariant pool == Pool(icons[..i])
        invariant Indexes(offsets, icons[..i])
      {
        var icon := icons[i];
        TableStep(icons, i, offsets);
        offsets := offsets[icon.id := IconRef(Cast32(|pool|), Cast32(|icon.bytes|))];
        pool := pool + icon.bytes;
      }
      assert icons[..|icons|] == icons;
    }

    /** The blob, or the first credential whose icon was never added. */
    method Build() returns (blob: Result<Database, BlobError>)
      requires Valid()
      ensures blob == BlobOf(Abstract())
    {
      var pool, offsets := PoolIcons();
      var stored: seq<Credential> := [];
      for i := 0 to |credentials|
        invariant stored == AllStored(icons, credentials[..i])
        invariant FirstUnknown(icons, credentials) == FirstUnknown(icons, credentials[i..])
      {
        var c := credentials[i];
        RefIffBytes(icons, if c.iconId.Some? then c.iconId.value else [], 0);
        assert credentials[i..][0] == c && credentials[i..][1..] == credentials[i + 1..];
        var icon: Option<IconRef> := None;
        if c.iconId.Some? {
          assert RefOf(icons, c.iconId.value) == Lookup(offsets, c.iconId.value);
          if c.iconId.value !in offsets {
            return Err(UnknownIcon(c.id, c.iconId.value));
          }
          icon := Some(offsets[c.iconId.value]);
        }
        stored := stored + [Credential(
          c.id, c.format, c.doctype, c.vct, c.title, c.subtitle, icon, c.claims)];
        assert credentials[..i + 1] == credentials[..i] + [c];
      }
      assert credentials[..|credentials|] == credentials && credentials[|credentials|..] == [];
      blob := Ok(Database(debug, stored, pool));
    }
  }

  function Lookup(offsets: map<Text, IconRef>, id: Text): Option<IconRef> {
    if id in offsets then Some(offsets[id]) else None
  }

  /** The offsets are the references of the table. */
  ghost predicate Indexes(offsets: map<Text, IconRef>, icons: seq<Icon>) {
    forall id :: RefOf(icons, id) == Lookup(offsets, id)
  }

  /** One more icon in the table. */
  lemma TableStep(icons: seq<Icon>, i: nat, offsets: map<Text, IconRef>)
    requires UniqueIcons(icons) && i < |icons| && Indexes(offsets, icons[..i])
    ensures Pool(icons[..i + 1]) == Pool(icons[..i]) + icons[i].bytes
    ensures Indexes(offsets[icons[i].id := IconRef(Cast32(|Pool(icons[..i])|), Cast32(|icons[i].bytes|))], icons[..i + 1])
  {
    assert icons[..i + 1] == icons[..i] + [icons[i]];
    assert Parts(icons[..i + 1]) == Parts(icons[..i]) + [icons[i].bytes];
    ConcatPush(Parts(icons[..i]), icons[i].bytes);
    var grown := offsets[icons[i].id := IconRef(Cast32(|Pool(icons[..i])|), Cast32(|icons[i].bytes|))];
    forall id ensures RefOf(icons[..i + 1], id) == Lookup(grown, id) {
      assert RefOf(icons[..i], id) == Lookup(offsets, id);
      RefPush(icons[..i], icons[i], id, 0);
      RefIffBytes(icons[..i], id, 0);
    }
  }

  lemma {:induction false} RefPush(icons: seq<Icon>, icon: Icon, id: Text, start: nat)
    ensures RefFrom(icons + [icon], id, start)
         == if RefFrom(icons, id, start).Some? then RefFrom(icons, id, start)
            else if icon.id == id then Some(IconRef(Cast32(start + |Pool(icons)|), Cast32(|icon.bytes|)))
            else None
  {
    if icons == [] {
      assert [] + [icon] == [icon] && [icon][1..] == [];
    } else {
      assert (icons + [icon])[1..] == icons[1..] + [icon];
      assert icons == [icons[0]] + icons[1..];
      PoolPush(icons[0], icons[1..]);
      RefPush(icons[1..], icon, id, start + |icons[0].bytes|);
    }
  }
}
