/** Sending entry sets to the host: the calls in order, and what a whole trace of them keeps. */
module EntrySets {
  import opened Bytes
  import opened Wrappers
  import opened Sequences

  datatype VerificationDisplay = VerificationDisplay(
    icon: seq<byte>, title: Text, subtitle: Option<Text>, disclaimer: Option<Text>, warning: Option<Text>)

  datatype PaymentDisplay = PaymentDisplay(
    merchantName: Text, paymentMethodName: Text, paymentMethodSubtitle: Option<Text>, paymentMethodIcon: seq<byte>,
    transactionAmount: Text, bankIcon: Option<seq<byte>>, paymentProviderIcon: Option<seq<byte>>)

  /** Two kinds of entry, each added by calls of its own. */
  datatype Kind = Verification(display: VerificationDisplay) | Payment(payment: PaymentDisplay, additionalInfo: Option<Text>)

  datatype Field = Field(name: Text, value: Option<Text>)

  datatype Link = Link(secondaryDisclaimer: Text, urlDisplayText: Text, urlValue: Text)

  type Delegation = int

  datatype Entry = Entry(
    credId: Text, kind: Kind, data: Option<Text>, fields: seq<Field>,
    link: Option<Link>, displayText: Option<Text>, delegation: Option<Delegation>)

  datatype Slot = Slot(first: Entry, others: seq<Entry>)

  datatype EntrySet = EntrySet(id: Text, first: Slot, others: seq<Slot>)

  function Alternatives(slot: Slot): seq<Entry> {
    [slot.first] + slot.others
  }

  function Slots(entrySet: EntrySet): seq<Slot> {
    [entrySet.first] + entrySet.others
  }

  // ---- host calls --------------------------------------------------------------------------------

  /** The address of an entry in the trace; attachments repeat it. */
  datatype Key = Key(setId: Text, position: nat, credId: Text)

  /** The standard metadata object. */
  datatype Metadata = Metadata(displaySkipped: bool, hostLevel: nat, data: Option<Text>)

  datatype Call =
    | DeclareSet(id: Text, length: nat)
    | AddEntry(key: Key, display: VerificationDisplay, metadata: Metadata)
    | AddPayment(key: Key, payment: PaymentDisplay, metadata: Metadata)
    | AddPaymentV2(key: Key, payment: PaymentDisplay, info: Option<Text>, metadata: Metadata)
    | AddField(key: Key, field: Field)
    | AddDisplayText(key: Key, text: Text)
    | SetLink(key: Key, link: Link)
    | SetDelegation(key: Key, delegation: Delegation)

  /** The host level that provides a call. */
  function LevelOf(call: Call): nat {
    match call
    case AddPaymentV2(_, _, _, _) => 3
    case AddDisplayText(_, _) => 5
    case SetLink(_, _) => 6
    case SetDelegation(_, _) => 7
    case _ => 2
  }

  predicate Adds(call: Call) {
    call.AddEntry? || call.AddPayment? || call.AddPaymentV2?
  }

  // ---- one entry ----------------------------------------------------------------------------------

  /** Some text of the entry has no call at this level. */
  predicate DisplaySkipped(entry: Entry, level: nat) {
    || (entry.kind.Payment? && entry.kind.additionalInfo.Some? && level < 3)
    || (entry.displayText.Some? && level < 5)
    || (entry.link.Some? && level < 6)
  }

  function MetadataOf(entry: Entry, level: nat): Metadata {
    Metadata(DisplaySkipped(entry, level), level, entry.data)
  }

  function AddCall(entry: Entry, key: Key, level: nat): Call {
    match entry.kind
    case Verification(display) => AddEntry(key, display, MetadataOf(entry, level))
    case Payment(payment, info) =>
      if level >= 3 then AddPaymentV2(key, payment, info, MetadataOf(entry, level))
      else AddPayment(key, payment, MetadataOf(entry, level))
  }

  /** The entry's own delegation, else the host's default. */
  function DelegationCalls(entry: Entry, key: Key, level: nat, fallback: Option<Delegation>): seq<Call> {
    var delegation := if entry.delegation.Some? then entry.delegation else fallback;
    if delegation.Some? && level >= 7 then [SetDelegation(key, delegation.value)] else []
  }

  function LinkCalls(entry: Entry, key: Key, level: nat): seq<Call> {
    if entry.link.Some? && level >= 6 then [SetLink(key, entry.link.value)] else []
  }

  function FieldCalls(key: Key, fields: seq<Field>): seq<Call> {
    seq(|fields|, i requires 0 <= i < |fields| => AddField(key, fields[i]))
  }

  function TextCalls(entry: Entry, key: Key, level: nat): seq<Call> {
    if entry.displayText.Some? && level >= 5 then [AddDisplayText(key, entry.displayText.value)] else []
  }

  /** One entry as a list of calls: itself, then everything attached to it. */
  function Sent(entry: Entry, key: Key, level: nat, fallback: Option<Delegation>): seq<Call> {
    [AddCall(entry, key, level)] + DelegationCalls(entry, key, level, fallback) + LinkCalls(entry, key, level)
    + FieldCalls(key, entry.fields) + TextCalls(entry, key, level)
  }

  /** Text an entry carries beside its display. */
  datatype Extra = PaymentInfo(info: Text) | DisplayText(text: Text) | LinkText(link: Link)

  function Carried(entry: Entry): set<Extra> {
    (if entry.kind.Payment? && entry.kind.additionalInfo.Some? then {PaymentInfo(entry.kind.additionalInfo.value)} else {})
    + (if entry.displayText.Some? then {DisplayText(entry.displayText.value)} else {})
    + (if entry.link.Some? then {LinkText(entry.link.value)} else {})
  }

  predicate Shows(call: Call, extra: Extra) {
    match extra
    case PaymentInfo(info) => call.AddPaymentV2? && call.info == Some(info)
    case DisplayText(text) => call.AddDisplayText? && call.text == text
    case LinkText(link) => call.SetLink? && call.link == link
  }

  /** What a trace shows on the entry a key names. */
  ghost predicate ShownAt(trace: seq<Call>, key: Key, extra: Extra) {
    exists i :: 0 <= i < |trace| && !trace[i].DeclareSet? && trace[i].key == key && Shows(trace[i], extra)
  }

  lemma SentIff(entry: Entry, key: Key, level: nat, fallback: Option<Delegation>, call: Call)
    ensures call in Sent(entry, key, level, fallback) <==>
      || call == AddCall(entry, key, level)
      || call in DelegationCalls(entry, key, level, fallback)
      || call in LinkCalls(entry, key, level)
      || call in FieldCalls(key, entry.fields)
      || call in TextCalls(entry, key, level)
  {
  }

  lemma InFieldCalls(key: Key, fields: seq<Field>, call: Call)
    ensures call in FieldCalls(key, fields) ==> call.AddField? && call.key == key
  {
  }

  /** The level at which an extra is shown. */
  function ExtraLevel(extra: Extra): nat {
    match extra
    case PaymentInfo(_) => 3
    case DisplayText(_) => 5
    case LinkText(_) => 6
  }

  /** An extra the entry carries is sent exactly when the host's level provides its call. */
  lemma ExtraIsSentIff(entry: Entry, key: Key, level: nat, fallback: Option<Delegation>, extra: Extra)
    requires extra in Carried(entry)
    ensures ShownAt(Sent(entry, key, level, fallback), key, extra) <==> level >= ExtraLevel(extra)
  {
    hide Sent;
    var calls := Sent(entry, key, level, fallback);
    if i :| 0 <= i < |calls| && !calls[i].DeclareSet? && calls[i].key == key && Shows(calls[i], extra) {
      SentIff(entry, key, level, fallback, calls[i]);
      InFieldCalls(key, entry.fields, calls[i]);
    }
    if level >= ExtraLevel(extra) {
      var call := match extra
        case PaymentInfo(_) => AddCall(entry, key, level)
        case DisplayText(text) => AddDisplayText(key, text)
        case LinkText(link) => SetLink(key, link);
      SentIff(entry, key, level, fallback, call);
      assert call in calls && Shows(call, extra);
    }
  }

  /**
   * One entry, call by call: added by the call of its kind and level with its metadata, then its own delegation or
   * the host's, its link, its fields in order and its text, each from the level that provides the call.
   */
  lemma EntryIsSent(entry: Entry, key: Key, level: nat, fallback: Option<Delegation>)
    ensures var metadata := Metadata(exists extra :: extra in Carried(entry) && level < ExtraLevel(extra), level, entry.data);
      var delegation := if entry.delegation.Some? then entry.delegation else fallback;
      Sent(entry, key, level, fallback) ==
        [match entry.kind
         case Verification(display) => AddEntry(key, display, metadata)
         case Payment(payment, info) =>
           if level < 3 then AddPayment(key, payment, metadata) else AddPaymentV2(key, payment, info, metadata)]
        + (if delegation.Some? && level >= 7 then [SetDelegation(key, delegation.value)] else [])
        + (if entry.link.Some? && level >= 6 then [SetLink(key, entry.link.value)] else [])
        + seq(|entry.fields|, i requires 0 <= i < |entry.fields| => AddField(key, entry.fields[i]))
        + (if entry.displayText.Some? && level >= 5 then [AddDisplayText(key, entry.displayText.value)] else [])
  {
    SkippedIff(entry, level);
    assert FieldCalls(key, entry.fields) == seq(|entry.fields|, i requires 0 <= i < |entry.fields| => AddField(key, entry.fields[i]));
  }

  lemma SkippedIff(entry: Entry, level: nat)
    ensures DisplaySkipped(entry, level) <==> exists extra :: extra in Carried(entry) && level < ExtraLevel(extra)
  {
    if entry.kind.Payment? && entry.kind.additionalInfo.Some? {
      assert PaymentInfo(entry.kind.additionalInfo.value) in Carried(entry);
    }
    if entry.displayText.Some? {
      assert DisplayText(entry.displayText.value) in Carried(entry);
    }
    if entry.link.Some? {
      assert LinkText(entry.link.value) in Carried(entry);
    }
  }

  /** Entry sets came with level 2, payment information with 3, texts with 5, links with 6, delegations with 7. */
  lemma CallLevels(call: Call)
    ensures LevelOf(call) == 2 <==> call.DeclareSet? || call.AddEntry? || call.AddPayment? || call.AddField?
    ensures call.AddPaymentV2? <==> LevelOf(call) == 3
    ensures call.AddDisplayText? <==> LevelOf(call) == 5
    ensures call.SetLink? <==> LevelOf(call) == 6
    ensures call.SetDelegation? <==> LevelOf(call) == 7
  {
  }

  // ---- one set ------------------------------------------------------------------------------------

  function KeyOf(entrySet: EntrySet, position: nat, entry: Entry): Key {
    Key(entrySet.id, position, entry.credId)
  }

  function EntriesSent(
    entrySet: EntrySet, position: nat, entries: seq<Entry>, level: nat, fallback: Option<Delegation>
  ): seq<seq<Call>> {
    seq(|entries|, k requires 0 <= k < |entries| => Sent(entries[k], KeyOf(entrySet, position, entries[k]), level, fallback))
  }

  function SlotCalls(entrySet: EntrySet, position: nat, slot: Slot, level: nat, fallback: Option<Delegation>): seq<Call> {
    Concat(EntriesSent(entrySet, position, Alternatives(slot), level, fallback))
  }

  function SlotsSent(entrySet: EntrySet, slots: seq<Slot>, level: nat, fallback: Option<Delegation>): seq<seq<Call>> {
    seq(|slots|, p requires 0 <= p < |slots| => SlotCalls(entrySet, p, slots[p], level, fallback))
  }

  /** The declaration, then every alternative of every slot in position order. */
  function SetCalls(entrySet: EntrySet, level: nat, fallback: Option<Delegation>): seq<Call> {
    [DeclareSet(entrySet.id, |Slots(entrySet)|)] + Concat(SlotsSent(entrySet, Slots(entrySet), level, fallback))
  }

  function SetsSent(sets: seq<EntrySet>, level: nat, fallback: Option<Delegation>): seq<seq<Call>> {
    seq(|sets|, i requires 0 <= i < |sets| => SetCalls(sets[i], level, fallback))
  }

  /** The whole trace of an invocation that sends these sets. */
  function Trace(sets: seq<EntrySet>, level: nat, fallback: Option<Delegation>): seq<Call> {
    Concat(SetsSent(sets, level, fallback))
  }

  /** An alternative of a set, and where it stands. */
  ghost predicate StandsAt(entrySet: EntrySet, position: nat, k: nat, entry: Entry) {
    && position < |Slots(entrySet)| && k < |Alternatives(Slots(entrySet)[position])|
    && Alternatives(Slots(entrySet)[position])[k] == entry
  }

  ghost predicate SentFor(entrySet: EntrySet, position: nat, k: nat, entry: Entry, level: nat, fallback: Option<Delegation>, call: Call) {
    StandsAt(entrySet, position, k, entry) && call in Sent(entry, KeyOf(entrySet, position, entry), level, fallback)
  }

  lemma InSlotCalls(entrySet: EntrySet, position: nat, slot: Slot, level: nat, fallback: Option<Delegation>, call: Call)
    ensures call in SlotCalls(entrySet, position, slot, level, fallback) <==>
      exists k :: 0 <= k < |Alternatives(slot)|
        && call in Sent(Alternatives(slot)[k], KeyOf(entrySet, position, Alternatives(slot)[k]), level, fallback)
  {
    hide Sent, Alternatives;
    var parts := EntriesSent(entrySet, position, Alternatives(slot), level, fallback);
    InConcat(parts, call);
    if k :| 0 <= k < |Alternatives(slot)|
            && call in Sent(Alternatives(slot)[k], KeyOf(entrySet, position, Alternatives(slot)[k]), level, fallback) {
      assert call in parts[k];
    }
  }

  /** Every call of a set but its declaration sends one of its entries. */
  lemma InSetCalls(entrySet: EntrySet, level: nat, fallback: Option<Delegation>, call: Call)
    ensures call in SetCalls(entrySet, level, fallback) <==>
      || call == DeclareSet(entrySet.id, |Slots(entrySet)|)
      || exists p: nat, k: nat, entry :: SentFor(entrySet, p, k, entry, level, fallback, call)
  {
    hide Sent, Alternatives, SlotCalls, Slots;
    var slots := Slots(entrySet);
    var parts := SlotsSent(entrySet, slots, level, fallback);
    InConcat(parts, call);
    if p :| 0 <= p < |parts| && call in parts[p] {
      InSlotCalls(entrySet, p, slots[p], level, fallback, call);
      var k :| 0 <= k < |Alternatives(slots[p])|
        && call in Sent(Alternatives(slots[p])[k], KeyOf(entrySet, p, Alternatives(slots[p])[k]), level, fallback);
      assert SentFor(entrySet, p, k, Alternatives(slots[p])[k], level, fallback, call);
    }
    if p: nat, k: nat, entry :| SentFor(entrySet, p, k, entry, level, fallback, call) {
      InSlotCalls(entrySet, p, slots[p], level, fallback, call);
      assert call in parts[p];
    }
  }

  lemma SentIsKeyed(entry: Entry, key: Key, level: nat, fallback: Option<Delegation>, call: Call)
    requires call in Sent(entry, key, level, fallback) && level >= 2
    ensures !call.DeclareSet? && call.key == key && LevelOf(call) <= level
    ensures Adds(call) <==> call == AddCall(entry, key, level)
  {
    hide Sent;
    SentIff(entry, key, level, fallback, call);
    InFieldCalls(key, entry.fields, call);
  }

  // ---- what a trace keeps -----------------------------------------------------------------------------

  ghost predicate WithinLevel(trace: seq<Call>, level: nat) {
    forall i :: 0 <= i < |trace| ==> LevelOf(trace[i]) <= level
  }

  /** No set id is declared twice. */
  ghost predicate DeclaredOnce(trace: seq<Call>) {
    forall i, j :: 0 <= i < j < |trace| && trace[i].DeclareSet? && trace[j].DeclareSet? ==> trace[i].id != trace[j].id
  }

  ghost predicate AddedBefore(trace: seq<Call>, i: nat, key: Key) {
    exists j :: 0 <= j < i && j < |trace| && Adds(trace[j]) && trace[j].key == key
  }

  /** Fields, links, delegations and texts come after the entry they attach to. */
  ghost predicate AttachesToEarlier(trace: seq<Call>) {
    forall i :: 0 <= i < |trace| && !trace[i].DeclareSet? && !Adds(trace[i]) ==> AddedBefore(trace, i, trace[i].key)
  }

  ghost predicate DeclaredBefore(trace: seq<Call>, i: nat, key: Key) {
    exists j :: 0 <= j < i && j < |trace| && trace[j].DeclareSet? && trace[j].id == key.setId && key.position < trace[j].length
  }

  /** Every entry stands at a position of a set declared before it. */
  ghost predicate InDeclaredSets(trace: seq<Call>) {
    forall i :: 0 <= i < |trace| && !trace[i].DeclareSet? ==> DeclaredBefore(trace, i, trace[i].key)
  }

  ghost predicate FilledAt(trace: seq<Call>, id: Text, position: nat) {
    exists j :: 0 <= j < |trace| && Adds(trace[j]) && trace[j].key.setId == id && trace[j].key.position == position
  }

  /** Every position of every declared set has an entry. */
  ghost predicate Filled(trace: seq<Call>) {
    forall i, p: nat :: 0 <= i < |trace| && trace[i].DeclareSet? && p < trace[i].length ==> FilledAt(trace, trace[i].id, p)
  }

  ghost predicate WellFormed(trace: seq<Call>, level: nat) {
    WithinLevel(trace, level) && AttachesToEarlier(trace) && InDeclaredSets(trace) && Filled(trace)
  }

  lemma AddedBeforeAppend(a: seq<Call>, b: seq<Call>, i: nat, key: Key)
    ensures AddedBefore(a, i, key) ==> AddedBefore(a + b, i, key)
    ensures AddedBefore(b, i, key) ==> AddedBefore(a + b, |a| + i, key)
    ensures DeclaredBefore(a, i, key) ==> DeclaredBefore(a + b, i, key)
    ensures DeclaredBefore(b, i, key) ==> DeclaredBefore(a + b, |a| + i, key)
  {
    var t := a + b;
    if AddedBefore(a, i, key) {
      var j :| 0 <= j < i && j < |a| && Adds(a[j]) && a[j].key == key;
      assert t[j] == a[j];
    }
    if AddedBefore(b, i, key) {
      var j :| 0 <= j < i && j < |b| && Adds(b[j]) && b[j].key == key;
      assert t[|a| + j] == b[j];
    }
    if DeclaredBefore(a, i, key) {
      var j :| 0 <= j < i && j < |a| && a[j].DeclareSet? && a[j].id == key.setId && key.position < a[j].length;
      assert t[j] == a[j];
    }
    if DeclaredBefore(b, i, key) {
      var j :| 0 <= j < i && j < |b| && b[j].DeclareSet? && b[j].id == key.setId && key.position < b[j].length;
      assert t[|a| + j] == b[j];
    }
  }

  lemma FilledAtAppend(a: seq<Call>, b: seq<Call>, id: Text, position: nat)
    ensures FilledAt(a, id, position) || FilledAt(b, id, position) ==> FilledAt(a + b, id, position)
  {
    var t := a + b;
    if j :| 0 <= j < |a| && Adds(a[j]) && a[j].key.setId == id && a[j].key.position == position {
      assert t[j] == a[j];
    }
    if j :| 0 <= j < |b| && Adds(b[j]) && b[j].key.setId == id && b[j].key.position == position {
      assert t[|a| + j] == b[j];
    }
  }

  lemma AttachesAppend(a: seq<Call>, b: seq<Call>)
    requires AttachesToEarlier(a) && AttachesToEarlier(b)
    ensures AttachesToEarlier(a + b)
  {
    hide AddedBefore, DeclaredBefore;
    var t := a + b;
    forall i | 0 <= i < |t| && !t[i].DeclareSet? && !Adds(t[i]) ensures AddedBefore(t, i, t[i].key) {
      if i < |a| {
        AddedBeforeAppend(a, b, i, t[i].key);
      } else {
        AddedBeforeAppend(a, b, i - |a|, t[i].key);
      }
    }
  }

  lemma WellFormedAppend(a: seq<Call>, b: seq<Call>, level: nat)
    requires WellFormed(a, level) && WellFormed(b, level)
    ensures WellFormed(a + b, level)
  {
    hide AddedBefore, DeclaredBefore, FilledAt, LevelOf;
    var t := a + b;
    AttachesAppend(a, b);
    forall i | 0 <= i < |t| && !t[i].DeclareSet? ensures DeclaredBefore(t, i, t[i].key) {
      if i < |a| {
        AddedBeforeAppend(a, b, i, t[i].key);
      } else {
        AddedBeforeAppend(a, b, i - |a|, t[i].key);
      }
    }
    forall i, p: nat | 0 <= i < |t| && t[i].DeclareSet? && p < t[i].length ensures FilledAt(t, t[i].id, p) {
      FilledAtAppend(a, b, t[i].id, p);
    }
  }

  lemma {:induction false} AttachesConcat(parts: seq<seq<Call>>)
    requires forall i :: 0 <= i < |parts| ==> AttachesToEarlier(parts[i])
    ensures AttachesToEarlier(Concat(parts))
  {
    if parts == [] {
    } else {
      AttachesConcat(parts[1..]);
      AttachesAppend(parts[0], Concat(parts[1..]));
    }
  }

  lemma SentAttaches(entry: Entry, key: Key, level: nat, fallback: Option<Delegation>)
    requires level >= 2
    ensures AttachesToEarlier(Sent(entry, key, level, fallback))
  {
    var calls := Sent(entry, key, level, fallback);
    assert calls[0] == AddCall(entry, key, level);
    hide Sent;
    forall i | 0 <= i < |calls| && !calls[i].DeclareSet? && !Adds(calls[i]) ensures AddedBefore(calls, i, calls[i].key) {
      SentIsKeyed(entry, key, level, fallback, calls[i]);
      assert Adds(calls[0]) && calls[0].key == key && i > 0;
    }
  }

  lemma SlotAttaches(entrySet: EntrySet, position: nat, slot: Slot, level: nat, fallback: Option<Delegation>)
    requires level >= 2
    ensures AttachesToEarlier(SlotCalls(entrySet, position, slot, level, fallback))
  {
    hide Sent, AttachesToEarlier;
    var entries := Alternatives(slot);
    var parts := EntriesSent(entrySet, position, entries, level, fallback);
    forall k | 0 <= k < |parts| ensures AttachesToEarlier(parts[k]) {
      SentAttaches(entries[k], KeyOf(entrySet, position, entries[k]), level, fallback);
    }
    AttachesConcat(parts);
  }

  lemma SetAttaches(entrySet: EntrySet, level: nat, fallback: Option<Delegation>)
    requires level >= 2
    ensures AttachesToEarlier(SetCalls(entrySet, level, fallback))
  {
    hide SlotCalls;
    var parts := SlotsSent(entrySet, Slots(entrySet), level, fallback);
    forall p | 0 <= p < |parts| ensures AttachesToEarlier(parts[p]) {
      SlotAttaches(entrySet, p, Slots(entrySet)[p], level, fallback);
    }
    AttachesConcat(parts);
    AttachesAppend([DeclareSet(entrySet.id, |Slots(entrySet)|)], Concat(parts));
  }

  lemma SetCallIsKeyed(entrySet: EntrySet, level: nat, fallback: Option<Delegation>, call: Call)
    requires call in SetCalls(entrySet, level, fallback) && level >= 2
    ensures LevelOf(call) <= level
    ensures call.DeclareSet? ==> call == DeclareSet(entrySet.id, |Slots(entrySet)|)
    ensures !call.DeclareSet? ==> call.key.setId == entrySet.id && call.key.position < |Slots(entrySet)|
  {
    hide SetCalls, Sent;
    InSetCalls(entrySet, level, fallback, call);
    if call != DeclareSet(entrySet.id, |Slots(entrySet)|) {
      var p: nat, k: nat, entry :| SentFor(entrySet, p, k, entry, level, fallback, call);
      SentIsKeyed(entry, KeyOf(entrySet, p, entry), level, fallback, call);
    }
  }

  lemma SlotIsFilled(entrySet: EntrySet, level: nat, fallback: Option<Delegation>, p: nat)
    requires p < |Slots(entrySet)|
    ensures FilledAt(SetCalls(entrySet, level, fallback), entrySet.id, p)
  {
    hide SetCalls, Sent;
    var entry := Slots(entrySet)[p].first;
    var call := AddCall(entry, KeyOf(entrySet, p, entry), level);
    SentIff(entry, KeyOf(entrySet, p, entry), level, fallback, call);
    assert SentFor(entrySet, p, 0, entry, level, fallback, call);
    InSetCalls(entrySet, level, fallback, call);
    assert call in SetCalls(entrySet, level, fallback) && Adds(call);
  }

  /** One set's calls: its declaration first, every position filled, each extra after its entry, nothing above the level. */
  lemma SetIsWellFormed(entrySet: EntrySet, level: nat, fallback: Option<Delegation>)
    requires level >= 2
    ensures WellFormed(SetCalls(entrySet, level, fallback), level)
    ensures SetCalls(entrySet, level, fallback)[0] == DeclareSet(entrySet.id, |Slots(entrySet)|)
    ensures forall i :: 1 <= i < |SetCalls(entrySet, level, fallback)| ==> !SetCalls(entrySet, level, fallback)[i].DeclareSet?
  {
    var calls := SetCalls(entrySet, level, fallback);
    assert calls[0] == DeclareSet(entrySet.id, |Slots(entrySet)|);
    OneDeclaration(entrySet, level, fallback);
    SetAttaches(entrySet, level, fallback);
    hide SetCalls, Sent, FilledAt, AddedBefore;
    forall i | 0 <= i < |calls| ensures LevelOf(calls[i]) <= level {
      SetCallIsKeyed(entrySet, level, fallback, calls[i]);
    }
    forall i | 0 <= i < |calls| && !calls[i].DeclareSet? ensures DeclaredBefore(calls, i, calls[i].key) {
      SetCallIsKeyed(entrySet, level, fallback, calls[i]);
      assert calls[0].DeclareSet?;
    }
    forall i, p: nat | 0 <= i < |calls| && calls[i].DeclareSet? && p < calls[i].length ensures FilledAt(calls, calls[i].id, p) {
      SetCallIsKeyed(entrySet, level, fallback, calls[i]);
      SlotIsFilled(entrySet, level, fallback, p);
    }
  }

  lemma OneDeclaration(entrySet: EntrySet, level: nat, fallback: Option<Delegation>)
    requires level >= 2
    ensures forall i :: 1 <= i < |SetCalls(entrySet, level, fallback)| ==> !SetCalls(entrySet, level, fallback)[i].DeclareSet?
  {
    hide SlotCalls;
    var slots := Slots(entrySet);
    var parts := SlotsSent(entrySet, slots, level, fallback);
    forall call: Call | call in Concat(parts) ensures !call.DeclareSet? {
      InConcat(parts, call);
      var p :| 0 <= p < |parts| && call in parts[p];
      InSlotCalls(entrySet, p, slots[p], level, fallback, call);
      var k :| 0 <= k < |Alternatives(slots[p])|
        && call in Sent(Alternatives(slots[p])[k], KeyOf(entrySet, p, Alternatives(slots[p])[k]), level, fallback);
      SentIsKeyed(Alternatives(slots[p])[k], KeyOf(entrySet, p, Alternatives(slots[p])[k]), level, fallback, call);
    }
    var calls := SetCalls(entrySet, level, fallback);
    forall i | 1 <= i < |calls| ensures !calls[i].DeclareSet? {
      assert calls[i] == Concat(parts)[i - 1];
    }
  }

  // ---- the whole trace ----------------------------------------------------------------------------------

  ghost predicate DistinctIds(sets: seq<EntrySet>) {
    forall i, j :: 0 <= i < j < |sets| ==> sets[i].id != sets[j].id
  }

  lemma TraceSplits(sets: seq<EntrySet>, level: nat, fallback: Option<Delegation>)
    requires sets != []
    ensures Trace(sets, level, fallback) == SetCalls(sets[0], level, fallback) + Trace(sets[1..], level, fallback)
  {
    assert SetsSent(sets, level, fallback)[1..] == SetsSent(sets[1..], level, fallback);
  }

  lemma {:induction false} TraceIsWellFormed(sets: seq<EntrySet>, level: nat, fallback: Option<Delegation>)
    requires level >= 2
    ensures WellFormed(Trace(sets, level, fallback), level)
  {
    if sets == [] {
      assert Trace(sets, level, fallback) == [];
    } else {
      hide WellFormed, SetCalls, Trace;
      TraceSplits(sets, level, fallback);
      SetIsWellFormed(sets[0], level, fallback);
      TraceIsWellFormed(sets[1..], level, fallback);
      WellFormedAppend(SetCalls(sets[0], level, fallback), Trace(sets[1..], level, fallback), level);
    }
  }

  lemma {:induction false} DeclaredIff(sets: seq<EntrySet>, level: nat, fallback: Option<Delegation>, id: Text)
    requires level >= 2
    ensures (exists c :: c in Trace(sets, level, fallback) && c.DeclareSet? && c.id == id)
       <==> exists i :: 0 <= i < |sets| && sets[i].id == id
  {
    if sets == [] {
      assert Trace(sets, level, fallback) == [];
    } else {
      hide SetCalls, Trace;
      TraceSplits(sets, level, fallback);
      DeclaredIff(sets[1..], level, fallback, id);
      SetIsWellFormed(sets[0], level, fallback);
      assert SetCalls(sets[0], level, fallback)[0] in Trace(sets, level, fallback);
      if i :| 0 <= i < |sets[1..]| && sets[1..][i].id == id {
        assert sets[i + 1].id == id;
      }
      if i :| 0 <= i < |sets| && sets[i].id == id {
        if i > 0 {
          assert sets[1..][i - 1].id == id;
        } else {
          assert SetCalls(sets[0], level, fallback)[0].id == id;
        }
      }
    }
  }

  /** One declaration at the front, and the rest after it. */
  lemma DeclaredOnceAppend(a: seq<Call>, b: seq<Call>)
    requires a != [] && a[0].DeclareSet? && forall i :: 1 <= i < |a| ==> !a[i].DeclareSet?
    ensures DeclaredOnce(a + b) <==> DeclaredOnce(b) && forall j :: 0 <= j < |b| && b[j].DeclareSet? ==> b[j].id != a[0].id
  {
    var t := a + b;
    assert forall j :: 0 <= j < |b| ==> t[|a| + j] == b[j];
    assert t[0] == a[0];
    if DeclaredOnce(t) {
      forall j | 0 <= j < |b| && b[j].DeclareSet? ensures b[j].id != a[0].id {
        assert t[|a| + j] == b[j];
      }
      forall i, j | 0 <= i < j < |b| && b[i].DeclareSet? && b[j].DeclareSet? ensures b[i].id != b[j].id {
        assert t[|a| + i] == b[i] && t[|a| + j] == b[j];
      }
    }
    if DeclaredOnce(b) && forall j :: 0 <= j < |b| && b[j].DeclareSet? ==> b[j].id != a[0].id {
      forall i, j | 0 <= i < j < |t| && t[i].DeclareSet? && t[j].DeclareSet? ensures t[i].id != t[j].id {
        assert j >= |a| && t[j] == b[j - |a|];
        if i >= |a| {
          assert t[i] == b[i - |a|];
        }
      }
    }
  }

  lemma DistinctSplits(sets: seq<EntrySet>)
    requires sets != []
    ensures DistinctIds(sets) <==>
      DistinctIds(sets[1..]) && forall i :: 0 <= i < |sets[1..]| ==> sets[1..][i].id != sets[0].id
  {
    var rest := sets[1..];
    assert forall i :: 0 <= i < |rest| ==> rest[i] == sets[i + 1];
    if DistinctIds(rest) && forall i :: 0 <= i < |rest| ==> rest[i].id != sets[0].id {
      forall i, j | 0 <= i < j < |sets| ensures sets[i].id != sets[j].id {
        assert sets[j] == rest[j - 1];
        if i > 0 {
          assert sets[i] == rest[i - 1];
        }
      }
    }
  }

  /** The host sees every set id at most once exactly when the matcher's sets have distinct ids. */
  lemma {:induction false} DeclaredOnceIff(sets: seq<EntrySet>, level: nat, fallback: Option<Delegation>)
    requires level >= 2
    ensures DeclaredOnce(Trace(sets, level, fallback)) <==> DistinctIds(sets)
  {
    if sets == [] {
      assert Trace(sets, level, fallback) == [];
    } else {
      hide SetCalls, Trace, DeclaredOnce, DistinctIds;
      var a, b := SetCalls(sets[0], level, fallback), Trace(sets[1..], level, fallback);
      TraceSplits(sets, level, fallback);
      SetIsWellFormed(sets[0], level, fallback);
      DeclaredOnceIff(sets[1..], level, fallback);
      DeclaredIff(sets[1..], level, fallback, sets[0].id);
      DeclaredOnceAppend(a, b);
      DistinctSplits(sets);
    }
  }

  // ---- what the metadata says about the trace ---------------------------------------------------------------

  /** The alternatives of each slot have distinct credential ids, as the host asks. */
  ghost predicate DistinctAlternatives(entrySet: EntrySet) {
    forall p, i, j :: 0 <= p < |Slots(entrySet)| && 0 <= i < j < |Alternatives(Slots(entrySet)[p])| ==>
      Alternatives(Slots(entrySet)[p])[i].credId != Alternatives(Slots(entrySet)[p])[j].credId
  }

  lemma InTrace(sets: seq<EntrySet>, level: nat, fallback: Option<Delegation>, call: Call)
    ensures call in Trace(sets, level, fallback) <==>
      exists i :: 0 <= i < |sets| && call in SetCalls(sets[i], level, fallback)
  {
    hide SetCalls;
    var parts := SetsSent(sets, level, fallback);
    InConcat(parts, call);
    if i :| 0 <= i < |sets| && call in SetCalls(sets[i], level, fallback) {
      assert call in parts[i];
    }
  }

  /** A call at an entry's key sends that entry. */
  lemma CallBelongsTo(
    sets: seq<EntrySet>, level: nat, fallback: Option<Delegation>, i: nat, p: nat, k: nat, entry: Entry, call: Call
  )
    requires level >= 2 && DistinctIds(sets) && i < |sets| && DistinctAlternatives(sets[i]) && StandsAt(sets[i], p, k, entry)
    requires call in Trace(sets, level, fallback) && !call.DeclareSet? && call.key == KeyOf(sets[i], p, entry)
    ensures call in Sent(entry, call.key, level, fallback)
  {
    hide Trace, SetCalls, Sent, Slots, Alternatives;
    InTrace(sets, level, fallback, call);
    var j :| 0 <= j < |sets| && call in SetCalls(sets[j], level, fallback);
    InSetCalls(sets[j], level, fallback, call);
    var q: nat, m: nat, other :| SentFor(sets[j], q, m, other, level, fallback, call);
    SentIsKeyed(other, KeyOf(sets[j], q, other), level, fallback, call);
    assert i == j && p == q;
    assert m == k;
  }

  lemma SentIsInTrace(
    sets: seq<EntrySet>, level: nat, fallback: Option<Delegation>, i: nat, p: nat, k: nat, entry: Entry, call: Call
  )
    requires i < |sets| && StandsAt(sets[i], p, k, entry)
    requires call in Sent(entry, KeyOf(sets[i], p, entry), level, fallback)
    ensures call in Trace(sets, level, fallback)
  {
    hide Trace, SetCalls, Sent, Slots, Alternatives;
    assert SentFor(sets[i], p, k, entry, level, fallback, call);
    InSetCalls(sets[i], level, fallback, call);
    InTrace(sets, level, fallback, call);
  }

  ghost predicate SomethingIsMissing(trace: seq<Call>, key: Key, entry: Entry) {
    exists extra :: extra in Carried(entry) && !ShownAt(trace, key, extra)
  }

  /**
   * `display_skipped`, which the wallet receives with a selection, is true exactly when some text the entry
   * carries is shown on it nowhere in the whole trace.
   */
  lemma DisplaySkippedIff(
    sets: seq<EntrySet>, level: nat, fallback: Option<Delegation>, i: nat, p: nat, k: nat, entry: Entry
  )
    requires level >= 2 && DistinctIds(sets) && i < |sets| && DistinctAlternatives(sets[i]) && StandsAt(sets[i], p, k, entry)
    ensures DisplaySkipped(entry, level) <==> SomethingIsMissing(Trace(sets, level, fallback), KeyOf(sets[i], p, entry), entry)
  {
    hide Trace, Sent, ShownAt, DistinctIds, DistinctAlternatives, StandsAt;
    var trace, key := Trace(sets, level, fallback), KeyOf(sets[i], p, entry);
    forall extra | extra in Carried(entry) ensures ShownAt(trace, key, extra) <==> level >= ExtraLevel(extra) {
      ExtraIsSentIff(entry, key, level, fallback, extra);
      ShownInTraceIff(sets, level, fallback, i, p, k, entry, extra);
    }
    if DisplaySkipped(entry, level) {
      var extra :=
        if entry.kind.Payment? && entry.kind.additionalInfo.Some? && level < 3 then PaymentInfo(entry.kind.additionalInfo.value)
        else if entry.displayText.Some? && level < 5 then DisplayText(entry.displayText.value)
        else LinkText(entry.link.value);
      assert extra in Carried(entry) && !ShownAt(trace, key, extra);
    }
  }

  lemma ShownInTraceIff(
    sets: seq<EntrySet>, level: nat, fallback: Option<Delegation>, i: nat, p: nat, k: nat, entry: Entry, extra: Extra
  )
    requires level >= 2 && DistinctIds(sets) && i < |sets| && DistinctAlternatives(sets[i]) && StandsAt(sets[i], p, k, entry)
    ensures ShownAt(Trace(sets, level, fallback), KeyOf(sets[i], p, entry), extra)
       <==> ShownAt(Sent(entry, KeyOf(sets[i], p, entry), level, fallback), KeyOf(sets[i], p, entry), extra)
  {
    hide Trace, Sent, Shows, DistinctIds, DistinctAlternatives, StandsAt;
    var trace, key := Trace(sets, level, fallback), KeyOf(sets[i], p, entry);
    var calls := Sent(entry, key, level, fallback);
    if n :| 0 <= n < |trace| && !trace[n].DeclareSet? && trace[n].key == key && Shows(trace[n], extra) {
      CallBelongsTo(sets, level, fallback, i, p, k, entry, trace[n]);
      assert trace[n] in calls;
    }
    if n :| 0 <= n < |calls| && !calls[n].DeclareSet? && calls[n].key == key && Shows(calls[n], extra) {
      SentIsInTrace(sets, level, fallback, i, p, k, entry, calls[n]);
      assert calls[n] in trace;
    }
  }

  // ---- the host's entry sets ----------------------------------------------------------------------------

  /** A host at level 2 or above, its default delegation, and the calls made so far. */
  class HostSets {
    const level: nat
    const delegation: Option<Delegation>
    var trace: seq<Call>

    constructor (level: nat, delegation: Option<Delegation>)
      requires level >= 2
      ensures this.level == level && this.delegation == delegation && trace == []
    {
      this.level := level;
      this.delegation := delegation;
      trace := [];
    }

    method Issue(call: Call)
      requires LevelOf(call) <= level
      modifies this
      ensures trace == old(trace) + [call]
    {
      trace := trace + [call];
    }

    /** Appends the calls of one entry, attachments last. */
    method Send(entry: Entry, key: Key)
      requires level >= 2
      modifies this
      ensures trace == old(trace) + Sent(entry, key, level, delegation)
    {
      ghost var start := trace;
      Issue(AddCall(entry, key, level));
      ghost var added := [AddCall(entry, key, level)];
      var own := if entry.delegation.Some? then entry.delegation else delegation;
      if own.Some? && level >= 7 {
        Issue(SetDelegation(key, own.value));
      }
      ghost var delegated := added + DelegationCalls(entry, key, level, delegation);
      assert trace == start + delegated;
      if entry.link.Some? && level >= 6 {
        Issue(SetLink(key, entry.link.value));
      }
      ghost var linked := delegated + LinkCalls(entry, key, level);
      assert trace == start + linked;
      SendFields(key, entry.fields);
      ghost var described := linked + FieldCalls(key, entry.fields);
      assert trace == start + described;
      if entry.displayText.Some? && level >= 5 {
        Issue(AddDisplayText(key, entry.displayText.value));
      }
      assert trace == start + (described + TextCalls(entry, key, level));
    }

    method SendFields(key: Key, fields: seq<Field>)
      requires level >= 2
      modifies this
      ensures trace == old(trace) + FieldCalls(key, fields)
    {
      for i := 0 to |fields|
        invariant trace == old(trace) + FieldCalls(key, fields[..i])
      {
        Issue(AddField(key, fields[i]));
        assert FieldCalls(key, fields[..i + 1]) == FieldCalls(key, fields[..i]) + [AddField(key, fields[i])];
      }
      assert fields[..|fields|] == fields;
    }

    method SendSlot(entrySet: EntrySet, position: nat, slot: Slot)
      requires level >= 2
      modifies this
      ensures trace == old(trace) + SlotCalls(entrySet, position, slot, level, delegation)
    {
      hide Sent;
      var entries := Alternatives(slot);
      ghost var parts := EntriesSent(entrySet, position, entries, level, delegation);
      for k := 0 to |entries|
        invariant trace == old(trace) + Concat(parts[..k])
      {
        Send(entries[k], KeyOf(entrySet, position, entries[k]));
        assert parts[..k + 1] == parts[..k] + [parts[k]];
        ConcatPush(parts[..k], parts[k]);
        AppendAssociates(old(trace), Concat(parts[..k]), parts[k]);
      }
      assert parts[..|entries|] == parts;
    }

    /** Declares the set, then sends every alternative of every slot. */
    method AddEntrySet(entrySet: EntrySet)
      requires level >= 2
      modifies this
      ensures trace == old(trace) + SetCalls(entrySet, level, delegation)
    {
      hide SlotCalls;
      var slots := Slots(entrySet);
      var declaration := DeclareSet(entrySet.id, |slots|);
      Issue(declaration);
      ghost var before := trace;
      ghost var parts := SlotsSent(entrySet, slots, level, delegation);
      for p := 0 to |slots|
        invariant trace == before + Concat(parts[..p])
      {
        SendSlot(entrySet, p, slots[p]);
        assert parts[..p + 1] == parts[..p] + [parts[p]];
        ConcatPush(parts[..p], parts[p]);
        AppendAssociates(before, Concat(parts[..p]), parts[p]);
      }
      assert parts[..|slots|] == parts;
      AppendAssociates(old(trace), [declaration], Concat(parts));
    }
  }
}
