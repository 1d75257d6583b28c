/** One invocation of the matcher: which sets it offers, and the host calls it makes. */
module Matcher {
  import opened Bytes
  import opened Wrappers
  import opened Sequences
  import opened EntrySets
  import CredentialBlob
  import DcqlQuery
  import DcqlEval
  import Odometer
  import Combinations
  import CombinationFacts

  // ---- set ids -----------------------------------------------------------------------------------

  /** The decimal digits of a number. */
  function Decimal(n: nat): (text: Text)
    ensures text != []
    ensures forall i :: 0 <= i < |text| ==> 48 <= text[i] < 58
  {
    if n < 10 then [48 + n] else Decimal(n / 10) + [48 + n % 10]
  }

  /** The number some digits say. */
  function Number(text: Text): int {
    if text == [] then 0 else 10 * Number(text[..|text| - 1]) + text[|text| - 1] - 48
  }

  lemma {:induction false} DecimalSaysNumber(n: nat)
    ensures Number(Decimal(n)) == n
  {
    if n < 10 {
      assert [48 + n][..0] == [];
    } else {
      DecimalSaysNumber(n / 10);
      assert Decimal(n)[..|Decimal(n)| - 1] == Decimal(n / 10);
    }
  }

  const SET_PREFIX: Text := Ascii("siros-")
  const DEBUG_PREFIX: Text := Ascii("siros-debug-")

  /** Combination `index` is the set `siros-index`. */
  function SetId(index: nat): Text {
    SET_PREFIX + Decimal(index)
  }

  lemma SetIdsAreDistinct(i: nat, j: nat)
    ensures SetId(i) == SetId(j) <==> i == j
  {
    assert SetId(i)[|SET_PREFIX|..] == Decimal(i) && SetId(j)[|SET_PREFIX|..] == Decimal(j);
    DecimalSaysNumber(i);
    DecimalSaysNumber(j);
  }

  /** Host texts end at a NUL, so none may stay inside: a space takes its place. */
  function HostText(text: Text): (c: Text)
    ensures |c| == |text|
  {
    seq(|text|, i requires 0 <= i < |text| => if text[i] == 0 then 32 else text[i])
  }

  lemma HostTextKeeps(text: Text)
    requires forall i :: 0 <= i < |text| ==> text[i] != 0
    ensures HostText(text) == text
  {
  }

  lemma SetIdIsHostText(index: nat)
    ensures HostText(SetId(index)) == SetId(index)
  {
    HostTextKeeps(SetId(index));
  }

  // ---- entries -----------------------------------------------------------------------------------

  /** What the picker shows of one credential. */
  datatype Member = Member(
    credentialId: Text, title: Text, subtitle: Text, data: Text, icon: seq<byte>, disclaimer: Option<Text>,
    fields: seq<(Text, Text)>)

  function FieldsOf(fields: seq<(Text, Text)>): seq<Field> {
    seq(|fields|, i requires 0 <= i < |fields| => Field(HostText(fields[i].0), Some(HostText(fields[i].1))))
  }

  function EntryOf(member: Member): Entry {
    Entry(
      HostText(member.credentialId),
      Verification(VerificationDisplay(
        member.icon, HostText(member.title), Some(HostText(member.subtitle)),
        if member.disclaimer.Some? then Some(HostText(member.disclaimer.value)) else None, None)),
      Some(HostText(member.data)), FieldsOf(member.fields), None, None, None)
  }

  function SlotsOf(members: seq<Member>): seq<Slot> {
    seq(|members|, i requires 0 <= i < |members| => Slot(EntryOf(members[i]), []))
  }

  /** As many slots as members, one alternative in each; none without members. */
  function SetsFor(setId: Text, members: seq<Member>): seq<EntrySet> {
    if members == [] then []
    else [EntrySet(HostText(setId), Slot(EntryOf(members[0]), []), SlotsOf(members[1..]))]
  }

  // ---- the decision ------------------------------------------------------------------------------

  /** What the picker shows of one member beside the stored credential: texts this model takes as given. */
  datatype Details = Details(data: Text, disclaimer: Option<Text>, fields: seq<(Text, Text)>)

  /** The inputs of one invocation, after the blob and the request have been read. */
  datatype Input = Input(
    database: Option<CredentialBlob.Database>,
    query: Option<DcqlQuery.Query>,
    held: seq<DcqlEval.Credential>,
    policy: DcqlEval.Policy,
    details: (Combinations.Combination, Odometer.Member, CredentialBlob.Credential) -> Details,
    message: Text -> Text,
    fallbackIcon: seq<byte>,
    most: nat)

  const MAX_COMBINATIONS := 32

  /** The held credentials are the stored ones, by their ids; `usize` has at least 32 bits. */
  ghost predicate Readable(input: Input) {
    && input.fallbackIcon != []
    && MAX_COMBINATIONS <= input.most
    && (input.database.Some? ==>
          && |input.held| == |input.database.value.credentials|
          && forall i :: 0 <= i < |input.held| ==> input.held[i].id == input.database.value.credentials[i].id)
  }

  function FindCredential(credentials: seq<CredentialBlob.Credential>, id: Text): Option<CredentialBlob.Credential> {
    if credentials == [] then None
    else if credentials[0].id == id then Some(credentials[0])
    else FindCredential(credentials[1..], id)
  }

  lemma {:induction false} FindCredentialIff(credentials: seq<CredentialBlob.Credential>, id: Text)
    ensures FindCredential(credentials, id).Some? <==> exists i :: 0 <= i < |credentials| && credentials[i].id == id
  {
    if credentials == [] {
    } else {
      FindCredentialIff(credentials[1..], id);
      assert credentials[0].id == id ==> exists i :: 0 <= i < |credentials| && credentials[i].id == id;
      if i :| 1 <= i < |credentials| && credentials[i].id == id {
        assert credentials[1..][i - 1].id == id;
      }
      if i :| 0 <= i < |credentials[1..]| && credentials[1..][i].id == id {
        assert credentials[i + 1].id == id;
      }
    }
  }

  /** The credential's own icon when it has bytes, else the input's stand-in. */
  function IconOf(database: CredentialBlob.Database, credential: CredentialBlob.Credential, input: Input): seq<byte> {
    match database.IconBytes(credential, input.most)
    case None => input.fallbackIcon
    case Some(bytes) => if bytes == [] then input.fallbackIcon else bytes
  }

  function MemberOf(
    input: Input, database: CredentialBlob.Database, combination: Combinations.Combination,
    member: Odometer.Member, credential: CredentialBlob.Credential
  ): Member {
    var details := input.details(combination, member, credential);
    Member(credential.id, credential.title, credential.subtitle, details.data, IconOf(database, credential, input),
           details.disclaimer, details.fields)
  }

  /** Every member with its stored credential, or nothing when one is missing. */
  function Resolved(
    input: Input, database: CredentialBlob.Database, combination: Combinations.Combination, members: seq<Odometer.Member>
  ): Option<seq<Member>> {
    if members == [] then Some([])
    else match FindCredential(database.credentials, members[0].1.credentialId)
      case None => None
      case Some(credential) =>
        match Resolved(input, database, combination, members[1..])
        case None => None
        case Some(rest) => Some([MemberOf(input, database, combination, members[0], credential)] + rest)
  }

  function SetsForCombination(
    input: Input, database: CredentialBlob.Database, combination: Combinations.Combination, index: nat
  ): seq<EntrySet> {
    match Resolved(input, database, combination, combination.members)
    case None => []
    case Some(members) => SetsFor(SetId(index), members)
  }

  /** The sets of the first `count` combinations. */
  function Offered(
    input: Input, database: CredentialBlob.Database, combinations: seq<Combinations.Combination>, count: nat
  ): seq<EntrySet>
    requires count <= |combinations|
  {
    if count == 0 then []
    else Offered(input, database, combinations, count - 1)
         + SetsForCombination(input, database, combinations[count - 1], count - 1)
  }

  /** A set of one entry that says why nothing is offered, for a wallet in debug mode. */
  function Diagnostic(input: Input, database: CredentialBlob.Database, kind: Text): seq<EntrySet> {
    if !database.debug then []
    else SetsFor(DEBUG_PREFIX + kind, [Member(
      Ascii("siros-debug-entry"), Ascii("[SIROS DEBUG] no match"), input.message(kind), Ascii("{}"),
      input.fallbackIcon, None, [])])
  }

  const REQUEST: Text := Ascii("request")
  const UNSATISFIABLE: Text := Ascii("unsatisfiable")
  const ZERO: Text := Ascii("zero")

  ghost function Listed(input: Input, query: DcqlQuery.Query): seq<Combinations.Combination> {
    Take(MAX_COMBINATIONS, Combinations.Enumeration(DcqlEval.Execute(query, input.held, input.policy)))
  }

  /** The sets of one invocation. */
  ghost function SetsOf(input: Input): seq<EntrySet> {
    match input.database
    case None => []
    case Some(database) =>
      match input.query
      case None => Diagnostic(input, database, REQUEST)
      case Some(query) =>
        if !DcqlEval.Execute(query, input.held, input.policy).satisfiable then Diagnostic(input, database, UNSATISFIABLE)
        else if Listed(input, query) == [] then Diagnostic(input, database, ZERO)
        else Offered(input, database, Listed(input, query), |Listed(input, query)|)
  }

  // ---- no combination is skipped --------------------------------------------------------------------

  lemma {:induction false} MembersResolve(
    input: Input, database: CredentialBlob.Database, combination: Combinations.Combination, members: seq<Odometer.Member>
  )
    requires forall m :: m in members ==> FindCredential(database.credentials, m.1.credentialId).Some?
    ensures Resolved(input, database, combination, members).Some?
    ensures |Resolved(input, database, combination, members).value| == |members|
  {
    hide MemberOf, FindCredential;
    if members == [] {
    } else {
      MembersResolve(input, database, combination, members[1..]);
    }
  }

  lemma OfferHasHolder(query: DcqlQuery.CredentialQuery, credential: DcqlEval.Credential, policy: DcqlEval.Policy)
    ensures DcqlEval.Offer(query, credential, policy).Some? ==>
              DcqlEval.Offer(query, credential, policy).value.credentialId == credential.id
  {
  }

  /** Every credential a combination names is in the blob, so no combination is left out. */
  lemma CombinationResolves(input: Input, query: DcqlQuery.Query, combination: Combinations.Combination)
    requires Readable(input) && input.database.Some?
    requires combination in Combinations.Enumeration(DcqlEval.Execute(query, input.held, input.policy))
    ensures Resolved(input, input.database.value, combination, combination.members).Some?
    ensures |Resolved(input, input.database.value, combination, combination.members).value| == |combination.members|
  {
    var database := input.database.value;
    forall m | m in combination.members ensures FindCredential(database.credentials, m.1.credentialId).Some? {
      CombinationFacts.EveryMemberIsPermitted(query, input.held, input.policy, combination, m);
      var i, j :| 0 <= i < |query.credentials| && 0 <= j < |input.held| && query.credentials[i].id == m.0
        && DcqlEval.Offer(query.credentials[i], input.held[j], input.policy) == Some(m.1);
      OfferHasHolder(query.credentials[i], input.held[j], input.policy);
      assert database.credentials[j].id == m.1.credentialId;
      FindCredentialIff(database.credentials, m.1.credentialId);
    }
    MembersResolve(input, database, combination, combination.members);
  }

  // ---- the sets offered --------------------------------------------------------------------------------

  ghost predicate HasId(sets: seq<EntrySet>, id: Text) {
    exists k :: 0 <= k < |sets| && sets[k].id == id
  }

  ghost predicate IsNumbered(entrySet: EntrySet, combinations: seq<Combinations.Combination>, count: nat) {
    exists i: nat :: i < count && i < |combinations| && entrySet.id == SetId(i) && |Slots(entrySet)| == |combinations[i].members|
  }

  /** What the sets of the first `count` combinations are. */
  ghost predicate OffersAll(sets: seq<EntrySet>, combinations: seq<Combinations.Combination>, count: nat) {
    && count <= |combinations|
    && DistinctIds(sets)
    && (forall k :: 0 <= k < |sets| ==> IsNumbered(sets[k], combinations, count))
    && (forall i: nat :: i < count ==> (HasId(sets, SetId(i)) <==> combinations[i].members != []))
  }

  lemma OneMoreSet(sets: seq<EntrySet>, combinations: seq<Combinations.Combination>, i: nat, entrySet: EntrySet)
    requires OffersAll(sets, combinations, i) && i < |combinations|
    requires entrySet.id == SetId(i) && |Slots(entrySet)| == |combinations[i].members|
    ensures OffersAll(sets + [entrySet], combinations, i + 1)
  {
    hide SetId;
    var more := sets + [entrySet];
    forall k | 0 <= k < |sets| ensures more[k].id != entrySet.id && IsNumbered(more[k], combinations, i + 1) {
      assert more[k] == sets[k];
      var j: nat :| j < i && sets[k].id == SetId(j) && |Slots(sets[k])| == |combinations[j].members|;
      SetIdsAreDistinct(i, j);
    }
    assert more[|sets|] == entrySet;
    assert IsNumbered(entrySet, combinations, i + 1);
    forall j: nat | j < i + 1 ensures HasId(more, SetId(j)) <==> combinations[j].members != [] {
      HasIdPush(sets, entrySet, SetId(j));
      SetIdsAreDistinct(i, j);
    }
  }

  lemma HasIdPush(sets: seq<EntrySet>, entrySet: EntrySet, id: Text)
    ensures HasId(sets + [entrySet], id) <==> HasId(sets, id) || entrySet.id == id
  {
    var more := sets + [entrySet];
    assert more[|sets|] == entrySet;
    if k :| 0 <= k < |sets| && sets[k].id == id {
      assert more[k].id == id;
    }
  }

  lemma NoMoreSets(sets: seq<EntrySet>, combinations: seq<Combinations.Combination>, i: nat)
    requires OffersAll(sets, combinations, i) && i < |combinations| && combinations[i].members == []
    ensures OffersAll(sets, combinations, i + 1)
  {
    hide SetId;
    forall k | 0 <= k < |sets| ensures sets[k].id != SetId(i) && IsNumbered(sets[k], combinations, i + 1) {
      var j: nat :| j < i && sets[k].id == SetId(j) && |Slots(sets[k])| == |combinations[j].members|;
      SetIdsAreDistinct(i, j);
    }
  }

  /**
   * Combination `i` is offered as the set `siros-i` with one position for each of its members, unless it has
   * none; and nothing else is offered.
   */
  lemma {:induction false} OfferedAreNumbered(
    input: Input, query: DcqlQuery.Query, combinations: seq<Combinations.Combination>, count: nat
  )
    requires Readable(input) && input.database.Some? && count <= |combinations|
    requires forall i :: 0 <= i < count ==>
               combinations[i] in Combinations.Enumeration(DcqlEval.Execute(query, input.held, input.policy))
    ensures OffersAll(Offered(input, input.database.value, combinations, count), combinations, count)
  {
    hide Readable, Resolved, OffersAll;
    if count == 0 {
      NothingOffered(combinations);
    } else {
      var database := input.database.value;
      var before, c := Offered(input, database, combinations, count - 1), combinations[count - 1];
      OfferedAreNumbered(input, query, combinations, count - 1);
      CombinationResolves(input, query, c);
      var members := Resolved(input, database, c, c.members).value;
      if members == [] {
        assert before + [] == before;
        NoMoreSets(before, combinations, count - 1);
      } else {
        SetIdIsHostText(count - 1);
        var entrySet := SetsFor(SetId(count - 1), members)[0];
        assert |Slots(entrySet)| == |members|;
        OneMoreSet(before, combinations, count - 1, entrySet);
      }
    }
  }

  lemma NothingOffered(combinations: seq<Combinations.Combination>)
    ensures OffersAll([], combinations, 0)
  {
  }

  // ---- the sets are plain ------------------------------------------------------------------------------

  /** One entry in each slot, with an icon, and nothing that needs a host above level 2. */
  ghost predicate IsPlain(entrySet: EntrySet) {
    forall p :: 0 <= p < |Slots(entrySet)| ==> IsPlainSlot(Slots(entrySet)[p])
  }

  ghost predicate AllPlain(sets: seq<EntrySet>) {
    forall k :: 0 <= k < |sets| ==> IsPlain(sets[k])
  }

  lemma AllPlainAppend(a: seq<EntrySet>, b: seq<EntrySet>)
    requires AllPlain(a) && AllPlain(b)
    ensures AllPlain(a + b)
  {
    hide IsPlain;
  }

  predicate IsPlainSlot(slot: Slot) {
    var entry := slot.first;
    && slot.others == []
    && entry.kind.Verification? && entry.kind.display.icon != []
    && entry.link.None? && entry.displayText.None? && entry.delegation.None?
  }

  lemma SetsForArePlain(setId: Text, members: seq<Member>)
    requires forall i :: 0 <= i < |members| ==> members[i].icon != []
    ensures AllPlain(SetsFor(setId, members))
  {
    hide HostText, FieldsOf;
    if members != [] {
      var entrySet := SetsFor(setId, members)[0];
      forall p | 0 <= p < |Slots(entrySet)| ensures IsPlainSlot(Slots(entrySet)[p]) {
        if p > 0 {
          assert Slots(entrySet)[p] == Slot(EntryOf(members[1..][p - 1]), []);
        }
      }
    }
  }

  lemma {:induction false} ResolvedHaveIcons(
    input: Input, database: CredentialBlob.Database, combination: Combinations.Combination, members: seq<Odometer.Member>
  )
    requires Readable(input) && Resolved(input, database, combination, members).Some?
    ensures forall i :: 0 <= i < |Resolved(input, database, combination, members).value| ==>
              Resolved(input, database, combination, members).value[i].icon != []
  {
    if members == [] {
    } else {
      ResolvedHaveIcons(input, database, combination, members[1..]);
    }
  }

  lemma {:induction false} OfferedArePlain(
    input: Input, database: CredentialBlob.Database, combinations: seq<Combinations.Combination>, count: nat
  )
    requires Readable(input) && count <= |combinations|
    ensures AllPlain(Offered(input, database, combinations, count))
  {
    hide Resolved, SetsFor, IsPlain, Readable;
    if count == 0 {
    } else {
      OfferedArePlain(input, database, combinations, count - 1);
      var c := combinations[count - 1];
      var before, more := Offered(input, database, combinations, count - 1), SetsForCombination(input, database, c, count - 1);
      if Resolved(input, database, c, c.members).Some? {
        var members := Resolved(input, database, c, c.members).value;
        ResolvedHaveIcons(input, database, c, c.members);
        SetsForArePlain(SetId(count - 1), members);
        assert more == SetsFor(SetId(count - 1), members);
      }
      AllPlainAppend(before, more);
    }
  }

  lemma DiagnosticIsPlain(input: Input, database: CredentialBlob.Database, kind: Text)
    requires Readable(input)
    ensures DistinctIds(Diagnostic(input, database, kind))
    ensures AllPlain(Diagnostic(input, database, kind))
  {
    hide HostText, FieldsOf;
    if database.debug {
      var entry := Member(
        Ascii("siros-debug-entry"), Ascii("[SIROS DEBUG] no match"), input.message(kind), Ascii("{}"),
        input.fallbackIcon, None, []);
      SetsForArePlain(DEBUG_PREFIX + kind, [entry]);
    }
  }

  lemma SetsArePlain(input: Input)
    requires Readable(input)
    ensures DistinctIds(SetsOf(input))
    ensures AllPlain(SetsOf(input))
  {
    hide Readable, IsPlain, Diagnostic, Offered, DcqlEval.Execute;
    if input.database.Some? {
      var database := input.database.value;
      DiagnosticIsPlain(input, database, REQUEST);
      if input.query.Some? {
        var query := input.query.value;
        DiagnosticIsPlain(input, database, UNSATISFIABLE);
        DiagnosticIsPlain(input, database, ZERO);
        ListedAreEnumerated(input, query);
        OfferedAreNumbered(input, query, Listed(input, query), |Listed(input, query)|);
        OfferedArePlain(input, database, Listed(input, query), |Listed(input, query)|);
      }
    }
  }

  lemma ListedAreEnumerated(input: Input, query: DcqlQuery.Query)
    ensures forall i :: 0 <= i < |Listed(input, query)| ==>
              Listed(input, query)[i] in Combinations.Enumeration(DcqlEval.Execute(query, input.held, input.policy))
  {
  }

  // ---- every trace --------------------------------------------------------------------------------------

  lemma PlainCalls(entrySet: EntrySet, level: nat, call: Call)
    requires IsPlain(entrySet) && level >= 2 && call in SetCalls(entrySet, level, None)
    ensures LevelOf(call) <= 2 && (call.AddEntry? ==> call.display.icon != [])
  {
    hide SetCalls, Sent, IsPlainSlot;
    InSetCalls(entrySet, level, None, call);
    if call != DeclareSet(entrySet.id, |Slots(entrySet)|) {
      var p: nat, k: nat, entry :| SentFor(entrySet, p, k, entry, level, None, call);
      assert IsPlainSlot(Slots(entrySet)[p]);
      PlainSlotEntry(Slots(entrySet)[p], k, entry);
      PlainEntryCalls(entry, KeyOf(entrySet, p, entry), level, call);
    }
  }

  lemma PlainSlotEntry(slot: Slot, k: nat, entry: Entry)
    requires IsPlainSlot(slot) && k < |Alternatives(slot)| && Alternatives(slot)[k] == entry
    ensures k == 0 && entry == slot.first && IsPlainSlot(Slot(entry, []))
  {
  }

  lemma PlainEntryCalls(entry: Entry, key: Key, level: nat, call: Call)
    requires IsPlainSlot(Slot(entry, [])) && call in Sent(entry, key, level, None)
    ensures LevelOf(call) <= 2 && (call.AddEntry? ==> call.display.icon != [])
  {
    hide Sent;
    SentIff(entry, key, level, None, call);
    InFieldCalls(key, entry.fields, call);
  }

  /**
   * Whatever the blob, the request and the host's level: the trace declares each set id once, fills every
   * position of every set, puts each field after its own entry, calls nothing above level 2, and adds no entry
   * without an icon.
   */
  lemma EveryTraceIsSound(input: Input, level: nat)
    requires Readable(input) && level >= 2
    ensures var trace := Trace(SetsOf(input), level, None);
      && DeclaredOnce(trace) && WellFormed(trace, level) && WithinLevel(trace, 2)
      && forall i :: 0 <= i < |trace| && trace[i].AddEntry? ==> trace[i].display.icon != []
  {
    hide Readable, SetsOf, Trace, SetCalls, DeclaredOnce, WellFormed, IsPlain, LevelOf;
    var sets := SetsOf(input);
    var trace := Trace(sets, level, None);
    SetsArePlain(input);
    DeclaredOnceIff(sets, level, None);
    TraceIsWellFormed(sets, level, None);
    forall i | 0 <= i < |trace| ensures LevelOf(trace[i]) <= 2 && (trace[i].AddEntry? ==> trace[i].display.icon != []) {
      InTrace(sets, level, None, trace[i]);
      var k :| 0 <= k < |sets| && trace[i] in SetCalls(sets[k], level, None);
      PlainCalls(sets[k], level, trace[i]);
    }
  }

  // ---- the invocation --------------------------------------------------------------------------------------

  lemma TraceAppend(a: seq<EntrySet>, b: seq<EntrySet>, level: nat, fallback: Option<Delegation>)
    ensures Trace(a + b, level, fallback) == Trace(a, level, fallback) + Trace(b, level, fallback)
  {
    hide SetCalls;
    assert SetsSent(a + b, level, fallback) == SetsSent(a, level, fallback) + SetsSent(b, level, fallback);
    ConcatAppend(SetsSent(a, level, fallback), SetsSent(b, level, fallback));
  }

  lemma TraceOfOne(entrySet: EntrySet, level: nat, fallback: Option<Delegation>)
    ensures Trace([entrySet], level, fallback) == SetCalls(entrySet, level, fallback)
  {
    assert SetsSent([entrySet], level, fallback) == [SetCalls(entrySet, level, fallback)];
    ConcatOne(SetCalls(entrySet, level, fallback));
  }

  lemma TraceOfNone(level: nat, fallback: Option<Delegation>)
    ensures Trace([], level, fallback) == []
  {
    assert SetsSent([], level, fallback) == [];
  }

  method EmitSet(sets: HostSets, setId: Text, members: seq<Member>)
    requires sets.level >= 2
    modifies sets
    ensures sets.trace == old(sets.trace) + Trace(SetsFor(setId, members), sets.level, sets.delegation)
  {
    hide SetCalls, Trace;
    if members == [] {
      TraceOfNone(sets.level, sets.delegation);
      return;
    }
    var entrySet := EntrySet(HostText(setId), Slot(EntryOf(members[0]), []), SlotsOf(members[1..]));
    sets.AddEntrySet(entrySet);
    TraceOfOne(entrySet, sets.level, sets.delegation);
  }

  method EmitDiagnostic(sets: HostSets, input: Input, database: CredentialBlob.Database, kind: Text)
    requires sets.level >= 2
    modifies sets
    ensures sets.trace == old(sets.trace) + Trace(Diagnostic(input, database, kind), sets.level, sets.delegation)
  {
    hide Trace;
    if !database.debug {
      TraceOfNone(sets.level, sets.delegation);
      return;
    }
    var entry := Member(
      Ascii("siros-debug-entry"), Ascii("[SIROS DEBUG] no match"), input.message(kind), Ascii("{}"),
      input.fallbackIcon, None, []);
    EmitSet(sets, DEBUG_PREFIX + kind, [entry]);
  }

  /** Decides, and sends what was decided. */
  method Run(input: Input, sets: HostSets)
    requires sets.level >= 2 && MAX_COMBINATIONS <= input.most
    modifies sets
    ensures sets.trace == old(sets.trace) + Trace(SetsOf(input), sets.level, sets.delegation)
  {
    hide Trace, Diagnostic, DcqlEval.Execute, Combinations.Enumeration, Resolved, SetsFor;
    if input.database.None? {
      TraceOfNone(sets.level, sets.delegation);
      return;
    }
    var database := input.database.value;
    if input.query.None? {
      EmitDiagnostic(sets, input, database, REQUEST);
      return;
    }
    var query := input.query.value;
    var result := DcqlEval.Execute(query, input.held, input.policy);
    if !result.satisfiable {
      EmitDiagnostic(sets, input, database, UNSATISFIABLE);
      return;
    }
    var listing := Combinations.Enumerate(result, MAX_COMBINATIONS, input.most);
    var combinations := listing.combinations;
    if combinations == [] {
      EmitDiagnostic(sets, input, database, ZERO);
      return;
    }
    TraceOfNone(sets.level, sets.delegation);
    for index := 0 to |combinations|
      invariant sets.trace
             == old(sets.trace) + Trace(Offered(input, database, combinations, index), sets.level, sets.delegation)
    {
      var combination := combinations[index];
      ghost var before := Offered(input, database, combinations, index);
      ghost var more := SetsForCombination(input, database, combination, index);
      TraceAppend(before, more, sets.level, sets.delegation);
      AppendAssociates(old(sets.trace), Trace(before, sets.level, sets.delegation), Trace(more, sets.level, sets.delegation));
      var resolved := Resolved(input, database, combination, combination.members);
      if resolved.None? {
        TraceOfNone(sets.level, sets.delegation);
        continue;
      }
      EmitSet(sets, SetId(index), resolved.value);
    }
  }

  /** A host below level 2 gets nothing, and its inputs are not read. */
  method Invoke(level: nat, input: Input) returns (trace: seq<Call>)
    requires MAX_COMBINATIONS <= input.most
    ensures trace == if level >= 2 then Trace(SetsOf(input), level, None) else []
  {
    if level < 2 {
      return [];
    }
    var sets := new HostSets(level, None);
    Run(input, sets);
    trace := sets.trace;
  }
}
