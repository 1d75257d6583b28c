/** The calls of an invocation, one by one: which credential each entry shows, and where. */
module MatcherTrace {
  import opened Bytes
  import opened Wrappers
  import opened Sequences
  import opened EntrySets
  import opened Matcher
  import CredentialBlob
  import DcqlQuery
  import DcqlEval
  import Odometer
  import Combinations

  // ---- texts and ids -------------------------------------------------------------------------

  /** Only NULs change, and they become spaces. */
  lemma HostTextIs(text: Text, i: nat)
    requires i < |text|
    ensures |HostText(text)| == |text|
    ensures HostText(text)[i] == if text[i] == 0 then 32 else text[i]
  {
  }

  /** No number is written with a leading zero. */
  lemma {:induction false} NoLeadingZero(n: nat)
    ensures n > 0 ==> Decimal(n)[0] != 48
  {
    if n < 10 {
    } else {
      NoLeadingZero(n / 10);
    }
  }

  lemma PrefixIs()
    ensures SET_PREFIX == [115, 105, 114, 111, 115, 45]
  {
  }

  // ---- the stored credential -----------------------------------------------------------------

  /** The place of the first stored credential of the id. */
  ghost predicate IsFirst(credentials: seq<CredentialBlob.Credential>, id: Text, k: nat) {
    && k < |credentials| && credentials[k].id == id
    && forall j :: 0 <= j < k ==> credentials[j].id != id
  }

  lemma {:induction false} FoundIsFirst(credentials: seq<CredentialBlob.Credential>, id: Text)
    ensures FindCredential(credentials, id).Some? ==>
              exists k: nat :: IsFirst(credentials, id, k) && FindCredential(credentials, id) == Some(credentials[k])
    ensures FindCredential(credentials, id).None? ==> forall k: nat :: !IsFirst(credentials, id, k)
  {
    if credentials == [] {
    } else if credentials[0].id == id {
      assert IsFirst(credentials, id, 0);
    } else {
      var rest := credentials[1..];
      FoundIsFirst(rest, id);
      if k: nat :| IsFirst(rest, id, k) && FindCredential(rest, id) == Some(rest[k]) {
        assert forall j :: 0 < j <= k ==> credentials[j] == rest[j - 1];
        assert IsFirst(credentials, id, k + 1);
      }
      forall k: nat | IsFirst(credentials, id, k) ensures k > 0 && IsFirst(rest, id, k - 1) {
        assert forall j :: 0 <= j < k - 1 ==> rest[j] == credentials[j + 1];
      }
    }
  }

  ghost predicate IsStored(credentials: seq<CredentialBlob.Credential>, id: Text) {
    exists k: nat :: IsFirst(credentials, id, k)
  }

  /** The first stored credential of the id. */
  ghost function StoredOf(credentials: seq<CredentialBlob.Credential>, id: Text): CredentialBlob.Credential
    requires IsStored(credentials, id)
  {
    var k: nat :| IsFirst(credentials, id, k);
    credentials[k]
  }

  lemma FoundIsStored(credentials: seq<CredentialBlob.Credential>, id: Text)
    requires FindCredential(credentials, id).Some?
    ensures IsStored(credentials, id)
    ensures FindCredential(credentials, id) == Some(StoredOf(credentials, id)) && StoredOf(credentials, id).id == id
  {
    FoundIsFirst(credentials, id);
    var k: nat :| IsFirst(credentials, id, k) && FindCredential(credentials, id) == Some(credentials[k]);
    forall j: nat | IsFirst(credentials, id, j) ensures j == k {
    }
  }

  // ---- what is shown -----------------------------------------------------------------------------

  function IconShown(input: Input, database: CredentialBlob.Database, stored: CredentialBlob.Credential): seq<byte> {
    var icon := database.IconBytes(stored, input.most);
    if icon.Some? && icon.value != [] then icon.value else input.fallbackIcon
  }

  /** One member: its credential's id, title, subtitle and icon, the given texts, and a row per field. */
  function ShownCredential(
    input: Input, database: CredentialBlob.Database, stored: CredentialBlob.Credential, details: Details,
    setId: Text, position: nat, level: nat
  ): seq<Call> {
    var key := Key(setId, position, HostText(stored.id));
    [AddEntry(
       key,
       VerificationDisplay(
         IconShown(input, database, stored), HostText(stored.title), Some(HostText(stored.subtitle)),
         if details.disclaimer.Some? then Some(HostText(details.disclaimer.value)) else None, None),
       Metadata(false, level, Some(HostText(details.data))))]
    + seq(|details.fields|, i requires 0 <= i < |details.fields| =>
        AddField(key, Field(HostText(details.fields[i].0), Some(HostText(details.fields[i].1)))))
  }

  ghost predicate AllStored(database: CredentialBlob.Database, members: seq<Odometer.Member>) {
    forall p :: 0 <= p < |members| ==> IsStored(database.credentials, members[p].1.credentialId)
  }

  ghost function ShownMembers(
    input: Input, database: CredentialBlob.Database, combination: Combinations.Combination, setId: Text, level: nat
  ): seq<seq<Call>>
    requires AllStored(database, combination.members)
  {
    seq(|combination.members|, p requires 0 <= p < |combination.members| =>
      var stored := StoredOf(database.credentials, combination.members[p].1.credentialId);
      ShownCredential(input, database, stored, input.details(combination, combination.members[p], stored), setId, p, level))
  }

  /** One combination: its set, then each member at its place, shown by its stored credential. */
  ghost function ShownCombination(
    input: Input, database: CredentialBlob.Database, combination: Combinations.Combination, index: nat, level: nat
  ): seq<Call>
    requires AllStored(database, combination.members)
  {
    var members, setId := combination.members, Ascii("siros-") + Decimal(index);
    if members == [] then []
    else
      [DeclareSet(setId, |members|)] + Concat(ShownMembers(input, database, combination, setId, level))
  }

  // ---- one entry -----------------------------------------------------------------------------------

  lemma EntryIsShown(
    input: Input, database: CredentialBlob.Database, combination: Combinations.Combination, member: Odometer.Member,
    stored: CredentialBlob.Credential, entrySet: EntrySet, position: nat, level: nat
  )
    ensures var entry := EntryOf(MemberOf(input, database, combination, member, stored));
      Sent(entry, KeyOf(entrySet, position, entry), level, None)
      == ShownCredential(input, database, stored, input.details(combination, member, stored), entrySet.id, position, level)
  {
    hide HostText;
    var details := input.details(combination, member, stored);
    var entry := EntryOf(MemberOf(input, database, combination, member, stored));
    var key := KeyOf(entrySet, position, entry);
    assert FieldCalls(key, entry.fields)
        == seq(|details.fields|, i requires 0 <= i < |details.fields| =>
             AddField(key, Field(HostText(details.fields[i].0), Some(HostText(details.fields[i].1)))));
  }

  lemma {:induction false} ResolvedAt(
    input: Input, database: CredentialBlob.Database, combination: Combinations.Combination, members: seq<Odometer.Member>,
    p: nat
  )
    requires Resolved(input, database, combination, members).Some? && p < |members|
    ensures |Resolved(input, database, combination, members).value| == |members|
    ensures IsStored(database.credentials, members[p].1.credentialId)
    ensures Resolved(input, database, combination, members).value[p]
         == MemberOf(input, database, combination, members[p], StoredOf(database.credentials, members[p].1.credentialId))
  {
    hide MemberOf, IsStored, FindCredential;
    FoundIsStored(database.credentials, members[0].1.credentialId);
    if p == 0 {
      ResolvedLength(input, database, combination, members);
    } else {
      ResolvedAt(input, database, combination, members[1..], p - 1);
    }
  }

  lemma {:induction false} ResolvedLength(
    input: Input, database: CredentialBlob.Database, combination: Combinations.Combination, members: seq<Odometer.Member>
  )
    requires Resolved(input, database, combination, members).Some?
    ensures |Resolved(input, database, combination, members).value| == |members|
  {
    hide MemberOf, FindCredential;
    if members == [] {
    } else {
      ResolvedLength(input, database, combination, members[1..]);
    }
  }

  lemma AllResolvedAreStored(
    input: Input, database: CredentialBlob.Database, combination: Combinations.Combination
  )
    requires Resolved(input, database, combination, combination.members).Some?
    ensures AllStored(database, combination.members)
  {
    hide Resolved;
    forall p | 0 <= p < |combination.members|
      ensures IsStored(database.credentials, combination.members[p].1.credentialId)
    {
      ResolvedAt(input, database, combination, combination.members, p);
    }
  }

  lemma OneAlternative(entrySet: EntrySet, position: nat, entry: Entry, level: nat)
    ensures SlotCalls(entrySet, position, Slot(entry, []), level, None) == Sent(entry, KeyOf(entrySet, position, entry), level, None)
  {
    hide Sent;
    var slot := Slot(entry, []);
    assert Alternatives(slot) == [entry];
    assert EntriesSent(entrySet, position, [entry], level, None) == [Sent(entry, KeyOf(entrySet, position, entry), level, None)];
    ConcatOne(Sent(entry, KeyOf(entrySet, position, entry), level, None));
  }

  lemma SetIsOfMembers(setId: Text, members: seq<Member>)
    requires members != []
    ensures |SetsFor(setId, members)| == 1
    ensures var entrySet := SetsFor(setId, members)[0];
      entrySet.id == HostText(setId) && |Slots(entrySet)| == |members|
      && forall p :: 0 <= p < |members| ==> Slots(entrySet)[p] == Slot(EntryOf(members[p]), [])
  {
    hide HostText, EntryOf;
    var entrySet := SetsFor(setId, members)[0];
    forall p | 0 <= p < |members| ensures Slots(entrySet)[p] == Slot(EntryOf(members[p]), []) {
      if p > 0 {
        assert SlotsOf(members[1..])[p - 1] == Slot(EntryOf(members[1..][p - 1]), []);
      }
    }
  }

  /** The calls of one offered combination. */
  lemma CombinationIsShown(
    input: Input, database: CredentialBlob.Database, combination: Combinations.Combination, index: nat, level: nat
  )
    requires Resolved(input, database, combination, combination.members).Some?
    ensures AllStored(database, combination.members)
    ensures Trace(SetsForCombination(input, database, combination, index), level, None)
         == ShownCombination(input, database, combination, index, level)
  {
    hide Resolved, HostText, Sent, ShownCredential, EntryOf, MemberOf, IsStored, AllStored, KeyOf;
    AllResolvedAreStored(input, database, combination);
    ResolvedLength(input, database, combination, combination.members);
    var members := Resolved(input, database, combination, combination.members).value;
    if members == [] {
      TraceOfNone(level, None);
    } else {
      SetIdIsHostText(index);
      SetIsOfMembers(SetId(index), members);
      var entrySet := SetsFor(SetId(index), members)[0];
      TraceOfOne(entrySet, level, None);
      assert SetsFor(SetId(index), members) == [entrySet];
      SlotsAreShown(input, database, combination, members, entrySet, index, level);
    }
  }

  lemma SlotsAreShown(
    input: Input, database: CredentialBlob.Database, combination: Combinations.Combination, members: seq<Member>,
    entrySet: EntrySet, index: nat, level: nat
  )
    requires AllStored(database, combination.members) && combination.members != []
    requires Resolved(input, database, combination, combination.members) == Some(members) && |members| == |combination.members|
    requires entrySet.id == Ascii("siros-") + Decimal(index) && |Slots(entrySet)| == |members|
    requires forall p :: 0 <= p < |members| ==> Slots(entrySet)[p] == Slot(EntryOf(members[p]), [])
    ensures SetCalls(entrySet, level, None) == ShownCombination(input, database, combination, index, level)
  {
    hide Resolved, HostText, Sent, ShownCredential, EntryOf, MemberOf, IsStored, KeyOf, SlotCalls, Slots;
    var slots, shown := Slots(entrySet), ShownMembers(input, database, combination, entrySet.id, level);
    forall p | 0 <= p < |slots| ensures SlotsSent(entrySet, slots, level, None)[p] == shown[p] {
      ResolvedAt(input, database, combination, combination.members, p);
      var stored := StoredOf(database.credentials, combination.members[p].1.credentialId);
      OneAlternative(entrySet, p, EntryOf(members[p]), level);
      EntryIsShown(input, database, combination, combination.members[p], stored, entrySet, p, level);
    }
    assert SlotsSent(entrySet, slots, level, None) == shown;
  }

  // ---- the whole trace ------------------------------------------------------------------------------

  ghost predicate AllCombinationsStored(database: CredentialBlob.Database, combinations: seq<Combinations.Combination>) {
    forall i :: 0 <= i < |combinations| ==> AllStored(database, combinations[i].members)
  }

  ghost function ShownCombinations(
    input: Input, database: CredentialBlob.Database, combinations: seq<Combinations.Combination>, level: nat
  ): seq<Call>
    requires AllCombinationsStored(database, combinations)
  {
    Concat(seq(|combinations|, i requires 0 <= i < |combinations| =>
      ShownCombination(input, database, combinations[i], i, level)))
  }

  lemma {:induction false} OfferedAreShown(
    input: Input, database: CredentialBlob.Database, combinations: seq<Combinations.Combination>, count: nat, level: nat
  )
    requires count <= |combinations|
    requires forall i :: 0 <= i < count ==> Resolved(input, database, combinations[i], combinations[i].members).Some?
    ensures AllCombinationsStored(database, combinations[..count])
    ensures Trace(Offered(input, database, combinations, count), level, None)
         == ShownCombinations(input, database, combinations[..count], level)
  {
    hide Resolved, ShownCombination, SetsForCombination, Trace, AllStored;
    forall i | 0 <= i < count ensures AllStored(database, combinations[..count][i].members) {
      AllResolvedAreStored(input, database, combinations[i]);
    }
    if count == 0 {
      TraceOfNone(level, None);
    } else {
      var c := combinations[count - 1];
      OfferedAreShown(input, database, combinations, count - 1, level);
      CombinationIsShown(input, database, c, count - 1, level);
      TraceAppend(Offered(input, database, combinations, count - 1), SetsForCombination(input, database, c, count - 1), level, None);
      ShownPush(input, database, combinations[..count - 1], c, level);
      assert combinations[..count - 1] + [c] == combinations[..count];
    }
  }

  lemma ShownPush(
    input: Input, database: CredentialBlob.Database, combinations: seq<Combinations.Combination>,
    c: Combinations.Combination, level: nat
  )
    requires AllCombinationsStored(database, combinations) && AllStored(database, c.members)
    ensures AllCombinationsStored(database, combinations + [c])
    ensures ShownCombinations(input, database, combinations + [c], level)
         == ShownCombinations(input, database, combinations, level)
            + ShownCombination(input, database, c, |combinations|, level)
  {
    hide ShownCombination, AllStored;
    var more := combinations + [c];
    var parts := seq(|combinations|, i requires 0 <= i < |combinations| => ShownCombination(input, database, combinations[i], i, level));
    var all := seq(|more|, i requires 0 <= i < |more| => ShownCombination(input, database, more[i], i, level));
    assert all == parts + [ShownCombination(input, database, c, |combinations|, level)];
    ConcatPush(parts, ShownCombination(input, database, c, |combinations|, level));
  }

  /** The first 32 combinations of a request. */
  ghost function FirstOf(input: Input, query: DcqlQuery.Query): seq<Combinations.Combination> {
    Take(32, Combinations.Enumeration(DcqlEval.Execute(query, input.held, input.policy)))
  }

  /**
   * The trace of a satisfiable request: the first 32 combinations in order, each a set of its own number with each of
   * its members at its place, shown by the id, title, subtitle and icon of its stored credential.
   */
  lemma InvocationShows(input: Input, level: nat)
    requires Readable(input) && input.database.Some? && input.query.Some?
    requires DcqlEval.Execute(input.query.value, input.held, input.policy).satisfiable
    requires FirstOf(input, input.query.value) != []
    ensures AllCombinationsStored(input.database.value, FirstOf(input, input.query.value))
    ensures Trace(SetsOf(input), level, None)
         == ShownCombinations(input, input.database.value, FirstOf(input, input.query.value), level)
  {
    hide Readable, Resolved, Offered, Trace, DcqlEval.Execute, Combinations.Enumeration, ShownCombinations, AllCombinationsStored;
    var database, query := input.database.value, input.query.value;
    var combinations := FirstOf(input, query);
    assert Listed(input, query) == combinations;
    ListedAreEnumerated(input, query);
    forall i | 0 <= i < |combinations| ensures Resolved(input, database, combinations[i], combinations[i].members).Some? {
      CombinationResolves(input, query, combinations[i]);
    }
    assert combinations[..|combinations|] == combinations;
    OfferedAreShown(input, database, combinations, |combinations|, level);
  }

  // ---- nothing to offer -------------------------------------------------------------------------------

  /** What a wallet in debug mode is shown instead. */
  function DebugCalls(input: Input, kind: Text, level: nat): seq<Call> {
    var setId := HostText(Ascii("siros-debug-") + kind);
    [DeclareSet(setId, 1),
     AddEntry(
       Key(setId, 0, HostText(Ascii("siros-debug-entry"))),
       VerificationDisplay(input.fallbackIcon, HostText(Ascii("[SIROS DEBUG] no match")), Some(HostText(input.message(kind))), None, None),
       Metadata(false, level, Some(HostText(Ascii("{}")))))]
  }

  lemma DiagnosticIsShown(input: Input, database: CredentialBlob.Database, kind: Text, level: nat)
    ensures Trace(Diagnostic(input, database, kind), level, None) == if database.debug then DebugCalls(input, kind, level) else []
  {
    hide HostText, Sent, SetCalls;
    if database.debug {
      var member := Member(
        Ascii("siros-debug-entry"), Ascii("[SIROS DEBUG] no match"), input.message(kind), Ascii("{}"),
        input.fallbackIcon, None, []);
      DebugSetIsShown(input, member, kind, level);
    } else {
      TraceOfNone(level, None);
    }
  }

  lemma DebugSetIsShown(input: Input, member: Member, kind: Text, level: nat)
    requires member == Member(
        Ascii("siros-debug-entry"), Ascii("[SIROS DEBUG] no match"), input.message(kind), Ascii("{}"),
        input.fallbackIcon, None, [])
    ensures Trace(SetsFor(DEBUG_PREFIX + kind, [member]), level, None) == DebugCalls(input, kind, level)
  {
    hide HostText;
    var setId := DEBUG_PREFIX + kind;
    SetIsOfMembers(setId, [member]);
    var entrySet := SetsFor(setId, [member])[0];
    assert SetsFor(setId, [member]) == [entrySet];
    TraceOfOne(entrySet, level, None);
    OneAlternative(entrySet, 0, EntryOf(member), level);
    var slot := Slots(entrySet)[0];
    assert Slots(entrySet) == [slot];
    assert SlotsSent(entrySet, [slot], level, None) == [SlotCalls(entrySet, 0, slot, level, None)];
    ConcatOne(SlotCalls(entrySet, 0, slot, level, None));
    assert FieldCalls(KeyOf(entrySet, 0, EntryOf(member)), []) == [];
  }

  /** A request that is not understood, not satisfiable or without combinations shows at most the reason. */
  lemma InvocationWithoutOffers(input: Input, level: nat)
    ensures input.database.None? ==> Trace(SetsOf(input), level, None) == []
    ensures input.database.Some? ==>
      var debug, result := input.database.value.debug,
        if input.query.Some? then Some(DcqlEval.Execute(input.query.value, input.held, input.policy)) else None;
      && (input.query.None? ==>
            Trace(SetsOf(input), level, None) == if debug then DebugCalls(input, Ascii("request"), level) else [])
      && (result.Some? && !result.value.satisfiable ==>
            Trace(SetsOf(input), level, None) == if debug then DebugCalls(input, Ascii("unsatisfiable"), level) else [])
      && (result.Some? && result.value.satisfiable && Combinations.Enumeration(result.value) == [] ==>
            Trace(SetsOf(input), level, None) == if debug then DebugCalls(input, Ascii("zero"), level) else [])
  {
    hide Trace, Diagnostic, DebugCalls, DcqlEval.Execute, Combinations.Enumeration, Offered;
    if input.database.None? {
      TraceOfNone(level, None);
    } else {
      DiagnosticIsShown(input, input.database.value, Ascii("request"), level);
      DiagnosticIsShown(input, input.database.value, Ascii("unsatisfiable"), level);
      DiagnosticIsShown(input, input.database.value, Ascii("zero"), level);
    }
  }
}
