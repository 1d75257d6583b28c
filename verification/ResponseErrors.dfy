/** Every refusal of a response names a rule the response breaks. */
module ResponseErrors {
  import opened Bytes
  import opened Wrappers
  import opened DcqlPath
  import opened Request
  import opened Response
  import opened ResponseFacts
  import Base64Url
  import Cbor
  import ProofTime

  // ---- names and limits --------------------------------------------------------------------

  /** The names of the members, as they stand in the map. */
  lemma NamesAre()
    ensures SYSTEM_ID == Ascii("system_id") && PROOF == Ascii("proof") && ISSUER_KEY_SET == Ascii("issuer_key_set")
    ensures PROOF_TIME == Ascii("proof_time") && RESULTS == Ascii("results")
    ensures MSO_MDOC == Ascii("mso_mdoc") && SHA_256 == Ascii("sha-256") && HASHDH == Ascii("hashdh-bls12381g1")
    ensures Ascii("az-_09") == [97, 122, 45, 95, 48, 57]
  {
    assert Ascii("az-_09") == [97, 122, 45, 95, 48, 57];
  }

  predicate IsKnown(name: Text) {
    name in {Ascii("system_id"), Ascii("proof"), Ascii("issuer_key_set"), Ascii("proof_time"), Ascii("results")}
  }

  predicate IsRequired(name: Text) {
    name in {Ascii("system_id"), Ascii("proof"), Ascii("issuer_key_set"), Ascii("results")}
  }

  lemma MembersAre(name: Text)
    ensures IsMember(name) <==> IsKnown(name)
  {
  }

  // ---- what each refusal says --------------------------------------------------------------

  ghost predicate Has(entries: seq<Entry>, name: Text, value: Item) {
    MemberEntry(name, value) in entries
  }

  ghost predicate Lacks(entries: seq<Entry>, name: Text) {
    forall i :: 0 <= i < |entries| ==> entries[i].key != Cbor.Text(name)
  }

  /** The values of a member that have the wrong type. */
  predicate IsWrongType(name: Text, value: Item) {
    || (name == Ascii("system_id") && !value.Text?) || (name == Ascii("proof") && !value.Bytes?)
    || (name == Ascii("issuer_key_set") && !value.Array?) || (name == Ascii("results") && !value.Map?)
  }

  ghost predicate KeyBreaks(keys: seq<Item>, error: InvalidResponse) {
    || (error.IssuerKeySetEmpty? && keys == [])
    || (error.IssuerKeySetTooMany? && |keys| > 8)
    || (error.IssuerKeyNotBytes? && exists k :: 0 <= k < |keys| && !keys[k].Bytes?)
    || (error.IssuerKeyEmpty? && exists k :: 0 <= k < |keys| && keys[k] == Cbor.Bytes([]))
    || (error.IssuerKeyTooLarge? && exists k :: 0 <= k < |keys| && keys[k].Bytes? && |keys[k].bytes| > 4096)
  }

  ghost predicate TimeBreaks(plan: Plan, item: Option<Item>, error: InvalidResponse) {
    || (error.ProofTimeMissing? && item.None? && plan.sourceFormat == Ascii("mso_mdoc"))
    || (error.ProofTimeNotTdate? && item.Some? && forall text :: item.value != Cbor.Tag(0, Cbor.Text(text)))
    || (error.ProofTimeForm? && exists text :: item == Some(Cbor.Tag(0, Cbor.Text(text))) && ProofTime.Parse(text).Err?)
  }

  /** What is wrong with the value of one function. */
  ghost predicate ValueBreaks(f: PlannedFunction, value: Item, error: InvalidResponse) {
    || (error == ResultFunctionUnknown(f.handle) && f.params.Unknown?)
    || (error == ResultWrongType(f.handle) && f.params.AgeCheck? && !value.Bool?)
    || (error == ResultWrongType(f.handle) && f.params.Pseudonym? && !value.Bytes?)
    || (error == ResultNotSatisfied(f.handle) && f.params.AgeCheck? && value == Cbor.Bool(false))
    || (error == PseudonymPrfUnknown(f.handle) && f.params.Pseudonym?
        && f.params.prf != Some(Ascii("sha-256")) && f.params.prf != Some(Ascii("hashdh-bls12381g1")))
    || (error == PseudonymWrongLength(f.handle) && f.params.Pseudonym? && value.Bytes?
        && (f.params.prf == Some(Ascii("sha-256")) ==> |value.bytes| != 32)
        && (f.params.prf == Some(Ascii("hashdh-bls12381g1")) ==> |value.bytes| != 48))
  }

  ghost predicate SomeValueBreaks(plan: Plan, results: seq<Entry>, error: InvalidResponse) {
    exists i, value :: 0 <= i < |plan.functions| && Has(results, plan.functions[i].handle, value)
      && ValueBreaks(plan.functions[i], value, error)
  }

  ghost predicate ResultsBreak(plan: Plan, results: seq<Entry>, error: InvalidResponse) {
    || (error.ResultKeyNotText? && exists i :: 0 <= i < |results| && !results[i].key.Text?)
    || (error.ResultHandleUnexpected?
        && (exists i :: 0 <= i < |results| && results[i].key == Cbor.Text(error.handle))
        && forall i :: 0 <= i < |plan.functions| ==> plan.functions[i].handle != error.handle)
    || (error.ResultHandleMissing?
        && (exists i :: 0 <= i < |plan.functions| && plan.functions[i].handle == error.handle)
        && Lacks(results, error.handle))
    || SomeValueBreaks(plan, results, error)
  }

  ghost predicate MembersBreak(plan: Plan, entries: seq<Entry>, error: InvalidResponse) {
    || (error.PresentationKeyNotText? && exists i :: 0 <= i < |entries| && !entries[i].key.Text?)
    || (error.PresentationUnknownMember? && !IsKnown(error.member) && exists value :: Has(entries, error.member, value))
    || (error.PresentationMemberMissing? && IsRequired(error.member) && Lacks(entries, error.member))
    || (error.PresentationMemberWrongType? && exists value :: Has(entries, error.member, value) && IsWrongType(error.member, value))
    || (error.SystemIdNotOffered?
        && exists id :: Has(entries, Ascii("system_id"), Cbor.Text(id)) && (plan.systemIds.Some? ==> id !in plan.systemIds.value))
    || (error.ProofEmpty? && Has(entries, Ascii("proof"), Cbor.Bytes([])))
  }

  ghost predicate KeySetBreaks(entries: seq<Entry>, error: InvalidResponse) {
    exists keys :: Has(entries, Ascii("issuer_key_set"), Cbor.Array(keys)) && KeyBreaks(keys, error)
  }

  ghost predicate ProofTimeBreaks(plan: Plan, entries: seq<Entry>, error: InvalidResponse) {
    exists item :: IsField(entries, Ascii("proof_time"), item) && TimeBreaks(plan, item, error)
  }

  ghost predicate ResultMapBreaks(plan: Plan, entries: seq<Entry>, error: InvalidResponse) {
    exists results :: Has(entries, Ascii("results"), Cbor.Map(results)) && ResultsBreak(plan, results, error)
  }

  ghost predicate MapBreaks(plan: Plan, entries: seq<Entry>, error: InvalidResponse) {
    || MembersBreak(plan, entries, error) || KeySetBreaks(entries, error)
    || ProofTimeBreaks(plan, entries, error) || ResultMapBreaks(plan, entries, error)
  }

  /** The value of a member, or that there is none. */
  ghost predicate IsField(entries: seq<Entry>, name: Text, item: Option<Item>) {
    if item.Some? then Has(entries, name, item.value) else Lacks(entries, name)
  }

  /** The text is base64url of these bytes and not too long. */
  ghost predicate CarriesBytes(element: Token, bytes: seq<byte>) {
    element == Scalar(Json.String(Base64Url.Encode(bytes))) && |Base64Url.Encode(bytes)| <= 2097152
  }

  ghost predicate Refuses(element: Token, error: Cbor.Error) {
    exists bytes :: CarriesBytes(element, bytes) && Cbor.Decode(bytes) == Cbor.Refused(error)
  }

  ghost predicate Breaks(plan: Plan, element: Token, error: InvalidResponse) {
    || (error.PresentationNotString? && forall text :: element != Scalar(Json.String(text)))
    || (error.PresentationNotBase64url? && element.Scalar? && element.value.String? && forall bytes :: !CarriesBytes(element, bytes))
    || (error.CborMalformed? && Refuses(element, Cbor.Malformed))
    || (error.CborIndefiniteLength? && Refuses(element, Cbor.Indefinite))
    || (error.CborTrailingBytes? && Refuses(element, Cbor.Trailing))
    || (error.CborDuplicateKey? && Refuses(element, Cbor.DuplicateKey))
    || (error.PresentationNotMap?
        && exists bytes, item :: CarriesBytes(element, bytes) && Cbor.Decode(bytes) == Cbor.Got(item, []) && !item.Map?)
    || (exists bytes, entries :: CarriesBytes(element, bytes) && Cbor.Decode(bytes) == Cbor.Got(Cbor.Map(entries), [])
          && MapBreaks(plan, entries, error))
  }

  // ---- each check, when it refuses ---------------------------------------------------------------

  lemma KeysRefused(index: nat, keys: seq<Item>, error: InvalidResponse)
    requires IssuerKeys(index, keys) == Err(error)
    ensures KeyBreaks(keys, error)
  {
    if keys != [] && |keys| <= 8 {
      TryMapFails(KeyOf(index), keys, error);
      var k :| 0 <= k < |keys| && KeyOf(index)(keys[k]) == Err(error);
    }
  }

  lemma TimeRefused(plan: Plan, index: nat, item: Option<Item>, error: InvalidResponse)
    requires CheckProofTime(plan, index, item) == Err(error)
    ensures TimeBreaks(plan, item, error)
  {
    hide ProofTime.Parse;
    if item.Some? && item.value.Tag? && item.value.item.Text? && item.value.number == 0 {
      assert item == Some(Cbor.Tag(0, Cbor.Text(item.value.item.utf8)));
    }
  }

  lemma ValueRefused(f: PlannedFunction, value: Item, error: InvalidResponse)
    requires CheckValue(f, value) == Err(error)
    ensures ValueBreaks(f, value, error)
  {
    assert SHA_256[0] != HASHDH[0];
  }

  /** A failing map fails at some element. */
  lemma {:induction false} TryMapFails<T, U, E>(f: T -> Result<U, E>, xs: seq<T>, error: E)
    requires TryMap(f, xs) == Err(error)
    ensures exists k :: 0 <= k < |xs| && f(xs[k]) == Err(error)
  {
    if xs == [] {
    } else {
      var before := xs[..|xs| - 1];
      if TryMap(f, before).Err? {
        TryMapFails(f, before, error);
        var k :| 0 <= k < |before| && f(before[k]) == Err(error);
        assert xs[k] == before[k];
      }
    }
  }

  lemma NamesRefused(entries: seq<Entry>, refusal: InvalidResponse, error: InvalidResponse)
    requires NamedEntries(entries, refusal) == Err(error)
    ensures error == refusal && exists i :: 0 <= i < |entries| && !entries[i].key.Text?
  {
    TryMapFails(NameOf(refusal), entries, error);
    var k :| 0 <= k < |entries| && NameOf(refusal)(entries[k]) == Err(error);
    assert !entries[k].key.Text?;
  }

  lemma FieldLacks(entries: seq<Entry>, named: seq<Named>, name: Text)
    requires NamesOf(entries, named) && Cbor.DistinctKeys(entries)
    ensures Field(named, name).None? <==> Lacks(entries, name)
    ensures IsField(entries, name, Field(named, name))
  {
    FieldNone(named, name);
    forall i | 0 <= i < |entries| ensures entries[i].key == Cbor.Text(named[i].name) {
    }
    if Field(named, name).Some? {
      FieldIsEntry(entries, named, name, Field(named, name).value);
    }
  }

  lemma {:induction false} UnexpectedIs(functions: seq<PlannedFunction>, named: seq<Named>)
    requires FirstUnexpected(functions, named).Some?
    ensures exists i :: 0 <= i < |named| && named[i].name == FirstUnexpected(functions, named).value
    ensures !IsHandle(functions, FirstUnexpected(functions, named).value)
  {
    if !IsHandle(functions, named[0].name) {
    } else {
      UnexpectedIs(functions, named[1..]);
      var i :| 0 <= i < |named[1..]| && named[1..][i].name == FirstUnexpected(functions, named).value;
      assert named[i + 1] == named[1..][i];
    }
  }

  lemma {:induction false} UnknownIs(named: seq<Named>)
    requires FirstUnknown(named).Some?
    ensures exists i :: 0 <= i < |named| && named[i].name == FirstUnknown(named).value
    ensures !IsMember(FirstUnknown(named).value)
  {
    if !IsMember(named[0].name) {
    } else {
      hide IsMember;
      UnknownIs(named[1..]);
      var i :| 0 <= i < |named[1..]| && named[1..][i].name == FirstUnknown(named).value;
      assert named[i + 1] == named[1..][i];
    }
  }

  lemma ResultsRefused(plan: Plan, index: nat, results: seq<Entry>, error: InvalidResponse)
    requires Cbor.DistinctKeys(results) && Results(plan, index, results) == Err(error)
    ensures ResultsBreak(plan, results, error)
  {
    hide CheckValue, Field, ValueBreaks, SomeValueBreaks, IsHandle;
    var read := NamedEntries(results, ResultKeyNotText(index));
    if read.Err? {
      NamesRefused(results, ResultKeyNotText(index), read.error);
    } else {
      var named := read.value;
      NamedEntriesIff(results, ResultKeyNotText(index), named);
      if FirstUnexpected(plan.functions, named).Some? {
        UnexpectedIs(plan.functions, named);
        var handle := FirstUnexpected(plan.functions, named).value;
        var i :| 0 <= i < |named| && named[i].name == handle;
        assert results[i].key == Cbor.Text(handle);
        NoHandle(plan.functions, handle);
      } else if TryMap(HandlePresent(named), plan.functions).Err? {
        TryMapFails(HandlePresent(named), plan.functions, error);
        var k :| 0 <= k < |plan.functions| && HandlePresent(named)(plan.functions[k]) == Err(error);
        FieldLacks(results, named, plan.functions[k].handle);
      } else {
        ValuesRefused(plan, results, named, error);
      }
    }
  }

  lemma NoHandle(functions: seq<PlannedFunction>, handle: Text)
    requires !IsHandle(functions, handle)
    ensures forall i :: 0 <= i < |functions| ==> functions[i].handle != handle
  {
  }

  lemma ValuesRefused(plan: Plan, results: seq<Entry>, named: seq<Named>, error: InvalidResponse)
    requires NamesOf(results, named) && Cbor.DistinctKeys(results)
    requires TryMap(HandlePresent(named), plan.functions).Ok? && TryMap(ResultOf(named), plan.functions) == Err(error)
    ensures SomeValueBreaks(plan, results, error)
  {
    hide CheckValue, ValueBreaks, Field;
    TryMapFails(ResultOf(named), plan.functions, error);
    var k :| 0 <= k < |plan.functions| && ResultOf(named)(plan.functions[k]) == Err(error);
    var present := TryMap(HandlePresent(named), plan.functions).value;
    TryMapOk(HandlePresent(named), plan.functions, present);
    assert HandlePresent(named)(plan.functions[k]) == Ok(present[k]);
    var value := Field(named, plan.functions[k].handle).value;
    FieldIsEntry(results, named, plan.functions[k].handle, value);
    ValueRefused(plan.functions[k], value, error);
  }

  lemma UnknownRefused(plan: Plan, index: nat, entries: seq<Entry>, named: seq<Named>)
    requires NamesOf(entries, named) && FirstUnknown(named).Some?
    ensures MembersBreak(plan, entries, PresentationUnknownMember(index, FirstUnknown(named).value))
  {
    hide IsMember, IsKnown, FirstUnknown;
    UnknownIs(named);
    var name := FirstUnknown(named).value;
    MembersAre(name);
    var i :| 0 <= i < |named| && named[i].name == name;
    assert entries[i] == MemberEntry(name, named[i].value);
    assert Has(entries, name, named[i].value);
  }

  /** All four required members are there, of their types. */
  predicate AllTyped(named: seq<Named>) {
    var systemId, proof := Field(named, SYSTEM_ID), Field(named, PROOF);
    var keys, results := Field(named, ISSUER_KEY_SET), Field(named, RESULTS);
    && systemId.Some? && systemId.value.Text? && proof.Some? && proof.value.Bytes?
    && keys.Some? && keys.value.Array? && results.Some? && results.value.Map?
  }

  lemma UntypedRefused(plan: Plan, index: nat, entries: seq<Entry>, named: seq<Named>, error: InvalidResponse)
    requires NamesOf(entries, named) && Cbor.DistinctKeys(entries)
    requires FirstUnknown(named).None? && !AllTyped(named) && MembersOf(plan, index, named) == Err(error)
    ensures MembersBreak(plan, entries, error)
  {
    hide IssuerKeys, CheckProofTime, Results, Field, FirstUnknown, IsKnown, Offered, IsField;
    hide KeyBreaks, TimeBreaks, ResultsBreak;
    FieldLacks(entries, named, SYSTEM_ID);
    FieldLacks(entries, named, PROOF);
    FieldLacks(entries, named, ISSUER_KEY_SET);
    FieldLacks(entries, named, RESULTS);
    FieldHas(entries, named, SYSTEM_ID);
    FieldHas(entries, named, PROOF);
    FieldHas(entries, named, ISSUER_KEY_SET);
    FieldHas(entries, named, RESULTS);
  }

  lemma FieldHas(entries: seq<Entry>, named: seq<Named>, name: Text)
    requires NamesOf(entries, named) && Cbor.DistinctKeys(entries)
    ensures Field(named, name).Some? ==> Has(entries, name, Field(named, name).value)
  {
    if Field(named, name).Some? {
      FieldIsEntry(entries, named, name, Field(named, name).value);
    }
  }

  lemma ContentRefused(plan: Plan, index: nat, entries: seq<Entry>, named: seq<Named>, error: InvalidResponse)
    requires NamesOf(entries, named) && Cbor.DistinctKeys(entries)
    requires forall i :: 0 <= i < |entries| && entries[i].value.Map? ==> Cbor.DistinctKeys(entries[i].value.entries)
    requires FirstUnknown(named).None? && AllTyped(named) && MembersOf(plan, index, named) == Err(error)
    ensures MapBreaks(plan, entries, error)
  {
    hide IssuerKeys, CheckProofTime, Results, Field, FirstUnknown, KeyBreaks, TimeBreaks, ResultsBreak, IsKnown, IsField;
    FieldHas(entries, named, SYSTEM_ID);
    FieldHas(entries, named, PROOF);
    FieldHas(entries, named, ISSUER_KEY_SET);
    FieldHas(entries, named, RESULTS);
    FieldLacks(entries, named, PROOF_TIME);
    var keys, results := Field(named, ISSUER_KEY_SET).value.items, Field(named, RESULTS).value.entries;
    if !Offered(plan, Field(named, SYSTEM_ID).value.utf8) {
      assert MembersBreak(plan, entries, error);
    } else if Field(named, PROOF).value.bytes == [] {
      assert MembersBreak(plan, entries, error);
    } else {
      hide MembersBreak;
      ResultsAreDistinct(entries, results);
      if IssuerKeys(index, keys) == Err(error) {
        KeysRefused(index, keys, error);
        assert KeySetBreaks(entries, error);
      } else if CheckProofTime(plan, index, Field(named, PROOF_TIME)) == Err(error) {
        TimeRefused(plan, index, Field(named, PROOF_TIME), error);
        assert ProofTimeBreaks(plan, entries, error);
      } else {
        ResultsRefused(plan, index, results, error);
        assert ResultMapBreaks(plan, entries, error);
      }
    }
  }

  lemma ResultsAreDistinct(entries: seq<Entry>, results: seq<Entry>)
    requires forall i :: 0 <= i < |entries| && entries[i].value.Map? ==> Cbor.DistinctKeys(entries[i].value.entries)
    requires Has(entries, RESULTS, Cbor.Map(results))
    ensures Cbor.DistinctKeys(results)
  {
    var k :| 0 <= k < |entries| && entries[k] == MemberEntry(RESULTS, Cbor.Map(results));
  }

  lemma MembersRefused(plan: Plan, index: nat, entries: seq<Entry>, named: seq<Named>, error: InvalidResponse)
    requires NamesOf(entries, named) && Cbor.DistinctKeys(entries)
    requires forall i :: 0 <= i < |entries| && entries[i].value.Map? ==> Cbor.DistinctKeys(entries[i].value.entries)
    requires MembersOf(plan, index, named) == Err(error)
    ensures MapBreaks(plan, entries, error)
  {
    if FirstUnknown(named).Some? {
      assert error == PresentationUnknownMember(index, FirstUnknown(named).value);
      UnknownRefused(plan, index, entries, named);
    } else if AllTyped(named) {
      ContentRefused(plan, index, entries, named, error);
    } else {
      UntypedRefused(plan, index, entries, named, error);
    }
  }

  // ---- the whole presentation -----------------------------------------------------------------------

  lemma TextIsBase64(text: Text)
    ensures Base64Url.Decode(text, MAX_PRESENTATION_INPUT).None? <==>
              forall bytes :: !CarriesBytes(Scalar(Json.String(text)), bytes)
    ensures Base64Url.Decode(text, MAX_PRESENTATION_INPUT).Some? ==>
              CarriesBytes(Scalar(Json.String(text)), Base64Url.Decode(text, MAX_PRESENTATION_INPUT).value)
  {
    hide Base64Url.Decode, Base64Url.Encode;
    forall bytes
      ensures CarriesBytes(Scalar(Json.String(text)), bytes) <==> Base64Url.Decode(text, MAX_PRESENTATION_INPUT) == Some(bytes)
    {
      Base64Url.DecodeIff(text, MAX_PRESENTATION_INPUT, bytes);
    }
  }

  /** Every refusal of a presentation names a rule it breaks. */
  lemma RefusalIsTrue(plan: Plan, index: nat, element: Token, error: InvalidResponse)
    requires PresentationOf(plan, index, element) == Err(error)
    ensures Breaks(plan, element, error)
  {
    hide Base64Url.Decode, Cbor.Decode, NamedEntries, MembersOf, CarriesBytes, MapBreaks;
    if element.Scalar? && element.value.String? {
      TextIsBase64(element.value.text);
      var decoded := Base64Url.Decode(element.value.text, MAX_PRESENTATION_INPUT);
      if decoded.Some? && Cbor.Decode(decoded.value).Got? {
        NothingLeft(decoded.value);
        var item := Cbor.Decode(decoded.value).value;
        if item.Map? {
          MapIsDistinct(decoded.value, item.entries);
          MapRefused(plan, index, item.entries, error);
        }
      }
    }
  }

  lemma MapRefused(plan: Plan, index: nat, entries: seq<Entry>, error: InvalidResponse)
    requires Cbor.DistinctKeys(entries)
    requires forall i :: 0 <= i < |entries| && entries[i].value.Map? ==> Cbor.DistinctKeys(entries[i].value.entries)
    requires var named := NamedEntries(entries, PresentationKeyNotText(index));
      if named.Err? then error == named.error else MembersOf(plan, index, named.value) == Err(error)
    ensures MapBreaks(plan, entries, error)
  {
    hide MembersOf;
    var named := NamedEntries(entries, PresentationKeyNotText(index));
    if named.Err? {
      NamesRefused(entries, PresentationKeyNotText(index), error);
    } else {
      NamedEntriesIff(entries, PresentationKeyNotText(index), named.value);
      MembersRefused(plan, index, entries, named.value, error);
    }
  }

  // ---- the whole response --------------------------------------------------------------------------------

  /** Several presentations are allowed exactly when the query says "multiple": true. */
  lemma MultipleIs(plan: Plan)
    ensures AllowsMultiple(plan) <==>
      plan.raw.Object? && Ascii("multiple") in plan.raw.members && plan.raw.members[Ascii("multiple")] == Json.Bool(true)
  {
  }

  /** The entry of a response is the first member named by the query's "id". */
  lemma EntryIs(plan: Plan, members: seq<TokenMember>, entry: Token)
    requires DistinctMembers(members)
    ensures EntryOf(plan, members) == Ok(entry) <==>
      plan.raw.Object? && Ascii("id") in plan.raw.members && plan.raw.members[Ascii("id")].String?
      && TokenMember(plan.raw.members[Ascii("id")].text, entry) in members
  {
    if plan.raw.Object? && Ascii("id") in plan.raw.members && plan.raw.members[Ascii("id")].String? {
      MemberNamedIff(members, plan.raw.members[Ascii("id")].text, entry);
    }
  }

  lemma {:induction false} MemberNamedIff(members: seq<TokenMember>, name: Text, value: Token)
    requires DistinctMembers(members)
    ensures MemberNamed(members, name) == Some(value) <==> TokenMember(name, value) in members
  {
    if members == [] {
    } else {
      MemberNamedIff(members[1..], name, value);
      if TokenMember(name, value) in members[1..] {
        var i :| 0 <= i < |members[1..]| && members[1..][i] == TokenMember(name, value);
        assert members[i + 1] == TokenMember(name, value);
      }
    }
  }

  /** What a refusal of the list of presentations says. */
  lemma ListRefusals(plan: Plan, entry: Token)
    ensures !entry.Elements? <==> PresentationsOf(plan, entry) == Err(PresentationsNotArray)
    ensures entry.Elements? && entry.elements == [] <==> PresentationsOf(plan, entry) == Err(PresentationsEmpty)
    ensures entry.Elements? && |entry.elements| > 1 && !AllowsMultiple(plan)
       <==> PresentationsOf(plan, entry) == Err(PresentationsMultipleNotAllowed)
  {
    hide AllowsMultiple, PresentationOf;
    if entry.Elements? && TryMap(CheckAt(plan, entry.elements), Places(|entry.elements|)).Err? {
      var error := TryMap(CheckAt(plan, entry.elements), Places(|entry.elements|)).error;
      TryMapFails(CheckAt(plan, entry.elements), Places(|entry.elements|), error);
      var k :| 0 <= k < |Places(|entry.elements|)| && CheckAt(plan, entry.elements)(Places(|entry.elements|)[k]) == Err(error);
      RefusalIsTrue(plan, k, entry.elements[k], error);
      if IsOfList(error) {
        NotOfElement(plan, entry.elements[k], error);
      }
    }
  }

  predicate IsOfList(error: InvalidResponse) {
    error in {PresentationsNotArray, PresentationsEmpty, PresentationsMultipleNotAllowed}
  }

  lemma NotOfMap(plan: Plan, entries: seq<Entry>, error: InvalidResponse)
    requires IsOfList(error)
    ensures !MapBreaks(plan, entries, error)
  {
  }

  lemma NotOfElement(plan: Plan, element: Token, error: InvalidResponse)
    requires IsOfList(error)
    ensures !Breaks(plan, element, error)
  {
    hide Base64Url.Encode, Cbor.Decode, MapBreaks;
    forall entries ensures !MapBreaks(plan, entries, error) {
      NotOfMap(plan, entries, error);
    }
  }
}
