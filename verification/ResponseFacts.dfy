/** What an accepted presentation is: exactly one that carries a conforming answer to the request. */
module ResponseFacts {
  import opened Bytes
  import opened Wrappers
  import opened DcqlPath
  import opened Request
  import opened Response
  import Base64Url
  import Cbor
  import CborFacts
  import ProofTime

  // ---- what conforms -------------------------------------------------------------------

  /** The value a function asks for: a pseudonym of its prf's length, or a predicate that holds. */
  ghost predicate Fits(planned: PlannedFunction, value: ResultValue) {
    match planned.params
    case Pseudonym(_, _, prf, _, _) =>
      value.PseudonymResult? && ((prf == Some(SHA_256) && |value.bytes| == 32) || (prf == Some(HASHDH) && |value.bytes| == 48))
    case AgeCheck(_, _, _) => value == Predicate
    case Unknown(_) => false
  }

  /** One result per requested function, under its handle and in request order. */
  ghost predicate AnswersPlan(plan: Plan, results: seq<NamedResult>) {
    && |results| == |plan.functions|
    && forall i :: 0 <= i < |results| ==>
         results[i].handle == plan.functions[i].handle && Fits(plan.functions[i], results[i].value)
  }

  ghost predicate Conforms(plan: Plan, p: Presentation) {
    && plan.systemIds.Some? && p.systemId in plan.systemIds.value
    && p.proof != []
    && 1 <= |p.issuerKeySet| <= 8
    && (forall i :: 0 <= i < |p.issuerKeySet| ==> 1 <= |p.issuerKeySet[i]| <= 4096)
    && (p.proofTime.None? ==> plan.sourceFormat != MSO_MDOC)
    && (p.proofTime.Some? ==> ProofTime.Parse(p.proofTime.value).Ok?)
    && AnswersPlan(plan, p.results)
  }

  function ItemOf(value: ResultValue): Item {
    match value
    case PseudonymResult(bytes) => Cbor.Bytes(bytes)
    case Predicate => Cbor.Bool(true)
  }

  function ResultEntry(result: NamedResult): Entry {
    Cbor.Entry(Cbor.Text(result.handle), ItemOf(result.value))
  }

  /** The entries of a results map are the given results, each once and nothing else. */
  ghost predicate CarriesResults(entries: seq<Entry>, results: seq<NamedResult>) {
    |entries| == |results| && forall i :: 0 <= i < |results| ==> ResultEntry(results[i]) in entries
  }

  function KeyItems(keys: seq<seq<byte>>): seq<Item> {
    seq(|keys|, i requires 0 <= i < |keys| => Cbor.Bytes(keys[i]))
  }

  function MemberEntry(name: Text, value: Item): Entry {
    Cbor.Entry(Cbor.Text(name), value)
  }

  function TdateItem(text: Text): Item {
    Cbor.Tag(0, Cbor.Text(text))
  }

  /** The map holds the presentation's members under their names, and no other member. */
  ghost predicate Carries(entries: seq<Entry>, p: Presentation) {
    && (forall i :: 0 <= i < |entries| ==> entries[i].key.Text? && IsMember(entries[i].key.utf8))
    && MemberEntry(SYSTEM_ID, Cbor.Text(p.systemId)) in entries
    && MemberEntry(PROOF, Cbor.Bytes(p.proof)) in entries
    && MemberEntry(ISSUER_KEY_SET, Cbor.Array(KeyItems(p.issuerKeySet))) in entries
    && (p.proofTime.Some? ==> MemberEntry(PROOF_TIME, TdateItem(p.proofTime.value)) in entries)
    && (p.proofTime.None? ==> forall i :: 0 <= i < |entries| ==> entries[i].key != Cbor.Text(PROOF_TIME))
    && exists results :: MemberEntry(RESULTS, Cbor.Map(results)) in entries && Cbor.DistinctKeys(results)
         && CarriesResults(results, p.results)
  }

  // ---- lookups by name -----------------------------------------------------------------

  ghost predicate DistinctNames(named: seq<Named>) {
    forall i, j :: 0 <= i < j < |named| ==> named[i].name != named[j].name
  }

  lemma {:induction false} FieldIff(named: seq<Named>, name: Text, value: Item)
    requires DistinctNames(named)
    ensures Field(named, name) == Some(value) <==> Named(name, value) in named
  {
    if named == [] {
    } else {
      FieldIff(named[1..], name, value);
      if Named(name, value) in named[1..] {
        var i :| 0 <= i < |named[1..]| && named[1..][i] == Named(name, value);
        assert named[i + 1] == Named(name, value);
      }
    }
  }

  lemma {:induction false} FieldNone(named: seq<Named>, name: Text)
    ensures Field(named, name).None? <==> forall i :: 0 <= i < |named| ==> named[i].name != name
  {
    if named == [] {
    } else {
      FieldNone(named[1..], name);
      assert forall i :: 1 <= i < |named| ==> named[i] == named[1..][i - 1];
      assert forall i :: 0 <= i < |named[1..]| ==> named[1..][i] == named[i + 1];
    }
  }

  ghost predicate NamesOf(entries: seq<Entry>, named: seq<Named>) {
    |named| == |entries| && forall i :: 0 <= i < |entries| ==> entries[i] == MemberEntry(named[i].name, named[i].value)
  }

  lemma NamedEntriesIff(entries: seq<Entry>, refusal: InvalidResponse, named: seq<Named>)
    ensures NamedEntries(entries, refusal) == Ok(named) <==> NamesOf(entries, named)
  {
    TryMapOk(NameOf(refusal), entries, named);
    forall i | 0 <= i < |entries| && i < |named|
      ensures NameOf(refusal)(entries[i]) == Ok(named[i]) <==> entries[i] == MemberEntry(named[i].name, named[i].value)
    {
    }
  }

  lemma NamesAreDistinct(entries: seq<Entry>, named: seq<Named>)
    requires NamesOf(entries, named) && Cbor.DistinctKeys(entries)
    ensures DistinctNames(named)
  {
    forall i, j | 0 <= i < j < |named| ensures named[i].name != named[j].name {
      assert entries[i].key != entries[j].key;
    }
  }

  /** A member of the map is the field of its name. */
  lemma FieldIsEntry(entries: seq<Entry>, named: seq<Named>, name: Text, value: Item)
    requires NamesOf(entries, named) && Cbor.DistinctKeys(entries)
    ensures Field(named, name) == Some(value) <==> MemberEntry(name, value) in entries
  {
    NamesAreDistinct(entries, named);
    FieldIff(named, name, value);
    if Named(name, value) in named {
      var i :| 0 <= i < |named| && named[i] == Named(name, value);
      assert entries[i] == MemberEntry(name, value);
    }
    if MemberEntry(name, value) in entries {
      var i :| 0 <= i < |entries| && entries[i] == MemberEntry(name, value);
      assert named[i] == Named(name, value);
    }
  }

  // ---- results are in bijection with handles -------------------------------------------

  /** Distinct elements of `a`, all among `b`, are no more than `b` has; as many, and they are all of `b`. */
  lemma {:induction false} Pigeonhole<T>(a: seq<T>, b: seq<T>)
    requires forall i, j :: 0 <= i < j < |a| ==> a[i] != a[j]
    requires forall i :: 0 <= i < |a| ==> a[i] in b
    ensures |a| <= |b|
    ensures |a| == |b| ==> forall i :: 0 <= i < |b| ==> b[i] in a
  {
    if a == [] {
    } else {
      var n := |a| - 1;
      var k :| 0 <= k < |b| && b[k] == a[n];
      var rest := b[..k] + b[k + 1..];
      assert forall i :: 0 <= i < |b| && i != k ==> b[i] in rest by {
        forall i | 0 <= i < |b| && i != k ensures b[i] in rest {
          assert b[i] == if i < k then rest[i] else rest[i - 1];
        }
      }
      Pigeonhole(a[..n], rest);
      if |a| == |b| {
        forall i | 0 <= i < |b| ensures b[i] in a {
          if i != k {
            var j :| 0 <= j < |rest| && rest[j] == b[i];
            assert rest[j] in a[..n];
          }
        }
      }
    }
  }

  lemma CheckValueIff(planned: PlannedFunction, value: Item, result: ResultValue)
    ensures CheckValue(planned, value) == Ok(result) <==> value == ItemOf(result) && Fits(planned, result)
  {
    assert SHA_256[0] != HASHDH[0];
  }

  lemma {:induction false} NoneUnexpected(functions: seq<PlannedFunction>, named: seq<Named>)
    ensures FirstUnexpected(functions, named).None? <==> forall i :: 0 <= i < |named| ==> IsHandle(functions, named[i].name)
  {
    if named == [] {
    } else {
      NoneUnexpected(functions, named[1..]);
      assert forall i :: 1 <= i < |named| ==> named[i] == named[1..][i - 1];
      assert forall i :: 0 <= i < |named[1..]| ==> named[1..][i] == named[i + 1];
    }
  }

  function Handles(functions: seq<PlannedFunction>): seq<Text> {
    seq(|functions|, i requires 0 <= i < |functions| => functions[i].handle)
  }

  function Names(named: seq<Named>): seq<Text> {
    seq(|named|, i requires 0 <= i < |named| => named[i].name)
  }

  /** Names that are all handles, and handles that are all names, are equally many. */
  lemma SameCount(functions: seq<PlannedFunction>, named: seq<Named>)
    requires DistinctHandles(functions) && DistinctNames(named)
    requires forall i :: 0 <= i < |named| ==> IsHandle(functions, named[i].name)
    requires forall i :: 0 <= i < |functions| ==> Field(named, functions[i].handle).Some?
    ensures |named| == |functions|
  {
    HandlesAreNames(functions, named);
    NamesAreHandles(functions, named);
    Pigeonhole(Handles(functions), Names(named));
    Pigeonhole(Names(named), Handles(functions));
  }

  lemma HandlesAreNames(functions: seq<PlannedFunction>, named: seq<Named>)
    requires forall i :: 0 <= i < |functions| ==> Field(named, functions[i].handle).Some?
    ensures forall i :: 0 <= i < |functions| ==> Handles(functions)[i] in Names(named)
  {
    forall i | 0 <= i < |functions| ensures Handles(functions)[i] in Names(named) {
      assert Field(named, functions[i].handle).Some?;
      FieldNone(named, functions[i].handle);
      var j :| 0 <= j < |named| && named[j].name == functions[i].handle;
      assert Names(named)[j] == functions[i].handle;
    }
  }

  lemma NamesAreHandles(functions: seq<PlannedFunction>, named: seq<Named>)
    requires forall i :: 0 <= i < |named| ==> IsHandle(functions, named[i].name)
    ensures forall i :: 0 <= i < |named| ==> Names(named)[i] in Handles(functions)
  {
    forall i | 0 <= i < |named| ensures Names(named)[i] in Handles(functions) {
      assert IsHandle(functions, named[i].name);
      var j :| 0 <= j < |functions| && functions[j].handle == named[i].name;
      assert Handles(functions)[j] == named[i].name;
    }
  }

  function ResultEntries(results: seq<NamedResult>): seq<Entry> {
    seq(|results|, i requires 0 <= i < |results| => ResultEntry(results[i]))
  }

  /** The map holds nothing but the answers, so each of its keys is a handle. */
  lemma NoOtherResults(plan: Plan, entries: seq<Entry>, results: seq<NamedResult>)
    requires DistinctHandles(plan.functions) && AnswersPlan(plan, results) && CarriesResults(entries, results)
    ensures forall i :: 0 <= i < |entries| ==> entries[i].key.Text? && IsHandle(plan.functions, entries[i].key.utf8)
  {
    var answers := ResultEntries(results);
    Pigeonhole(answers, entries);
    forall i | 0 <= i < |entries| ensures entries[i].key.Text? && IsHandle(plan.functions, entries[i].key.utf8) {
      var j :| 0 <= j < |answers| && answers[j] == entries[i];
      assert plan.functions[j].handle == entries[i].key.utf8;
    }
  }

  lemma ResultOfIff(named: seq<Named>, planned: PlannedFunction, result: NamedResult)
    ensures ResultOf(named)(planned) == Ok(result) <==>
      result.handle == planned.handle && Field(named, planned.handle) == Some(ItemOf(result.value))
      && Fits(planned, result.value)
  {
    var value := Field(named, planned.handle);
    if value.Some? {
      CheckValueIff(planned, value.value, result.value);
    }
  }

  /** Results are accepted exactly when the map is, entry for entry, one fitting value per handle. */
  lemma ResultsIff(plan: Plan, index: nat, entries: seq<Entry>, results: seq<NamedResult>)
    requires DistinctHandles(plan.functions) && Cbor.DistinctKeys(entries)
    ensures Results(plan, index, entries) == Ok(results) <==> AnswersPlan(plan, results) && CarriesResults(entries, results)
  {
    if Results(plan, index, entries) == Ok(results) {
      AcceptedResultsAnswer(plan, index, entries, results);
    }
    if AnswersPlan(plan, results) && CarriesResults(entries, results) {
      AnswersAreAccepted(plan, index, entries, results);
    }
  }

  lemma AcceptedResultsAnswer(plan: Plan, index: nat, entries: seq<Entry>, results: seq<NamedResult>)
    requires DistinctHandles(plan.functions) && Cbor.DistinctKeys(entries)
    requires Results(plan, index, entries) == Ok(results)
    ensures AnswersPlan(plan, results) && CarriesResults(entries, results)
  {
    var named := NamedEntries(entries, ResultKeyNotText(index)).value;
    NamedEntriesIff(entries, ResultKeyNotText(index), named);
    NamesAreDistinct(entries, named);
    NoneUnexpected(plan.functions, named);
    TryMapOk(ResultOf(named), plan.functions, results);
    forall i | 0 <= i < |plan.functions|
      ensures results[i].handle == plan.functions[i].handle && Fits(plan.functions[i], results[i].value)
      ensures Field(named, plan.functions[i].handle).Some? && ResultEntry(results[i]) in entries
    {
      ResultOfIff(named, plan.functions[i], results[i]);
      FieldIsEntry(entries, named, results[i].handle, ItemOf(results[i].value));
    }
    SameCount(plan.functions, named);
  }

  lemma AnswersAreAccepted(plan: Plan, index: nat, entries: seq<Entry>, results: seq<NamedResult>)
    requires DistinctHandles(plan.functions) && Cbor.DistinctKeys(entries)
    requires AnswersPlan(plan, results) && CarriesResults(entries, results)
    ensures Results(plan, index, entries) == Ok(results)
  {
    NoOtherResults(plan, entries, results);
    var named := seq(|entries|, i requires 0 <= i < |entries| && entries[i].key.Text? => Named(entries[i].key.utf8, entries[i].value));
    NamedEntriesIff(entries, ResultKeyNotText(index), named);
    NoneUnexpected(plan.functions, named);
    var present := seq(|plan.functions|, _ => ());
    forall i | 0 <= i < |plan.functions|
      ensures ResultOf(named)(plan.functions[i]) == Ok(results[i])
      ensures HandlePresent(named)(plan.functions[i]) == Ok(present[i])
    {
      assert ResultEntry(results[i]) in entries;
      FieldIsEntry(entries, named, results[i].handle, ItemOf(results[i].value));
      ResultOfIff(named, plan.functions[i], results[i]);
    }
    TryMapOk(HandlePresent(named), plan.functions, present);
    TryMapOk(ResultOf(named), plan.functions, results);
  }

  // ---- the whole presentation ------------------------------------------------------------

  lemma MemberNamesDiffer()
    ensures SYSTEM_ID != PROOF && SYSTEM_ID != ISSUER_KEY_SET && SYSTEM_ID != PROOF_TIME && SYSTEM_ID != RESULTS
    ensures PROOF != ISSUER_KEY_SET && PROOF != PROOF_TIME && PROOF != RESULTS
    ensures ISSUER_KEY_SET != PROOF_TIME && ISSUER_KEY_SET != RESULTS && PROOF_TIME != RESULTS
  {
  }

  lemma {:induction false} NoneUnknown(named: seq<Named>)
    ensures FirstUnknown(named).None? <==> forall i :: 0 <= i < |named| ==> IsMember(named[i].name)
  {
    if named == [] {
    } else {
      NoneUnknown(named[1..]);
      assert forall i :: 1 <= i < |named| ==> named[i] == named[1..][i - 1];
      assert forall i :: 0 <= i < |named[1..]| ==> named[1..][i] == named[i + 1];
    }
  }

  lemma IssuerKeysIff(index: nat, items: seq<Item>, keys: seq<seq<byte>>)
    ensures IssuerKeys(index, items) == Ok(keys) <==>
      items == KeyItems(keys) && 1 <= |keys| <= 8 && forall i :: 0 <= i < |keys| ==> 1 <= |keys[i]| <= 4096
  {
    TryMapOk(KeyOf(index), items, keys);
    if IssuerKeys(index, items) == Ok(keys) {
      forall i | 0 <= i < |keys| ensures items[i] == KeyItems(keys)[i] && 1 <= |keys[i]| <= 4096 {
        assert KeyOf(index)(items[i]) == Ok(keys[i]);
      }
    }
    if items == KeyItems(keys) && 1 <= |keys| <= 8 && forall i :: 0 <= i < |keys| ==> 1 <= |keys[i]| <= 4096 {
      forall i | 0 <= i < |items| ensures KeyOf(index)(items[i]) == Ok(keys[i]) {
      }
    }
  }

  lemma ProofTimeIff(plan: Plan, index: nat, item: Option<Item>, proofTime: Option<Text>)
    ensures CheckProofTime(plan, index, item) == Ok(proofTime) <==>
      && (proofTime.None? ==> item.None? && plan.sourceFormat != MSO_MDOC)
      && (proofTime.Some? ==> item == Some(TdateItem(proofTime.value)) && ProofTime.Parse(proofTime.value).Ok?)
  {
    hide ProofTime.Parse;
  }

  /** The fields of the map are the members of the presentation. */
  ghost predicate HasFields(named: seq<Named>, p: Presentation, results: seq<Entry>) {
    && (forall i :: 0 <= i < |named| ==> IsMember(named[i].name))
    && Field(named, SYSTEM_ID) == Some(Cbor.Text(p.systemId))
    && Field(named, PROOF) == Some(Cbor.Bytes(p.proof))
    && Field(named, ISSUER_KEY_SET) == Some(Cbor.Array(KeyItems(p.issuerKeySet)))
    && Field(named, PROOF_TIME) == (if p.proofTime.Some? then Some(TdateItem(p.proofTime.value)) else None)
    && Field(named, RESULTS) == Some(Cbor.Map(results))
    && CarriesResults(results, p.results)
  }

  lemma MembersIff(plan: Plan, index: nat, named: seq<Named>, p: Presentation, results: seq<Entry>)
    requires DistinctHandles(plan.functions)
    requires Field(named, RESULTS) == Some(Cbor.Map(results)) && Cbor.DistinctKeys(results)
    ensures MembersOf(plan, index, named) == Ok(p) <==> HasFields(named, p, results) && Conforms(plan, p)
  {
    hide Results, IssuerKeys, CheckProofTime, Field, FirstUnknown, AnswersPlan, CarriesResults, ProofTime.Parse, IsMember;
    NoneUnknown(named);
    var keys := Field(named, ISSUER_KEY_SET);
    if keys.Some? && keys.value.Array? {
      IssuerKeysIff(index, keys.value.items, p.issuerKeySet);
    }
    ProofTimeIff(plan, index, Field(named, PROOF_TIME), p.proofTime);
    ResultsIff(plan, index, results, p.results);
  }

  lemma CarriesIsHasFields(entries: seq<Entry>, named: seq<Named>, p: Presentation, results: seq<Entry>)
    requires NamesOf(entries, named) && Cbor.DistinctKeys(entries)
    requires MemberEntry(RESULTS, Cbor.Map(results)) in entries && Cbor.DistinctKeys(results)
    ensures Carries(entries, p) <==> HasFields(named, p, results)
  {
    hide Field, IsMember, CarriesResults;
    FieldIsEntry(entries, named, SYSTEM_ID, Cbor.Text(p.systemId));
    FieldIsEntry(entries, named, PROOF, Cbor.Bytes(p.proof));
    FieldIsEntry(entries, named, ISSUER_KEY_SET, Cbor.Array(KeyItems(p.issuerKeySet)));
    FieldIsEntry(entries, named, RESULTS, Cbor.Map(results));
    FieldNone(named, PROOF_TIME);
    if p.proofTime.Some? {
      FieldIsEntry(entries, named, PROOF_TIME, TdateItem(p.proofTime.value));
    }
    forall i | 0 <= i < |entries|
      ensures entries[i].key == Cbor.Text(named[i].name)
    {
    }
    forall other | MemberEntry(RESULTS, Cbor.Map(other)) in entries ensures other == results {
      FieldIsEntry(entries, named, RESULTS, Cbor.Map(other));
    }
  }

  /** A presentation is accepted exactly when its text is the encoding of a map that carries it, and it answers the request. */
  ghost predicate Bears(plan: Plan, element: Token, p: Presentation) {
    exists bytes, entries ::
      && element == Scalar(Json.String(Base64Url.Encode(bytes)))
      && |Base64Url.Encode(bytes)| <= MAX_PRESENTATION_INPUT
      && Cbor.Decode(bytes) == Cbor.Got(Cbor.Map(entries), [])
      && Carries(entries, p) && Conforms(plan, p)
  }

  lemma MapIsDistinct(bytes: seq<byte>, entries: seq<Entry>)
    requires Cbor.Decode(bytes) == Cbor.Got(Cbor.Map(entries), [])
    ensures Cbor.DistinctKeys(entries)
    ensures forall i :: 0 <= i < |entries| && entries[i].value.Map? ==> Cbor.DistinctKeys(entries[i].value.entries)
  {
    CborFacts.AcceptedIsWellFormed(bytes);
  }

  lemma EntriesIff(plan: Plan, index: nat, entries: seq<Entry>, p: Presentation)
    requires DistinctHandles(plan.functions) && Cbor.DistinctKeys(entries)
    requires forall i :: 0 <= i < |entries| && entries[i].value.Map? ==> Cbor.DistinctKeys(entries[i].value.entries)
    ensures var named := NamedEntries(entries, PresentationKeyNotText(index));
      (named.Ok? && MembersOf(plan, index, named.value) == Ok(p)) <==> Carries(entries, p) && Conforms(plan, p)
  {
    hide Conforms, CarriesResults;
    var read := NamedEntries(entries, PresentationKeyNotText(index));
    if read.Ok? {
      var named := read.value;
      NamedEntriesIff(entries, PresentationKeyNotText(index), named);
      var field := Field(named, RESULTS);
      if field.Some? && field.value.Map? {
        var results := field.value.entries;
        FieldIsEntry(entries, named, RESULTS, Cbor.Map(results));
        var k :| 0 <= k < |entries| && entries[k] == MemberEntry(RESULTS, Cbor.Map(results));
        MembersIff(plan, index, named, p, results);
        CarriesIsHasFields(entries, named, p, results);
      } else if results :| MemberEntry(RESULTS, Cbor.Map(results)) in entries {
        FieldIsEntry(entries, named, RESULTS, Cbor.Map(results));
        assert false;
      }
    } else if Carries(entries, p) {
      KeysAreText(entries, p, PresentationKeyNotText(index));
    }
  }

  lemma KeysAreText(entries: seq<Entry>, p: Presentation, refusal: InvalidResponse)
    requires Carries(entries, p)
    ensures NamedEntries(entries, refusal).Ok?
  {
    var named := seq(|entries|, i requires 0 <= i < |entries| && entries[i].key.Text? => Named(entries[i].key.utf8, entries[i].value));
    NamedEntriesIff(entries, refusal, named);
  }

  lemma PresentationIff(plan: Plan, index: nat, element: Token, p: Presentation)
    requires DistinctHandles(plan.functions)
    ensures PresentationOf(plan, index, element) == Ok(p) <==> Bears(plan, element, p)
  {
    hide Carries, Conforms, MembersOf, NamedEntries, Base64Url.Decode, Base64Url.Encode, Cbor.Decode;
    forall bytes, entries | Cbor.Decode(bytes) == Cbor.Got(Cbor.Map(entries), [])
      ensures var named := NamedEntries(entries, PresentationKeyNotText(index));
        (named.Ok? && MembersOf(plan, index, named.value) == Ok(p)) <==> Carries(entries, p) && Conforms(plan, p)
    {
      MapIsDistinct(bytes, entries);
      EntriesIff(plan, index, entries, p);
    }
    if element.Scalar? && element.value.String? {
      var text := element.value.text;
      forall bytes
        ensures Base64Url.Decode(text, MAX_PRESENTATION_INPUT) == Some(bytes)
           <==> |text| <= MAX_PRESENTATION_INPUT && text == Base64Url.Encode(bytes)
      {
        Base64Url.DecodeIff(text, MAX_PRESENTATION_INPUT, bytes);
      }
      forall bytes ensures Cbor.Decode(bytes).Got? ==> Cbor.Decode(bytes).rest == [] {
        NothingLeft(bytes);
      }
    }
  }

  lemma NothingLeft(bytes: seq<byte>)
    ensures Cbor.Decode(bytes).Got? ==> Cbor.Decode(bytes).rest == []
  {
  }

  // ---- over the wire -----------------------------------------------------------------------

  /** The map the vector generator prints for a presentation. */
  function PresentationItem(p: Presentation): Item {
    Cbor.Map(
      [MemberEntry(SYSTEM_ID, Cbor.Text(p.systemId)), MemberEntry(PROOF, Cbor.Bytes(p.proof)),
       MemberEntry(ISSUER_KEY_SET, Cbor.Array(KeyItems(p.issuerKeySet)))]
      + (if p.proofTime.Some? then [MemberEntry(PROOF_TIME, TdateItem(p.proofTime.value))] else [])
      + [MemberEntry(RESULTS, Cbor.Map(ResultEntries(p.results)))])
  }

  lemma PresentationCarries(plan: Plan, p: Presentation)
    requires DistinctHandles(plan.functions) && Conforms(plan, p)
    ensures Carries(PresentationItem(p).entries, p)
  {
    hide Conforms;
    MemberNamesDiffer();
    ResultsCarry(plan, p);
    var entries := PresentationItem(p).entries;
    var results := ResultEntries(p.results);
    assert entries[0] in entries && entries[1] in entries && entries[2] in entries;
    assert entries[|entries| - 1] == MemberEntry(RESULTS, Cbor.Map(results));
    assert p.proofTime.Some? ==> entries[3] == MemberEntry(PROOF_TIME, TdateItem(p.proofTime.value));
  }

  lemma ResultsCarry(plan: Plan, p: Presentation)
    requires DistinctHandles(plan.functions) && Conforms(plan, p)
    ensures Cbor.DistinctKeys(ResultEntries(p.results)) && CarriesResults(ResultEntries(p.results), p.results)
  {
    var results := ResultEntries(p.results);
    forall i | 0 <= i < |p.results| ensures ResultEntry(p.results[i]) in results {
      assert results[i] == ResultEntry(p.results[i]);
    }
    forall i, j | 0 <= i < j < |results| ensures results[i].key != results[j].key {
      assert plan.functions[i].handle != plan.functions[j].handle;
    }
  }

  /** Every length is a 64-bit number, as lengths in memory are. */
  predicate FitsWords(p: Presentation) {
    && |p.systemId| < Cbor.TWO_64 && |p.proof| < Cbor.TWO_64 && |p.issuerKeySet| < Cbor.TWO_64 && |p.results| < Cbor.TWO_64
    && (forall i :: 0 <= i < |p.issuerKeySet| ==> |p.issuerKeySet[i]| < Cbor.TWO_64)
    && (p.proofTime.Some? ==> |p.proofTime.value| < Cbor.TWO_64)
    && (forall i :: 0 <= i < |p.results| ==> |p.results[i].handle| < Cbor.TWO_64)
    && forall i :: 0 <= i < |p.results| && p.results[i].value.PseudonymResult? ==> |p.results[i].value.bytes| < Cbor.TWO_64
  }

  /** The texts of a presentation are texts. */
  predicate HasTexts(p: Presentation) {
    ValidUtf8(p.systemId) && forall i :: 0 <= i < |p.results| ==> ValidUtf8(p.results[i].handle)
  }

  lemma ResultsArePrintable(p: Presentation)
    requires FitsWords(p)
    ensures Cbor.Printable(Cbor.Map(ResultEntries(p.results)))
  {
    var entries := ResultEntries(p.results);
    forall i | 0 <= i < |entries| ensures Cbor.Printable(entries[i].key) && Cbor.Printable(entries[i].value) {
      assert entries[i] == ResultEntry(p.results[i]);
    }
  }

  lemma PresentationIsPrintable(p: Presentation)
    requires FitsWords(p)
    ensures Cbor.Printable(PresentationItem(p))
  {
    ResultsArePrintable(p);
    var keys := KeyItems(p.issuerKeySet);
    forall i | 0 <= i < |keys| ensures Cbor.Printable(keys[i]) {
      assert keys[i] == Cbor.Bytes(p.issuerKeySet[i]);
    }
    assert Cbor.Printable(Cbor.Array(keys));
    var entries := PresentationItem(p).entries;
    forall i | 0 <= i < |entries| ensures Cbor.Printable(entries[i].key) && Cbor.Printable(entries[i].value) {
      hide ResultEntries, KeyItems;
    }
  }

  /** What the holder sends: the printed map in base64url. */
  function WireText(p: Presentation): Text
    requires FitsWords(p)
  {
    PresentationIsPrintable(p);
    Base64Url.Encode(Cbor.Encode(PresentationItem(p)))
  }

  lemma ProofTimeIsText(text: Text)
    requires ProofTime.Parse(text).Ok?
    ensures ValidUtf8(text) && |text| == 20
  {
    assert ProofTime.HasShape(text);
    forall i | 0 <= i < |text| ensures text[i] < 128 {
      if i < 4 {
        assert text[0..4][i] < 58;
      } else if 5 <= i < 7 {
        assert text[5..7][i - 5] < 58;
      } else if 8 <= i < 10 {
        assert text[8..10][i - 8] < 58;
      } else if 11 <= i < 13 {
        assert text[11..13][i - 11] < 58;
      } else if 14 <= i < 16 {
        assert text[14..16][i - 14] < 58;
      } else if 17 <= i < 19 {
        assert text[17..19][i - 17] < 58;
      }
    }
    AsciiIsUtf8(text);
  }

  lemma NamesAreText()
    ensures ValidUtf8(SYSTEM_ID) && ValidUtf8(PROOF) && ValidUtf8(ISSUER_KEY_SET) && ValidUtf8(PROOF_TIME) && ValidUtf8(RESULTS)
  {
    hide ValidUtf8;
    AsciiIsUtf8(SYSTEM_ID);
    AsciiIsUtf8(PROOF);
    AsciiIsUtf8(ISSUER_KEY_SET);
    AsciiIsUtf8(PROOF_TIME);
    AsciiIsUtf8(RESULTS);
  }

  lemma ResultsAreWellFormed(plan: Plan, p: Presentation)
    requires DistinctHandles(plan.functions) && Conforms(plan, p) && FitsWords(p) && HasTexts(p)
    ensures Cbor.WellFormed(Cbor.Map(ResultEntries(p.results)), 1)
  {
    hide ValidUtf8, Conforms;
    ResultsCarry(plan, p);
    var entries := ResultEntries(p.results);
    forall i | 0 <= i < |entries| ensures Cbor.WellFormed(entries[i].key, 2) && Cbor.WellFormed(entries[i].value, 2) {
      assert entries[i] == ResultEntry(p.results[i]);
    }
  }

  lemma KeysAreWellFormed(plan: Plan, p: Presentation)
    requires FitsWords(p)
    ensures Cbor.WellFormed(Cbor.Array(KeyItems(p.issuerKeySet)), 1)
  {
    var keys := KeyItems(p.issuerKeySet);
    forall i | 0 <= i < |keys| ensures Cbor.WellFormed(keys[i], 2) {
      assert keys[i] == Cbor.Bytes(p.issuerKeySet[i]);
    }
  }

  lemma PresentationIsEncodable(plan: Plan, p: Presentation)
    requires DistinctHandles(plan.functions) && Conforms(plan, p) && FitsWords(p) && HasTexts(p)
    ensures CborFacts.Encodable(PresentationItem(p), 0)
  {
    hide ValidUtf8, Conforms, ResultEntries, KeyItems, IsMember;
    PresentationIsPrintable(p);
    NamesAreText();
    MemberNamesDiffer();
    ResultsAreWellFormed(plan, p);
    KeysAreWellFormed(plan, p);
    var entries := PresentationItem(p).entries;
    if p.proofTime.Some? {
      ConformingTime(plan, p);
      assert Cbor.WellFormed(TdateItem(p.proofTime.value), 1);
    }
    forall i | 0 <= i < |entries| ensures Cbor.WellFormed(entries[i].key, 1) && Cbor.WellFormed(entries[i].value, 1) {
    }
    assert |SYSTEM_ID| < 20 && |PROOF| < 20 && |ISSUER_KEY_SET| < 20 && |PROOF_TIME| < 20 && |RESULTS| < 20;
    assert Cbor.DistinctKeys(entries);
  }

  lemma ConformingTime(plan: Plan, p: Presentation)
    requires Conforms(plan, p) && p.proofTime.Some?
    ensures ValidUtf8(p.proofTime.value) && |p.proofTime.value| == 20
  {
    ProofTimeIsText(p.proofTime.value);
  }

  /** A conforming presentation whose text stays within the limit is accepted as exactly itself. */
  lemma PresentationSurvivesTheWire(plan: Plan, index: nat, p: Presentation)
    requires DistinctHandles(plan.functions) && Conforms(plan, p) && FitsWords(p) && HasTexts(p)
    requires |WireText(p)| <= 2097152
    ensures PresentationOf(plan, index, Scalar(Json.String(WireText(p)))) == Ok(p)
  {
    hide Conforms, Carries, PresentationOf, PresentationItem, Cbor.Encode, Cbor.Decode, Base64Url.Encode, Cbor.WellFormed, Cbor.Printable,
         FitsWords, HasTexts;
    var element := Scalar(Json.String(WireText(p)));
    PresentationCarries(plan, p);
    PresentationIsEncodable(plan, p);
    CborFacts.DecodeEncode(PresentationItem(p));
    PresentationIff(plan, index, element, p);
    ItemIsMap(p);
    assert Bears(plan, element, p);
  }

  lemma ItemIsMap(p: Presentation)
    ensures PresentationItem(p).Map? && PresentationItem(p) == Cbor.Map(PresentationItem(p).entries)
  {
  }

  /** Every presentation of an accepted response carries a conforming answer, and there is more than one only when the query allows it. */
  lemma AcceptedResponse(plan: Plan, entry: Token, presentations: seq<Presentation>)
    requires DistinctHandles(plan.functions)
    ensures PresentationsOf(plan, entry) == Ok(presentations) <==>
      && entry.Elements? && |presentations| == |entry.elements| >= 1
      && (|presentations| > 1 ==> AllowsMultiple(plan))
      && forall i :: 0 <= i < |presentations| ==> Bears(plan, entry.elements[i], presentations[i])
  {
    hide Bears, PresentationOf, AllowsMultiple;
    if entry.Elements? {
      var check, places := CheckAt(plan, entry.elements), Places(|entry.elements|);
      TryMapOk(check, places, presentations);
      forall i | 0 <= i < |entry.elements| && i < |presentations|
        ensures check(places[i]) == Ok(presentations[i]) <==> Bears(plan, entry.elements[i], presentations[i])
      {
        assert places[i] == i;
        PresentationIff(plan, i, entry.elements[i], presentations[i]);
      }
    }
  }
}
