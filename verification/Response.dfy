/** The shape check of a `zkp_req` response against the plan of its request. */
module Response {
  import opened Bytes
  import opened Wrappers
  import opened DcqlPath
  import opened Request
  import Base64Url
  import Cbor
  import CborReader
  import ProofTime

  type Item = Cbor.Item
  type Entry = Cbor.Entry

  /** A parsed `vp_token`, which keeps duplicate members. */
  datatype Token = Members(members: seq<TokenMember>) | Elements(elements: seq<Token>) | Scalar(value: Json)

  datatype TokenMember = TokenMember(name: Text, value: Token)

  datatype ResultValue = PseudonymResult(bytes: seq<byte>) | Predicate

  datatype NamedResult = NamedResult(handle: Text, value: ResultValue)

  datatype Presentation = Presentation(
    systemId: Text,
    proof: seq<byte>,
    issuerKeySet: seq<seq<byte>>,
    proofTime: Option<Text>,
    results: seq<NamedResult>)

  datatype InvalidResponse =
    | ResponseNotParseable
    | DuplicateMember(member: Text)
    | QueryIdMissing
    | PresentationsNotArray
    | PresentationsEmpty
    | PresentationsMultipleNotAllowed
    | PresentationNotString(index: nat)
    | PresentationNotBase64url(index: nat)
    | CborMalformed(index: nat)
    | CborIndefiniteLength(index: nat)
    | CborTrailingBytes(index: nat)
    | CborDuplicateKey(index: nat)
    | PresentationNotMap(index: nat)
    | PresentationKeyNotText(index: nat)
    | PresentationUnknownMember(index: nat, member: Text)
    | PresentationMemberMissing(index: nat, member: Text)
    | PresentationMemberWrongType(index: nat, member: Text)
    | SystemIdNotOffered(index: nat)
    | ProofEmpty(index: nat)
    | IssuerKeySetEmpty(index: nat)
    | IssuerKeySetTooMany(index: nat)
    | IssuerKeyNotBytes(index: nat)
    | IssuerKeyEmpty(index: nat)
    | IssuerKeyTooLarge(index: nat)
    | ProofTimeMissing(index: nat)
    | ProofTimeNotTdate(index: nat)
    | ProofTimeForm(index: nat)
    | ResultKeyNotText(index: nat)
    | ResultHandleUnexpected(handle: Text)
    | ResultHandleMissing(handle: Text)
    | ResultFunctionUnknown(handle: Text)
    | ResultWrongType(handle: Text)
    | ResultNotSatisfied(handle: Text)
    | PseudonymPrfUnknown(handle: Text)
    | PseudonymWrongLength(handle: Text)

  const SYSTEM_ID := Ascii("system_id")
  const PROOF := Ascii("proof")
  const ISSUER_KEY_SET := Ascii("issuer_key_set")
  const PROOF_TIME := Ascii("proof_time")
  const RESULTS := Ascii("results")

  const PSEUDONYM_LEN_SHA256 := 32
  const PSEUDONYM_LEN_HASHDH := 48
  const ISSUER_KEY_SET_MAX := 8
  const ISSUER_KEY_MAX_BYTES := 4096
  const MAX_PRESENTATION_INPUT := 2 * 1024 * 1024

  predicate IsMember(name: Text) {
    name == SYSTEM_ID || name == PROOF || name == ISSUER_KEY_SET || name == PROOF_TIME || name == RESULTS
  }

  // ---- the meaning of each check -----------------------------------------------------

  datatype Named = Named(name: Text, value: Item)

  /** The first value under the name. */
  function Field(named: seq<Named>, name: Text): Option<Item> {
    if named == [] then None
    else if named[0].name == name then Some(named[0].value)
    else Field(named[1..], name)
  }

  function NameOf(refusal: InvalidResponse): Entry -> Result<Named, InvalidResponse> {
    (entry: Entry) => if entry.key.Text? then Ok(Named(entry.key.utf8, entry.value)) else Err(refusal)
  }

  /** The entries by name; refused when a key is not text. */
  function NamedEntries(entries: seq<Entry>, refusal: InvalidResponse): Result<seq<Named>, InvalidResponse> {
    TryMap(NameOf(refusal), entries)
  }

  function KeyOf(index: nat): Item -> Result<seq<byte>, InvalidResponse> {
    (key: Item) =>
      if !key.Bytes? then Err(IssuerKeyNotBytes(index))
      else if key.bytes == [] then Err(IssuerKeyEmpty(index))
      else if |key.bytes| > ISSUER_KEY_MAX_BYTES then Err(IssuerKeyTooLarge(index))
      else Ok(key.bytes)
  }

  function IssuerKeys(index: nat, keys: seq<Item>): Result<seq<seq<byte>>, InvalidResponse> {
    if keys == [] then Err(IssuerKeySetEmpty(index))
    else if |keys| > ISSUER_KEY_SET_MAX then Err(IssuerKeySetTooMany(index))
    else TryMap(KeyOf(index), keys)
  }

  function CheckProofTime(plan: Plan, index: nat, item: Option<Item>): Result<Option<Text>, InvalidResponse> {
    match item
    case None => if plan.sourceFormat == MSO_MDOC then Err(ProofTimeMissing(index)) else Ok(None)
    case Some(item) =>
      if !item.Tag? || item.number != 0 || !item.item.Text? then Err(ProofTimeNotTdate(index))
      else if ProofTime.Parse(item.item.utf8).Err? then Err(ProofTimeForm(index))
      else Ok(Some(item.item.utf8))
  }

  function PseudonymLength(prf: Option<Text>): Option<nat> {
    if prf == Some(SHA_256) then Some(PSEUDONYM_LEN_SHA256)
    else if prf == Some(HASHDH) then Some(PSEUDONYM_LEN_HASHDH)
    else None
  }

  /** One function's value, by the kind of the function. */
  function CheckValue(planned: PlannedFunction, value: Item): Result<ResultValue, InvalidResponse> {
    var handle := planned.handle;
    match planned.params
    case Unknown(_) => Err(ResultFunctionUnknown(handle))
    case AgeCheck(_, _, _) =>
      if !value.Bool? then Err(ResultWrongType(handle))
      else if value.flag then Ok(Predicate)
      else Err(ResultNotSatisfied(handle))
    case Pseudonym(_, _, prf, _, _) =>
      match PseudonymLength(prf)
      case None => Err(PseudonymPrfUnknown(handle))
      case Some(length) =>
        if !value.Bytes? then Err(ResultWrongType(handle))
        else if |value.bytes| != length then Err(PseudonymWrongLength(handle))
        else Ok(PseudonymResult(value.bytes))
  }

  function ResultOf(named: seq<Named>): PlannedFunction -> Result<NamedResult, InvalidResponse> {
    (planned: PlannedFunction) =>
      match Field(named, planned.handle)
      case None => Err(ResultHandleMissing(planned.handle))
      case Some(value) =>
        match CheckValue(planned, value)
        case Err(e) => Err(e)
        case Ok(checked) => Ok(NamedResult(planned.handle, checked))
  }

  predicate IsHandle(functions: seq<PlannedFunction>, name: Text) {
    exists i :: 0 <= i < |functions| && functions[i].handle == name
  }

  /** The first name that is no handle of the plan. */
  function FirstUnexpected(functions: seq<PlannedFunction>, named: seq<Named>): Option<Text> {
    if named == [] then None
    else if !IsHandle(functions, named[0].name) then Some(named[0].name)
    else FirstUnexpected(functions, named[1..])
  }

  function HandlePresent(named: seq<Named>): PlannedFunction -> Result<(), InvalidResponse> {
    (planned: PlannedFunction) =>
      if Field(named, planned.handle).None? then Err(ResultHandleMissing(planned.handle)) else Ok(())
  }

  /** Handles first, unexpected then missing, and only then values, in request order. */
  function Results(plan: Plan, index: nat, results: seq<Entry>): Result<seq<NamedResult>, InvalidResponse> {
    match NamedEntries(results, ResultKeyNotText(index))
    case Err(e) => Err(e)
    case Ok(named) =>
      if FirstUnexpected(plan.functions, named).Some?
      then Err(ResultHandleUnexpected(FirstUnexpected(plan.functions, named).value))
      else match TryMap(HandlePresent(named), plan.functions)
        case Err(e) => Err(e)
        case Ok(_) => TryMap(ResultOf(named), plan.functions)
  }

  function FirstUnknown(named: seq<Named>): Option<Text> {
    if named == [] then None
    else if !IsMember(named[0].name) then Some(named[0].name)
    else FirstUnknown(named[1..])
  }

  predicate Offered(plan: Plan, systemId: Text) {
    plan.systemIds.Some? && systemId in plan.systemIds.value
  }

  /** The members in their order of checking: presence, then type, then content. */
  function MembersOf(plan: Plan, index: nat, named: seq<Named>): Result<Presentation, InvalidResponse> {
    var systemId, proof := Field(named, SYSTEM_ID), Field(named, PROOF);
    var keys, results := Field(named, ISSUER_KEY_SET), Field(named, RESULTS);
    if FirstUnknown(named).Some? then Err(PresentationUnknownMember(index, FirstUnknown(named).value))
    else if systemId.None? then Err(PresentationMemberMissing(index, SYSTEM_ID))
    else if proof.None? then Err(PresentationMemberMissing(index, PROOF))
    else if keys.None? then Err(PresentationMemberMissing(index, ISSUER_KEY_SET))
    else if results.None? then Err(PresentationMemberMissing(index, RESULTS))
    else if !systemId.value.Text? then Err(PresentationMemberWrongType(index, SYSTEM_ID))
    else if !proof.value.Bytes? then Err(PresentationMemberWrongType(index, PROOF))
    else if !keys.value.Array? then Err(PresentationMemberWrongType(index, ISSUER_KEY_SET))
    else if !results.value.Map? then Err(PresentationMemberWrongType(index, RESULTS))
    else if !Offered(plan, systemId.value.utf8) then Err(SystemIdNotOffered(index))
    else if proof.value.bytes == [] then Err(ProofEmpty(index))
    else match IssuerKeys(index, keys.value.items)
      case Err(e) => Err(e)
      case Ok(issuerKeySet) =>
        match CheckProofTime(plan, index, Field(named, PROOF_TIME))
        case Err(e) => Err(e)
        case Ok(proofTime) =>
          match Results(plan, index, results.value.entries)
          case Err(e) => Err(e)
          case Ok(checked) =>
            Ok(Presentation(systemId.value.utf8, proof.value.bytes, issuerKeySet, proofTime, checked))
  }

  function OfCborError(index: nat, error: Cbor.Error): InvalidResponse {
    match error
    case Malformed => CborMalformed(index)
    case Indefinite => CborIndefiniteLength(index)
    case Trailing => CborTrailingBytes(index)
    case DuplicateKey => CborDuplicateKey(index)
  }

  function PresentationOf(plan: Plan, index: nat, element: Token): Result<Presentation, InvalidResponse> {
    if !element.Scalar? || !element.value.String? then Err(PresentationNotString(index))
    else match Base64Url.Decode(element.value.text, MAX_PRESENTATION_INPUT)
      case None => Err(PresentationNotBase64url(index))
      case Some(bytes) =>
        match Cbor.Decode(bytes)
        case Refused(e) => Err(OfCborError(index, e))
        case Got(item, _) =>
          if !item.Map? then Err(PresentationNotMap(index))
          else match NamedEntries(item.entries, PresentationKeyNotText(index))
            case Err(e) => Err(e)
            case Ok(named) => MembersOf(plan, index, named)
  }

  // ---- the checks as they run --------------------------------------------------------

  method NameEntries(entries: seq<Entry>, refusal: InvalidResponse) returns (r: Result<seq<Named>, InvalidResponse>)
    ensures r == NamedEntries(entries, refusal)
  {
    var named: seq<Named> := [];
    for k := 0 to |entries|
      invariant TryMap(NameOf(refusal), entries[..k]) == Ok(named)
    {
      var entry := entries[k];
      if !entry.key.Text? {
        TryMapErr(NameOf(refusal), entries, k);
        return Err(refusal);
      }
      TryMapPush(NameOf(refusal), entries, k);
      named := named + [Named(entry.key.utf8, entry.value)];
    }
    assert entries[..|entries|] == entries;
    return Ok(named);
  }

  method CheckIssuerKeySet(index: nat, keys: seq<Item>) returns (r: Result<seq<seq<byte>>, InvalidResponse>)
    ensures r == IssuerKeys(index, keys)
  {
    if keys == [] {
      return Err(IssuerKeySetEmpty(index));
    }
    if |keys| > ISSUER_KEY_SET_MAX {
      return Err(IssuerKeySetTooMany(index));
    }
    var out: seq<seq<byte>> := [];
    for k := 0 to |keys|
      invariant TryMap(KeyOf(index), keys[..k]) == Ok(out)
    {
      var key := KeyOf(index)(keys[k]);
      if key.Err? {
        TryMapErr(KeyOf(index), keys, k);
        return Err(key.error);
      }
      TryMapPush(KeyOf(index), keys, k);
      out := out + [key.value];
    }
    assert keys[..|keys|] == keys;
    return Ok(out);
  }

  method CheckResults(plan: Plan, index: nat, results: seq<Entry>)
    returns (r: Result<seq<NamedResult>, InvalidResponse>)
    ensures r == Results(plan, index, results)
  {
    var entries := NameEntries(results, ResultKeyNotText(index));
    if entries.Err? {
      return Err(entries.error);
    }
    var named := entries.value;
    var unexpected := FirstUnexpected(plan.functions, named);
    if unexpected.Some? {
      return Err(ResultHandleUnexpected(unexpected.value));
    }
    for k := 0 to |plan.functions|
      invariant TryMap(HandlePresent(named), plan.functions[..k]).Ok?
    {
      if Field(named, plan.functions[k].handle).None? {
        TryMapErr(HandlePresent(named), plan.functions, k);
        return Err(ResultHandleMissing(plan.functions[k].handle));
      }
      TryMapPush(HandlePresent(named), plan.functions, k);
    }
    assert plan.functions[..|plan.functions|] == plan.functions;
    var out: seq<NamedResult> := [];
    for k := 0 to |plan.functions|
      invariant TryMap(ResultOf(named), plan.functions[..k]) == Ok(out)
    {
      var checked := ResultOf(named)(plan.functions[k]);
      if checked.Err? {
        TryMapErr(ResultOf(named), plan.functions, k);
        return Err(checked.error);
      }
      TryMapPush(ResultOf(named), plan.functions, k);
      out := out + [checked.value];
    }
    return Ok(out);
  }

  method CheckMembers(plan: Plan, index: nat, named: seq<Named>) returns (r: Result<Presentation, InvalidResponse>)
    ensures r == MembersOf(plan, index, named)
  {
    var unknown := FirstUnknown(named);
    if unknown.Some? {
      return Err(PresentationUnknownMember(index, unknown.value));
    }
    var required := [SYSTEM_ID, PROOF, ISSUER_KEY_SET, RESULTS];
    for k := 0 to 4
      invariant forall j :: 0 <= j < k ==> Field(named, required[j]).Some?
    {
      if Field(named, required[k]).None? {
        assert k > 0 ==> Field(named, required[0]).Some?;
        assert k > 1 ==> Field(named, required[1]).Some?;
        assert k > 2 ==> Field(named, required[2]).Some?;
        return Err(PresentationMemberMissing(index, required[k]));
      }
    }
    assert Field(named, required[0]).Some? && Field(named, required[1]).Some?;
    assert Field(named, required[2]).Some? && Field(named, required[3]).Some?;
    var systemId, proof := Field(named, SYSTEM_ID).value, Field(named, PROOF).value;
    var keys, results := Field(named, ISSUER_KEY_SET).value, Field(named, RESULTS).value;
    if !systemId.Text? {
      return Err(PresentationMemberWrongType(index, SYSTEM_ID));
    }
    if !proof.Bytes? {
      return Err(PresentationMemberWrongType(index, PROOF));
    }
    if !keys.Array? {
      return Err(PresentationMemberWrongType(index, ISSUER_KEY_SET));
    }
    if !results.Map? {
      return Err(PresentationMemberWrongType(index, RESULTS));
    }
    if !Offered(plan, systemId.utf8) {
      return Err(SystemIdNotOffered(index));
    }
    if proof.bytes == [] {
      return Err(ProofEmpty(index));
    }
    var issuerKeySet := CheckIssuerKeySet(index, keys.items);
    if issuerKeySet.Err? {
      return Err(issuerKeySet.error);
    }
    var proofTime := CheckProofTime(plan, index, Field(named, PROOF_TIME));
    if proofTime.Err? {
      return Err(proofTime.error);
    }
    var checked := CheckResults(plan, index, results.entries);
    if checked.Err? {
      return Err(checked.error);
    }
    return Ok(Presentation(systemId.utf8, proof.bytes, issuerKeySet.value, proofTime.value, checked.value));
  }

  method CheckPresentation(plan: Plan, index: nat, element: Token) returns (r: Result<Presentation, InvalidResponse>)
    ensures r == PresentationOf(plan, index, element)
  {
    if !element.Scalar? || !element.value.String? {
      return Err(PresentationNotString(index));
    }
    var bytes := Base64Url.DecodeWithLimit(element.value.text, MAX_PRESENTATION_INPUT);
    if bytes.None? {
      return Err(PresentationNotBase64url(index));
    }
    var item := CborReader.DecodeCbor(bytes.value);
    if item.Err? {
      return Err(OfCborError(index, item.error));
    }
    if !item.value.Map? {
      return Err(PresentationNotMap(index));
    }
    var named := NameEntries(item.value.entries, PresentationKeyNotText(index));
    if named.Err? {
      return Err(named.error);
    }
    r := CheckMembers(plan, index, named.value);
  }

  // ---- the whole response --------------------------------------------------------------

  predicate NamesMember(members: seq<TokenMember>, name: Text) {
    exists i :: 0 <= i < |members| && members[i].name == name
  }

  /** The first member whose name an earlier one has. */
  ghost predicate RepeatsMember(members: seq<TokenMember>, name: Text) {
    exists k :: 0 <= k < |members| && members[k].name == name && NamesMember(members[..k], name)
      && DistinctMembers(members[..k])
  }

  ghost predicate DistinctMembers(members: seq<TokenMember>) {
    forall i, j :: 0 <= i < j < |members| ==> members[i].name != members[j].name
  }

  function MemberNamed(members: seq<TokenMember>, name: Text): Option<Token> {
    if members == [] then None
    else if members[0].name == name then Some(members[0].value)
    else MemberNamed(members[1..], name)
  }

  predicate AllowsMultiple(plan: Plan) {
    Member(plan.raw, Ascii("multiple")) == Some(Json.Bool(true))
  }

  function CheckAt(plan: Plan, elements: seq<Token>): nat -> Result<Presentation, InvalidResponse> {
    (i: nat) => if i < |elements| then PresentationOf(plan, i, elements[i]) else Err(QueryIdMissing)
  }

  function Places(n: nat): seq<nat> {
    seq(n, i => i)
  }

  /** The entry under the query's id, once no member name repeats. */
  function EntryOf(plan: Plan, members: seq<TokenMember>): Result<Token, InvalidResponse> {
    match StringMember(plan.raw, Ascii("id"))
    case None => Err(QueryIdMissing)
    case Some(id) =>
      match MemberNamed(members, id)
      case None => Err(QueryIdMissing)
      case Some(entry) => Ok(entry)
  }

  function PresentationsOf(plan: Plan, entry: Token): Result<seq<Presentation>, InvalidResponse> {
    if !entry.Elements? then Err(PresentationsNotArray)
    else if entry.elements == [] then Err(PresentationsEmpty)
    else if |entry.elements| > 1 && !AllowsMultiple(plan) then Err(PresentationsMultipleNotAllowed)
    else TryMap(CheckAt(plan, entry.elements), Places(|entry.elements|))
  }

  function Checked(plan: Plan, members: seq<TokenMember>): Result<seq<Presentation>, InvalidResponse> {
    match EntryOf(plan, members)
    case Err(e) => Err(e)
    case Ok(entry) => PresentationsOf(plan, entry)
  }

  method ParseResponse(plan: Plan, token: Token) returns (r: Result<seq<Presentation>, InvalidResponse>)
    ensures !token.Members? ==> r == Err(ResponseNotParseable)
    ensures token.Members? && !DistinctMembers(token.members) ==>
      r.Err? && r.error.DuplicateMember? && RepeatsMember(token.members, r.error.member)
    ensures token.Members? && DistinctMembers(token.members) ==> r == Checked(plan, token.members)
  {
    if !token.Members? {
      return Err(ResponseNotParseable);
    }
    var members := token.members;
    var seen: set<Text> := {};
    for k := 0 to |members|
      invariant seen == set j | 0 <= j < k :: members[j].name
      invariant DistinctMembers(members[..k])
    {
      if members[k].name in seen {
        assert NamesMember(members[..k], members[k].name);
        return Err(DuplicateMember(members[k].name));
      }
      seen := seen + {members[k].name};
    }
    assert members[..|members|] == members;
    var found := EntryOf(plan, members);
    if found.Err? {
      return Err(found.error);
    }
    var entry := found.value;
    if !entry.Elements? {
      return Err(PresentationsNotArray);
    }
    if entry.elements == [] {
      return Err(PresentationsEmpty);
    }
    if |entry.elements| > 1 && !AllowsMultiple(plan) {
      return Err(PresentationsMultipleNotAllowed);
    }
    var out: seq<Presentation> := [];
    ghost var places := Places(|entry.elements|);
    for k := 0 to |entry.elements|
      invariant TryMap(CheckAt(plan, entry.elements), places[..k]) == Ok(out)
    {
      var presentation := CheckPresentation(plan, k, entry.elements[k]);
      if presentation.Err? {
        TryMapErr(CheckAt(plan, entry.elements), places, k);
        return Err(presentation.error);
      }
      TryMapPush(CheckAt(plan, entry.elements), places, k);
      out := out + [presentation.value];
    }
    assert places[..|places|] == places;
    return Ok(out);
  }
}
