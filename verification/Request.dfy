/** The function calls of a `zkp_req` request: reading them keeps handles unique and loses no parameter. */
module Request {
  import opened Bytes
  import opened Wrappers
  import opened Calendar
  import opened DcqlPath
  import opened ProofTime

  datatype Params =
    | Pseudonym(config: Option<Text>, ver: Option<int>, prf: Option<Text>, verifierContext: Option<Text>, extra: map<Text, Json>)
    | AgeCheck(ge: Option<Text>, le: Option<Text>, extra: map<Text, Json>)
    | Unknown(params: map<Text, Json>)

  datatype PlannedFunction = PlannedFunction(functionId: Text, handle: Text, params: Params)

  /** A planned request; `raw` is the credential query it came from. */
  datatype Plan = Plan(
    functions: seq<PlannedFunction>, systemIds: Option<seq<Text>>, sourceFormat: Text,
    metaDoctype: Option<Text>, metaSchemaId: Option<Text>, raw: Json)

  const MSO_MDOC := Ascii("mso_mdoc")
  const SHA_256 := Ascii("sha-256")
  const HASHDH := Ascii("hashdh-bls12381g1")

  datatype InvalidRequest =
    | ReqMissingOrEmpty
    | ItemMissingFunctionId(index: nat)
    | ItemMissingHandle(index: nat)
    | DuplicateHandle(handle: Text)
    | ParamWrongType(handle: Text, param: Text)
    | ParamInvalidFullDate(handle: Text, param: Text)

  datatype ParamType = AnyString | FullDate | Integer

  datatype ParamSpec = ParamSpec(name: Text, ty: ParamType)

  const PSEUDONYM := Ascii("pseudonym")
  const AGE_CHECK := Ascii("age_check")

  function PseudonymParams(): seq<ParamSpec> {
    [ParamSpec(Ascii("config"), AnyString), ParamSpec(Ascii("ver"), Integer),
     ParamSpec(Ascii("prf"), AnyString), ParamSpec(Ascii("verifier_context"), AnyString)]
  }

  function AgeCheckParams(): seq<ParamSpec> {
    [ParamSpec(Ascii("ge"), FullDate), ParamSpec(Ascii("le"), FullDate)]
  }

  /** Ten characters: digits, hyphens and a date the calendar has. */
  predicate IsFullDate(s: Text) {
    && |s| == 10 && AreDigits(s[0..4]) && s[4] == 45 && AreDigits(s[5..7]) && s[7] == 45 && AreDigits(s[8..10])
    && IsDate(Date(Decimal(s[0..4]), Decimal(s[5..7]), Decimal(s[8..10])))
  }

  /** A JSON number that fits a signed or an unsigned 64-bit integer. */
  predicate IsInteger(value: Json) {
    value.Number? && I64_MIN <= value.number <= 0xFFFF_FFFF_FFFF_FFFF
  }

  predicate NamesHandle(error: InvalidRequest, handle: Text) {
    (error.ParamWrongType? || error.ParamInvalidFullDate?) && error.handle == handle
  }

  function ParamError(handle: Text, spec: ParamSpec, members: map<Text, Json>): (e: Option<InvalidRequest>)
    ensures e.Some? ==> NamesHandle(e.value, handle)
  {
    if spec.name !in members then None
    else
      var value := members[spec.name];
      match spec.ty
      case Integer => if IsInteger(value) then None else Some(ParamWrongType(handle, spec.name))
      case AnyString => if value.String? then None else Some(ParamWrongType(handle, spec.name))
      case FullDate =>
        if !value.String? then Some(ParamWrongType(handle, spec.name))
        else if IsFullDate(value.text) then None
        else Some(ParamInvalidFullDate(handle, spec.name))
  }

  /** The first declared parameter, in table order, of the wrong type. */
  function FirstParamError(handle: Text, specs: seq<ParamSpec>, members: map<Text, Json>): (e: Option<InvalidRequest>)
    ensures e.Some? ==> NamesHandle(e.value, handle)
  {
    if specs == [] then None
    else match ParamError(handle, specs[0], members)
      case Some(e) => Some(e)
      case None => FirstParamError(handle, specs[1..], members)
  }

  function TextMember(members: map<Text, Json>, name: Text): Option<Text> {
    if name in members && members[name].String? then Some(members[name].text) else None
  }

  function NumberMember(members: map<Text, Json>, name: Text): Option<int> {
    if name in members && members[name].Number? then Some(members[name].number) else None
  }

  function ReadParams(functionId: Text, handle: Text, params: Option<Json>): (r: Result<Params, InvalidRequest>)
    ensures r.Err? ==> NamesHandle(r.error, handle)
  {
    if params.Some? && !params.value.Object? then Err(ParamWrongType(handle, Ascii("params")))
    else
      var members := if params.None? then map[] else params.value.members;
      if functionId == PSEUDONYM then
        match FirstParamError(handle, PseudonymParams(), members)
        case Some(e) => Err(e)
        case None => Ok(Pseudonym(TextMember(members, Ascii("config")), NumberMember(members, Ascii("ver")),
            TextMember(members, Ascii("prf")), TextMember(members, Ascii("verifier_context")),
            members - {Ascii("config"), Ascii("ver"), Ascii("prf"), Ascii("verifier_context")}))
      else if functionId == AGE_CHECK then
        match FirstParamError(handle, AgeCheckParams(), members)
        case Some(e) => Err(e)
        case None => Ok(AgeCheck(TextMember(members, Ascii("ge")), TextMember(members, Ascii("le")),
            members - {Ascii("ge"), Ascii("le")}))
      else Ok(Unknown(members))
  }

  // ---- nothing is lost ---------------------------------------------------------------

  function WithText(members: map<Text, Json>, name: Text, value: Option<Text>): map<Text, Json> {
    if value.Some? then members[name := String(value.value)] else members
  }

  function WithNumber(members: map<Text, Json>, name: Text, value: Option<int>): map<Text, Json> {
    if value.Some? then members[name := Number(value.value)] else members
  }

  /** The flat object the parameters serialise to. */
  function Flattened(params: Params): map<Text, Json> {
    match params
    case Unknown(members) => members
    case AgeCheck(ge, le, extra) => WithText(WithText(extra, Ascii("ge"), ge), Ascii("le"), le)
    case Pseudonym(config, ver, prf, context, extra) =>
      WithText(WithText(WithNumber(WithText(extra, Ascii("config"), config), Ascii("ver"), ver),
        Ascii("prf"), prf), Ascii("verifier_context"), context)
  }

  lemma {:induction false} DeclaredParamFits(handle: Text, specs: seq<ParamSpec>, members: map<Text, Json>, k: nat)
    requires k < |specs| && FirstParamError(handle, specs, members).None?
    ensures ParamError(handle, specs[k], members).None?
  {
    if k == 0 {
    } else {
      DeclaredParamFits(handle, specs[1..], members, k - 1);
    }
  }

  lemma NamesDiffer()
    ensures Ascii("ge") != Ascii("le")
    ensures |{Ascii("config"), Ascii("ver"), Ascii("prf"), Ascii("verifier_context")}| == 4
  {
    assert Ascii("ge")[0] != Ascii("le")[0];
    assert Ascii("ver")[0] != Ascii("prf")[0];
  }

  /** An accepted object's members all survive, declared ones in their fields and the rest as they came. */
  lemma ParamsLoseNothing(functionId: Text, handle: Text, params: Option<Json>)
    requires ReadParams(functionId, handle, params).Ok?
    ensures Flattened(ReadParams(functionId, handle, params).value) == if params.None? then map[] else params.value.members
  {
    var members := if params.None? then map[] else params.value.members;
    NamesDiffer();
    if functionId == PSEUDONYM {
      var specs := PseudonymParams();
      DeclaredParamFits(handle, specs, members, 0);
      DeclaredParamFits(handle, specs, members, 1);
      DeclaredParamFits(handle, specs, members, 2);
      DeclaredParamFits(handle, specs, members, 3);
    } else if functionId == AGE_CHECK {
      DeclaredParamFits(handle, AgeCheckParams(), members, 0);
      DeclaredParamFits(handle, AgeCheckParams(), members, 1);
    }
  }

  // ---- items -------------------------------------------------------------------------

  function Member(item: Json, name: Text): Option<Json> {
    if item.Object? && name in item.members then Some(item.members[name]) else None
  }

  function StringMember(item: Json, name: Text): Option<Text> {
    match Member(item, name)
    case Some(String(text)) => Some(text)
    case _ => None
  }

  function FunctionIdOf(item: Json): Option<Text> {
    StringMember(item, Ascii("fn_id"))
  }

  function HandleOf(item: Json): Option<Text> {
    StringMember(item, Ascii("return"))
  }

  /** What is wrong with item `i`, given the items before it. */
  ghost function ItemError(items: seq<Json>, i: nat): Option<InvalidRequest>
    requires i < |items|
  {
    if FunctionIdOf(items[i]).None? then Some(ItemMissingFunctionId(i))
    else if HandleOf(items[i]).None? then Some(ItemMissingHandle(i))
    else if exists j :: 0 <= j < i && HandleOf(items[j]) == HandleOf(items[i])
    then Some(DuplicateHandle(HandleOf(items[i]).value))
    else match ReadParams(FunctionIdOf(items[i]).value, HandleOf(items[i]).value, Member(items[i], Ascii("params")))
      case Err(e) => Some(e)
      case Ok(_) => None
  }

  ghost predicate PlansItem(item: Json, planned: PlannedFunction) {
    && FunctionIdOf(item) == Some(planned.functionId)
    && HandleOf(item) == Some(planned.handle)
    && ReadParams(planned.functionId, planned.handle, Member(item, Ascii("params"))) == Ok(planned.params)
  }

  ghost predicate DistinctHandles(functions: seq<PlannedFunction>) {
    forall i, j :: 0 <= i < j < |functions| ==> functions[i].handle != functions[j].handle
  }

  /** Every item is planned in its place, under a handle no other has. */
  ghost predicate PlansAll(items: seq<Json>, functions: seq<PlannedFunction>) {
    && |functions| == |items| && DistinctHandles(functions)
    && forall i :: 0 <= i < |items| ==> PlansItem(items[i], functions[i])
  }

  ghost predicate NoErrorBefore(items: seq<Json>, k: nat)
    requires k <= |items|
  {
    forall j :: 0 <= j < k ==> ItemError(items, j).None?
  }

  ghost predicate FirstError(items: seq<Json>, error: InvalidRequest) {
    exists i :: 0 <= i < |items| && NoErrorBefore(items, i) && ItemError(items, i) == Some(error)
  }

  /** Every item planned in order, each under a handle of its own; or the first item's first defect. */
  method ReadItems(req: Json) returns (r: Result<seq<PlannedFunction>, InvalidRequest>)
    ensures !(req.Array? && req.items != []) <==> r == Err(ReqMissingOrEmpty)
    ensures r.Ok? ==> PlansAll(req.items, r.value) && NoErrorBefore(req.items, |req.items|)
    ensures r.Err? && r.error != ReqMissingOrEmpty ==> FirstError(req.items, r.error)
  {
    if !req.Array? || req.items == [] {
      return Err(ReqMissingOrEmpty);
    }
    var items := req.items;
    var seen: set<Text> := {};
    var functions: seq<PlannedFunction> := [];
    for i := 0 to |items|
      invariant PlansAll(items[..i], functions)
      invariant NoErrorBefore(items, i)
      invariant seen == set j | 0 <= j < i :: functions[j].handle
    {
      var item := items[i];
      assert forall j :: 0 <= j < i ==> items[..i][j] == items[j];
      assert forall j :: 0 <= j < i ==> HandleOf(items[j]) == Some(functions[j].handle);
      var functionId := FunctionIdOf(item);
      if functionId.None? {
        assert ItemError(items, i) == Some(ItemMissingFunctionId(i));
        return Err(ItemMissingFunctionId(i));
      }
      var handle := HandleOf(item);
      if handle.None? {
        assert ItemError(items, i) == Some(ItemMissingHandle(i));
        return Err(ItemMissingHandle(i));
      }
      if handle.value in seen {
        assert ItemError(items, i) == Some(DuplicateHandle(handle.value));
        return Err(DuplicateHandle(handle.value));
      }
      var params := ReadParams(functionId.value, handle.value, Member(item, Ascii("params")));
      if params.Err? {
        assert ItemError(items, i) == Some(params.error);
        return Err(params.error);
      }
      seen := seen + {handle.value};
      functions := functions + [PlannedFunction(functionId.value, handle.value, params.value)];
    }
    assert items[..|items|] == items;
    return Ok(functions);
  }
}
