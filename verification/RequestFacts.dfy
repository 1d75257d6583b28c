/** Which function calls a request may make, by the names and types of their members. */
module RequestFacts {
  import opened Bytes
  import opened Wrappers
  import opened Calendar
  import opened DcqlPath
  import opened ProofTime
  import opened Request

  // ---- what a member may be ----------------------------------------------------------------

  predicate TextOrAbsent(members: map<Text, Json>, name: Text) {
    name in members ==> members[name].String?
  }

  /** An integer that fits 64 bits, signed or unsigned. */
  predicate IntegerOrAbsent(members: map<Text, Json>, name: Text) {
    name in members ==>
      members[name].Number? && -0x8000_0000_0000_0000 <= members[name].number <= 0xFFFF_FFFF_FFFF_FFFF
  }

  /** Year, month and day of a calendar date, in four, two and two digits (RFC 3339, section 5.6). */
  ghost predicate IsWrittenDate(text: Text) {
    exists date: Date :: IsDate(date) && 0 <= date.year < 10_000 && text == Written(date)
  }

  function Written(date: Date): Text
    requires IsDate(date) && 0 <= date.year < 10_000
  {
    Four(date.year) + Ascii("-") + Two(date.month) + Ascii("-") + Two(date.day)
  }

  ghost predicate DateOrAbsent(members: map<Text, Json>, name: Text) {
    name in members ==> members[name].String? && IsWrittenDate(members[name].text)
  }

  lemma WrittenIsFullDate(date: Date)
    requires IsDate(date) && 0 <= date.year < 10_000
    ensures IsFullDate(Written(date))
    ensures Decimal(Written(date)[0..4]) == date.year && Decimal(Written(date)[5..7]) == date.month
    ensures Decimal(Written(date)[8..10]) == date.day
  {
    var text := Written(date);
    assert text[0..4] == Four(date.year) && text[5..7] == Two(date.month) && text[8..10] == Two(date.day);
  }

  lemma FullDateIff(text: Text)
    ensures IsFullDate(text) <==> IsWrittenDate(text)
  {
    hide IsFullDate, Written, IsDate;
    if IsFullDate(text) {
      FullDateIsWritten(text);
    }
    if date: Date :| IsDate(date) && 0 <= date.year < 10_000 && text == Written(date) {
      WrittenIsFullDate(date);
    }
  }

  lemma FullDateIsWritten(text: Text)
    requires IsFullDate(text)
    ensures IsWrittenDate(text)
  {
    var date := Date(Decimal(text[0..4]), Decimal(text[5..7]), Decimal(text[8..10]));
    DecimalsFit(text);
    DigitsOfDate(text);
    hide IsDate, Decimal, Four, Two, AreDigits;
    DashIs();
    TenBytes(text);
    assert Written(date) == text;
  }

  lemma DashIs()
    ensures Ascii("-") == [45]
  {
  }

  lemma TenBytes(text: Text)
    requires |text| == 10
    ensures text == text[0..4] + [text[4]] + text[5..7] + [text[7]] + text[8..10]
  {
  }

  lemma DigitsOfDate(text: Text)
    requires IsFullDate(text) && Decimal(text[0..4]) < 10_000 && Decimal(text[5..7]) < 100 && Decimal(text[8..10]) < 100
    ensures Four(Decimal(text[0..4])) == text[0..4]
    ensures Two(Decimal(text[5..7])) == text[5..7] && Two(Decimal(text[8..10])) == text[8..10]
  {
    hide IsDate, Padded, Decimal, Pow10;
    PaddedDecimal(text[0..4]);
    PaddedDecimal(text[5..7]);
    PaddedDecimal(text[8..10]);
  }

  lemma DecimalsFit(text: Text)
    requires IsFullDate(text)
    ensures Decimal(text[0..4]) < 10_000 && Decimal(text[5..7]) < 100 && Decimal(text[8..10]) < 100
  {
    PowersOfTen();
  }

  function TextAt(members: map<Text, Json>, name: Text): Option<Text> {
    if name in members && members[name].String? then Some(members[name].text) else None
  }

  function NumberAt(members: map<Text, Json>, name: Text): Option<int> {
    if name in members && members[name].Number? then Some(members[name].number) else None
  }

  // ---- parameters ----------------------------------------------------------------------------

  lemma NoSpecs(handle: Text, members: map<Text, Json>)
    ensures FirstParamError(handle, [], members) == None
  {
  }

  lemma FirstSpec(handle: Text, spec: ParamSpec, specs: seq<ParamSpec>, members: map<Text, Json>)
    ensures FirstParamError(handle, [spec] + specs, members)
         == if ParamError(handle, spec, members).Some? then ParamError(handle, spec, members)
            else FirstParamError(handle, specs, members)
  {
    assert ([spec] + specs)[1..] == specs;
  }

  lemma TwoSpecs(handle: Text, a: ParamSpec, b: ParamSpec, members: map<Text, Json>)
    ensures FirstParamError(handle, [a, b], members)
         == if ParamError(handle, a, members).Some? then ParamError(handle, a, members) else ParamError(handle, b, members)
  {
    hide ParamError, FirstParamError;
    assert [a] + [b] == [a, b] && [b] + [] == [b];
    NoSpecs(handle, members);
    FirstSpec(handle, b, [], members);
    FirstSpec(handle, a, [b], members);
  }

  lemma FourSpecs(handle: Text, a: ParamSpec, b: ParamSpec, c: ParamSpec, d: ParamSpec, members: map<Text, Json>)
    ensures FirstParamError(handle, [a, b, c, d], members)
         == if ParamError(handle, a, members).Some? then ParamError(handle, a, members)
            else if ParamError(handle, b, members).Some? then ParamError(handle, b, members)
            else if ParamError(handle, c, members).Some? then ParamError(handle, c, members)
            else ParamError(handle, d, members)
  {
    hide ParamError, FirstParamError;
    assert [a] + [b, c, d] == [a, b, c, d] && [b] + [c, d] == [b, c, d];
    FirstSpec(handle, a, [b, c, d], members);
    FirstSpec(handle, b, [c, d], members);
    TwoSpecs(handle, c, d, members);
  }

  /**
   * A pseudonym's parameters are accepted exactly when each of the four is absent or of its type, and the first that
   * is not is named; the fields are the members of those names and everything else is kept aside.
   */
  lemma PseudonymParamsRead(handle: Text, members: map<Text, Json>)
    ensures var r := ReadParams(Ascii("pseudonym"), handle, Some(Object(members)));
      r == if !TextOrAbsent(members, Ascii("config")) then Err(ParamWrongType(handle, Ascii("config")))
           else if !IntegerOrAbsent(members, Ascii("ver")) then Err(ParamWrongType(handle, Ascii("ver")))
           else if !TextOrAbsent(members, Ascii("prf")) then Err(ParamWrongType(handle, Ascii("prf")))
           else if !TextOrAbsent(members, Ascii("verifier_context")) then Err(ParamWrongType(handle, Ascii("verifier_context")))
           else Ok(Pseudonym(TextAt(members, Ascii("config")), NumberAt(members, Ascii("ver")), TextAt(members, Ascii("prf")),
                     TextAt(members, Ascii("verifier_context")),
                     members - {Ascii("config"), Ascii("ver"), Ascii("prf"), Ascii("verifier_context")}))
  {
    hide FirstParamError;
    FourSpecs(handle, ParamSpec(Ascii("config"), AnyString), ParamSpec(Ascii("ver"), Integer),
              ParamSpec(Ascii("prf"), AnyString), ParamSpec(Ascii("verifier_context"), AnyString), members);
  }

  /** An age check's bounds are absent or written calendar dates. */
  lemma AgeCheckParamsRead(handle: Text, members: map<Text, Json>)
    ensures var r := ReadParams(Ascii("age_check"), handle, Some(Object(members)));
      r == if !TextOrAbsent(members, Ascii("ge")) then Err(ParamWrongType(handle, Ascii("ge")))
           else if !DateOrAbsent(members, Ascii("ge")) then Err(ParamInvalidFullDate(handle, Ascii("ge")))
           else if !TextOrAbsent(members, Ascii("le")) then Err(ParamWrongType(handle, Ascii("le")))
           else if !DateOrAbsent(members, Ascii("le")) then Err(ParamInvalidFullDate(handle, Ascii("le")))
           else Ok(AgeCheck(TextAt(members, Ascii("ge")), TextAt(members, Ascii("le")), members - {Ascii("ge"), Ascii("le")}))
  {
    hide FirstParamError, IsFullDate, IsWrittenDate;
    KindsDiffer();
    DateIs(members, Ascii("ge"));
    DateIs(members, Ascii("le"));
    TwoSpecs(handle, ParamSpec(Ascii("ge"), FullDate), ParamSpec(Ascii("le"), FullDate), members);
  }

  lemma DateIs(members: map<Text, Json>, name: Text)
    ensures name in members && members[name].String? ==>
              (IsFullDate(members[name].text) <==> IsWrittenDate(members[name].text))
  {
    if name in members && members[name].String? {
      FullDateIff(members[name].text);
    }
  }

  lemma KindsDiffer()
    ensures Ascii("age_check") != Ascii("pseudonym")
  {
    assert Ascii("age_check")[0] != Ascii("pseudonym")[0];
  }

  /** Any other function keeps its parameters as they are; parameters that are no object are refused for all. */
  lemma OtherParamsRead(functionId: Text, handle: Text, params: Option<Json>)
    ensures params.Some? && !params.value.Object? ==>
              ReadParams(functionId, handle, params) == Err(ParamWrongType(handle, Ascii("params")))
    ensures functionId != Ascii("pseudonym") && functionId != Ascii("age_check") ==>
              ReadParams(functionId, handle, None) == Ok(Unknown(map[]))
    ensures functionId != Ascii("pseudonym") && functionId != Ascii("age_check") && params.Some? && params.value.Object? ==>
              ReadParams(functionId, handle, params) == Ok(Unknown(params.value.members))
    ensures ReadParams(functionId, handle, None) == ReadParams(functionId, handle, Some(Object(map[])))
  {
  }

  // ---- items -----------------------------------------------------------------------------------

  /** The members of an item: function id, handle and parameters. */
  lemma ItemMembers(members: map<Text, Json>, planned: PlannedFunction)
    ensures PlansItem(Object(members), planned) <==>
      && Ascii("fn_id") in members && members[Ascii("fn_id")] == String(planned.functionId)
      && Ascii("return") in members && members[Ascii("return")] == String(planned.handle)
      && ReadParams(planned.functionId, planned.handle, if Ascii("params") in members then Some(members[Ascii("params")]) else None)
         == Ok(planned.params)
  {
    hide ReadParams;
  }

  /** An item that is no object is missing its function id. */
  lemma OnlyObjectsArePlanned(item: Json, planned: PlannedFunction)
    requires !item.Object?
    ensures !PlansItem(item, planned) && ItemError([item], 0) == Some(ItemMissingFunctionId(0))
  {
  }

  /** The defects of an item, first to last. */
  lemma ItemDefects(items: seq<Json>, i: nat)
    requires i < |items|
    ensures var id, handle := NamedText(items[i], Ascii("fn_id")), NamedText(items[i], Ascii("return"));
      ItemError(items, i) ==
        if id.None? then Some(ItemMissingFunctionId(i))
        else if handle.None? then Some(ItemMissingHandle(i))
        else if exists j :: 0 <= j < i && NamedText(items[j], Ascii("return")) == handle then Some(DuplicateHandle(handle.value))
        else match ReadParams(id.value, handle.value, NamedMember(items[i], Ascii("params")))
          case Err(e) => Some(e)
          case Ok(_) => None
  {
    hide ReadParams;
    forall item: Json, name: Text ensures NamedText(item, name) == StringMember(item, name) {
    }
  }

  function NamedMember(item: Json, name: Text): Option<Json> {
    if item.Object? && name in item.members then Some(item.members[name]) else None
  }

  function NamedText(item: Json, name: Text): Option<Text> {
    if item.Object? && name in item.members && item.members[name].String? then Some(item.members[name].text) else None
  }
}
