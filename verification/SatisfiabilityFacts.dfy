/** Which requests are satisfiable and which rule a refusal names, in the words of the request. */
module SatisfiabilityFacts {
  import opened Bytes
  import opened Wrappers
  import opened Calendar
  import opened DcqlPath
  import opened ProofTime
  import opened Request
  import opened Satisfiability

  // ---- the request around the functions ------------------------------------------------------

  predicate IsMdoc(plan: Plan) {
    plan.sourceFormat == Ascii("mso_mdoc")
  }

  predicate IsBbs(plan: Plan) {
    plan.sourceFormat == Ascii("bbs_cd")
  }

  /** A document type for mdoc, a schema id for the other format, and not both. */
  predicate NamesItsType(plan: Plan) {
    if IsBbs(plan) then plan.metaSchemaId.Some? && plan.metaDoctype.None?
    else plan.metaDoctype.Some? && plan.metaSchemaId.None?
  }

  predicate AsksForVct(raw: Json) {
    raw.Object? && Ascii("meta") in raw.members && raw.members[Ascii("meta")].Object?
    && Ascii("vct_values") in raw.members[Ascii("meta")].members
  }

  predicate GivesUpBinding(raw: Json) {
    raw.Object? && Ascii("require_cryptographic_holder_binding") in raw.members
    && raw.members[Ascii("require_cryptographic_holder_binding")] == Bool(false)
  }

  lemma FormatsDiffer()
    ensures Ascii("mso_mdoc") != Ascii("bbs_cd")
  {
    assert |Ascii("mso_mdoc")| == 8 && |Ascii("bbs_cd")| == 6;
  }

  lemma EnvelopeIs(plan: Plan)
    ensures EnvelopeError(plan) ==
      if !IsMdoc(plan) && !IsBbs(plan) then Some(SourceFormatUnsupported)
      else if !NamesItsType(plan) || AsksForVct(plan.raw) then Some(MetaTypeValueInvalid)
      else if GivesUpBinding(plan.raw) then Some(HolderBindingWaived)
      else None
  {
    FormatsDiffer();
  }

  // ---- one function ----------------------------------------------------------------------------

  predicate IsConfig(config: Text) {
    || config == Ascii("known-offender-matching-ssc") || config == Ascii("known-offender-matching-psc")
    || config == Ascii("account-recovery-ssc") || config == Ascii("user-managed-pseudonym-xsite-ssc")
  }

  predicate IsPrf(bbs: bool, config: Text, prf: Text) {
    if bbs then prf == Ascii("hashdh-bls12381g1") && config == Ascii("known-offender-matching-ssc")
    else prf == Ascii("sha-256")
  }

  predicate IsContext(config: Text, context: Option<Text>) {
    match context
    case None => config != Ascii("account-recovery-ssc")
    case Some(text) => config == Ascii("account-recovery-ssc") && 1 <= |text| <= 64
  }

  /** The first rule a pseudonym's parameters break. */
  lemma PseudonymRules(bbs: bool, config: Option<Text>, ver: Option<int>, prf: Option<Text>, context: Option<Text>)
    ensures PseudonymError(bbs, config, ver, prf, context) ==
      if config.None? then Some(PseudonymConfigMissing)
      else if !IsConfig(config.value) then Some(PseudonymConfigUnknown)
      else if ver.None? then Some(PseudonymVerMissing)
      else if ver.value != 1 then Some(PseudonymVerUnsupported)
      else if prf.None? then Some(PseudonymPrfMissing)
      else if !IsPrf(bbs, config.value, prf.value) then Some(PseudonymPrfUnsupported)
      else if !IsContext(config.value, context) then Some(VerifierContextInvalid)
      else None
  {
  }

  /** At least 365 days from the first bound to the second, both counted. */
  ghost predicate IsLongEnough(low: Date, high: Date) {
    !Before(high, Later(low, 364))
  }

  ghost predicate IsServedAlone(bbs: bool, f: PlannedFunction)
    requires BoundsAreDates(f)
  {
    match f.params
    case Unknown(_) => false
    case Pseudonym(config, ver, prf, context, _) =>
      && config.Some? && IsConfig(config.value) && ver == Some(1)
      && prf.Some? && IsPrf(bbs, config.value, prf.value) && IsContext(config.value, context)
    case AgeCheck(ge, le, _) =>
      (ge.Some? || le.Some?) && (ge.Some? && le.Some? ==> IsLongEnough(Date10(ge.value), Date10(le.value)))
  }

  lemma ServedIs(bbs: bool, f: PlannedFunction)
    requires BoundsAreDates(f)
    ensures IsServed(bbs, f) <==> IsServedAlone(bbs, f)
  {
    hide Later, Before, Date10;
  }

  /**
   * A request is satisfiable exactly when its format is one of two, it names its type and no other, keeps holder
   * binding, and asks for each kind of function once, each with parameters that are served.
   */
  lemma SatisfiableIff(plan: Plan, r: Result<(), Rule>)
    requires IsVerdict(plan, r) && AllBoundsAreDates(plan.functions)
    ensures r.Ok? <==>
      && (IsMdoc(plan) || IsBbs(plan)) && NamesItsType(plan) && !AsksForVct(plan.raw) && !GivesUpBinding(plan.raw)
      && (forall i :: 0 <= i < |plan.functions| ==> IsServedAlone(IsBbs(plan), plan.functions[i]))
      && OfEachKindOnce(plan.functions)
  {
    hide IsServed, IsServedAlone, FunctionsKeepRules, FirstBroken, AsksForVct, GivesUpBinding, NamesItsType, EnvelopeError;
    EnvelopeIs(plan);
    FunctionsServedIff(IsBbs(plan), plan.functions);
    forall i | 0 <= i < |plan.functions|
      ensures IsServed(IsBbs(plan), plan.functions[i]) <==> IsServedAlone(IsBbs(plan), plan.functions[i])
    {
      ServedIs(IsBbs(plan), plan.functions[i]);
    }
    if r.Err? && EnvelopeError(plan).None? {
      BrokenIsNotKept(IsBbs(plan), plan.functions, r.error);
    }
  }

  lemma BrokenIsNotKept(bbs: bool, functions: seq<PlannedFunction>, rule: Rule)
    requires FirstBroken(bbs, functions, rule)
    ensures !FunctionsKeepRules(bbs, functions, |functions|)
  {
  }

  // ---- which rule a refusal names -----------------------------------------------------------------

  /** The rule is one this function breaks, given the functions before it. */
  ghost predicate BreaksHere(bbs: bool, functions: seq<PlannedFunction>, i: nat, rule: Rule)
    requires i < |functions| && AllBoundsAreDates(functions)
  {
    match functions[i].params
    case Unknown(_) => rule == FunctionUnknown
    case Pseudonym(config, ver, prf, context, _) =>
      if exists j :: 0 <= j < i && functions[j].params.Pseudonym? then rule == PseudonymRepeated
      else if config.None? then rule == PseudonymConfigMissing
      else if !IsConfig(config.value) then rule == PseudonymConfigUnknown
      else if ver.None? then rule == PseudonymVerMissing
      else if ver.value != 1 then rule == PseudonymVerUnsupported
      else if prf.None? then rule == PseudonymPrfMissing
      else if !IsPrf(bbs, config.value, prf.value) then rule == PseudonymPrfUnsupported
      else !IsContext(config.value, context) && rule == VerifierContextInvalid
    case AgeCheck(ge, le, _) =>
      if exists j :: 0 <= j < i && functions[j].params.AgeCheck? then rule == AgeCheckRepeated
      else if ge.None? && le.None? then rule == AgeCheckNoBound
      else
        && ge.Some? && le.Some?
        && if Before(Date10(le.value), Date10(ge.value)) then rule == AgeCheckInverted
           else !IsLongEnough(Date10(ge.value), Date10(le.value)) && rule == AgeCheckSpanTooShort
  }

  /** A refusal names the request's own first rule, or the rule of the first function that is not served. */
  lemma RefusalNames(plan: Plan, rule: Rule)
    requires IsVerdict(plan, Err(rule)) && AllBoundsAreDates(plan.functions)
    ensures
      if !IsMdoc(plan) && !IsBbs(plan) then rule == SourceFormatUnsupported
      else if !NamesItsType(plan) || AsksForVct(plan.raw) then rule == MetaTypeValueInvalid
      else if GivesUpBinding(plan.raw) then rule == HolderBindingWaived
      else exists i :: 0 <= i < |plan.functions| && BreaksHere(IsBbs(plan), plan.functions, i, rule)
             && forall j :: 0 <= j < i ==> IsServedAlone(IsBbs(plan), plan.functions[j])
  {
    hide IsServedAlone, BreaksHere, AsksForVct, GivesUpBinding, NamesItsType, EnvelopeError, ErrorAt;
    EnvelopeIs(plan);
    if EnvelopeError(plan).None? {
      var bbs, functions := IsBbs(plan), plan.functions;
      var i :| 0 <= i < |functions| && FunctionsKeepRules(bbs, functions, i) && ErrorAt(bbs, functions, i) == Some(rule);
      RuleHere(bbs, functions, i, rule);
      forall j | 0 <= j < i ensures IsServedAlone(bbs, functions[j]) {
        assert ErrorAt(bbs, functions, j) == None;
        ServedHere(bbs, functions, j);
        ServedIs(bbs, functions[j]);
      }
    }
  }

  lemma RuleHere(bbs: bool, functions: seq<PlannedFunction>, i: nat, rule: Rule)
    requires i < |functions| && AllBoundsAreDates(functions) && ErrorAt(bbs, functions, i) == Some(rule)
    ensures BreaksHere(bbs, functions, i, rule)
  {
    hide CountPseudonyms, CountAges, AgeError, PseudonymError, IsConfig, IsPrf, IsContext, IsLongEnough, Before, Date10;
    CountsAreZeroIff(functions[..i]);
    assert forall j :: 0 <= j < i ==> functions[..i][j] == functions[j];
    match functions[i].params
    case Unknown(_) =>
    case Pseudonym(config, ver, prf, context, _) => PseudonymRules(bbs, config, ver, prf, context);
    case AgeCheck(ge, le, _) =>
      assert BoundsAreDates(functions[i]);
      AgeRules(ge, le);
  }

  /** The first rule an age check's bounds break. */
  lemma AgeRules(ge: Option<Text>, le: Option<Text>)
    requires (ge.Some? ==> IsFullDate(ge.value)) && (le.Some? ==> IsFullDate(le.value))
    ensures AgeError(ge, le) ==
      if ge.None? && le.None? then Some(AgeCheckNoBound)
      else if ge.None? || le.None? then None
      else if Before(Date10(le.value), Date10(ge.value)) then Some(AgeCheckInverted)
      else if !IsLongEnough(Date10(ge.value), Date10(le.value)) then Some(AgeCheckSpanTooShort)
      else None
  {
    hide Before, Date10, IsFullDate, Later, DayNumber, DayNumberOf, IsDate;
    if ge.Some? && le.Some? {
      DayNumberOfFullDate(ge.value);
      DayNumberOfFullDate(le.value);
      FullDateIsDate(ge.value);
      FullDateIsDate(le.value);
      SpanIff(Date10(ge.value), Date10(le.value));
    }
  }
}
