/** The rules a `zkp_req` request must keep to be satisfiable, in the order they are checked. */
module Satisfiability {
  import opened Bytes
  import opened Wrappers
  import opened Calendar
  import opened DcqlPath
  import opened ProofTime
  import opened Request

  datatype Rule =
    | SourceFormatUnsupported
    | MetaTypeValueInvalid
    | HolderBindingWaived
    | FunctionUnknown
    | PseudonymRepeated
    | AgeCheckRepeated
    | PseudonymConfigMissing
    | PseudonymConfigUnknown
    | PseudonymVerMissing
    | PseudonymVerUnsupported
    | PseudonymPrfMissing
    | PseudonymPrfUnsupported
    | VerifierContextInvalid
    | AgeCheckNoBound
    | AgeCheckInverted
    | AgeCheckSpanTooShort

  const BBS_CD := Ascii("bbs_cd")
  const KNOWN_OFFENDER_SSC := Ascii("known-offender-matching-ssc")
  const KNOWN_OFFENDER_PSC := Ascii("known-offender-matching-psc")
  const ACCOUNT_RECOVERY := Ascii("account-recovery-ssc")
  const USER_MANAGED := Ascii("user-managed-pseudonym-xsite-ssc")

  const PSEUDONYM_VER := 1
  const MIN_AGE_SPAN_DAYS := 365

  function Date10(text: Text): Date
    requires IsFullDate(text)
  {
    Date(Decimal(text[0..4]), Decimal(text[5..7]), Decimal(text[8..10]))
  }

  /** The bounds that reading the request leaves: real calendar dates. */
  predicate BoundsAreDates(f: PlannedFunction) {
    f.params.AgeCheck? ==>
      (f.params.ge.Some? ==> IsFullDate(f.params.ge.value)) && (f.params.le.Some? ==> IsFullDate(f.params.le.value))
  }

  // ---- the day number of a bound -------------------------------------------------------------------

  const DASH: byte := 45
  const PLUS: byte := 43

  /** The next dash at or after `from`, or the end. */
  function NextDash(s: Text, from: nat): (at: nat)
    requires from <= |s|
    ensures from <= at <= |s| && (at < |s| ==> s[at] == DASH)
    ensures forall j :: from <= j < at ==> s[j] != DASH
    decreases |s| - from
  {
    if from == |s| || s[from] == DASH then from else NextDash(s, from + 1)
  }

  /** A part between dashes as a 64-bit number, with an optional plus sign. */
  function ParseNumber(part: Text): Option<nat> {
    var digits := if part != [] && part[0] == PLUS then part[1..] else part;
    if digits == [] || !AreDigits(digits) || Decimal(digits) > I64_MAX then None else Some(Decimal(digits))
  }

  /** The day number of the first three parts between dashes, when they are numbers. */
  function DayNumberOf(text: Text): Option<int> {
    var first := NextDash(text, 0);
    if first == |text| then None
    else
      var second := NextDash(text, first + 1);
      if second == |text| then None
      else
        var third := NextDash(text, second + 1);
        match (ParseNumber(text[..first]), ParseNumber(text[first + 1..second]), ParseNumber(text[second + 1..third]))
        case (Some(year), Some(month), Some(day)) => Some(DaysFromCivil(year, month, day))
        case _ => None
  }

  /** A number may have a plus sign before its digits, and must fit a signed 64-bit integer. */
  lemma SignedPart(digits: Text)
    requires digits != [] && AreDigits(digits)
    ensures ParseNumber([43] + digits) == ParseNumber(digits)
    ensures ParseNumber(digits) == if Decimal(digits) < 0x8000_0000_0000_0000 then Some(Decimal(digits)) else None
  {
    assert ([43] + digits)[1..] == digits && IsDigit(digits[0]);
  }

  lemma DigitsParse(part: Text)
    requires 1 <= |part| <= 4 && AreDigits(part)
    ensures ParseNumber(part) == Some(Decimal(part))
  {
    assert Pow10(2) == 100;
    assert Pow10(|part|) <= 10000;
    assert IsDigit(part[0]);
  }

  /** On a calendar date it is the date's number. */
  lemma DayNumberOfFullDate(text: Text)
    requires IsFullDate(text)
    ensures DayNumberOf(text) == Some(DayNumber(Date10(text)))
  {
    hide DaysFromCivil, IsDate, Decimal, ParseNumber;
    DashesOfDate(text);
    assert text[..4] == text[0..4] && text[8..] == text[8..10];
    DigitsParse(text[0..4]);
    DigitsParse(text[5..7]);
    DigitsParse(text[8..10]);
  }

  lemma DashesOfDate(text: Text)
    requires IsFullDate(text)
    ensures NextDash(text, 0) == 4 && NextDash(text, 5) == 7 && NextDash(text, 8) == 10
  {
    hide IsDate, Decimal;
    forall i | 0 <= i < 10 && i != 4 && i != 7 ensures text[i] != DASH {
      assert i < 4 ==> IsDigit(text[0..4][i]);
      assert 4 < i < 7 ==> IsDigit(text[5..7][i - 5]);
      assert 7 < i ==> IsDigit(text[8..10][i - 8]);
    }
  }

  // ---- the rules, each on its own -------------------------------------------------------------------

  predicate HasVct(raw: Json) {
    match Member(raw, Ascii("meta"))
    case None => false
    case Some(meta) => Member(meta, Ascii("vct_values")).Some?
  }

  predicate WaivesBinding(raw: Json) {
    Member(raw, Ascii("require_cryptographic_holder_binding")) == Some(Bool(false))
  }

  /** What is wrong with the request apart from its functions. */
  function EnvelopeError(plan: Plan): Option<Rule> {
    if plan.sourceFormat != MSO_MDOC && plan.sourceFormat != BBS_CD then Some(SourceFormatUnsupported)
    else
      var bbs := plan.sourceFormat == BBS_CD;
      var typeOk :=
        if bbs then plan.metaSchemaId.Some? && plan.metaDoctype.None?
        else plan.metaDoctype.Some? && plan.metaSchemaId.None?;
      if !typeOk || HasVct(plan.raw) then Some(MetaTypeValueInvalid)
      else if WaivesBinding(plan.raw) then Some(HolderBindingWaived)
      else None
  }

  predicate KnownConfig(config: Text) {
    config == KNOWN_OFFENDER_SSC || config == KNOWN_OFFENDER_PSC || config == ACCOUNT_RECOVERY || config == USER_MANAGED
  }

  predicate PrfFits(bbs: bool, config: Text, prf: Text) {
    if bbs then prf == HASHDH && config == KNOWN_OFFENDER_SSC else prf == SHA_256
  }

  predicate ContextFits(config: Text, context: Option<Text>) {
    if config == ACCOUNT_RECOVERY then context.Some? && 1 <= |context.value| <= 64 else context.None?
  }

  function PseudonymError(bbs: bool, config: Option<Text>, ver: Option<int>, prf: Option<Text>, context: Option<Text>): Option<Rule> {
    if config.None? then Some(PseudonymConfigMissing)
    else if !KnownConfig(config.value) then Some(PseudonymConfigUnknown)
    else if ver.None? then Some(PseudonymVerMissing)
    else if ver.value != PSEUDONYM_VER then Some(PseudonymVerUnsupported)
    else if prf.None? then Some(PseudonymPrfMissing)
    else if !PrfFits(bbs, config.value, prf.value) then Some(PseudonymPrfUnsupported)
    else if !ContextFits(config.value, context) then Some(VerifierContextInvalid)
    else None
  }

  function AgeError(ge: Option<Text>, le: Option<Text>): Option<Rule> {
    if ge.None? && le.None? then Some(AgeCheckNoBound)
    else if ge.None? || le.None? then None
    else match (DayNumberOf(ge.value), DayNumberOf(le.value))
      case (Some(low), Some(high)) =>
        if high < low then Some(AgeCheckInverted)
        else if high - low + 1 < MIN_AGE_SPAN_DAYS then Some(AgeCheckSpanTooShort)
        else None
      case _ => Some(AgeCheckNoBound)
  }

  /** What is wrong with a function, given how many of its kind come before it. */
  function FunctionError(bbs: bool, f: PlannedFunction, pseudonyms: nat, ages: nat): Option<Rule> {
    match f.params
    case Unknown(_) => Some(FunctionUnknown)
    case Pseudonym(config, ver, prf, context, _) =>
      if pseudonyms > 0 then Some(PseudonymRepeated) else PseudonymError(bbs, config, ver, prf, context)
    case AgeCheck(ge, le, _) => if ages > 0 then Some(AgeCheckRepeated) else AgeError(ge, le)
  }

  function CountPseudonyms(functions: seq<PlannedFunction>): nat {
    if functions == [] then 0
    else CountPseudonyms(functions[..|functions| - 1]) + if functions[|functions| - 1].params.Pseudonym? then 1 else 0
  }

  function CountAges(functions: seq<PlannedFunction>): nat {
    if functions == [] then 0
    else CountAges(functions[..|functions| - 1]) + if functions[|functions| - 1].params.AgeCheck? then 1 else 0
  }

  ghost predicate AllBoundsAreDates(functions: seq<PlannedFunction>) {
    forall i :: 0 <= i < |functions| ==> BoundsAreDates(functions[i])
  }

  ghost function ErrorAt(bbs: bool, functions: seq<PlannedFunction>, i: nat): Option<Rule>
    requires i < |functions|
  {
    FunctionError(bbs, functions[i], CountPseudonyms(functions[..i]), CountAges(functions[..i]))
  }

  ghost predicate FunctionsKeepRules(bbs: bool, functions: seq<PlannedFunction>, count: nat)
    requires count <= |functions|
  {
    forall j :: 0 <= j < count ==> ErrorAt(bbs, functions, j) == None
  }

  /** The first function, in request order, that breaks a rule. */
  ghost predicate FirstBroken(bbs: bool, functions: seq<PlannedFunction>, rule: Rule) {
    exists i :: 0 <= i < |functions| && FunctionsKeepRules(bbs, functions, i) && ErrorAt(bbs, functions, i) == Some(rule)
  }

  lemma CountsPush(functions: seq<PlannedFunction>, i: nat)
    requires i < |functions|
    ensures CountPseudonyms(functions[..i + 1]) == CountPseudonyms(functions[..i]) + if functions[i].params.Pseudonym? then 1 else 0
    ensures CountAges(functions[..i + 1]) == CountAges(functions[..i]) + if functions[i].params.AgeCheck? then 1 else 0
  {
    assert functions[..i + 1][..i] == functions[..i];
  }

  lemma ErrorHere(bbs: bool, functions: seq<PlannedFunction>, i: nat)
    requires i < |functions|
    ensures ErrorAt(bbs, functions, i)
         == FunctionError(bbs, functions[i], CountPseudonyms(functions[..i]), CountAges(functions[..i]))
  {
    hide FunctionError;
  }

  lemma NothingCounted(functions: seq<PlannedFunction>)
    ensures CountPseudonyms(functions[..0]) == 0 && CountAges(functions[..0]) == 0
  {
  }

  /** The verdict on a request: its own first rule, else that of the first function that breaks one. */
  ghost predicate IsVerdict(plan: Plan, r: Result<(), Rule>) {
    if EnvelopeError(plan).Some? then r == Err(EnvelopeError(plan).value)
    else
      var bbs := plan.sourceFormat == BBS_CD;
      match r
      case Ok(_) => FunctionsKeepRules(bbs, plan.functions, |plan.functions|)
      case Err(rule) => FirstBroken(bbs, plan.functions, rule)
  }

  /** The first rule broken: the request's own rules, then each function's in request order. */
  method Unsatisfiable(plan: Plan) returns (r: Result<(), Rule>)
    ensures IsVerdict(plan, r)
  {
    hide EnvelopeError, FunctionsKeepRules, FirstBroken;
    var envelope := EnvelopeError(plan);
    if envelope.Some? {
      return Err(envelope.value);
    }
    r := FirstUnserved(plan.sourceFormat == BBS_CD, plan.functions);
  }

  /** The loop over the functions, counting those of each kind. */
  method FirstUnserved(bbs: bool, functions: seq<PlannedFunction>) returns (r: Result<(), Rule>)
    ensures match r
            case Ok(_) => FunctionsKeepRules(bbs, functions, |functions|)
            case Err(rule) => FirstBroken(bbs, functions, rule)
  {
    var pseudonyms, ages: nat := 0, 0;
    hide PseudonymError, AgeError, IsFullDate, ErrorAt, CountPseudonyms, CountAges;
    NothingCounted(functions);
    for i := 0 to |functions|
      invariant pseudonyms == CountPseudonyms(functions[..i]) && ages == CountAges(functions[..i])
      invariant FunctionsKeepRules(bbs, functions, i)
    {
      var f := functions[i];
      ErrorHere(bbs, functions, i);
      CountsPush(functions, i);
      ghost var error := ErrorAt(bbs, functions, i);
      match f.params {
        case Unknown(_) =>
          assert error == Some(FunctionUnknown);
          return Err(FunctionUnknown);
        case Pseudonym(config, ver, prf, context, _) =>
          pseudonyms := pseudonyms + 1;
          if pseudonyms > 1 {
            assert error == Some(PseudonymRepeated);
            return Err(PseudonymRepeated);
          }
          var broken := PseudonymError(bbs, config, ver, prf, context);
          if broken.Some? {
            assert error == broken;
            return Err(broken.value);
          }
        case AgeCheck(ge, le, _) =>
          ages := ages + 1;
          if ages > 1 {
            assert error == Some(AgeCheckRepeated);
            return Err(AgeCheckRepeated);
          }
          var broken := AgeError(ge, le);
          if broken.Some? {
            assert error == broken;
            return Err(broken.value);
          }
      }
    }
    r := Ok(());
  }

  // ---- what a satisfiable request is -------------------------------------------------------------------

  /** The date `n` days later, one day at a time. */
  function Later(date: Date, n: nat): Date {
    if n == 0 then date else NextDay(Later(date, n - 1))
  }

  lemma {:induction false} LaterIsNumbered(date: Date, n: nat)
    requires IsDate(date)
    ensures IsDate(Later(date, n)) && DayNumber(Later(date, n)) == DayNumber(date) + n
  {
    hide DayNumber, NextDay, IsDate;
    if n == 0 {
    } else {
      LaterIsNumbered(date, n - 1);
      NextDayIsNextNumber(Later(date, n - 1));
    }
  }

  /** A full year of days lies between the bounds: 364 days after the lower bound is not past the upper. */
  predicate SpansAYear(low: Date, high: Date) {
    !Before(high, Later(low, MIN_AGE_SPAN_DAYS - 1))
  }

  lemma SpanIff(low: Date, high: Date)
    requires IsDate(low) && IsDate(high)
    ensures SpansAYear(low, high) <==> DayNumber(high) - DayNumber(low) + 1 >= MIN_AGE_SPAN_DAYS
    ensures Before(high, low) <==> DayNumber(high) < DayNumber(low)
  {
    hide DayNumber, Later, Before, IsDate;
    LaterIsNumbered(low, MIN_AGE_SPAN_DAYS - 1);
    DatesInOrder(high, Later(low, MIN_AGE_SPAN_DAYS - 1));
    DatesInOrder(high, low);
  }

  lemma FullDateIsDate(text: Text)
    requires IsFullDate(text)
    ensures IsDate(Date10(text))
  {
    hide Decimal, IsDate;
  }

  /** An age check is served exactly when it has a bound, and between two bounds lie at least 365 calendar days. */
  lemma AgeServedIff(ge: Option<Text>, le: Option<Text>)
    requires (ge.Some? ==> IsFullDate(ge.value)) && (le.Some? ==> IsFullDate(le.value))
    ensures AgeError(ge, le) == None <==>
      && (ge.Some? || le.Some?)
      && (ge.Some? && le.Some? ==> SpansAYear(Date10(ge.value), Date10(le.value)))
    ensures AgeError(ge, le) == Some(AgeCheckInverted) <==>
      ge.Some? && le.Some? && Before(Date10(le.value), Date10(ge.value))
  {
    hide DayNumber, DayNumberOf, SpansAYear, Before, IsFullDate, IsDate, Date10;
    if ge.Some? && le.Some? {
      DayNumberOfFullDate(ge.value);
      DayNumberOfFullDate(le.value);
      FullDateIsDate(ge.value);
      FullDateIsDate(le.value);
      SpanIff(Date10(ge.value), Date10(le.value));
    }
  }

  /** One function, apart from how often its kind occurs. */
  ghost predicate IsServed(bbs: bool, f: PlannedFunction)
    requires BoundsAreDates(f)
  {
    match f.params
    case Unknown(_) => false
    case Pseudonym(config, ver, prf, context, _) =>
      && config.Some? && KnownConfig(config.value) && ver == Some(PSEUDONYM_VER)
      && prf.Some? && PrfFits(bbs, config.value, prf.value) && ContextFits(config.value, context)
    case AgeCheck(ge, le, _) =>
      (ge.Some? || le.Some?) && (ge.Some? && le.Some? ==> SpansAYear(Date10(ge.value), Date10(le.value)))
  }

  /** No two functions of the same kind. */
  ghost predicate OfEachKindOnce(functions: seq<PlannedFunction>) {
    forall i, j :: 0 <= i < j < |functions| ==>
      !(functions[i].params.Pseudonym? && functions[j].params.Pseudonym?)
      && !(functions[i].params.AgeCheck? && functions[j].params.AgeCheck?)
  }

  lemma {:induction false} CountsAreZeroIff(functions: seq<PlannedFunction>)
    ensures CountPseudonyms(functions) == 0 <==> forall i :: 0 <= i < |functions| ==> !functions[i].params.Pseudonym?
    ensures CountAges(functions) == 0 <==> forall i :: 0 <= i < |functions| ==> !functions[i].params.AgeCheck?
  {
    if functions == [] {
    } else {
      var before, last := functions[..|functions| - 1], functions[|functions| - 1];
      CountsAreZeroIff(before);
      assert forall i :: 0 <= i < |before| ==> before[i] == functions[i];
    }
  }

  lemma ServedHere(bbs: bool, functions: seq<PlannedFunction>, i: nat)
    requires i < |functions| && AllBoundsAreDates(functions)
    ensures ErrorAt(bbs, functions, i) == None <==>
      && IsServed(bbs, functions[i])
      && (functions[i].params.Pseudonym? ==> CountPseudonyms(functions[..i]) == 0)
      && (functions[i].params.AgeCheck? ==> CountAges(functions[..i]) == 0)
  {
    hide SpansAYear, AgeError, KnownConfig, PrfFits, ContextFits;
    var f := functions[i];
    if f.params.AgeCheck? {
      AgeServedIff(f.params.ge, f.params.le);
    }
  }

  /** A request's functions break no rule exactly when each is served on its own and no kind occurs twice. */
  lemma FunctionsServedIff(bbs: bool, functions: seq<PlannedFunction>)
    requires AllBoundsAreDates(functions)
    ensures FunctionsKeepRules(bbs, functions, |functions|) <==>
      (forall i :: 0 <= i < |functions| ==> IsServed(bbs, functions[i])) && OfEachKindOnce(functions)
  {
    hide IsServed, FunctionError, BoundsAreDates, CountPseudonyms, CountAges, ErrorAt;
    forall i | 0 <= i < |functions|
      ensures ErrorAt(bbs, functions, i) == None <==>
        && IsServed(bbs, functions[i])
        && (functions[i].params.Pseudonym? ==> forall j :: 0 <= j < i ==> !functions[j].params.Pseudonym?)
        && (functions[i].params.AgeCheck? ==> forall j :: 0 <= j < i ==> !functions[j].params.AgeCheck?)
    {
      ServedHere(bbs, functions, i);
      CountsAreZeroIff(functions[..i]);
      assert forall j :: 0 <= j < i ==> functions[..i][j] == functions[j];
    }
  }

  /** What reading a request leaves has real dates for bounds. */
  lemma ReadBoundsAreDates(functionId: Text, handle: Text, params: Option<Json>)
    requires ReadParams(functionId, handle, params).Ok?
    ensures BoundsAreDates(PlannedFunction(functionId, handle, ReadParams(functionId, handle, params).value))
  {
    if functionId == AGE_CHECK {
      assert PSEUDONYM[0] != AGE_CHECK[0];
      var members := if params.None? then map[] else params.value.members;
      DeclaredParamFits(handle, AgeCheckParams(), members, 0);
      DeclaredParamFits(handle, AgeCheckParams(), members, 1);
    }
  }
}
