/** The 20-byte form of a proof time, and the verifier's tolerance check (RFC 3339, section 5.6). */
module ProofTime {
  import opened Bytes
  import opened Wrappers
  import opened Sequences
  import opened Calendar

  datatype Error = Form | NotAnInstant | OutOfRange | InFuture | TooOld

  const LEN := 20
  const MAX_SECS := 253_402_300_799

  // ---- decimal fields --------------------------------------------------------------

  const ZERO: byte := 48

  predicate IsDigit(b: byte) {
    48 <= b <= 57
  }

  predicate AreDigits(s: seq<byte>) {
    forall i :: 0 <= i < |s| ==> IsDigit(s[i])
  }

  function Pow10(width: nat): (p: nat)
    ensures p >= 1
  {
    if width == 0 then 1 else 10 * Pow10(width - 1)
  }

  function Decimal(s: seq<byte>): (n: nat)
    requires AreDigits(s)
    ensures n < Pow10(|s|)
  {
    if s == [] then 0 else 10 * Decimal(s[..|s| - 1]) + (s[|s| - 1] - ZERO)
  }

  /** `n` in exactly `width` digits, zero-padded. */
  function Padded(n: nat, width: nat): (s: seq<byte>)
    requires n < Pow10(width)
    ensures |s| == width && AreDigits(s) && Decimal(s) == n
  {
    if width == 0 then [] else Padded(n / 10, width - 1) + [ZERO + n % 10]
  }

  lemma {:induction false} PaddedDecimal(s: seq<byte>)
    requires AreDigits(s)
    ensures Padded(Decimal(s), |s|) == s
  {
    if s == [] {
    } else {
      var front, last := s[..|s| - 1], s[|s| - 1];
      assert s == front + [last] && AreDigits(front) && IsDigit(last);
      PaddedDecimal(front);
      hide Pow10, AreDigits;
      assert Decimal(s) / 10 == Decimal(front) && Decimal(s) % 10 == last - ZERO;
    }
  }

  // ---- instants and their form -------------------------------------------------------

  datatype Instant = Instant(date: Date, hour: int, minute: int, second: int)

  predicate IsInstant(i: Instant) {
    && IsDate(i.date) && 0 <= i.date.year <= 9999
    && 0 <= i.hour < 24 && 0 <= i.minute < 60 && 0 <= i.second < 60
  }

  function Seconds(i: Instant): int {
    DayNumber(i.date) * 86_400 + i.hour * 3600 + i.minute * 60 + i.second
  }

  lemma PowersOfTen()
    ensures Pow10(2) == 100 && Pow10(4) == 10_000
  {
    assert Pow10(1) == 10;
    assert Pow10(2) == 10 * Pow10(1);
    assert Pow10(3) == 10 * Pow10(2);
    assert Pow10(4) == 10 * Pow10(3);
  }

  function Two(n: int): seq<byte>
    requires 0 <= n < 100
  {
    PowersOfTen();
    Padded(n, 2)
  }

  function Four(n: int): seq<byte>
    requires 0 <= n < 10_000
  {
    PowersOfTen();
    Padded(n, 4)
  }

  /** `YYYY-MM-DDThh:mm:ssZ`. */
  function Format(i: Instant): (s: seq<byte>)
    requires IsInstant(i)
    ensures |s| == LEN
  {
    Four(i.date.year) + [45] + Two(i.date.month) + [45] + Two(i.date.day) + [84]
    + Two(i.hour) + [58] + Two(i.minute) + [58] + Two(i.second) + [90]
  }

  // ---- rendering ---------------------------------------------------------------------

  /** Days of renderable seconds have years up to 9999. */
  lemma RenderedDays(days: int)
    requires 0 <= days <= MAX_SECS / 86_400
    ensures IsDate(CivilFromDays(days)) && 1970 <= CivilFromDays(days).year <= 9999
  {
    var first, last := Date(1970, 1, 1), Date(9999, 12, 31);
    assert DayNumber(first) == 0 && DayNumber(last) == MAX_SECS / 86_400;
    CivilIsCounted(days);
    DatesInOrder(CivilFromDays(days), first);
    DatesInOrder(last, CivilFromDays(days));
  }

  function InstantOf(secs: int): (i: Instant)
    requires 0 <= secs <= MAX_SECS
    ensures IsInstant(i)
  {
    RenderedDays(secs / 86_400);
    var rem := secs % 86_400;
    Instant(CivilFromDays(secs / 86_400), rem / 3600, rem % 3600 / 60, rem % 60)
  }

  function Render(secs: int): Result<seq<byte>, Error> {
    if 0 <= secs <= MAX_SECS then Ok(Format(InstantOf(secs))) else Err(OutOfRange)
  }

  /** The epoch, and a second of a leap day: 1970-01-01T00:00:00Z and 2000-02-29T12:34:56Z. */
  lemma RenderExamples()
    ensures Render(0)
         == Ok([49, 57, 55, 48] + [45] + [48, 49] + [45] + [48, 49] + [84] + [48, 48] + [58] + [48, 48] + [58] + [48, 48] + [90])
    ensures Render(951_827_696)
         == Ok([50, 48, 48, 48] + [45] + [48, 50] + [45] + [50, 57] + [84] + [49, 50] + [58] + [51, 52] + [58] + [53, 54] + [90])
  {
    hide CivilFromDays, Two, Four;
    DaysOfExamples();
    YearsOfExamples();
    PairsOfExamples();
    assert InstantOf(0) == Instant(Date(1970, 1, 1), 0, 0, 0);
    assert InstantOf(951_827_696) == Instant(Date(2000, 2, 29), 12, 34, 56);
  }

  lemma DaysOfExamples()
    ensures CivilFromDays(0) == Date(1970, 1, 1) && CivilFromDays(11_016) == Date(2000, 2, 29)
  {
    hide CivilFromDays;
    assert DayNumber(Date(1970, 1, 1)) == 0 && DayNumber(Date(2000, 2, 29)) == 11_016;
    CivilOfDayNumber(Date(1970, 1, 1));
    CivilOfDayNumber(Date(2000, 2, 29));
  }

  lemma YearsOfExamples()
    ensures Four(1970) == [49, 57, 55, 48] && Four(2000) == [50, 48, 48, 48]
  {
    assert Padded(1970, 4) == Padded(197, 3) + [48];
    assert Padded(197, 3) == Padded(19, 2) + [55];
    assert Padded(2000, 4) == Padded(200, 3) + [48];
    assert Padded(200, 3) == Padded(20, 2) + [48];
  }

  lemma PairsOfExamples()
    ensures Two(0) == [48, 48] && Two(1) == [48, 49] && Two(2) == [48, 50] && Two(29) == [50, 57]
    ensures Two(12) == [49, 50] && Two(34) == [51, 52] && Two(56) == [53, 54]
  {
    TwoDigits(0);
    TwoDigits(1);
    TwoDigits(2);
    TwoDigits(29);
    TwoDigits(12);
    TwoDigits(34);
    TwoDigits(56);
  }

  lemma TwoDigits(n: nat)
    requires n < 100
    ensures Two(n) == [48 + n / 10, 48 + n % 10]
  {
    assert Padded(n, 2) == Padded(n / 10, 1) + [48 + n % 10];
  }

  // ---- parsing -----------------------------------------------------------------------

  predicate HasShape(b: seq<byte>) {
    && |b| == LEN
    && AreDigits(b[0..4]) && b[4] == 45 && AreDigits(b[5..7]) && b[7] == 45 && AreDigits(b[8..10]) && b[10] == 84
    && AreDigits(b[11..13]) && b[13] == 58 && AreDigits(b[14..16]) && b[16] == 58 && AreDigits(b[17..19]) && b[19] == 90
  }

  function Fields(b: seq<byte>): Instant
    requires HasShape(b)
  {
    Instant(Date(Decimal(b[0..4]), Decimal(b[5..7]), Decimal(b[8..10])),
            Decimal(b[11..13]), Decimal(b[14..16]), Decimal(b[17..19]))
  }

  function Parse(b: seq<byte>): Result<int, Error> {
    if !HasShape(b) then Err(Form)
    else
      var i := Fields(b);
      if !(1 <= i.date.month <= 12) then Err(NotAnInstant)
      else if !(1 <= i.date.day <= MonthDays(i.date.year, i.date.month)) || i.hour > 23 || i.minute > 59 || i.second > 59
      then Err(NotAnInstant)
      else Ok(DaysFromCivil(i.date.year, i.date.month, i.date.day) * 86_400 + i.hour * 3600 + i.minute * 60 + i.second)
  }

  lemma FormatHasShape(i: Instant)
    requires IsInstant(i)
    ensures HasShape(Format(i)) && Fields(Format(i)) == i
  {
    var s := Format(i);
    assert s[0..4] == Four(i.date.year);
    assert s[5..7] == Two(i.date.month);
    assert s[8..10] == Two(i.date.day);
    assert s[11..13] == Two(i.hour);
    assert s[14..16] == Two(i.minute);
    assert s[17..19] == Two(i.second);
  }

  lemma FieldsAreFormatted(b: seq<byte>)
    requires HasShape(b) && IsInstant(Fields(b))
    ensures Format(Fields(b)) == b
  {
    PaddedDecimal(b[0..4]);
    PaddedDecimal(b[5..7]);
    PaddedDecimal(b[8..10]);
    PaddedDecimal(b[11..13]);
    PaddedDecimal(b[14..16]);
    PaddedDecimal(b[17..19]);
    assert b == b[0..4] + [b[4]] + b[5..7] + [b[7]] + b[8..10] + [b[10]] + b[11..13] + [b[13]] + b[14..16] + [b[16]]
      + b[17..19] + [b[19]];
  }

  lemma YearInRange(b: seq<byte>)
    requires HasShape(b)
    ensures 0 <= Fields(b).date.year <= 9999
  {
    PowersOfTen();
    assert |b[0..4]| == 4;
  }

  lemma ParseReadsFields(b: seq<byte>)
    ensures Parse(b).Ok? <==> HasShape(b) && IsInstant(Fields(b))
    ensures Parse(b).Ok? ==> Parse(b).value == Seconds(Fields(b))
  {
    hide Decimal, DaysFromCivil, AreDigits;
    if HasShape(b) {
      YearInRange(b);
    }
  }

  /** A text is accepted as `secs` exactly when it is the form of an instant of the years 0 to 9999, that many seconds from the epoch. */
  lemma ParseIff(b: seq<byte>, secs: int)
    ensures Parse(b) == Ok(secs) <==> exists i :: IsInstant(i) && b == Format(i) && secs == Seconds(i)
  {
    hide Parse, HasShape, Fields, Format, Seconds, IsInstant;
    ParseReadsFields(b);
    if Parse(b) == Ok(secs) {
      FieldsAreFormatted(b);
      assert IsInstant(Fields(b)) && b == Format(Fields(b)) && secs == Seconds(Fields(b));
    }
    if i :| IsInstant(i) && b == Format(i) && secs == Seconds(i) {
      FormatHasShape(i);
    }
  }

  lemma ClockAddsUp(secs: int, days: int, rem: int)
    requires days == secs / 86_400 && rem == secs % 86_400
    ensures days * 86_400 + rem / 3600 * 3600 + rem % 3600 / 60 * 60 + rem % 60 == secs
  {
    var minutes := rem % 3600;
    assert minutes == minutes / 60 * 60 + minutes % 60;
    assert rem % 60 == minutes % 60;
  }

  lemma SecondsOfInstantOf(secs: int)
    requires 0 <= secs <= MAX_SECS
    ensures Seconds(InstantOf(secs)) == secs
  {
    hide DayNumber, CivilFromDays, IsDate, IsInstant;
    CivilIsCounted(secs / 86_400);
    ClockAddsUp(secs, secs / 86_400, secs % 86_400);
  }

  /** Every second up to the end of 9999 renders, and parses back. */
  lemma ParseRender(secs: int)
    requires 0 <= secs <= MAX_SECS
    ensures Render(secs).Ok? && |Render(secs).value| == LEN && Parse(Render(secs).value) == Ok(secs)
  {
    var i := InstantOf(secs);
    SecondsOfInstantOf(secs);
    ParseIff(Format(i), secs);
  }

  // ---- order -------------------------------------------------------------------------

  /** Byte-lexicographic order. */
  predicate LexLess(a: seq<byte>, b: seq<byte>) {
    b != [] && (a == [] || a[0] < b[0] || (a[0] == b[0] && LexLess(a[1..], b[1..])))
  }

  lemma {:induction false} LexAppend(a: seq<byte>, b: seq<byte>, c: seq<byte>, d: seq<byte>)
    requires |a| == |b|
    ensures LexLess(a + c, b + d) <==> LexLess(a, b) || (a == b && LexLess(c, d))
  {
    if a == [] {
      assert a + c == c && b + d == d;
    } else {
      assert (a + c)[1..] == a[1..] + c && (b + d)[1..] == b[1..] + d;
      LexAppend(a[1..], b[1..], c, d);
      assert a == [a[0]] + a[1..] && b == [b[0]] + b[1..];
    }
  }

  lemma {:induction false} LexPadded(m: nat, n: nat, width: nat)
    requires m < Pow10(width) && n < Pow10(width)
    ensures LexLess(Padded(m, width), Padded(n, width)) <==> m < n
    ensures Padded(m, width) == Padded(n, width) <==> m == n
  {
    if width == 0 {
    } else {
      LexPadded(m / 10, n / 10, width - 1);
      var c: seq<byte>, d: seq<byte> := [ZERO + m % 10], [ZERO + n % 10];
      LexAppend(Padded(m / 10, width - 1), Padded(n / 10, width - 1), c, d);
      assert LexLess(c, d) <==> c[0] < d[0];
    }
  }

  lemma LexMark(a: seq<byte>, b: seq<byte>, mark: byte, c: seq<byte>, d: seq<byte>)
    requires |a| == |b|
    ensures LexLess(a + [mark] + c, b + [mark] + d) <==> LexLess(a, b) || (a == b && LexLess(c, d))
  {
    AppendAssociates(a, [mark], c);
    AppendAssociates(b, [mark], d);
    LexAppend(a, b, [mark] + c, [mark] + d);
    assert ([mark] + c)[1..] == c && ([mark] + d)[1..] == d;
  }

  /** One more field, the earlier ones deciding first. */
  lemma LexField(m: int, n: int, mark: byte, c: seq<byte>, d: seq<byte>)
    requires 0 <= m < 100 && 0 <= n < 100
    ensures LexLess(Two(m) + [mark] + c, Two(n) + [mark] + d) <==> m < n || (m == n && LexLess(c, d))
  {
    PowersOfTen();
    LexPadded(m, n, 2);
    LexMark(Two(m), Two(n), mark, c, d);
  }

  predicate InstantBefore(a: Instant, b: Instant) {
    || Before(a.date, b.date)
    || (a.date == b.date && (a.hour < b.hour || (a.hour == b.hour &&
         (a.minute < b.minute || (a.minute == b.minute && a.second < b.second)))))
  }

  lemma InstantsInOrder(a: Instant, b: Instant)
    requires IsInstant(a) && IsInstant(b)
    ensures InstantBefore(a, b) <==> Seconds(a) < Seconds(b)
  {
    hide DayNumber, IsDate, Before;
    DatesInOrder(a.date, b.date);
    DatesInOrder(b.date, a.date);
    SameNumberSameDate(a.date, b.date);
    DateDecides(DayNumber(a.date), DayNumber(b.date), a.hour * 3600 + a.minute * 60 + a.second,
      b.hour * 3600 + b.minute * 60 + b.second);
  }

  lemma SameNumberSameDate(a: Date, b: Date)
    requires IsDate(a) && IsDate(b)
    ensures DayNumber(a) == DayNumber(b) <==> a == b
  {
    DayNumberIff(a, DayNumber(b));
    DayNumberIff(b, DayNumber(b));
  }

  lemma DateDecides(m: int, n: int, x: int, y: int)
    requires 0 <= x < 86_400 && 0 <= y < 86_400
    ensures m * 86_400 + x < n * 86_400 + y <==> m < n || (m == n && x < y)
  {
  }

  /** Texts compare byte by byte as their instants do. */
  lemma FormatsInOrder(a: Instant, b: Instant)
    requires IsInstant(a) && IsInstant(b)
    ensures LexLess(Format(a), Format(b)) <==> InstantBefore(a, b)
  {
    hide LexLess, Two, Four;
    var a6, b6 := Two(a.second) + [90] + [], Two(b.second) + [90] + [];
    var a5, b5 := Two(a.minute) + [58] + a6, Two(b.minute) + [58] + b6;
    var a4, b4 := Two(a.hour) + [58] + a5, Two(b.hour) + [58] + b5;
    var a3, b3 := Two(a.date.day) + [84] + a4, Two(b.date.day) + [84] + b4;
    var a2, b2 := Two(a.date.month) + [45] + a3, Two(b.date.month) + [45] + b3;
    LexField(a.second, b.second, 90, [], []);
    LexField(a.minute, b.minute, 58, a6, b6);
    LexField(a.hour, b.hour, 58, a5, b5);
    LexField(a.date.day, b.date.day, 84, a4, b4);
    LexField(a.date.month, b.date.month, 45, a3, b3);
    LexYear(a.date.year, b.date.year, a2, b2);
    assert Format(a) == Four(a.date.year) + [45] + a2;
    assert Format(b) == Four(b.date.year) + [45] + b2;
    NothingIsNotLess();
  }

  lemma NothingIsNotLess()
    ensures !LexLess([], [])
  {
  }

  lemma LexYear(m: int, n: int, c: seq<byte>, d: seq<byte>)
    requires 0 <= m < 10_000 && 0 <= n < 10_000
    ensures LexLess(Four(m) + [45] + c, Four(n) + [45] + d) <==> m < n || (m == n && LexLess(c, d))
  {
    PowersOfTen();
    LexPadded(m, n, 4);
    LexMark(Four(m), Four(n), 45, c, d);
  }

  /** Accepted texts are ordered, byte by byte, as their seconds are; in particular no two mean the same second. */
  lemma TextOrderIsTimeOrder(a: seq<byte>, b: seq<byte>)
    requires Parse(a).Ok? && Parse(b).Ok?
    ensures LexLess(a, b) <==> Parse(a).value < Parse(b).value
    ensures a == b <==> Parse(a).value == Parse(b).value
  {
    hide Parse, LexLess, Format, Seconds, IsInstant, InstantBefore, HasShape, Fields;
    ParseReadsFields(a);
    ParseReadsFields(b);
    FieldsAreFormatted(a);
    FieldsAreFormatted(b);
    FormatsInOrder(Fields(a), Fields(b));
    InstantsInOrder(Fields(a), Fields(b));
    SameSecondSameInstant(Fields(a), Fields(b));
  }

  lemma SameSecondSameInstant(a: Instant, b: Instant)
    requires IsInstant(a) && IsInstant(b)
    ensures Seconds(a) == Seconds(b) <==> a == b
  {
    hide DayNumber, IsDate, Before, Seconds;
    InstantsInOrder(a, b);
    InstantsInOrder(b, a);
    if Seconds(a) == Seconds(b) {
      EitherBefore(a.date, b.date);
    }
  }

  lemma EitherBefore(a: Date, b: Date)
    ensures Before(a, b) || Before(b, a) || a == b
  {
  }

  /** An accepted text from 1970 on is what its second renders to; an earlier one does not render. */
  lemma RenderParse(b: seq<byte>)
    requires Parse(b).Ok?
    ensures Parse(b).value <= MAX_SECS
    ensures Render(Parse(b).value) == if Parse(b).value >= 0 then Ok(b) else Err(OutOfRange)
  {
    hide Parse, Format, InstantOf, LexLess;
    ParseAtMostLast(b);
    if Parse(b).value >= 0 {
      ParseRender(Parse(b).value);
      TextOrderIsTimeOrder(b, Render(Parse(b).value).value);
    }
  }

  lemma ParseAtMostLast(b: seq<byte>)
    requires Parse(b).Ok?
    ensures FIRST_SECS <= Parse(b).value <= MAX_SECS
  {
    hide Parse, LexLess, HasShape, Fields;
    ParseReadsFields(b);
    var i := Fields(b);
    var first, last := Date(0, 1, 1), Date(9999, 12, 31);
    assert DayNumber(first) == FIRST_SECS / 86_400 && DayNumber(last) == MAX_SECS / 86_400;
    hide DayNumber;
    DatesInOrder(i.date, first);
    DatesInOrder(last, i.date);
  }

  /** 0000-01-01T00:00:00Z. */
  const FIRST_SECS := -62_167_219_200

  // ---- tolerance -----------------------------------------------------------------------

  const I64_MIN := -0x8000_0000_0000_0000
  const I64_MAX := 0x7FFF_FFFF_FFFF_FFFF

  predicate IsI64(n: int) {
    I64_MIN <= n <= I64_MAX
  }

  lemma I64Range(n: int)
    ensures IsI64(n) <==> -0x8000_0000_0000_0000 <= n <= 0x7FFF_FFFF_FFFF_FFFF
  {
  }

  function Saturated(n: int): int {
    if n < I64_MIN then I64_MIN else if n > I64_MAX then I64_MAX else n
  }

  function CheckTolerance(proofTime: seq<byte>, now: int, skew: int, maxAge: int): Result<(), Error> {
    match Parse(proofTime)
    case Err(e) => Err(e)
    case Ok(t) =>
      if t > Saturated(now + skew) then Err(InFuture)
      else if t < Saturated(now - maxAge) then Err(TooOld)
      else Ok(())
  }

  /** Saturation never shows: over all 64-bit inputs the check is the inequality over the unbounded integers. */
  lemma ToleranceIsUnbounded(proofTime: seq<byte>, now: int, skew: int, maxAge: int)
    requires IsI64(now) && IsI64(skew) && IsI64(maxAge)
    ensures CheckTolerance(proofTime, now, skew, maxAge) ==
      match Parse(proofTime)
      case Err(e) => Err(e)
      case Ok(t) => if now + skew < t then Err(InFuture) else if t < now - maxAge then Err(TooOld) else Ok(())
  {
    if Parse(proofTime).Ok? {
      hide Parse;
      ParseAtMostLast(proofTime);
    }
  }
}
