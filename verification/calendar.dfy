/**
 * Gregorian calendar arithmetic and the two timestamp shapes the mapper
 * converts between: `yyyy-MM-dd'T'HH:mm:ss'Z'` (ISO 8601, UTC) and
 * `EEE, dd MMM yyyy HH:mm:ss GMT` (the RFC 1123 date of section 5.2.14 of
 * RFC 1123 / section 3.3.1 of RFC 2616). The day of the week is derived from
 * the integer number of days since 1970-01-01, a Thursday.
 */
module Calendar {
  import opened Wrappers
  import opened Text

  /** The range of years the conversion is stated for. */
  const MinYear := 1970
  const MaxYear := 9999

  datatype DateTime = DateTime(year: int, month: int, day: int, hour: int, minute: int, second: int)

  predicate IsLeapYear(y: int) {
    y % 4 == 0 && (y % 100 != 0 || y % 400 == 0)
  }

  function YearLength(y: int): int {
    if IsLeapYear(y) then 366 else 365
  }

  function DaysInMonth(y: int, m: int): int
    requires 1 <= m <= 12
  {
    if m == 2 then (if IsLeapYear(y) then 29 else 28)
    else if m == 4 || m == 6 || m == 9 || m == 11 then 30
    else 31
  }

  /** A calendar-valid instant in the supported year range. */
  predicate Valid(dt: DateTime) {
    && MinYear <= dt.year <= MaxYear
    && 1 <= dt.month <= 12
    && 1 <= dt.day <= DaysInMonth(dt.year, dt.month)
    && 0 <= dt.hour < 24
    && 0 <= dt.minute < 60
    && 0 <= dt.second < 60
  }

  // ---------- days since the epoch, in closed form ----------

  /** Leap years among 1..y (for y >= 0). */
  function LeapYearsThrough(y: int): int {
    y / 4 - y / 100 + y / 400
  }

  function DaysBeforeYear(y: int): int
    requires y >= MinYear
  {
    365 * (y - MinYear) + LeapYearsThrough(y - 1) - LeapYearsThrough(MinYear - 1)
  }

  const CumulativeMonthDays: seq<int> := [0, 31, 59, 90, 120, 151, 181, 212, 243, 273, 304, 334]

  function DaysBeforeMonth(y: int, m: int): int
    requires 1 <= m <= 12
  {
    CumulativeMonthDays[m - 1] + (if m > 2 && IsLeapYear(y) then 1 else 0)
  }

  function DaysSinceEpoch(dt: DateTime): int
    requires Valid(dt)
  {
    DaysBeforeYear(dt.year) + DaysBeforeMonth(dt.year, dt.month) + dt.day - 1
  }

  /** 0 = Sunday, ..., 6 = Saturday; day 0 (1970-01-01) is a Thursday. */
  function DayOfWeek(days: int): (w: int)
    ensures 0 <= w < 7
    ensures days == 0 ==> w == 4
  {
    (days + 4) % 7
  }

  // ---------- the same counts, by adding up years and months ----------

  ghost function CountDaysBeforeYear(y: int): int
    requires y >= MinYear
    decreases y - MinYear
  {
    if y == MinYear then 0 else CountDaysBeforeYear(y - 1) + YearLength(y - 1)
  }

  ghost function CountDaysBeforeMonth(y: int, m: int): int
    requires 1 <= m <= 12
  {
    if m == 1 then 0 else CountDaysBeforeMonth(y, m - 1) + DaysInMonth(y, m - 1)
  }

  lemma MulAtLeastFactor(a: int, k: int)
    requires a >= 1 && k > 0
    ensures a * k >= k
  {
  }

  /** Euclidean division has one quotient and remainder. */
  lemma DivModUnique(y: int, k: int, q: int, r: int)
    requires k > 0 && 0 <= r < k && y == q * k + r
    ensures y / k == q && y % k == r
  {
    var q' := y / k;
    var r' := y % k;
    var d := q - q';
    assert d * k == r' - r;
    if d >= 1 {
      MulAtLeastFactor(d, k);
      assert false;
    } else if d <= -1 {
      MulAtLeastFactor(-d, k);
      assert false;
    }
  }

  /** Stepping from y - 1 to y raises y / k exactly when k divides y. */
  lemma DivStep(y: int, k: int)
    requires k > 0
    ensures y / k - (y - 1) / k == (if y % k == 0 then 1 else 0)
  {
    var q := (y - 1) / k;
    var r := (y - 1) % k;
    if r + 1 == k {
      assert y == (q + 1) * k + 0;
      DivModUnique(y, k, q + 1, 0);
    } else {
      DivModUnique(y, k, q, r + 1);
    }
  }

  lemma DividesTransitive(y: int, a: int, b: int)
    requires a > 0 && b > 0 && y % (a * b) == 0
    ensures y % a == 0
  {
    var q := y / (a * b);
    assert y == (q * b) * a + 0;
    DivModUnique(y, a, q * b, 0);
  }

  lemma LeapYearsStep(y: int)
    ensures LeapYearsThrough(y) - LeapYearsThrough(y - 1) == (if IsLeapYear(y) then 1 else 0)
  {
    DivStep(y, 4);
    DivStep(y, 100);
    DivStep(y, 400);
    if y % 400 == 0 {
      DividesTransitive(y, 100, 4);
    }
    if y % 100 == 0 {
      DividesTransitive(y, 4, 25);
    }
  }

  /** The closed form for whole years agrees with counting them one by one. */
  lemma {:induction false} DaysBeforeYearCounts(y: int)
    requires y >= MinYear
    ensures DaysBeforeYear(y) == CountDaysBeforeYear(y)
  {
    if y > MinYear {
      DaysBeforeYearCounts(y - 1);
      LeapYearsStep(y - 1);
      assert DaysBeforeYear(y) == DaysBeforeYear(y - 1) + YearLength(y - 1);
    }
  }

  /** The month table agrees with adding up the month lengths. */
  lemma {:induction false} DaysBeforeMonthCounts(y: int, m: int)
    requires 1 <= m <= 12
    ensures DaysBeforeMonth(y, m) == CountDaysBeforeMonth(y, m)
  {
    if m > 1 {
      DaysBeforeMonthCounts(y, m - 1);
    }
  }

  /** The calendar day after `dt` (same time of day). */
  function NextDay(dt: DateTime): (n: DateTime)
    requires Valid(dt)
    requires dt.year < MaxYear || dt.month < 12 || dt.day < 31
    ensures Valid(n)
  {
    if dt.day < DaysInMonth(dt.year, dt.month) then dt.(day := dt.day + 1)
    else if dt.month < 12 then dt.(month := dt.month + 1, day := 1)
    else dt.(year := dt.year + 1, month := 1, day := 1)
  }

  /** One more day moves the weekday on by one, Saturday wrapping to Sunday. */
  lemma DayOfWeekStep(days: int)
    ensures DayOfWeek(days + 1) == (DayOfWeek(days) + 1) % 7
  {
    var q := (days + 4) / 7;
    var w := (days + 4) % 7;
    if w == 6 {
      DivModUnique(days + 5, 7, q + 1, 0);
    } else {
      DivModUnique(days + 5, 7, q, w + 1);
    }
  }

  lemma DaysBeforeMonthStep(y: int, m: int)
    requires 1 <= m < 12
    ensures DaysBeforeMonth(y, m + 1) == DaysBeforeMonth(y, m) + DaysInMonth(y, m)
  {
  }

  lemma DaysBeforeYearStep(y: int)
    requires y >= MinYear
    ensures DaysBeforeYear(y + 1) == DaysBeforeYear(y) + DaysBeforeMonth(y, 12) + DaysInMonth(y, 12)
  {
    LeapYearsStep(y);
  }

  /** Successive calendar days are successive epoch days, one weekday apart. */
  lemma NextDayAdvancesByOne(dt: DateTime)
    requires Valid(dt)
    requires dt.year < MaxYear || dt.month < 12 || dt.day < 31
    ensures DaysSinceEpoch(NextDay(dt)) == DaysSinceEpoch(dt) + 1
    ensures DayOfWeek(DaysSinceEpoch(NextDay(dt))) == (DayOfWeek(DaysSinceEpoch(dt)) + 1) % 7
  {
    var y := dt.year;
    if dt.day == DaysInMonth(y, dt.month) {
      if dt.month < 12 {
        DaysBeforeMonthStep(y, dt.month);
      } else {
        DaysBeforeYearStep(y);
      }
    }
    DayOfWeekStep(DaysSinceEpoch(dt));
  }

  // ---------- renderings ----------

  const WeekdayNames: seq<string> := ["Sun", "Mon", "Tue", "Wed", "Thu", "Fri", "Sat"]
  const MonthNames: seq<string> :=
    ["Jan", "Feb", "Mar", "Apr", "May", "Jun", "Jul", "Aug", "Sep", "Oct", "Nov", "Dec"]

  /** `yyyy-MM-dd'T'HH:mm:ss'Z'`; the strict reading gives the instant back. */
  function RenderIso(dt: DateTime): (s: string)
    requires Valid(dt)
    ensures |s| == 20
    ensures ParseIso(s) == Some(dt)
  {
    Pow10Values();
    var s := IsoJoin(PadDigits(dt.year, 4), PadDigits(dt.month, 2), PadDigits(dt.day, 2),
                     PadDigits(dt.hour, 2), PadDigits(dt.minute, 2), PadDigits(dt.second, 2));
    IsoJoinFields(PadDigits(dt.year, 4), PadDigits(dt.month, 2), PadDigits(dt.day, 2),
                  PadDigits(dt.hour, 2), PadDigits(dt.minute, 2), PadDigits(dt.second, 2));
    PadDigitsRoundTrip(dt.year, 4);
    PadDigitsRoundTrip(dt.month, 2);
    PadDigitsRoundTrip(dt.day, 2);
    PadDigitsRoundTrip(dt.hour, 2);
    PadDigitsRoundTrip(dt.minute, 2);
    PadDigitsRoundTrip(dt.second, 2);
    s
  }

  function IsoJoin(y: string, mo: string, d: string, h: string, mi: string, se: string): string {
    y + "-" + mo + "-" + d + "T" + h + ":" + mi + ":" + se + "Z"
  }

  /** The fields of an ISO join are found at fixed offsets. */
  lemma IsoJoinFields(y: string, mo: string, d: string, h: string, mi: string, se: string)
    requires |y| == 4 && |mo| == 2 && |d| == 2 && |h| == 2 && |mi| == 2 && |se| == 2
    ensures var s := IsoJoin(y, mo, d, h, mi, se);
      && |s| == 20 && s[0..4] == y && s[4] == '-' && s[5..7] == mo && s[7] == '-' && s[8..10] == d
      && s[10] == 'T' && s[11..13] == h && s[13] == ':' && s[14..16] == mi && s[16] == ':'
      && s[17..19] == se && s[19] == 'Z'
  {
  }

  /** A string of the ISO shape is the join of its own fields. */
  lemma IsoJoinOfSlices(s: string)
    requires |s| == 20 && s[4] == '-' && s[7] == '-' && s[10] == 'T' && s[13] == ':' && s[16] == ':' && s[19] == 'Z'
    ensures IsoJoin(s[0..4], s[5..7], s[8..10], s[11..13], s[14..16], s[17..19]) == s
  {
    var j := IsoJoin(s[0..4], s[5..7], s[8..10], s[11..13], s[14..16], s[17..19]);
    assert |j| == 20;
    forall i | 0 <= i < 20
      ensures j[i] == s[i]
    {
    }
  }

  /**
   * `EEE, dd MMM yyyy HH:mm:ss z` in the GMT zone, US locale; reading the
   * text back gives the instant, weekday checked.
   */
  function FormatRfc1123(dt: DateTime): (s: string)
    requires Valid(dt)
    ensures |s| == 29
    ensures ParseRfc1123(s) == Some(dt)
  {
    Pow10Values();
    NamesHaveThreeLetters();
    var w := WeekdayNames[DayOfWeek(DaysSinceEpoch(dt))];
    RfcJoinFields(w, PadDigits(dt.day, 2), MonthNames[dt.month - 1], PadDigits(dt.year, 4),
                  PadDigits(dt.hour, 2), PadDigits(dt.minute, 2), PadDigits(dt.second, 2));
    PadDigitsRoundTrip(dt.year, 4);
    PadDigitsRoundTrip(dt.day, 2);
    PadDigitsRoundTrip(dt.hour, 2);
    PadDigitsRoundTrip(dt.minute, 2);
    PadDigitsRoundTrip(dt.second, 2);
    MonthNamesDistinct();
    IndexOfDistinct(MonthNames, dt.month - 1);
    RfcJoin(w, PadDigits(dt.day, 2), MonthNames[dt.month - 1],
            PadDigits(dt.year, 4), PadDigits(dt.hour, 2), PadDigits(dt.minute, 2), PadDigits(dt.second, 2))
  }

  function RfcJoin(w: string, d: string, mon: string, y: string, h: string, mi: string, se: string): string {
    w + ", " + d + " " + mon + " " + y + " " + h + ":" + mi + ":" + se + " GMT"
  }

  lemma NamesHaveThreeLetters()
    ensures forall k :: 0 <= k < |WeekdayNames| ==> |WeekdayNames[k]| == 3
    ensures forall k :: 0 <= k < |MonthNames| ==> |MonthNames[k]| == 3
  {
  }

  /** A string of the RFC 1123 shape is the join of its own fields. */
  lemma RfcJoinOfSlices(s: string)
    requires RfcShaped(s)
    ensures RfcJoin(s[0..3], s[5..7], s[8..11], s[12..16], s[17..19], s[20..22], s[23..25]) == s
  {
    var j := RfcJoin(s[0..3], s[5..7], s[8..11], s[12..16], s[17..19], s[20..22], s[23..25]);
    assert |j| == 29;
    forall i | 0 <= i < 29
      ensures j[i] == s[i]
    {
      if 3 <= i < 5 {
        assert s[i] == s[3..5][i - 3];
      } else if 25 <= i {
        assert s[i] == s[25..29][i - 25];
      }
    }
  }

  // ---------- reading the two shapes back ----------

  /** `s` has the exact shape `dddd-dd-ddTdd:dd:ddZ`. */
  predicate IsoShaped(s: string) {
    && |s| == 20
    && AllDigits(s[0..4]) && s[4] == '-' && AllDigits(s[5..7]) && s[7] == '-' && AllDigits(s[8..10])
    && s[10] == 'T' && AllDigits(s[11..13]) && s[13] == ':' && AllDigits(s[14..16]) && s[16] == ':'
    && AllDigits(s[17..19]) && s[19] == 'Z'
  }

  function IsoFields(s: string): DateTime
    requires IsoShaped(s)
  {
    DateTime(DigitsValue(s[0..4]), DigitsValue(s[5..7]), DigitsValue(s[8..10]),
             DigitsValue(s[11..13]), DigitsValue(s[14..16]), DigitsValue(s[17..19]))
  }

  /** Strict reading of an ISO 8601 UTC timestamp; no roll-over, nothing trailing. */
  function ParseIso(s: string): (r: Option<DateTime>)
    ensures r.Some? ==> Valid(r.value)
  {
    if IsoShaped(s) && Valid(IsoFields(s)) then Some(IsoFields(s)) else None
  }

  /** `s` has the exact shape `www, dd mmm dddd dd:dd:dd GMT`. */
  predicate RfcShaped(s: string) {
    && |s| == 29
    && s[3..5] == ", " && AllDigits(s[5..7]) && s[7] == ' ' && s[11] == ' ' && AllDigits(s[12..16])
    && s[16] == ' ' && AllDigits(s[17..19]) && s[19] == ':' && AllDigits(s[20..22]) && s[22] == ':'
    && AllDigits(s[23..25]) && s[25..29] == " GMT"
  }

  /** Position of the first occurrence of `x` in `xs`. */
  function IndexOf(xs: seq<string>, x: string): (r: Option<nat>)
    ensures r.Some? ==> r.value < |xs| && xs[r.value] == x
    ensures r.None? ==> x !in xs
  {
    if |xs| == 0 then None
    else if xs[0] == x then Some(0)
    else match IndexOf(xs[1..], x)
      case Some(i) => Some(i + 1)
      case None => None
  }

  /** Reads back an RFC 1123 date; the weekday must be the one the date falls on. */
  function ParseRfc1123(s: string): (r: Option<DateTime>)
    ensures r.Some? ==> Valid(r.value)
  {
    if !RfcShaped(s) then None
    else match IndexOf(MonthNames, s[8..11])
      case None => None
      case Some(i) =>
        var dt := DateTime(DigitsValue(s[12..16]), i + 1, DigitsValue(s[5..7]),
                           DigitsValue(s[17..19]), DigitsValue(s[20..22]), DigitsValue(s[23..25]));
        if Valid(dt) && s[0..3] == WeekdayNames[DayOfWeek(DaysSinceEpoch(dt))] then Some(dt) else None
  }

  lemma Pow10Values()
    ensures Pow10(2) == 100 && Pow10(4) == 10000
  {
  }

  /** Every string the strict reading accepts is the rendering of what it reads. */
  lemma IsoCanonical(s: string)
    requires ParseIso(s).Some?
    ensures RenderIso(ParseIso(s).value) == s
  {
    PadDigitsOfValue(s[0..4]);
    PadDigitsOfValue(s[5..7]);
    PadDigitsOfValue(s[8..10]);
    PadDigitsOfValue(s[11..13]);
    PadDigitsOfValue(s[14..16]);
    PadDigitsOfValue(s[17..19]);
    IsoJoinOfSlices(s);
  }

  /** In a list without repeats, the first occurrence of an element is its position. */
  lemma {:induction false} IndexOfDistinct(xs: seq<string>, i: nat)
    requires i < |xs|
    requires forall a, b :: 0 <= a < b < |xs| ==> xs[a] != xs[b]
    ensures IndexOf(xs, xs[i]) == Some(i)
  {
    if i > 0 {
      assert xs[1..][i - 1] == xs[i];
      IndexOfDistinct(xs[1..], i - 1);
    }
  }

  lemma MonthNamesDistinct()
    ensures forall a, b :: 0 <= a < b < |MonthNames| ==> MonthNames[a] != MonthNames[b]
  {
  }

  /** The fields of a join are found at fixed offsets. */
  lemma RfcJoinFields(w: string, d: string, mon: string, y: string, h: string, mi: string, se: string)
    requires |w| == 3 && |d| == 2 && |mon| == 3 && |y| == 4 && |h| == 2 && |mi| == 2 && |se| == 2
    ensures var s := RfcJoin(w, d, mon, y, h, mi, se);
      && |s| == 29 && s[0..3] == w && s[3..5] == ", " && s[5..7] == d && s[7] == ' ' && s[8..11] == mon
      && s[11] == ' ' && s[12..16] == y && s[16] == ' ' && s[17..19] == h && s[19] == ':'
      && s[20..22] == mi && s[22] == ':' && s[23..25] == se && s[25..29] == " GMT"
  {
  }

  /** Every string the RFC 1123 reading accepts is the formatting of what it reads. */
  lemma RfcCanonical(s: string)
    requires ParseRfc1123(s).Some?
    ensures FormatRfc1123(ParseRfc1123(s).value) == s
  {
    PadDigitsOfValue(s[5..7]);
    PadDigitsOfValue(s[12..16]);
    PadDigitsOfValue(s[17..19]);
    PadDigitsOfValue(s[20..22]);
    PadDigitsOfValue(s[23..25]);
    RfcJoinOfSlices(s);
  }

  /** Distinct instants never format to the same text. */
  lemma FormatRfc1123Injective(a: DateTime, b: DateTime)
    requires Valid(a) && Valid(b) && FormatRfc1123(a) == FormatRfc1123(b)
    ensures a == b
  {
    assert ParseRfc1123(FormatRfc1123(a)) == Some(a);
  }

  /** 2011-01-25 is epoch day 14999, a Tuesday. */
  lemma ExampleDay()
    ensures DaysSinceEpoch(DateTime(2011, 1, 25, 18, 44, 36)) == 14999
    ensures WeekdayNames[DayOfWeek(14999)] == "Tue"
  {
  }

  /** A two-digit field is the tens digit followed by the units digit. */
  lemma PadTwo(n: nat, s: string)
    requires n < 100 && |s| == 2 && s[0] == DigitChar(n / 10) && s[1] == DigitChar(n % 10)
    ensures PadDigits(n, 2) == s
  {
    assert PadDigits(n / 10, 1) == [s[0]];
  }

  lemma ExampleYear()
    ensures PadDigits(2011, 4) == "2011"
  {
  }

  lemma ExampleIso()
    ensures RenderIso(DateTime(2011, 1, 25, 18, 44, 36)) == "2011-01-25T18:44:36Z"
  {
    ExampleYear();
    PadTwo(1, "01");
    PadTwo(25, "25");
    PadTwo(18, "18");
    PadTwo(44, "44");
    PadTwo(36, "36");
    assert IsoJoin("2011", "01", "25", "18", "44", "36") == "2011-01-25T18:44:36Z";
  }

  /** The formatted text from its seven already-rendered fields. */
  lemma FormatFromFields(dt: DateTime, w: string, d: string, mon: string, y: string, h: string, mi: string, se: string)
    requires Valid(dt)
    requires WeekdayNames[DayOfWeek(DaysSinceEpoch(dt))] == w && MonthNames[dt.month - 1] == mon
    requires PadDigits(dt.day, 2) == d && PadDigits(dt.year, 4) == y
    requires PadDigits(dt.hour, 2) == h && PadDigits(dt.minute, 2) == mi && PadDigits(dt.second, 2) == se
    ensures FormatRfc1123(dt) == RfcJoin(w, d, mon, y, h, mi, se)
  {
  }

  lemma ExampleRfc()
    ensures FormatRfc1123(DateTime(2011, 1, 25, 18, 44, 36)) == "Tue, 25 Jan 2011 18:44:36 GMT"
  {
    ExampleDay();
    ExampleYear();
    PadTwo(25, "25");
    PadTwo(18, "18");
    PadTwo(44, "44");
    PadTwo(36, "36");
    FormatFromFields(DateTime(2011, 1, 25, 18, 44, 36), "Tue", "25", "Jan", "2011", "18", "44", "36");
    ExampleJoin();
  }

  lemma ExampleJoin()
    ensures RfcJoin("Tue", "25", "Jan", "2011", "18", "44", "36") == "Tue, 25 Jan 2011 18:44:36 GMT"
  {
  }
}
