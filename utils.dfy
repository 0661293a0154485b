/** The pure helpers of the trip planner: duration and date text, the Escape-key test, the
    time classification of points, replacement by id and the three list orderings. */
module Utils {
  import opened Domain
  import opened Text
  import opened Sorting

  const MsPerMinute: nat := 60000
  const MinutesPerHour: nat := 60
  const MinutesPerDay: nat := 1440

  // ---------------------------------------------------------------------------------------
  // Duration text

  /** `calculateDuration(dateFrom, dateTo)` for a non-negative whole number of minutes:
      "5M" below an hour, "02H 05M" below a day, "01D 02H 03M" from a day on. */
  function CalculateDuration(dateFrom: int, dateTo: int): string
    requires dateFrom <= dateTo && (dateTo - dateFrom) % MsPerMinute == 0
  {
    var duration := (dateTo - dateFrom) / MsPerMinute;
    if duration < MinutesPerHour then
      Digits(duration) + "M"
    else if duration < MinutesPerDay then
      var hours := duration / MinutesPerHour;
      var minutes := duration % MinutesPerHour;
      PadStart(Digits(hours), 2, '0') + "H " + PadStart(Digits(minutes), 2, '0') + "M"
    else
      var days := duration / MinutesPerDay;
      var hours := (duration % MinutesPerDay) / MinutesPerHour;
      var minutes := duration % MinutesPerHour;
      PadStart(Digits(days), 2, '0') + "D " + PadStart(Digits(hours), 2, '0') + "H "
        + PadStart(Digits(minutes), 2, '0') + "M"
  }

  /** One field of a duration text: `width` digits worth `amount`, then the unit letter. */
  datatype Field = Field(amount: nat, unit: char, width: nat)

  function LeadingDigits(s: string): (n: nat)
    ensures n <= |s| && AllDigits(s[..n])
  {
    if s == [] || !IsDigit(s[0]) then 0 else 1 + LeadingDigits(s[1..])
  }

  /** Reads a duration text: fields "<digits><unit>" separated by single spaces. */
  function ParseFields(s: string): Option<seq<Field>>
    decreases |s|
  {
    var n := LeadingDigits(s);
    if n == 0 || n == |s| then None
    else
      var f := Field(DecimalValue(s[..n]), s[n], n);
      var rest := s[n + 1..];
      if rest == [] then Some([f])
      else if rest[0] != ' ' then None
      else match ParseFields(rest[1..])
        case None => None
        case Some(fs) => Some([f] + fs)
  }

  function UnitMinutes(u: char): nat
  {
    if u == 'D' then MinutesPerDay else if u == 'H' then MinutesPerHour else if u == 'M' then 1 else 0
  }

  function TotalMinutes(fs: seq<Field>): nat
  {
    if fs == [] then 0 else fs[0].amount * UnitMinutes(fs[0].unit) + TotalMinutes(fs[1..])
  }

  /** The field is written as `String(amount).padStart(2, '0')`. */
  predicate PaddedWidth(f: Field)
  {
    f.width == if |Digits(f.amount)| < 2 then 2 else |Digits(f.amount)|
  }

  /** The shapes the duration text may take: minutes alone, unpadded; or hours (at least one)
      and minutes; or days (at least one), hours and minutes; in the last two every field is
      zero-padded to two digits, hours stay below 24 and minutes below 60. */
  predicate CanonicalDuration(fs: seq<Field>)
  {
    || (|fs| == 1 && fs[0].unit == 'M' && fs[0].amount < 60 && fs[0].width == |Digits(fs[0].amount)|)
    || (|fs| == 2 && fs[0].unit == 'H' && fs[1].unit == 'M'
        && 1 <= fs[0].amount < 24 && fs[1].amount < 60
        && PaddedWidth(fs[0]) && PaddedWidth(fs[1]))
    || (|fs| == 3 && fs[0].unit == 'D' && fs[1].unit == 'H' && fs[2].unit == 'M'
        && 1 <= fs[0].amount && fs[1].amount < 24 && fs[2].amount < 60
        && PaddedWidth(fs[0]) && PaddedWidth(fs[1]) && PaddedWidth(fs[2]))
  }

  lemma {:induction false} LeadingDigitsOf(ds: string, rest: string)
    requires AllDigits(ds)
    requires rest == [] || !IsDigit(rest[0])
    ensures LeadingDigits(ds + rest) == |ds|
  {
    if ds == [] {
      assert ds + rest == rest;
    } else {
      assert (ds + rest)[1..] == ds[1..] + rest;
      LeadingDigitsOf(ds[1..], rest);
    }
  }

  lemma ParseFieldAt(ds: string, u: char, rest: string)
    requires |ds| > 0 && AllDigits(ds) && !IsDigit(u)
    ensures var s := ds + [u] + rest;
            LeadingDigits(s) == |ds| && s[..|ds|] == ds && s[|ds|] == u && s[|ds| + 1..] == rest
  {
    var s := ds + [u] + rest;
    assert s == ds + ([u] + rest);
    LeadingDigitsOf(ds, [u] + rest);
  }

  /** A text that is one field alone. */
  lemma ParseLastField(ds: string, u: char)
    requires |ds| > 0 && AllDigits(ds) && !IsDigit(u)
    ensures ParseFields(ds + [u]) == Some([Field(DecimalValue(ds), u, |ds|)])
  {
    ParseFieldAt(ds, u, "");
    assert ds + [u] + "" == ds + [u];
  }

  /** A text that starts with one field and a space. */
  lemma ParseLeadingField(ds: string, u: char, rest: string)
    requires |ds| > 0 && AllDigits(ds) && !IsDigit(u)
    ensures ParseFields(ds + [u, ' '] + rest) ==
      match ParseFields(rest)
        case None => None
        case Some(fs) => Some([Field(DecimalValue(ds), u, |ds|)] + fs)
  {
    ParseFieldAt(ds, u, [' '] + rest);
    assert ds + [u, ' '] + rest == ds + [u] + ([' '] + rest);
    assert ([' '] + rest)[1..] == rest;
  }

  lemma AppendAssoc(a: string, b: string, c: string)
    ensures a + b + c == a + (b + c)
  {
  }

  function Padded(n: nat): string
  {
    PadStart(Digits(n), 2, '0')
  }

  lemma PaddedFacts(n: nat)
    ensures |Padded(n)| > 0 && AllDigits(Padded(n)) && DecimalValue(Padded(n)) == n
    ensures PaddedWidth(Field(n, 'M', |Padded(n)|))
  {
    PaddedDigitsRoundTrip(n, 2);
  }

  lemma MinutesOnlyReadsBack(d: nat)
    ensures var parsed := ParseFields(Digits(d) + "M");
            parsed.Some? && parsed.value == [Field(d, 'M', |Digits(d)|)]
  {
    DigitsRoundTrip(d);
    ParseLastField(Digits(d), 'M');
  }

  lemma HoursMinutesReadBack(h: nat, m: nat)
    ensures var parsed := ParseFields(Padded(h) + "H " + Padded(m) + "M");
            parsed.Some? && parsed.value == [Field(h, 'H', |Padded(h)|), Field(m, 'M', |Padded(m)|)]
  {
    PaddedFacts(h);
    PaddedFacts(m);
    ParseLastField(Padded(m), 'M');
    ParseLeadingField(Padded(h), 'H', Padded(m) + "M");
    assert Padded(h) + "H " + Padded(m) + "M" == Padded(h) + ['H', ' '] + (Padded(m) + "M");
  }

  lemma DaysHoursMinutesReadBack(dd: nat, h: nat, m: nat)
    ensures var parsed := ParseFields(Padded(dd) + "D " + Padded(h) + "H " + Padded(m) + "M");
            parsed.Some? &&
            parsed.value == [Field(dd, 'D', |Padded(dd)|), Field(h, 'H', |Padded(h)|), Field(m, 'M', |Padded(m)|)]
  {
    PaddedFacts(dd);
    var a, b, c := Padded(dd), Padded(h), Padded(m);
    var tailH := b + "H " + c + "M";
    HoursMinutesReadBack(h, m);
    ParseLeadingField(a, 'D', tailH);
    assert a + "D " + b + "H " + c + "M" == a + ['D', ' '] + tailH by {
      assert a + "D " == a + ['D', ' '];
      AppendAssoc(a + ['D', ' '], b + "H " + c, "M");
      AppendAssoc(a + ['D', ' '], b + "H ", c);
      AppendAssoc(a + ['D', ' '], b, "H ");
    }
  }

  lemma HoursCaseTotals(d: nat)
    requires 60 <= d < 1440
    ensures var fs := [Field(d / 60, 'H', |Padded(d / 60)|), Field(d % 60, 'M', |Padded(d % 60)|)];
            CanonicalDuration(fs) && TotalMinutes(fs) == d
  {
    var h, m := d / 60, d % 60;
    PaddedFacts(h);
    PaddedFacts(m);
    var fs := [Field(h, 'H', |Padded(h)|), Field(m, 'M', |Padded(m)|)];
    assert TotalMinutes(fs[1..]) == m;
    assert TotalMinutes(fs) == h * 60 + m;
  }

  lemma DaysCaseTotals(d: nat)
    requires 1440 <= d
    ensures var fs := [Field(d / 1440, 'D', |Padded(d / 1440)|), Field((d % 1440) / 60, 'H', |Padded((d % 1440) / 60)|),
                       Field(d % 60, 'M', |Padded(d % 60)|)];
            CanonicalDuration(fs) && TotalMinutes(fs) == d
  {
    var dd, h, m := d / 1440, (d % 1440) / 60, d % 60;
    PaddedFacts(dd);
    PaddedFacts(h);
    PaddedFacts(m);
    var fs := [Field(dd, 'D', |Padded(dd)|), Field(h, 'H', |Padded(h)|), Field(m, 'M', |Padded(m)|)];
    assert TotalMinutes(fs[2..]) == m;
    assert TotalMinutes(fs[1..]) == h * 60 + m;
    assert TotalMinutes(fs) == dd * 1440 + h * 60 + m;
    DayArithmetic(d);
  }

  lemma DayArithmetic(d: nat)
    ensures (d / 1440) * 1440 + ((d % 1440) / 60) * 60 + d % 60 == d
    ensures (d % 1440) / 60 < 24
  {
    var q, r := d / 1440, d % 1440;
    assert d == q * 1440 + r;
    assert r == (r / 60) * 60 + r % 60;
    assert d == (q * 24 + r / 60) * 60 + r % 60;
    assert d % 60 == r % 60;
  }

  /** `calculateDuration` is read back as the duration it was given, in one of the canonical
      shapes: the three branches, the field arithmetic and the zero-padding are all pinned. */
  lemma CalculateDurationReadsBack(dateFrom: int, dateTo: int)
    requires dateFrom <= dateTo && (dateTo - dateFrom) % MsPerMinute == 0
    ensures var d := (dateTo - dateFrom) / MsPerMinute;
            var parsed := ParseFields(CalculateDuration(dateFrom, dateTo));
            && parsed.Some?
            && CanonicalDuration(parsed.value)
            && TotalMinutes(parsed.value) == d
            && (d < 60 <==> |parsed.value| == 1)
            && (60 <= d < 1440 <==> |parsed.value| == 2)
            && (1440 <= d <==> |parsed.value| == 3)
  {
    var d := (dateTo - dateFrom) / MsPerMinute;
    var r := CalculateDuration(dateFrom, dateTo);
    if d < 60 {
      assert r == Digits(d) + "M";
      MinutesOnlyReadsBack(d);
      assert TotalMinutes([Field(d, 'M', |Digits(d)|)]) == d;
    } else if d < 1440 {
      assert r == Padded(d / 60) + "H " + Padded(d % 60) + "M";
      HoursMinutesReadBack(d / 60, d % 60);
      HoursCaseTotals(d);
    } else {
      assert r == Padded(d / 1440) + "D " + Padded((d % 1440) / 60) + "H " + Padded(d % 60) + "M";
      DaysHoursMinutesReadBack(d / 1440, (d % 1440) / 60, d % 60);
      DaysCaseTotals(d);
    }
  }

  /** `padStart` never truncates: from 100 days on, the day field has three or more digits. */
  lemma LongDurationsKeepAllDayDigits(dateFrom: int, dateTo: int)
    requires dateFrom <= dateTo && (dateTo - dateFrom) % MsPerMinute == 0
    requires (dateTo - dateFrom) / MsPerMinute >= 100 * MinutesPerDay
    ensures var parsed := ParseFields(CalculateDuration(dateFrom, dateTo));
            parsed.Some? && |parsed.value| == 3 && parsed.value[0].width >= 3
  {
    CalculateDurationReadsBack(dateFrom, dateTo);
    var d := (dateTo - dateFrom) / MsPerMinute;
    DigitsLength(d / MinutesPerDay);
  }

  // ---------------------------------------------------------------------------------------
  // Date text

  /** `formatDateToCustomFormat(date)` from the values of the date's getters: `day` from
      `getDate`, `monthIndex` from `getMonth` (0-based), `year` from `getFullYear`, `hours`
      and `minutes` from `getHours` and `getMinutes`. Gives "DD/MM/YY HH:MM". */
  function FormatDateToCustomFormat(day: int, monthIndex: int, year: int, hours: int, minutes: int): string
    requires 1 <= day <= 31 && 0 <= monthIndex <= 11 && 0 <= hours <= 23 && 0 <= minutes <= 59
  {
    Padded(day) + "/" + Padded(monthIndex + 1) + "/" + SliceFrom(JsString(year), 2) + " "
      + Padded(hours) + ":" + Padded(minutes)
  }

  lemma TwoDigitFacts(n: nat)
    requires n < 100
    ensures |Padded(n)| == 2 && AllDigits(Padded(n)) && DecimalValue(Padded(n)) == n
  {
    PaddedFacts(n);
    DigitsLength(n);
  }

  lemma {:induction false} FourDigitYear(year: nat)
    requires 1000 <= year <= 9999
    ensures |SliceFrom(JsString(year), 2)| == 2
    ensures AllDigits(SliceFrom(JsString(year), 2))
    ensures DecimalValue(SliceFrom(JsString(year), 2)) == year % 100
  {
    var s := Digits(year);
    assert s == Digits(year / 10) + [DigitChar(year % 10)];
    assert Digits(year / 10) == Digits(year / 100) + [DigitChar((year / 10) % 10)] by {
      assert (year / 10) / 10 == year / 100;
    }
    DigitsLength(year / 100);
    var t := s[2..];
    assert t == [DigitChar((year / 10) % 10), DigitChar(year % 10)];
    assert t[..1] == [DigitChar((year / 10) % 10)];
    assert DecimalValue(t[..1]) == (year / 10) % 10 by {
      assert t[..1][..0] == [];
    }
    assert DecimalValue(t) == ((year / 10) % 10) * 10 + year % 10;
    assert ((year / 10) % 10) * 10 + year % 10 == year % 100;
  }

  /** For a four-digit year the text is 14 characters, "DD/MM/YY HH:MM", and every field reads
      back as the getter value it came from (the month one-based, the year's last two digits). */
  lemma FormatDateFields(day: int, monthIndex: int, year: int, hours: int, minutes: int)
    requires 1 <= day <= 31 && 0 <= monthIndex <= 11 && 0 <= hours <= 23 && 0 <= minutes <= 59
    requires 1000 <= year <= 9999
    ensures var r := FormatDateToCustomFormat(day, monthIndex, year, hours, minutes);
            && |r| == 14
            && r[2] == '/' && r[5] == '/' && r[8] == ' ' && r[11] == ':'
            && AllDigits(r[0..2]) && DecimalValue(r[0..2]) == day
            && AllDigits(r[3..5]) && DecimalValue(r[3..5]) == monthIndex + 1
            && AllDigits(r[6..8]) && DecimalValue(r[6..8]) == year % 100
            && AllDigits(r[9..11]) && DecimalValue(r[9..11]) == hours
            && AllDigits(r[12..14]) && DecimalValue(r[12..14]) == minutes
  {
    TwoDigitFacts(day);
    TwoDigitFacts(monthIndex + 1);
    TwoDigitFacts(hours);
    TwoDigitFacts(minutes);
    FourDigitYear(year);
    DateLayout(Padded(day), Padded(monthIndex + 1), SliceFrom(JsString(year), 2), Padded(hours), Padded(minutes));
  }

  /** Where the five two-character fields sit in "DD/MM/YY HH:MM". */
  lemma DateLayout(a: string, b: string, c: string, d: string, e: string)
    requires |a| == 2 && |b| == 2 && |c| == 2 && |d| == 2 && |e| == 2
    ensures var r := a + "/" + b + "/" + c + " " + d + ":" + e;
            && |r| == 14
            && r[2] == '/' && r[5] == '/' && r[8] == ' ' && r[11] == ':'
            && r[0..2] == a && r[3..5] == b && r[6..8] == c && r[9..11] == d && r[12..14] == e
  {
    var r := a + "/" + b + "/" + c + " " + d + ":" + e;
    assert r == a + ("/" + b + "/" + c + " " + d + ":" + e);
  }

  // ---------------------------------------------------------------------------------------
  // Keys and time classification

  /** `isEscapeKey({ key })`. */
  predicate IsEscapeKey(key: string)
  {
    key == "Escape"
  }

  /** The minute a millisecond timestamp falls in (floor division). */
  function MinuteOf(t: int): int
  {
    t / MsPerMinute
  }

  /** dayjs `startOf('minute')` and `endOf('minute')` of a timestamp. */
  function StartOfMinute(t: int): int
  {
    MinuteOf(t) * MsPerMinute
  }

  function EndOfMinute(t: int): int
  {
    StartOfMinute(t) + MsPerMinute - 1
  }

  /** dayjs `now.isBefore(t, 'minute')` is `now.endOf('minute') < t`. */
  predicate IsBeforeMinute(now: int, t: int)
  {
    EndOfMinute(now) < t
  }

  /** dayjs `now.isAfter(t, 'minute')` is `t < now.startOf('minute')`. */
  predicate IsAfterMinute(now: int, t: int)
  {
    t < StartOfMinute(now)
  }

  /** `isFuturePoint`, `isPresentPoint` and `isPastPoint`, with the wall clock as `now`. */
  predicate IsFuturePoint(now: int, p: Point)
  {
    IsBeforeMinute(now, p.dateFrom)
  }

  predicate IsPresentPoint(now: int, p: Point)
  {
    IsAfterMinute(now, p.dateFrom) && IsBeforeMinute(now, p.dateTo)
  }

  predicate IsPastPoint(now: int, p: Point)
  {
    IsAfterMinute(now, p.dateTo)
  }

  /** The minute-granular comparisons compare minute numbers. */
  lemma MinuteComparisons(now: int, t: int)
    ensures IsBeforeMinute(now, t) <==> MinuteOf(now) < MinuteOf(t)
    ensures IsAfterMinute(now, t) <==> MinuteOf(t) < MinuteOf(now)
  {
    var a, b := MinuteOf(now), MinuteOf(t);
    assert t == b * MsPerMinute + t % MsPerMinute;
    if a < b {
      assert (a + 1) * MsPerMinute <= b * MsPerMinute;
    }
    if b < a {
      assert (b + 1) * MsPerMinute <= a * MsPerMinute;
    }
    if a >= b {
      assert b * MsPerMinute <= a * MsPerMinute;
    }
    if b >= a {
      assert a * MsPerMinute <= b * MsPerMinute;
    }
  }

  /** The three classes at minute granularity: future when now's minute is before the start
      minute; present when strictly between the start and end minutes; past when after the end
      minute. A point that starts in the current minute is neither future nor present. */
  lemma TimeClasses(now: int, p: Point)
    ensures IsFuturePoint(now, p) <==> MinuteOf(now) < MinuteOf(p.dateFrom)
    ensures IsPresentPoint(now, p) <==> MinuteOf(p.dateFrom) < MinuteOf(now) < MinuteOf(p.dateTo)
    ensures IsPastPoint(now, p) <==> MinuteOf(p.dateTo) < MinuteOf(now)
    ensures MinuteOf(p.dateFrom) == MinuteOf(now) ==> !IsFuturePoint(now, p) && !IsPresentPoint(now, p)
  {
    MinuteComparisons(now, p.dateFrom);
    MinuteComparisons(now, p.dateTo);
  }

  /** For a point that does not end before it starts, at most one class holds. */
  lemma TimeClassesExclusive(now: int, p: Point)
    requires p.dateFrom <= p.dateTo
    ensures !(IsFuturePoint(now, p) && IsPresentPoint(now, p))
    ensures !(IsFuturePoint(now, p) && IsPastPoint(now, p))
    ensures !(IsPresentPoint(now, p) && IsPastPoint(now, p))
  {
    TimeClasses(now, p);
    assert MinuteOf(p.dateFrom) <= MinuteOf(p.dateTo);
  }

  // ---------------------------------------------------------------------------------------
  // Replacement by id

  /** `updatePoint(points, updatedPoint)`: every element with the update's id is replaced. */
  function UpdateById(points: seq<Point>, updated: Point): (r: seq<Point>)
    ensures |r| == |points|
    ensures forall i :: 0 <= i < |r| ==> r[i] == if points[i].id == updated.id then updated else points[i]
  {
    if points == [] then []
    else [if points[0].id == updated.id then updated else points[0]] + UpdateById(points[1..], updated)
  }

  function Ids(points: seq<Point>): (r: seq<string>)
    ensures |r| == |points| && forall i :: 0 <= i < |r| ==> r[i] == points[i].id
  {
    if points == [] then [] else [points[0].id] + Ids(points[1..])
  }

  /** The ids, in order, are those of the input; replacing twice is replacing once; an update
      whose id is absent changes nothing. */
  lemma UpdateByIdProperties(points: seq<Point>, updated: Point)
    ensures Ids(UpdateById(points, updated)) == Ids(points)
    ensures UpdateById(UpdateById(points, updated), updated) == UpdateById(points, updated)
    ensures (forall i :: 0 <= i < |points| ==> points[i].id != updated.id) ==>
              UpdateById(points, updated) == points
  {
  }

  /** With unique ids, replacing by id is splicing the update in at the position of that id. */
  lemma UpdateByIdIsSplice(points: seq<Point>, updated: Point, i: nat)
    requires i < |points| && points[i].id == updated.id
    requires forall j :: 0 <= j < |points| && j != i ==> points[j].id != updated.id
    ensures UpdateById(points, updated) == points[..i] + [updated] + points[i + 1..]
  {
  }

  // ---------------------------------------------------------------------------------------
  // Orderings

  /** `sortRoutePoints(points, sortType)` sorts a copy, so the input is left as it is. */
  function SortRoutePoints(points: seq<Point>, sortType: SortType): (r: seq<Point>)
    ensures multiset(r) == multiset(points)
    ensures sortType == Day ==> StableArrangement(Start, r, points)
    ensures sortType == Time ==> StableArrangement(Duration, r, points)
    ensures sortType == Price ==> StableArrangement(PriceDesc, r, points)
    ensures sortType == Unknown ==> r == points
  {
    var copy := points;
    match sortType
    case Day => StableSortIsStable(Start, copy); StableSort(Start, copy)
    case Time => StableSortIsStable(Duration, copy); StableSort(Duration, copy)
    case Price => StableSortIsStable(PriceDesc, copy); StableSort(PriceDesc, copy)
    case Unknown => copy
  }

  /** Sorting by TIME puts longer points first; sorting by PRICE puts dearer points first. */
  lemma SortRoutePointsOrders(points: seq<Point>, i: nat, j: nat)
    requires i < j < |points|
    ensures var r := SortRoutePoints(points, Day); r[i].dateFrom <= r[j].dateFrom
    ensures var r := SortRoutePoints(points, Time); r[i].dateTo - r[i].dateFrom >= r[j].dateTo - r[j].dateFrom
    ensures var r := SortRoutePoints(points, Price); r[i].price >= r[j].price
  {
    var d, t, p := SortRoutePoints(points, Day), SortRoutePoints(points, Time), SortRoutePoints(points, Price);
    assert |d| == |points| && |t| == |points| && |p| == |points| by {
      assert |multiset(d)| == |multiset(points)|;
      assert |multiset(t)| == |multiset(points)|;
      assert |multiset(p)| == |multiset(points)|;
    }
    assert Key(Start, d[i]) <= Key(Start, d[j]);
    assert Key(Duration, t[i]) <= Key(Duration, t[j]);
    assert Key(PriceDesc, p[i]) <= Key(PriceDesc, p[j]);
  }
}
