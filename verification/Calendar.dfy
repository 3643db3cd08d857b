/**
 Local dates as the gateway writes them, read to epoch seconds: `parseLocalDateTime` on top of
 `Date.UTC` (section 21.4.3.4 of ECMA-262; the day arithmetic is section 21.4.1).
 */
module Calendar {
  import opened Wrappers
  import opened JsText

  datatype DateTime = DateTime(y: int, mo: int, d: int, h: int, mi: int, s: int)

  // ─── Days ──────────────────────────────────────────────────────────────────────────

  predicate Leap(y: int) {
    y % 4 == 0 && (y % 100 != 0 || y % 400 == 0)
  }

  function DaysInMonth(y: int, mo: int): int {
    if mo == 2 then (if Leap(y) then 29 else 28)
    else if mo in {4, 6, 9, 11} then 30
    else 31
  }

  function DaysInYear(y: int): int {
    if Leap(y) then 366 else 365
  }

  /** DayFromYear of ECMA-262: the day number of 1 January. */
  function DayFromYear(y: int): int {
    365 * (y - 1970) + (y - 1969) / 4 - (y - 1901) / 100 + (y - 1601) / 400
  }

  function DaysBefore(y: int, mo: int): int
    decreases mo
  {
    if mo <= 1 then 0 else DaysBefore(y, mo - 1) + DaysInMonth(y, mo - 1)
  }

  /** MakeDay for a month in 1..12; the day of the month is only added, so it may overflow. */
  function DayNumber(y: int, mo: int, d: int): int {
    DayFromYear(y) + DaysBefore(y, mo) + d - 1
  }

  /** MakeFullYear: two-digit years are taken as 19xx. */
  function FullYear(y: int): int {
    if 0 <= y <= 99 then 1900 + y else y
  }

  function DateUtcSeconds(t: DateTime): int {
    DayNumber(FullYear(t.y), t.mo, t.d) * 86400 + t.h * 3600 + t.mi * 60 + t.s
  }

  function EpochSeconds(t: DateTime, offsetMinutes: int): int {
    (DateUtcSeconds(t) * 1000 - offsetMinutes * 60000) / 1000
  }

  predicate RealDate(y: int, mo: int, d: int) {
    1 <= mo <= 12 && 1 <= d <= DaysInMonth(y, mo)
  }

  predicate Real(t: DateTime) {
    RealDate(t.y, t.mo, t.d) && 0 <= t.h < 24 && 0 <= t.mi < 60 && 0 <= t.s < 60
  }

  predicate DayBefore(y: int, mo: int, d: int, y': int, mo': int, d': int) {
    y < y' || (y == y' && (mo < mo' || (mo == mo' && d < d')))
  }

  predicate Earlier(a: DateTime, b: DateTime) {
    || DayBefore(a.y, a.mo, a.d, b.y, b.mo, b.d)
    || (a.y == b.y && a.mo == b.mo && a.d == b.d
        && (a.h < b.h || (a.h == b.h && (a.mi < b.mi || (a.mi == b.mi && a.s < b.s)))))
  }

  lemma Fourth(y: int)
    ensures (y - 1968) / 4 - (y - 1969) / 4 == if y % 4 == 0 then 1 else 0
  {}

  lemma Hundredth(y: int)
    ensures (y - 1900) / 100 - (y - 1901) / 100 == if y % 100 == 0 then 1 else 0
    ensures y % 100 == 0 ==> y % 4 == 0
  {}

  lemma FourHundredth(y: int)
    ensures (y - 1600) / 400 - (y - 1601) / 400 == if y % 400 == 0 then 1 else 0
    ensures y % 400 == 0 ==> y % 100 == 0
  {}

  /** The closed formula advances by exactly the Gregorian length of each year. */
  lemma YearLength(y: int)
    ensures DayFromYear(y + 1) == DayFromYear(y) + DaysInYear(y)
  {
    Fourth(y);
    Hundredth(y);
    FourHundredth(y);
  }

  lemma {:induction false} YearsMonotone(y: int, y': int)
    requires y < y'
    ensures DayFromYear(y) + DaysInYear(y) <= DayFromYear(y')
    decreases y' - y
  {
    YearLength(y);
    if y + 1 < y' {
      YearsMonotone(y + 1, y');
    }
  }

  lemma {:induction false} MonthsMonotone(y: int, mo: int, mo': int)
    requires 1 <= mo < mo'
    ensures DaysBefore(y, mo) + DaysInMonth(y, mo) <= DaysBefore(y, mo')
    decreases mo'
  {
    if mo + 1 < mo' {
      MonthsMonotone(y, mo, mo' - 1);
    }
  }

  lemma YearEnd(y: int)
    ensures DaysBefore(y, 12) + DaysInMonth(y, 12) == DaysInYear(y)
  {
    assert DaysBefore(y, 4) == DaysInMonth(y, 2) + 62;
    assert DaysBefore(y, 7) == DaysInMonth(y, 2) + 153;
    assert DaysBefore(y, 10) == DaysInMonth(y, 2) + 245;
    assert DaysBefore(y, 12) == DaysInMonth(y, 2) + 306;
  }

  lemma WithinYear(y: int, mo: int, d: int)
    requires RealDate(y, mo, d)
    ensures DayFromYear(y) <= DayNumber(y, mo, d) < DayFromYear(y) + DaysInYear(y)
  {
    YearEnd(y);
    if mo < 12 {
      MonthsMonotone(y, mo, 12);
    }
    if 1 < mo {
      MonthsMonotone(y, 1, mo);
    }
  }

  /** Real dates are numbered in calendar order. */
  lemma DaysMonotone(y: int, mo: int, d: int, y': int, mo': int, d': int)
    requires RealDate(y, mo, d) && RealDate(y', mo', d')
    requires DayBefore(y, mo, d, y', mo', d')
    ensures DayNumber(y, mo, d) < DayNumber(y', mo', d')
  {
    if y < y' {
      WithinYear(y, mo, d);
      WithinYear(y', mo', d');
      YearsMonotone(y, y');
    } else if mo < mo' {
      MonthsMonotone(y, mo, mo');
    }
  }

  function NextDay(y: int, mo: int, d: int): (int, int, int) {
    if d < DaysInMonth(y, mo) then (y, mo, d + 1)
    else if mo < 12 then (y, mo + 1, 1)
    else (y + 1, 1, 1)
  }

  lemma Epoch()
    ensures DayNumber(1970, 1, 1) == 0
  {
    assert DaysBefore(1970, 1) == 0;
  }

  /** The first day of the next month follows the last of this one. */
  lemma MonthEnds(y: int, mo: int)
    requires 1 <= mo <= 12
    ensures if mo < 12 then DayNumber(y, mo + 1, 1) == DayNumber(y, mo, DaysInMonth(y, mo)) + 1
            else DayNumber(y + 1, 1, 1) == DayNumber(y, 12, DaysInMonth(y, 12)) + 1
  {
    if mo < 12 {
      assert DaysBefore(y, mo + 1) == DaysBefore(y, mo) + DaysInMonth(y, mo);
    } else {
      YearEnd(y);
      YearLength(y);
      assert DaysBefore(y + 1, 1) == 0;
    }
  }

  /** Day numbers count days: 1 January 1970 is day 0 and each next calendar day is one more. */
  lemma CountsDays(y: int, mo: int, d: int)
    requires RealDate(y, mo, d)
    ensures DayNumber(1970, 1, 1) == 0
    ensures var (y', mo', d') := NextDay(y, mo, d);
            RealDate(y', mo', d') && DayNumber(y', mo', d') == DayNumber(y, mo, d) + 1
  {
    Epoch();
    MonthEnds(y, mo);
  }

  /** Every day number from day 0 on is the number of a real date. */
  lemma {:induction false} DateOfDay(n: nat) returns (y: int, mo: int, d: int)
    ensures RealDate(y, mo, d) && DayNumber(y, mo, d) == n
  {
    if n == 0 {
      y, mo, d := 1970, 1, 1;
    } else {
      var y0, mo0, d0 := DateOfDay(n - 1);
      CountsDays(y0, mo0, d0);
      var next := NextDay(y0, mo0, d0);
      y, mo, d := next.0, next.1, next.2;
    }
  }

  // ─── Instants ──────────────────────────────────────────────────────────────────────

  lemma EpochExact(t: DateTime, offsetMinutes: int)
    ensures EpochSeconds(t, offsetMinutes) == DateUtcSeconds(t) - 60 * offsetMinutes
  {}

  /** What `parseLocalDateTime` lets through to `Date.UTC`. */
  predicate Accepted(t: DateTime) {
    && t.y >= 0 && 1 <= t.mo <= 12 && 1 <= t.d <= 31
    && 0 <= t.h < 24 && 0 <= t.mi < 60 && 0 <= t.s < 60
  }

  /**
   The real date an accepted one is read as: the full year, and days past the end of the month
   carried into the next.
   */
  function Rolled(t: DateTime): DateTime {
    var y := FullYear(t.y);
    if t.d <= DaysInMonth(y, t.mo) then t.(y := y)
    else t.(y := y, mo := t.mo + 1, d := t.d - DaysInMonth(y, t.mo))
  }

  /** A day past the end of its month is read as that many days into the next one. */
  lemma OverflowRollsForward(t: DateTime, offsetMinutes: int)
    requires Accepted(t)
    ensures Real(Rolled(t)) && FullYear(Rolled(t).y) == Rolled(t).y
    ensures EpochSeconds(t, offsetMinutes) == EpochSeconds(Rolled(t), offsetMinutes)
  {
    var y := FullYear(t.y);
    if t.d > DaysInMonth(y, t.mo) {
      assert DaysBefore(y, t.mo + 1) == DaysBefore(y, t.mo) + DaysInMonth(y, t.mo);
    }
  }

  lemma RealOrder(a: DateTime, b: DateTime, offsetMinutes: int)
    requires Real(a) && Real(b) && FullYear(a.y) == a.y && FullYear(b.y) == b.y
    ensures Earlier(a, b) <==> EpochSeconds(a, offsetMinutes) < EpochSeconds(b, offsetMinutes)
    ensures a == b <==> EpochSeconds(a, offsetMinutes) == EpochSeconds(b, offsetMinutes)
  {
    EpochExact(a, offsetMinutes);
    EpochExact(b, offsetMinutes);
    if DayBefore(a.y, a.mo, a.d, b.y, b.mo, b.d) {
      DaysMonotone(a.y, a.mo, a.d, b.y, b.mo, b.d);
    } else if DayBefore(b.y, b.mo, b.d, a.y, a.mo, a.d) {
      DaysMonotone(b.y, b.mo, b.d, a.y, a.mo, a.d);
    }
  }

  /**
   The order of instants, exactly, for every pair of dates the reader accepts: it is the calendar
   order of what they are read as, two-digit years and overflowing days included.
   */
  lemma OrderEmbedding(a: DateTime, b: DateTime, offsetMinutes: int)
    requires Accepted(a) && Accepted(b)
    ensures EpochSeconds(a, offsetMinutes) < EpochSeconds(b, offsetMinutes) <==> Earlier(Rolled(a), Rolled(b))
    ensures EpochSeconds(a, offsetMinutes) == EpochSeconds(b, offsetMinutes) <==> Rolled(a) == Rolled(b)
  {
    OverflowRollsForward(a, offsetMinutes);
    OverflowRollsForward(b, offsetMinutes);
    RealOrder(Rolled(a), Rolled(b), offsetMinutes);
  }

  /** The same without a zone. */
  lemma UtcOrder(a: DateTime, b: DateTime)
    requires Accepted(a) && Accepted(b)
    ensures DateUtcSeconds(a) < DateUtcSeconds(b) <==> Earlier(Rolled(a), Rolled(b))
  {
    OrderEmbedding(a, b, 0);
    EpochExact(a, 0);
    EpochExact(b, 0);
  }

  lemma UtcBetween(t: DateTime, first: DateTime, last: DateTime, low: int, high: int)
    requires Accepted(t) && Accepted(first) && Accepted(last) && Rolled(first) == first && Rolled(last) == last
    requires DateUtcSeconds(first) == low && DateUtcSeconds(last) == high
    ensures low <= DateUtcSeconds(t) <==> !Earlier(Rolled(t), first)
    ensures DateUtcSeconds(t) <= high <==> !Earlier(last, Rolled(t))
  {
    UtcOrder(t, first);
    UtcOrder(last, t);
  }

  predicate ClockBefore(a: DateTime, b: DateTime) {
    a.h < b.h || (a.h == b.h && (a.mi < b.mi || (a.mi == b.mi && a.s < b.s)))
  }

  /** Year 0 is a leap year and 1900, which it is read as, is not: 29 February 0 falls on 1 March 0. */
  predicate LeapDayLost(a: DateTime, b: DateTime) {
    a.y == 0 && b.y == 0 && a.mo == 2 && a.d == 29 && b.mo == 3 && b.d == 1 && !ClockBefore(a, b)
  }

  /**
   Which real dates keep their order: two of years 100 on; two of years 0 to 99, the lost leap day
   apart; and one of each exactly when the later one is still later than the 19xx the other is read as.
   */
  lemma OrderSurvives(a: DateTime, b: DateTime, offsetMinutes: int)
    requires Real(a) && Real(b) && 0 <= a.y && Earlier(a, b)
    ensures EpochSeconds(a, offsetMinutes) < EpochSeconds(b, offsetMinutes) <==>
              if a.y >= 100 then true
              else if b.y <= 99 then !LeapDayLost(a, b)
              else Earlier(Rolled(a), b)
  {
    OrderEmbedding(a, b, offsetMinutes);
    LeapYears(a.y);
    LeapYears(b.y);
  }

  /** Adding 1900 changes the length of February in year 0 only. */
  lemma LeapYears(y: int)
    ensures 0 < y <= 99 ==> (Leap(y) <==> Leap(1900 + y))
    ensures Leap(0) && !Leap(1900)
  {}

  /**
   Both failures, on concrete dates: year 99 reads later than year 100, and the leap day of year 0
   as the day after it.
   */
  lemma TwoDigitYears()
    ensures var a, b := DateTime(99, 1, 1, 0, 0, 0), DateTime(100, 1, 1, 0, 0, 0);
            Real(a) && Real(b) && Earlier(a, b) && EpochSeconds(a, 0) > EpochSeconds(b, 0)
    ensures var a, b := DateTime(0, 2, 29, 0, 0, 0), DateTime(0, 3, 1, 0, 0, 0);
            Real(a) && Real(b) && Earlier(a, b) && EpochSeconds(a, 0) == EpochSeconds(b, 0)
  {
    var a, b := DateTime(99, 1, 1, 0, 0, 0), DateTime(100, 1, 1, 0, 0, 0);
    OrderEmbedding(a, b, 0);
    OrderEmbedding(DateTime(0, 2, 29, 0, 0, 0), DateTime(0, 3, 1, 0, 0, 0), 0);
  }

  // ─── Reading ───────────────────────────────────────────────────────────────────────

  /** Hours, minutes and optional seconds, from the separator on; anything may follow. */
  function ReadTime(text: string): Option<(int, int, int)> {
    var r0 :- OneOf(text, {' ', 'T'});
    var (h, r1) :- Number(r0, 1, 2);
    var r2 :- OneOf(r1, {':'});
    var (mi, r3) :- Number(r2, 2, 2);
    var s := match OneOf(r3, {':'})
      case None => 0
      case Some(r4) => match Number(r4, 2, 2) case None => 0 case Some((s, _)) => s;
    Some((h, mi, s))
  }

  function ReadYearFirst(text: string): Option<DateTime> {
    var (y, r0) :- Number(text, 4, 4);
    var r1 :- OneOf(r0, {'-', '/'});
    var (mo, r2) :- Number(r1, 1, 2);
    var r3 :- OneOf(r2, {'-', '/'});
    var (d, r4) :- Number(r3, 1, 2);
    var (h, mi, s) :- ReadTime(r4);
    Some(DateTime(y, mo, d, h, mi, s))
  }

  function ReadDayFirst(text: string): Option<DateTime> {
    var (d, r0) :- Number(text, 1, 2);
    var r1 :- OneOf(r0, {'-', '/'});
    var (mo, r2) :- Number(r1, 1, 2);
    var r3 :- OneOf(r2, {'-', '/'});
    var (y, r4) :- Number(r3, 4, 4);
    var (h, mi, s) :- ReadTime(r4);
    Some(DateTime(y, mo, d, h, mi, s))
  }

  /** The first of the two shapes that matches, whatever the ranges. */
  function ReadDate(value: string): Option<DateTime> {
    var v := Trim(value);
    if ReadYearFirst(v).Some? then ReadYearFirst(v) else ReadDayFirst(v)
  }

  function ParseLocalDateTime(value: string, offsetMinutes: int): Option<int> {
    var t :- ReadDate(value);
    if t.mo < 1 || t.mo > 12 || t.d < 1 || t.d > 31 || t.h > 23 || t.mi > 59 || t.s > 59 then None
    else Some(EpochSeconds(t, offsetMinutes))
  }

  /** Shifting the zone by k minutes shifts every reading by exactly -60k seconds, and refuses the same texts. */
  lemma OffsetShift(value: string, offsetMinutes: int, k: int)
    ensures ParseLocalDateTime(value, offsetMinutes + k)
            == match ParseLocalDateTime(value, offsetMinutes)
               case None => None
               case Some(t) => Some(t - 60 * k)
  {
    if ReadDate(value).Some? {
      EpochExact(ReadDate(value).value, offsetMinutes);
      EpochExact(ReadDate(value).value, offsetMinutes + k);
    }
  }

  // ─── Writing ───────────────────────────────────────────────────────────────────────

  predicate Printable(t: DateTime) {
    && 0 <= t.y <= 9999 && 1 <= t.mo <= 12 && 1 <= t.d <= 31
    && 0 <= t.h < 24 && 0 <= t.mi < 60 && 0 <= t.s < 60
  }

  /**
   How a date may be written: year or day first, dash or slash, space or T, padded or not, with
   seconds or without.
   */
  datatype DateStyle = DateStyle(dayFirst: bool, first: char, second: char, gap: char,
                                 padMonth: bool, padDay: bool, padHour: bool, seconds: bool)

  predicate StyleFits(t: DateTime, style: DateStyle) {
    && Printable(t) && style.first in {'-', '/'} && style.second in {'-', '/'} && style.gap in {' ', 'T'}
    && (style.seconds || t.s == 0)
  }

  function Short(n: int, pad: bool): string
    requires 0 <= n <= 99
  {
    if pad || n > 9 then Pad2(n) else [Digit(n)]
  }

  function SpellMinutes(t: DateTime, style: DateStyle): string
    requires StyleFits(t, style)
  {
    Pad2(t.mi) + if style.seconds then [':'] + Pad2(t.s) else ""
  }

  function SpellTime(t: DateTime, style: DateStyle): string
    requires StyleFits(t, style)
  {
    [style.gap] + (Short(t.h, style.padHour) + ([':'] + SpellMinutes(t, style)))
  }

  function Spell(t: DateTime, style: DateStyle): string
    requires StyleFits(t, style)
  {
    var month, day, time := Short(t.mo, style.padMonth), Short(t.d, style.padDay), SpellTime(t, style);
    if style.dayFirst then day + ([style.first] + (month + ([style.second] + (Pad4(t.y) + time))))
    else Pad4(t.y) + ([style.first] + (month + ([style.second] + (day + time))))
  }

  /** One or two digits are read as the number they are, and never as a year. */
  lemma ReadsShort(n: int, pad: bool, rest: string)
    requires 0 <= n <= 99 && (rest != "" ==> !IsDigit(rest[0]))
    ensures Number(Short(n, pad) + rest, 1, 2) == Some((n, rest)) && Number(Short(n, pad) + rest, 4, 4) == None
  {
    if pad || n > 9 {
      ReadsNumber2(n, rest, 1);
      ReadsNumber2(n, rest, 4);
    } else {
      var text := [Digit(n)] + rest;
      PadReads(n);
      assert text[1..] == rest && text[..1] == [Digit(n)];
      assert DigitRun(rest, 1) == 0 && DigitRun(rest, 3) == 0;
      assert DigitRun(text, 2) == 1 && DigitRun(text, 4) == 1;
    }
  }

  lemma ReadsMinutes(t: DateTime, style: DateStyle) returns (rest: string)
    requires StyleFits(t, style)
    ensures rest == if style.seconds then [':'] + Pad2(t.s) else ""
    ensures Number(SpellMinutes(t, style), 2, 2) == Some((t.mi, rest))
    ensures style.seconds ==> OneOf(rest, {':'}) == Some(Pad2(t.s)) && Number(Pad2(t.s), 2, 2) == Some((t.s, ""))
    ensures !style.seconds ==> OneOf(rest, {':'}) == None
  {
    rest := if style.seconds then [':'] + Pad2(t.s) else "";
    ReadsNumber2(t.mi, rest, 2);
    ReadsNumber2(t.s, "", 2);
    assert Pad2(t.s) + "" == Pad2(t.s);
    ReadsChar(':', Pad2(t.s));
  }

  lemma ReadsTime(t: DateTime, style: DateStyle)
    requires StyleFits(t, style)
    ensures ReadTime(SpellTime(t, style)) == Some((t.h, t.mi, t.s))
  {
    var minutes := SpellMinutes(t, style);
    var rest := ReadsMinutes(t, style);
    ReadsChar(':', minutes);
    ReadsShort(t.h, style.padHour, [':'] + minutes);
    ReadsChar(style.gap, Short(t.h, style.padHour) + ([':'] + minutes));
  }

  lemma ReadsYearFirst(t: DateTime, style: DateStyle)
    requires StyleFits(t, style) && !style.dayFirst
    ensures ReadYearFirst(Spell(t, style)) == Some(t)
  {
    var time := SpellTime(t, style);
    var day := Short(t.d, style.padDay) + time;
    var month := Short(t.mo, style.padMonth) + ([style.second] + day);
    ReadsTime(t, style);
    ReadsShort(t.d, style.padDay, time);
    ReadsChar(style.second, day);
    ReadsShort(t.mo, style.padMonth, [style.second] + day);
    ReadsChar(style.first, month);
    ReadsNumber4(t.y, [style.first] + month);
  }

  lemma ReadsDayFirst(t: DateTime, style: DateStyle)
    requires StyleFits(t, style) && style.dayFirst
    ensures ReadYearFirst(Spell(t, style)) == None && ReadDayFirst(Spell(t, style)) == Some(t)
  {
    var time := SpellTime(t, style);
    var year := Pad4(t.y) + time;
    var month := Short(t.mo, style.padMonth) + ([style.second] + year);
    ReadsTime(t, style);
    ReadsNumber4(t.y, time);
    ReadsChar(style.second, year);
    ReadsShort(t.mo, style.padMonth, [style.second] + year);
    ReadsChar(style.first, month);
    ReadsShort(t.d, style.padDay, [style.first] + month);
  }

  lemma SpellEnds(t: DateTime, style: DateStyle)
    requires StyleFits(t, style)
    ensures Spell(t, style) != "" && IsDigit(Spell(t, style)[0]) && IsDigit(Spell(t, style)[|Spell(t, style)| - 1])
  {
    var minutes, time := SpellMinutes(t, style), SpellTime(t, style);
    assert IsDigit(minutes[|minutes| - 1]);
    assert time[|time| - 1] == minutes[|minutes| - 1];
    var text := Spell(t, style);
    assert text[|text| - 1] == time[|time| - 1];
    assert text[0] == if style.dayFirst then Short(t.d, style.padDay)[0] else Pad4(t.y)[0];
  }

  /** Every spelling of a date is read as that date. */
  lemma SpellingRead(t: DateTime, style: DateStyle)
    requires StyleFits(t, style)
    ensures ReadDate(Spell(t, style)) == Some(t)
  {
    SpellEnds(t, style);
    TrimNothing(Spell(t, style));
    if style.dayFirst {
      ReadsDayFirst(t, style);
    } else {
      ReadsYearFirst(t, style);
    }
  }

  /** All spellings of one date are read as the same instant, which is its own. */
  lemma SpellingsAgree(t: DateTime, style: DateStyle, offsetMinutes: int)
    requires StyleFits(t, style)
    ensures ParseLocalDateTime(Spell(t, style), offsetMinutes) == Some(DateUtcSeconds(t) - 60 * offsetMinutes)
  {
    SpellingRead(t, style);
    InstantOf(Spell(t, style), t, offsetMinutes);
  }

  /** A text read as a date is read as that date's instant. */
  lemma InstantOf(text: string, t: DateTime, offsetMinutes: int)
    requires ReadDate(text) == Some(t) && Accepted(t)
    ensures ParseLocalDateTime(text, offsetMinutes) == Some(DateUtcSeconds(t) - 60 * offsetMinutes)
  {
    EpochExact(t, offsetMinutes);
  }

  lemma {:induction false} ValueNotNegative(digits: string)
    requires forall i :: 0 <= i < |digits| ==> IsDigit(digits[i])
    ensures Value(digits) >= 0
  {
    if digits != "" {
      ValueNotNegative(digits[..|digits| - 1]);
    }
  }

  lemma {:induction false} RunIsDigits(text: string, most: nat)
    ensures DigitRun(text, most) <= |text| && forall i :: 0 <= i < DigitRun(text, most) ==> IsDigit(text[i])
  {
    if !(most == 0 || text == "" || !IsDigit(text[0])) {
      RunIsDigits(text[1..], most - 1);
      assert forall i :: 1 <= i < DigitRun(text, most) ==> text[i] == text[1..][i - 1];
    }
  }

  lemma NumberNotNegative(text: string, least: nat, most: nat)
    ensures Number(text, least, most).Some? ==> Number(text, least, most).value.0 >= 0
  {
    RunIsDigits(text, most);
    ValueNotNegative(text[..DigitRun(text, most)]);
  }

  lemma TimeNotNegative(text: string)
    ensures ReadTime(text).Some? ==> var (h, mi, s) := ReadTime(text).value; h >= 0 && mi >= 0 && s >= 0
  {
    forall rest: string, least: nat ensures Number(rest, least, 2).Some? ==> Number(rest, least, 2).value.0 >= 0 {
      NumberNotNegative(rest, least, 2);
    }
  }

  lemma DateNotNegative(value: string)
    ensures ReadDate(value).Some? ==> var t := ReadDate(value).value; t.y >= 0 && t.h >= 0 && t.mi >= 0 && t.s >= 0
  {
    forall rest: string ensures ReadTime(rest).Some? ==>
                                  var (h, mi, s) := ReadTime(rest).value; h >= 0 && mi >= 0 && s >= 0 {
      TimeNotNegative(rest);
    }
    forall rest: string ensures Number(rest, 4, 4).Some? ==> Number(rest, 4, 4).value.0 >= 0 {
      NumberNotNegative(rest, 4, 4);
    }
  }

  /**
   A text is refused exactly if it has neither shape, or names a month, day, hour, minute or second
   there is none of.
   */
  lemma RefusedExactly(value: string, offsetMinutes: int)
    ensures ParseLocalDateTime(value, offsetMinutes).Some? <==> ReadDate(value).Some? && Accepted(ReadDate(value).value)
  {
    DateNotNegative(value);
  }

  // ─── The gateway's own zone ────────────────────────────────────────────────────────

  /** Whether the text starts with UTC, in either case. */
  predicate StartsUtc(text: string) {
    |text| >= 3 && text[0] in {'U', 'u'} && text[1] in {'T', 't'} && text[2] in {'C', 'c'}
  }

  predicate Digits(text: string, from: nat, to: nat) {
    from <= to <= |text| && forall i :: from <= i < to ==> IsDigit(text[i])
  }

  /** One or two digits of hours; two of minutes may follow, after a colon or at once. */
  function HoursMinutes(text: string): Option<(int, int)> {
    var n := |text|;
    if (n == 1 || n == 2) && Digits(text, 0, n) then Some((Value(text), 0))
    else if (n == 3 || n == 4) && Digits(text, 0, n) then Some((Value(text[..n - 2]), Value(text[n - 2..])))
    else if (n == 4 || n == 5) && text[n - 3] == ':' && Digits(text, 0, n - 3) && Digits(text, n - 2, n)
    then Some((Value(text[..n - 3]), Value(text[n - 2..])))
    else None
  }

  /** And nothing else is read: one or two digits of hours, and two of minutes or none. */
  lemma HoursMinutesOnly(text: string) returns (hours: string, minutes: string)
    requires HoursMinutes(text).Some?
    ensures 1 <= |hours| <= 2 && |minutes| in {0, 2}
    ensures (forall c <- hours :: IsDigit(c)) && forall c <- minutes :: IsDigit(c)
    ensures text == hours + minutes || text == hours + [':'] + minutes
    ensures HoursMinutes(text) == Some((Value(hours), Value(minutes)))
  {
    var n := |text|;
    if n <= 2 {
      hours, minutes := text, "";
    } else if text[n - 3] == ':' && n >= 4 {
      hours, minutes := text[..n - 3], text[n - 2..];
    } else {
      hours, minutes := text[..n - 2], text[n - 2..];
    }
  }

  function ReadSigned(text: string): Option<int> {
    if text == "" || text[0] !in {'+', '-'} then None
    else
      var (h, mi) :- HoursMinutes(TrimEnd(text[1..]));
      Some(if text[0] == '-' then -(h * 60 + mi) else h * 60 + mi)
  }

  /** Minutes east of UTC. */
  function ParseUtcOffset(text: string): Option<int> {
    var start := TrimStart(text);
    ReadSigned(TrimStart(if StartsUtc(start) then start[3..] else start))
  }

  function UpTo(text: string, c: char): (prefix: string)
    ensures |prefix| <= |text|
  {
    if text == "" || text[0] == c then "" else [text[0]] + UpTo(text[1..], c)
  }

  /** What stands in the first parentheses that open with UTC. */
  function OffsetFromHeader(header: string): Option<int> {
    if header == "" then None
    else if header[0] == '(' && StartsUtc(header[1..]) && ')' in header[1..] then ParseUtcOffset(UpTo(header[1..], ')'))
    else OffsetFromHeader(header[1..])
  }

  lemma {:induction false} NoZoneNamed(header: string)
    requires '(' !in header
    ensures OffsetFromHeader(header) == None
  {
    if header != "" {
      assert header[0] in header && forall c <- header[1..] :: c in header;
      NoZoneNamed(header[1..]);
    }
  }

  /**
   How a zone may be written: with a colon or not, hours padded or not, whole hours alone or not,
   UTC in small letters or not.
   */
  datatype ZoneStyle = ZoneStyle(colon: bool, pad: bool, bare: bool, lower: bool)

  /** A zone as it is written: two digits of hours and two of minutes, west or east. */
  datatype Zone = Zone(west: bool, hours: int, minutes: int)

  predicate ZoneFits(z: Zone) {
    0 <= z.hours <= 99 && 0 <= z.minutes <= 99
  }

  function MinutesEast(z: Zone): int {
    if z.west then -(z.hours * 60 + z.minutes) else z.hours * 60 + z.minutes
  }

  function Utc(style: ZoneStyle): string {
    if style.lower then "utc" else "UTC"
  }

  function ZoneBody(h: int, mi: int, style: ZoneStyle): string
    requires 0 <= h <= 99 && 0 <= mi <= 99
  {
    if style.bare && mi == 0 then Short(h, style.pad)
    else if style.colon then Short(h, style.pad) + ([':'] + Pad2(mi))
    else Short(h, style.pad) + Pad2(mi)
  }

  function PrintZone(z: Zone, style: ZoneStyle): string
    requires ZoneFits(z)
  {
    [if z.west then '-' else '+'] + ZoneBody(z.hours, z.minutes, style)
  }

  lemma PadReads(n: int)
    requires 0 <= n <= 99
    ensures Value(Pad2(n)) == n && (n <= 9 ==> Value([Digit(n)]) == n)
    ensures Digits(Pad2(n), 0, 2) && (n <= 9 ==> IsDigit(Digit(n)))
  {
    ValueConcat2("", Digit(n / 10), Digit(n % 10));
    assert "" + [Digit(n / 10), Digit(n % 10)] == Pad2(n);
    if n <= 9 {
      assert [Digit(n)][..0] == "";
    }
  }

  lemma HoursRead(h: int, pad: bool)
    requires 0 <= h <= 99
    ensures var hours := Short(h, pad);
            1 <= |hours| <= 2 && Value(hours) == h && Digits(hours, 0, |hours|) && HoursMinutes(hours) == Some((h, 0))
  {
    PadReads(h);
  }

  lemma AppendedDigits(a: string, b: string)
    requires Digits(a, 0, |a|) && Digits(b, 0, |b|)
    ensures Digits(a + b, 0, |a| + |b|) && (a + b)[..|a|] == a && (a + b)[|a|..] == b
  {
    assert forall i :: 0 <= i < |a| ==> (a + b)[i] == a[i];
    assert forall i :: |a| <= i < |a| + |b| ==> (a + b)[i] == b[i - |a|];
  }

  lemma AfterColon(a: string, b: string)
    requires Digits(a, 0, |a|) && Digits(b, 0, |b|)
    ensures var text := a + ([':'] + b);
            && text[|a|] == ':' && Digits(text, 0, |a|) && Digits(text, |a| + 1, |text|)
            && text[..|a|] == a && text[|a| + 1..] == b
  {
    var text := a + ([':'] + b);
    assert forall i :: 0 <= i < |a| ==> text[i] == a[i];
    assert forall i :: |a| < i < |text| ==> text[i] == b[i - |a| - 1];
  }

  lemma MinutesRead(hours: string, minutes: string)
    requires 1 <= |hours| <= 2 && |minutes| == 2 && Digits(hours, 0, |hours|) && Digits(minutes, 0, 2)
    ensures HoursMinutes(hours + minutes) == Some((Value(hours), Value(minutes)))
    ensures HoursMinutes(hours + ([':'] + minutes)) == Some((Value(hours), Value(minutes)))
  {
    AppendedDigits(hours, minutes);
    AfterColon(hours, minutes);
    assert !IsDigit(':');
  }

  lemma ZoneBodyReads(h: int, mi: int, style: ZoneStyle)
    requires 0 <= h <= 99 && 0 <= mi <= 99
    ensures var body := ZoneBody(h, mi, style);
            body != "" && HoursMinutes(body) == Some((h, mi)) && IsDigit(body[|body| - 1]) && ')' !in body
  {
    var hours, minutes := Short(h, style.pad), Pad2(mi);
    HoursRead(h, style.pad);
    PadReads(mi);
    if style.bare && mi == 0 {
      DigitsEnd(hours);
    } else {
      MinutesRead(hours, minutes);
      DigitsEnd(minutes);
      MinutesEnd(hours, minutes);
    }
  }

  lemma DigitsEnd(text: string)
    requires text != "" && Digits(text, 0, |text|)
    ensures IsDigit(text[|text| - 1]) && ')' !in text
  {}

  lemma MinutesEnd(hours: string, minutes: string)
    requires minutes != "" && ')' !in hours && ')' !in minutes
    ensures (hours + minutes)[|hours| + |minutes| - 1] == minutes[|minutes| - 1] && ')' !in hours + minutes
    ensures var text := hours + ([':'] + minutes); text[|text| - 1] == minutes[|minutes| - 1] && ')' !in text
  {}

  lemma DigitNotSpace(c: char)
    requires IsDigit(c) || c in {'+', '-'}
    ensures !IsSpace(c)
  {}

  lemma SignThen(sign: char, body: string)
    requires sign in {'+', '-'} && ')' !in body
    ensures ')' !in [sign] + body && !IsSpace(([sign] + body)[0]) && ([sign] + body)[1..] == body
  {
    DigitNotSpace(sign);
  }

  lemma SignedReads(text: string, body: string, h: int, mi: int)
    requires text != "" && text[0] in {'+', '-'} && text[1..] == body
    requires body != "" && IsDigit(body[|body| - 1]) && HoursMinutes(body) == Some((h, mi))
    ensures ReadSigned(text) == Some(if text[0] == '-' then -(h * 60 + mi) else h * 60 + mi)
  {
    DigitNotSpace(body[|body| - 1]);
    TrimEndNothing(body);
  }

  lemma UtcReads(text: string, signed: string)
    requires StartsUtc(text) && text[3..] == signed && (signed != "" ==> !IsSpace(signed[0]))
    ensures ParseUtcOffset(text) == ReadSigned(signed)
  {
    TrimStartNothing(text);
    TrimStartNothing(signed);
  }

  lemma ZoneSigned(z: Zone, style: ZoneStyle) returns (zone: string)
    requires ZoneFits(z)
    ensures zone == PrintZone(z, style) && zone != ""
    ensures ReadSigned(zone) == Some(MinutesEast(z)) && ')' !in zone && !IsSpace(zone[0])
  {
    var sign, body := if z.west then '-' else '+', ZoneBody(z.hours, z.minutes, style);
    ZoneBodyReads(z.hours, z.minutes, style);
    SignedBody(sign, body, z.hours, z.minutes);
    zone := [sign] + body;
  }

  lemma SignedBody(sign: char, body: string, h: int, mi: int)
    requires sign in {'+', '-'} && body != "" && IsDigit(body[|body| - 1]) && ')' !in body
             && HoursMinutes(body) == Some((h, mi))
    ensures ReadSigned([sign] + body) == Some(if sign == '-' then -(h * 60 + mi) else h * 60 + mi)
    ensures ')' !in [sign] + body && !IsSpace(([sign] + body)[0])
  {
    SignThen(sign, body);
    SignedReads([sign] + body, body, h, mi);
  }

  lemma ZoneReads(z: Zone, style: ZoneStyle)
    requires ZoneFits(z)
    ensures ParseUtcOffset(Utc(style) + PrintZone(z, style)) == Some(MinutesEast(z))
    ensures ')' !in PrintZone(z, style)
  {
    var zone := ZoneSigned(z, style);
    AfterUtc(zone, style);
    UtcReads(Utc(style) + zone, zone);
  }

  lemma AfterUtc(text: string, style: ZoneStyle)
    ensures StartsUtc(Utc(style) + text) && (Utc(style) + text)[3..] == text
  {
  }

  lemma {:induction false} UpToFinds(a: string, c: char, b: string)
    requires c !in a
    ensures UpTo(a + ([c] + b), c) == a
  {
    var text := a + ([c] + b);
    if a != "" {
      assert text[1..] == a[1..] + ([c] + b);
      UpToFinds(a[1..], c, b);
      assert [a[0]] + a[1..] == a;
    }
  }

  lemma {:induction false} HeaderReads(before: string, named: string, after: string)
    requires '(' !in before && StartsUtc(named) && ')' !in named
    ensures OffsetFromHeader(before + (['('] + (named + ([')'] + after)))) == ParseUtcOffset(named)
  {
    var inside := named + ([')'] + after);
    var text := before + (['('] + inside);
    if before == "" {
      assert text[1..] == inside;
      assert inside[0] == named[0] && inside[1] == named[1] && inside[2] == named[2] && inside[|named|] == ')';
      UpToFinds(named, ')', after);
    } else {
      assert text[0] == before[0] && text[1..] == before[1..] + (['('] + inside);
      HeaderReads(before[1..], named, after);
    }
  }

  /** A column header that names its zone in parentheses. */
  function ZoneHeader(before: string, z: Zone, style: ZoneStyle, after: string): string
    requires ZoneFits(z)
  {
    before + (['('] + (Utc(style) + PrintZone(z, style) + ([')'] + after)))
  }

  /** A header that names a zone, in any of its spellings, is read as that many minutes east. */
  lemma HeaderNamesZone(before: string, z: Zone, style: ZoneStyle, after: string)
    requires ZoneFits(z) && '(' !in before
    ensures OffsetFromHeader(ZoneHeader(before, z, style, after)) == Some(MinutesEast(z))
  {
    ZoneReads(z, style);
    AfterUtc(PrintZone(z, style), style);
    HeaderReads(before, Utc(style) + PrintZone(z, style), after);
  }

  /** Together: a local date under a header that names its zone is read as the UTC instant it denotes. */
  lemma InstantOfColumn(t: DateTime, dateStyle: DateStyle, before: string, z: Zone, style: ZoneStyle, after: string)
    requires StyleFits(t, dateStyle) && ZoneFits(z) && '(' !in before
    ensures OffsetFromHeader(ZoneHeader(before, z, style, after)) == Some(MinutesEast(z))
    ensures ParseLocalDateTime(Spell(t, dateStyle), MinutesEast(z)) == Some(DateUtcSeconds(t) - 60 * MinutesEast(z))
  {
    HeaderNamesZone(before, z, style, after);
    SpellingsAgree(t, dateStyle, MinutesEast(z));
  }
}
