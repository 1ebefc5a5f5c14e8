/**
  Calendar arithmetic (kernel/sys/time.c): day numbers and civil dates, seconds and broken
  down times, with the C integer widths written out.
 */
module Calendar {
  import opened Prelude

  datatype Date = Date(year: int, month: int, day: int)

  /** The value that a signed 32-bit variable keeps of `x`. */
  function Int32(x: int): (r: int)
    ensures -0x8000_0000 <= r < 0x8000_0000
  {
    (x + 0x8000_0000) % U32 - 0x8000_0000
  }

  /** Division of C, which rounds towards zero. */
  function Quotient(a: int, b: int): int
    requires b > 0
  {
    if a >= 0 then a / b else -(-a / b)
  }

  const EPOCH: int := 719468
  const ERA_DAYS: int := 146097

  // ----- the functions of time.c -----

  function DaysFromCivil(year: int, month: int, day: int): int {
    var y := if month <= 2 then year - 1 else year;
    var era := Quotient(if y >= 0 then y else y - 399, 400);
    var yoe := y - era * 400;
    var doy := Quotient(153 * (if month > 2 then month - 3 else month + 9) + 2, 5) + day - 1;
    var doe := yoe * 365 + Quotient(yoe, 4) - Quotient(yoe, 100) + doy;
    Int32(era * 146097 + doe - 719468)
  }

  function CivilFromDays(days: int): Date {
    var time := (days + 719468) % U64;
    var era := Int32(time / 146097);
    CivilFromEra(era, (time - Int32(era * 146097)) % U32)
  }

  /** The rest of the conversion, on a day of an era. */
  function CivilFromEra(era: int, doe: int): Date {
    CivilFromYear(era, YearOf(doe), (doe - YearStart(YearOf(doe))) % U32)
  }

  function CivilFromYear(era: int, yoe: int, doy: int): Date {
    var y := Int32(yoe + era * 400);
    var mp := (5 * doy + 2) % U32 / 153;
    var d := (doy - MonthStart(mp) + 1) % U32;
    var m := (mp + (if mp < 10 then 3 else -9)) % U32;
    Date(Int32(y + (if m <= 2 then 1 else 0)), Int32(m), Int32(d))
  }

  /** Days from 0000-03-01 on whose year fits an int. */
  predicate InRange(days: int) { 0 <= days + EPOCH < 5368709 * ERA_DAYS }

  // ----- the Gregorian calendar -----

  predicate Leap(y: int) { y % 4 == 0 && (y % 100 != 0 || y % 400 == 0) }

  function DaysInMonth(y: int, m: int): int {
    if m == 2 then if Leap(y) then 29 else 28
    else if m == 4 || m == 6 || m == 9 || m == 11 then 30 else 31
  }

  predicate IsDate(t: Date) { 1 <= t.month <= 12 && 1 <= t.day <= DaysInMonth(t.year, t.month) }

  function NextDay(t: Date): Date {
    if t.day < DaysInMonth(t.year, t.month) then t.(day := t.day + 1)
    else if t.month < 12 then Date(t.year, t.month + 1, 1)
    else Date(t.year + 1, 1, 1)
  }

  // ----- years that begin in March -----

  /** Days of an era before its year `y`. */
  function YearStart(y: int): int { 365 * y + y / 4 - y / 100 }

  function YearOf(doe: int): int { (doe - doe / 1460 + doe / 36524 - doe / 146096) / 365 }

  /** Days of a March year before its month `mp`. */
  function MonthStart(mp: int): int { (153 * mp + 2) / 5 }

  /** A March year runs into the next civil year, whose leap day is its last day. */
  function Length(yoe: int): int { if Leap(yoe + 1) then 366 else 365 }

  /** A day as an era of 400 March years, a year of the era and a day of the year. */
  datatype Place = Place(era: int, yoe: int, doy: int)

  predicate IsPlace(p: Place) { 0 <= p.era && 0 <= p.yoe < 400 && 0 <= p.doy < Length(p.yoe) }

  /** The day number of a place, counted from 0000-03-01. */
  function Ordinal(p: Place): int { p.era * ERA_DAYS + YearStart(p.yoe) + p.doy }

  function MonthOf(doy: int): int { (5 * doy + 2) / 153 }

  function DateOf(p: Place): Date {
    var mp := MonthOf(p.doy);
    var m := if mp < 10 then mp + 3 else mp - 9;
    Date(p.era * 400 + p.yoe + (if m <= 2 then 1 else 0), m, p.doy - MonthStart(mp) + 1)
  }

  function PlaceOf(t: int): Place {
    var doe := t % ERA_DAYS;
    Place(t / ERA_DAYS, YearOf(doe), doe - YearStart(YearOf(doe)))
  }

  /** A day of an era in centuries, leap cycles of four years, years and days. */
  lemma Digits(doe: int) returns (c: int, k: int, j: int, r: int)
    requires 0 <= doe < ERA_DAYS
    ensures doe == 36524 * c + 1461 * k + 365 * j + r
    ensures 0 <= c < 4 && 0 <= k < 25 && 0 <= j < 4 && 0 <= r <= 365 && (r == 365 ==> j == 3 && (k < 24 || c == 3))
  {
    c := if doe < 36524 then 0 else if doe < 73048 then 1 else if doe < 109572 then 2 else 3;
    var x := doe - 36524 * c;
    k := if x / 1461 < 25 then x / 1461 else 24;
    var w := x - 1461 * k;
    j := if w < 365 then 0 else if w < 730 then 1 else if w < 1095 then 2 else 3;
    r := w - 365 * j;
  }

  lemma YearStartDigits(c: int, k: int, j: int)
    requires 0 <= c < 4 && 0 <= k < 25 && 0 <= j < 4
    ensures YearStart(100 * c + 4 * k + j) == 36524 * c + 1461 * k + 365 * j
  {
    assert (100 * c + 4 * k + j) / 4 == 25 * c + k && (100 * c + 4 * k + j) / 100 == c;
  }

  lemma LengthDigits(c: int, k: int, j: int)
    requires 0 <= c < 4 && 0 <= k < 25 && 0 <= j < 4
    ensures Length(100 * c + 4 * k + j) == if j == 3 && (k < 24 || c == 3) then 366 else 365
  {
    var y := 100 * c + 4 * k + j + 1;
    assert y % 4 == if j == 3 then 0 else j + 1;
    assert j == 3 ==> y % 100 == if k == 24 then 0 else 4 * k + 4;
    assert j == 3 && k == 24 ==> y == 100 * (c + 1);
  }

  lemma YearOfDigits(c: int, k: int, j: int, r: int)
    requires 0 <= c < 4 && 0 <= k < 25 && 0 <= j < 4 && 0 <= r <= 365 && (r == 365 ==> j == 3 && (k < 24 || c == 3))
    ensures YearOf(36524 * c + 1461 * k + 365 * j + r) == 100 * c + 4 * k + j
  {
    var doe := 36524 * c + 1461 * k + 365 * j + r;
    var e := if 24 * c + k + 365 * j + r < 1460 then 0 else 1;
    assert doe / 1460 == 25 * c + k + e;
    var q := if doe == 146096 then 1 else 0;
    assert doe / 146096 == q;
    var f := if doe == 146096 then 4 else c;
    assert doe / 36524 == f;
    assert doe - doe / 1460 + doe / 36524 - doe / 146096 == 365 * (100 * c + 4 * k + j) + (r - e - q + f - c);
    assert 0 <= r - e - q + f - c < 365;
  }

  lemma YearLength(y: int)
    requires 0 <= y < 400
    ensures YearStart(y) + Length(y) == if y == 399 then ERA_DAYS else YearStart(y + 1)
  {
    var c, k, j := y / 100, y % 100 / 4, y % 100 % 4;
    assert y == 100 * c + 4 * k + j;
    YearStartDigits(c, k, j);
    LengthDigits(c, k, j);
    if j < 3 {
      YearStartDigits(c, k, j + 1);
    } else if k < 24 {
      YearStartDigits(c, k + 1, 0);
    } else if c < 3 {
      YearStartDigits(c + 1, 0, 0);
    }
  }

  lemma {:induction false} YearGrows(y: int, z: int)
    requires 0 <= y < z < 400
    ensures YearStart(y) + Length(y) <= YearStart(z)
    decreases z - y
  {
    YearLength(y);
    if y + 1 < z { YearGrows(y + 1, z); }
  }

  lemma MonthOfDay(doy: int)
    requires 0 <= doy < 366
    ensures 0 <= MonthOf(doy) < 12 && MonthStart(MonthOf(doy)) <= doy < MonthStart(MonthOf(doy) + 1)
  {
  }

  lemma Repeats4(k: int, y: int)
    ensures (4 * k + y) % 4 == y % 4
  {
  }

  lemma Repeats100(k: int, y: int)
    ensures (100 * k + y) % 100 == y % 100
  {
  }

  lemma Repeats400(k: int, y: int)
    ensures (400 * k + y) % 400 == y % 400
  {
  }

  lemma LeapRepeats(e: int, y: int)
    ensures Leap(e * 400 + y) == Leap(y)
  {
    Repeats400(e, y);
    Repeats100(4 * e, y);
    Repeats4(100 * e, y);
  }

  lemma PlaceOfOrdinal(t: int)
    requires t >= 0
    ensures IsPlace(PlaceOf(t)) && Ordinal(PlaceOf(t)) == t
  {
    var doe := t % ERA_DAYS;
    var c, k, j, r := Digits(doe);
    YearOfDigits(c, k, j, r);
    YearStartDigits(c, k, j);
    LengthDigits(c, k, j);
  }

  lemma OrdinalInEra(p: Place)
    requires IsPlace(p)
    ensures 0 <= YearStart(p.yoe) + p.doy < ERA_DAYS
  {
    YearLength(p.yoe);
    YearLength(399);
    if p.yoe < 399 { YearGrows(p.yoe, 399); }
  }

  /** Different places have different day numbers. */
  lemma OrdinalInjective(p: Place, q: Place)
    requires IsPlace(p) && IsPlace(q) && Ordinal(p) == Ordinal(q)
    ensures p == q
  {
    OrdinalInEra(p);
    OrdinalInEra(q);
    if p.yoe < q.yoe {
      YearGrows(p.yoe, q.yoe);
    } else if q.yoe < p.yoe {
      YearGrows(q.yoe, p.yoe);
    }
  }

  function NextPlace(p: Place): Place {
    if p.doy + 1 < Length(p.yoe) then p.(doy := p.doy + 1)
    else if p.yoe < 399 then Place(p.era, p.yoe + 1, 0)
    else Place(p.era + 1, 0, 0)
  }

  lemma OrdinalNext(p: Place)
    requires IsPlace(p)
    ensures IsPlace(NextPlace(p)) && Ordinal(NextPlace(p)) == Ordinal(p) + 1
  {
    YearLength(p.yoe);
  }

  /** The day after a place is its next place. */
  lemma PlaceNext(t: int)
    requires t >= 0
    ensures PlaceOf(t + 1) == NextPlace(PlaceOf(t))
  {
    PlaceOfOrdinal(t);
    PlaceOfOrdinal(t + 1);
    OrdinalNext(PlaceOf(t));
    OrdinalInjective(PlaceOf(t + 1), NextPlace(PlaceOf(t)));
  }

  lemma DateOfIsDate(p: Place)
    requires IsPlace(p)
    ensures IsDate(DateOf(p))
  {
    MonthOfDay(p.doy);
    LeapRepeats(p.era, p.yoe + 1);
  }

  lemma MonthNext(doy: int)
    requires 0 <= doy < 365
    ensures MonthOf(doy + 1) == if doy + 1 < MonthStart(MonthOf(doy) + 1) then MonthOf(doy) else MonthOf(doy) + 1
  {
    MonthOfDay(doy);
    MonthOfDay(doy + 1);
  }

  lemma NextInMonth(p: Place)
    requires IsPlace(p) && p.doy + 1 < Length(p.yoe) && p.doy + 1 < MonthStart(MonthOf(p.doy) + 1)
    ensures DateOf(NextPlace(p)) == NextDay(DateOf(p))
  {
    MonthOfDay(p.doy);
    MonthNext(p.doy);
    LeapRepeats(p.era, p.yoe + 1);
  }

  lemma NextInYear(p: Place)
    requires IsPlace(p) && p.doy + 1 < Length(p.yoe) && p.doy + 1 == MonthStart(MonthOf(p.doy) + 1)
    ensures DateOf(NextPlace(p)) == NextDay(DateOf(p))
  {
    MonthOfDay(p.doy);
    MonthNext(p.doy);
    assert MonthOf(p.doy) < 11;
  }

  lemma NextYear(p: Place)
    requires IsPlace(p) && p.doy + 1 == Length(p.yoe)
    ensures DateOf(NextPlace(p)) == NextDay(DateOf(p))
  {
    assert MonthOf(p.doy) == 11;
    LeapRepeats(p.era, p.yoe + 1);
  }

  lemma DateOfNext(p: Place)
    requires IsPlace(p)
    ensures DateOf(NextPlace(p)) == NextDay(DateOf(p))
  {
    MonthOfDay(p.doy);
    if p.doy + 1 == Length(p.yoe) {
      NextYear(p);
    } else if p.doy + 1 == MonthStart(MonthOf(p.doy) + 1) {
      NextInYear(p);
    } else {
      NextInMonth(p);
    }
  }

  // ----- what the functions compute -----

  lemma Int32Shift(t: int, x: int)
    ensures (t - Int32(x)) % U32 == (t - x) % U32
  {
    var k := (x + 0x8000_0000) / U32;
    assert Int32(x) == x - k * U32;
    assert (t - x + k * U32) % U32 == (t - x) % U32;
  }

  lemma SmallWord(x: int)
    requires 0 <= x < U32
    ensures x % U32 == x
  {
  }

  lemma SmallInt(x: int)
    requires -0x8000_0000 <= x < 0x8000_0000
    ensures Int32(x) == x
  {
  }

  lemma DayOfEra(time: int)
    requires 0 <= time < 5368709 * ERA_DAYS
    ensures 0 <= time / ERA_DAYS < 5368709
    ensures (time - Int32(time / ERA_DAYS * 146097)) % U32 == time % ERA_DAYS && time % U64 == time
  {
    Int32Shift(time, time / ERA_DAYS * 146097);
  }

  lemma CivilFromEraIsDateOf(era: int, doe: int)
    requires 0 <= era < 5368709 && 0 <= doe < ERA_DAYS
    requires IsPlace(Place(era, YearOf(doe), doe - YearStart(YearOf(doe))))
    ensures CivilFromEra(era, doe) == DateOf(Place(era, YearOf(doe), doe - YearStart(YearOf(doe))))
  {
    var p := Place(era, YearOf(doe), doe - YearStart(YearOf(doe)));
    CivilFromYearIsDateOf(p);
    SmallWord(p.doy);
  }

  lemma CivilFromYearIsDateOf(p: Place)
    requires IsPlace(p) && p.era < 5368709
    ensures CivilFromYear(p.era, p.yoe, p.doy) == DateOf(p)
  {
    MonthOfDay(p.doy);
    SmallWord(5 * p.doy + 2);
    var mp := MonthOf(p.doy);
    var m := mp + (if mp < 10 then 3 else -9);
    SmallWord(m);
    SmallWord(p.doy - MonthStart(mp) + 1);
    SmallInt(m);
    SmallInt(p.doy - MonthStart(mp) + 1);
    SmallInt(p.yoe + p.era * 400);
    SmallInt(p.yoe + p.era * 400 + (if m <= 2 then 1 else 0));
  }

  lemma CivilIsDateOf(days: int)
    requires InRange(days)
    ensures CivilFromDays(days) == DateOf(PlaceOf(days + EPOCH))
  {
    var time := days + EPOCH;
    DayOfEra(time);
    CivilIsInEra(days);
    PlaceOfOrdinal(time);
    CivilFromEraIsDateOf(time / ERA_DAYS, time % ERA_DAYS);
  }

  /** The era and the day in it are computed without loss. */
  lemma CivilIsInEra(days: int)
    requires InRange(days)
    ensures CivilFromDays(days) == CivilFromEra((days + EPOCH) / ERA_DAYS, (days + EPOCH) % ERA_DAYS)
  {
    DayOfEra(days + EPOCH);
    SmallInt((days + EPOCH) / ERA_DAYS);
  }

  predicate FromMarchZero(t: Date) { IsDate(t) && (t.year > 0 || (t.year == 0 && t.month > 2)) }

  function MarchYear(t: Date): int { if t.month <= 2 then t.year - 1 else t.year }

  function MarchMonth(m: int): int { if m > 2 then m - 3 else m + 9 }

  function PlaceFor(t: Date): Place {
    Place(MarchYear(t) / 400, MarchYear(t) % 400, MonthStart(MarchMonth(t.month)) + t.day - 1)
  }

  lemma MonthOfFits(mp: int, d: int)
    requires 0 <= mp < 12 && 0 <= d && MonthStart(mp) + d < MonthStart(mp + 1)
    ensures MonthOf(MonthStart(mp) + d) == mp
  {
  }

  lemma PlaceForDate(t: Date)
    requires FromMarchZero(t)
    ensures IsPlace(PlaceFor(t)) && DateOf(PlaceFor(t)) == t
  {
    var y, mp := MarchYear(t), MarchMonth(t.month);
    LeapRepeats(y / 400, y % 400 + 1);
    assert MonthStart(mp) + t.day - 1 < MonthStart(mp + 1);
    MonthOfFits(mp, t.day - 1);
  }

  lemma DaysIsOrdinal(t: Date)
    requires FromMarchZero(t)
    ensures DaysFromCivil(t.year, t.month, t.day) == Int32(Ordinal(PlaceFor(t)) - EPOCH)
  {
    var y := MarchYear(t);
    assert y - y / 400 * 400 == y % 400;
  }

  /** A day number becomes a valid date, from which an int holds the same day number again. */
  lemma DayRoundTrip(days: int)
    requires InRange(days)
    ensures var t := CivilFromDays(days);
            IsDate(t) && DaysFromCivil(t.year, t.month, t.day) == Int32(days)
  {
    var p := PlaceOf(days + EPOCH);
    CivilIsDateOf(days);
    PlaceOfOrdinal(days + EPOCH);
    DateOfIsDate(p);
    DateOfFromMarchZero(p);
    PlaceForDate(DateOf(p));
    DateOfInjective(p, PlaceFor(DateOf(p)));
    DaysIsOrdinal(DateOf(p));
  }

  lemma DateOfFromMarchZero(p: Place)
    requires IsPlace(p)
    ensures FromMarchZero(DateOf(p))
  {
    DateOfIsDate(p);
  }

  lemma DateOfInjective(p: Place, q: Place)
    requires IsPlace(p) && IsPlace(q) && DateOf(p) == DateOf(q)
    ensures p == q
  {
    MonthOfDay(p.doy);
    MonthOfDay(q.doy);
    assert MonthOf(p.doy) == MonthOf(q.doy) && p.doy == q.doy;
    assert p.era * 400 + p.yoe == q.era * 400 + q.yoe;
  }

  /** A valid date from 0000-03-01 on whose day number fits an int comes back from it. */
  lemma DateRoundTrip(t: Date)
    requires FromMarchZero(t) && Ordinal(PlaceFor(t)) - EPOCH < 0x8000_0000
    ensures CivilFromDays(DaysFromCivil(t.year, t.month, t.day)) == t
  {
    PlaceForDate(t);
    DaysIsOrdinal(t);
    var o := Ordinal(PlaceFor(t));
    OrdinalInEra(PlaceFor(t));
    SmallInt(o - EPOCH);
    CivilIsDateOf(o - EPOCH);
    PlaceOfOrdinal(o);
    OrdinalInjective(PlaceOf(o), PlaceFor(t));
  }

  /** Day 0 is 1970-01-01 and each day is followed by the next day of the calendar. */
  lemma CalendarSuccessor(days: int)
    requires InRange(days) && InRange(days + 1)
    ensures CivilFromDays(days + 1) == NextDay(CivilFromDays(days))
  {
    CivilIsDateOf(days);
    CivilIsDateOf(days + 1);
    PlaceNext(days + EPOCH);
    PlaceOfOrdinal(days + EPOCH);
    DateOfNext(PlaceOf(days + EPOCH));
  }

  lemma EpochDate()
    ensures CivilFromDays(0) == Date(1970, 1, 1)
  {
    var p := Place(4, 369, 306);
    assert IsPlace(p) && Ordinal(p) == EPOCH;
    CivilIsDateOf(0);
    PlaceOfOrdinal(EPOCH);
    OrdinalInjective(PlaceOf(EPOCH), p);
    assert MonthOf(306) == 10;
  }

  /** The date `n` days after 1970-01-01, counted one by one. */
  ghost function Later(n: nat): Date { if n == 0 then Date(1970, 1, 1) else NextDay(Later(n - 1)) }

  lemma {:induction false} CivilCountsDays(n: nat)
    requires InRange(n)
    ensures CivilFromDays(n) == Later(n)
  {
    if n == 0 {
      EpochDate();
    } else {
      CivilCountsDays(n - 1);
      CalendarSuccessor(n - 1);
    }
  }

  // ----- seconds -----

  datatype Systime = Systime(seconds: int, minutes: int, hours: int, date: Date)

  /** time_conv_to_systime64. */
  function ToSystime(secs: nat): Systime {
    Systime(secs % 60, secs / 60 % 60, secs / 3600 % 24, CivilFromDays(secs / 86400))
  }

  /** time_conv_to_unix64: the sum is an int and is then widened. */
  function ToUnix64(t: Systime): nat {
    var days := DaysFromCivil(t.date.year, t.date.month, t.date.day);
    Int32(Int32(days * 86400) + t.hours * 3600 + t.minutes * 60 + t.seconds) % U64
  }

  function ToUnix(t: Systime): nat { ToUnix64(t) % U32 }

  lemma Int32Add(x: int, y: int)
    ensures Int32(Int32(x) + y) == Int32(x + y)
  {
    var k := (x + 0x8000_0000) / U32;
    assert Int32(x) + y == x + y - k * U32;
    assert (x + y - k * U32 + 0x8000_0000) % U32 == (x + y + 0x8000_0000) % U32;
  }

  lemma Minutes(secs: nat)
    ensures secs == secs / 60 * 60 + secs % 60 && secs / 60 / 60 == secs / 3600
  {
  }

  lemma Hours(mins: nat)
    ensures mins == mins / 60 * 60 + mins % 60
  {
  }

  lemma Days(secs: nat)
    ensures secs / 3600 == secs / 86400 * 24 + secs / 3600 % 24
  {
    assert secs / 3600 / 24 == secs / 86400;
  }

  lemma Clock(secs: nat)
    ensures secs / 86400 * 86400 + secs / 3600 % 24 * 3600 + secs / 60 % 60 * 60 + secs % 60 == secs
  {
    Minutes(secs);
    Hours(secs / 60);
    Days(secs);
  }

  lemma Int32Scale(x: int, n: int)
    ensures Int32(Int32(x) * n) == Int32(x * n)
  {
    var k := (x + 0x8000_0000) / U32;
    assert Int32(x) == x - k * U32;
    calc {
      Int32(x) * n;
      (x - k * U32) * n;
      x * n - k * n * U32;
    }
    assert (x * n + 0x8000_0000 + -(k * n) * U32) % U32 == (x * n + 0x8000_0000) % U32 by { AddMultiple(x * n + 0x8000_0000, -(k * n)); }
  }

  lemma AddMultiple(x: int, k: int)
    ensures (x + k * U32) % U32 == x % U32
  {
  }

  lemma UnixSum(secs: nat)
    requires InRange(secs / 86400)
    ensures ToUnix64(ToSystime(secs)) == Int32(secs) % U64
  {
    var days := secs / 86400;
    DayRoundTrip(days);
    Int32Scale(days, 86400);
    Clock(secs);
    Int32Add(days * 86400, secs / 3600 % 24 * 3600 + secs / 60 % 60 * 60 + secs % 60);
  }

  lemma Widened(x: nat)
    requires x < 0x7FFF_FFFF_0000_0000
    ensures Int32(x) % U64 == x <==> x < 0x8000_0000
  {
  }

  lemma Narrowed(x: int)
    ensures Int32(x) % U64 % U32 == x % U32
  {
    var k := (x + 0x8000_0000) / U32;
    assert Int32(x) == x - k * U32;
    var y, j := Int32(x), Int32(x) / U64;
    assert y % U64 == y + -(j * 0x1_0000_0000) * U32;
    AddMultiple(y, -(j * 0x1_0000_0000));
    AddMultiple(x, -k);
  }

  /** Seconds survive the way to a broken down time and back exactly while they fit an int. */
  lemma UnixRoundTrip(secs: nat)
    requires InRange(secs / 86400)
    ensures ToUnix64(ToSystime(secs)) == secs <==> secs < 0x8000_0000
  {
    UnixSum(secs);
    Widened(secs);
  }

  /** From 2038-01-19 03:14:08 on, until 32 bits are full, the 64-bit time comes back with its upper half set. */
  lemma UnixWraps(secs: nat)
    requires 0x8000_0000 <= secs < U32
    ensures InRange(secs / 86400) && ToUnix64(ToSystime(secs)) == secs + (U64 - U32)
  {
    WidenedHigh(secs);
    UnixSum(secs);
  }

  lemma WidenedHigh(secs: nat)
    requires 0x8000_0000 <= secs < U32
    ensures Int32(secs) % U64 == secs + (U64 - U32) && InRange(secs / 86400)
  {
    assert Int32(secs) == secs - U32;
    assert secs / 86400 < 49711;
  }

  /** The 32-bit conversion hides the overflow: it is right for every 32-bit time. */
  lemma UnixRoundTrip32(secs: nat)
    requires InRange(secs / 86400)
    ensures ToUnix(ToSystime(secs)) == secs <==> secs < U32
  {
    UnixSum(secs);
    Narrowed(secs);
    Word(secs);
  }

  lemma Word(x: nat)
    ensures x % U32 == x <==> x < U32
  {
  }
}
