/**
 The two halves of the repository's calendar arithmetic: the closed-form day
 number of `parse_time` (src/traffic.rs) and `civil_from_days` (build.rs),
 both compared with a calendar that knows nothing but "the next day".
 */
module Calendar {
  import opened Prelude

  datatype Date = Date(year: int, month: int, day: int)

  predicate IsLeap(year: int) {
    year % 4 == 0 && (year % 100 != 0 || year % 400 == 0)
  }

  function DaysInMonth(year: int, month: int): int {
    match month
    case 1 | 3 | 5 | 7 | 8 | 10 | 12 => 31
    case 4 | 6 | 9 | 11 => 30
    case 2 => if IsLeap(year) then 29 else 28
    case _ => 0
  }

  predicate ValidDate(d: Date) {
    1 <= d.month <= 12 && 1 <= d.day <= DaysInMonth(d.year, d.month)
  }

  const EPOCH := Date(1970, 1, 1)

  // ----- The reference: counting one day at a time -----

  function NextDay(d: Date): Date {
    if d.day < DaysInMonth(d.year, d.month) then d.(day := d.day + 1)
    else if d.month < 12 then Date(d.year, d.month + 1, 1)
    else Date(d.year + 1, 1, 1)
  }

  function PreviousDay(d: Date): Date {
    if d.day > 1 then d.(day := d.day - 1)
    else if d.month > 1 then Date(d.year, d.month - 1, DaysInMonth(d.year, d.month - 1))
    else Date(d.year - 1, 12, 31)
  }

  /** The date `n` single-day steps after the epoch, or `-n` steps before it. */
  function DayCount(n: int): (d: Date)
    ensures ValidDate(d)
    ensures n >= 0 ==> d.year >= 1970
    decreases if n < 0 then -n else n
  {
    if n == 0 then EPOCH
    else if n > 0 then NextDay(DayCount(n - 1))
    else PreviousDay(DayCount(n + 1))
  }

  lemma PreviousDayUndoesNextDay(d: Date)
    requires ValidDate(d)
    ensures ValidDate(PreviousDay(d)) && NextDay(PreviousDay(d)) == d
  {
  }

  // ----- The closed forms -----

  /** parse_time's day number; Rust's truncating `/` meets no negative operand for years from 1 on. */
  function DayNumber(d: Date): int {
    var y := d.year - (if d.month <= 2 then 1 else 0);
    var era := y / 400;
    var yoe := y - era * 400;
    var m := d.month + (if d.month > 2 then -3 else 9);
    var doy := (153 * m + 2) / 5 + d.day - 1;
    var doe := yoe * 365 + yoe / 4 - yoe / 100 + doy;
    era * 146097 + doe - 719468
  }

  /** Rust's integer division by a positive divisor: truncates toward zero. */
  function TruncDiv(a: int, b: int): int
    requires b > 0
  {
    if a >= 0 then a / b else -((-a) / b)
  }

  /** build.rs civil_from_days: first the 400-year era, then the date within it. */
  function CivilFromDays(days: int): Date {
    var z := days + 719468;
    var era := TruncDiv(if z >= 0 then z else z - 146096, 146097);
    CivilFromEra(era, z - era * 146097)
  }

  /** The year of the era. The last division is by 146097, so it is always zero here. */
  function YearOfDay(doe: int): int {
    (doe - doe / 1460 + doe / 36524 - doe / 146097) / 365
  }

  /** The rest of civil_from_days. */
  function CivilFromEra(era: int, doe: int): Date {
    var yoe := YearOfDay(doe);
    var y := yoe + era * 400;
    var doy := doe - (365 * yoe + yoe / 4 - yoe / 100);
    var mp := (5 * doy + 2) / 153;
    var month := if mp < 10 then mp + 3 else mp - 9;
    Date(if month <= 2 then y + 1 else y, month, doy - (153 * mp + 2) / 5 + 1)
  }

  // ----- parse_time counts days -----

  /** Days from 0000-03-01 to 1 March of year `y`. */
  function MarchFirst(y: int): int {
    365 * y + y / 4 - y / 100 + y / 400
  }

  lemma EraForm(y: int)
    ensures var era := y / 400; var yoe := y - era * 400;
            0 <= yoe < 400 && era * 146097 + (yoe * 365 + yoe / 4 - yoe / 100) == MarchFirst(y)
  {
    var era := y / 400;
    var yoe := y - era * 400;
    assert y / 4 == 100 * era + yoe / 4;
    assert y / 100 == 4 * era + yoe / 100;
  }

  function MarchMonth(month: int): int {
    month + (if month > 2 then -3 else 9)
  }

  /** The day number over years that start in March, without eras. */
  function MarchNumber(d: Date): int {
    MarchFirst(d.year - (if d.month <= 2 then 1 else 0))
    + (153 * MarchMonth(d.month) + 2) / 5 + d.day - 1 - 719468
  }

  lemma DayNumberForm(d: Date)
    ensures DayNumber(d) == MarchNumber(d)
  {
    EraForm(d.year - (if d.month <= 2 then 1 else 0));
  }

  lemma MarchFirstStep(y: int)
    ensures MarchFirst(y) == MarchFirst(y - 1) + (if IsLeap(y) then 366 else 365)
  {
    QuotientStep(y, 4);
    QuotientStep(y, 100);
    QuotientStep(y, 400);
    LeapByMultiples(y);
  }

  lemma QuotientStep(y: int, n: int)
    requires n > 0
    ensures y / n == (y - 1) / n + if y % n == 0 then 1 else 0
  {
    var q, r := y / n, y % n;
    if r == 0 {
      assert y - 1 == n * (q - 1) + (n - 1);
      QuotientIs(y - 1, n, q - 1, n - 1);
    } else {
      QuotientIs(y - 1, n, q, r - 1);
    }
  }

  lemma LeapByMultiples(y: int)
    ensures (if IsLeap(y) then 1 else 0)
         == (if y % 4 == 0 then 1 else 0) - (if y % 100 == 0 then 1 else 0) + (if y % 400 == 0 then 1 else 0)
  {
    if y % 100 == 0 {
      QuotientIs(y, 4, 25 * (y / 100), 0);
    }
    if y % 400 == 0 {
      QuotientIs(y, 100, 4 * (y / 400), 0);
    }
  }

  /** Consecutive months of one March year are as far apart as the first is long. */
  lemma MonthStep(year: int, month: int)
    requires 1 <= month < 12 && month != 2
    ensures (153 * MarchMonth(month + 1) + 2) / 5 - (153 * MarchMonth(month) + 2) / 5 == DaysInMonth(year, month)
  {
  }

  lemma NextMarchNumber(d: Date)
    requires ValidDate(d)
    ensures ValidDate(NextDay(d))
    ensures MarchNumber(NextDay(d)) == MarchNumber(d) + 1
  {
    hide MarchFirst;
    if d.day == DaysInMonth(d.year, d.month) {
      if d.month == 2 {
        MarchFirstStep(d.year);
      } else if d.month < 12 {
        MonthStep(d.year, d.month);
      }
    }
  }

  lemma NextDayNumber(d: Date)
    requires ValidDate(d)
    ensures ValidDate(NextDay(d))
    ensures DayNumber(NextDay(d)) == DayNumber(d) + 1
  {
    NextMarchNumber(d);
    DayNumberForm(d);
    DayNumberForm(NextDay(d));
  }

  lemma DayCountStep(n: int)
    ensures DayCount(n + 1) == NextDay(DayCount(n))
  {
    if n < 0 {
      PreviousDayUndoesNextDay(DayCount(n + 1));
    }
  }

  lemma EpochNumber()
    ensures DayNumber(EPOCH) == 0
  {
  }

  lemma CountNextDay(n: int)
    ensures DayNumber(DayCount(n + 1)) == DayNumber(DayCount(n)) + 1
  {
    var d := DayCount(n);
    DayCountStep(n);
    NextDayNumber(d);
  }

  /** The closed form is the number of single-day steps from the epoch. */
  lemma {:induction false} DayNumberCountsDays(n: int)
    ensures DayNumber(DayCount(n)) == n
    decreases if n < 0 then -n else n
  {
    hide DayNumber;
    if n > 0 {
      DayNumberCountsDays(n - 1);
      CountNextDay(n - 1);
    } else if n < 0 {
      DayNumberCountsDays(n + 1);
      CountNextDay(n);
    } else {
      EpochNumber();
    }
  }

  // ----- civil_from_days, and the one day in 400 years it gets wrong -----

  /** 29 February of a year divisible by 400, the last day of a 146097-day era. */
  predicate EndsEra(d: Date) {
    d.month == 2 && d.day == 29 && d.year % 400 == 0
  }

  /** What a caller can test on the day number alone. */
  predicate LastDayOfEra(days: int) {
    (days + 719468) % 146097 == 146096
  }

  /** The March year of the era and the day within it, for a valid date. */
  function MarchYear(d: Date): int { d.year - (if d.month <= 2 then 1 else 0) }

  function MarchDay(d: Date): int { (153 * MarchMonth(d.month) + 2) / 5 + d.day - 1 }

  lemma MarchDayRange(d: Date)
    requires ValidDate(d)
    ensures 0 <= MarchDay(d) <= 365
    ensures MarchDay(d) == 365 ==> d.month == 2 && d.day == 29 && IsLeap(d.year)
  {
  }

  /** The day of the era from the year of the era and the day of the March year. */
  function EraDay(yoe: int, doy: int): int { 365 * yoe + yoe / 4 - yoe / 100 + doy }

  predicate EraYearDay(yoe: int, doy: int) {
    0 <= yoe < 400 && 0 <= doy <= 365 && (doy == 365 ==> IsLeap(yoe + 1))
  }

  lemma EraDayRange(yoe: int, doy: int)
    requires EraYearDay(yoe, doy)
    ensures 0 <= EraDay(yoe, doy) <= 146096
    ensures EraDay(yoe, doy) == 146096 <==> yoe == 399 && doy == 365
  {
  }

  lemma CenturiesOfEra(yoe: int, doy: int)
    requires EraYearDay(yoe, doy) && !(yoe == 399 && doy == 365)
    ensures EraDay(yoe, doy) / 36524 == yoe / 100
  {
    var c := yoe / 100;
    var j := yoe - 100 * c;
    assert yoe / 4 == 25 * c + j / 4;
    var rest := 365 * j + j / 4 + doy;
    assert EraDay(yoe, doy) == 36524 * c + rest;
    assert rest < 36524;
  }

  lemma QuadrenniaOfEra(yoe: int, doy: int)
    requires EraYearDay(yoe, doy)
    ensures var extra := EraDay(yoe, doy) / 1460 - yoe / 4;
            0 <= extra <= 1 && (doy == 365 ==> extra == 1) && (doy == 0 ==> extra == 0)
  {
    var a := yoe / 4;
    var k := yoe - 4 * a;
    var rest := 365 * k + a - yoe / 100 + doy;
    assert EraDay(yoe, doy) == 1460 * a + rest;
    assert 0 <= a - yoe / 100 <= 96;
  }

  /** The divisions of civil_from_days recover the year of the era. */
  lemma YearOfEra(yoe: int, doy: int)
    requires EraYearDay(yoe, doy) && !(yoe == 399 && doy == 365)
    ensures var doe := EraDay(yoe, doy); (doe - doe / 1460 + doe / 36524 - doe / 146097) / 365 == yoe
  {
    var doe := EraDay(yoe, doy);
    EraDayRange(yoe, doy);
    CenturiesOfEra(yoe, doy);
    QuadrenniaOfEra(yoe, doy);
    var numerator := doe - doe / 1460 + doe / 36524 - doe / 146097;
    assert numerator == 365 * yoe + (doy - (doe / 1460 - yoe / 4));
  }

  lemma MonthOfMarchDay(d: Date)
    requires ValidDate(d)
    ensures (5 * MarchDay(d) + 2) / 153 == MarchMonth(d.month)
  {
    if d.month == 1 {} else if d.month == 2 {} else if d.month == 3 {} else if d.month == 4 {}
    else if d.month == 5 {} else if d.month == 6 {} else if d.month == 7 {} else if d.month == 8 {}
    else if d.month == 9 {} else if d.month == 10 {} else if d.month == 11 {} else {}
  }

  /** Which era a day number falls in, and where. */
  lemma EraOfDayNumber(d: Date)
    requires ValidDate(d)
    ensures var era := MarchYear(d) / 400; var yoe := MarchYear(d) % 400;
            EraYearDay(yoe, MarchDay(d)) && DayNumber(d) + 719468 == 146097 * era + EraDay(yoe, MarchDay(d))
  {
    MarchDayRange(d);
    var yoe := MarchYear(d) % 400;
    if MarchDay(d) == 365 {
      LeapInEra(d.year);
    }
  }

  lemma LeapInEra(year: int)
    requires IsLeap(year)
    ensures IsLeap((year - 1) % 400 + 1)
  {
    ErasRepeat((year - 1) / 400, (year - 1) % 400 + 1);
    assert year == 400 * ((year - 1) / 400) + ((year - 1) % 400 + 1);
  }

  lemma ErasRepeat(q: int, r: int)
    ensures (400 * q + r) % 4 == r % 4
    ensures (400 * q + r) % 100 == r % 100
    ensures (400 * q + r) % 400 == r % 400
  {
    assert (400 * q + r) / 4 == 100 * q + r / 4;
    assert (400 * q + r) / 100 == 4 * q + r / 100;
    assert (400 * q + r) / 400 == q + r / 400;
  }

  lemma EraEndsOnLastMarchDay(d: Date)
    requires ValidDate(d)
    ensures EndsEra(d) <==> MarchYear(d) % 400 == 399 && MarchDay(d) == 365
  {
    MarchDayRange(d);
    if d.month == 2 && d.day == 29 {
      assert d.year % 400 == 0 <==> (d.year - 1) % 400 == 399;
    }
  }

  lemma EraEnds(d: Date)
    requires ValidDate(d)
    ensures EndsEra(d) <==> LastDayOfEra(DayNumber(d))
  {
    EraEndsOnLastMarchDay(d);
    var yoe, doy := MarchYear(d) % 400, MarchDay(d);
    EraOfDayNumber(d);
    EraDayRange(yoe, doy);
    EraRemainder(DayNumber(d) + 719468, MarchYear(d) / 400, EraDay(yoe, doy));
  }

  lemma EraRemainder(z: int, era: int, doe: int)
    requires 0 <= doe < 146097 && z == 146097 * era + doe
    ensures z % 146097 == doe
    ensures TruncDiv(if z >= 0 then z else z - 146096, 146097) == era
  {
    QuotientIs(z, 146097, era, doe);
    if z < 0 {
      QuotientIs(146096 - z, 146097, -era, 146096 - doe);
    }
  }

  lemma CivilSplitsEra(days: int, era: int, doe: int)
    requires 0 <= doe < 146097 && days + 719468 == 146097 * era + doe
    ensures CivilFromDays(days) == CivilFromEra(era, doe)
  {
    hide CivilFromEra, TruncDiv;
    EraRemainder(days + 719468, era, doe);
  }

  /** The date of a day of the era, once the year of the era is known. */
  function CivilFromMarchDay(y: int, doy: int): Date {
    var mp := (5 * doy + 2) / 153;
    var month := if mp < 10 then mp + 3 else mp - 9;
    Date(if month <= 2 then y + 1 else y, month, doy - (153 * mp + 2) / 5 + 1)
  }

  lemma CivilFindsYear(era: int, yoe: int, doy: int)
    requires EraYearDay(yoe, doy) && !(yoe == 399 && doy == 365)
    ensures CivilFromEra(era, EraDay(yoe, doy)) == CivilFromMarchDay(yoe + era * 400, doy)
  {
    YearOfEra(yoe, doy);
  }

  lemma CivilWithinYear(d: Date)
    requires ValidDate(d)
    ensures CivilFromMarchDay(MarchYear(d), MarchDay(d)) == d
  {
    MonthOfMarchDay(d);
  }

  lemma CivilWithinEra(d: Date)
    requires ValidDate(d) && !EndsEra(d)
    ensures CivilFromEra(MarchYear(d) / 400, EraDay(MarchYear(d) % 400, MarchDay(d))) == d
  {
    EraOfDayNumber(d);
    EraEndsOnLastMarchDay(d);
    CivilFindsYear(MarchYear(d) / 400, MarchYear(d) % 400, MarchDay(d));
    CivilWithinYear(d);
  }

  /** civil_from_days inverts the day number except on the last day of an era, which it calls 1 March. */
  lemma CivilInvertsDayNumber(d: Date)
    requires ValidDate(d)
    ensures CivilFromDays(DayNumber(d)) == d <==> !EndsEra(d)
    ensures EndsEra(d) ==> CivilFromDays(DayNumber(d)) == NextDay(d)
  {
    var yoe := MarchYear(d) % 400;
    EraOfDayNumber(d);
    EraDayRange(yoe, MarchDay(d));
    CivilSplitsEra(DayNumber(d), MarchYear(d) / 400, EraDay(yoe, MarchDay(d)));
    if EndsEra(d) {
      CivilLeavesEra(d);
    } else {
      CivilWithinEra(d);
    }
  }

  lemma CivilAtEraEnd(era: int)
    ensures CivilFromEra(era, EraDay(399, 365)) == Date(400 * era + 400, 3, 1)
  {
    hide YearOfDay, EraDay;
    LastDayMakesYear400();
  }

  lemma LastDayMakesYear400()
    ensures EraDay(399, 365) == 146096 && YearOfDay(146096) == 400
  {
  }

  lemma CivilLeavesEra(d: Date)
    requires ValidDate(d) && EndsEra(d)
    ensures CivilFromEra(MarchYear(d) / 400, EraDay(MarchYear(d) % 400, MarchDay(d))) == NextDay(d)
  {
    EraEndsOnLastMarchDay(d);
    CivilAtEraEnd(MarchYear(d) / 400);
  }

  /** Day by day: build.rs names every day but one in 146097 correctly. */
  lemma CivilCountsDays(days: int)
    ensures CivilFromDays(days) == DayCount(days) <==> !LastDayOfEra(days)
    ensures DayNumber(CivilFromDays(days)) == days <==> !LastDayOfEra(days)
  {
    var d := DayCount(days);
    DayNumberCountsDays(days);
    CivilInvertsDayNumber(d);
    EraEnds(d);
    NextDayNumber(d);
  }

  /** The day the repository's build stamp gets wrong first. */
  lemma FirstWrongDay()
    ensures CivilFromDays(11016) == Date(2000, 3, 1) && DayNumber(Date(2000, 2, 29)) == 11016
  {
    hide CivilFromDays;
    CivilInvertsDayNumber(Date(2000, 2, 29));
  }

  /** Two valid dates never share a day number, so every valid date is counted. */
  lemma EveryDateIsCounted(d: Date)
    requires ValidDate(d)
    ensures DayCount(DayNumber(d)) == d
  {
    var counted := DayCount(DayNumber(d));
    DayNumberCountsDays(DayNumber(d));
    CivilInvertsDayNumber(d);
    CivilInvertsDayNumber(counted);
    EraEnds(d);
    EraEnds(counted);
  }

  // ----- The range civil_from_days has in 64 bits -----

  const I64_MAX := 0x7fff_ffff_ffff_ffff

  predicate FitsI64(n: int) { -I64_MAX - 1 <= n <= I64_MAX }

  /** Every signed value civil_from_days computes for a day, in order. */
  function CivilSteps(days: int): seq<int> {
    var z := days + 719468;
    var shifted := if z >= 0 then z else z - 146096;
    var era := TruncDiv(shifted, 146097);
    var y := YearOfDay(z - era * 146097) + era * 400;
    [z, shifted, era, era * 146097, z - era * 146097, era * 400, y, y + 1]
  }

  /** The arithmetic stays within 64 bits exactly up to 719468 days before the end of the range. */
  lemma CivilFitsExactly(days: int)
    requires FitsI64(days)
    ensures (forall i :: 0 <= i < |CivilSteps(days)| ==> FitsI64(CivilSteps(days)[i])) <==> days <= I64_MAX - 719468
  {
    var z := days + 719468;
    var era, doe := z / 146097, z % 146097;
    EraRemainder(z, era, doe);
    YearOfDayRange(doe);
    assert CivilSteps(days)[0] == z;
  }

  lemma YearOfDayRange(doe: int)
    requires 0 <= doe < 146097
    ensures 0 <= YearOfDay(doe) <= 400
  {
  }
}
