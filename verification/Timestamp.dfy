/**
 `parse_time` (src/traffic.rs) on Unix seconds and on timestamps with an
 explicit zone, against a writer of the texts it documents: those of section
 5.6 of RFC 3339 with a space allowed for the `T`, the seconds optional and no
 fractions. Texts are byte strings, one `char` a byte.
 */
module Timestamp {
  import opened Prelude
  import opened Calendar

  datatype TimeError =
    | Overflow | BadShape | BadDigits | IncompleteSeconds | BadOffset
    | UnknownOffset | BadSuffix | BadCalendar | BeforeEpoch

  /** A point in Unix time, or wall-clock fields left to the C library. */
  datatype Parsed =
    | Instant(seconds: nat)
    | WallClock(date: Date, hour: nat, minute: nat, second: nat)

  // ----- Digits -----

  function Number(s: string): Result<nat, TimeError> {
    if AllDigits(s) then Ok(DecimalValue(s)) else Err(BadDigits)
  }

  function Two(n: nat): string
    requires n < 100
  {
    [Digit(n / 10), Digit(n % 10)]
  }

  function Four(n: nat): string
    requires n < 10000
  {
    Two(n / 100) + Two(n % 100)
  }

  // ----- The source -----

  /** The zone suffix: no zone, or seconds east of UTC. */
  function ParseZone(s: string): Result<Option<int>, TimeError> {
    if s == "" then Ok(None)
    else if s == "Z" then Ok(Some(0))
    else if |s| == 6 && (s[0] == '+' || s[0] == '-') && s[3] == ':' then
      var hour :- Number(s[1..3]);
      var minute :- Number(s[4..6]);
      if hour > 23 || minute > 59 then Err(BadOffset)
      else if s[0] == '-' && hour == 0 && minute == 0 then Err(UnknownOffset)
      else Ok(Some((hour * 3600 + minute * 60) * (if s[0] == '-' then -1 else 1)))
    else Err(BadSuffix)
  }

  function ParseSeconds(s: string): Result<(nat, nat), TimeError>
    requires |s| >= 16
    ensures ParseSeconds(s).Ok? ==> 16 <= ParseSeconds(s).value.1 <= |s|
    ensures ParseSeconds(s).Ok? ==> ParseSeconds(s).value.1 == 19 || ParseSeconds(s).value == (0, 16)
  {
    if |s| > 16 && s[16] == ':' then
      if |s| < 19 then Err(IncompleteSeconds)
      else
        var second :- Number(s[17..19]);
        Ok((second, 19))
    else Ok((0, 16))
  }

  datatype Fields = Fields(date: Date, hour: nat, minute: nat, second: nat, zone: Option<int>)

  function ParseFields(s: string): Result<Fields, TimeError>
    requires |s| >= 16
  {
    var year :- Number(s[0..4]);
    var month :- Number(s[5..7]);
    var day :- Number(s[8..10]);
    var hour :- Number(s[11..13]);
    var minute :- Number(s[14..16]);
    var (second, end) :- ParseSeconds(s);
    var zone :- ParseZone(s[end..]);
    Ok(Fields(Date(year, month, day), hour, minute, second, zone))
  }

  predicate InCalendar(f: Fields) {
    f.date.year >= 1970 && 1 <= f.date.day <= DaysInMonth(f.date.year, f.date.month)
    && f.hour <= 23 && f.minute <= 59 && f.second <= 59
  }

  function FieldsTime(f: Fields): Result<Parsed, TimeError> {
    if !InCalendar(f) then
      Err(BadCalendar)
    else if f.zone.None? then
      Ok(WallClock(f.date, f.hour, f.minute, f.second))
    else
      var timestamp := DayNumber(f.date) * 86400 + f.hour * 3600 + f.minute * 60 + f.second - f.zone.value;
      if timestamp < 0 then Err(BeforeEpoch) else Ok(Instant(timestamp))
  }

  function ParseTime(s: string): Result<Parsed, TimeError> {
    if AllDigits(s) && s != "" then
      if DecimalValue(s) < U64_LIMIT then Ok(Instant(DecimalValue(s))) else Err(Overflow)
    else if |s| < 16 || s[4] != '-' || s[7] != '-' || (s[10] != 'T' && s[10] != ' ') || s[13] != ':' then
      Err(BadShape)
    else
      var fields :- ParseFields(s);
      FieldsTime(fields)
  }

  // ----- The grammar -----

  datatype Zone = Zulu | Offset(west: bool, hours: nat, minutes: nat)

  /** One written timestamp. The separator and the seconds are the writer's choice. */
  datatype Stamp = Stamp(date: Date, spaced: bool, hour: nat, minute: nat, second: Option<nat>, zone: Zone)

  predicate ValidZone(z: Zone) {
    z.Offset? ==> z.hours <= 23 && z.minutes <= 59 && (z.west ==> z.hours != 0 || z.minutes != 0)
  }

  predicate ValidStamp(s: Stamp) {
    && ValidDate(s.date) && 1970 <= s.date.year <= 9999
    && s.hour <= 23 && s.minute <= 59 && (s.second.Some? ==> s.second.value <= 59)
    && ValidZone(s.zone)
  }

  function WriteZone(z: Zone): string
    requires ValidZone(z)
  {
    match z
    case Zulu => "Z"
    case Offset(west, hours, minutes) => (if west then "-" else "+") + Two(hours) + ":" + Two(minutes)
  }

  function WriteClock(s: Stamp): string
    requires ValidStamp(s)
  {
    Four(s.date.year) + "-" + Two(s.date.month) + "-" + Two(s.date.day)
    + (if s.spaced then " " else "T") + Two(s.hour) + ":" + Two(s.minute)
  }

  function WriteSeconds(s: Stamp): string
    requires ValidStamp(s)
  {
    if s.second.Some? then ":" + Two(s.second.value) else ""
  }

  function Write(s: Stamp): string
    requires ValidStamp(s)
  {
    WriteClock(s) + WriteSeconds(s) + WriteZone(s.zone)
  }

  function ZoneSeconds(z: Zone): int {
    match z
    case Zulu => 0
    case Offset(west, hours, minutes) => (hours * 3600 + minutes * 60) * (if west then -1 else 1)
  }

  /** Unix seconds of a stamp: whole days counted from the epoch, then the clock, then the zone. */
  function StampSeconds(s: Stamp): int {
    DayNumber(s.date) * 86400 + s.hour * 3600 + s.minute * 60
    + (if s.second.Some? then s.second.value else 0) - ZoneSeconds(s.zone)
  }

  // ----- Digits read back -----

  lemma TwoRoundTrip(n: nat)
    requires n < 100
    ensures Number(Two(n)) == Ok(n)
  {
    var s := Two(n);
    assert s[..1] == [Digit(n / 10)];
    assert s[..1][..0] == "";
    assert DecimalValue(s[..1]) == n / 10;
  }

  lemma FourRoundTrip(n: nat)
    requires n < 10000
    ensures Number(Four(n)) == Ok(n)
  {
    var s := Four(n);
    TwoRoundTrip(n / 100);
    TwoRoundTrip(n % 100);
    assert s[..2] == Two(n / 100);
    assert s[..3][..2] == s[..2] && s[..4][..3] == s[..3];
    assert DecimalValue(s) == 10 * DecimalValue(s[..3]) + n % 10;
    assert DecimalValue(s[..3]) == 10 * DecimalValue(s[..2]) + n % 100 / 10;
  }

  lemma LastDigit(s: string)
    requires s != "" && AllDigits(s)
    ensures AllDigits(s[..|s| - 1]) && DecimalValue(s) == 10 * DecimalValue(s[..|s| - 1]) + DigitValue(s[|s| - 1])
  {
  }

  lemma TwoDigits(s: string)
    requires |s| == 2 && AllDigits(s)
    ensures DecimalValue(s) == 10 * DigitValue(s[0]) + DigitValue(s[1])
    ensures DecimalValue(s) < 100 && s == Two(DecimalValue(s))
  {
    LastDigit(s);
    LastDigit(s[..1]);
    assert s[..1][..0] == "";
  }

  lemma FourDigits(s: string)
    requires |s| == 4 && AllDigits(s)
    ensures DecimalValue(s) < 10000 && s == Four(DecimalValue(s))
  {
    TwoDigits(s[..2]);
    TwoDigits(s[2..]);
    LastDigit(s);
    LastDigit(s[..3]);
    assert s[..3][..2] == s[..2];
    SplitHundreds(DecimalValue(s), DecimalValue(s[..2]), DecimalValue(s[2..]));
    assert s == s[..2] + s[2..];
  }

  lemma SplitHundreds(v: nat, high: nat, low: nat)
    requires high < 100 && low < 100 && v == 100 * high + low
    ensures v < 10000 && v / 100 == high && v % 100 == low
  {
  }

  // ----- Every written stamp is read back, and nothing else is accepted -----

  lemma OffsetRead(s: string, west: bool, hours: nat, minutes: nat)
    requires |s| == 6 && s[0] == (if west then '-' else '+') && s[3] == ':'
    requires Number(s[1..3]) == Ok(hours) && Number(s[4..6]) == Ok(minutes)
    requires ValidZone(Offset(west, hours, minutes))
    ensures ParseZone(s) == Ok(Some(ZoneSeconds(Offset(west, hours, minutes))))
  {
    hide Number;
    var hour, minute := s[1..3], s[4..6];
    assert s != "" && s != "Z";
    assert Number(hour) == Ok(hours) && Number(minute) == Ok(minutes);
  }

  lemma ZoneRoundTrip(z: Zone)
    requires ValidZone(z)
    ensures ParseZone(WriteZone(z)) == Ok(Some(ZoneSeconds(z)))
  {
    if z.Offset? {
      OffsetText(z);
      TwoRoundTrip(z.hours);
      TwoRoundTrip(z.minutes);
      OffsetRead(WriteZone(z), z.west, z.hours, z.minutes);
    }
  }

  lemma OffsetText(z: Zone)
    requires ValidZone(z) && z.Offset?
    ensures var s := WriteZone(z);
      && |s| == 6 && s[0] == (if z.west then '-' else '+') && s[3] == ':'
      && s[1..3] == Two(z.hours) && s[4..6] == Two(z.minutes)
  {
  }

  lemma ClockFields(s: Stamp, rest: string)
    requires ValidStamp(s)
    ensures var t := WriteClock(s) + rest;
      && |t| == 16 + |rest| && t[16..] == rest
      && t[0..4] == Four(s.date.year) && t[4] == '-' && t[5..7] == Two(s.date.month) && t[7] == '-'
      && t[8..10] == Two(s.date.day) && t[10] == (if s.spaced then ' ' else 'T')
      && t[11..13] == Two(s.hour) && t[13] == ':' && t[14..16] == Two(s.minute)
  {
  }

  lemma SecondsRoundTrip(s: Stamp)
    requires ValidStamp(s)
    ensures ParseSeconds(Write(s)) == Ok((if s.second.Some? then s.second.value else 0, 16 + |WriteSeconds(s)|))
  {
    var rest := WriteSeconds(s) + WriteZone(s.zone);
    ClockFields(s, rest);
    assert Write(s) == WriteClock(s) + rest;
    if s.second.Some? {
      assert Write(s)[17..19] == rest[1..3] == Two(s.second.value);
      TwoRoundTrip(s.second.value);
    }
  }

  function StampFields(s: Stamp): Fields {
    Fields(s.date, s.hour, s.minute, if s.second.Some? then s.second.value else 0, Some(ZoneSeconds(s.zone)))
  }

  lemma WrittenFieldsParse(s: Stamp)
    requires ValidStamp(s)
    ensures ParseFields(Write(s)) == Ok(StampFields(s))
  {
    hide Number, Two, Four, ParseSeconds, ParseZone, WriteClock, WriteZone, DecimalValue;
    var t := Write(s);
    var rest := WriteSeconds(s) + WriteZone(s.zone);
    assert t == WriteClock(s) + rest;
    ClockFields(s, rest);
    FourRoundTrip(s.date.year);
    TwoRoundTrip(s.date.month);
    TwoRoundTrip(s.date.day);
    TwoRoundTrip(s.hour);
    TwoRoundTrip(s.minute);
    SecondsRoundTrip(s);
    assert t[16 + |WriteSeconds(s)|..] == WriteZone(s.zone);
    ZoneRoundTrip(s.zone);
  }

  /** Every valid stamp is accepted with the right Unix time, unless that time precedes the epoch. */
  lemma WrittenStampParses(s: Stamp)
    requires ValidStamp(s)
    ensures ParseTime(Write(s)) == if StampSeconds(s) < 0 then Err(BeforeEpoch) else Ok(Instant(StampSeconds(s)))
  {
    hide ParseFields, DayNumber, DecimalValue, WriteSeconds, WriteZone, Two, Four, WriteClock;
    var rest := WriteSeconds(s) + WriteZone(s.zone);
    assert Write(s) == WriteClock(s) + rest;
    ClockFields(s, rest);
    WrittenFieldsParse(s);
    assert !IsDigit(Write(s)[4]);
  }

  /** Digits alone are Unix seconds, up to 64 bits. */
  lemma UnixSecondsForm(s: string)
    requires s != "" && AllDigits(s)
    ensures ParseTime(s) == if DecimalValue(s) < 0x1_0000_0000_0000_0000 then Ok(Instant(DecimalValue(s))) else Err(Overflow)
  {
  }

  /** Without a zone the fields are left to the local clock as they are written. */
  lemma WallClockForm(s: Stamp)
    requires ValidStamp(s)
    ensures ParseTime(WriteClock(s) + WriteSeconds(s)) == Ok(WallClock(s.date, s.hour, s.minute, if s.second.Some? then s.second.value else 0))
  {
    hide Number, Two, Four, ParseSeconds, WriteSeconds, WriteClock, DecimalValue;
    var t := WriteClock(s) + WriteSeconds(s);
    ClockFields(s, WriteSeconds(s));
    FourRoundTrip(s.date.year);
    TwoRoundTrip(s.date.month);
    TwoRoundTrip(s.date.day);
    TwoRoundTrip(s.hour);
    TwoRoundTrip(s.minute);
    BareSeconds(s);
    assert t[16 + |WriteSeconds(s)|..] == "";
    assert !IsDigit(t[4]);
  }

  lemma BareSeconds(s: Stamp)
    requires ValidStamp(s)
    ensures |WriteClock(s) + WriteSeconds(s)| >= 16
    ensures ParseSeconds(WriteClock(s) + WriteSeconds(s)) == Ok((if s.second.Some? then s.second.value else 0, 16 + |WriteSeconds(s)|))
  {
    ClockFields(s, WriteSeconds(s));
    if s.second.Some? {
      assert (WriteClock(s) + WriteSeconds(s))[17..19] == WriteSeconds(s)[1..3] == Two(s.second.value);
      TwoRoundTrip(s.second.value);
    }
  }

  /** An offset shifts the time it is written with: east of UTC is earlier, west of it later. */
  lemma OffsetShifts(s: Stamp, west: bool, hours: nat, minutes: nat)
    requires ValidStamp(s.(zone := Zulu)) && ValidZone(Offset(west, hours, minutes))
    requires ParseTime(Write(s.(zone := Zulu))).Ok?
    ensures var here := ParseTime(Write(s.(zone := Zulu))).value;
      var there := ParseTime(Write(s.(zone := Offset(west, hours, minutes))));
      && here.Instant?
      && var shifted := here.seconds as int + (if west then 1 else -1) * (3600 * hours + 60 * minutes);
         there == if shifted < 0 then Err(BeforeEpoch) else Ok(Instant(shifted))
  {
    hide ParseTime, Write, DayNumber;
    WrittenStampParses(s.(zone := Zulu));
    WrittenStampParses(s.(zone := Offset(west, hours, minutes)));
  }

  /** The clock counts seconds: an hour, a minute and a second later is that much more. */
  lemma ClockCounts(s: Stamp)
    requires ValidStamp(s) && s.zone == Zulu
    ensures ParseTime(Write(s)).Ok? && ParseTime(Write(s)).value.Instant?
    ensures ParseTime(Write(s)).value.seconds
         == 86400 * DayNumber(s.date) + 3600 * s.hour + 60 * s.minute + if s.second.Some? then s.second.value else 0
  {
    hide ParseTime, Write, DayNumber;
    WrittenStampParses(s);
    NotBeforeEpoch(s.date);
  }

  lemma NotBeforeEpoch(d: Date)
    requires ValidDate(d) && d.year >= 1970
    ensures DayNumber(d) >= 0
  {
    EveryDateIsCounted(d);
    if DayNumber(d) < 0 {
      CountedBefore(DayNumber(d));
    }
  }

  lemma {:induction false} CountedBefore(n: int)
    requires n < 0
    ensures DayCount(n).year < 1970
    decreases -n
  {
    if n == -1 {
      assert DayCount(-1) == PreviousDay(DayCount(0));
    } else {
      CountedBefore(n + 1);
    }
  }

  lemma ZoneAccepted(t: string) returns (z: Zone)
    requires ParseZone(t).Ok? && ParseZone(t).value.Some?
    ensures ValidZone(z) && t == WriteZone(z) && ParseZone(t).value.value == ZoneSeconds(z)
  {
    if t == "Z" {
      z := Zulu;
    } else {
      TwoDigits(t[1..3]);
      TwoDigits(t[4..6]);
      z := Offset(t[0] == '-', DecimalValue(t[1..3]), DecimalValue(t[4..6]));
      assert t == t[..1] + t[1..3] + [t[3]] + t[4..6];
    }
  }

  lemma ClockAccepted(t: string, s: Stamp)
    requires |t| >= 16 && ValidStamp(s)
    requires t[0..4] == Four(s.date.year) && t[4] == '-' && t[5..7] == Two(s.date.month) && t[7] == '-'
    requires t[8..10] == Two(s.date.day) && t[10] == (if s.spaced then ' ' else 'T')
    requires t[11..13] == Two(s.hour) && t[13] == ':' && t[14..16] == Two(s.minute)
    ensures t[..16] == WriteClock(s)
  {
    assert t[..16] == t[0..4] + [t[4]] + t[5..7] + [t[7]] + t[8..10] + [t[10]] + t[11..13] + [t[13]] + t[14..16];
  }

  lemma FieldsAccepted(t: string) returns (s: Stamp)
    requires |t| >= 16 && ParseFields(t).Ok? && ParseFields(t).value.zone.Some?
    requires InCalendar(ParseFields(t).value)
    requires t[4] == '-' && t[7] == '-' && (t[10] == 'T' || t[10] == ' ') && t[13] == ':'
    ensures ValidStamp(s) && t == Write(s) && ParseFields(t).value == StampFields(s)
  {
    hide WriteClock, WriteZone, WriteSeconds, ParseZone, ParseSeconds, DecimalValue;
    FourDigits(t[0..4]);
    TwoDigits(t[5..7]);
    TwoDigits(t[8..10]);
    TwoDigits(t[11..13]);
    TwoDigits(t[14..16]);
    var f := ParseFields(t).value;
    var end := ParseSeconds(t).value.1;
    var zone := ZoneAccepted(t[end..]);
    s := Stamp(f.date, t[10] == ' ', f.hour, f.minute, if end == 19 then Some(f.second) else None, zone);
    ClockAccepted(t, s);
    SecondsAccepted(t, s);
    assert t == t[..16] + t[16..end] + t[end..];
  }

  lemma SecondsAccepted(t: string, s: Stamp)
    requires |t| >= 16 && ParseSeconds(t).Ok? && ValidStamp(s)
    requires s.second == if ParseSeconds(t).value.1 == 19 then Some(ParseSeconds(t).value.0) else None
    ensures t[16..ParseSeconds(t).value.1] == WriteSeconds(s)
  {
    if ParseSeconds(t).value.1 == 19 {
      TwoDigits(t[17..19]);
      assert t[16..19] == [t[16]] + t[17..19];
    }
  }

  /** Everything accepted with a zone is a valid stamp, read as the time it denotes. */
  lemma AcceptedIsWrittenStamp(t: string) returns (s: Stamp)
    requires ParseTime(t).Ok? && ParseTime(t).value.Instant? && !AllDigits(t)
    ensures ValidStamp(s) && t == Write(s) && ParseTime(t).value.seconds == StampSeconds(s)
  {
    s := FieldsAccepted(t);
  }

  // ----- The build stamp -----

  /** build.rs format_utc, as the stamp it prints (with a space, seconds and UTC). */
  function BuildStamp(seconds: int): Stamp {
    var rem := seconds % 86400;
    Stamp(CivilFromDays(seconds / 86400), true, rem / 3600, rem % 3600 / 60, Some(rem % 60), Zulu)
  }

  /** A build stamp has a space, seconds and the time of day in its parts. */
  lemma BuildStampForm(seconds: int)
    ensures var s := BuildStamp(seconds);
      && s.spaced && s.second.Some? && s.zone == Zulu
      && 0 <= s.hour <= 23 && 0 <= s.minute <= 59 && 0 <= s.second.value <= 59
      && 86400 * (seconds / 86400) + 3600 * s.hour + 60 * s.minute + s.second.value == seconds
  {
    ClockOfSecond(seconds % 86400);
  }

  lemma ClockOfSecond(rem: nat)
    requires rem < 86400
    ensures rem / 3600 <= 23 && rem % 3600 / 60 <= 59
    ensures rem / 3600 * 3600 + rem % 3600 / 60 * 60 + rem % 60 == rem
  {
    var hour, rest := rem / 3600, rem % 3600;
    assert rem == 60 * (60 * hour + rest / 60) + rest % 60;
  }

  lemma BuildStampSeconds(seconds: nat)
    requires CivilFromDays(seconds / 86400).year <= 9999
    ensures ValidStamp(BuildStamp(seconds))
    ensures StampSeconds(BuildStamp(seconds)) == seconds + 86400 * (DayNumber(CivilFromDays(seconds / 86400)) - seconds / 86400)
  {
    CivilIsValid(seconds / 86400);
    ClockOfSecond(seconds % 86400);
  }

  lemma CivilIsValid(days: nat)
    ensures ValidDate(CivilFromDays(days)) && CivilFromDays(days).year >= 1970
    ensures DayNumber(CivilFromDays(days)) >= days
  {
    var d := DayCount(days);
    DayNumberCountsDays(days);
    CivilInvertsDayNumber(d);
    NextDayNumber(d);
  }

  lemma StampReadsAs(s: Stamp, seconds: nat, shift: nat)
    requires ValidStamp(s) && StampSeconds(s) == seconds + 86400 * shift
    ensures ParseTime(Write(s)) == Ok(Instant(seconds)) <==> shift == 0
  {
    hide ParseTime, Write, StampSeconds, ValidStamp;
    WrittenStampParses(s);
  }

  /** Reading a build stamp back as UTC gives its second, except on the last day of a 400-year era. */
  lemma BuildStampRoundTrip(seconds: nat)
    requires CivilFromDays(seconds / 86400).year <= 9999
    ensures ValidStamp(BuildStamp(seconds))
    ensures ParseTime(Write(BuildStamp(seconds))) == Ok(Instant(seconds)) <==> !LastDayOfEra(seconds / 86400)
  {
    CivilIsValid(seconds / 86400);
    CivilCountsDays(seconds / 86400);
    BuildStampSeconds(seconds);
    StampReadsAs(BuildStamp(seconds), seconds, DayNumber(CivilFromDays(seconds / 86400)) - seconds / 86400);
  }

  /** What build.rs prints: the same stamp, with the suffix ` UTC` in place of the zone. */
  function PrintedStamp(s: Stamp): string
    requires ValidStamp(s)
  {
    WriteClock(s) + (WriteSeconds(s) + " UTC")
  }

  /** parse_time refuses that suffix, so a printed stamp has to be given a zone before it can be read back. */
  lemma PrintedStampIsRefused(s: Stamp)
    requires ValidStamp(s)
    ensures ParseTime(PrintedStamp(s)) == Err(BadSuffix)
  {
    hide Number, Two, Four, ParseSeconds, WriteSeconds, WriteClock, DecimalValue;
    var t := PrintedStamp(s);
    var rest := WriteSeconds(s) + " UTC";
    ClockFields(s, rest);
    FourRoundTrip(s.date.year);
    TwoRoundTrip(s.date.month);
    TwoRoundTrip(s.date.day);
    TwoRoundTrip(s.hour);
    TwoRoundTrip(s.minute);
    PrintedSeconds(s);
    assert t[16 + |WriteSeconds(s)|..] == " UTC";
    assert !IsDigit(t[4]);
  }

  lemma PrintedSeconds(s: Stamp)
    requires ValidStamp(s)
    ensures |PrintedStamp(s)| >= 16
    ensures ParseSeconds(PrintedStamp(s)) == Ok((if s.second.Some? then s.second.value else 0, 16 + |WriteSeconds(s)|))
  {
    var rest := WriteSeconds(s) + " UTC";
    ClockFields(s, rest);
    if s.second.Some? {
      assert PrintedStamp(s)[17..19] == rest[1..3] == Two(s.second.value);
      TwoRoundTrip(s.second.value);
    }
  }
}
