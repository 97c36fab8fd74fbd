/**
 Civil time of the PCF85063 clock chip: conversion to and from Unix time, and the
 seven-register block the chip stores.
 */
module RtcTime {
  import opened Calendar
  import Division

  /** A civil time; the year is a 16-bit field. */
  datatype Time = Time(year: nat, month: nat, day: nat, hour: nat, minute: nat, second: nat, weekday: nat) {
    function ToDate(): Date {
      Date(year, month, day)
    }

    predicate Valid() {
      ValidDate(ToDate()) && hour < 24 && minute < 60 && second < 60
    }
  }

  /** `rtc_time_to_epoch`. */
  function ToEpoch(t: Time): int {
    DaysFromCivil(t.ToDate()) * 86400 + t.hour * 3600 + t.minute * 60 + t.second
  }

  function DayOf(epoch: int): int {
    if Remainder(epoch, 86400) < 0 then Quotient(epoch, 86400) - 1 else Quotient(epoch, 86400)
  }

  function SecondOf(epoch: int): int {
    if Remainder(epoch, 86400) < 0 then Remainder(epoch, 86400) + 86400 else Remainder(epoch, 86400)
  }

  function WeekdayOf(days: int): int {
    var wd := Remainder(Remainder(days, 7) + 4, 7);
    if wd < 0 then wd + 7 else wd
  }

  lemma DayAndSecond(epoch: int)
    ensures epoch == DayOf(epoch) * 86400 + SecondOf(epoch) && 0 <= SecondOf(epoch) < 86400
    ensures 0 <= WeekdayOf(DayOf(epoch)) < 7
  {
    var days := DayOf(epoch);
    assert -7 < Remainder(days, 7) < 7;
  }

  /** `rtc_time_from_epoch`. */
  function FromEpoch(epoch: int): (t: Time)
  {
    var date := CivilFromDays(DayOf(epoch));
    var secs := SecondOf(epoch);
    DayAndSecond(epoch);
    DaysOfCivilOfDays(DayOf(epoch));
    Time(date.year % 0x1_0000, date.month, date.day, secs / 3600, secs % 3600 / 60, secs % 60,
         WeekdayOf(DayOf(epoch)))
  }

  // ---- Conversions are inverse --------------------------------------------------------

  /** The weekday is that of a week counted from Thursday 1970-01-01. */
  lemma WeekdayCountsDays(days: int)
    ensures WeekdayOf(days) == (days + 4) % 7
    ensures WeekdayOf(0) == 4
    ensures WeekdayOf(days + 1) == (WeekdayOf(days) + 1) % 7
  {
    WeekdayIsFloored(0);
    WeekdayIsFloored(days);
    WeekdayIsFloored(days + 1);
    hide WeekdayOf;
  }

  lemma WeekdayIsFloored(days: int)
    ensures WeekdayOf(days) == (days + 4) % 7
  {
    if days >= 0 {
      assert Remainder(days, 7) == days % 7;
    } else {
      assert Remainder(days, 7) == -((-days) % 7);
    }
  }

  lemma FromEpochIsValid(epoch: int)
    requires 0 <= CivilFromDays(DayOf(epoch)).year < 0x1_0000
    ensures FromEpoch(epoch).Valid() && FromEpoch(epoch).weekday < 7
    ensures FromEpoch(epoch).ToDate() == CivilFromDays(DayOf(epoch))
    ensures FromEpoch(epoch).month <= 12 && FromEpoch(epoch).day <= 31
  {
    DayAndSecond(epoch);
    DaysOfCivilOfDays(DayOf(epoch));
    hide CivilFromDays, DayOf, SecondOf, WeekdayOf, DaysFromCivil;
  }

  lemma ClockOfEpoch(epoch: int)
    ensures var t := FromEpoch(epoch); t.hour * 3600 + t.minute * 60 + t.second == SecondOf(epoch)
    ensures DaysFromCivil(CivilFromDays(DayOf(epoch))) * 86400 + SecondOf(epoch) == epoch
  {
    DayAndSecond(epoch);
    DaysOfCivilOfDays(DayOf(epoch));
    hide CivilFromDays, DayOf, SecondOf, WeekdayOf, DaysFromCivil;
  }

  /**
   Epoch to civil time and back is the identity exactly when the 16-bit year field can hold
   the year, and the civil time is then always valid.
   */
  lemma EpochRoundTrip(epoch: int)
    ensures ToEpoch(FromEpoch(epoch)) == epoch <==> 0 <= CivilFromDays(DayOf(epoch)).year < 0x1_0000
    ensures 0 <= CivilFromDays(DayOf(epoch)).year < 0x1_0000 ==> FromEpoch(epoch).Valid()
  {
    var date, t := CivilFromDays(DayOf(epoch)), FromEpoch(epoch);
    ClockOfEpoch(epoch);
    hide CivilFromDays, DayOf, SecondOf, WeekdayOf, DaysFromCivil;
    if 0 <= date.year < 0x1_0000 {
      FromEpochIsValid(epoch);
    } else {
      YearsSeparateDays(t.ToDate(), date);
    }
  }

  /** Dates with the same month and day in different years are different days. */
  lemma YearsSeparateDays(a: Date, b: Date)
    requires a.month == b.month && a.day == b.day && a.year != b.year
    ensures DaysFromCivil(a) != DaysFromCivil(b)
  {
    DaysByMarchYear(a);
    DaysByMarchYear(b);
    var low, high := if a.year < b.year then a else b, if a.year < b.year then b else a;
    MarchYearsGrow(MarchYear(low), MarchYear(high));
  }

  lemma MarchYearsGrow(low: int, high: int)
    requires low < high
    ensures DaysBeforeMarchYear(low) < DaysBeforeMarchYear(high)
  {
    assert low / 4 <= high / 4 && low / 400 <= high / 400;
    assert high / 100 - low / 100 <= high - low;
  }

  /** Valid civil time to epoch and back is the identity, weekday aside. */
  lemma CivilRoundTrip(t: Time)
    requires t.Valid() && t.year < 0x1_0000
    ensures FromEpoch(ToEpoch(t)) == t.(weekday := (DaysFromCivil(t.ToDate()) + 4) % 7)
  {
    hide CivilFromDays, WeekdayOf, DaysFromCivil, DayOf, SecondOf, ValidDate;
    var days := DaysFromCivil(t.ToDate());
    CivilOfDaysOfCivil(t.ToDate());
    WeekdayCountsDays(days);
    ClockDigits(t.hour, t.minute, t.second);
    var secs := t.hour * 3600 + t.minute * 60 + t.second;
    DayAndSecondOf(days, secs);
    assert ToEpoch(t) == days * 86400 + secs;
  }

  lemma DayAndSecondOf(days: int, secs: int)
    requires 0 <= secs < 86400
    ensures DayOf(days * 86400 + secs) == days && SecondOf(days * 86400 + secs) == secs
  {
    DayAndSecond(days * 86400 + secs);
    hide DayOf, SecondOf;
  }

  lemma ClockDigits(hour: nat, minute: nat, second: nat)
    requires minute < 60 && second < 60
    ensures var secs := hour * 3600 + minute * 60 + second;
            secs / 3600 == hour && secs % 3600 / 60 == minute && secs % 60 == second
  {
    var secs := hour * 3600 + minute * 60 + second;
    Division.Unique(secs, 3600, hour, minute * 60 + second);
    Division.Unique(minute * 60 + second, 60, minute, second);
    Division.Unique(secs, 60, hour * 60 + minute, second);
  }

  // ---- The POSIX formula --------------------------------------------------------------

  /** tm_yday: days since 1 January, summed month by month. */
  function DayOfYear(date: Date): int
    requires 1 <= date.month <= 12
    decreases date.month
  {
    if date.month == 1 then date.day - 1
    else DaysInMonth(date.year, date.month - 1) + DayOfYear(Date(date.year, date.month - 1, date.day))
  }

  /** Seconds Since the Epoch, section 4.16 of IEEE Std 1003.1-2017. */
  function PosixSeconds(t: Time): int
    requires t.Valid()
  {
    var tmYear := t.year - 1900;
    t.second + t.minute * 60 + t.hour * 3600 + DayOfYear(t.ToDate()) * 86400
    + (tmYear - 70) * 31536000 + ((tmYear - 69) / 4) * 86400
    - ((tmYear - 1) / 100) * 86400 + ((tmYear + 299) / 400) * 86400
  }

  lemma DaysOfYearInMarchYear(date: Date)
    requires ValidDate(date)
    ensures DaysFromCivil(date)
         == DaysBeforeMarchYear(date.year - 1) + 306 + DayOfYear(date) - 719468
  {
    var y, d := date.year, date.day;
    DaysByMarchYear(date);
    LeapDayInMarchYear(y);
    hide DaysFromCivil, DaysBeforeMarchYear, LeapYear;
    assert date.month in {1, 2, 3, 4, 5, 6, 7, 8, 9, 10, 11, 12};
    DayOfYearByMonth(date);
  }

  lemma DayOfYearByMonth(date: Date)
    requires ValidDate(date)
    ensures DayOfYear(date)
         == date.day - 1 + [0, 31, 59, 90, 120, 151, 181, 212, 243, 273, 304, 334][date.month - 1]
                         + if date.month > 2 && LeapYear(date.year) then 1 else 0
  {
    hide LeapYear;
    DayOfYearPartial(date.year, date.month, date.day);
  }

  lemma {:induction false} DayOfYearPartial(year: int, month: int, day: int)
    requires 1 <= month <= 12
    ensures DayOfYear(Date(year, month, day))
         == day - 1 + [0, 31, 59, 90, 120, 151, 181, 212, 243, 273, 304, 334][month - 1]
                    + if month > 2 && LeapYear(year) then 1 else 0
    decreases month
  {
    hide LeapYear;
    if month > 1 {
      DayOfYearPartial(year, month - 1, day);
    }
  }

  /** From 1970 on, the conversion computes the POSIX formula. */
  lemma EpochIsPosix(t: Time)
    requires t.Valid() && t.year >= 1970
    ensures ToEpoch(t) == PosixSeconds(t)
  {
    DaysOfYearInMarchYear(t.ToDate());
    var y := t.year - 1;
    assert (t.year - 1969) / 4 == y / 4 - 492;
    assert (t.year - 1901) / 100 == y / 100 - 19;
    assert (t.year - 1601) / 400 == y / 400 - 4;
  }

  // ---- The register block -------------------------------------------------------------

  /** `rtc_dec_to_bcd`, a byte to a byte: tens in the high nibble, cut to eight bits. */
  function ToBcd(d: nat): nat {
    (d / 10 * 16 + d % 10) % 256
  }

  /** `rtc_bcd_to_dec`. */
  function FromBcd(b: nat): nat {
    (b / 16 * 10 + b % 16) % 256
  }

  predicate Bytes(regs: seq<nat>) {
    |regs| == 7 && forall i :: 0 <= i < 7 ==> regs[i] < 256
  }

  /** What the seven registers 0x04..0x0A say; the top bit of the first is the oscillator-stop flag. */
  function TimeOf(regs: seq<nat>): Time
    requires Bytes(regs)
  {
    Time(2000 + FromBcd(regs[6]), FromBcd(regs[5] % 0x20), FromBcd(regs[3] % 0x40),
         FromBcd(regs[2] % 0x40), FromBcd(regs[1] % 0x80), FromBcd(regs[0] % 0x80), regs[4] % 8)
  }

  /** `pcf85063_encode`'s block for `t`, with the oscillator-stop flag clear. */
  function Registers(t: Time): (regs: seq<nat>)
    ensures Bytes(regs)
  {
    [ToBcd(t.second) % 0x80, ToBcd(t.minute) % 0x80, ToBcd(t.hour) % 0x40, ToBcd(t.day) % 0x40,
     t.weekday % 8, ToBcd(t.month) % 0x20, ToBcd(t.year % 100)]
  }

  /** The times the block can hold: as many decimal tens as each masked register keeps. */
  predicate Storable(t: Time) {
    && 2000 <= t.year <= 2099 && t.month < 20 && t.day < 40
    && t.hour < 40 && t.minute < 80 && t.second < 80 && t.weekday < 8
  }

  lemma BcdDigits(hi: nat, lo: nat)
    requires lo < 10
    ensures ToBcd(10 * hi + lo) == hi % 16 * 16 + lo
  {
    Division.Unique(10 * hi + lo, 10, hi, lo);
    Division.Unique(hi * 16 + lo, 256, hi / 16, hi % 16 * 16 + lo);
  }

  lemma BcdValue(hi: nat, lo: nat)
    requires hi < 16 && lo < 10
    ensures FromBcd(hi * 16 + lo) == 10 * hi + lo
  {
    Division.Unique(hi * 16 + lo, 16, hi, lo);
  }

  /** A byte survives a masked BCD register exactly when the register keeps all its tens. */
  lemma BcdRoundTrip(d: nat)
    requires d < 256
    ensures FromBcd(ToBcd(d) % 0x20) == d <==> d < 20
    ensures FromBcd(ToBcd(d) % 0x40) == d <==> d < 40
    ensures FromBcd(ToBcd(d) % 0x80) == d <==> d < 80
  {
    hide *;
    var hi, lo := d / 10, d % 10;
    assert d == 10 * hi + lo;
    BcdDigits(hi, lo);
    MaskedTens(hi, lo);
    BcdTensKept(hi, lo, 2);
    BcdTensKept(hi, lo, 4);
    BcdTensKept(hi, lo, 8);
  }

  lemma BcdTensKept(hi: nat, lo: nat, tens: nat)
    requires lo < 10 && 0 < tens <= 16
    ensures FromBcd(hi % tens * 16 + lo) == 10 * hi + lo <==> 10 * hi + lo < 10 * tens
  {
    BcdValue(hi % tens, lo);
    hide FromBcd;
    if hi < tens {
      Division.Unique(hi, tens, 0, hi);
    }
  }

  lemma MaskedTens(hi: nat, lo: nat)
    requires hi < 26 && lo < 10
    ensures (hi % 16 * 16 + lo) % 0x20 == hi % 2 * 16 + lo
    ensures (hi % 16 * 16 + lo) % 0x40 == hi % 4 * 16 + lo
    ensures (hi % 16 * 16 + lo) % 0x80 == hi % 8 * 16 + lo
  {
    var x := hi % 16;
    Division.Nested(hi, 2, 8);
    Division.Nested(hi, 4, 4);
    Division.Nested(hi, 8, 2);
    Division.Unique(x * 16 + lo, 0x20, x / 2, hi % 2 * 16 + lo);
    Division.Unique(x * 16 + lo, 0x40, x / 4, hi % 4 * 16 + lo);
    Division.Unique(x * 16 + lo, 0x80, x / 8, hi % 8 * 16 + lo);
  }

  lemma YearRoundTrip(year: nat)
    ensures FromBcd(ToBcd(year % 100)) == year % 100
  {
    var hi, lo := year % 100 / 10, year % 100 % 10;
    BcdDigits(hi, lo);
    BcdValue(hi, lo);
    hide ToBcd, FromBcd;
  }

  /** A byte-sized civil time is read back from its registers exactly when it is storable. */
  lemma RegistersRoundTrip(t: Time)
    requires t.month < 256 && t.day < 256 && t.hour < 256 && t.minute < 256 && t.second < 256
    ensures TimeOf(Registers(t)) == t <==> Storable(t)
  {
    hide FromBcd, ToBcd, TimeOf, Registers;
    BcdRoundTrip(t.second);
    BcdRoundTrip(t.minute);
    BcdRoundTrip(t.hour);
    BcdRoundTrip(t.day);
    BcdRoundTrip(t.month);
    YearRoundTrip(t.year);
    TimeOfRegisters(t);
    assert t.weekday % 8 == t.weekday <==> t.weekday < 8;
    assert 2000 + t.year % 100 == t.year <==> 2000 <= t.year <= 2099;
  }

  lemma TimeOfRegisters(t: Time)
    ensures TimeOf(Registers(t))
         == Time(2000 + FromBcd(ToBcd(t.year % 100)), FromBcd(ToBcd(t.month) % 0x20), FromBcd(ToBcd(t.day) % 0x40),
                 FromBcd(ToBcd(t.hour) % 0x40), FromBcd(ToBcd(t.minute) % 0x80), FromBcd(ToBcd(t.second) % 0x80),
                 t.weekday % 8)
  {
    hide ToBcd, FromBcd;
  }

  /** The field at each address of the chip's time block, 0x04 to 0x0A, as a number of at most two digits. */
  function FieldAt(t: Time, address: nat): nat
    requires t.year >= 2000
  {
    match address
    case 0x04 => t.second
    case 0x05 => t.minute
    case 0x06 => t.hour
    case 0x07 => t.day
    case 0x08 => t.weekday
    case 0x09 => t.month
    case _ => t.year - 2000
  }

  /** Each register holds the digits of its field: tens in the high nibble, units in the low one. */
  lemma RegisterHoldsField(t: Time, address: nat)
    requires Storable(t) && 0x04 <= address <= 0x0A
    ensures var (reg, field) := (Registers(t)[address - 4], FieldAt(t, address));
            reg / 16 == field / 10 && reg % 16 == field % 10
    ensures Registers(t)[0] < 0x80
  {
    hide ToBcd;
    RegistersAre(t);
    hide Registers;
    match address
    case 0x04 => BcdNibbles(t.second);
    case 0x05 => BcdNibbles(t.minute);
    case 0x06 => BcdNibbles(t.hour);
    case 0x07 => BcdNibbles(t.day);
    case 0x08 => OneDigit(t.weekday);
    case 0x09 => BcdNibbles(t.month);
    case _ => BcdNibbles(t.year - 2000);
  }

  lemma OneDigit(d: nat)
    requires d < 8
    ensures d % 8 == d && d / 16 == d / 10 == 0 && d % 16 == d % 10 == d
  {
  }

  lemma RegistersAre(t: Time)
    requires Storable(t)
    ensures var r := Registers(t);
            && r[0] == ToBcd(t.second) && r[1] == ToBcd(t.minute) && r[2] == ToBcd(t.hour) && r[3] == ToBcd(t.day)
            && r[4] == t.weekday && r[5] == ToBcd(t.month) && r[6] == ToBcd(t.year - 2000) && r[0] < 0x80
  {
    hide ToBcd;
    BcdNibbles(t.second);
    BcdNibbles(t.minute);
    BcdNibbles(t.hour);
    BcdNibbles(t.day);
    BcdNibbles(t.month);
    OneDigit(t.weekday);
    Division.Unique(t.year, 100, 20, t.year - 2000);
  }

  lemma BcdNibbles(d: nat)
    requires d < 100
    ensures ToBcd(d) < 256 && ToBcd(d) / 16 == d / 10 && ToBcd(d) % 16 == d % 10
    ensures d < 80 ==> ToBcd(d) % 0x80 == ToBcd(d) < 0x80
    ensures d < 40 ==> ToBcd(d) % 0x40 == ToBcd(d)
    ensures d < 20 ==> ToBcd(d) % 0x20 == ToBcd(d)
  {
    var hi, lo := d / 10, d % 10;
    assert d == 10 * hi + lo;
    BcdDigits(hi, lo);
    Division.Unique(hi, 16, 0, hi);
    Division.Unique(hi * 16 + lo, 16, hi, lo);
    hide ToBcd;
  }

  /** Unix time to civil time to registers and all the way back is the identity for 2000-2099. */
  lemma EpochThroughRegisters(epoch: int)
    requires 2000 <= CivilFromDays(DayOf(epoch)).year <= 2099
    ensures TimeOf(Registers(FromEpoch(epoch))) == FromEpoch(epoch)
    ensures ToEpoch(TimeOf(Registers(FromEpoch(epoch)))) == epoch
  {
    FromEpochIsValid(epoch);
    EpochRoundTrip(epoch);
    hide CivilFromDays, ToEpoch, DayOf, SecondOf, WeekdayOf, TimeOf, Registers, DaysFromCivil;
    RegistersRoundTrip(FromEpoch(epoch));
  }

  /** `pcf85063_encode`. */
  method Encode(t: Time, regs: array<nat>)
    requires regs.Length == 7
    modifies regs
    ensures regs[..] == Registers(t)
  {
    hide ToBcd;
    regs[0] := ToBcd(t.second) % 0x80;
    regs[1] := ToBcd(t.minute) % 0x80;
    regs[2] := ToBcd(t.hour) % 0x40;
    regs[3] := ToBcd(t.day) % 0x40;
    regs[4] := t.weekday % 8;
    regs[5] := ToBcd(t.month) % 0x20;
    regs[6] := ToBcd(t.year % 100);
  }

  /** `pcf85063_decode`: the stored time, and whether the oscillator kept running. */
  method Decode(regs: array<nat>) returns (oscillatorOk: bool, t: Time)
    requires Bytes(regs[..])
    ensures t == TimeOf(regs[..])
    ensures oscillatorOk <==> regs[0] < 0x80
  {
    hide FromBcd;
    oscillatorOk := regs[0] / 0x80 % 2 == 0;
    t := Time(2000, 1, 1, 0, 0, 0, 0);
    t := t.(second := FromBcd(regs[0] % 0x80));
    t := t.(minute := FromBcd(regs[1] % 0x80));
    t := t.(hour := FromBcd(regs[2] % 0x40));
    t := t.(day := FromBcd(regs[3] % 0x40));
    t := t.(weekday := regs[4] % 8);
    t := t.(month := FromBcd(regs[5] % 0x20));
    t := t.(year := 2000 + FromBcd(regs[6]));
  }
}
