/** FAT dates: seconds since 1970 to the packed date and time words, and back. */
module Calendar {
  import opened Bytes

  /** 1980-01-01, where FAT starts counting. */
  const FAT_EPOCH := 315_532_800
  const DAY := 86_400

  predicate Leap(y: nat) {
    (y % 4 == 0 && y % 100 != 0) || y % 400 == 0
  }

  function YearLength(y: nat): nat {
    if Leap(y) then 366 else 365
  }

  /** Days from 1970-01-01 to the first of January of `y`. */
  function DaysBefore(y: nat): (d: nat)
    requires 1970 <= y
    ensures 365 * (y - 1970) <= d <= 366 * (y - 1970)
  {
    if y == 1970 then 0 else DaysBefore(y - 1) + YearLength(y - 1)
  }

  /** Days in month `m`, counted from zero, of a plain year. */
  function PlainLength(m: nat): nat
    requires m < 12
  {
    [31, 28, 31, 30, 31, 30, 31, 31, 30, 31, 30, 31][m]
  }

  function MonthLength(y: nat, m: nat): nat
    requires m < 12
  {
    PlainLength(m) + if m == 1 && Leap(y) then 1 else 0
  }

  /** Days of year `y` before month `m`. */
  function MonthStart(y: nat, m: nat): nat
    requires m <= 12
  {
    if m == 0 then 0 else MonthStart(y, m - 1) + MonthLength(y, m - 1)
  }

  /** The table the decoder uses, with its leap-day correction, is the running sum. */
  lemma Cumulative(y: nat, m: nat)
    requires m <= 12
    ensures MonthStart(y, m)
      == [0, 31, 59, 90, 120, 151, 181, 212, 243, 273, 304, 334, 365][m] + if Leap(y) && m >= 2 then 1 else 0
  {
    if m > 0 {
      Cumulative(y, m - 1);
    }
  }

  /** A date word is a real day: `y` years after 1980, month and day counted from zero. */
  predicate Packs(date: u16, y: nat, m: nat, d: nat) {
    y < 128 && m < 12 && d < MonthLength(1980 + y, m) && date == y * 512 + (m + 1) * 32 + (d + 1)
  }

  /** A date word for the day `n` days after 1970-01-01. */
  ghost predicate IsDay(date: u16, n: nat) {
    exists y: nat, m: nat, d: nat :: Packs(date, y, m, d) && DayNumber(y, m, d) == n
  }

  function DayNumber(y: nat, m: nat, d: nat): nat
    requires m < 12
  {
    DaysBefore(1980 + y) + MonthStart(1980 + y, m) + d
  }

  /** Two-second units, as the format counts them. */
  predicate PacksTime(time: u16, secs: nat) {
    secs < DAY && time == secs / 3600 * 2048 + secs % 3600 / 60 * 32 + secs % 60 / 2
  }

  method YearOf(days0: nat) returns (year: nat, days: nat)
    ensures 1980 <= year && days < YearLength(year) && DaysBefore(year) + days == DaysBefore(1980) + days0
  {
    hide Leap;
    year, days := 1980, days0;
    while days >= YearLength(year)
      invariant 1980 <= year && DaysBefore(year) + days == DaysBefore(1980) + days0
      decreases days
    {
      days := days - YearLength(year);
      year := year + 1;
    }
  }

  method MonthOf(year: nat, days0: nat) returns (month: nat, days: nat)
    requires days0 < YearLength(year)
    ensures month < 12 && days < MonthLength(year, month) && MonthStart(year, month) + days == days0
  {
    month, days := 0, days0;
    Cumulative(year, 12);
    hide Leap, MonthLength;
    while month < 12 && days >= MonthLength(year, month)
      invariant month <= 12 && MonthStart(year, month) + days == days0
    {
      days := days - MonthLength(year, month);
      month := month + 1;
    }
  }

  /** The Gregorian rule: a leap day every fourth year, but not every hundredth, but every four-hundredth. */
  lemma {:induction false} Gregorian(y: nat)
    requires 1970 <= y
    ensures DaysBefore(y) == 365 * (y - 1970) + (y - 1) / 4 - (y - 1) / 100 + (y - 1) / 400 - 477
  {
    hide YearLength;
    if y > 1970 {
      Gregorian(y - 1);
      OneYear(y - 1);
    }
  }

  lemma OneYear(y: nat)
    requires 0 < y
    ensures YearLength(y)
      == 365 + (y / 4 - (y - 1) / 4) - (y / 100 - (y - 1) / 100) + (y / 400 - (y - 1) / 400)
  {
    Quotient(y, 4);
    Quotient(y, 100);
    Quotient(y, 400);
    Divides(y);
  }

  lemma Divides(y: nat)
    ensures y % 100 == 0 ==> y % 4 == 0
    ensures y % 400 == 0 ==> y % 100 == 0
  {
    if y % 100 == 0 {
      assert y == 4 * (25 * (y / 100));
      Digits(25 * (y / 100), 4, 0);
    }
    if y % 400 == 0 {
      assert y == 100 * (4 * (y / 400));
      Digits(4 * (y / 400), 100, 0);
    }
  }

  lemma Quotient(x: nat, n: nat)
    requires 0 < x && 1 < n
    ensures x / n == (x - 1) / n + if x % n == 0 then 1 else 0
  {
    var q, r := x / n, x % n;
    assert x == n * q + r;
    if r == 0 {
      assert x - 1 == n * (q - 1) + (n - 1);
      Digits(q - 1, n, n - 1);
    } else {
      Digits(q, n, r - 1);
    }
  }

  /** February is as long as the distance between two first of Januaries says, and the months fill the year. */
  lemma MonthsFill(y: nat)
    requires 1970 <= y
    ensures MonthLength(y, 1) == (if DaysBefore(y + 1) - DaysBefore(y) == 366 then 29 else 28)
    ensures DaysBefore(y) + MonthStart(y, 12) == DaysBefore(y + 1)
  {
    Cumulative(y, 12);
    hide Leap;
  }

  lemma TenYears()
    ensures DaysBefore(1980) == 3652
  {
    Gregorian(1980);
  }

  /** The leap day of 2000 is the 11016th day, and is written as the 29th of its second month. */
  lemma LeapDay()
    ensures IsDay(10333, 11016)
  {
    hide DaysBefore, MonthStart, MonthLength;
    Year2000();
    assert Packs(10333, 20, 1, 28) && DayNumber(20, 1, 28) == 11016;
  }

  lemma Year2000()
    ensures DaysBefore(2000) == 10957 && MonthStart(2000, 1) == 31 && MonthLength(2000, 1) == 29
  {
    Gregorian(2000);
    Gregorian(2001);
    Cumulative(2000, 1);
    MonthsFill(2000);
    hide DaysBefore, MonthStart, MonthLength;
  }

  /** A date word stands for one day. */
  lemma OneDay(date: u16, n: nat, k: nat)
    requires IsDay(date, n) && IsDay(date, k)
    ensures n == k
  {
    hide MonthLength, DayNumber, DateDays, MonthField;
    var y: nat, m: nat, d: nat :| Packs(date, y, m, d) && DayNumber(y, m, d) == n;
    DateFields(date, y, m, d);
    var y2: nat, m2: nat, d2: nat :| Packs(date, y2, m2, d2) && DayNumber(y2, m2, d2) == k;
    DateFields(date, y2, m2, d2);
  }

  /** The date and time words for `epoch` (fat_time_encode). */
  method TimeEncode(epoch: u32) returns (date: u16, time: u16)
    ensures epoch < FAT_EPOCH ==> Packs(date, 0, 0, 0) && time == 0
    ensures epoch >= FAT_EPOCH ==> IsDay(date, epoch / DAY)
    ensures epoch >= FAT_EPOCH ==> PacksTime(time, epoch % DAY)
  {
    if epoch < FAT_EPOCH {
      return 33, 0;
    }
    hide Leap, MonthStart, MonthLength, YearLength;
    var secs := epoch - FAT_EPOCH;
    var days, rem := secs / DAY, secs % DAY;
    Shift(secs);
    TenYears();
    var year, inYear := YearOf(days);
    var month, inMonth := MonthOf(year, inYear);
    Short(year, month, inMonth);
    assert DaysBefore(year) <= epoch / DAY <= 49_710;
    var y: int := if year - 1980 > 127 then 127 else year - 1980;
    assert DayNumber(y, month, inMonth) == epoch / DAY;
    date := y * 512 + (month + 1) * 32 + (inMonth + 1);
    assert Packs(date, y, month, inMonth);
    TimeFits(rem);
    time := rem / 3600 * 2048 + rem % 3600 / 60 * 32 + rem % 60 / 2;
  }

  /** FAT starts counting on a day boundary. */
  lemma Shift(secs: nat)
    ensures (secs + FAT_EPOCH) / DAY == secs / DAY + 3652 && (secs + FAT_EPOCH) % DAY == secs % DAY
  {
    assert secs + FAT_EPOCH == DAY * (secs / DAY + 3652) + secs % DAY;
    Digits(secs / DAY + 3652, DAY, secs % DAY);
  }

  lemma TimeFits(rem: nat)
    requires rem < DAY
    ensures 0 <= rem / 3600 < 24 && 0 <= rem % 3600 / 60 < 60 && 0 <= rem % 60 / 2 < 30
  {
  }

  lemma Short(y: nat, m: nat, d: nat)
    requires m < 12 && d < MonthLength(y, m)
    ensures d < 31
  {
  }

  // The date word's three fields.

  function YearField(date: u16): (y: nat)
    ensures 1980 <= y
  {
    1980 + date / 512
  }

  function MonthField(date: u16): nat {
    date / 32 % 16
  }

  function DayField(date: u16): nat {
    date % 32
  }

  lemma ZeroDate()
    ensures MonthField(0) == 0
  {
  }

  /** What the decoder takes for a date: no zero month or day. */
  predicate Dated(date: u16) {
    MonthField(date) != 0 && DayField(date) != 0
  }

  function DateDays(date: u16): nat
    requires Dated(date) && MonthField(date) <= 12
  {
    DaysBefore(YearField(date)) + MonthStart(YearField(date), MonthField(date) - 1) + DayField(date) - 1
  }

  function TimeSecs(time: u16): nat {
    time / 2048 * 3600 + time / 32 % 64 * 60 + time % 32 * 2
  }

  /** Seconds since 1970 of a date and time word; zero for no date. A month field over 12 is not a date. */
  function Epoch(date: u16, time: u16): u32
    requires MonthField(date) <= 12
  {
    if Dated(date) then Seconds(DateDays(date), TimeSecs(time)) else 0
  }

  function Seconds(days: nat, secs: nat): u32 {
    (days * DAY + secs) % W32
  }

  /** The decoder (fat_epoch). */
  method FatEpoch(date: u16, time: u16) returns (r: u32)
    requires MonthField(date) <= 12
    ensures r == Epoch(date, time)
  {
    ZeroDate();
    hide YearField, MonthField, DayField;
    var year, month, day := YearField(date), MonthField(date), DayField(date);
    if date == 0 || month == 0 || day == 0 {
      return 0;
    }
    hide DaysBefore, MonthStart;
    var days := DaysTo(year, month - 1);
    days := days + day - 1;
    assert days == DateDays(date);
    hide DateDays, Seconds;
    var secs := time / 2048 * 3600 + time / 32 % 64 * 60 + time % 32 * 2;
    r := Seconds(days, secs);
  }

  /** Days from 1970 to the start of month `m` (from zero) of `year`. */
  method DaysTo(year: nat, m: nat) returns (days: nat)
    requires 1970 <= year && m < 12
    ensures days == DaysBefore(year) + MonthStart(year, m)
  {
    hide Leap, MonthStart;
    days := 0;
    for y := 1970 to year
      invariant days == DaysBefore(y)
    {
      days := days + YearLength(y);
    }
    hide DaysBefore;
    var cum := [0, 31, 59, 90, 120, 151, 181, 212, 243, 273, 304, 334];
    Cumulative(year, m);
    days := days + cum[m];
    if Leap(year) && m >= 2 {
      days := days + 1;
    }
  }

  lemma DateFields(date: u16, y: nat, m: nat, d: nat)
    requires Packs(date, y, m, d)
    ensures MonthField(date) <= 12 && Dated(date) && DateDays(date) == DayNumber(y, m, d)
  {
    Short(1980 + y, m, d);
    hide MonthLength, MonthStart, DaysBefore;
    Fields(date, y, m + 1, d + 1);
  }

  lemma Fields(date: u16, y: nat, m: nat, d: nat)
    requires m < 16 && d < 32 && date == y * 512 + m * 32 + d
    ensures date / 512 == y && date / 32 % 16 == m && date % 32 == d
  {
    Digits(16 * y + m, 32, d);
    Digits(y, 16, m);
  }

  lemma TimeFields(time: u16, secs: nat)
    requires PacksTime(time, secs)
    ensures TimeSecs(time) == secs / 2 * 2
  {
    var h, n, s := secs / 3600, secs % 3600 / 60, secs % 60 / 2;
    TimeFits(secs);
    Digits(64 * h + n, 32, s);
    Digits(h, 64, n);
    Clock(secs);
  }

  lemma Clock(secs: nat)
    ensures secs / 3600 * 3600 + secs % 3600 / 60 * 60 + secs % 60 / 2 * 2 == secs / 2 * 2
  {
    var r := secs % 3600;
    Digits(60 * (secs / 3600) + r / 60, 60, r % 60);
    assert secs == 60 * (60 * (secs / 3600) + r / 60) + r % 60;
    assert secs == 2 * (30 * (60 * (secs / 3600) + r / 60) + r % 60 / 2) + r % 60 % 2;
    Digits(30 * (60 * (secs / 3600) + r / 60) + r % 60 / 2, 2, r % 60 % 2);
  }

  lemma Decodes(date: u16, time: u16, epoch: u32)
    requires IsDay(date, epoch / DAY) && PacksTime(time, epoch % DAY)
    ensures MonthField(date) <= 12 && Epoch(date, time) == epoch / 2 * 2
  {
    hide PacksTime, DateDays, TimeSecs, MonthLength, DayNumber;
    var y: nat, m: nat, d: nat :| Packs(date, y, m, d) && DayNumber(y, m, d) == epoch / DAY;
    DateFields(date, y, m, d);
    TimeFields(time, epoch % DAY);
    var n, s := epoch / DAY, epoch % DAY;
    hide Seconds;
    EvenEpoch(epoch);
  }

  lemma EvenEpoch(epoch: u32)
    ensures Seconds(epoch / DAY, epoch % DAY / 2 * 2) == epoch / 2 * 2
  {
    var n, s := epoch / DAY, epoch % DAY;
    assert epoch == 2 * (43_200 * n + s / 2) + s % 2;
    Digits(43_200 * n + s / 2, 2, s % 2);
    Unwrapped(epoch / 2 * 2);
  }

  lemma Earliest()
    ensures Epoch(33, 0) == FAT_EPOCH
  {
    TenYears();
    hide DaysBefore;
    assert YearField(33) == 1980 && MonthField(33) == 1 && DayField(33) == 1 && TimeSecs(0) == 0;
    hide YearField, MonthField, DayField, TimeSecs;
    assert MonthStart(1980, 0) == 0;
    hide MonthStart;
    Unwrapped(FAT_EPOCH);
  }

  /** Decoding what was encoded gives the time back to the even second; before 1980, 1980-01-01. */
  method RoundTrip(epoch: u32) returns (back: u32)
    ensures back == if epoch < FAT_EPOCH then FAT_EPOCH else epoch / 2 * 2
  {
    var date, time := TimeEncode(epoch);
    hide Epoch, IsDay, PacksTime, MonthLength;
    if epoch < FAT_EPOCH {
      Earliest();
    } else {
      Decodes(date, time, epoch);
    }
    back := FatEpoch(date, time);
  }
}
