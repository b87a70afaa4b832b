/** Times of day as the timer reads them ("HH:MM" scanned with %d:%d) and the daily window. */
module TimeOfDay {
  import opened Domotics
  import opened Numerals

  const MINUTES_PER_DAY := 1440

  // What %d:%d reads: hours and minutes.
  function ScanTime(s: string): Option<(int, int)> {
    var h := ScanInt(s, 0);
    if h.None? || h.value.1 >= |s| || s[h.value.1] != ':' then None else
    var m := ScanInt(s, h.value.1 + 1);
    if m.None? then None else Some((h.value.0, m.value.0))
  }

  // ---------------------------------------------------------------- accepted times

  function ValidateTimeFormat(s: string): Code {
    if |s| != 5 then ERR_INVALID_PARAMETERS
    else if s[2] != ':' then ERR_INVALID_PARAMETERS
    else if ScanTime(s).None? then ERR_INVALID_PARAMETERS
    else
      var (hours, minutes) := ScanTime(s).value;
      if hours < 0 || hours > 23 then ERR_INVALID_PARAMETERS
      else if minutes < 0 || minutes > 59 then ERR_INVALID_PARAMETERS
      else OK
  }

  predicate Accepted(s: string) {
    ValidateTimeFormat(s) == OK
  }

  function CompareTimes(a: string, b: string): int
    requires ScanTime(a).Some? && ScanTime(b).Some?
  {
    var (h1, m1) := ScanTime(a).value;
    var (h2, m2) := ScanTime(b).value;
    if h1 < h2 then -1 else if h1 > h2 then 1 else if m1 < m2 then -1 else if m1 > m2 then 1 else 0
  }

  // The minute of the day an accepted string stands for.
  function MinuteOf(s: string): (m: nat)
    requires Accepted(s)
    ensures m < MINUTES_PER_DAY
  {
    60 * ScanTime(s).value.0 + ScanTime(s).value.1
  }

  // Comparing accepted strings is comparing minutes of the day.
  lemma CompareIsMinuteOrder(a: string, b: string)
    requires Accepted(a) && Accepted(b)
    ensures CompareTimes(a, b) < 0 <==> MinuteOf(a) < MinuteOf(b)
    ensures CompareTimes(a, b) > 0 <==> MinuteOf(a) > MinuteOf(b)
    ensures CompareTimes(a, b) == 0 <==> MinuteOf(a) == MinuteOf(b)
  {
  }

  // The two characters of a number below 60, as %02d prints it.
  function TwoDigits(n: nat): (s: string)
    requires n < 100
    ensures |s| == 2
  {
    ['0' + (n / 10) as char, '0' + (n % 10) as char]
  }

  function ClockText(hour: nat, minute: nat): string
    requires hour < 24 && minute < 60
  {
    TwoDigits(hour) + ":" + TwoDigits(minute)
  }

  lemma TwoDigitsScan(s: string, i: nat, n: nat)
    requires n < 100 && i + 2 <= |s| && s[i..i + 2] == TwoDigits(n)
    requires i + 2 < |s| ==> !IsDigit(s[i + 2])
    ensures ScanInt(s, i) == Some((n, i + 2))
  {
    assert s[i] == s[i..i + 2][0] && s[i + 1] == s[i..i + 2][1];
    assert ScanDigits(s, i, 0) == ScanDigits(s, i + 1, n / 10) == ScanDigits(s, i + 2, n) == (n, i + 2);
  }

  // What the timer prints from the system clock is accepted and means that minute.
  lemma ClockTextAccepted(hour: nat, minute: nat)
    requires hour < 24 && minute < 60
    ensures Accepted(ClockText(hour, minute)) && MinuteOf(ClockText(hour, minute)) == 60 * hour + minute
  {
    var s := ClockText(hour, minute);
    assert s[0..2] == TwoDigits(hour) && s[3..5] == TwoDigits(minute) && s[2] == ':';
    TwoDigitsScan(s, 0, hour);
    TwoDigitsScan(s, 3, minute);
  }

  // Of the form HH:MM.
  ghost predicate IsClockText(s: string) {
    exists hour: nat, minute: nat :: hour < 24 && minute < 60 && s == ClockText(hour, minute)
  }

  lemma DigitsAreTwo(a: char, b: char)
    requires IsDigit(a) && IsDigit(b)
    ensures TwoDigits(10 * DigitValue(a) + DigitValue(b)) == [a, b]
  {
  }

  // Which of the accepted strings are of the form HH:MM: those with digits around the colon.
  lemma AcceptedForm(s: string)
    requires Accepted(s)
    ensures IsClockText(s) <==> IsDigit(s[0]) && IsDigit(s[1]) && IsDigit(s[3]) && IsDigit(s[4])
  {
    if IsDigit(s[0]) && IsDigit(s[1]) && IsDigit(s[3]) && IsDigit(s[4]) {
      var hour := 10 * DigitValue(s[0]) + DigitValue(s[1]);
      var minute := 10 * DigitValue(s[3]) + DigitValue(s[4]);
      DigitsAreTwo(s[0], s[1]);
      DigitsAreTwo(s[3], s[4]);
      assert s[0..2] == [s[0], s[1]] && s[3..5] == [s[3], s[4]];
      TwoDigitsScan(s, 0, hour);
      TwoDigitsScan(s, 3, minute);
      assert s == [s[0], s[1]] + ":" + [s[3], s[4]] == ClockText(hour, minute);
    }
    if IsClockText(s) {
      var hour: nat, minute: nat :| hour < 24 && minute < 60 && s == ClockText(hour, minute);
      assert IsDigit(s[0]) && IsDigit(s[1]) && IsDigit(s[3]) && IsDigit(s[4]);
    }
  }

  // The number that two characters stand for: two digits, or one digit after white space or a sign.
  function PairValue(a: char, b: char): Option<int> {
    if !IsDigit(b) then None
    else if IsDigit(a) then Some(10 * DigitValue(a) + DigitValue(b))
    else if IsSpace(a) || a == '+' then Some(DigitValue(b))
    else if a == '-' then Some(-(DigitValue(b) as int))
    else None
  }

  // As the minutes, one digit before anything else will do as well.
  function LastValue(a: char, b: char): Option<int> {
    if IsDigit(a) && !IsDigit(b) then Some(DigitValue(a)) else PairValue(a, b)
  }

  lemma NoDigit(s: string, i: nat)
    requires i <= |s| && (i < |s| ==> !IsDigit(s[i]))
    ensures ScanDigits(s, i, 0) == (0, i)
  {
  }

  lemma OneDigit(s: string, i: nat)
    requires i < |s| && IsDigit(s[i]) && (i + 1 < |s| ==> !IsDigit(s[i + 1]))
    ensures ScanDigits(s, i, 0) == (DigitValue(s[i]), i + 1)
  {
    assert ScanDigits(s, i, 0) == ScanDigits(s, i + 1, DigitValue(s[i]));
  }

  lemma PairScan(s: string, i: nat)
    requires i + 2 <= |s| && (i + 2 < |s| ==> s[i + 2] == ':')
    ensures PairValue(s[i], s[i + 1]).Some? ==> ScanInt(s, i) == Some((PairValue(s[i], s[i + 1]).value, i + 2))
    ensures PairValue(s[i], s[i + 1]).None? ==>
      ScanInt(s, i) == if IsDigit(s[i]) then Some((DigitValue(s[i]) as int, i + 1)) else None
  {
    if IsDigit(s[i]) && IsDigit(s[i + 1]) {
      DigitsAreTwo(s[i], s[i + 1]);
      assert s[i..i + 2] == [s[i], s[i + 1]];
      TwoDigitsScan(s, i, 10 * DigitValue(s[i]) + DigitValue(s[i + 1]));
    } else if IsDigit(s[i]) {
      OneDigit(s, i);
    } else if IsDigit(s[i + 1]) {
      OneDigit(s, i + 1);
      NoDigit(s, i);
      assert SkipSpace(s, i + 1) == i + 1;
      assert SkipSpace(s, i) == if IsSpace(s[i]) then i + 1 else i;
    } else {
      NoDigit(s, i);
      NoDigit(s, i + 1);
      NoDigit(s, i + 2);
      assert SkipSpace(s, i + 2) == i + 2;
      assert SkipSpace(s, i + 1) == if IsSpace(s[i + 1]) then i + 2 else i + 1;
      assert SkipSpace(s, i) == if IsSpace(s[i]) then SkipSpace(s, i + 1) else i;
    }
  }

  // Exactly which strings are accepted, and the minute each stands for.
  lemma AcceptedExactly(s: string)
    ensures Accepted(s) <==>
      && |s| == 5 && s[2] == ':'
      && PairValue(s[0], s[1]).Some? && 0 <= PairValue(s[0], s[1]).value < 24
      && LastValue(s[3], s[4]).Some? && 0 <= LastValue(s[3], s[4]).value < 60
    ensures Accepted(s) ==> MinuteOf(s) == 60 * PairValue(s[0], s[1]).value + LastValue(s[3], s[4]).value
  {
    if |s| == 5 && s[2] == ':' {
      PairScan(s, 0);
      PairScan(s, 3);
      assert ScanInt(s, 2).None?;
    }
  }

  // Not only two digits, a colon and two digits are accepted.
  lemma LooseTimeAccepted()
    ensures Accepted(" 7:+5") && MinuteOf(" 7:+5") == 425
  {
    var s := " 7:+5";
    assert SkipSpace(s, 0) == SkipSpace(s, 1) == 1;
    assert ScanDigits(s, 1, 0) == ScanDigits(s, 2, 7) == (7, 2);
    assert ScanDigits(s, 4, 0) == ScanDigits(s, 5, 5) == (5, 5);
  }

  // ---------------------------------------------------------------- the daily window

  // The timer's three-way test, on strings.
  predicate IsOn(now: string, begin: string, end: string)
    requires Accepted(now) && Accepted(begin) && Accepted(end)
  {
    if CompareTimes(begin, end) < 0 then CompareTimes(now, begin) >= 0 && CompareTimes(now, end) < 0
    else if CompareTimes(begin, end) > 0 then CompareTimes(now, begin) >= 0 || CompareTimes(now, end) < 0
    else false
  }

  // The specification: fewer minutes have passed since `begin` than the window is long, on the
  // circle of the day.
  predicate InWindow(now: nat, begin: nat, end: nat) {
    (now - begin) % MINUTES_PER_DAY < (end - begin) % MINUTES_PER_DAY
  }

  lemma DayMod(a: int)
    requires -MINUTES_PER_DAY < a < MINUTES_PER_DAY
    ensures a % MINUTES_PER_DAY == if a < 0 then a + MINUTES_PER_DAY else a
  {
  }

  // From the begin up to but not including the end, past midnight if the end comes first; an empty
  // window is never on.
  lemma WindowIs(now: nat, begin: nat, end: nat)
    requires now < MINUTES_PER_DAY && begin < MINUTES_PER_DAY && end < MINUTES_PER_DAY
    ensures InWindow(now, begin, end) <==>
      if begin <= end then begin <= now < end else now >= begin || now < end
  {
    DayMod(now - begin);
    DayMod(end - begin);
  }

  lemma WindowIsModular(now: string, begin: string, end: string)
    requires Accepted(now) && Accepted(begin) && Accepted(end)
    ensures IsOn(now, begin, end) <==> InWindow(MinuteOf(now), MinuteOf(begin), MinuteOf(end))
  {
    CompareIsMinuteOrder(begin, end);
    CompareIsMinuteOrder(now, begin);
    CompareIsMinuteOrder(now, end);
    DayMod(MinuteOf(now) - MinuteOf(begin));
    DayMod(MinuteOf(end) - MinuteOf(begin));
  }

  // How many of the first `k` minutes of the day are in the window.
  function OnMinutes(k: nat, begin: nat, end: nat): nat {
    if k == 0 then 0 else OnMinutes(k - 1, begin, end) + (if InWindow(k - 1, begin, end) then 1 else 0)
  }

  function Clamp(k: int, low: int, high: int): int {
    if k < low then low else if k > high then high else k
  }

  lemma {:induction false} OnMinutesSoFar(k: nat, begin: nat, end: nat)
    requires k <= MINUTES_PER_DAY && begin < MINUTES_PER_DAY && end < MINUTES_PER_DAY
    ensures OnMinutes(k, begin, end) ==
      if begin <= end then Clamp(k, begin, end) - begin
      else Clamp(k, 0, end) + Clamp(k, begin, MINUTES_PER_DAY) - begin
  {
    if k > 0 {
      OnMinutesSoFar(k - 1, begin, end);
      DayMod(k - 1 - begin);
      DayMod(end - begin);
    }
  }

  // Every day the window is on for exactly its length.
  lemma OnMinutesPerDay(begin: nat, end: nat)
    requires begin < MINUTES_PER_DAY && end < MINUTES_PER_DAY
    ensures OnMinutes(MINUTES_PER_DAY, begin, end) == (end - begin) % MINUTES_PER_DAY
  {
    OnMinutesSoFar(MINUTES_PER_DAY, begin, end);
    DayMod(end - begin);
  }
}
