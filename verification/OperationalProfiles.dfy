/** Profiles of the synthetic workspace generator, and the timestamps it writes. */
module OperationalProfiles {
  import opened Wrappers

  datatype Profile = Profile(
    jobs: int,
    tasks: int,
    reportOnly: int,
    events: int,
    guardianReports: int,
    journals: int,
    triggers: int,
    keys: int)

  datatype ProfileError = NegativeCount | TooManyReportOnly | TooManyJournals | TooFewEvents | TooManyKeys

  /** The events that close all journals, jobs and tasks. */
  function RequiredEvents(p: Profile): int { p.journals + p.jobs * 2 + p.tasks * 2 + p.reportOnly * 2 }

  function ProfileFault(p: Profile): Option<ProfileError> {
    if p.jobs < 0 || p.tasks < 0 || p.reportOnly < 0 || p.events < 0 || p.guardianReports < 0
      || p.journals < 0 || p.triggers < 0 || p.keys < 0 then Some(NegativeCount)
    else if p.reportOnly > p.tasks then Some(TooManyReportOnly)
    else if p.journals > p.events then Some(TooManyJournals)
    else if RequiredEvents(p) > p.events then Some(TooFewEvents)
    else if p.keys > p.triggers then Some(TooManyKeys)
    else None
  }

  predicate Valid(p: Profile) { ProfileFault(p).None? }

  // ----- Decimal numbers -----

  function Digit(d: int): char
    requires 0 <= d < 10
  {
    '0' + d as char
  }

  function DigitValue(c: char): Option<int> {
    if '0' <= c <= '9' then Some((c - '0') as int) else None
  }

  function Decimal(n: nat): string {
    if n < 10 then [Digit(n)] else Decimal(n / 10) + [Digit(n % 10)]
  }

  /** Decimal with zeros in front, up to a width. */
  function Padded(n: nat, width: nat): (s: string)
    ensures |s| >= width
  {
    Zeros(width - |Decimal(n)|) + Decimal(n)
  }

  function Zeros(k: int): (s: string)
    ensures |s| == if k < 0 then 0 else k
  {
    if k <= 0 then "" else "0" + Zeros(k - 1)
  }

  /** The number a string of digits stands for. */
  function ValueOf(s: string): int {
    if s == "" then 0
    else ValueOf(s[..|s| - 1]) * 10 + (s[|s| - 1] as int - '0' as int)
  }

  lemma DigitReads(d: int)
    requires 0 <= d < 10
    ensures DigitValue(Digit(d)) == Some(d) && Digit(d) as int - '0' as int == d
  {
  }

  lemma {:induction false} DecimalValue(n: nat)
    ensures ValueOf(Decimal(n)) == n
  {
    DigitReads(n % 10);
    if n >= 10 {
      DecimalValue(n / 10);
      assert Decimal(n)[..|Decimal(n)| - 1] == Decimal(n / 10);
      assert n == n / 10 * 10 + n % 10;
    } else {
      DigitReads(n);
      assert [Digit(n)][..0] == "";
    }
  }

  lemma {:induction false} ZerosValue(k: int, s: string)
    ensures ValueOf(Zeros(k) + s) == ValueOf(s)
    decreases |s|, k
  {
    if s != "" {
      assert (Zeros(k) + s)[..|Zeros(k) + s| - 1] == Zeros(k) + s[..|s| - 1];
      ZerosValue(k, s[..|s| - 1]);
    } else if k > 0 {
      ZerosLast(k);
      assert Zeros(k) + s == Zeros(k);
      assert Zeros(k)[..k - 1] == Zeros(k - 1);
      ZerosValue(k - 1, "");
      assert Zeros(k - 1) + "" == Zeros(k - 1);
    } else {
      assert Zeros(k) + s == "";
    }
  }

  lemma {:induction false} ZerosLast(k: int)
    requires k > 0
    ensures Zeros(k)[k - 1] == '0' && Zeros(k)[..k - 1] == Zeros(k - 1)
  {
    if k > 1 {
      ZerosLast(k - 1);
    }
  }

  lemma PaddedValue(n: nat, width: nat)
    ensures ValueOf(Padded(n, width)) == n
  {
    ZerosValue(width - |Decimal(n)|, Decimal(n));
    DecimalValue(n);
  }

  /** Padding keeps numbers apart. */
  lemma PaddedInjective(m: nat, n: nat, width: nat)
    requires Padded(m, width) == Padded(n, width)
    ensures m == n
  {
    PaddedValue(m, width);
    PaddedValue(n, width);
  }

  // ----- Timestamps -----

  const Day := 86400
  const January := 31 * 86400

  function Format(ordinal: nat): string {
    var day, second := ordinal / Day, ordinal % Day;
    var hour, remainder := second / 3600, second % 3600;
    var minute, value := remainder / 60, remainder % 60;
    "2026-01-" + Padded(day + 1, 2) + "T" + Padded(hour, 2) + ":" + Padded(minute, 2) + ":" + Padded(value, 2) + "Z"
  }

  function TwoDigits(s: string, i: nat): Option<int>
    requires i + 2 <= |s|
  {
    var a, b := DigitValue(s[i]), DigitValue(s[i + 1]);
    if a.None? || b.None? then None else Some(a.value * 10 + b.value)
  }

  /** Seconds since the start of January 2026; nothing for a string that is no moment of that month. */
  function Parse(s: string): Option<int> {
    if |s| != 20 || s[..8] != "2026-01-" || s[10] != 'T' || s[13] != ':' || s[16] != ':' || s[19] != 'Z' then None
    else
      var day, hour, minute, second := TwoDigits(s, 8), TwoDigits(s, 11), TwoDigits(s, 14), TwoDigits(s, 17);
      if day.None? || hour.None? || minute.None? || second.None? then None
      else if !(1 <= day.value <= 31) || hour.value > 23 || minute.value > 59 || second.value > 59 then None
      else Some((day.value - 1) * Day + hour.value * 3600 + minute.value * 60 + second.value)
  }

  lemma Padded2(n: nat)
    requires n < 100
    ensures Padded(n, 2) == [Digit(n / 10), Digit(n % 10)]
  {
    if n >= 10 {
      assert Decimal(n) == Decimal(n / 10) + [Digit(n % 10)];
    } else {
      assert Zeros(1) == "0" + Zeros(0);
    }
  }

  lemma TwoDigitsRead(s: string, i: nat, n: nat)
    requires n < 100 && i + 2 <= |s| && s[i] == Digit(n / 10) && s[i + 1] == Digit(n % 10)
    ensures TwoDigits(s, i) == Some(n)
  {
    DigitReads(n / 10);
    DigitReads(n % 10);
  }

  function Layout(day: string, hour: string, minute: string, second: string): string {
    "2026-01-" + day + "T" + hour + ":" + minute + ":" + second + "Z"
  }

  lemma LayoutAt(day: string, hour: string, minute: string, second: string)
    requires |day| == |hour| == |minute| == |second| == 2
    ensures var s := Layout(day, hour, minute, second);
      && |s| == 20 && s[..8] == "2026-01-" && s[10] == 'T' && s[13] == ':' && s[16] == ':' && s[19] == 'Z'
      && s[8] == day[0] && s[9] == day[1] && s[11] == hour[0] && s[12] == hour[1]
      && s[14] == minute[0] && s[15] == minute[1] && s[17] == second[0] && s[18] == second[1]
  {
  }

  lemma Parts(ordinal: nat)
    ensures ordinal == ordinal / Day * Day + ordinal % Day / 3600 * 3600 + ordinal % Day % 3600 / 60 * 60 + ordinal % Day % 3600 % 60
    ensures ordinal % Day / 3600 < 24 && ordinal % Day % 3600 / 60 < 60
  {
  }

  lemma {:induction false} LongDecimal(n: nat)
    requires n >= 100
    ensures |Decimal(n)| >= 3
  {
    assert Decimal(n) == Decimal(n / 10) + [Digit(n % 10)];
    assert Decimal(n / 10) == Decimal(n / 10 / 10) + [Digit(n / 10 % 10)];
    assert |Decimal(n / 10 / 10)| >= 1;
  }

  lemma ShortDayParses(day: nat, hour: nat, minute: nat, second: nat)
    requires day < 100 && hour < 24 && minute < 60 && second < 60
    ensures Parse(Layout(Padded(day, 2), Padded(hour, 2), Padded(minute, 2), Padded(second, 2))) ==
      if 1 <= day <= 31 then Some((day - 1) * Day + hour * 3600 + minute * 60 + second) else None
  {
    Padded2(day);
    Padded2(hour);
    Padded2(minute);
    Padded2(second);
    var s := Layout(Padded(day, 2), Padded(hour, 2), Padded(minute, 2), Padded(second, 2));
    LayoutAt(Padded(day, 2), Padded(hour, 2), Padded(minute, 2), Padded(second, 2));
    TwoDigitsRead(s, 8, day);
    TwoDigitsRead(s, 11, hour);
    TwoDigitsRead(s, 14, minute);
    TwoDigitsRead(s, 17, second);
  }

  /** A written timestamp reads back as its ordinal exactly while the ordinal stays inside January. */
  lemma TimestampsRoundTrip(ordinal: nat)
    ensures Parse(Format(ordinal)) == if ordinal < January then Some(ordinal) else None
  {
    Parts(ordinal);
    var day := ordinal / Day + 1;
    var hour, minute, second := ordinal % Day / 3600, ordinal % Day % 3600 / 60, ordinal % Day % 3600 % 60;
    assert Format(ordinal) == Layout(Padded(day, 2), Padded(hour, 2), Padded(minute, 2), Padded(second, 2));
    if day < 100 {
      ShortDayParses(day, hour, minute, second);
    } else {
      LongDecimal(day);
      assert |Padded(day, 2)| >= 3;
      assert |Format(ordinal)| > 20;
    }
  }
}
