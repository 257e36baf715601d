/**
 The UTC timestamp of a fork name (`conflict/fork.rs`): seconds since the epoch become a
 date and time by two counting loops, then fixed-width text.  The date is proved to be the
 one with that many days before it, and the text to determine the second.
 */
module Calendar {
  import opened Decimal

  predicate IsLeap(y: nat) {
    (y % 4 == 0 && y % 100 != 0) || y % 400 == 0
  }

  function DaysInYear(y: nat): nat {
    if IsLeap(y) then 366 else 365
  }

  function DaysInMonth(y: nat, m: nat): nat
    requires 1 <= m <= 12
  {
    if m == 2 then (if IsLeap(y) then 29 else 28)
    else if m == 4 || m == 6 || m == 9 || m == 11 then 30
    else 31
  }

  datatype Civil = Civil(year: nat, month: nat, day: nat, hour: nat, minute: nat, second: nat) {
    predicate Real() {
      && year >= 1970 && 1 <= month <= 12 && 1 <= day <= DaysInMonth(year, month)
      && hour < 24 && minute < 60 && second < 60
    }
  }

  // ---------------------------------------------------------------- counting days

  function DaysBeforeYear(y: nat): nat
    requires y >= 1970
  {
    if y == 1970 then 0 else DaysBeforeYear(y - 1) + DaysInYear(y - 1)
  }

  function DaysBeforeMonth(y: nat, m: nat): nat
    requires 1 <= m <= 13
  {
    if m == 1 then 0 else DaysBeforeMonth(y, m - 1) + DaysInMonth(y, m - 1)
  }

  /** The second a civil time names. */
  function SecondsOf(c: Civil): nat
    requires c.Real()
  {
    var days := DaysBeforeYear(c.year) + DaysBeforeMonth(c.year, c.month) + c.day - 1;
    ((days * 24 + c.hour) * 60 + c.minute) * 60 + c.second
  }

  /** The months of a year begin after 31, 59, 90, … days, one later from March on in a leap year. */
  lemma MonthsAreGregorian(y: nat, m: nat)
    requires 1 <= m <= 13
    ensures DaysBeforeMonth(y, m) ==
              [0, 31, 59, 90, 120, 151, 181, 212, 243, 273, 304, 334, 365][m - 1] + (if m > 2 && IsLeap(y) then 1 else 0)
  {
    assert DaysBeforeMonth(y, 2) == 31;
    assert DaysBeforeMonth(y, 3) == 31 + DaysInMonth(y, 2);
    assert DaysBeforeMonth(y, 4) == DaysBeforeMonth(y, 3) + 31;
    assert DaysBeforeMonth(y, 5) == DaysBeforeMonth(y, 3) + 61;
    assert DaysBeforeMonth(y, 6) == DaysBeforeMonth(y, 3) + 92;
    assert DaysBeforeMonth(y, 7) == DaysBeforeMonth(y, 3) + 122;
    assert DaysBeforeMonth(y, 8) == DaysBeforeMonth(y, 3) + 153;
    assert DaysBeforeMonth(y, 9) == DaysBeforeMonth(y, 3) + 184;
    assert DaysBeforeMonth(y, 10) == DaysBeforeMonth(y, 3) + 214;
    assert DaysBeforeMonth(y, 11) == DaysBeforeMonth(y, 3) + 245;
    assert DaysBeforeMonth(y, 12) == DaysBeforeMonth(y, 3) + 275;
  }

  lemma YearLength(y: nat)
    ensures DaysBeforeMonth(y, 13) == DaysInYear(y)
  {
    MonthsAreGregorian(y, 13);
  }

  /** The Gregorian rule in closed form: 365 days a year, one more every fourth, none every
      hundredth, one every four-hundredth. */
  lemma {:induction false} YearsAreGregorian(y: nat)
    requires y >= 1970
    ensures DaysBeforeYear(y) == 365 * (y - 1970) + (y - 1) / 4 - (y - 1) / 100 + (y - 1) / 400 - 477
  {
    if y > 1970 {
      YearsAreGregorian(y - 1);
      LeapAdds(y - 1);
    }
  }

  lemma LeapAdds(y: nat)
    requires y > 0
    ensures y / 4 - y / 100 + y / 400 == (y - 1) / 4 - (y - 1) / 100 + (y - 1) / 400 + if IsLeap(y) then 1 else 0
  {
    Crosses(y, 4);
    Crosses(y, 100);
    Crosses(y, 400);
  }

  lemma Crosses(y: nat, m: nat)
    requires y > 0 && (m == 4 || m == 100 || m == 400)
    ensures y / m == (y - 1) / m + if y % m == 0 then 1 else 0
  {
  }

  /** `unix_to_ymd_hms`: a real date and time that names exactly the given second. */
  method Decompose(secs: nat) returns (c: Civil)
    ensures c.Real() && SecondsOf(c) == secs
  {
    var second, minutes := secs % 60, secs / 60;
    var minute, hours := minutes % 60, minutes / 60;
    var hour, days := hours % 24, hours / 24;
    var year, rem := 1970, days;
    while rem >= DaysInYear(year)
      invariant year >= 1970 && rem >= 0 && days == DaysBeforeYear(year) + rem
      decreases rem
    {
      rem := rem - DaysInYear(year);
      year := year + 1;
    }
    YearLength(year);
    var month := 1;
    ghost var start := rem;
    while rem >= DaysInMonth(year, month)
      invariant 1 <= month <= 12 && rem >= 0 && start == DaysBeforeMonth(year, month) + rem < DaysInYear(year)
      decreases rem
    {
      rem := rem - DaysInMonth(year, month);
      month := month + 1;
      MonthsInYear(year, month);
    }
    c := Civil(year, month, rem + 1, hour, minute, second);
  }

  lemma {:induction false} MonthsInYear(y: nat, m: nat)
    requires 1 <= m <= 13
    ensures DaysBeforeMonth(y, m) <= DaysInYear(y)
    ensures m == 13 ==> DaysBeforeMonth(y, m) == DaysInYear(y)
    decreases 13 - m
  {
    if m == 13 {
      YearLength(y);
    } else {
      MonthsInYear(y, m + 1);
    }
  }

  // ---------------------------------------------------------------- text

  function Zeros(n: nat): (s: string)
    ensures |s| == n && forall i :: 0 <= i < n ==> s[i] == '0'
  {
    seq(n, _ => '0')
  }

  /** A number padded on the left with zeros. */
  function Pad(n: nat, width: nat): (s: string)
    ensures |s| >= width && s != "" && forall i :: 0 <= i < |s| ==> IsDigit(s[i])
  {
    var t := Render(n);
    if |t| < width then Zeros(width - |t|) + t else t
  }

  lemma {:induction false} ValueOfPadded(zeros: nat, t: string)
    requires forall i :: 0 <= i < |t| ==> IsDigit(t[i])
    ensures Value(Zeros(zeros) + t) == Value(t)
    decreases |t| + zeros
  {
    var s := Zeros(zeros) + t;
    if t != "" {
      assert s[..|s| - 1] == Zeros(zeros) + t[..|t| - 1];
      ValueOfPadded(zeros, t[..|t| - 1]);
    } else if zeros > 0 {
      assert s[..|s| - 1] == Zeros(zeros - 1) + t;
      ValueOfPadded(zeros - 1, t);
    }
  }

  lemma PadTells(n: nat, width: nat)
    ensures Value(Pad(n, width)) == n
  {
    hide Render, Value;
    ValueOfRender(n);
    var t := Render(n);
    if |t| < width {
      ValueOfPadded(width - |t|, t);
    }
  }

  lemma PadsToTwo(n: nat)
    requires n < 100
    ensures |Pad(n, 2)| == 2
  {
    if n >= 10 {
      assert |Render(n / 10)| == 1;
    }
  }

  /** `format_timestamp` on a decomposed time. */
  function Text(c: Civil): string {
    Pad(c.year, 4) + Tail(c)
  }

  function Tail(c: Civil): string {
    Pad(c.month, 2) + Pad(c.day, 2) + "-" + Pad(c.hour, 2) + Pad(c.minute, 2) + Pad(c.second, 2)
  }

  lemma Fields(a: string, b: string, c: string, d: string, e: string)
    requires |a| == |b| == |c| == |d| == |e| == 2
    ensures var t := a + b + "-" + c + d + e;
            |t| == 11 && t[..2] == a && t[2..4] == b && t[5..7] == c && t[7..9] == d && t[9..] == e
  {
    var ab, abc, abcd := a + b, a + b + "-" + c, a + b + "-" + c + d;
    var t := abcd + e;
    assert t[..9] == abcd && t[9..] == e;
    assert abcd[..7] == abc && abcd[7..] == d;
    assert abc[..4] == ab && abc[5..] == c;
    assert ab[..2] == a && ab[2..] == b;
    assert t[..2] == ab[..2] && t[2..4] == ab[2..] && t[5..7] == abc[5..] && t[7..9] == abcd[7..];
  }

  lemma TailFields(c: Civil)
    requires c.Real()
    ensures |Tail(c)| == 11
    ensures Tail(c)[..2] == Pad(c.month, 2) && Tail(c)[2..4] == Pad(c.day, 2)
    ensures Tail(c)[5..7] == Pad(c.hour, 2) && Tail(c)[7..9] == Pad(c.minute, 2) && Tail(c)[9..] == Pad(c.second, 2)
  {
    PadsToTwo(c.month);
    PadsToTwo(c.day);
    PadsToTwo(c.hour);
    PadsToTwo(c.minute);
    PadsToTwo(c.second);
    hide Pad;
    Fields(Pad(c.month, 2), Pad(c.day, 2), Pad(c.hour, 2), Pad(c.minute, 2), Pad(c.second, 2));
  }

  lemma SplitsAlike(a: string, b: string, c: string, d: string)
    requires a + b == c + d && |b| == |d|
    ensures a == c && b == d
  {
    assert a == (a + b)[..|a|] == (c + d)[..|a|] == c;
    assert b == (a + b)[|a|..] == (c + d)[|a|..] == d;
  }

  /** The text determines the time. */
  lemma TextTells(a: Civil, b: Civil)
    requires a.Real() && b.Real() && Text(a) == Text(b)
    ensures a == b
  {
    hide Pad;
    TailFields(a);
    TailFields(b);
    hide Tail;
    SplitsAlike(Pad(a.year, 4), Tail(a), Pad(b.year, 4), Tail(b));
    SamePad(a.year, b.year, 4);
    SamePad(a.month, b.month, 2);
    SamePad(a.day, b.day, 2);
    SamePad(a.hour, b.hour, 2);
    SamePad(a.minute, b.minute, 2);
    SamePad(a.second, b.second, 2);
  }

  /** The text reads as year, month, day, a dash, hour, minute and second, in this order. */
  lemma TextReads(c: Civil)
    requires c.Real()
    ensures var t, n := Text(c), |Text(c)| - 11;
            && n >= 4 && t[n + 4] == '-'
            && (forall i :: 0 <= i < |t| && i != n + 4 ==> IsDigit(t[i]))
            && Value(t[..n]) == c.year && Value(t[n..n + 2]) == c.month && Value(t[n + 2..n + 4]) == c.day
            && Value(t[n + 5..n + 7]) == c.hour && Value(t[n + 7..n + 9]) == c.minute && Value(t[n + 9..]) == c.second
  {
    TailFields(c);
    PadTells(c.year, 4);
    PadTells(c.month, 2);
    PadTells(c.day, 2);
    PadTells(c.hour, 2);
    PadTells(c.minute, 2);
    PadTells(c.second, 2);
    hide Pad, Value;
    var t, tail, n := Text(c), Tail(c), |Text(c)| - 11;
    DashIsFifth(c);
    hide Tail;
    assert t[..n] == Pad(c.year, 4) && t[n..] == tail;
    assert t[n..n + 2] == tail[..2] && t[n + 2..n + 4] == tail[2..4] && t[n + 5..n + 7] == tail[5..7];
    assert t[n + 7..n + 9] == tail[7..9] && t[n + 9..] == tail[9..];
    forall i | 0 <= i < |t| && i != n + 4 ensures IsDigit(t[i]) {
      assert i >= n ==> t[i] == tail[i - n];
    }
  }

  lemma DashIsFifth(c: Civil)
    requires c.Real()
    ensures |Tail(c)| == 11 && Tail(c)[4] == '-' && forall i :: 0 <= i < 11 && i != 4 ==> IsDigit(Tail(c)[i])
  {
    PadsToTwo(c.month);
    PadsToTwo(c.day);
    PadsToTwo(c.hour);
    PadsToTwo(c.minute);
    PadsToTwo(c.second);
    hide Pad;
  }

  lemma SamePad(m: nat, n: nat, width: nat)
    requires Pad(m, width) == Pad(n, width)
    ensures m == n
  {
    PadTells(m, width);
    PadTells(n, width);
  }

  /** Different seconds have different timestamps. */
  lemma TimestampsDiffer(a: Civil, b: Civil)
    requires a.Real() && b.Real() && SecondsOf(a) != SecondsOf(b)
    ensures Text(a) != Text(b)
  {
    if Text(a) == Text(b) {
      TextTells(a, b);
    }
  }
}
