/** Seconds since the epoch written as an RFC 3339 timestamp and as a calendar day. */
module Timestamp {
  import opened Civil
  import opened Lexicographic
  import opened Numerals

  function Digit(d: int): char
    requires 0 <= d < 10
  {
    '0' + d as char
  }

  /** `n` in decimal, zero padded to `width`. */
  function Padded(n: nat, width: nat): string
  {
    (if n < 10 && width <= 1 then "" else Padded(n / 10, if width > 0 then width - 1 else 0)) + [Digit(n % 10)]
  }

  /** Zero padding counts the sign of a negative number in its width. */
  function PaddedInt(n: int, width: nat): string
  {
    if n >= 0 then Padded(n, width) else "-" + Padded(-n, if width > 0 then width - 1 else 0)
  }

  function DayText(d: Date): string
  {
    PaddedInt(d.year, 4) + ("-" + (PaddedInt(d.month, 2) + ("-" + PaddedInt(d.day, 2))))
  }

  datatype Clock = Clock(hour: int, minute: int, second: int)

  function ClockOf(secs: int): Clock
  {
    var rem := secs % 86400;
    Clock(rem / 3600, rem / 60 % 60, rem % 60)
  }

  function ClockText(c: Clock): string
  {
    PaddedInt(c.hour, 2) + (":" + (PaddedInt(c.minute, 2) + (":" + (PaddedInt(c.second, 2) + "Z"))))
  }

  /** The day a moment falls on. */
  function LocalDay(secs: int): string { DayText(FromDays(secs / 86400)) }

  function Moment(secs: int): string { LocalDay(secs) + ("T" + ClockText(ClockOf(secs))) }

  predicate ValidClock(c: Clock) { 0 <= c.hour < 24 && 0 <= c.minute < 60 && 0 <= c.second < 60 }

  /** The time of day is in range and, with the day, gives the seconds back. */
  lemma {:induction false} ClockIsTheTime(secs: int)
    ensures ValidClock(ClockOf(secs))
    ensures var c := ClockOf(secs); secs == secs / 86400 * 86400 + c.hour * 3600 + c.minute * 60 + c.second
  {
    var rem := secs % 86400;
    var minutes := rem / 60;
    assert rem / 3600 == minutes / 60;
  }

  // ---- Fixed width and order ----

  function Pow10(w: nat): nat { if w == 0 then 1 else 10 * Pow10(w - 1) }

  lemma {:induction false} PaddedWidth(n: nat, w: nat)
    requires 1 <= w && n < Pow10(w)
    ensures |Padded(n, w)| == w
    ensures forall k :: 0 <= k < w ==> '0' <= Padded(n, w)[k] <= '9'
  {
    if w > 1 {
      PaddedWidth(n / 10, w - 1);
    } else {
      assert Pow10(1) == 10 * Pow10(0) == 10;
    }
  }

  lemma {:induction false} LessPrefix(a: string, b: string, c: string, d: string)
    requires |a| == |c| && Less(a, c)
    ensures Less(a + b, c + d)
  {
    if a[0] == c[0] {
      assert a == [a[0]] + a[1..] && c == [c[0]] + c[1..];
      assert (a + b)[1..] == a[1..] + b && (c + d)[1..] == c[1..] + d;
      LessPrefix(a[1..], b, c[1..], d);
      assert a + b == [a[0]] + (a[1..] + b) && c + d == [c[0]] + (c[1..] + d);
    } else {
      assert (a + b)[0] != (c + d)[0];
    }
  }

  lemma {:induction false} LessSuffix(a: string, b: string, d: string)
    ensures Less(b, d) ==> Less(a + b, a + d)
    ensures Leq(b, d) ==> Leq(a + b, a + d)
  {
    if a == "" {
      assert a + b == b && a + d == d;
    } else {
      LessSuffix(a[1..], b, d);
      assert (a + b)[1..] == a[1..] + b && (a + d)[1..] == a[1..] + d;
      if a + b == a + d {
        assert b == (a + b)[|a|..] == (a + d)[|a|..] == d;
      }
    }
  }

  lemma {:induction false} PaddedOrder(n: nat, m: nat, w: nat)
    requires 1 <= w && n < m < Pow10(w)
    ensures Less(Padded(n, w), Padded(m, w))
  {
    if w == 1 {
      assert Pow10(1) == 10 * Pow10(0) == 10;
      assert Padded(n, 1) == [Digit(n)] && Padded(m, 1) == [Digit(m)];
    } else if n / 10 == m / 10 {
      var head := Padded(n / 10, w - 1);
      assert [Digit(n % 10)][0] < [Digit(m % 10)][0];
      LessSuffix(head, [Digit(n % 10)], [Digit(m % 10)]);
    } else {
      PaddedOrder(n / 10, m / 10, w - 1);
      PaddedWidth(n / 10, w - 1);
      PaddedWidth(m / 10, w - 1);
      LessPrefix(Padded(n / 10, w - 1), [Digit(n % 10)], Padded(m / 10, w - 1), [Digit(m % 10)]);
    }
  }

  predicate FourDigitYear(d: Date) { 0 <= d.year <= 9999 }

  /** A number of fixed width in front decides the order, and a tie leaves it to the rest. */
  lemma {:induction false} FieldOrder(n: nat, m: nat, w: nat, b: string, d: string)
    requires 1 <= w && n < Pow10(w) && m < Pow10(w)
    requires n < m || (n == m && Less(b, d))
    ensures Less(PaddedInt(n, w) + b, PaddedInt(m, w) + d)
  {
    if n < m {
      PaddedOrder(n, m, w);
      PaddedWidth(n, w);
      PaddedWidth(m, w);
      LessPrefix(Padded(n, w), b, Padded(m, w), d);
    } else {
      LessSuffix(Padded(n, w), b, d);
    }
  }

  lemma {:induction false} Widths()
    ensures Pow10(2) == 100 && Pow10(4) == 10000
  {
    assert Pow10(1) == 10;
    assert Pow10(3) == 1000;
  }

  lemma {:induction false} DayTextOrder(a: Date, b: Date)
    requires Valid(a) && Valid(b) && FourDigitYear(a) && FourDigitYear(b) && Before(a, b)
    ensures Less(DayText(a), DayText(b))
  {
    Widths();
    var da, db := PaddedInt(a.day, 2), PaddedInt(b.day, 2);
    var ma, mb := PaddedInt(a.month, 2) + ("-" + da), PaddedInt(b.month, 2) + ("-" + db);
    if a.year == b.year {
      if a.month == b.month {
        FieldOrder(a.day, b.day, 2, "", "");
        assert da + "" == da && db + "" == db;
        LessSuffix("-", da, db);
      }
      FieldOrder(a.month, b.month, 2, "-" + da, "-" + db);
      LessSuffix("-", ma, mb);
    }
    FieldOrder(a.year, b.year, 4, "-" + ma, "-" + mb);
  }

  lemma {:induction false} ClockTextOrder(a: Clock, b: Clock)
    requires ValidClock(a) && ValidClock(b)
    requires a.hour < b.hour || (a.hour == b.hour && (a.minute < b.minute || (a.minute == b.minute && a.second < b.second)))
    ensures Less(ClockText(a), ClockText(b))
  {
    Widths();
    var sa, sb := PaddedInt(a.second, 2) + "Z", PaddedInt(b.second, 2) + "Z";
    var ma, mb := PaddedInt(a.minute, 2) + (":" + sa), PaddedInt(b.minute, 2) + (":" + sb);
    if a.hour == b.hour {
      if a.minute == b.minute {
        FieldOrder(a.second, b.second, 2, "Z", "Z");
        LessSuffix(":", sa, sb);
      }
      FieldOrder(a.minute, b.minute, 2, ":" + sa, ":" + sb);
      LessSuffix(":", ma, mb);
    }
    FieldOrder(a.hour, b.hour, 2, ":" + ma, ":" + mb);
  }

  predicate IsDigit(c: char) { '0' <= c <= '9' }

  /** `YYYY-MM-DD`, the full-date of section 5.6 of RFC 3339. */
  predicate FullDate(s: string)
  {
    |s| == 10 && forall k :: 0 <= k < 10 ==> if k == 4 || k == 7 then s[k] == '-' else IsDigit(s[k])
  }

  /** `HH:MM:SSZ`. */
  predicate FullTime(s: string)
  {
    |s| == 9 && forall k :: 0 <= k < 9 ==> if k == 2 || k == 5 then s[k] == ':' else if k == 8 then s[k] == 'Z' else IsDigit(s[k])
  }

  lemma {:induction false} DayTextShape(d: Date)
    requires Valid(d) && FourDigitYear(d)
    ensures FullDate(DayText(d))
  {
    Widths();
    PaddedWidth(d.year, 4);
    PaddedWidth(d.month, 2);
    PaddedWidth(d.day, 2);
  }

  lemma {:induction false} ClockTextShape(c: Clock)
    requires ValidClock(c)
    ensures FullTime(ClockText(c))
  {
    Widths();
    PaddedWidth(c.hour, 2);
    PaddedWidth(c.minute, 2);
    PaddedWidth(c.second, 2);
  }

  /** Moments of the years 0 to 9999. */
  predicate Printable(secs: int) { FourDigitYear(FromDays(secs / 86400)) }

  /** A printable moment is a timestamp of RFC 3339: a full-date, `T` and a time in UTC. */
  lemma {:induction false} MomentShape(secs: int)
    requires Printable(secs)
    ensures |Moment(secs)| == 20 && Moment(secs)[10] == 'T'
    ensures FullDate(Moment(secs)[..10]) && FullTime(Moment(secs)[11..])
    ensures Moment(secs)[..10] == LocalDay(secs)
  {
    FromDaysIsValid(secs / 86400);
    ClockIsTheTime(secs);
    DayTextShape(FromDays(secs / 86400));
    ClockTextShape(ClockOf(secs));
    var d, c := LocalDay(secs), ClockText(ClockOf(secs));
    assert Moment(secs)[..10] == d && Moment(secs)[11..] == c;
  }

  // ---- Reading it back ----

  lemma {:induction false} PaddedReads(n: nat, w: nat)
    ensures Digits(Padded(n, w)) && Value(Padded(n, w)) == n
  {
    var q, d := n / 10, n % 10;
    assert n == 10 * q + d;
    if n < 10 && w <= 1 {
      ValueMore("", d, Digit(d));
    } else {
      var v := if w > 0 then w - 1 else 0;
      PaddedReads(q, v);
      ValueMore(Padded(q, v), d, Digit(d));
    }
  }

  /** The numbers a timestamp shows. */
  ghost predicate ShowsDate(s: string, d: Date)
  {
    FullDate(s) && Value(s[..4]) == d.year && Value(s[5..7]) == d.month && Value(s[8..]) == d.day
  }

  ghost predicate ShowsClock(s: string, c: Clock)
  {
    FullTime(s) && Value(s[..2]) == c.hour && Value(s[3..5]) == c.minute && Value(s[6..8]) == c.second
  }

  lemma {:induction false} DateSlices(y: string, m: string, d: string)
    requires |y| == 4 && |m| == 2 && |d| == 2
    ensures var s := y + ("-" + (m + ("-" + d)));
            |s| == 10 && s[..4] == y && s[5..7] == m && s[8..] == d
  {
  }

  lemma {:induction false} ClockSlices(h: string, m: string, s: string)
    requires |h| == 2 && |m| == 2 && |s| == 2
    ensures var t := h + (":" + (m + (":" + (s + "Z"))));
            |t| == 9 && t[..2] == h && t[3..5] == m && t[6..8] == s
  {
  }

  lemma {:induction false} DayTextShows(d: Date)
    requires Valid(d) && FourDigitYear(d)
    ensures ShowsDate(DayText(d), d)
  {
    DayTextShape(d);
    Widths();
    var y, m, a := Padded(d.year, 4), Padded(d.month, 2), Padded(d.day, 2);
    PaddedWidth(d.year, 4);
    PaddedWidth(d.month, 2);
    PaddedWidth(d.day, 2);
    PaddedReads(d.year, 4);
    PaddedReads(d.month, 2);
    PaddedReads(d.day, 2);
    DateSlices(y, m, a);
  }

  lemma {:induction false} ClockTextShows(c: Clock)
    requires ValidClock(c)
    ensures ShowsClock(ClockText(c), c)
  {
    ClockTextShape(c);
    Widths();
    var h, m, a := Padded(c.hour, 2), Padded(c.minute, 2), Padded(c.second, 2);
    PaddedWidth(c.hour, 2);
    PaddedWidth(c.minute, 2);
    PaddedWidth(c.second, 2);
    PaddedReads(c.hour, 2);
    PaddedReads(c.minute, 2);
    PaddedReads(c.second, 2);
    ClockSlices(h, m, a);
  }

  /** The digits of a timestamp, read as a date and a time of day, give the moment back. */
  lemma {:induction false} MomentReadsBack(secs: int) returns (d: Date, c: Clock)
    requires Printable(secs)
    ensures |Moment(secs)| == 20 && ShowsDate(Moment(secs)[..10], d) && ShowsClock(Moment(secs)[11..], c)
    ensures Valid(d) && ValidClock(c) && secs == ToDays(d) * 86400 + c.hour * 3600 + c.minute * 60 + c.second
  {
    d, c := FromDays(secs / 86400), ClockOf(secs);
    FromDaysIsValid(secs / 86400);
    ClockIsTheTime(secs);
    MomentShape(secs);
    DayTextShows(d);
    ClockTextShows(c);
    assert Moment(secs)[11..] == ClockText(c);
  }

  /** Later moments have later timestamps, so no two moments share one, and their days never
      decrease. */
  lemma {:induction false} MomentOrder(s: int, t: int)
    requires s < t && Printable(s) && Printable(t)
    ensures Less(Moment(s), Moment(t)) && Leq(LocalDay(s), LocalDay(t))
  {
    var j, k := s / 86400, t / 86400;
    ClockIsTheTime(s);
    ClockIsTheTime(t);
    FromDaysIsValid(j);
    FromDaysIsValid(k);
    var cs, ct := ClockText(ClockOf(s)), ClockText(ClockOf(t));
    if j == k {
      ClockTextOrder(ClockOf(s), ClockOf(t));
      LessSuffix("T", cs, ct);
      LessSuffix(LocalDay(s), "T" + cs, "T" + ct);
      Reflexive(LocalDay(s));
    } else {
      FromDaysIncreases(j, k);
      DayTextOrder(FromDays(j), FromDays(k));
      DayTextShape(FromDays(j));
      DayTextShape(FromDays(k));
      LessPrefix(LocalDay(s), "T" + cs, LocalDay(t), "T" + ct);
    }
  }
}
