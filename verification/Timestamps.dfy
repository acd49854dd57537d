/**
 Text timestamps (`tstr` in internal/store/repo.go): every instant is stored as UTC text in the
 RFC 3339 form with up to nine fractional digits, trailing zeros dropped, and SQL compares the
 texts byte by byte. The lemmas say exactly when that order is the order of time.
 */
module Timestamps {
  import opened ByteOrder

  datatype Civil = Civil(year: nat, month: nat, day: nat, hour: nat, minute: nat, second: nat, nano: nat)

  /** UTC instants whose year has four digits; the order of texts needs no more of the calendar. */
  type Instant = t: Civil |
    t.year <= 9999 && t.month <= 12 && t.day <= 31 && t.hour < 24 && t.minute < 60 && t.second < 60 && t.nano < NANOS
    witness Civil(1970, 1, 1, 0, 0, 0, 0)

  const NANOS := 1000000000

  predicate SameSecond(a: Instant, b: Instant) {
    a.(nano := 0) == b.(nano := 0)
  }

  predicate Before(a: Instant, b: Instant) {
    a.year < b.year || (a.year == b.year && (
    a.month < b.month || (a.month == b.month && (
    a.day < b.day || (a.day == b.day && (
    a.hour < b.hour || (a.hour == b.hour && (
    a.minute < b.minute || (a.minute == b.minute && (
    a.second < b.second || (a.second == b.second && a.nano < b.nano)))))))))))
  }

  // ----- Rendering ------------------------------------------------------------------

  function Digit(n: nat): char
    requires n < 10
  {
    '0' + n as char
  }

  function Digits(n: nat, width: nat): (s: string)
    ensures |s| == width
  {
    if width == 0 then "" else Digits(n / 10, width - 1) + [Digit(n % 10)]
  }

  function Pow10(width: nat): (p: nat)
    ensures p > 0
  {
    if width == 0 then 1 else 10 * Pow10(width - 1)
  }

  function TrimZeros(s: string): (t: string)
    ensures t <= s
    ensures t == "" || t[|t| - 1] != '0'
    ensures forall i | |t| <= i < |s| :: s[i] == '0'
  {
    if s == "" || s[|s| - 1] != '0' then s else TrimZeros(s[..|s| - 1])
  }

  /** The fractional digits as written. */
  function Fraction(nano: nat): string {
    TrimZeros(Digits(nano, 9))
  }

  function Tail(nano: nat): string {
    (if nano == 0 then "" else "." + Fraction(nano)) + "Z"
  }

  function Head(t: Instant): string {
    Digits(t.year, 4) + ("-" + (Digits(t.month, 2) + ("-" + (Digits(t.day, 2) + ("T" + (Digits(t.hour, 2) + (":" +
    (Digits(t.minute, 2) + (":" + Digits(t.second, 2))))))))))
  }

  function Tstr(t: Instant): string {
    Head(t) + Tail(t.nano)
  }

  // ----- The order of rendered fields -------------------------------------------------

  lemma {:induction false} DigitsOrder(m: nat, n: nat, width: nat)
    requires m < Pow10(width) && n < Pow10(width)
    ensures Less(Digits(m, width), Digits(n, width)) <==> m < n
    ensures Digits(m, width) == Digits(n, width) <==> m == n
  {
    if width > 0 {
      DigitsOrder(m / 10, n / 10, width - 1);
      var a, b := Digits(m / 10, width - 1), Digits(n / 10, width - 1);
      var x, y := [Digit(m % 10)], [Digit(n % 10)];
      LessConcat(a, b, x, y);
      assert Digits(m, width)[..width - 1] == a && Digits(n, width)[..width - 1] == b;
      assert Digits(m, width)[width - 1] == x[0] && Digits(n, width)[width - 1] == y[0];
    }
  }

  /** One field of the head and what follows it. */
  lemma FieldOrder(m: nat, n: nat, width: nat, separator: string, x: string, y: string)
    requires m < Pow10(width) && n < Pow10(width)
    ensures Less(Digits(m, width) + (separator + x), Digits(n, width) + (separator + y))
            <==> m < n || (m == n && Less(x, y))
    ensures Digits(m, width) + (separator + x) == Digits(n, width) + (separator + y) <==> m == n && x == y
  {
    DigitsOrder(m, n, width);
    LessConcat(Digits(m, width), Digits(n, width), separator + x, separator + y);
    LessConcat(separator, separator, x, y);
    LessIrreflexive(separator);
    var s, t := Digits(m, width) + (separator + x), Digits(n, width) + (separator + y);
    assert s[..width] == Digits(m, width) && t[..width] == Digits(n, width);
    assert s[width + |separator|..] == x && t[width + |separator|..] == y;
  }

  lemma HeadOrder(a: Instant, b: Instant)
    ensures Less(Head(a), Head(b)) <==> Before(a.(nano := 0), b.(nano := 0))
    ensures Head(a) == Head(b) <==> SameSecond(a, b)
    ensures |Head(a)| == 19
  {
    assert Pow10(4) == 10000 && Pow10(2) == 100 by {
      assert Pow10(3) == 1000;
    }
    var s6, t6 := Digits(a.second, 2), Digits(b.second, 2);
    var s5, t5 := Digits(a.minute, 2) + (":" + s6), Digits(b.minute, 2) + (":" + t6);
    var s4, t4 := Digits(a.hour, 2) + (":" + s5), Digits(b.hour, 2) + (":" + t5);
    var s3, t3 := Digits(a.day, 2) + ("T" + s4), Digits(b.day, 2) + ("T" + t4);
    var s2, t2 := Digits(a.month, 2) + ("-" + s3), Digits(b.month, 2) + ("-" + t3);
    DigitsOrder(a.second, b.second, 2);
    FieldOrder(a.minute, b.minute, 2, ":", s6, t6);
    FieldOrder(a.hour, b.hour, 2, ":", s5, t5);
    FieldOrder(a.day, b.day, 2, "T", s4, t4);
    FieldOrder(a.month, b.month, 2, "-", s3, t3);
    FieldOrder(a.year, b.year, 4, "-", s2, t2);
  }

  // ----- Inside a second ------------------------------------------------------------

  lemma {:induction false} DigitsAreDigits(n: nat, width: nat)
    ensures forall i | 0 <= i < width :: '0' <= Digits(n, width)[i] <= '9'
  {
    if width > 0 {
      DigitsAreDigits(n / 10, width - 1);
    }
  }

  lemma {:induction false} ZerosAreLeast(zeros: string, s: string)
    requires |zeros| == |s| && (forall i | 0 <= i < |zeros| :: zeros[i] == '0' <= s[i])
    ensures !Less(s, zeros)
  {
    if s != "" {
      ZerosAreLeast(zeros[1..], s[1..]);
    }
  }

  lemma NineDigits()
    ensures Pow10(9) == NANOS
  {
    assert Pow10(3) == 1000;
    assert Pow10(6) == 1000000;
  }

  /** The written fraction and the zeros that were dropped. */
  lemma FractionDigits(nano: nat) returns (zeros: string)
    ensures Digits(nano, 9) == Fraction(nano) + zeros
    ensures forall i | 0 <= i < |zeros| :: zeros[i] == '0'
    ensures forall i | 0 <= i < |Fraction(nano)| :: '0' <= Fraction(nano)[i] <= '9'
  {
    zeros := Digits(nano, 9)[|Fraction(nano)|..];
    DigitsAreDigits(nano, 9);
  }

  lemma LongerTextIsNoLess(a: string, za: string, b: string, zb: string)
    requires b <= a && |a + za| == |b + zb|
    requires (forall i | 0 <= i < |zb| :: zb[i] == '0') && (forall c | c in a + za :: '0' <= c)
    ensures !Less(a + za, b + zb)
  {
    var rest := a[|b|..] + za;
    assert a + za == b + rest;
    assert forall i | 0 <= i < |rest| :: rest[i] in a + za;
    LessConcat(b, b, rest, zb);
    LessIrreflexive(b);
    ZerosAreLeast(zb, rest);
  }

  /** A fraction that extends another one is the later. */
  lemma LongerFractionIsLater(m: nat, n: nat)
    requires m < NANOS && n < NANOS && Fraction(n) <= Fraction(m)
    ensures n <= m
  {
    NineDigits();
    var za := FractionDigits(m);
    var zb := FractionDigits(n);
    DigitsAreDigits(m, 9);
    LongerTextIsNoLess(Fraction(m), za, Fraction(n), zb);
    DigitsOrder(m, n, 9);
  }

  lemma FractionOrder(m: nat, n: nat)
    requires m < n < NANOS
    ensures !(Fraction(n) <= Fraction(m))
    ensures Fraction(m) <= Fraction(n) || Less(Fraction(m), Fraction(n))
  {
    if Fraction(n) <= Fraction(m) {
      LongerFractionIsLater(m, n);
      assert false;
    }
    if !(Fraction(m) <= Fraction(n)) {
      NineDigits();
      var za := FractionDigits(m);
      var zb := FractionDigits(n);
      LessAtDifference(Fraction(m), Fraction(n), za, zb);
      DigitsOrder(m, n, 9);
    }
  }

  /**
   For two instants of one second, the texts are in the order of time exactly when the earlier
   one's written fraction is not the beginning of the later one's: otherwise its closing Z meets
   a digit or the dot, which sort below Z, and the order is inverted.
   */
  lemma TailOrder(m: nat, n: nat)
    requires m < n < NANOS
    ensures Less(Tail(m), Tail(n)) <==> !(Fraction(m) <= Fraction(n))
    ensures Fraction(m) <= Fraction(n) ==> Less(Tail(n), Tail(m))
    ensures Tail(m) != Tail(n)
  {
    FractionOrder(m, n);
    LessIrreflexive(Tail(m));
    LessAsymmetric(Tail(m), Tail(n));
    var a, b := Fraction(m), Fraction(n);
    if m == 0 {
      ZeroFraction();
      assert Tail(m)[0] == 'Z' && Tail(n)[0] == '.';
    } else {
      LessConcat(".", ".", a + "Z", b + "Z");
      LessConcat(".", ".", b + "Z", a + "Z");
      LessIrreflexive(".");
      assert Tail(m) == "." + (a + "Z") && Tail(n) == "." + (b + "Z");
      if a <= b {
        PrefixClosesLater(a, b, n);
      } else {
        LessAtDifference(a, b, "Z", "Z");
      }
    }
  }

  lemma PrefixClosesLater(a: string, b: string, n: nat)
    requires b == Fraction(n) && a < b
    ensures Less(b + "Z", a + "Z")
  {
    var zeros := FractionDigits(n);
    var rest := b[|a|..];
    assert b + "Z" == a + (rest + "Z");
    LessConcat(a, a, rest + "Z", "Z");
    LessIrreflexive(a);
    assert (rest + "Z")[0] == b[|a|];
  }

  lemma ZeroFraction()
    ensures Fraction(0) == ""
  {
    var zeros := FractionDigits(0);
    assert Digits(0, 9) == "000000000" by {
      assert Digits(0, 3) == "000";
      assert Digits(0, 6) == "000000";
    }
  }

  // ----- The order of timestamps ----------------------------------------------------

  /** Across whole seconds the texts order as the instants do. */
  lemma OrderAcrossSeconds(a: Instant, b: Instant)
    requires !SameSecond(a, b)
    ensures Less(Tstr(a), Tstr(b)) <==> Before(a, b)
  {
    HeadOrder(a, b);
    HeadOrder(b, a);
    LessConcat(Head(a), Head(b), Tail(a.nano), Tail(b.nano));
  }

  /** Inside one second the order is inverted exactly on a prefix. */
  lemma OrderWithinSecond(a: Instant, b: Instant)
    requires SameSecond(a, b) && Before(a, b)
    ensures Less(Tstr(a), Tstr(b)) <==> !(Fraction(a.nano) <= Fraction(b.nano))
    ensures Less(Tstr(b), Tstr(a)) <==> Fraction(a.nano) <= Fraction(b.nano)
  {
    HeadOrder(a, b);
    LessConcat(Head(a), Head(b), Tail(a.nano), Tail(b.nano));
    LessConcat(Head(b), Head(a), Tail(b.nano), Tail(a.nano));
    LessIrreflexive(Head(a));
    TailOrder(a.nano, b.nano);
    LessAsymmetric(Tail(a.nano), Tail(b.nano));
  }

  /** Distinct instants have distinct texts. */
  lemma TstrInjective(a: Instant, b: Instant)
    requires Tstr(a) == Tstr(b)
    ensures a == b
  {
    HeadOrder(a, b);
    HeadOrder(b, a);
    assert Tstr(a)[..19] == Head(a) && Tstr(b)[..19] == Head(b);
    assert Tstr(a)[19..] == Tail(a.nano) && Tstr(b)[19..] == Tail(b.nano);
    if a.nano < b.nano {
      TailOrder(a.nano, b.nano);
    } else if b.nano < a.nano {
      TailOrder(b.nano, a.nano);
    }
  }

  /** A cutoff comparison on texts is exact to within the second: it can only err inside one. */
  lemma CutoffExactToTheSecond(a: Instant, b: Instant)
    ensures Less(Tstr(a), Tstr(b)) ==> Before(a, b) || SameSecond(a, b)
    ensures Before(a, b) && !SameSecond(a, b) ==> Less(Tstr(a), Tstr(b)) && AtMost(Tstr(a), Tstr(b))
    ensures AtMost(Tstr(a), Tstr(b)) ==> Before(a, b) || SameSecond(a, b)
  {
    if SameSecond(a, b) {
    } else {
      OrderAcrossSeconds(a, b);
      OrderAcrossSeconds(b, a);
    }
  }

  // ----- Going back in time -----------------------------------------------------------

  predicate Leap(year: nat) {
    year % 4 == 0 && (year % 100 != 0 || year % 400 == 0)
  }

  function DaysIn(year: nat, month: nat): nat {
    if month == 2 then (if Leap(year) then 29 else 28)
    else if month in {4, 6, 9, 11} then 30
    else 31
  }

  /** A date of the calendar. */
  predicate Real(t: Instant) {
    1 <= t.month <= 12 && 1 <= t.day <= DaysIn(t.year, t.month)
  }

  function DaysBeforeYear(year: nat): nat {
    if year == 0 then 0 else DaysBeforeYear(year - 1) + if Leap(year - 1) then 366 else 365
  }

  function DaysBeforeMonth(year: nat, month: nat): nat {
    if month <= 1 then 0 else DaysBeforeMonth(year, month - 1) + DaysIn(year, month - 1)
  }

  /** Whole seconds since the year began to be counted. */
  function Seconds(t: Instant): int {
    (((DaysBeforeYear(t.year) + DaysBeforeMonth(t.year, t.month) + t.day) * 24 + t.hour) * 60 + t.minute) * 60 + t.second
  }

  function DayBefore(t: Instant): Instant
    requires Real(t) && t.year > 0
  {
    if t.day > 1 then t.(day := t.day - 1)
    else if t.month > 1 then t.(month := t.month - 1, day := DaysIn(t.year, t.month - 1))
    else t.(year := t.year - 1, month := 12, day := 31)
  }

  lemma YearLength(year: nat)
    ensures DaysBeforeMonth(year, 12) + 31 == if Leap(year) then 366 else 365
  {
    assert DaysBeforeMonth(year, 4) == (if Leap(year) then 91 else 90) by {
      assert DaysBeforeMonth(year, 2) == 31;
    }
    assert DaysBeforeMonth(year, 7) == DaysBeforeMonth(year, 4) + 91 by {
      assert DaysBeforeMonth(year, 5) == DaysBeforeMonth(year, 4) + 30;
    }
    assert DaysBeforeMonth(year, 10) == DaysBeforeMonth(year, 7) + 92 by {
      assert DaysBeforeMonth(year, 8) == DaysBeforeMonth(year, 7) + 31;
    }
    assert DaysBeforeMonth(year, 11) == DaysBeforeMonth(year, 10) + 31;
  }

  lemma DayBeforeIsADayLess(t: Instant)
    requires Real(t) && t.year > 0
    ensures Real(DayBefore(t)) && t.year <= DayBefore(t).year + 1
    ensures Seconds(DayBefore(t)) + 86400 == Seconds(t) && DayBefore(t).nano == t.nano
  {
    if t.day == 1 && t.month == 1 {
      YearLength(t.year - 1);
    }
  }

  /** `days` times 24 hours before: across months, years and leap days, exactly that many seconds. */
  function DaysAgo(t: Instant, days: nat): (r: Instant)
    requires Real(t) && days <= t.year
    ensures Real(r) && t.year <= r.year + days
    ensures Seconds(r) + 86400 * days == Seconds(t) && r.nano == t.nano
  {
    if days == 0 then t
    else
      var before := DaysAgo(t, days - 1);
      DayBeforeIsADayLess(before);
      DayBefore(before)
  }
}
