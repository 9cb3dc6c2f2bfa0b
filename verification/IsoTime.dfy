/**
 Stored timestamps: the ISO text of a UTC instant, in which the fraction of a second is left
 out when it is zero, and the proof that comparing texts compares instants.
 */
module IsoTime {

  datatype DateTime = DateTime(
    year: nat, month: nat, day: nat, hour: nat, minute: nat, second: nat, micro: nat)

  predicate IsLeap(year: nat) {
    year % 4 == 0 && (year % 100 != 0 || year % 400 == 0)
  }

  function DaysInMonth(year: nat, month: nat): (n: nat)
    ensures 28 <= n <= 31
  {
    if month == 2 then (if IsLeap(year) then 29 else 28)
    else if month in {4, 6, 9, 11} then 30
    else 31
  }

  predicate Valid(t: DateTime) {
    && 1 <= t.year <= 9999 && 1 <= t.month <= 12 && 1 <= t.day <= DaysInMonth(t.year, t.month)
    && t.hour < 24 && t.minute < 60 && t.second < 60 && t.micro < 1_000_000
  }

  // ---- The instant, in microseconds ----

  function DaysInYear(year: nat): nat {
    if IsLeap(year) then 366 else 365
  }

  function DaysBeforeYear(year: nat): nat {
    if year <= 1 then 0 else DaysBeforeYear(year - 1) + DaysInYear(year - 1)
  }

  function DaysBeforeMonth(year: nat, month: nat): nat {
    if month <= 1 then 0 else DaysBeforeMonth(year, month - 1) + DaysInMonth(year, month - 1)
  }

  function Ordinal(t: DateTime): nat {
    DaysBeforeYear(t.year) + DaysBeforeMonth(t.year, t.month) + t.day
  }

  function Ticks(t: DateTime): nat {
    (((Ordinal(t) * 24 + t.hour) * 60 + t.minute) * 60 + t.second) * 1_000_000 + t.micro
  }

  // ---- The text ----

  function Digit(n: nat): char
    requires n < 10
  {
    '0' + n as char
  }

  /** The last `width` decimal digits of n, zero-padded. */
  function Pad(n: nat, width: nat): (s: string)
    ensures |s| == width
  {
    if width == 0 then "" else Pad(n / 10, width - 1) + [Digit(n % 10)]
  }

  const ZONE := "+00:00"

  function Fraction(micro: nat): string {
    if micro == 0 then ZONE else "." + (Pad(micro, 6) + ZONE)
  }

  function Clock(t: DateTime): string {
    Pad(t.hour, 2) + (":" + (Pad(t.minute, 2) + (":" + (Pad(t.second, 2) + Fraction(t.micro)))))
  }

  function Iso(t: DateTime): string {
    Pad(t.year, 4) + ("-" + (Pad(t.month, 2) + ("-" + (Pad(t.day, 2) + ("T" + Clock(t))))))
  }

  /** Text order, character by character. */
  predicate LexLeq(a: string, b: string) {
    a == "" || (b != "" && (a[0] < b[0] || (a[0] == b[0] && LexLeq(a[1..], b[1..]))))
  }

  // ---- Text order of the parts ----

  lemma {:induction false} LexSamePrefix(p: string, x: string, y: string)
    ensures LexLeq(p + x, p + y) <==> LexLeq(x, y)
  {
    if p == "" {
      assert p + x == x && p + y == y;
    } else {
      assert (p + x)[1..] == p[1..] + x && (p + y)[1..] == p[1..] + y;
      LexSamePrefix(p[1..], x, y);
    }
  }

  lemma {:induction false} LexUnequalPrefix(p: string, q: string, x: string, y: string)
    requires |p| == |q| && p != q
    ensures LexLeq(p + x, q + y) <==> LexLeq(p, q)
  {
    assert (p + x)[1..] == p[1..] + x && (q + y)[1..] == q[1..] + y;
    assert p == [p[0]] + p[1..] && q == [q[0]] + q[1..];
    if p[0] == q[0] {
      LexUnequalPrefix(p[1..], q[1..], x, y);
    }
  }

  function Pow10(width: nat): nat {
    if width == 0 then 1 else 10 * Pow10(width - 1)
  }

  lemma {:induction false} PadOrder(a: nat, b: nat, width: nat)
    requires a < Pow10(width) && b < Pow10(width)
    ensures Pad(a, width) == Pad(b, width) <==> a == b
    ensures LexLeq(Pad(a, width), Pad(b, width)) <==> a <= b
  {
    if width > 0 {
      PadOrder(a / 10, b / 10, width - 1);
      var p, q := Pad(a / 10, width - 1), Pad(b / 10, width - 1);
      var x, y := [Digit(a % 10)], [Digit(b % 10)];
      assert Pad(a, width)[..width - 1] == p && Pad(b, width)[..width - 1] == q;
      assert Pad(a, width)[width - 1] == x[0] && Pad(b, width)[width - 1] == y[0];
      if p == q {
        LexSamePrefix(p, x, y);
      } else {
        LexUnequalPrefix(p, q, x, y);
      }
    }
  }

  lemma FieldOrder(a: nat, b: nat, width: nat, x: string, y: string)
    requires a < Pow10(width) && b < Pow10(width)
    ensures LexLeq(Pad(a, width) + x, Pad(b, width) + y) <==> a < b || (a == b && LexLeq(x, y))
  {
    PadOrder(a, b, width);
    if a == b {
      LexSamePrefix(Pad(a, width), x, y);
    } else {
      LexUnequalPrefix(Pad(a, width), Pad(b, width), x, y);
    }
  }

  /** An omitted fraction sorts first: '+' comes before '.'. */
  lemma FractionOrder(a: nat, b: nat)
    requires a < 1_000_000 && b < 1_000_000
    ensures LexLeq(Fraction(a), Fraction(b)) <==> a <= b
  {
    if a != 0 && b != 0 {
      LexSamePrefix(".", Pad(a, 6) + ZONE, Pad(b, 6) + ZONE);
      Pow10Values();
      FieldOrder(a, b, 6, ZONE, ZONE);
      LexRefl(ZONE);
    } else if a == 0 && b == 0 {
      LexRefl(ZONE);
    }
  }

  lemma {:induction false} LexRefl(a: string)
    ensures LexLeq(a, a)
  {
    if a != "" {
      LexRefl(a[1..]);
    }
  }

  lemma Pow10Values()
    ensures Pow10(2) == 100 && Pow10(4) == 10_000 && Pow10(6) == 1_000_000
  {
  }

  predicate ClockLeq(a: DateTime, b: DateTime) {
    a.hour < b.hour || (a.hour == b.hour &&
    (a.minute < b.minute || (a.minute == b.minute &&
    (a.second < b.second || (a.second == b.second && a.micro <= b.micro)))))
  }

  predicate FieldsLeq(a: DateTime, b: DateTime) {
    a.year < b.year || (a.year == b.year &&
    (a.month < b.month || (a.month == b.month &&
    (a.day < b.day || (a.day == b.day && ClockLeq(a, b))))))
  }

  lemma ClockOrder(a: DateTime, b: DateTime)
    requires Valid(a) && Valid(b)
    ensures LexLeq(Clock(a), Clock(b)) <==> ClockLeq(a, b)
  {
    hide Pad;
    hide LexLeq;
    Pow10Values();
    FractionOrder(a.micro, b.micro);
    var sa, sb := Pad(a.second, 2) + Fraction(a.micro), Pad(b.second, 2) + Fraction(b.micro);
    FieldOrder(a.second, b.second, 2, Fraction(a.micro), Fraction(b.micro));
    LexSamePrefix(":", sa, sb);
    var ma, mb := Pad(a.minute, 2) + (":" + sa), Pad(b.minute, 2) + (":" + sb);
    FieldOrder(a.minute, b.minute, 2, ":" + sa, ":" + sb);
    LexSamePrefix(":", ma, mb);
    FieldOrder(a.hour, b.hour, 2, ":" + ma, ":" + mb);
  }

  lemma IsoOrderByFields(a: DateTime, b: DateTime)
    requires Valid(a) && Valid(b)
    ensures LexLeq(Iso(a), Iso(b)) <==> FieldsLeq(a, b)
  {
    hide Pad;
    hide LexLeq;
    hide Clock;
    Pow10Values();
    ClockOrder(a, b);
    var ta, tb := "T" + Clock(a), "T" + Clock(b);
    LexSamePrefix("T", Clock(a), Clock(b));
    var da, db := Pad(a.day, 2) + ta, Pad(b.day, 2) + tb;
    FieldOrder(a.day, b.day, 2, ta, tb);
    LexSamePrefix("-", da, db);
    var ma, mb := Pad(a.month, 2) + ("-" + da), Pad(b.month, 2) + ("-" + db);
    FieldOrder(a.month, b.month, 2, "-" + da, "-" + db);
    LexSamePrefix("-", ma, mb);
    FieldOrder(a.year, b.year, 4, "-" + ma, "-" + mb);
  }

  // ---- Chronological order of the fields ----

  lemma {:induction false} MonthsAscend(year: nat, m: nat, n: nat)
    requires 1 <= m < n
    ensures DaysBeforeMonth(year, m) + DaysInMonth(year, m) <= DaysBeforeMonth(year, n)
  {
    if m < n - 1 {
      MonthsAscend(year, m, n - 1);
    }
  }

  lemma YearLength(year: nat)
    ensures DaysBeforeMonth(year, 13) == DaysInYear(year)
  {
    var february := DaysInMonth(year, 2);
    assert DaysBeforeMonth(year, 2) == 31;
    assert DaysBeforeMonth(year, 3) == 31 + february;
    assert DaysBeforeMonth(year, 4) == 62 + february;
    assert DaysBeforeMonth(year, 5) == 92 + february;
    assert DaysBeforeMonth(year, 6) == 123 + february;
    assert DaysBeforeMonth(year, 7) == 153 + february;
    assert DaysBeforeMonth(year, 8) == 184 + february;
    assert DaysBeforeMonth(year, 9) == 215 + february;
    assert DaysBeforeMonth(year, 10) == 245 + february;
    assert DaysBeforeMonth(year, 11) == 276 + february;
    assert DaysBeforeMonth(year, 12) == 306 + february;
  }

  lemma {:induction false} YearsAscend(y: nat, z: nat)
    requires 1 <= y < z
    ensures DaysBeforeYear(y) + DaysInYear(y) <= DaysBeforeYear(z)
  {
    if y < z - 1 {
      YearsAscend(y, z - 1);
    }
  }

  lemma EarlierDay(a: DateTime, b: DateTime)
    requires Valid(a) && Valid(b)
    requires a.year < b.year || (a.year == b.year && (a.month < b.month || (a.month == b.month && a.day < b.day)))
    ensures Ordinal(a) < Ordinal(b)
  {
    if a.year < b.year {
      YearsAscend(a.year, b.year);
      YearLength(a.year);
      MonthsAscend(a.year, a.month, 13);
    } else if a.month < b.month {
      MonthsAscend(a.year, a.month, b.month);
    }
  }

  lemma TicksByFields(a: DateTime, b: DateTime)
    requires Valid(a) && Valid(b) && FieldsLeq(a, b)
    ensures Ticks(a) <= Ticks(b)
    ensures a != b ==> Ticks(a) < Ticks(b)
  {
    hide DaysBeforeYear;
    hide DaysBeforeMonth;
    if a.year < b.year || a.month < b.month || a.day < b.day {
      EarlierDay(a, b);
    }
  }

  /**
   Text order is time order: for all UTC instants the stored texts compare as the instants do,
   although the fraction is omitted when it is zero.
   */
  lemma IsoOrderIsTimeOrder(a: DateTime, b: DateTime)
    requires Valid(a) && Valid(b)
    ensures LexLeq(Iso(a), Iso(b)) <==> Ticks(a) <= Ticks(b)
  {
    hide Ticks;
    hide Iso;
    IsoOrderByFields(a, b);
    if FieldsLeq(a, b) {
      TicksByFields(a, b);
    } else {
      assert FieldsLeq(b, a) && a != b;
      TicksByFields(b, a);
    }
  }
}
