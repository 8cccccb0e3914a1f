/** Naive datetimes, their `isoformat()` text, and why sorting the text sorts the instants. */
module Timestamps {
  import opened Text

  datatype Instant = Instant(year: nat, month: nat, day: nat, hour: nat, minute: nat, second: nat, micro: nat)

  predicate Valid(t: Instant) {
    && t.year < 10000 && t.month < 100 && t.day < 100
    && t.hour < 100 && t.minute < 100 && t.second < 100 && t.micro < 1000000
  }

  /** Chronological `<=`, field by field. */
  predicate NotAfter(a: Instant, b: Instant) {
    || a.year < b.year
    || (a.year == b.year && (|| a.month < b.month
    || (a.month == b.month && (|| a.day < b.day
    || (a.day == b.day && (|| a.hour < b.hour
    || (a.hour == b.hour && (|| a.minute < b.minute
    || (a.minute == b.minute && (|| a.second < b.second
    || (a.second == b.second && a.micro <= b.micro)))))))))))
  }

  /** n written with exactly `width` digits. */
  function Padded(width: nat, n: nat): string {
    if width == 0 then "" else Padded(width - 1, n / 10) + [DigitChar(n % 10)]
  }

  function Pow10(width: nat): (p: nat)
    ensures p > 0
  {
    if width == 0 then 1 else 10 * Pow10(width - 1)
  }

  /** The fraction is left out when it is zero. */
  function Fraction(micro: nat): string {
    if micro == 0 then "" else "." + Padded(6, micro)
  }

  /** `isoformat()` */
  function Iso(t: Instant): string {
    Padded(4, t.year) + ("-" + (Padded(2, t.month) + ("-" + (Padded(2, t.day) + ("T" +
    (Padded(2, t.hour) + (":" + (Padded(2, t.minute) + (":" + (Padded(2, t.second) + Fraction(t.micro)))))))))))
  }

  /** The last digit of a number. */
  function D(n: nat): char {
    "0123456789"[n % 10]
  }

  /** The last two digits. */
  function Pair(n: nat): string {
    [D(n / 10), D(n)]
  }

  lemma PaddedTwo(width: nat, n: nat)
    ensures Padded(width + 2, n) == Padded(width, n / 10 / 10) + Pair(n)
    ensures Padded(0, n / 10 / 10) == ""
  {
    var front := Padded(width, n / 10 / 10);
    assert Padded(width + 1, n / 10) == front + [D(n / 10)];
    assert (front + [D(n / 10)]) + [D(n)] == front + [D(n / 10), D(n)];
  }

  lemma PaddedSpelt(n: nat)
    ensures Padded(2, n) == Pair(n)
    ensures Padded(4, n) == Pair(n / 10 / 10) + Pair(n)
    ensures Padded(6, n) == Pair(n / 10 / 10 / 10 / 10) + Pair(n / 10 / 10) + Pair(n)
  {
    hide D, Padded;
    PaddedTwo(0, n);
    assert Padded(2, n) == Pair(n);
    PaddedTwo(0, n / 10 / 10);
    assert Padded(2, n / 10 / 10) == Pair(n / 10 / 10);
    PaddedTwo(0, n / 10 / 10 / 10 / 10);
    assert Padded(2, n / 10 / 10 / 10 / 10) == Pair(n / 10 / 10 / 10 / 10);
    hide Pair;
    PaddedTwo(2, n);
    PaddedTwo(2, n / 10 / 10);
    PaddedTwo(4, n);
  }

  /** The text of an instant, place by place: year, month, day, `T`, hour, minute, second, and a fraction unless it is zero. */
  lemma IsoSpelt(t: Instant)
    ensures Iso(t) ==
              Pair(t.year / 10 / 10) + Pair(t.year) + "-" + Pair(t.month) + "-" + Pair(t.day) + "T" +
              Pair(t.hour) + ":" + Pair(t.minute) + ":" + Pair(t.second) +
              if t.micro == 0 then "" else "." + Pair(t.micro / 10 / 10 / 10 / 10) + Pair(t.micro / 10 / 10) + Pair(t.micro)
  {
    hide Pair, Padded;
    PaddedSpelt(t.year);
    PaddedSpelt(t.month);
    PaddedSpelt(t.day);
    PaddedSpelt(t.hour);
    PaddedSpelt(t.minute);
    PaddedSpelt(t.second);
    PaddedSpelt(t.micro);
  }

  lemma HeadOrder(c: char, d: char, x: string, y: string)
    ensures LexLe([c] + x, [d] + y) <==> c < d || (c == d && LexLe(x, y))
  {
    assert ([c] + x)[1..] == x && ([d] + y)[1..] == y;
  }

  /** Fixed-width numbers compare like the numbers, then by what follows. */
  lemma {:induction false} PaddedOrder(width: nat, m: nat, n: nat, x: string, y: string)
    requires m < Pow10(width) && n < Pow10(width)
    ensures LexLe(Padded(width, m) + x, Padded(width, n) + y) <==> m < n || (m == n && LexLe(x, y))
  {
    if width == 0 {
      assert Padded(0, m) + x == x && Padded(0, n) + y == y;
    } else {
      var c, d := DigitChar(m % 10), DigitChar(n % 10);
      assert Padded(width, m) + x == Padded(width - 1, m / 10) + ([c] + x);
      assert Padded(width, n) + y == Padded(width - 1, n / 10) + ([d] + y);
      PaddedOrder(width - 1, m / 10, n / 10, [c] + x, [d] + y);
      HeadOrder(c, d, x, y);
    }
  }

  lemma TwoDigits(m: nat, n: nat, separator: string, x: string, y: string)
    requires m < 100 && n < 100
    ensures LexLe(Padded(2, m) + (separator + x), Padded(2, n) + (separator + y)) <==> m < n || (m == n && LexLe(x, y))
  {
    assert Pow10(1) == 10 && Pow10(2) == 100;
    PaddedOrder(2, m, n, separator + x, separator + y);
    LexAfterPrefix(separator, x, y);
  }

  lemma FractionOrder(m: nat, n: nat)
    requires m < 1000000 && n < 1000000
    ensures LexLe(Fraction(m), Fraction(n)) <==> m <= n
  {
    if m > 0 && n > 0 {
      assert Pow10(1) == 10 && Pow10(2) == 100 && Pow10(3) == 1000 && Pow10(4) == 10000 && Pow10(5) == 100000;
      PaddedOrder(6, m, n, "", "");
      assert Padded(6, m) + "" == Padded(6, m) && Padded(6, n) + "" == Padded(6, n);
      LexAfterPrefix(".", Padded(6, m), Padded(6, n));
    }
  }

  /** The text order of `isoformat()` is chronological order, with or without a fraction. */
  lemma IsoOrder(a: Instant, b: Instant)
    requires Valid(a) && Valid(b)
    ensures LexLe(Iso(a), Iso(b)) <==> NotAfter(a, b)
  {
    hide LexLe, Padded, Fraction;
    var f, g := Fraction(a.micro), Fraction(b.micro);
    FractionOrder(a.micro, b.micro);
    EmptySeparator(a.second, b.second, f, g);
    var s, t := Padded(2, a.second) + f, Padded(2, b.second) + g;
    TwoDigits(a.minute, b.minute, ":", s, t);
    s, t := Padded(2, a.minute) + (":" + s), Padded(2, b.minute) + (":" + t);
    TwoDigits(a.hour, b.hour, ":", s, t);
    s, t := Padded(2, a.hour) + (":" + s), Padded(2, b.hour) + (":" + t);
    TwoDigits(a.day, b.day, "T", s, t);
    s, t := Padded(2, a.day) + ("T" + s), Padded(2, b.day) + ("T" + t);
    TwoDigits(a.month, b.month, "-", s, t);
    s, t := Padded(2, a.month) + ("-" + s), Padded(2, b.month) + ("-" + t);
    assert Pow10(1) == 10 && Pow10(2) == 100 && Pow10(3) == 1000;
    PaddedOrder(4, a.year, b.year, "-" + s, "-" + t);
    LexAfterPrefix("-", s, t);
  }

  lemma EmptySeparator(m: nat, n: nat, x: string, y: string)
    requires m < 100 && n < 100
    ensures LexLe(Padded(2, m) + x, Padded(2, n) + y) <==> m < n || (m == n && LexLe(x, y))
  {
    assert Pow10(1) == 10 && Pow10(2) == 100;
    PaddedOrder(2, m, n, x, y);
  }
}
