/** Times written as text with one fixed offset, and why comparing the texts compares the times. */
module IsoTime {
  /** A wall-clock reading; `year` is 1 to 9999. */
  datatype Moment = Moment(year: nat, month: nat, day: nat, hour: nat, minute: nat, second: nat, micro: nat)

  predicate Leap(year: nat) {
    year % 4 == 0 && (year % 100 != 0 || year % 400 == 0)
  }

  function DaysInMonth(year: nat, month: nat): nat {
    if month == 2 then (if Leap(year) then 29 else 28)
    else if month == 4 || month == 6 || month == 9 || month == 11 then 30
    else 31
  }

  predicate Valid(m: Moment) {
    && 1 <= m.year <= 9999 && 1 <= m.month <= 12 && 1 <= m.day <= DaysInMonth(m.year, m.month)
    && m.hour < 24 && m.minute < 60 && m.second < 60 && m.micro < 1_000_000
  }

  /** Field by field, the largest unit first. */
  predicate Before(a: Moment, b: Moment) {
    a.year < b.year || (a.year == b.year &&
    (a.month < b.month || (a.month == b.month &&
    (a.day < b.day || (a.day == b.day &&
    (a.hour < b.hour || (a.hour == b.hour &&
    (a.minute < b.minute || (a.minute == b.minute &&
    (a.second < b.second || (a.second == b.second && a.micro < b.micro)))))))))))
  }

  // ---------------------------------------------------------------- instants

  function DaysBeforeYear(year: nat): nat
    requires year >= 1
  {
    (year - 1) * 365 + (year - 1) / 4 - (year - 1) / 100 + (year - 1) / 400
  }

  function DaysBeforeMonth(year: nat, month: nat): nat
    requires month >= 1
  {
    if month == 1 then 0 else DaysBeforeMonth(year, month - 1) + DaysInMonth(year, month - 1)
  }

  function Day(m: Moment): nat
    requires Valid(m)
  {
    DaysBeforeYear(m.year) + DaysBeforeMonth(m.year, m.month) + m.day
  }

  /** Microseconds since a fixed beginning. */
  function Instant(m: Moment): nat
    requires Valid(m)
  {
    (((Day(m) * 24 + m.hour) * 60 + m.minute) * 60 + m.second) * 1_000_000 + m.micro
  }

  lemma QuotientSteps(n: nat, k: nat)
    requires n >= 1 && k >= 2
    ensures n / k == (n - 1) / k + if n % k == 0 then 1 else 0
  {
    var q, r := (n - 1) / k, (n - 1) % k;
    assert n == q * k + (r + 1);
    if r + 1 == k {
      assert n == (q + 1) * k;
      Quotient(n, k, q + 1, 0);
    } else {
      Quotient(n, k, q, r + 1);
    }
  }

  lemma ProductGrows(a: int, b: int, k: nat)
    ensures a <= b ==> a * k <= b * k
  {
  }

  lemma Quotient(n: nat, k: nat, q: nat, r: nat)
    requires k > 0 && r < k && n == q * k + r
    ensures n / k == q && n % k == r
  {
    ProductGrows(n / k + 1, q, k);
    ProductGrows(q + 1, n / k, k);
    assert n == n / k * k + n % k;
  }

  lemma DivisorsNest(year: nat)
    ensures year % 400 == 0 ==> year % 100 == 0
    ensures year % 100 == 0 ==> year % 4 == 0
  {
    if year % 400 == 0 {
      Quotient(year, 100, year / 400 * 4, 0);
    }
    if year % 100 == 0 {
      Quotient(year, 4, year / 100 * 25, 0);
    }
  }

  lemma YearLength(year: nat)
    requires year >= 1
    ensures DaysBeforeYear(year + 1) == DaysBeforeYear(year) + if Leap(year) then 366 else 365
  {
    QuotientSteps(year, 4);
    QuotientSteps(year, 100);
    QuotientSteps(year, 400);
    DivisorsNest(year);
    var p, q := (year - 1) / 4 - (year - 1) / 100 + (year - 1) / 400, year / 4 - year / 100 + year / 400;
    assert q == p + if Leap(year) then 1 else 0;
  }

  lemma {:induction false} YearsGrow(a: nat, b: nat)
    requires 1 <= a < b
    ensures DaysBeforeYear(a) + (if Leap(a) then 366 else 365) <= DaysBeforeYear(b)
    decreases b - a
  {
    YearLength(a);
    if a + 1 == b {
    } else {
      YearsGrow(a + 1, b);
    }
  }

  lemma {:induction false} MonthsGrow(year: nat, a: nat, b: nat)
    requires 1 <= a < b <= 13
    ensures DaysBeforeMonth(year, a) + DaysInMonth(year, a) <= DaysBeforeMonth(year, b)
  {
    if a + 1 == b {
    } else {
      MonthsGrow(year, a, b - 1);
    }
  }

  lemma YearIsTwelveMonths(year: nat)
    ensures DaysBeforeMonth(year, 13) == if Leap(year) then 366 else 365
  {
    assert DaysBeforeMonth(year, 2) == 31;
    assert DaysBeforeMonth(year, 3) == 31 + DaysInMonth(year, 2);
    assert DaysBeforeMonth(year, 5) == DaysBeforeMonth(year, 3) + 61;
    assert DaysBeforeMonth(year, 7) == DaysBeforeMonth(year, 5) + 61;
    assert DaysBeforeMonth(year, 9) == DaysBeforeMonth(year, 7) + 62;
    assert DaysBeforeMonth(year, 11) == DaysBeforeMonth(year, 9) + 61;
    assert DaysBeforeMonth(year, 13) == DaysBeforeMonth(year, 11) + 61;
  }

  lemma DayWithinYear(m: Moment)
    requires Valid(m)
    ensures DaysBeforeMonth(m.year, m.month) + m.day <= if Leap(m.year) then 366 else 365
  {
    YearIsTwelveMonths(m.year);
    MonthsGrow(m.year, m.month, 13);
  }

  lemma EarlierDay(a: Moment, b: Moment)
    requires Valid(a) && Valid(b)
    requires a.year < b.year || (a.year == b.year && (a.month < b.month || (a.month == b.month && a.day < b.day)))
    ensures Day(a) < Day(b)
  {
    DayWithinYear(a);
    if a.year < b.year {
      YearsGrow(a.year, b.year);
    } else if a.month < b.month {
      MonthsGrow(a.year, a.month, b.month);
    }
  }

  lemma EarlierInstant(a: Moment, b: Moment)
    requires Valid(a) && Valid(b) && Before(a, b)
    ensures Instant(a) < Instant(b)
  {
    if a.year != b.year || a.month != b.month || a.day != b.day {
      EarlierDay(a, b);
    }
  }

  /** The order of the fields is the order of the times. */
  lemma BeforeMeansEarlier(a: Moment, b: Moment)
    requires Valid(a) && Valid(b)
    ensures Before(a, b) <==> Instant(a) < Instant(b)
  {
    if Before(a, b) {
      EarlierInstant(a, b);
    } else if a != b {
      EarlierInstant(b, a);
    }
  }

  // ---------------------------------------------------------------- texts

  /** The order of texts by code points. */
  predicate TextLess(s: string, t: string) {
    t != "" && (s == "" || s[0] < t[0] || (s[0] == t[0] && TextLess(s[1..], t[1..])))
  }

  function Pow10(n: nat): nat {
    if n == 0 then 1 else 10 * Pow10(n - 1)
  }

  lemma {:induction false} Pow10Positive(n: nat)
    ensures Pow10(n) > 0
  {
    if n == 0 {
    } else {
      Pow10Positive(n - 1);
    }
  }

  function Digit(d: nat): char
    requires d < 10
  {
    '0' + d as char
  }

  lemma TopDigit(n: nat, p: nat)
    requires p > 0 && n < 10 * p
    ensures n / p < 10 && n % p < p && n == n / p * p + n % p
  {
  }

  /** A number in decimal with leading zeros. */
  function Padded(n: nat, width: nat): string
    requires n < Pow10(width)
    decreases width
  {
    if width == 0 then ""
    else
      Pow10Positive(width - 1);
      TopDigit(n, Pow10(width - 1));
      [Digit(n / Pow10(width - 1))] + Padded(n % Pow10(width - 1), width - 1)
  }

  lemma DigitsOrder(n: nat, m: nat, p: nat)
    requires p > 0
    ensures n < m <==> n / p < m / p || (n / p == m / p && n % p < m % p)
    ensures n == m <==> n / p == m / p && n % p == m % p
  {
    LargerQuotient(n, m, p);
    LargerQuotient(m, n, p);
    assert n == p * (n / p) + n % p && m == p * (m / p) + m % p;
  }

  lemma LargerQuotient(n: nat, m: nat, p: nat)
    requires p > 0
    ensures n / p < m / p ==> n < m
  {
    assert n == p * (n / p) + n % p && m == p * (m / p) + m % p;
    if n / p < m / p {
      ProductGrows(n / p + 1, m / p, p);
    }
  }

  lemma LessBehind(c: char, s: string, d: char, t: string)
    ensures TextLess([c] + s, [d] + t) <==> c < d || (c == d && TextLess(s, t))
  {
    assert ([c] + s)[1..] == s && ([d] + t)[1..] == t;
  }

  lemma PaddedFront(n: nat, width: nat, s: string)
    requires width > 0 && n < Pow10(width)
    ensures Pow10(width - 1) > 0 && n / Pow10(width - 1) < 10 && n % Pow10(width - 1) < Pow10(width - 1)
    ensures Padded(n, width) + s == [Digit(n / Pow10(width - 1))] + (Padded(n % Pow10(width - 1), width - 1) + s)
  {
    Pow10Positive(width - 1);
    TopDigit(n, Pow10(width - 1));
  }

  lemma TopDigitDecides(n: nat, m: nat, p: nat, s: string, t: string, less: bool)
    requires p > 0 && n / p < 10 && m / p < 10
    requires TextLess(s, t) <==> n % p < m % p || (n % p == m % p && less)
    ensures TextLess([Digit(n / p)] + s, [Digit(m / p)] + t) <==> n < m || (n == m && less)
  {
    DigitsOrder(n, m, p);
    LessBehind(Digit(n / p), s, Digit(m / p), t);
  }

  /** Padded numbers of one width compare as numbers, and then what follows them decides. */
  lemma {:induction false} PaddedOrder(n: nat, m: nat, width: nat, s: string, t: string)
    requires n < Pow10(width) && m < Pow10(width)
    ensures TextLess(Padded(n, width) + s, Padded(m, width) + t) <==> n < m || (n == m && TextLess(s, t))
    decreases width
  {
    if width == 0 {
      assert "" + s == s && "" + t == t;
    } else {
      var p := Pow10(width - 1);
      PaddedFront(n, width, s);
      PaddedFront(m, width, t);
      var x, y := n % p, m % p;
      PaddedOrder(x, y, width - 1, s, t);
      TopDigitDecides(n, m, p, Padded(x, width - 1) + s, Padded(y, width - 1) + t, TextLess(s, t));
    }
  }

  /** The fraction is left out when it is zero. */
  function Fraction(micro: nat, offset: string): string
    requires micro < 1_000_000
  {
    SixDigits();
    if micro == 0 then offset else "." + (Padded(micro, 6) + offset)
  }

  lemma SixDigits()
    ensures Pow10(1) == 10 && Pow10(2) == 100 && Pow10(4) == 10_000 && Pow10(6) == 1_000_000
  {
    assert Pow10(3) == 1_000 && Pow10(5) == 100_000;
  }

  function Iso(m: Moment, offset: string): string
    requires Valid(m)
  {
    SixDigits();
    Padded(m.year, 4) + (['-'] + (Padded(m.month, 2) + (['-'] + (Padded(m.day, 2) + (['T'] +
    (Padded(m.hour, 2) + ([':'] + (Padded(m.minute, 2) + ([':'] + (Padded(m.second, 2) +
    Fraction(m.micro, offset)))))))))))
  }

  /** An offset that begins with a sign, which sorts before the point of a fraction. */
  predicate Signed(offset: string) {
    offset != "" && (offset[0] == '+' || offset[0] == '-')
  }

  lemma NotLessSelf(s: string)
    ensures !TextLess(s, s)
  {
    if s != "" {
      NotLessSelf(s[1..]);
    }
  }

  lemma FractionOrder(a: nat, b: nat, offset: string)
    requires a < 1_000_000 && b < 1_000_000 && Signed(offset)
    ensures TextLess(Fraction(a, offset), Fraction(b, offset)) <==> a < b
  {
    SixDigits();
    NotLessSelf(offset);
    if a > 0 && b > 0 {
      LessBehind('.', Padded(a, 6) + offset, '.', Padded(b, 6) + offset);
      PaddedOrder(a, b, 6, offset, offset);
    }
  }

  /** A separator and a two-digit field. */
  lemma FieldOrder(c: char, n: nat, m: nat, s: string, t: string)
    requires n < 100 && m < 100
    ensures Pow10(2) == 100
    ensures TextLess([c] + (Padded(n, 2) + s), [c] + (Padded(m, 2) + t)) <==> n < m || (n == m && TextLess(s, t))
  {
    SixDigits();
    LessBehind(c, Padded(n, 2) + s, c, Padded(m, 2) + t);
    PaddedOrder(n, m, 2, s, t);
  }

  function FromSecond(m: Moment, offset: string): string
    requires Valid(m)
  {
    SixDigits();
    [':'] + (Padded(m.second, 2) + Fraction(m.micro, offset))
  }

  function FromHour(m: Moment, offset: string): string
    requires Valid(m)
  {
    SixDigits();
    ['T'] + (Padded(m.hour, 2) + ([':'] + (Padded(m.minute, 2) + FromSecond(m, offset))))
  }

  lemma TimeOrder(a: Moment, b: Moment, offset: string)
    requires Valid(a) && Valid(b) && Signed(offset)
    ensures TextLess(FromHour(a, offset), FromHour(b, offset)) <==>
              a.hour < b.hour || (a.hour == b.hour && (a.minute < b.minute || (a.minute == b.minute &&
              (a.second < b.second || (a.second == b.second && a.micro < b.micro)))))
  {
    FractionOrder(a.micro, b.micro, offset);
    FieldOrder(':', a.second, b.second, Fraction(a.micro, offset), Fraction(b.micro, offset));
    FieldOrder(':', a.minute, b.minute, FromSecond(a, offset), FromSecond(b, offset));
    FieldOrder('T', a.hour, b.hour, [':'] + (Padded(a.minute, 2) + FromSecond(a, offset)), [':'] + (Padded(b.minute, 2) + FromSecond(b, offset)));
  }

  /** Under one signed offset, comparing the texts compares the times, even where a zero
      fraction has been left out. */
  lemma TextOrderIsTimeOrder(a: Moment, b: Moment, offset: string)
    requires Valid(a) && Valid(b) && Signed(offset)
    ensures TextLess(Iso(a, offset), Iso(b, offset)) <==> Instant(a) < Instant(b)
    ensures Iso(a, offset) == Iso(b, offset) <==> a == b
  {
    SixDigits();
    BeforeMeansEarlier(a, b);
    BeforeMeansEarlier(b, a);
    FieldsOrder(a, b, offset);
    FieldsOrder(b, a, offset);
    NotLessSelf(Iso(a, offset));
  }

  lemma FieldsOrder(a: Moment, b: Moment, offset: string)
    requires Valid(a) && Valid(b) && Signed(offset)
    ensures TextLess(Iso(a, offset), Iso(b, offset)) <==> Before(a, b)
  {
    SixDigits();
    TimeOrder(a, b, offset);
    FieldOrder('-', a.day, b.day, FromHour(a, offset), FromHour(b, offset));
    var da, db := ['-'] + (Padded(a.day, 2) + FromHour(a, offset)), ['-'] + (Padded(b.day, 2) + FromHour(b, offset));
    FieldOrder('-', a.month, b.month, da, db);
    var ma, mb := ['-'] + (Padded(a.month, 2) + da), ['-'] + (Padded(b.month, 2) + db);
    PaddedOrder(a.year, b.year, 4, ma, mb);
    assert Iso(a, offset) == Padded(a.year, 4) + ma && Iso(b, offset) == Padded(b.year, 4) + mb;
  }
}
