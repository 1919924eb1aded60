/** Gregorian calendar facts behind the dashboard's forecast horizon
    (the `isLeapYear` helper of StockPricePredictor.py). */
module Calendar {

  /** Gregorian leap-year rule. Python's `%` floors and Dafny's is Euclidean;
      both give a non-negative remainder for the positive divisors used here,
      so the predicate agrees with the Python one on every integer year. */
  predicate IsLeapYear(y: int)
  {
    (y % 4 == 0 && y % 100 != 0) || y % 400 == 0
  }

  /** The rule read the other way round: a leap year is a multiple of four,
      and a century year is a leap year only when it is a multiple of 400. */
  lemma LeapYearRule(y: int)
    ensures IsLeapYear(y) <==> y % 4 == 0 && (y % 100 == 0 ==> y % 400 == 0)
  {
  }

  /** The calendar repeats every 400 years. */
  lemma LeapYearPeriodic(y: int)
    ensures IsLeapYear(y + 400) == IsLeapYear(y)
  {
    DivUnique(y + 400, 4, y / 4 + 100, y % 4);
    DivUnique(y + 400, 100, y / 100 + 4, y % 100);
    DivUnique(y + 400, 400, y / 400 + 1, y % 400);
  }

  /** The four reference years: 2000 and 2024 are leap years, 1900 and 2023 are not. */
  lemma LeapYearExamples()
    ensures IsLeapYear(2000) && IsLeapYear(2024)
    ensures !IsLeapYear(1900) && !IsLeapYear(2023)
  {
  }

  /** Closed-form leap-year count: multiples of 4, minus multiples of 100,
      plus multiples of 400, up to m. Only differences are meaningful:
      LeapsThrough(b) - LeapsThrough(a) is the number of leap years in (a, b]. */
  function LeapsThrough(m: int): int
  {
    m / 4 - m / 100 + m / 400
  }

  /** Floor division steps by one exactly at the multiples of the divisor. */
  lemma {:induction false} DivStep(m: int, d: int)
    requires d > 0
    ensures m / d - (m - 1) / d == if m % d == 0 then 1 else 0
  {
    var q, r := m / d, m % d;
    assert m == d * q + r && 0 <= r < d;
    if r == 0 {
      assert m - 1 == d * (q - 1) + (d - 1);
      DivUnique(m - 1, d, q - 1, d - 1);
    } else {
      assert m - 1 == d * q + (r - 1);
      DivUnique(m - 1, d, q, r - 1);
    }
  }

  /** Euclidean division is determined by its quotient-remainder equation. */
  lemma {:induction false} DivUnique(n: int, d: int, q: int, r: int)
    requires d > 0 && 0 <= r < d && n == d * q + r
    ensures n / d == q && n % d == r
  {
    var q', r' := n / d, n % d;
    assert d * q' + r' == d * q + r;
    assert d * (q' - q) == r - r' by {
      assert d * (q' - q) == d * q' - d * q;
    }
    MultipleMagnitude(d, q' - q);
  }

  /** A non-zero multiple of d is at least d away from zero. */
  lemma {:induction false} MultipleMagnitude(d: int, k: int)
    requires d > 0
    ensures k >= 1 ==> d * k >= d
    ensures k <= -1 ==> d * k <= -d
  {
    if k >= 1 {
      assert d * k == d + d * (k - 1);
      assert d * (k - 1) >= 0;
    } else if k <= -1 {
      assert d * k == -d - d * (-k - 1);
      assert d * (-k - 1) >= 0;
    }
  }

  /** The closed-form count grows by one exactly at each leap year. */
  lemma {:induction false} LeapsThroughStep(m: int)
    ensures LeapsThrough(m) - LeapsThrough(m - 1) == if IsLeapYear(m) then 1 else 0
  {
    DivStep(m, 4);
    DivStep(m, 100);
    DivStep(m, 400);
  }

  /** Each 400-year cycle holds exactly 97 leap years. */
  lemma {:induction false} LeapsThroughCycle(m: int)
    ensures LeapsThrough(m + 400) == LeapsThrough(m) + 97
  {
    DivUnique(m + 400, 4, m / 4 + 100, m % 4);
    DivUnique(m + 400, 100, m / 100 + 4, m % 100);
    DivUnique(m + 400, 400, m / 400 + 1, m % 400);
  }
}
