/** The current year taken from today's date string, `int(TODAY[:4])` in
    StockPricePredictor.py, where TODAY is formatted as `%Y-%m-%d`. */
module DateText {
  import opened Wrappers

  predicate IsDigit(c: char)
  {
    '0' <= c <= '9'
  }

  predicate AllDigits(s: string)
  {
    forall i :: 0 <= i < |s| ==> IsDigit(s[i])
  }

  function DigitValue(c: char): (v: nat)
    requires IsDigit(c)
    ensures v < 10
  {
    (c as int) - ('0' as int)
  }

  function DigitChar(v: nat): (c: char)
    requires v < 10
    ensures IsDigit(c) && DigitValue(c) == v
  {
    (('0' as int) + v) as char
  }

  function Pow10(n: nat): (p: nat)
    ensures p >= 1
  {
    if n == 0 then 1 else 10 * Pow10(n - 1)
  }

  /** The decimal number a digit string denotes, most significant digit first.
      A string of n digits denotes a number below 10^n. */
  function DecimalValue(s: string): (v: nat)
    requires AllDigits(s)
    ensures v < Pow10(|s|)
  {
    if s == [] then 0 else 10 * DecimalValue(s[..|s| - 1]) + DigitValue(s[|s| - 1])
  }

  /** Python's `int(text)` on the text it can meet here: a non-empty run of
      ASCII digits gives its decimal value; anything else raises ValueError,
      modelled as None. */
  function ParseDigits(s: string): Option<nat>
  {
    if s != [] && AllDigits(s) then Some(DecimalValue(s)) else None
  }

  /** The slice `text[:4]`: the first four characters, or all of a shorter text. */
  function FirstFour(text: string): (p: string)
    ensures |p| == if |text| < 4 then |text| else 4
    ensures text == p + text[|p|..]
  {
    if |text| < 4 then text else text[..4]
  }

  /** `year = int(TODAY[:4])`. */
  function CurrentYear(today: string): Option<nat>
  {
    ParseDigits(FirstFour(today))
  }

  /** The `%Y-%m-%d` shape: four digits, a dash, two digits, a dash, two digits. */
  predicate IsIsoDate(s: string)
  {
    |s| == 10 && s[4] == '-' && s[7] == '-' &&
    AllDigits(s[..4]) && AllDigits(s[5..7]) && AllDigits(s[8..])
  }

  /** n written in exactly `width` decimal digits, padded with leading zeros
      (the `%Y`, `%m` and `%d` fields of strftime). */
  function PadDigits(n: nat, width: nat): (s: string)
    ensures |s| == width && AllDigits(s)
  {
    if width == 0 then [] else PadDigits(n / 10, width - 1) + [DigitChar(n % 10)]
  }

  /** Today's date as the dashboard formats it. */
  function IsoDate(y: nat, m: nat, d: nat): (s: string)
    requires y <= 9999 && 1 <= m <= 12 && 1 <= d <= 31
    ensures IsIsoDate(s)
  {
    var s := PadDigits(y, 4) + "-" + PadDigits(m, 2) + "-" + PadDigits(d, 2);
    assert s[..4] == PadDigits(y, 4);
    assert s[5..7] == PadDigits(m, 2);
    assert s[8..] == PadDigits(d, 2);
    s
  }

  /** Reading back a zero-padded numeral gives the number written. */
  lemma {:induction false} DecimalOfPadDigits(n: nat, width: nat)
    requires n < Pow10(width)
    ensures DecimalValue(PadDigits(n, width)) == n
  {
    if width > 0 {
      var s := PadDigits(n, width);
      assert s[..|s| - 1] == PadDigits(n / 10, width - 1);
      DecimalOfPadDigits(n / 10, width - 1);
    }
  }

  /** For a `DDDD-DD-DD` string the parse succeeds, and the year is the value
      of the first four digits, so it lies in 0..9999. */
  lemma YearOfIsoDate(s: string)
    requires IsIsoDate(s)
    ensures CurrentYear(s).Some?
    ensures CurrentYear(s).value ==
            1000 * DigitValue(s[0]) + 100 * DigitValue(s[1]) + 10 * DigitValue(s[2]) + DigitValue(s[3])
    ensures CurrentYear(s).value <= 9999
  {
    var p := s[..4];
    assert IsDigit(p[0]) && IsDigit(p[1]) && IsDigit(p[2]) && IsDigit(p[3]);
    var p3, p2, p1 := p[..3], p[..3][..2], p[..3][..2][..1];
    assert p1 == [s[0]] && p1[..0] == [];
    assert DecimalValue(p1) == DigitValue(s[0]);
    assert DecimalValue(p2) == 10 * DigitValue(s[0]) + DigitValue(s[1]);
    assert DecimalValue(p3) == 100 * DigitValue(s[0]) + 10 * DigitValue(s[1]) + DigitValue(s[2]);
    assert Pow10(4) == 10000;
  }

  /** Formatting today's date and reading its year back recovers the year. */
  lemma CurrentYearOfIsoDate(y: nat, m: nat, d: nat)
    requires y <= 9999 && 1 <= m <= 12 && 1 <= d <= 31
    ensures CurrentYear(IsoDate(y, m, d)) == Some(y)
  {
    var s := IsoDate(y, m, d);
    assert FirstFour(s) == PadDigits(y, 4);
    assert Pow10(4) == 10000;
    DecimalOfPadDigits(y, 4);
  }

  /** The error path: a non-digit among the first four characters makes the
      parse return None. */
  lemma CurrentYearRejects(today: string, i: nat)
    requires i < |today| && i < 4 && !IsDigit(today[i])
    ensures CurrentYear(today) == None
  {
    assert FirstFour(today)[i] == today[i];
  }

  /** An empty text has no year: `int("")` raises. */
  lemma CurrentYearOfEmpty()
    ensures CurrentYear("") == None
  {
  }
}
