/** The two integer verbs of Go's fmt package that Money.String uses: `%d`
    (decimal, with a leading '-' for negatives) and `%02d` (the same, padded
    with zeros after any sign to a width of at least two), with a reader that
    undoes `%d` on digit strings. */
module GoFormat {

  predicate IsDigit(c: char) { '0' <= c <= '9' }

  predicate AllDigits(s: string) { forall i :: 0 <= i < |s| ==> IsDigit(s[i]) }

  function DigitChar(d: int): (c: char)
    requires 0 <= d < 10
    ensures IsDigit(c)
  {
    "0123456789"[d]
  }

  function DigitValue(c: char): (d: int)
    requires IsDigit(c)
    ensures 0 <= d < 10
  {
    c as int - '0' as int
  }

  lemma DigitRoundTrip(d: int)
    requires 0 <= d < 10
    ensures DigitValue(DigitChar(d)) == d
  {
  }

  /** The decimal digits of n, most significant first, without leading zeros. */
  function Digits(n: nat): (s: string)
    ensures |s| >= 1 && AllDigits(s)
    ensures n < 10 <==> |s| == 1
    ensures n >= 10 ==> s[0] != '0'
  {
    if n < 10 then [DigitChar(n)] else Digits(n / 10) + [DigitChar(n % 10)]
  }

  /** Multiplying by ten appends a '0' to the digits. */
  lemma DigitsTimesTen(n: nat)
    requires n >= 1
    ensures Digits(10 * n) == Digits(n) + "0"
  {
    assert (10 * n) / 10 == n && (10 * n) % 10 == 0;
  }

  /** The number a string of digits denotes. */
  function DigitsValue(s: string): (n: nat)
    requires AllDigits(s)
  {
    if |s| == 0 then 0 else 10 * DigitsValue(s[..|s| - 1]) + DigitValue(s[|s| - 1])
  }

  /** Reading back the digits of n gives n. */
  lemma {:induction false} DigitsRoundTrip(n: nat)
    ensures DigitsValue(Digits(n)) == n
  {
    var s := Digits(n);
    if n < 10 {
      DigitRoundTrip(n);
    } else {
      DigitsRoundTrip(n / 10);
      assert s[..|s| - 1] == Digits(n / 10);
      DigitRoundTrip(n % 10);
    }
  }

  /** Go's `%d`. */
  function FormatD(x: int): (s: string)
    ensures |s| >= 1
    ensures x < 0 <==> s[0] == '-'
    ensures x >= 0 ==> s == Digits(x)
    ensures x < 0 ==> s == "-" + Digits(-x)
  {
    if x < 0 then "-" + Digits(-x) else Digits(x)
  }

  /** Go's `%02d`: `%d` with '0' inserted after the sign until the text is two
      characters wide. Only a single digit is ever short of that width (a
      negative number carries its '-'), so the padding is one '0' in front of
      a one-digit non-negative number; wider numbers are not cut. */
  function Format02D(x: int): (s: string)
    ensures |s| >= 2
    ensures x >= 0 ==> AllDigits(s) && DigitsValue(s) == x
    ensures x >= 10 || x < 0 ==> s == FormatD(x)
    ensures 0 <= x < 100 ==> |s| == 2
  {
    Format02DFacts(x);
    if 0 <= x < 10 then "0" + Digits(x) else FormatD(x)
  }

  lemma Format02DFacts(x: int)
    ensures var s := if 0 <= x < 10 then "0" + Digits(x) else FormatD(x);
      && (x >= 0 ==> AllDigits(s) && DigitsValue(s) == x)
      && (0 <= x < 100 ==> |s| == 2)
  {
    var s := if 0 <= x < 10 then "0" + Digits(x) else FormatD(x);
    if x >= 0 {
      DigitsRoundTrip(x);
      if x < 10 {
        assert s[..|s| - 1] == "0";
        assert DigitsValue(s[..|s| - 1]) == 10 * DigitsValue("") + 0;
      } else if x < 100 {
        assert Digits(x) == Digits(x / 10) + [DigitChar(x % 10)];
      }
    }
  }
}
