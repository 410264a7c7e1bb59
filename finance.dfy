/** The package's precision configuration and constants (finance.go): the
    guard factor and the rounding thresholds (package variables that are
    never reassigned), the panic messages, and the decimal scale DP. The
    process-wide globals DP and DPf become the fields of a configuration
    object, passed explicitly to the money operations that read the scale. */
module Finance {
  import opened GoInt
  import opened GoFormat

  /** Extra scale used only inside the guarded multiply and divide. */
  const Guard: int := 100
  const Guardf: real := 100.0

  /** Rounding thresholds: a remainder of at least Round rounds up, one below
      Roundn rounds down. */
  const Round: real := 0.5
  const Roundn: real := Round * -1.0

  /** The largest number of decimal places DecimalChange accepts. */
  const MAXDEC: int := 18

  const DTL: string := "Decimal places too large"
  const DLZ: string := "Decimal places cannot be less than zero"
  const OVFL: string := "Overflow"
  const BADQUOTE: string := "Quote read is bad or invalid"
  const UNABLE: string := "Unable to convert "

  /** The byte value of `"` in a quote feed. */
  const DOUBLEQUOTE: int := 34

  /** 10 to the power n. */
  function Pow10(n: nat): (p: nat)
    ensures p >= 1
  {
    if n == 0 then 1 else 10 * Pow10(n - 1)
  }

  /** 10^n is written in decimal as a 1 followed by n zeros, so a scale of
      10^d has d digits after its leading 1. */
  lemma {:induction false} Pow10Digits(n: nat)
    ensures Digits(Pow10(n)) == "1" + seq(n, _ => '0')
  {
    if n > 0 {
      Pow10Digits(n - 1);
      DigitsTimesTen(Pow10(n - 1));
      assert "1" + seq(n - 1, _ => '0') + "0" == "1" + seq(n, _ => '0');
    }
  }

  /** Every power of ten up to 10^18 fits in an int64, so the loop of
      DecimalChange never overflows. */
  lemma {:induction false} Pow10Fits(n: nat)
    requires n <= MAXDEC
    ensures Pow10(n) <= 1_000_000_000_000_000_000 < MaxInt64
    decreases MAXDEC - n
  {
    if n < MAXDEC {
      Pow10Fits(n + 1);
    } else {
      Pow10Add(6, 12);
      Pow10Add(6, 6);
      assert Pow10(6) == 1_000_000;
    }
  }

  lemma {:induction false} Pow10Add(a: nat, b: nat)
    ensures Pow10(a + b) == Pow10(a) * Pow10(b)
  {
    if a > 0 {
      Pow10Add(a - 1, b);
      assert Pow10(a + b) == 10 * Pow10(a - 1 + b);
    }
  }

  /** The scale set for d accepted decimal places: 10^d, except that d = 0
      leaves the scale at 0 (the multiplication loop is skipped and the
      starting value is never incremented). */
  function ScaleFor(d: int): (s: int)
    requires 0 <= d <= MAXDEC
    ensures d == 0 ==> s == 0
    ensures d > 0 ==> s == Pow10(d)
    ensures IsInt64(s)
  {
    Pow10Fits(d);
    if d == 0 then 0 else Pow10(d)
  }

  /** The decimal scale shared by the money operations: DP and its float
      copy DPf. */
  class Config {
    var DP: int64
    var DPf: real

    /** DPf is DP as a float, and DP is never negative. */
    ghost predicate Valid()
      reads this
    {
      DP >= 0 && DPf == DP as real
    }

    /** The package default: two decimal places. */
    constructor ()
      ensures Valid() && DP == 100 && DPf == 100.0
    {
      DP := 100;
      DPf := 100.0;
    }

    /** DecimalChange: checks d first, then computes 10^d by repeated
        multiplication and stores it in DP and DPf. A rejected d panics and
        leaves the configuration as it was. */
    method DecimalChange(d: int) returns (res: Outcome)
      requires Valid()
      modifies this
      ensures Valid()
      ensures d < 0 ==> res == Panicked(DLZ) && DP == old(DP) && DPf == old(DPf)
      ensures d > MAXDEC ==> res == Panicked(DTL) && DP == old(DP) && DPf == old(DPf)
      ensures 0 <= d <= MAXDEC ==> res == Completed && DP == ScaleFor(d) && DPf == DP as real
      ensures 0 < d <= MAXDEC ==> DP == Pow10(d)
      ensures d == 0 ==> DP == 0
    {
      if d < 0 {
        return Panicked(DLZ);
      }
      if d > MAXDEC {
        return Panicked(DTL);
      }
      var newDecimal: int64 := 0;
      if d > 0 {
        newDecimal := newDecimal + 1;
        var i := 0;
        while i < d
          invariant 0 <= i <= d
          invariant newDecimal == Pow10(i)
        {
          Pow10Fits(i + 1);
          newDecimal := newDecimal * 10;
          i := i + 1;
        }
      }
      DPf := newDecimal as real;
      DP := newDecimal;
      return Completed;
    }
  }
}
