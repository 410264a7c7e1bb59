/** The fixed-point Money type of money.go: one int64 field M holding the
    amount scaled by the configured DP. Every method that changes M does so
    in place and returns the receiver, as the Go methods return `m`; a Go
    panic becomes a Panic result carrying the message. Float arithmetic
    (Setf, Mulf, Div, Get) is idealised over exact reals. */
module Money {
  import opened GoInt
  import opened Finance
  import opened Fintech
  import opened GoFormat

  /** The raw value Neg leaves: zero stays zero, anything else is multiplied
      by -1 in int64 arithmetic, so MinInt64 wraps back to itself. */
  function Negated(x: int64): (r: int64)
    ensures x == 0 ==> r == 0
    ensures x == MinInt64 ==> r == MinInt64
    ensures x != MinInt64 ==> r == -x
  {
    if x != 0 then Wrap(x * -1) else x
  }

  /** Negating twice gives back every int64, MinInt64 included. */
  lemma NegatedInvolutive(x: int64)
    ensures Negated(Negated(x)) == x
  {
  }

  /** The raw value Abs leaves: negatives are negated. */
  function Absolute(x: int64): (r: int64)
    ensures x >= 0 ==> r == x
    ensures x < 0 ==> r == Negated(x)
    ensures r >= 0 <==> x != MinInt64
    ensures x != MinInt64 ==> r == GoInt.Abs(x)
  {
    if x < 0 then Negated(x) else x
  }

  /** Abs is idempotent. */
  lemma AbsoluteIdempotent(x: int64)
    ensures Absolute(Absolute(x)) == Absolute(x)
  {
  }

  /** The text String renders for the raw value x at scale dp: the truncated
      quotient of x by dp in `%d`, a '.', and the remainder of Abs(x) by dp
      in `%02d`. */
  function MoneyText(x: int64, dp: int): (t: string)
    requires dp > 0
    ensures |t| >= 4
    ensures t[0] == '-' <==> x <= -dp
    ensures x != MinInt64 ==> forall i :: 0 < i < |t| ==> t[i] != '-'
  {
    var q, r := Quot(x, dp), Rem(Absolute(x), dp);
    QuotNegative(x, dp);
    FormatDTail(q);
    JoinShape(FormatD(q), Format02D(r));
    FormatD(q) + "." + Format02D(r)
  }

  /** The truncated quotient is negative exactly when the dividend is at most -d. */
  lemma QuotNegative(x: int, d: int)
    requires d > 0
    ensures Quot(x, d) < 0 <==> x <= -d
  {
    var q := Quot(x, d);
    if q < 0 {
      MulAtLeastSelf(d, -q);
      assert d * q == -(d * -q);
    }
  }

  /** Past its first character, `%d` prints only digits. */
  lemma FormatDTail(x: int)
    ensures forall i :: 0 < i < |FormatD(x)| ==> IsDigit(FormatD(x)[i])
  {
    if x < 0 {
      assert forall i :: 0 < i < |FormatD(x)| ==> FormatD(x)[i] == Digits(-x)[i - 1];
    }
  }

  /** The shape of "<whole>.<fraction>": at least four characters, the first
      that of the whole part, and no '-' after it when the fraction is all
      digits. */
  lemma JoinShape(w: string, f: string)
    requires |w| >= 1 && |f| >= 2
    requires forall i :: 0 < i < |w| ==> IsDigit(w[i])
    ensures var t := w + "." + f;
      && |t| >= 4 && t[0] == w[0]
      && (AllDigits(f) ==> forall i :: 0 < i < |t| ==> t[i] != '-')
  {
    var t := w + "." + f;
    assert forall i :: |w| < i < |t| ==> t[i] == f[i - |w| - 1];
  }

  class Money {
    var M: int64

    /** Go's zero value. */
    constructor ()
      ensures M == 0
    {
      M := 0;
    }

    /** Value: the raw scaled integer. */
    function Value(): (r: int64)
      reads this
      ensures r == M
    {
      M
    }

    /** Set: stores x as the raw value, so that Value() returns x. */
    method Set(x: int64) returns (r: Money)
      modifies this
      ensures r == this && M == x && Value() == x
    {
      M := x;
      return this;
    }

    /** Sign: -1 for a negative amount and 1 otherwise, zero included. */
    function Sign(): (r: int)
      reads this
      ensures r == -1 <==> M < 0
      ensures r == 1 <==> M >= 0
    {
      if M < 0 then -1 else 1
    }

    /** Neg: flips the sign of a non-zero amount. */
    method Neg() returns (r: Money)
      modifies this
      ensures r == this && M == Negated(old(M))
      ensures old(M) == 0 ==> M == 0
      ensures old(M) == MinInt64 ==> M == MinInt64
      ensures old(M) != MinInt64 ==> M == -old(M)
    {
      if M != 0 {
        M := Wrap(M * -1);
      }
      return this;
    }

    /** Abs: negates a negative amount. */
    method Abs() returns (r: Money)
      modifies this
      ensures r == this && M == Absolute(old(M))
      ensures old(M) >= 0 ==> M == old(M)
      ensures old(M) < 0 && old(M) != MinInt64 ==> M == -old(M)
      ensures M >= 0 <==> old(M) != MinInt64
    {
      if M < 0 {
        var _ := Neg();
      }
      return this;
    }

    /** Add: the sum of the raw values, or an OVFL panic that leaves M as it
        was when the sign test on the wrapped sum detects overflow. */
    method Add(n: Money) returns (res: Result<Money>)
      modifies this
      ensures IsInt64(old(M) + old(n.M)) ==> res == Ok(this) && M == old(M) + old(n.M)
      ensures !IsInt64(old(M) + old(n.M)) ==> res == Panic(OVFL) && M == old(M)
      ensures n != this ==> n.M == old(n.M)
    {
      var r := Wrap(M + n.M);
      AddSignTestExact(M, n.M);
      if AddSignTest(r, M, n.M) {
        return Panic(OVFL);
      }
      M := r;
      return Ok(this);
    }

    /** Sub: the difference of the raw values, or an OVFL panic that leaves M
        as it was when the sign test on the wrapped difference detects overflow. */
    method Sub(n: Money) returns (res: Result<Money>)
      modifies this
      ensures IsInt64(old(M) - old(n.M)) ==> res == Ok(this) && M == old(M) - old(n.M)
      ensures !IsInt64(old(M) - old(n.M)) ==> res == Panic(OVFL) && M == old(M)
      ensures n != this ==> n.M == old(n.M)
    {
      var r := Wrap(M - n.M);
      SubSignTestExact(M, n.M);
      if SubSignTest(r, M, n.M) {
        return Panic(OVFL);
      }
      M := r;
      return Ok(this);
    }

    /** Gett: the whole units of the amount, M divided by DP and truncated
        toward zero; a zero DP makes Go's integer division panic. */
    function Gett(cfg: Config): (r: Result<int64>)
      reads this, cfg
      requires cfg.Valid()
      ensures cfg.DP == 0 <==> r == Panic(DIVZERO)
      ensures cfg.DP != 0 ==> r.Ok? && IsTruncQuotient(M, cfg.DP, r.value)
    {
      if cfg.DP == 0 then Panic(DIVZERO) else Ok(Quot(M, cfg.DP))
    }

    /** Get: the amount as a (real-idealised) float, M / DPf. */
    function Get(cfg: Config): (r: real)
      reads this, cfg
      requires cfg.Valid() && cfg.DP != 0
      ensures r * cfg.DP as real == M as real
    {
      FDiv(M as real, cfg.DPf)
    }

    /** Mul: the product of the raw values, wrapped as int64 multiplication
        wraps, divided by DP with truncation and no rounding step. */
    method Mul(n: Money, cfg: Config) returns (res: Result<Money>)
      requires cfg.Valid()
      modifies this
      ensures old(cfg.DP) == 0 ==> res == Panic(DIVZERO) && M == old(M)
      ensures old(cfg.DP) != 0 ==>
        (res == Ok(this) && IsTruncQuotient(Wrap(old(M) * old(n.M)), old(cfg.DP), M))
      ensures n != this ==> n.M == old(n.M)
    {
      var dp := cfg.DP;
      if dp == 0 {
        return Panic(DIVZERO);
      }
      var m := Set(Quot(Wrap(M * n.M), dp));
      return Ok(m);
    }

    /** Setf: stores f scaled by DPf, truncated and then rounded by the
        remainder, which is f*DPf rounded half-up. Go's float-to-int
        conversion is only defined when the truncated value fits. */
    method Setf(f: real, cfg: Config) returns (r: Money)
      requires cfg.Valid()
      requires IsInt64(Trunc(FMul(f, cfg.DPf)))
      modifies this
      ensures r == this && M == Wrap(Floor(FMul(f, old(cfg.DPf)) + 0.5))
    {
      var fDPf := FMul(f, cfg.DPf);
      var t: int64 := Trunc(FMul(f, cfg.DPf));
      RndFloor(fDPf);
      r := Set(Rnd(t, fDPf - t as real));
    }

    /** Mulf, given k = int64(f * Guardf * DPf): the product i = M*k (wrapped
        as int64), divided by Guard and then by DP, rounded by the exact
        remainder. The result is i / (Guard*DP) rounded half-up. */
    method Mulf(k: int64, cfg: Config) returns (res: Result<Money>)
      requires cfg.Valid()
      modifies this
      ensures old(cfg.DP) == 0 ==> res == Panic(DIVZERO) && M == old(M)
      ensures old(cfg.DP) != 0 ==>
        (res == Ok(this) && M == Floor(FDiv(Wrap(old(M) * k) as real, (Guard * old(cfg.DP)) as real) + 0.5))
    {
      var dp := cfg.DP;
      var dpf := cfg.DPf;
      var i := Wrap(M * k);
      if dp == 0 {
        return Panic(DIVZERO);
      }
      var r: int64 := QuotToInt64(Quot(i, Guard), dp);
      MulfRounds(i, dp, dpf, r);
      var m := Set(Rnd(r, FDiv(FDiv(i as real, Guardf), dpf) - r as real));
      return Ok(m);
    }

    /** Div: the receiver times DP divided by n, computed in (real-idealised)
        floats, truncated and rounded by the remainder: DPf*M/n rounded
        half-up. A zero divisor is not trapped by the source and is excluded. */
    method Div(n: Money, cfg: Config) returns (r: Money)
      requires cfg.Valid() && n.M != 0
      requires IsInt64(Trunc(DivQuotient(cfg.DPf, M, n.M)))
      modifies this
      ensures r == this &&
        M == Wrap(Floor(FDiv(FMul(old(cfg.DPf), old(M) as real), old(n.M) as real) + 0.5))
    {
      var f := DivQuotient(cfg.DPf, M, n.M);
      var i: int64 := Trunc(f);
      DivReal(cfg.DPf, M as real, n.M as real);
      RndFloor(f);
      r := Set(Rnd(i, f - i as real));
    }

    /** String: formats the amount as "<whole>.<fraction>". Evaluating the
        arguments calls Value and then Abs before either division is done
        (the order of the gc compiler), so afterwards the receiver holds
        Absolute(M), even when a zero DP makes the division panic. */
    method String(cfg: Config) returns (res: Result<string>)
      requires cfg.Valid()
      modifies this
      ensures M == Absolute(old(M))
      ensures old(cfg.DP) == 0 ==> res == Panic(DIVZERO)
      ensures old(cfg.DP) != 0 ==> res == Ok(MoneyText(old(M), old(cfg.DP)))
    {
      var dp := cfg.DP;
      var v := Value();
      var a := Abs();
      var av := a.Value();
      if dp == 0 {
        return Panic(DIVZERO);
      }
      return Ok(FormatD(Quot(v, dp)) + "." + Format02D(Rem(av, dp)));
    }
  }

  /** Dividing an int64 by a positive divisor gives an int64. */
  function QuotToInt64(x: int64, d: int): (q: int64)
    requires d > 0
    ensures q == Quot(x, d)
  {
    Quot(x, d)
  }

  /** The float expression of Div: Guardf * DPf * m / n / Guardf, evaluated
      left to right. */
  function DivQuotient(dpf: real, m: int, n: int): (q: real)
    requires n != 0
    ensures q * (n as real) == dpf * (m as real)
  {
    DivReal(dpf, m as real, n as real);
    FDiv(FDiv(FMul(FMul(Guardf, dpf), m as real), n as real), Guardf)
  }

  /** In exact arithmetic the guard factor of Div cancels. */
  lemma DivReal(dpf: real, m: real, n: real)
    requires n != 0.0
    ensures FDiv(FDiv(FMul(FMul(Guardf, dpf), m), n), Guardf) == FDiv(FMul(dpf, m), n)
  {
    var x := dpf * m;
    assert Guardf * dpf * m == Guardf * x;
    var q := x / n;
    assert (Guardf * x) / n == Guardf * q;
  }

  /** Mulf's truncate-then-round is i / (Guard*DP) rounded half-up, and the
      result needs no wrap-around. */
  lemma MulfRounds(i: int64, dp: int, dpf: real, r: int)
    requires dp > 0 && dpf == dp as real && r == Quot(Quot(i, Guard), dp)
    ensures IsInt64(r) && Guard * dp > 0
    ensures Rnd(r, FDiv(FDiv(i as real, Guardf), dpf) - r as real)
         == Floor(FDiv(i as real, (Guard * dp) as real) + 0.5)
  {
    var y := i as real / (Guard * dp) as real;
    MulfQuotient(i, dp, r);
    MulfBounds(i, dp, r);
    MulfReal(i, dp, dpf);
    RndFloor(y);
  }

  /** The two truncating divisions of Mulf truncate the exact quotient by Guard*DP. */
  lemma MulfQuotient(i: int, dp: int, r: int)
    requires dp > 0 && r == Quot(Quot(i, Guard), dp)
    ensures Guard * dp > 0 && r == Trunc(i as real / (Guard * dp) as real)
  {
    QuotQuot(i, Guard, dp);
    TruncOfQuotient(i, Guard * dp);
  }

  /** The doubly divided int64 is well inside the int64 range. */
  lemma MulfBounds(i: int64, dp: int, r: int)
    requires dp > 0 && r == Quot(Quot(i, Guard), dp)
    ensures MinInt64 < r < MaxInt64
  {
    var q1 := Quot(i, Guard);
    QuotMagnitude(i, Guard);
    assert GoInt.Abs(q1) < MaxInt64;
    assert GoInt.Abs(r) <= GoInt.Abs(q1);
  }

  /** Dividing by Guardf and then by DPf is dividing by Guard*DP. */
  lemma MulfReal(i: int, dp: int, dpf: real)
    requires dp > 0 && dpf == dp as real
    ensures FDiv(FDiv(i as real, Guardf), dpf) == FDiv(i as real, (Guard * dp) as real)
  {
    assert (Guard * dp) as real == Guardf * dpf;
  }

  // ---------------------------------------------------------------------
  // Laws relating the operations

  /** Reading the amount as a float with Get and storing it back with Setf
      restores the raw value exactly (in exact arithmetic). */
  lemma SetfGetRoundTrip(m: int64, dp: int)
    requires dp > 0
    ensures IsInt64(Trunc(FMul(FDiv(m as real, dp as real), dp as real)))
    ensures Wrap(Floor(FMul(FDiv(m as real, dp as real), dp as real) + 0.5)) == m
  {
    var back := FMul(FDiv(m as real, dp as real), dp as real);
    assert back == m as real;
    TruncOf(m, 0.0);
    FloorAt(back + 0.5, m);
  }

  /** Scaling whole units by DP and dividing by DP gives the units back. */
  lemma QuotScaled(w: int, dp: int)
    requires dp > 0
    ensures Quot(w * dp, dp) == w
  {
    assert w * dp - dp * w == 0;
    QuotUnique(w * dp, dp, w);
  }

  /** The money value one (raw value DP) is a unit for Mul as long as the
      raw product fits in an int64. */
  lemma MulByUnit(x: int64, dp: int)
    requires dp > 0 && IsInt64(x * dp)
    ensures Quot(Wrap(x * dp), dp) == x
  {
    QuotScaled(x, dp);
  }

  /** A successful Add followed by a Sub of the same amount leaves the
      receiver as it was. */
  method AddThenSub(m: Money, n: Money) returns (res: Result<Money>)
    requires m != n && IsInt64(m.M + n.M)
    modifies m
    ensures res == Ok(m) && m.M == old(m.M) && n.M == old(n.M)
  {
    var _ := m.Add(n);
    res := m.Sub(n);
  }

  // ---------------------------------------------------------------------
  // The text of String

  /** The text String evidently means for x at its default scale of two
      decimal places (dp = 100, where `%02d` prints exactly the two fraction
      digits): a '-' for every negative amount, then the whole units and the
      fraction of its magnitude. */
  function SignedMoneyText(x: int, dp: int): string
    requires dp > 0
  {
    (if x < 0 then "-" else "") + (Digits(GoInt.Abs(Quot(x, dp))) + "." + Format02D(GoInt.Abs(Rem(x, dp))))
  }

  /** String's text is the signed text for every amount except MinInt64 and
      those strictly between -DP and 0. */
  lemma MoneyTextAgrees(x: int64, dp: int)
    requires dp > 0 && x != MinInt64 && (x >= 0 || x <= -dp)
    ensures MoneyText(x, dp) == SignedMoneyText(x, dp)
  {
    var q, r := Quot(x, dp), Rem(x, dp);
    var w, f := Digits(GoInt.Abs(q)), Format02D(GoInt.Abs(r));
    if x >= 0 {
      assert FormatD(q) == w && Format02D(Rem(Absolute(x), dp)) == f;
      assert "" + (w + "." + f) == w + "." + f;
    } else {
      QuotNeg(x, dp);
      assert Absolute(x) == -x && Quot(-x, dp) == -q;
      NegMul(dp, q);
      assert Rem(-x, dp) == -r;
      assert FormatD(q) == "-" + w;
      assert "-" + w + "." + f == "-" + (w + "." + f);
    }
  }

  /** Between -DP and 0 the whole part is 0, which `%d` prints unsigned, and
      the fraction is that of the magnitude: the text is the positive
      amount's text. */
  lemma MoneyTextLosesSign(x: int64, dp: int)
    requires dp > 0 && -dp < x < 0 && x != MinInt64
    ensures MoneyText(x, dp) == MoneyText(-x, dp) && x != -x
  {
    assert dp * 0 == 0;
    QuotUnique(x, dp, 0);
    QuotUnique(-x, dp, 0);
    assert Absolute(x) == -x && Absolute(-x) == -x;
  }

  /** The instance M = -5 at the default scale. */
  lemma MoneyTextLosesSignAtCents()
    ensures MoneyText(-5, 100) == "0.05" == MoneyText(5, 100)
  {
    MoneyTextLosesSign(-5, 100);
    assert Quot(5, 100) == 0;
    assert Rem(5, 100) == 5;
    assert Digits(0) == "0";
    assert Format02D(5) == "05";
  }

  /** `%02d` pads only to two digits, so from three decimal places on the
      fraction's leading zeros are lost: 1.050 (M = 1050 at DP = 1000)
      prints as 1.50, while 1.500 prints in full. */
  lemma MoneyTextAtThousandths()
    ensures MoneyText(1050, 1000) == "1.50" && MoneyText(1500, 1000) == "1.500"
  {
    assert Quot(1050, 1000) == 1 && Rem(1050, 1000) == 50;
    assert Quot(1500, 1000) == 1 && Rem(1500, 1000) == 500;
    assert Digits(1) == "1";
    assert Digits(50) == "50";
    assert Digits(500) == "500";
  }

  /** The signed text keeps distinct amounts apart: reading back the sign,
      the whole units and the fraction determines the amount. */
  lemma SignedMoneyTextInjective(x: int, y: int, dp: int)
    requires dp > 0 && SignedMoneyText(x, dp) == SignedMoneyText(y, dp)
    ensures x == y
  {
    var qx, qy := GoInt.Abs(Quot(x, dp)), GoInt.Abs(Quot(y, dp));
    var rx, ry := GoInt.Abs(Rem(x, dp)), GoInt.Abs(Rem(y, dp));
    var tx := Digits(qx) + "." + Format02D(rx);
    var ty := Digits(qy) + "." + Format02D(ry);
    SignPrefix(x < 0, tx, Digits(qx), y < 0, ty, Digits(qy));
    SplitAtDot(Digits(qx), Format02D(rx), Digits(qy), Format02D(ry));
    DigitsRoundTrip(qx);
    DigitsRoundTrip(qy);
    assert qx == qy && rx == ry;
    MagnitudeDetermines(x, y, dp);
  }

  /** A '-' prefix on one text and none on the other, when the unprefixed
      texts start with a digit, cannot give the same text. */
  lemma SignPrefix(nx: bool, tx: string, dx: string, ny: bool, ty: string, dy: string)
    requires |dx| >= 1 && AllDigits(dx) && |tx| > |dx| && tx[..|dx|] == dx
    requires |dy| >= 1 && AllDigits(dy) && |ty| > |dy| && ty[..|dy|] == dy
    requires (if nx then "-" else "") + tx == (if ny then "-" else "") + ty
    ensures nx == ny && tx == ty
  {
    var sx, sy := (if nx then "-" else "") + tx, (if ny then "-" else "") + ty;
    assert sx[0] == (if nx then '-' else dx[0]);
    assert sy[0] == (if ny then '-' else dy[0]);
    if nx {
      assert tx == sx[1..] && ty == sy[1..];
    } else {
      assert tx == sx && ty == sy;
    }
  }

  /** Splitting "a.b" at its first '.' when a has no '.' is unique. */
  lemma SplitAtDot(a: string, b: string, c: string, d: string)
    requires AllDigits(a) && AllDigits(c) && a + "." + b == c + "." + d
    ensures a == c && b == d
  {
    var s, t := a + "." + b, c + "." + d;
    assert s[|a|] == '.' && t[|c|] == '.';
    assert forall i :: 0 <= i < |a| ==> s[i] == a[i];
    assert forall i :: 0 <= i < |c| ==> t[i] == c[i];
    assert |a| == |c|;
    assert a == s[..|a|] && c == t[..|c|];
    assert b == s[|a| + 1..] && d == t[|c| + 1..];
  }

  /** The sign, the magnitude of the truncated quotient and the magnitude
      of the remainder determine the dividend. */
  lemma MagnitudeDetermines(x: int, y: int, dp: int)
    requires dp > 0 && (x < 0 <==> y < 0)
    requires GoInt.Abs(Quot(x, dp)) == GoInt.Abs(Quot(y, dp))
    requires GoInt.Abs(Rem(x, dp)) == GoInt.Abs(Rem(y, dp))
    ensures x == y
  {
    var qx, qy := Quot(x, dp), Quot(y, dp);
    if x < 0 {
      assert qx == qy;
    } else {
      assert qx == qy;
    }
  }

  // ---------------------------------------------------------------------
  // Scenarios over the default configuration (two decimal places)

  /** Printing -1.05 twice: the first call shows the sign, and the Abs it
      runs leaves the receiver at 1.05 for the second. */
  method PrintTwice() returns (first: Result<string>, second: Result<string>)
    ensures first == Ok("-1.05") && second == Ok("1.05")
  {
    var cfg := new Config();
    var m := new Money();
    var _ := m.Set(-105);
    first := m.String(cfg);
    second := m.String(cfg);
    MoneyTexts();
  }

  lemma MoneyTexts()
    ensures MoneyText(-105, 100) == "-1.05" && MoneyText(105, 100) == "1.05"
  {
    assert Quot(-105, 100) == -1 && Quot(105, 100) == 1;
    assert Rem(105, 100) == 5;
    assert Digits(1) == "1";
    assert Format02D(5) == "05";
  }

  /** Setf sends exact halves toward plus infinity: 0.125 is stored as 13
      cents and -0.125 as -12. */
  method SetfHalves() returns (up: int64, down: int64)
    ensures up == 13 && down == -12
  {
    var cfg := new Config();
    var m := new Money();
    assert Trunc(FMul(0.125, 100.0)) == 12;
    var _ := m.Setf(0.125, cfg);
    FloorAt(FMul(0.125, 100.0) + 0.5, 13);
    up := m.Value();
    assert Trunc(FMul(-0.125, 100.0)) == -12;
    var _ := m.Setf(-0.125, cfg);
    FloorAt(FMul(-0.125, 100.0) + 0.5, -12);
    down := m.Value();
  }

  /** With zero decimal places DecimalChange leaves DP at 0, and every later
      integer division by DP panics. */
  method ZeroDecimals() returns (change: Outcome, whole: Result<int64>)
    ensures change == Completed && whole == Panic(DIVZERO)
  {
    var cfg := new Config();
    change := cfg.DecimalChange(0);
    var m := new Money();
    whole := m.Gett(cfg);
  }
}
