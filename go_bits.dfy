/** The sign-bit tests of Money.Add and Money.Sub on 64-bit words: Go
    computes `(r^m)&(r^n)` and `(r^m)&^(r^n)` on the two's-complement words
    and tests the result for being negative, that is, for its top bit. These
    lemmas show that the word tests are the sign-bit predicates AddSignTest
    and SubSignTest on the int64 values, which AddSignTestExact and
    SubSignTestExact relate to overflow. */
module GoBits {
  import opened GoInt

  /** The int64 a 64-bit word denotes in two's complement. */
  function Signed(v: bv64): int64
  {
    if v as int >= TWO63 then v as int - TWO64 else v as int
  }

  /** The top bit of a 64-bit word. */
  predicate Top(v: bv64) { v & 0x8000_0000_0000_0000 != 0 }

  /** A word's top bit is set exactly when the int64 it denotes is negative. */
  lemma TopOfSigned(v: bv64)
    ensures Top(v) <==> SignBit(Signed(v))
  {
    TopIsHigh(v);
    if v >= 0x8000_0000_0000_0000 {
      HighAsInt(v);
    } else {
      LowAsInt(v);
    }
  }

  lemma TopIsHigh(v: bv64)
    ensures Top(v) <==> v >= 0x8000_0000_0000_0000
  {
  }

  lemma HighAsInt(v: bv64)
    requires v >= 0x8000_0000_0000_0000
    ensures v as int >= 0x8000_0000_0000_0000
  {
  }

  lemma LowAsInt(v: bv64)
    requires v < 0x8000_0000_0000_0000
    ensures v as int < 0x8000_0000_0000_0000
  {
    NarrowAsInt(v);
    Bv63AsInt(v as bv63);
  }

  /** A word below 2^63 keeps its value in 63 bits. */
  lemma NarrowAsInt(v: bv64)
    requires v < 0x8000_0000_0000_0000
    ensures v as bv63 as int == v as int
  {
  }

  lemma Bv63AsInt(w: bv63)
    ensures w as int < 0x8000_0000_0000_0000
  {
  }

  /** The top bit of (a^b)&(a^c) and of (a^b)&^(a^c), from the top bits of a, b and c. */
  lemma TopOfXorAnd(a: bv64, b: bv64, c: bv64)
    ensures Top((a ^ b) & (a ^ c)) <==> (Top(a) != Top(b)) && (Top(a) != Top(c))
    ensures Top((a ^ b) & !(a ^ c)) <==> (Top(a) != Top(b)) && !(Top(a) != Top(c))
  {
  }

  /** Go's `(r^m)&(r^n) < 0` on the words r, m and n is AddSignTest on the
      int64 values they denote. */
  lemma AddWordTest(r: bv64, m: bv64, n: bv64)
    ensures Top((r ^ m) & (r ^ n)) <==> AddSignTest(Signed(r), Signed(m), Signed(n))
  {
    TopOfSigned(r);
    TopOfSigned(m);
    TopOfSigned(n);
    TopOfXorAnd(r, m, n);
  }

  /** Go's `(r^m)&^(r^n) < 0` on the words r, m and n is SubSignTest on the
      int64 values they denote. */
  lemma SubWordTest(r: bv64, m: bv64, n: bv64)
    ensures Top((r ^ m) & !(r ^ n)) <==> SubSignTest(Signed(r), Signed(m), Signed(n))
  {
    TopOfSigned(r);
    TopOfSigned(m);
    TopOfSigned(n);
    TopOfXorAnd(r, m, n);
  }
}
