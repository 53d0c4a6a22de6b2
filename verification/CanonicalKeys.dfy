/** The canonical key codec: integers and floating-point numbers as unsigned keys in the same order.
  * Words of 64 bits are numbers below 2^64; flipping the top bit and inverting all bits are written as arithmetic. */
module CanonicalKeys {

  const TWO52: nat := 0x10_0000_0000_0000
  const TWO63: nat := 0x8000_0000_0000_0000
  const MAX64: nat := 0xFFFF_FFFF_FFFF_FFFF

  function FlipTop(w: nat): nat
    requires w <= MAX64
  {
    if w < TWO63 then w + TWO63 else w - TWO63
  }

  function Invert(w: nat): nat
    requires w <= MAX64
  {
    MAX64 - w
  }

  // ---- integers ----

  predicate IsI64(v: int) { 0 - TWO63 <= v < TWO63 }

  /** Two's complement. */
  function WordOf(v: int): nat
    requires IsI64(v)
  {
    if v >= 0 then v else v + MAX64 + 1
  }

  function EncodeI64(v: int): nat
    requires IsI64(v)
  {
    FlipTop(WordOf(v))
  }

  function DecodeI64(w: nat): int
    requires w <= MAX64
  {
    var f := FlipTop(w);
    if f < TWO63 then f else f - MAX64 - 1
  }

  /** The integer codec keeps order and value, and uses every key. */
  lemma I64Codec(a: int, b: int, w: nat)
    requires IsI64(a) && IsI64(b) && w <= MAX64
    ensures a <= b <==> EncodeI64(a) <= EncodeI64(b)
    ensures DecodeI64(EncodeI64(a)) == a && IsI64(DecodeI64(w)) && EncodeI64(DecodeI64(w)) == w
  {
  }

  // ---- floating point ----

  /** A binary64 number by its fields: sign, biased exponent of 11 bits, fraction of 52 bits. */
  datatype F64 = F64(neg: bool, exp: nat, frac: nat)

  predicate IsF64(x: F64) { x.exp < 2048 && x.frac < TWO52 }

  /** A number as a program holds it. */
  type Float = x: F64 | IsF64(x) witness F64(false, 0, 0)

  predicate IsNan(x: F64) { x.exp == 2047 && x.frac != 0 }

  predicate IsInf(x: F64) { x.exp == 2047 && x.frac == 0 }

  predicate IsZero(x: F64) { x.exp == 0 && x.frac == 0 }

  function Bits(x: F64): (w: nat)
    requires IsF64(x)
    ensures w <= MAX64
  {
    (if x.neg then TWO63 else 0) + x.exp * TWO52 + x.frac
  }

  function OfBits(w: nat): (x: F64)
    requires w <= MAX64
    ensures IsF64(x)
  {
    var rest := if w >= TWO63 then w - TWO63 else w;
    F64(w >= TWO63, rest / TWO52, rest % TWO52)
  }

  const NAN: F64 := F64(false, 2047, 0x8_0000_0000_0000)

  /** All NaNs share the last key, both zeros share one; positive numbers get the top bit, negative ones are inverted. */
  function EncodeF64(x: F64): (w: nat)
    requires IsF64(x)
    ensures w <= MAX64
  {
    if IsNan(x) then MAX64
    else
      var n := if IsZero(x) then F64(false, 0, 0) else x;
      if Bits(n) < TWO63 then FlipTop(Bits(n)) else Invert(Bits(n))
  }

  function DecodeF64(w: nat): (x: F64)
    requires w <= MAX64
    ensures IsF64(x)
  {
    if w == MAX64 then NAN
    else if w >= TWO63 then OfBits(FlipTop(w))
    else OfBits(Invert(w))
  }

  // ---- the order of the numbers themselves ----

  ghost function Pow2(n: nat): (p: nat)
    ensures p >= 1
  {
    if n == 0 then 1 else 2 * Pow2(n - 1)
  }

  /** The absolute value of a finite number in units of the smallest subnormal. */
  ghost function Magnitude(x: F64): nat {
    if x.exp == 0 then x.frac else (TWO52 + x.frac) * Pow2(x.exp - 1)
  }

  ghost function Value(x: F64): int { var m: int := Magnitude(x); if x.neg then 0 - m else m }

  /** Comparison by value; the infinities bound all finite numbers. */
  ghost predicate Leq(a: F64, b: F64) {
    if IsInf(a) then a.neg || (IsInf(b) && !b.neg)
    else if IsInf(b) then !b.neg
    else Value(a) <= Value(b)
  }

  lemma {:induction false} Pow2Grows(m: nat, n: nat)
    requires m <= n
    ensures Pow2(m) <= Pow2(n)
  {
    if m < n { Pow2Grows(m, n - 1); }
  }

  lemma Scaled(a: nat, b: nat, p: nat, q: nat)
    requires a <= b && p <= q
    ensures a * p <= b * q
  {
    assert a * p <= b * p by { assert (b - a) * p >= 0; }
    assert b * p <= b * q by { assert b * (q - p) >= 0; }
  }

  lemma ScaledStrict(a: nat, b: nat, p: nat)
    requires a < b && p >= 1
    ensures a * p < b * p
  {
    assert (b - a) * p >= 1;
  }

  /** A larger exponent is a larger number, whatever the fractions. */
  lemma ExponentDecides(a: F64, b: F64)
    requires IsF64(a) && IsF64(b) && a.exp < b.exp
    ensures Magnitude(a) < Magnitude(b)
  {
    if a.exp == 0 {
      Scaled(TWO52, TWO52 + b.frac, 1, Pow2(b.exp - 1));
    } else {
      Pow2Grows(a.exp, b.exp - 1);
      ScaledStrict(TWO52 + a.frac, 2 * TWO52, Pow2(a.exp - 1));
      assert 2 * TWO52 * Pow2(a.exp - 1) == TWO52 * Pow2(a.exp);
      Scaled(TWO52, TWO52 + b.frac, Pow2(a.exp), Pow2(b.exp - 1));
    }
  }

  /** The bits of positive numbers are in the order of their magnitudes. */
  lemma BitsAscend(a: F64, b: F64)
    requires IsF64(a) && IsF64(b) && a.exp * TWO52 + a.frac < b.exp * TWO52 + b.frac
    ensures Magnitude(a) < Magnitude(b)
  {
    if a.exp < b.exp {
      ExponentDecides(a, b);
    } else if a.exp == b.exp {
      if a.exp > 0 { ScaledStrict(TWO52 + a.frac, TWO52 + b.frac, Pow2(a.exp - 1)); }
    }
  }

  /** Both at once: which of two magnitudes is smaller, the fields say. */
  lemma MagnitudeOrder(a: F64, b: F64)
    requires IsF64(a) && IsF64(b)
    ensures Magnitude(a) <= Magnitude(b) <==> a.exp * TWO52 + a.frac <= b.exp * TWO52 + b.frac
    ensures Magnitude(a) == 0 <==> IsZero(a)
  {
    var x, y := a.exp * TWO52 + a.frac, b.exp * TWO52 + b.frac;
    if x < y { BitsAscend(a, b); }
    if y < x { BitsAscend(b, a); }
    if x == y { assert a.exp == b.exp && a.frac == b.frac; }
    var zero := F64(false, 0, 0);
    if !IsZero(a) { BitsAscend(zero, a); }
  }

  /** `a <= b` exactly if the keys are in that order: for all numbers, subnormal and infinite ones included. */
  lemma OrderEmbedding(a: F64, b: F64)
    requires IsF64(a) && IsF64(b) && !IsNan(a) && !IsNan(b)
    ensures Leq(a, b) <==> EncodeF64(a) <= EncodeF64(b)
  {
    MagnitudeOrder(a, b);
    MagnitudeOrder(b, a);
    hide Magnitude;
    KeyIs(a);
    KeyIs(b);
    hide EncodeF64;
    FieldsBound(a);
    FieldsBound(b);
  }

  /** The key by the fields. */
  lemma KeyIs(x: F64)
    requires IsF64(x) && !IsNan(x)
    ensures EncodeF64(x) == if IsZero(x) then TWO63 else if x.neg then TWO63 - 1 - (x.exp * TWO52 + x.frac) else TWO63 + (x.exp * TWO52 + x.frac)
  {
  }

  lemma FieldsBound(x: F64)
    requires IsF64(x) && !IsNan(x)
    ensures x.exp * TWO52 + x.frac <= 2047 * TWO52 && (IsInf(x) <==> x.exp * TWO52 + x.frac == 2047 * TWO52)
  {
  }

  /** No number takes the key of NaN. */
  lemma NanKey(x: F64)
    requires IsF64(x)
    ensures EncodeF64(x) == MAX64 <==> IsNan(x)
  {
  }

  /** Decoding gives the number back, except that a negative zero loses its sign. */
  lemma DecodeEncode(x: F64)
    requires IsF64(x) && !IsNan(x)
    ensures DecodeF64(EncodeF64(x)) == if IsZero(x) then F64(false, 0, 0) else x
  {
    NanKey(x);
    KeyIs(x);
    FieldsBound(x);
    var bits := x.exp * TWO52 + x.frac;
    assert bits / TWO52 == x.exp && bits % TWO52 == x.frac;
  }

  /** Numbers share a key only if they are equal by value. */
  lemma SameKey(a: F64, b: F64)
    requires IsF64(a) && IsF64(b) && !IsNan(a) && !IsNan(b)
    ensures EncodeF64(a) == EncodeF64(b) <==> Leq(a, b) && Leq(b, a)
  {
    OrderEmbedding(a, b);
    OrderEmbedding(b, a);
  }
}
