/** Data types and raw values (src/types.h). */
module Values {
  import opened Words
  import opened Memory

  datatype DataType = I8 | U8 | I16 | U16 | I32 | U32 | I64 | U64 | F32 | F64 | Ptr | Text | RawBytes

  function TypeSize(t: DataType): (w: nat)
    ensures 1 <= w <= 8
  {
    match t
    case I8 | U8 => 1
    case I16 | U16 => 2
    case I32 | U32 | F32 => 4
    case I64 | U64 | F64 | Ptr => 8
    case Text | RawBytes => 1
  }

  /** The low bits of a word that a type of this width looks at. */
  function LowBits(v: Word, w: nat): (r: Word)
  {
    match w
    case 1 => v % 0x100
    case 2 => v % 0x1_0000
    case 4 => v % 0x1_0000_0000
    case _ => v
  }

  function Half(w: nat): int {
    match w
    case 1 => 0x80
    case 2 => 0x8000
    case 4 => 0x8000_0000
    case _ => 0x8000_0000_0000_0000
  }

  /** Two's complement reading of the low bits. */
  function Signed(v: Word, w: nat): int {
    var low := LowBits(v, w);
    if low < Half(w) then low else low - 2 * Half(w)
  }

  /** IEEE 754: not a number when the magnitude bits exceed those of infinity. */
  predicate IsNaN(v: Word, w: nat) {
    Magnitude(v, w) > (if w == 4 then 0x7F80_0000 else 0x7FF0_0000_0000_0000)
  }

  function Magnitude(v: Word, w: nat): int {
    var low := LowBits(v, w);
    if low < Half(w) then low else low - Half(w)
  }

  /** Sign-and-magnitude order of floats; +0 and -0 coincide. */
  function FloatRank(v: Word, w: nat): int {
    if LowBits(v, w) < Half(w) then Magnitude(v, w) else -Magnitude(v, w)
  }

  function ThreeWay(x: int, y: int): int {
    if x < y then -1 else if x > y then 1 else 0
  }

  /** Compares as the type says; a NaN is neither below nor above anything. */
  function Compare(a: Word, b: Word, t: DataType): int {
    match t
    case F32 | F64 =>
      var w := TypeSize(t);
      if IsNaN(a, w) || IsNaN(b, w) then 0 else ThreeWay(FloatRank(a, w), FloatRank(b, w))
    case I8 | I16 | I32 | I64 => ThreeWay(Signed(a, TypeSize(t)), Signed(b, TypeSize(t)))
    case U8 | U16 | U32 | U64 | Ptr => ThreeWay(LowBits(a, TypeSize(t)), LowBits(b, TypeSize(t)))
    case Text | RawBytes => 0
  }

  predicate Equal(a: Word, b: Word, t: DataType) {
    Compare(a, b, t) == 0
  }

  predicate IsSigned(t: DataType) {
    t == I8 || t == I16 || t == I32 || t == I64
  }

  predicate IsUnsigned(t: DataType) {
    t == U8 || t == U16 || t == U32 || t == U64 || t == Ptr
  }

  /** x is what the low bits of v mean: the one number in the type's range that agrees with them. */
  predicate Means(v: Word, t: DataType, x: int)
    requires IsSigned(t) || IsUnsigned(t)
  {
    var span := 2 * Half(TypeSize(t));
    (v - x) % span == 0 && (if IsSigned(t) then -Half(TypeSize(t)) <= x < Half(TypeSize(t)) else 0 <= x < span)
  }

  /** Agreeing with v modulo span, and at least low. */
  predicate Agrees(v: Word, x: int, span: int, low: int)
    requires span > 0
  {
    (v - x) % span == 0 && low <= x < low + span
  }

  /** The ranges of the types, spelled out. */
  lemma MeansSpelled(v: Word, x: int)
    ensures Means(v, I8, x) <==> Agrees(v, x, 0x100, -0x80)
    ensures Means(v, U8, x) <==> Agrees(v, x, 0x100, 0)
    ensures Means(v, I16, x) <==> Agrees(v, x, 0x1_0000, -0x8000)
    ensures Means(v, U16, x) <==> Agrees(v, x, 0x1_0000, 0)
    ensures Means(v, I32, x) <==> Agrees(v, x, 0x1_0000_0000, -0x8000_0000)
    ensures Means(v, U32, x) <==> Agrees(v, x, 0x1_0000_0000, 0)
    ensures Means(v, I64, x) <==> Agrees(v, x, 0x1_0000_0000_0000_0000, -0x8000_0000_0000_0000)
    ensures Means(v, U64, x) <==> Agrees(v, x, 0x1_0000_0000_0000_0000, 0)
    ensures Means(v, Ptr, x) <==> Agrees(v, x, 0x1_0000_0000_0000_0000, 0)
  {
  }

  lemma MultipleHasNoRest(q: int, m: int)
    requires m > 0
    ensures q * m % m == 0
  {
    var r := q * m % m;
    assert q * m == (q * m / m) * m + r;
    if r > 0 {
      assert r == (q - q * m / m) * m;
      AtLeastOnce(q - q * m / m, m);
    }
  }

  /** No multiple of m lies strictly between 0 and m in size. */
  lemma AtLeastOnce(k: int, m: int)
    requires m > 0
    ensures k * m <= -m || k == 0 || k * m >= m
  {
    if k >= 1 {
      assert k * m == m + (k - 1) * m;
    } else if k <= -1 {
      assert k * m == -m + (k + 1) * m;
    }
  }

  lemma Residue(v: int, m: int)
    requires m > 0
    ensures (v - v % m) % m == 0 && (v - (v % m - m)) % m == 0
  {
    MultipleHasNoRest(v / m, m);
    MultipleHasNoRest(v / m + 1, m);
    assert v - v % m == v / m * m;
    assert v - (v % m - m) == (v / m + 1) * m;
  }

  lemma LowBitsRest(v: Word, w: nat)
    requires w == 1 || w == 2 || w == 4 || w == 8
    ensures LowBits(v, w) == v % (2 * Half(w))
  {
  }

  lemma LowBitsMean(v: Word, t: DataType)
    requires IsSigned(t) || IsUnsigned(t)
    ensures Means(v, t, if IsSigned(t) then Signed(v, TypeSize(t)) else LowBits(v, TypeSize(t)))
  {
    var w := TypeSize(t);
    assert w == 1 || w == 2 || w == 4 || w == 8;
    assert Half(w) > 0;
    LowBitsRest(v, w);
    Residue(v, 2 * Half(w));
    hide LowBits, Half, TypeSize;
  }

  /** On integers the comparison is that of the numbers meant. */
  lemma ComparesNumbers(a: Word, b: Word, t: DataType, x: int, y: int)
    requires IsSigned(t) || IsUnsigned(t)
    requires Means(a, t, x) && Means(b, t, y)
    ensures Compare(a, b, t) < 0 <==> x < y
    ensures Compare(a, b, t) > 0 <==> x > y
    ensures Equal(a, b, t) <==> x == y
  {
    LowBitsMean(a, t);
    LowBitsMean(b, t);
    OneMeaning(a, t, x, if IsSigned(t) then Signed(a, TypeSize(t)) else LowBits(a, TypeSize(t)));
    OneMeaning(b, t, y, if IsSigned(t) then Signed(b, TypeSize(t)) else LowBits(b, TypeSize(t)));
    hide Means, Signed, LowBits;
  }

  lemma OneMeaning(v: Word, t: DataType, x: int, y: int)
    requires IsSigned(t) || IsUnsigned(t)
    requires Means(v, t, x) && Means(v, t, y)
    ensures x == y
  {
    var span := 2 * Half(TypeSize(t));
    SameResidue(v, x, y, span);
  }

  lemma SameResidue(v: int, x: int, y: int, span: int)
    requires span > 0 && (v - x) % span == 0 && (v - y) % span == 0 && -span < x - y < span
    ensures x == y
  {
    var i, j := (v - x) / span, (v - y) / span;
    assert x - y == (j - i) * span;
    AtLeastOnce(j - i, span);
  }

  /** On every type: swapping the sides negates, and what is not a number equals everything. */
  lemma CompareLaws(a: Word, b: Word, t: DataType)
    ensures Compare(b, a, t) == -Compare(a, b, t)
    ensures Equal(a, a, t)
    ensures (t == F32 || t == F64) && IsNaN(a, TypeSize(t)) ==> Equal(a, b, t)
  {
  }

  // --- Values in memory ---

  /** v is the little-endian value of the bytes of this type at a. */
  predicate Stands(mem: Bytes, a: nat, t: DataType, v: int) {
    match t
    case I8 | U8 | Text | RawBytes => v == ByteAt(mem, a)
    case I16 | U16 => v == TwoAt(mem, a)
    case I32 | U32 | F32 => v == FourAt(mem, a)
    case I64 | U64 | F64 | Ptr => v == EightAt(mem, a)
  }

  lemma WindowStands(mem: Bytes, a: nat, t: DataType)
    ensures Stands(mem, a, t, DecodeWord(BytesAt(mem, a, TypeSize(t))))
  {
    var bs := BytesAt(mem, a, TypeSize(t));
    DecodeSpelled(bs);
    hide DecodeWord;
  }

  // --- Floats ---

  function Pow2(n: nat): (r: nat)
    ensures r > 0
  {
    if n == 0 then 1 else 2 * Pow2(n - 1)
  }

  lemma {:induction false} Pow2Monotone(m: nat, n: nat)
    requires m <= n
    ensures Pow2(m) <= Pow2(n)
  {
    if m < n {
      Pow2Monotone(m, n - 1);
    }
  }

  /**
   * An IEEE 754 number with 32 bits (8 of exponent, 23 of fraction) or 64 (11 and 52), in units of its format's
   * smallest positive number: without an exponent the fraction itself, else 1.fraction shifted by the
   * exponent less one.
   */
  function FloatUnits(low: nat, w: nat): int
    requires w == 4 || w == 8
    requires low < if w == 4 then 0x1_0000_0000 else 0x1_0000_0000_0000_0000
  {
    var one := if w == 4 then 0x80_0000 else 0x10_0000_0000_0000;
    var half := if w == 4 then 0x8000_0000 else 0x8000_0000_0000_0000;
    var m := low % half;
    var exponent, fraction := m / one, m % one;
    var units := if exponent == 0 then fraction else (one + fraction) * Pow2(exponent - 1);
    if low < half then units else -units
  }

  function Scaled(m: nat, one: nat): nat
    requires one > 0
  {
    if m / one == 0 then m % one else (one + m % one) * Pow2(m / one - 1)
  }

  lemma QuotientGrows(m: nat, n: nat, d: nat)
    requires d > 0 && m < n
    ensures m / d <= n / d && (m / d == n / d ==> m % d < n % d)
  {
    assert m == d * (m / d) + m % d && n == d * (n / d) + n % d;
    if n / d < m / d {
      Steps(n / d, m / d, d);
    }
  }

  lemma ScaleLess(a: nat, b: nat, c: nat)
    requires a < b && c > 0
    ensures a * c < b * c
  {
    Steps(a, b, c);
  }

  lemma ScaleSome(a: nat, b: nat, c: nat)
    requires a <= b
    ensures a * c <= b * c
  {
  }

  /** Below exponent f everything is less than what begins there. */
  lemma BelowExponent(fraction: nat, e: nat, f: nat, one: nat)
    requires fraction < one && e < f
    ensures (if e == 0 then fraction else (one + fraction) * Pow2(e - 1)) < one * Pow2(f - 1)
  {
    if e == 0 {
      ScaleSome(1, Pow2(f - 1), one);
    } else {
      ScaleLess(one + fraction, 2 * one, Pow2(e - 1));
      Doubled(one, Pow2(e - 1));
      Pow2Monotone(e, f - 1);
      ScaleSome(Pow2(e), Pow2(f - 1), one);
    }
  }

  lemma Doubled(a: nat, b: nat)
    ensures (2 * a) * b == a * (2 * b)
  {
  }

  /** Units grow with the bits of the magnitude. */
  lemma UnitsGrow(m: nat, n: nat, one: nat)
    requires one > 0 && m < n
    ensures Scaled(m, one) < Scaled(n, one)
  {
    var e, f := m / one, n / one;
    QuotientGrows(m, n, one);
    hide Pow2;
    if e == f {
      if e > 0 {
        ScaleLess(one + m % one, one + n % one, Pow2(e - 1));
      }
    } else {
      BelowExponent(m % one, e, f, one);
      ScaleSome(one, one + n % one, Pow2(f - 1));
    }
  }

  /** The bits of a float: its sign and below it its magnitude. */
  lemma FloatBits(v: Word, w: nat)
    requires w == 4 || w == 8
    ensures var half := if w == 4 then 0x8000_0000 else 0x8000_0000_0000_0000;
            && LowBits(v, w) == v % (2 * half) && Magnitude(v, w) == v % (2 * half) % half
            && FloatRank(v, w) == (if v % (2 * half) < half then Magnitude(v, w) else -Magnitude(v, w))
  {
    LowBitsRest(v, w);
    TopBit(LowBits(v, w), Half(w));
    hide LowBits;
  }

  lemma TopBit(low: nat, half: nat)
    requires low < 2 * half
    ensures low % half == if low < half then low else low - half
  {
    if low >= half {
      assert low == half * 1 + (low - half);
      Quotient(low - half, half, 1);
    }
  }

  lemma UnitsScaled(x: nat, w: nat)
    requires w == 4 || w == 8
    requires x < if w == 4 then 0x1_0000_0000 else 0x1_0000_0000_0000_0000
    ensures var half := if w == 4 then 0x8000_0000 else 0x8000_0000_0000_0000;
            var units: int := Scaled(x % half, if w == 4 then 0x80_0000 else 0x10_0000_0000_0000);
            FloatUnits(x, w) == if x < half then units else -units
  {
    hide Pow2;
  }

  lemma ScaledOrder(m: nat, n: nat, one: nat)
    requires one > 0
    ensures Scaled(m, one) < Scaled(n, one) <==> m < n
    ensures Scaled(m, one) == 0 <==> m == 0
  {
    Scaled0(one);
    hide Scaled;
    if m < n {
      UnitsGrow(m, n, one);
    } else if n < m {
      UnitsGrow(n, m, one);
    }
    if m > 0 {
      UnitsGrow(0, m, one);
    }
  }

  lemma Scaled0(one: nat)
    requires one > 0
    ensures Scaled(0, one) == 0
  {
  }

  /** Finite floats compare as the numbers they are; an infinity is beyond them all; a NaN equals everything. */
  lemma ComparesFloats(a: Word, b: Word, t: DataType)
    requires t == F32 || t == F64
    ensures var w, half, inf := if t == F32 then 4 else 8,
                if t == F32 then 0x8000_0000 else 0x8000_0000_0000_0000,
                if t == F32 then 0x7F80_0000 else 0x7FF0_0000_0000_0000;
            var x, y := a % (2 * half), b % (2 * half);
            && (x % half > inf || y % half > inf ==> Compare(a, b, t) == 0)
            && (x % half < inf && y % half < inf ==>
                  && (Compare(a, b, t) < 0 <==> FloatUnits(x, w) < FloatUnits(y, w))
                  && (Compare(a, b, t) > 0 <==> FloatUnits(x, w) > FloatUnits(y, w)))
            && (x == inf && y % half < inf ==> Compare(a, b, t) > 0)
            && (x == half + inf && y % half < inf ==> Compare(a, b, t) < 0)
  {
    var w := if t == F32 then 4 else 8;
    var one := if w == 4 then 0x80_0000 else 0x10_0000_0000_0000;
    FloatBits(a, w);
    FloatBits(b, w);
    var m, n := Magnitude(a, w), Magnitude(b, w);
    var full := if w == 4 then 0x1_0000_0000 else 0x1_0000_0000_0000_0000;
    UnitsScaled(a % full, w);
    UnitsScaled(b % full, w);
    ScaledOrder(m, n, one);
    ScaledOrder(n, m, one);
    hide FloatUnits, Scaled, LowBits, Magnitude, FloatRank;
  }
}
