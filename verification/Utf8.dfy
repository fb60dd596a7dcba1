/** UTF-8 as section 3 of RFC 3629 defines it, and UTF-16 surrogate pairs. */
module Utf8 {
  /** A Unicode scalar value: any code point but the surrogates. */
  predicate IsScalar(cp: int) {
    0 <= cp < 0xD800 || 0xDFFF < cp < 0x11_0000
  }

  predicate IsTail(b: char) {
    0x80 <= b as int <= 0xBF
  }

  /** append_utf8: shifts and masks written as quotients and remainders. */
  function Encode(cp: int): (s: string)
    requires 0 <= cp < 0x11_0000
    ensures 1 <= |s| <= 4
  {
    if cp < 0x80 then [cp as char]
    else if cp < 0x800 then [(0xC0 + cp / 0x40) as char, (0x80 + cp % 0x40) as char]
    else if cp < 0x1_0000 then
      [(0xE0 + cp / 0x1000) as char, (0x80 + cp / 0x40 % 0x40) as char, (0x80 + cp % 0x40) as char]
    else
      [(0xF0 + cp / 0x4_0000) as char, (0x80 + cp / 0x1000 % 0x40) as char,
       (0x80 + cp / 0x40 % 0x40) as char, (0x80 + cp % 0x40) as char]
  }

  /** The byte sequences of the syntax in section 4 of RFC 3629: no overlong form, no surrogate. */
  predicate WellFormed(s: string) {
    match |s|
    case 1 => s[0] as int <= 0x7F
    case 2 => 0xC2 <= s[0] as int <= 0xDF && IsTail(s[1])
    case 3 =>
      && IsTail(s[1]) && IsTail(s[2]) && 0xE0 <= s[0] as int <= 0xEF
      && (s[0] as int == 0xE0 ==> 0xA0 <= s[1] as int)
      && (s[0] as int == 0xED ==> s[1] as int <= 0x9F)
    case 4 =>
      && IsTail(s[1]) && IsTail(s[2]) && IsTail(s[3]) && 0xF0 <= s[0] as int <= 0xF4
      && (s[0] as int == 0xF0 ==> 0x90 <= s[1] as int)
      && (s[0] as int == 0xF4 ==> s[1] as int <= 0x8F)
    case _ => false
  }

  /** The number a well-formed sequence stands for. */
  function Decode(s: string): int
    requires WellFormed(s)
  {
    match |s|
    case 1 => s[0] as int
    case 2 => (s[0] as int - 0xC0) * 0x40 + (s[1] as int - 0x80)
    case 3 => (s[0] as int - 0xE0) * 0x1000 + (s[1] as int - 0x80) * 0x40 + (s[2] as int - 0x80)
    case _ =>
      (s[0] as int - 0xF0) * 0x4_0000 + (s[1] as int - 0x80) * 0x1000
      + (s[2] as int - 0x80) * 0x40 + (s[3] as int - 0x80)
  }

  /** Encoding a scalar value gives the well-formed sequence that decodes back to it. */
  lemma EncodeDecodes(cp: int)
    requires IsScalar(cp)
    ensures WellFormed(Encode(cp)) && Decode(Encode(cp)) == cp
  {
    Split64(cp);
    Split64(cp / 0x40);
    Split64(cp / 0x1000);
    assert cp / 0x40 / 0x40 == cp / 0x1000 && cp / 0x1000 / 0x40 == cp / 0x4_0000;
  }

  lemma Split64(n: int)
    ensures n == (n / 0x40) * 0x40 + n % 0x40 && 0 <= n % 0x40 < 0x40
  {
  }

  lemma Digits64(q: int, r: int)
    requires 0 <= r < 0x40
    ensures (q * 0x40 + r) / 0x40 == q && (q * 0x40 + r) % 0x40 == r
  {
  }

  lemma Quotients(n: int)
    ensures n / 0x40 / 0x40 == n / 0x1000 && n / 0x40 / 0x40 / 0x40 == n / 0x4_0000
  {
  }

  /** Every well-formed sequence is the encoding of one scalar value. */
  lemma DecodeEncodes(s: string)
    requires WellFormed(s)
    ensures IsScalar(Decode(s)) && Encode(Decode(s)) == s
  {
    var cp := Decode(s);
    Quotients(cp);
    match |s|
    case 1 =>
    case 2 =>
      var a, b := s[0] as int - 0xC0, s[1] as int - 0x80;
      Digits64(a, b);
    case 3 =>
      var a, b, c := s[0] as int - 0xE0, s[1] as int - 0x80, s[2] as int - 0x80;
      assert cp == (a * 0x40 + b) * 0x40 + c;
      Digits64(a * 0x40 + b, c);
      Digits64(a, b);
    case _ =>
      var a, b, c, d := s[0] as int - 0xF0, s[1] as int - 0x80, s[2] as int - 0x80, s[3] as int - 0x80;
      assert cp == ((a * 0x40 + b) * 0x40 + c) * 0x40 + d;
      Digits64((a * 0x40 + b) * 0x40 + c, d);
      Digits64(a * 0x40 + b, c);
      Digits64(a, b);
  }

  // --- Surrogate pairs ---

  predicate IsHigh(u: int) { 0xD800 <= u <= 0xDBFF }
  predicate IsLow(u: int) { 0xDC00 <= u <= 0xDFFF }

  function Combine(hi: int, lo: int): int {
    0x1_0000 + (hi - 0xD800) * 0x400 + (lo - 0xDC00)
  }

  /** Pairs stand for exactly the scalar values beyond the 16-bit plane, each for its own. */
  lemma PairsAreSupplementary(hi: int, lo: int)
    requires IsHigh(hi) && IsLow(lo)
    ensures 0x1_0000 <= Combine(hi, lo) <= 0x10_FFFF && IsScalar(Combine(hi, lo))
    ensures forall hi', lo' :: IsHigh(hi') && IsLow(lo') && Combine(hi', lo') == Combine(hi, lo) ==>
        hi' == hi && lo' == lo
  {
  }

  lemma EverySupplementaryHasAPair(cp: int)
    requires 0x1_0000 <= cp <= 0x10_FFFF
    ensures exists hi, lo :: IsHigh(hi) && IsLow(lo) && Combine(hi, lo) == cp
  {
    var hi, lo := 0xD800 + (cp - 0x1_0000) / 0x400, 0xDC00 + (cp - 0x1_0000) % 0x400;
    assert IsHigh(hi) && IsLow(lo) && Combine(hi, lo) == cp;
  }
}
