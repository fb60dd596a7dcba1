/** The numbers of the address table's text: %llx and %016llx, strtoull with base 0, strtol with base 10. */
module Numerals {
  import opened Words
  import opened Memory

  /** What a digit is worth in bases up to 16; 16 and more for anything else. */
  function DigitOf(c: char): (d: nat) {
    if '0' <= c <= '9' then c as int - '0' as int
    else if 'a' <= c <= 'f' then 10 + (c as int - 'a' as int)
    else if 'A' <= c <= 'F' then 10 + (c as int - 'A' as int)
    else 99
  }

  /** The digits, written out: d in either case, and in lower case when printed. */
  predicate DigitSpelled(c: char, d: nat) {
    d < 16 && (c == "0123456789abcdef"[d] || c == "0123456789ABCDEF"[d])
  }

  lemma DigitsSpelled(c: char, d: nat)
    requires d < 16
    ensures DigitOf(c) == d <==> DigitSpelled(c, d)
    ensures HexChar(d) == "0123456789abcdef"[d]
  {
    var lower, upper := "0123456789abcdef", "0123456789ABCDEF";
    if d < 10 {
      assert lower[d] as int == upper[d] as int == '0' as int + d;
    } else {
      assert lower[d] as int == 'a' as int + d - 10 && upper[d] as int == 'A' as int + d - 10;
    }
  }

  predicate AllIn(s: string, base: nat) {
    forall c :: c in s ==> DigitOf(c) < base
  }

  function ValueIn(s: string, base: nat): nat {
    if s == "" then 0 else base * ValueIn(s[..|s| - 1], base) + DigitOf(s[|s| - 1])
  }

  function Power(base: nat, k: nat): nat {
    if k == 0 then 1 else base * Power(base, k - 1)
  }

  /** The digits count from the last upwards, in powers of the base. */
  lemma {:induction false} ValueJoin(a: string, b: string, base: nat)
    ensures ValueIn(a + b, base) == ValueIn(a, base) * Power(base, |b|) + ValueIn(b, base)
    ensures |b| == 1 ==> ValueIn(b, base) == DigitOf(b[0])
  {
    if b == "" {
      assert a + b == a;
    } else {
      var n := |b| - 1;
      assert (a + b)[..|a + b| - 1] == a + b[..n] && (a + b)[|a + b| - 1] == b[n];
      ValueJoin(a, b[..n], base);
      assert |b| == 1 ==> b[..n] == "";
      Distribute(ValueIn(a, base), Power(base, n), base, ValueIn(b[..n], base));
    }
  }

  lemma Distribute(v: nat, power: nat, base: nat, w: nat)
    ensures base * (v * power + w) == v * (base * power) + base * w
  {
  }

  // --- Printing ---

  function HexChar(d: nat): (c: char)
    requires d < 16
    ensures DigitOf(c) == d
  {
    if d < 10 then ('0' as int + d) as char else ('a' as int + d - 10) as char
  }

  /** %llx */
  function Hex(n: nat): (s: string)
    ensures s != "" && AllIn(s, 16)
  {
    if n < 16 then [HexChar(n)] else Hex(n / 16) + [HexChar(n % 16)]
  }

  function Zeros(k: nat): (s: string)
    ensures |s| == k && AllIn(s, 1)
  {
    if k == 0 then "" else Zeros(k - 1) + ['0']
  }

  /** %016llx */
  function Hex16(n: nat): string {
    Zeros(if |Hex(n)| < 16 then 16 - |Hex(n)| else 0) + Hex(n)
  }

  // --- Reading ---

  /** The digits after the prefix that strtoull recognises, and their base. */
  function Split(s: string): (string, nat) {
    if |s| > 2 && s[0] == '0' && (s[1] == 'x' || s[1] == 'X') && DigitOf(s[2]) < 16 then (s[2..], 16)
    else if s != "" && s[0] == '0' then (s, 8)
    else (s, 10)
  }

  /** An optional sign. */
  function Unsigned(s: string): (bool, string) {
    if s != "" && s[0] == '-' then (true, s[1..]) else if s != "" && s[0] == '+' then (false, s[1..]) else (false, s)
  }

  /** strtoull with base 0, accepted only when it uses up the text and does not overflow. */
  function ParseWord(s: string): Option<Word> {
    var (minus, t) := Unsigned(s);
    var (ds, base) := Split(t);
    if ds == "" || !AllIn(ds, base) || ValueIn(ds, base) >= TWO64 then None
    else Some(if minus then (TWO64 - ValueIn(ds, base)) % TWO64 else ValueIn(ds, base))
  }

  /** strtol with base 10, used for whether it is 0; it saturates instead of failing. */
  function ParseFlag(s: string): Option<bool> {
    var t := Unsigned(s).1;
    if t == "" || !AllIn(t, 10) then None else Some(ValueIn(t, 10) != 0)
  }

  // --- Printing and reading undo each other ---

  lemma {:induction false} HexValue(n: nat)
    ensures ValueIn(Hex(n), 16) == n
  {
    if n < 16 {
      assert Hex(n)[..0] == "";
    } else {
      HexValue(n / 16);
      assert Hex(n)[..|Hex(n)| - 1] == Hex(n / 16);
    }
  }

  lemma {:induction false} PaddedValue(k: nat, s: string)
    requires AllIn(s, 16)
    ensures ValueIn(Zeros(k) + s, 16) == ValueIn(s, 16)
  {
    if s == "" {
      ZerosValue(k);
      assert Zeros(k) + s == Zeros(k);
    } else {
      PaddedValue(k, s[..|s| - 1]);
      assert (Zeros(k) + s)[..|Zeros(k) + s| - 1] == Zeros(k) + s[..|s| - 1];
    }
  }

  lemma {:induction false} ZerosValue(k: nat)
    ensures ValueIn(Zeros(k), 16) == 0
  {
    if k > 0 {
      ZerosValue(k - 1);
      assert Zeros(k)[..|Zeros(k)| - 1] == Zeros(k - 1);
    }
  }

  /** A hexadecimal text behind 0x reads as its value. */
  lemma PrefixedHex(ds: string)
    requires ds != "" && AllIn(ds, 16) && ValueIn(ds, 16) < TWO64
    ensures ParseWord("0x" + ds) == Some(ValueIn(ds, 16))
  {
    var s := "0x" + ds;
    assert s[0] == '0' && s[1] == 'x' && s[2] == ds[0] && s[2..] == ds;
    assert ds[0] in ds;
  }

  lemma WordRoundTrip(n: Word)
    ensures ParseWord("0x" + Hex(n)) == Some(n)
    ensures ParseWord("0x" + Hex16(n)) == Some(n)
  {
    HexValue(n);
    PrefixedHex(Hex(n));
    var k := if |Hex(n)| < 16 then 16 - |Hex(n)| else 0;
    PaddedValue(k, Hex(n));
    assert AllIn(Hex16(n), 16);
    PrefixedHex(Hex16(n));
  }

  /** A padded address is 16 digits: a 64-bit number has no more. */
  lemma {:induction false} HexLength(n: nat, k: nat, bound: nat)
    requires 0 < k && n < bound && bound == Power16(k)
    ensures |Hex(n)| <= k
  {
    if n >= 16 {
      assert k > 1;
      HexLength(n / 16, k - 1, Power16(k - 1));
    }
  }

  function Power16(k: nat): nat {
    if k == 0 then 1 else 16 * Power16(k - 1)
  }

  lemma PaddedLength(n: Word)
    ensures |Hex16(n)| == 16
  {
    assert Power16(4) == 0x1_0000;
    assert Power16(8) == 0x1_0000_0000;
    assert Power16(12) == 0x1_0000_0000_0000;
    assert Power16(16) == TWO64;
    HexLength(n, 16, TWO64);
  }

  // --- Everything that reads as a number ---

  /** A sign or none, and digits: behind 0x in base 16, from a 0 on in base 8, else in base 10. */
  predicate NumberSpelled(s: string, sign: string, prefix: string, ds: string, base: nat) {
    && s == sign + prefix + ds && sign in ["", "+", "-"] && ds != ""
    && (|| (base == 16 && prefix in ["0x", "0X"])
        || (base == 8 && prefix == "" && ds[0] == '0')
        || (base == 10 && prefix == "" && ds[0] != '0'))
    && forall c :: c in ds ==> exists d :: 0 <= d < base && DigitSpelled(c, d)
  }

  lemma DigitsIn(ds: string, base: nat)
    requires base <= 16
    ensures AllIn(ds, base) <==> forall c :: c in ds ==> exists d :: 0 <= d < base && DigitSpelled(c, d)
  {
    forall c | c in ds
      ensures DigitOf(c) < base <==> exists d :: 0 <= d < base && DigitSpelled(c, d)
    {
      if DigitOf(c) < base {
        DigitsSpelled(c, DigitOf(c));
      }
      if d :| 0 <= d < base && DigitSpelled(c, d) {
        DigitsSpelled(c, d);
      }
    }
    hide DigitOf, DigitSpelled;
  }

  lemma SignOf(sign: string, t: string)
    requires sign in ["", "+", "-"] && t != "" && t[0] != '+' && t[0] != '-'
    ensures Unsigned(sign + t) == (sign == "-", t)
  {
    assert sign == "" ==> sign + t == t;
    assert sign != "" ==> (sign + t)[1..] == t;
  }

  lemma NoSign(c: char, d: nat)
    requires DigitSpelled(c, d)
    ensures c != '+' && c != '-' && c != 'x' && c != 'X'
  {
    DigitsSpelled(c, d);
  }

  lemma SplitSpelled(prefix: string, ds: string, base: nat)
    requires NumberSpelled(prefix + ds, "", prefix, ds, base)
    ensures Split(prefix + ds) == (ds, base)
    ensures prefix + ds != "" && (prefix + ds)[0] != '+' && (prefix + ds)[0] != '-'
  {
    DigitsIn(ds, base);
    assert ds[0] in ds;
    var d :| 0 <= d < base && DigitSpelled(ds[0], d);
    NoSign(ds[0], d);
    if prefix == "" {
      assert prefix + ds == ds;
      if |ds| > 1 {
        assert ds[1] in ds;
        var e :| 0 <= e < base && DigitSpelled(ds[1], e);
        NoSign(ds[1], e);
      }
    } else {
      assert (prefix + ds)[2..] == ds;
    }
    hide DigitOf, DigitSpelled;
  }

  /** Every spelled number is read, and refused only when it needs more than 64 bits; a minus sign wraps around. */
  lemma WordReads(s: string, sign: string, prefix: string, ds: string, base: nat)
    requires NumberSpelled(s, sign, prefix, ds, base)
    ensures var v := ValueIn(ds, base);
            ParseWord(s) == if v >= 0x1_0000_0000_0000_0000 then None
                            else if sign == "-" && v > 0 then Some(0x1_0000_0000_0000_0000 - v) else Some(v)
  {
    assert "" + prefix + ds == prefix + ds;
    assert s == sign + (prefix + ds);
    SplitSpelled(prefix, ds, base);
    SignOf(sign, prefix + ds);
    DigitsIn(ds, base);
    hide Split, Unsigned, ValueIn, AllIn, DigitSpelled;
  }

  /** And nothing else is. */
  lemma WordSpelled(s: string) returns (sign: string, prefix: string, ds: string, base: nat)
    requires ParseWord(s).Some?
    ensures NumberSpelled(s, sign, prefix, ds, base)
  {
    var (minus, t) := Unsigned(s);
    sign := if minus then "-" else if t == s then "" else "+";
    assert s == sign + t;
    ds, base := Split(t).0, Split(t).1;
    prefix := if base == 16 then t[..2] else "";
    assert t == prefix + ds;
    assert base == 16 ==> prefix == "0x" || prefix == "0X";
    DigitsIn(ds, base);
    hide ValueIn, AllIn, DigitSpelled;
  }

  /** A flag is decimal with an optional sign, and set when some digit is not 0. */
  lemma FlagReads(s: string, sign: string, ds: string)
    requires FlagSpelled(s, sign, ds)
    ensures ParseFlag(s) == Some(exists c :: c in ds && c != '0')
  {
    DecimalDigits(ds);
    assert ds[0] in ds;
    SignOf(sign, ds);
    NotZero(ds);
    hide ValueIn, AllIn, Unsigned;
  }

  lemma FlagSound(s: string) returns (sign: string, ds: string)
    requires ParseFlag(s).Some?
    ensures FlagSpelled(s, sign, ds)
  {
    ds := Unsigned(s).1;
    sign := if |ds| == |s| then "" else if s[0] == '-' then "-" else "+";
    assert s == sign + ds;
    DecimalDigits(ds);
    hide ValueIn, AllIn;
  }

  predicate FlagSpelled(s: string, sign: string, ds: string) {
    s == sign + ds && sign in ["", "+", "-"] && ds != "" && forall c :: c in ds ==> c in "0123456789"
  }

  lemma DecimalDigit(c: char)
    ensures DigitOf(c) < 10 <==> c in "0123456789"
  {
    var digits := "0123456789";
    assert forall d :: 0 <= d < 10 ==> digits[d] as int == '0' as int + d;
    if DigitOf(c) < 10 {
      assert digits[DigitOf(c)] == c;
    }
  }

  lemma DecimalDigits(t: string)
    ensures AllIn(t, 10) <==> forall c :: c in t ==> c in "0123456789"
  {
    forall c | c in t
      ensures DigitOf(c) < 10 <==> c in "0123456789"
    {
      DecimalDigit(c);
    }
    hide DigitOf;
  }

  lemma {:induction false} NotZero(t: string)
    requires AllIn(t, 10)
    ensures ValueIn(t, 10) != 0 <==> exists c :: c in t && c != '0'
  {
    if t != "" {
      var n := |t| - 1;
      NotZero(t[..n]);
      assert t == t[..n] + [t[n]];
      assert t[n] in t && (t[n] != '0' <==> DigitOf(t[n]) != 0);
      assert forall c :: c in t[..n] ==> c in t;
    }
  }

  lemma FlagRoundTrip(b: bool)
    ensures ParseFlag(if b then "1" else "0") == Some(b)
  {
    assert "1"[..0] == "" && "0"[..0] == "";
  }
}
