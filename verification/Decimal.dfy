/** Decimal digits: std::to_string and the digit runs that strtoll and strtoull read. */
module Decimal {
  predicate IsDigit(c: char) {
    '0' <= c <= '9'
  }

  function DigitValue(c: char): (d: nat)
    requires IsDigit(c)
    ensures d < 10
  {
    c as int - '0' as int
  }

  function DigitChar(d: nat): (c: char)
    requires d < 10
    ensures IsDigit(c) && DigitValue(c) == d
  {
    ('0' as int + d) as char
  }

  /** The ten digits, written out. */
  lemma DigitsSpelled(c: char)
    ensures IsDigit(c) <==> c in "0123456789"
    ensures forall d :: 0 <= d < 10 ==> DigitChar(d) == "0123456789"[d]
    ensures forall d :: 0 <= d < 10 ==> (IsDigit(c) && DigitValue(c) == d <==> c == "0123456789"[d])
  {
    var digits := "0123456789";
    assert forall d :: 0 <= d < 10 ==> digits[d] as int == '0' as int + d;
    if IsDigit(c) {
      assert digits[c as int - '0' as int] == c;
    }
  }

  predicate AllDigits(s: string) {
    forall c :: c in s ==> IsDigit(c)
  }

  /** How many digits the string starts with. */
  function DigitRun(s: string): (n: nat)
    ensures n <= |s| && AllDigits(s[..n])
    ensures n < |s| ==> !IsDigit(s[n])
  {
    if s == "" || !IsDigit(s[0]) then 0
    else
      var n := 1 + DigitRun(s[1..]);
      assert s[..n] == [s[0]] + s[1..][..n - 1];
      n
  }

  function NatValue(ds: string): nat
    requires AllDigits(ds)
  {
    if ds == "" then 0
    else
      assert ds == ds[..|ds| - 1] + [ds[|ds| - 1]];
      10 * NatValue(ds[..|ds| - 1]) + DigitValue(ds[|ds| - 1])
  }

  function ToDecimal(n: nat): (s: string)
    ensures s != "" && AllDigits(s)
  {
    if n < 10 then [DigitChar(n)] else ToDecimal(n / 10) + [DigitChar(n % 10)]
  }

  lemma {:induction false} ValueOfDecimal(n: nat)
    ensures NatValue(ToDecimal(n)) == n
    ensures ToDecimal(n)[0] == '0' ==> n == 0
    ensures n < 10 ==> |ToDecimal(n)| == 1
  {
    if n >= 10 {
      ValueOfDecimal(n / 10);
      var s := ToDecimal(n);
      assert s[..|s| - 1] == ToDecimal(n / 10);
    } else {
      var s := ToDecimal(n);
      assert s[..0] == "";
    }
  }

  lemma {:induction false} DecimalLength(n: nat, k: nat)
    requires 0 < k && n < Pow10(k)
    ensures |ToDecimal(n)| <= k
  {
    if k == 1 {
      assert Pow10(0) == 1;
    } else if n >= 10 {
      DecimalLength(n / 10, k - 1);
    }
  }

  function Pow10(k: nat): nat {
    if k == 0 then 1 else 10 * Pow10(k - 1)
  }

  /** The digits count from the last upwards, in tens. */
  lemma {:induction false} NatJoin(a: string, b: string)
    requires AllDigits(a) && AllDigits(b)
    ensures AllDigits(a + b) && NatValue(a + b) == NatValue(a) * Pow10(|b|) + NatValue(b)
    ensures |b| == 1 ==> NatValue(b) == DigitValue(b[0])
  {
    if b == "" {
      assert a + b == a;
    } else {
      var n := |b| - 1;
      assert b == b[..n] + [b[n]];
      assert (a + b)[..|a + b| - 1] == a + b[..n] && (a + b)[|a + b| - 1] == b[n];
      NatJoin(a, b[..n]);
      assert NatValue(a) * Pow10(|b|) == 10 * (NatValue(a) * Pow10(n));
    }
  }

  lemma WordLength(n: nat)
    requires n < 0x1_0000_0000_0000_0000
    ensures |ToDecimal(n)| <= 20
  {
    assert Pow10(5) == 10_0000;
    assert Pow10(10) == 100_0000_0000;
    assert Pow10(15) == 1_000_0000_0000_0000;
    assert Pow10(20) == 1_0000_0000_0000_0000_0000;
    DecimalLength(n, 20);
  }

  /** A digit run followed by something else is found whole. */
  lemma {:induction false} DigitRunOf(ds: string, rest: string)
    requires AllDigits(ds) && (rest != "" ==> !IsDigit(rest[0]))
    ensures DigitRun(ds + rest) == |ds|
  {
    if ds == "" {
      assert ds + rest == rest;
    } else {
      assert (ds + rest)[1..] == ds[1..] + rest;
      assert AllDigits(ds[1..]);
      DigitRunOf(ds[1..], rest);
    }
  }
}
