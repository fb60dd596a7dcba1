/** Fixed-width integers: 64-bit words with wrap-around, bytes, little-endian decoding. */
module Words {
  type Word = x: int | 0 <= x < 0x1_0000_0000_0000_0000
  type Byte = x: int | 0 <= x < 0x100

  const TWO64: int := 0x1_0000_0000_0000_0000

  function Min(a: int, b: int): int {
    if a < b then a else b
  }

  /** Unsigned 64-bit addition. */
  function Add(a: Word, b: Word): Word {
    if a + b < TWO64 then a + b else a + b - TWO64
  }

  /** Unsigned 64-bit subtraction. */
  function Sub(a: Word, b: Word): Word {
    if b <= a then a - b else a - b + TWO64
  }

  function Pow256(n: nat): (r: nat)
    ensures r > 0
  {
    if n == 0 then 1 else 256 * Pow256(n - 1)
  }

  /** Little-endian value of a byte string. */
  function Decode(bs: seq<Byte>): (r: nat)
    ensures r < Pow256(|bs|)
  {
    if bs == [] then 0 else bs[0] + 256 * Decode(bs[1..])
  }

  /** The bytes are determined by the value: no two windows of one width share it. */
  lemma {:induction false} DecodeInjective(a: seq<Byte>, b: seq<Byte>)
    requires |a| == |b|
    ensures Decode(a) == Decode(b) <==> a == b
  {
    if a != [] {
      DecodeInjective(a[1..], b[1..]);
      assert a == [a[0]] + a[1..] && b == [b[0]] + b[1..];
    }
  }

  lemma OneByteValue(x: Byte)
    ensures Decode([x]) == x
  {
    assert [x][1..] == [];
  }

  /** Little-endian: what comes after |a| bytes counts 256 to the power of |a| times as much. */
  lemma {:induction false} DecodeJoin(a: seq<Byte>, b: seq<Byte>)
    ensures Decode(a + b) == Decode(a) + Pow256(|a|) * Decode(b)
  {
    if a == [] {
      assert a + b == b;
    } else {
      assert (a + b)[1..] == a[1..] + b;
      DecodeJoin(a[1..], b);
      JoinStep(a[0], Decode(a[1..]), Pow256(|a| - 1), Decode(b));
      assert Pow256(|a|) == 256 * Pow256(|a| - 1);
      hide *;
    }
  }

  lemma JoinStep(x: nat, y: nat, p: nat, d: nat)
    ensures x + 256 * (y + p * d) == (x + 256 * y) + (256 * p) * d
  {
  }

  lemma LowestByte(bs: seq<Byte>)
    requires bs != []
    ensures Decode(bs) % 256 == bs[0]
  {
    Quotient(bs[0], 256, Decode(bs[1..]));
  }

  /** Byte i of a window is digit i, from the lowest, of its value in base 256. */
  lemma DecodeDigit(bs: seq<Byte>, i: nat)
    requires i < |bs|
    ensures Decode(bs) / Pow256(i) % 256 == bs[i]
  {
    hide *;
    assert bs == bs[..i] + bs[i..];
    DecodeJoin(bs[..i], bs[i..]);
    Quotient(Decode(bs[..i]), Pow256(i), Decode(bs[i..]));
    LowestByte(bs[i..]);
  }

  lemma Steps(a: int, b: int, c: nat)
    requires a < b
    ensures c * a + c <= c * b
  {
    assert c * (a + 1) <= c * b;
  }

  lemma Quotient(low: nat, base: nat, high: nat)
    requires low < base
    ensures (low + base * high) / base == high && (low + base * high) % base == low
  {
    var n := low + base * high;
    var q := n / base;
    assert n == base * q + n % base;
    if q < high {
      Steps(q, high, base);
    } else if q > high {
      Steps(high, q, base);
    }
  }

  /** The widths there are, spelled out. */
  lemma DecodeSpelled(bs: seq<Byte>)
    ensures |bs| == 1 ==> Decode(bs) == bs[0]
    ensures |bs| == 2 ==> Decode(bs) == bs[0] as int + 0x100 * (bs[1] as int)
    ensures |bs| == 4 ==>
        Decode(bs) == bs[0] as int + 0x100 * (bs[1] as int) + 0x1_0000 * (bs[2] as int) + 0x100_0000 * (bs[3] as int)
    ensures |bs| == 8 ==>
              Decode(bs) ==
              bs[0] as int + 0x100 * (bs[1] as int) + 0x1_0000 * (bs[2] as int) + 0x100_0000 * (bs[3] as int)
              + 0x1_0000_0000 * (bs[4] as int + 0x100 * (bs[5] as int) + 0x1_0000 * (bs[6] as int)
                + 0x100_0000 * (bs[7] as int))
  {
    if |bs| == 1 {
      assert bs == [bs[0]];
      OneByteValue(bs[0]);
    } else if |bs| == 2 {
      TwoBytes(bs);
    } else if |bs| == 4 {
      FourBytes(bs);
    } else if |bs| == 8 {
      assert bs == bs[..4] + bs[4..];
      DecodeJoin(bs[..4], bs[4..]);
      FourBytes(bs[..4]);
      FourBytes(bs[4..]);
      assert Pow256(2) == 0x1_0000;
      assert Pow256(4) == 0x1_0000_0000;
    }
  }

  lemma TwoBytes(bs: seq<Byte>)
    requires |bs| == 2
    ensures Decode(bs) == bs[0] as int + 0x100 * (bs[1] as int)
  {
    assert bs == [bs[0]] + [bs[1]];
    DecodeJoin([bs[0]], [bs[1]]);
    OneByteValue(bs[0]);
    OneByteValue(bs[1]);
    assert Pow256(1) == 0x100;
  }

  lemma FourBytes(bs: seq<Byte>)
    requires |bs| == 4
    ensures Decode(bs) ==
        bs[0] as int + 0x100 * (bs[1] as int) + 0x1_0000 * (bs[2] as int) + 0x100_0000 * (bs[3] as int)
  {
    assert bs == bs[..2] + bs[2..];
    DecodeJoin(bs[..2], bs[2..]);
    TwoBytes(bs[..2]);
    TwoBytes(bs[2..]);
    assert Pow256(1) == 0x100;
    assert Pow256(2) == 0x1_0000;
  }

  /** Every number of n bytes is the value of some n bytes. */
  lemma {:induction false} EveryNumberHasBytes(v: nat, n: nat) returns (bs: seq<Byte>)
    requires v < Pow256(n)
    ensures |bs| == n && Decode(bs) == v
  {
    if n == 0 {
      bs := [];
    } else {
      var rest := EveryNumberHasBytes(v / 256, n - 1);
      bs := [v % 256] + rest;
      assert bs[1..] == rest;
    }
  }

  lemma Pow256OfEight()
    ensures Pow256(8) == TWO64
  {
    assert Pow256(4) == 0x1_0000_0000;
    assert Pow256(6) == 0x1_0000_0000_0000;
  }

  lemma {:induction false} Pow256Monotone(m: nat, n: nat)
    requires m <= n
    ensures Pow256(m) <= Pow256(n)
  {
    if m < n {
      Pow256Monotone(m, n - 1);
    }
  }

  /** The 64 low bits. */
  function Truncate(a: nat): (r: Word)
    ensures a < TWO64 ==> r == a
  {
    a % TWO64
  }

  /** The word held by the first eight bytes, or by all of them when there are fewer. */
  function DecodeWord(bs: seq<Byte>): (r: Word)
    ensures |bs| <= 8 ==> r == Decode(bs)
  {
    var head := if |bs| <= 8 then bs else bs[..8];
    Pow256OfEight();
    Pow256Monotone(|head|, 8);
    Decode(head)
  }
}
