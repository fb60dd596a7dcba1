/** What the parser accepts: values within the limits, and escapes that are Unicode scalar values. */
module JsonAccept {
  import opened Decimal
  import opened Json
  import Utf8

  // --- Escapes ---

  /**
   * Every accepted \u escape, alone or as a surrogate pair, is a scalar value, and what is
   * appended is its well-formed UTF-8.
   */
  lemma UnicodeEscapeSound(s: string)
    requires s != "" && s[0] == 'u' && ParseEscape(s).Ok?
    ensures var piece := ParseEscape(s).value; var cp := ParseUnicode(s[1..]).value;
            && ParseUnicode(s[1..]).Ok? && Utf8.IsScalar(cp)
            && Utf8.WellFormed(piece) && Utf8.Decode(piece) == cp
            && (Hex4(s[1..]) == cp ||
                (Utf8.IsHigh(Hex4(s[1..])) && |s| >= 7 && Utf8.IsLow(Hex4(s[7..]))
                  && cp == Utf8.Combine(Hex4(s[1..]), Hex4(s[7..]))))
  {
    hide Hex4, Utf8.Encode, Utf8.Decode, Utf8.WellFormed;
    Utf8.EncodeDecodes(ParseUnicode(s[1..]).value);
    var t := s[1..];
    if Utf8.IsHigh(Hex4(t)) {
      assert t[4..][2..] == s[7..];
    }
  }

  /** A hex digit in either case. */
  predicate DigitSpelled(c: char, d: nat) {
    d < 0x10 && (c == "0123456789abcdef"[d] || c == "0123456789ABCDEF"[d])
  }

  /** What each character is worth as a hex digit; -1 for one that is none. */
  lemma HexSpelled(c: char)
    ensures forall d :: 0 <= d < 0x10 ==> (HexValue(c) == d <==> DigitSpelled(c, d))
    ensures HexValue(c) == -1 <==> c !in "0123456789abcdefABCDEF"
  {
    CasesSpelled();
    HexListed(c);
  }

  lemma CasesSpelled()
    ensures forall c, d :: 0 <= d < 10 ==> (DigitSpelled(c, d) <==> c as int == '0' as int + d)
    ensures forall c, d :: 10 <= d < 16 ==>
              (DigitSpelled(c, d) <==> c as int == 'a' as int + d - 10 || c as int == 'A' as int + d - 10)
  {
    var lower, upper := "0123456789abcdef", "0123456789ABCDEF";
    assert forall d :: 0 <= d < 10 ==> lower[d] as int == upper[d] as int == '0' as int + d;
    assert forall d :: 10 <= d < 16 ==>
        lower[d] as int == 'a' as int + d - 10 && upper[d] as int == 'A' as int + d - 10;
  }

  lemma HexListed(c: char)
    ensures HexValue(c) == -1 <==> c !in "0123456789abcdefABCDEF"
  {
    var all := "0123456789abcdefABCDEF";
    if HexValue(c) >= 0 {
      assert c == all[if 'A' <= c <= 'F' then 6 + HexValue(c) else HexValue(c)];
    }
  }

  /** A code unit in four hex digits, the highest first, each in either case. */
  predicate UnitSpelled(h: string, u: nat) {
    && |h| == 4 && u < 0x1_0000
    && DigitSpelled(h[0], u / 0x1000) && DigitSpelled(h[1], u / 0x100 % 0x10)
    && DigitSpelled(h[2], u / 0x10 % 0x10) && DigitSpelled(h[3], u % 0x10)
  }

  lemma Digits16(u: nat)
    ensures u == (u / 0x1000) * 0x1000 + (u / 0x100 % 0x10) * 0x100 + (u / 0x10 % 0x10) * 0x10 + u % 0x10
  {
    assert u / 0x10 / 0x10 == u / 0x100;
    assert u / 0x100 / 0x10 == u / 0x1000;
  }

  lemma FourDigits(a: nat, b: nat, c: nat, d: nat)
    requires a < 0x10 && b < 0x10 && c < 0x10 && d < 0x10
    ensures var u := a * 0x1000 + b * 0x100 + c * 0x10 + d;
            u < 0x1_0000 && u / 0x1000 == a && u / 0x100 % 0x10 == b && u / 0x10 % 0x10 == c && u % 0x10 == d
  {
    var u := a * 0x1000 + b * 0x100 + c * 0x10 + d;
    assert u / 0x10 == a * 0x100 + b * 0x10 + c;
    assert u / 0x100 == a * 0x10 + b;
  }

  lemma HexAt(c: char, d: nat)
    requires d < 0x10
    ensures HexValue(c) == d <==> DigitSpelled(c, d)
  {
    HexSpelled(c);
  }

  lemma Hex4Exactly(s: string, u: nat)
    ensures Hex4(s) == u <==> |s| >= 4 && UnitSpelled(s[..4], u)
  {
    hide HexValue, DigitSpelled;
    if |s| >= 4 && u < 0x1_0000 {
      HexAt(s[0], u / 0x1000);
      HexAt(s[1], u / 0x100 % 0x10);
      HexAt(s[2], u / 0x10 % 0x10);
      HexAt(s[3], u % 0x10);
      Digits16(u);
      var a, b, c, d := HexValue(s[0]), HexValue(s[1]), HexValue(s[2]), HexValue(s[3]);
      if a >= 0 && b >= 0 && c >= 0 && d >= 0 {
        FourDigits(a, b, c, d);
      }
    }
  }

  /** An escape of a scalar value, from its u on: its code unit, or the units of its surrogate pair. */
  predicate EscapeSpelled(e: string, cp: int) {
    if cp < 0x1_0000 then cp >= 0 && |e| == 5 && e[0] == 'u' && UnitSpelled(e[1..], cp)
    else
      && |e| == 11 && e[0] == 'u' && UnitSpelled(e[1..5], 0xD800 + (cp - 0x1_0000) / 0x400)
      && e[5..7] == "\\u" && UnitSpelled(e[7..], 0xDC00 + (cp - 0x1_0000) % 0x400)
  }

  lemma SingleEscape(s: string, cp: int, rest: string)
    requires Utf8.IsScalar(cp) && cp < 0x1_0000
    ensures ParseUnicode(s) == Ok(cp, rest) <==> |s| >= 4 && UnitSpelled(s[..4], cp) && s[4..] == rest
  {
    hide Hex4, UnitSpelled;
    Hex4Exactly(s, cp);
  }

  lemma PairUnits(hi: int, lo: int, cp: int)
    requires 0x1_0000 <= cp < 0x11_0000 && 0 <= hi && 0 <= lo
    ensures Utf8.IsHigh(hi) && Utf8.IsLow(lo) && Utf8.Combine(hi, lo) == cp
            <==> hi == 0xD800 + (cp - 0x1_0000) / 0x400 && lo == 0xDC00 + (cp - 0x1_0000) % 0x400
  {
  }

  lemma PairEscape(s: string, cp: int, rest: string)
    requires 0x1_0000 <= cp < 0x11_0000
    ensures ParseUnicode(s) == Ok(cp, rest) <==>
      && |s| >= 10 && UnitSpelled(s[..4], 0xD800 + (cp - 0x1_0000) / 0x400)
      && s[4..6] == "\\u" && UnitSpelled(s[6..10], 0xDC00 + (cp - 0x1_0000) % 0x400) && s[10..] == rest
  {
    hide Hex4, UnitSpelled, Utf8.Combine;
    var hi, lo := 0xD800 + (cp - 0x1_0000) / 0x400, 0xDC00 + (cp - 0x1_0000) % 0x400;
    Hex4Exactly(s, hi);
    if |s| >= 6 {
      assert s[4..][2..] == s[6..];
      Hex4Exactly(s[6..], lo);
      if Hex4(s) >= 0 && Hex4(s[6..]) >= 0 {
        PairUnits(Hex4(s), Hex4(s[6..]), cp);
      }
      PairUnits(hi, lo, cp);
      if |s| >= 10 {
        assert s[6..][..4] == s[6..10] && s[4..][6..] == s[10..];
      }
    }
  }

  lemma EscapeParts(s: string, n: nat)
    requires n <= |s| && (n == 5 || n == 11)
    ensures s[1..][n - 1..] == s[n..] && s[..n][0] == s[0]
    ensures n == 5 ==> s[1..][..4] == s[..n][1..]
    ensures n == 11 ==> s[1..][..4] == s[..n][1..5] && s[1..][4..6] == s[..n][5..7] && s[1..][6..10] == s[..n][7..]
  {
  }

  /**
   * An escape reads as a scalar value, in UTF-8, exactly when it spells that value, in any mix of upper
   * and lower case.
   */
  lemma EscapesExactly(s: string, cp: int, rest: string)
    requires Utf8.IsScalar(cp) && s != "" && s[0] == 'u'
    ensures ParseEscape(s) == Ok(Utf8.Encode(cp), rest)
            <==> exists n :: 0 <= n <= |s| && s[n..] == rest && EscapeSpelled(s[..n], cp)
  {
    hide ParseUnicode, Utf8.Encode, UnitSpelled;
    var t := s[1..];
    var n := if cp < 0x1_0000 then 5 else 11;
    if cp < 0x1_0000 {
      SingleEscape(t, cp, rest);
    } else {
      PairEscape(t, cp, rest);
    }
    if |s| >= n {
      EscapeParts(s, n);
    }
    assert ParseUnicode(t) == Ok(cp, rest) <==> |s| >= n && s[n..] == rest && EscapeSpelled(s[..n], cp);
    if ParseUnicode(t).Ok? {
      Utf8.EncodeDecodes(ParseUnicode(t).value);
      Utf8.EncodeDecodes(cp);
    }
  }

  /** So every scalar value can be escaped, and in any case of the digits. */
  lemma EveryScalarEscapes(cp: int, e: string, rest: string)
    requires Utf8.IsScalar(cp) && EscapeSpelled(e, cp)
    ensures ParseEscape(e + rest) == Ok(Utf8.Encode(cp), rest)
  {
    assert (e + rest)[..|e|] == e && (e + rest)[|e|..] == rest;
    EscapesExactly(e + rest, cp, rest);
    hide ParseEscape, Utf8.Encode;
  }

  /** A code unit in capitals. */
  function HexText(u: nat): (s: string)
    requires u < 0x1_0000
    ensures UnitSpelled(s, u)
  {
    [LETTERS[u / 0x1000], LETTERS[u / 0x100 % 0x10], LETTERS[u / 0x10 % 0x10], LETTERS[u % 0x10]]
  }

  /** There is always such a spelling. */
  function EscapeOf(cp: int): (e: string)
    requires Utf8.IsScalar(cp)
    ensures EscapeSpelled(e, cp)
  {
    if cp < 0x1_0000 then "u" + HexText(cp)
    else "u" + HexText(0xD800 + (cp - 0x1_0000) / 0x400) + "\\u" + HexText(0xDC00 + (cp - 0x1_0000) % 0x400)
  }

  // --- Limits ---

  /** Within the limits and already in the form the parser prefers. */
  predicate Canonical(v: Value, room: nat) {
    Fits(v, room) && Normal(v) == v
  }

  lemma {:induction false} CharsBounded(s: string, acc: string, start: nat)
    requires |acc| <= MAX_STRING
    ensures ParseChars(s, acc, start).Ok? ==> |ParseChars(s, acc, start).value| <= MAX_STRING
    decreases |s|
  {
    hide ParseEscape;
    if s == "" || s[0] == '"' {
    } else if s[0] == '\\' {
      var e := ParseEscape(s[1..]);
      if e.Ok? && |acc + e.value| <= MAX_STRING {
        CharsBounded(e.rest, acc + e.value, start);
      }
    } else if s[0] >= ' ' && |acc| + 1 <= MAX_STRING {
      CharsBounded(s[1..], acc + [s[0]], start);
    }
  }

  lemma StringBounded(s: string)
    requires s != ""
    ensures ParseString(s).Ok? ==> |ParseString(s).value| <= MAX_STRING
  {
    CharsBounded(s[1..], "", |s|);
  }

  lemma NumberCanonical(s: string, finite: string -> bool, room: nat)
    ensures ParseNumber(s, finite).Ok? ==> Canonical(ParseNumber(s, finite).value, room)
  {
    hide NumberShape, IsIntegerToken, NatValue;
  }

  lemma {:induction false} NormalElemsSame(a: seq<Value>)
    requires forall e :: e in a ==> Normal(e) == e
    ensures NormalElems(a) == a
  {
    if a != [] {
      NormalElemsSame(a[1..]);
      assert a == [a[0]] + a[1..];
    }
  }

  lemma {:induction false} NormalMembersSame(o: seq<(string, Value)>)
    requires forall m :: m in o ==> Normal(m.1) == m.1
    ensures NormalMembers(o) == o
  {
    if o != [] {
      NormalMembersSame(o[1..]);
      assert o == [o[0]] + o[1..];
    }
  }

  lemma ArrCanonical(a: seq<Value>, room: nat)
    requires room > 0 && forall e :: e in a ==> Canonical(e, room - 1)
    ensures Canonical(Arr(a), room)
  {
    NormalElemsSame(a);
  }

  lemma ObjCanonical(o: seq<(string, Value)>, room: nat)
    requires room > 0 && forall m :: m in o ==> |m.0| <= MAX_STRING && Canonical(m.1, room - 1)
    ensures Canonical(Obj(o), room)
  {
    NormalMembersSame(o);
  }

  lemma LiteralCanonical(s: string, lit: string, v: Value, room: nat)
    requires lit != "" && (v.Null? || v.Bool?)
    ensures ParseLiteral(s, lit, v).Ok? ==> Canonical(ParseLiteral(s, lit, v).value, room)
  {
  }

  /** No accepted value exceeds the depth, string or integer limits. */
  lemma {:induction false} ValueCanonical(s: string, depth: nat, finite: string -> bool)
    requires depth <= MAX_DEPTH
    ensures ParseValue(s, depth, finite).Ok? ==> Canonical(ParseValue(s, depth, finite).value, MAX_DEPTH - depth)
    decreases |s|, 2
  {
    hide ParseString, ParseNumber, ParseLiteral, ParseElems, ParseMembers, SkipSpace, Canonical;
    var t := SkipSpace(s);
    var room := MAX_DEPTH - depth;
    if t != "" {
      if depth < MAX_DEPTH && t[0] == '[' {
        ElemsCanonical(SkipSpace(t[1..]), [], depth + 1, finite);
        ArrCanonical([], room);
      } else if depth < MAX_DEPTH && t[0] == '{' {
        MembersCanonical(SkipSpace(t[1..]), [], depth + 1, finite);
        ObjCanonical([], room);
      }
      StringBounded(t);
      NumberCanonical(t, finite, room);
      LiteralCanonical(t, "true", Bool(true), room);
      LiteralCanonical(t, "false", Bool(false), room);
      LiteralCanonical(t, "null", Null, room);
      StrCanonical(room);
    }
  }

  lemma StrCanonical(room: nat)
    ensures forall s: string {:trigger Str(s)} :: |s| <= MAX_STRING ==> Canonical(Str(s), room)
  {
  }

  lemma {:induction false} ElemsCanonical(s: string, acc: seq<Value>, depth: nat, finite: string -> bool)
    requires 0 < depth <= MAX_DEPTH && forall e :: e in acc ==> Canonical(e, MAX_DEPTH - depth)
    ensures ParseElems(s, acc, depth, finite).Ok? ==>
              Canonical(ParseElems(s, acc, depth, finite).value, MAX_DEPTH - depth + 1)
    decreases |s|, 3
  {
    hide ParseValue, Canonical, SkipSpace;
    var t := SkipSpace(s);
    if t != "" {
      var r := ParseValue(t, depth, finite);
      ValueCanonical(t, depth, finite);
      if r.Ok? {
        var u := SkipSpace(r.rest);
        if u != "" && u[0] == ',' {
          ElemsCanonical(u[1..], acc + [r.value], depth, finite);
        } else if u != "" && u[0] == ']' {
          ArrCanonical(acc + [r.value], MAX_DEPTH - depth + 1);
        }
      }
    }
  }

  lemma {:induction false} MemberCanonical(s: string, depth: nat, finite: string -> bool)
    requires depth <= MAX_DEPTH
    ensures ParseMember(s, depth, finite).Ok? ==>
              |ParseMember(s, depth, finite).value.0| <= MAX_STRING &&
              Canonical(ParseMember(s, depth, finite).value.1, MAX_DEPTH - depth)
    decreases |s|, 3
  {
    hide ParseValue, ParseString, Canonical, SkipSpace;
    var t := SkipSpace(s);
    if t != "" {
      StringBounded(t);
      var key := ParseString(t);
      if key.Ok? {
        var u := SkipSpace(key.rest);
        if u != "" {
          ValueCanonical(u[1..], depth, finite);
        }
      }
    }
  }

  lemma {:induction false} MembersCanonical(s: string, acc: seq<(string, Value)>, depth: nat, finite: string -> bool)
    requires 0 < depth <= MAX_DEPTH
    requires forall m :: m in acc ==> |m.0| <= MAX_STRING && Canonical(m.1, MAX_DEPTH - depth)
    ensures ParseMembers(s, acc, depth, finite).Ok? ==>
              Canonical(ParseMembers(s, acc, depth, finite).value, MAX_DEPTH - depth + 1)
    decreases |s|, 4
  {
    hide ParseMember, Canonical, SkipSpace;
    var r := ParseMember(s, depth, finite);
    MemberCanonical(s, depth, finite);
    if r.Ok? {
      var w := SkipSpace(r.rest);
      if w != "" && w[0] == ',' {
        MembersCanonical(w[1..], acc + [r.value], depth, finite);
      } else if w != "" && w[0] == '}' {
        ObjCanonical(acc + [r.value], MAX_DEPTH - depth + 1);
      }
    }
  }
}
