/** The recursive-descent parser and the writer as they run: a cursor moved in place, an output appended to. */
module JsonParser {
  import opened Decimal
  import opened Json
  import JsonRoundTrip
  import Utf8

  lemma DropMore(s: string, p: nat, k: nat)
    requires p + k <= |s|
    ensures s[p..][k..] == s[p + k..]
  {
  }

  lemma CharsUnfold(s: string, acc: string, start: nat)
    ensures ParseChars(s, acc, start) ==
            if s == "" then Fail(UnclosedString, start)
            else if s[0] == '"' then Ok(acc, s[1..])
            else if s[0] == '\\' then
              var e := ParseEscape(s[1..]);
              if e.Fail? then Fail(e.fault, e.left)
              else if |acc + e.value| > MAX_STRING then Fail(StringTooLong, |e.rest|)
              else ParseChars(e.rest, acc + e.value, start)
            else if s[0] < ' ' then Fail(ControlChar, |s|)
            else if |acc| + 1 > MAX_STRING then Fail(StringTooLong, |s|)
            else ParseChars(s[1..], acc + [s[0]], start)
  {
    hide ParseEscape;
  }

  datatype ParseError = NoError | ParseError(fault: Fault, offset: int)

  class Parser {
    const input: string
    const finite: string -> bool
    var p: nat
    var depth: nat
    var err: ParseError

    constructor (input: string, finite: string -> bool)
      ensures this.input == input && this.finite == finite && p == 0 && depth == 0 && Valid() && err == NoError
      ensures Rest() == input
    {
      this.input, this.finite, p, depth, err := input, finite, 0, 0, NoError;
    }

    predicate Valid()
      reads this
    {
      p <= |input|
    }

    function Rest(): string
      requires Valid()
      reads this
    {
      input[p..]
    }

    /** The outcome is the one the function describes, with the cursor or the error where it says. */
    ghost predicate Agrees<T>(r: Parsed<T>, ok: bool, out: T, depth0: nat)
      reads this
    {
      Valid() &&
      match r
      case Ok(v, rest) => ok && out == v && Rest() == rest && depth == depth0
      case Fail(f, left) => !ok && err == ParseError(f, |input| - left)
    }

    method Fault(f: Fault, q: nat) returns (ok: bool)
      modifies `err
      ensures !ok && err == ParseError(f, q)
    {
      err := ParseError(f, q);
      ok := false;
    }

    method SkipWs()
      requires Valid()
      modifies `p
      ensures Valid() && Rest() == SkipSpace(old(Rest())) && old(p) <= p
    {
      while p < |input| && IsSpace(input[p])
        invariant Valid() && old(p) <= p && SkipSpace(Rest()) == SkipSpace(old(Rest()))
        decreases |input| - p
      {
        DropMore(input, p, 1);
        p := p + 1;
      }
    }

    method ParseHex4() returns (v: int)
      requires Valid()
      modifies `p
      ensures Valid() && v == Hex4(old(Rest()))
      ensures p == old(p) + (if v < 0 then 0 else 4)
    {
      if |input| - p < 4 {
        return -1;
      }
      ghost var s := Rest();
      v := 0;
      var i := 0;
      while i < 4
        invariant 0 <= i <= 4 && p == old(p) && p + 4 <= |input| && s == Rest()
        invariant forall k :: 0 <= k < i ==> HexValue(s[k]) >= 0
        invariant i == 0 ==> v == 0
        invariant i == 1 ==> v == HexValue(s[0])
        invariant i == 2 ==> v == HexValue(s[0]) * 0x10 + HexValue(s[1])
        invariant i == 3 ==> v == HexValue(s[0]) * 0x100 + HexValue(s[1]) * 0x10 + HexValue(s[2])
        invariant i == 4 ==>
            v == HexValue(s[0]) * 0x1000 + HexValue(s[1]) * 0x100 + HexValue(s[2]) * 0x10 + HexValue(s[3])
      {
        var d := HexValue(input[p + i]);
        assert d == HexValue(s[i]);
        if d < 0 {
          return -1;
        }
        v := v * 0x10 + d;
        i := i + 1;
      }
      p := p + 4;
    }

    method ParseLiteral(lit: string, v: Value) returns (ok: bool, out: Value)
      requires Valid() && lit != ""
      modifies this
      ensures Agrees(Json.ParseLiteral(old(Rest()), lit, v), ok, out, old(depth))
    {
      out := Null;
      var n := |lit|;
      if |input| - p < n || input[p..p + n] != lit {
        assert |input| - p >= n ==> Rest()[..n] == input[p..p + n];
        ok := Fault(BadLiteral, p);
        return;
      }
      assert Rest()[..n] == input[p..p + n];
      var q := p + n;
      if q < |input| && IsWordChar(input[q]) {
        ok := Fault(BadLiteral, p);
        return;
      }
      DropMore(input, p, n);
      p := q;
      ok, out := true, v;
    }

    /** The code point after a backslash and u. */
    method ParseUnicode() returns (ok: bool, cp: int)
      requires Valid()
      modifies this
      ensures Agrees(Json.ParseUnicode(old(Rest())), ok, cp, old(depth))
      ensures old(p) <= p
    {
      cp := ParseHex4();
      if cp < 0 {
        ok := Fault(BadHex, p);
        return;
      }
      DropMore(input, old(p), 4);
      ghost var q := p;
      if 0xD800 <= cp <= 0xDBFF {
        if |input| - p < 2 || input[p] != '\\' || input[p + 1] != 'u' {
          ok := Fault(IncompletePair, p);
          return;
        }
        DropMore(input, q, 2);
        p := p + 2;
        var lo := ParseHex4();
        if lo < 0 {
          ok := Fault(BadHex, p);
          return;
        }
        DropMore(input, q, 6);
        if lo < 0xDC00 || lo > 0xDFFF {
          ok := Fault(BadPair, p);
          return;
        }
        cp := 0x1_0000 + (cp - 0xD800) * 0x400 + (lo - 0xDC00);
      } else if 0xDC00 <= cp <= 0xDFFF {
        ok := Fault(LonelyLow, p);
        return;
      }
      ok := true;
    }

    /** What an escape stands for; the cursor is behind its backslash. */
    method ParseEscape() returns (ok: bool, piece: string)
      requires Valid()
      modifies this
      ensures Agrees(Json.ParseEscape(old(Rest())), ok, piece, old(depth))
      ensures old(p) <= p
    {
      piece := "";
      if p >= |input| {
        ok := Fault(IncompleteEscape, p);
        return;
      }
      var e := input[p];
      DropMore(input, p, 1);
      p := p + 1;
      ok := true;
      match e
      case '"' => piece := "\"";
      case '\\' => piece := "\\";
      case '/' => piece := "/";
      case 'b' => piece := [8 as char];
      case 'f' => piece := [12 as char];
      case 'n' => piece := "\n";
      case 'r' => piece := "\r";
      case 't' => piece := "\t";
      case 'u' =>
        var cp;
        hide Json.ParseUnicode;
        ok, cp := ParseUnicode();
        if ok {
          piece := Utf8.Encode(cp);
        }
      case _ => ok := Fault(UnknownEscape, p);
    }

    /** One string; the cursor is at its opening quote. */
    method ParseString() returns (ok: bool, out: string)
      requires Valid() && p < |input|
      modifies this
      ensures Agrees(Json.ParseString(old(Rest())), ok, out, old(depth))
      ensures old(p) <= p
    {
      hide Json.ParseEscape, Json.ParseChars;
      var start := p;
      ghost var left := |input| - start;
      DropMore(input, p, 1);
      p := p + 1;
      out := "";
      while p < |input|
        invariant Valid() && depth == old(depth) && start < p
        invariant Json.ParseString(old(Rest())) == ParseChars(Rest(), out, left)
        decreases |input| - p
      {
        var c := input[p];
        DropMore(input, p, 1);
        CharsUnfold(Rest(), out, left);
        if c == '"' {
          p := p + 1;
          ok := true;
          return;
        }
        if c == '\\' {
          p := p + 1;
          var piece;
          ok, piece := ParseEscape();
          if !ok {
            return;
          }
          if |out + piece| > MAX_STRING {
            ok := Fault(StringTooLong, p);
            return;
          }
          out := out + piece;
        } else {
          if c < ' ' {
            ok := Fault(ControlChar, p);
            return;
          }
          if |out| + 1 > MAX_STRING {
            ok := Fault(StringTooLong, p);
            return;
          }
          out := out + [c];
          p := p + 1;
        }
      }
      CharsUnfold(Rest(), out, left);
      ok := Fault(UnclosedString, start);
    }

    /** Moves over a run of digits. */
    method SkipDigits()
      requires Valid()
      modifies `p
      ensures Valid() && p == old(p) + DigitRun(old(Rest())) && Rest() == old(Rest())[DigitRun(old(Rest()))..]
    {
      ghost var n := DigitRun(Rest());
      while p < |input| && IsDigit(input[p])
        invariant Valid() && old(p) <= p <= old(p) + n && p + DigitRun(Rest()) == old(p) + n
        decreases |input| - p
      {
        DropMore(input, p, 1);
        p := p + 1;
      }
      DropMore(input, old(p), n);
    }

    method SkipInteger() returns (ok: bool)
      requires Valid() && p < |input|
      modifies this
      ensures Agrees(Json.IntegerPart(old(Rest())), ok, (), old(depth))
      ensures ok ==> old(p) < p
    {
      var start := p;
      if input[p] == '-' {
        DropMore(input, p, 1);
        p := p + 1;
      }
      if p >= |input| {
        ok := Fault(BadNumber, start);
        return;
      }
      ghost var t := Rest();
      DropMore(input, p, 1);
      if input[p] == '0' {
        p := p + 1;
        if p < |input| && IsDigit(input[p]) {
          assert t[1] == input[p];
          ok := Fault(LeadingZero, start);
          return;
        }
      } else if '1' <= input[p] <= '9' {
        SkipDigits();
      } else {
        ok := Fault(BadNumber, start);
        return;
      }
      ok := true;
    }

    method SkipFraction(start: nat) returns (ok: bool, some: bool)
      requires Valid() && start <= p
      modifies this
      ensures Agrees(Json.Fraction(old(Rest()), |input| - start), ok, some, old(depth))
      ensures old(p) <= p
    {
      some := false;
      if p < |input| && input[p] == '.' {
        some := true;
        ghost var s := Rest();
        DropMore(input, p, 1);
        p := p + 1;
        if p >= |input| || !IsDigit(input[p]) {
          assert p < |input| ==> s[1] == input[p];
          ok := Fault(BadFraction, start);
          return;
        }
        assert s[1] == input[p];
        SkipDigits();
      }
      ok := true;
    }

    method SkipExponent(start: nat) returns (ok: bool, some: bool)
      requires Valid() && start <= p
      modifies this
      ensures Agrees(Json.Exponent(old(Rest()), |input| - start), ok, some, old(depth))
      ensures old(p) <= p
    {
      some := false;
      if p < |input| && (input[p] == 'e' || input[p] == 'E') {
        some := true;
        ghost var s, q := Rest(), p;
        DropMore(input, p, 1);
        p := p + 1;
        if p < |input| && (input[p] == '+' || input[p] == '-') {
          assert s[1] == input[p];
          DropMore(input, q, 2);
          p := p + 1;
        }
        if p >= |input| || !IsDigit(input[p]) {
          ok := Fault(BadExponent, start);
          return;
        }
        SkipDigits();
      }
      ok := true;
    }

    method SkipNumber() returns (ok: bool, isDouble: bool)
      requires Valid() && p < |input|
      modifies this
      ensures Agrees(Json.NumberShape(old(Rest())), ok, isDouble, old(depth))
      ensures ok ==> old(p) < p
    {
      hide IntegerPart, Fraction, Exponent, IsIntegerToken;
      isDouble := false;
      var start := p;
      ok := SkipInteger();
      if !ok {
        return;
      }
      var frac, exp;
      ok, frac := SkipFraction(start);
      if !ok {
        return;
      }
      ok, exp := SkipExponent(start);
      isDouble := frac || exp;
    }

    method ParseNumber() returns (ok: bool, out: Value)
      requires Valid() && p < |input|
      modifies this
      ensures Agrees(Json.ParseNumber(old(Rest()), finite), ok, out, old(depth))
      ensures ok ==> old(p) < p
    {
      hide NumberShape, IntegerValue, IsIntegerToken;
      out := Null;
      var start := p;
      ghost var s := Rest();
      var isDouble;
      ok, isDouble := SkipNumber();
      if !ok {
        return;
      }
      var tok := input[start..p];
      assert tok == s[..|s| - |Rest()|];
      if |tok| > MAX_NUMBER_CHARS {
        ok := Fault(NumberTooLong, start);
        return;
      }
      if isDouble {
        if !finite(tok) {
          ok := Fault(OutOfRange, start);
          return;
        }
        out := Double(tok);
        return;
      }
      var v := IntegerValue(tok);
      if v.Fail? {
        ok := Fault(OutOfRange, start);
        return;
      }
      out := v.value;
    }

    method ParseValue() returns (ok: bool, out: Value)
      requires Valid()
      modifies this
      ensures Agrees(Json.ParseValue(old(Rest()), old(depth), finite), ok, out, old(depth))
      ensures ok ==> old(p) < p
      decreases |input| - p, 1
    {
      hide Json.ParseArray, Json.ParseObject, Json.ParseString, Json.ParseNumber, Json.ParseLiteral, SkipSpace;
      out := Null;
      SkipWs();
      if p >= |input| {
        ok := Fault(Empty, p);
        return;
      }
      var c := input[p];
      match c
      case '{' => ok, out := ParseObject();
      case '[' => ok, out := ParseArray();
      case '"' =>
        var str;
        ok, str := ParseString();
        out := Str(str);
      case 't' => ok, out := ParseLiteral("true", Bool(true));
      case 'f' => ok, out := ParseLiteral("false", Bool(false));
      case 'n' => ok, out := ParseLiteral("null", Null);
      case _ =>
        if c == '-' || IsDigit(c) {
          ok, out := ParseNumber();
        } else {
          ok := Fault(Unexpected, p);
        }
    }

    method ParseArray() returns (ok: bool, out: Value)
      requires Valid() && p < |input| && input[p] == '['
      modifies this
      ensures Agrees(Json.ParseArray(old(Rest()), old(depth), finite), ok, out, old(depth))
      ensures ok ==> old(p) < p
      decreases |input| - p, 0
    {
      hide Json.ParseElems, SkipSpace;
      out := Null;
      if depth >= MAX_DEPTH {
        ok := Fault(TooDeep, p);
        return;
      }
      depth := depth + 1;
      DropMore(input, p, 1);
      p := p + 1;
      SkipWs();
      if p < |input| && input[p] == ']' {
        DropMore(input, p, 1);
        p := p + 1;
        depth := depth - 1;
        ok, out := true, Arr([]);
        return;
      }
      ok, out := ParseElements();
      if ok {
        depth := depth - 1;
      }
    }

    /** The loop over the elements of an array. */
    method ParseElements() returns (ok: bool, out: Value)
      requires Valid()
      modifies this
      ensures Agrees(Json.ParseElems(old(Rest()), [], old(depth), finite), ok, out, old(depth))
      ensures ok ==> old(p) < p
      decreases |input| - p, 3
    {
      hide Json.ParseValue, SkipSpace;
      out := Null;
      var arr := [];
      while true
        invariant Valid() && old(p) <= p && depth == old(depth)
        invariant Json.ParseElems(old(Rest()), [], depth, finite) == Json.ParseElems(Rest(), arr, depth, finite)
        decreases |input| - p
      {
        SkipWs();
        if p >= |input| {
          ok := Fault(UnclosedArray, p);
          return;
        }
        var v;
        ok, v := ParseValue();
        if !ok {
          return;
        }
        arr := arr + [v];
        SkipWs();
        if p >= |input| {
          ok := Fault(UnclosedArray, p);
          return;
        }
        DropMore(input, p, 1);
        if input[p] == ',' {
          p := p + 1;
        } else if input[p] == ']' {
          p := p + 1;
          ok, out := true, Arr(arr);
          return;
        } else {
          ok := Fault(ArraySeparator, p);
          return;
        }
      }
    }

    method ParseMember() returns (ok: bool, m: (string, Value))
      requires Valid()
      modifies this
      ensures Agrees(Json.ParseMember(old(Rest()), old(depth), finite), ok, m, old(depth))
      ensures ok ==> old(p) < p
      decreases |input| - p, 2
    {
      hide Json.ParseValue, Json.ParseString, SkipSpace;
      m := ("", Null);
      SkipWs();
      if p >= |input| || input[p] != '"' {
        ok := Fault(KeyExpected, p);
        return;
      }
      var key;
      ok, key := ParseString();
      if !ok {
        return;
      }
      SkipWs();
      if p >= |input| || input[p] != ':' {
        ok := Fault(ColonExpected, p);
        return;
      }
      DropMore(input, p, 1);
      p := p + 1;
      var v;
      ok, v := ParseValue();
      m := (key, v);
    }

    method ParseObject() returns (ok: bool, out: Value)
      requires Valid() && p < |input| && input[p] == '{'
      modifies this
      ensures Agrees(Json.ParseObject(old(Rest()), old(depth), finite), ok, out, old(depth))
      ensures ok ==> old(p) < p
      decreases |input| - p, 0
    {
      hide Json.ParseMembers, SkipSpace;
      out := Null;
      if depth >= MAX_DEPTH {
        ok := Fault(TooDeep, p);
        return;
      }
      depth := depth + 1;
      DropMore(input, p, 1);
      p := p + 1;
      SkipWs();
      if p < |input| && input[p] == '}' {
        DropMore(input, p, 1);
        p := p + 1;
        depth := depth - 1;
        ok, out := true, Obj([]);
        return;
      }
      ok, out := ParseEntries();
      if ok {
        depth := depth - 1;
      }
    }

    /** The loop over the entries of an object. */
    method ParseEntries() returns (ok: bool, out: Value)
      requires Valid()
      modifies this
      ensures Agrees(Json.ParseMembers(old(Rest()), [], old(depth), finite), ok, out, old(depth))
      ensures ok ==> old(p) < p
      decreases |input| - p, 3
    {
      hide Json.ParseMember, SkipSpace;
      out := Null;
      var obj := [];
      while true
        invariant Valid() && old(p) <= p && depth == old(depth)
        invariant Json.ParseMembers(old(Rest()), [], depth, finite) == Json.ParseMembers(Rest(), obj, depth, finite)
        decreases |input| - p
      {
        var m;
        ok, m := ParseMember();
        if !ok {
          return;
        }
        obj := obj + [m];
        SkipWs();
        if p >= |input| {
          ok := Fault(UnclosedObject, p);
          return;
        }
        DropMore(input, p, 1);
        if input[p] == ',' {
          p := p + 1;
        } else if input[p] == '}' {
          p := p + 1;
          ok, out := true, Obj(obj);
          return;
        } else {
          ok := Fault(ObjectSeparator, p);
          return;
        }
      }
    }
  }

  /** parse: the whole input is one value. */
  method ParseInput(input: string, finite: string -> bool) returns (ok: bool, out: Value, err: ParseError)
    ensures ok == Parse(input, finite).Ok?
    ensures ok ==> out == Parse(input, finite).value
    ensures !ok ==> err == ParseError(Parse(input, finite).fault,
                                      if |input| > MAX_INPUT then 0 else |input| - Parse(input, finite).left)
  {
    out, err := Null, NoError;
    if |input| > MAX_INPUT {
      return false, Null, ParseError(InputTooLarge, 0);
    }
    hide Json.ParseValue, SkipSpace;
    var ps := new Parser(input, finite);
    var v;
    ok, v := ps.ParseValue();
    if !ok {
      err := ps.err;
      return;
    }
    ghost var rest := ps.Rest();
    assert Json.ParseValue(input, 0, finite) == Ok(v, rest);
    ps.SkipWs();
    assert |SkipSpace(rest)| == |input| - ps.p;
    if ps.p != |input| {
      return false, Null, ParseError(TrailingData, ps.p);
    }
    out := v;
  }

  // --- The writer ---

  method WriteEscaped(s: string, out0: string) returns (out: string)
    ensures out == out0 + Quoted(s)
  {
    hide Escaped;
    out := out0 + "\"";
    var i := 0;
    while i < |s|
      invariant 0 <= i <= |s|
      invariant out + EscapedAll(s[i..]) == out0 + ("\"" + EscapedAll(s))
    {
      assert s[i..][1..] == s[i + 1..];
      assert out + EscapedAll(s[i..]) == out + Escaped(s[i]) + EscapedAll(s[i + 1..]);
      out := out + Escaped(s[i]);
      i := i + 1;
    }
    assert out + "" == out;
    assert out + "\"" == out0 + ("\"" + EscapedAll(s) + "\"");
    out := out + "\"";
  }

  method WriteValue(v: Value, out0: string) returns (out: string)
    requires DoubleFree(v)
    ensures out == out0 + Text(v)
    decreases v, 1
  {
    hide ElemsText, MembersText, IntText, Quoted;
    match v
    case Null => out := out0 + "null";
    case Bool(b) => out := out0 + (if b then "true" else "false");
    case Int(i) => out := out0 + IntText(i);
    case UInt(u) => out := out0 + IntText(u);
    case Str(s) => out := WriteEscaped(s, out0);
    case Arr(a) =>
      out := WriteElems(a, out0 + "[");
      assert out + "]" == out0 + ("[" + ElemsText(a) + "]");
      out := out + "]";
    case Obj(o) =>
      out := WriteMembers(o, out0 + "{");
      assert out + "}" == out0 + ("{" + MembersText(o) + "}");
      out := out + "}";
  }

  method WriteElems(a: seq<Value>, out0: string) returns (out: string)
    requires forall e :: e in a ==> DoubleFree(e)
    ensures out == out0 + ElemsText(a)
    decreases a, 0
  {
    hide Text, DoubleFree;
    out := out0;
    var i := 0;
    while i < |a|
      invariant 0 <= i <= |a|
      invariant out + (if 0 < i < |a| then "," else "") + ElemsText(a[i..]) == out0 + ElemsText(a)
    {
      assert a[i..][1..] == a[i + 1..];
      if i > 0 {
        out := out + ",";
      }
      ghost var before := out;
      assert before + ElemsText(a[i..]) == out0 + ElemsText(a);
      out := WriteValue(a[i], out);
      assert before + ElemsText(a[i..]) == out + (if i + 1 < |a| then "," else "") + ElemsText(a[i + 1..]);
      i := i + 1;
    }
    assert out + "" + "" == out;
  }

  method WriteMembers(o: seq<(string, Value)>, out0: string) returns (out: string)
    requires forall m :: m in o ==> DoubleFree(m.1)
    ensures out == out0 + MembersText(o)
    decreases o, 0
  {
    hide MemberText, DoubleFree;
    out := out0;
    var i := 0;
    while i < |o|
      invariant 0 <= i <= |o|
      invariant out + (if 0 < i < |o| then "," else "") + MembersText(o[i..]) == out0 + MembersText(o)
    {
      assert o[i..][1..] == o[i + 1..];
      if i > 0 {
        out := out + ",";
      }
      ghost var before := out;
      assert before + MembersText(o[i..]) == out0 + MembersText(o);
      out := WriteMember(o[i], out);
      assert before + MembersText(o[i..]) == out + (if i + 1 < |o| then "," else "") + MembersText(o[i + 1..]);
      i := i + 1;
    }
    assert out + "" + "" == out;
  }

  method WriteMember(m: (string, Value), out0: string) returns (out: string)
    requires DoubleFree(m.1)
    ensures out == out0 + MemberText(m)
    decreases m, 0
  {
    hide Text, Quoted;
    out := WriteEscaped(m.0, out0);
    out := out + ":";
    out := WriteValue(m.1, out);
  }

  /** write then parse: the value comes back. */
  method WriteThenParse(v: Value, finite: string -> bool) returns (ok: bool, out: Value)
    requires DoubleFree(v) && Fits(v, MAX_DEPTH)
    ensures |Text(v)| <= MAX_INPUT ==> ok && out == Normal(v)
  {
    var text := WriteValue(v, "");
    assert "" + Text(v) == Text(v);
    var err;
    ok, out, err := ParseInput(text, finite);
    if |Text(v)| <= MAX_INPUT {
      JsonRoundTrip.RoundTrip(v, finite);
    }
  }
}
