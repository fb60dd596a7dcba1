/** The JSON subset of the web layer: value, writer and parser as functions (src/web/json.h, src/web/json.cpp). */
module Json {
  import opened Decimal
  import Utf8

  const MAX_DEPTH: nat := 32
  const MAX_STRING: nat := 4096
  const MAX_INPUT: nat := 65536
  const MAX_NUMBER_CHARS: nat := 64

  const INT64_MIN: int := -0x8000_0000_0000_0000
  const INT64_MAX: int := 0x7FFF_FFFF_FFFF_FFFF
  const UINT64_MAX: int := 0xFFFF_FFFF_FFFF_FFFF

  /** A double is kept as the text it was read from; strings are byte strings, one char a byte. */
  datatype Value =
    | Null
    | Bool(b: bool)
    | Int(i: int)
    | UInt(u: int)
    | Double(lexeme: string)
    | Str(s: string)
    | Arr(elems: seq<Value>)
    | Obj(members: seq<(string, Value)>)

  // --- Writer ---

  const LETTERS: string := "0123456789ABCDEF"

  function Escaped(c: char): (e: string)
    ensures e != ""
  {
    if c == '"' then "\\\""
    else if c == '\\' then "\\\\"
    else if c == '\n' then "\\n"
    else if c == '\r' then "\\r"
    else if c == '\t' then "\\t"
    else if c < ' ' then "\\u00" + [LETTERS[c as int / 16], LETTERS[c as int % 16]]
    else [c]
  }

  /** The control characters as they are written, all of them. */
  lemma ControlsSpelled(c: nat)
    requires c < 0x10
    ensures Escaped(c as char) == [
      "\\u0000", "\\u0001", "\\u0002", "\\u0003", "\\u0004", "\\u0005", "\\u0006", "\\u0007",
      "\\u0008", "\\t", "\\n", "\\u000B", "\\u000C", "\\r", "\\u000E", "\\u000F"][c]
    ensures Escaped((0x10 + c) as char) == "\\u001" + ["0123456789ABCDEF"[c]]
  {
  }

  /** Everything else goes out as it is, but for the two characters that need a backslash. */
  lemma PlainWritten(c: char)
    ensures Escaped(c) == [c] <==> c >= ' ' && c !in "\"\\"
    ensures c in "\"\\" ==> Escaped(c) == ['\\', c]
  {
  }

  function EscapedAll(s: string): string {
    if s == "" then "" else Escaped(s[0]) + EscapedAll(s[1..])
  }

  function Quoted(s: string): string {
    "\"" + EscapedAll(s) + "\""
  }

  function IntText(i: int): string {
    if i < 0 then "-" + ToDecimal(-i) else ToDecimal(i)
  }

  predicate DoubleFree(v: Value) {
    match v
    case Double(_) => false
    case Arr(a) => forall e :: e in a ==> DoubleFree(e)
    case Obj(o) => forall m :: m in o ==> DoubleFree(m.1)
    case _ => true
  }

  function Text(v: Value): string
    requires DoubleFree(v)
    decreases v, 1
  {
    match v
    case Null => "null"
    case Bool(b) => if b then "true" else "false"
    case Int(i) => IntText(i)
    case UInt(u) => IntText(u)
    case Str(s) => Quoted(s)
    case Arr(a) => "[" + ElemsText(a) + "]"
    case Obj(o) => "{" + MembersText(o) + "}"
  }

  function ElemsText(a: seq<Value>): string
    requires forall e :: e in a ==> DoubleFree(e)
    decreases a, 0
  {
    if a == [] then ""
    else if |a| == 1 then Text(a[0])
    else Text(a[0]) + "," + ElemsText(a[1..])
  }

  function MemberText(m: (string, Value)): string
    requires DoubleFree(m.1)
    decreases m, 0
  {
    Quoted(m.0) + ":" + Text(m.1)
  }

  function MembersText(o: seq<(string, Value)>): string
    requires forall m :: m in o ==> DoubleFree(m.1)
    decreases o, 0
  {
    if o == [] then ""
    else if |o| == 1 then MemberText(o[0])
    else MemberText(o[0]) + "," + MembersText(o[1..])
  }

  // --- Parser ---

  datatype Fault =
    | BadLiteral | UnclosedString | ControlChar | StringTooLong
    | IncompleteEscape | UnknownEscape | BadHex | IncompletePair | BadPair | LonelyLow
    | BadNumber | LeadingZero | BadFraction | BadExponent | NumberTooLong | OutOfRange
    | Empty | Unexpected | TooDeep | KeyExpected | ColonExpected | UnclosedObject | ObjectSeparator
    | UnclosedArray | ArraySeparator | InputTooLarge | TrailingData

  /** On success what is left of the input; on failure how much was left at the reported position. */
  datatype Parsed<T> = Ok(value: T, rest: string) | Fail(fault: Fault, left: nat)

  predicate IsSpace(c: char) {
    c == ' ' || c == '\t' || c == '\n' || c == '\r'
  }

  function SkipSpace(s: string): (r: string)
    ensures |r| <= |s|
  {
    if s != "" && IsSpace(s[0]) then SkipSpace(s[1..]) else s
  }

  predicate IsWordChar(c: char) {
    IsDigit(c) || 'a' <= c <= 'z' || 'A' <= c <= 'Z' || c == '_'
  }

  function ParseLiteral(s: string, lit: string, v: Value): (r: Parsed<Value>)
    requires lit != ""
    ensures r.Ok? ==> |r.rest| < |s|
  {
    if |s| < |lit| || s[..|lit|] != lit then Fail(BadLiteral, |s|)
    else if |s| > |lit| && IsWordChar(s[|lit|]) then Fail(BadLiteral, |s|)
    else Ok(v, s[|lit|..])
  }

  function HexValue(c: char): (d: int)
    ensures -1 <= d < 16
  {
    if IsDigit(c) then DigitValue(c)
    else if 'a' <= c <= 'f' then c as int - 'a' as int + 10
    else if 'A' <= c <= 'F' then c as int - 'A' as int + 10
    else -1
  }

  /** Four hex digits, or -1. */
  function Hex4(s: string): (v: int)
    ensures -1 <= v < 0x1_0000
    ensures v >= 0 ==> |s| >= 4
  {
    if |s| < 4 || HexValue(s[0]) < 0 || HexValue(s[1]) < 0 || HexValue(s[2]) < 0 || HexValue(s[3]) < 0 then -1
    else HexValue(s[0]) * 0x1000 + HexValue(s[1]) * 0x100 + HexValue(s[2]) * 0x10 + HexValue(s[3])
  }

  /** The code point of an escape after its backslash and u: one unit, or a surrogate pair. */
  function ParseUnicode(s: string): (r: Parsed<int>)
    ensures r.Ok? ==> |r.rest| < |s| && Utf8.IsScalar(r.value)
  {
    var cp := Hex4(s);
    if cp < 0 then Fail(BadHex, |s|)
    else
      var t := s[4..];
      if Utf8.IsHigh(cp) then
        if |t| < 2 || t[0] != '\\' || t[1] != 'u' then Fail(IncompletePair, |t|)
        else
          var lo := Hex4(t[2..]);
          if lo < 0 then Fail(BadHex, |t| - 2)
          else if !Utf8.IsLow(lo) then Fail(BadPair, |t| - 6)
          else Utf8.PairsAreSupplementary(cp, lo); Ok(Utf8.Combine(cp, lo), t[6..])
      else if Utf8.IsLow(cp) then Fail(LonelyLow, |t|)
      else Ok(cp, t)
  }

  /** What an escape stands for, after its backslash. */
  function ParseEscape(s: string): (r: Parsed<string>)
    ensures r.Ok? ==> |r.rest| < |s|
  {
    if s == "" then Fail(IncompleteEscape, 0)
    else
      var t := s[1..];
      match s[0]
      case '"' => Ok("\"", t)
      case '\\' => Ok("\\", t)
      case '/' => Ok("/", t)
      case 'b' => Ok([8 as char], t)
      case 'f' => Ok([12 as char], t)
      case 'n' => Ok("\n", t)
      case 'r' => Ok("\r", t)
      case 't' => Ok("\t", t)
      case 'u' =>
        (match ParseUnicode(t)
         case Ok(cp, rest) => Ok(Utf8.Encode(cp), rest)
         case Fail(f, left) => Fail(f, left))
      case _ => Fail(UnknownEscape, |t|)
  }

  /** The rest of a string after its opening quote; acc is what was read so far. */
  function ParseChars(s: string, acc: string, start: nat): (r: Parsed<string>)
    ensures r.Ok? ==> |r.rest| < |s|
    decreases |s|
  {
    if s == "" then Fail(UnclosedString, start)
    else if s[0] == '"' then Ok(acc, s[1..])
    else if s[0] == '\\' then
      match ParseEscape(s[1..])
      case Fail(f, left) => Fail(f, left)
      case Ok(piece, rest) =>
        if |acc + piece| > MAX_STRING then Fail(StringTooLong, |rest|) else ParseChars(rest, acc + piece, start)
    else if s[0] < ' ' then Fail(ControlChar, |s|)
    else if |acc| + 1 > MAX_STRING then Fail(StringTooLong, |s|)
    else ParseChars(s[1..], acc + [s[0]], start)
  }

  function ParseString(s: string): (r: Parsed<string>)
    requires s != ""
    ensures r.Ok? ==> |r.rest| < |s|
  {
    ParseChars(s[1..], "", |s|)
  }

  /** The integer part: what is left after it. */
  function IntegerPart(s: string): (r: Parsed<()>)
    ensures r.Ok? ==> |r.rest| < |s|
  {
    var t := if s != "" && s[0] == '-' then s[1..] else s;
    if t == "" then Fail(BadNumber, |s|)
    else if t[0] == '0' then
      if |t| > 1 && IsDigit(t[1]) then Fail(LeadingZero, |s|) else Ok((), t[1..])
    else if IsDigit(t[0]) then Ok((), t[DigitRun(t)..])
    else Fail(BadNumber, |s|)
  }

  /** An optional fraction of a number with |s| = left at its start: whether there was one, and what is left. */
  function Fraction(s: string, left: nat): (r: Parsed<bool>)
    ensures r.Ok? ==> |r.rest| <= |s|
  {
    if s == "" || s[0] != '.' then Ok(false, s)
    else if |s| == 1 || !IsDigit(s[1]) then Fail(BadFraction, left)
    else Ok(true, s[1..][DigitRun(s[1..])..])
  }

  function Exponent(s: string, left: nat): (r: Parsed<bool>)
    ensures r.Ok? ==> |r.rest| <= |s|
  {
    if s == "" || (s[0] != 'e' && s[0] != 'E') then Ok(false, s)
    else
      var t := if |s| > 1 && (s[1] == '+' || s[1] == '-') then s[2..] else s[1..];
      if t == "" || !IsDigit(t[0]) then Fail(BadExponent, left) else Ok(true, t[DigitRun(t)..])
  }

  predicate IsIntegerToken(tok: string) {
    tok != "" && (AllDigits(tok) || (tok[0] == '-' && AllDigits(tok[1..])))
  }

  /** strtoll then strtoull on an integer token: int64 when it fits, else uint64 when it fits. */
  function IntegerValue(tok: string): (r: Parsed<Value>)
    requires IsIntegerToken(tok)
    ensures r.Fail? ==> r.fault == OutOfRange
  {
    var v: int := if tok[0] == '-' then -(NatValue(tok[1..]) as int) else NatValue(tok);
    if INT64_MIN <= v <= INT64_MAX then Ok(Int(v), "")
    else if tok[0] == '-' then Fail(OutOfRange, 0)
    else if v <= UINT64_MAX then Ok(UInt(v), "")
    else Fail(OutOfRange, 0)
  }

  /** A number's text: whether it has a fraction or an exponent, and what is left. */
  function NumberShape(s: string): (r: Parsed<bool>)
    ensures r.Ok? ==> |r.rest| < |s|
    ensures r.Ok? && !r.value ==> IsIntegerToken(s[..|s| - |r.rest|])
  {
    match IntegerPart(s)
    case Fail(f, left) => Fail(f, left)
    case Ok(_, afterInt) =>
      IntegerToken(s, afterInt);
      match Fraction(afterInt, |s|)
      case Fail(f, left) => Fail(f, left)
      case Ok(frac, afterFrac) =>
        match Exponent(afterFrac, |s|)
        case Fail(f, left) => Fail(f, left)
        case Ok(exp, rest) => Ok(frac || exp, rest)
  }

  /** finite says of a token with a fraction or exponent whether strtod accepts it. */
  function ParseNumber(s: string, finite: string -> bool): (r: Parsed<Value>)
    ensures r.Ok? ==> |r.rest| < |s|
  {
    match NumberShape(s)
    case Fail(f, left) => Fail(f, left)
    case Ok(isDouble, rest) =>
      var tok := s[..|s| - |rest|];
      if |tok| > MAX_NUMBER_CHARS then Fail(NumberTooLong, |s|)
      else if isDouble then if finite(tok) then Ok(Double(tok), rest) else Fail(OutOfRange, |s|)
      else match IntegerValue(tok)
        case Ok(v, _) => Ok(v, rest)
        case Fail(f, _) => Fail(f, |s|)
  }

  lemma IntegerToken(s: string, rest: string)
    requires IntegerPart(s) == Ok((), rest)
    ensures |rest| < |s| && IsIntegerToken(s[..|s| - |rest|])
  {
    var neg := s != "" && s[0] == '-';
    var t := if neg then s[1..] else s;
    var n := |t| - |rest|;
    assert t[0] == '0' ==> n == 1;
    assert t[0] != '0' ==> n == DigitRun(t) >= 1;
    var tok := s[..|s| - |rest|];
    assert tok == if neg then ['-'] + t[..n] else t[..n];
  }

  function ParseValue(s: string, depth: nat, finite: string -> bool): (r: Parsed<Value>)
    ensures r.Ok? ==> |r.rest| < |s|
    decreases |s|, 2
  {
    var t := SkipSpace(s);
    if t == "" then Fail(Empty, 0)
    else match t[0]
      case '{' => ParseObject(t, depth, finite)
      case '[' => ParseArray(t, depth, finite)
      case '"' =>
        (match ParseString(t)
         case Ok(str, rest) => Ok(Str(str), rest)
         case Fail(f, left) => Fail(f, left))
      case 't' => ParseLiteral(t, "true", Bool(true))
      case 'f' => ParseLiteral(t, "false", Bool(false))
      case 'n' => ParseLiteral(t, "null", Null)
      case c => if c == '-' || IsDigit(c) then ParseNumber(t, finite) else Fail(Unexpected, |t|)
  }

  function ParseArray(s: string, depth: nat, finite: string -> bool): (r: Parsed<Value>)
    requires s != ""
    ensures r.Ok? ==> |r.rest| < |s|
    decreases |s|, 1
  {
    if depth >= MAX_DEPTH then Fail(TooDeep, |s|)
    else
      var t := SkipSpace(s[1..]);
      if t != "" && t[0] == ']' then Ok(Arr([]), t[1..]) else ParseElems(t, [], depth + 1, finite)
  }

  function ParseObject(s: string, depth: nat, finite: string -> bool): (r: Parsed<Value>)
    requires s != ""
    ensures r.Ok? ==> |r.rest| < |s|
    decreases |s|, 1
  {
    if depth >= MAX_DEPTH then Fail(TooDeep, |s|)
    else
      var t := SkipSpace(s[1..]);
      if t != "" && t[0] == '}' then Ok(Obj([]), t[1..]) else ParseMembers(t, [], depth + 1, finite)
  }

  /** The elements of an array after its bracket or a comma; acc is what was read so far. */
  function ParseElems(s: string, acc: seq<Value>, depth: nat, finite: string -> bool): (r: Parsed<Value>)
    ensures r.Ok? ==> |r.rest| < |s|
    decreases |s|, 3
  {
    var t := SkipSpace(s);
    if t == "" then Fail(UnclosedArray, 0)
    else match ParseValue(t, depth, finite)
      case Fail(f, left) => Fail(f, left)
      case Ok(v, rest) =>
        var u := SkipSpace(rest);
        if u == "" then Fail(UnclosedArray, 0)
        else if u[0] == ',' then ParseElems(u[1..], acc + [v], depth, finite)
        else if u[0] == ']' then Ok(Arr(acc + [v]), u[1..])
        else Fail(ArraySeparator, |u|)
  }

  /** One key, its colon and its value. */
  function ParseMember(s: string, depth: nat, finite: string -> bool): (r: Parsed<(string, Value)>)
    ensures r.Ok? ==> |r.rest| < |s|
    decreases |s|, 3
  {
    var t := SkipSpace(s);
    if t == "" || t[0] != '"' then Fail(KeyExpected, |t|)
    else match ParseString(t)
      case Fail(f, left) => Fail(f, left)
      case Ok(key, afterKey) =>
        var u := SkipSpace(afterKey);
        if u == "" || u[0] != ':' then Fail(ColonExpected, |u|)
        else match ParseValue(u[1..], depth, finite)
          case Fail(f, left) => Fail(f, left)
          case Ok(v, rest) => Ok((key, v), rest)
  }

  function ParseMembers(s: string, acc: seq<(string, Value)>, depth: nat, finite: string -> bool): (r: Parsed<Value>)
    ensures r.Ok? ==> |r.rest| < |s|
    decreases |s|, 4
  {
    match ParseMember(s, depth, finite)
    case Fail(f, left) => Fail(f, left)
    case Ok(m, rest) =>
      var w := SkipSpace(rest);
      if w == "" then Fail(UnclosedObject, 0)
      else if w[0] == ',' then ParseMembers(w[1..], acc + [m], depth, finite)
      else if w[0] == '}' then Ok(Obj(acc + [m]), w[1..])
      else Fail(ObjectSeparator, |w|)
  }

  function Parse(input: string, finite: string -> bool): Parsed<Value> {
    if |input| > MAX_INPUT then Fail(InputTooLarge, |input|)
    else match ParseValue(input, 0, finite)
      case Fail(f, left) => Fail(f, left)
      case Ok(v, rest) =>
        var t := SkipSpace(rest);
        if t == "" then Ok(v, "") else Fail(TrailingData, |t|)
  }

  // --- Round trip ---

  /** Within the limits: strings of at most 4096 bytes and at most room containers deep. */
  predicate Fits(v: Value, room: nat)
    decreases v, 1
  {
    match v
    case Int(i) => -0x8000_0000_0000_0000 <= i <= 0x7FFF_FFFF_FFFF_FFFF
    case UInt(u) => 0 <= u <= 0xFFFF_FFFF_FFFF_FFFF
    case Str(s) => |s| <= 4096
    case Arr(a) => room > 0 && forall e :: e in a ==> Fits(e, room - 1)
    case Obj(o) => room > 0 && forall m :: m in o ==> |m.0| <= 4096 && Fits(m.1, room - 1)
    case _ => true
  }

  /** An unsigned value that fits int64 comes back as a signed one. */
  function Normal(v: Value): Value
    decreases v, 1
  {
    match v
    case UInt(u) => if u <= 0x7FFF_FFFF_FFFF_FFFF then Int(u) else v
    case Arr(a) => Arr(NormalElems(a))
    case Obj(o) => Obj(NormalMembers(o))
    case _ => v
  }

  function NormalElems(a: seq<Value>): (b: seq<Value>)
    decreases a, 0
  {
    if a == [] then [] else [Normal(a[0])] + NormalElems(a[1..])
  }

  function NormalMembers(o: seq<(string, Value)>): (p: seq<(string, Value)>)
    decreases o, 0
  {
    if o == [] then [] else [NormalMember(o[0])] + NormalMembers(o[1..])
  }

  function NormalMember(m: (string, Value)): (string, Value)
    decreases m, 0
  {
    (m.0, Normal(m.1))
  }
}
