/**
 * The grammar of RFC 8259 as the ways to spell a value, independent of any parser: what the
 * parser accepts is exactly what can be spelled within its limits, and with that meaning. Texts are
 * bytes; that they are UTF-8 (section 8.1) is not asked, and the parser does not look at it either.
 */
module JsonGrammar {
  import opened Decimal
  import opened Json
  import JsonAccept
  import Utf8

  // --- Spellings ---

  /** One step of a string (section 7): a plain byte, a two-character escape, a code unit, or a surrogate pair. */
  datatype Unit = Raw(c: char) | Short(c: char) | Code(h: string) | Pair(hi: string, lo: string)

  /** A value as it may be spelled: number parts (section 6), string steps, and white space wherever it is allowed. */
  datatype Tree =
    | Literal(v: Value)
    | Number(minus: bool, digits: string, frac: string, exp: string)
    | Chars(units: seq<Unit>)
    | Array(blank: string, items: seq<Item>)
    | Object(blank: string, fields: seq<Field>)

  datatype Item = Item(before: string, tree: Tree, after: string)
  datatype Field = Field(beforeKey: string, key: seq<Unit>, afterKey: string, item: Item)

  /** Section 2: white space is these four characters. */
  predicate Blank(s: string) {
    forall c :: c in s ==> c in " \t\n\r"
  }

  /** Section 7: a code unit is any four hex digits. */
  predicate UnitGrammar(u: Unit) {
    match u
    case Raw(c) => c >= ' ' && c != '"' && c != '\\'
    case Short(c) => c in "\"\\/bfnrt"
    case Code(h) => |h| == 4 && Hex4(h) >= 0
    case Pair(hi, lo) => |hi| == 4 && |lo| == 4 && Utf8.IsHigh(Hex4(hi)) && Utf8.IsLow(Hex4(lo))
  }

  /** No surrogate stands alone; section 8.2 leaves open what becomes of one. */
  predicate Paired(u: Unit) {
    u.Code? ==> !Utf8.IsHigh(Hex4(u.h)) && !Utf8.IsLow(Hex4(u.h))
  }

  predicate UnitOk(u: Unit) {
    UnitGrammar(u) && Paired(u)
  }

  function UnitText(u: Unit): string {
    match u
    case Raw(c) => [c]
    case Short(c) => ['\\', c]
    case Code(h) => "\\u" + h
    case Pair(hi, lo) => "\\u" + (hi + ("\\u" + lo))
  }

  function UnitMeaning(u: Unit): string
    requires UnitOk(u)
  {
    match u
    case Raw(c) => [c]
    case Short(c) => if c == 'b' then [8 as char] else if c == 'f' then [12 as char] else if c == 'n' then "\n"
      else if c == 'r' then "\r" else if c == 't' then "\t" else [c]
    case Code(h) => Utf8.Encode(Hex4(h))
    case Pair(hi, lo) => Utf8.PairsAreSupplementary(Hex4(hi), Hex4(lo)); Utf8.Encode(Utf8.Combine(Hex4(hi), Hex4(lo)))
  }

  predicate UnitsOk(us: seq<Unit>) {
    forall i :: 0 <= i < |us| ==> UnitOk(us[i])
  }

  function UnitsText(us: seq<Unit>): string {
    if us == [] then "" else UnitText(us[0]) + UnitsText(us[1..])
  }

  function UnitsMeaning(us: seq<Unit>): string
    requires UnitsOk(us)
  {
    if us == [] then "" else UnitMeaning(us[0]) + UnitsMeaning(us[1..])
  }

  predicate NumberOk(digits: string, frac: string, exp: string) {
    && digits != "" && AllDigits(digits) && (digits[0] == '0' ==> |digits| == 1)
    && (frac != "" ==> frac[0] == '.' && |frac| > 1 && AllDigits(frac[1..]))
    && (exp != "" ==> (exp[0] == 'e' || exp[0] == 'E') && ExpDigits(exp) != "" && AllDigits(ExpDigits(exp)))
  }

  function ExpDigits(exp: string): string
    requires exp != ""
  {
    if |exp| > 1 && (exp[1] == '+' || exp[1] == '-') then exp[2..] else exp[1..]
  }

  function NumberText(minus: bool, digits: string, frac: string, exp: string): string {
    (if minus then "-" else "") + digits + frac + exp
  }

  /** The value of a number: an integer when it has neither fraction nor exponent, else its own text. */
  function NumberMeaning(minus: bool, digits: string, frac: string, exp: string): Value
    requires NumberOk(digits, frac, exp)
  {
    if frac == "" && exp == "" then
      var n: int := if minus then -(NatValue(digits) as int) else NatValue(digits);
      if n <= 0x7FFF_FFFF_FFFF_FFFF then Int(n) else UInt(n)
    else Double(NumberText(minus, digits, frac, exp))
  }

  /** Within the parser's limits on one number. */
  predicate NumberFits(minus: bool, digits: string, frac: string, exp: string, finite: string -> bool)
    requires NumberOk(digits, frac, exp)
  {
    && |NumberText(minus, digits, frac, exp)| <= 64
    && (if frac == "" && exp == "" then
          NatValue(digits) <= if minus then 0x8000_0000_0000_0000 else 0xFFFF_FFFF_FFFF_FFFF
        else finite(NumberText(minus, digits, frac, exp)))
  }

  /** The grammar of RFC 8259, sections 2 to 7. */
  predicate Grammar(t: Tree)
    decreases t, 1
  {
    match t
    case Literal(v) => v.Null? || v.Bool?
    case Number(_, digits, frac, exp) => NumberOk(digits, frac, exp)
    case Chars(us) => UnitsGrammar(us)
    case Array(blank, items) => Blank(blank) && ItemsGrammar(items)
    case Object(blank, fields) => Blank(blank) && FieldsGrammar(fields)
  }

  predicate ItemGrammar(i: Item)
    decreases i, 0
  {
    Blank(i.before) && Blank(i.after) && Grammar(i.tree)
  }

  predicate ItemsGrammar(items: seq<Item>)
    decreases items, 0
  {
    items != [] ==> ItemGrammar(items[0]) && ItemsGrammar(items[1..])
  }

  predicate FieldsGrammar(fields: seq<Field>)
    decreases fields, 0
  {
    fields != [] ==>
      && Blank(fields[0].beforeKey) && UnitsGrammar(fields[0].key) && Blank(fields[0].afterKey)
      && ItemGrammar(fields[0].item) && FieldsGrammar(fields[1..])
  }

  predicate UnitsGrammar(us: seq<Unit>) {
    forall i :: 0 <= i < |us| ==> UnitGrammar(us[i])
  }

  /** What the parser asks of the parts beside the grammar: numbers it can hold and no unpaired surrogate. */
  predicate Within(t: Tree, finite: string -> bool)
    decreases t, 1
  {
    match t
    case Literal(v) => true
    case Number(minus, digits, frac, exp) =>
      NumberOk(digits, frac, exp) ==> NumberFits(minus, digits, frac, exp, finite)
    case Chars(us) => AllPaired(us)
    case Array(_, items) => ItemsWithin(items, finite)
    case Object(_, fields) => FieldsWithin(fields, finite)
  }

  predicate ItemWithin(i: Item, finite: string -> bool)
    decreases i, 0
  {
    Within(i.tree, finite)
  }

  predicate ItemsWithin(items: seq<Item>, finite: string -> bool)
    decreases items, 0
  {
    items != [] ==> ItemWithin(items[0], finite) && ItemsWithin(items[1..], finite)
  }

  predicate FieldsWithin(fields: seq<Field>, finite: string -> bool)
    decreases fields, 0
  {
    fields != [] ==> AllPaired(fields[0].key) && ItemWithin(fields[0].item, finite) && FieldsWithin(fields[1..], finite)
  }

  predicate AllPaired(us: seq<Unit>) {
    forall i :: 0 <= i < |us| ==> Paired(us[i])
  }

  /** Both at once. */
  predicate Valid(t: Tree, finite: string -> bool)
    decreases t, 1
  {
    match t
    case Literal(v) => v.Null? || v.Bool?
    case Number(minus, digits, frac, exp) => NumberOk(digits, frac, exp) && NumberFits(minus, digits, frac, exp, finite)
    case Chars(us) => UnitsOk(us)
    case Array(blank, items) => Blank(blank) && ItemsValid(items, finite)
    case Object(blank, fields) => Blank(blank) && FieldsValid(fields, finite)
  }

  predicate ItemValid(i: Item, finite: string -> bool)
    decreases i, 0
  {
    Blank(i.before) && Blank(i.after) && Valid(i.tree, finite)
  }

  predicate ItemsValid(items: seq<Item>, finite: string -> bool)
    decreases items, 0
  {
    items != [] ==> ItemValid(items[0], finite) && ItemsValid(items[1..], finite)
  }

  predicate FieldsValid(fields: seq<Field>, finite: string -> bool)
    decreases fields, 0
  {
    fields != [] ==>
      && Blank(fields[0].beforeKey) && UnitsOk(fields[0].key) && Blank(fields[0].afterKey)
      && ItemValid(fields[0].item, finite) && FieldsValid(fields[1..], finite)
  }

  function Spell(t: Tree): string
    decreases t, 1
  {
    match t
    case Literal(v) => if v.Bool? then if v.b then "true" else "false" else "null"
    case Number(minus, digits, frac, exp) => NumberText(minus, digits, frac, exp)
    case Chars(us) => "\"" + UnitsText(us) + "\""
    case Array(blank, items) => "[" + (if items == [] then blank else SpellItems(items)) + "]"
    case Object(blank, fields) => "{" + (if fields == [] then blank else SpellFields(fields)) + "}"
  }

  function SpellItem(i: Item): string
    decreases i, 0
  {
    i.before + Spell(i.tree) + i.after
  }

  function SpellItems(items: seq<Item>): string
    decreases items, 0
  {
    if items == [] then "" else SpellItem(items[0]) + (if |items| == 1 then "" else "," + SpellItems(items[1..]))
  }

  function SpellField(f: Field): string
    decreases f, 0
  {
    f.beforeKey + ("\"" + UnitsText(f.key) + "\"") + f.afterKey + ":" + SpellItem(f.item)
  }

  function SpellFields(fields: seq<Field>): string
    decreases fields, 0
  {
    if fields == [] then "" else SpellField(fields[0]) + (if |fields| == 1 then "" else "," + SpellFields(fields[1..]))
  }

  function Meaning(t: Tree, finite: string -> bool): Value
    requires Valid(t, finite)
    decreases t, 1
  {
    match t
    case Literal(v) => v
    case Number(minus, digits, frac, exp) => NumberMeaning(minus, digits, frac, exp)
    case Chars(us) => Str(UnitsMeaning(us))
    case Array(_, items) => Arr(Meanings(items, finite))
    case Object(_, fields) => Obj(FieldMeanings(fields, finite))
  }

  function ItemMeaning(i: Item, finite: string -> bool): Value
    requires ItemValid(i, finite)
    decreases i, 0
  {
    Meaning(i.tree, finite)
  }

  function Meanings(items: seq<Item>, finite: string -> bool): seq<Value>
    requires ItemsValid(items, finite)
    decreases items, 0
  {
    if items == [] then [] else [ItemMeaning(items[0], finite)] + Meanings(items[1..], finite)
  }

  function FieldMeanings(fields: seq<Field>, finite: string -> bool): seq<(string, Value)>
    requires FieldsValid(fields, finite)
    decreases fields, 0
  {
    if fields == [] then []
    else [(UnitsMeaning(fields[0].key), ItemMeaning(fields[0].item, finite))] + FieldMeanings(fields[1..], finite)
  }

  // --- Everything that can be spelled is accepted ---

  /** The text goes on with something that cannot prolong a number or a literal. */
  predicate Stops(rest: string) {
    rest == "" || (!IsWordChar(rest[0]) && rest[0] != '.')
  }

  lemma ParseCharsEnd(rest: string, acc: string, start: nat)
    ensures ParseChars("\"" + rest, acc, start) == Ok(acc, rest)
  {
    assert ("\"" + rest)[1..] == rest;
  }

  lemma UnitStep(u: Unit, tail: string, acc: string, start: nat)
    requires UnitOk(u) && |acc + UnitMeaning(u)| <= MAX_STRING
    ensures ParseChars(UnitText(u) + tail, acc, start) == ParseChars(tail, acc + UnitMeaning(u), start)
  {
    var s := UnitText(u) + tail;
    if u.Raw? {
      assert s[1..] == tail;
    } else {
      EscapeOf(u, tail);
      hide ParseEscape, UnitMeaning;
      assert s[0] == '\\';
    }
  }

  lemma HexFront(h: string, tail: string)
    requires |h| == 4
    ensures Hex4(h + tail) == Hex4(h) && (h + tail)[4..] == tail
  {
  }

  lemma CodeParse(h: string, tail: string)
    requires UnitOk(Code(h))
    ensures ParseUnicode(h + tail) == Ok(Hex4(h), tail)
  {
    HexFront(h, tail);
    hide Hex4;
  }

  lemma PairParse(hi: string, lo: string, tail: string)
    requires UnitOk(Pair(hi, lo))
    ensures ParseUnicode(hi + ("\\u" + (lo + tail))) == Ok(Utf8.Combine(Hex4(hi), Hex4(lo)), tail)
  {
    var more := "\\u" + (lo + tail);
    HexFront(hi, more);
    HexFront(lo, tail);
    hide Hex4;
    assert more[2..] == lo + tail && more[6..] == tail;
  }

  lemma ShortEscape(c: char, tail: string)
    requires UnitOk(Short(c))
    ensures ParseEscape([c] + tail) == Ok(UnitMeaning(Short(c)), tail)
  {
    assert ([c] + tail)[1..] == tail;
    hide ParseUnicode;
  }

  lemma CodeEscape(h: string, tail: string)
    requires UnitOk(Code(h))
    ensures ParseEscape("u" + (h + tail)) == Ok(UnitMeaning(Code(h)), tail)
  {
    CodeParse(h, tail);
    assert ("u" + (h + tail))[1..] == h + tail;
    hide ParseUnicode, Hex4, Utf8.Encode;
  }

  lemma PairEscape(hi: string, lo: string, tail: string)
    requires UnitOk(Pair(hi, lo))
    ensures ParseEscape("u" + (hi + ("\\u" + (lo + tail)))) == Ok(UnitMeaning(Pair(hi, lo)), tail)
  {
    PairParse(hi, lo, tail);
    var t := hi + ("\\u" + (lo + tail));
    assert ("u" + t)[1..] == t;
    hide ParseUnicode, Hex4, Utf8.Encode, Utf8.Combine;
  }

  lemma LongTail(a: string, tail: string)
    ensures (("\\u" + a) + tail)[1..] == "u" + (a + tail) && (("\\u" + a) + tail)[0] == '\\'
  {
  }

  lemma EscapeOf(u: Unit, tail: string)
    requires UnitOk(u) && !u.Raw?
    ensures ParseEscape((UnitText(u) + tail)[1..]) == Ok(UnitMeaning(u), tail)
  {
    hide ParseEscape, UnitMeaning, UnitOk;
    if u.Short? {
      ShortEscape(u.c, tail);
      assert (UnitText(u) + tail)[1..] == [u.c] + tail;
    } else if u.Code? {
      CodeEscape(u.h, tail);
      LongTail(u.h, tail);
    } else {
      PairEscape(u.hi, u.lo, tail);
      LongTail(u.hi + ("\\u" + u.lo), tail);
      Assoc(u.hi, "\\u" + u.lo, tail);
      Assoc("\\u", u.lo, tail);
    }
  }

  lemma {:induction false} UnitsParse(us: seq<Unit>, rest: string, acc: string, start: nat)
    requires UnitsOk(us) && |acc + UnitsMeaning(us)| <= MAX_STRING
    ensures ParseChars(UnitsText(us) + ("\"" + rest), acc, start) == Ok(acc + UnitsMeaning(us), rest)
  {
    hide ParseChars, UnitText, UnitMeaning, UnitOk;
    var close := "\"" + rest;
    if us == [] {
      assert UnitsText(us) + close == close && acc + UnitsMeaning(us) == acc;
      ParseCharsEnd(rest, acc, start);
    } else {
      var tail := UnitsText(us[1..]) + close;
      assert UnitsText(us) + close == UnitText(us[0]) + tail;
      assert acc + UnitsMeaning(us) == (acc + UnitMeaning(us[0])) + UnitsMeaning(us[1..]);
      UnitStep(us[0], tail, acc, start);
      UnitsParse(us[1..], rest, acc + UnitMeaning(us[0]), start);
    }
  }

  lemma CharsParse(us: seq<Unit>, rest: string)
    requires UnitsOk(us) && |UnitsMeaning(us)| <= MAX_STRING
    ensures ParseString("\"" + UnitsText(us) + "\"" + rest) == Ok(UnitsMeaning(us), rest)
  {
    hide ParseChars, UnitsText, UnitsMeaning, UnitsOk;
    var s := "\"" + UnitsText(us) + "\"" + rest;
    assert s[1..] == UnitsText(us) + ("\"" + rest);
    assert "" + UnitsMeaning(us) == UnitsMeaning(us);
    UnitsParse(us, rest, "", |s|);
  }

  // Numbers

  lemma IntegerPartParse(minus: bool, digits: string, more: string)
    requires digits != "" && AllDigits(digits) && (digits[0] == '0' ==> |digits| == 1)
    requires more != "" ==> !IsDigit(more[0])
    ensures IntegerPart((if minus then "-" else "") + digits + more) == Ok((), more)
  {
    var s := (if minus then "-" else "") + digits + more;
    assert digits[0] in digits;
    var t := if minus then s[1..] else s;
    assert t == digits + more && t[|digits|..] == more;
    assert s[0] == if minus then '-' else digits[0];
    DigitRunOf(digits, more);
    hide DigitRun, AllDigits;
  }

  lemma FractionParse(frac: string, more: string, left: nat)
    requires frac != "" ==> frac[0] == '.' && |frac| > 1 && AllDigits(frac[1..])
    requires more != "" ==> !IsDigit(more[0]) && more[0] != '.'
    ensures Fraction(frac + more, left) == Ok(frac != "", more)
  {
    var s := frac + more;
    if frac == "" {
      assert s == more;
    } else {
      assert s[1..] == frac[1..] + more && s[1..][|frac| - 1..] == more;
      assert frac[1] in frac[1..];
      DigitRunOf(frac[1..], more);
      hide DigitRun, AllDigits;
    }
  }

  lemma ExponentTail(exp: string, more: string)
    requires exp != "" && ExpDigits(exp) != ""
    ensures var s := exp + more;
            |s| > 1 && s[0] == exp[0] &&
            (if |s| > 1 && (s[1] == '+' || s[1] == '-') then s[2..] else s[1..]) == ExpDigits(exp) + more
  {
    assert (exp + more)[1] == exp[1];
  }

  lemma ExponentOf(s: string, ds: string, more: string, left: nat)
    requires |s| > 1 && (s[0] == 'e' || s[0] == 'E')
    requires (if s[1] == '+' || s[1] == '-' then s[2..] else s[1..]) == ds + more
    requires ds != "" && IsDigit(ds[0]) && DigitRun(ds + more) == |ds| && (ds + more)[|ds|..] == more
    ensures Exponent(s, left) == Ok(true, more)
  {
    hide DigitRun;
  }

  lemma ExponentParse(exp: string, more: string, left: nat)
    requires exp != "" ==> (exp[0] == 'e' || exp[0] == 'E') && ExpDigits(exp) != "" && AllDigits(ExpDigits(exp))
    requires Stops(more)
    ensures Exponent(exp + more, left) == Ok(exp != "", more)
  {
    var s := exp + more;
    if exp == "" {
      assert s == more;
    } else {
      var ds := ExpDigits(exp);
      assert ds[0] in ds;
      ExponentTail(exp, more);
      DigitRunOf(ds, more);
      assert (ds + more)[|ds|..] == more;
      ExponentOf(exp + more, ds, more, left);
      hide DigitRun, AllDigits, ExpDigits, Exponent;
    }
  }

  lemma ShapeParse(minus: bool, digits: string, frac: string, exp: string, rest: string)
    requires NumberOk(digits, frac, exp) && Stops(rest)
    ensures NumberShape(NumberText(minus, digits, frac, exp) + rest) == Ok(frac != "" || exp != "", rest)
  {
    var s := NumberText(minus, digits, frac, exp) + rest;
    assert s == (if minus then "-" else "") + digits + (frac + (exp + rest));
    IntegerPartParse(minus, digits, frac + (exp + rest));
    FractionParse(frac, exp + rest, |s|);
    ExponentParse(exp, rest, |s|);
    hide IntegerPart, Fraction, Exponent, AllDigits, NumberText;
  }

  lemma IntegerMeaning(minus: bool, digits: string)
    requires NumberOk(digits, "", "")
    ensures var tok := (if minus then "-" else "") + digits;
            && IsIntegerToken(tok)
            && IntegerValue(tok) ==
               (if (if minus then NatValue(digits) <= -INT64_MIN else NatValue(digits) <= UINT64_MAX)
                then Ok(NumberMeaning(minus, digits, "", ""), "") else Fail(OutOfRange, 0))
  {
    var tok := (if minus then "-" else "") + digits;
    assert digits[0] in digits;
    if minus {
      assert tok[1..] == digits;
    } else {
      assert tok == digits;
    }
    hide NatValue;
  }

  lemma NumberParse(minus: bool, digits: string, frac: string, exp: string, rest: string, finite: string -> bool)
    requires NumberOk(digits, frac, exp) && NumberFits(minus, digits, frac, exp, finite) && Stops(rest)
    ensures ParseNumber(NumberText(minus, digits, frac, exp) + rest, finite) ==
        Ok(NumberMeaning(minus, digits, frac, exp), rest)
  {
    var tok := NumberText(minus, digits, frac, exp);
    var s := tok + rest;
    ShapeParse(minus, digits, frac, exp, rest);
    assert s[..|s| - |rest|] == tok;
    if frac == "" && exp == "" {
      IntegerMeaning(minus, digits);
      assert tok == (if minus then "-" else "") + digits;
    }
    hide NumberShape, IntegerValue, IsIntegerToken, NumberText, NatValue, NumberOk;
  }

  // Values

  lemma LiteralParse(lit: string, v: Value, rest: string)
    requires lit != "" && Stops(rest)
    ensures ParseLiteral(lit + rest, lit, v) == Ok(v, rest)
  {
    assert (lit + rest)[..|lit|] == lit && (lit + rest)[|lit|..] == rest;
  }

  lemma NoSpace(s: string)
    requires s != "" && !IsSpace(s[0])
    ensures SkipSpace(s) == s
  {
  }

  /** Which rule reads a value is decided by its first character. */
  lemma Dispatch(s: string, depth: nat, finite: string -> bool)
    requires s != "" && !IsSpace(s[0])
    ensures s[0] == '-' || IsDigit(s[0]) ==> ParseValue(s, depth, finite) == ParseNumber(s, finite)
    ensures s[0] == '[' ==> ParseValue(s, depth, finite) == ParseArray(s, depth, finite)
    ensures s[0] == '{' ==> ParseValue(s, depth, finite) == ParseObject(s, depth, finite)
    ensures s[0] == 't' ==> ParseValue(s, depth, finite) == ParseLiteral(s, "true", Bool(true))
    ensures s[0] == 'f' ==> ParseValue(s, depth, finite) == ParseLiteral(s, "false", Bool(false))
    ensures s[0] == 'n' ==> ParseValue(s, depth, finite) == ParseLiteral(s, "null", Null)
    ensures s[0] == '"' && ParseString(s).Ok? ==>
              ParseValue(s, depth, finite) == Ok(Str(ParseString(s).value), ParseString(s).rest)
  {
    hide ParseNumber, ParseLiteral, ParseString, ParseArray, ParseObject;
  }

  lemma {:induction false} SkipBlank(ws: string, s: string)
    requires Blank(ws)
    ensures SkipSpace(ws + s) == SkipSpace(s)
  {
    if ws == "" {
      assert ws + s == s;
    } else {
      assert ws[0] in ws && (ws + s)[1..] == ws[1..] + s;
      SkipBlank(ws[1..], s);
    }
  }

  /** White space before a value does not matter. */
  lemma ValueAfterBlank(ws: string, s: string, depth: nat, finite: string -> bool)
    requires Blank(ws)
    ensures ParseValue(ws + s, depth, finite) == ParseValue(s, depth, finite)
  {
    SkipBlank(ws, s);
    hide ParseNumber, ParseLiteral, ParseString, ParseArray, ParseObject, SkipSpace;
  }

  lemma SpellHead(t: Tree, finite: string -> bool)
    requires Valid(t, finite)
    ensures var s := Spell(t);
            s != "" && !IsSpace(s[0]) && s[0] != ']' && s[0] != '}' && (t.Number? ==> s[0] == '-' || IsDigit(s[0]))
  {
    if t.Number? {
      assert t.digits[0] in t.digits;
    }
    hide UnitsText, UnitsOk, NatValue;
  }

  lemma StopsAfter(ws: string, more: string)
    requires Blank(ws) && more != "" && (more[0] == ',' || more[0] == ']' || more[0] == '}')
    ensures Stops(ws + more) && SkipSpace(ws + more) == more
  {
    SkipBlank(ws, more);
    assert ws != "" ==> ws[0] in ws;
  }

  /** One item of an array, after its leading white space. */
  lemma ItemStep(s: string, v: Value, ws: string, more: string, acc: seq<Value>, depth: nat, finite: string -> bool)
    requires s != "" && !IsSpace(s[0]) && ParseValue(s, depth, finite) == Ok(v, ws + more) && Blank(ws)
    requires more != "" && (more[0] == ',' || more[0] == ']')
    ensures ParseElems(s, acc, depth, finite) ==
            if more[0] == ',' then ParseElems(more[1..], acc + [v], depth, finite) else Ok(Arr(acc + [v]), more[1..])
  {
    StopsAfter(ws, more);
    hide ParseValue;
  }

  lemma ElemsAfterBlank(ws: string, s: string, acc: seq<Value>, depth: nat, finite: string -> bool)
    requires Blank(ws)
    ensures ParseElems(ws + s, acc, depth, finite) == ParseElems(s, acc, depth, finite)
  {
    SkipBlank(ws, s);
    hide ParseValue, SkipSpace;
  }

  /** The text of the items: blank, first value, blank, and what follows. */
  lemma ItemsSplit(items: seq<Item>, close: string) returns (more: string)
    requires items != []
    ensures SpellItems(items) + close == items[0].before + (Spell(items[0].tree) + (items[0].after + more))
    ensures |items| == 1 ==> more == close
    ensures |items| > 1 ==>
        more == "," + (SpellItems(items[1..]) + close) && more[1..] == SpellItems(items[1..]) + close
  {
    hide Spell;
    more := if |items| == 1 then close else "," + (SpellItems(items[1..]) + close);
  }

  /** Every item's value fits. */
  predicate AllFit(values: seq<Value>, room: nat) {
    forall e :: e in values ==> Fits(e, room)
  }

  lemma MeaningsHead(items: seq<Item>, finite: string -> bool, room: nat)
    requires items != [] && ItemsValid(items, finite) && AllFit(Meanings(items, finite), room)
    ensures ItemValid(items[0], finite) && ItemsValid(items[1..], finite)
    ensures Fits(ItemMeaning(items[0], finite), room) && AllFit(Meanings(items[1..], finite), room)
    ensures Meanings(items, finite) == [ItemMeaning(items[0], finite)] + Meanings(items[1..], finite)
  {
    hide ItemMeaning, ItemValid, Fits;
    assert Meanings(items, finite)[0] == ItemMeaning(items[0], finite);
    assert forall e :: e in Meanings(items[1..], finite) ==> e in Meanings(items, finite);
  }

  lemma {:induction false} ItemsParse(items: seq<Item>, acc: seq<Value>, rest: string, depth: nat,
                                      finite: string -> bool)
    requires items != [] && 0 < depth <= MAX_DEPTH && ItemsValid(items, finite)
    requires AllFit(Meanings(items, finite), MAX_DEPTH - depth)
    ensures ParseElems(SpellItems(items) + ("]" + rest), acc, depth, finite) ==
        Ok(Arr(acc + Meanings(items, finite)), rest)
    decreases items, 0
  {
    hide ParseElems, ParseValue, SpellItems, Spell, Meaning, Meanings, ItemsValid, AllFit, Fits, Stops, SkipSpace;
    MeaningsHead(items, finite, MAX_DEPTH - depth);
    var item := items[0];
    var v := ItemMeaning(item, finite);
    var more := ItemsSplit(items, "]" + rest);
    var s := Spell(item.tree) + (item.after + more);
    ElemsAfterBlank(item.before, s, acc, depth, finite);
    StopsAfter(item.after, more);
    SpellHead(item.tree, finite);
    TreeParse(item.tree, item.after + more, depth, finite);
    ItemStep(s, v, item.after, more, acc, depth, finite);
    if |items| == 1 {
      NoMeanings(finite);
      assert items[1..] == [] && more[1..] == rest;
      assert acc + ([v] + []) == acc + [v];
    } else {
      ItemsParse(items[1..], acc + [v], rest, depth, finite);
      assert acc + ([v] + Meanings(items[1..], finite)) == (acc + [v]) + Meanings(items[1..], finite);
    }
  }

  lemma NoMeanings(finite: string -> bool)
    ensures Meanings([], finite) == [] && FieldMeanings([], finite) == []
  {
  }

  lemma LeafParse(t: Tree, rest: string, depth: nat, room: nat, finite: string -> bool)
    requires Valid(t, finite) && Fits(Meaning(t, finite), room) && Stops(rest) && !t.Array? && !t.Object?
    ensures ParseValue(Spell(t) + rest, depth, finite) == Ok(Meaning(t, finite), rest)
  {
    SpellHead(t, finite);
    Dispatch(Spell(t) + rest, depth, finite);
    hide ParseValue, ParseNumber, ParseString, ParseLiteral, SkipSpace, UnitsText, UnitsMeaning, NumberText,
      NumberMeaning, NumberOk, NumberFits;
    match t
    case Literal(v) => LiteralParse(Spell(t), v, rest);
    case Number(minus, digits, frac, exp) => NumberParse(minus, digits, frac, exp, rest, finite);
    case Chars(us) => CharsParse(us, rest);
  }

  lemma {:induction false} TreeParse(t: Tree, rest: string, depth: nat, finite: string -> bool)
    requires depth <= MAX_DEPTH && Valid(t, finite) && Fits(Meaning(t, finite), MAX_DEPTH - depth) && Stops(rest)
    ensures ParseValue(Spell(t) + rest, depth, finite) == Ok(Meaning(t, finite), rest)
    decreases t, 1
  {
    hide ParseValue, ParseElems, ParseMembers, Spell, SpellItems, SpellFields, ItemsValid, FieldsValid, Blank,
      NumberMeaning, NumberOk,
      NumberFits, Meanings, FieldMeanings, UnitsMeaning, UnitsOk, Stops;
    if t.Array? {
      if t.items != [] {
        ItemsParse(t.items, [], rest, depth + 1, finite);
        assert [] + Meanings(t.items, finite) == Meanings(t.items, finite);
      }
      ArrayParse(t.blank, t.items, rest, depth, finite);
    } else if t.Object? {
      if t.fields != [] {
        FieldsParse(t.fields, [], rest, depth + 1, finite);
        assert [] + FieldMeanings(t.fields, finite) == FieldMeanings(t.fields, finite);
      }
      ObjectParse(t.blank, t.fields, rest, depth, finite);
    } else {
      LeafParse(t, rest, depth, MAX_DEPTH - depth, finite);
    }
  }

  lemma ArrayParse(blank: string, items: seq<Item>, rest: string, depth: nat, finite: string -> bool)
    requires depth < MAX_DEPTH && Blank(blank) && ItemsValid(items, finite)
    requires items != [] ==>
               ParseElems(SpellItems(items) + ("]" + rest), [], depth + 1, finite) ==
                 Ok(Arr(Meanings(items, finite)), rest)
    ensures ParseValue(Spell(Array(blank, items)) + rest, depth, finite) == Ok(Arr(Meanings(items, finite)), rest)
  {
    hide ParseElems, Meanings, ParseValue;
    var s := Spell(Array(blank, items)) + rest;
    Dispatch(s, depth, finite);
    NoMeanings(finite);
    if items == [] {
      assert s[1..] == blank + ("]" + rest);
      SkipBlank(blank, "]" + rest);
    } else {
      var inner := SpellItems(items) + ("]" + rest);
      assert s[1..] == inner;
      var more := ItemsSplit(items, "]" + rest);
      var first := Spell(items[0].tree) + (items[0].after + more);
      SpellHead(items[0].tree, finite);
      SkipBlank(items[0].before, first);
      ElemsAfterBlank(items[0].before, first, [], depth + 1, finite);
      hide SpellItems, Spell;
    }
  }

  lemma MembersAfterBlank(ws: string, s: string, acc: seq<(string, Value)>, depth: nat, finite: string -> bool)
    requires Blank(ws)
    ensures ParseMembers(ws + s, acc, depth, finite) == ParseMembers(s, acc, depth, finite)
  {
    SkipBlank(ws, s);
    hide ParseValue, SkipSpace, ParseString;
  }

  lemma FieldsSplit(fields: seq<Field>, close: string) returns (more: string)
    requires fields != []
    ensures var f := fields[0];
            SpellFields(fields) + close == f.beforeKey + ("\"" + UnitsText(f.key) + "\"" + (f.afterKey + (":" +
              (f.item.before + (Spell(f.item.tree) + (f.item.after + more))))))
    ensures |fields| == 1 ==> more == close
    ensures |fields| > 1 ==>
        more == "," + (SpellFields(fields[1..]) + close) && more[1..] == SpellFields(fields[1..]) + close
  {
    more := if |fields| == 1 then close else "," + (SpellFields(fields[1..]) + close);
    var f := fields[0];
    assert SpellFields(fields) + close == SpellField(f) + more;
    var key := "\"" + UnitsText(f.key) + "\"";
    Regroup(f.beforeKey, key, f.afterKey, f.item.before, Spell(f.item.tree), f.item.after, more);
    hide Spell, UnitsText, SpellFields;
  }

  lemma Regroup(a: string, b: string, c: string, d: string, e: string, f: string, g: string)
    ensures a + b + c + ":" + (d + e + f) + g == a + (b + (c + (":" + (d + (e + (f + g))))))
  {
    assert (d + e + f) + g == d + (e + (f + g));
    assert a + b + c + ":" + (d + e + f) + g == (a + b + c + ":") + ((d + e + f) + g);
    assert (a + b + c + ":") + (d + (e + (f + g))) == a + (b + (c + (":" + (d + (e + (f + g))))));
  }

  /** A key, its colon and its value, without the leading blank. */
  lemma FieldParse(f: Field, more: string, depth: nat, finite: string -> bool)
    requires UnitsOk(f.key) && Blank(f.afterKey) && ItemValid(f.item, finite) && |UnitsMeaning(f.key)| <= MAX_STRING
    requires more != "" && (more[0] == ',' || more[0] == '}')
    requires ParseValue(Spell(f.item.tree) + (f.item.after + more), depth, finite) ==
             Ok(ItemMeaning(f.item, finite), f.item.after + more)
    ensures ParseMember("\"" + UnitsText(f.key) + "\"" + (f.afterKey + (":" +
              (f.item.before + (Spell(f.item.tree) + (f.item.after + more))))), depth, finite) ==
            Ok((UnitsMeaning(f.key), ItemMeaning(f.item, finite)), f.item.after + more)
  {
    hide ParseValue, ParseString, SkipSpace, Spell, UnitsText, UnitsMeaning, Meaning, UnitsOk;
    var value := Spell(f.item.tree) + (f.item.after + more);
    var colon := ":" + (f.item.before + value);
    var s := "\"" + UnitsText(f.key) + "\"" + (f.afterKey + colon);
    NoSpace(s);
    CharsParse(f.key, f.afterKey + colon);
    SkipBlank(f.afterKey, colon);
    NoSpace(colon);
    assert colon[1..] == f.item.before + value;
    ValueAfterBlank(f.item.before, value, depth, finite);
  }

  /** Every member's key and value fit. */
  predicate AllMembersFit(ms: seq<(string, Value)>, room: nat) {
    forall m :: m in ms ==> |m.0| <= MAX_STRING && Fits(m.1, room)
  }

  lemma FieldMeaningsHead(fields: seq<Field>, finite: string -> bool, room: nat)
    requires fields != [] && FieldsValid(fields, finite) && AllMembersFit(FieldMeanings(fields, finite), room)
    ensures Blank(fields[0].beforeKey) && UnitsOk(fields[0].key) && Blank(fields[0].afterKey)
    ensures ItemValid(fields[0].item, finite)
    ensures FieldsValid(fields[1..], finite) && AllMembersFit(FieldMeanings(fields[1..], finite), room)
    ensures |UnitsMeaning(fields[0].key)| <= MAX_STRING && Fits(ItemMeaning(fields[0].item, finite), room)
    ensures FieldMeanings(fields, finite) ==
            [(UnitsMeaning(fields[0].key), ItemMeaning(fields[0].item, finite))] + FieldMeanings(fields[1..], finite)
  {
    hide ItemMeaning, ItemValid, Fits, UnitsMeaning, UnitsOk, Blank;
    assert FieldMeanings(fields, finite)[0] == (UnitsMeaning(fields[0].key), ItemMeaning(fields[0].item, finite));
    assert forall m :: m in FieldMeanings(fields[1..], finite) ==> m in FieldMeanings(fields, finite);
  }

  /** What one parsed member makes of the rest of an object. */
  lemma MemberStep(s: string, m: (string, Value), ws: string, more: string, acc: seq<(string, Value)>, depth: nat,
                   finite: string -> bool)
    requires ParseMember(s, depth, finite) == Ok(m, ws + more) && Blank(ws)
    requires more != "" && (more[0] == ',' || more[0] == '}')
    ensures ParseMembers(s, acc, depth, finite) ==
            if more[0] == ',' then ParseMembers(more[1..], acc + [m], depth, finite) else Ok(Obj(acc + [m]), more[1..])
  {
    StopsAfter(ws, more);
    hide ParseMember;
  }

  lemma {:induction false} FieldsParse(fields: seq<Field>, acc: seq<(string, Value)>, rest: string, depth: nat,
                                       finite: string -> bool)
    requires fields != [] && 0 < depth <= MAX_DEPTH && FieldsValid(fields, finite)
    requires AllMembersFit(FieldMeanings(fields, finite), MAX_DEPTH - depth)
    ensures ParseMembers(SpellFields(fields) + ("}" + rest), acc, depth, finite) ==
        Ok(Obj(acc + FieldMeanings(fields, finite)), rest)
    decreases fields, 0
  {
    hide ParseMembers, ParseMember, ParseValue, SpellFields, Spell, Meaning, FieldMeanings, FieldsValid, AllMembersFit,
      Fits, Stops,
      SkipSpace, UnitsText, UnitsMeaning, UnitsOk;
    FieldMeaningsHead(fields, finite, MAX_DEPTH - depth);
    var f := fields[0];
    var m := (UnitsMeaning(f.key), ItemMeaning(f.item, finite));
    var more := FieldsSplit(fields, "}" + rest);
    var s := "\"" + UnitsText(f.key) + "\""
        + (f.afterKey + (":" + (f.item.before + (Spell(f.item.tree) + (f.item.after + more)))));
    MembersAfterBlank(f.beforeKey, s, acc, depth, finite);
    StopsAfter(f.item.after, more);
    TreeParse(f.item.tree, f.item.after + more, depth, finite);
    FieldParse(f, more, depth, finite);
    MemberStep(s, m, f.item.after, more, acc, depth, finite);
    if |fields| == 1 {
      NoMeanings(finite);
      assert fields[1..] == [] && more[1..] == rest;
      assert acc + ([m] + []) == acc + [m];
    } else {
      FieldsParse(fields[1..], acc + [m], rest, depth, finite);
      assert acc + ([m] + FieldMeanings(fields[1..], finite)) == (acc + [m]) + FieldMeanings(fields[1..], finite);
    }
  }

  lemma ObjectParse(blank: string, fields: seq<Field>, rest: string, depth: nat, finite: string -> bool)
    requires depth < MAX_DEPTH && Blank(blank) && FieldsValid(fields, finite)
    requires fields != [] ==>
               ParseMembers(SpellFields(fields) + ("}" + rest), [], depth + 1, finite) ==
                 Ok(Obj(FieldMeanings(fields, finite)), rest)
    ensures ParseValue(Spell(Object(blank, fields)) + rest, depth, finite) ==
        Ok(Obj(FieldMeanings(fields, finite)), rest)
  {
    hide ParseMembers, FieldMeanings, UnitsText, ParseValue;
    var s := Spell(Object(blank, fields)) + rest;
    Dispatch(s, depth, finite);
    NoMeanings(finite);
    if fields == [] {
      assert s[1..] == blank + ("}" + rest);
      SkipBlank(blank, "}" + rest);
    } else {
      var inner := SpellFields(fields) + ("}" + rest);
      assert s[1..] == inner;
      var more := FieldsSplit(fields, "}" + rest);
      var f := fields[0];
      var first := "\"" + UnitsText(f.key) + "\""
          + (f.afterKey + (":" + (f.item.before + (Spell(f.item.tree) + (f.item.after + more)))));
      NoSpace(first);
      SkipBlank(f.beforeKey, first);
      MembersAfterBlank(f.beforeKey, first, [], depth + 1, finite);
      hide SpellFields, Spell;
    }
  }

  // --- Everything accepted can be spelled ---

  lemma {:induction false} SkipSplit(s: string) returns (ws: string)
    ensures s == ws + SkipSpace(s) && Blank(ws)
    ensures SkipSpace(s) != "" ==> !IsSpace(SkipSpace(s)[0])
  {
    if s != "" && IsSpace(s[0]) {
      ws := SkipSplit(s[1..]);
      ws := [s[0]] + ws;
      assert s == [s[0]] + s[1..];
    } else {
      ws := "";
    }
  }

  lemma HexOnly(s: string)
    requires |s| >= 4
    ensures Hex4(s) == Hex4(s[..4])
  {
  }

  lemma UnicodeSound(s: string) returns (u: Unit)
    requires ParseUnicode(s).Ok?
    ensures UnitOk(u) && (u.Code? || u.Pair?) && UnitMeaning(u) == Utf8.Encode(ParseUnicode(s).value)
    ensures "\\u" + s == UnitText(u) + ParseUnicode(s).rest
  {
    HexOnly(s);
    var t := s[4..];
    assert s == s[..4] + t;
    if Utf8.IsHigh(Hex4(s)) {
      HexOnly(t[2..]);
      assert t == "\\u" + t[2..6] + t[6..] && t[2..][..4] == t[2..6];
      u := Pair(s[..4], t[2..6]);
      Assoc(s[..4], "\\u" + t[2..6], t[6..]);
      Assoc("\\u", s[..4] + ("\\u" + t[2..6]), t[6..]);
    } else {
      u := Code(s[..4]);
    }
    hide Hex4, Utf8.Encode;
  }

  lemma ShortSound(s: string)
    requires ParseEscape(s).Ok? && s[0] != 'u'
    ensures UnitOk(Short(s[0])) && ParseEscape(s) == Ok(UnitMeaning(Short(s[0])), s[1..])
  {
    hide ParseUnicode;
  }

  lemma LongSound(s: string) returns (u: Unit)
    requires ParseEscape(s).Ok? && s[0] == 'u'
    ensures UnitOk(u) && !u.Raw? && UnitMeaning(u) == ParseEscape(s).value
    ensures "\\u" + s[1..] == UnitText(u) + ParseEscape(s).rest
  {
    u := UnicodeSound(s[1..]);
    hide ParseUnicode, UnitMeaning, UnitOk, UnitText, Utf8.Encode;
  }

  lemma EscapeSound(s: string) returns (u: Unit)
    requires ParseEscape(s).Ok?
    ensures UnitOk(u) && !u.Raw? && UnitMeaning(u) == ParseEscape(s).value
    ensures "\\" + s == UnitText(u) + ParseEscape(s).rest
  {
    EscapeSome(s);
    hide ParseEscape, UnitMeaning, UnitOk;
    Backslash(s);
    if s[0] == 'u' {
      u := LongSound(s);
      hide UnitText;
    } else {
      ShortSound(s);
      u := Short(s[0]);
    }
  }

  lemma Backslash(s: string)
    requires s != ""
    ensures "\\" + s == ['\\', s[0]] + s[1..]
  {
  }

  lemma EscapeSome(s: string)
    requires ParseEscape(s).Ok?
    ensures s != ""
  {
  }

  lemma UnitsCons(u: Unit, more: seq<Unit>)
    requires UnitOk(u) && UnitsOk(more)
    ensures UnitsOk([u] + more) && UnitsText([u] + more) == UnitText(u) + UnitsText(more)
    ensures UnitsMeaning([u] + more) == UnitMeaning(u) + UnitsMeaning(more)
  {
    assert ([u] + more)[1..] == more;
    hide UnitText, UnitMeaning;
  }

  lemma {:induction false} CharsSound(s: string, acc: string, start: nat) returns (us: seq<Unit>)
    requires ParseChars(s, acc, start).Ok?
    ensures UnitsOk(us)
    ensures s == UnitsText(us) + ("\"" + ParseChars(s, acc, start).rest)
    ensures ParseChars(s, acc, start).value == acc + UnitsMeaning(us)
    decreases |s|
  {
    hide ParseEscape;
    if s[0] == '"' {
      us := [];
      assert s == [s[0]] + s[1..] && acc + "" == acc;
    } else {
      var u: Unit, tail: string;
      if s[0] == '\\' {
        u := EscapeSound(s[1..]);
        tail := ParseEscape(s[1..]).rest;
      } else {
        u, tail := Raw(s[0]), s[1..];
      }
      UnitRead(s, acc, start, u, tail);
      hide *;
      var more := CharsSound(tail, acc + UnitMeaning(u), start);
      UnitsCons(u, more);
      us := [u] + more;
      Assoc(acc, UnitMeaning(u), UnitsMeaning(more));
      Assoc(UnitText(u), UnitsText(more), "\"" + ParseChars(s, acc, start).rest);
    }
  }

  lemma Assoc(a: string, b: string, c: string)
    ensures (a + b) + c == a + (b + c)
  {
  }

  lemma UnitRead(s: string, acc: string, start: nat, u: Unit, tail: string)
    requires ParseChars(s, acc, start).Ok? && s[0] != '"' && UnitOk(u)
    requires s[0] == '\\' ==> ParseEscape(s[1..]) == Ok(UnitMeaning(u), tail) && "\\" + s[1..] == UnitText(u) + tail
    requires s[0] != '\\' ==> u == Raw(s[0]) && tail == s[1..]
    ensures ParseChars(tail, acc + UnitMeaning(u), start) == ParseChars(s, acc, start)
    ensures s == UnitText(u) + tail && |tail| < |s|
  {
    hide ParseEscape;
    assert s == [s[0]] + s[1..];
  }

  lemma StringSound(s: string) returns (us: seq<Unit>)
    requires s != "" && s[0] == '"' && ParseString(s).Ok?
    ensures UnitsOk(us) && UnitsMeaning(us) == ParseString(s).value
    ensures s == "\"" + UnitsText(us) + "\"" + ParseString(s).rest
  {
    us := CharsSound(s[1..], "", |s|);
    hide ParseChars;
    assert s == [s[0]] + s[1..];
    assert "" + UnitsMeaning(us) == UnitsMeaning(us);
  }

  lemma IntegerPartSound(s: string) returns (minus: bool, digits: string)
    requires IntegerPart(s).Ok?
    ensures digits != "" && AllDigits(digits) && (digits[0] == '0' ==> |digits| == 1)
    ensures s == (if minus then "-" else "") + digits + IntegerPart(s).rest
  {
    minus := s[0] == '-';
    var t := if minus then s[1..] else s;
    digits := DigitsSound(s, t);
    hide IntegerPart, AllDigits;
    var rest := IntegerPart(s).rest;
    if minus {
      assert s == "-" + t;
      Assoc("-", digits, rest);
    } else {
      assert "" + digits == digits;
    }
  }

  lemma DigitsSound(s: string, t: string) returns (digits: string)
    requires IntegerPart(s).Ok? && t == if s != "" && s[0] == '-' then s[1..] else s
    ensures digits != "" && AllDigits(digits) && (digits[0] == '0' ==> |digits| == 1)
    ensures t == digits + IntegerPart(s).rest
  {
    var n := if t[0] == '0' then 1 else DigitRun(t);
    digits := t[..n];
    hide DigitRun;
  }

  lemma FractionSound(s: string, left: nat) returns (frac: string)
    requires Fraction(s, left).Ok?
    ensures frac != "" ==> frac[0] == '.' && |frac| > 1 && AllDigits(frac[1..])
    ensures s == frac + Fraction(s, left).rest && Fraction(s, left).value == (frac != "")
  {
    if Fraction(s, left).value {
      var n := DigitRun(s[1..]);
      frac := s[..n + 1];
      assert frac[1..] == s[1..][..n];
    } else {
      frac := "";
    }
  }

  lemma ExponentSound(s: string, left: nat) returns (exp: string)
    requires Exponent(s, left).Ok?
    ensures exp != "" ==> (exp[0] == 'e' || exp[0] == 'E') && ExpDigits(exp) != "" && AllDigits(ExpDigits(exp))
    ensures s == exp + Exponent(s, left).rest && Exponent(s, left).value == (exp != "")
  {
    if Exponent(s, left).value {
      var sign := |s| > 1 && (s[1] == '+' || s[1] == '-');
      var m := if sign then 2 else 1;
      var n := DigitRun(s[m..]);
      exp := ExponentCut(s, m, n);
      hide DigitRun, AllDigits, ExpDigits;
    } else {
      exp := "";
    }
  }

  lemma ExponentCut(s: string, m: nat, n: nat) returns (exp: string)
    requires 1 <= m <= |s| && 0 < n <= |s| - m && m == if |s| > 1 && (s[1] == '+' || s[1] == '-') then 2 else 1
    ensures exp != "" && exp[0] == s[0] && ExpDigits(exp) == s[m..][..n] && s == exp + s[m..][n..]
  {
    exp := s[..m + n];
    assert exp[1] == s[1];
  }

  lemma NumberSound(s: string, finite: string -> bool) returns (t: Tree)
    requires ParseNumber(s, finite).Ok?
    ensures t.Number? && Valid(t, finite) && Meaning(t, finite) == ParseNumber(s, finite).value
    ensures s == Spell(t) + ParseNumber(s, finite).rest
  {
    hide IntegerPart, Fraction, Exponent, IntegerValue, AllDigits, ExpDigits, NatValue, IsIntegerToken;
    var minus, digits := IntegerPartSound(s);
    var afterInt := IntegerPart(s).rest;
    var frac := FractionSound(afterInt, |s|);
    var afterFrac := Fraction(afterInt, |s|).rest;
    var exp := ExponentSound(afterFrac, |s|);
    var rest := Exponent(afterFrac, |s|).rest;
    t := Number(minus, digits, frac, exp);
    NumberWhole(s, minus, digits, frac, exp, rest);
    if frac == "" && exp == "" {
      IntegerMeaning(minus, digits);
    }
    hide NumberText;
  }

  lemma NumberWhole(s: string, minus: bool, digits: string, frac: string, exp: string, rest: string)
    requires s == (if minus then "-" else "") + digits + (frac + (exp + rest))
    ensures s == NumberText(minus, digits, frac, exp) + rest
    ensures s[..|s| - |rest|] == NumberText(minus, digits, frac, exp)
    ensures frac == "" && exp == "" ==> NumberText(minus, digits, frac, exp) == (if minus then "-" else "") + digits
  {
    assert s == NumberText(minus, digits, frac, exp) + rest;
  }

  lemma LeafSound(s: string, depth: nat, finite: string -> bool) returns (t: Tree)
    requires s != "" && !IsSpace(s[0]) && s[0] != '[' && s[0] != '{' && ParseValue(s, depth, finite).Ok?
    ensures Valid(t, finite) && Meaning(t, finite) == ParseValue(s, depth, finite).value
    ensures s == Spell(t) + ParseValue(s, depth, finite).rest
  {
    NoSpace(s);
    hide ParseNumber, ParseString, SkipSpace, ParseArray, ParseObject, UnitsText, UnitsMeaning, UnitsOk, NumberText,
      NumberMeaning, NumberOk,
      NumberFits;
    if s[0] == '"' {
      var us := StringSound(s);
      t := Chars(us);
    } else if s[0] == 't' {
      t := Literal(Bool(true));
    } else if s[0] == 'f' {
      t := Literal(Bool(false));
    } else if s[0] == 'n' {
      t := Literal(Null);
    } else {
      t := NumberSound(s, finite);
    }
  }

  lemma {:induction false} ValueSound(s: string, depth: nat, finite: string -> bool) returns (ws: string, t: Tree)
    requires ParseValue(s, depth, finite).Ok?
    ensures Blank(ws) && Valid(t, finite) && Meaning(t, finite) == ParseValue(s, depth, finite).value
    ensures s == ws + (Spell(t) + ParseValue(s, depth, finite).rest)
    decreases |s|, 2
  {
    ws := SkipSplit(s);
    var u := SkipSpace(s);
    ValueAfterBlank(ws, u, depth, finite);
    NothingThere(s, depth, finite);
    if u[0] == '[' {
      hide *;
      t := ArraySound(u, depth, finite);
    } else if u[0] == '{' {
      hide *;
      t := ObjectSound(u, depth, finite);
    } else {
      hide *;
      t := LeafSound(u, depth, finite);
    }
  }

  lemma NothingThere(s: string, depth: nat, finite: string -> bool)
    requires ParseValue(s, depth, finite).Ok?
    ensures SkipSpace(s) != ""
  {
    hide ParseNumber, ParseString, ParseArray, ParseObject, ParseLiteral;
  }

  lemma Enclose(s: string, head: string, inner: string, close: string, rest: string)
    requires s != "" && [s[0]] == head && s[1..] == inner + (close + rest)
    ensures s == (head + inner + close) + rest
  {
    assert s == [s[0]] + s[1..];
    Assoc(head + inner, close, rest);
    Assoc(head, inner, close + rest);
  }

  lemma ArrayRead(s: string, depth: nat, finite: string -> bool)
    requires s != "" && s[0] == '[' && ParseValue(s, depth, finite).Ok?
    ensures var u := SkipSpace(s[1..]);
            if u != "" && u[0] == ']' then ParseValue(s, depth, finite) == Ok(Arr([]), u[1..])
            else ParseElems(u, [], depth + 1, finite) == ParseValue(s, depth, finite)
  {
    Dispatch(s, depth, finite);
    hide ParseValue, ParseElems;
  }

  lemma EmptyArray(ws: string, finite: string -> bool)
    requires Blank(ws)
    ensures var t := Array(ws, []); Valid(t, finite) && Meaning(t, finite) == Arr([]) && Spell(t) == "[" + ws + "]"
  {
    NoItems(finite);
    NoMeanings(finite);
  }

  lemma FullArray(items: seq<Item>, finite: string -> bool)
    requires items != [] && ItemsValid(items, finite)
    ensures var t := Array("", items);
            Valid(t, finite) && Meaning(t, finite) == Arr(Meanings(items, finite))
              && Spell(t) == "[" + SpellItems(items) + "]"
  {
    hide SpellItems, Meanings, ItemsValid;
  }

  lemma {:induction false} ArraySound(s: string, depth: nat, finite: string -> bool) returns (t: Tree)
    requires s != "" && s[0] == '[' && ParseValue(s, depth, finite).Ok?
    ensures Valid(t, finite) && Meaning(t, finite) == ParseValue(s, depth, finite).value
    ensures s == Spell(t) + ParseValue(s, depth, finite).rest
    decreases |s|, 1
  {
    hide *;
    ArrayRead(s, depth, finite);
    var rest := ParseValue(s, depth, finite).rest;
    var ws := SkipSplit(s[1..]);
    var u := SkipSpace(s[1..]);
    if u != "" && u[0] == ']' {
      t := Array(ws, []);
      EmptyArray(ws, finite);
      TextEnd(s[1..], ws, u);
      Enclose(s, "[", ws, "]", rest);
    } else {
      ElemsAfterBlank(ws, u, [], depth + 1, finite);
      var items := ItemsSound(s[1..], [], depth + 1, finite);
      t := Array("", items);
      FullArray(items, finite);
      assert [] + Meanings(items, finite) == Meanings(items, finite);
      Enclose(s, "[", SpellItems(items), "]", rest);
    }
  }

  lemma NoItems(finite: string -> bool)
    ensures ItemsValid([], finite) && FieldsValid([], finite)
  {
  }

  /** The items of an array, its bracket and what follows. */
  lemma {:induction false} ItemsSound(s: string, acc: seq<Value>, depth: nat, finite: string -> bool)
    returns (items: seq<Item>)
    requires ParseElems(s, acc, depth, finite).Ok?
    ensures items != [] && ItemsValid(items, finite)
    ensures s == SpellItems(items) + ("]" + ParseElems(s, acc, depth, finite).rest)
    ensures ParseElems(s, acc, depth, finite).value == Arr(acc + Meanings(items, finite))
    decreases |s|, 3
  {
    var ws := SkipSplit(s);
    var u := SkipSpace(s);
    ElemsRead(s, acc, depth, finite);
    var r := ParseValue(u, depth, finite);
    hide ParseElems, ParseValue, SkipSpace;
    var before, t := ValueSound(u, depth, finite);
    var after := SkipSplit(r.rest);
    var more := SkipSpace(r.rest);
    var item := Item(ws + before, t, after);
    ItemText(s, ws, before, t, after, more, u);
    ItemOk(item, ws, before, finite);
    var rest := ParseElems(s, acc, depth, finite).rest;
    hide *;
    if more[0] == ']' {
      items := [item];
      OneItem(item, finite);
      TextEnd(s, SpellItem(item), more);
    } else {
      var others := ItemsSound(more[1..], acc + [r.value], depth, finite);
      items := [item] + others;
      ItemsCons(item, others, finite);
      TextJoin(s, SpellItem(item), SpellItems(others), "]" + rest, more);
      AccJoin(acc, r.value, Meanings(others, finite));
    }
  }

  lemma TextEnd(s: string, a: string, more: string)
    requires s == a + more && more != ""
    ensures s == a + ([more[0]] + more[1..])
  {
    assert more == [more[0]] + more[1..];
  }

  lemma TextJoin(s: string, a: string, b: string, close: string, more: string)
    requires s == a + more && more != "" && more[0] == ',' && more[1..] == b + close
    ensures s == (a + ("," + b)) + close
  {
    assert more == "," + more[1..];
    Assoc(a, "," + b, close);
    Assoc(",", b, close);
  }

  lemma AccJoin<T>(acc: seq<T>, x: T, ys: seq<T>)
    ensures (acc + [x]) + ys == acc + ([x] + ys)
  {
  }

  lemma ElemsRead(s: string, acc: seq<Value>, depth: nat, finite: string -> bool)
    requires ParseElems(s, acc, depth, finite).Ok?
    ensures var u := SkipSpace(s); var r := ParseValue(u, depth, finite);
            && u != "" && r.Ok? && |u| <= |s|
            && var more := SkipSpace(r.rest);
            && more != "" && |more| < |s| && (more[0] == ']' || more[0] == ',')
            && ParseElems(s, acc, depth, finite) ==
               if more[0] == ',' then ParseElems(more[1..], acc + [r.value], depth, finite)
                 else Ok(Arr(acc + [r.value]), more[1..])
  {
    hide ParseValue;
  }

  lemma ItemText(s: string, ws: string, before: string, t: Tree, after: string, more: string, u: string)
    requires s == ws + u && u == before + (Spell(t) + (after + more))
    ensures s == SpellItem(Item(ws + before, t, after)) + more
  {
    hide Spell;
    assert s == (ws + before) + (Spell(t) + (after + more));
  }

  lemma ItemOk(item: Item, ws: string, before: string, finite: string -> bool)
    requires item.before == ws + before && Blank(ws) && Blank(before) && Blank(item.after) && Valid(item.tree, finite)
    ensures ItemValid(item, finite) && ItemMeaning(item, finite) == Meaning(item.tree, finite)
  {
    hide Valid, Meaning;
  }

  lemma OneItem(item: Item, finite: string -> bool)
    requires ItemValid(item, finite)
    ensures ItemsValid([item], finite) && SpellItems([item]) == SpellItem(item)
    ensures Meanings([item], finite) == [ItemMeaning(item, finite)]
  {
    hide ItemMeaning, SpellItem, ItemValid;
    NoItems(finite);
    NoMeanings(finite);
    assert [item][1..] == [];
  }

  lemma ItemsCons(item: Item, others: seq<Item>, finite: string -> bool)
    requires ItemValid(item, finite) && others != [] && ItemsValid(others, finite)
    ensures var items := [item] + others;
            && ItemsValid(items, finite) && SpellItems(items) == SpellItem(item) + ("," + SpellItems(others))
            && Meanings(items, finite) == [ItemMeaning(item, finite)] + Meanings(others, finite)
  {
    hide ItemMeaning, SpellItem, ItemValid;
    assert ([item] + others)[1..] == others;
  }

  lemma ObjectRead(s: string, depth: nat, finite: string -> bool)
    requires s != "" && s[0] == '{' && ParseValue(s, depth, finite).Ok?
    ensures var u := SkipSpace(s[1..]);
            if u != "" && u[0] == '}' then ParseValue(s, depth, finite) == Ok(Obj([]), u[1..])
            else ParseMembers(u, [], depth + 1, finite) == ParseValue(s, depth, finite)
  {
    Dispatch(s, depth, finite);
    hide ParseValue, ParseMembers;
  }

  lemma EmptyObject(ws: string, finite: string -> bool)
    requires Blank(ws)
    ensures var t := Object(ws, []); Valid(t, finite) && Meaning(t, finite) == Obj([]) && Spell(t) == "{" + ws + "}"
  {
    NoItems(finite);
    NoMeanings(finite);
  }

  lemma FullObject(fields: seq<Field>, finite: string -> bool)
    requires fields != [] && FieldsValid(fields, finite)
    ensures var t := Object("", fields);
            Valid(t, finite) && Meaning(t, finite) == Obj(FieldMeanings(fields, finite))
              && Spell(t) == "{" + SpellFields(fields) + "}"
  {
    hide SpellFields, FieldMeanings, FieldsValid;
  }

  lemma {:induction false} ObjectSound(s: string, depth: nat, finite: string -> bool) returns (t: Tree)
    requires s != "" && s[0] == '{' && ParseValue(s, depth, finite).Ok?
    ensures Valid(t, finite) && Meaning(t, finite) == ParseValue(s, depth, finite).value
    ensures s == Spell(t) + ParseValue(s, depth, finite).rest
    decreases |s|, 1
  {
    hide *;
    ObjectRead(s, depth, finite);
    var rest := ParseValue(s, depth, finite).rest;
    var ws := SkipSplit(s[1..]);
    var u := SkipSpace(s[1..]);
    if u != "" && u[0] == '}' {
      t := Object(ws, []);
      EmptyObject(ws, finite);
      TextEnd(s[1..], ws, u);
      Enclose(s, "{", ws, "}", rest);
    } else {
      MembersAfterBlank(ws, u, [], depth + 1, finite);
      var fields := FieldsSound(s[1..], [], depth + 1, finite);
      t := Object("", fields);
      FullObject(fields, finite);
      assert [] + FieldMeanings(fields, finite) == FieldMeanings(fields, finite);
      Enclose(s, "{", SpellFields(fields), "}", rest);
    }
  }

  lemma MemberRead(s: string, depth: nat, finite: string -> bool)
    requires ParseMember(s, depth, finite).Ok?
    ensures var t := SkipSpace(s);
            && t != "" && t[0] == '"' && ParseString(t).Ok? && |t| <= |s|
            && var u := SkipSpace(ParseString(t).rest);
            && u != "" && u[0] == ':' && |u| < |s| && ParseValue(u[1..], depth, finite).Ok?
            && ParseMember(s, depth, finite) ==
               Ok((ParseString(t).value, ParseValue(u[1..], depth, finite).value),
                 ParseValue(u[1..], depth, finite).rest)
  {
    hide ParseValue, ParseString;
  }

  lemma FieldText(s: string, ws: string, key: string, afterKey: string, before: string, value: string, after: string,
                  more: string)
    requires s == ws + (key + (afterKey + (":" + (before + (value + (after + more))))))
    ensures s == ws + key + afterKey + ":" + (before + value + after) + more
  {
    Regroup(ws, key, afterKey, before, value, after, more);
  }

  /** A member with the blank behind it. */
  lemma {:induction false} FieldSound(s: string, depth: nat, finite: string -> bool) returns (f: Field)
    requires ParseMember(s, depth, finite).Ok?
    ensures Blank(f.beforeKey) && UnitsOk(f.key) && Blank(f.afterKey) && ItemValid(f.item, finite)
    ensures ParseMember(s, depth, finite).value == (UnitsMeaning(f.key), ItemMeaning(f.item, finite))
    ensures s == SpellField(f) + SkipSpace(ParseMember(s, depth, finite).rest)
    decreases |s|, 3
  {
    MemberRead(s, depth, finite);
    hide ParseMember, ParseValue, ParseString;
    var ws := SkipSplit(s);
    var t := SkipSpace(s);
    var us := StringSound(t);
    var afterKey := SkipSplit(ParseString(t).rest);
    var u := SkipSpace(ParseString(t).rest);
    hide SkipSpace;
    var before, tree := ValueSound(u[1..], depth, finite);
    var after := SkipSplit(ParseMember(s, depth, finite).rest);
    f := Field(ws, us, afterKey, Item(before, tree, after));
    ItemOk(f.item, "", before, finite);
    hide UnitsText, UnitsMeaning, UnitsOk, Spell, Meaning, Valid, ItemMeaning, ItemValid;
    assert u == ":" + u[1..];
    FieldText(s, ws, "\"" + UnitsText(us) + "\"", afterKey, before, Spell(tree), after,
              SkipSpace(ParseMember(s, depth, finite).rest));
  }

  lemma MembersRead(s: string, acc: seq<(string, Value)>, depth: nat, finite: string -> bool)
    requires ParseMembers(s, acc, depth, finite).Ok?
    ensures var r := ParseMember(s, depth, finite);
            && r.Ok?
            && var more := SkipSpace(r.rest);
            && more != "" && |more| < |s| && (more[0] == '}' || more[0] == ',')
            && ParseMembers(s, acc, depth, finite) ==
               if more[0] == ',' then ParseMembers(more[1..], acc + [r.value], depth, finite)
                 else Ok(Obj(acc + [r.value]), more[1..])
  {
    hide ParseMember;
  }

  lemma OneField(f: Field, finite: string -> bool)
    requires Blank(f.beforeKey) && UnitsOk(f.key) && Blank(f.afterKey) && ItemValid(f.item, finite)
    ensures FieldsValid([f], finite) && SpellFields([f]) == SpellField(f)
    ensures FieldMeanings([f], finite) == [(UnitsMeaning(f.key), ItemMeaning(f.item, finite))]
  {
    hide ItemMeaning, SpellField, ItemValid, UnitsMeaning, UnitsOk, Blank;
    NoItems(finite);
    NoMeanings(finite);
    assert [f][1..] == [];
  }

  lemma FieldsCons(f: Field, others: seq<Field>, finite: string -> bool)
    requires Blank(f.beforeKey) && UnitsOk(f.key) && Blank(f.afterKey) && ItemValid(f.item, finite)
    requires others != [] && FieldsValid(others, finite)
    ensures var fields := [f] + others;
            && FieldsValid(fields, finite) && SpellFields(fields) == SpellField(f) + ("," + SpellFields(others))
            && FieldMeanings(fields, finite) ==
                [(UnitsMeaning(f.key), ItemMeaning(f.item, finite))] + FieldMeanings(others, finite)
  {
    hide ItemMeaning, SpellField, ItemValid, UnitsMeaning, UnitsOk, Blank;
    assert ([f] + others)[1..] == others;
  }

  /** The members of an object, its brace and what follows. */
  lemma {:induction false} FieldsSound(s: string, acc: seq<(string, Value)>, depth: nat, finite: string -> bool)
    returns (fields: seq<Field>)
    requires ParseMembers(s, acc, depth, finite).Ok?
    ensures fields != [] && FieldsValid(fields, finite)
    ensures s == SpellFields(fields) + ("}" + ParseMembers(s, acc, depth, finite).rest)
    ensures ParseMembers(s, acc, depth, finite).value == Obj(acc + FieldMeanings(fields, finite))
    decreases |s|, 4
  {
    MembersRead(s, acc, depth, finite);
    var r := ParseMember(s, depth, finite);
    hide ParseMembers, ParseMember, SkipSpace;
    var f := FieldSound(s, depth, finite);
    var more := SkipSpace(r.rest);
    var rest := ParseMembers(s, acc, depth, finite).rest;
    hide *;
    if more[0] == '}' {
      fields := [f];
      OneField(f, finite);
      TextEnd(s, SpellField(f), more);
    } else {
      var others := FieldsSound(more[1..], acc + [r.value], depth, finite);
      fields := [f] + others;
      FieldsCons(f, others, finite);
      TextJoin(s, SpellField(f), SpellFields(others), "}" + rest, more);
      AccJoin(acc, r.value, FieldMeanings(others, finite));
    }
  }

  // --- The theorem ---

  lemma ValidUnits(us: seq<Unit>)
    ensures UnitsOk(us) <==> UnitsGrammar(us) && AllPaired(us)
  {
  }

  /** A valid spelling is one of the grammar that keeps the limits. */
  lemma {:induction false} ValidSplit(t: Tree, finite: string -> bool)
    ensures Valid(t, finite) <==> Grammar(t) && Within(t, finite)
    decreases t, 1
  {
    match t
    case Literal(v) =>
    case Number(minus, digits, frac, exp) =>
    case Chars(us) => ValidUnits(us);
    case Array(blank, items) => ItemsValidSplit(items, finite);
    case Object(blank, fields) => FieldsValidSplit(fields, finite);
  }

  lemma {:induction false} ItemsValidSplit(items: seq<Item>, finite: string -> bool)
    ensures ItemsValid(items, finite) <==> ItemsGrammar(items) && ItemsWithin(items, finite)
    decreases items, 0
  {
    if items != [] {
      ItemValidSplit(items[0], finite);
      ItemsValidSplit(items[1..], finite);
      hide ItemValid, ItemGrammar, ItemWithin;
    }
  }

  lemma {:induction false} ItemValidSplit(i: Item, finite: string -> bool)
    ensures ItemValid(i, finite) <==> ItemGrammar(i) && ItemWithin(i, finite)
    decreases i, 0
  {
    ValidSplit(i.tree, finite);
    hide Valid, Grammar, Within;
  }

  lemma {:induction false} FieldsValidSplit(fields: seq<Field>, finite: string -> bool)
    ensures FieldsValid(fields, finite) <==> FieldsGrammar(fields) && FieldsWithin(fields, finite)
    decreases fields, 0
  {
    if fields != [] {
      ValidUnits(fields[0].key);
      ItemValidSplit(fields[0].item, finite);
      FieldsValidSplit(fields[1..], finite);
      hide ItemValid, ItemGrammar, ItemWithin, UnitsOk, UnitsGrammar, AllPaired;
    }
  }

  /** The text is in the grammar: a spelling with blanks around it. */
  ghost predicate IsText(text: string, t: Tree) {
    Grammar(t) && exists before, after :: Blank(before) && Blank(after) && text == before + (Spell(t) + after)
  }

  predicate Means(t: Tree, v: Value, finite: string -> bool) {
    Valid(t, finite) && Meaning(t, finite) == v
  }

  ghost predicate Spells(text: string, v: Value, finite: string -> bool) {
    exists t :: IsText(text, t) && Within(t, finite) && Means(t, v, finite)
  }

  /**
   * The parser accepts exactly the texts of RFC 8259 within its limits, each with its meaning: the length of
   * the text, depth and string lengths (Fits), numbers it can hold and surrogates in pairs (Within).
   */
  lemma AcceptsExactly(input: string, v: Value, finite: string -> bool)
    ensures Parse(input, finite) == Ok(v, "") <==>
            |input| <= 65536 && Spells(input, v, finite) && Fits(v, 32)
  {
    hide ParseValue, Fits, Spells;
    if Parse(input, finite) == Ok(v, "") {
      SpelledIfAccepted(input, v, finite);
    }
    if |input| <= 65536 && Spells(input, v, finite) && Fits(v, 32) {
      AcceptedIfSpelled(input, v, finite);
    }
  }

  /** A surrogate without its partner is in the grammar, yet refused. */
  lemma LoneSurrogate(finite: string -> bool)
    ensures IsText("\"\\ud800\"", Chars([Code("d800")]))
    ensures Parse("\"\\ud800\"", finite).Fail?
  {
    LoneIsText();
    var s := "\"\\ud800\"";
    assert s[1..] == "\\ud800\"" && s[1..][1..] == "ud800\"" && s[1..][1..][1..] == "d800\"";
    LoneRefused();
    hide ParseEscape, IsText;
    assert ParseChars(s[1..], "", |s|).Fail?;
  }

  lemma LoneIsText()
    ensures IsText("\"\\ud800\"", Chars([Code("d800")]))
  {
    var u := Code("d800");
    assert Hex4("d800") == 0xD800;
    assert UnitsText([u]) == UnitText(u) + UnitsText([]) == "\\ud800";
    assert "\"\\ud800\"" == "" + (Spell(Chars([u])) + "");
    assert Grammar(Chars([u])) && Blank("");
  }

  lemma LoneRefused()
    ensures ParseEscape("ud800\"").Fail?
  {
    assert "ud800\""[1..] == "d800\"";
    assert Hex4("d800\"") == 0xD800;
    assert ParseUnicode("d800\"").Fail?;
  }

  lemma SpelledIfAccepted(input: string, v: Value, finite: string -> bool)
    requires Parse(input, finite) == Ok(v, "")
    ensures |input| <= 65536 && Spells(input, v, finite) && Fits(v, 32)
  {
    hide ParseValue, Fits, Valid, Meaning, Spell, Blank, Grammar, Within;
    var r := ParseValue(input, 0, finite);
    var before, t := ValueSound(input, 0, finite);
    var after := SkipSplit(r.rest);
    assert after + "" == after;
    ValidSplit(t, finite);
    assert IsText(input, t);
    JsonAccept.ValueCanonical(input, 0, finite);
  }

  lemma AcceptedIfSpelled(input: string, v: Value, finite: string -> bool)
    requires |input| <= 65536 && Spells(input, v, finite) && Fits(v, 32)
    ensures Parse(input, finite) == Ok(v, "")
  {
    hide ParseValue, Fits, Valid, Meaning, Spell, Grammar, Within;
    var t :| IsText(input, t) && Within(t, finite) && Means(t, v, finite);
    var before, after :| Blank(before) && Blank(after) && input == before + (Spell(t) + after);
    assert Stops(after) by {
      assert after != "" ==> after[0] in after;
    }
    TreeParse(t, after, 0, finite);
    ValueAfterBlank(before, Spell(t) + after, 0, finite);
    SkipBlank(after, "");
    assert after + "" == after;
  }
}
