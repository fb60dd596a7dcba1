/** What the parser reports of a text it refuses: which fault, and how much of the text was left where it was found. */
module JsonFaults {
  import opened Decimal
  import opened Json
  import opened JsonGrammar
  import JsonAccept
  import Utf8

  // --- Strings ---

  predicate HexFour(t: string) {
    |t| >= 4 && forall i :: 0 <= i < 4 ==> t[i] in "0123456789abcdefABCDEF"
  }

  lemma HexMissing(t: string)
    ensures Hex4(t) < 0 <==> !HexFour(t)
  {
    if |t| >= 4 {
      JsonAccept.HexSpelled(t[0]);
      JsonAccept.HexSpelled(t[1]);
      JsonAccept.HexSpelled(t[2]);
      JsonAccept.HexSpelled(t[3]);
      hide HexValue, JsonAccept.DigitSpelled;
    }
  }

  /** Of the text after a backslash. */
  lemma EscapeFaults(t: string)
    ensures t == "" ==> ParseEscape(t) == Fail(IncompleteEscape, 0)
    ensures t != "" && t[0] !in "\"\\/bfnrtu" ==> ParseEscape(t) == Fail(UnknownEscape, |t| - 1)
    ensures t != "" && t[0] == 'u' && !HexFour(t[1..]) ==> ParseEscape(t) == Fail(BadHex, |t| - 1)
  {
    if t != "" {
      HexMissing(t[1..]);
      hide Hex4, HexFour, Utf8.Encode;
    }
  }

  lemma UnitAfterU(h: string, u: nat, t: string)
    requires JsonAccept.UnitSpelled(h, u)
    ensures var s := "u" + (h + t);
            s[0] == 'u' && Hex4(s[1..]) == u && s[1..][4..] == t
  {
    var s := "u" + (h + t);
    assert s[1..] == h + t && (h + t)[..4] == h && (h + t)[4..] == t;
    JsonAccept.Hex4Exactly(h + t, u);
    hide Hex4;
  }

  /** Of a surrogate spelled h, with t after it: a low one, or a high one that no other unit follows. */
  lemma SurrogateFaults(h: string, u: nat, t: string)
    requires JsonAccept.UnitSpelled(h, u) && 0xD800 <= u <= 0xDFFF
    ensures u >= 0xDC00 ==> ParseEscape("u" + (h + t)) == Fail(LonelyLow, |t|)
    ensures u < 0xDC00 && (|t| < 2 || t[..2] != "\\u") ==> ParseEscape("u" + (h + t)) == Fail(IncompletePair, |t|)
    ensures u < 0xDC00 && |t| >= 2 && t[..2] == "\\u" && !HexFour(t[2..]) ==>
              ParseEscape("u" + (h + t)) == Fail(BadHex, |t| - 2)
  {
    UnitAfterU(h, u, t);
    if |t| >= 2 {
      HexMissing(t[2..]);
    }
    hide Hex4, HexFour, Utf8.Encode, Utf8.Combine, JsonAccept.UnitSpelled;
  }

  /** A high one with a unit after it that is no low one. */
  lemma PairFaults(h: string, u: nat, l: string, v: nat, t: string)
    requires JsonAccept.UnitSpelled(h, u) && 0xD800 <= u < 0xDC00
    requires JsonAccept.UnitSpelled(l, v) && !(0xDC00 <= v <= 0xDFFF)
    ensures ParseEscape("u" + (h + ("\\u" + (l + t)))) == Fail(BadPair, |t|)
  {
    var more := "\\u" + (l + t);
    UnitAfterU(h, u, more);
    UnitAfterU(l, v, t);
    assert more[2..] == l + t && ("u" + (l + t))[1..] == l + t;
    hide Hex4, Utf8.Encode, Utf8.Combine, JsonAccept.UnitSpelled;
  }

  lemma {:induction false} UnitsRead(us: seq<Unit>, tail: string, acc: string, start: nat)
    requires UnitsOk(us) && |acc + UnitsMeaning(us)| <= MAX_STRING
    ensures ParseChars(UnitsText(us) + tail, acc, start) == ParseChars(tail, acc + UnitsMeaning(us), start)
  {
    hide ParseChars, UnitText, UnitMeaning, UnitOk;
    if us == [] {
      assert UnitsText(us) + tail == tail && acc + UnitsMeaning(us) == acc;
    } else {
      var rest := UnitsText(us[1..]) + tail;
      assert UnitsText(us) + tail == UnitText(us[0]) + rest;
      assert acc + UnitsMeaning(us) == (acc + UnitMeaning(us[0])) + UnitsMeaning(us[1..]);
      UnitStep(us[0], rest, acc, start);
      UnitsRead(us[1..], tail, acc + UnitMeaning(us[0]), start);
    }
  }

  /** One unit too many: a plain byte is refused where it stands, an escape after it. */
  lemma UnitTooLong(u: Unit, rest: string, acc: string, start: nat)
    requires UnitOk(u) && |acc + UnitMeaning(u)| > 4096 >= |acc|
    ensures ParseChars(UnitText(u) + rest, acc, start)
            == Fail(StringTooLong, if u.Raw? then |rest| + 1 else |rest|)
  {
    var s := UnitText(u) + rest;
    if !u.Raw? {
      EscapeOf(u, rest);
      hide ParseEscape, UnitMeaning;
      assert s[0] == '\\';
    }
  }

  /** What is wrong with a string that starts with the units us, going on as tail. */
  lemma StringFaults(us: seq<Unit>, tail: string)
    requires UnitsOk(us) && |UnitsMeaning(us)| <= 4096
    ensures var s := "\"" + (UnitsText(us) + tail);
            && (tail == "" ==> ParseString(s) == Fail(UnclosedString, |s|))
            && (tail != "" && tail[0] < ' ' ==> ParseString(s) == Fail(ControlChar, |tail|))
            && (tail != "" && tail[0] == '\\' && ParseEscape(tail[1..]).Fail? ==>
                  ParseString(s) == Fail(ParseEscape(tail[1..]).fault, ParseEscape(tail[1..]).left))
  {
    var s := "\"" + (UnitsText(us) + tail);
    assert s[1..] == UnitsText(us) + tail && "" + UnitsMeaning(us) == UnitsMeaning(us);
    UnitsRead(us, tail, "", |s|);
    hide ParseEscape, UnitsText, UnitsMeaning, UnitsOk;
  }

  lemma LongStringFaults(us: seq<Unit>, u: Unit, rest: string)
    requires UnitsOk(us) && UnitOk(u) && |UnitsMeaning(us)| <= 4096 < |UnitsMeaning(us) + UnitMeaning(u)|
    ensures ParseString("\"" + (UnitsText(us) + (UnitText(u) + rest)))
            == Fail(StringTooLong, if u.Raw? then |rest| + 1 else |rest|)
  {
    hide ParseChars, ParseEscape, UnitsText, UnitText, UnitsMeaning, UnitMeaning, UnitsOk, UnitOk;
    var s := "\"" + (UnitsText(us) + (UnitText(u) + rest));
    assert s[1..] == UnitsText(us) + (UnitText(u) + rest) && "" + UnitsMeaning(us) == UnitsMeaning(us);
    UnitsRead(us, UnitText(u) + rest, "", |s|);
    UnitTooLong(u, rest, UnitsMeaning(us), |s|);
  }

  // --- Numbers ---

  predicate StartsWithDigit(s: string) {
    s != "" && s[0] in "0123456789"
  }

  lemma NoDigit(s: string)
    ensures StartsWithDigit(s) <==> s != "" && IsDigit(s[0])
  {
    if s != "" {
      DigitsSpelled(s[0]);
    }
  }

  /** A number is reported at its start: no digits, or more after a first 0. */
  lemma IntegerFaults(minus: bool, t: string, finite: string -> bool)
    ensures var s := (if minus then "-" else "") + t;
            && (!StartsWithDigit(t) && (minus || t == "" || t[0] != '-') ==>
                  ParseNumber(s, finite) == Fail(BadNumber, |s|))
            && (t != "" && t[0] == '0' && StartsWithDigit(t[1..]) ==> ParseNumber(s, finite) == Fail(LeadingZero, |s|))
  {
    NoDigit(t);
    if t != "" {
      NoDigit(t[1..]);
    }
    var s := (if minus then "-" else "") + t;
    assert (if s != "" && s[0] == '-' then s[1..] else s) == (if minus || t == "" || t[0] != '-' then t else t[1..]);
    hide StartsWithDigit, DigitRun;
  }

  /** A point or an exponent without digits. */
  lemma FractionFaults(minus: bool, digits: string, t: string, finite: string -> bool)
    requires NumberOk(digits, "", "") && !StartsWithDigit(t)
    ensures var s := NumberText(minus, digits, "", "") + ("." + t);
            ParseNumber(s, finite) == Fail(BadFraction, |s|)
  {
    var s := NumberText(minus, digits, "", "") + ("." + t);
    assert s == (if minus then "-" else "") + digits + ("." + t);
    IntegerPartParse(minus, digits, "." + t);
    NoDigit(t);
    hide IntegerPart, DigitRun, StartsWithDigit, NumberText;
  }

  lemma ExponentFaults(minus: bool, digits: string, frac: string, e: string, t: string, finite: string -> bool)
    requires NumberOk(digits, frac, "") && !StartsWithDigit(t)
    requires e in ["e", "E", "e+", "e-", "E+", "E-"] && (|e| == 1 && t != "" ==> t[0] != '+' && t[0] != '-')
    ensures var s := NumberText(minus, digits, frac, "") + (e + t);
            ParseNumber(s, finite) == Fail(BadExponent, |s|)
  {
    var s := NumberText(minus, digits, frac, "") + (e + t);
    assert s == (if minus then "-" else "") + digits + (frac + (e + t));
    IntegerPartParse(minus, digits, frac + (e + t));
    FractionParse(frac, e + t, |s|);
    NoDigit(t);
    NoExponent(e, t, |s|);
    hide IntegerPart, Fraction, Exponent, DigitRun, StartsWithDigit, NumberText;
  }

  lemma NoExponent(e: string, t: string, left: nat)
    requires t == "" || !IsDigit(t[0])
    requires e in ["e", "E", "e+", "e-", "E+", "E-"] && (|e| == 1 && t != "" ==> t[0] != '+' && t[0] != '-')
    ensures Exponent(e + t, left) == Fail(BadExponent, left)
  {
    assert (e + t)[|e|..] == t;
    hide DigitRun;
  }

  /** A well-formed number that the parser does not hold. */
  lemma NumberFaults(minus: bool, digits: string, frac: string, exp: string, rest: string, finite: string -> bool)
    requires NumberOk(digits, frac, exp) && Stops(rest)
    ensures var s := NumberText(minus, digits, frac, exp) + rest;
            && (|s| - |rest| > 64 ==> ParseNumber(s, finite) == Fail(NumberTooLong, |s|))
            && (|s| - |rest| <= 64 && !NumberFits(minus, digits, frac, exp, finite) ==>
                  ParseNumber(s, finite) == Fail(OutOfRange, |s|))
  {
    var tok := NumberText(minus, digits, frac, exp);
    var s := tok + rest;
    ShapeParse(minus, digits, frac, exp, rest);
    assert s[..|s| - |rest|] == tok;
    if frac == "" && exp == "" {
      IntegerMeaning(minus, digits);
      assert tok == (if minus then "-" else "") + digits;
    }
    hide NumberShape, IntegerValue, IsIntegerToken, NumberText, NatValue, NumberOk;
  }

  // --- Values ---

  /** After blanks ws: nothing, something no value starts with, a bracket too deep, a string that is refused. */
  lemma ValueFaults(ws: string, t: string, depth: nat, finite: string -> bool)
    requires Blank(ws)
    ensures ParseValue(ws, depth, finite) == Fail(Empty, 0)
    ensures t != "" && t[0] !in " \t\n\r{[\"tfn-0123456789" ==>
              ParseValue(ws + t, depth, finite) == Fail(Unexpected, |t|)
    ensures t != "" && t[0] in "[{" && depth >= 32 ==> ParseValue(ws + t, depth, finite) == Fail(TooDeep, |t|)
    ensures t != "" && t[0] == '"' && ParseString(t).Fail? ==>
              ParseValue(ws + t, depth, finite) == Fail(ParseString(t).fault, ParseString(t).left)
  {
    ValueAfterBlank(ws, "", depth, finite);
    ValueAfterBlank(ws, t, depth, finite);
    assert ws + "" == ws;
    if t != "" {
      DigitsSpelled(t[0]);
    }
    hide ParseString, ParseNumber, ParseLiteral, ParseElems, ParseMembers;
  }

  /** A word is read unless it is none of the three, or goes on. */
  lemma LiteralFaults(ws: string, lit: string, v: Value, t: string, depth: nat, finite: string -> bool)
    requires Blank(ws) && (lit, v) in [("true", Bool(true)), ("false", Bool(false)), ("null", Null)]
    requires t != "" && t[0] == lit[0]
    ensures ParseValue(ws + t, depth, finite)
            == if |t| < |lit| || t[..|lit|] != lit || (|t| > |lit| && GoesOn(t[|lit|])) then Fail(BadLiteral, |t|)
               else Ok(v, t[|lit|..])
  {
    ValueAfterBlank(ws, t, depth, finite);
    Dispatch(t, depth, finite);
    if |t| > |lit| {
      DigitsSpelled(t[|lit|]);
    }
    hide ParseValue;
  }

  predicate GoesOn(c: char) {
    c in "0123456789" || 'a' <= c <= 'z' || 'A' <= c <= 'Z' || c == '_'
  }

  // Arrays

  /** Items that have their commas already. */
  function ListedItems(items: seq<Item>): string {
    if items == [] then "" else SpellItem(items[0]) + ("," + ListedItems(items[1..]))
  }

  lemma ItemRead(i: Item, more: string, depth: nat, finite: string -> bool)
    requires depth <= MAX_DEPTH && ItemValid(i, finite) && Fits(ItemMeaning(i, finite), MAX_DEPTH - depth)
    requires Stops(i.after + more)
    ensures ParseValue(SpellItem(i) + more, depth, finite) == Ok(ItemMeaning(i, finite), i.after + more)
  {
    hide ParseValue, Spell, Meaning, Valid, Fits, Stops;
    var s := Spell(i.tree) + (i.after + more);
    assert SpellItem(i) + more == i.before + s;
    ValueAfterBlank(i.before, s, depth, finite);
    TreeParse(i.tree, i.after + more, depth, finite);
  }

  lemma ListedStep(i: Item, rest: string, acc: seq<Value>, depth: nat, finite: string -> bool)
    requires depth <= MAX_DEPTH && ItemValid(i, finite) && Fits(ItemMeaning(i, finite), MAX_DEPTH - depth)
    ensures ParseElems(SpellItem(i) + ("," + rest), acc, depth, finite)
            == ParseElems(rest, acc + [ItemMeaning(i, finite)], depth, finite)
  {
    hide ParseElems, ParseValue, Spell, Meaning, Fits;
    var more := "," + rest;
    StopsAfter(i.after, more);
    var s := Spell(i.tree) + (i.after + more);
    assert SpellItem(i) + more == i.before + s;
    SpellHead(i.tree, finite);
    TreeParse(i.tree, i.after + more, depth, finite);
    ElemsAfterBlank(i.before, s, acc, depth, finite);
    ItemStep(s, ItemMeaning(i, finite), i.after, more, acc, depth, finite);
    assert more[1..] == rest;
  }

  lemma {:induction false} ListedRead(items: seq<Item>, rest: string, acc: seq<Value>, depth: nat,
                                      finite: string -> bool)
    requires 0 < depth <= MAX_DEPTH && ItemsValid(items, finite)
    requires AllFit(Meanings(items, finite), MAX_DEPTH - depth)
    ensures ParseElems(ListedItems(items) + rest, acc, depth, finite)
            == ParseElems(rest, acc + Meanings(items, finite), depth, finite)
  {
    hide ParseElems, SpellItem, ItemMeaning, ItemValid, Fits;
    if items == [] {
      assert "" + rest == rest && acc + [] == acc;
    } else {
      MeaningsHead(items, finite, MAX_DEPTH - depth);
      var more := ListedItems(items[1..]) + rest;
      assert ListedItems(items) + rest == SpellItem(items[0]) + ("," + more);
      ListedStep(items[0], more, acc, depth, finite);
      ListedRead(items[1..], rest, acc + [ItemMeaning(items[0], finite)], depth, finite);
      assert acc + Meanings(items, finite) == (acc + [ItemMeaning(items[0], finite)]) + Meanings(items[1..], finite);
    }
  }

  /**
   * What becomes of the text after an array's items: it ends, a value is refused, or no comma or bracket
   * follows one.
   */
  lemma ElemFaults(tail: string, acc: seq<Value>, depth: nat, finite: string -> bool)
    ensures Blank(tail) ==> ParseElems(tail, acc, depth, finite) == Fail(UnclosedArray, 0)
    ensures !Blank(tail) && ParseValue(tail, depth, finite).Fail? ==>
              ParseElems(tail, acc, depth, finite)
              == Fail(ParseValue(tail, depth, finite).fault, ParseValue(tail, depth, finite).left)
  {
    hide ParseValue;
    var ws := SkipSplit(tail);
    var t := SkipSpace(tail);
    if Blank(tail) {
      SkipBlank(tail, "");
      assert tail + "" == tail;
    } else {
      assert t != "" by {
        assert ws + "" == ws;
      }
      ValueAfterBlank(ws, t, depth, finite);
    }
  }

  lemma SeparatorFaults(i: Item, t: string, acc: seq<Value>, depth: nat, finite: string -> bool)
    requires depth <= MAX_DEPTH && ItemValid(i, finite) && Fits(ItemMeaning(i, finite), MAX_DEPTH - depth)
    requires Stops(i.after + t) && (t != "" ==> t[0] !in " \t\n\r,]")
    ensures ParseElems(SpellItem(i) + t, acc, depth, finite)
            == if t == "" then Fail(UnclosedArray, 0) else Fail(ArraySeparator, |t|)
  {
    hide ParseValue, Spell, Meaning, Fits;
    var s := Spell(i.tree) + (i.after + t);
    assert SpellItem(i) + t == i.before + s;
    SpellHead(i.tree, finite);
    TreeParse(i.tree, i.after + t, depth, finite);
    SkipBlank(i.after, t);
    NoSpace(s);
    ElemsAfterBlank(i.before, s, acc, depth, finite);
  }

  lemma ListedHead(items: seq<Item>, tail: string, finite: string -> bool)
    requires items != [] && ItemsValid(items, finite)
    ensures SkipSpace(ListedItems(items) + tail) != "" && SkipSpace(ListedItems(items) + tail)[0] != ']'
  {
    var more := "," + (ListedItems(items[1..]) + tail);
    var s := Spell(items[0].tree) + (items[0].after + more);
    SpellHead(items[0].tree, finite);
    hide Spell, Valid;
    assert ListedItems(items) + tail == items[0].before + s;
    SkipBlank(items[0].before, s);
    NoSpace(s);
  }

  /** An array: the items with their commas are read over, and what is wrong with the rest is reported. */
  lemma ArrayFaults(ws: string, items: seq<Item>, tail: string, depth: nat, finite: string -> bool)
    requires Blank(ws) && depth < 32 && ItemsValid(items, finite) && AllFit(Meanings(items, finite), 31 - depth)
    requires items == [] && SkipSpace(tail) != "" ==> SkipSpace(tail)[0] != ']'
    ensures ParseValue(ws + ("[" + (ListedItems(items) + tail)), depth, finite)
            == ParseElems(tail, Meanings(items, finite), depth + 1, finite)
  {
    hide ParseValue, ParseElems, Meanings, ItemsValid, AllFit;
    var inner := ListedItems(items) + tail;
    var s := "[" + inner;
    ValueAfterBlank(ws, s, depth, finite);
    Dispatch(s, depth, finite);
    assert s[1..] == inner;
    ListedRead(items, tail, [], depth + 1, finite);
    assert [] + Meanings(items, finite) == Meanings(items, finite);
    var blank := SkipSplit(inner);
    ElemsAfterBlank(blank, SkipSpace(inner), [], depth + 1, finite);
    if items == [] {
      assert inner == tail;
    } else {
      ListedHead(items, tail, finite);
    }
    hide ListedItems, SkipSpace;
  }

  // Objects

  /** Members that have their commas already. */
  function ListedFields(fields: seq<Field>): string {
    if fields == [] then "" else SpellField(fields[0]) + ("," + ListedFields(fields[1..]))
  }

  /** A member, its leading blank skipped. */
  function FieldText(f: Field, more: string): string {
    "\"" + UnitsText(f.key) + "\""
    + (f.afterKey + (":" + (f.item.before + (Spell(f.item.tree) + (f.item.after + more)))))
  }

  lemma FieldTextOf(f: Field, more: string)
    ensures SpellField(f) + more == f.beforeKey + FieldText(f, more)
    ensures FieldText(f, more) != "" && FieldText(f, more)[0] == '"'
  {
    Regroup(f.beforeKey, "\"" + UnitsText(f.key) + "\"", f.afterKey, f.item.before, Spell(f.item.tree), f.item.after,
            more);
    hide UnitsText, Spell;
  }

  predicate FieldFits(f: Field, room: nat, finite: string -> bool) {
    && Blank(f.beforeKey) && UnitsOk(f.key) && Blank(f.afterKey) && ItemValid(f.item, finite)
    && |UnitsMeaning(f.key)| <= 4096 && Fits(ItemMeaning(f.item, finite), room)
  }

  lemma ListedFieldStep(f: Field, rest: string, acc: seq<(string, Value)>, depth: nat, finite: string -> bool)
    requires depth <= MAX_DEPTH && FieldFits(f, MAX_DEPTH - depth, finite)
    ensures ParseMembers(SpellField(f) + ("," + rest), acc, depth, finite)
            == ParseMembers(rest, acc + [(UnitsMeaning(f.key), ItemMeaning(f.item, finite))], depth, finite)
  {
    hide ParseMembers, ParseMember, ParseValue, Spell, Meaning, Fits, UnitsText, UnitsMeaning, UnitsOk;
    var more := "," + rest;
    StopsAfter(f.item.after, more);
    TreeParse(f.item.tree, f.item.after + more, depth, finite);
    FieldParse(f, more, depth, finite);
    FieldTextOf(f, more);
    MembersAfterBlank(f.beforeKey, FieldText(f, more), acc, depth, finite);
    MemberStep(FieldText(f, more), (UnitsMeaning(f.key), ItemMeaning(f.item, finite)), f.item.after, more, acc, depth,
               finite);
    assert more[1..] == rest;
  }

  lemma {:induction false} ListedFieldsRead(fields: seq<Field>, rest: string, acc: seq<(string, Value)>, depth: nat,
                                            finite: string -> bool)
    requires 0 < depth <= MAX_DEPTH && FieldsValid(fields, finite)
    requires AllMembersFit(FieldMeanings(fields, finite), MAX_DEPTH - depth)
    ensures ParseMembers(ListedFields(fields) + rest, acc, depth, finite)
            == ParseMembers(rest, acc + FieldMeanings(fields, finite), depth, finite)
  {
    hide ParseMembers, SpellField, ItemMeaning, ItemValid, Fits, UnitsMeaning, UnitsOk;
    if fields == [] {
      assert "" + rest == rest && acc + [] == acc;
    } else {
      FieldMeaningsHead(fields, finite, MAX_DEPTH - depth);
      var f := fields[0];
      var m := (UnitsMeaning(f.key), ItemMeaning(f.item, finite));
      var more := ListedFields(fields[1..]) + rest;
      assert ListedFields(fields) + rest == SpellField(f) + ("," + more);
      ListedFieldStep(f, more, acc, depth, finite);
      ListedFieldsRead(fields[1..], rest, acc + [m], depth, finite);
      assert acc + FieldMeanings(fields, finite) == (acc + [m]) + FieldMeanings(fields[1..], finite);
    }
  }

  /** The members with their commas are read over, and what is wrong with the rest is reported. */
  lemma ObjectFaults(ws: string, fields: seq<Field>, tail: string, depth: nat, finite: string -> bool)
    requires Blank(ws) && depth < 32 && FieldsValid(fields, finite)
    requires AllMembersFit(FieldMeanings(fields, finite), 31 - depth)
    requires fields == [] && SkipSpace(tail) != "" ==> SkipSpace(tail)[0] != '}'
    ensures ParseValue(ws + ("{" + (ListedFields(fields) + tail)), depth, finite)
            == ParseMembers(tail, FieldMeanings(fields, finite), depth + 1, finite)
  {
    hide ParseValue, ParseMembers, FieldMeanings, FieldsValid, AllMembersFit;
    var inner := ListedFields(fields) + tail;
    var s := "{" + inner;
    ValueAfterBlank(ws, s, depth, finite);
    Dispatch(s, depth, finite);
    assert s[1..] == inner;
    ListedFieldsRead(fields, tail, [], depth + 1, finite);
    assert [] + FieldMeanings(fields, finite) == FieldMeanings(fields, finite);
    var blank := SkipSplit(inner);
    MembersAfterBlank(blank, SkipSpace(inner), [], depth + 1, finite);
    if fields == [] {
      assert inner == tail;
    } else {
      ListedFieldsHead(fields, tail, finite);
    }
    hide ListedFields, SkipSpace;
  }

  lemma ListedFieldsHead(fields: seq<Field>, tail: string, finite: string -> bool)
    requires fields != [] && FieldsValid(fields, finite)
    ensures SkipSpace(ListedFields(fields) + tail) != "" && SkipSpace(ListedFields(fields) + tail)[0] != '}'
  {
    hide SpellField, ItemValid, UnitsOk, FieldText;
    var more := "," + (ListedFields(fields[1..]) + tail);
    assert ListedFields(fields) + tail == SpellField(fields[0]) + more;
    FieldTextOf(fields[0], more);
    SkipBlank(fields[0].beforeKey, FieldText(fields[0], more));
    NoSpace(FieldText(fields[0], more));
  }

  /** After the commas: no key, a key that is refused, no colon after it. */
  lemma KeyFaults(ws: string, t: string, acc: seq<(string, Value)>, depth: nat, finite: string -> bool)
    requires Blank(ws)
    ensures (t == "" || t[0] !in " \t\n\r\"") ==> ParseMembers(ws + t, acc, depth, finite) == Fail(KeyExpected, |t|)
    ensures t != "" && t[0] == '"' && ParseString(t).Fail? ==>
              ParseMembers(ws + t, acc, depth, finite) == Fail(ParseString(t).fault, ParseString(t).left)
  {
    hide ParseString, ParseValue;
    MembersAfterBlank(ws, t, acc, depth, finite);
    if t != "" && t[0] !in " \t\n\r" {
      NoSpace(t);
    }
  }

  /** After a key: no colon, or a value that is refused. */
  lemma ColonFaults(key: seq<Unit>, ws: string, t: string, acc: seq<(string, Value)>, depth: nat,
                    finite: string -> bool)
    requires UnitsOk(key) && |UnitsMeaning(key)| <= 4096 && Blank(ws)
    ensures var s := "\"" + UnitsText(key) + "\"" + (ws + t);
            && ((t == "" || t[0] !in " \t\n\r:") ==> ParseMembers(s, acc, depth, finite) == Fail(ColonExpected, |t|))
            && (t != "" && t[0] == ':' && ParseValue(t[1..], depth, finite).Fail? ==>
                  ParseMembers(s, acc, depth, finite)
                  == Fail(ParseValue(t[1..], depth, finite).fault, ParseValue(t[1..], depth, finite).left))
  {
    hide ParseString, ParseValue, UnitsText, UnitsMeaning, UnitsOk;
    var s := "\"" + UnitsText(key) + "\"" + (ws + t);
    NoSpace(s);
    CharsParse(key, ws + t);
    SkipBlank(ws, t);
    if t != "" && t[0] !in " \t\n\r" {
      NoSpace(t);
    }
  }

  /** After a member: the text ends, or neither comma nor bracket follows. */
  lemma MemberFaults(f: Field, t: string, acc: seq<(string, Value)>, depth: nat, finite: string -> bool)
    requires depth <= MAX_DEPTH && FieldFits(f, MAX_DEPTH - depth, finite)
    requires Stops(f.item.after + t) && (t != "" ==> t[0] !in " \t\n\r,}")
    ensures ParseMembers(SpellField(f) + t, acc, depth, finite)
            == if t == "" then Fail(UnclosedObject, 0) else Fail(ObjectSeparator, |t|)
  {
    hide ParseMember, ParseValue, Spell, Meaning, Fits, UnitsText, UnitsMeaning, UnitsOk;
    TreeParse(f.item.tree, f.item.after + t, depth, finite);
    MemberRead(f, t, depth, finite);
    FieldTextOf(f, t);
    MembersAfterBlank(f.beforeKey, FieldText(f, t), acc, depth, finite);
    SkipBlank(f.item.after, t);
    if t != "" {
      NoSpace(t);
    }
    hide FieldText, SpellField;
  }

  lemma MemberRead(f: Field, more: string, depth: nat, finite: string -> bool)
    requires UnitsOk(f.key) && Blank(f.afterKey) && ItemValid(f.item, finite) && |UnitsMeaning(f.key)| <= 4096
    requires ParseValue(Spell(f.item.tree) + (f.item.after + more), depth, finite) ==
             Ok(ItemMeaning(f.item, finite), f.item.after + more)
    ensures ParseMember(FieldText(f, more), depth, finite) ==
            Ok((UnitsMeaning(f.key), ItemMeaning(f.item, finite)), f.item.after + more)
  {
    hide ParseValue, ParseString, SkipSpace, Spell, UnitsText, UnitsMeaning, Meaning, UnitsOk;
    var value := Spell(f.item.tree) + (f.item.after + more);
    var colon := ":" + (f.item.before + value);
    NoSpace(FieldText(f, more));
    CharsParse(f.key, f.afterKey + colon);
    SkipBlank(f.afterKey, colon);
    NoSpace(colon);
    assert colon[1..] == f.item.before + value;
    ValueAfterBlank(f.item.before, value, depth, finite);
  }

  // --- The whole text ---

  /** Too long a text is not looked at; what follows a value must be blank. */
  lemma TextFaults(i: Item, t: string, finite: string -> bool)
    requires ItemValid(i, finite) && Fits(ItemMeaning(i, finite), 32) && Stops(i.after + t)
    requires t != "" && t[0] !in " \t\n\r"
    ensures var s := SpellItem(i) + t;
            Parse(s, finite) == if |s| > 65536 then Fail(InputTooLarge, |s|) else Fail(TrailingData, |t|)
  {
    hide ParseValue, SpellItem, Fits, ItemMeaning, Stops;
    ItemRead(i, t, 0, finite);
    SkipBlank(i.after, t);
    NoSpace(t);
  }

  /** And a value that is refused is reported as it is. */
  lemma FaultKept(s: string, finite: string -> bool)
    requires ParseValue(s, 0, finite).Fail?
    ensures Parse(s, finite) == if |s| > 65536 then Fail(InputTooLarge, |s|)
                                else Fail(ParseValue(s, 0, finite).fault, ParseValue(s, 0, finite).left)
  {
    hide ParseValue;
  }
}
