/** Parsing what was written gives the value back. */
module JsonRoundTrip {
  import opened Decimal
  import opened Json
  import opened JsonGrammar
  import JsonAccept

  // --- The writer's own spelling ---

  /** How write_escaped spells a byte. */
  function UnitOf(c: char): Unit {
    if c == '"' || c == '\\' then Short(c)
    else if c == '\n' then Short('n')
    else if c == '\r' then Short('r')
    else if c == '\t' then Short('t')
    else if c < ' ' then Code("00" + [LETTERS[c as int / 16], LETTERS[c as int % 16]])
    else Raw(c)
  }

  lemma HexDigits(c: char)
    requires c < ' '
    ensures HexValue(LETTERS[c as int / 16]) == c as int / 16
    ensures HexValue(LETTERS[c as int % 16]) == c as int % 16
  {
  }

  /** Whatever a byte is written as is a valid spelling of that byte. */
  lemma UnitOfSpells(c: char)
    ensures var u := UnitOf(c); UnitOk(u) && UnitText(u) == Escaped(c) && UnitMeaning(u) == [c]
  {
    if UnitOf(c).Code? {
      HexDigits(c);
      assert Hex4(UnitOf(c).h) == c as int;
    }
  }

  function UnitsOf(s: string): seq<Unit> {
    if s == "" then [] else [UnitOf(s[0])] + UnitsOf(s[1..])
  }

  lemma {:induction false} UnitsOfSpells(s: string)
    ensures UnitsOk(UnitsOf(s)) && UnitsText(UnitsOf(s)) == EscapedAll(s) && UnitsMeaning(UnitsOf(s)) == s
  {
    if s != "" {
      UnitOfSpells(s[0]);
      UnitsOfSpells(s[1..]);
      UnitsCons(UnitOf(s[0]), UnitsOf(s[1..]));
      assert s == [s[0]] + s[1..];
      hide UnitOf, UnitOk, UnitText, UnitMeaning, Escaped;
    }
  }

  function NumberOf(i: int): Tree {
    Number(i < 0, ToDecimal(if i < 0 then -i else i), "", "")
  }

  lemma SignedDigits(minus: bool, digits: string)
    ensures NumberText(minus, digits, "", "") == (if minus then "-" + digits else digits)
  {
  }

  /** Sign and digits alone, as a number. */
  lemma IntegerSpells(minus: bool, digits: string, n: int, finite: string -> bool)
    requires digits != "" && AllDigits(digits) && (digits[0] == '0' ==> |digits| == 1) && |digits| <= 20
    requires NatValue(digits) == n && n <= (if minus then -INT64_MIN else UINT64_MAX)
    ensures NumberOk(digits, "", "") && NumberFits(minus, digits, "", "", finite)
    ensures NumberMeaning(minus, digits, "", "") ==
            if !minus && n > INT64_MAX then UInt(n) else Int(if minus then -n else n)
  {
    hide AllDigits, NatValue, NumberText, ExpDigits;
    SignedDigits(minus, digits);
  }

  lemma NumberNode(minus: bool, digits: string, finite: string -> bool)
    requires NumberOk(digits, "", "") && NumberFits(minus, digits, "", "", finite)
    ensures var t := Number(minus, digits, "", "");
            Valid(t, finite) && Spell(t) == NumberText(minus, digits, "", "")
              && Meaning(t, finite) == NumberMeaning(minus, digits, "", "")
  {
    hide NumberOk, NumberFits, NumberText, NumberMeaning;
  }

  lemma NumberOfSpells(i: int, finite: string -> bool)
    requires INT64_MIN <= i <= UINT64_MAX
    ensures var t := NumberOf(i);
            && Valid(t, finite) && Spell(t) == IntText(i)
            && Meaning(t, finite) == if i <= INT64_MAX then Int(i) else UInt(i)
  {
    var n := if i < 0 then -i else i;
    ValueOfDecimal(n);
    WordLength(n);
    hide ToDecimal, NatValue, AllDigits, Valid, Spell, Meaning, NumberOk, NumberFits, NumberText, NumberMeaning;
    IntegerSpells(i < 0, ToDecimal(n), n, finite);
    NumberNode(i < 0, ToDecimal(n), finite);
    SignedDigits(i < 0, ToDecimal(n));
  }

  function TreeOf(v: Value): Tree
    requires DoubleFree(v)
    decreases v, 1
  {
    match v
    case Int(i) => NumberOf(i)
    case UInt(u) => NumberOf(u)
    case Str(s) => Chars(UnitsOf(s))
    case Arr(a) => Array("", ItemsOf(a))
    case Obj(o) => Object("", FieldsOf(o))
    case _ => Literal(v)
  }

  function ItemsOf(a: seq<Value>): seq<Item>
    requires forall e :: e in a ==> DoubleFree(e)
    decreases a, 0
  {
    if a == [] then [] else [Item("", TreeOf(a[0]), "")] + ItemsOf(a[1..])
  }

  function FieldsOf(o: seq<(string, Value)>): seq<Field>
    requires forall m :: m in o ==> DoubleFree(m.1)
    decreases o, 0
  {
    if o == [] then [] else [FieldOf(o[0])] + FieldsOf(o[1..])
  }

  function FieldOf(m: (string, Value)): Field
    requires DoubleFree(m.1)
    decreases m, 0
  {
    Field("", UnitsOf(m.0), "", Item("", TreeOf(m.1), ""))
  }

  /** What the writer writes is a valid spelling of the value, small unsigned numbers counting as signed. */
  lemma {:induction false} TreeOfSpells(v: Value, finite: string -> bool)
    requires DoubleFree(v) && Typed(v)
    ensures var t := TreeOf(v); Valid(t, finite) && Spell(t) == Text(v) && Meaning(t, finite) == Normal(v)
    decreases v, 1
  {
    hide ItemsValid, FieldsValid, SpellItems, SpellFields, Meanings, FieldMeanings, UnitsOk, UnitsText, UnitsMeaning,
      UnitsOf;
    hide NormalElems, NormalMembers, ElemsText, MembersText, ItemsOf, FieldsOf, NumberOf, IntText;
    match v
    case Int(i) => NumberOfSpells(i, finite);
    case UInt(u) => NumberOfSpells(u, finite);
    case Str(s) => UnitsOfSpells(s);
    case Arr(a) => ItemsOfSpells(a, finite);
    case Obj(o) => FieldsOfSpells(o, finite);
    case _ =>
  }

  lemma PlainItem(t: Tree, finite: string -> bool)
    requires Valid(t, finite)
    ensures var i := Item("", t, "");
            ItemValid(i, finite) && SpellItem(i) == Spell(t) && ItemMeaning(i, finite) == Meaning(t, finite)
  {
    hide Valid, Spell, Meaning;
    assert "" + Spell(t) + "" == Spell(t);
  }

  lemma ItemsOfUnfold(a: seq<Value>)
    requires a != [] && forall e :: e in a ==> DoubleFree(e)
    ensures ItemsOf(a) == [Item("", TreeOf(a[0]), "")] + ItemsOf(a[1..])
    ensures |a| == 1 ==> ItemsOf(a) == [Item("", TreeOf(a[0]), "")]
  {
    hide TreeOf, DoubleFree;
    if |a| == 1 {
      assert a[1..] == [];
      assert ItemsOf(a[1..]) == [];
    }
  }

  lemma NormalUnfold(a: seq<Value>)
    requires a != []
    ensures NormalElems(a) == [Normal(a[0])] + NormalElems(a[1..])
    ensures |a| == 1 ==> NormalElems(a) == [Normal(a[0])]
  {
    hide Normal;
    if |a| == 1 {
      assert a[1..] == [];
      assert NormalElems(a[1..]) == [];
    }
  }

  lemma TextUnfold(a: seq<Value>)
    requires a != [] && forall e :: e in a ==> DoubleFree(e)
    ensures |a| == 1 ==> ElemsText(a) == Text(a[0])
    ensures |a| > 1 ==> a[1..] != [] && ElemsText(a) == Text(a[0]) + ("," + ElemsText(a[1..]))
  {
    hide Text, DoubleFree;
    if |a| > 1 {
      Assoc(Text(a[0]), ",", ElemsText(a[1..]));
    }
  }

  lemma {:induction false} ItemsOfSpells(a: seq<Value>, finite: string -> bool)
    requires forall e :: e in a ==> DoubleFree(e) && Typed(e)
    ensures var items := ItemsOf(a);
            && (items == [] <==> a == []) && ItemsValid(items, finite)
            && (if items == [] then "" else SpellItems(items)) == ElemsText(a)
            && Meanings(items, finite) == NormalElems(a)
    decreases a, 0
  {
    if a == [] {
      NoItems(finite);
      NoMeanings(finite);
    } else {
      TreeOfSpells(a[0], finite);
      ItemsOfSpells(a[1..], finite);
      PlainItem(TreeOf(a[0]), finite);
      ItemsOfUnfold(a);
      NormalUnfold(a);
      TextUnfold(a);
      hide *;
      var item := Item("", TreeOf(a[0]), "");
      if |a| == 1 {
        OneItem(item, finite);
      } else {
        ItemsCons(item, ItemsOf(a[1..]), finite);
      }
    }
  }

  lemma PlainField(key: string, us: seq<Unit>, t: Tree, finite: string -> bool)
    requires Valid(t, finite) && UnitsOk(us) && UnitsText(us) == EscapedAll(key) && UnitsMeaning(us) == key
    ensures var f := Field("", us, "", Item("", t, ""));
            && Blank("") && ItemValid(f.item, finite) && ItemMeaning(f.item, finite) == Meaning(t, finite)
            && SpellField(f) == Quoted(key) + ":" + Spell(t)
  {
    PlainItem(t, finite);
    hide Valid, Spell, Meaning, UnitsText, SpellItem, ItemValid, ItemMeaning;
    assert "" + ("\"" + UnitsText(us) + "\"") + "" == Quoted(key);
  }

  lemma {:induction false} FieldOfSpells(m: (string, Value), finite: string -> bool)
    requires DoubleFree(m.1) && Typed(m.1)
    ensures var f := FieldOf(m);
            && Blank(f.beforeKey) && UnitsOk(f.key) && Blank(f.afterKey) && ItemValid(f.item, finite)
            && (UnitsMeaning(f.key), ItemMeaning(f.item, finite)) == NormalMember(m) && SpellField(f) == MemberText(m)
    decreases m, 0
  {
    TreeOfSpells(m.1, finite);
    UnitsOfSpells(m.0);
    PlainField(m.0, UnitsOf(m.0), TreeOf(m.1), finite);
    hide TreeOf, Text, Spell, Valid, Meaning, Normal, SpellField, ItemValid, ItemMeaning, UnitsOf, UnitsOk,
      UnitsMeaning, UnitsText, Quoted;
  }

  lemma {:induction false} FieldsOfSpells(o: seq<(string, Value)>, finite: string -> bool)
    requires forall m :: m in o ==> DoubleFree(m.1) && Typed(m.1)
    ensures var fields := FieldsOf(o);
            && (fields == [] <==> o == []) && FieldsValid(fields, finite)
            && (if fields == [] then "" else SpellFields(fields)) == MembersText(o)
            && FieldMeanings(fields, finite) == NormalMembers(o)
    decreases o, 0
  {
    if o == [] {
      NoItems(finite);
      NoMeanings(finite);
    } else {
      FieldOfSpells(o[0], finite);
      FieldsOfSpells(o[1..], finite);
      hide FieldOf, MemberText, SpellField, ItemValid, ItemMeaning, DoubleFree, Typed, UnitsOk, UnitsMeaning,
        NormalMember;
      var f := FieldOf(o[0]);
      if |o| == 1 {
        OneField(f, finite);
        assert FieldsOf(o) == [f] && o[1..] == [];
      } else {
        FieldsCons(f, FieldsOf(o[1..]), finite);
      }
    }
  }

  // --- Limits ---

  /** Numbers as their C++ types can hold them. */
  predicate Typed(v: Value)
    decreases v
  {
    match v
    case Int(i) => INT64_MIN <= i <= INT64_MAX
    case UInt(u) => 0 <= u <= UINT64_MAX
    case Arr(a) => forall e :: e in a ==> Typed(e)
    case Obj(o) => forall m :: m in o ==> Typed(m.1)
    case _ => true
  }

  lemma {:induction false} NormalElemsAt(a: seq<Value>, i: nat)
    requires i < |a|
    ensures |NormalElems(a)| == |a| && NormalElems(a)[i] == Normal(a[i])
  {
    if |a| > 1 {
      NormalElemsAt(a[1..], if i > 0 then i - 1 else 0);
    }
  }

  lemma {:induction false} NormalMembersAt(o: seq<(string, Value)>, i: nat)
    requires i < |o|
    ensures |NormalMembers(o)| == |o| && NormalMembers(o)[i] == NormalMember(o[i])
  {
    if |o| > 1 {
      NormalMembersAt(o[1..], if i > 0 then i - 1 else 0);
    }
  }

  /** Normalising numbers changes neither depth nor string lengths. */
  lemma {:induction false} FitsOfNormal(v: Value, room: nat)
    requires Typed(v) && Fits(Normal(v), room)
    ensures Fits(v, room)
    decreases v
  {
    if v.Arr? {
      forall i | 0 <= i < |v.elems|
        ensures Fits(v.elems[i], room - 1)
      {
        NormalElemsAt(v.elems, i);
        assert Normal(v.elems[i]) in NormalElems(v.elems);
        FitsOfNormal(v.elems[i], room - 1);
      }
    } else if v.Obj? {
      forall i | 0 <= i < |v.members|
        ensures |v.members[i].0| <= MAX_STRING && Fits(v.members[i].1, room - 1)
      {
        NormalMembersAt(v.members, i);
        assert NormalMember(v.members[i]) in NormalMembers(v.members);
        FitsOfNormal(v.members[i].1, room - 1);
      }
    }
  }

  lemma NormalNothing()
    ensures NormalElems([]) == [] && NormalMembers([]) == []
  {
  }

  lemma {:induction false} NormalOfFits(v: Value, room: nat)
    requires Fits(v, room)
    ensures Typed(v) && Fits(Normal(v), room)
    decreases v
  {
    NormalNothing();
    if v.Arr? {
      forall i | 0 <= i < |v.elems|
        ensures Typed(v.elems[i]) && |NormalElems(v.elems)| == |v.elems| && Fits(NormalElems(v.elems)[i], room - 1)
      {
        assert v.elems[i] in v.elems;
        NormalElemsAt(v.elems, i);
        NormalOfFits(v.elems[i], room - 1);
      }
      hide NormalElems;
    } else if v.Obj? {
      forall i | 0 <= i < |v.members|
        ensures Typed(v.members[i].1) && |NormalMembers(v.members)| == |v.members|
        ensures |NormalMembers(v.members)[i].0| <= MAX_STRING && Fits(NormalMembers(v.members)[i].1, room - 1)
      {
        assert v.members[i] in v.members;
        NormalMembersAt(v.members, i);
        NormalOfFits(v.members[i].1, room - 1);
      }
      hide NormalMembers;
    }
  }

  // --- The round trip ---

  /** A value survives write and parse exactly when it keeps the depth and string limits and its text the size limit. */
  lemma RoundTripExactly(v: Value, finite: string -> bool)
    requires DoubleFree(v) && Typed(v)
    ensures Parse(Text(v), finite) == Ok(Normal(v), "") <==> Fits(v, 32) && |Text(v)| <= 65536
  {
    hide Text, Normal, Fits, Valid, Meaning, Spell, TreeOf, DoubleFree, Parse, Grammar, Within;
    TreeOfSpells(v, finite);
    ValidSplit(TreeOf(v), finite);
    assert Blank("");
    assert Text(v) == "" + (Spell(TreeOf(v)) + "");
    assert IsText(Text(v), TreeOf(v)) && Means(TreeOf(v), Normal(v), finite);
    assert Spells(Text(v), Normal(v), finite);
    AcceptsExactly(Text(v), Normal(v), finite);
    if Fits(v, 32) {
      NormalOfFits(v, 32);
    }
    if Fits(Normal(v), 32) {
      FitsOfNormal(v, 32);
    }
  }

  /** parse(write(v)) gives v back, small unsigned values as signed ones, for every value within the limits. */
  lemma RoundTrip(v: Value, finite: string -> bool)
    requires DoubleFree(v) && Fits(v, 32) && |Text(v)| <= 65536
    ensures Parse(Text(v), finite) == Ok(Normal(v), "")
  {
    hide Text, Normal, Fits, DoubleFree, Parse, Typed;
    NormalOfFits(v, 32);
    RoundTripExactly(v, finite);
  }

  /**
   * Writing an accepted value without doubles and parsing it again changes nothing, if the new text is short
   * enough.
   */
  lemma Stable(input: string, finite: string -> bool)
    requires Parse(input, finite).Ok? && DoubleFree(Parse(input, finite).value)
    ensures var v := Parse(input, finite).value;
            |Text(v)| <= 65536 ==> Parse(Text(v), finite) == Ok(v, "")
  {
    JsonAccept.ValueCanonical(input, 0, finite);
    var v := Parse(input, finite).value;
    if |Text(v)| <= 65536 {
      RoundTrip(v, finite);
    }
  }
}
