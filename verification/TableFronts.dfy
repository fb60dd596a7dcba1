/** Pointer entries whose fields alone fill the reading buffer: what their pieces are read as. */
module TableFronts {
  import opened Words
  import opened Memory
  import opened Resolver
  import opened Numerals
  import opened TableText
  import opened TableRoundTrip
  import opened TableFiles

  // --- Fields without a quotation after them ---

  /** Words with one space between them. */
  function Bare(words: seq<string>): string
    requires words != []
  {
    Spaced(words[..|words| - 1]) + words[|words| - 1]
  }

  predicate FieldsOk(words: seq<string>) {
    forall i :: 0 <= i < |words| ==> FieldOk(words[i])
  }

  lemma BareMore(word: string, rest: seq<string>)
    requires rest != []
    ensures Bare([word] + rest) == word + (" " + Bare(rest))
  {
    var all := [word] + rest;
    assert all[..|all| - 1] == [word] + rest[..|rest| - 1];
    assert ([word] + rest[..|rest| - 1])[1..] == rest[..|rest| - 1];
  }

  lemma SpacedOne(word: string)
    ensures Spaced([word]) == word + " "
  {
    assert [word][1..] == [];
  }

  lemma BareBlank(words: seq<string>)
    requires words != []
    ensures Spaced(words) == Bare(words) + " "
  {
    var n := |words| - 1;
    SpacedSplit(words[..n], [words[n]]);
    SpacedOne(words[n]);
    assert words == words[..n] + [words[n]];
  }

  lemma {:induction false} FieldsOfBare(words: seq<string>)
    requires words != [] && FieldsOk(words)
    ensures Fields(Bare(words)) == (words, "")
  {
    var rest := words[1..];
    assert words == [words[0]] + rest && FieldOk(words[0]);
    hide NextWord, FieldOk;
    if rest == [] {
      assert Bare(words) == words[0];
      LastField(words[0]);
    } else {
      FieldsOfBare(rest);
      BareMore(words[0], rest);
      FirstOfFields(words[0], Bare(rest));
    }
  }

  lemma LastField(word: string)
    requires FieldOk(word)
    ensures Fields(word) == ([word], "")
  {
    NextWordOf(word, "");
    assert word + "" == word;
    assert Fields("") == ([], "");
    assert [word] + [] == [word];
    hide NextWord;
  }

  lemma FirstOfFields(word: string, rest: string)
    requires FieldOk(word)
    ensures Fields(word + (" " + rest)) == ([word] + Fields(rest).0, Fields(rest).1)
  {
    FieldsStep(word, " " + rest);
    SkipOne(rest);
  }

  /** What a pointer line without a description is read as. */
  function ReadFields(words: seq<string>): Option<Entry> {
    var k := ApplyKeys(FRESH, words);
    if k.None? then None else PointerEntry(k.value, "")
  }

  lemma {:induction false} BareClean(words: seq<string>)
    requires words != [] && FieldsOk(words)
    ensures '\0' !in Bare(words) && Bare(words) != "" && !IsBlank(Bare(words)[|Bare(words)| - 1])
  {
    var n := |words| - 1;
    SpacedClean(words[..n]);
    assert FieldOk(words[n]);
    var last := words[n];
    assert last[|last| - 1] in last;
    assert Bare(words)[|Bare(words)| - 1] == last[|last| - 1];
    hide Spaced;
  }

  lemma BareParsed(words: seq<string>, blanks: string)
    requires |words| > 1 && words[0] == "pointer" && FieldsOk(words) && Blank(blanks)
    ensures ParseLine(Bare(words) + blanks) == ReadFields(words[1..])
  {
    hide ApplyKeys, PointerEntry, CString, TrimLeft, TrimRight, ParseLine, ParsePointer, Blank, Bare, FieldOk;
    var rest := words[1..];
    assert words == ["pointer"] + rest;
    BareMore("pointer", rest);
    BareClean(words);
    TrimLine(Bare(words), blanks);
    ReadsPointer(Bare(words) + blanks, Bare(rest));
    PointerWithoutText(rest);
  }

  lemma PointerWithoutText(words: seq<string>)
    requires words != [] && FieldsOk(words)
    ensures ParsePointer(" " + Bare(words)) == ReadFields(words)
  {
    hide ApplyKeys, PointerEntry, Fields, Bare, FieldOk;
    SkipOne(Bare(words));
    FieldsOfBare(words);
  }

  // --- Where a cut falls ---

  /** A cut of spaced words goes through one of them or comes right before it. */
  lemma {:induction false} SpacedCut(words: seq<string>, n: nat) returns (i: nat, m: nat)
    requires n < |Spaced(words)|
    ensures i < |words| && m <= |words[i]|
    ensures Spaced(words)[..n] == Spaced(words[..i]) + words[i][..m] && n == |Spaced(words[..i])| + m
    ensures Spaced(words)[n..] == words[i][m..] + (" " + Spaced(words[i + 1..]))
  {
    var w, rest := words[0], words[1..];
    assert Spaced(words) == w + (" " + Spaced(rest));
    hide Spaced;
    if n <= |w| {
      i, m := 0, n;
      NoneSpaced();
      assert words[..0] == [];
    } else {
      var j;
      j, m := SpacedCut(rest, n - |w| - 1);
      i := j + 1;
      SpacedSplit([w], rest[..j]);
      SpacedOne(w);
      assert words[..i] == [w] + rest[..j] && words[i + 1..] == rest[j + 1..];
      CutBehind(w, Spaced(rest), n);
    }
  }

  lemma CutBehind(w: string, tail: string, n: nat)
    requires |w| < n <= |w| + 1 + |tail|
    ensures (w + (" " + tail))[..n] == w + " " + tail[..n - |w| - 1]
    ensures (w + (" " + tail))[n..] == tail[n - |w| - 1..]
  {
  }

  lemma NoneSpaced()
    ensures Spaced([]) == ""
  {
  }

  // --- The fields of one entry ---

  /** The fields before the root. */
  function Lead(e: Entry): seq<string>
    requires e.chain.Some?
  {
    ["pointer", "type=" + TypeName(e.kind)]
    + (if e.chain.value.root.Module? then ["module=" + CString(e.chain.value.root.path)] else [])
  }

  function RootValue(e: Entry): Word
    requires e.chain.Some?
  {
    match e.chain.value.root
    case Module(_, offset) => offset
    case Absolute(address) => address
  }

  function RootWord(v: Word): string {
    "root=0x" + Hex(v)
  }

  function StepsWord(offsets: seq<Word>): string {
    "steps=" + StepsText(offsets)
  }

  function EnabledWord(b: bool): string {
    "enabled=" + (if b then "1" else "0")
  }

  lemma FieldsAre(e: Entry)
    requires e.chain.Some?
    ensures PointerFields(e) ==
            Lead(e) + [RootWord(RootValue(e)), StepsWord(e.chain.value.offsets), EnabledWord(e.enabled)]
  {
    hide TypeName, CString, Hex, StepsText;
  }

  /** The same entry with another root value, offsets and enabled flag, and without a description. */
  function Variant(e: Entry, v: Word, offsets: seq<Word>, enabled: bool): Entry
    requires e.chain.Some?
  {
    var root := if e.chain.value.root.Module? then Module(e.chain.value.root.path, v) else Absolute(v);
    Entry(if e.chain.value.root.Module? then 0 else v, e.kind, "", enabled, false,
          Some(ChainRef(root, offsets, e.kind)))
  }

  lemma VariantSound(e: Entry, v: Word, offsets: seq<Word>, enabled: bool)
    requires Sound(e) && e.chain.Some?
    ensures var x := Variant(e, v, offsets, enabled);
            && Sound(x) && Lead(x) == Lead(e) && RootValue(x) == v
            && (x == e.(stale := false, description := "") <==>
                  v == RootValue(e) && offsets == e.chain.value.offsets && enabled == e.enabled)
  {
    hide TypeName, CString;
  }

  /** What the fields before the root have set. */
  function LeadKeys(e: Entry): Keys
    requires e.chain.Some?
  {
    Keys(Some(e.kind), if e.chain.value.root.Module? then Some(e.chain.value.root.path) else None, None, [], true)
  }

  lemma AfterLead(e: Entry, more: seq<string>)
    requires Sound(e) && e.chain.Some?
    ensures ApplyKeys(FRESH, (Lead(e) + more)[1..]) == ApplyKeys(LeadKeys(e), more)
  {
    hide ApplyKey, ApplyKeys, TypeName, CString, PointerEntry;
    var first := "type=" + TypeName(e.kind);
    var k1 := FRESH.(kind := Some(e.kind));
    ApplyType(FRESH, e.kind);
    if e.chain.value.root.Module? {
      var path := e.chain.value.root.path;
      CStringWhole(path);
      assert (Lead(e) + more)[1..] == [first] + (["module=" + path] + more);
      KeysMore(FRESH, first, ["module=" + path] + more);
      KeysMore(k1, "module=" + path, more);
      ApplyModule(k1, path);
    } else {
      assert (Lead(e) + more)[1..] == [first] + more;
      KeysMore(FRESH, first, more);
    }
  }

  lemma LeadWords(e: Entry)
    requires Sound(e) && e.chain.Some?
    ensures FieldsOk(Lead(e)) && FieldsOk(PointerFields(e)) && |Lead(e)| >= 2 && Lead(e)[0] == "pointer"
  {
    forall i | 0 <= i < |PointerFields(e)|
      ensures FieldOk(PointerFields(e)[i])
    {
      FieldWords(e, i);
    }
    FieldsAre(e);
    hide FieldOk, TypeName, RootFields, PointerFields;
    forall i | 0 <= i < |Lead(e)|
      ensures FieldOk(Lead(e)[i])
    {
      assert Lead(e)[i] == PointerFields(e)[i];
    }
  }

  lemma PrefixOk(word: string, m: nat)
    requires FieldOk(word) && 0 < m <= |word|
    ensures FieldOk(word[..m])
  {
  }

  /** A line that breaks off after the lead, some whole fields and part of one more. */
  lemma LeadParsed(e: Entry, more: seq<string>, blanks: string)
    requires Sound(e) && e.chain.Some? && FieldsOk(more) && Blank(blanks)
    ensures ParseLine(Bare(Lead(e) + more) + blanks) ==
            var k := ApplyKeys(LeadKeys(e), more);
            if k.None? then None else PointerEntry(k.value, "")
  {
    LeadWords(e);
    AfterLead(e, more);
    hide ApplyKeys, PointerEntry, ParseLine, Bare, FieldOk, Lead, Blank, LeadKeys;
    BareParsed(Lead(e) + more, blanks);
  }

  // --- A key cut short ---

  lemma KeyCut(k: Keys, key: string, val: string, m: nat)
    requires '=' !in key && m <= |key + "=" + val|
    ensures m <= |key| ==> ApplyKey(k, (key + "=" + val)[..m]) == None
    ensures m > |key| ==> ApplyKey(k, (key + "=" + val)[..m]) == ApplyNamed(k, key, val[..m - |key| - 1])
  {
    hide ApplyNamed;
    var word := key + "=" + val;
    if m <= |key| {
      assert word[..m] == key[..m];
      assert '=' !in key[..m];
      FindIn(key[..m], '=', "");
    } else {
      assert word[..m] == key + "=" + val[..m - |key| - 1];
      KeyOf(k, key, val[..m - |key| - 1]);
    }
  }

  lemma {:induction false} HexCut(v: nat, m: nat)
    requires 0 < m <= |Hex(v)|
    ensures exists u: nat :: u <= v && Hex(u) == Hex(v)[..m]
  {
    if v < 16 || m == |Hex(v)| {
      assert Hex(v)[..m] == Hex(v);
    } else {
      HexCut(v / 16, m);
      assert Hex(v)[..m] == Hex(v / 16)[..m];
    }
  }

  /** Of a written number a part is read as the number that part writes, or it is 0 and stands for 0x0. */
  lemma WordCut(v: Word, m: nat)
    requires m <= |"0x" + Hex(v)|
    ensures var w := ("0x" + Hex(v))[..m];
            ParseWord(w).Some? ==> w == "0x" + Hex(ParseWord(w).value) || (w == "0" && ParseWord(w).value == 0)
  {
    var w := ("0x" + Hex(v))[..m];
    if m <= 2 {
      assert w == "" || w == "0" || w == "0x";
      ShortWords();
    } else {
      HexCut(v, m - 2);
      var u: nat :| u <= v && Hex(u) == Hex(v)[..m - 2];
      assert w == "0x" + Hex(u);
      WordRoundTrip(u);
      hide ParseWord;
    }
  }

  lemma ShortWords()
    ensures ParseWord("") == None && ParseWord("0") == Some(0) && ParseWord("0x") == None
  {
    assert "0"[..0] == "";
    assert 'x' in "0x";
  }

  /** Of a written list a part is read as the list it writes, but a comma or the 0 of a 0x may stand last. */
  predicate ListCut(text: string, offsets: seq<Word>) {
    || text == StepsText(offsets) || (text == StepsText(offsets) + "," && offsets != [])
    || (text + "x0" == StepsText(offsets) && offsets != [] && offsets[|offsets| - 1] == 0)
  }

  lemma {:induction false} StepsCut(offsets: seq<Word>, m: nat)
    requires m <= |StepsText(offsets)|
    ensures var r := ParseSteps(StepsText(offsets)[..m]); r.Some? ==> ListCut(StepsText(offsets)[..m], r.value)
  {
    var w := StepsText(offsets)[..m];
    if m == 0 {
      assert w == "";
    } else {
      var part := "0x" + Hex(offsets[0]);
      OneStepText(offsets[0]);
      if m <= |part| {
        assert w == part[..m] by { hide Hex; }
        FirstStepCut(offsets[0], m);
      } else {
        MoreStepsText(offsets);
        StepsCut(offsets[1..], m - |part| - 1);
        assert w == part + "," + StepsText(offsets[1..])[..m - |part| - 1];
        LaterStepCut(offsets[0], StepsText(offsets[1..])[..m - |part| - 1]);
      }
    }
  }

  lemma FirstStepCut(v: Word, m: nat)
    requires 0 < m <= |"0x" + Hex(v)|
    ensures var w := ("0x" + Hex(v))[..m]; ParseSteps(w).Some? ==> ListCut(w, ParseSteps(w).value)
  {
    var w := ("0x" + Hex(v))[..m];
    HexWord(Hex(v));
    WordCut(v, m);
    assert ',' !in w;
    StepsUnfold(w, "");
    hide ParseWord, ParseSteps;
    if ParseWord(w).Some? {
      var u := ParseWord(w).value;
      OneStepText(u);
      assert w == "0" ==> w + "x0" == "0x" + Hex(0);
    }
  }

  lemma LaterStepCut(v: Word, text: string)
    requires ParseSteps(text).Some? ==> ListCut(text, ParseSteps(text).value)
    ensures var w := "0x" + Hex(v) + "," + text; ParseSteps(w).Some? ==> ListCut(w, ParseSteps(w).value)
  {
    OneStepText(v);
    var part := "0x" + Hex(v);
    StepsUnfold(part, text);
    if ParseSteps(text).Some? {
      var more := ParseSteps(text).value;
      hide *;
      ListCutMore(v, text, more);
    }
  }

  lemma ListCutMore(v: Word, text: string, more: seq<Word>)
    requires ListCut(text, more)
    ensures ListCut("0x" + Hex(v) + "," + text, [v] + more)
  {
    var all := [v] + more;
    assert all[1..] == more;
    OneStepText(v);
    if more == [] {
      assert StepsText(more) == "";
    } else {
      MoreStepsText(all);
    }
    hide Hex;
  }

  /** The 0 at the end of a list, written 0x0, is read from its first character. */
  lemma {:induction false} ZeroCut(offsets: seq<Word>)
    requires offsets != [] && offsets[|offsets| - 1] == 0
    ensures |StepsText(offsets)| >= 3 && ParseSteps(StepsText(offsets)[..|StepsText(offsets)| - 2]) == Some(offsets)
  {
    hide *;
    if |offsets| == 1 {
      assert offsets == [0];
      OneZero();
    } else {
      ZeroCut(offsets[1..]);
      MoreStepsText(offsets);
      ZeroCutBehind(offsets[0], StepsText(offsets[1..]), offsets[1..]);
      assert offsets == [offsets[0]] + offsets[1..];
    }
  }

  lemma ZeroCutBehind(v: Word, more: string, rest: seq<Word>)
    requires |more| >= 2 && ParseSteps(more[..|more| - 2]) == Some(rest)
    ensures var text := "0x" + Hex(v) + "," + more; ParseSteps(text[..|text| - 2]) == Some([v] + rest)
  {
    hide *;
    OneStepText(v);
    OneStepPart(v);
    StepsUnfold("0x" + Hex(v), more[..|more| - 2]);
    DropTwo("0x" + Hex(v) + ",", more);
  }

  lemma DropTwo(front: string, back: string)
    requires |back| >= 2
    ensures (front + back)[..|front + back| - 2] == front + back[..|back| - 2]
  {
  }

  lemma OneZero()
    ensures StepsText([0]) == "0x0" && ParseSteps("0x0"[..1]) == Some([0])
  {
    OneStepText(0);
    assert Hex(0) == "0" && "0x0"[..1] == "0";
    ShortWords();
    StepsUnfold("0", "");
    hide ParseWord, ParseSteps;
  }

  lemma OneStepPart(v: Word)
    ensures ',' !in "0x" + Hex(v)
  {
    HexWord(Hex(v));
  }

  // --- A front cut short ---

  /** The last k characters of the fields say only what is assumed without them. */
  predicate Spare(e: Entry, k: nat)
    requires e.chain.Some?
  {
    var offsets := e.chain.value.offsets;
    || k <= 1
    || (e.enabled &&
        (|| k == 10 || k == 11
         || (offsets != [] && offsets[|offsets| - 1] == 0 && k == 13)
         || (offsets == [] && (k == 17 || k == 18 || (RootValue(e) == 0 && k == 20)))))
  }

  /** What the first n characters of the fields are read as, if anything, is an entry whose own n characters do. */
  predicate CutRight(e: Entry, n: nat, r: Option<Entry>)
    requires e.chain.Some? && n <= |Front(e)|
  {
    && (r == Some(e.(stale := false, description := "")) <==> Spare(e, |Front(e)| - n))
    && (r.Some? ==>
          && Sound(r.value) && r.value.chain.Some? && r.value.description == "" && !r.value.stale
          && |Front(r.value)| >= n && Spare(r.value, |Front(r.value)| - n))
  }

  lemma FrontLength(e: Entry)
    requires Sound(e) && e.chain.Some?
    ensures |Front(e)| == |Spaced(Lead(e))| + |RootWord(RootValue(e))| + |StepsWord(e.chain.value.offsets)| + 12
    ensures |RootWord(RootValue(e))| == 7 + |Hex(RootValue(e))| && (RootValue(e) == 0 ==> |Hex(RootValue(e))| == 1)
    ensures |StepsWord(e.chain.value.offsets)| == 6 + |StepsText(e.chain.value.offsets)|
    ensures if e.chain.value.offsets == [] then StepsText(e.chain.value.offsets) == ""
            else |StepsText(e.chain.value.offsets)| >= 3
  {
    var r, s, b := RootWord(RootValue(e)), StepsWord(e.chain.value.offsets), EnabledWord(e.enabled);
    FieldsAre(e);
    SpacedSplit(Lead(e), [r, s, b]);
    assert [r, s, b][1..] == [s, b] && [s, b][1..] == [b];
    SpacedOne(b);
    assert |b| == 9;
    StepsTextLength(e.chain.value.offsets);
    hide Lead, PointerFields, StepsText;
  }

  lemma StepsTextLength(offsets: seq<Word>)
    ensures if offsets == [] then StepsText(offsets) == "" else |StepsText(offsets)| >= 3
  {
    if offsets != [] {
      OneStepText(offsets[0]);
      if |offsets| > 1 {
        MoreStepsText(offsets);
      } else {
        assert offsets == [offsets[0]];
      }
      hide Hex, StepsText;
    }
  }

  /** An outcome that leaves out only what is spare is right, if nothing but spare parts can give the entry itself. */
  lemma Outcome(e: Entry, n: nat, r: Option<Entry>, v: Word, offsets: seq<Word>, enabled: bool)
    requires Sound(e) && e.chain.Some? && n <= |Front(e)|
    requires r == None || r == Some(Variant(e, v, offsets, enabled))
    requires var x := Variant(e, v, offsets, enabled);
             r.Some? ==> |Front(x)| >= n && Spare(x, |Front(x)| - n)
    requires Spare(e, |Front(e)| - n) ==>
               r.Some? && v == RootValue(e) && offsets == e.chain.value.offsets && enabled == e.enabled
    ensures CutRight(e, n, r)
  {
    var x := Variant(e, v, offsets, enabled);
    VariantSound(e, v, offsets, enabled);
    hide Sound, Spare, Front;
    if r == Some(e.(stale := false, description := "")) {
      SameFront(e, x);
    }
  }

  lemma SameFront(e: Entry, x: Entry)
    requires e.chain.Some? && x == e.(stale := false, description := "")
    ensures Front(x) == Front(e) && forall k: nat :: Spare(x, k) == Spare(e, k)
  {
    hide Spaced;
  }

  lemma Rebuilt(e: Entry, v: Word, offsets: seq<Word>, enabled: bool)
    requires Sound(e) && e.chain.Some?
    ensures PointerEntry(LeadKeys(e).(root := Some(v)).(steps := offsets).(enabled := enabled), "") ==
            Some(Variant(e, v, offsets, enabled))
  {
    assert Unquoted("") == "";
    hide Unquoted, Kept;
  }

  // --- The three fields it can go through ---

  function ReadOf(k: Option<Keys>): Option<Entry> {
    if k.None? then None else PointerEntry(k.value, "")
  }

  function Part(word: string, m: nat): seq<string>
    requires m <= |word|
  {
    if m == 0 then [] else [word[..m]]
  }

  /** Fields are read as far as they reach, the last of them in part. */
  lemma CutText(e: Entry, more: seq<string>, next: string, m: nat)
    requires Sound(e) && e.chain.Some? && FieldsOk(more) && FieldOk(next) && m <= |next|
    ensures ParseLine(Spaced(Lead(e) + more) + next[..m]) == ReadOf(ApplyKeys(LeadKeys(e), more + Part(next, m)))
  {
    hide ParseLine, Spaced, Bare, Lead, ApplyKeys, LeadKeys, ReadOf, Sound, FieldOk;
    LeadWords(e);
    var whole := Lead(e) + more;
    var t := Spaced(whole) + next[..m];
    if m == 0 {
      BareBlank(whole);
      LeadJoin(e, more, [], " ");
      assert whole + [] == whole && more + [] == more && next[..m] == "";
      assert t == Bare(whole) + " ";
    } else {
      PrefixOk(next, m);
      LeadJoin(e, more, [next[..m]], "");
      BareLast(whole, next[..m]);
      assert t == Bare(whole + [next[..m]]) + "";
    }
  }

  lemma BareLast(words: seq<string>, last: string)
    ensures Bare(words + [last]) == Spaced(words) + last
  {
    assert (words + [last])[..|words|] == words;
  }

  lemma LeadJoin(e: Entry, more: seq<string>, last: seq<string>, blanks: string)
    requires Sound(e) && e.chain.Some? && FieldsOk(more) && FieldsOk(last) && Blank(blanks)
    ensures Lead(e) + more + last != []
    ensures ParseLine(Bare(Lead(e) + more + last) + blanks) == ReadOf(ApplyKeys(LeadKeys(e), more + last))
  {
    hide ApplyKeys, PointerEntry, ParseLine, Bare, FieldOk, Lead, Blank, LeadKeys, Sound;
    LeadWords(e);
    LeadParsed(e, more + last, blanks);
    assert Lead(e) + more + last == Lead(e) + (more + last);
  }

  lemma KeysAfterRoot(k: Keys, v: Word, rest: seq<string>)
    ensures ApplyKeys(k, [RootWord(v)] + rest) == ApplyKeys(k.(root := Some(v)), rest)
  {
    hide ApplyKey, ApplyKeys, Hex;
    KeysMore(k, RootWord(v), rest);
    ApplyRoot(k, v);
  }

  lemma KeysAfterSteps(k: Keys, offsets: seq<Word>, rest: seq<string>)
    requires k.steps == []
    ensures ApplyKeys(k, [StepsWord(offsets)] + rest) == ApplyKeys(k.(steps := offsets), rest)
  {
    hide ApplyKey, ApplyKeys, StepsText;
    KeysMore(k, StepsWord(offsets), rest);
    ApplySteps(k, offsets);
    assert [] + offsets == offsets;
  }

  lemma PartKeys(k: Keys, word: string, m: nat)
    requires m <= |word|
    ensures m == 0 ==> ApplyKeys(k, Part(word, m)) == Some(k)
    ensures m > 0 ==> ApplyKeys(k, Part(word, m)) == ApplyKey(k, word[..m])
  {
    hide ApplyKey;
  }

  lemma RootRead(e: Entry, m: nat)
    requires Sound(e) && e.chain.Some? && m <= |RootWord(RootValue(e))|
    ensures var r := ReadOf(ApplyKeys(LeadKeys(e), Part(RootWord(RootValue(e)), m)));
            && (m <= 5 ==> r == None)
            && (m > 5 ==>
                  var u := ParseWord(("0x" + Hex(RootValue(e)))[..m - 5]);
                  r == if u.None? then None else Some(Variant(e, u.value, [], true)))
  {
    hide ParseWord, ParseType, ParseSteps, ParseFlag, ApplyKey, ApplyKeys, Hex, Part, Variant, Unquoted, Sound;
    var v, k := RootValue(e), LeadKeys(e);
    PartKeys(k, RootWord(v), m);
    assert RootWord(v) == "root" + "=" + ("0x" + Hex(v));
    KeyCut(k, "root", "0x" + Hex(v), m);
    ShortWords();
    assert m == 5 ==> ("0x" + Hex(v))[..m - 5] == "";
    if m > 5 {
      var u := ParseWord(("0x" + Hex(v))[..m - 5]);
      if u.Some? {
        Rebuilt(e, u.value, [], true);
      }
    }
  }

  lemma StepsRead(e: Entry, m: nat)
    requires Sound(e) && e.chain.Some? && m <= |StepsWord(e.chain.value.offsets)|
    ensures var v, offsets := RootValue(e), e.chain.value.offsets;
            var r := ReadOf(ApplyKeys(LeadKeys(e), [RootWord(v)] + Part(StepsWord(offsets), m)));
            && (m == 0 ==> r == Some(Variant(e, v, [], true)))
            && (0 < m <= 5 ==> r == None)
            && (m > 5 ==>
                  var us := ParseSteps(StepsText(offsets)[..m - 6]);
                  r == if us.None? then None else Some(Variant(e, v, us.value, true)))
  {
    var v, offsets := RootValue(e), e.chain.value.offsets;
    var k := LeadKeys(e).(root := Some(v));
    KeysAfterRoot(LeadKeys(e), v, Part(StepsWord(offsets), m));
    PartKeys(k, StepsWord(offsets), m);
    assert StepsWord(offsets) == "steps" + "=" + StepsText(offsets);
    KeyCut(k, "steps", StepsText(offsets), m);
    Rebuilt(e, v, [], true);
    if m > 5 {
      var us := ParseSteps(StepsText(offsets)[..m - 6]);
      if us.Some? {
        assert [] + us.value == us.value;
        Rebuilt(e, v, us.value, true);
      }
    }
    hide ParseWord, ParseType, ParseSteps, ParseFlag, ApplyKey, ApplyKeys, StepsText, RootWord, Part, Variant, Unquoted,
      Sound;
  }

  lemma EnabledRead(e: Entry, m: nat)
    requires Sound(e) && e.chain.Some? && m <= 9
    ensures var v, offsets := RootValue(e), e.chain.value.offsets;
            |EnabledWord(e.enabled)| == 9 &&
            var r := ReadOf(ApplyKeys(LeadKeys(e),
                                      [RootWord(v), StepsWord(offsets)] + Part(EnabledWord(e.enabled), m)));
            && (m == 0 ==> r == Some(Variant(e, v, offsets, true)))
            && (0 < m < 9 ==> r == None)
            && (m == 9 ==> r == Some(Variant(e, v, offsets, e.enabled)))
  {
    hide ParseWord, ParseType, ParseSteps, ParseFlag, ApplyKey, ApplyKeys, StepsWord, RootWord, Part, Variant, Unquoted,
      Sound;
    var v, offsets, f := RootValue(e), e.chain.value.offsets, if e.enabled then "1" else "0";
    var k1 := LeadKeys(e).(root := Some(v));
    var k := k1.(steps := offsets);
    var last := Part(EnabledWord(e.enabled), m);
    assert [RootWord(v), StepsWord(offsets)] + last == [RootWord(v)] + ([StepsWord(offsets)] + last);
    KeysAfterRoot(LeadKeys(e), v, [StepsWord(offsets)] + last);
    KeysAfterSteps(k1, offsets, last);
    PartKeys(k, EnabledWord(e.enabled), m);
    assert EnabledWord(e.enabled) == "enabled" + "=" + f;
    KeyCut(k, "enabled", f, m);
    FlagRoundTrip(e.enabled);
    EmptyFlag();
    assert f[..0] == "" && f[..1] == f;
    Rebuilt(e, v, offsets, true);
    Rebuilt(e, v, offsets, e.enabled);
  }

  lemma EmptyFlag()
    ensures ParseFlag("") == None
  {
  }

  // --- What each gives ---

  lemma VariantLength(e: Entry, v: Word, offsets: seq<Word>, enabled: bool)
    requires Sound(e) && e.chain.Some?
    ensures var x := Variant(e, v, offsets, enabled);
            |Front(x)| == |Spaced(Lead(e))| + |Hex(v)| + |StepsText(offsets)| + 25
            && x.chain.Some? && RootValue(x) == v && x.chain.value.offsets == offsets && x.enabled == enabled
    ensures v == 0 ==> |Hex(v)| == 1
    ensures if offsets == [] then StepsText(offsets) == "" else |StepsText(offsets)| >= 3
  {
    var x := Variant(e, v, offsets, enabled);
    VariantSound(e, v, offsets, enabled);
    FrontLength(x);
    hide Lead, Spaced, RootWord, StepsWord, Front, Sound;
  }

  /** The cut goes through the root or comes right before it. */
  lemma CutInRoot(e: Entry, m: nat)
    requires Sound(e) && e.chain.Some? && m <= |RootWord(RootValue(e))|
    ensures |Spaced(Lead(e))| + m <= |Front(e)|
    ensures CutRight(e, |Spaced(Lead(e))| + m, ReadOf(ApplyKeys(LeadKeys(e), Part(RootWord(RootValue(e)), m))))
  {
    var v0 := RootValue(e);
    var n := |Spaced(Lead(e))| + m;
    var r := ReadOf(ApplyKeys(LeadKeys(e), Part(RootWord(v0), m)));
    FrontLength(e);
    RootRead(e, m);
    hide ReadOf, LeadKeys, ApplyKeys, Part, Spaced, Lead, Sound, Front, CutRight, Variant;
    if m <= 5 {
      hide Hex, RootWord, StepsWord, StepsText;
      SpareInRoot(e, |Front(e)| - n);
      Outcome(e, n, r, v0, [], true);
    } else {
      RootOutcome(e, n, m, r);
    }
  }

  lemma RootOutcome(e: Entry, n: nat, m: nat, r: Option<Entry>)
    requires Sound(e) && e.chain.Some? && 5 < m <= |RootWord(RootValue(e))|
    requires n == |Spaced(Lead(e))| + m <= |Front(e)|
    requires var u := ParseWord(("0x" + Hex(RootValue(e)))[..m - 5]);
             r == if u.None? then None else Some(Variant(e, u.value, [], true))
    ensures CutRight(e, n, r)
  {
    hide *;
    var v0 := RootValue(e);
    FrontLength(e);
    var w := ("0x" + Hex(v0))[..m - 5];
    var u := if ParseWord(w).Some? then ParseWord(w).value else 0;
    WholeOrZero(v0, m - 5);
    SpareInRoot(e, |Front(e)| - n);
    if r.Some? {
      WordCut(v0, m - 5);
      VariantLength(e, u, [], true);
      assert |w| == m - 5 && (w == "0x" + Hex(u) ==> |w| == 2 + |Hex(u)|);
      SpareOfRoot(Variant(e, u, [], true), |Front(Variant(e, u, [], true))| - n);
    }
    Outcome(e, n, r, u, [], true);
  }

  /** What is spare of a front that breaks off within the root. */
  lemma SpareInRoot(e: Entry, k: nat)
    requires Sound(e) && e.chain.Some? && k >= 18 + |StepsText(e.chain.value.offsets)|
    ensures Spare(e, k) ==>
              e.enabled && e.chain.value.offsets == [] && (k == 18 || (k == 20 && RootValue(e) == 0))
  {
    FrontLength(e);
    hide StepsText, Front, Sound, Lead, RootWord, StepsWord, Hex;
  }

  lemma SpareOfRoot(x: Entry, k: int)
    requires x.chain.Some? && x.enabled && x.chain.value.offsets == [] && (k == 18 || (k == 20 && RootValue(x) == 0))
    ensures Spare(x, k)
  {
  }

  lemma WholeOrZero(v: Word, m: nat)
    requires m <= |"0x" + Hex(v)|
    ensures m == |"0x" + Hex(v)| ==> ParseWord(("0x" + Hex(v))[..m]) == Some(v)
    ensures m == 1 ==> ParseWord(("0x" + Hex(v))[..m]) == Some(0)
  {
    WordRoundTrip(v);
    ShortWords();
    assert m == |"0x" + Hex(v)| ==> ("0x" + Hex(v))[..m] == "0x" + Hex(v);
    assert m == 1 ==> ("0x" + Hex(v))[..m] == "0";
    hide ParseWord;
  }

  /** It goes through the steps or comes right before them. */
  lemma CutInSteps(e: Entry, m: nat)
    requires Sound(e) && e.chain.Some? && m <= |StepsWord(e.chain.value.offsets)|
    ensures |Spaced(Lead(e))| + |RootWord(RootValue(e))| + 1 + m <= |Front(e)|
    ensures CutRight(e, |Spaced(Lead(e))| + |RootWord(RootValue(e))| + 1 + m,
                     ReadOf(ApplyKeys(LeadKeys(e),
                                      [RootWord(RootValue(e))] + Part(StepsWord(e.chain.value.offsets), m))))
  {
    hide *;
    var v, offsets := RootValue(e), e.chain.value.offsets;
    var n := |Spaced(Lead(e))| + |RootWord(v)| + 1 + m;
    var r := ReadOf(ApplyKeys(LeadKeys(e), [RootWord(v)] + Part(StepsWord(offsets), m)));
    FrontLength(e);
    StepsRead(e, m);
    if m <= 5 {
      EarlySteps(e, n, m, r);
    } else {
      StepsOutcome(e, n, m, r);
    }
  }

  lemma EarlySteps(e: Entry, n: nat, m: nat, r: Option<Entry>)
    requires Sound(e) && e.chain.Some? && m <= 5
    requires n == |Spaced(Lead(e))| + |RootWord(RootValue(e))| + 1 + m <= |Front(e)|
    requires r == if m == 0 then Some(Variant(e, RootValue(e), [], true)) else None
    ensures CutRight(e, n, r)
  {
    hide *;
    var x := Variant(e, RootValue(e), [], true);
    VariantLength(e, RootValue(e), [], true);
    FrontLength(e);
    SpareBeforeSteps(e, |Front(e)| - n);
    if m == 0 {
      SpareBeforeSteps(x, |Front(x)| - n);
    }
    Outcome(e, n, r, RootValue(e), [], true);
  }

  /** What is spare of a front that breaks off in the key of the steps or before it. */
  lemma SpareBeforeSteps(e: Entry, k: int)
    requires e.chain.Some? && 12 + |StepsText(e.chain.value.offsets)| <= k <= 17 + |StepsText(e.chain.value.offsets)|
    ensures k >= 0 && (Spare(e, k) <==> e.enabled && e.chain.value.offsets == [] && k == 17)
  {
    StepsTextLength(e.chain.value.offsets);
    hide StepsText;
  }

  lemma StepsOutcome(e: Entry, n: nat, m: nat, r: Option<Entry>)
    requires Sound(e) && e.chain.Some? && 5 < m <= |StepsWord(e.chain.value.offsets)|
    requires n == |Spaced(Lead(e))| + |RootWord(RootValue(e))| + 1 + m <= |Front(e)|
    requires |StepsWord(e.chain.value.offsets)| == 6 + |StepsText(e.chain.value.offsets)|
    requires var us := ParseSteps(StepsText(e.chain.value.offsets)[..m - 6]);
             r == if us.None? then None else Some(Variant(e, RootValue(e), us.value, true))
    ensures CutRight(e, n, r)
  {
    hide *;
    var v, offsets := RootValue(e), e.chain.value.offsets;
    var w := StepsText(offsets)[..m - 6];
    var us := if ParseSteps(w).Some? then ParseSteps(w).value else [];
    FrontLength(e);
    AllOrZero(offsets, m - 6);
    SpareInSteps(e, |Front(e)| - n);
    if r.Some? {
      StepsCut(offsets, m - 6);
      ListCutLength(w, us);
      VariantLength(e, v, us, true);
      SpareOfSteps(Variant(e, v, us, true), |Front(Variant(e, v, us, true))| - n);
    }
    Outcome(e, n, r, v, us, true);
  }

  /** What is spare of a front that breaks off within the steps. */
  lemma SpareInSteps(e: Entry, k: nat)
    requires Sound(e) && e.chain.Some? && 11 <= k <= 11 + |StepsText(e.chain.value.offsets)|
    ensures Spare(e, k) ==>
              && e.enabled
              && (k == 11 || (k == 13 && e.chain.value.offsets != []
                              && e.chain.value.offsets[|e.chain.value.offsets| - 1] == 0))
  {
    FrontLength(e);
    hide StepsText, Front, Sound, Lead, RootWord, StepsWord, Hex;
  }

  lemma SpareOfSteps(x: Entry, k: int)
    requires x.chain.Some? && x.enabled
    requires k == 10 || k == 11 || (k == 13 && x.chain.value.offsets != []
                                    && x.chain.value.offsets[|x.chain.value.offsets| - 1] == 0)
    ensures Spare(x, k)
  {
  }

  lemma ListCutLength(text: string, offsets: seq<Word>)
    requires ListCut(text, offsets)
    ensures |text| == |StepsText(offsets)| || (|text| == |StepsText(offsets)| + 1 && offsets != [])
            || (|text| + 2 == |StepsText(offsets)| && offsets != [] && offsets[|offsets| - 1] == 0)
  {
    hide StepsText;
  }

  lemma AllOrZero(offsets: seq<Word>, m: nat)
    requires m <= |StepsText(offsets)|
    ensures m == |StepsText(offsets)| ==> ParseSteps(StepsText(offsets)[..m]) == Some(offsets)
    ensures m + 2 == |StepsText(offsets)| && offsets != [] && offsets[|offsets| - 1] == 0 ==>
              ParseSteps(StepsText(offsets)[..m]) == Some(offsets)
  {
    if m == |StepsText(offsets)| {
      StepsRoundTrip(offsets);
      assert StepsText(offsets)[..m] == StepsText(offsets);
    }
    if offsets != [] && offsets[|offsets| - 1] == 0 {
      ZeroCut(offsets);
    }
    hide ParseSteps, StepsText;
  }

  /** It goes through the enabled flag or comes right before it, or only the last blank is cut off. */
  lemma CutInEnabled(e: Entry, m: nat)
    requires Sound(e) && e.chain.Some? && m <= 9
    ensures |EnabledWord(e.enabled)| == 9 && |Front(e)| >= 10
    ensures CutRight(e, |Front(e)| - 10 + m,
                     ReadOf(ApplyKeys(LeadKeys(e), [RootWord(RootValue(e)), StepsWord(e.chain.value.offsets)]
                                                   + Part(EnabledWord(e.enabled), m))))
  {
    var v, offsets := RootValue(e), e.chain.value.offsets;
    FrontLength(e);
    EnabledRead(e, m);
    var r := ReadOf(ApplyKeys(LeadKeys(e), [RootWord(v), StepsWord(offsets)] + Part(EnabledWord(e.enabled), m)));
    hide ReadOf, LeadKeys, ApplyKeys, Part, Spaced, Lead, Sound, Front, CutRight, Variant, RootWord, StepsWord, Hex,
      StepsText;
    VariantLength(e, v, offsets, true);
    VariantLength(e, v, offsets, e.enabled);
    Outcome(e, |Front(e)| - 10 + m, r, v, offsets, if m == 9 then e.enabled else true);
  }

  /** Before the root there is nothing to make an entry of. */
  lemma CutInModule(e: Entry, m: nat)
    requires Sound(e) && e.chain.Some? && |Lead(e)| == 3 && m <= |Lead(e)[2]|
    ensures |Spaced(Lead(e)[..2])| + m <= |Front(e)|
    ensures CutRight(e, |Spaced(Lead(e)[..2])| + m, ParseLine(Spaced(Lead(e)[..2]) + Lead(e)[2][..m]))
  {
    var lead, word := Lead(e)[..2], Lead(e)[2];
    var n, r := |Spaced(lead)| + m, ParseLine(Spaced(lead) + word[..m]);
    FrontLength(e);
    SpacedSplit(lead, [word]);
    SpacedOne(word);
    assert Lead(e) == lead + [word];
    ModuleRead(e, m);
    hide ParseLine, Lead, Spaced, Front, Sound, RootWord, StepsWord, Hex, StepsText, CutRight;
    SpareInRoot(e, |Front(e)| - n);
    Outcome(e, n, r, 0, [], true);
  }

  lemma ModuleRead(e: Entry, m: nat)
    requires Sound(e) && e.chain.Some? && |Lead(e)| == 3 && m <= |Lead(e)[2]|
    ensures ParseLine(Spaced(Lead(e)[..2]) + Lead(e)[2][..m]) == None
  {
    LeadWords(e);
    hide *;
    ModuleText(Lead(e), m);
    ModuleKeys(e, m);
  }

  lemma ModuleText(lead: seq<string>, m: nat)
    requires |lead| == 3 && lead[0] == "pointer" && FieldsOk(lead) && m <= |lead[2]|
    ensures ParseLine(Spaced(lead[..2]) + lead[2][..m]) == ReadFields([lead[1]] + Part(lead[2], m))
  {
    hide ParseLine, Bare, Spaced, FieldOk, ReadFields;
    var front, word := lead[..2], lead[2];
    if m == 0 {
      BareBlank(front);
      BareParsed(front, " ");
      assert front[1..] == [lead[1]] + Part(word, 0);
      assert Spaced(front) + word[..0] == Bare(front) + " ";
    } else {
      PrefixOk(word, m);
      BareLast(front, word[..m]);
      BareParsed(front + [word[..m]], "");
      assert (front + [word[..m]])[1..] == [lead[1]] + [word[..m]];
      assert Bare(front + [word[..m]]) + "" == Bare(front + [word[..m]]);
    }
  }

  lemma ModuleKeys(e: Entry, m: nat)
    requires Sound(e) && e.chain.Some? && |Lead(e)| == 3 && m <= |Lead(e)[2]|
    ensures ReadFields([Lead(e)[1]] + Part(Lead(e)[2], m)) == None
  {
    var path, first := e.chain.value.root.path, "type=" + TypeName(e.kind);
    var word := "module" + "=" + path;
    var k1 := FRESH.(kind := Some(e.kind));
    CStringWhole(path);
    ApplyType(FRESH, e.kind);
    KeyCut(k1, "module", path, m);
    KeysMore(FRESH, first, Part(word, m));
    PartKeys(k1, word, m);
    assert Lead(e)[1] == first && Lead(e)[2] == word;
    hide ApplyKey, ApplyKeys, TypeName, ParseType, ParseWord, ParseSteps, ParseFlag, Part, Lead;
  }

  /** The whole front is read as the entry without its description. */
  lemma WholeFront(e: Entry)
    requires Sound(e) && e.chain.Some?
    ensures CutRight(e, |Front(e)|, ParseLine(Front(e)))
  {
    var v, offsets := RootValue(e), e.chain.value.offsets;
    VariantLength(e, v, offsets, e.enabled);
    FrontLength(e);
    hide *;
    WholeRead(e);
    SpareNothing(e);
    SpareNothing(Variant(e, v, offsets, e.enabled));
    Outcome(e, |Front(e)|, ParseLine(Front(e)), v, offsets, e.enabled);
  }

  lemma WholeRead(e: Entry)
    requires Sound(e) && e.chain.Some?
    ensures ParseLine(Front(e)) == Some(Variant(e, RootValue(e), e.chain.value.offsets, e.enabled))
  {
    var v, offsets := RootValue(e), e.chain.value.offsets;
    var more := [RootWord(v), StepsWord(offsets), EnabledWord(e.enabled)];
    FieldsAre(e);
    RestWords(e);
    EnabledRead(e, 9);
    assert EnabledWord(e.enabled)[..9] == EnabledWord(e.enabled);
    assert more == [RootWord(v), StepsWord(offsets)] + Part(EnabledWord(e.enabled), 9);
    hide ParseLine, Spaced, Bare, Lead, FieldOk, ApplyKeys, LeadKeys, Sound, Part, PointerEntry, PointerFields,
      RootWord,
      StepsWord, EnabledWord, Variant;
    LeadParsed(e, more, " ");
    LeadWords(e);
    BareBlank(Lead(e) + more);
  }

  lemma RestWords(e: Entry)
    requires Sound(e) && e.chain.Some?
    ensures FieldOk(RootWord(RootValue(e))) && FieldOk(StepsWord(e.chain.value.offsets))
    ensures FieldOk(EnabledWord(e.enabled)) && FieldsOk([]) && FieldsOk([RootWord(RootValue(e))])
    ensures FieldsOk([RootWord(RootValue(e)), StepsWord(e.chain.value.offsets)])
  {
    LeadWords(e);
    FieldsAre(e);
    var n := |Lead(e)|;
    hide FieldOk, Lead, PointerFields, RootWord, StepsWord, EnabledWord;
    assert FieldOk(PointerFields(e)[n]) && FieldOk(PointerFields(e)[n + 1]) && FieldOk(PointerFields(e)[n + 2]);
  }

  lemma SpareNothing(e: Entry)
    requires e.chain.Some?
    ensures Spare(e, 0)
  {
  }

  lemma LeadLength(e: Entry)
    requires e.chain.Some?
    ensures 2 <= |Lead(e)| <= 3 && |Lead(e)[0]| == 7 && |Lead(e)[1]| <= 12
  {
  }

  /** A cut of the first two fields is too early. */
  lemma EarlyCut(e: Entry, i: nat, m: nat)
    requires e.chain.Some? && i < |Lead(e)| && m <= |Lead(e)[i]| && |Spaced(Lead(e)[..i])| + m >= 64
    ensures i == 2 && |Lead(e)| == 3
  {
    LeadLength(e);
    var lead := Lead(e);
    assert lead[..0] == [] && lead[..1] == [lead[0]];
    SpacedOne(lead[0]);
    hide Lead;
  }

  /** The rest is in the root, the steps or the enabled flag. */
  lemma LateRoot(e: Entry, m: nat)
    requires Sound(e) && e.chain.Some? && m <= |RootWord(RootValue(e))|
    ensures |Spaced(Lead(e))| + m <= |Front(e)|
    ensures CutRight(e, |Spaced(Lead(e))| + m, ParseLine(Spaced(Lead(e)) + RootWord(RootValue(e))[..m]))
  {
    hide *;
    var r := RootWord(RootValue(e));
    RestWords(e);
    CutText(e, [], r, m);
    assert Lead(e) + [] == Lead(e) && [] + Part(r, m) == Part(r, m);
    CutInRoot(e, m);
  }

  lemma LateSteps(e: Entry, m: nat)
    requires Sound(e) && e.chain.Some? && m <= |StepsWord(e.chain.value.offsets)|
    ensures var whole := Lead(e) + [RootWord(RootValue(e))];
            && |Spaced(whole)| + m <= |Front(e)|
            && CutRight(e, |Spaced(whole)| + m, ParseLine(Spaced(whole) + StepsWord(e.chain.value.offsets)[..m]))
  {
    hide *;
    var r := RootWord(RootValue(e));
    RestWords(e);
    CutText(e, [r], StepsWord(e.chain.value.offsets), m);
    SpacedSplit(Lead(e), [r]);
    SpacedOne(r);
    CutInSteps(e, m);
  }

  lemma LateEnabled(e: Entry, m: nat)
    requires Sound(e) && e.chain.Some? && m <= |EnabledWord(e.enabled)| == 9
    ensures var whole := Lead(e) + [RootWord(RootValue(e)), StepsWord(e.chain.value.offsets)];
            && |Spaced(whole)| + m <= |Front(e)|
            && CutRight(e, |Spaced(whole)| + m, ParseLine(Spaced(whole) + EnabledWord(e.enabled)[..m]))
  {
    hide *;
    var r, s := RootWord(RootValue(e)), StepsWord(e.chain.value.offsets);
    RestWords(e);
    FrontLength(e);
    CutText(e, [r, s], EnabledWord(e.enabled), m);
    SpacedSplit(Lead(e), [r, s]);
    assert [r, s] == [r] + [s];
    SpacedSplit([r], [s]);
    SpacedOne(r);
    SpacedOne(s);
    CutInEnabled(e, m);
  }

  /**
   * What the first n characters of the fields are read as: the entry, less its description, just when the rest is
   * spare, and nothing that its own first n characters are not read as.
   */
  lemma FrontCut(e: Entry, n: nat)
    requires Sound(e) && e.chain.Some? && 64 <= n <= |Front(e)|
    ensures CutRight(e, n, ParseLine(Front(e)[..n]))
  {
    if n == |Front(e)| {
      hide *;
      assert Front(e)[..n] == Front(e);
      WholeFront(e);
    } else {
      FieldsAre(e);
      assert |EnabledWord(e.enabled)| == 9 && Front(e) == Spaced(PointerFields(e));
      hide *;
      var i, m := SpacedCut(PointerFields(e), n);
      FrontCutAt(e, PointerFields(e), n, i, m);
    }
  }

  lemma FrontCutAt(e: Entry, words: seq<string>, n: nat, i: nat, m: nat)
    requires Sound(e) && e.chain.Some? && 64 <= n <= |Front(e)| && |EnabledWord(e.enabled)| == 9
    requires words == Lead(e) + [RootWord(RootValue(e)), StepsWord(e.chain.value.offsets), EnabledWord(e.enabled)]
    requires i < |words| && m <= |words[i]| && n == |Spaced(words[..i])| + m
    requires Front(e)[..n] == Spaced(words[..i]) + words[i][..m]
    ensures CutRight(e, n, ParseLine(Front(e)[..n]))
  {
    hide *;
    var lead, r, s := Lead(e), RootWord(RootValue(e)), StepsWord(e.chain.value.offsets);
    if i < |lead| {
      assert words[..i] == lead[..i] && words[i] == lead[i];
      EarlyCut(e, i, m);
      CutInModule(e, m);
    } else if i == |lead| {
      assert words[..i] == lead;
      LateRoot(e, m);
    } else if i == |lead| + 1 {
      assert words[..i] == lead + [r];
      LateSteps(e, m);
    } else {
      assert words[..i] == lead + [r, s];
      LateEnabled(e, m);
    }
  }
}
