/** Saving and loading a table undo each other. */
module TableRoundTrip {
  import opened Words
  import opened Memory
  import opened Values
  import opened Resolver
  import opened Numerals
  import opened TableText

  // --- Descriptions ---

  lemma {:induction false} UnescapedEscaped(s: string)
    ensures Unescaped(Escaped(s)) == s
  {
    if s != "" {
      var e := EscapedChar(s[0]);
      UnescapedEscaped(s[1..]);
      assert (e + Escaped(s[1..]))[|e|..] == Escaped(s[1..]);
    }
  }

  lemma QuoteRoundTrip(s: string)
    ensures Unquoted(Quoted(s)) == s
  {
    var q := Quoted(s);
    assert q[|q| - 1] == '"' && q[1..|q| - 1] == Escaped(s);
    UnescapedEscaped(s);
  }

  lemma {:induction false} EscapedClean(s: string)
    ensures '\n' !in Escaped(s)
    ensures '\0' !in s ==> '\0' !in Escaped(s)
  {
    if s != "" {
      EscapedClean(s[1..]);
    }
  }

  lemma {:induction false} CStringWhole(s: string)
    requires '\0' !in s
    ensures CString(s) == s
  {
    if s != "" {
      CStringWhole(s[1..]);
    }
  }

  // --- Words ---

  predicate IsWord(w: string) {
    w != "" && forall c :: c in w ==> !IsSpace(c)
  }

  /** Neither white space nor NUL. */
  predicate Solid(s: string) {
    forall c :: c in s ==> !IsSpace(c) && c != '\0'
  }

  /** A word that opens no quotation. */
  predicate FieldOk(w: string) {
    IsWord(w) && Solid(w) && w[0] != '"'
  }

  lemma {:induction false} WordLengthOf(w: string, rest: string)
    requires (forall c :: c in w ==> !IsSpace(c)) && (rest != "" ==> IsSpace(rest[0]))
    ensures WordLength(w + rest) == |w|
  {
    if w == "" {
      assert w + rest == rest;
    } else {
      assert (w + rest)[1..] == w[1..] + rest;
      assert w[0] in w && forall c :: c in w[1..] ==> c in w;
      WordLengthOf(w[1..], rest);
    }
  }

  lemma NextWordOf(w: string, rest: string)
    requires IsWord(w) && (rest != "" ==> IsSpace(rest[0]))
    ensures NextWord(w + rest) == Some((w, rest)) && NextWord(" " + (w + rest)) == Some((w, rest))
  {
    WordLengthOf(w, rest);
    var t := w + rest;
    assert t[0] == w[0] && w[0] in w;
    assert SkipSpace(t) == t && t[..|w|] == w && t[|w|..] == rest;
    assert (" " + t)[1..] == t;
  }

  lemma FieldsStep(w: string, rest: string)
    requires IsWord(w) && w[0] != '"' && rest != "" && IsSpace(rest[0])
    ensures Fields(w + rest) == ([w] + Fields(rest).0, Fields(rest).1)
  {
    NextWordOf(w, rest);
    hide NextWord;
  }

  lemma {:induction false} SpacedSplit(a: seq<string>, b: seq<string>)
    ensures Spaced(a + b) == Spaced(a) + Spaced(b)
  {
    if a == [] {
      assert a + b == b;
    } else {
      assert (a + b)[1..] == a[1..] + b;
      SpacedSplit(a[1..], b);
    }
  }

  /** Words with a space after each, then a quotation: the words come back, and the whole quotation. */
  lemma {:induction false} FieldsOf(words: seq<string>, quoted: string)
    requires forall i :: 0 <= i < |words| ==> FieldOk(words[i])
    requires quoted != "" && quoted[0] == '"'
    ensures Fields(Spaced(words) + quoted) == (words, quoted)
    decreases |words|
  {
    if words == [] {
      assert Spaced(words) + quoted == quoted;
      var n := WordLength(quoted);
      assert quoted[..n] + quoted[n..] == quoted;
    } else {
      hide Fields, NextWord;
      var tail := Spaced(words[1..]) + quoted;
      assert Spaced(words) + quoted == words[0] + (" " + tail);
      FieldsOf(words[1..], quoted);
      FieldsStep(words[0], " " + tail);
      SkipOne(tail);
      assert [words[0]] + words[1..] == words;
    }
  }

  lemma SkipOne(s: string)
    ensures NextWord(" " + s) == NextWord(s)
    ensures Fields(" " + s) == Fields(s)
  {
    assert (" " + s)[1..] == s;
  }

  // --- Types ---

  lemma TypeRoundTrip(t: DataType)
    ensures ParseType(TypeName(t)) == if FixedWidth(t) then Some(t) else None
  {
  }

  // --- One absolute entry ---

  /** Text without NUL, and module paths without white space either. */
  predicate Clean(e: Entry) {
    && '\0' !in e.description
    && (e.chain.Some? && e.chain.value.root.Module? ==> Solid(e.chain.value.root.path))
  }

  lemma TypeWord(t: DataType)
    ensures IsWord(TypeName(t)) && TypeName(t)[0] != '"' && '\0' !in TypeName(t)
  {
  }

  lemma HexWord(s: string)
    requires AllIn(s, 16)
    ensures IsWord("0x" + s) && '\0' !in s && ',' !in s && '=' !in s
  {
    forall c | c in "0x" + s
      ensures !IsSpace(c)
    {
      assert c == '0' || c == 'x' || c in s;
    }
  }

  lemma Hex16Word(n: Word)
    ensures IsWord("0x" + Hex16(n)) && '\0' !in "0x" + Hex16(n)
  {
    assert AllIn(Hex16(n), 16);
    HexWord(Hex16(n));
  }

  lemma FlagWord(b: bool)
    ensures var f := if b then "1" else "0"; IsWord(f) && '\0' !in f && f[0] != '"'
  {
  }

  predicate Blank(s: string) {
    forall i :: 0 <= i < |s| ==> IsBlank(s[i])
  }

  lemma {:induction false} TrimBlanks(body: string, blanks: string)
    requires Blank(blanks) && (body == "" || !IsBlank(body[|body| - 1]))
    ensures TrimRight(body + blanks) == body
  {
    if blanks == "" {
      assert body + blanks == body;
    } else {
      var n := |blanks| - 1;
      TrimBlanks(body, blanks[..n]);
      assert (body + blanks)[..|body + blanks| - 1] == body + blanks[..n];
    }
  }

  /** A line that starts with something loses just the blanks at its end. */
  lemma TrimLine(body: string, blanks: string)
    requires |body| > 0 && '\0' !in body && !IsBlank(body[0]) && !IsBlank(body[|body| - 1]) && Blank(blanks)
    ensures TrimRight(TrimLeft(CString(body + blanks))) == body
  {
    assert '\0' !in blanks;
    CStringWhole(body + blanks);
    assert TrimLeft(body + blanks) == body + blanks;
    TrimBlanks(body, blanks);
  }

  lemma PlainParsed(address: string, kind: string, flag: string, quoted: string)
    requires IsWord(address) && IsWord(kind) && IsWord(flag) && quoted != "" && quoted[0] == '"'
    ensures NextWord(address + " " + kind + " " + flag + " " + quoted) ==
        Some((address, " " + kind + " " + flag + " " + quoted))
    ensures NextWord(" " + kind + " " + flag + " " + quoted) == Some((kind, " " + flag + " " + quoted))
    ensures NextWord(" " + flag + " " + quoted) == Some((flag, " " + quoted))
    ensures PlainDescription(" " + quoted) == Unquoted(quoted)
  {
    hide NextWord, Unquoted;
    var r3 := " " + quoted;
    var r2 := " " + (flag + r3);
    var r1 := " " + (kind + r2);
    NextWordOf(address, r1);
    NextWordOf(kind, r2);
    NextWordOf(flag, r3);
    assert address + " " + kind + " " + flag + " " + quoted == address + r1;
    assert " " + kind + " " + flag + " " + quoted == r1;
    assert " " + flag + " " + quoted == r2;
    assert r3[1..] == quoted && TrimTabs(quoted) == quoted && TrimTabs(r3) == quoted;
  }

  /** What stands in quotes at the end of a line, or of the piece of a line that fits the buffer. */
  predicate Quotation(quoted: string) {
    quoted != "" && quoted[0] == '"' && !IsBlank(quoted[|quoted| - 1]) && '\0' !in quoted
  }

  /** The three words of a line and its quotation reach the three parsers. */
  lemma PlainLineParsed(address: string, kind: string, flag: string, quoted: string, blanks: string)
    requires IsWord(address) && IsWord(kind) && IsWord(flag) && address[0] == '0'
    requires '\0' !in address && '\0' !in kind && '\0' !in flag && Quotation(quoted) && Blank(blanks)
    ensures var e := ParseLine(address + " " + kind + " " + flag + " " + quoted + blanks);
            && var a, t, f := ParseWord(address), ParseType(kind), ParseFlag(flag);
            && e == if a.None? || t.None? || f.None? then None
                    else Some(Entry(a.value, t.value, Unquoted(quoted), f.value, false, None))
  {
    hide ParseWord, ParseType, ParseFlag, NextWord, Unquoted, PlainDescription, TrimLeft, TrimRight, CString, TrimTabs,
      Blank;
    var body := address + " " + kind + " " + flag + " " + quoted;
    assert body[0] == '0' && body[|body| - 1] == quoted[|quoted| - 1];
    PlainParsed(address, kind, flag, quoted);
    TrimLine(body, blanks);
  }

  /** Everything of a line before its quotation. */
  function Front(e: Entry): string {
    if e.chain.Some? then Spaced(PointerFields(e))
    else "0x" + Hex16(e.address) + " " + TypeName(e.kind) + " " + (if e.enabled then "1" else "0") + " "
  }

  lemma LineShape(e: Entry)
    requires '\0' !in e.description
    ensures Line(e) == Front(e) + Quoted(e.description) + "\n"
    ensures Quotation(Quoted(e.description)) && |Quoted(e.description)| >= 2
    ensures '\n' !in Quoted(e.description) && Unquoted(Quoted(e.description)) == e.description
  {
    EscapedClean(e.description);
    CStringWhole(Quoted(e.description));
    QuoteRoundTrip(e.description);
    var q := Quoted(e.description);
    assert q[0] == '"' && q[|q| - 1] == '"';
    hide CString, Hex16, TypeName, Escaped, Spaced, PointerFields, Unquoted, Quoted;
  }

  /** What reading a whole line or its first piece gives: the entry with whatever description is left. */
  function Reread(e: Entry, quoted: string): Option<Entry> {
    if Kept(e) then Some(e.(stale := false, description := Unquoted(quoted))) else None
  }

  lemma PlainReread(e: Entry, quoted: string, blanks: string)
    requires e.chain.None? && Quotation(quoted) && Blank(blanks)
    ensures ParseLine(Front(e) + quoted + blanks) == Reread(e, quoted)
  {
    hide ParseWord, ParseType, ParseFlag, ParseLine, Unquoted, Hex16, TypeName, IsWord, Quotation, Blank;
    var a, k, f := "0x" + Hex16(e.address), TypeName(e.kind), if e.enabled then "1" else "0";
    WordRoundTrip(e.address);
    TypeWord(e.kind);
    Hex16Word(e.address);
    FlagWord(e.enabled);
    FlagRoundTrip(e.enabled);
    TypeRoundTrip(e.kind);
    PlainLineParsed(a, k, f, quoted, blanks);
    assert Front(e) + quoted + blanks == a + " " + k + " " + f + " " + quoted + blanks;
  }

  /** An absolute entry comes back unless its type has no fixed width; then its line is skipped. */
  lemma PlainRoundTrip(e: Entry)
    requires e.chain.None? && Clean(e)
    ensures ParseLine(Line(e)) == if FixedWidth(e.kind) then Some(e.(stale := false)) else None
  {
    LineShape(e);
    PlainReread(e, Quoted(e.description), "\n");
    hide ParseLine, Line, Front, Unquoted, Quoted;
  }

  // --- One pointer entry ---

  lemma {:induction false} FindIn(s: string, c: char, rest: string)
    requires c !in s
    ensures Find(s + [c] + rest, c) == |s| && Find(s, c) == |s|
  {
    if s == "" {
      assert s + [c] + rest == [c] + rest;
    } else {
      assert (s + [c] + rest)[1..] == s[1..] + [c] + rest;
      FindIn(s[1..], c, rest);
    }
  }

  lemma StepsUnfold(part: string, rest: string)
    requires ',' !in part && part != ""
    ensures ParseSteps(part) == (if ParseWord(part).None? then None else Some([ParseWord(part).value]))
    ensures ParseSteps(part + "," + rest) ==
            if ParseWord(part).None? || ParseSteps(rest).None? then None
            else Some([ParseWord(part).value] + ParseSteps(rest).value)
  {
    hide ParseWord, Find;
    FindIn(part, ',', rest);
    var s := part + "," + rest;
    assert s[..|part|] == part && s[|part| + 1..] == rest;
    assert part[..|part|] == part;
  }

  lemma OneStepText(v: Word)
    ensures StepsText([v]) == "0x" + Hex(v) && ',' !in StepsText([v])
    ensures ParseWord("0x" + Hex(v)) == Some(v)
  {
    HexWord(Hex(v));
    WordRoundTrip(v);
    hide ParseWord, Hex;
  }

  lemma MoreStepsText(offsets: seq<Word>)
    requires |offsets| > 1
    ensures StepsText(offsets) == "0x" + Hex(offsets[0]) + "," + StepsText(offsets[1..])
  {
    hide Hex;
  }

  lemma {:induction false} StepsRoundTrip(offsets: seq<Word>)
    ensures ParseSteps(StepsText(offsets)) == Some(offsets)
  {
    if offsets != [] {
      hide *;
      var part := "0x" + Hex(offsets[0]);
      OneStepText(offsets[0]);
      if |offsets| == 1 {
        StepsUnfold(part, "");
        assert offsets == [offsets[0]];
      } else {
        StepsRoundTrip(offsets[1..]);
        MoreStepsText(offsets);
        StepsUnfold(part, StepsText(offsets[1..]));
        assert offsets == [offsets[0]] + offsets[1..];
      }
    }
  }

  lemma {:induction false} StepsSolid(offsets: seq<Word>)
    ensures Solid(StepsText(offsets))
  {
    if offsets != [] {
      HexWord(Hex(offsets[0]));
      StepsSolid(offsets[1..]);
      hide Hex;
    }
  }

  lemma KeyOf(k: Keys, key: string, val: string)
    requires '=' !in key
    ensures ApplyKey(k, key + "=" + val) == ApplyNamed(k, key, val)
  {
    hide ApplyNamed;
    var word := key + "=" + val;
    assert word[..|key|] == key && word[|key| + 1..] == val;
    FindIn(key, '=', val);
  }

  lemma ApplyType(k: Keys, t: DataType)
    ensures ApplyKey(k, "type=" + TypeName(t)) == if FixedWidth(t) && t != Ptr then Some(k.(kind := Some(t))) else None
  {
    KeyOf(k, "type", TypeName(t));
    assert "type" + "=" + TypeName(t) == "type=" + TypeName(t);
    TypeRoundTrip(t);
    hide ParseType, TypeName, ParseWord, ParseSteps, ParseFlag, ApplyKey;
  }

  lemma ApplyModule(k: Keys, path: string)
    ensures ApplyKey(k, "module=" + path) == Some(k.(path := Some(path)))
  {
    KeyOf(k, "module", path);
    assert "module" + "=" + path == "module=" + path;
    hide ParseType, ParseWord, ParseSteps, ParseFlag, ApplyKey;
  }

  lemma ApplyRoot(k: Keys, n: Word)
    ensures ApplyKey(k, "root=0x" + Hex(n)) == Some(k.(root := Some(n)))
  {
    KeyOf(k, "root", "0x" + Hex(n));
    assert "root" + "=" + ("0x" + Hex(n)) == "root=0x" + Hex(n);
    WordRoundTrip(n);
    hide ParseType, ParseWord, ParseSteps, ParseFlag, ApplyKey, Hex;
  }

  lemma ApplySteps(k: Keys, offsets: seq<Word>)
    ensures ApplyKey(k, "steps=" + StepsText(offsets)) == Some(k.(steps := k.steps + offsets))
  {
    KeyOf(k, "steps", StepsText(offsets));
    assert "steps" + "=" + StepsText(offsets) == "steps=" + StepsText(offsets);
    StepsRoundTrip(offsets);
    hide ParseType, ParseWord, ParseSteps, ParseFlag, ApplyKey, StepsText;
  }

  lemma ApplyEnabled(k: Keys, b: bool)
    ensures ApplyKey(k, "enabled=" + (if b then "1" else "0")) == Some(k.(enabled := b))
  {
    var f := if b then "1" else "0";
    KeyOf(k, "enabled", f);
    assert "enabled" + "=" + f == "enabled=" + f;
    FlagRoundTrip(b);
    hide ParseType, ParseWord, ParseSteps, ParseFlag, ApplyKey;
  }

  lemma KeysMore(k: Keys, word: string, rest: seq<string>)
    ensures ApplyKeys(k, [word] + rest) ==
            if ApplyKey(k, word).None? then None else ApplyKeys(ApplyKey(k, word).value, rest)
  {
    assert ([word] + rest)[1..] == rest;
    hide ApplyKey;
  }

  const FRESH := Keys(None, None, None, [], true)

  lemma RootKeys(k: Keys, root: Base, rest: seq<string>)
    requires root.Module? ==> Solid(root.path)
    ensures root.Module? ==>
              ApplyKeys(k, RootFields(root) + rest) ==
                ApplyKeys(k.(path := Some(root.path)).(root := Some(root.offset)), rest)
    ensures root.Absolute? ==>
              ApplyKeys(k, RootFields(root) + rest) == ApplyKeys(k.(root := Some(root.address)), rest)
  {
    hide ApplyKey, ApplyKeys, Hex;
    if root.Module? {
      var r := "root=0x" + Hex(root.offset);
      CStringWhole(root.path);
      assert RootFields(root) + rest == ["module=" + root.path] + ([r] + rest);
      KeysMore(k, "module=" + root.path, [r] + rest);
      ApplyModule(k, root.path);
      KeysMore(k.(path := Some(root.path)), r, rest);
      ApplyRoot(k.(path := Some(root.path)), root.offset);
    } else {
      KeysMore(k, "root=0x" + Hex(root.address), rest);
      ApplyRoot(k, root.address);
    }
  }

  lemma LastKeys(k: Keys, offsets: seq<Word>, b: bool)
    ensures ApplyKeys(k, ["steps=" + StepsText(offsets), "enabled=" + (if b then "1" else "0")])
            == Some(k.(steps := k.steps + offsets).(enabled := b))
  {
    var f := "enabled=" + (if b then "1" else "0");
    var k1 := k.(steps := k.steps + offsets);
    assert ["steps=" + StepsText(offsets), f] == ["steps=" + StepsText(offsets)] + [f] && [f] == [f] + [];
    KeysMore(k, "steps=" + StepsText(offsets), [f]);
    ApplySteps(k, offsets);
    KeysMore(k1, f, []);
    ApplyEnabled(k1, b);
    assert ApplyKeys(k1.(enabled := b), []) == Some(k1.(enabled := b));
    hide ApplyKey, ApplyKeys, StepsText;
  }

  /** As AddressTable::add builds it: the type is the chain's, the address only that of an absolute root. */
  predicate Canonical(e: Entry) {
    e.chain.Some? ==>
      && e.kind == e.chain.value.valueType
      && e.address == (if e.chain.value.root.Absolute? then e.chain.value.root.address else 0)
  }

  lemma RootWords(root: Base)
    requires root.Module? ==> Solid(root.path)
    ensures forall i :: 0 <= i < |RootFields(root)| ==>
              FieldOk(RootFields(root)[i])
  {
    if root.Module? {
      CStringWhole(root.path);
      HexWord(Hex(root.offset));
    } else {
      HexWord(Hex(root.address));
    }
    hide Hex, CString;
  }

  /** The fields of a line beside those of the root. */
  lemma OuterWords(e: Entry)
    requires e.chain.Some?
    ensures FieldOk("pointer") && FieldOk("type=" + TypeName(e.kind))
    ensures FieldOk("steps=" + StepsText(e.chain.value.offsets))
    ensures FieldOk("enabled=" + (if e.enabled then "1" else "0"))
  {
    StepsSolid(e.chain.value.offsets);
    TypeWord(e.kind);
    FlagWord(e.enabled);
    hide TypeName, StepsText;
  }

  lemma FieldWords(e: Entry, i: nat)
    requires e.chain.Some? && Clean(e) && i < |PointerFields(e)|
    ensures FieldOk(PointerFields(e)[i])
  {
    RootWords(e.chain.value.root);
    OuterWords(e);
    var n := |RootFields(e.chain.value.root)|;
    assert 2 <= i < n + 2 ==> PointerFields(e)[i] == RootFields(e.chain.value.root)[i - 2];
    hide TypeName, StepsText, RootFields, FieldOk, Clean;
  }

  lemma PointerTail(e: Entry)
    requires e.chain.Some?
    ensures PointerFields(e)[1..] ==
            ["type=" + TypeName(e.kind)] + (RootFields(e.chain.value.root)
            + ["steps=" + StepsText(e.chain.value.offsets), "enabled=" + (if e.enabled then "1" else "0")])
  {
    hide TypeName, RootFields, StepsText;
  }

  lemma PointerKeys(e: Entry, quoted: string)
    requires e.chain.Some? && Clean(e) && Canonical(e)
    ensures var k := ApplyKeys(FRESH, PointerFields(e)[1..]);
            Reread(e, quoted) == if k.None? then None else PointerEntry(k.value, quoted)
  {
    var c := e.chain.value;
    var last := ["steps=" + StepsText(c.offsets), "enabled=" + (if e.enabled then "1" else "0")];
    var first := "type=" + TypeName(e.kind);
    PointerTail(e);
    KeysMore(FRESH, first, RootFields(c.root) + last);
    ApplyType(FRESH, e.kind);
    var k1 := FRESH.(kind := Some(e.kind));
    RootKeys(k1, c.root, last);
    var k2 := if c.root.Module? then k1.(path := Some(c.root.path)).(root := Some(c.root.offset))
        else k1.(root := Some(c.root.address));
    LastKeys(k2, c.offsets, e.enabled);
    assert [] + c.offsets == c.offsets;
    hide ApplyKey, ApplyKeys, StepsText, TypeName, RootFields, Unquoted, PointerFields;
  }

  lemma {:induction false} SpacedClean(words: seq<string>)
    requires forall i :: 0 <= i < |words| ==> FieldOk(words[i])
    ensures '\0' !in Spaced(words) && '\n' !in Spaced(words)
  {
    if words != [] {
      assert FieldOk(words[0]);
      SpacedClean(words[1..]);
    }
  }

  lemma ReadsPointer(line: string, tail: string)
    requires TrimRight(TrimLeft(CString(line))) == "pointer" + (" " + tail)
    ensures ParseLine(line) == ParsePointer(" " + tail)
  {
    hide CString, TrimLeft, TrimRight, NextWord, ParsePointer, ParsePlain;
    NextWordOf("pointer", " " + tail);
  }

  lemma PointerFieldsParsed(words: seq<string>, quoted: string)
    requires forall i :: 0 <= i < |words| ==> FieldOk(words[i])
    requires quoted != "" && quoted[0] == '"'
    ensures var k := ApplyKeys(FRESH, words);
            ParsePointer(" " + (Spaced(words) + quoted)) == if k.None? then None else PointerEntry(k.value, quoted)
  {
    hide ApplyKeys, PointerEntry, Fields, Spaced;
    SkipOne(Spaced(words) + quoted);
    FieldsOf(words, quoted);
  }

  lemma Regroup(word: string, tail: string, quoted: string)
    requires word != "" && quoted != "" && '\0' !in word + " " + tail && '\0' !in quoted
    ensures var body := word + " " + tail + quoted;
            && body == word + (" " + (tail + quoted))
            && body[0] == word[0] && body[|body| - 1] == quoted[|quoted| - 1] && '\0' !in body
  {
  }

  lemma PointerBody(words: seq<string>, quoted: string)
    requires words != [] && words[0] == "pointer"
    requires forall i :: 0 <= i < |words| ==> FieldOk(words[i])
    requires Quotation(quoted)
    ensures var body := Spaced(words) + quoted;
            && body == "pointer" + (" " + (Spaced(words[1..]) + quoted))
            && body[0] == 'p' && !IsBlank(body[|body| - 1]) && '\0' !in body
  {
    hide FieldOk;
    SpacedClean(words);
    Regroup(words[0], Spaced(words[1..]), quoted);
  }

  lemma PointerLineParsed(words: seq<string>, quoted: string, blanks: string)
    requires words != [] && words[0] == "pointer"
    requires forall i :: 0 <= i < |words| ==> FieldOk(words[i])
    requires Quotation(quoted) && Blank(blanks)
    ensures var k := ApplyKeys(FRESH, words[1..]);
            ParseLine(Spaced(words) + quoted + blanks) == if k.None? then None else PointerEntry(k.value, quoted)
  {
    hide ApplyKeys, PointerEntry, CString, TrimLeft, TrimRight, ParseLine, ParsePointer, FieldOk, Spaced, Blank;
    var body := Spaced(words) + quoted;
    var tail := Spaced(words[1..]) + quoted;
    PointerBody(words, quoted);
    TrimLine(body, blanks);
    ReadsPointer(body + blanks, tail);
    PointerFieldsParsed(words[1..], quoted);
  }

  lemma PointerReread(e: Entry, quoted: string, blanks: string)
    requires e.chain.Some? && Clean(e) && Canonical(e) && Quotation(quoted) && Blank(blanks)
    ensures ParseLine(Front(e) + quoted + blanks) == Reread(e, quoted)
  {
    hide ApplyKeys, PointerEntry, ParseLine, PointerFields, Spaced, FieldOk, Clean, Canonical, Quotation, Blank,
      Unquoted;
    forall i | 0 <= i < |PointerFields(e)|
      ensures FieldOk(PointerFields(e)[i])
    {
      FieldWords(e, i);
    }
    FirstField(e);
    PointerLineParsed(PointerFields(e), quoted, blanks);
    PointerKeys(e, quoted);
  }

  /** A pointer entry comes back unless its type is a pointer or has no fixed width. */
  lemma PointerRoundTrip(e: Entry)
    requires e.chain.Some? && Clean(e) && Canonical(e)
    ensures ParseLine(Line(e)) == if FixedWidth(e.kind) && e.kind != Ptr then Some(e.(stale := false)) else None
  {
    LineShape(e);
    PointerReread(e, Quoted(e.description), "\n");
    hide ParseLine, Line, Front, Unquoted, Quoted;
  }

  lemma FirstField(e: Entry)
    requires e.chain.Some?
    ensures PointerFields(e) != [] && PointerFields(e)[0] == "pointer"
  {
  }

  // --- The whole file ---

  /** Kept by save and load: a fixed-width type, and not a pointer at the end of a chain. */
  predicate Kept(e: Entry) {
    FixedWidth(e.kind) && (e.chain.Some? ==> e.kind != Ptr)
  }

  function Freshened(entries: seq<Entry>): (r: seq<Entry>)
    ensures |r| == |entries|
    ensures forall i :: 0 <= i < |r| ==> r[i] == entries[i].(stale := false)
  {
    if entries == [] then [] else [entries[0].(stale := false)] + Freshened(entries[1..])
  }

  lemma LineReread(e: Entry, quoted: string, blanks: string)
    requires Clean(e) && Canonical(e) && Quotation(quoted) && Blank(blanks)
    ensures ParseLine(Front(e) + quoted + blanks) == Reread(e, quoted)
  {
    if e.chain.Some? {
      PointerReread(e, quoted, blanks);
    } else {
      PlainReread(e, quoted, blanks);
    }
    hide ParseLine, Front, Reread, Quotation, Blank;
  }

  predicate OneLine(line: string) {
    line != "" && line[|line| - 1] == '\n' && '\n' !in line[..|line| - 1]
  }

  lemma LineEnds(body: string)
    requires '\n' !in body
    ensures OneLine(body + "\n")
  {
    assert (body + "\n")[..|body + "\n"| - 1] == body;
  }

  lemma FrontClean(e: Entry)
    requires Clean(e)
    ensures '\n' !in Front(e)
  {
    hide FieldOk, Spaced, PointerFields, Hex16, TypeName;
    if e.chain.Some? {
      forall i | 0 <= i < |PointerFields(e)|
        ensures FieldOk(PointerFields(e)[i])
      {
        FieldWords(e, i);
      }
      SpacedClean(PointerFields(e));
    } else {
      Hex16Word(e.address);
      TypeWord(e.kind);
      assert '\n' !in "0x" + Hex16(e.address) by {
        assert !exists c :: c in "0x" + Hex16(e.address) && IsSpace(c);
      }
    }
  }

  lemma LineOne(e: Entry)
    requires Clean(e)
    ensures OneLine(Line(e))
  {
    FrontClean(e);
    LineShape(e);
    LineEnds(Front(e) + Quoted(e.description));
    hide OneLine, Line, Front, Quoted;
  }

  // --- Reading a line in pieces ---

  /** The first piece of a line, the whole line when it fits the buffer, and the rest of it. */
  lemma TakenFirst(line: string, rest: string)
    requires OneLine(line)
    ensures line + rest != "" && Taken(line + rest) == if |line| < BUFFER then |line| else BUFFER - 1
  {
    var body := line[..|line| - 1];
    assert line + rest == body + ['\n'] + rest;
    FindIn(body, '\n', rest);
    hide Find;
  }

  function Entries(line: string): seq<Entry> {
    var e := ParseLine(line);
    if e.Some? then [e.value] else []
  }

  lemma ParsedFirst(line: string, rest: string)
    requires OneLine(line)
    ensures |line| < BUFFER ==> ParseFile(line + rest) == Entries(line) + ParseFile(rest)
    ensures |line| >= BUFFER ==>
              ParseFile(line + rest) == Entries(line[..BUFFER - 1]) + ParseFile(line[BUFFER - 1..] + rest)
  {
    hide ParseLine, Taken;
    TakenFirst(line, rest);
    if |line| < BUFFER {
      assert (line + rest)[..|line|] == line && (line + rest)[|line|..] == rest;
    } else {
      assert (line + rest)[..BUFFER - 1] == line[..BUFFER - 1];
      assert (line + rest)[BUFFER - 1..] == line[BUFFER - 1..] + rest;
    }
  }

  lemma RestOneLine(line: string, n: nat)
    requires OneLine(line) && n < |line|
    ensures OneLine(line[n..])
  {
  }

  lemma NothingParsed()
    ensures ParseFile("") == []
  {
  }

  lemma ParsedAlone(line: string)
    requires OneLine(line)
    ensures |line| < BUFFER ==> ParseFile(line) == Entries(line)
    ensures |line| >= BUFFER ==> ParseFile(line) == Entries(line[..BUFFER - 1]) + ParseFile(line[BUFFER - 1..])
  {
    assert ParseFile("") == [];
    ParsedFirst(line, "");
    hide ParseFile, Entries;
    assert line + "" == line;
    if |line| >= BUFFER {
      assert line[BUFFER - 1..] + "" == line[BUFFER - 1..];
    } else {
      assert Entries(line) + [] == Entries(line);
    }
  }

  lemma HeaderSkipped(rest: string)
    ensures ParseFile(HEADER + rest) == ParseFile(rest)
  {
    var body := "# MemoryTool Address Table v1";
    assert HEADER == body + "\n" && '\n' !in body;
    LineEnds(body);
    TrimLine(body, "\n");
    assert ParseLine(HEADER) == None;
    ParsedFirst(HEADER, rest);
    hide ParseFile;
  }
}
