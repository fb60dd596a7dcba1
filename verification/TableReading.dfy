/** How any line of a table file is read, whether save wrote it or a hand did. */
module TableReading {
  import opened Words
  import opened Memory
  import opened Values
  import opened Resolver
  import opened Numerals
  import opened TableText
  import opened TableRoundTrip

  // --- Type names ---

  predicate Named(s: string, t: DataType) {
    match t
    case I8 => s == "i8" || s == "int8" || s == "s8"
    case U8 => s == "u8" || s == "uint8" || s == "byte"
    case I16 => s == "i16" || s == "int16" || s == "s16"
    case U16 => s == "u16" || s == "uint16"
    case I32 => s == "i32" || s == "int32" || s == "int"
    case U32 => s == "u32" || s == "uint32" || s == "uint"
    case I64 => s == "i64" || s == "int64" || s == "long"
    case U64 => s == "u64" || s == "uint64" || s == "ulong"
    case F32 => s == "f32" || s == "float"
    case F64 => s == "f64" || s == "double"
    case Ptr => s == "ptr" || s == "pointer"
    case _ => false
  }

  lemma ReadIsNamed(s: string)
    ensures ParseType(s).Some? ==> Named(s, ParseType(s).value)
  {
  }

  lemma NamedIsRead(s: string, t: DataType)
    requires Named(s, t)
    ensures ParseType(s) == Some(t)
  {
  }

  /** A word is read as a type exactly when it is one of that type's names. */
  lemma TypesSpelled(s: string, t: DataType)
    ensures ParseType(s) == Some(t) <==> Named(s, t)
  {
    hide *;
    ReadIsNamed(s);
    if Named(s, t) {
      NamedIsRead(s, t);
    }
  }

  /** save writes one of them where there is one. */
  lemma SavedNamed(t: DataType)
    ensures Named(TypeName(t), t) <==> t != Text && t != RawBytes
  {
  }

  // --- White space ---

  /** The six space characters of C. */
  predicate Gap(s: string) {
    forall c :: c in s ==> c as int in {9, 10, 11, 12, 13, 32}
  }

  predicate NoGap(s: string) {
    s != "" && forall c :: c in s ==> c as int !in {9, 10, 11, 12, 13, 32}
  }

  predicate Apart(rest: string) {
    rest == "" || rest[0] as int in {9, 10, 11, 12, 13, 32}
  }

  lemma {:induction false} GapSkipped(g: string, rest: string)
    requires Gap(g) && (rest == "" || !IsSpace(rest[0]))
    ensures SkipSpace(g + rest) == rest
  {
    if g == "" {
      assert g + rest == rest;
    } else {
      assert g[0] in g && (g + rest)[1..] == g[1..] + rest && forall c :: c in g[1..] ==> c in g;
      GapSkipped(g[1..], rest);
    }
  }

  lemma WordRead(g: string, w: string, rest: string)
    requires Gap(g) && NoGap(w) && Apart(rest)
    ensures NextWord(g + (w + rest)) == Some((w, rest))
  {
    assert w[0] in w;
    GapSkipped(g, w + rest);
    WordLengthOf(w, rest);
    assert (w + rest)[..|w|] == w && (w + rest)[|w|..] == rest;
  }

  lemma NoWord(g: string)
    requires Gap(g)
    ensures NextWord(g) == None
  {
    GapSkipped(g, "");
    assert g + "" == g;
  }

  // --- Descriptions ---

  /** A character as it stands, or one behind a backslash. */
  datatype Piece = Plain(c: char) | Slash(c: char)

  predicate PieceOk(p: Piece) {
    p.Plain? ==> p.c != '\\'
  }

  function PieceText(p: Piece): string {
    if p.Plain? then [p.c] else ['\\', p.c]
  }

  function PieceMeaning(p: Piece): char {
    if p.Slash? && p.c == 'n' then '\n' else p.c
  }

  function PiecesText(ps: seq<Piece>): string {
    if ps == [] then "" else PieceText(ps[0]) + PiecesText(ps[1..])
  }

  function PiecesMeaning(ps: seq<Piece>): string {
    if ps == [] then "" else [PieceMeaning(ps[0])] + PiecesMeaning(ps[1..])
  }

  /** Nothing, or a lone backslash that stands for itself. */
  lemma {:induction false} PiecesRead(ps: seq<Piece>, last: string)
    requires (forall i :: 0 <= i < |ps| ==> PieceOk(ps[i])) && last in ["", "\\"]
    ensures Unescaped(PiecesText(ps) + last) == PiecesMeaning(ps) + last
  {
    if ps == [] {
      assert PiecesText(ps) + last == last;
      assert last != "" ==> last[1..] == "";
    } else {
      var rest := PiecesText(ps[1..]) + last;
      var s := PieceText(ps[0]) + rest;
      assert PiecesText(ps) + last == s;
      assert PieceOk(ps[0]);
      assert s[|PieceText(ps[0])|..] == rest;
      PiecesRead(ps[1..], last);
      assert PiecesMeaning(ps) + last == [PieceMeaning(ps[0])] + (PiecesMeaning(ps[1..]) + last);
    }
  }

  /** Every text splits into such pieces. */
  lemma {:induction false} PiecesOf(s: string) returns (ps: seq<Piece>, last: string)
    ensures (forall i :: 0 <= i < |ps| ==> PieceOk(ps[i])) && last in ["", "\\"]
    ensures s == PiecesText(ps) + last
    decreases |s|
  {
    if s == "" {
      ps, last := [], "";
    } else if s == "\\" {
      ps, last := [], "\\";
      assert PiecesText([]) + last == last;
    } else {
      var p := if s[0] == '\\' then Slash(s[1]) else Plain(s[0]);
      var n := |PieceText(p)|;
      ps, last := PiecesOf(s[n..]);
      assert s == PieceText(p) + s[n..];
      assert ([p] + ps)[1..] == ps;
      assert PiecesText([p] + ps) + last == PieceText(p) + (PiecesText(ps) + last);
      ps := [p] + ps;
    }
  }

  /**
   * A quoted description is what its pieces mean; the last quote closes it wherever it stands, even behind a
   * backslash, and it may be missing.
   */
  lemma DescriptionRead(ps: seq<Piece>, last: string, close: string)
    requires (forall i :: 0 <= i < |ps| ==> PieceOk(ps[i])) && last in ["", "\\"] && close in ["", "\""]
    requires close == "" ==> PiecesText(ps) + last == "" || (PiecesText(ps) + last)[|PiecesText(ps) + last| - 1] != '"'
    ensures Unquoted("\"" + (PiecesText(ps) + last) + close) == PiecesMeaning(ps) + last
  {
    var inside := PiecesText(ps) + last;
    var s := "\"" + inside + close;
    assert Inside(s) == inside by {
      assert close == "" ==> s == "\"" + inside;
      assert s[1..1 + |inside|] == inside;
      assert close == "\"" ==> s[|s| - 1] == '"';
      assert close == "" && inside != "" ==> s[|s| - 1] == inside[|inside| - 1];
    }
    PiecesRead(ps, last);
    hide PiecesText, PiecesMeaning, Unescaped;
  }

  predicate Tabs(s: string) {
    forall c :: c in s ==> c == ' ' || c == '\t'
  }

  lemma {:induction false} TabsSkipped(tabs: string, d: string)
    requires Tabs(tabs) && (d == "" || (d[0] != ' ' && d[0] != '\t'))
    ensures TrimTabs(tabs + d) == d
  {
    if tabs == "" {
      assert tabs + d == d;
    } else {
      assert tabs[0] in tabs && (tabs + d)[1..] == tabs[1..] + d && forall c :: c in tabs[1..] ==> c in tabs;
      TabsSkipped(tabs[1..], d);
    }
  }

  // --- Lines ---

  predicate Blanks(s: string) {
    forall c :: c in s ==> c in " \t\n\r"
  }

  /** body stands in the line between blanks, before a NUL if there is one. */
  predicate Carries(line: string, before: string, body: string, after: string, rest: string) {
    && line == before + body + after + rest && Blanks(before) && Blanks(after)
    && body != "" && body[0] !in " \t\n\r" && body[|body| - 1] !in " \t\n\r" && '\0' !in body
    && (rest == "" || rest[0] == '\0')
  }

  lemma {:induction false} CutAtNul(s: string, rest: string)
    requires '\0' !in s && (rest == "" || rest[0] == '\0')
    ensures CString(s + rest) == s
  {
    if s == "" {
      assert s + rest == rest;
    } else {
      assert (s + rest)[1..] == s[1..] + rest && s[0] in s;
      CutAtNul(s[1..], rest);
    }
  }

  lemma {:induction false} BlanksSkipped(before: string, s: string)
    requires Blanks(before) && (s == "" || !IsBlank(s[0]))
    ensures TrimLeft(before + s) == s
  {
    if before == "" {
      assert before + s == s;
    } else {
      assert before[0] in before && (before + s)[1..] == before[1..] + s;
      assert forall c :: c in before[1..] ==> c in before;
      BlanksSkipped(before[1..], s);
    }
  }

  lemma LineTrimmed(line: string, before: string, body: string, after: string, rest: string)
    requires Carries(line, before, body, after, rest)
    ensures TrimRight(TrimLeft(CString(line))) == body
  {
    hide CString, TrimLeft, TrimRight;
    CutAtNul(before + body + after, rest);
    assert before + body + after == before + (body + after);
    BlanksSkipped(before, body + after);
    forall i | 0 <= i < |after|
      ensures IsBlank(after[i])
    {
      assert after[i] in after;
    }
    TrimBlanks(body, after);
  }

  /** Blank lines and comments hold nothing. */
  lemma CommentsSkipped(line: string, before: string, body: string, after: string, rest: string)
    ensures Carries(line, before, body, after, rest) && body[0] == '#' ==> ParseLine(line) == None
    ensures line == before + rest && Blanks(before) && (rest == "" || rest[0] == '\0') ==> ParseLine(line) == None
  {
    if Carries(line, before, body, after, rest) {
      LineTrimmed(line, before, body, after, rest);
    }
    if line == before + rest && Blanks(before) && (rest == "" || rest[0] == '\0') {
      CutAtNul(before, rest);
      BlanksSkipped(before, "");
      assert before + "" == before;
    }
    hide CString, TrimLeft, TrimRight, NextWord;
  }

  /** What an absolute line says after its three words. */
  predicate Describes(tail: string, tabs: string, d: string, text: string) {
    && tail == tabs + d && Tabs(tabs) && (d == "" || (d[0] != ' ' && d[0] != '\t'))
    && text == (if d != "" && d[0] == '"' then Unquoted(d) else d)
  }

  lemma TailRead(tail: string, tabs: string, d: string, text: string)
    requires Describes(tail, tabs, d, text)
    ensures PlainDescription(tail) == text
  {
    TabsSkipped(tabs, d);
    hide Unquoted;
  }

  /** A line of three words and a description, with any gaps: an entry when the words are a number, a type, a flag. */
  lemma PlainLineRead(line: string, before: string, after: string, rest: string, first: string, g1: string,
                      kind: string, g2: string, flag: string, tail: string, tabs: string, d: string, text: string)
    requires Carries(line, before, first + (g1 + (kind + (g2 + (flag + tail)))), after, rest)
    requires NoGap(first) && first[0] != '#' && first != "pointer"
    requires Gap(g1) && g1 != "" && NoGap(kind) && Gap(g2) && g2 != "" && NoGap(flag) && Apart(tail)
    requires Describes(tail, tabs, d, text)
    ensures ParseLine(line) ==
            if ParseWord(first).None? || ParseType(kind).None? || ParseFlag(flag).None? then None
            else Some(Entry(ParseWord(first).value, ParseType(kind).value, text, ParseFlag(flag).value, false, None))
  {
    hide CString, TrimLeft, TrimRight, NextWord, PlainDescription, ParseWord, ParseType, ParseFlag, Describes;
    var r2 := g2 + (flag + tail);
    var r1 := g1 + (kind + r2);
    LineTrimmed(line, before, first + r1, after, rest);
    assert g1[0] in g1 && g2[0] in g2;
    WordRead("", first, r1);
    assert "" + (first + r1) == first + r1;
    WordRead(g1, kind, r2);
    WordRead(g2, flag, tail);
    TailRead(tail, tabs, d, text);
    hide Carries, Gap, NoGap, Apart;
  }

  /** Fewer words are no entry. */
  lemma ShortLineRead(line: string, before: string, after: string, rest: string, first: string, g1: string,
                      kind: string)
    requires NoGap(first) && first[0] != '#' && first != "pointer" && Gap(g1)
    requires kind == "" || (NoGap(kind) && g1 != "")
    requires Carries(line, before, first + (g1 + kind), after, rest)
    ensures ParseLine(line) == None
  {
    hide CString, TrimLeft, TrimRight, NextWord, ParseWord, ParseType, ParseFlag;
    LineTrimmed(line, before, first + (g1 + kind), after, rest);
    assert g1 != "" ==> g1[0] in g1 && (g1 + kind)[0] == g1[0];
    WordRead("", first, g1 + kind);
    assert "" + (first + (g1 + kind)) == first + (g1 + kind);
    if kind == "" {
      assert g1 + kind == g1;
      NoWord(g1);
    } else {
      assert kind + "" == kind;
      WordRead(g1, kind, "");
      NoWord("");
    }
    hide Carries, Gap, NoGap;
  }

  // --- Pointer lines ---

  /** A key and its value, with the gap before them. */
  datatype Pair = Pair(gap: string, key: string, val: string)

  function WordOf(p: Pair): string {
    p.key + "=" + p.val
  }

  /** A pair stands apart, its key has no equals sign, and it does not look like a quotation. */
  predicate PairOk(p: Pair) {
    Gap(p.gap) && p.gap != "" && NoGap(WordOf(p)) && '=' !in p.key && WordOf(p)[0] != '"'
  }

  predicate PairsOk(ps: seq<Pair>) {
    forall i :: 0 <= i < |ps| ==> PairOk(ps[i])
  }

  function PairsText(ps: seq<Pair>): string {
    if ps == [] then "" else ps[0].gap + WordOf(ps[0]) + PairsText(ps[1..])
  }

  function AllWords(ps: seq<Pair>): (ws: seq<string>)
    ensures |ws| == |ps| && forall i :: 0 <= i < |ps| ==> ws[i] == WordOf(ps[i])
  {
    if ps == [] then [] else [WordOf(ps[0])] + AllWords(ps[1..])
  }

  lemma {:induction false} FieldsRead(ps: seq<Pair>, g: string, quoted: string)
    requires PairsOk(ps) && Gap(g) && (quoted != "" ==> g != "" && quoted[0] == '"')
    ensures Fields(PairsText(ps) + (g + quoted)) == (AllWords(ps), quoted)
  {
    hide NextWord;
    var tail := g + quoted;
    if ps == [] {
      assert PairsText(ps) + tail == tail;
      LastField(g, quoted);
    } else {
      var p, rest := ps[0], PairsText(ps[1..]) + tail;
      assert PairOk(p) && PairsOk(ps[1..]);
      assert PairsText(ps) + tail == p.gap + (WordOf(p) + rest);
      FieldsApart(ps[1..], g, quoted);
      WordRead(p.gap, WordOf(p), rest);
      FieldsRead(ps[1..], g, quoted);
    }
  }

  lemma FieldsApart(ps: seq<Pair>, g: string, quoted: string)
    requires PairsOk(ps) && Gap(g) && (quoted != "" ==> g != "" && quoted[0] == '"')
    ensures Apart(PairsText(ps) + (g + quoted))
  {
    if ps == [] {
      assert PairsText(ps) + (g + quoted) == g + quoted;
      assert g != "" ==> g[0] in g;
    } else {
      assert PairOk(ps[0]) && ps[0].gap[0] in ps[0].gap;
      assert (PairsText(ps) + (g + quoted))[0] == ps[0].gap[0];
    }
  }

  lemma LastField(g: string, quoted: string)
    requires Gap(g) && (quoted != "" ==> g != "" && quoted[0] == '"')
    ensures Fields(g + quoted) == ([], quoted)
  {
    GapSkipped(g, quoted);
    var n := WordLength(quoted);
    assert quoted[..n] + quoted[n..] == quoted;
  }

  // What the keys say

  /** The value of the last pair with this key. */
  function Last(ps: seq<Pair>, key: string): Option<string> {
    if ps == [] then None
    else if ps[|ps| - 1].key == key then Some(ps[|ps| - 1].val)
    else Last(ps[..|ps| - 1], key)
  }

  /** The steps of all the pairs that give some. */
  function AllSteps(ps: seq<Pair>): seq<Words.Word> {
    if ps == [] then []
    else AllSteps(ps[..|ps| - 1]) + Steps(ps[|ps| - 1])
  }

  function Steps(p: Pair): seq<Words.Word> {
    if p.key == "steps" && ParseSteps(p.val).Some? then ParseSteps(p.val).value else []
  }

  /** Values that make the whole line no entry; a key that is not one of the five says nothing. */
  predicate Readable(p: Pair) {
    && (p.key == "type" ==> ParseType(p.val).Some? && ParseType(p.val).value != Ptr)
    && (p.key == "root" ==> ParseWord(p.val).Some?)
    && (p.key == "steps" ==> ParseSteps(p.val).Some?)
    && (p.key == "enabled" ==> ParseFlag(p.val).Some?)
  }

  /** All read; last wins, but steps add up. */
  predicate Say(ps: seq<Pair>, k: Keys) {
    && k.kind == (if Last(ps, "type").Some? then ParseType(Last(ps, "type").value) else None)
    && k.path == Last(ps, "module")
    && k.root == (if Last(ps, "root").Some? then ParseWord(Last(ps, "root").value) else None)
    && k.steps == AllSteps(ps)
    && Some(k.enabled) == (if Last(ps, "enabled").Some? then ParseFlag(Last(ps, "enabled").value) else Some(true))
  }

  lemma {:induction false} KeysAppend(k: Keys, ws: seq<string>, w: string)
    ensures ApplyKeys(k, ws + [w]) ==
            if ApplyKeys(k, ws).None? then None else ApplyKey(ApplyKeys(k, ws).value, w)
    decreases |ws|
  {
    hide ApplyKey;
    if ws == [] {
      assert ws + [w] == [w] && [w][1..] == [];
    } else {
      assert (ws + [w])[1..] == ws[1..] + [w];
      if ApplyKey(k, ws[0]).Some? {
        KeysAppend(ApplyKey(k, ws[0]).value, ws[1..], w);
      }
    }
  }

  lemma KeyRead(k: Keys, p: Pair)
    requires '=' !in p.key
    ensures var n := ApplyKey(k, WordOf(p));
            && (n.Some? <==> Readable(p))
            && (n.Some? ==>
                  && n.value.kind == (if p.key == "type" then ParseType(p.val) else k.kind)
                  && n.value.path == (if p.key == "module" then Some(p.val) else k.path)
                  && n.value.root == (if p.key == "root" then ParseWord(p.val) else k.root)
                  && n.value.steps == k.steps + Steps(p)
                  && Some(n.value.enabled) == (if p.key == "enabled" then ParseFlag(p.val) else Some(k.enabled)))
  {
    KeyOf(k, p.key, p.val);
    hide ApplyKey, ParseType, ParseWord, ParseSteps, ParseFlag;
  }

  lemma SayMore(ps: seq<Pair>, k: Keys)
    requires ps != [] && Say(ps[..|ps| - 1], k) && '=' !in ps[|ps| - 1].key
    ensures var n := ApplyKey(k, WordOf(ps[|ps| - 1]));
            (n.Some? <==> Readable(ps[|ps| - 1])) && (n.Some? ==> Say(ps, n.value))
  {
    hide ApplyKey, ParseType, ParseWord, ParseSteps, ParseFlag, Readable, Steps;
    KeyRead(k, ps[|ps| - 1]);
  }

  lemma WordsAppend(ps: seq<Pair>)
    requires ps != []
    ensures AllWords(ps) == AllWords(ps[..|ps| - 1]) + [WordOf(ps[|ps| - 1])]
  {
    hide WordOf;
  }

  predicate AllReadable(ps: seq<Pair>) {
    forall i :: 0 <= i < |ps| ==> Readable(ps[i])
  }

  lemma ReadableAppend(ps: seq<Pair>)
    requires ps != []
    ensures AllReadable(ps) <==> AllReadable(ps[..|ps| - 1]) && Readable(ps[|ps| - 1])
  {
    hide Readable;
  }

  lemma NothingSaid()
    ensures ApplyKeys(FRESH, AllWords([])) == Some(FRESH) && Say([], FRESH)
  {
  }

  lemma {:induction false} KeysRead(ps: seq<Pair>)
    requires forall i :: 0 <= i < |ps| ==> '=' !in ps[i].key
    ensures ApplyKeys(FRESH, AllWords(ps)).Some? <==> AllReadable(ps)
    ensures ApplyKeys(FRESH, AllWords(ps)).Some? ==> Say(ps, ApplyKeys(FRESH, AllWords(ps)).value)
  {
    if ps == [] {
      NothingSaid();
    } else {
      hide *;
      var n := |ps| - 1;
      KeysRead(ps[..n]);
      WordsAppend(ps);
      ReadableAppend(ps);
      KeysAppend(FRESH, AllWords(ps[..n]), WordOf(ps[n]));
      if ApplyKeys(FRESH, AllWords(ps[..n])).Some? {
        SayMore(ps, ApplyKeys(FRESH, AllWords(ps[..n])).value);
      }
    }
  }

  /** A word without an equals sign makes the line no entry. */
  lemma NoEquals(k: Keys, w: string, rest: seq<string>)
    requires '=' !in w
    ensures ApplyKeys(k, [w] + rest) == None
  {
    FindIn(w, '=', "");
  }

  /** An empty part makes the steps unreadable; a comma at the end does not. */
  lemma EmptyStep(part: string, rest: string)
    ensures ParseSteps("," + rest) == None
    ensures ',' !in part && part != "" ==> ParseSteps(part + ",") == ParseSteps(part)
  {
    if ',' !in part && part != "" {
      StepsUnfold(part, "");
      assert part + "," + "" == part + "," && ParseSteps("") == Some([]);
      assert ParseWord(part).Some? ==> [ParseWord(part).value] + [] == [ParseWord(part).value];
      hide ParseWord, Find, ParseSteps;
    }
  }

  predicate PointerSays(ps: seq<Pair>, quoted: string, e: Entry) {
    var path, root := Last(ps, "module"), Last(ps, "root");
    && e.chain.Some? && root.Some? && Last(ps, "type").Some?
    && var c := e.chain.value;
    && Some(c.root) == (if ParseWord(root.value).None? then None
                        else if path.Some? then Some(Module(path.value, ParseWord(root.value).value))
                        else Some(Absolute(ParseWord(root.value).value)))
    && c.offsets == AllSteps(ps) && Some(c.valueType) == Some(e.kind) == ParseType(Last(ps, "type").value)
    && e.address == (if c.root.Absolute? then c.root.address else 0)
    && Some(e.enabled) == (if Last(ps, "enabled").Some? then ParseFlag(Last(ps, "enabled").value) else Some(true))
    && e.description == Unquoted(quoted) && !e.stale
  }

  lemma {:induction false} LastReadable(ps: seq<Pair>)
    requires AllReadable(ps)
    ensures Last(ps, "type").Some? ==> ParseType(Last(ps, "type").value).Some?
    ensures Last(ps, "root").Some? ==> ParseWord(Last(ps, "root").value).Some?
  {
    hide ParseType, ParseWord;
    if ps != [] {
      LastReadable(ps[..|ps| - 1]);
      assert Readable(ps[|ps| - 1]);
    }
  }

  lemma PairsParsed(ps: seq<Pair>, g: string, quoted: string)
    requires PairsOk(ps) && Gap(g) && (quoted != "" ==> g != "" && quoted[0] == '"')
    ensures var k := ApplyKeys(FRESH, AllWords(ps));
            ParsePointer(PairsText(ps) + (g + quoted)) == if k.None? then None else PointerEntry(k.value, quoted)
  {
    hide ApplyKeys, PointerEntry, Fields, PairsOk, Gap;
    FieldsRead(ps, g, quoted);
  }

  lemma SaidEntry(ps: seq<Pair>, k: Keys, quoted: string)
    requires Say(ps, k) && AllReadable(ps)
    ensures PointerEntry(k, quoted).Some? <==> Last(ps, "type").Some? && Last(ps, "root").Some?
    ensures PointerEntry(k, quoted).Some? ==> PointerSays(ps, quoted, PointerEntry(k, quoted).value)
  {
    hide ParseType, ParseWord, ParseFlag, Unquoted, Readable, Last, AllSteps;
    LastReadable(ps);
  }

  lemma PairsSay(ps: seq<Pair>, g: string, quoted: string)
    requires PairsOk(ps) && Gap(g) && (quoted != "" ==> g != "" && quoted[0] == '"')
    ensures var e := ParsePointer(PairsText(ps) + (g + quoted));
            && (e.Some? <==>
                  && AllReadable(ps)
                  && Last(ps, "type").Some? && Last(ps, "root").Some?)
            && (e.Some? ==> PointerSays(ps, quoted, e.value))
  {
    hide ParsePointer, PointerEntry, ApplyKeys, Say, PointerSays, Last, AllReadable, PairsText, Gap;
    PairsParsed(ps, g, quoted);
    forall i | 0 <= i < |ps|
      ensures '=' !in ps[i].key
    {
      assert PairOk(ps[i]);
    }
    hide PairsOk;
    KeysRead(ps);
    if ApplyKeys(FRESH, AllWords(ps)).Some? {
      SaidEntry(ps, ApplyKeys(FRESH, AllWords(ps)).value, quoted);
    }
  }

  /**
   * A pointer line with any gaps, its keys in any order: the entry of what they say, if each can be read and
   * there are a type and a root.
   */
  lemma PointerLineRead(line: string, before: string, after: string, rest: string, ps: seq<Pair>, g: string,
                        quoted: string)
    requires Carries(line, before, "pointer" + (PairsText(ps) + (g + quoted)), after, rest)
    requires PairsOk(ps) && Gap(g) && (quoted != "" ==> g != "" && quoted[0] == '"')
    ensures ParseLine(line).Some? <==>
            && AllReadable(ps) && Last(ps, "type").Some? && Last(ps, "root").Some?
    ensures ParseLine(line).Some? ==> PointerSays(ps, quoted, ParseLine(line).value)
  {
    PairsSay(ps, g, quoted);
    FieldsApart(ps, g, quoted);
    hide PairsOk, PairsText, AllReadable, Last, PointerSays, ParsePointer;
    PointerTailRead(line, before, after, rest, PairsText(ps) + (g + quoted));
  }

  lemma PointerTailRead(line: string, before: string, after: string, rest: string, tail: string)
    requires Carries(line, before, "pointer" + tail, after, rest) && Apart(tail)
    ensures ParseLine(line) == ParsePointer(tail)
  {
    hide CString, TrimLeft, TrimRight, NextWord, ParsePointer, ParsePlain;
    LineTrimmed(line, before, "pointer" + tail, after, rest);
    WordRead("", "pointer", tail);
    assert "" + ("pointer" + tail) == "pointer" + tail;
    hide Carries, Apart;
  }

  // --- One file, letter by letter ---

  lemma HexExample()
    ensures Hex(0x7f1234567890) == "7f1234567890"
  {
    assert Hex(0x7) == "7";
    assert Hex(0x7f) == "7f";
    assert Hex(0x7f1) == "7f1";
    assert Hex(0x7f12) == "7f12";
    assert Hex(0x7f123) == "7f123";
    assert Hex(0x7f1234) == "7f1234";
    assert Hex(0x7f12345) == "7f12345";
    assert Hex(0x7f123456) == "7f123456";
    assert Hex(0x7f1234567) == "7f1234567";
    assert Hex(0x7f12345678) == "7f12345678";
    assert Hex(0x7f123456789) == "7f123456789";
    assert Hex(0x7f1234567890) == "7f1234567890";
  }

  lemma PaddedExample()
    ensures Hex16(0x7f1234567890) == "0000" + "7f1234567890"
  {
    HexExample();
    assert Zeros(1) == "0";
    assert Zeros(2) == "00";
    assert Zeros(3) == "000";
    assert Zeros(4) == "0000";
    hide Hex, Zeros;
  }

  lemma DineroSaved(e: Entry)
    requires e.address == 0x7f1234567890 && e.kind == I32 && e.description == "dinero" && e.enabled && e.chain == None
    ensures Line(e) == "0x" + ("0000" + "7f1234567890") + " " + "int32" + " " + "1" + " " + ("\"" + "dinero" + "\"")
        + "\n"
  {
    PaddedExample();
    Letters("dinero");
    hide Hex16, CString, Quoted;
  }

  /** Letters are written as they are. */
  lemma {:induction false} Letters(s: string)
    requires forall c :: c in s ==> 'a' <= c <= 'z'
    ensures CString(Quoted(s)) == "\"" + s + "\""
  {
    PlainLetters(s);
    CStringWhole(Quoted(s));
  }

  lemma {:induction false} PlainLetters(s: string)
    requires forall c :: c in s ==> 'a' <= c <= 'z'
    ensures Escaped(s) == s
  {
    if s != "" {
      assert s[0] in s && s == [s[0]] + s[1..] && forall c :: c in s[1..] ==> c in s;
      PlainLetters(s[1..]);
    }
  }

  lemma StepsExample()
    ensures Hex(0x1040) == "1040" && StepsText([0x18, 0x20]) == "0x" + "18" + "," + ("0x" + "20")
  {
    assert Hex(0x1) == "1" && Hex(0x10) == "10" && Hex(0x104) == "104";
    assert Hex(0x18) == "18";
    assert Hex(0x2) == "2" && Hex(0x20) == "20";
    hide Hex;
    assert [0x18, 0x20][1..] == [0x20];
    assert StepsText([0x20]) == "0x" + "20";
  }

  lemma VidaFields(e: Entry)
    requires e.kind == I32 && e.enabled
    requires e.chain == Some(ChainRef(Module("/bin/game", 0x1040), [0x18, 0x20], I32))
    ensures PointerFields(e) == ["pointer", "type=" + "int32", "module=" + "/bin/game", "root=0x" + "1040",
                                 "steps=" + ("0x" + "18" + "," + ("0x" + "20")), "enabled=" + "1"]
  {
    StepsExample();
    CStringWhole("/bin/game");
    ChainFields(e, "/bin/game", "0x" + "18" + "," + ("0x" + "20"));
    hide Hex, StepsText, CString, PointerFields;
  }

  lemma ChainFields(e: Entry, path: string, steps: string)
    requires e.kind == I32 && e.enabled && e.chain.Some? && e.chain.value.root.Module?
    requires CString(e.chain.value.root.path) == path && StepsText(e.chain.value.offsets) == steps
    ensures PointerFields(e) == ["pointer", "type=" + "int32", "module=" + path,
                                 "root=0x" + Hex(e.chain.value.root.offset), "steps=" + steps, "enabled=" + "1"]
  {
    hide Hex, StepsText, CString;
  }

  lemma VidaSaved(e: Entry)
    requires e.kind == I32 && e.description == "vida" && e.enabled
    requires e.chain == Some(ChainRef(Module("/bin/game", 0x1040), [0x18, 0x20], I32))
    ensures Line(e) == "pointer" + " " + ("type=" + "int32" + " " + ("module=" + "/bin/game" + " " + ("root=0x" + "1040"
                       + " " + ("steps=" + ("0x" + "18" + "," + ("0x" + "20")) + " " + ("enabled=" + "1" + " " + "")))))
                       + ("\"" + "vida" + "\"") + "\n"
  {
    Letters("vida");
    VidaFields(e);
    SixSpaced(PointerFields(e));
    hide CString, Quoted, PointerFields, Spaced;
  }

  lemma SixSpaced(ws: seq<string>)
    requires |ws| == 6
    ensures Spaced(ws) ==
        ws[0] + " " + (ws[1] + " " + (ws[2] + " " + (ws[3] + " " + (ws[4] + " " + (ws[5] + " " + "")))))
  {
    assert ws[1..][1..] == ws[2..] && ws[2..][1..] == ws[3..] && ws[3..][1..] == ws[4..] && ws[4..][1..] == ws[5..];
    assert ws[5..][1..] == [];
    assert Spaced(ws[5..]) == ws[5] + " " + "";
    assert Spaced(ws[4..]) == ws[4] + " " + Spaced(ws[5..]);
    assert Spaced(ws[3..]) == ws[3] + " " + Spaced(ws[4..]);
    assert Spaced(ws[2..]) == ws[2] + " " + Spaced(ws[3..]);
  }

  /** The file starts with its comment line. */
  lemma FileSpelled(entries: seq<Entry>)
    ensures FileText(entries) == "# MemoryTool Address Table v1\n" + Lines(entries)
  {
  }

  lemma ExampleWords()
    ensures IsWord("i32") && '\0' !in "i32" && ParseType("i32") == Some(I32)
  {
  }

  lemma ExampleQuoted()
    ensures Quotation("\"" + "dinero" + "\"") && Escaped("dinero") == "dinero"
  {
    PlainLetters("dinero");
    hide Escaped;
  }

  lemma HandWritten(n: Words.Word, padded: string, kind: string, t: DataType, text: string)
    requires padded == Hex16(n) && IsWord(kind) && '\0' !in kind && ParseType(kind) == Some(t)
    requires Escaped(text) == text && Quotation("\"" + text + "\"")
    ensures ParseLine("0x" + padded + " " + kind + " " + "1" + " " + ("\"" + text + "\"") + "")
            == Some(Entry(n, t, text, true, false, None))
  {
    WordRoundTrip(n);
    Hex16Word(n);
    FlagRoundTrip(true);
    FlagWord(true);
    QuoteRoundTrip(text);
    hide ParseWord, ParseType, ParseFlag, ParseLine, Hex16, Unquoted, Escaped, IsWord, Quotation;
    PlainLineParsed("0x" + padded, kind, "1", Quoted(text), "");
  }

  /** The example line of the format's own description. */
  lemma ExampleRead()
    ensures ParseLine("0x" + ("0000" + "7f1234567890") + " " + "i32" + " " + "1" + " " + ("\"" + "dinero" + "\"")
        + "") ==
            Some(Entry(0x7f1234567890, I32, "dinero", true, false, None))
  {
    PaddedExample();
    ExampleWords();
    ExampleQuoted();
    hide ParseType, ParseLine, Hex16, Escaped, IsWord, Quotation;
    HandWritten(0x7f1234567890, "0000" + "7f1234567890", "i32", I32, "dinero");
  }
}
