/** What loading any text gives, and what saving and loading one line gives back through the reading buffer. */
module TableFiles {
  import opened Memory
  import opened Values
  import opened Numerals
  import opened TableText
  import opened TableRoundTrip

  // --- Any file at all ---

  lemma {:induction false} UnescapedNulFree(s: string)
    requires '\0' !in s
    ensures '\0' !in Unescaped(s)
    decreases |s|
  {
    if s == "" {
    } else if s[0] == '\\' && |s| > 1 {
      UnescapedNulFree(s[2..]);
    } else {
      UnescapedNulFree(s[1..]);
    }
  }

  lemma {:induction false} TrimmedNulFree(s: string)
    requires '\0' !in s
    ensures '\0' !in TrimLeft(s) && '\0' !in TrimRight(s) && '\0' !in TrimTabs(s) && '\0' !in SkipSpace(s)
    decreases |s|
  {
    if s != "" {
      TrimmedNulFree(s[1..]);
      TrimmedNulFree(s[..|s| - 1]);
    }
  }

  lemma {:induction false} WordSolid(s: string)
    requires '\0' !in s
    ensures Solid(s[..WordLength(s)])
  {
    if s != "" && !IsSpace(s[0]) {
      WordSolid(s[1..]);
      assert s[..WordLength(s)] == [s[0]] + s[1..][..WordLength(s[1..])];
    }
  }

  lemma NextWordSolid(s: string)
    requires '\0' !in s && NextWord(s).Some?
    ensures Solid(NextWord(s).value.0) && '\0' !in NextWord(s).value.1
  {
    TrimmedNulFree(s);
    WordSolid(SkipSpace(s));
  }

  lemma {:induction false} FieldsSolid(s: string)
    requires '\0' !in s
    ensures forall i :: 0 <= i < |Fields(s).0| ==> Solid(Fields(s).0[i])
    ensures '\0' !in Fields(s).1
    decreases |s|
  {
    if NextWord(s).Some? {
      NextWordSolid(s);
      hide NextWord;
      if NextWord(s).value.0[0] != '"' {
        FieldsSolid(NextWord(s).value.1);
      }
    }
  }

  /** The path, if any, is a word of the line, and the type is one that a value can have. */
  predicate KeysOk(k: Keys) {
    (k.path.Some? ==> Solid(k.path.value)) && (k.kind.Some? ==> FixedWidth(k.kind.value) && k.kind.value != Ptr)
  }

  lemma ParseTypeFixed(s: string)
    ensures ParseType(s).Some? ==> FixedWidth(ParseType(s).value)
  {
  }

  lemma ApplyNamedOk(k: Keys, key: string, val: string)
    requires KeysOk(k) && Solid(val) && ApplyNamed(k, key, val).Some?
    ensures KeysOk(ApplyNamed(k, key, val).value)
  {
    ParseTypeFixed(val);
    hide ParseType, ParseWord, ParseSteps, ParseFlag, Solid;
  }

  lemma ApplyKeyOk(k: Keys, word: string)
    requires KeysOk(k) && Solid(word) && ApplyKey(k, word).Some?
    ensures KeysOk(ApplyKey(k, word).value)
  {
    hide KeysOk, ApplyNamed, Find;
    var i := Find(word, '=');
    ApplyNamedOk(k, word[..i], word[i + 1..]);
  }

  lemma {:induction false} ApplyKeysOk(k: Keys, words: seq<string>)
    requires KeysOk(k) && ApplyKeys(k, words).Some? && forall i :: 0 <= i < |words| ==> Solid(words[i])
    ensures KeysOk(ApplyKeys(k, words).value)
    decreases |words|
  {
    if words != [] {
      hide ApplyKey, KeysOk, Solid;
      ApplyKeyOk(k, words[0]);
      ApplyKeysOk(ApplyKey(k, words[0]).value, words[1..]);
    }
  }

  /** What loading a line can produce. */
  predicate Loaded(e: Entry) {
    Clean(e) && Canonical(e) && Kept(e) && !e.stale
  }

  lemma UnquotedNulFree(s: string)
    requires '\0' !in s
    ensures '\0' !in Unquoted(s)
  {
    UnescapedNulFree(Inside(s));
  }

  lemma PointerLoaded(rest: string)
    requires '\0' !in rest && ParsePointer(rest).Some?
    ensures Loaded(ParsePointer(rest).value)
  {
    hide Fields, ApplyKeys, Unquoted, Solid;
    FieldsSolid(rest);
    ApplyKeysOk(FRESH, Fields(rest).0);
    UnquotedNulFree(Fields(rest).1);
  }

  lemma PlainLoaded(first: string, rest: string)
    requires '\0' !in rest
    ensures ParsePlain(first, rest).Some? ==> Loaded(ParsePlain(first, rest).value)
  {
    if ParsePlain(first, rest).Some? {
      var kind := NextWord(rest).value;
      NextWordSolid(rest);
      NextWordSolid(kind.1);
      ParseTypeFixed(kind.0);
      var d := NextWord(kind.1).value.1;
      TrimmedNulFree(d);
      UnquotedNulFree(TrimTabs(d));
      hide NextWord, ParseType, ParseWord, ParseFlag, Unquoted, TrimTabs;
    }
  }

  lemma LineLoaded(line: string)
    requires ParseLine(line).Some?
    ensures Loaded(ParseLine(line).value)
  {
    hide ParsePointer, ParsePlain, NextWord, Loaded, TrimLeft, TrimRight, CString;
    TrimmedNulFree(CString(line));
    TrimmedNulFree(TrimLeft(CString(line)));
    var s := TrimRight(TrimLeft(CString(line)));
    NextWordSolid(s);
    var w := NextWord(s).value;
    if w.0 == "pointer" {
      PointerLoaded(w.1);
    } else {
      PlainLoaded(w.0, w.1);
    }
  }

  lemma {:induction false} FileLoaded(text: string)
    ensures forall i :: 0 <= i < |ParseFile(text)| ==> Loaded(ParseFile(text)[i])
    decreases |text|
  {
    if text != "" {
      hide ParseLine, Loaded, Taken;
      var line := text[..Taken(text)];
      if ParseLine(line).Some? {
        LineLoaded(line);
      }
      FileLoaded(text[Taken(text)..]);
    }
  }

  // --- A description cut short ---

  /**
   * Of an escaped description only the whole is read back as the description, or all but one half of a last
   * backslash.
   */
  lemma {:induction false} EscapedCut(d: string, c: nat)
    requires c <= |Escaped(d)|
    ensures Unescaped(Escaped(d)[..c]) == d <==>
              c == |Escaped(d)| || (c == |Escaped(d)| - 1 && d != "" && d[|d| - 1] == '\\')
  {
    if d != "" {
      var e, more := EscapedChar(d[0]), Escaped(d[1..]);
      if c >= |e| {
        EscapedCut(d[1..], c - |e|);
        UnescapeOne(d[0], more[..c - |e|]);
        assert (e + more)[..c] == e + more[..c - |e|];
        assert d == [d[0]] + d[1..];
        SameTail(d[0], Unescaped(more[..c - |e|]), d[1..]);
        assert d[1..] == "" ==> more == "";
      } else if c == 1 {
        assert (e + more)[..c] == "\\";
        assert Unescaped("\\") == "\\" + Unescaped("");
      }
    }
  }

  lemma UnescapeOne(x: char, rest: string)
    ensures Unescaped(EscapedChar(x) + rest) == [x] + Unescaped(rest)
  {
    assert (EscapedChar(x) + rest)[|EscapedChar(x)|..] == rest;
  }

  lemma SameTail(x: char, a: string, b: string)
    ensures [x] + a == [x] + b <==> a == b
  {
    assert ([x] + a)[1..] == a && ([x] + b)[1..] == b;
  }

  /** What unquoting sees of a quotation without its closing quote: nothing blank and no quote at the end. */
  function Stripped(s: string): string {
    var t := TrimRight(s);
    if t != "" && t[|t| - 1] == '"' then t[..|t| - 1] else t
  }

  lemma {:induction false} TrimmedPrefix(s: string)
    ensures TrimRight(s) <= s && Blank(s[|TrimRight(s)|..])
    ensures TrimRight(s) != "" ==> !IsBlank(TrimRight(s)[|TrimRight(s)| - 1])
  {
    if s != "" && IsBlank(s[|s| - 1]) {
      var front := s[..|s| - 1];
      TrimmedPrefix(front);
      var t := TrimRight(front);
      assert TrimRight(s) == t && s[|t|..] == front[|t|..] + [s[|s| - 1]];
    }
  }

  lemma StrippedPrefix(s: string)
    ensures Stripped(s) <= s
    ensures s != "" && !IsBlank(s[|s| - 1]) && s[|s| - 1] != '"' ==> Stripped(s) == s
    ensures s != "" && (IsBlank(s[|s| - 1]) || s[|s| - 1] == '"') ==> |Stripped(s)| < |s|
  {
    TrimmedPrefix(s);
    if s != "" && IsBlank(s[|s| - 1]) {
      TrimmedPrefix(s[..|s| - 1]);
    }
  }

  lemma {:induction false} TrimQuote(x: string)
    ensures TrimRight("\"" + x) == "\"" + TrimRight(x)
  {
    var q := "\"" + x;
    if x == "" {
    } else {
      assert q[..|q| - 1] == "\"" + x[..|x| - 1];
      if IsBlank(x[|x| - 1]) {
        TrimQuote(x[..|x| - 1]);
      }
    }
  }

  lemma InsideQuote(y: string)
    ensures Inside("\"" + y) == if y != "" && y[|y| - 1] == '"' then y[..|y| - 1] else y
  {
    var s := "\"" + y;
    assert y != "" ==> s[1..] == y && s[1..|s| - 1] == y[..|y| - 1];
  }

  /** What the description becomes when only k characters of its quotation are read. */
  lemma CutUnquoted(d: string, k: nat)
    requires 1 <= k <= |Escaped(d)| + 1
    ensures var t := TrimRight(Quoted(d)[..k]);
            && t != "" && t[0] == '"' && Unquoted(t) == Unescaped(Stripped(Escaped(d)[..k - 1]))
  {
    var x := Escaped(d)[..k - 1];
    assert Quoted(d)[..k] == "\"" + x;
    TrimQuote(x);
    InsideQuote(TrimRight(x));
    hide Escaped, Unescaped, TrimRight, Inside;
  }

  /** An escaped text ends as its last character is escaped. */
  lemma {:induction false} LastEscaped(d: string)
    requires d != ""
    ensures var e := EscapedChar(d[|d| - 1]);
            |e| <= |Escaped(d)| && Escaped(d)[|Escaped(d)| - |e|..] == e
  {
    if |d| > 1 {
      LastEscaped(d[1..]);
    } else {
      assert Escaped(d[1..]) == "";
    }
  }

  /** A description read without its closing quote loses a blank or a quote at its end. */
  predicate BadEnd(d: string) {
    d != "" && d[|d| - 1] in {' ', '\t', '\r', '"'}
  }

  lemma StrippedCut(d: string, m: nat)
    requires m <= |Escaped(d)|
    ensures Unescaped(Stripped(Escaped(d)[..m])) == d <==>
              (m == |Escaped(d)| && !BadEnd(d)) || (m == |Escaped(d)| - 1 && d != "" && d[|d| - 1] == '\\')
  {
    var e := Escaped(d);
    var u := Stripped(e[..m]);
    StrippedPrefix(e[..m]);
    assert u == e[..|u|];
    EscapedCut(d, |u|);
    EscapedEnd(d);
    hide *;
  }

  /** How an escaped text ends. */
  lemma EscapedEnd(d: string)
    ensures d == "" <==> Escaped(d) == ""
    ensures d != "" ==>
              var last := Escaped(d)[|Escaped(d)| - 1];
              && (BadEnd(d) <==> IsBlank(last) || last == '"')
              && (d[|d| - 1] == '\\' ==> |Escaped(d)| > 1 && last == '\\' == Escaped(d)[|Escaped(d)| - 2])
  {
    if d != "" {
      LastEscaped(d);
      var e, x := Escaped(d), EscapedChar(d[|d| - 1]);
      assert e[|e| - 1] == x[|x| - 1] && (|x| == 2 ==> e[|e| - 2] == x[0]);
      hide Escaped;
    }
  }

  // --- One line, in one piece or several ---

  /** What save and load bring back at all. */
  predicate Sound(e: Entry) {
    Clean(e) && Canonical(e) && Kept(e)
  }

  lemma SoundClean(e: Entry)
    requires Sound(e)
    ensures Clean(e)
  {
  }

  /** At least the opening quote of the description is in the first piece. */
  predicate Short(e: Entry) {
    |Front(e)| + 1 < BUFFER
  }

  lemma PlainIsShort(e: Entry)
    requires e.chain.None?
    ensures Short(e)
  {
    PaddedLength(e.address);
    assert |TypeName(e.kind)| < 10;
    hide Hex16;
  }

  /** The part of the quotation that the first piece holds. */
  function Piece(e: Entry): string
    requires Short(e)
  {
    var q := Quoted(e.description);
    if |Line(e)| < BUFFER || |q| <= BUFFER - 1 - |Front(e)| then q else q[..BUFFER - 1 - |Front(e)|]
  }

  /** What comes after the first piece. */
  function Leftover(e: Entry): string {
    if |Line(e)| < BUFFER then "" else Line(e)[BUFFER - 1..]
  }

  lemma FirstPiece(e: Entry)
    requires Clean(e) && Short(e)
    ensures Piece(e) != "" && Piece(e)[0] == '"' && '\0' !in Piece(e)
    ensures |Line(e)| < BUFFER ==> Line(e) == Front(e) + Piece(e) + "\n"
    ensures |Line(e)| >= BUFFER ==> Line(e)[..BUFFER - 1] == Front(e) + Piece(e) + ""
  {
    LineShape(e);
    hide Line, Front, Quoted;
    var f, q := Front(e), Quoted(e.description);
    assert |Line(e)| >= BUFFER ==> Line(e)[..BUFFER - 1] == f + q[..BUFFER - 1 - |f|];
  }

  lemma Regrouped(front: string, text: string, blanks: string, tail: string)
    ensures front + (text + blanks) + tail == front + text + (blanks + tail)
  {
  }

  lemma BlankJoin(a: string, b: string)
    requires Blank(a) && Blank(b)
    ensures Blank(a + b)
  {
  }

  lemma SplitBlanks(p: string)
    requires p != "" && p[0] == '"' && '\0' !in p
    ensures var t := TrimRight(p);
            t <= p && p == t + p[|t|..] && Blank(p[|t|..]) && Quotation(t)
  {
    TrimmedPrefix(p);
    TrimmedNulFree(p);
    QuoteKept(p);
    hide TrimRight;
  }

  lemma EntriesOf(e: Entry, line: string, quoted: string)
    requires Kept(e) && ParseLine(line) == Reread(e, quoted)
    ensures Entries(line) == [e.(stale := false, description := Unquoted(quoted))]
  {
    hide ParseLine, Unquoted, Kept;
  }

  /** A piece of a line: blanks at its end go, the rest is read. */
  lemma PieceParsed(e: Entry, p: string, tail: string)
    requires Sound(e) && p != "" && p[0] == '"' && '\0' !in p && Blank(tail)
    ensures Entries(Front(e) + p + tail) == [e.(stale := false, description := Unquoted(TrimRight(p)))]
  {
    assert Clean(e) && Canonical(e) && Kept(e);
    hide *;
    var t := TrimRight(p);
    SplitBlanks(p);
    var blanks := p[|t|..];
    BlankJoin(blanks, tail);
    Regrouped(Front(e), t, blanks, tail);
    LineReread(e, t, blanks + tail);
    EntriesOf(e, Front(e) + p + tail, t);
  }

  /** The first piece gives the entry, with as much of its description as was read. */
  lemma PieceReread(e: Entry)
    requires Sound(e) && Short(e)
    ensures ParseFile(Line(e)) ==
            [e.(stale := false, description := Unquoted(TrimRight(Piece(e))))] + ParseFile(Leftover(e))
  {
    SoundClean(e);
    FirstPiece(e);
    assert Blank("") && Blank("\n");
    assert |Line(e)| >= BUFFER ==> Leftover(e) == Line(e)[BUFFER - 1..];
    assert |Line(e)| < BUFFER ==> Leftover(e) == "";
    hide *;
    LineOne(e);
    ParsedAlone(Line(e));
    NothingParsed();
    PieceParsed(e, Piece(e), if |Line(e)| < BUFFER then "\n" else "");
  }

  lemma QuoteKept(p: string)
    requires p != "" && p[0] == '"'
    ensures TrimRight(p) != "" && TrimRight(p)[0] == '"'
  {
    TrimQuote(p[1..]);
    assert p == "\"" + p[1..];
  }

  /**
   * A line survives the buffer: it fits, with or without its newline, or what is cut off is just its
   * closing quote, after nothing that reading would trim, or that and one half of an escaped backslash.
   */
  predicate Fits(e: Entry) {
    var d := e.description;
    || |Line(e)| <= BUFFER
    || (|Line(e)| == BUFFER + 1 && !BadEnd(d))
    || (|Line(e)| == BUFFER + 2 && d != "" && d[|d| - 1] == '\\')
  }

  /** How much of the quotation the first piece holds, in terms of the line's length. */
  lemma PieceCut(e: Entry)
    requires Clean(e) && Short(e)
    ensures |Line(e)| <= BUFFER ==> Piece(e) == Quoted(e.description)
    ensures |Line(e)| > BUFFER ==>
              var k := |Quoted(e.description)| - (|Line(e)| - BUFFER);
              1 <= k <= |Escaped(e.description)| + 1 && Piece(e) == Quoted(e.description)[..k]
  {
    LineShape(e);
    assert |Quoted(e.description)| == |Escaped(e.description)| + 2;
    hide Line, Front, Quoted, Escaped;
  }

  lemma WholeQuote(d: string)
    ensures TrimRight(Quoted(d)) == Quoted(d) && |Quoted(d)| == |Escaped(d)| + 2 && Unquoted(Quoted(d)) == d
  {
    QuoteRoundTrip(d);
    assert Quoted(d)[|Quoted(d)| - 1] == '"';
    hide Escaped, Unquoted, Quoted;
  }

  /** The two cuts that a line survives, by how many characters the quotation loses. */
  lemma FitsMeans(e: Entry)
    ensures |Line(e)| <= BUFFER ==> Fits(e)
    ensures |Line(e)| > BUFFER ==>
              var cut, d := |Line(e)| - BUFFER, e.description;
              Fits(e) <==> (cut == 1 && !BadEnd(d)) || (cut == 2 && d != "" && d[|d| - 1] == '\\')
  {
    hide Line, BadEnd;
  }

  lemma PieceWhole(e: Entry)
    requires Clean(e) && Short(e)
    ensures Unquoted(TrimRight(Piece(e))) == e.description <==> Fits(e)
  {
    hide *;
    PieceCut(e);
    FitsMeans(e);
    var d := e.description;
    WholeQuote(d);
    if |Line(e)| > BUFFER {
      var k := |Quoted(d)| - (|Line(e)| - BUFFER);
      CutUnquoted(d, k);
      StrippedCut(d, k - 1);
    }
  }

  lemma LastOf(front: string, q: string)
    requires |q| >= 2
    ensures var line := front + q + "\n";
            && line[|line| - 1..] == "" + "\n" && line[|line| - 2..] == [q[|q| - 1]] + "\n"
            && line[|line| - 3..] == [q[|q| - 2], q[|q| - 1]] + "\n"
  {
  }

  lemma LeftoverLength(e: Entry)
    requires Clean(e) && Short(e) && Fits(e)
    ensures Leftover(e) == "" || Leftover(e) == Line(e)[|Line(e)| - 1..] || Leftover(e) == Line(e)[|Line(e)| - 2..]
            || (Leftover(e) == Line(e)[|Line(e)| - 3..] && e.description != ""
                && e.description[|e.description| - 1] == '\\')
  {
    assert BUFFER == 4096;
    hide Line, Front;
  }

  /** What is left over of a line that survives gives no entry. */
  lemma LeftoverEmpty(e: Entry)
    requires Clean(e) && Short(e) && Fits(e)
    ensures ParseFile(Leftover(e)) == []
  {
    LeftoverLength(e);
    LineShape(e);
    var d, q := e.description, Quoted(e.description);
    EscapedEnd(d);
    assert q[|q| - 1] == '"';
    assert d != "" && d[|d| - 1] == '\\' ==> q[|q| - 2] == '\\';
    hide *;
    LastOf(Front(e), q);
    if Leftover(e) == "" {
      NothingParsed();
    } else if Leftover(e) == Line(e)[|Line(e)| - 1..] {
      TailEmpty("");
    } else if Leftover(e) == Line(e)[|Line(e)| - 2..] {
      TailEmpty("\"");
    } else {
      TailEmpty("\\\"");
    }
  }

  /** A line of one word that is no keyword gives no entry. */
  lemma TailEmpty(word: string)
    requires word == "" || word == "\"" || word == "\\\""
    ensures ParseFile(word + "\n") == []
  {
    LineEnds(word);
    ParsedAlone(word + "\n");
    WordOnly(word);
    hide ParseFile, ParseLine;
  }

  lemma WordOnly(word: string)
    requires word == "" || word == "\"" || word == "\\\""
    ensures ParseLine(word + "\n") == None
  {
    if word == "" {
      assert TrimLeft("\n") == "" by { assert "\n"[1..] == ""; }
    } else {
      TrimLine(word, "\n");
      NextWordOf(word, "");
      assert word + "" == word;
      hide TrimLeft, TrimRight, CString;
    }
  }

  /** Exactly the lines that survive the buffer give their entry and nothing else. */
  lemma LineRestored(e: Entry)
    requires Sound(e) && Short(e)
    ensures |ParseFile(Line(e))| > 0
    ensures ParseFile(Line(e)) == [e.(stale := false)] <==> Fits(e)
  {
    SoundClean(e);
    PieceReread(e);
    PieceWhole(e);
    hide *;
    var x := e.(stale := false, description := Unquoted(TrimRight(Piece(e))));
    if Fits(e) {
      LeftoverEmpty(e);
    }
    HeadOnly(x, e.(stale := false), ParseFile(Leftover(e)));
  }

  lemma HeadOnly(x: Entry, y: Entry, rest: seq<Entry>)
    ensures [x] + rest == [y] <==> x == y && rest == []
  {
    assert ([x] + rest)[0] == x;
  }

  /** Read on its own, exactly the line of a sound entry is that entry. */
  lemma LineExactly(e: Entry)
    ensures ParseLine(Line(e)) == Some(e.(stale := false)) <==> Sound(e)
  {
    if Sound(e) {
      if e.chain.Some? {
        PointerRoundTrip(e);
      } else {
        PlainRoundTrip(e);
      }
    }
    if ParseLine(Line(e)) == Some(e.(stale := false)) {
      LineLoaded(Line(e));
    }
    hide ParseLine, Line, Solid;
  }
}
