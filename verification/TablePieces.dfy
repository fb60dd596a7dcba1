/** What the pieces of a line after its first one are read as. */
module TablePieces {
  import opened Memory
  import opened Numerals
  import opened TableText
  import opened TableRoundTrip
  import opened TableFiles
  import opened TableFronts

  // --- Pieces of a description ---

  /** After its first character every quote is escaped or stands last. */
  predicate Guarded(s: string) {
    forall i :: 0 < i < |s| && s[i] == '"' ==> s[i - 1] == '\\' || Blank(s[i + 1..])
  }

  lemma {:induction false} EscapedGuarded(d: string)
    ensures forall i :: 0 <= i < |Escaped(d)| && Escaped(d)[i] == '"' ==> i > 0 && Escaped(d)[i - 1] == '\\'
  {
    if d != "" {
      EscapedGuarded(d[1..]);
      var x, more := EscapedChar(d[0]), Escaped(d[1..]);
      forall i | 0 <= i < |x + more| && (x + more)[i] == '"'
        ensures i > 0 && (x + more)[i - 1] == '\\'
      {
        if i >= |x| {
          assert more[i - |x|] == '"';
        }
      }
    }
  }

  lemma PieceGuarded(d: string, a: nat, b: nat)
    requires a <= b <= |Escaped(d) + "\"\n"|
    ensures Guarded((Escaped(d) + "\"\n")[a..b])
  {
    var e := Escaped(d);
    var q := e + "\"\n";
    var c := q[a..b];
    EscapedGuarded(d);
    hide Escaped;
    forall i | 0 < i < |c| && c[i] == '"'
      ensures c[i - 1] == '\\' || Blank(c[i + 1..])
    {
      assert c[i] == q[a + i] && c[i - 1] == q[a + i - 1];
      if a + i >= |e| {
        assert a + i == |e| && forall k :: i < k < |c| ==> c[k] == q[a + k];
      }
    }
  }

  lemma GuardedPart(s: string, a: nat, b: nat)
    requires Guarded(s) && a <= b <= |s|
    ensures Guarded(s[a..b])
  {
    var c := s[a..b];
    forall i | 0 < i < |c| && c[i] == '"'
      ensures c[i - 1] == '\\' || Blank(c[i + 1..])
    {
      assert s[a + i] == '"' && s[a + i - 1] == c[i - 1];
      if Blank(s[a + i + 1..]) {
        var behind := c[i + 1..];
        forall k | 0 <= k < |behind|
          ensures IsBlank(behind[k])
        {
          assert behind[k] == s[a + i + 1..][k];
        }
      }
    }
  }

  lemma {:induction false} LeftIsSuffix(s: string) returns (k: nat)
    ensures k <= |s| && TrimLeft(s) == s[k..]
  {
    if s != "" && IsBlank(s[0]) {
      k := LeftIsSuffix(s[1..]);
      k := k + 1;
    } else {
      k := 0;
    }
  }

  /** What reading makes of a line before it looks at its words. */
  function Core(line: string): string {
    TrimRight(TrimLeft(CString(line)))
  }

  lemma CoreGuarded(line: string)
    requires Guarded(line)
    ensures Guarded(Core(line))
    ensures Core(line) != "" ==> !IsBlank(Core(line)[|Core(line)| - 1])
  {
    var c := CString(line);
    assert c == line[0..|c|];
    GuardedPart(line, 0, |c|);
    var k := LeftIsSuffix(c);
    assert TrimLeft(c) == c[k..|c|];
    GuardedPart(c, k, |c|);
    var t := TrimLeft(c);
    TrimmedPrefix(t);
    assert TrimRight(t) == t[0..|TrimRight(t)|];
    GuardedPart(t, 0, |TrimRight(t)|);
  }

  /** In a guarded text that ends in no blank a quote that opens a word is its last character. */
  predicate Ends(s: string) {
    forall i :: 0 < i < |s| && s[i] == '"' ==> s[i - 1] == '\\' || i == |s| - 1
  }

  lemma GuardedEnds(s: string)
    requires Guarded(s) && (s != "" ==> !IsBlank(s[|s| - 1]))
    ensures Ends(s)
  {
    forall i | 0 < i < |s| && s[i] == '"'
      ensures s[i - 1] == '\\' || i == |s| - 1
    {
      var behind := s[i + 1..];
      assert behind != "" ==> behind[|behind| - 1] == s[|s| - 1];
    }
  }

  lemma {:induction false} SkippedSpace(s: string) returns (k: nat)
    ensures k <= |s| && SkipSpace(s) == s[k..] && (k > 0 ==> IsSpace(s[k - 1]))
  {
    if s != "" && IsSpace(s[0]) {
      k := SkippedSpace(s[1..]);
      assert k > 0 ==> s[1..][k - 1] == s[k];
      k := k + 1;
    } else {
      k := 0;
    }
  }

  lemma {:induction false} WordEnds(s: string)
    ensures WordLength(s) == |s| || IsSpace(s[WordLength(s)])
  {
    if s != "" && !IsSpace(s[0]) {
      WordEnds(s[1..]);
    }
  }

  lemma EndsBehind(s: string, k: nat)
    requires Ends(s) && k <= |s|
    ensures Ends(s[k..])
  {
  }

  /** After a word such a text goes on with a space. */
  lemma RestEnds(s: string)
    requires Ends(s) && NextWord(s).Some?
    ensures var rest := NextWord(s).value.1; Ends(rest) && (rest != "" ==> rest[0] != '"')
  {
    var k := SkippedSpace(s);
    var t := SkipSpace(s);
    WordEnds(t);
    EndsBehind(s, k);
    EndsBehind(t, WordLength(t));
  }

  lemma {:induction false} FieldsEnd(s: string)
    requires Ends(s) && (s != "" ==> s[0] != '"')
    ensures Fields(s).1 == "" || Fields(s).1 == "\""
    decreases |s|
  {
    if NextWord(s).Some? {
      RestEnds(s);
      var (word, rest) := NextWord(s).value;
      if word[0] == '"' {
        var k := SkippedSpace(s);
        var t := SkipSpace(s);
        assert s[k] == '"' && k > 0 && t == "\"";
        assert word + rest == t;
      } else {
        hide NextWord;
        FieldsEnd(rest);
      }
    }
  }

  lemma OneQuote()
    ensures Unquoted("") == "" && Unquoted("\"") == ""
  {
    assert Inside("\"") == "" && Inside("") == "";
  }

  /** A piece of a description may look like an entry, but a pointer entry found in it has no description. */
  lemma DescriptionPiece(line: string)
    requires Guarded(line) && ParseLine(line).Some? && ParseLine(line).value.chain.Some?
    ensures ParseLine(line).value.description == ""
  {
    CoreGuarded(line);
    var s := Core(line);
    GuardedEnds(s);
    RestEnds(s);
    var (first, rest) := NextWord(s).value;
    FieldsEnd(rest);
    OneQuote();
    hide NextWord, Fields, ApplyKeys, Unquoted, Guarded, Ends;
  }

  // --- Pieces that begin within the fields ---

  /** How the root, the steps and the flag begin, as far as they are there: no type begins like that. */
  predicate Late(word: string) {
    word != "" && (word[0] == 'r' || word[0] == 'e' || (word[0] == 's' && (|word| > 1 ==> word[1] == 't')))
  }

  lemma LateNoType(word: string)
    requires word != "" && (Late(word) || word[0] == '"')
    ensures ParseType(word) == None && ParseWord(word) == None && word != "pointer"
  {
    assert word[0] in word;
  }

  lemma LateKey(k: Keys, word: string)
    requires Late(word) && ApplyKey(k, word).Some?
    ensures ApplyKey(k, word).value.kind == k.kind
  {
    hide ParseType, ParseWord, ParseSteps, ParseFlag;
    var i := Find(word, '=');
    assert word[..i] != "" ==> word[..i][0] == word[0];
  }

  lemma {:induction false} LateKeys(k: Keys, words: seq<string>)
    requires (forall i :: 0 <= i < |words| ==> Late(words[i])) && ApplyKeys(k, words).Some?
    ensures ApplyKeys(k, words).value.kind == k.kind
    decreases |words|
  {
    hide ApplyKey, Late;
    if words != [] {
      LateKey(k, words[0]);
      LateKeys(ApplyKey(k, words[0]).value, words[1..]);
    }
  }

  /** Fields of that kind, then perhaps a quotation, cut anywhere. */
  predicate LateText(s: string) {
    && (forall i :: 0 <= i < |Fields(s).0| ==> Late(Fields(s).0[i]))
    && (NextWord(s).Some? ==> Late(NextWord(s).value.0) || NextWord(s).value.0[0] == '"')
  }

  predicate Opens(q: string) {
    q == "" || q[0] == '"'
  }

  lemma QuoteText(q: string)
    requires Opens(q)
    ensures LateText(q)
  {
    if q != "" {
      assert SkipSpace(q) == q;
    }
  }

  lemma {:induction false} LateWords(words: seq<string>, q: string, m: nat)
    requires (forall i :: 0 <= i < |words| ==> Late(words[i]) && FieldOk(words[i])) && Opens(q)
    requires m <= |Spaced(words) + q|
    ensures LateText((Spaced(words) + q)[..m])
  {
    if words == [] {
      assert (Spaced(words) + q)[..m] == q[..m];
      QuoteText(q[..m]);
    } else {
      var w, rest := words[0], words[1..];
      assert Late(w) && FieldOk(w);
      assert Spaced(words) + q == w + (" " + (Spaced(rest) + q));
      hide LateText, Spaced, FieldOk, Late;
      if m <= |w| {
        assert (Spaced(words) + q)[..m] == w[..m];
        LateWord(w, m);
      } else {
        var k := m - |w| - 1;
        LateWords(rest, q, k);
        assert (Spaced(words) + q)[..m] == w + (" " + (Spaced(rest) + q)[..k]);
        LateFirst(w, (Spaced(rest) + q)[..k]);
      }
    }
  }

  lemma LateWord(w: string, m: nat)
    requires Late(w) && FieldOk(w) && m <= |w|
    ensures LateText(w[..m])
  {
    if m > 0 {
      PrefixOk(w, m);
      LastField(w[..m]);
      NextWordOf(w[..m], "");
      assert w[..m] + "" == w[..m];
      assert Late(w[..m]);
      hide Fields, NextWord, FieldOk, Late;
    }
  }

  lemma LateFirst(w: string, text: string)
    requires Late(w) && FieldOk(w) && LateText(text)
    ensures LateText(w + (" " + text))
  {
    FirstOfFields(w, text);
    NextWordOf(w, " " + text);
    hide Fields, NextWord, Late;
    forall i | 0 <= i < |Fields(w + (" " + text)).0|
      ensures Late(Fields(w + (" " + text)).0[i])
    {
      assert i > 0 ==> Fields(w + (" " + text)).0[i] == Fields(text).0[i - 1];
    }
  }

  /** After any first word such a text makes no entry: there is no type. */
  lemma NothingBehind(first: string, rest: string)
    requires LateText(rest)
    ensures ParsePlain(first, rest) == None && ParsePointer(rest) == None
  {
    if NextWord(rest).Some? {
      LateNoType(NextWord(rest).value.0);
    }
    var k := Keys(None, None, None, [], true);
    var words := Fields(rest).0;
    if ApplyKeys(k, words).Some? {
      LateKeys(k, words);
    }
    hide NextWord, Fields, ApplyKeys, ParseWord, ParseType, ParseFlag, PlainDescription, Late, Unquoted;
  }

  /** Nor does such a text from its own first word on. */
  lemma NothingAtAll(s: string)
    requires LateText(s) && NextWord(s).Some?
    ensures NextWord(s).value.0 != "pointer" && ParsePlain(NextWord(s).value.0, NextWord(s).value.1) == None
  {
    LateNoType(NextWord(s).value.0);
    hide NextWord, Fields, ParseWord, ParseType, ParseFlag, PlainDescription, Late;
  }

  lemma CorePrefix(line: string)
    requires line != "" ==> !IsBlank(line[0])
    ensures Core(line) <= line
  {
    var c := CString(line);
    assert TrimLeft(c) == c;
    TrimmedPrefix(c);
  }

  lemma CoreBlank(line: string)
    ensures ParseLine(" " + line) == ParseLine(line)
  {
    assert (" " + line)[1..] == line;
    assert (" " + CString(line))[1..] == CString(line);
    assert Core(" " + line) == Core(line);
    hide TrimRight, ParsePointer, ParsePlain, NextWord;
  }

  /** A line that is such a text gives nothing. */
  lemma RestPiece(words: seq<string>, q: string, line: string)
    requires (forall i :: 0 <= i < |words| ==> Late(words[i]) && FieldOk(words[i])) && Opens(q)
    requires line <= Spaced(words) + q
    ensures ParseLine(line) == None
  {
    hide *;
    var rest := Spaced(words) + q;
    LateStart(words, q);
    CoreOf(line, rest);
    LateWords(words, q, |Core(line)|);
    LateLine(line);
  }

  lemma LateStart(words: seq<string>, q: string)
    requires (forall i :: 0 <= i < |words| ==> FieldOk(words[i])) && Opens(q)
    ensures Spaced(words) + q != "" ==> !IsBlank((Spaced(words) + q)[0])
  {
    if words != [] {
      assert FieldOk(words[0]) && words[0][0] in words[0];
      assert (Spaced(words) + q)[0] == words[0][0];
    }
  }

  lemma CoreOf(line: string, rest: string)
    requires line <= rest && (rest != "" ==> !IsBlank(rest[0]))
    ensures |Core(line)| <= |rest| && Core(line) == rest[..|Core(line)|]
  {
    CorePrefix(line);
    hide Core;
  }

  lemma LateLine(line: string)
    requires LateText(Core(line))
    ensures ParseLine(line) == None
  {
    if NextWord(Core(line)).Some? {
      NothingAtAll(Core(line));
    }
    hide NextWord, LateText, ParsePlain, ParsePointer, TrimRight, TrimLeft, CString;
  }

  /** Nor does one that begins with the end of a field. */
  lemma FrontPiece(f: string, words: seq<string>, q: string, line: string)
    requires (forall i :: 0 <= i < |words| ==> Late(words[i]) && FieldOk(words[i])) && Opens(q) && Solid(f)
    requires line <= f + (" " + (Spaced(words) + q))
    ensures ParseLine(line) == None
  {
    hide *;
    var rest := Spaced(words) + q;
    if f == "" {
      BehindBlank(line, rest);
      RestPiece(words, q, if line == "" then "" else line[1..]);
    } else {
      SolidStart(f, rest);
      CoreOf(line, f + (" " + rest));
      var m := |Core(line)|;
      CutWord(f, rest, m);
      if m > |f| {
        LateWords(words, q, m - |f| - 1);
        WordThenLate(f, rest[..m - |f| - 1], line);
      } else {
        WordAlone(f, m, line);
      }
    }
  }

  lemma BehindBlank(line: string, rest: string)
    requires line <= "" + (" " + rest)
    ensures (if line == "" then "" else line[1..]) <= rest
    ensures ParseLine(line) == ParseLine(if line == "" then "" else line[1..])
  {
    if line != "" {
      assert line == " " + line[1..];
      CoreBlank(line[1..]);
    }
    hide ParseLine;
  }

  lemma SolidStart(f: string, rest: string)
    requires Solid(f) && f != ""
    ensures !IsBlank((f + (" " + rest))[0]) && IsWord(f)
  {
    assert f[0] in f;
  }

  lemma CutWord(f: string, rest: string, m: nat)
    requires m <= |f + (" " + rest)|
    ensures (f + (" " + rest))[..m] == if m > |f| then f + (" " + rest[..m - |f| - 1]) else f[..m]
  {
  }

  lemma WordThenLate(f: string, text: string, line: string)
    requires IsWord(f) && LateText(text) && Core(line) == f + (" " + text)
    ensures ParseLine(line) == None
  {
    NextWordOf(f, " " + text);
    SkipOne(text);
    hide NextWord, Fields, ParsePlain, ParsePointer, CString, TrimLeft, TrimRight, IsWord;
    NothingBehind(f, " " + text);
  }

  lemma WordAlone(word: string, m: nat, line: string)
    requires Solid(word) && m <= |word| && Core(line) == word[..m]
    ensures ParseLine(line) == None
  {
    var f := word[..m];
    if f != "" {
      NextWordOf(f, "");
      assert f + "" == f;
      QuoteText("");
      NothingBehind(f, "");
    }
    hide NextWord, Fields, ParsePlain, ParsePointer, CString, TrimLeft, TrimRight;
  }

  // --- All later pieces of a line ---

  /** Where the fields go on after a cut: the end of one, then only root, steps and flag. */
  lemma FrontSuffix(e: Entry, a: nat) returns (f: string, words: seq<string>)
    requires Sound(e) && e.chain.Some? && 64 <= a < |Front(e)|
    ensures Front(e)[a..] == f + (" " + Spaced(words)) && Solid(f)
    ensures forall i :: 0 <= i < |words| ==> Late(words[i]) && FieldOk(words[i])
  {
    var all := PointerFields(e);
    FieldsAre(e);
    LeadWords(e);
    assert Front(e) == Spaced(all);
    hide Spaced, FieldOk, Sound, PointerFields, Lead;
    var i, m := SpacedCut(all, a);
    f, words := all[i][m..], all[i + 1..];
    assert FieldOk(all[i]);
    SolidEnd(all[i], m);
    if i < |Lead(e)| {
      assert all[..i] == Lead(e)[..i] && all[i] == Lead(e)[i];
      EarlyCut(e, i, m);
    }
    LateFields(e);
    forall k | 0 <= k < |words|
      ensures Late(words[k]) && FieldOk(words[k])
    {
      assert words[k] == all[i + 1 + k];
    }
  }

  lemma SolidEnd(word: string, m: nat)
    requires FieldOk(word) && m <= |word|
    ensures Solid(word[m..])
  {
  }

  lemma LateFields(e: Entry)
    requires e.chain.Some?
    ensures forall k :: |Lead(e)| <= k < |PointerFields(e)| ==> Late(PointerFields(e)[k])
  {
    FieldsAre(e);
    hide Lead, PointerFields, Hex, StepsText;
    var r, s, f := RootWord(RootValue(e)), StepsWord(e.chain.value.offsets), EnabledWord(e.enabled);
    assert Late(r) && Late(s) && Late(f);
  }

  /** A later piece begins within the fields, and gives nothing, or after the opening quote. */
  lemma LaterPiece(e: Entry, a: nat, n: nat)
    requires Sound(e) && 64 <= a <= a + n <= |Line(e)| && (e.chain.Some? || a > |Front(e)|)
    ensures a <= |Front(e)| ==> ParseLine(Line(e)[a..a + n]) == None
    ensures a > |Front(e)| ==> Guarded(Line(e)[a..a + n])
  {
    hide *;
    SoundClean(e);
    var front, q := Front(e), "\"" + (Escaped(e.description) + "\"\n");
    QuotedLine(e);
    if a > |front| {
      PieceGuarded(e.description, a - |front| - 1, a + n - |front| - 1);
      AfterQuote(front, Escaped(e.description) + "\"\n", a, n);
    } else if a == |front| {
      NoneSpaced();
      AtQuote(front, q, n);
      RestPiece([], q, Line(e)[a..a + n]);
    } else {
      var f, words := FrontSuffix(e, a);
      WithinFront(front, q, a, n, f, Spaced(words));
      FrontPiece(f, words, q, Line(e)[a..a + n]);
    }
  }

  lemma QuotedLine(e: Entry)
    requires Clean(e)
    ensures Line(e) == Front(e) + ("\"" + (Escaped(e.description) + "\"\n"))
    ensures Opens("\"" + (Escaped(e.description) + "\"\n"))
  {
    LineShape(e);
    hide Line, Front, Escaped;
  }

  lemma AfterQuote(front: string, text: string, a: nat, n: nat)
    requires |front| < a && a + n <= |front| + 1 + |text|
    ensures (front + ("\"" + text))[a..a + n] == text[a - |front| - 1..a + n - |front| - 1]
  {
  }

  lemma AtQuote(front: string, q: string, n: nat)
    requires n <= |q|
    ensures (front + q)[|front|..|front| + n] <= "" + q
  {
  }

  lemma WithinFront(front: string, q: string, a: nat, n: nat, f: string, words: string)
    requires a < |front| && a + n <= |front + q| && front[a..] == f + (" " + words)
    ensures (front + q)[a..a + n] <= f + (" " + (words + q))
  {
    assert (front + q)[a..] == front[a..] + q;
    assert front[a..] + q == f + (" " + (words + q));
    assert (front + q)[a..a + n] == (front + q)[a..][..n];
  }

  /** Pointer entries that are read from anything but the first piece of a line have no description. */
  predicate Undescribed(entries: seq<Entry>) {
    forall i :: 0 <= i < |entries| && entries[i].chain.Some? ==> entries[i].description == ""
  }

  lemma UndescribedJoin(a: seq<Entry>, b: seq<Entry>)
    requires Undescribed(a) && Undescribed(b)
    ensures Undescribed(a + b)
  {
  }

  lemma PieceEntries(e: Entry, a: nat, n: nat)
    requires Sound(e) && 64 <= a <= a + n <= |Line(e)| && (e.chain.Some? || a > |Front(e)|)
    ensures Undescribed(Entries(Line(e)[a..a + n]))
    ensures a <= |Front(e)| ==> Entries(Line(e)[a..a + n]) == []
  {
    var line := Line(e)[a..a + n];
    hide Line, Front, ParseLine, Guarded;
    LaterPiece(e, a, n);
    if a > |Front(e)| && ParseLine(line).Some? && ParseLine(line).value.chain.Some? {
      DescriptionPiece(line);
    }
  }

  lemma NoText()
    ensures Escaped("") == ""
  {
  }

  lemma TailsOf(front: string, a: nat)
    requires |front| < a <= |front| + 3
    ensures var line := front + ("\"" + ("" + "\"\n"));
            line[a..] == if a == |front| + 1 then "\"\n" else if a == |front| + 2 then "\n" else ""
  {
  }

  /** Without a description only its closing quote and the newline come after the opening one. */
  lemma EmptyTail(e: Entry, a: nat)
    requires Clean(e) && e.description == "" && |Front(e)| < a <= |Line(e)|
    ensures ParseFile(Line(e)[a..]) == []
  {
    hide *;
    QuotedLine(e);
    NoText();
    TailsOf(Front(e), a);
    TailEmpty("");
    TailEmpty("\"");
    NothingParsed();
    assert "" + "\n" == "\n" && "\"" + "\n" == "\"\n";
  }

  /** The first of the pieces from here on, and where the others begin. */
  lemma NextPiece(line: string, a: nat) returns (n: nat)
    requires OneLine(line) && a < |line|
    ensures a + n <= |line| && (a + n == |line| || n == BUFFER - 1)
    ensures n > 0 && ParseFile(line[a..]) == Entries(line[a..a + n]) + ParseFile(line[a + n..])
  {
    var tail := line[a..];
    RestOneLine(line, a);
    ParsedAlone(tail);
    NothingParsed();
    n := if |tail| < BUFFER then |tail| else BUFFER - 1;
    hide ParseFile, Entries, OneLine;
    assert tail[..n] == line[a..a + n] && tail[n..] == line[a + n..];
    if |tail| < BUFFER {
      assert tail[..n] == tail && line[a + n..] == "";
      assert Entries(tail) + [] == Entries(tail);
    }
  }

  lemma {:induction false} LaterEntries(e: Entry, a: nat)
    requires Sound(e) && BUFFER - 1 <= a <= |Line(e)| && (e.chain.Some? || a > |Front(e)|)
    ensures Undescribed(ParseFile(Line(e)[a..]))
    ensures e.description == "" ==> ParseFile(Line(e)[a..]) == []
    decreases |Line(e)| - a
  {
    hide *;
    SoundClean(e);
    if a == |Line(e)| {
      NothingParsed();
      NothingUndescribed();
      assert Line(e)[a..] == "";
    } else {
      LineOne(e);
      var n := NextPiece(Line(e), a);
      LaterEntries(e, a + n);
      LaterJoin(e, a, n, ParseFile(Line(e)[a + n..]));
    }
  }

  lemma LaterJoin(e: Entry, a: nat, n: nat, more: seq<Entry>)
    requires Sound(e) && BUFFER - 1 <= a <= a + n <= |Line(e)| && (e.chain.Some? || a > |Front(e)|)
    requires ParseFile(Line(e)[a..]) == Entries(Line(e)[a..a + n]) + more
    requires Undescribed(more) && (e.description == "" ==> more == [])
    ensures Undescribed(ParseFile(Line(e)[a..]))
    ensures e.description == "" ==> ParseFile(Line(e)[a..]) == []
  {
    assert BUFFER == 4096;
    hide *;
    PieceEntries(e, a, n);
    UndescribedJoin(Entries(Line(e)[a..a + n]), more);
    SoundClean(e);
    if e.description == "" {
      if a > |Front(e)| {
        EmptyTail(e, a);
      }
    }
  }

  lemma NothingUndescribed()
    ensures Undescribed([])
  {
  }
}
