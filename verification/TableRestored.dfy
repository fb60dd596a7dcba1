/** Saving and loading whole tables: what comes back, and exactly when everything does. */
module TableRestored {
  import opened Memory
  import opened Values
  import opened Numerals
  import opened TableText
  import opened TableRoundTrip
  import opened TableFiles
  import opened TableFronts
  import opened TablePieces

  // --- Each entry on its own ---

  /** A text that ends with its last line. */
  predicate Ended(text: string) {
    text == "" || text[|text| - 1] == '\n'
  }

  lemma {:induction false} FindSame(text: string, rest: string, c: char)
    requires c in text
    ensures Find(text + rest, c) == Find(text, c) < |text|
  {
    if text[0] != c {
      assert (text + rest)[1..] == text[1..] + rest;
      FindSame(text[1..], rest, c);
    }
  }

  lemma TakenSame(text: string, rest: string)
    requires text != "" && Ended(text)
    ensures text + rest != "" && Taken(text + rest) == Taken(text)
  {
    assert text[|text| - 1] in text;
    FindSame(text, rest, '\n');
  }

  /** No piece reaches over the end of a line. */
  lemma {:induction false} TextByText(text: string, rest: string)
    requires Ended(text)
    ensures ParseFile(text + rest) == ParseFile(text) + ParseFile(rest)
    decreases |text|
  {
    if text == "" {
      assert text + rest == rest;
      assert [] + ParseFile(rest) == ParseFile(rest);
    } else {
      hide ParseLine, Taken;
      TakenSame(text, rest);
      var n := Taken(text);
      assert (text + rest)[..n] == text[..n] && (text + rest)[n..] == text[n..] + rest;
      TextByText(text[n..], rest);
    }
  }

  lemma LineEnded(e: Entry)
    ensures Ended(Line(e))
  {
    hide CString, Spaced, Hex16, TypeName, PointerFields, Quoted;
  }

  /** What is read of each entry's line, one after the other. */
  function Each(entries: seq<Entry>): seq<Entry> {
    if entries == [] then [] else ParseFile(Line(entries[0])) + Each(entries[1..])
  }

  lemma {:induction false} LinesEach(entries: seq<Entry>)
    ensures ParseFile(Lines(entries)) == Each(entries)
  {
    if entries == [] {
      NothingParsed();
    } else {
      hide ParseFile, Line;
      LineEnded(entries[0]);
      TextByText(Line(entries[0]), Lines(entries[1..]));
      LinesEach(entries[1..]);
    }
  }

  /** What a saved table gives back when its lines fit the buffer: the entries that are kept, with stale reset. */
  function Restored(entries: seq<Entry>): seq<Entry> {
    if entries == [] then []
    else (if Kept(entries[0]) then [entries[0].(stale := false)] else []) + Restored(entries[1..])
  }

  /** An entry whose line fits the reading buffer. */
  predicate Writable(e: Entry) {
    Clean(e) && Canonical(e) && |Line(e)| < BUFFER
  }

  lemma WholeLine(e: Entry)
    requires Writable(e)
    ensures ParseFile(Line(e)) == if Kept(e) then [e.(stale := false)] else []
  {
    LineOne(e);
    ParsedAlone(Line(e));
    LineShape(e);
    assert Blank("\n");
    LineReread(e, Quoted(e.description), "\n");
    hide ParseFile, ParseLine, Line, Front, Quoted, Unquoted, Clean, Canonical, Kept;
  }

  lemma {:induction false} EachWritable(entries: seq<Entry>)
    requires forall i :: 0 <= i < |entries| ==> Writable(entries[i])
    ensures Each(entries) == Restored(entries)
  {
    if entries != [] {
      hide ParseFile, Line, Writable, Kept;
      WholeLine(entries[0]);
      EachWritable(entries[1..]);
    }
  }

  /**
   * Save, then load: whatever the entries hold, each line is read for itself; so entries whose lines fit the buffer
   * come back in order where they are kept, with only stale reset.
   */
  lemma SaveThenLoad(entries: seq<Entry>)
    ensures ParseFile(FileText(entries)) == Each(entries)
    ensures (forall i :: 0 <= i < |entries| ==> Writable(entries[i])) ==>
              ParseFile(FileText(entries)) == Restored(entries)
  {
    hide ParseFile, Writable, Restored, Each;
    HeaderSkipped(Lines(entries));
    LinesEach(entries);
    if forall i :: 0 <= i < |entries| ==> Writable(entries[i]) {
      EachWritable(entries);
    }
  }

  // --- One line ---

  /**
   * The line survives the reading buffer. Where the fields alone fill it, there must be no description, and what does
   * not fit must be spare.
   */
  predicate Survives(e: Entry) {
    if e.chain.None? || Short(e) then Fits(e)
    else e.description == "" && Spare(e, |Front(e)| + 1 - BUFFER)
  }

  /** A long front: the first piece is part of it, and no later piece gives a description. */
  lemma LongReread(e: Entry) returns (r: Option<Entry>, more: seq<Entry>)
    requires Sound(e) && e.chain.Some? && !Short(e)
    ensures ParseFile(Line(e)) == (if r.Some? then [r.value] else []) + more
    ensures CutRight(e, BUFFER - 1, r) && Undescribed(more) && (e.description == "" ==> more == [])
  {
    assert BUFFER == 4096;
    LongFirst(e);
    hide *;
    SoundClean(e);
    LineOne(e);
    ParsedAlone(Line(e));
    LaterEntries(e, BUFFER - 1);
    FrontCut(e, BUFFER - 1);
    EntriesAre(Front(e)[..BUFFER - 1]);
    r, more := ParseLine(Front(e)[..BUFFER - 1]), ParseFile(Line(e)[BUFFER - 1..]);
  }

  lemma LongFirst(e: Entry)
    requires Sound(e) && !Short(e)
    ensures |Front(e)| >= BUFFER - 1 && |Line(e)| >= BUFFER && Line(e)[..BUFFER - 1] == Front(e)[..BUFFER - 1]
  {
    LineShape(e);
    hide Line, Front, Quoted;
  }

  lemma EntriesAre(line: string)
    ensures Entries(line) == if ParseLine(line).Some? then [ParseLine(line).value] else []
  {
    hide ParseLine;
  }

  /** Every line gives back its entry and nothing else exactly if it survives. */
  lemma LineSurvives(e: Entry)
    requires Sound(e)
    ensures ParseFile(Line(e)) == [e.(stale := false)] <==> Survives(e)
  {
    if e.chain.None? {
      PlainIsShort(e);
    }
    if Short(e) {
      hide ParseFile, Line, Sound, Fits, Short, Front;
      LineRestored(e);
    } else {
      var r, more := LongReread(e);
      hide ParseFile, Line, Sound, Short, Front, Spare;
      LongSurvives(e, r, more);
    }
  }

  lemma LongSurvives(e: Entry, r: Option<Entry>, more: seq<Entry>)
    requires Sound(e) && e.chain.Some? && |Front(e)| >= BUFFER - 1
    requires CutRight(e, BUFFER - 1, r) && Undescribed(more) && (e.description == "" ==> more == [])
    ensures (if r.Some? then [r.value] else []) + more == [e.(stale := false)] <==>
            e.description == "" && Spare(e, |Front(e)| + 1 - BUFFER)
  {
    hide Sound, Front, Spare;
    var all := (if r.Some? then [r.value] else []) + more;
    var back := e.(stale := false);
    if all == [back] {
      assert all[0] == back;
      assert r.Some? ==> all[0] == r.value;
      assert r.None? ==> all == more;
      assert e.description == "";
    }
    if e.description == "" {
      assert back == e.(stale := false, description := "");
    }
  }

  // --- What the lines give, one after the other ---

  /** A pointer entry whose fields alone fill the buffer. */
  predicate Long(e: Entry) {
    e.chain.Some? && !Short(e)
  }

  lemma NotLong(e: Entry)
    ensures !Long(e) <==> e.chain.None? || Short(e)
    ensures !Long(e) ==> Short(e)
  {
    if e.chain.None? {
      PlainIsShort(e);
    }
    hide Short;
  }

  /** Only its own fields make an entry long. */
  lemma LongFields(x: Entry, e: Entry, d: string)
    requires x == e.(stale := false, description := d)
    ensures Front(x) == Front(e) && Long(x) == Long(e)
  {
    assert x.chain.Some? ==> PointerFields(x) == PointerFields(e);
    hide Spaced, PointerFields, Hex16;
  }

  predicate LongBare(entries: seq<Entry>) {
    forall i :: 0 <= i < |entries| && Long(entries[i]) ==> entries[i].description == ""
  }

  lemma LongBareJoin(a: seq<Entry>, b: seq<Entry>)
    requires LongBare(a) && LongBare(b)
    ensures LongBare(a + b)
  {
    hide Long;
  }

  lemma UndescribedBare(entries: seq<Entry>)
    requires Undescribed(entries)
    ensures LongBare(entries)
  {
    hide Short;
  }

  lemma LeftoverUndescribed(e: Entry)
    requires Sound(e) && Short(e)
    ensures Undescribed(ParseFile(Leftover(e)))
  {
    assert BUFFER == 4096;
    if |Line(e)| < BUFFER {
      hide Line;
      NothingParsed();
    } else {
      hide ParseFile, Line, Front, Undescribed, Sound;
      LaterEntries(e, BUFFER - 1);
    }
  }

  /** No line gives a long entry with a description. */
  lemma LineBare(e: Entry)
    requires Sound(e)
    ensures LongBare(ParseFile(Line(e)))
  {
    hide *;
    NotLong(e);
    if Long(e) {
      LongIs(e);
      var r, more := LongReread(e);
      LongFirstBare(e, r, more);
    } else {
      PieceReread(e);
      LeftoverUndescribed(e);
      var d := Unquoted(TrimRight(Piece(e)));
      var x := e.(stale := false, description := d);
      LongFields(x, e, d);
      UndescribedBare(ParseFile(Leftover(e)));
      OneBare(x);
      LongBareJoin([x], ParseFile(Leftover(e)));
    }
  }

  lemma LongIs(e: Entry)
    ensures Long(e) <==> e.chain.Some? && !Short(e)
    ensures Long(e) ==> |Front(e)| >= BUFFER - 1
  {
    hide Front;
  }

  lemma OneBare(x: Entry)
    requires !Long(x)
    ensures LongBare([x])
  {
  }

  lemma LongFirstBare(e: Entry, r: Option<Entry>, more: seq<Entry>)
    requires e.chain.Some? && BUFFER - 1 <= |Front(e)| && CutRight(e, BUFFER - 1, r) && Undescribed(more)
    ensures LongBare((if r.Some? then [r.value] else []) + more)
  {
    hide Front, Sound, Spare, Short;
  }

  lemma {:induction false} EachBare(entries: seq<Entry>)
    requires forall i :: 0 <= i < |entries| ==> Sound(entries[i])
    ensures LongBare(Each(entries))
  {
    if entries != [] {
      hide ParseFile, Line, Sound, LongBare;
      LineBare(entries[0]);
      EachBare(entries[1..]);
      LongBareJoin(ParseFile(Line(entries[0])), Each(entries[1..]));
    } else {
      hide Long;
    }
  }

  /** A long entry without a description gives nothing or one long entry, and that survives. */
  lemma LongGives(e: Entry)
    requires Sound(e) && Long(e) && e.description == ""
    ensures var p := ParseFile(Line(e)); |p| <= 1 && (p != [] ==> Long(p[0]) && Survives(p[0]))
  {
    assert e.chain.Some? && !Short(e);
    hide *;
    LongIs(e);
    var r, more := LongReread(e);
    LongGiven(e, r);
  }

  lemma LongGiven(e: Entry, r: Option<Entry>)
    requires e.chain.Some? && BUFFER - 1 <= |Front(e)| && CutRight(e, BUFFER - 1, r)
    ensures r.Some? ==> Long(r.value) && Survives(r.value)
  {
    hide Front, Sound, Spare;
  }

  /** A short one gives its own fields first, with its own description just when its line survives. */
  lemma ShortGives(e: Entry)
    requires Sound(e) && !Long(e)
    ensures var p := ParseFile(Line(e));
            p != [] && !Long(p[0]) && (p[0] == e.(stale := false) ==> Survives(e) && p == [e.(stale := false)])
  {
    hide *;
    NotLong(e);
    SoundClean(e);
    PieceReread(e);
    PieceWhole(e);
    var d := Unquoted(TrimRight(Piece(e)));
    var x := e.(stale := false, description := d);
    LongFields(x, e, d);
    if x == e.(stale := false) {
      assert d == e.description;
      LeftoverEmpty(e);
      ShortSurvives(e);
    }
  }

  lemma ShortSurvives(e: Entry)
    requires Fits(e) && (e.chain.None? || Short(e))
    ensures Survives(e)
  {
  }

  // --- The whole table ---

  predicate AllSound(entries: seq<Entry>) {
    forall i :: 0 <= i < |entries| ==> Sound(entries[i])
  }

  predicate AllSurvive(entries: seq<Entry>) {
    forall i :: 0 <= i < |entries| ==> Survives(entries[i])
  }

  lemma AllOfMore(entries: seq<Entry>)
    requires entries != []
    ensures AllSound(entries) <==> Sound(entries[0]) && AllSound(entries[1..])
    ensures AllSurvive(entries) <==> Survives(entries[0]) && AllSurvive(entries[1..])
    ensures LongBare(entries) ==> (Long(entries[0]) ==> entries[0].description == "") && LongBare(entries[1..])
  {
    hide Sound, Survives, Long;
    var rest := entries[1..];
    assert forall i :: 0 < i < |entries| ==> entries[i] == rest[i - 1];
  }

  /** What a long entry that does not survive would be read as is not what the lines give first. */
  lemma {:induction false} NotFirst(entries: seq<Entry>, lost: Entry)
    requires AllSound(entries) && LongBare(entries) && Long(lost) && !Survives(lost)
    ensures Each(entries) != [] ==> Each(entries)[0] != lost
  {
    if entries != [] {
      hide *;
      var e, rest := entries[0], entries[1..];
      AllOfMore(entries);
      NotFirst(rest, lost);
      EachMore(entries);
      if Long(e) {
        LongGives(e);
      } else {
        ShortGives(e);
      }
      FirstOf(ParseFile(Line(e)), Each(rest));
    } else {
      assert Each(entries) == [];
    }
  }

  lemma FirstOf(p: seq<Entry>, rest: seq<Entry>)
    ensures p + rest != [] ==> (p + rest)[0] == if p == [] then rest[0] else p[0]
  {
  }

  lemma FreshSurvives(e: Entry)
    ensures Survives(e.(stale := false)) <==> Survives(e)
    ensures Long(e.(stale := false)) <==> Long(e)
  {
    var x := e.(stale := false);
    LongFields(x, e, e.description);
    SameLine(e);
    hide Front, Line;
  }

  lemma SameLine(e: Entry)
    ensures Line(e.(stale := false)) == Line(e)
  {
    var x := e.(stale := false);
    assert x.chain.Some? ==> PointerFields(x) == PointerFields(e);
    hide Spaced, PointerFields, Hex16, CString, Quoted;
  }

  lemma HeadTail(p: seq<Entry>, rest: seq<Entry>, x: Entry, more: seq<Entry>)
    requires p != [] && p + rest == [x] + more
    ensures p[0] == x && (|p| == 1 ==> p == [x] && rest == more)
  {
    assert (p + rest)[0] == x;
    assert |p| == 1 ==> (p + rest)[1..] == rest && ([x] + more)[1..] == more;
  }

  lemma {:induction false} EachExactly(entries: seq<Entry>)
    requires AllSound(entries) && LongBare(entries)
    ensures Each(entries) == Freshened(entries) <==> AllSurvive(entries)
  {
    if entries != [] {
      var e, rest := entries[0], entries[1..];
      AllOfMore(entries);
      EachMore(entries);
      hide *;
      EachExactly(rest);
      LineSurvives(e);
      if Each(entries) == Freshened(entries) {
        FirstGiven(entries);
      }
    }
  }

  lemma EachMore(entries: seq<Entry>)
    requires entries != []
    ensures Each(entries) == ParseFile(Line(entries[0])) + Each(entries[1..])
    ensures Freshened(entries) == [entries[0].(stale := false)] + Freshened(entries[1..])
  {
    hide ParseFile, Line;
  }

  /** If the lines give the table back, they do so one by one. */
  lemma FirstGiven(entries: seq<Entry>)
    requires entries != [] && AllSound(entries) && LongBare(entries) && Each(entries) == Freshened(entries)
    ensures ParseFile(Line(entries[0])) == [entries[0].(stale := false)]
    ensures Each(entries[1..]) == Freshened(entries[1..])
  {
    hide *;
    var e, rest := entries[0], entries[1..];
    var p := ParseFile(Line(e));
    AllOfMore(entries);
    EachMore(entries);
    FreshSurvives(e);
    LineSurvives(e);
    if Long(e) {
      LongGives(e);
      if p == [] {
        assert Each(rest) == [e.(stale := false)] + Freshened(rest);
        assert Each(rest)[0] == e.(stale := false);
        NotFirst(rest, e.(stale := false));
      }
    } else {
      ShortGives(e);
    }
    HeadTail(p, Each(rest), e.(stale := false), Freshened(rest));
  }

  /** An entry that save and load give back. */
  predicate Restorable(e: Entry) {
    Sound(e) && Survives(e)
  }

  lemma FreshIsSound(entries: seq<Entry>)
    requires forall i :: 0 <= i < |entries| ==> Loaded(Freshened(entries)[i])
    ensures AllSound(entries)
  {
    forall i | 0 <= i < |entries|
      ensures Sound(entries[i])
    {
      assert Loaded(Freshened(entries)[i]) && Freshened(entries)[i] == entries[i].(stale := false);
    }
  }

  lemma BareAsRead(entries: seq<Entry>)
    requires LongBare(Freshened(entries))
    ensures LongBare(entries)
  {
    forall i | 0 <= i < |entries| && Long(entries[i])
      ensures entries[i].description == ""
    {
      FreshSurvives(entries[i]);
      assert Freshened(entries)[i] == entries[i].(stale := false);
    }
    hide Long, Survives;
  }

  lemma SurvivorsBare(entries: seq<Entry>)
    requires AllSurvive(entries)
    ensures LongBare(entries)
  {
    hide Fits, Spare, Short;
  }

  /** A saved table is loaded as it was, only stale reset, exactly when every entry is restorable. */
  lemma RestoredExactly(entries: seq<Entry>)
    ensures ParseFile(FileText(entries)) == Freshened(entries) <==>
        forall i :: 0 <= i < |entries| ==> Restorable(entries[i])
  {
    SaveThenLoad(entries);
    FileLoaded(FileText(entries));
    hide ParseFile, Loaded, Sound, Survives, Freshened, Lines, Each, LongBare;
    if ParseFile(FileText(entries)) == Freshened(entries) {
      FreshIsSound(entries);
      EachBare(entries);
      BareAsRead(entries);
      EachExactly(entries);
    }
    if AllSound(entries) && AllSurvive(entries) {
      SurvivorsBare(entries);
      EachExactly(entries);
    }
  }

  /** Tables of absolute entries: a type of fixed width, no NUL and a line that fits are all it takes. */
  lemma PlainTableExactly(entries: seq<Entry>)
    requires forall i :: 0 <= i < |entries| ==> entries[i].chain.None?
    ensures ParseFile(FileText(entries)) == Freshened(entries) <==>
        forall i :: 0 <= i < |entries| ==>
          FixedWidth(entries[i].kind) && '\0' !in entries[i].description && Fits(entries[i])
  {
    RestoredExactly(entries);
    hide ParseFile, FileText, Freshened, Fits;
    forall i | 0 <= i < |entries|
      ensures Restorable(entries[i]) <==>
                FixedWidth(entries[i].kind) && '\0' !in entries[i].description && Fits(entries[i])
    {
      assert entries[i].chain.None?;
    }
    hide Restorable, FixedWidth;
  }

  /**
   * Whatever file was loaded, saving it and loading that again changes nothing exactly when its lines survive
   * the buffer.
   */
  lemma LoadSaveLoad(text: string)
    ensures ParseFile(FileText(ParseFile(text))) == ParseFile(text) <==>
              forall i :: 0 <= i < |ParseFile(text)| ==> Survives(ParseFile(text)[i])
  {
    var entries := ParseFile(text);
    FileLoaded(text);
    assert forall i :: 0 <= i < |entries| ==> Loaded(entries[i]);
    assert Freshened(entries) == entries;
    hide ParseFile, FileText, Survives, Clean, Canonical, Kept, Freshened;
    RestoredExactly(entries);
  }

  // --- A table that does not come back ---

  function Letters(n: nat): string {
    if n == 0 then "" else "a" + Letters(n - 1)
  }

  lemma {:induction false} LettersSpec(n: nat)
    ensures |Letters(n)| == n && Escaped(Letters(n)) == Letters(n) && '\0' !in Letters(n)
    ensures n > 0 ==> Letters(n)[n - 1] == 'a'
  {
    if n > 0 {
      LettersSpec(n - 1);
      assert Letters(n)[1..] == Letters(n - 1);
    } else {
      assert Escaped("") == "";
    }
  }

  function Described(n: nat): Entry {
    Entry(0, I32, Letters(n), true, false, None)
  }

  lemma DescribedSound(n: nat)
    ensures Sound(Described(n))
  {
    LettersSpec(n);
    hide Letters;
  }

  lemma DescribedFront(n: nat)
    ensures |Front(Described(n))| == 27
  {
    PaddedLength(0);
    hide Hex16, Letters;
  }

  lemma DescribedLine(n: nat)
    ensures |Line(Described(n))| == n + 30
  {
    assert Described(n).description == Letters(n);
    hide *;
    DescribedSound(n);
    SoundClean(Described(n));
    LettersSpec(n);
    DescribedFront(n);
    QuotedLine(Described(n));
  }

  /** One entry described by the letter a, n times over: up to 4067 times it comes back, from then on it does not. */
  lemma LongDescriptionLost(n: nat)
    ensures Sound(Described(n))
    ensures ParseFile(FileText([Described(n)])) == [Described(n)] <==> n <= 4067
  {
    var e := Described(n);
    DescribedSound(n);
    DescribedLine(n);
    LettersSpec(n);
    assert Fits(e) <==> n <= 4067 by { hide Line, Letters; }
    OneEntry(e);
  }

  lemma OneEntry(e: Entry)
    requires Sound(e) && e.chain.None? && !e.stale
    ensures ParseFile(FileText([e])) == [e] <==> Fits(e)
  {
    RestoredExactly([e]);
    assert e.(stale := false) == e;
    assert Freshened([e]) == [e] by { hide ParseFile; assert [e][1..] == []; }
    hide ParseFile, FileText, Fits, Sound;
    assert [e][0] == e;
  }
}
