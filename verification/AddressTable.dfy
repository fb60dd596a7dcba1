/** The address table and the loops that write and read its file (src/address_table.cpp). */
module AddressTable {
  import opened Words
  import opened Memory
  import opened Values
  import opened Resolver
  import opened Numerals
  import opened TableText
  import opened TableFiles
  import opened TableRoundTrip

  // --- Descriptions ---

  lemma QuoteStep(o: string, s: string, i: nat)
    requires i < |s|
    ensures o + Escaped(s[i..]) == (o + EscapedChar(s[i])) + Escaped(s[i + 1..])
  {
    assert s[i..][1..] == s[i + 1..];
  }

  method QuoteDesc(s: string) returns (o: string)
    ensures o == Quoted(s)
  {
    o := "\"";
    var i := 0;
    while i < |s|
      invariant 0 <= i <= |s|
      invariant o + Escaped(s[i..]) == "\"" + Escaped(s)
    {
      hide Escaped;
      QuoteStep(o, s, i);
      var c := s[i];
      if c == '"' {
        o := o + "\\\"";
      } else if c == '\\' {
        o := o + "\\\\";
      } else if c == '\n' {
        o := o + "\\n";
      } else {
        o := o + [c];
      }
      i := i + 1;
    }
    o := o + "\"";
  }

  /** What is left to unescape between i and n. */
  function Left(s: string, i: nat, n: nat): string
    requires n <= |s|
  {
    if i < n then Unescaped(s[i..n]) else ""
  }

  lemma UnquoteStep(o: string, s: string, i: nat, n: nat)
    requires i < n <= |s|
    ensures s[i] == '\\' && i + 1 < n ==>
              o + Left(s, i, n) == (o + [if s[i + 1] == 'n' then '\n' else s[i + 1]]) + Left(s, i + 2, n)
    ensures !(s[i] == '\\' && i + 1 < n) ==> o + Left(s, i, n) == (o + [s[i]]) + Left(s, i + 1, n)
  {
    if s[i] == '\\' && i + 1 < n {
      var c := if s[i + 1] == 'n' then '\n' else s[i + 1];
      assert s[i..n][2..] == s[i + 2..n];
      assert Unescaped(s[i..n]) == [c] + Unescaped(s[i + 2..n]);
      assert i + 2 == n ==> s[i + 2..n] == "" && Unescaped("") == "";
      assert o + ([c] + Left(s, i + 2, n)) == (o + [c]) + Left(s, i + 2, n);
    } else {
      assert s[i..n][1..] == s[i + 1..n];
      assert i + 1 == n ==> s[i + 1..n] == "" && Unescaped("") == "";
      assert o + ([s[i]] + Left(s, i + 1, n)) == (o + [s[i]]) + Left(s, i + 1, n);
    }
  }

  lemma UnquoteStart(s: string, n: nat)
    requires n == if |s| >= 2 && s[|s| - 1] == '"' then |s| - 1 else |s|
    ensures "" + Left(s, 1, n) == Unquoted(s)
  {
  }

  method UnquoteDesc(s: string) returns (o: string)
    ensures o == Unquoted(s)
  {
    hide Unquoted;
    o := "";
    var i := 1;
    var n := |s|;
    if n >= 2 && s[n - 1] == '"' {
      n := n - 1;
    }
    UnquoteStart(s, n);
    while i < n
      invariant o + Left(s, i, n) == Unquoted(s)
    {
      hide Left;
      UnquoteStep(o, s, i, n);
      var c := s[i];
      if c == '\\' && i + 1 < n {
        var next := s[i + 1];
        if next == 'n' {
          o := o + "\n";
        } else {
          o := o + [next];
        }
        i := i + 2;
      } else {
        o := o + [c];
        i := i + 1;
      }
    }
  }

  // --- Writing ---

  /** The steps from i on, with the comma before them. */
  function StepsFrom(offsets: seq<Word>, i: nat): string
    requires i <= |offsets|
  {
    (if 0 < i < |offsets| then "," else "") + StepsText(offsets[i..])
  }

  lemma StepsStep(o: string, offsets: seq<Word>, i: nat)
    requires i < |offsets|
    ensures o + StepsFrom(offsets, i) ==
        ((o + (if i > 0 then "," else "")) + ("0x" + Hex(offsets[i]))) + StepsFrom(offsets, i + 1)
  {
    hide Hex;
    assert offsets[i..][1..] == offsets[i + 1..];
  }

  method WriteSteps(offsets: seq<Word>) returns (o: string)
    ensures o == StepsText(offsets)
  {
    o := "";
    var i := 0;
    assert StepsFrom(offsets, 0) == StepsText(offsets) by {
      assert offsets[0..] == offsets;
    }
    while i < |offsets|
      invariant 0 <= i <= |offsets|
      invariant o + StepsFrom(offsets, i) == StepsText(offsets)
    {
      hide StepsText, StepsFrom, Hex;
      StepsStep(o, offsets, i);
      if i > 0 {
        o := o + ",";
      }
      o := o + ("0x" + Hex(offsets[i]));
      i := i + 1;
    }
  }

  lemma PointerLineText(e: Entry)
    requires e.chain.Some?
    ensures var c := e.chain.value;
            Line(e) == Spaced(["pointer", "type=" + TypeName(e.kind)]) + Spaced(RootFields(c.root))
            + Spaced(["steps=" + StepsText(c.offsets), "enabled=" + (if e.enabled then "1" else "0")])
            + CString(Quoted(e.description)) + "\n"
  {
    hide TypeName, CString, StepsText, Quoted, RootFields, Spaced;
    var c := e.chain.value;
    var first := ["pointer", "type=" + TypeName(e.kind)];
    var last := ["steps=" + StepsText(c.offsets), "enabled=" + (if e.enabled then "1" else "0")];
    SpacedSplit(first + RootFields(c.root), last);
    SpacedSplit(first, RootFields(c.root));
  }

  lemma SpacedRoot(root: Base)
    ensures Spaced(RootFields(root)) ==
            if root.Module? then "module=" + CString(root.path) + " root=0x" + Hex(root.offset) + " "
              else "root=0x" + Hex(root.address) + " "
  {
    hide CString, Hex;
    if root.Module? {
      SpacedPair("module=" + CString(root.path), "root=0x" + Hex(root.offset));
    } else {
      assert RootFields(root) == ["root=0x" + Hex(root.address)];
    }
  }

  lemma SpacedPair(a: string, b: string)
    ensures Spaced([a, b]) == a + " " + b + " "
  {
    assert [a, b][1..] == [b] && [b][1..] == [];
    assert Spaced([b]) == b + " ";
  }

  method WritePointer(e: Entry) returns (o: string)
    requires e.chain.Some?
    ensures o == Line(e)
  {
    hide TypeName, CString, Hex, StepsText, Quoted, Line, Spaced, RootFields;
    var c := e.chain.value;
    PointerLineText(e);
    var first := "pointer type=" + TypeName(e.kind) + " ";
    SpacedPair("pointer", "type=" + TypeName(e.kind));
    assert first == Spaced(["pointer", "type=" + TypeName(e.kind)]);
    SpacedRoot(c.root);
    var root := if c.root.Module? then "module=" + CString(c.root.path) + " root=0x" + Hex(c.root.offset) + " "
      else "root=0x" + Hex(c.root.address) + " ";
    var steps := WriteSteps(c.offsets);
    var flag := if e.enabled then "1" else "0";
    SpacedPair("steps=" + steps, "enabled=" + flag);
    var quoted := QuoteDesc(e.description);
    o := first + root + ("steps=" + steps + " " + ("enabled=" + flag) + " ") + CString(quoted) + "\n";
  }

  method WriteLine(e: Entry) returns (o: string)
    ensures o == Line(e)
  {
    if e.chain.Some? {
      o := WritePointer(e);
    } else {
      var quoted := QuoteDesc(e.description);
      o := "0x" + Hex16(e.address) + " " + TypeName(e.kind) + " " + (if e.enabled then "1" else "0") + " "
        + CString(quoted) + "\n";
    }
  }

  // --- Reading ---

  lemma FieldsMore(words: seq<string>, left: string)
    requires NextWord(left).Some? && NextWord(left).value.0[0] != '"'
    ensures var next := NextWord(left).value;
            words + Fields(left).0 == (words + [next.0]) + Fields(next.1).0 && Fields(left).1 == Fields(next.1).1
  {
    hide NextWord;
  }

  /** The words before the quotation, and the quotation. */
  method SplitFields(rest: string) returns (words: seq<string>, quoted: string)
    ensures (words, quoted) == Fields(rest)
  {
    hide NextWord;
    words, quoted := [], "";
    var left := rest;
    assert [] + Fields(rest).0 == Fields(rest).0;
    while true
      invariant Fields(rest).0 == words + Fields(left).0 && Fields(rest).1 == Fields(left).1 && quoted == ""
      decreases |left|
    {
      var next := NextWord(left);
      if next.None? {
        assert words + [] == words;
        return;
      }
      if next.value.0[0] == '"' {
        assert words + [] == words;
        quoted := next.value.0 + next.value.1;
        return;
      }
      FieldsMore(words, left);
      hide Fields;
      words := words + [next.value.0];
      left := next.value.1;
    }
  }

  /** The steps read so far, and those the rest of the value gives. */
  function Joined(steps: seq<Word>, more: Option<seq<Word>>): Option<seq<Word>> {
    if more.None? then None else Some(steps + more.value)
  }

  lemma StepUnfold(val: string)
    requires val != ""
    ensures var n := Find(val, ',');
            ParseSteps(val) ==
              if n == 0 || ParseWord(val[..n]).None? then None
              else if n == |val| then Some([ParseWord(val[..n]).value])
              else if ParseSteps(val[n + 1..]).None? then None
              else Some([ParseWord(val[..n]).value] + ParseSteps(val[n + 1..]).value)
  {
  }

  lemma JoinOne(steps: seq<Word>, v: Word, more: Option<seq<Word>>)
    ensures Joined(steps, if more.None? then None else Some([v] + more.value)) == Joined(steps + [v], more)
    ensures Joined(steps, Some([v])) == Some(steps + [v])
  {
    if more.Some? {
      assert steps + ([v] + more.value) == (steps + [v]) + more.value;
    }
  }

  lemma ReadStep(steps: seq<Word>, val: string)
    requires val != ""
    ensures var n := Find(val, ',');
            && (n == 0 || ParseWord(val[..n]).None? ==> ParseSteps(val) == None)
            && (n > 0 && ParseWord(val[..n]).Some? ==>
                  && (n == |val| ==> Joined(steps, ParseSteps(val)) == Some(steps + [ParseWord(val[..n]).value]))
                  && (n < |val| ==>
                        Joined(steps, ParseSteps(val)) ==
                        Joined(steps + [ParseWord(val[..n]).value], ParseSteps(val[n + 1..]))))
  {
    hide ParseWord, ParseSteps, Find, Joined;
    StepUnfold(val);
    var n := Find(val, ',');
    if n > 0 && ParseWord(val[..n]).Some? {
      JoinOne(steps, ParseWord(val[..n]).value, if n == |val| then Some([]) else ParseSteps(val[n + 1..]));
    }
  }

  method ReadSteps(val: string) returns (r: Option<seq<Word>>)
    ensures r == ParseSteps(val)
  {
    hide ParseSteps, ParseWord, Find;
    var steps: seq<Word> := [];
    var rest := val;
    JoinedNone(ParseSteps(val));
    while rest != ""
      invariant ParseSteps(val) == Joined(steps, ParseSteps(rest))
      decreases |rest|
    {
      ReadStep(steps, rest);
      var n := Find(rest, ',');
      var part := rest[..n];
      if part == "" {
        return None;
      }
      var v := ParseWord(part);
      if v.None? {
        return None;
      }
      steps := steps + [v.value];
      if n == |rest| {
        return Some(steps);
      }
      rest := rest[n + 1..];
    }
    StepsDone(steps);
    return Some(steps);
  }

  lemma JoinedNone(more: Option<seq<Word>>)
    ensures Joined([], more) == more
  {
    if more.Some? {
      assert [] + more.value == more.value;
    }
  }

  lemma StepsDone(steps: seq<Word>)
    ensures Joined(steps, ParseSteps("")) == Some(steps)
  {
    assert steps + [] == steps;
  }

  method ParsePointerLine(rest: string) returns (r: Option<Entry>)
    ensures r == ParsePointer(rest)
  {
    hide Fields, ParseWord, ParseType, ParseFlag, ParseSteps, Find, Unquoted;
    var words, quoted := SplitFields(rest);
    var kind: Option<DataType>, path: Option<string>, root: Option<Word> := None, None, None;
    var steps: seq<Word>, enabled := [], true;
    var i := 0;
    while i < |words|
      invariant 0 <= i <= |words|
      invariant ApplyKeys(FRESH, words) == ApplyKeys(Keys(kind, path, root, steps, enabled), words[i..])
    {
      var word := words[i];
      assert words[i..][1..] == words[i + 1..];
      var eq := Find(word, '=');
      if eq == |word| {
        return None;
      }
      var key, val := word[..eq], word[eq + 1..];
      if key == "type" {
        kind := ParseType(val);
        if kind.None? || kind.value == Ptr {
          return None;
        }
      } else if key == "module" {
        path := Some(val);
      } else if key == "root" {
        root := ParseWord(val);
        if root.None? {
          return None;
        }
      } else if key == "steps" {
        var more := ReadSteps(val);
        if more.None? {
          return None;
        }
        steps := steps + more.value;
      } else if key == "enabled" {
        var flag := ParseFlag(val);
        if flag.None? {
          return None;
        }
        enabled := flag.value;
      }
      i := i + 1;
    }
    if kind.None? || root.None? {
      return None;
    }
    var base := if path.Some? then Module(path.value, root.value) else Absolute(root.value);
    var description := UnquoteDesc(quoted);
    return Some(Entry(if path.Some? then 0 else root.value, kind.value, description, enabled, false,
                      Some(ChainRef(base, steps, kind.value))));
  }

  method Trimmed(s: string) returns (t: string)
    ensures t == TrimRight(TrimLeft(s))
  {
    var b, e := 0, |s|;
    while b < e && IsBlank(s[b])
      invariant 0 <= b <= e == |s|
      invariant TrimLeft(s) == TrimLeft(s[b..])
    {
      assert s[b..][1..] == s[b + 1..];
      b := b + 1;
    }
    assert TrimLeft(s) == s[b..] == s[b..e];
    while e > b && IsBlank(s[e - 1])
      invariant b <= e <= |s|
      invariant TrimRight(s[b..]) == TrimRight(s[b..e])
    {
      assert s[b..e][..e - b - 1] == s[b..e - 1];
      e := e - 1;
    }
    t := s[b..e];
  }

  method ReadLine(line: string) returns (r: Option<Entry>)
    ensures r == ParseLine(line)
  {
    hide ParsePointer, ParseWord, ParseType, ParseFlag, NextWord, Unquoted, TrimLeft, TrimRight, TrimTabs, CString;
    var s := Trimmed(CString(line));
    if s == "" || s[0] == '#' {
      return None;
    }
    var first := NextWord(s);
    if first.None? {
      return None;
    }
    if first.value.0 == "pointer" {
      r := ParsePointerLine(first.value.1);
      return;
    }
    var kind := NextWord(first.value.1);
    if kind.None? {
      return None;
    }
    var flag := NextWord(kind.value.1);
    if flag.None? {
      return None;
    }
    var address := ParseWord(first.value.0);
    if address.None? {
      return None;
    }
    var t := ParseType(kind.value.0);
    if t.None? {
      return None;
    }
    var enabled := ParseFlag(flag.value.0);
    if enabled.None? {
      return None;
    }
    var d := TrimTabs(flag.value.1);
    if d != "" && d[0] == '"' {
      d := UnquoteDesc(d);
    }
    return Some(Entry(address.value, t.value, d, enabled.value, false, None));
  }

  function Found(e: Option<Entry>): seq<Entry> {
    if e.Some? then [e.value] else []
  }

  lemma FileStep(text: string)
    requires text != ""
    ensures ParseFile(text) == Found(ParseLine(text[..Taken(text)])) + ParseFile(text[Taken(text)..])
  {
    hide ParseLine, Taken;
  }

  lemma LoadStep(loaded: seq<Entry>, text: string)
    requires text != ""
    ensures loaded + ParseFile(text) ==
        (loaded + Found(ParseLine(text[..Taken(text)]))) + ParseFile(text[Taken(text)..])
  {
    hide ParseLine, Taken, ParseFile, Found;
    FileStep(text);
  }

  lemma NothingLeft(loaded: seq<Entry>)
    ensures loaded + ParseFile("") == loaded
  {
  }

  // --- The table ---

  class Table {
    var entries: seq<Entry>

    /** Every pointer entry is as AddPointer built it. */
    predicate Valid()
      reads this
    {
      forall i :: 0 <= i < |entries| ==> Canonical(entries[i])
    }

    constructor ()
      ensures Valid() && entries == []
    {
      entries := [];
    }

    method Add(address: Word, kind: DataType, description: string) returns (index: nat)
      requires Valid()
      modifies this
      ensures Valid() && index == |old(entries)|
      ensures entries == old(entries) + [Entry(address, kind, description, true, false, None)]
    {
      entries := entries + [Entry(address, kind, description, true, false, None)];
      index := |entries| - 1;
    }

    method AddPointer(ref: ChainRef, description: string) returns (index: nat)
      requires Valid()
      modifies this
      ensures Valid() && index == |old(entries)| == |entries| - 1 && entries[..index] == old(entries)
      ensures var e := entries[index];
              e.chain == Some(ref) && e.kind == ref.valueType && e.description == description && e.enabled && !e.stale
    {
      var e := Entry(0, ref.valueType, description, true, false, Some(ref));
      if ref.root.Absolute? {
        e := e.(address := ref.root.address);
      }
      entries := entries + [e];
      index := |entries| - 1;
    }

    method Remove(index: nat) returns (ok: bool)
      requires Valid()
      modifies this
      ensures Valid() && ok == (index < |old(entries)|)
      ensures entries == if ok then old(entries)[..index] + old(entries)[index + 1..] else old(entries)
    {
      if index >= |entries| {
        return false;
      }
      entries := entries[..index] + entries[index + 1..];
      return true;
    }

    method Clear()
      modifies this
      ensures Valid() && entries == []
    {
      entries := [];
    }

    method MarkAllStale()
      requires Valid()
      modifies this
      ensures Valid() && |entries| == |old(entries)|
      ensures forall i :: 0 <= i < |entries| ==> entries[i] == old(entries)[i].(stale := true)
    {
      var i := 0;
      while i < |entries|
        invariant 0 <= i <= |entries| == |old(entries)|
        invariant forall k :: 0 <= k < i ==> entries[k] == old(entries)[k].(stale := true)
        invariant forall k :: i <= k < |entries| ==> entries[k] == old(entries)[k]
      {
        entries := entries[i := entries[i].(stale := true)];
        i := i + 1;
      }
    }

    /** The text of the file that save writes. */
    method Save() returns (text: string)
      ensures text == FileText(entries)
    {
      text := HEADER;
      var i := 0;
      while i < |entries|
        invariant 0 <= i <= |entries|
        invariant text + Lines(entries[i..]) == FileText(entries)
      {
        assert entries[i..][1..] == entries[i + 1..];
        var line := WriteLine(entries[i]);
        text := text + line;
        i := i + 1;
      }
    }

    /** file is None when it cannot be opened; then the table stays as it is. */
    method Load(file: Option<string>) returns (ok: bool)
      requires Valid()
      modifies this
      ensures Valid() && ok == file.Some?
      ensures entries == if ok then ParseFile(file.value) else old(entries)
    {
      if file.None? {
        return false;
      }
      hide ParseLine, ParseFile, Taken, Canonical, Clean, Kept;
      var text := file.value;
      var loaded: seq<Entry> := [];
      assert loaded + ParseFile(text) == ParseFile(text);
      while text != ""
        invariant loaded + ParseFile(text) == ParseFile(file.value)
        decreases |text|
      {
        LoadStep(loaded, text);
        var n := Taken(text);
        var e := ReadLine(text[..n]);
        assert e.None? ==> loaded + [] == loaded;
        if e.Some? {
          loaded := loaded + [e.value];
        }
        text := text[n..];
      }
      NothingLeft(loaded);
      FileLoaded(file.value);
      assert forall i :: 0 <= i < |loaded| ==> Loaded(loaded[i]);
      entries := loaded;
      return true;
    }
  }
}
