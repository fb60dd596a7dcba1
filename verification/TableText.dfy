/** The text format of the address table as functions (src/address_table.cpp). */
module TableText {
  import opened Words
  import opened Memory
  import opened Values
  import opened Resolver
  import opened Numerals

  datatype Entry = Entry(address: Word, kind: DataType, description: string, enabled: bool, stale: bool,
                         chain: Option<ChainRef>)

  // --- Type names ---

  function TypeName(t: DataType): string {
    match t
    case I8 => "int8"
    case U8 => "uint8"
    case I16 => "int16"
    case U16 => "uint16"
    case I32 => "int32"
    case U32 => "uint32"
    case I64 => "int64"
    case U64 => "uint64"
    case F32 => "float"
    case F64 => "double"
    case Ptr => "pointer"
    case Text => "string"
    case RawBytes => "bytes"
  }

  /** The alias table; string and bytes are not in it. */
  function ParseType(s: string): Option<DataType> {
    if s == "i8" || s == "int8" || s == "s8" then Some(I8)
    else if s == "u8" || s == "uint8" || s == "byte" then Some(U8)
    else if s == "i16" || s == "int16" || s == "s16" then Some(I16)
    else if s == "u16" || s == "uint16" then Some(U16)
    else if s == "i32" || s == "int32" || s == "int" then Some(I32)
    else if s == "u32" || s == "uint32" || s == "uint" then Some(U32)
    else if s == "i64" || s == "int64" || s == "long" then Some(I64)
    else if s == "u64" || s == "uint64" || s == "ulong" then Some(U64)
    else if s == "f32" || s == "float" then Some(F32)
    else if s == "f64" || s == "double" then Some(F64)
    else if s == "ptr" || s == "pointer" then Some(Ptr)
    else None
  }

  predicate FixedWidth(t: DataType) {
    t != Text && t != RawBytes
  }

  // --- Descriptions ---

  function EscapedChar(c: char): string {
    if c == '"' then "\\\"" else if c == '\\' then "\\\\" else if c == '\n' then "\\n" else [c]
  }

  function Escaped(s: string): string {
    if s == "" then "" else EscapedChar(s[0]) + Escaped(s[1..])
  }

  function Quoted(s: string): string {
    "\"" + Escaped(s) + "\""
  }

  function Unescaped(s: string): string {
    if s == "" then ""
    else if s[0] == '\\' && |s| > 1 then [if s[1] == 'n' then '\n' else s[1]] + Unescaped(s[2..])
    else [s[0]] + Unescaped(s[1..])
  }

  /** What stands between the opening quote and a closing one, if there is one. */
  function Inside(s: string): string {
    var n := if |s| >= 2 && s[|s| - 1] == '"' then |s| - 1 else |s|;
    if n <= 1 then "" else s[1..n]
  }

  function Unquoted(s: string): string {
    Unescaped(Inside(s))
  }

  // --- C strings, white space, words ---

  /** A C string ends at its first NUL. */
  function CString(s: string): (r: string)
    ensures r <= s && '\0' !in r
  {
    if s == "" || s[0] == '\0' then "" else [s[0]] + CString(s[1..])
  }

  /** isspace in the C locale. */
  predicate IsSpace(c: char) {
    c == ' ' || '\t' <= c <= '\r'
  }

  predicate IsBlank(c: char) {
    c == ' ' || c == '\t' || c == '\n' || c == '\r'
  }

  function TrimLeft(s: string): string {
    if s != "" && IsBlank(s[0]) then TrimLeft(s[1..]) else s
  }

  function TrimRight(s: string): string {
    if s != "" && IsBlank(s[|s| - 1]) then TrimRight(s[..|s| - 1]) else s
  }

  function SkipSpace(s: string): (r: string)
    ensures |r| <= |s|
    ensures r != "" ==> !IsSpace(r[0])
  {
    if s != "" && IsSpace(s[0]) then SkipSpace(s[1..]) else s
  }

  function WordLength(s: string): (n: nat)
    ensures n <= |s|
    ensures s != "" && !IsSpace(s[0]) ==> n > 0
  {
    if s == "" || IsSpace(s[0]) then 0 else 1 + WordLength(s[1..])
  }

  /** stream >> word: the next word and what is left, or nothing at the end. */
  function NextWord(s: string): (r: Option<(string, string)>)
    ensures r.Some? ==> r.value.0 != "" && |r.value.1| < |s|
  {
    var t := SkipSpace(s);
    if t == "" then None else Some((t[..WordLength(t)], t[WordLength(t)..]))
  }

  // --- One absolute entry ---

  function PlainLine(e: Entry): string {
    "0x" + Hex16(e.address) + " " + TypeName(e.kind) + " " + (if e.enabled then "1" else "0") + " "
      + CString(Quoted(e.description)) + "\n"
  }

  function TrimTabs(s: string): string {
    if s != "" && (s[0] == ' ' || s[0] == '\t') then TrimTabs(s[1..]) else s
  }

  function PlainDescription(rest: string): string {
    var d := TrimTabs(rest);
    if d != "" && d[0] == '"' then Unquoted(d) else d
  }

  function ParsePlain(first: string, rest: string): Option<Entry> {
    var kind := NextWord(rest);
    if kind.None? then None
    else
      var en := NextWord(kind.value.1);
      if en.None? then None
      else
        var address, t, enabled := ParseWord(first), ParseType(kind.value.0), ParseFlag(en.value.0);
        if address.None? || t.None? || enabled.None? then None
        else Some(Entry(address.value, t.value, PlainDescription(en.value.1), enabled.value, false, None))
  }

  // --- One pointer entry ---

  function StepsText(offsets: seq<Word>): string {
    if offsets == [] then ""
    else if |offsets| == 1 then "0x" + Hex(offsets[0])
    else "0x" + Hex(offsets[0]) + "," + StepsText(offsets[1..])
  }

  function RootFields(root: Base): seq<string> {
    match root
    case Module(path, offset) => ["module=" + CString(path), "root=0x" + Hex(offset)]
    case Absolute(address) => ["root=0x" + Hex(address)]
  }

  function PointerFields(e: Entry): seq<string>
    requires e.chain.Some?
  {
    ["pointer", "type=" + TypeName(e.kind)] + RootFields(e.chain.value.root)
    + ["steps=" + StepsText(e.chain.value.offsets), "enabled=" + (if e.enabled then "1" else "0")]
  }

  function Spaced(words: seq<string>): string {
    if words == [] then "" else words[0] + " " + Spaced(words[1..])
  }

  function PointerLine(e: Entry): string
    requires e.chain.Some?
  {
    Spaced(PointerFields(e)) + CString(Quoted(e.description)) + "\n"
  }

  /** The words up to the first that opens a quotation, and everything from that quote on. */
  function Fields(s: string): (r: (seq<string>, string))
    decreases |s|
  {
    match NextWord(s)
    case None => ([], "")
    case Some((word, rest)) =>
      if word[0] == '"' then ([], word + rest)
      else
        var (words, quoted) := Fields(rest);
        ([word] + words, quoted)
  }

  function Find(s: string, c: char): (i: nat)
    ensures i <= |s| && c !in s[..i] && (i < |s| ==> s[i] == c)
  {
    if s == "" || s[0] == c then 0
    else
      var i := 1 + Find(s[1..], c);
      assert s[..i] == [s[0]] + s[1..][..i - 1];
      i
  }

  function ParseSteps(s: string): Option<seq<Word>>
    decreases |s|
  {
    if s == "" then Some([])
    else
      var i := Find(s, ',');
      var v := ParseWord(s[..i]);
      if i == 0 || v.None? then None
      else if i == |s| then Some([v.value])
      else
        var more := ParseSteps(s[i + 1..]);
        if more.None? then None else Some([v.value] + more.value)
  }

  /** What the keys seen so far have set. */
  datatype Keys = Keys(kind: Option<DataType>, path: Option<string>, root: Option<Word>, steps: seq<Word>,
                       enabled: bool)

  function ApplyKey(k: Keys, word: string): Option<Keys> {
    var i := Find(word, '=');
    if i == |word| then None else ApplyNamed(k, word[..i], word[i + 1..])
  }

  /** Keys that are not known change nothing. */
  function ApplyNamed(k: Keys, key: string, val: string): Option<Keys> {
    if key == "type" then
      var t := ParseType(val);
      if t.None? || t.value == Ptr then None else Some(k.(kind := t))
    else if key == "module" then Some(k.(path := Some(val)))
    else if key == "root" then
      var v := ParseWord(val);
      if v.None? then None else Some(k.(root := v))
    else if key == "steps" then
      var more := ParseSteps(val);
      if more.None? then None else Some(k.(steps := k.steps + more.value))
    else if key == "enabled" then
      var b := ParseFlag(val);
      if b.None? then None else Some(k.(enabled := b.value))
    else Some(k)
  }

  function ApplyKeys(k: Keys, words: seq<string>): Option<Keys>
    decreases |words|
  {
    if words == [] then Some(k)
    else
      var n := ApplyKey(k, words[0]);
      if n.None? then None else ApplyKeys(n.value, words[1..])
  }

  function PointerEntry(k: Keys, quoted: string): Option<Entry> {
    if k.kind.None? || k.root.None? then None
    else
      var root := if k.path.Some? then Module(k.path.value, k.root.value) else Absolute(k.root.value);
      Some(Entry(if k.path.Some? then 0 else k.root.value, k.kind.value, Unquoted(quoted), k.enabled, false,
                 Some(ChainRef(root, k.steps, k.kind.value))))
  }

  function ParsePointer(rest: string): Option<Entry> {
    var (words, quoted) := Fields(rest);
    var k := ApplyKeys(Keys(None, None, None, [], true), words);
    if k.None? then None else PointerEntry(k.value, quoted)
  }

  // --- Lines and files ---

  const HEADER := "# MemoryTool Address Table v1\n"
  const BUFFER: nat := 4096

  function Line(e: Entry): string {
    if e.chain.Some? then PointerLine(e) else PlainLine(e)
  }

  function Lines(entries: seq<Entry>): string {
    if entries == [] then "" else Line(entries[0]) + Lines(entries[1..])
  }

  function FileText(entries: seq<Entry>): string {
    HEADER + Lines(entries)
  }

  function ParseLine(line: string): Option<Entry> {
    var s := TrimRight(TrimLeft(CString(line)));
    if s == "" || s[0] == '#' then None
    else
      match NextWord(s)
      case None => None
      case Some((first, rest)) => if first == "pointer" then ParsePointer(rest) else ParsePlain(first, rest)
  }

  /** How much of the text one fgets takes: a line with its newline, or a full buffer. */
  function Taken(text: string): (n: nat)
    requires text != ""
    ensures 0 < n <= |text| && n < BUFFER
  {
    var i := Find(text, '\n');
    var n := if i < |text| then i + 1 else i;
    if n < BUFFER then n else BUFFER - 1
  }

  function ParseFile(text: string): seq<Entry>
    decreases |text|
  {
    if text == "" then []
    else
      var e := ParseLine(text[..Taken(text)]);
      (if e.Some? then [e.value] else []) + ParseFile(text[Taken(text)..])
  }
}
