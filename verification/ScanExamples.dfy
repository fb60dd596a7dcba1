/** Short runs on the scanner itself in which a filter or a cancel does what its comment rules out. */
module ScanExamples {
  import opened Words
  import opened Memory
  import opened Values
  import opened Chunk
  import opened Pattern
  import opened Refine
  import opened Scanner
  import opened ScanRuns
  import opened ScanCancel

  // --- One byte to scan ---

  /** One readable region of one byte. */
  function OneByteRegion(a: nat): seq<Region>
    requires a + 1 < TWO64
  {
    [RegionRecord(a, a + 1, "r", 0, "")]
  }

  lemma MaximalCountsServe(mem: Bytes, a: nat)
    requires a in mem && a + 1 < TWO64
    ensures ValidReads(mem, MaximalCounts(mem)) && MaximalReads(mem, MaximalCounts(mem))
    ensures Backed(mem, OneByteRegion(a)) == OneByteRegion(a)
    ensures FullReads(MaximalCounts(mem), Backed(mem, OneByteRegion(a)), 1)
  {
    OneBacked(mem, a);
    hide Backed;
  }

  lemma OneBacked(mem: Bytes, a: nat)
    requires a in mem && a + 1 < TWO64
    ensures Backed(mem, OneByteRegion(a)) == OneByteRegion(a)
  {
    var regions := OneByteRegion(a);
    assert HoldsBytes(mem, regions[0]);
    assert BackedBefore(mem, regions, 0) == [];
    hide HoldsBytes;
  }

  lemma FirstTwoDiffer(ws: seq<nat>)
    requires Ascending(ws) && |ws| > 1
    ensures ws[0] < ws[1]
  {
  }

  lemma OneWindow(a: nat)
    requires a + 1 < TWO64
    ensures AllWindows(OneByteRegion(a), 1, 1) == [a]
  {
    var regions := OneByteRegion(a);
    var ws := AllWindows(regions, 1, 1);
    AllWindowsSpec(regions, 1, 1);
    hide AllWindows;
    assert IsWindow(regions[0], a, 1, 1) && SomeWindow(regions, 1, a, 1, 1);
    assert a in ws;
    forall k | 0 <= k < |ws|
      ensures ws[k] == a
    {
      assert ws[k] in ws && SomeWindow(regions, 1, ws[k], 1, 1);
    }
    if |ws| > 1 {
      FirstTwoDiffer(ws);
    }
  }

  /** A scan of one candidate whose flag rises at its second load is cancelled after judging it. */
  lemma CancelledAfterOne<T>(mem: Bytes, got: ReadCounts, rules: Rules<T>, cs: seq<T>, chunk: nat, blocks: nat)
    requires Exactly(mem, got, rules, cs, chunk) && |cs| == 1 && Available(mem, rules.at(cs[0]), rules.w)
    ensures JudgedAfter(got, rules, cs, chunk, 0) == [] && JudgedAfter(got, rules, cs, chunk, 1) == [true]
  {
    JudgedAdvances(got, rules, cs, chunk, 1);
    JudgedReadable(mem, got, rules, cs, chunk, 1);
  }

  /**
   * The numeric case: a CHANGED scan cancelled after its only block has overwritten the previous
   * value, so repeating it over the same memory no longer finds the change.
   */
  method LostChange(a: nat, was: Byte, now: Byte)
    returns (first: seq<Candidate>, stopped: bool, left: seq<Candidate>, again: seq<Candidate>)
    requires was != now && a + 1 < TWO64
    ensures first == [Candidate(a, was)] && stopped && left == [Candidate(a, now)] && again == []
  {
    var before, after := map[a := was], map[a := now];
    var s := new Scanner(1, 1, 8);
    first := FirstOfOne(s, before, a);
    stopped, left := CancelledChange(s, after, a, was);
    var calm := new CancelFlag(None);
    ghost var sorted, flags, blocks;
    ChangeStored(after, a, was, now);
    MaximalCountsServe(after, a);
    hide Stored, JudgedAfter, Naive, Kept, FlagsOk, ValidReads, MaximalReads, NumericRules;
    var ok;
    ok, sorted, flags, blocks := s.NextScan(after, MaximalCounts(after), U8, Changed, None, calm);
    again := s.candidates;
  }

  method FirstOfOne(s: Scanner, mem: Bytes, a: nat) returns (found: seq<Candidate>)
    requires s.Valid() && s.maxCandidates == s.warnCandidates == 1 && s.chunk == 8
    requires a in mem && mem == map[a := mem[a]] && a + 1 < TWO64
    modifies s
    ensures s.Valid() && s.candidates == found == [Candidate(a, mem[a])]
  {
    var calm := new CancelFlag(None);
    ghost var seen, home;
    MaximalCountsServe(mem, a);
    FoundAtFirst(mem, a, mem[a]);
    hide NaiveFirst, Collected, FullReads, ValidReads, RealWindows, InOrder, AllPicked, Backed, Covers;
    var ok;
    ok, seen, home := s.FirstScan(mem, MaximalCounts(mem), OneByteRegion(a), U8, None, calm);
    found := s.candidates;
  }

  method CancelledChange(s: Scanner, mem: Bytes, a: nat, was: Byte) returns (stopped: bool, left: seq<Candidate>)
    requires s.Valid() && s.chunk == 8 && s.candidates == [Candidate(a, was)]
    requires a in mem && mem == map[a := mem[a]] && mem[a] != was && a + 1 < TWO64
    modifies s
    ensures s.Valid() && stopped && s.candidates == left == [Candidate(a, mem[a])]
  {
    var rising := new CancelFlag(Some(1));
    ghost var sorted, flags, blocks;
    MaximalCountsServe(mem, a);
    ChangeStored(mem, a, was, mem[a]);
    hide Stored, JudgedAfter, Naive, Kept, FlagsOk, ValidReads, MaximalReads, NumericRules;
    var ok;
    ok, sorted, flags, blocks := s.NextScan(mem, MaximalCounts(mem), U8, Changed, None, rising);
    stopped, left := !ok, s.candidates;
  }

  lemma FoundAtFirst(mem: Bytes, a: nat, v: Byte)
    requires mem == map[a := v] && a + 1 < TWO64
    ensures Collected(NaiveFirst(mem, OneByteRegion(a), U8, None), 1, 1) == Found([Candidate(a, v)], false, false)
  {
    OneWindow(a);
    OneBacked(mem, a);
    OneByte(mem, a);
    var picked := NaiveFirst(mem, OneByteRegion(a), U8, None);
    assert picked == Picked(mem, 1, PickValue(U8, None), [a], 0) + [Candidate(a, v)];
  }

  lemma ChangeStored(mem: Bytes, a: nat, was: Byte, now: Byte)
    requires mem == map[a := now] && was != now && a + 1 < TWO64
    ensures var rules := NumericRules(U8, Changed, None);
            var got := MaximalCounts(mem);
            && JudgedAfter(got, rules, [Candidate(a, was)], 8, 0) == []
            && JudgedAfter(got, rules, [Candidate(a, was)], 8, 1) == [true]
            && Stored(mem, rules, [Candidate(a, was)], [true]) == [Candidate(a, now)]
            && Naive(mem, rules, [Candidate(a, now)]) == []
  {
    var rules, c := NumericRules(U8, Changed, None), Candidate(a, was);
    MaximalCountsServe(mem, a);
    OneByte(mem, a);
    CancelledAfterOne(mem, MaximalCounts(mem), rules, [c], 8, 1);
    NumericVerdictSpec(mem, U8, Changed, None, c, Candidate(a, now));
    NumericVerdictSpec(mem, U8, Changed, None, Candidate(a, now), Candidate(a, now));
    JudgedOne(mem, rules, c);
    JudgedOne(mem, rules, Candidate(a, now));
  }

  /** Judging a list of one readable candidate. */
  lemma JudgedOne<T>(mem: Bytes, rules: Rules<T>, c: T)
    requires Available(mem, rules.at(c), rules.w)
    ensures Naive(mem, rules, [c]) == (if Verdict(mem, rules, c).Some? then [Verdict(mem, rules, c).value] else [])
    ensures Stored(mem, rules, [c], [true]) ==
            [if Verdict(mem, rules, c).Some? then rules.spent(Verdict(mem, rules, c).value) else c]
  {
    assert Readable(mem, rules, [c]) == [] + [true];
    KeptNext(mem, rules, [c], [], true);
  }

  /** A pattern of one wildcard. */
  function AnyByte(): DynSpec {
    assert Wildcards([false], 1) == Wildcards([false], 0) + [0];
    SpecRecord(PatternRecord([0], [false], true), [0])
  }

  /**
   * The dynamic case: an UNCHANGED scan cancelled after its only block has emptied the captured
   * bytes, so repeating it over the same memory drops a candidate whose bytes never changed.
   */
  method LostCapture(a: nat, v: Byte)
    returns (first: seq<DynCandidate>, stopped: bool, left: seq<DynCandidate>, again: seq<DynCandidate>)
    requires v != 0 && a + 1 < TWO64
    ensures first == [DynCandidate(a, [v])] && stopped && left == [DynCandidate(a, [])] && again == []
    ensures Naive(map[a := v], DynamicRules(Unchanged, AnyByte()), first) == first
  {
    var mem := map[a := v];
    var s := new Scanner(1, 1, 8);
    first := FirstAnyByte(s, mem, a);
    stopped, left := CancelledUnchanged(s, mem, a);
    var calm := new CancelFlag(None);
    ghost var sorted, flags, blocks;
    CaptureStored(mem, a, v);
    MaximalCountsServe(mem, a);
    hide Stored, JudgedAfter, Naive, Kept, FlagsOk, ValidReads, MaximalReads, DynamicRules, KeepsDynamic;
    var ok;
    ok, sorted, flags, blocks := s.NextScanDynamic(mem, MaximalCounts(mem), Unchanged, None, calm);
    again := s.dynCandidates;
  }

  method FirstAnyByte(s: Scanner, mem: Bytes, a: nat) returns (found: seq<DynCandidate>)
    requires s.Valid() && s.maxCandidates == s.warnCandidates == 1 && s.chunk == 8
    requires a in mem && mem == map[a := mem[a]] && a + 1 < TWO64
    modifies s
    ensures s.Valid() && s.dynCandidates == found == [DynCandidate(a, [mem[a]])] && s.dynSpec == Some(AnyByte())
  {
    var calm := new CancelFlag(None);
    ghost var seen, home;
    MaximalCountsServe(mem, a);
    CapturedAtFirst(mem, a, mem[a]);
    hide NaiveFirstDynamic, Collected, FullReads, ValidReads, RealWindows, InOrder, AllPicked, Backed, Covers;
    var ok;
    ok, seen, home := s.FirstScanDynamic(mem, MaximalCounts(mem), OneByteRegion(a), AnyByte(), calm);
    found := s.dynCandidates;
  }

  method CancelledUnchanged(s: Scanner, mem: Bytes, a: nat) returns (stopped: bool, left: seq<DynCandidate>)
    requires s.Valid() && s.chunk == 8 && s.dynSpec == Some(AnyByte())
    requires a in mem && s.dynCandidates == [DynCandidate(a, [mem[a]])]
    requires mem == map[a := mem[a]] && mem[a] != 0 && a + 1 < TWO64
    modifies s
    ensures s.Valid() && stopped && s.dynCandidates == left == [DynCandidate(a, [])] && s.dynSpec == Some(AnyByte())
  {
    var rising := new CancelFlag(Some(1));
    ghost var sorted, flags, blocks;
    MaximalCountsServe(mem, a);
    CaptureStored(mem, a, mem[a]);
    hide Stored, JudgedAfter, Naive, Kept, FlagsOk, ValidReads, MaximalReads, DynamicRules, KeepsDynamic;
    var ok;
    ok, sorted, flags, blocks := s.NextScanDynamic(mem, MaximalCounts(mem), Unchanged, None, rising);
    stopped, left := !ok, s.dynCandidates;
  }

  lemma CapturedAtFirst(mem: Bytes, a: nat, v: Byte)
    requires mem == map[a := v] && a + 1 < TWO64
    ensures Collected(NaiveFirstDynamic(mem, OneByteRegion(a), AnyByte()), 1, 1) ==
        Found([DynCandidate(a, [v])], false, false)
  {
    OneWindow(a);
    OneBacked(mem, a);
    var picked := NaiveFirstDynamic(mem, OneByteRegion(a), AnyByte());
    assert WildBytes(AnyByte(), BytesAt(mem, a, 1)) == [v];
    assert picked == Picked(mem, 1, PickDynamic(AnyByte()), [a], 0) + [DynCandidate(a, [v])];
  }

  lemma CaptureStored(mem: Bytes, a: nat, v: Byte)
    requires mem == map[a := v] && v != 0 && a + 1 < TWO64
    ensures var rules := DynamicRules(Unchanged, AnyByte());
            var got, c := MaximalCounts(mem), DynCandidate(a, [v]);
            && JudgedAfter(got, rules, [c], 8, 0) == [] && JudgedAfter(got, rules, [c], 8, 1) == [true]
            && Stored(mem, rules, [c], [true]) == [DynCandidate(a, [])]
            && Naive(mem, rules, [c]) == [c] && Naive(mem, rules, [DynCandidate(a, [])]) == []
  {
    var spec, rules, c := AnyByte(), DynamicRules(Unchanged, AnyByte()), DynCandidate(a, [v]);
    MaximalCountsServe(mem, a);
    CancelledAfterOne(mem, MaximalCounts(mem), rules, [c], 8, 1);
    DynamicVerdict(mem, Unchanged, spec, c);
    DynamicVerdict(mem, Unchanged, spec, DynCandidate(a, []));
    OneWildcard(mem, a, v);
    hide *;
    JudgedOne(mem, rules, c);
    JudgedOne(mem, rules, DynCandidate(a, []));
  }

  lemma OneWildcard(mem: Bytes, a: nat, v: Byte)
    requires mem == map[a := v] && v != 0
    ensures var spec, win := AnyByte(), BytesAt(mem, a, 1);
            && Available(mem, a, 1) && WildBytes(spec, win) == [v]
            && KeepsDynamic(Unchanged, spec, [v], win) && !KeepsDynamic(Unchanged, spec, [], win)
  {
    var spec, win := AnyByte(), BytesAt(mem, a, 1);
    assert win == [v];
    assert WildBytes(spec, win)[0] == v;
    assert Merged(spec, [v])[0] == v && Merged(spec, [])[0] == 0;
  }

  /** A pattern of one exact byte. */
  function ExactOne(): DynSpec {
    assert Wildcards([true], 1) == Wildcards([true], 0);
    SpecRecord(PatternRecord([1], [true], true), [])
  }

  /**
   * The byte 1 found and then changed to 2: however often CHANGED is repeated over the same memory it keeps
   * the candidate, for what it compares with is still the pattern.
   */
  method ChangedForever(a: nat, n: nat) returns (first: seq<DynCandidate>, last: seq<DynCandidate>)
    requires n > 0 && a + 1 < TWO64
    ensures first == last == [DynCandidate(a, [])]
    ensures Merged(ExactOne(), last[0].prevWild) == [1] && BytesAt(map[a := 2], a, 1) == [2]
  {
    var s := new Scanner(1, 1, 8);
    first := FirstExactOne(s, a);
    StillChanged(a);
    var i := 0;
    while i < n
      invariant s.Valid() && s.chunk == 8 && s.dynSpec == Some(ExactOne()) && s.dynCandidates == [DynCandidate(a, [])]
    {
      RepeatChanged(s, a);
      i := i + 1;
    }
    last := s.dynCandidates;
  }

  method FirstExactOne(s: Scanner, a: nat) returns (found: seq<DynCandidate>)
    requires s.Valid() && s.maxCandidates == s.warnCandidates == 1 && s.chunk == 8 && a + 1 < TWO64
    modifies s
    ensures s.Valid() && s.dynCandidates == found == [DynCandidate(a, [])] && s.dynSpec == Some(ExactOne())
  {
    var calm := new CancelFlag(None);
    ghost var seen, home;
    var mem := map[a := 1];
    MaximalCountsServe(mem, a);
    ExactAtFirst(mem, a);
    hide NaiveFirstDynamic, Collected, FullReads, ValidReads, RealWindows, InOrder, AllPicked, Backed, Covers;
    var ok;
    ok, seen, home := s.FirstScanDynamic(mem, MaximalCounts(mem), OneByteRegion(a), ExactOne(), calm);
    found := s.dynCandidates;
  }

  method RepeatChanged(s: Scanner, a: nat)
    requires s.Valid() && s.chunk == 8 && s.dynSpec == Some(ExactOne()) && s.dynCandidates == [DynCandidate(a, [])]
    requires a + 1 < TWO64
    modifies s
    ensures s.Valid() && s.dynSpec == Some(ExactOne()) && s.dynCandidates == old(s.dynCandidates)
  {
    var calm := new CancelFlag(None);
    ghost var sorted, flags, blocks;
    var mem := map[a := 2];
    StillChanged(a);
    MaximalCountsServe(mem, a);
    hide Stored, JudgedAfter, Naive, Kept, FlagsOk, ValidReads, MaximalReads, DynamicRules, KeepsDynamic;
    var ok;
    ok, sorted, flags, blocks := s.NextScanDynamic(mem, MaximalCounts(mem), Changed, None, calm);
  }

  lemma ExactAtFirst(mem: Bytes, a: nat)
    requires mem == map[a := 1] && a + 1 < TWO64
    ensures Collected(NaiveFirstDynamic(mem, OneByteRegion(a), ExactOne()), 1, 1) ==
            Found([DynCandidate(a, [])], false, false)
  {
    OneWindow(a);
    OneBacked(mem, a);
    var picked := NaiveFirstDynamic(mem, OneByteRegion(a), ExactOne());
    assert BytesAt(mem, a, 1) == [1] && WildBytes(ExactOne(), [1]) == [];
    assert picked == Picked(mem, 1, PickDynamic(ExactOne()), [a], 0) + [DynCandidate(a, [])];
  }

  lemma StillChanged(a: nat)
    ensures var mem: Bytes, c := map[a := 2], DynCandidate(a, []);
            && Naive(mem, DynamicRules(Changed, ExactOne()), [c]) == [c]
            && Merged(ExactOne(), []) == [1] && BytesAt(mem, a, 1) == [2]
  {
    var mem: Bytes, spec, c := map[a := 2], ExactOne(), DynCandidate(a, []);
    var win := BytesAt(mem, a, 1);
    assert win == [2] && Merged(spec, []) == [1];
    assert WildBytes(spec, win) == [] && KeepsDynamic(Changed, spec, [], win);
    DynamicVerdict(mem, Changed, spec, c);
    assert Available(mem, a, 1);
    hide *;
    JudgedOne(mem, DynamicRules(Changed, spec), c);
  }
}
