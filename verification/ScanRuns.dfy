/** Whole runs: a first scan followed by any number of next scans over changing memory. */
module ScanRuns {
  import opened Words
  import opened Memory
  import opened Values
  import opened Chunk
  import opened Pattern
  import opened Refine
  import opened Scanner

  // --- Numeric runs ---

  /** One Next scan: the memory at that moment, its filter and its value. */
  datatype NextStep = NextStep(mem: Bytes, filter: Filter, target: Option<Word>)

  datatype Run = Run(first: Bytes, regions: seq<Region>, t: DataType, target: Option<Word>, steps: seq<NextStep>)

  /** The candidates after the first k Next scans. */
  function After(run: Run, k: nat): seq<Candidate>
    requires k <= |run.steps|
  {
    if k == 0 then NaiveFirst(run.first, run.regions, run.t, run.target)
    else
      var step := run.steps[k - 1];
      Naive(step.mem, NumericRules(run.t, step.filter, step.target), After(run, k - 1))
  }

  function ValueAt(mem: Bytes, a: nat, t: DataType): Word {
    DecodeWord(BytesAt(mem, a, TypeSize(t)))
  }

  /** It is the number that the bytes there stand for, little-endian. */
  lemma ValueAtStands(mem: Bytes, a: nat, t: DataType, v: int)
    ensures Stands(mem, a, t, v) <==> v == ValueAt(mem, a, t)
  {
    WindowStands(mem, a, t);
  }

  /** The memory seen by the first scan (0) and by the k-th Next scan. */
  function MemoryAt(run: Run, k: nat): Bytes
    requires k <= |run.steps|
  {
    if k == 0 then run.first else run.steps[k - 1].mem
  }

  /** The regions of which the first scan can read anything. */
  function Served(run: Run): seq<Region> {
    Backed(run.first, run.regions)
  }

  /** The address matched at first and then passed each filter between consecutive snapshots. */
  predicate Survives(run: Run, k: nat, a: nat)
    requires k <= |run.steps|
  {
    && SomeWindow(Served(run), |Served(run)|, a, TypeSize(run.t), 1)
    && (run.target.Some? ==> Equal(ValueAt(run.first, a, run.t), run.target.value, run.t))
    && forall i :: 0 <= i < k ==> Passes(run, i, a)
  }

  /** The address is readable at the i-th Next scan and its two last values pass that scan's filter. */
  predicate Passes(run: Run, i: nat, a: nat)
    requires i < |run.steps|
  {
    var step := run.steps[i];
    && Available(step.mem, a, TypeSize(run.t))
    && Keeps(step.filter, ValueAt(step.mem, a, run.t), ValueAt(MemoryAt(run, i), a, run.t), step.target, run.t)
  }

  lemma FirstMembers(run: Run, c: Candidate)
    ensures c in After(run, 0) <==> Survives(run, 0, c.addr) && c.prev == ValueAt(run.first, c.addr, run.t)
  {
    var w := TypeSize(run.t);
    var ws := AllWindows(Served(run), w, 1);
    PickedMembers(run.first, w, PickValue(run.t, run.target), ws, |ws|, c);
    AllWindowsSpec(Served(run), w, 1);
    if Survives(run, 0, c.addr) {
      var j :| 0 <= j < |ws| && ws[j] == c.addr;
      assert c.prev == ValueAt(run.first, c.addr, run.t) ==>
             PickValue(run.t, run.target)(ws[j], BytesAt(run.first, ws[j], w)) == Some(c);
    }
  }

  /** What judging one candidate gives. */
  lemma NumericVerdictSpec(mem: Bytes, t: DataType, filter: Filter, target: Option<Word>, d: Candidate, c: Candidate)
    ensures var rules := NumericRules(t, filter, target);
            && rules.at(d) == d.addr && rules.w == TypeSize(t) && rules.spent(c) == c
            && (Verdict(mem, rules, d) == Some(c) <==>
                  c.addr == d.addr && c.prev == ValueAt(mem, d.addr, t) && Keeps(filter, c.prev, d.prev, target, t))
            && (Verdict(mem, rules, d).None? <==> !Keeps(filter, ValueAt(mem, d.addr, t), d.prev, target, t))
  {
    hide Keeps;
  }

  lemma StepMembers(mem: Bytes, t: DataType, filter: Filter, target: Option<Word>, cs: seq<Candidate>, c: Candidate)
    ensures c in Naive(mem, NumericRules(t, filter, target), cs) <==>
              c.prev == ValueAt(mem, c.addr, t) && Available(mem, c.addr, TypeSize(t)) &&
              exists d :: d in cs && d.addr == c.addr && Keeps(filter, c.prev, d.prev, target, t)
  {
    var rules := NumericRules(t, filter, target);
    NaiveMembers(mem, rules, cs, c);
    hide *;
    if c in Naive(mem, rules, cs) {
      var d :| d in cs && Available(mem, rules.at(d), rules.w) && Verdict(mem, rules, d) == Some(c);
      NumericVerdictSpec(mem, t, filter, target, d, c);
    } else if d :| d in cs && d.addr == c.addr && Keeps(filter, c.prev, d.prev, target, t) {
      NumericVerdictSpec(mem, t, filter, target, d, c);
    }
  }

  /**
   * After any run the candidates are exactly the addresses that satisfied every filter
   * between consecutive snapshots, each with its value in the last snapshot.
   */
  lemma {:induction false} RunExact(run: Run, k: nat, c: Candidate)
    requires k <= |run.steps|
    ensures c in After(run, k) <==> Survives(run, k, c.addr) && c.prev == ValueAt(MemoryAt(run, k), c.addr, run.t)
  {
    if k == 0 {
      FirstMembers(run, c);
    } else {
      hide *;
      forall d: Candidate
        ensures d in After(run, k - 1) <==>
                  Survives(run, k - 1, d.addr) && d.prev == ValueAt(MemoryAt(run, k - 1), d.addr, run.t)
      {
        RunExact(run, k - 1, d);
      }
      SurvivesNext(run, k, c.addr);
      RunStep(run, k, c);
    }
  }

  lemma SurvivesNext(run: Run, k: nat, a: nat)
    requires 0 < k <= |run.steps|
    ensures Survives(run, k, a) <==> Survives(run, k - 1, a) && Passes(run, k - 1, a)
  {
    hide Passes, SomeWindow;
  }

  /** One Next scan, when the candidates before it hold the last values. */
  lemma RunStep(run: Run, k: nat, c: Candidate)
    requires 0 < k <= |run.steps|
    requires forall d: Candidate :: d in After(run, k - 1) <==>
               Survives(run, k - 1, d.addr) && d.prev == ValueAt(MemoryAt(run, k - 1), d.addr, run.t)
    ensures c in After(run, k) <==>
              c.prev == ValueAt(MemoryAt(run, k), c.addr, run.t) && Survives(run, k - 1, c.addr)
                && Passes(run, k - 1, c.addr)
  {
    var step := run.steps[k - 1];
    StepMembers(step.mem, run.t, step.filter, step.target, After(run, k - 1), c);
    hide Keeps, Available, ValueAt, Naive, Survives;
    if Survives(run, k - 1, c.addr) {
      assert Candidate(c.addr, ValueAt(MemoryAt(run, k - 1), c.addr, run.t)) in After(run, k - 1);
    }
  }

  /** Candidates stay in strictly increasing address order, so none is listed twice. */
  lemma {:induction false} RunOrdered(run: Run, k: nat)
    requires k <= |run.steps| && SortedRegions(run.regions)
    ensures StrictlyAt((c: Candidate) => c.addr, After(run, k))
  {
    if k == 0 {
      var ws := AllWindows(Served(run), TypeSize(run.t), 1);
      BackedSorted(run.first, run.regions, |run.regions|);
      AllWindowsSpec(Served(run), TypeSize(run.t), 1);
      PickedOrdered(run.first, run.t, run.target, ws, |ws|);
    } else {
      var step := run.steps[k - 1];
      var rules := NumericRules(run.t, step.filter, step.target);
      RunOrdered(run, k - 1);
      var cs := After(run, k - 1);
      assert StrictlyAt(rules.at, cs);
      KeptOrdered(step.mem, rules, cs, Readable(step.mem, rules, cs));
    }
  }

  lemma {:induction false} PickedOrdered(mem: Bytes, t: DataType, target: Option<Word>, ws: seq<nat>, k: nat)
    requires k <= |ws| && Ascending(ws)
    ensures var cs := Picked(mem, TypeSize(t), PickValue(t, target), ws, k);
            StrictlyAt((c: Candidate) => c.addr, cs) && forall c :: c in cs ==> c.addr in ws[..k]
  {
    if k > 0 {
      PickedOrdered(mem, t, target, ws, k - 1);
      assert ws[..k] == ws[..k - 1] + [ws[k - 1]];
      var front := Picked(mem, TypeSize(t), PickValue(t, target), ws, k - 1);
      forall j | 0 <= j < |front|
        ensures front[j].addr < ws[k - 1]
      {
        assert front[j] in front;
      }
    }
  }

  // --- A run on the scanner itself ---

  /**
   * The first scan may stop short of an answer only by truncation, and reads as much as the engine needs; a region may
   * be listed as readable and yet not be read at all.
   */
  ghost predicate Undisturbed(s: Scanner, run: Run, gots: seq<ReadCounts>)
    reads s
  {
    && |gots| == |run.steps| + 1 && SortedRegions(run.regions)
    && ValidReads(run.first, gots[0]) && FullReads(gots[0], Served(run), TypeSize(run.t))
    && |NaiveFirst(run.first, run.regions, run.t, run.target)| <= s.maxCandidates
    && forall k :: 0 <= k < |run.steps| ==>
        ValidReads(run.steps[k].mem, gots[k + 1]) && MaximalReads(run.steps[k].mem, gots[k + 1])
  }

  lemma TakenWhole<T>(all: seq<T>, max: nat)
    requires |all| <= max
    ensures Take(all, max) == all
  {
  }

  /** First Scan and then every Next Scan: unless one is cancelled, the candidates are those of the run. */
  method Replay(s: Scanner, run: Run, gots: seq<ReadCounts>, cancel: CancelFlag) returns (ok: bool)
    requires s.Valid() && Undisturbed(s, run, gots)
    modifies s, cancel
    ensures s.Valid() && (!ok ==> cancel.raised) && (cancel.raised ==> old(cancel.raised) || cancel.rise.Some?)
    ensures ok ==> s.candidates == After(run, |run.steps|) && !s.truncated
    ensures ok ==> forall c :: c in s.candidates <==>
              Survives(run, |run.steps|, c.addr) && c.prev == ValueAt(MemoryAt(run, |run.steps|), c.addr, run.t)
  {
    hide FullReads, ValidReads, MaximalReads, NaiveFirst, After, Survives, ValueAt, AllPicked;
    hide FlagsOk, Kept, Stored, Naive, RealWindows, InOrder, JudgedAfter;
    ghost var seen, home;
    ok, seen, home := s.FirstScan(run.first, gots[0], run.regions, run.t, run.target, cancel);
    if !ok {
      return;
    }
    FirstIs(run, s.maxCandidates, s.warnCandidates);
    var k := 0;
    while k < |run.steps|
      invariant 0 <= k <= |run.steps| && s.Valid() && ok && !s.truncated
      invariant cancel.raised ==> old(cancel.raised) || cancel.rise.Some?
      invariant s.candidates == After(run, k)
    {
      var step := run.steps[k];
      ghost var sorted, flags, blocks;
      RunSorted(run, k);
      ok, sorted, flags, blocks := s.NextScan(step.mem, gots[k + 1], run.t, step.filter, step.target, cancel);
      if !ok {
        return;
      }
      AfterNext(run, k);
      k := k + 1;
    }
    forall c: Candidate
      ensures c in s.candidates <==>
                Survives(run, |run.steps|, c.addr) && c.prev == ValueAt(MemoryAt(run, |run.steps|), c.addr, run.t)
    {
      RunExact(run, |run.steps|, c);
    }
  }

  lemma FirstIs(run: Run, max: nat, warnAt: nat)
    requires |NaiveFirst(run.first, run.regions, run.t, run.target)| <= max
    ensures var found := Collected(NaiveFirst(run.first, run.regions, run.t, run.target), max, warnAt);
            found.items == After(run, 0) && !found.truncated
  {
    hide NaiveFirst;
    TakenWhole(NaiveFirst(run.first, run.regions, run.t, run.target), max);
  }

  lemma AfterNext(run: Run, k: nat)
    requires k < |run.steps|
    ensures After(run, k + 1) ==
            Naive(run.steps[k].mem, NumericRules(run.t, run.steps[k].filter, run.steps[k].target), After(run, k))
  {
    hide Naive, NumericRules;
  }

  lemma RunSorted(run: Run, k: nat)
    requires k < |run.steps| && SortedRegions(run.regions)
    ensures SortedAt(NumericRules(run.t, run.steps[k].filter, run.steps[k].target).at, After(run, k))
  {
    hide After, Keeps;
    RunOrdered(run, k);
  }

  // --- Dynamic runs ---

  /** The bytes a dynamic candidate stands for are the bytes last read at its address. */
  ghost predicate Faithful(mem: Bytes, spec: DynSpec, cs: seq<DynCandidate>) {
    forall c :: c in cs ==> Merged(spec, c.prevWild) == BytesAt(mem, c.addr, |spec.pattern.bytes|)
  }

  lemma {:induction false} WildcardAt(mask: seq<bool>, k: nat, p: nat)
    requires p < k <= |mask| && !mask[p]
    ensures |Wildcards(mask, p)| < |Wildcards(mask, k)|
    ensures Wildcards(mask, k)[|Wildcards(mask, p)|] == p
  {
    if p < k - 1 {
      WildcardAt(mask, k - 1, p);
    }
  }

  /** Captured bytes merge back exactly where the window agrees with the pattern. */
  lemma MergedCapture(spec: DynSpec, win: seq<Byte>, k: nat)
    requires |win| == |spec.pattern.bytes| && k < |win|
    ensures Merged(spec, WildBytes(spec, win))[k] == (if spec.pattern.mask[k] then spec.pattern.bytes[k] else win[k])
  {
    if !spec.pattern.mask[k] {
      WildcardAt(spec.pattern.mask, |spec.pattern.mask|, k);
    }
  }

  /** The window is recovered from pattern and captured bytes just when it matches the pattern. */
  lemma CaptureExact(spec: DynSpec, win: seq<Byte>)
    requires |win| == |spec.pattern.bytes|
    ensures Merged(spec, WildBytes(spec, win)) == win <==> Matches(win, spec.pattern)
  {
    var back := Merged(spec, WildBytes(spec, win));
    forall k | 0 <= k < |win|
      ensures back[k] == (if spec.pattern.mask[k] then spec.pattern.bytes[k] else win[k])
    {
      MergedCapture(spec, win, k);
    }
  }

  /** A dynamic first scan leaves faithful candidates. */
  lemma FirstFaithful(mem: Bytes, spec: DynSpec, ws: seq<nat>, max: nat, warnAt: nat)
    requires |spec.pattern.bytes| > 0
    ensures Faithful(mem, spec,
        Collected(AllPicked(mem, |spec.pattern.bytes|, PickDynamic(spec), ws), max, warnAt).items)
  {
    var w := |spec.pattern.bytes|;
    var all := AllPicked(mem, w, PickDynamic(spec), ws);
    forall c | c in Take(all, max)
      ensures Merged(spec, c.prevWild) == BytesAt(mem, c.addr, w)
    {
      PickedMembers(mem, w, PickDynamic(spec), ws, |ws|, c);
      CaptureExact(spec, BytesAt(mem, c.addr, w));
    }
  }

  lemma DynamicMembers(mem: Bytes, filter: Filter, spec: DynSpec, cs: seq<DynCandidate>, x: DynCandidate)
    ensures x in Naive(mem, DynamicRules(filter, spec), cs) <==>
              exists c :: c in cs && c.addr == x.addr && Available(mem, c.addr, |spec.pattern.bytes|) &&
                KeepsDynamic(filter, spec, c.prevWild, BytesAt(mem, c.addr, |spec.pattern.bytes|)) &&
                x.prevWild == WildBytes(spec, BytesAt(mem, c.addr, |spec.pattern.bytes|))
  {
    var rules := DynamicRules(filter, spec);
    NaiveMembers(mem, rules, cs, x);
    hide Naive, KeepsDynamic, WildBytes, Available;
    if c :| c in cs && c.addr == x.addr && Available(mem, c.addr, |spec.pattern.bytes|) &&
                KeepsDynamic(filter, spec, c.prevWild, BytesAt(mem, c.addr, |spec.pattern.bytes|)) &&
                x.prevWild == WildBytes(spec, BytesAt(mem, c.addr, |spec.pattern.bytes|)) {
      assert Verdict(mem, rules, c) == Some(x);
    }
  }

  /** EXACT against any spec, and UNCHANGED from faithful candidates, leave faithful candidates. */
  lemma NextFaithful(before: Bytes, mem: Bytes, filter: Filter, spec: DynSpec, cs: seq<DynCandidate>)
    requires filter != Changed
    requires filter == Unchanged ==> Faithful(before, spec, cs)
    ensures Faithful(mem, spec, Naive(mem, DynamicRules(filter, spec), cs))
  {
    forall x | x in Naive(mem, DynamicRules(filter, spec), cs)
      ensures Merged(spec, x.prevWild) == BytesAt(mem, x.addr, |spec.pattern.bytes|)
    {
      DynamicMembers(mem, filter, spec, cs, x);
      var win := BytesAt(mem, x.addr, |spec.pattern.bytes|);
      var c :| c in cs && c.addr == x.addr && KeepsDynamic(filter, spec, c.prevWild, win);
      CaptureExact(spec, win);
      if filter == Unchanged {
        MergedMatches(spec, c.prevWild);
      }
    }
  }

  /** Every byte the pattern fixes is there. */
  predicate Fixed(mem: Bytes, a: nat, pat: BytePattern) {
    forall k :: 0 <= k < |pat.bytes| && pat.mask[k] ==> ByteAt(mem, a + k) == pat.bytes[k]
  }

  lemma FixedMatches(mem: Bytes, a: nat, pat: BytePattern)
    ensures Fixed(mem, a, pat) <==> Matches(BytesAt(mem, a, |pat.bytes|), pat)
  {
    var win := BytesAt(mem, a, |pat.bytes|);
    assert forall k :: 0 <= k < |win| ==> win[k] == ByteAt(mem, a + k);
    hide BytesAt, ByteAt;
  }

  /** A dynamic first scan finds exactly the places in regions that hold bytes where every fixed byte is there. */
  lemma FirstDynamicExact(mem: Bytes, regions: seq<Region>, spec: DynSpec, a: nat)
    requires |spec.pattern.bytes| > 0
    ensures (exists x :: x in NaiveFirstDynamic(mem, regions, spec) && x.addr == a) <==>
              SomeWindow(Backed(mem, regions), |Backed(mem, regions)|, a, |spec.pattern.bytes|, 1)
              && Fixed(mem, a, spec.pattern)
  {
    var w, ws := |spec.pattern.bytes|, AllWindows(Backed(mem, regions), |spec.pattern.bytes|, 1);
    var win := BytesAt(mem, a, w);
    var x := DynCandidate(a, WildBytes(spec, win));
    FixedMatches(mem, a, spec.pattern);
    AllWindowsSpec(Backed(mem, regions), w, 1);
    PickedMembers(mem, w, PickDynamic(spec), ws, |ws|, x);
    hide Fixed, Matches, WildBytes, Backed, AllWindows, BytesAt, SomeWindow;
    if y :| y in NaiveFirstDynamic(mem, regions, spec) && y.addr == a {
      PickedMembers(mem, w, PickDynamic(spec), ws, |ws|, y);
    }
  }

  /** Every filter but CHANGED and UNCHANGED keeps exactly the readable candidates where every fixed byte is there. */
  lemma ExactDynamicExact(mem: Bytes, filter: Filter, spec: DynSpec, cs: seq<DynCandidate>, a: nat)
    requires filter != Changed && filter != Unchanged
    ensures (exists x :: x in Naive(mem, DynamicRules(filter, spec), cs) && x.addr == a) <==>
              (exists c :: c in cs && c.addr == a) && Available(mem, a, |spec.pattern.bytes|)
              && Fixed(mem, a, spec.pattern)
  {
    FixedMatches(mem, a, spec.pattern);
    KeptAtAddress(mem, filter, spec, cs, a);
    hide Fixed, Matches, Naive, DynamicRules, BytesAt, Available;
  }

  /** What judging leaves at one address. */
  lemma KeptAtAddress(mem: Bytes, filter: Filter, spec: DynSpec, cs: seq<DynCandidate>, a: nat)
    ensures (exists x :: x in Naive(mem, DynamicRules(filter, spec), cs) && x.addr == a) <==>
              exists c :: c in cs && c.addr == a && Available(mem, a, |spec.pattern.bytes|)
                && KeepsDynamic(filter, spec, c.prevWild, BytesAt(mem, a, |spec.pattern.bytes|))
  {
    var w, next := |spec.pattern.bytes|, Naive(mem, DynamicRules(filter, spec), cs);
    if x :| x in next && x.addr == a {
      DynamicMembers(mem, filter, spec, cs, x);
    }
    var win := BytesAt(mem, a, w);
    if c :| c in cs && c.addr == a && Available(mem, a, w) && KeepsDynamic(filter, spec, c.prevWild, win) {
      var x := DynCandidate(a, WildBytes(spec, BytesAt(mem, a, w)));
      DynamicMembers(mem, filter, spec, cs, x);
      assert x in next;
    }
    hide Naive, KeepsDynamic, WildBytes, BytesAt, Available, DynamicRules;
  }

  /** From faithful candidates CHANGED keeps exactly those readable ones whose bytes are not identical. */
  lemma ChangedExact(before: Bytes, mem: Bytes, spec: DynSpec, cs: seq<DynCandidate>, a: nat)
    requires Faithful(before, spec, cs)
    ensures (exists x :: x in Naive(mem, DynamicRules(Changed, spec), cs) && x.addr == a) <==>
              (exists c :: c in cs && c.addr == a) && Available(mem, a, |spec.pattern.bytes|) &&
              BytesAt(mem, a, |spec.pattern.bytes|) != BytesAt(before, a, |spec.pattern.bytes|)
  {
    KeptAtAddress(mem, Changed, spec, cs, a);
    hide Naive, DynamicRules, BytesAt, Available, Merged;
  }

  lemma MergedMatches(spec: DynSpec, prevWild: seq<Byte>)
    ensures Matches(Merged(spec, prevWild), spec.pattern)
  {
  }

  /** From faithful candidates UNCHANGED keeps exactly those readable ones whose bytes are identical. */
  lemma UnchangedExact(before: Bytes, mem: Bytes, spec: DynSpec, cs: seq<DynCandidate>, a: nat)
    requires Faithful(before, spec, cs)
    ensures (exists x :: x in Naive(mem, DynamicRules(Unchanged, spec), cs) && x.addr == a) <==>
              (exists c :: c in cs && c.addr == a) && Available(mem, a, |spec.pattern.bytes|) &&
              BytesAt(mem, a, |spec.pattern.bytes|) == BytesAt(before, a, |spec.pattern.bytes|)
  {
    var w := |spec.pattern.bytes|;
    var next := Naive(mem, DynamicRules(Unchanged, spec), cs);
    if x :| x in next && x.addr == a {
      DynamicMembers(mem, Unchanged, spec, cs, x);
    }
    if c :| c in cs && c.addr == a && Available(mem, a, w) && BytesAt(mem, a, w) == BytesAt(before, a, w) {
      var x := DynCandidate(a, WildBytes(spec, BytesAt(mem, a, w)));
      DynamicMembers(mem, Unchanged, spec, cs, x);
      assert KeepsDynamic(Unchanged, spec, c.prevWild, BytesAt(mem, c.addr, w));
      assert x in next;
    }
  }

  /**
   * After CHANGED the captured bytes are right under the wildcards, and the whole window is
   * recovered exactly for the candidates that still match the stored pattern.
   */
  lemma ChangedCapture(mem: Bytes, spec: DynSpec, cs: seq<DynCandidate>, x: DynCandidate)
    requires x in Naive(mem, DynamicRules(Changed, spec), cs)
    ensures var win := BytesAt(mem, x.addr, |spec.pattern.bytes|);
            && (forall k :: 0 <= k < |win| && !spec.pattern.mask[k] ==> Merged(spec, x.prevWild)[k] == win[k])
            && (Merged(spec, x.prevWild) == win <==> Matches(win, spec.pattern))
  {
    DynamicMembers(mem, Changed, spec, cs, x);
    var win := BytesAt(mem, x.addr, |spec.pattern.bytes|);
    CaptureExact(spec, win);
    forall k | 0 <= k < |win| && !spec.pattern.mask[k]
      ensures Merged(spec, x.prevWild)[k] == win[k]
    {
      MergedCapture(spec, win, k);
    }
  }

  /**
   * So two CHANGED scans in a row over the same memory keep a candidate whose fixed bytes
   * no longer match the pattern, although nothing changed in between.
   */
  lemma ChangedTwice(mem: Bytes, spec: DynSpec, cs: seq<DynCandidate>, x: DynCandidate)
    requires x in Naive(mem, DynamicRules(Changed, spec), cs)
    ensures x in Naive(mem, DynamicRules(Changed, spec), Naive(mem, DynamicRules(Changed, spec), cs)) <==>
              !Matches(BytesAt(mem, x.addr, |spec.pattern.bytes|), spec.pattern)
  {
    var w := |spec.pattern.bytes|;
    var once := Naive(mem, DynamicRules(Changed, spec), cs);
    ChangedCapture(mem, spec, cs, x);
    DynamicMembers(mem, Changed, spec, cs, x);
    DynamicMembers(mem, Changed, spec, once, x);
    if x in Naive(mem, DynamicRules(Changed, spec), once) {
      var d :| d in once && d.addr == x.addr && KeepsDynamic(Changed, spec, d.prevWild, BytesAt(mem, d.addr, w));
      DynamicMembers(mem, Changed, spec, cs, d);
      assert d.prevWild == x.prevWild;
    }
  }
}
