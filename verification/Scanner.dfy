/** First Scan / Next Scan over numeric and dynamic values (src/scanner.h, src/scanner.cpp). */
module Scanner {
  import opened Words
  import opened Memory
  import opened Values
  import opened Chunk
  import opened Pattern
  import opened Refine

  datatype Filter = Exact | Changed | Unchanged | Increased | Decreased | Greater | Less | AtLeast | AtMost | Differs

  datatype Candidate = Candidate(addr: nat, prev: Word)

  // --- Collecting candidates in a first scan ---

  datatype Found<T> = Found(items: seq<T>, truncated: bool, warned: bool)

  /** emit: refuse and stop at max items, warn from warnAt items on. */
  function Emit<T>(pick: (nat, seq<Byte>) -> Option<T>, max: nat, warnAt: nat)
    : (Found<T>, nat, seq<Byte>) -> (Found<T>, bool)
  {
    (st: Found<T>, a: nat, win: seq<Byte>) =>
      match pick(a, win)
      case None => (st, true)
      case Some(x) =>
        if |st.items| >= max then (st.(truncated := true), false)
        else (Found(st.items + [x], st.truncated, st.warned || |st.items| >= warnAt), true)
  }

  function Collected<T>(all: seq<T>, max: nat, warnAt: nat): Found<T> {
    Found(Take(all, max), |all| > max, |Take(all, max)| > warnAt)
  }

  lemma {:induction false} EmitFold<T>(mem: Bytes, w: nat, pick: (nat, seq<Byte>) -> Option<T>, max: nat, warnAt: nat,
                                       ws: seq<nat>)
    ensures
      var all := AllPicked(mem, w, pick, ws);
      Fold(mem, w, Emit(pick, max, warnAt), Found([], false, false), ws) == (Collected(all, max, warnAt), |all| <= max)
  {
    if ws != [] {
      var n := |ws| - 1;
      EmitFold(mem, w, pick, max, warnAt, ws[..n]);
      assert ws == ws[..n] + [ws[n]];
      FoldAppend(mem, w, Emit(pick, max, warnAt), Found([], false, false), ws[..n], [ws[n]]);
      PickedPrefix(mem, w, pick, ws[..n], ws, n);
      var before := AllPicked(mem, w, pick, ws[..n]);
      if |before| <= max {
        FoldOne(mem, w, Emit(pick, max, warnAt), Collected(before, max, warnAt), ws[n]);
        assert before + [] == before;
      } else {
        TakePrefix(before, AllPicked(mem, w, pick, ws), max);
      }
    }
  }

  /** However the traversal ended, the candidates are the picks of the windows it delivered. */
  lemma CollectedOfSeen<T>(mem: Bytes, got: ReadCounts, regions: seq<Region>, w: nat, chunk: nat,
                           pick: (nat, seq<Byte>) -> Option<T>, max: nat, warnAt: nat, seen: seq<nat>,
                           st: Found<T>, outcome: Outcome)
    requires Fold(mem, w, Emit(pick, max, warnAt), Found([], false, false), seen) == (st, outcome != Stopped)
    requires outcome != Outcome.Cancelled && 0 < w
    requires w <= chunk && FullReads(got, Backed(mem, regions), w) ==> seen <= AllWindows(Backed(mem, regions), w, 1)
    requires w <= chunk && FullReads(got, Backed(mem, regions), w) && outcome == Done ==>
        seen == AllWindows(Backed(mem, regions), w, 1)
    ensures st == Collected(AllPicked(mem, w, pick, seen), max, warnAt)
    ensures !st.truncated ==> outcome == Done
    ensures w <= chunk && FullReads(got, Backed(mem, regions), w) ==>
              st == Collected(AllPicked(mem, w, pick, AllWindows(Backed(mem, regions), w, 1)), max, warnAt)
  {
    EmitFold(mem, w, pick, max, warnAt, seen);
    if w <= chunk && FullReads(got, Backed(mem, regions), w) {
      PickedOfPrefix(mem, w, pick, seen, AllWindows(Backed(mem, regions), w, 1));
    }
  }

  /** The traversal of a first scan; ok is false when the cancel flag is up at its end. */
  method CollectWindows<T>(mem: Bytes, got: ReadCounts, regions: seq<Region>, w: nat, chunk: nat,
                           pick: (nat, seq<Byte>) -> Option<T>, max: nat, warnAt: nat, cancel: CancelFlag)
    returns (ok: bool, found: Found<T>, ghost seen: seq<nat>, ghost home: seq<nat>)
    requires w > 0 && chunk > 0 && ValidReads(mem, got)
    modifies cancel
    ensures old(cancel.raised) ==> !ok
    ensures ok == !cancel.raised && (cancel.raised ==> old(cancel.raised) || cancel.rise.Some?)
    ensures RealWindows(mem, regions, w, 1, seen, home) && InOrder(seen, home)
    ensures ok ==> found == Collected(AllPicked(mem, w, pick, seen), max, warnAt)
    ensures ok && !found.truncated ==> Covers(got, regions, |regions|, w, 1, chunk, seen)
    ensures ok && w <= chunk && FullReads(got, Backed(mem, regions), w) ==>
              found == Collected(AllPicked(mem, w, pick, AllWindows(Backed(mem, regions), w, 1)), max, warnAt)
  {
    hide AllPicked, Collected, Fold, RealWindows, InOrder, AllWindows, Backed, Covers, FullReads, ValidReads, Steady,
      ReadableTotal,
      Emit;
    var outcome, progress;
    found, outcome, progress, seen, home :=
      ForEachWindow(mem, got, regions, w, 1, chunk, Emit(pick, max, warnAt), Found([], false, false), cancel);
    var stop := cancel.Load();
    ok := !stop;
    if ok {
      CollectedOfSeen(mem, got, regions, w, chunk, pick, max, warnAt, seen, found, outcome);
    }
  }

  // --- Numeric scans ---

  function PickValue(t: DataType, target: Option<Word>): (nat, seq<Byte>) -> Option<Candidate> {
    (a: nat, win: seq<Byte>) =>
      var v := DecodeWord(win);
      if target.Some? && !Equal(v, target.value, t) then None else Some(Candidate(a, v))
  }

  predicate Keeps(filter: Filter, cur: Word, prev: Word, target: Option<Word>, t: DataType) {
    match filter
    case Exact => target.Some? && Equal(cur, target.value, t)
    case Changed => !Equal(cur, prev, t)
    case Unchanged => Equal(cur, prev, t)
    case Increased => Compare(cur, prev, t) > 0
    case Decreased => Compare(cur, prev, t) < 0
    case Greater => target.Some? && Compare(cur, target.value, t) > 0
    case Less => target.Some? && Compare(cur, target.value, t) < 0
    case AtLeast => target.Some? && Compare(cur, target.value, t) >= 0
    case AtMost => target.Some? && Compare(cur, target.value, t) <= 0
    case Differs => target.Some? && !Equal(cur, target.value, t)
  }

  /** The filters on integers, in terms of the numbers meant by the current, previous and given values. */
  lemma FiltersCompareNumbers(filter: Filter, cur: Word, prev: Word, target: Word, t: DataType, x: int, p: int, y: int)
    requires IsSigned(t) || IsUnsigned(t)
    requires Means(cur, t, x) && Means(prev, t, p) && Means(target, t, y)
    ensures Keeps(Exact, cur, prev, Some(target), t) <==> x == y
    ensures Keeps(Differs, cur, prev, Some(target), t) <==> x != y
    ensures Keeps(Greater, cur, prev, Some(target), t) <==> x > y
    ensures Keeps(Less, cur, prev, Some(target), t) <==> x < y
    ensures Keeps(AtLeast, cur, prev, Some(target), t) <==> x >= y
    ensures Keeps(AtMost, cur, prev, Some(target), t) <==> x <= y
    ensures Keeps(Changed, cur, prev, None, t) <==> x != p
    ensures Keeps(Unchanged, cur, prev, None, t) <==> x == p
    ensures Keeps(Increased, cur, prev, None, t) <==> x > p
    ensures Keeps(Decreased, cur, prev, None, t) <==> x < p
    ensures Keeps(filter, cur, prev, None, t) ==> filter in {Changed, Unchanged, Increased, Decreased}
  {
    ComparesNumbers(cur, prev, t, x, p);
    ComparesNumbers(cur, target, t, x, y);
    hide Compare, Means;
  }

  /** The bits of a float, without those above its width. */
  function FloatBitsOf(v: Word, t: DataType): (x: nat)
    requires t == F32 || t == F64
    ensures t == F32 ==> x < 0x1_0000_0000
  {
    if t == F32 then v % 0x1_0000_0000 else v
  }

  predicate FiniteFloat(v: Word, t: DataType)
    requires t == F32 || t == F64
  {
    if t == F32 then v % 0x1_0000_0000 % 0x8000_0000 < 0x7F80_0000
    else v % 0x8000_0000_0000_0000 < 0x7FF0_0000_0000_0000
  }

  predicate NotANumber(v: Word, t: DataType)
    requires t == F32 || t == F64
  {
    if t == F32 then v % 0x1_0000_0000 % 0x8000_0000 > 0x7F80_0000
    else v % 0x8000_0000_0000_0000 > 0x7FF0_0000_0000_0000
  }

  /** The number a finite float is, in units of its format's smallest. */
  function FloatNumber(v: Word, t: DataType): int
    requires t == F32 || t == F64
  {
    FloatUnits(FloatBitsOf(v, t), if t == F32 then 4 else 8)
  }

  lemma Order32(a: Word, b: Word, t: DataType)
    requires t == F32
    ensures NotANumber(a, t) || NotANumber(b, t) ==> Compare(a, b, t) == 0
    ensures FiniteFloat(a, t) && FiniteFloat(b, t) ==>
              && (Compare(a, b, t) < 0 <==> FloatNumber(a, t) < FloatNumber(b, t))
              && (Compare(a, b, t) > 0 <==> FloatNumber(a, t) > FloatNumber(b, t))
  {
    ComparesFloats(a, b, t);
    hide Compare, FloatUnits;
  }

  lemma Order64(a: Word, b: Word, t: DataType)
    requires t == F64
    ensures NotANumber(a, t) || NotANumber(b, t) ==> Compare(a, b, t) == 0
    ensures FiniteFloat(a, t) && FiniteFloat(b, t) ==>
              && (Compare(a, b, t) < 0 <==> FloatNumber(a, t) < FloatNumber(b, t))
              && (Compare(a, b, t) > 0 <==> FloatNumber(a, t) > FloatNumber(b, t))
  {
    ComparesFloats(a, b, t);
    hide Compare, FloatUnits;
    assert a % 0x1_0000_0000_0000_0000 == a && b % 0x1_0000_0000_0000_0000 == b;
  }

  lemma FloatOrder(a: Word, b: Word, t: DataType)
    requires t == F32 || t == F64
    ensures NotANumber(a, t) || NotANumber(b, t) ==> Compare(a, b, t) == 0
    ensures FiniteFloat(a, t) && FiniteFloat(b, t) ==>
              && (Compare(a, b, t) < 0 <==> FloatNumber(a, t) < FloatNumber(b, t))
              && (Compare(a, b, t) > 0 <==> FloatNumber(a, t) > FloatNumber(b, t))
  {
    hide Compare, FloatNumber, FiniteFloat, NotANumber;
    if t == F32 {
      Order32(a, b, t);
    } else {
      Order64(a, b, t);
    }
  }

  /** The filters on finite floats, in terms of the numbers themselves. */
  lemma FiltersCompareFloats(cur: Word, prev: Word, target: Word, t: DataType)
    requires t == F32 || t == F64
    requires FiniteFloat(cur, t) && FiniteFloat(prev, t) && FiniteFloat(target, t)
    ensures var x, p, y := FloatNumber(cur, t), FloatNumber(prev, t), FloatNumber(target, t);
            && (Keeps(Exact, cur, prev, Some(target), t) <==> x == y)
            && (Keeps(Differs, cur, prev, Some(target), t) <==> x != y)
            && (Keeps(Greater, cur, prev, Some(target), t) <==> x > y)
            && (Keeps(Less, cur, prev, Some(target), t) <==> x < y)
            && (Keeps(AtLeast, cur, prev, Some(target), t) <==> x >= y)
            && (Keeps(AtMost, cur, prev, Some(target), t) <==> x <= y)
            && (Keeps(Changed, cur, prev, None, t) <==> x != p)
            && (Keeps(Unchanged, cur, prev, None, t) <==> x == p)
            && (Keeps(Increased, cur, prev, None, t) <==> x > p)
            && (Keeps(Decreased, cur, prev, None, t) <==> x < p)
  {
    hide Compare, FloatNumber, FiniteFloat, NotANumber;
    FloatOrder(cur, prev, t);
    FloatOrder(cur, target, t);
  }

  /** What is not a number passes as equal: by every filter that allows equality, and by no other. */
  lemma FiltersTakeNaN(filter: Filter, cur: Word, prev: Word, target: Word, t: DataType)
    requires (t == F32 || t == F64) && NotANumber(cur, t)
    ensures Keeps(filter, cur, prev, Some(target), t) <==> filter in {Exact, Unchanged, AtLeast, AtMost}
  {
    hide Compare, FiniteFloat, NotANumber;
    FloatOrder(cur, prev, t);
    FloatOrder(cur, target, t);
  }

  /** A kept candidate carries its current value, also in the old list. */
  function NumericRules(t: DataType, filter: Filter, target: Option<Word>): (r: Rules<Candidate>)
    ensures r.w == TypeSize(t) && KeepsPlace(r)
  {
    Rules(TypeSize(t), (c: Candidate) => c.addr,
          (c: Candidate, win: seq<Byte>) =>
            if Keeps(filter, DecodeWord(win), c.prev, target, t) then Some(Candidate(c.addr, DecodeWord(win)))
              else None,
          (c: Candidate) => c)
  }

  // --- The values of candidates, byte by byte ---

  predicate AllStand(mem: Bytes, t: DataType, cs: seq<Candidate>) {
    forall c :: c in cs ==> Stands(mem, c.addr, t, c.prev)
  }

  lemma PickedStand(mem: Bytes, t: DataType, target: Option<Word>, ws: seq<nat>, max: nat, warnAt: nat)
    ensures AllStand(mem, t, Collected(AllPicked(mem, TypeSize(t), PickValue(t, target), ws), max, warnAt).items)
  {
    var all := AllPicked(mem, TypeSize(t), PickValue(t, target), ws);
    forall c | c in Take(all, max)
      ensures Stands(mem, c.addr, t, c.prev)
    {
      PickedMembers(mem, TypeSize(t), PickValue(t, target), ws, |ws|, c);
      WindowStands(mem, c.addr, t);
    }
    hide Stands, AllPicked;
  }

  lemma KeptStand(mem: Bytes, t: DataType, filter: Filter, target: Option<Word>, cs: seq<Candidate>, flags: seq<bool>)
    requires |flags| <= |cs|
    ensures AllStand(mem, t, Kept(mem, NumericRules(t, filter, target), cs, flags))
  {
    forall c | c in Kept(mem, NumericRules(t, filter, target), cs, flags)
      ensures Stands(mem, c.addr, t, c.prev)
    {
      KeptMembers(mem, NumericRules(t, filter, target), cs, flags, c);
      WindowStands(mem, c.addr, t);
    }
    hide Stands, Kept;
  }

  // --- Dynamic scans ---

  datatype DynCandidate = DynCandidate(addr: nat, prevWild: seq<Byte>)

  datatype SpecRecord = SpecRecord(pattern: BytePattern, wildPos: seq<nat>)

  /** Specs are built by make_dynamic_spec, which precomputes the wildcard positions. */
  type DynSpec = s: SpecRecord | s.wildPos == Wildcards(s.pattern.mask, |s.pattern.mask|)
    witness SpecRecord(PatternRecord([], [], false), [])

  /** Wildcard positions among the first k. */
  function Wildcards(mask: seq<bool>, k: nat): (ps: seq<nat>)
    requires k <= |mask|
    ensures forall p :: p in ps ==> p < k && !mask[p]
  {
    if k == 0 then [] else Wildcards(mask, k - 1) + (if mask[k - 1] then [] else [k - 1])
  }

  method MakeDynamicSpec(pat: BytePattern) returns (s: DynSpec)
    ensures s.pattern == pat
  {
    var wildPos := [];
    var i := 0;
    while i < |pat.mask|
      invariant 0 <= i <= |pat.mask|
      invariant wildPos == Wildcards(pat.mask, i)
    {
      if !pat.mask[i] {
        wildPos := wildPos + [i];
      }
      i := i + 1;
    }
    return SpecRecord(pat, wildPos);
  }

  /** The bytes under the wildcards. */
  function WildBytes(spec: DynSpec, win: seq<Byte>): (bs: seq<Byte>)
    ensures |bs| == |spec.wildPos|
  {
    seq(|spec.wildPos|, i requires 0 <= i < |spec.wildPos| =>
      if spec.wildPos[i] < |win| then win[spec.wildPos[i]] else 0)
  }

  /** The previous byte at position k: the pattern's, or the captured one; 0 when none was captured. */
  function PrevByte(spec: DynSpec, prevWild: seq<Byte>, k: nat): Byte
    requires k < |spec.pattern.bytes|
  {
    if spec.pattern.mask[k] then spec.pattern.bytes[k]
    else
      var wi := |Wildcards(spec.pattern.mask, k)|;
      if wi < |prevWild| then prevWild[wi] else 0
  }

  function Merged(spec: DynSpec, prevWild: seq<Byte>): (bs: seq<Byte>)
    ensures |bs| == |spec.pattern.bytes|
  {
    seq(|spec.pattern.bytes|, k requires 0 <= k < |spec.pattern.bytes| => PrevByte(spec, prevWild, k))
  }

  /** dynamic_window_changed compares with the merged previous bytes. */
  method DynamicWindowChanged(win: seq<Byte>, spec: DynSpec, prevWild: seq<Byte>) returns (changed: bool)
    requires |win| == |spec.pattern.bytes|
    ensures changed == (win != Merged(spec, prevWild))
  {
    var wi := 0;
    var k := 0;
    while k < |spec.pattern.bytes|
      invariant 0 <= k <= |spec.pattern.bytes|
      invariant wi == |Wildcards(spec.pattern.mask, k)|
      invariant forall j :: 0 <= j < k ==> win[j] == PrevByte(spec, prevWild, j)
    {
      var pv;
      if spec.pattern.mask[k] {
        pv := spec.pattern.bytes[k];
      } else {
        pv := if wi < |prevWild| then prevWild[wi] else 0;
        wi := wi + 1;
      }
      if win[k] != pv {
        assert Merged(spec, prevWild)[k] != win[k];
        return true;
      }
      k := k + 1;
    }
    return false;
  }

  function PickDynamic(spec: DynSpec): (nat, seq<Byte>) -> Option<DynCandidate> {
    (a: nat, win: seq<Byte>) =>
      if Matches(win, spec.pattern) then Some(DynCandidate(a, WildBytes(spec, win))) else None
  }

  predicate KeepsDynamic(filter: Filter, spec: DynSpec, prevWild: seq<Byte>, win: seq<Byte>) {
    if filter == Changed then win != Merged(spec, prevWild)
    else if filter == Unchanged then win == Merged(spec, prevWild)
    else Matches(win, spec.pattern)
  }

  /** A kept candidate is moved into the new list: the old one is left without its bytes. */
  function DynamicRules(filter: Filter, spec: DynSpec): (r: Rules<DynCandidate>)
    ensures r.w == |spec.pattern.bytes| && KeepsPlace(r)
  {
    Rules(|spec.pattern.bytes|, (c: DynCandidate) => c.addr,
          (c: DynCandidate, win: seq<Byte>) =>
            if KeepsDynamic(filter, spec, c.prevWild, win) then Some(DynCandidate(c.addr, WildBytes(spec, win)))
              else None,
          (c: DynCandidate) => DynCandidate(c.addr, []))
  }

  /** Every candidate carries one byte for each wildcard of the spec. */
  ghost predicate Captured(spec: DynSpec, cs: seq<DynCandidate>) {
    forall c :: c in cs ==> |c.prevWild| == |spec.wildPos|
  }

  lemma FirstCaptures(mem: Bytes, spec: DynSpec, ws: seq<nat>, max: nat, warnAt: nat)
    ensures Captured(spec, Collected(AllPicked(mem, |spec.pattern.bytes|, PickDynamic(spec), ws), max, warnAt).items)
  {
    var all := AllPicked(mem, |spec.pattern.bytes|, PickDynamic(spec), ws);
    forall c | c in Take(all, max)
      ensures |c.prevWild| == |spec.wildPos|
    {
      PickedMembers(mem, |spec.pattern.bytes|, PickDynamic(spec), ws, |ws|, c);
    }
  }

  lemma NextCaptures(mem: Bytes, filter: Filter, spec: DynSpec, cs: seq<DynCandidate>, flags: seq<bool>)
    requires |flags| <= |cs|
    ensures Captured(spec, Kept(mem, DynamicRules(filter, spec), cs, flags))
  {
    forall x | x in Kept(mem, DynamicRules(filter, spec), cs, flags)
      ensures |x.prevWild| == |spec.wildPos|
    {
      KeptMembers(mem, DynamicRules(filter, spec), cs, flags, x);
    }
  }

  // --- The scanner ---

  class Scanner {
    const maxCandidates: nat
    const warnCandidates: nat
    const chunk: nat
    var candidates: seq<Candidate>
    var dynCandidates: seq<DynCandidate>
    var dynSpec: Option<DynSpec>
    var valueType: DataType
    var truncated: bool
    var warned: bool

    /** Numeric and dynamic results never coexist. */
    predicate Valid()
      reads this
    {
      chunk >= 8 && (if dynSpec.Some? then candidates == [] else dynCandidates == [])
    }

    /** The candidates carry what a completed scan with the current spec captures. */
    ghost predicate Captures()
      reads this
    {
      dynSpec.Some? ==> Captured(dynSpec.value, dynCandidates)
    }

    constructor (maxCandidates: nat, warnCandidates: nat, chunk: nat)
      requires chunk >= 8
      ensures Valid() && candidates == [] && dynSpec == None && !truncated && !warned
      ensures this.maxCandidates == maxCandidates && this.warnCandidates == warnCandidates && this.chunk == chunk
    {
      this.maxCandidates, this.warnCandidates, this.chunk := maxCandidates, warnCandidates, chunk;
      candidates, dynCandidates, dynSpec, valueType, truncated, warned := [], [], None, I32, false, false;
    }

    method Clear()
      requires chunk >= 8
      modifies this
      ensures Valid() && candidates == [] && dynSpec == None && !truncated && !warned && valueType == old(valueType)
    {
      candidates, dynCandidates, dynSpec, truncated, warned := [], [], None, false, false;
    }

    /** Every position of the readable regions with its value; only those equal to the target if there is one. */
    method FirstScan(mem: Bytes, got: ReadCounts, regions: seq<Region>, t: DataType, target: Option<Word>,
                     cancel: CancelFlag)
      returns (ok: bool, ghost seen: seq<nat>, ghost home: seq<nat>)
      requires Valid() && ValidReads(mem, got)
      modifies this, cancel
      ensures Valid()
      ensures old(cancel.raised) ==> !ok
      ensures !ok ==> cancel.raised && unchanged(this)
      ensures cancel.raised ==> old(cancel.raised) || cancel.rise.Some?
      ensures RealWindows(mem, regions, TypeSize(t), 1, seen, home) && InOrder(seen, home)
      ensures ok ==>
                Found(candidates, truncated, warned) ==
                Collected(AllPicked(mem, TypeSize(t), PickValue(t, target), seen), maxCandidates, warnCandidates)
      ensures ok && !truncated ==> Covers(got, regions, |regions|, TypeSize(t), 1, chunk, seen)
      ensures ok && FullReads(got, Backed(mem, regions), TypeSize(t)) ==>
                Found(candidates, truncated, warned) ==
                Collected(NaiveFirst(mem, regions, t, target), maxCandidates, warnCandidates)
      ensures ok ==> AllStand(mem, t, candidates)
      ensures ok ==> valueType == t && dynSpec == None
    {
      hide AllStand, AllPicked, Collected, RealWindows, InOrder, AllWindows, Backed, Covers, FullReads, ValidReads,
        PickValue;
      var found;
      ok, found, seen, home :=
        CollectWindows(mem, got, regions, TypeSize(t), chunk, PickValue(t, target), maxCandidates, warnCandidates,
          cancel);
      if !ok {
        return;
      }
      PickedStand(mem, t, target, seen, maxCandidates, warnCandidates);
      candidates, valueType, truncated, warned, dynSpec, dynCandidates :=
        found.items, t, found.truncated, found.warned, None, [];
    }

    /**
     * Refines the numeric candidates. When cancelled the old ones stay, in order, but the
     * kept ones among those already judged hold their current value instead of the previous one.
     */
    method NextScan(mem: Bytes, got: ReadCounts, t: DataType, filter: Filter, target: Option<Word>, cancel: CancelFlag)
      returns (ok: bool, ghost sorted: seq<Candidate>, ghost flags: seq<bool>, ghost blocks: nat)
      requires Valid() && ValidReads(mem, got)
      modifies this, cancel
      ensures Valid()
      ensures ok == !cancel.raised && cancel.Saw(old(cancel.raised), old(cancel.loads), blocks)
      ensures var rules := NumericRules(t, filter, target);
              && flags == JudgedAfter(got, rules, sorted, chunk, blocks)
              && SortedAt(rules.at, sorted) && multiset(sorted) == multiset(old(candidates))
              && (SortedAt(rules.at, old(candidates)) ==> sorted == old(candidates))
              && FlagsOk(mem, got, rules, sorted, flags)
              && (ok ==> |flags| == |sorted| && candidates == Kept(mem, rules, sorted, flags))
              && (ok && MaximalReads(mem, got) ==> candidates == Naive(mem, rules, sorted))
              && (!ok ==> candidates == Stored(mem, rules, sorted, flags))
      ensures ok ==> AllStand(mem, t, candidates)
      ensures valueType == (if ok then t else old(valueType))
      ensures truncated == old(truncated) && warned == old(warned)
      ensures dynSpec == old(dynSpec) && dynCandidates == old(dynCandidates)
    {
      var rules := NumericRules(t, filter, target);
      hide Kept, Stored, Naive, FlagsOk, MaximalReads, ValidReads, KeepsPlace, JudgedAfter, AllStand;
      var cs := SortByAddress(rules.at, candidates);
      sorted := cs;
      var list, next;
      ok, list, next, flags, blocks := Sweep(mem, got, rules, cs, chunk, cancel);
      NothingFromNothing(mem, rules, cs, flags);
      KeptStand(mem, t, filter, target, cs, flags);
      candidates := if ok then next else list;
      if ok {
        valueType := t;
      }
    }

    /** Every window that matches the pattern, with the bytes found under the wildcards. */
    method FirstScanDynamic(mem: Bytes, got: ReadCounts, regions: seq<Region>, spec: DynSpec, cancel: CancelFlag)
      returns (ok: bool, ghost seen: seq<nat>, ghost home: seq<nat>)
      requires Valid() && ValidReads(mem, got)
      modifies this, cancel
      ensures Valid() && valueType == old(valueType)
      ensures !ok ==> cancel.raised && unchanged(this)
      ensures cancel.raised ==> old(cancel.raised) || cancel.rise.Some?
      ensures ok ==> dynSpec == Some(spec) && Captures()
      ensures !Scannable(spec) ==> ok && dynCandidates == [] && !truncated && !warned
      ensures Scannable(spec) && old(cancel.raised) ==> !ok
      ensures Scannable(spec) ==> RealWindows(mem, regions, |spec.pattern.bytes|, 1, seen, home) && InOrder(seen, home)
      ensures Scannable(spec) && ok ==>
                Found(dynCandidates, truncated, warned) ==
                Collected(AllPicked(mem, |spec.pattern.bytes|, PickDynamic(spec), seen), maxCandidates, warnCandidates)
      ensures Scannable(spec) && ok && !truncated ==>
                Covers(got, regions, |regions|, |spec.pattern.bytes|, 1, chunk, seen)
      ensures Scannable(spec) && ok && |spec.pattern.bytes| <= chunk ==>
                FullReads(got, Backed(mem, regions), |spec.pattern.bytes|) ==>
                Found(dynCandidates, truncated, warned) ==
                Collected(NaiveFirstDynamic(mem, regions, spec), maxCandidates, warnCandidates)
    {
      var w := |spec.pattern.bytes|;
      if w == 0 || !spec.pattern.valid {
        seen, home := [], [];
        dynSpec, dynCandidates, candidates, truncated, warned := Some(spec), [], [], false, false;
        ok := true;
        return;
      }
      hide AllPicked, Collected, RealWindows, InOrder, AllWindows, Backed, Covers, FullReads, ValidReads, PickDynamic;
      var found;
      ok, found, seen, home :=
        CollectWindows(mem, got, regions, w, chunk, PickDynamic(spec), maxCandidates, warnCandidates, cancel);
      if !ok {
        return;
      }
      FirstCaptures(mem, spec, seen, maxCandidates, warnCandidates);
      dynCandidates, dynSpec, truncated, warned, candidates :=
        found.items, Some(spec), found.truncated, found.warned, [];
    }

    /**
     * Refines the dynamic candidates against the stored spec or a new one. When cancelled the
     * old ones stay, but the kept ones among those already judged have lost their captured bytes.
     */
    method NextScanDynamic(mem: Bytes, got: ReadCounts, filter: Filter, newSpec: Option<DynSpec>, cancel: CancelFlag)
      returns (ok: bool, ghost sorted: seq<DynCandidate>, ghost flags: seq<bool>, ghost blocks: nat)
      requires Valid() && ValidReads(mem, got)
      modifies this, cancel
      ensures Valid() && valueType == old(valueType) && truncated == old(truncated) && warned == old(warned)
      ensures candidates == old(candidates)
      ensures ok && old(Captures()) ==> Captures()
      ensures ok && old(dynSpec).Some? && Scannable(BaseSpec(old(dynSpec), newSpec)) ==> Captures()
      ensures !ok ==> cancel.raised
      ensures old(dynSpec).None? || !Scannable(BaseSpec(old(dynSpec), newSpec)) ==>
                ok && dynSpec == old(dynSpec) && dynCandidates == old(dynCandidates)
      ensures old(dynSpec).Some? && Scannable(BaseSpec(old(dynSpec), newSpec)) ==>
                var rules := DynamicRules(filter, BaseSpec(old(dynSpec), newSpec));
                && ok == !cancel.raised && cancel.Saw(old(cancel.raised), old(cancel.loads), blocks)
                && flags == JudgedAfter(got, rules, sorted, chunk, blocks)
                && SortedAt(rules.at, sorted) && multiset(sorted) == multiset(old(dynCandidates))
                && (SortedAt(rules.at, old(dynCandidates)) ==> sorted == old(dynCandidates))
                && FlagsOk(mem, got, rules, sorted, flags)
                && (ok ==> |flags| == |sorted| && dynCandidates == Kept(mem, rules, sorted, flags))
                && (ok && MaximalReads(mem, got) ==> dynCandidates == Naive(mem, rules, sorted))
                && (!ok ==> dynCandidates == Stored(mem, rules, sorted, flags))
                && dynSpec == (if ok then Some(BaseSpec(old(dynSpec), newSpec)) else old(dynSpec))
    {
      sorted, flags, ok, blocks := [], [], true, 0;
      if dynSpec.None? {
        return;
      }
      var base := if newSpec.Some? then newSpec.value else dynSpec.value;
      if |base.pattern.bytes| == 0 || !base.pattern.valid {
        return;
      }
      var rules := DynamicRules(filter, base);
      hide Kept, Stored, Naive, FlagsOk, MaximalReads, ValidReads, KeepsPlace, JudgedAfter;
      var cs := SortByAddress(rules.at, dynCandidates);
      sorted := cs;
      var list, next;
      ok, list, next, flags, blocks := Sweep(mem, got, rules, cs, chunk, cancel);
      NextCaptures(mem, filter, base, cs, flags);
      dynCandidates := if ok then next else list;
      if ok && newSpec.Some? {
        dynSpec := newSpec;
      }
    }
  }

  predicate Scannable(spec: DynSpec) {
    |spec.pattern.bytes| > 0 && spec.pattern.valid
  }

  function BaseSpec(current: Option<DynSpec>, newSpec: Option<DynSpec>): DynSpec
    requires current.Some?
  {
    if newSpec.Some? then newSpec.value else current.value
  }

  lemma NothingFromNothing<T>(mem: Bytes, rules: Rules<T>, cs: seq<T>, flags: seq<bool>)
    requires |flags| <= |cs|
    ensures cs == [] ==> Kept(mem, rules, cs, flags) == [] && Stored(mem, rules, cs, flags) == []
  {
  }

  function NaiveFirstDynamic(mem: Bytes, regions: seq<Region>, spec: DynSpec): seq<DynCandidate>
    requires |spec.pattern.bytes| > 0
  {
    AllPicked(mem, |spec.pattern.bytes|, PickDynamic(spec), AllWindows(Backed(mem, regions), |spec.pattern.bytes|, 1))
  }

  /** Reads every position of every readable region that holds bytes. */
  function NaiveFirst(mem: Bytes, regions: seq<Region>, t: DataType, target: Option<Word>): seq<Candidate> {
    AllPicked(mem, TypeSize(t), PickValue(t, target), AllWindows(Backed(mem, regions), TypeSize(t), 1))
  }
}
