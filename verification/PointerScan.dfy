/** The reverse level-by-level pointer search (pointer_scan in src/pointer.h, extend_chains in src/pointer.cpp). */
module PointerScan {
  import opened Words
  import opened Memory
  import opened Chunk
  import opened PointerPaths
  import HashSet
  import Sorting

  // --- Source regions ---

  datatype RegionKind = Heap | Stack | AnonRw | Data | Code | Other

  predicate HasPrefix(s: string, prefix: string) {
    prefix <= s
  }

  function ClassifyRegion(r: Region): RegionKind {
    if !r.Readable() then Other
    else if r.path == "[heap]" then Heap
    else if HasPrefix(r.path, "[stack") then Stack
    else if r.path == "[vdso]" || r.path == "[vsyscall]" || r.path == "[vvar]" then Other
    else if r.path == "" then if r.Writable() then AnonRw else Other
    else if r.Executable() then Code
    else if r.Writable() then Data
    else Other
  }

  datatype Options = Options(
    target: Word, maxDepth: int, maxEdges: nat, maxChains: nat, includeCode: bool,
    minAddr: Word, maxAddr: Word, maxOffset: Word, offsetStep: Word)

  /** The part of a region the scan reads pointers from, if any. */
  function SourcePart(r: Region, opts: Options): Option<Region> {
    var kind := ClassifyRegion(r);
    if kind == Other || (kind == Code && !opts.includeCode) then None
    else if opts.minAddr == 0 && opts.maxAddr == 0 then Some(r)
    else if opts.maxAddr != 0 && r.start >= opts.maxAddr then None
    else if opts.minAddr != 0 && r.end <= opts.minAddr then None
    else
      var lo := if opts.minAddr != 0 && r.start < opts.minAddr then opts.minAddr else r.start;
      var hi := if opts.maxAddr != 0 && r.end > opts.maxAddr then opts.maxAddr else r.end;
      if hi > lo then Some(r.(start := lo, end := hi)) else None
  }

  function SourceRegions(regions: seq<Region>, opts: Options, i: nat): seq<Region>
    requires i <= |regions|
  {
    if i == 0 then []
    else
      SourceRegions(regions, opts, i - 1) +
      (match SourcePart(regions[i - 1], opts) case None => [] case Some(r) => [r])
  }

  lemma {:induction false} SourceRegionsMembers(regions: seq<Region>, opts: Options, i: nat, r: Region)
    requires i <= |regions|
    ensures r in SourceRegions(regions, opts, i) <==>
              exists k :: 0 <= k < i && SourcePart(regions[k], opts) == Some(r)
  {
    if i > 0 {
      SourceRegionsMembers(regions, opts, i - 1, r);
      hide SourcePart;
    }
  }

  /** Parts of regions that lie apart lie apart. */
  lemma {:induction false} SourceRegionsDisjoint(regions: seq<Region>, opts: Options, i: nat)
    requires i <= |regions| && Disjoint(regions)
    ensures Disjoint(SourceRegions(regions, opts, i))
  {
    if i > 0 {
      SourceRegionsDisjoint(regions, opts, i - 1);
      var front := SourceRegions(regions, opts, i - 1);
      SourcePartInside(regions[i - 1], opts);
      hide SourcePart;
      forall j | 0 <= j < |front|
        ensures front[j].end <= regions[i - 1].start || regions[i - 1].end <= front[j].start
      {
        SourceRegionsMembers(regions, opts, i - 1, front[j]);
        var k :| 0 <= k < i - 1 && SourcePart(regions[k], opts) == Some(front[j]);
        SourcePartInside(regions[k], opts);
      }
    }
  }

  lemma SourcePartReadable(r: Region, opts: Options)
    ensures SourcePart(r, opts).Some? ==> r.Readable()
  {
  }

  lemma SourcePartInside(r: Region, opts: Options)
    ensures var p := SourcePart(r, opts);
            p.Some? ==> r.start <= p.value.start && p.value.end <= r.end && p.value.Readable()
  {
  }

  method SelectSources(regions: seq<Region>, opts: Options) returns (source: seq<Region>)
    ensures source == SourceRegions(regions, opts, |regions|)
  {
    source := [];
    var i := 0;
    while i < |regions|
      invariant 0 <= i <= |regions|
      invariant source == SourceRegions(regions, opts, i)
    {
      var part := SourcePart(regions[i], opts);
      if part.Some? {
        source := source + [part.value];
      }
      i := i + 1;
    }
  }

  /** What a pointer scan reads: heap, stacks, writable memory, and code if asked; never the kernel's own mappings. */
  predicate Wanted(r: Region, includeCode: bool) {
    && |r.perms| > 0 && r.perms[0] == 'r'
    && var w, x := |r.perms| > 1 && r.perms[1] == 'w', |r.perms| > 2 && r.perms[2] == 'x';
    || r.path == "[heap]" || "[stack" <= r.path
    || (r.path == "" && w)
    || (r.path !in {"", "[vdso]", "[vsyscall]", "[vvar]"} && if x then includeCode else w)
  }

  /** [a, a + 8) lies in this region and within the asked range; a bound of 0 is none. */
  predicate InRange(r: Region, opts: Options, a: nat) {
    && r.start <= a && a + 8 <= r.end
    && (opts.minAddr != 0 ==> opts.minAddr <= a) && (opts.maxAddr != 0 ==> a + 8 <= opts.maxAddr)
  }

  lemma PartWindows(r: Region, opts: Options, a: nat)
    ensures SourcePart(r, opts).Some? && IsWindow(SourcePart(r, opts).value, a, 8, 8) <==>
              Wanted(r, opts.includeCode) && InRange(r, opts, a) && a % 8 == 0
  {
    KindWanted(r, opts.includeCode);
    hide ClassifyRegion, Wanted;
  }

  lemma KindWanted(r: Region, includeCode: bool)
    ensures ClassifyRegion(r) == Other || (ClassifyRegion(r) == Code && !includeCode) <==> !Wanted(r, includeCode)
    ensures Wanted(r, includeCode) ==> r.Readable()
  {
  }

  /** An 8-aligned position of a wanted region, within the asked range. */
  predicate Scanned(regions: seq<Region>, opts: Options, a: nat) {
    && a % 8 == 0
    && exists i :: 0 <= i < |regions| && Wanted(regions[i], opts.includeCode) && InRange(regions[i], opts, a)
  }

  /** Exactly those are the positions a scan reads pointers from. */
  lemma SourcesExactly(mem: Bytes, regions: seq<Region>, opts: Options, a: nat)
    ensures a in ScanGraph(mem, regions, opts).sources <==> Scanned(regions, opts, a)
  {
    var source := SourceRegions(regions, opts, |regions|);
    AllWindowsSpec(source, 8, 8);
    hide SourcePart, AllWindows, SourceRegions, Wanted, InRange;
    if k :| 0 <= k < |source| && IsWindow(source[k], a, 8, 8) {
      SourceRegionsMembers(regions, opts, |regions|, source[k]);
      assert source[k] in source;
      var i :| 0 <= i < |regions| && SourcePart(regions[i], opts) == Some(source[k]);
      PartWindows(regions[i], opts, a);
    }
    if i :| a % 8 == 0 && 0 <= i < |regions| && Wanted(regions[i], opts.includeCode) && InRange(regions[i], opts, a) {
      PartWindows(regions[i], opts, a);
      var part := SourcePart(regions[i], opts).value;
      SourceRegionsMembers(regions, opts, |regions|, part);
      var k :| 0 <= k < |source| && source[k] == part;
      assert IsWindow(source[k], a, 8, 8);
    }
  }

  // --- The callback over one level ---

  datatype Found = Found(edges: seq<Edge>, truncated: bool)

  /** The inner loop over the offset window, from its k-th offset on. */
  function PushEdges(mix: Word -> Word, current: seq<Word>, st: Found, v: Word, a: Word,
                     os: seq<Word>, k: nat, maxEdges: nat): (Found, bool)
    requires k <= |os|
    decreases |os| - k
  {
    if k == |os| then (st, true)
    else if HashSet.Lookup(mix, current, Add(v, os[k])) then
      var pushed := st.edges + [Edge(a, Add(v, os[k]), os[k])];
      if |pushed| >= maxEdges then (Found(pushed, true), false)
      else PushEdges(mix, current, Found(pushed, st.truncated), v, a, os, k + 1, maxEdges)
    else PushEdges(mix, current, st, v, a, os, k + 1, maxEdges)
  }

  /** One position: a single probe of the shifted set, then the offsets only on a match. */
  function VisitPosition(mix: Word -> Word, shifted: seq<Word>, current: seq<Word>, os: seq<Word>, maxEdges: nat,
                         st: Found, a: nat, win: seq<Byte>): (Found, bool)
  {
    var v := DecodeWord(win);
    if !HashSet.Lookup(mix, shifted, v) then (st, true)
    else PushEdges(mix, current, st, v, Truncate(a), os, 0, maxEdges)
  }

  function Callback(mix: Word -> Word, shifted: seq<Word>, current: seq<Word>, os: seq<Word>, maxEdges: nat)
    : (Found, nat, seq<Byte>) -> (Found, bool)
  {
    (st: Found, a: nat, win: seq<Byte>) => VisitPosition(mix, shifted, current, os, maxEdges, st, a, win)
  }

  ghost predicate ShiftedSet(shifted: seq<Word>, current: seq<Word>, os: seq<Word>) {
    forall v :: v in shifted <==> exists t, o :: t in current && o in os && v == Sub(t, o)
  }

  /** A nonzero value is in the shifted set just when some offset takes it to a current value. */
  lemma PrefilterLossless(shifted: seq<Word>, current: seq<Word>, os: seq<Word>, v: Word)
    requires ShiftedSet(shifted, current, os)
    ensures v in shifted <==> exists o :: o in os && Add(v, o) in current
  {
    if v in shifted {
      var t, o :| t in current && o in os && v == Sub(t, o);
      assert Add(v, o) == t;
    }
    if o :| o in os && Add(v, o) in current {
      assert v == Sub(Add(v, o), o);
    }
  }

  /** How many edges a level may hold: the limit is tested after each push, so one always fits. */
  function EdgeLimit(maxEdges: nat): (limit: nat)
    ensures limit > 0
  {
    if maxEdges == 0 then 1 else maxEdges
  }

  /** The first limit members. */
  function Upto<T>(all: seq<T>, limit: nat): (some: seq<T>)
    ensures some <= all && |some| == Min(limit, |all|)
  {
    if |all| <= limit then all else all[..limit]
  }

  lemma UptoPrefix<T>(some: seq<T>, all: seq<T>, limit: nat)
    requires some <= all && |some| == limit
    ensures Upto(all, limit) == some
  {
  }

  lemma {:induction false} PushEdgesSpec(mix: Word -> Word, slots: seq<Word>, current: seq<Word>, base: seq<Edge>,
                                         v: Word, a: Word, os: seq<Word>, k: nat, maxEdges: nat)
    requires k <= |os| && v != 0 && HashSet.TableOf(mix, slots, current)
    requires |base + EdgesOf(v, a, current, os, k)| < EdgeLimit(maxEdges)
    ensures var all, limit := base + EdgesOf(v, a, current, os, |os|), EdgeLimit(maxEdges);
            PushEdges(mix, slots, Found(base + EdgesOf(v, a, current, os, k), false), v, a, os, k, maxEdges) ==
            (Found(Upto(all, limit), |all| >= limit), |all| < limit)
    decreases |os| - k
  {
    if k < |os| {
      var before, after := EdgesOf(v, a, current, os, k), EdgesOf(v, a, current, os, k + 1);
      if Hit(v, os[k], current) {
        assert base + after == base + before + [Edge(a, Add(v, os[k]), os[k])];
        if |base + after| < EdgeLimit(maxEdges) {
          PushEdgesSpec(mix, slots, current, base, v, a, os, k + 1, maxEdges);
        } else {
          EdgesOfGrows(v, a, current, os, k + 1);
          UptoPrefix(base + after, base + EdgesOf(v, a, current, os, |os|), EdgeLimit(maxEdges));
        }
      } else {
        assert base + after == base + before;
        PushEdgesSpec(mix, slots, current, base, v, a, os, k + 1, maxEdges);
      }
    }
  }

  lemma {:induction false} EdgesOfGrows(v: Word, a: Word, current: seq<Word>, os: seq<Word>, k: nat)
    requires k <= |os|
    ensures EdgesOf(v, a, current, os, k) <= EdgesOf(v, a, current, os, |os|)
    decreases |os| - k
  {
    if k < |os| {
      EdgesOfGrows(v, a, current, os, k + 1);
    }
  }

  lemma {:induction false} NoEdges(v: Word, a: Word, current: seq<Word>, os: seq<Word>, k: nat)
    requires k <= |os| && (v == 0 || forall o :: o in os ==> Add(v, o) !in current)
    ensures EdgesOf(v, a, current, os, k) == []
  {
    if k > 0 {
      NoEdges(v, a, current, os, k - 1);
    }
  }

  /** Prefilter and inner loop together find what testing every offset would find. */
  lemma VisitPositionSpec(mix: Word -> Word, shiftedSlots: seq<Word>, shifted: seq<Word>, slots: seq<Word>,
                          g: Graph, current: seq<Word>, base: seq<Edge>, a: nat, maxEdges: nat)
    requires g.step > 0 && HashSet.TableOf(mix, shiftedSlots, shifted) && HashSet.TableOf(mix, slots, current)
    requires ShiftedSet(shifted, current, Offsets(g)) && |base| < EdgeLimit(maxEdges)
    ensures var all, limit := base + EdgesAt(g, current, a), EdgeLimit(maxEdges);
            VisitPosition(mix, shiftedSlots, slots, Offsets(g), maxEdges, Found(base, false), a,
              BytesAt(g.mem, a, 8)) ==
            (Found(Upto(all, limit), |all| >= limit), |all| < limit)
  {
    var v, os := PointerAt(g.mem, a), Offsets(g);
    PrefilterLossless(shifted, current, os, v);
    if v == 0 || v !in shifted {
      NoEdges(v, Truncate(a), current, os, |os|);
      assert base + [] == base;
    } else {
      assert base + EdgesOf(v, Truncate(a), current, os, 0) == base;
      PushEdgesSpec(mix, slots, current, base, v, Truncate(a), os, 0, maxEdges);
    }
  }

  /** A whole level: the fast walk collects the level's edges up to the limit, with the flag just when it is reached. */
  lemma {:induction false} LevelWalk(mix: Word -> Word, shiftedSlots: seq<Word>, shifted: seq<Word>, slots: seq<Word>,
                                     g: Graph, current: seq<Word>, ws: seq<nat>, maxEdges: nat)
    requires g.step > 0 && HashSet.TableOf(mix, shiftedSlots, shifted) && HashSet.TableOf(mix, slots, current)
    requires ShiftedSet(shifted, current, Offsets(g))
    ensures var all, limit := LevelEdges(g, current, ws), EdgeLimit(maxEdges);
            Fold(g.mem, 8, Callback(mix, shiftedSlots, slots, Offsets(g), maxEdges), Found([], false), ws) ==
            (Found(Upto(all, limit), |all| >= limit), |all| < limit)
  {
    if ws != [] {
      var n := |ws| - 1;
      var step := Callback(mix, shiftedSlots, slots, Offsets(g), maxEdges);
      LevelWalk(mix, shiftedSlots, shifted, slots, g, current, ws[..n], maxEdges);
      assert ws == ws[..n] + [ws[n]];
      FoldAppend(g.mem, 8, step, Found([], false), ws[..n], [ws[n]]);
      var (st, go) := Fold(g.mem, 8, step, Found([], false), ws[..n]);
      if go {
        FoldOne(g.mem, 8, step, st, ws[n]);
        VisitPositionSpec(mix, shiftedSlots, shifted, slots, g, current, st.edges, ws[n], maxEdges);
        hide VisitPosition, Fold, EdgesAt, HashSet.TableOf, ShiftedSet;
      } else {
        var all, limit := LevelEdges(g, current, ws), EdgeLimit(maxEdges);
        UptoPrefix(Upto(LevelEdges(g, current, ws[..n]), limit), all, limit);
        hide Upto, VisitPosition, Fold, EdgesAt, HashSet.TableOf, ShiftedSet;
      }
    }
  }

  // --- Growing chains ---

  predicate SortedByTarget(edges: seq<Edge>) {
    forall i, j :: 0 <= i < j < |edges| ==> edges[i].target <= edges[j].target
  }

  /** By target, then by offset, then by source. */
  predicate InEdgeOrder(edges: seq<Edge>) {
    forall i, j :: 0 <= i < j < |edges| ==>
      || edges[i].target < edges[j].target
      || (edges[i].target == edges[j].target
          && (edges[i].offset < edges[j].offset
              || (edges[i].offset == edges[j].offset && edges[i].source <= edges[j].source)))
  }

  lemma OrderedByTarget(edges: seq<Edge>)
    requires InEdgeOrder(edges)
    ensures SortedByTarget(edges)
  {
  }

  /** std::lower_bound: the first edge whose target is not below head. */
  method LowerBound(edges: seq<Edge>, head: Word) returns (lo: nat)
    requires SortedByTarget(edges)
    ensures lo <= |edges|
    ensures forall i :: 0 <= i < lo ==> edges[i].target < head
    ensures forall i :: lo <= i < |edges| ==> head <= edges[i].target
  {
    lo := 0;
    var hi := |edges|;
    while lo < hi
      invariant 0 <= lo <= hi <= |edges|
      invariant forall i :: 0 <= i < lo ==> edges[i].target < head
      invariant forall i :: hi <= i < |edges| ==> head <= edges[i].target
      decreases hi - lo
    {
      var mid := lo + (hi - lo) / 2;
      if edges[mid].target < head {
        lo := mid + 1;
      } else {
        hi := mid;
      }
    }
  }

  lemma {:induction false} NoneMatch(chain: Chain, edges: seq<Edge>, from: nat, to: nat)
    requires from <= to <= |edges|
    requires |chain.nodes| > 0 ==> forall i :: from <= i < to ==> edges[i].target != chain.nodes[0]
    ensures ExtendOne(chain, edges, to) == ExtendOne(chain, edges, from)
  {
    if from < to {
      NoneMatch(chain, edges, from, to - 1);
    }
  }

  lemma ExtendOneNext(chain: Chain, edges: seq<Edge>, j: nat)
    requires j <= |edges|
    ensures ExtendOne(chain, edges, 0) == []
    ensures j < |edges| ==> ExtendOne(chain, edges, j + 1) ==
                            ExtendOne(chain, edges, j)
                              + (if Extends(chain, edges[j]) then [Extend(chain, edges[j])] else [])
  {
  }

  /** The level already holds maxChains chains at some edge that leads to the head of this chain. */
  predicate FullAtEdge(chain: Chain, edges: seq<Edge>, held: nat, maxChains: nat) {
    exists k :: 0 <= k < |edges| && |chain.nodes| > 0 && edges[k].target == chain.nodes[0] &&
      held + |ExtendOne(chain, edges, k)| >= maxChains
  }

  /**
   * It does so before a chain, whether or not anything prolongs it, or at an edge, whether or not that makes a
   * cycle.
   */
  predicate FullAt(frontier: seq<Chain>, edges: seq<Edge>, i: nat, maxChains: nat)
    requires i < |frontier|
  {
    var held := |Extended(frontier, i, edges)|;
    held >= maxChains || FullAtEdge(frontier[i], edges, held, maxChains)
  }

  predicate CutShort(frontier: seq<Chain>, edges: seq<Edge>, maxChains: nat) {
    maxChains == 0 || exists i :: 0 <= i < |frontier| && FullAt(frontier, edges, i, maxChains)
  }

  /** Prolongs one chain by its group of edges, until the level holds maxChains chains. */
  method ExtendGroup(chain: Chain, edges: seq<Edge>, maxChains: nat, out0: seq<Chain>)
    returns (out: seq<Chain>, truncated: bool)
    requires SortedByTarget(edges) && |out0| < maxChains && |chain.nodes| > 0
    ensures |out| <= maxChains
    ensures out0 <= out <= out0 + ExtendOne(chain, edges, |edges|)
    ensures truncated ==> |out| == maxChains
    ensures !truncated ==> out == out0 + ExtendOne(chain, edges, |edges|)
    ensures truncated == FullAtEdge(chain, edges, |out0|, maxChains)
  {
    hide ExtendOne, Extend;
    out, truncated := out0, false;
    var head := chain.nodes[0];
    var it := LowerBound(edges, head);
    NoneMatch(chain, edges, 0, it);
    ExtendOneNext(chain, edges, it);
    while it < |edges| && edges[it].target == head
      invariant it <= |edges|
      invariant forall i :: it <= i < |edges| ==> head <= edges[i].target
      invariant |out| <= maxChains
      invariant out == out0 + ExtendOne(chain, edges, it)
      invariant forall k :: 0 <= k < it && edges[k].target == head ==> |out0| + |ExtendOne(chain, edges, k)| < maxChains
    {
      ExtendOneNext(chain, edges, it);
      if |out| >= maxChains {
        truncated := true;
        ExtendOneGrows(chain, edges, it);
        return;
      }
      if edges[it].source !in chain.nodes {
        out := out + [Extend(chain, edges[it])];
      }
      it := it + 1;
    }
    NoneMatch(chain, edges, it, |edges|);
  }

  /**
   * extend_chains: the prolonged chains in frontier order and, per chain, in edge
   * order, cut at maxChains; the flag says that the limit was met while there was something left to look at.
   */
  method ExtendChains(frontier: seq<Chain>, edges: seq<Edge>, maxChains: nat)
    returns (out: seq<Chain>, truncated: bool)
    requires SortedByTarget(edges)
    ensures out == Upto(Extended(frontier, |frontier|, edges), maxChains)
    ensures !truncated ==> out == Extended(frontier, |frontier|, edges)
    ensures truncated == CutShort(frontier, edges, maxChains)
  {
    hide Extended, ExtendOne, SortedByTarget, InEdgeOrder;
    out, truncated := [], false;
    ghost var all := Extended(frontier, |frontier|, edges);
    if maxChains == 0 {
      truncated := true;
      return;
    }
    ExtendedNext(frontier, 0, edges);
    var i := 0;
    while i < |frontier|
      invariant 0 <= i <= |frontier|
      invariant !truncated && |out| <= maxChains
      invariant out == Extended(frontier, i, edges)
      invariant forall j :: 0 <= j < i ==> !FullAt(frontier, edges, j, maxChains)
    {
      ExtendedNext(frontier, i, edges);
      ExtendedGrows(frontier, i, edges);
      ExtendedGrows(frontier, i + 1, edges);
      if |out| >= maxChains {
        truncated := true;
        UptoPrefix(out, all, maxChains);
        assert FullAt(frontier, edges, i, maxChains);
        return;
      }
      if |frontier[i].nodes| > 0 {
        out, truncated := ExtendGroup(frontier[i], edges, maxChains, out);
        if truncated {
          UptoPrefix(out, all, maxChains);
          assert FullAt(frontier, edges, i, maxChains);
          return;
        }
      } else {
        NoneMatch(frontier[i], edges, 0, |edges|);
        ExtendOneNext(frontier[i], edges, 0);
      }
      i := i + 1;
    }
  }

  lemma ExtendedNext(frontier: seq<Chain>, i: nat, edges: seq<Edge>)
    requires i <= |frontier|
    ensures Extended(frontier, 0, edges) == []
    ensures i < |frontier| ==>
        Extended(frontier, i + 1, edges) == Extended(frontier, i, edges) + ExtendOne(frontier[i], edges, |edges|)
  {
    hide ExtendOne;
  }

  // --- One level ---

  /** Shifts every current value down by every offset, modulo 2^64. */
  method ShiftedValues(current: seq<Word>, os: seq<Word>) returns (shifted: seq<Word>)
    ensures ShiftedSet(shifted, current, os)
  {
    shifted := [];
    var i := 0;
    while i < |current|
      invariant 0 <= i <= |current|
      invariant forall v :: v in shifted <==> exists t, o :: t in current[..i] && o in os && v == Sub(t, o)
    {
      ghost var before := shifted;
      var k := 0;
      while k < |os|
        invariant 0 <= k <= |os|
        invariant forall v :: v in shifted <==> v in before || exists o :: o in os[..k] && v == Sub(current[i], o)
      {
        assert os[..k + 1] == os[..k] + [os[k]];
        shifted := shifted + [Sub(current[i], os[k])];
        k := k + 1;
      }
      assert os[..k] == os;
      assert current[..i + 1] == current[..i] + [current[i]];
      i := i + 1;
    }
    assert current[..i] == current;
  }

  /** Windows recorded by a traversal of disjoint regions are all different. */
  lemma SeenDistinct(mem: Bytes, regions: seq<Region>, w: nat, s: nat, seen: seq<nat>, home: seq<nat>)
    requires s > 0 && w > 0 && Disjoint(regions)
    requires RealWindows(mem, regions, w, s, seen, home) && InOrder(seen, home)
    ensures Distinct(seen)
    ensures forall a: nat :: a in seen ==> a in AllWindows(regions, w, s)
    ensures Addresses(seen)
  {
    forall j, k | 0 <= j < k < |seen|
      ensures seen[j] != seen[k]
    {
      assert IsWindow(regions[home[j]], seen[j], w, s) && IsWindow(regions[home[k]], seen[k], w, s);
    }
    forall a: nat | a in seen
      ensures a in AllWindows(regions, w, s) && a < TWO64
    {
      var k :| 0 <= k < |seen| && seen[k] == a;
      assert IsWindow(regions[home[k]], a, w, s);
      AllWindowsSpec(regions, w, s);
    }
  }

  predicate EdgeBefore(a: Edge, b: Edge) {
    if a.target != b.target then a.target < b.target
    else if a.offset != b.offset then a.offset < b.offset
    else a.source < b.source
  }

  method SortEdges(edges: seq<Edge>) returns (sorted: seq<Edge>)
    ensures forall e :: e in sorted <==> e in edges
    ensures Distinct(edges) ==> Distinct(sorted)
    ensures InEdgeOrder(sorted) && |sorted| == |edges|
  {
    sorted := Sorting.Sort(edges, (a: Edge, b: Edge) => EdgeBefore(a, b));
    Sorting.PermutationMembers(sorted, edges);
    assert |multiset(sorted)| == |multiset(edges)|;
    if Distinct(edges) {
      Sorting.PermutationDistinct(edges, sorted);
    }
  }

  ghost predicate GraphOf(g: Graph, mem: Bytes, source: seq<Region>, maxOffset: Word, step: nat) {
    && g.mem == mem && g.sources == AllWindows(source, 8, 8)
    && g.maxOffset == maxOffset && g.step == step > 0
  }

  /** Scans the source regions once for positions that link into the current set. */
  method ScanLevel(mem: Bytes, got: ReadCounts, source: seq<Region>, ghost g: Graph, mix: Word -> Word,
                   current: seq<Word>, slots: seq<Word>, maxOffset: Word, step: nat, maxEdges: nat,
                   chunk: nat, cancel: CancelFlag)
    returns (edges: seq<Edge>, truncated: bool, outcome: Outcome, report: seq<Progress>)
    requires chunk > 0 && ValidReads(mem, got) && Disjoint(source)
    requires GraphOf(g, mem, source, maxOffset, step) && HashSet.TableOf(mix, slots, current)
    modifies cancel
    ensures RealEdges(g, edges) && forall e :: e in edges ==> e.target in current
    ensures outcome == Done && chunk >= 8 && FullReads(got, Backed(mem, source), 8) ==> AllEdges(g, current, edges)
    ensures |edges| <= EdgeLimit(maxEdges) && truncated == (|edges| == EdgeLimit(maxEdges)) == (outcome == Stopped)
    ensures old(cancel.raised) ==> cancel.raised
    ensures cancel.raised ==> old(cancel.raised) || cancel.rise.Some?
    ensures outcome == Cancelled ==> cancel.raised
    ensures Steady(report, 0, ReadableTotal(source), ReadableTotal(source))
  {
    hide RealEdges, AllEdges, Fold, RealWindows, InOrder, Steady, AllWindows, OffsetsFrom;
    hide HashSet.TableOf, FullReads, ValidReads, Disjoint, ReadableTotal, ShiftedSet, Addresses;
    var os := OffsetsFrom(0, maxOffset, step);
    var shiftedVals := ShiftedValues(current, os);
    var shifted := new HashSet.FlatHashSet(mix, shiftedVals);
    var found;
    ghost var seen, home;
    var callback := Callback(mix, shifted.slots, slots, os, maxEdges);
    found, outcome, report, seen, home :=
      ForEachWindow(mem, got, source, 8, 8, chunk, callback, Found([], false), cancel);
    edges, truncated := found.edges, found.truncated;
    LevelFound(g, source, mix, shifted.slots, shiftedVals, slots, current, os, maxEdges, seen, home, found,
      outcome != Stopped);
    if outcome == Done && chunk >= 8 && FullReads(got, Backed(mem, source), 8) {
      LevelFull(g, source, current, seen, edges);
    }
  }

  lemma LevelFound(g: Graph, source: seq<Region>, mix: Word -> Word, shiftedSlots: seq<Word>, shifted: seq<Word>,
                   slots: seq<Word>, current: seq<Word>, os: seq<Word>, maxEdges: nat,
                   seen: seq<nat>, home: seq<nat>, found: Found, go: bool)
    requires g.step > 0 && g.sources == AllWindows(source, 8, 8) && Disjoint(source) && os == Offsets(g)
    requires HashSet.TableOf(mix, shiftedSlots, shifted) && HashSet.TableOf(mix, slots, current)
    requires ShiftedSet(shifted, current, os)
    requires RealWindows(g.mem, source, 8, 8, seen, home) && InOrder(seen, home)
    requires Fold(g.mem, 8, Callback(mix, shiftedSlots, slots, os, maxEdges), Found([], false), seen) == (found, go)
    ensures RealEdges(g, found.edges) && Addresses(seen) && forall e :: e in found.edges ==> e.target in current
    ensures |found.edges| <= EdgeLimit(maxEdges) && found.truncated == (|found.edges| == EdgeLimit(maxEdges)) == !go
    ensures go ==> found.edges == LevelEdges(g, current, seen)
  {
    LevelWalk(mix, shiftedSlots, shifted, slots, g, current, seen, maxEdges);
    SeenDistinct(g.mem, source, 8, 8, seen, home);
    assert go ==> Upto(LevelEdges(g, current, seen), EdgeLimit(maxEdges)) == LevelEdges(g, current, seen);
    hide *;
    LevelReal(g, current, seen, found.edges);
  }

  lemma LevelReal(g: Graph, current: seq<Word>, seen: seq<nat>, edges: seq<Edge>)
    requires g.step > 0 && Addresses(seen) && Distinct(seen) && edges <= LevelEdges(g, current, seen)
    requires forall a: nat :: a in seen ==> a in g.sources
    ensures RealEdges(g, edges) && forall e :: e in edges ==> e.target in current
  {
    LevelEdgesDistinct(g, current, seen);
    forall e | e in edges
      ensures Link(g, e.source, e.offset, e.target) && e.target in current
    {
      assert e in LevelEdges(g, current, seen);
      LevelEdgesMembers(g, current, seen, e);
    }
  }

  lemma LevelFull(g: Graph, source: seq<Region>, current: seq<Word>, seen: seq<nat>, edges: seq<Edge>)
    requires g.step > 0 && g.sources == AllWindows(source, 8, 8) && seen == AllWindows(Backed(g.mem, source), 8, 8)
    requires RealEdges(g, edges) && edges == LevelEdges(g, current, seen) && Addresses(seen)
    ensures AllEdges(g, current, edges)
  {
    BackedSources(g, source);
    hide AllWindows, Backed;
    forall e: Edge | Link(g, e.source, e.offset, e.target) && e.target in current
      ensures e in edges
    {
      LevelEdgesMembers(g, current, seen, e);
    }
  }

  /** Where nothing can be read no pointer is stored, so every link starts in a region that is read. */
  lemma BackedSources(g: Graph, source: seq<Region>)
    requires g.step > 0 && g.sources == AllWindows(source, 8, 8)
    ensures forall a: nat :: a in AllWindows(Backed(g.mem, source), 8, 8) ==> a in g.sources
    ensures forall a: nat :: a in g.sources && PointerAt(g.mem, a) != 0 ==> a in AllWindows(Backed(g.mem, source), 8, 8)
  {
    var backed := Backed(g.mem, source);
    AllWindowsSpec(source, 8, 8);
    AllWindowsSpec(backed, 8, 8);
    hide AllWindows, Backed, PointerAt;
    forall a: nat | a in AllWindows(backed, 8, 8)
      ensures a in g.sources
    {
      var k :| 0 <= k < |backed| && IsWindow(backed[k], a, 8, 8);
      BackedAre(g.mem, source, backed[k]);
      assert backed[k] in backed;
      var j :| 0 <= j < |source| && source[j] == backed[k];
      assert IsWindow(source[j], a, 8, 8);
    }
    forall a: nat | a in g.sources && PointerAt(g.mem, a) != 0
      ensures a in AllWindows(backed, 8, 8)
    {
      var j :| 0 <= j < |source| && IsWindow(source[j], a, 8, 8);
      PointerHeld(g.mem, source[j], a);
      BackedAre(g.mem, source, source[j]);
      assert source[j] in source;
      var k :| 0 <= k < |backed| && backed[k] == source[j];
      assert IsWindow(backed[k], a, 8, 8);
    }
  }

  lemma BackedAre(mem: Bytes, source: seq<Region>, r: Region)
    ensures r in Backed(mem, source) <==> r in source && HoldsBytes(mem, r)
  {
    BackedMembers(mem, source, |source|, r);
    assert source[..|source|] == source;
  }

  lemma PointerHeld(mem: Bytes, r: Region, a: nat)
    requires IsWindow(r, a, 8, 8) && PointerAt(mem, a) != 0
    ensures HoldsBytes(mem, r)
  {
    if forall k :: a <= k < a + 8 ==> k !in mem {
      NullPointer(mem, a);
    }
  }

  // --- The whole search ---

  datatype Result = Result(
    target: Word, chains: seq<Chain>, edgesTruncated: bool, chainsTruncated: bool, cancelled: bool,
    levels: nat, totalEdges: nat)

  /** n * t, the total over n levels. */
  function Times(n: nat, t: nat): nat {
    if n == 0 then 0 else Times(n - 1, t) + t
  }

  lemma TimesNext(n: nat, t: nat)
    ensures Times(n + 1, t) == Times(n, t) + t
  {
  }

  lemma {:induction false} TimesMonotone(m: nat, n: nat, t: nat)
    requires m <= n
    ensures Times(m, t) <= Times(n, t)
  {
    if m < n {
      TimesMonotone(m, n - 1, t);
    }
  }

  /** Every chain is a simple path of depth 1 to n, none listed twice. */
  ghost predicate Sound(g: Graph, n: nat, chains: seq<Chain>)
    requires g.step > 0
  {
    && Distinct(chains)
    && forall c :: c in chains ==> IsPath(g, c.nodes, c.offsets) && 1 <= |c.offsets| == c.depth <= n
  }

  /** Every simple path of depth 1 to n is listed. */
  ghost predicate CompleteTo(g: Graph, n: int, chains: seq<Chain>)
    requires g.step > 0
  {
    forall ns, os :: IsPath(g, ns, os) && 1 <= |os| <= n ==> Chain(ns, os, |os|) in chains
  }

  lemma AddLevel(g: Graph, d: nat, chains: seq<Chain>, next: seq<Chain>)
    requires g.step > 0 && Sound(g, d, chains) && SomePaths(g, d + 1, next)
    ensures Sound(g, d + 1, chains + next)
    ensures CompleteTo(g, d, chains) && AllPaths(g, d + 1, next) ==> CompleteTo(g, d + 1, chains + next)
  {
    hide IsPath;
    DistinctJoin(chains, next);
  }

  /** A level without paths means the list is complete to any depth. */
  lemma Exhausted(g: Graph, d: nat, n: int, chains: seq<Chain>)
    requires g.step > 0 && CompleteTo(g, d, chains) && AllPaths(g, d + 1, [])
    ensures CompleteTo(g, n, chains)
  {
    forall ns, os | IsPath(g, ns, os) && 1 <= |os| <= n
      ensures Chain(ns, os, |os|) in chains
    {
      if |os| > d {
        NoDeeperPaths(g, d + 1, ns, os);
      }
    }
  }

  lemma SoundWiden(g: Graph, d: nat, n: nat, chains: seq<Chain>)
    requires g.step > 0 && Sound(g, d, chains) && d <= n
    ensures Sound(g, n, chains)
  {
    hide IsPath, Distinct;
  }

  function Shift(ps: seq<Progress>, base: nat, total: nat): (qs: seq<Progress>)
    ensures |qs| == |ps|
  {
    seq(|ps|, i requires 0 <= i < |ps| => Progress(base + ps[i].scanned, total))
  }

  lemma ShiftSteady(ps: seq<Progress>, level: nat, base: nat, total: nat)
    requires Steady(ps, 0, level, level)
    ensures Steady(Shift(ps, base, total), base, base + level, total)
  {
  }

  function Step(opts: Options): (s: nat)
    ensures s > 0
  {
    if opts.offsetStep == 0 then 1 else opts.offsetStep
  }

  /** The snapshot as the scan sees it: 8-aligned positions of the selected regions. */
  function ScanGraph(mem: Bytes, regions: seq<Region>, opts: Options): (g: Graph)
    ensures g.step > 0
  {
    Graph(mem, AllWindows(SourceRegions(regions, opts, |regions|), 8, 8), opts.target, opts.maxOffset, Step(opts))
  }

  /** How far the search has come after d levels; lossless says that nothing was cut so far. */
  ghost predicate Reached(g: Graph, d: nat, lossless: bool, chains: seq<Chain>, frontier: seq<Chain>,
                          current: seq<Word>)
    requires g.step > 0
  {
    && Sound(g, d, chains) && SomePaths(g, d, frontier)
    && (lossless ==> CompleteTo(g, d, chains) && AllPaths(g, d, frontier) && HeadsIn(g, d, current))
  }

  lemma ReachedStart(g: Graph, full: bool)
    requires g.step > 0
    ensures Reached(g, 0, full, [], [Chain([g.target], [], 0)], [g.target])
  {
    StartLevel(g);
  }

  lemma ReachedNext(g: Graph, d: nat, was: bool, lossless: bool, chains: seq<Chain>, frontier: seq<Chain>,
                    current: seq<Word>, edges: seq<Edge>, next: seq<Chain>, srcs: seq<Word>)
    requires g.step > 0 && Reached(g, d, was, chains, frontier, current) && RealEdges(g, edges)
    requires next <= Extended(frontier, |frontier|, edges)
    requires lossless ==> was && AllEdges(g, current, edges) && next == Extended(frontier, |frontier|, edges)
    requires forall e :: e in edges ==> e.source in srcs
    ensures Reached(g, d + 1, lossless, chains + next, next, srcs)
  {
    hide IsPath, Link, Extended, Distinct, RealEdges, AllEdges;
    ExtendSound(g, d, frontier, edges, next);
    if lossless {
      ExtendComplete(g, d, frontier, current, edges, srcs);
    }
    AddLevel(g, d, chains, next);
  }

  lemma {:induction false} ExtendedByNone(frontier: seq<Chain>, i: nat)
    requires i <= |frontier|
    ensures Extended(frontier, i, []) == []
  {
    if i > 0 {
      ExtendedByNone(frontier, i - 1);
    }
  }

  function Sources(edges: seq<Edge>): seq<Word> {
    seq(|edges|, i requires 0 <= i < |edges| => edges[i].source)
  }

  method SourcesOf(edges: seq<Edge>) returns (srcs: seq<Word>)
    ensures srcs == Sources(edges)
  {
    srcs := [];
    var i := 0;
    while i < |edges|
      invariant 0 <= i <= |edges| && |srcs| == i
      invariant forall k :: 0 <= k < i ==> srcs[k] == edges[k].source
    {
      srcs := srcs + [edges[i].source];
      i := i + 1;
    }
  }

  // --- What a result counts and flags ---

  /** One level that found edges: they prolong frontier to next; stopped and cut are its two truncations. */
  datatype Stage = Stage(frontier: seq<Chain>, edges: seq<Edge>, next: seq<Chain>, stopped: bool, cut: bool)

  /** With full reads a level that was not stopped has every link into its targets. */
  ghost predicate StageOk(g: Graph, opts: Options, full: bool, current: seq<Word>, st: Stage)
    requires g.step > 0
  {
    && (full && !st.stopped ==> AllEdges(g, current, st.edges))
    && st.edges != [] && RealEdges(g, st.edges) && InEdgeOrder(st.edges)
    && (forall e :: e in st.edges ==> e.target in current)
    && |st.edges| <= EdgeLimit(opts.maxEdges) && st.stopped == (|st.edges| == EdgeLimit(opts.maxEdges))
    && st.next == Upto(Extended(st.frontier, |st.frontier|, st.edges), opts.maxChains)
    && st.cut == CutShort(st.frontier, st.edges, opts.maxChains)
  }

  /** The frontier and the targets before level i. */
  function FrontierAt(g: Graph, stages: seq<Stage>, i: nat): seq<Chain>
    requires i <= |stages|
  {
    if i == 0 then [Chain([g.target], [], 0)] else stages[i - 1].next
  }

  function TargetsAt(g: Graph, stages: seq<Stage>, i: nat): seq<Word>
    requires i <= |stages|
  {
    if i == 0 then [g.target] else Sources(stages[i - 1].edges)
  }

  /** Every level starts where the one before it ended, and only the last may have been stopped. */
  ghost predicate Trail(g: Graph, opts: Options, full: bool, stages: seq<Stage>)
    requires g.step > 0
  {
    forall i :: 0 <= i < |stages| ==>
      && StageOk(g, opts, full, TargetsAt(g, stages, i), stages[i]) && stages[i].frontier == FrontierAt(g, stages, i)
      && (stages[i].stopped ==> i == |stages| - 1)
  }

  function TotalEdges(stages: seq<Stage>): nat {
    if stages == [] then 0 else TotalEdges(stages[..|stages| - 1]) + |stages[|stages| - 1].edges|
  }

  function AllNext(stages: seq<Stage>): seq<Chain> {
    if stages == [] then [] else AllNext(stages[..|stages| - 1]) + stages[|stages| - 1].next
  }

  predicate SomeStopped(stages: seq<Stage>) {
    exists i :: 0 <= i < |stages| && stages[i].stopped
  }

  predicate SomeCut(stages: seq<Stage>) {
    exists i :: 0 <= i < |stages| && stages[i].cut
  }

  /** The result of a search that went through these levels. */
  function Totals(target: Word, stages: seq<Stage>): Result {
    Result(target, AllNext(stages), SomeStopped(stages), SomeCut(stages), false, |stages|, TotalEdges(stages))
  }

  /** The result after one more level that found edges. */
  function LevelDone(res: Result, st: Stage): Result {
    res.(levels := res.levels + 1, totalEdges := res.totalEdges + |st.edges|, chains := res.chains + st.next,
         edgesTruncated := res.edgesTruncated || st.stopped, chainsTruncated := res.chainsTruncated || st.cut)
  }

  lemma TotalsNext(target: Word, stages: seq<Stage>, st: Stage)
    ensures Totals(target, stages + [st]) == LevelDone(Totals(target, stages), st)
  {
    var more := stages + [st];
    assert more[..|stages|] == stages;
    assert forall i :: 0 <= i < |stages| ==> more[i] == stages[i];
    assert more[|stages|] == st;
  }

  lemma AtSame(g: Graph, stages: seq<Stage>, st: Stage, i: nat)
    requires i <= |stages|
    ensures TargetsAt(g, stages + [st], i) == TargetsAt(g, stages, i)
    ensures FrontierAt(g, stages + [st], i) == FrontierAt(g, stages, i)
  {
    hide Sources;
  }

  lemma TrailNext(g: Graph, opts: Options, full: bool, stages: seq<Stage>, st: Stage)
    requires g.step > 0 && Trail(g, opts, full, stages) && StageOk(g, opts, full, TargetsAt(g, stages, |stages|), st)
    requires st.frontier == FrontierAt(g, stages, |stages|) && !SomeStopped(stages)
    ensures Trail(g, opts, full, stages + [st])
  {
    hide StageOk, TargetsAt, FrontierAt;
    var more := stages + [st];
    forall i | 0 <= i < |more|
      ensures StageOk(g, opts, full, TargetsAt(g, more, i), more[i]) && more[i].frontier == FrontierAt(g, more, i)
      ensures more[i].stopped ==> i == |more| - 1
    {
      AtSame(g, stages, st, i);
    }
  }

  /**
   * max_chains bounds every level, so the whole result only by levels times as many: it is a bound on the total
   * for one level, for a limit of 0, and where the first edge already stops the search.
   */
  lemma ChainsPerLevel(g: Graph, opts: Options, full: bool, stages: seq<Stage>)
    requires g.step > 0 && Trail(g, opts, full, stages) && |stages| <= Depth(opts)
    ensures forall i :: 0 <= i < |stages| ==> |stages[i].next| <= opts.maxChains
    ensures |AllNext(stages)| <= Times(|stages|, opts.maxChains)
    ensures opts.maxDepth <= 1 || opts.maxChains == 0 || opts.maxEdges <= 1 ==> |AllNext(stages)| <= opts.maxChains
  {
    forall i | 0 <= i < |stages|
      ensures |stages[i].next| <= opts.maxChains && (opts.maxEdges <= 1 ==> i == |stages| - 1)
    {
      assert StageOk(g, opts, full, TargetsAt(g, stages, i), stages[i]);
      hide RealEdges, SortedByTarget, InEdgeOrder, Extended, CutShort, Sources;
    }
    NextPerLevel(stages, opts.maxChains);
    hide Trail, AllNext;
    if |stages| <= 1 {
      TimesMonotone(|stages|, 1, opts.maxChains);
      assert Times(1, opts.maxChains) == opts.maxChains;
    } else if opts.maxChains == 0 {
      NothingTimes(|stages|);
    }
  }

  lemma {:induction false} NothingTimes(n: nat)
    ensures Times(n, 0) == 0
  {
    if n > 0 {
      NothingTimes(n - 1);
    }
  }

  lemma {:induction false} NextPerLevel(stages: seq<Stage>, limit: nat)
    requires forall i :: 0 <= i < |stages| ==> |stages[i].next| <= limit
    ensures |AllNext(stages)| <= Times(|stages|, limit)
  {
    if stages != [] {
      NextPerLevel(stages[..|stages| - 1], limit);
    }
  }

  /** No chain is deeper than the levels walked. */
  ghost predicate Shallow(levels: nat, chains: seq<Chain>) {
    forall c :: c in chains ==> c.depth <= levels
  }

  /** Reads are full in every region of which anything can be read. */
  ghost predicate AllFull(mem: Bytes, gots: nat -> ReadCounts, source: seq<Region>, chunk: nat) {
    chunk >= 8 && forall d: nat :: FullReads(gots(d), Backed(mem, source), 8)
  }

  ghost predicate AllValid(mem: Bytes, gots: nat -> ReadCounts) {
    forall d: nat :: ValidReads(mem, gots(d))
  }

  /** finish_cancelled: nothing partial is published. */
  function Withdrawn(target: Word): Result {
    Result(target, [], false, false, true, 0, 0)
  }

  function Depth(opts: Options): nat {
    if opts.maxDepth <= 0 then 0 else opts.maxDepth
  }

  /** What a finished search says about its chains. */
  ghost predicate Answer(g: Graph, n: nat, lossless: bool, chains: seq<Chain>)
    requires g.step > 0
  {
    Sound(g, n, chains) && (lossless ==> CompleteTo(g, n, chains))
  }

  /** With target and sources above the window, a lossless answer lists exactly the plain paths, each once. */
  lemma PlainAnswer(g: Graph, n: nat, chains: seq<Chain>, c: Chain)
    requires g.step > 0 && AboveWindow(g) && Answer(g, n, true, chains)
    ensures Distinct(chains)
    ensures c in chains <==> PlainPath(g, c.nodes, c.offsets) && 1 <= |c.offsets| == c.depth <= n
  {
    hide IsPath, PlainPath, AboveWindow;
    PlainPaths(g, c.nodes, c.offsets);
    if PlainPath(g, c.nodes, c.offsets) && 1 <= |c.offsets| == c.depth <= n {
      assert c == Chain(c.nodes, c.offsets, |c.offsets|);
    }
  }

  // --- The answer in terms of the bytes ---

  /** At a wanted position a nonnull pointer is stored that some offset of the window takes, modulo 2^64, to next. */
  predicate StoredLink(mem: Bytes, regions: seq<Region>, opts: Options, a: Word, o: Word, next: Word) {
    && Scanned(regions, opts, a) && EightAt(mem, a) != 0 && next != 0
    && o <= opts.maxOffset && o % (if opts.offsetStep == 0 then 1 else opts.offsetStep) == 0
    && (EightAt(mem, a) + o == next || EightAt(mem, a) + o == next + 0x1_0000_0000_0000_0000)
  }

  /** Such links one after the other, ending at the target, with no address twice. */
  predicate StoredPath(mem: Bytes, regions: seq<Region>, opts: Options, nodes: seq<Word>, offsets: seq<Word>) {
    && |nodes| == |offsets| + 1 && nodes[|offsets|] == opts.target
    && (forall i, j :: 0 <= i < j < |nodes| ==> nodes[i] != nodes[j])
    && forall i :: 0 <= i < |offsets| ==> StoredLink(mem, regions, opts, nodes[i], offsets[i], nodes[i + 1])
  }

  lemma LinkStored(mem: Bytes, regions: seq<Region>, opts: Options, a: Word, o: Word, next: Word)
    ensures Link(ScanGraph(mem, regions, opts), a, o, next) <==> StoredLink(mem, regions, opts, a, o, next)
  {
    var g := ScanGraph(mem, regions, opts);
    assert g.mem == mem && g.maxOffset == opts.maxOffset;
    assert g.step == if opts.offsetStep == 0 then 1 else opts.offsetStep;
    SourcesExactly(mem, regions, opts, a);
    OffsetsSpec(g);
    PointerStored(mem, a);
    hide ScanGraph, Scanned, PointerAt, EightAt, Offsets;
  }

  lemma PointerStored(mem: Bytes, a: nat)
    ensures PointerAt(mem, a) == EightAt(mem, a)
  {
    DecodeSpelled(BytesAt(mem, a, 8));
  }

  lemma PathStored(mem: Bytes, regions: seq<Region>, opts: Options, nodes: seq<Word>, offsets: seq<Word>)
    ensures IsPath(ScanGraph(mem, regions, opts), nodes, offsets) <==> StoredPath(mem, regions, opts, nodes, offsets)
  {
    var g := ScanGraph(mem, regions, opts);
    assert g.target == opts.target;
    IsPathSpec(g, nodes, offsets);
    hide ScanGraph, IsPath, Link, StoredLink;
    if |nodes| == |offsets| + 1 {
      forall i | 0 <= i < |offsets|
        ensures Link(g, nodes[i], offsets[i], nodes[i + 1]) <==>
                  StoredLink(mem, regions, opts, nodes[i], offsets[i], nodes[i + 1])
      {
        LinkStored(mem, regions, opts, nodes[i], offsets[i], nodes[i + 1]);
      }
    }
  }

  /** A lossless answer lists exactly the stored paths of depth 1 to maxDepth, each once. */
  lemma ScanAnswer(mem: Bytes, regions: seq<Region>, opts: Options, chains: seq<Chain>, c: Chain)
    requires Answer(ScanGraph(mem, regions, opts), Depth(opts), true, chains)
    ensures Distinct(chains)
    ensures c in chains <==>
              StoredPath(mem, regions, opts, c.nodes, c.offsets) && 1 <= |c.offsets| == c.depth <= opts.maxDepth
  {
    var g := ScanGraph(mem, regions, opts);
    assert Depth(opts) == if opts.maxDepth <= 0 then 0 else opts.maxDepth;
    PathStored(mem, regions, opts, c.nodes, c.offsets);
    hide ScanGraph, IsPath, StoredPath, Depth;
    if IsPath(g, c.nodes, c.offsets) && 1 <= |c.offsets| == c.depth <= opts.maxDepth {
      assert c == Chain(c.nodes, c.offsets, |c.offsets|);
    }
  }

  lemma LevelUse(mem: Bytes, gots: nat -> ReadCounts, source: seq<Region>, chunk: nat, d: nat)
    requires AllValid(mem, gots)
    ensures ValidReads(mem, gots(d))
    ensures AllFull(mem, gots, source, chunk) ==> chunk >= 8 && FullReads(gots(d), Backed(mem, source), 8)
  {
  }

  /** A level that adds nothing ends the search. */
  lemma NothingMore(g: Graph, d: nat, n: nat, was: bool, lossless: bool, chains: seq<Chain>, frontier: seq<Chain>,
                    current: seq<Word>, edges: seq<Edge>, next: seq<Chain>)
    requires g.step > 0 && Reached(g, d, was, chains, frontier, current) && RealEdges(g, edges) && d <= n
    requires next == []
    requires lossless ==> was && AllEdges(g, current, edges) && next == Extended(frontier, |frontier|, edges)
    ensures Answer(g, n, lossless, chains)
  {
    hide IsPath, Link, Extended, Distinct, RealEdges, AllEdges, AllPaths, CompleteTo, HeadsIn;
    SoundWiden(g, d, n, chains);
    if lossless {
      ExtendComplete(g, d, frontier, current, edges, SomeSources(edges));
      Exhausted(g, d, n, chains);
    }
  }

  function SomeSources(edges: seq<Edge>): (srcs: seq<Word>)
    ensures forall e :: e in edges ==> e.source in srcs
  {
    if edges == [] then [] else [edges[0].source] + SomeSources(edges[1..])
  }

  lemma ReachedAnswer(g: Graph, d: nat, n: nat, lossless: bool, cut: bool, chains: seq<Chain>, frontier: seq<Chain>,
                      current: seq<Word>)
    requires g.step > 0 && Reached(g, d, lossless, chains, frontier, current) && d <= n
    requires d == n || cut
    ensures Answer(g, n, lossless && !cut, chains)
  {
    hide CompleteTo, AllPaths, HeadsIn;
    SoundWiden(g, d, n, chains);
  }

  /** Sorts a level's edges, prolongs the frontier by them and collects the next level's targets. */
  method ExtendLevel(ghost g: Graph, ghost d: nat, ghost n: nat, ghost was: bool, ghost all: bool,
                     ghost chains: seq<Chain>,
                     frontier: seq<Chain>, ghost current: seq<Word>, edges: seq<Edge>, maxChains: nat,
                     cancel: CancelFlag)
    returns (stop: bool, next: seq<Chain>, cut: bool, srcs: seq<Word>, ghost sorted: seq<Edge>)
    requires g.step > 0 && d < n && Reached(g, d, was, chains, frontier, current) && RealEdges(g, edges)
    requires was && all ==> AllEdges(g, current, edges)
    modifies cancel
    ensures (old(cancel.raised) ==> stop) && stop == cancel.raised
    ensures cancel.raised ==> old(cancel.raised) || cancel.rise.Some?
    ensures !stop && next == [] ==> Answer(g, n, was && all && !cut, chains)
    ensures !stop ==> Reached(g, d + 1, was && all && !cut, chains + next, next, srcs)
    ensures InEdgeOrder(sorted) && RealEdges(g, sorted) && |sorted| == |edges|
    ensures forall e :: e in sorted <==> e in edges
    ensures AllEdges(g, current, edges) ==> AllEdges(g, current, sorted)
    ensures !stop ==> next == Upto(Extended(frontier, |frontier|, sorted), maxChains)
    ensures !stop ==> cut == CutShort(frontier, sorted, maxChains) && srcs == Sources(sorted)
  {
    hide Reached, RealEdges, AllEdges, Extended, Answer, SortedByTarget, InEdgeOrder, Distinct, CutShort, Upto;
    next, cut, srcs := [], false, [];
    var ordered := SortEdges(edges);
    sorted := ordered;
    SameEdges(g, current, edges, sorted);
    stop := cancel.Load();
    if stop {
      return;
    }
    OrderedByTarget(ordered);
    next, cut := ExtendChains(frontier, ordered, maxChains);
    srcs := SourcesOf(ordered);
    SourcesCover(sorted);
    hide Sources;
    ReachedNext(g, d, was, was && all && !cut, chains, frontier, current, sorted, next, srcs);
    if next == [] {
      NothingMore(g, d, n, was, was && all && !cut, chains, frontier, current, sorted, next);
    }
  }

  lemma SourcesCover(edges: seq<Edge>)
    ensures forall e :: e in edges ==> e.source in Sources(edges)
  {
    forall e | e in edges
      ensures e.source in Sources(edges)
    {
      var i :| 0 <= i < |edges| && edges[i] == e;
      assert Sources(edges)[i] == e.source;
    }
  }

  /**
   * One level: scan for its edges, then prolong the frontier. stop says that the cancel flag
   * was seen after the scan or before the frontier is prolonged.
   */
  method Level(mem: Bytes, got: ReadCounts, source: seq<Region>, opts: Options, ghost g: Graph, ghost n: nat,
               mix: Word -> Word, ghost d: nat, ghost full: bool, ghost was: bool, ghost chains: seq<Chain>,
               frontier: seq<Chain>, currentValues: seq<Word>, slots: seq<Word>, chunk: nat, cancel: CancelFlag)
    returns (stop: bool, edges: nat, stopped: bool, next: seq<Chain>, cut: bool, srcs: seq<Word>, report: seq<Progress>,
             ghost st: Stage)
    requires chunk > 0 && Disjoint(source) && ValidReads(mem, got) && d < n
    requires GraphOf(g, mem, source, opts.maxOffset, Step(opts)) && HashSet.TableOf(mix, slots, currentValues)
    requires Reached(g, d, was, chains, frontier, currentValues)
    requires was ==> full
    requires full ==> chunk >= 8 && FullReads(got, Backed(mem, source), 8)
    modifies cancel
    ensures (old(cancel.raised) ==> stop) && stop == cancel.raised
    ensures cancel.raised ==> old(cancel.raised) || cancel.rise.Some?
    ensures !stop ==> st == Stage(frontier, st.edges, next, stopped, cut)
    ensures !stop ==> edges == |st.edges| && srcs == Sources(st.edges)
    ensures !stop && edges > 0 ==> StageOk(g, opts, full, currentValues, st)
    ensures !stop && edges == 0 ==> next == [] && !cut && !stopped
    ensures !stop && next == [] ==> Answer(g, n, was && !stopped && !cut, chains)
    ensures !stop ==> next == [] || Reached(g, d + 1, was && !stopped && !cut, chains + next, next, srcs)
    ensures Steady(report, 0, ReadableTotal(source), ReadableTotal(source))
  {
    hide Reached, RealEdges, AllEdges, Extended, Steady, Disjoint, Answer, SomePaths, CutShort, Upto, SortedByTarget,
      InEdgeOrder;
    hide ValidReads, FullReads, AllWindows, ReadableTotal, HashSet.TableOf, Distinct;
    next, cut, srcs := [], false, [];
    st := Stage(frontier, [], [], false, false);
    var found, outcome;
    found, stopped, outcome, report :=
      ScanLevel(mem, got, source, g, mix, currentValues, slots, opts.maxOffset, Step(opts), opts.maxEdges, chunk,
        cancel);
    edges := |found|;
    stop := cancel.Load();
    if stop {
      return;
    }
    if edges == 0 {
      ExtendedByNone(frontier, |frontier|);
      NothingMore(g, d, n, was, was && !stopped, chains, frontier, currentValues, found, []);
      return;
    }
    ghost var sorted;
    stop, next, cut, srcs, sorted :=
      ExtendLevel(g, d, n, was, !stopped, chains, frontier, currentValues, found, opts.maxChains, cancel);
    st := Stage(frontier, sorted, next, stopped, cut);
  }

  /** The state of the search before level |stages| + 1. */
  ghost predicate Running(g: Graph, opts: Options, n: nat, full: bool, res: Result, frontier: seq<Chain>,
                          current: seq<Word>, stages: seq<Stage>, progress: seq<Progress>, levelTotal: nat)
    requires g.step > 0
  {
    var d := |stages|;
    && d <= n && res == Totals(g.target, stages) && Trail(g, opts, full, stages) && !SomeStopped(stages)
    && frontier == FrontierAt(g, stages, d) && current == TargetsAt(g, stages, d) && Shallow(d, res.chains)
    && Reached(g, d, full && !res.edgesTruncated && !res.chainsTruncated, res.chains, frontier, current)
    && Steady(progress, 0, Times(d, levelTotal), Times(n, levelTotal))
    && Steady(progress, 0, Times(n, levelTotal), Times(n, levelTotal))
  }

  /** The state it ends in. */
  ghost predicate Finished(g: Graph, opts: Options, n: nat, full: bool, res: Result, stages: seq<Stage>,
                           progress: seq<Progress>, levelTotal: nat)
    requires g.step > 0
  {
    && |stages| <= n && res == Totals(g.target, stages) && Trail(g, opts, full, stages) && Shallow(|stages|, res.chains)
    && Answer(g, n, full && !res.edgesTruncated && !res.chainsTruncated, res.chains)
    && Steady(progress, 0, Times(n, levelTotal), Times(n, levelTotal))
  }

  lemma StartRunning(g: Graph, opts: Options, n: nat, full: bool, levelTotal: nat)
    requires g.step > 0
    ensures Running(g, opts, n, full, Result(g.target, [], false, false, false, 0, 0), [Chain([g.target], [], 0)],
                    [g.target], [], [], levelTotal)
    ensures Times(0, levelTotal) == 0
  {
    ReachedStart(g, full);
    TimesMonotone(0, n, levelTotal);
    hide Reached;
  }

  lemma ReachedShallow(g: Graph, d: nat, lossless: bool, chains: seq<Chain>, frontier: seq<Chain>, current: seq<Word>)
    requires g.step > 0 && Reached(g, d, lossless, chains, frontier, current)
    ensures Shallow(d, chains)
  {
    hide IsPath, CompleteTo, AllPaths, HeadsIn, Distinct;
  }

  /** A level that adds chains leads to the next one; if its edges were cut short, the search may end there. */
  lemma GoOn(g: Graph, opts: Options, n: nat, full: bool, res: Result, frontier: seq<Chain>, current: seq<Word>,
             stages: seq<Stage>, progress: seq<Progress>, levelTotal: nat, st: Stage, srcs: seq<Word>,
             report: seq<Progress>)
    requires g.step > 0 && |stages| < n
    requires Running(g, opts, n, full, res, frontier, current, stages, progress, levelTotal)
    requires StageOk(g, opts, full, current, st) && st.frontier == frontier && srcs == Sources(st.edges)
    requires Steady(report, 0, levelTotal, levelTotal)
    requires Reached(g, |stages| + 1, full && !res.edgesTruncated && !res.chainsTruncated && !st.stopped && !st.cut,
                     res.chains + st.next, st.next, srcs)
    ensures var all := progress + Shift(report, Times(|stages|, levelTotal), Times(n, levelTotal));
            var res' := LevelDone(res, st);
            && (!st.stopped ==> Running(g, opts, n, full, res', st.next, srcs, stages + [st], all, levelTotal))
            && (st.stopped || |stages| + 1 == n ==> Finished(g, opts, n, full, res', stages + [st], all, levelTotal))
  {
    hide Reached, Steady, StageOk, Answer, Trail, Totals, Sources, Shallow;
    var d := |stages|;
    var lossless := full && !res.edgesTruncated && !res.chainsTruncated && !st.stopped && !st.cut;
    LevelProgress(progress, report, d, n, levelTotal);
    TotalsNext(g.target, stages, st);
    TrailNext(g, opts, full, stages, st);
    ReachedShallow(g, d + 1, lossless, res.chains + st.next, st.next, srcs);
    if st.stopped || d + 1 == n {
      ReachedAnswer(g, d + 1, n, lossless, st.stopped, res.chains + st.next, st.next, srcs);
    }
  }

  /** A level without edges ends the search. */
  lemma EndsEmpty(g: Graph, opts: Options, n: nat, full: bool, res: Result, frontier: seq<Chain>, current: seq<Word>,
                  stages: seq<Stage>, progress: seq<Progress>, levelTotal: nat, report: seq<Progress>)
    requires g.step > 0 && |stages| < n
    requires Running(g, opts, n, full, res, frontier, current, stages, progress, levelTotal)
    requires Steady(report, 0, levelTotal, levelTotal)
    requires Answer(g, n, full && !res.edgesTruncated && !res.chainsTruncated, res.chains)
    ensures Finished(g, opts, n, full, res, stages,
                     progress + Shift(report, Times(|stages|, levelTotal), Times(n, levelTotal)), levelTotal)
  {
    hide Reached, Steady, Answer, Trail, Totals, Sources, Shallow;
    LevelProgress(progress, report, |stages|, n, levelTotal);
  }

  /** A level with edges that adds no chain ends it too. */
  lemma EndsBarren(g: Graph, opts: Options, n: nat, full: bool, res: Result, frontier: seq<Chain>, current: seq<Word>,
                   stages: seq<Stage>, progress: seq<Progress>, levelTotal: nat, st: Stage, report: seq<Progress>)
    requires g.step > 0 && |stages| < n
    requires Running(g, opts, n, full, res, frontier, current, stages, progress, levelTotal)
    requires StageOk(g, opts, full, current, st) && st.frontier == frontier && st.next == []
    requires Steady(report, 0, levelTotal, levelTotal)
    requires Answer(g, n, full && !res.edgesTruncated && !res.chainsTruncated && !st.stopped && !st.cut, res.chains)
    ensures Finished(g, opts, n, full, LevelDone(res, st), stages + [st],
                     progress + Shift(report, Times(|stages|, levelTotal), Times(n, levelTotal)), levelTotal)
  {
    hide Reached, Steady, StageOk, Answer, Trail, Totals, Sources;
    LevelProgress(progress, report, |stages|, n, levelTotal);
    assert res.chains + [] == res.chains;
    TotalsNext(g.target, stages, st);
    TrailNext(g, opts, full, stages, st);
  }

  /** One pass of the level loop up to its early exits, with what it adds to the result. */
  method AddLevelTo(mem: Bytes, got: ReadCounts, source: seq<Region>, opts: Options, ghost g: Graph, n: nat,
                    levelTotal: nat, mix: Word -> Word, d: nat, ghost full: bool, res0: Result, frontier: seq<Chain>,
                    currentValues: seq<Word>,
                    slots: seq<Word>, ghost stages0: seq<Stage>, progress0: seq<Progress>, scannedPrev: nat, chunk: nat,
                    cancel: CancelFlag)
    returns (stop: bool, over: bool, stopped: bool, res: Result, next: seq<Chain>, srcs: seq<Word>,
      progress: seq<Progress>,
             ghost stages: seq<Stage>)
    requires chunk > 0 && Disjoint(source) && ValidReads(mem, got) && d == |stages0| < n
    requires GraphOf(g, mem, source, opts.maxOffset, Step(opts)) && HashSet.TableOf(mix, slots, currentValues)
    requires full ==> chunk >= 8 && FullReads(got, Backed(mem, source), 8)
    requires levelTotal == ReadableTotal(source) && scannedPrev == Times(d, levelTotal)
    requires Running(g, opts, n, full, res0, frontier, currentValues, stages0, progress0, levelTotal)
    modifies cancel
    ensures (old(cancel.raised) ==> stop) && stop == cancel.raised
    ensures cancel.raised ==> old(cancel.raised) || cancel.rise.Some?
    ensures stop ==> Steady(progress, 0, Times(n, levelTotal), Times(n, levelTotal))
    ensures !stop ==> res.target == res0.target && res.cancelled == res0.cancelled
    ensures !stop && (over || stopped || d + 1 == n) ==> Finished(g, opts, n, full, res, stages, progress, levelTotal)
    ensures !stop && !over && !stopped ==>
              |stages| == d + 1 && Running(g, opts, n, full, res, next, srcs, stages, progress, levelTotal)
  {
    hide Reached, Steady, Disjoint, Answer, Running, Finished, ValidReads, FullReads, ReadableTotal, HashSet.TableOf;
    hide StageOk, Sources, Trail, Totals, TargetsAt, FrontierAt, Shallow, Step;
    RunningUse(g, opts, n, full, res0, frontier, currentValues, stages0, progress0, levelTotal);
    res, over, stages := res0, true, stages0;
    ghost var was := full && !res.edgesTruncated && !res.chainsTruncated;
    var edges, cut, report;
    ghost var st;
    stop, edges, stopped, next, cut, srcs, report, st :=
      Level(mem, got, source, opts, g, n, mix, d, full, was, res.chains, frontier, currentValues, slots, chunk, cancel);
    progress := progress0 + Shift(report, scannedPrev, Times(n, levelTotal));
    if stop {
      LevelProgress(progress0, report, d, n, levelTotal);
      return;
    }
    res := res.(edgesTruncated := res.edgesTruncated || stopped);
    if edges == 0 {
      EndsEmpty(g, opts, n, full, res0, frontier, currentValues, stages, progress0, levelTotal, report);
      return;
    }
    res := res.(levels := d + 1, totalEdges := res.totalEdges + edges, chainsTruncated := res.chainsTruncated || cut);
    if |next| == 0 {
      assert res0.chains + [] == res0.chains;
      EndsBarren(g, opts, n, full, res0, frontier, currentValues, stages, progress0, levelTotal, st, report);
      stages := stages + [st];
      return;
    }
    res := res.(chains := res.chains + next);
    GoOn(g, opts, n, full, res0, frontier, currentValues, stages, progress0, levelTotal, st, srcs, report);
    stages := stages + [st];
    over := false;
  }

  /** The level loop of pointer_scan; stages lists the levels that had edges. */
  method Search(mem: Bytes, gots: nat -> ReadCounts, source: seq<Region>, opts: Options, n: nat, ghost g: Graph,
                levelTotal: nat, mix: Word -> Word, chunk: nat, cancel: CancelFlag)
    returns (res: Result, progress: seq<Progress>, ghost stages: seq<Stage>)
    requires chunk > 0 && Disjoint(source) && AllValid(mem, gots) && n > 0
    requires GraphOf(g, mem, source, opts.maxOffset, Step(opts)) && g.target == opts.target
    requires levelTotal == ReadableTotal(source)
    modifies cancel
    ensures res.target == opts.target
    ensures old(cancel.raised) ==> res.cancelled
    ensures res.cancelled == cancel.raised && (cancel.raised ==> old(cancel.raised) || cancel.rise.Some?)
    ensures res.cancelled ==> res == Withdrawn(opts.target)
    ensures res.cancelled ==> Steady(progress, 0, Times(n, levelTotal), Times(n, levelTotal))
    ensures !res.cancelled ==>
        Finished(g, opts, n, AllFull(mem, gots, source, chunk), res, stages, progress, levelTotal)
  {
    hide Reached, Steady, Disjoint, AllValid, Times, Running, Finished, ValidReads, AllFull, FullReads, ReadableTotal;
    hide HashSet.TableOf, Trail, Totals, TargetsAt, FrontierAt, Shallow, Step;
    res := Result(opts.target, [], false, false, false, 0, 0);
    progress, stages := [], [];
    ghost var full := AllFull(mem, gots, source, chunk);
    var currentValues := [opts.target];
    var currentSet := new HashSet.FlatHashSet(mix, currentValues);
    var frontier := [Chain([opts.target], [], 0)];
    var scannedPrev := 0;
    StartRunning(g, opts, n, full, levelTotal);
    var d := 0;
    ghost var finished := false;
    while d < n
      invariant 0 <= d <= n && (d == n ==> finished) && fresh(currentSet) && currentSet.mix == mix
      invariant res.target == opts.target && !res.cancelled && |stages| == d
      invariant cancel.raised == old(cancel.raised) && (cancel.raised ==> d == 0)
      invariant Running(g, opts, n, full, res, frontier, currentValues, stages, progress, levelTotal)
      invariant finished ==> d == n && Finished(g, opts, n, full, res, stages, progress, levelTotal)
      invariant HashSet.TableOf(mix, currentSet.slots, currentValues) && scannedPrev == Times(d, levelTotal)
    {
      RunningUse(g, opts, n, full, res, frontier, currentValues, stages, progress, levelTotal);
      var stop := cancel.Load();
      if stop {
        res := Withdrawn(opts.target);
        return;
      }
      LevelUse(mem, gots, source, chunk, d);
      var over, stopped, srcs;
      stop, over, stopped, res, frontier, srcs, progress, stages :=
        AddLevelTo(mem, gots(d), source, opts, g, n, levelTotal, mix, d, full, res, frontier, currentValues,
                   currentSet.slots, stages, progress, scannedPrev, chunk, cancel);
      if stop {
        res := Withdrawn(opts.target);
        return;
      }
      if over {
        finished := true;
        break;
      }
      currentValues := srcs;
      currentSet.Build(srcs);
      scannedPrev := scannedPrev + levelTotal;
      TimesNext(d, levelTotal);
      d := d + 1;
      finished := stopped || d == n;
      if stopped {
        break;
      }
    }
  }

  lemma RunningUse(g: Graph, opts: Options, n: nat, full: bool, res: Result, frontier: seq<Chain>, current: seq<Word>,
                   stages: seq<Stage>, progress: seq<Progress>, levelTotal: nat)
    requires g.step > 0 && Running(g, opts, n, full, res, frontier, current, stages, progress, levelTotal)
    ensures res.levels == |stages|
    ensures Reached(g, |stages|, full && !res.edgesTruncated && !res.chainsTruncated, res.chains, frontier, current)
    ensures Steady(progress, 0, Times(|stages|, levelTotal), Times(n, levelTotal))
    ensures Steady(progress, 0, Times(n, levelTotal), Times(n, levelTotal))
  {
    hide Reached, Steady, Trail;
  }

  /**
   * pointer_scan. Sound always; complete when every read was full, nothing was
   * cancelled and no flag is set. Counters and flags are those of its levels.
   */
  method PointerScan(mem: Bytes, gots: nat -> ReadCounts, regions: seq<Region>, opts: Options,
                     mix: Word -> Word, chunk: nat, cancel: CancelFlag)
    returns (res: Result, progress: seq<Progress>, ghost stages: seq<Stage>)
    requires chunk > 0 && Disjoint(regions) && opts.maxOffset < 0x8000_0000_0000_0000 && AllValid(mem, gots)
    modifies cancel
    ensures res.target == opts.target
    ensures res.cancelled ==> res == Withdrawn(opts.target) && (old(cancel.raised) || cancel.rise.Some?)
    ensures old(cancel.raised) && opts.target != 0 && opts.maxDepth > 0 ==> res.cancelled
    ensures !res.cancelled ==>
              && res == Totals(opts.target, stages)
              && Trail(ScanGraph(mem, regions, opts), opts,
                       AllFull(mem, gots, SourceRegions(regions, opts, |regions|), chunk), stages)
              && res.levels <= Depth(opts) && Shallow(res.levels, res.chains)
    ensures Answer(ScanGraph(mem, regions, opts), Depth(opts),
                   AllFull(mem, gots, SourceRegions(regions, opts, |regions|), chunk) &&
                   !res.cancelled && !res.edgesTruncated && !res.chainsTruncated, res.chains)
    ensures Steady(progress, 0, Times(Depth(opts), ReadableTotal(SourceRegions(regions, opts, |regions|))),
                   Times(Depth(opts), ReadableTotal(SourceRegions(regions, opts, |regions|))))
    ensures !cancel.raised && opts.target != 0 &&
            Times(Depth(opts), ReadableTotal(SourceRegions(regions, opts, |regions|))) > 0 ==>
              progress != [] &&
              progress[|progress| - 1].scanned ==
                Times(Depth(opts), ReadableTotal(SourceRegions(regions, opts, |regions|)))
  {
    hide Steady, Disjoint, Answer, AllValid, SourceRegions, AllFull, AllWindows, ReadableTotal, StageOk;
    var n := Depth(opts);
    res := Result(opts.target, [], false, false, false, 0, 0);
    progress, stages := [], [];
    var source := SelectSources(regions, opts);
    var levelTotal := SumReadable(source);
    var grandTotal := Times(n, levelTotal);
    ghost var g := ScanGraph(mem, regions, opts);
    Trivial(g, opts, n, levelTotal);
    if opts.target == 0 || opts.maxDepth <= 0 {
      return;
    }
    SourceRegionsDisjoint(regions, opts, |regions|);
    hide Trail, Totals, Shallow;
    res, progress, stages := Search(mem, gots, source, opts, n, g, levelTotal, mix, chunk, cancel);
    if res.cancelled {
      return;
    }
    var stop := cancel.Load();
    if !stop && grandTotal > 0 {
      Report(progress, 0, grandTotal, grandTotal, grandTotal);
      progress := progress + [Progress(grandTotal, grandTotal)];
    }
  }

  /** Each level reports on top of the levels before it. */
  lemma LevelProgress(progress: seq<Progress>, report: seq<Progress>, d: nat, n: nat, level: nat)
    requires d < n && Steady(progress, 0, Times(d, level), Times(n, level)) && Steady(report, 0, level, level)
    ensures var all := progress + Shift(report, Times(d, level), Times(n, level));
            Steady(all, 0, Times(d + 1, level), Times(n, level)) && Steady(all, 0, Times(n, level), Times(n, level))
  {
    hide Steady;
    TimesMonotone(d + 1, n, level);
    var base, total := Times(d, level), Times(n, level);
    ShiftSteady(report, level, base, total);
    SteadyJoin(progress, Shift(report, base, total), 0, base, base + level, total);
    SteadyWiden(progress + Shift(report, base, total), 0, base + level, total, total);
  }

  lemma SameEdges(g: Graph, current: seq<Word>, edges: seq<Edge>, sorted: seq<Edge>)
    requires g.step > 0 && RealEdges(g, edges)
    requires forall e :: e in sorted <==> e in edges
    requires Distinct(edges) ==> Distinct(sorted)
    ensures RealEdges(g, sorted)
    ensures AllEdges(g, current, edges) ==> AllEdges(g, current, sorted)
  {
  }

  /** Nothing leads to address 0 or within depth 0, so the empty answer is right there. */
  lemma Trivial(g: Graph, opts: Options, n: nat, level: nat)
    requires g.step > 0 && g.target == opts.target
    ensures Answer(g, n, false, [])
    ensures opts.target == 0 || n == 0 ==> Answer(g, n, true, [])
    ensures Times(0, level) == 0
    ensures Steady([], 0, 0, Times(n, level)) && Steady([], 0, Times(n, level), Times(n, level))
  {
    forall ns, os | IsPath(g, ns, os) && os != []
      ensures opts.target != 0
    {
      LastLink(g, ns, os);
    }
  }

  lemma {:induction false} LastLink(g: Graph, ns: seq<Word>, os: seq<Word>)
    requires g.step > 0 && IsPath(g, ns, os) && os != []
    ensures g.target != 0
  {
    if |os| > 1 {
      LastLink(g, ns[1..], os[1..]);
    }
  }
}
