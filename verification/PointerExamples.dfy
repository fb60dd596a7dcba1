/** Pointer scans of two small heaps: what the limits do not limit, and a path the scan does not see. */
module PointerExamples {
  import opened Words
  import opened Memory
  import opened Chunk
  import opened PointerPaths
  import opened PointerScan
  import opened PointerLimits

  // --- Scans of one heap for address 8 ---

  function Heap(end: Word): seq<Region>
    requires end >= 16
  {
    [RegionRecord(16, end, "rw", 0, "[heap]")]
  }

  predicate AimsAtEight(opts: Options) {
    opts == Options(8, opts.maxDepth, opts.maxEdges, opts.maxChains, false, 0, 0, opts.maxOffset, 8)
  }

  function ToEight(maxDepth: int, maxEdges: nat, maxChains: nat, maxOffset: Word): (opts: Options)
    ensures AimsAtEight(opts) && opts.maxOffset == maxOffset
    ensures opts.maxDepth == maxDepth && opts.maxEdges == maxEdges && opts.maxChains == maxChains
  {
    Options(8, maxDepth, maxEdges, maxChains, false, 0, 0, maxOffset, 8)
  }

  predicate Fills(mem: Bytes, end: Word) {
    end >= 16 && forall a {:trigger a in mem} :: 16 <= a < end ==> a in mem
  }

  lemma HeapSources(opts: Options, end: Word)
    requires AimsAtEight(opts) && end >= 16
    ensures SourceRegions(Heap(end), opts, 1) == Heap(end)
    ensures forall a: nat :: a in AllWindows(Heap(end), 8, 8) <==> 16 <= a && a + 8 <= end && a % 8 == 0
  {
    assert SourceRegions(Heap(end), opts, 1) == SourceRegions(Heap(end), opts, 0) + Heap(end);
    AllWindowsSpec(Heap(end), 8, 8);
    forall a: nat
      ensures SomeWindow(Heap(end), 1, a, 8, 8) <==> 16 <= a && a + 8 <= end && a % 8 == 0
    {
      assert SomeWindow(Heap(end), 1, a, 8, 8) <==> IsWindow(Heap(end)[0], a, 8, 8);
    }
  }

  lemma HeapReads(mem: Bytes, end: Word, opts: Options)
    requires AimsAtEight(opts) && Fills(mem, end)
    ensures AllValid(mem, d => MaximalCounts(mem))
    ensures AllFull(mem, d => MaximalCounts(mem), SourceRegions(Heap(end), opts, 1), 8)
  {
    HeapSources(opts, end);
    assert FullReads(MaximalCounts(mem), Heap(end), 8);
    BackedReads(mem, MaximalCounts(mem), Heap(end), 8);
    hide FullReads, Backed, SourceRegions, Heap;
  }

  /** A scan of the heap that nothing disturbs. */
  method ScanHeap(mem: Bytes, end: Word, opts: Options) returns (res: Result, ghost stages: seq<Stage>)
    requires AimsAtEight(opts) && Fills(mem, end) && opts.maxOffset < 0x8000_0000_0000_0000
    ensures !res.cancelled && res == Totals(8, stages) && Trail(ScanGraph(mem, Heap(end), opts), opts, true, stages)
    ensures |stages| <= Depth(opts) && Shallow(|stages|, res.chains)
    ensures Answer(ScanGraph(mem, Heap(end), opts), Depth(opts), !res.edgesTruncated
        && !res.chainsTruncated, res.chains)
  {
    var calm := new CancelFlag(None);
    HeapReads(mem, end, opts);
    hide *;
    var progress;
    res, progress, stages :=
      PointerScan.PointerScan(mem, d => MaximalCounts(mem), Heap(end), opts, w => w, 8, calm);
  }

  // --- A heap of k words that hold 8, with a word after them that holds the address of the first, 16 ---

  function WallBytes(k: nat): seq<Byte> {
    seq(8 * k + 8, j requires 0 <= j => if j % 8 != 0 then 0 else if j < 8 * k then 8 else 16)
  }

  function Wall(k: nat): Bytes {
    Laid(16, WallBytes(k))
  }

  predicate Fitting(k: nat) {
    24 + 8 * k < TWO64
  }

  function WallGraph(k: nat, opts: Options): (g: Graph)
    requires Fitting(k)
    ensures g.step > 0 && g.target == opts.target
  {
    ScanGraph(Wall(k), Heap(24 + 8 * k), opts)
  }

  function Brick(i: nat): Edge
    requires Fitting(i)
  {
    Edge(16 + 8 * i, 8, 0)
  }

  /** The k links to 8. */
  function Row(k: nat): seq<Edge>
    requires Fitting(k)
  {
    seq(k, i requires 0 <= i < k => Brick(i))
  }

  /** The link to the first of them. */
  function Top(k: nat): Edge
    requires Fitting(k)
  {
    Edge(16 + 8 * k, 16, 0)
  }

  lemma DecodesOneByte(b: Byte)
    ensures DecodeWord([b, 0, 0, 0, 0, 0, 0, 0]) == b
  {
    var zeros: seq<Byte> := [0, 0, 0, 0, 0, 0, 0];
    DecodeZeros(zeros);
    assert [b, 0, 0, 0, 0, 0, 0, 0][1..] == zeros;
  }

  lemma WallFills(k: nat)
    requires Fitting(k)
    ensures Fills(Wall(k), 24 + 8 * k)
  {
  }

  lemma WallByte(k: nat, i: nat, j: nat)
    requires i <= k && j < 8
    ensures 16 + 8 * i + j in Wall(k) && Wall(k)[16 + 8 * i + j] == if j > 0 then 0 else if i < k then 8 else 16
  {
    assert (8 * i + j) % 8 == j;
  }

  lemma WallPointer(k: nat, i: nat)
    requires i <= k
    ensures PointerAt(Wall(k), 16 + 8 * i) == if i < k then 8 else 16
  {
    hide Wall, DecodeWord;
    var b: Byte := if i < k then 8 else 16;
    DecodesOneByte(b);
    var bs := BytesAt(Wall(k), 16 + 8 * i, 8);
    forall j | 0 <= j < 8
      ensures bs[j] == if j > 0 then 0 else b
    {
      WallByte(k, i, j);
    }
    hide BytesAt;
    EightBytes(bs, b);
  }

  lemma EightBytes(bs: seq<Byte>, b: Byte)
    requires |bs| == 8 && bs[0] == b && forall j :: 0 < j < 8 ==> bs[j] == 0
    ensures bs == [b, 0, 0, 0, 0, 0, 0, 0]
  {
  }

  lemma WallPointerAt(k: nat, a: nat)
    requires 16 <= a <= 16 + 8 * k && a % 8 == 0
    ensures PointerAt(Wall(k), a) == if a < 16 + 8 * k then 8 else 16
  {
    hide PointerAt, Wall;
    WallPointer(k, (a - 16) / 8);
  }

  lemma RowMembers(k: nat, e: Edge)
    requires Fitting(k)
    ensures e in Row(k) <==> e.target == 8 && e.offset == 0 && 16 <= e.source < 16 + 8 * k && e.source % 8 == 0
    ensures Distinct(Row(k)) && |Row(k)| == k
  {
    if e.target == 8 && e.offset == 0 && 16 <= e.source < 16 + 8 * k && e.source % 8 == 0 {
      assert Row(k)[(e.source - 16) / 8] == e;
    }
  }

  lemma OneOffset()
    ensures OffsetsFrom(0, 0, 8) == [0]
  {
    assert OffsetsFrom(8, 0, 8) == [];
  }

  /** The links of this heap, and no other. */
  lemma WallLinks(k: nat, opts: Options, e: Edge)
    requires Fitting(k) && AimsAtEight(opts) && opts.maxOffset == 0
    ensures Link(WallGraph(k, opts), e.source, e.offset, e.target) <==> e in Row(k) || e == Top(k)
  {
    assert WallGraph(k, opts) == Graph(Wall(k), AllWindows(Heap(24 + 8 * k), 8, 8), 8, 0, 8) by {
      HeapSources(opts, 24 + 8 * k);
      hide Wall, AllWindows, SourceRegions, Heap;
    }
    hide *;
    HeapSources(opts, 24 + 8 * k);
    OneOffset();
    RowMembers(k, e);
    if 16 <= e.source <= 16 + 8 * k && e.source % 8 == 0 {
      WallPointerAt(k, e.source);
    }
    LinksOfPointers(k, Wall(k), AllWindows(Heap(24 + 8 * k), 8, 8), e);
  }

  lemma LinksOfPointers(k: nat, mem: Bytes, sources: seq<nat>, e: Edge)
    requires Fitting(k) && OffsetsFrom(0, 0, 8) == [0]
    requires forall a: nat :: a in sources <==> 16 <= a && a + 8 <= 24 + 8 * k && a % 8 == 0
    requires 16 <= e.source <= 16 + 8 * k && e.source % 8 == 0 ==>
               PointerAt(mem, e.source) == if e.source < 16 + 8 * k then 8 else 16
    requires e in Row(k) <==> e.target == 8 && e.offset == 0 && 16 <= e.source < 16 + 8 * k && e.source % 8 == 0
    ensures Link(Graph(mem, sources, 8, 0, 8), e.source, e.offset, e.target) <==> e in Row(k) || e == Top(k)
  {
    hide PointerAt, OffsetsFrom, Row;
  }

  lemma PathGrows(g: Graph, nodes: seq<Word>, offsets: seq<Word>, e: Edge)
    requires g.step > 0 && IsPath(g, nodes, offsets) && Link(g, e.source, e.offset, e.target)
    requires e.target == nodes[0] && e.source !in nodes
    ensures IsPath(g, [e.source] + nodes, [e.offset] + offsets)
  {
    assert ([e.source] + nodes)[1..] == nodes && ([e.offset] + offsets)[1..] == offsets;
  }

  lemma NoStep(g: Graph)
    requires g.step > 0
    ensures IsPath(g, [g.target], [])
  {
  }

  const START := Chain([8], [], 0)

  lemma WallPaths(k: nat, opts: Options)
    requires k > 0 && Fitting(k) && AimsAtEight(opts) && opts.maxOffset == 0
    ensures IsPath(WallGraph(k, opts), [16, 8], [0])
    ensures IsPath(WallGraph(k, opts), [16 + 8 * k, 16, 8], [0, 0])
  {
    var g := WallGraph(k, opts);
    assert g.target == 8;
    hide *;
    NoStep(g);
    RowMembers(k, Brick(0));
    WallLinks(k, opts, Brick(0));
    PathGrows(g, [8], [], Brick(0));
    WallLinks(k, opts, Top(k));
    PathGrows(g, [16, 8], [0], Top(k));
    hide IsPath;
    assert [Top(k).source] + [16, 8] == [16 + 8 * k, 16, 8];
  }

  // --- Its levels ---

  /** Every edge into 8 prolongs the chain of the target alone. */
  lemma {:induction false} AllExtend(edges: seq<Edge>, j: nat)
    requires j <= |edges| && forall e :: e in edges ==> e.target == 8 && e.source > 8
    ensures |ExtendOne(START, edges, j)| == j
  {
    if j > 0 {
      AllExtend(edges, j - 1);
      assert edges[j - 1] in edges;
      assert Extends(START, edges[j - 1]);
    }
  }

  /** The first level: the k links to 8, which the edge limit flags only when it is met by them. */
  lemma FirstLevel(k: nat, opts: Options, st: Stage)
    requires k > 0 && Fitting(k) && AimsAtEight(opts) && opts.maxOffset == 0
    requires k <= opts.maxEdges && k <= opts.maxChains
    requires StageOk(WallGraph(k, opts), opts, true, [8], st) && st.frontier == [START]
    ensures |st.edges| == k && (forall e :: e in st.edges <==> e in Row(k)) && st.stopped == (k == opts.maxEdges)
    ensures st.next == Extended([START], 1, st.edges) && |st.next| == k && !st.cut
  {
    var g := WallGraph(k, opts);
    hide *;
    forall e | e in st.edges
      ensures e in Row(k) && e.target == 8 && e.source > 8
    {
      WallLinks(k, opts, e);
      RowMembers(k, e);
    }
    RowMembers(k, Brick(0));
    DistinctFits(st.edges, Row(k));
    if !st.stopped {
      forall e | e in Row(k)
        ensures e in st.edges
      {
        WallLinks(k, opts, e);
        RowMembers(k, e);
      }
      DistinctFits(Row(k), st.edges);
    }
    DistinctFills(st.edges, Row(k));
    FirstNotCut(st.edges, opts.maxChains);
  }

  lemma FirstNotCut(edges: seq<Edge>, maxChains: nat)
    requires 0 < |edges| <= maxChains && forall e :: e in edges ==> e.target == 8 && e.source > 8
    ensures Upto(Extended([START], 1, edges), maxChains) == Extended([START], 1, edges)
    ensures |Extended([START], 1, edges)| == |edges| && !CutShort([START], edges, maxChains)
  {
    ExtendedNext([START], 0, edges);
    AllExtend(edges, |edges|);
    forall j | 0 <= j < |edges|
      ensures |ExtendOne(START, edges, j)| == j
    {
      AllExtend(edges, j);
    }
    hide ExtendOne, Extended;
  }

  /** Where exactly one chain of the frontier takes the edge, the level gives one chain. */
  lemma {:induction false} OneProlonged(frontier: seq<Chain>, e: Edge, m: nat, i: nat)
    requires m < |frontier| && i <= |frontier| && forall j :: 0 <= j < |frontier| ==>
        (Extends(frontier[j], e) <==> j == m)
    ensures |Extended(frontier, i, [e])| == if i > m then 1 else 0
  {
    hide Extends, Extend;
    ExtendedNext(frontier, 0, [e]);
    if i > 0 {
      OneProlonged(frontier, e, m, i - 1);
      ExtendedNext(frontier, i - 1, [e]);
      ExtendOneNext(frontier[i - 1], [e], 0);
    }
  }

  lemma SecondNotCut(frontier: seq<Chain>, e: Edge, m: nat, maxChains: nat)
    requires m < |frontier| <= maxChains && forall j :: 0 <= j < |frontier| ==> (Extends(frontier[j], e) <==> j == m)
    ensures |Upto(Extended(frontier, |frontier|, [e]), maxChains)| == 1 && !CutShort(frontier, [e], maxChains)
  {
    OneProlonged(frontier, e, m, |frontier|);
    forall i | 0 <= i < |frontier|
      ensures !FullAt(frontier, [e], i, maxChains)
    {
      OneProlonged(frontier, e, m, i);
      ExtendOneNext(frontier[i], [e], 0);
    }
    hide FullAt, Extended;
  }

  /** Of the chains of the first level one begins at 16, the address that the last word holds. */
  lemma OneBeginsAt16(k: nat, edges: seq<Edge>, frontier: seq<Chain>) returns (m: nat)
    requires k > 0 && Fitting(k) && Distinct(edges) && forall e :: e in edges <==> e in Row(k)
    requires frontier == Extended([START], 1, edges)
    ensures m < |frontier| && forall j :: 0 <= j < |frontier| ==> (Extends(frontier[j], Top(k)) <==> j == m)
  {
    hide Extended, Row;
    RowMembers(k, Brick(0));
    ExtendFinds([START], edges, START, Brick(0));
    ExtendedDistinct([START], 1, edges);
    m :| 0 <= m < |frontier| && frontier[m] == Extend(START, Brick(0));
    forall j | 0 <= j < |frontier|
      ensures Extends(frontier[j], Top(k)) <==> j == m
    {
      assert frontier[j] in frontier;
      var chain, e := ExtendedFrom([START], edges, frontier[j]);
      RowMembers(k, e);
      assert e.source == 16 ==> e == Brick(0);
    }
  }

  lemma OnlyEdge(edges: seq<Edge>, e: Edge)
    requires edges != [] && Distinct(edges) && forall x :: x in edges ==> x == e
    ensures edges == [e]
  {
    forall i | 0 <= i < |edges|
      ensures edges[i] == e
    {
      assert edges[i] in edges;
    }
    DistinctFits(edges, [e]);
  }

  lemma SourcesIn(edges: seq<Edge>, a: Word) returns (e: Edge)
    requires a in Sources(edges)
    ensures e in edges && e.source == a
  {
    var i :| 0 <= i < |edges| && Sources(edges)[i] == a;
    e := edges[i];
  }

  /** The second level: one link, which prolongs one chain. */
  lemma SecondLevel(k: nat, opts: Options, edges: seq<Edge>, st: Stage)
    requires k > 0 && Fitting(k) && AimsAtEight(opts) && opts.maxOffset == 0
    requires k < opts.maxEdges && k <= opts.maxChains
    requires Distinct(edges) && forall e :: e in edges <==> e in Row(k)
    requires st.frontier == Extended([START], 1, edges) && |st.frontier| == k
    requires StageOk(WallGraph(k, opts), opts, true, Sources(edges), st)
    ensures st.edges == [Top(k)] && !st.stopped && |st.next| == 1 && !st.cut
  {
    var g := WallGraph(k, opts);
    assert EdgeLimit(opts.maxEdges) == opts.maxEdges;
    hide *;
    forall e | e in st.edges
      ensures e == Top(k)
    {
      WallLinks(k, opts, e);
      RowMembers(k, e);
      var below := SourcesIn(edges, e.target);
      RowMembers(k, below);
    }
    OnlyEdge(st.edges, Top(k));
    var m := OneBeginsAt16(k, edges, st.frontier);
    SecondNotCut(st.frontier, Top(k), m, opts.maxChains);
  }

  /** There is no third: nothing leads to the last word. */
  lemma NoThirdLevel(k: nat, opts: Options, st: Stage)
    requires Fitting(k) && AimsAtEight(opts) && opts.maxOffset == 0 && k > 0
    ensures !StageOk(WallGraph(k, opts), opts, true, Sources([Top(k)]), st)
  {
    if StageOk(WallGraph(k, opts), opts, true, Sources([Top(k)]), st) {
      hide *;
      var e := st.edges[0];
      assert e in st.edges;
      WallLinks(k, opts, e);
      RowMembers(k, e);
      var top := SourcesIn([Top(k)], e.target);
    }
  }

  // --- Two scans of it ---

  method ScanWall(k: nat, opts: Options) returns (res: Result, ghost stages: seq<Stage>)
    requires Fitting(k) && AimsAtEight(opts) && opts.maxOffset == 0
    ensures !res.cancelled && res == Totals(8, stages) && Trail(WallGraph(k, opts), opts, true, stages)
    ensures |stages| <= Depth(opts) && Shallow(|stages|, res.chains)
    ensures Answer(WallGraph(k, opts), Depth(opts), !res.edgesTruncated && !res.chainsTruncated, res.chains)
  {
    hide Wall, Heap, ScanGraph, Trail, Totals, Depth, Shallow, Answer;
    WallFills(k);
    res, stages := ScanHeap(Wall(k), 24 + 8 * k, opts);
  }

  /** A complete answer holds the paths there are, and none is deeper than the levels walked. */
  lemma Listed(g: Graph, n: nat, levels: nat, chains: seq<Chain>, nodes: seq<Word>, offsets: seq<Word>)
    requires g.step > 0 && Answer(g, n, true, chains) && Shallow(levels, chains)
    requires IsPath(g, nodes, offsets) && 1 <= |offsets| <= n
    ensures |offsets| <= levels
  {
    hide IsPath;
  }

  lemma StageAt(g: Graph, opts: Options, stages: seq<Stage>, i: nat)
    requires g.step > 0 && Trail(g, opts, true, stages) && i < |stages|
    ensures StageOk(g, opts, true, TargetsAt(g, stages, i), stages[i]) && stages[i].frontier == FrontierAt(g, stages, i)
  {
    hide StageOk, TargetsAt, FrontierAt;
  }

  /** The levels of a search with room for more than k edges and for k chains. */
  lemma WallLevels(k: nat, opts: Options, stages: seq<Stage>)
    requires k > 0 && Fitting(k) && AimsAtEight(opts) && opts.maxOffset == 0
    requires k < opts.maxEdges && k <= opts.maxChains && Trail(WallGraph(k, opts), opts, true, stages)
    ensures |stages| <= 2 && !SomeStopped(stages) && !SomeCut(stages)
    ensures |stages| == 2 ==> |AllNext(stages)| == k + 1 && TotalEdges(stages) == k + 1
  {
    var g := WallGraph(k, opts);
    assert g.target == 8;
    hide StageOk, Trail, Extended, Row, Sources, WallGraph, AllNext, TotalEdges;
    if |stages| > 0 {
      StageAt(g, opts, stages, 0);
      FirstLevel(k, opts, stages[0]);
    }
    if |stages| > 1 {
      StageAt(g, opts, stages, 1);
      DistinctEdges(g, opts, [8], stages[0]);
      SecondLevel(k, opts, stages[0].edges, stages[1]);
    }
    if |stages| > 2 {
      StageAt(g, opts, stages, 2);
      NoThirdLevel(k, opts, stages[2]);
    }
    if |stages| == 2 {
      TwoLevels(stages);
    }
  }

  lemma DistinctEdges(g: Graph, opts: Options, current: seq<Word>, st: Stage)
    requires g.step > 0 && StageOk(g, opts, true, current, st)
    ensures Distinct(st.edges)
  {
  }

  lemma TwoLevels(stages: seq<Stage>)
    requires |stages| == 2
    ensures AllNext(stages) == stages[0].next + stages[1].next
    ensures TotalEdges(stages) == |stages[0].edges| + |stages[1].edges|
  {
    assert stages[..1][..0] == [];
    assert AllNext(stages[..1]) == [] + stages[0].next;
    assert TotalEdges(stages[..1][..0]) == 0 && TotalEdges(stages[..1]) == |stages[0].edges|;
  }

  /**
   * max_chains is no limit on the total: whatever it is, with two levels or more and room for its edges this scan
   * returns one chain more, and no flag.
   */
  method MoreThanMaxChains(maxDepth: int, maxEdges: nat, maxChains: nat) returns (res: Result)
    requires Fitting(maxChains) && maxChains < maxEdges
    ensures !res.cancelled
    ensures |res.chains| > maxChains <==> maxDepth >= 2 && maxChains >= 1
    ensures |res.chains| > maxChains ==>
              && |res.chains| == maxChains + 1 && !res.edgesTruncated && !res.chainsTruncated
              && res.levels == 2 && res.totalEdges == maxChains + 1
  {
    hide *;
    var opts := ToEight(maxDepth, maxEdges, maxChains, 0);
    ghost var stages;
    res, stages := ScanWall(maxChains, opts);
    WallExceeds(maxChains, opts, stages, res);
  }

  /** The chains a scan of k words returns with max_chains k. */
  lemma WallExceeds(k: nat, opts: Options, stages: seq<Stage>, res: Result)
    requires Fitting(k) && AimsAtEight(opts) && opts.maxOffset == 0 && k == opts.maxChains < opts.maxEdges
    requires |stages| <= Depth(opts)
    requires Trail(WallGraph(k, opts), opts, true, stages) && res == Totals(8, stages) && Shallow(|stages|, res.chains)
    requires Answer(WallGraph(k, opts), Depth(opts), !res.edgesTruncated && !res.chainsTruncated, res.chains)
    ensures |res.chains| > k <==> opts.maxDepth >= 2 && k >= 1
    ensures |res.chains| > k ==>
              && |res.chains| == k + 1 && !res.edgesTruncated && !res.chainsTruncated
              && res.levels == 2 && res.totalEdges == k + 1
  {
    hide Trail, Wall, WallGraph, Answer, SomeStopped, SomeCut, AllNext, TotalEdges, Shallow;
    ChainsPerLevel(WallGraph(k, opts), opts, true, stages);
    if opts.maxDepth >= 2 && k >= 1 {
      WallLevels(k, opts, stages);
      WallPaths(k, opts);
      Listed(WallGraph(k, opts), Depth(opts), |stages|, res.chains, [16 + 8 * k, 16, 8], [0, 0]);
    }
  }

  /** A complete answer that is flagged: with a limit of k edges the scan stops at the last of the k there are. */
  method FlaggedButComplete(k: nat, maxChains: nat) returns (res: Result, ghost g: Graph)
    requires 1 <= k <= maxChains && Fitting(k)
    ensures g == WallGraph(k, ToEight(1, k, maxChains, 0))
    ensures !res.cancelled && res.edgesTruncated && !res.chainsTruncated
    ensures |res.chains| == k && CompleteTo(g, 1, res.chains)
  {
    hide *;
    var opts := ToEight(1, k, maxChains, 0);
    g := WallGraph(k, opts);
    ghost var stages;
    res, stages := ScanWall(k, opts);
    WallFlagged(k, opts, stages, res);
  }

  lemma WallFlagged(k: nat, opts: Options, stages: seq<Stage>, res: Result)
    requires k > 0 && Fitting(k) && AimsAtEight(opts) && opts.maxOffset == 0
    requires opts.maxDepth == 1 && k == opts.maxEdges <= opts.maxChains && |stages| <= Depth(opts)
    requires Trail(WallGraph(k, opts), opts, true, stages) && res == Totals(8, stages) && Shallow(|stages|, res.chains)
    requires Answer(WallGraph(k, opts), Depth(opts), !res.edgesTruncated && !res.chainsTruncated, res.chains)
    ensures res.edgesTruncated && !res.chainsTruncated && |res.chains| == k
    ensures CompleteTo(WallGraph(k, opts), 1, res.chains)
  {
    var g := WallGraph(k, opts);
    assert g.target == 8;
    hide StageOk, Trail, Extended, Row, Sources, WallGraph, Answer, Shallow, CompleteTo;
    if stages == [] {
      WallPaths(k, opts);
      Listed(g, 1, 0, res.chains, [16, 8], [0]);
    }
    StageAt(g, opts, stages, 0);
    FirstLevel(k, opts, stages[0]);
    assert AllNext(stages) == [] + stages[0].next;
    WallComplete(k, opts, stages[0].edges);
  }

  /** The first level of this heap has all paths of depth 1. */
  lemma WallComplete(k: nat, opts: Options, edges: seq<Edge>)
    requires Fitting(k) && AimsAtEight(opts) && opts.maxOffset == 0 && forall e :: e in edges <==> e in Row(k)
    ensures CompleteTo(WallGraph(k, opts), 1, Extended([START], 1, edges))
  {
    var g := WallGraph(k, opts);
    assert g.target == 8;
    hide WallGraph, Link, Row, Extended, Extend;
    forall ns, os | IsPath(g, ns, os) && 1 <= |os| <= 1
      ensures Chain(ns, os, |os|) in Extended([START], 1, edges)
    {
      PathSplit(g, ns, os);
      assert ns[1..] == [8];
      var e := Edge(ns[0], ns[1], os[0]);
      WallLinks(k, opts, e);
      ExtendFinds([START], edges, START, e);
    }
  }

  // --- A heap with one word, which holds 0 ---

  function Zeros(): Bytes {
    Laid(16, [0, 0, 0, 0, 0, 0, 0, 0])
  }

  /** A null pointer plus 8 is the target, a window offset; the scan, which loses nothing, reports no chain. */
  method NullPointerMissedByScan(maxDepth: int, maxEdges: nat, maxChains: nat) returns (res: Result, ghost g: Graph)
    ensures g == ScanGraph(Zeros(), Heap(24), ToEight(maxDepth, maxEdges, maxChains, 8))
    ensures PlainPath(g, [16, 8], [8])
    ensures res == Result(8, [], false, false, false, 0, 0)
  {
    var opts := ToEight(maxDepth, maxEdges, maxChains, 8);
    g := ScanGraph(Zeros(), Heap(24), opts);
    ghost var stages;
    res, stages := ScanHeap(Zeros(), 24, opts);
    assert AimsAtEight(opts) && res == Totals(8, stages) && g.target == 8;
    OneNullPointer(opts);
    hide *;
    NoLevelOfZeros(g, opts, stages);
    NothingFound(stages);
    NullPointerMissed(g, 16);
  }

  lemma OneNullPointer(opts: Options)
    requires AimsAtEight(opts)
    ensures var g := ScanGraph(Zeros(), Heap(24), opts);
            && PointerAt(g.mem, 16) == 0 && (forall a: nat :: a in g.sources <==> a == 16)
            && g.target == 8 && g.maxOffset == opts.maxOffset && g.step == 8
  {
    HeapSources(opts, 24);
    NullPointer(Zeros(), 16);
    hide Zeros, PointerAt, AllWindows;
  }

  lemma NothingFound(stages: seq<Stage>)
    requires stages == []
    ensures Totals(8, stages) == Result(8, [], false, false, false, 0, 0)
  {
  }

  lemma NoLevelOfZeros(g: Graph, opts: Options, stages: seq<Stage>)
    requires g.step > 0 && PointerAt(g.mem, 16) == 0 && forall a: nat :: a in g.sources ==> a == 16
    requires Trail(g, opts, true, stages)
    ensures stages == []
  {
    if stages != [] {
      StageAt(g, opts, stages, 0);
      var e := LevelLink(g, opts, TargetsAt(g, stages, 0), stages[0]);
    }
  }

  lemma LevelLink(g: Graph, opts: Options, current: seq<Word>, st: Stage) returns (e: Edge)
    requires g.step > 0 && StageOk(g, opts, true, current, st)
    ensures Link(g, e.source, e.offset, e.target)
  {
    e := st.edges[0];
    assert e in st.edges;
  }
}
