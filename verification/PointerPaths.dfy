/** What a pointer scan is for: the simple pointer paths to a target in one memory snapshot. */
module PointerPaths {
  import opened Words
  import opened Memory
  import Chunk

  datatype Edge = Edge(source: Word, target: Word, offset: Word)
  datatype Chain = Chain(nodes: seq<Word>, offsets: seq<Word>, depth: int)

  /** The snapshot, the positions that may hold a pointer, the target and the offset window. */
  datatype Graph = Graph(mem: Bytes, sources: seq<nat>, target: Word, maxOffset: Word, step: nat)

  /** 0, step, 2 * step, ... up to max. */
  function OffsetsFrom(o: nat, max: Word, step: nat): seq<Word>
    requires step > 0
    decreases max - o
  {
    if o <= max then [o] + OffsetsFrom(o + step, max, step) else []
  }

  lemma {:induction false} OffsetsFromSpec(o: nat, max: Word, step: nat)
    requires step > 0 && o % step == 0
    ensures forall x: nat :: x in OffsetsFrom(o, max, step) <==> o <= x <= max && x % step == 0
    ensures forall i, j :: 0 <= i < j < |OffsetsFrom(o, max, step)| ==>
              OffsetsFrom(o, max, step)[i] < OffsetsFrom(o, max, step)[j]
    decreases max - o
  {
    if o <= max {
      var rest := OffsetsFrom(o + step, max, step);
      Chunk.NextMultiple(o, step);
      OffsetsFromSpec(o + step, max, step);
      forall x: nat | o < x && x % step == 0
        ensures o + step <= x
      {
        Chunk.NoMultipleBetween(o, x, step);
      }
      forall i, j | 0 <= i < j < |OffsetsFrom(o, max, step)|
        ensures OffsetsFrom(o, max, step)[i] < OffsetsFrom(o, max, step)[j]
      {
        assert rest[j - 1] in rest;
      }
    }
  }

  function Offsets(g: Graph): seq<Word>
    requires g.step > 0
  {
    OffsetsFrom(0, g.maxOffset, g.step)
  }

  /** The offset window: multiples of the step from 0, each once. */
  lemma OffsetsSpec(g: Graph)
    requires g.step > 0
    ensures forall o: nat :: o in Offsets(g) <==> o <= g.maxOffset && o % g.step == 0
    ensures Chunk.Distinct(Offsets(g))
  {
    OffsetsFromSpec(0, g.maxOffset, g.step);
  }

  /** The 8-byte pointer stored at a. */
  function PointerAt(mem: Bytes, a: nat): Word {
    DecodeWord(BytesAt(mem, a, 8))
  }

  /** A stored nonzero pointer plus a window offset reaches a nonzero address. */
  predicate Link(g: Graph, a: Word, o: Word, next: Word)
    requires g.step > 0
  {
    && a in g.sources
    && PointerAt(g.mem, a) != 0 && next != 0
    && o in Offsets(g) && Add(PointerAt(g.mem, a), o) == next
  }

  /** A path to the target that visits no address twice. */
  predicate IsPath(g: Graph, nodes: seq<Word>, offsets: seq<Word>)
    requires g.step > 0
    decreases |offsets|
  {
    && |nodes| == |offsets| + 1
    && if offsets == [] then nodes == [g.target]
       else
         && nodes[0] !in nodes[1..]
         && Link(g, nodes[0], offsets[0], nodes[1])
         && IsPath(g, nodes[1..], offsets[1..])
  }

  /** The same, said position by position. */
  lemma {:induction false} IsPathSpec(g: Graph, nodes: seq<Word>, offsets: seq<Word>)
    requires g.step > 0
    ensures IsPath(g, nodes, offsets) <==>
              && |nodes| == |offsets| + 1
              && nodes[|offsets|] == g.target
              && Chunk.Distinct(nodes)
              && forall i :: 0 <= i < |offsets| ==> Link(g, nodes[i], offsets[i], nodes[i + 1])
  {
    if |nodes| == |offsets| + 1 && offsets != [] {
      var ns, os := nodes[1..], offsets[1..];
      IsPathSpec(g, ns, os);
      assert nodes == [nodes[0]] + ns;
      if Chunk.Distinct(nodes) && forall i :: 0 <= i < |offsets| ==> Link(g, nodes[i], offsets[i], nodes[i + 1]) {
        forall i | 0 <= i < |os|
          ensures Link(g, ns[i], os[i], ns[i + 1])
        {
          assert Link(g, nodes[i + 1], offsets[i + 1], nodes[i + 2]);
        }
      }
      if IsPath(g, nodes, offsets) {
        forall i | 0 <= i < |offsets|
          ensures Link(g, nodes[i], offsets[i], nodes[i + 1])
        {
          if i > 0 {
            assert Link(g, ns[i - 1], os[i - 1], ns[i]);
          }
        }
        forall j, k | 0 <= j < k < |nodes|
          ensures nodes[j] != nodes[k]
        {
          assert nodes[k] == ns[k - 1];
        }
      }
    }
  }

  /** Where no path has d links, none has more. */
  lemma {:induction false} NoDeeperPaths(g: Graph, d: nat, nodes: seq<Word>, offsets: seq<Word>)
    requires g.step > 0 && |offsets| >= d
    requires forall ns, os :: IsPath(g, ns, os) ==> |os| != d
    ensures !IsPath(g, nodes, offsets)
    decreases |offsets|
  {
    if |offsets| > d && |nodes| == |offsets| + 1 {
      NoDeeperPaths(g, d, nodes[1..], offsets[1..]);
    }
  }

  // --- Edges of one level ---

  predicate Hit(v: Word, o: Word, current: seq<Word>) {
    v != 0 && Add(v, o) != 0 && Add(v, o) in current
  }

  /** Edges out of one position, over the first k offsets. */
  function EdgesOf(v: Word, a: Word, current: seq<Word>, os: seq<Word>, k: nat): seq<Edge>
    requires k <= |os|
  {
    if k == 0 then []
    else
      EdgesOf(v, a, current, os, k - 1) +
      (if Hit(v, os[k - 1], current) then [Edge(a, Add(v, os[k - 1]), os[k - 1])] else [])
  }

  function EdgesAt(g: Graph, current: seq<Word>, a: nat): seq<Edge>
    requires g.step > 0
  {
    EdgesOf(PointerAt(g.mem, a), Truncate(a), current, Offsets(g), |Offsets(g)|)
  }

  /** Testing every (position, offset) pair in turn. */
  function LevelEdges(g: Graph, current: seq<Word>, positions: seq<nat>): seq<Edge>
    requires g.step > 0
  {
    if positions == [] then []
    else
      var n := |positions| - 1;
      LevelEdges(g, current, positions[..n]) + EdgesAt(g, current, positions[n])
  }

  lemma {:induction false} EdgesOfMembers(v: Word, a: Word, current: seq<Word>, os: seq<Word>, k: nat, e: Edge)
    requires k <= |os|
    ensures e in EdgesOf(v, a, current, os, k) <==>
              e.source == a && e.offset in os[..k] && Hit(v, e.offset, current) && e.target == Add(v, e.offset)
  {
    if k > 0 {
      EdgesOfMembers(v, a, current, os, k - 1, e);
      assert os[..k] == os[..k - 1] + [os[k - 1]];
    }
  }

  lemma {:induction false} EdgesOfDistinct(v: Word, a: Word, current: seq<Word>, os: seq<Word>, k: nat)
    requires k <= |os| && Chunk.Distinct(os)
    ensures Chunk.Distinct(EdgesOf(v, a, current, os, k))
  {
    if k > 0 {
      EdgesOfDistinct(v, a, current, os, k - 1);
      forall e | e in EdgesOf(v, a, current, os, k - 1)
        ensures e.offset != os[k - 1]
      {
        EdgesOfMembers(v, a, current, os, k - 1, e);
      }
    }
  }

  lemma PrefixMembers<T>(xs: seq<T>, n: nat)
    requires |xs| == n + 1
    ensures forall x :: x in xs <==> x in xs[..n] || x == xs[n]
  {
    assert xs == xs[..n] + [xs[n]];
  }

  predicate Addresses(positions: seq<nat>) {
    forall a: nat :: a in positions ==> a < TWO64
  }

  lemma EdgesAtMembers(g: Graph, current: seq<Word>, a: nat, e: Edge)
    requires g.step > 0 && a < TWO64 && a in g.sources
    ensures e in EdgesAt(g, current, a) <==>
              e.source == a && Link(g, e.source, e.offset, e.target) && e.target in current
  {
    var os := Offsets(g);
    EdgesOfMembers(PointerAt(g.mem, a), Truncate(a), current, os, |os|, e);
    assert os[..|os|] == os;
  }

  /** The level's edges are the links into the current set, nothing else and nothing missing. */
  lemma {:induction false} LevelEdgesMembers(g: Graph, current: seq<Word>, positions: seq<nat>, e: Edge)
    requires g.step > 0 && Addresses(positions)
    requires forall a: nat :: a in positions ==> a in g.sources
    ensures e in LevelEdges(g, current, positions) <==>
              e.source in positions && Link(g, e.source, e.offset, e.target) && e.target in current
  {
    if positions != [] {
      var n := |positions| - 1;
      PrefixMembers(positions, n);
      LevelEdgesMembers(g, current, positions[..n], e);
      assert positions[n] in positions;
      EdgesAtMembers(g, current, positions[n], e);
    }
  }

  lemma {:induction false} LevelEdgesDistinct(g: Graph, current: seq<Word>, positions: seq<nat>)
    requires g.step > 0 && Addresses(positions) && Chunk.Distinct(positions)
    requires forall a: nat :: a in positions ==> a in g.sources
    ensures Chunk.Distinct(LevelEdges(g, current, positions))
  {
    if positions != [] {
      var n := |positions| - 1;
      var front, last := positions[..n], EdgesAt(g, current, positions[n]);
      PrefixMembers(positions, n);
      LevelEdgesDistinct(g, current, front);
      assert positions[n] in positions;
      OffsetsSpec(g);
      var os := Offsets(g);
      EdgesOfDistinct(PointerAt(g.mem, positions[n]), Truncate(positions[n]), current, os, |os|);
      forall e, f | e in LevelEdges(g, current, front) && f in last
        ensures e != f
      {
        LevelEdgesMembers(g, current, front, e);
        EdgesAtMembers(g, current, positions[n], f);
      }
      Chunk.DistinctJoin(LevelEdges(g, current, front), last);
    }
  }

  /** By source address, and from one source by offset. */
  predicate Upwards(es: seq<Edge>) {
    forall i, j :: 0 <= i < j < |es| ==>
      es[i].source < es[j].source || (es[i].source == es[j].source && es[i].offset < es[j].offset)
  }

  lemma {:induction false} EdgesOfUpwards(v: Word, a: Word, current: seq<Word>, os: seq<Word>, k: nat)
    requires k <= |os| && forall i, j :: 0 <= i < j < |os| ==> os[i] < os[j]
    ensures Upwards(EdgesOf(v, a, current, os, k))
  {
    if k > 0 {
      var front := EdgesOf(v, a, current, os, k - 1);
      EdgesOfUpwards(v, a, current, os, k - 1);
      forall e | e in front
        ensures e.source == a && e.offset < os[k - 1]
      {
        EdgesOfMembers(v, a, current, os, k - 1, e);
      }
      hide Hit;
    }
  }

  /** The order in which a level finds its edges, and so which ones a limit lets through: upwards. */
  lemma {:induction false} LevelEdgesUpwards(g: Graph, current: seq<Word>, positions: seq<nat>)
    requires g.step > 0 && Addresses(positions) && Chunk.Ascending(positions)
    requires forall a: nat :: a in positions ==> a in g.sources
    ensures Upwards(LevelEdges(g, current, positions))
  {
    if positions != [] {
      var n := |positions| - 1;
      var front := LevelEdges(g, current, positions[..n]);
      PrefixMembers(positions, n);
      LevelEdgesUpwards(g, current, positions[..n]);
      assert positions[n] in positions;
      OffsetsFromSpec(0, g.maxOffset, g.step);
      var os := Offsets(g);
      EdgesOfUpwards(PointerAt(g.mem, positions[n]), Truncate(positions[n]), current, os, |os|);
      var last := EdgesAt(g, current, positions[n]);
      forall e | e in front
        ensures e.source < positions[n]
      {
        LevelEdgesMembers(g, current, positions[..n], e);
        var i :| 0 <= i < n && positions[..n][i] == e.source;
      }
      forall e | e in last
        ensures e.source == positions[n]
      {
        EdgesAtMembers(g, current, positions[n], e);
      }
      UpwardsJoin(front, last, positions[n]);
    }
  }

  lemma UpwardsJoin(front: seq<Edge>, last: seq<Edge>, a: nat)
    requires Upwards(front) && Upwards(last)
    requires (forall e :: e in front ==> e.source < a) && forall e :: e in last ==> e.source == a
    ensures Upwards(front + last)
  {
  }

  // --- Growing the frontier ---

  predicate Extends(chain: Chain, e: Edge) {
    |chain.nodes| > 0 && e.target == chain.nodes[0] && e.source !in chain.nodes
  }

  function Extend(chain: Chain, e: Edge): Chain {
    Chain([e.source] + chain.nodes, [e.offset] + chain.offsets, |chain.nodes|)
  }

  /** One chain prolonged by the first j edges. */
  function ExtendOne(chain: Chain, edges: seq<Edge>, j: nat): seq<Chain>
    requires j <= |edges|
  {
    if j == 0 then []
    else
      ExtendOne(chain, edges, j - 1) +
      (if Extends(chain, edges[j - 1]) then [Extend(chain, edges[j - 1])] else [])
  }

  /** The first i chains prolonged by every edge. */
  function Extended(frontier: seq<Chain>, i: nat, edges: seq<Edge>): seq<Chain>
    requires i <= |frontier|
  {
    if i == 0 then []
    else Extended(frontier, i - 1, edges) + ExtendOne(frontier[i - 1], edges, |edges|)
  }

  /** The chain prolonged by one of the first j edges. */
  predicate Prolongs(chain: Chain, edges: seq<Edge>, j: nat, c: Chain)
    requires j <= |edges|
  {
    exists k :: 0 <= k < j && Extends(chain, edges[k]) && c == Extend(chain, edges[k])
  }

  lemma {:induction false} ExtendOneMembers(chain: Chain, edges: seq<Edge>, j: nat, c: Chain)
    requires j <= |edges|
    ensures c in ExtendOne(chain, edges, j) <==> Prolongs(chain, edges, j, c)
  {
    if j > 0 {
      ExtendOneMembers(chain, edges, j - 1, c);
    }
  }

  lemma {:induction false} ExtendedMembers(frontier: seq<Chain>, i: nat, edges: seq<Edge>, c: Chain)
    requires i <= |frontier|
    ensures c in Extended(frontier, i, edges) <==>
              exists h :: 0 <= h < i && Prolongs(frontier[h], edges, |edges|, c)
  {
    hide Prolongs, ExtendOne;
    if i > 0 {
      ExtendedMembers(frontier, i - 1, edges, c);
      ExtendOneMembers(frontier[i - 1], edges, |edges|, c);
    }
  }

  lemma {:induction false} ExtendOneDistinct(chain: Chain, edges: seq<Edge>, j: nat)
    requires j <= |edges| && Chunk.Distinct(edges)
    ensures Chunk.Distinct(ExtendOne(chain, edges, j))
  {
    if j > 0 {
      ExtendOneDistinct(chain, edges, j - 1);
      var last := Extend(chain, edges[j - 1]);
      if Extends(chain, edges[j - 1]) {
        var front := ExtendOne(chain, edges, j - 1);
        forall c | c in front
          ensures c != last
        {
          ExtendOneMembers(chain, edges, j - 1, c);
          var k :| 0 <= k < j - 1 && Extends(chain, edges[k]) && c == Extend(chain, edges[k]);
          assert c.nodes[0] == edges[k].source && c.offsets[0] == edges[k].offset;
          assert last.nodes[0] == edges[j - 1].source && last.offsets[0] == edges[j - 1].offset;
        }
        Chunk.DistinctJoin(front, [last]);
      }
    }
  }

  predicate Depths(frontier: seq<Chain>) {
    forall c :: c in frontier ==> c.depth == |c.nodes| - 1
  }

  lemma ProlongedFrom(chain: Chain, edges: seq<Edge>, c: Chain)
    requires Prolongs(chain, edges, |edges|, c)
    ensures |c.nodes| > 0 && c.nodes[1..] == chain.nodes
    ensures |c.offsets| > 0 && c.offsets[1..] == chain.offsets
  {
  }

  lemma {:induction false} ExtendedDistinct(frontier: seq<Chain>, i: nat, edges: seq<Edge>)
    requires i <= |frontier| && Chunk.Distinct(edges) && Chunk.Distinct(frontier) && Depths(frontier)
    ensures Chunk.Distinct(Extended(frontier, i, edges))
  {
    hide Prolongs, ExtendOne;
    if i > 0 {
      var front, last := Extended(frontier, i - 1, edges), ExtendOne(frontier[i - 1], edges, |edges|);
      ExtendedDistinct(frontier, i - 1, edges);
      ExtendOneDistinct(frontier[i - 1], edges, |edges|);
      forall c, d | c in front && d in last
        ensures c != d
      {
        ExtendedMembers(frontier, i - 1, edges, c);
        ExtendOneMembers(frontier[i - 1], edges, |edges|, d);
        var h :| 0 <= h < i - 1 && Prolongs(frontier[h], edges, |edges|, c);
        ProlongedFrom(frontier[h], edges, c);
        ProlongedFrom(frontier[i - 1], edges, d);
        assert frontier[h] in frontier && frontier[i - 1] in frontier;
      }
      Chunk.DistinctJoin(front, last);
    }
  }

  lemma {:induction false} ExtendedGrows(frontier: seq<Chain>, i: nat, edges: seq<Edge>)
    requires i <= |frontier|
    ensures Extended(frontier, i, edges) <= Extended(frontier, |frontier|, edges)
    decreases |frontier| - i
  {
    if i < |frontier| {
      ExtendedGrows(frontier, i + 1, edges);
    }
  }

  lemma {:induction false} ExtendOneGrows(chain: Chain, edges: seq<Edge>, j: nat)
    requires j <= |edges|
    ensures ExtendOne(chain, edges, j) <= ExtendOne(chain, edges, |edges|)
    decreases |edges| - j
  {
    if j < |edges| {
      ExtendOneGrows(chain, edges, j + 1);
    }
  }

  // --- Levels ---

  /** Exactly the paths of depth d, each once. */
  ghost predicate AllPaths(g: Graph, d: nat, frontier: seq<Chain>)
    requires g.step > 0
  {
    && SomePaths(g, d, frontier)
    && forall ns, os :: IsPath(g, ns, os) && |os| == d ==> Chain(ns, os, d) in frontier
  }

  ghost predicate SomePaths(g: Graph, d: nat, frontier: seq<Chain>)
    requires g.step > 0
  {
    && Chunk.Distinct(frontier)
    && forall c :: c in frontier ==> IsPath(g, c.nodes, c.offsets) && |c.offsets| == d == c.depth
  }

  /** The heads of all paths of depth d are among the current values. */
  ghost predicate HeadsIn(g: Graph, d: nat, current: seq<Word>)
    requires g.step > 0
  {
    forall ns, os :: IsPath(g, ns, os) && |os| == d ==> ns[0] in current
  }

  /** Edges that are real links; and all of them that lead into the current set. */
  ghost predicate RealEdges(g: Graph, edges: seq<Edge>)
    requires g.step > 0
  {
    Chunk.Distinct(edges) && forall e :: e in edges ==> Link(g, e.source, e.offset, e.target)
  }

  ghost predicate AllEdges(g: Graph, current: seq<Word>, edges: seq<Edge>)
    requires g.step > 0
  {
    && RealEdges(g, edges)
    && forall e: Edge :: Link(g, e.source, e.offset, e.target) && e.target in current ==> e in edges
  }

  lemma StartLevel(g: Graph)
    requires g.step > 0
    ensures AllPaths(g, 0, [Chain([g.target], [], 0)]) && HeadsIn(g, 0, [g.target])
  {
  }

  lemma ExtendedFrom(frontier: seq<Chain>, edges: seq<Edge>, c: Chain) returns (chain: Chain, e: Edge)
    requires c in Extended(frontier, |frontier|, edges)
    ensures chain in frontier && e in edges && Extends(chain, e) && c == Extend(chain, e)
  {
    ExtendedMembers(frontier, |frontier|, edges, c);
    var h :| 0 <= h < |frontier| && Prolongs(frontier[h], edges, |edges|, c);
    var k :| 0 <= k < |edges| && Extends(frontier[h], edges[k]) && c == Extend(frontier[h], edges[k]);
    chain, e := frontier[h], edges[k];
  }

  lemma PathJoin(g: Graph, chain: Chain, e: Edge)
    requires g.step > 0 && IsPath(g, chain.nodes, chain.offsets)
    requires Extends(chain, e) && Link(g, e.source, e.offset, e.target)
    ensures IsPath(g, Extend(chain, e).nodes, Extend(chain, e).offsets)
    ensures |Extend(chain, e).offsets| == |chain.offsets| + 1 == Extend(chain, e).depth
  {
    hide Link;
    assert Extend(chain, e).nodes[1..] == chain.nodes && Extend(chain, e).offsets[1..] == chain.offsets;
  }

  lemma PathDepths(g: Graph, d: nat, frontier: seq<Chain>)
    requires g.step > 0 && SomePaths(g, d, frontier)
    ensures Depths(frontier)
  {
  }

  /** Whatever was found, extending paths by links gives paths. */
  lemma ExtendSound(g: Graph, d: nat, frontier: seq<Chain>, edges: seq<Edge>, next: seq<Chain>)
    requires g.step > 0 && SomePaths(g, d, frontier) && RealEdges(g, edges)
    requires next <= Extended(frontier, |frontier|, edges)
    ensures SomePaths(g, d + 1, next)
  {
    hide IsPath, Link, Extended;
    PathDepths(g, d, frontier);
    ExtendedDistinct(frontier, |frontier|, edges);
    forall c | c in next
      ensures IsPath(g, c.nodes, c.offsets) && |c.offsets| == d + 1 == c.depth
    {
      var chain, e := ExtendedFrom(frontier, edges, c);
      PathJoin(g, chain, e);
    }
  }

  lemma ExtendFinds(frontier: seq<Chain>, edges: seq<Edge>, chain: Chain, e: Edge)
    requires chain in frontier && e in edges && Extends(chain, e)
    ensures Extend(chain, e) in Extended(frontier, |frontier|, edges)
  {
    var h :| 0 <= h < |frontier| && frontier[h] == chain;
    var k :| 0 <= k < |edges| && edges[k] == e;
    assert Prolongs(frontier[h], edges, |edges|, Extend(frontier[h], edges[k]));
    ExtendedMembers(frontier, |frontier|, edges, Extend(frontier[h], edges[k]));
  }

  lemma PathSplit(g: Graph, ns: seq<Word>, os: seq<Word>)
    requires g.step > 0 && IsPath(g, ns, os) && os != []
    ensures |ns| == |os| + 1 && IsPath(g, ns[1..], os[1..]) && Link(g, ns[0], os[0], ns[1])
    ensures Extends(Chain(ns[1..], os[1..], |os| - 1), Edge(ns[0], ns[1], os[0]))
    ensures Extend(Chain(ns[1..], os[1..], |os| - 1), Edge(ns[0], ns[1], os[0])) == Chain(ns, os, |os|)
  {
    hide Link;
    assert ns == [ns[0]] + ns[1..] && os == [os[0]] + os[1..];
  }

  lemma ExtendFindsPath(g: Graph, d: nat, frontier: seq<Chain>, current: seq<Word>, edges: seq<Edge>,
                        ns: seq<Word>, os: seq<Word>)
    requires g.step > 0 && AllPaths(g, d, frontier) && HeadsIn(g, d, current) && AllEdges(g, current, edges)
    requires IsPath(g, ns, os) && |os| == d + 1
    ensures Chain(ns, os, d + 1) in Extended(frontier, |frontier|, edges)
    ensures Edge(ns[0], ns[1], os[0]) in edges
  {
    PathSplit(g, ns, os);
    hide IsPath, Link, Extended, SomePaths, RealEdges;
    ExtendFinds(frontier, edges, Chain(ns[1..], os[1..], d), Edge(ns[0], ns[1], os[0]));
  }

  /** One level of the search loses no path and keeps every head for the next level. */
  lemma ExtendComplete(g: Graph, d: nat, frontier: seq<Chain>, current: seq<Word>, edges: seq<Edge>, srcs: seq<Word>)
    requires g.step > 0 && AllPaths(g, d, frontier) && HeadsIn(g, d, current) && AllEdges(g, current, edges)
    requires forall e :: e in edges ==> e.source in srcs
    ensures AllPaths(g, d + 1, Extended(frontier, |frontier|, edges))
    ensures HeadsIn(g, d + 1, srcs)
  {
    ExtendSound(g, d, frontier, edges, Extended(frontier, |frontier|, edges));
    hide IsPath, Link, Extended, SomePaths, RealEdges;
    forall ns, os | IsPath(g, ns, os) && |os| == d + 1
      ensures Chain(ns, os, d + 1) in Extended(frontier, |frontier|, edges) && ns[0] in srcs
    {
      ExtendFindsPath(g, d, frontier, current, edges, ns, os);
    }
  }

  // --- Plain arithmetic ---

  /** The target and every possible source lie above the largest offset. */
  ghost predicate AboveWindow(g: Graph) {
    g.target > g.maxOffset && forall a: nat :: a in g.sources ==> a > g.maxOffset
  }

  /** The path one would write down: stored pointer + offset = next address, no address twice. */
  ghost predicate PlainPath(g: Graph, nodes: seq<Word>, offsets: seq<Word>)
    requires g.step > 0
  {
    && |nodes| == |offsets| + 1 && nodes[|offsets|] == g.target && Chunk.Distinct(nodes)
    && forall i :: 0 <= i < |offsets| ==> PlainLink(g, nodes[i], offsets[i], nodes[i + 1])
  }

  predicate PlainLink(g: Graph, a: Word, o: Word, next: Word)
    requires g.step > 0
  {
    a in g.sources && o <= g.maxOffset && o % g.step == 0 && PointerAt(g.mem, a) + o == next
  }

  lemma LinkIsPlain(g: Graph, a: Word, o: Word, next: Word)
    requires g.step > 0 && next > g.maxOffset
    ensures Link(g, a, o, next) <==> PlainLink(g, a, o, next)
  {
    OffsetsSpec(g);
  }

  /** The code's link differs from the plain one exactly for a null pointer and for a sum past 2^64. */
  lemma LinkDiffers(g: Graph, a: Word, o: Word, next: Word)
    requires g.step > 0
    ensures (Link(g, a, o, next) <==> PlainLink(g, a, o, next)) <==>
            !(a in g.sources && o <= g.maxOffset && o % g.step == 0 &&
              ((PointerAt(g.mem, a) == 0 && next == o) || (PointerAt(g.mem, a) + o == next + TWO64 && next != 0)))
  {
    OffsetsSpec(g);
    hide PointerAt;
  }

  /** Above the window neither wrap-around nor the empty-slot marker 0 changes what is found. */
  lemma PlainPaths(g: Graph, nodes: seq<Word>, offsets: seq<Word>)
    requires g.step > 0 && AboveWindow(g)
    ensures IsPath(g, nodes, offsets) <==> PlainPath(g, nodes, offsets)
  {
    IsPathSpec(g, nodes, offsets);
    hide IsPath;
    if |nodes| == |offsets| + 1 && nodes[|offsets|] == g.target {
      if IsPath(g, nodes, offsets) {
        forall i | 0 <= i < |offsets|
          ensures PlainLink(g, nodes[i], offsets[i], nodes[i + 1])
        {
          assert Link(g, nodes[i], offsets[i], nodes[i + 1]);
          assert i + 1 < |offsets| ==> Link(g, nodes[i + 1], offsets[i + 1], nodes[i + 2]);
          LinkIsPlain(g, nodes[i], offsets[i], nodes[i + 1]);
        }
      }
      if PlainPath(g, nodes, offsets) {
        forall i | 0 <= i < |offsets|
          ensures Link(g, nodes[i], offsets[i], nodes[i + 1])
        {
          assert PlainLink(g, nodes[i], offsets[i], nodes[i + 1]);
          assert i + 1 < |offsets| ==> PlainLink(g, nodes[i + 1], offsets[i + 1], nodes[i + 2]);
          LinkIsPlain(g, nodes[i], offsets[i], nodes[i + 1]);
        }
      }
    }
  }

  /**
   * Without that condition plain paths are missed: whenever the target itself is a
   * window offset, every null pointer reaches it, but 0 is never a member of the hash set.
   */
  lemma NullPointerMissed(g: Graph, a: Word)
    requires g.step > 0 && g.target <= g.maxOffset && g.target % g.step == 0
    requires a in g.sources && a != g.target && PointerAt(g.mem, a) == 0
    ensures PlainPath(g, [a, g.target], [g.target]) && !IsPath(g, [a, g.target], [g.target])
  {
    assert PlainLink(g, a, g.target, g.target);
    assert !Link(g, a, g.target, g.target);
  }

  lemma NullPointer(mem: Bytes, a: nat)
    requires forall k :: a <= k < a + 8 && k in mem ==> mem[k] == 0
    ensures PointerAt(mem, a) == 0
  {
    DecodeZeros(BytesAt(mem, a, 8));
  }

  lemma {:induction false} DecodeZeros(bs: seq<Byte>)
    requires forall i :: 0 <= i < |bs| ==> bs[i] == 0
    ensures Decode(bs) == 0
  {
    if bs != [] {
      DecodeZeros(bs[1..]);
    }
  }
}
