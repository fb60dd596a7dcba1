/** When a pointer scan says that a level was cut short. */
module PointerLimits {
  import opened Words
  import opened Chunk
  import opened PointerPaths
  import opened PointerScan

  // --- The flag for edges ---

  /** Distinct members of a list are no more than the list. */
  lemma {:induction false} DistinctFits<T>(some: seq<T>, all: seq<T>)
    requires Distinct(some) && forall x :: x in some ==> x in all
    ensures |some| <= |all|
  {
    if some != [] {
      var n := |some| - 1;
      assert some[n] in all;
      var k :| 0 <= k < |all| && all[k] == some[n];
      var rest := all[..k] + all[k + 1..];
      forall x | x in some[..n]
        ensures x in rest
      {
        assert x in some;
        var i :| 0 <= i < |all| && all[i] == x;
        assert i != k;
        assert i < k ==> rest[i] == x;
        assert i > k ==> rest[i - 1] == x;
      }
      DistinctFits(some[..n], rest);
    }
  }

  /** When they are as many, they are all of them. */
  lemma DistinctFills<T>(some: seq<T>, all: seq<T>)
    requires Distinct(some) && |some| >= |all| && forall x :: x in some ==> x in all
    ensures forall x :: x in all ==> x in some
  {
    forall x | x in all
      ensures x in some
    {
      if x !in some {
        DistinctFits(some + [x], all);
      }
    }
  }

  /** Links into the targets of a level, none twice. */
  ghost predicate Hits(g: Graph, targets: seq<Word>, edges: seq<Edge>)
    requires g.step > 0
  {
    RealEdges(g, edges) && forall e :: e in edges ==> e.target in targets
  }

  /**
   * With full reads a level is flagged exactly when at least maxEdges links lead into its targets, so maybe for
   * no loss.
   */
  lemma StoppedExactly(g: Graph, opts: Options, targets: seq<Word>, st: Stage)
    requires g.step > 0 && StageOk(g, opts, true, targets, st)
    ensures st.stopped <==> exists edges :: Hits(g, targets, edges) && |edges| == EdgeLimit(opts.maxEdges)
  {
    hide SortedByTarget, Extended, CutShort, Link;
    assert Hits(g, targets, st.edges);
    if edges :| Hits(g, targets, edges) && |edges| == EdgeLimit(opts.maxEdges) {
      if !st.stopped {
        forall e | e in edges
          ensures e in st.edges
        {
          assert e.target in targets;
        }
        DistinctFits(edges, st.edges);
      }
    }
  }

  // --- The flag for chains ---

  /** While no edge finds the level full, one chain adds at most what is left. */
  lemma {:induction false} OneWithin(chain: Chain, edges: seq<Edge>, held: nat, maxChains: nat, k: nat)
    requires k <= |edges| && held < maxChains && !FullAtEdge(chain, edges, held, maxChains)
    ensures held + |ExtendOne(chain, edges, k)| <= maxChains
  {
    if k > 0 {
      OneWithin(chain, edges, held, maxChains, k - 1);
      ExtendOneNext(chain, edges, k - 1);
    }
  }

  lemma {:induction false} AllWithin(frontier: seq<Chain>, edges: seq<Edge>, maxChains: nat, i: nat)
    requires i <= |frontier| && maxChains > 0 && !CutShort(frontier, edges, maxChains)
    ensures |Extended(frontier, i, edges)| <= maxChains
  {
    ExtendedNext(frontier, 0, edges);
    if i > 0 {
      AllWithin(frontier, edges, maxChains, i - 1);
      assert !FullAt(frontier, edges, i - 1, maxChains);
      OneWithin(frontier[i - 1], edges, |Extended(frontier, i - 1, edges)|, maxChains, |edges|);
      ExtendedNext(frontier, i - 1, edges);
      hide Extended, ExtendOne, FullAtEdge;
    }
  }

  /** A level that loses chains is flagged, and one that is flagged could not have held more. */
  lemma CutMeans(frontier: seq<Chain>, edges: seq<Edge>, maxChains: nat)
    ensures var all := |Extended(frontier, |frontier|, edges)|;
            && (all > maxChains ==> CutShort(frontier, edges, maxChains))
            && (CutShort(frontier, edges, maxChains) ==> all >= maxChains)
  {
    if maxChains > 0 {
      if CutShort(frontier, edges, maxChains) {
        var i :| 0 <= i < |frontier| && FullAt(frontier, edges, i, maxChains);
        FullHolds(frontier, edges, i, maxChains);
      } else {
        AllWithin(frontier, edges, maxChains, |frontier|);
      }
    }
    hide Extended, FullAt;
  }

  lemma FullHolds(frontier: seq<Chain>, edges: seq<Edge>, i: nat, maxChains: nat)
    requires i < |frontier| && FullAt(frontier, edges, i, maxChains)
    ensures |Extended(frontier, |frontier|, edges)| >= maxChains
  {
    ExtendedGrows(frontier, i, edges);
    ExtendedGrows(frontier, i + 1, edges);
    ExtendedNext(frontier, i, edges);
    hide Extended, ExtendOne;
    var held := |Extended(frontier, i, edges)|;
    if held < maxChains {
      var k :| 0 <= k < |edges| && |frontier[i].nodes| > 0 && edges[k].target == frontier[i].nodes[0] &&
        held + |ExtendOne(frontier[i], edges, k)| >= maxChains;
      ExtendOneGrows(frontier[i], edges, k);
    }
  }
}
