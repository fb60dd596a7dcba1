/** Block traversal of the readable regions with overlap, stride and short reads (src/chunk.h). */
module Chunk {
  import opened Words
  import opened Memory

  datatype Outcome = Done | Stopped | Cancelled
  datatype Progress = Progress(scanned: nat, total: nat)

  // --- The simple definition: every aligned window of every readable region ---

  function AlignUp(p: nat, s: nat): (q: nat)
    requires s > 0
  {
    ((p + s - 1) / s) * s
  }

  lemma AlignUpSpec(p: nat, s: nat)
    requires s > 0
    ensures p <= AlignUp(p, s) < p + s && AlignUp(p, s) % s == 0
    ensures p % s == 0 ==> AlignUp(p, s) == p
  {
    var k := (p + s - 1) / s;
    assert (p + s - 1) == k * s + (p + s - 1) % s;
    MultipleOf(k, s);
    if p % s == 0 {
      UniqueMultiple(p / s, k, s, p);
    }
  }

  lemma MultipleOf(k: nat, s: nat)
    requires s > 0
    ensures (k * s) % s == 0
  {
    assert (k * s) / s == k by {
      UniqueQuotient(k * s, s, k);
    }
  }

  lemma Scale(a: int, b: int, s: nat)
    requires a < b
    ensures a * s + s <= b * s
  {
    assert (a + 1) * s <= b * s;
  }

  lemma UniqueQuotient(x: int, s: nat, k: int)
    requires s > 0 && k * s <= x < k * s + s
    ensures x / s == k
  {
    var q := x / s;
    assert x == q * s + x % s;
    if q < k {
      Scale(q, k, s);
    } else if q > k {
      Scale(k, q, s);
    }
  }

  lemma UniqueMultiple(j: nat, k: nat, s: nat, p: nat)
    requires s > 0 && p == j * s && p <= k * s < p + s
    ensures k == j
  {
    if k > j {
      Scale(j, k, s);
    } else if k < j {
      Scale(k, j, s);
    }
  }

  lemma NextMultiple(p: nat, s: nat)
    requires s > 0 && p % s == 0
    ensures (p + s) % s == 0
  {
    assert p == (p / s) * s;
    assert p + s == (p / s + 1) * s;
    MultipleOf(p / s + 1, s);
  }

  lemma NoMultipleBetween(p: nat, x: nat, s: nat)
    requires s > 0 && p % s == 0 && x % s == 0 && p < x
    ensures p + s <= x
  {
    assert p == (p / s) * s && x == (x / s) * s;
    if p / s < x / s {
      Scale(p / s, x / s, s);
    } else if x / s < p / s {
      Scale(x / s, p / s, s);
    }
  }

  /** Windows of width w starting at p, p + s, ... that end by limit. */
  function WindowsFrom(p: nat, limit: nat, w: nat, s: nat): seq<nat>
    requires s > 0
    decreases limit - p
  {
    if p + w <= limit && p < limit then [p] + WindowsFrom(p + s, limit, w, s) else []
  }

  predicate IsWindow(r: Region, a: nat, w: nat, s: nat)
    requires s > 0
  {
    r.Readable() && r.start <= a && a + w <= r.end && a % s == 0
  }

  function RegionWindows(r: Region, w: nat, s: nat): seq<nat>
    requires s > 0
  {
    if r.Readable() then WindowsFrom(AlignUp(r.start, s), r.end, w, s) else []
  }

  /** The windows of the first i regions. */
  function WindowsBefore(regions: seq<Region>, i: nat, w: nat, s: nat): seq<nat>
    requires s > 0 && i <= |regions|
  {
    if i == 0 then [] else WindowsBefore(regions, i - 1, w, s) + RegionWindows(regions[i - 1], w, s)
  }

  function AllWindows(regions: seq<Region>, w: nat, s: nat): seq<nat>
    requires s > 0
  {
    WindowsBefore(regions, |regions|, w, s)
  }

  // --- Regions that hold bytes: a listed region may be unreadable as a whole ---

  predicate HoldsBytes(mem: Bytes, r: Region) {
    exists a: nat {:trigger a in mem} :: r.start <= a < r.end && a in mem
  }

  function BackedBefore(mem: Bytes, regions: seq<Region>, i: nat): seq<Region>
    requires i <= |regions|
  {
    if i == 0 then []
    else BackedBefore(mem, regions, i - 1) + (if HoldsBytes(mem, regions[i - 1]) then [regions[i - 1]] else [])
  }

  /** The regions of which anything can be read. */
  function Backed(mem: Bytes, regions: seq<Region>): seq<Region> {
    BackedBefore(mem, regions, |regions|)
  }

  lemma {:induction false} BackedMembers(mem: Bytes, regions: seq<Region>, i: nat, r: Region)
    requires i <= |regions|
    ensures r in BackedBefore(mem, regions, i) <==> r in regions[..i] && HoldsBytes(mem, r)
  {
    if i > 0 {
      BackedMembers(mem, regions, i - 1, r);
      assert regions[..i] == regions[..i - 1] + [regions[i - 1]];
      hide HoldsBytes;
    }
  }

  function WindowsHeld(mem: Bytes, r: Region, w: nat, s: nat): seq<nat>
    requires s > 0
  {
    if HoldsBytes(mem, r) then RegionWindows(r, w, s) else []
  }

  /** The windows of those among the first i regions. */
  function HeldBefore(mem: Bytes, regions: seq<Region>, i: nat, w: nat, s: nat): seq<nat>
    requires s > 0 && i <= |regions|
  {
    if i == 0 then [] else HeldBefore(mem, regions, i - 1, w, s) + WindowsHeld(mem, regions[i - 1], w, s)
  }

  lemma {:induction false} WindowsBeforeSame(regions: seq<Region>, more: seq<Region>, i: nat, w: nat, s: nat)
    requires s > 0 && i <= |regions| && regions <= more
    ensures WindowsBefore(regions, i, w, s) == WindowsBefore(more, i, w, s)
  {
    if i > 0 {
      WindowsBeforeSame(regions, more, i - 1, w, s);
      hide RegionWindows;
    }
  }

  lemma {:induction false} HeldIsBacked(mem: Bytes, regions: seq<Region>, i: nat, w: nat, s: nat)
    requires s > 0 && i <= |regions|
    ensures HeldBefore(mem, regions, i, w, s) == AllWindows(BackedBefore(mem, regions, i), w, s)
  {
    if i > 0 {
      hide HoldsBytes, RegionWindows;
      HeldIsBacked(mem, regions, i - 1, w, s);
      var front, all := BackedBefore(mem, regions, i - 1), BackedBefore(mem, regions, i);
      WindowsBeforeSame(front, all, |front|, w, s);
      if HoldsBytes(mem, regions[i - 1]) {
        assert all == front + [regions[i - 1]];
      } else {
        assert all == front;
        assert HeldBefore(mem, regions, i - 1, w, s) + [] == HeldBefore(mem, regions, i - 1, w, s);
      }
    }
  }

  predicate Ascending(xs: seq<nat>) {
    forall i, j :: 0 <= i < j < |xs| ==> xs[i] < xs[j]
  }

  lemma AscendingJoin(xs: seq<nat>, ys: seq<nat>)
    requires Ascending(xs) && Ascending(ys)
    requires forall x, y :: x in xs && y in ys ==> x < y
    ensures Ascending(xs + ys)
  {
    forall i, j | 0 <= i < j < |xs + ys|
      ensures (xs + ys)[i] < (xs + ys)[j]
    {
      if i < |xs| <= j {
        assert xs[i] in xs && ys[j - |xs|] in ys;
      }
    }
  }

  lemma {:induction false} WindowsFromSpec(p: nat, limit: nat, w: nat, s: nat)
    requires s > 0 && w > 0 && p % s == 0
    ensures Ascending(WindowsFrom(p, limit, w, s))
    ensures forall a: nat :: a in WindowsFrom(p, limit, w, s) <==> p <= a && a + w <= limit && a % s == 0
    decreases limit - p
  {
    if p + w <= limit {
      NextMultiple(p, s);
      WindowsFromSpec(p + s, limit, w, s);
      forall a: nat | p < a && a % s == 0
        ensures p + s <= a
      {
        NoMultipleBetween(p, a, s);
      }
      AscendingJoin([p], WindowsFrom(p + s, limit, w, s));
    }
  }

  /** The list is strictly increasing and holds exactly the aligned windows that fit. */
  lemma RegionWindowsSpec(r: Region, w: nat, s: nat)
    requires s > 0 && w > 0
    ensures Ascending(RegionWindows(r, w, s))
    ensures forall a: nat :: a in RegionWindows(r, w, s) <==> IsWindow(r, a, w, s)
  {
    AlignUpSpec(r.start, s);
    WindowsFromSpec(AlignUp(r.start, s), r.end, w, s);
    forall a: nat | r.start <= a && a % s == 0
      ensures AlignUp(r.start, s) <= a
    {
      if a < AlignUp(r.start, s) {
        NoMultipleBetween(a, AlignUp(r.start, s), s);
      }
    }
  }

  // --- The callback: an accumulator threaded through the windows until it says stop ---

  function Fold<S>(mem: Bytes, w: nat, step: (S, nat, seq<Byte>) -> (S, bool), st: S, ws: seq<nat>): (r: (S, bool))
  {
    if ws == [] then (st, true)
    else
      var (st1, go) := step(st, ws[0], BytesAt(mem, ws[0], w));
      if go then Fold(mem, w, step, st1, ws[1..]) else (st1, false)
  }

  lemma {:induction false} FoldAppend<S>(mem: Bytes, w: nat, step: (S, nat, seq<Byte>) -> (S, bool), st: S,
                                         a: seq<nat>, b: seq<nat>)
    ensures Fold(mem, w, step, st, a + b) ==
            var r := Fold(mem, w, step, st, a);
            if r.1 then Fold(mem, w, step, r.0, b) else r
  {
    if a == [] {
      assert a + b == b;
    } else {
      var (st1, go) := step(st, a[0], BytesAt(mem, a[0], w));
      assert (a + b)[1..] == a[1..] + b;
      if go {
        FoldAppend(mem, w, step, st1, a[1..], b);
      }
    }
  }

  lemma FoldOne<S>(mem: Bytes, w: nat, step: (S, nat, seq<Byte>) -> (S, bool), st: S, a: nat)
    ensures Fold(mem, w, step, st, [a]) == step(st, a, BytesAt(mem, a, w))
  {
    var (st1, go) := step(st, a, BytesAt(mem, a, w));
    assert [a][1..] == [];
  }

  // --- The traversal ---

  predicate Within(r: Region, a: nat, n: nat) {
    r.Readable() && r.start <= a && n > 0 && a + n <= r.end
  }

  /** Every read inside a readable region yields a window, or all that was asked for. */
  ghost predicate FullReads(got: ReadCounts, regions: seq<Region>, w: nat) {
    forall i, a: nat, n: nat {:trigger regions[i], got(a, n)} ::
      0 <= i < |regions| && Within(regions[i], a, n) ==> got(a, n) >= Min(w, n)
  }

  /** When reads in all regions are full, all that have anything to read are backed. */
  lemma {:induction false} FullIsBacked(mem: Bytes, got: ReadCounts, regions: seq<Region>, i: nat, w: nat, s: nat)
    requires s > 0 && w > 0 && i <= |regions| && ValidReads(mem, got) && FullReads(got, regions, w)
    ensures HeldBefore(mem, regions, i, w, s) == WindowsBefore(regions, i, w, s)
  {
    if i > 0 {
      FullIsBacked(mem, got, regions, i - 1, w, s);
      FullHolds(mem, got, regions, i - 1, w, s);
      hide RegionWindows, HoldsBytes;
    }
  }

  lemma FullHolds(mem: Bytes, got: ReadCounts, regions: seq<Region>, i: nat, w: nat, s: nat)
    requires s > 0 && w > 0 && i < |regions| && ValidReads(mem, got) && FullReads(got, regions, w)
    ensures RegionWindows(regions[i], w, s) == [] || HoldsBytes(mem, regions[i])
  {
    RegionWindowsSpec(regions[i], w, s);
    hide RegionWindows;
    if RegionWindows(regions[i], w, s) != [] {
      var a := RegionWindows(regions[i], w, s)[0];
      assert a in RegionWindows(regions[i], w, s) && Within(regions[i], a, 1);
      assert got(a, 1) > 0 && Available(mem, a, got(a, 1));
      assert a in mem;
    }
  }

  lemma BackedReads(mem: Bytes, got: ReadCounts, regions: seq<Region>, w: nat)
    requires FullReads(got, regions, w)
    ensures FullReads(got, Backed(mem, regions), w)
  {
    var backed := Backed(mem, regions);
    assert backed == BackedBefore(mem, regions, |regions|);
    hide Backed, BackedBefore, HoldsBytes;
    forall i, a: nat, n: nat | 0 <= i < |backed| && Within(backed[i], a, n)
      ensures got(a, n) >= Min(w, n)
    {
      BackedMembers(mem, regions, |regions|, backed[i]);
      assert backed[i] in backed;
      assert regions[..|regions|] == regions;
      var j :| 0 <= j < |regions| && regions[j] == backed[i];
      assert Within(regions[j], a, n);
    }
  }

  /** So then backed regions and all regions have the same windows. */
  lemma AllBacked(mem: Bytes, got: ReadCounts, regions: seq<Region>, w: nat, s: nat)
    requires s > 0 && w > 0 && ValidReads(mem, got) && FullReads(got, regions, w)
    ensures FullReads(got, Backed(mem, regions), w)
    ensures AllWindows(Backed(mem, regions), w, s) == AllWindows(regions, w, s)
  {
    hide FullReads, ValidReads, HoldsBytes;
    BackedReads(mem, got, regions, w);
    FullIsBacked(mem, got, regions, |regions|, w, s);
    HeldIsBacked(mem, regions, |regions|, w, s);
  }

  /** A block of n bytes from pos on has been delivered up to next. */
  predicate BlockAt(limit: nat, pos: nat, n: nat, w: nat, s: nat, next: nat, seen: seq<nat>)
    requires s > 0
  {
    && pos <= next && next % s == 0 && (next == pos ==> seen == []) && (next > pos ==> next + w <= pos + n + s)
    && Ascending(seen)
    && (forall a {:trigger a in seen} :: a in seen ==> pos <= a < next && a + w <= pos + n && a % s == 0)
    && WindowsFrom(pos, limit, w, s) == seen + WindowsFrom(next, limit, w, s)
  }

  lemma BlockNext(limit: nat, pos: nat, n: nat, w: nat, s: nat, next: nat, seen: seq<nat>)
    requires s > 0 && w > 0 && pos + n <= limit && BlockAt(limit, pos, n, w, s, next, seen) && next + w <= pos + n
    ensures BlockAt(limit, pos, n, w, s, next + s, seen + [next])
    ensures seen + [next] <= WindowsFrom(pos, limit, w, s)
  {
    NextMultiple(next, s);
    AscendingJoin(seen, [next]);
    var rest := WindowsFrom(next + s, limit, w, s);
    assert WindowsFrom(next, limit, w, s) == [next] + rest;
    hide WindowsFrom, Ascending;
    Reassociate(seen, [next], rest);
  }

  lemma BlockStart(limit: nat, pos: nat, n: nat, w: nat, s: nat)
    requires s > 0 && pos % s == 0
    ensures BlockAt(limit, pos, n, w, s, pos, [])
  {
    hide WindowsFrom;
  }

  lemma WindowOfBlock(mem: Bytes, pos: nat, buf: seq<Byte>, i: nat, w: nat)
    requires i + w <= |buf| && buf == BytesAt(mem, pos, |buf|)
    ensures buf[i..i + w] == BytesAt(mem, pos + i, w)
  {
  }

  /** One more window for the callback. */
  lemma FoldNext<S>(mem: Bytes, w: nat, step: (S, nat, seq<Byte>) -> (S, bool), st0: S, st: S, seen: seq<nat>, a: nat)
    requires Fold(mem, w, step, st0, seen) == (st, true)
    ensures Fold(mem, w, step, st0, seen + [a]) == step(st, a, BytesAt(mem, a, w))
  {
    FoldAppend(mem, w, step, st0, seen, [a]);
    FoldOne(mem, w, step, st, a);
    hide Fold, BytesAt;
  }

  /** Delivers the windows of one block of which n bytes were read. */
  method DeliverBlock<S>(mem: Bytes, ghost limit: nat, pos: nat, buf: seq<Byte>, w: nat, s: nat,
                         step: (S, nat, seq<Byte>) -> (S, bool), st0: S)
    returns (st: S, go: bool, next: nat, ghost seen: seq<nat>)
    requires w > 0 && s > 0 && |buf| >= w && pos % s == 0 && pos + |buf| <= limit
    requires buf == BytesAt(mem, pos, |buf|)
    ensures Fold(mem, w, step, st0, seen) == (st, go)
    ensures Ascending(seen)
    ensures forall a :: a in seen ==> pos <= a < next && a + w <= pos + |buf| && a % s == 0
    ensures next % s == 0 && pos < next && next + w <= pos + |buf| + s
    ensures go ==> WindowsFrom(pos, limit, w, s) == seen + WindowsFrom(next, limit, w, s)
    ensures go ==> pos + |buf| < next + w
    ensures !go ==> seen <= WindowsFrom(pos, limit, w, s)
  {
    hide Ascending, WindowsFrom, BytesAt, Fold, BlockAt;
    st, go, next, seen := st0, true, pos, [];
    FoldNone(mem, w, step, st0);
    BlockStart(limit, pos, |buf|, w, s);
    var i := 0;
    while i + w <= |buf|
      invariant next == pos + i
      invariant Fold(mem, w, step, st0, seen) == (st, true)
      invariant BlockAt(limit, pos, |buf|, w, s, next, seen)
    {
      WindowOfBlock(mem, pos, buf, i, w);
      FoldNext(mem, w, step, st0, st, seen, next);
      BlockNext(limit, pos, |buf|, w, s, next, seen);
      seen := seen + [next];
      st, go := StepOnce(step, st, next, buf[i..i + w]);
      next := next + s;
      i := i + s;
      if !go {
        break;
      }
    }
    BlockUse(limit, pos, |buf|, w, s, next, seen);
  }

  lemma FoldNone<S>(mem: Bytes, w: nat, step: (S, nat, seq<Byte>) -> (S, bool), st0: S)
    ensures Fold(mem, w, step, st0, []) == (st0, true)
  {
  }

  lemma BlockUse(limit: nat, pos: nat, n: nat, w: nat, s: nat, next: nat, seen: seq<nat>)
    requires s > 0 && BlockAt(limit, pos, n, w, s, next, seen)
    ensures Ascending(seen) && next % s == 0 && (next > pos ==> next + w <= pos + n + s)
    ensures forall a :: a in seen ==> pos <= a < next && a + w <= pos + n && a % s == 0
    ensures WindowsFrom(pos, limit, w, s) == seen + WindowsFrom(next, limit, w, s)
  {
    hide Ascending, WindowsFrom;
  }

  method StepOnce<S>(step: (S, nat, seq<Byte>) -> (S, bool), st0: S, a: nat, win: seq<Byte>) returns (st: S, go: bool)
    ensures (st, go) == step(st0, a, win)
  {
    var r := step(st0, a, win);
    st, go := r.0, r.1;
  }

  /** Bytes of the readable ones among the first i regions. */
  function TotalBefore(regions: seq<Region>, i: nat): (t: nat)
    requires i <= |regions|
  {
    if i == 0 then 0
    else TotalBefore(regions, i - 1) + (if regions[i - 1].Readable() then regions[i - 1].Size() else 0)
  }

  /** The total that progress is measured against. */
  function ReadableTotal(regions: seq<Region>): nat {
    TotalBefore(regions, |regions|)
  }

  method SumReadable(regions: seq<Region>) returns (total: nat)
    ensures total == ReadableTotal(regions)
  {
    total := 0;
    var i := 0;
    while i < |regions|
      invariant 0 <= i <= |regions|
      invariant total == TotalBefore(regions, i)
    {
      if regions[i].Readable() {
        total := total + regions[i].Size();
      }
      i := i + 1;
    }
  }

  lemma {:induction false} BeforeGrows(mem: Bytes, regions: seq<Region>, i: nat, w: nat, s: nat)
    requires i <= |regions| && s > 0
    ensures TotalBefore(regions, i) <= ReadableTotal(regions)
    ensures HeldBefore(mem, regions, i, w, s) <= HeldBefore(mem, regions, |regions|, w, s)
    decreases |regions| - i
  {
    hide WindowsHeld;
    if i < |regions| {
      BeforeGrows(mem, regions, i + 1, w, s);
    }
  }

  /** Reports never go back and stay between two bounds. */
  predicate Steady(ps: seq<Progress>, lo: nat, hi: nat, total: nat) {
    && (forall i :: 0 <= i < |ps| ==> lo <= ps[i].scanned <= hi && ps[i].total == total)
    && (forall i, j :: 0 <= i < j < |ps| ==> ps[i].scanned <= ps[j].scanned)
  }

  lemma SteadyJoin(ps: seq<Progress>, qs: seq<Progress>, lo: nat, mid: nat, hi: nat, total: nat)
    requires Steady(ps, lo, mid, total) && Steady(qs, mid, hi, total) && lo <= mid <= hi
    ensures Steady(ps + qs, lo, hi, total)
  {
  }

  lemma Reassociate(a: seq<nat>, b: seq<nat>, c: seq<nat>)
    ensures a + (b + c) == (a + b) + c
  {
  }

  /** A full read shorter than a window can only be the end of the region. */
  lemma ShortTail(got: ReadCounts, r: Region, pos: nat, want: nat, w: nat, s: nat, chunk: nat)
    requires s > 0 && r.Readable() && r.start <= pos < r.end && pos % s == 0
    requires want == Min(chunk, r.end - pos) && 0 < got(pos, want) < w
    ensures w <= chunk && FullReads(got, [r], w) ==>
              WindowsFrom(pos, r.end, w, s) == [] &&
              WindowsFrom(AlignUp(pos + got(pos, want), s), r.end, w, s) == []
  {
    AlignUpSpec(pos + got(pos, want), s);
    if w <= chunk && FullReads(got, [r], w) {
      assert [r][0] == r && Within(r, pos, want);
    }
  }

  ghost predicate Full(got: ReadCounts, r: Region, w: nat, chunk: nat) {
    w <= chunk && FullReads(got, [r], w)
  }

  /** What has been delivered from a region when the traversal stands at pos. */
  ghost predicate Delivered(mem: Bytes, r: Region, w: nat, s: nat, pos: nat, seen: seq<nat>)
    requires s > 0
  {
    && Ascending(seen)
    && forall a {:trigger a in seen} :: a in seen ==> IsWindow(r, a, w, s) && Available(mem, a, w) && a < pos
  }

  /** Everything still to come, given that nothing was skipped so far. */
  ghost predicate Complete(r: Region, w: nat, s: nat, pos: nat, seen: seq<nat>)
    requires s > 0
  {
    RegionWindows(r, w, s) == seen + WindowsFrom(AlignUp(pos, s), r.end, w, s)
  }

  lemma DeliveredJoin(mem: Bytes, r: Region, w: nat, s: nat, pos: nat, n: nat, next: nat, seen: seq<nat>,
                      part: seq<nat>)
    requires s > 0 && r.Readable() && r.start <= pos && pos + n <= r.end && Available(mem, pos, n)
    requires Delivered(mem, r, w, s, pos, seen) && Ascending(part) && pos <= next
    requires forall a :: a in part ==> pos <= a < next && a + w <= pos + n && a % s == 0
    ensures Delivered(mem, r, w, s, next, seen + part)
  {
    AscendingJoin(seen, part);
  }

  lemma CompleteJoin(r: Region, w: nat, s: nat, pos: nat, next: nat, seen: seq<nat>, part: seq<nat>)
    requires s > 0 && pos % s == 0 && next % s == 0 && Complete(r, w, s, pos, seen)
    requires WindowsFrom(pos, r.end, w, s) == part + WindowsFrom(next, r.end, w, s)
    ensures Complete(r, w, s, next, seen + part)
  {
    AlignUpSpec(pos, s);
    AlignUpSpec(next, s);
    Reassociate(seen, part, WindowsFrom(next, r.end, w, s));
  }

  lemma StoppedPrefix(r: Region, w: nat, s: nat, pos: nat, seen: seq<nat>, part: seq<nat>)
    requires s > 0 && pos % s == 0 && Complete(r, w, s, pos, seen)
    requires part <= WindowsFrom(pos, r.end, w, s)
    ensures seen + part <= RegionWindows(r, w, s)
  {
    AlignUpSpec(pos, s);
  }

  /** One block: read it, deliver what arrived, move on. */
  method ScanBlock<S>(mem: Bytes, got: ReadCounts, r: Region, w: nat, s: nat, chunk: nat,
                      step: (S, nat, seq<Byte>) -> (S, bool), ghost st0: S, st: S,
                      pos: nat, covered: nat, ghost seen: seq<nat>)
    returns (st': S, go: bool, pos': nat, covered': nat, ghost seen': seq<nat>)
    requires w > 0 && s > 0 && chunk > 0 && r.Readable() && ValidReads(mem, got)
    requires r.start <= pos < r.end && pos % s == 0 && covered <= r.end
    requires Delivered(mem, r, w, s, pos, seen) && Fold(mem, w, step, st0, seen) == (st, true)
    ensures Fold(mem, w, step, st0, seen') == (st', go)
    ensures pos < pos' && Delivered(mem, r, w, s, pos', seen')
    ensures covered <= covered' <= r.end
    ensures s == 1 ==> pos' <= covered'
    ensures Full(got, r, w, chunk) && Complete(r, w, s, pos, seen) && go ==> Complete(r, w, s, pos', seen')
    ensures Full(got, r, w, chunk) && Complete(r, w, s, pos, seen) && !go ==> seen' <= RegionWindows(r, w, s)
  {
    var want := Min(chunk, r.end - pos);
    var n := got(pos, want);
    if n <= 0 {
      assert Full(got, r, w, chunk) ==> [r][0] == r && Within(r, pos, want);
      st', go, pos', seen' := st, true, pos + want, seen;
      covered' := if pos' > covered then pos' else covered;
      return;
    }
    covered' := if pos + n > covered then pos + n else covered;
    if n < w {
      ShortTail(got, r, pos, want, w, s, chunk);
      AlignUpSpec(pos, s);
      st', go, pos', seen' := st, true, pos + n, seen;
      return;
    }
    ghost var part;
    st', go, pos', part := DeliverBlock(mem, r.end, pos, BytesAt(mem, pos, n), w, s, step, st);
    FoldAppend(mem, w, step, st0, seen, part);
    DeliveredJoin(mem, r, w, s, pos, n, pos', seen, part);
    seen' := seen + part;
    if Complete(r, w, s, pos, seen) {
      if go {
        CompleteJoin(r, w, s, pos, pos', seen, part);
      } else {
        StoppedPrefix(r, w, s, pos, seen, part);
      }
    }
  }

  lemma SteadyWiden(ps: seq<Progress>, lo: nat, mid: nat, hi: nat, total: nat)
    requires Steady(ps, lo, mid, total) && mid <= hi
    ensures Steady(ps, lo, hi, total)
  {
  }

  method ScanRegion<S>(mem: Bytes, got: ReadCounts, r: Region, w: nat, s: nat, chunk: nat,
                       step: (S, nat, seq<Byte>) -> (S, bool), st0: S, cancel: CancelFlag, scanned: nat, total: nat)
    returns (st: S, outcome: Outcome, covered: nat, progress: seq<Progress>, ghost seen: seq<nat>)
    requires w > 0 && s > 0 && chunk > 0 && r.Readable() && ValidReads(mem, got)
    modifies cancel
    ensures Fold(mem, w, step, st0, seen) == (st, outcome != Stopped)
    ensures Delivered(mem, r, w, s, r.end, seen)
    ensures old(cancel.raised) ==> cancel.raised
    ensures cancel.raised ==> old(cancel.raised) || cancel.rise.Some?
    ensures outcome == Cancelled ==> cancel.raised
    ensures r.start <= covered <= r.end
    ensures Steady(progress, scanned, scanned + covered - r.start, total)
    ensures outcome == Done && s == 1 ==> covered == r.end
    ensures outcome == Done && s == 1 && r.start < r.end ==>
              progress != [] && progress[|progress| - 1].scanned == scanned + r.end - r.start
    ensures Full(got, r, w, chunk) ==> seen <= RegionWindows(r, w, s)
    ensures Full(got, r, w, chunk) && outcome == Done ==> seen == RegionWindows(r, w, s)
  {
    hide *;
    ghost var full := Full(got, r, w, chunk);
    var pos: nat := r.start;
    covered, st, progress, seen, outcome := r.start, st0, [], [], Done;
    RegionStart(mem, r, w, s, step, st0, scanned, total);
    while pos < r.end
      invariant r.start <= pos && r.start <= covered <= r.end
      invariant Fold(mem, w, step, st0, seen) == (st, true) && outcome == Done
      invariant Delivered(mem, r, w, s, pos, seen)
      invariant old(cancel.raised) ==> cancel.raised
      invariant cancel.raised ==> old(cancel.raised) || cancel.rise.Some?
      invariant s == 1 ==> pos <= covered
      invariant full ==> Complete(r, w, s, pos, seen)
      invariant Steady(progress, scanned, scanned + covered - r.start, total)
      invariant pos > r.start && s == 1 ==>
          progress != [] && progress[|progress| - 1].scanned == scanned + covered - r.start
      decreases r.end - pos
    {
      RegionLeave(mem, r, w, s, pos, seen);
      var stop := cancel.Load();
      if stop {
        outcome := Cancelled;
        return;
      }
      Realign(mem, r, w, s, pos, seen);
      pos := AlignUp(pos, s);
      if pos >= r.end {
        break;
      }
      ghost var was := covered;
      var go;
      st, go, pos, covered, seen := ScanBlock(mem, got, r, w, s, chunk, step, st0, st, pos, covered, seen);
      RegionLeave(mem, r, w, s, pos, seen);
      Report(progress, scanned, scanned + was - r.start, scanned + covered - r.start, total);
      if !go {
        outcome := Stopped;
        return;
      }
      progress := progress + [Progress(scanned + covered - r.start, total)];
    }
    Realign(mem, r, w, s, pos, seen);
    RegionLeave(mem, r, w, s, pos, seen);
  }

  lemma RegionStart<S>(mem: Bytes, r: Region, w: nat, s: nat, step: (S, nat, seq<Byte>) -> (S, bool), st0: S,
                       scanned: nat, total: nat)
    requires s > 0 && r.Readable()
    ensures Fold(mem, w, step, st0, []) == (st0, true)
    ensures Delivered(mem, r, w, s, r.start, []) && Complete(r, w, s, r.start, [])
    ensures Steady([], scanned, scanned, total)
  {
  }

  /** Moving up to the next aligned position loses nothing. */
  lemma Realign(mem: Bytes, r: Region, w: nat, s: nat, pos: nat, seen: seq<nat>)
    requires s > 0 && Delivered(mem, r, w, s, pos, seen)
    ensures pos <= AlignUp(pos, s) && AlignUp(pos, s) % s == 0 && (s == 1 ==> AlignUp(pos, s) == pos)
    ensures Delivered(mem, r, w, s, AlignUp(pos, s), seen)
    ensures Complete(r, w, s, pos, seen) ==> Complete(r, w, s, AlignUp(pos, s), seen)
  {
    AlignUpSpec(pos, s);
    AlignUpSpec(AlignUp(pos, s), s);
  }

  lemma RegionLeave(mem: Bytes, r: Region, w: nat, s: nat, pos: nat, seen: seq<nat>)
    requires s > 0 && w > 0 && Delivered(mem, r, w, s, pos, seen)
    ensures Delivered(mem, r, w, s, r.end, seen)
    ensures Complete(r, w, s, pos, seen) ==> seen <= RegionWindows(r, w, s)
    ensures Complete(r, w, s, pos, seen) && pos >= r.end ==> seen == RegionWindows(r, w, s)
  {
    AlignUpSpec(pos, s);
  }

  lemma Report(progress: seq<Progress>, lo: nat, mid: nat, hi: nat, total: nat)
    requires Steady(progress, lo, mid, total) && lo <= mid <= hi
    ensures Steady(progress, lo, hi, total)
    ensures Steady(progress + [Progress(hi, total)], lo, hi, total)
  {
    SteadyJoin(progress, [Progress(hi, total)], lo, mid, hi, total);
  }

  /** Delivered windows are real: inside a readable region, aligned, and their bytes were there. */
  ghost predicate RealWindows(mem: Bytes, regions: seq<Region>, w: nat, s: nat, seen: seq<nat>, home: seq<nat>)
    requires s > 0
  {
    && |home| == |seen|
    && forall k {:trigger seen[k]} {:trigger home[k]} :: 0 <= k < |seen| ==>
        home[k] < |regions| && IsWindow(regions[home[k]], seen[k], w, s) && Available(mem, seen[k], w)
  }

  /** Region by region, and strictly upwards inside a region: nothing is delivered twice. */
  ghost predicate InOrder(seen: seq<nat>, home: seq<nat>)
    requires |home| == |seen|
  {
    forall j, k :: 0 <= j < k < |seen| ==> home[j] < home[k] || (home[j] == home[k] && seen[j] < seen[k])
  }

  ghost predicate Record(mem: Bytes, regions: seq<Region>, i: nat, w: nat, s: nat, seen: seq<nat>, home: seq<nat>)
    requires s > 0
  {
    && RealWindows(mem, regions, w, s, seen, home)
    && InOrder(seen, home)
    && forall k :: 0 <= k < |home| ==> home[k] < i
  }

  lemma AppendRegion(mem: Bytes, regions: seq<Region>, i: nat, w: nat, s: nat,
                     seen: seq<nat>, home: seq<nat>, part: seq<nat>)
    returns (home': seq<nat>)
    requires s > 0 && i < |regions| && Record(mem, regions, i, w, s, seen, home)
    requires Delivered(mem, regions[i], w, s, regions[i].end, part)
    ensures Record(mem, regions, i + 1, w, s, seen + part, home')
  {
    home' := home + seq(|part|, _ => i);
    forall k | 0 <= k < |seen + part|
      ensures home'[k] < |regions| && IsWindow(regions[home'[k]], (seen + part)[k], w, s)
      ensures Available(mem, (seen + part)[k], w)
    {
      if k < |seen| {
        assert seen[k] == (seen + part)[k];
      } else {
        assert part[k - |seen|] in part;
      }
    }
  }

  /** Every window of those of the first i regions whose own reads are full. */
  ghost predicate Covers(got: ReadCounts, regions: seq<Region>, i: nat, w: nat, s: nat, chunk: nat, seen: seq<nat>)
    requires s > 0 && i <= |regions|
  {
    forall j, a: nat :: 0 <= j < i && Full(got, regions[j], w, chunk) && IsWindow(regions[j], a, w, s) ==> a in seen
  }

  lemma CoversNext(got: ReadCounts, regions: seq<Region>, i: nat, w: nat, s: nat, chunk: nat, seen: seq<nat>,
                   part: seq<nat>)
    requires s > 0 && w > 0 && i < |regions| && Covers(got, regions, i, w, s, chunk, seen)
    requires regions[i].Readable() && Full(got, regions[i], w, chunk) ==> part == RegionWindows(regions[i], w, s)
    ensures Covers(got, regions, i + 1, w, s, chunk, seen + part)
  {
    RegionWindowsSpec(regions[i], w, s);
    hide Full, RegionWindows;
  }

  /** Where the traversal stands before region i, when nothing stopped it. */
  ghost predicate Standing(mem: Bytes, regions: seq<Region>, i: nat, w: nat, s: nat, full: bool, seen: seq<nat>,
                           scanned: nat, progress: seq<Progress>)
    requires s > 0 && i <= |regions|
  {
    && scanned <= TotalBefore(regions, i) <= ReadableTotal(regions)
    && (s == 1 ==> scanned == TotalBefore(regions, i))
    && Steady(progress, 0, scanned, ReadableTotal(regions))
    && (s == 1 && scanned > 0 ==> progress != [] && progress[|progress| - 1].scanned == scanned)
    && (full ==> seen == HeldBefore(mem, regions, i, w, s) <= HeldBefore(mem, regions, |regions|, w, s))
  }

  lemma StandingStep(mem: Bytes, regions: seq<Region>, i: nat, w: nat, s: nat, full: bool, seen: seq<nat>,
                     scanned: nat, progress: seq<Progress>, part: seq<nat>, covered: nat, report: seq<Progress>)
    requires s > 0 && i < |regions| && regions[i].Readable()
    requires Standing(mem, regions, i, w, s, full, seen, scanned, progress)
    requires regions[i].start <= covered <= regions[i].end
    requires Steady(report, scanned, scanned + covered - regions[i].start, ReadableTotal(regions))
    requires full ==> part <= WindowsHeld(mem, regions[i], w, s)
    ensures full ==> seen + part <= HeldBefore(mem, regions, |regions|, w, s)
    ensures Steady(progress + report, 0, ReadableTotal(regions), ReadableTotal(regions))
    ensures (s == 1 ==> covered == regions[i].end) && (full ==> part == WindowsHeld(mem, regions[i], w, s)) &&
            (s == 1 && regions[i].Size() > 0 ==>
               report != [] && report[|report| - 1].scanned == scanned + regions[i].Size()) ==>
              Standing(mem, regions, i + 1, w, s, full, seen + part, scanned + covered - regions[i].start,
                       progress + report)
  {
    hide Steady, WindowsHeld;
    BeforeGrows(mem, regions, i + 1, w, s);
    var now := scanned + covered - regions[i].start;
    SteadyJoin(progress, report, 0, scanned, now, ReadableTotal(regions));
    SteadyWiden(progress + report, 0, now, ReadableTotal(regions), ReadableTotal(regions));
    LastReport(report, scanned, now, ReadableTotal(regions));
  }

  /** From a region that holds no byte no window is delivered. */
  lemma NothingHeld(mem: Bytes, r: Region, w: nat, s: nat, part: seq<nat>)
    requires s > 0 && w > 0 && Delivered(mem, r, w, s, r.end, part)
    ensures part == [] || HoldsBytes(mem, r)
  {
    if part != [] {
      assert part[0] in part;
      assert part[0] in mem;
    }
  }

  lemma HeldReads(mem: Bytes, got: ReadCounts, regions: seq<Region>, i: nat, w: nat)
    requires i < |regions| && HoldsBytes(mem, regions[i]) && FullReads(got, Backed(mem, regions), w)
    ensures FullReads(got, [regions[i]], w)
  {
    var backed := Backed(mem, regions);
    BackedMembers(mem, regions, |regions|, regions[i]);
    hide Backed, HoldsBytes;
    assert regions[..|regions|] == regions;
    var j :| 0 <= j < |backed| && backed[j] == regions[i];
    forall k, a: nat, n: nat | 0 <= k < 1 && Within([regions[i]][k], a, n)
      ensures got(a, n) >= Min(w, n)
    {
      assert Within(backed[j], a, n);
    }
  }

  /** What a region that is backed by full reads, or not backed at all, delivers. */
  lemma HeldPart(mem: Bytes, got: ReadCounts, regions: seq<Region>, i: nat, w: nat, s: nat, chunk: nat, part: seq<nat>,
                 done: bool)
    requires s > 0 && 0 < w <= chunk && i < |regions| && FullReads(got, Backed(mem, regions), w)
    requires Delivered(mem, regions[i], w, s, regions[i].end, part)
    requires Full(got, regions[i], w, chunk) ==> part <= RegionWindows(regions[i], w, s)
    requires Full(got, regions[i], w, chunk) && done ==> part == RegionWindows(regions[i], w, s)
    ensures part <= WindowsHeld(mem, regions[i], w, s)
    ensures done ==> part == WindowsHeld(mem, regions[i], w, s)
  {
    NothingHeld(mem, regions[i], w, s, part);
    if HoldsBytes(mem, regions[i]) {
      HeldReads(mem, got, regions, i, w);
    }
    hide HoldsBytes, RegionWindows, Delivered, FullReads, Backed;
  }

  lemma LastReport(ps: seq<Progress>, lo: nat, hi: nat, total: nat)
    requires Steady(ps, lo, hi, total)
    ensures ps != [] ==> lo <= ps[|ps| - 1].scanned <= hi
  {
  }

  /** One region of the traversal, added to what the regions before it delivered. */
  method VisitRegion<S>(mem: Bytes, got: ReadCounts, regions: seq<Region>, i: nat, w: nat, s: nat, chunk: nat,
                        step: (S, nat, seq<Byte>) -> (S, bool), ghost st0: S, st: S, cancel: CancelFlag,
                        scanned: nat, progress: seq<Progress>, ghost full: bool,
                        ghost seen: seq<nat>, ghost home: seq<nat>)
    returns (st': S, outcome: Outcome, scanned': nat, progress': seq<Progress>,
             ghost seen': seq<nat>, ghost home': seq<nat>)
    requires w > 0 && s > 0 && chunk > 0 && i < |regions| && regions[i].Readable() && ValidReads(mem, got)
    requires Fold(mem, w, step, st0, seen) == (st, true)
    requires Record(mem, regions, i, w, s, seen, home)
    requires Standing(mem, regions, i, w, s, full, seen, scanned, progress)
    requires full ==> w <= chunk && FullReads(got, Backed(mem, regions), w)
    modifies cancel
    ensures Fold(mem, w, step, st0, seen') == (st', outcome != Stopped)
    ensures old(cancel.raised) ==> cancel.raised
    ensures cancel.raised ==> old(cancel.raised) || cancel.rise.Some?
    ensures outcome == Cancelled ==> cancel.raised
    ensures Record(mem, regions, i + 1, w, s, seen', home')
    ensures RealWindows(mem, regions, w, s, seen', home') && InOrder(seen', home')
    ensures Steady(progress', 0, ReadableTotal(regions), ReadableTotal(regions))
    ensures full ==> seen' <= HeldBefore(mem, regions, |regions|, w, s)
    ensures outcome == Done && Covers(got, regions, i, w, s, chunk, seen) ==>
              Covers(got, regions, i + 1, w, s, chunk, seen')
    ensures outcome == Done ==> Standing(mem, regions, i + 1, w, s, full, seen', scanned', progress')
  {
    var r := regions[i];
    var total := SumReadable(regions);
    hide Full, FullReads, Backed, Standing, WindowsHeld, HeldBefore, Covers, RegionWindows;
    var covered, report;
    ghost var part;
    st', outcome, covered, report, part := ScanRegion(mem, got, r, w, s, chunk, step, st, cancel, scanned, total);
    FoldAppend(mem, w, step, st0, seen, part);
    home' := AppendRegion(mem, regions, i, w, s, seen, home, part);
    if full {
      HeldPart(mem, got, regions, i, w, s, chunk, part, outcome == Done);
    }
    if outcome == Done && Covers(got, regions, i, w, s, chunk, seen) {
      CoversNext(got, regions, i, w, s, chunk, seen, part);
    }
    StandingStep(mem, regions, i, w, s, full, seen, scanned, progress, part, covered, report);
    seen' := seen + part;
    progress' := progress + report;
    scanned' := scanned + covered - r.start;
  }

  /**
   * for_each_window. seen lists the addresses handed to the callback and home the
   * region each one came from; st is what the callback accumulated.
   */
  method ForEachWindow<S>(mem: Bytes, got: ReadCounts, regions: seq<Region>, w: nat, stride: nat, chunk: nat,
                          step: (S, nat, seq<Byte>) -> (S, bool), st0: S, cancel: CancelFlag)
    returns (st: S, outcome: Outcome, progress: seq<Progress>, ghost seen: seq<nat>, ghost home: seq<nat>)
    requires chunk > 0 && ValidReads(mem, got)
    modifies cancel
    ensures Fold(mem, w, step, st0, seen) == (st, outcome != Stopped)
    ensures old(cancel.raised) ==> cancel.raised
    ensures cancel.raised ==> old(cancel.raised) || cancel.rise.Some?
    ensures outcome == Cancelled ==> cancel.raised
    ensures RealWindows(mem, regions, w, Stride(stride), seen, home) && InOrder(seen, home)
    ensures Steady(progress, 0, ReadableTotal(regions), ReadableTotal(regions))
    ensures w > 0 && Stride(stride) == 1 && outcome == Done && ReadableTotal(regions) > 0 ==>
              progress != [] && progress[|progress| - 1].scanned == ReadableTotal(regions)
    ensures w > 0 && outcome == Done ==> Covers(got, regions, |regions|, w, Stride(stride), chunk, seen)
    ensures 0 < w <= chunk && FullReads(got, Backed(mem, regions), w) ==>
              seen <= AllWindows(Backed(mem, regions), w, Stride(stride))
    ensures 0 < w <= chunk && FullReads(got, Backed(mem, regions), w) && outcome == Done ==>
              seen == AllWindows(Backed(mem, regions), w, Stride(stride))
    ensures w == 0 ==> seen == []
  {
    hide *;
    st, outcome, progress, seen, home := st0, Done, [], [], [];
    var s := Stride(stride);
    AtStart(mem, got, regions, w, s, chunk, step, st0);
    if w == 0 {
      return;
    }
    var scanned: nat := 0;
    ghost var full := w <= chunk && FullReads(got, Backed(mem, regions), w);
    HeldIsBacked(mem, regions, |regions|, w, s);
    BackedIs(mem, regions);
    var i := 0;
    while i < |regions|
      invariant 0 <= i <= |regions|
      invariant Fold(mem, w, step, st0, seen) == (st, true) && outcome == Done
      invariant old(cancel.raised) ==> cancel.raised
      invariant cancel.raised ==> old(cancel.raised) || cancel.rise.Some?
      invariant Record(mem, regions, i, w, s, seen, home)
      invariant Covers(got, regions, i, w, s, chunk, seen)
      invariant Standing(mem, regions, i, w, s, full, seen, scanned, progress)
    {
      if regions[i].Readable() {
        st, outcome, scanned, progress, seen, home :=
          VisitRegion(mem, got, regions, i, w, s, chunk, step, st0, st, cancel, scanned, progress, full, seen, home);
        if outcome != Done {
          return;
        }
      } else {
        SkipRegion(mem, regions, i, w, s, full, seen, home, scanned, progress);
        CoversNext(got, regions, i, w, s, chunk, seen, []);
        assert seen + [] == seen;
      }
      i := i + 1;
    }
    AtEnd(mem, regions, w, s, full, seen, home, scanned, progress);
  }

  lemma BackedIs(mem: Bytes, regions: seq<Region>)
    ensures Backed(mem, regions) == BackedBefore(mem, regions, |regions|)
  {
  }

  lemma AtStart<S>(mem: Bytes, got: ReadCounts, regions: seq<Region>, w: nat, s: nat, chunk: nat,
                   step: (S, nat, seq<Byte>) -> (S, bool), st0: S)
    requires s > 0
    ensures Fold(mem, w, step, st0, []) == (st0, true)
    ensures RealWindows(mem, regions, w, s, [], []) && InOrder([], [])
    ensures Record(mem, regions, 0, w, s, [], [])
    ensures Steady([], 0, ReadableTotal(regions), ReadableTotal(regions))
    ensures Covers(got, regions, 0, w, s, chunk, [])
    ensures forall full :: Standing(mem, regions, 0, w, s, full, [], 0, [])
  {
    BeforeGrows(mem, regions, 0, w, s);
  }

  lemma SkipRegion(mem: Bytes, regions: seq<Region>, i: nat, w: nat, s: nat, full: bool,
                   seen: seq<nat>, home: seq<nat>, scanned: nat, progress: seq<Progress>)
    requires s > 0 && i < |regions| && !regions[i].Readable()
    requires Record(mem, regions, i, w, s, seen, home)
    requires Standing(mem, regions, i, w, s, full, seen, scanned, progress)
    ensures Record(mem, regions, i + 1, w, s, seen, home)
    ensures Standing(mem, regions, i + 1, w, s, full, seen, scanned, progress)
  {
    assert WindowsHeld(mem, regions[i], w, s) == [];
    assert HeldBefore(mem, regions, i, w, s) + [] == HeldBefore(mem, regions, i, w, s);
    BeforeGrows(mem, regions, i + 1, w, s);
  }

  lemma AtEnd(mem: Bytes, regions: seq<Region>, w: nat, s: nat, full: bool,
              seen: seq<nat>, home: seq<nat>, scanned: nat, progress: seq<Progress>)
    requires s > 0
    requires Record(mem, regions, |regions|, w, s, seen, home)
    requires Standing(mem, regions, |regions|, w, s, full, seen, scanned, progress)
    ensures RealWindows(mem, regions, w, s, seen, home) && InOrder(seen, home)
    ensures Steady(progress, 0, ReadableTotal(regions), ReadableTotal(regions))
    ensures s == 1 && ReadableTotal(regions) > 0 ==>
              progress != [] && progress[|progress| - 1].scanned == ReadableTotal(regions)
    ensures full ==> seen == HeldBefore(mem, regions, |regions|, w, s)
  {
  }

  function Stride(stride: nat): (s: nat)
    ensures s > 0
  {
    if stride == 0 then 1 else stride
  }

  predicate SomeWindow(regions: seq<Region>, i: nat, a: nat, w: nat, s: nat)
    requires s > 0 && i <= |regions|
  {
    exists k :: 0 <= k < i && IsWindow(regions[k], a, w, s)
  }

  lemma {:induction false} WindowsBeforeMembers(regions: seq<Region>, i: nat, w: nat, s: nat, a: nat)
    requires s > 0 && w > 0 && i <= |regions|
    ensures a in WindowsBefore(regions, i, w, s) <==> SomeWindow(regions, i, a, w, s)
  {
    if i > 0 {
      WindowsBeforeMembers(regions, i - 1, w, s, a);
      RegionWindowsSpec(regions[i - 1], w, s);
    }
  }

  predicate Distinct<T(==)>(xs: seq<T>) {
    forall j, k :: 0 <= j < k < |xs| ==> xs[j] != xs[k]
  }

  lemma {:induction false} WindowsBeforeDistinct(regions: seq<Region>, i: nat, w: nat, s: nat)
    requires s > 0 && w > 0 && i <= |regions| && Disjoint(regions)
    ensures Distinct(WindowsBefore(regions, i, w, s))
  {
    if i > 0 {
      var front, last := WindowsBefore(regions, i - 1, w, s), RegionWindows(regions[i - 1], w, s);
      WindowsBeforeDistinct(regions, i - 1, w, s);
      RegionWindowsSpec(regions[i - 1], w, s);
      forall a, b | a in front && b in last
        ensures a != b
      {
        WindowsBeforeMembers(regions, i - 1, w, s, a);
      }
      DistinctJoin(front, last);
    }
  }

  /** The order of /proc/PID/maps. */
  predicate SortedRegions(regions: seq<Region>) {
    forall i, j :: 0 <= i < j < |regions| ==> regions[i].end <= regions[j].start
  }

  lemma {:induction false} BackedSorted(mem: Bytes, regions: seq<Region>, i: nat)
    requires SortedRegions(regions) && i <= |regions|
    ensures SortedRegions(BackedBefore(mem, regions, i))
  {
    if i > 0 {
      BackedSorted(mem, regions, i - 1);
      var front := BackedBefore(mem, regions, i - 1);
      hide HoldsBytes, BackedBefore;
      forall j | 0 <= j < |front|
        ensures front[j].end <= regions[i - 1].start
      {
        BackedMembers(mem, regions, i - 1, front[j]);
        assert front[j] in front;
        var k :| 0 <= k < i - 1 && regions[k] == front[j];
      }
    }
  }

  lemma {:induction false} WindowsBeforeAscending(regions: seq<Region>, i: nat, w: nat, s: nat)
    requires s > 0 && w > 0 && i <= |regions| && SortedRegions(regions)
    ensures Ascending(WindowsBefore(regions, i, w, s))
  {
    if i > 0 {
      var front, last := WindowsBefore(regions, i - 1, w, s), RegionWindows(regions[i - 1], w, s);
      WindowsBeforeAscending(regions, i - 1, w, s);
      RegionWindowsSpec(regions[i - 1], w, s);
      forall a, b | a in front && b in last
        ensures a < b
      {
        WindowsBeforeMembers(regions, i - 1, w, s, a);
      }
      AscendingJoin(front, last);
    }
  }

  /**
   * The list names exactly the aligned windows that fit inside a readable region,
   * each once when regions are disjoint, and upwards when they are listed upwards.
   */
  lemma AllWindowsSpec(regions: seq<Region>, w: nat, s: nat)
    requires s > 0 && w > 0
    ensures forall a: nat :: a in AllWindows(regions, w, s) <==> SomeWindow(regions, |regions|, a, w, s)
    ensures Disjoint(regions) ==> Distinct(AllWindows(regions, w, s))
    ensures SortedRegions(regions) ==> Ascending(AllWindows(regions, w, s))
  {
    forall a: nat
      ensures a in AllWindows(regions, w, s) <==> SomeWindow(regions, |regions|, a, w, s)
    {
      WindowsBeforeMembers(regions, |regions|, w, s, a);
    }
    if Disjoint(regions) {
      WindowsBeforeDistinct(regions, |regions|, w, s);
    }
    if SortedRegions(regions) {
      WindowsBeforeAscending(regions, |regions|, w, s);
    }
  }

  lemma DistinctJoin<T>(xs: seq<T>, ys: seq<T>)
    requires Distinct(xs) && Distinct(ys)
    requires forall a, b :: a in xs && b in ys ==> a != b
    ensures Distinct(xs + ys)
  {
    forall j, k | 0 <= j < k < |xs + ys|
      ensures (xs + ys)[j] != (xs + ys)[k]
    {
      if j < |xs| <= k {
        assert xs[j] in xs && ys[k - |xs|] in ys;
      }
    }
  }
}
