/** Byte patterns with wildcards, and the pattern scan (src/pattern.h). */
module Pattern {
  import opened Words
  import opened Memory
  import opened Chunk

  datatype PatternRecord = PatternRecord(bytes: seq<Byte>, mask: seq<bool>, valid: bool)

  /** bytes and mask grow together wherever a pattern is built. */
  type BytePattern = p: PatternRecord | |p.bytes| == |p.mask| witness PatternRecord([], [], false)

  /** The window agrees with the pattern at every exact position. */
  predicate Matches(win: seq<Byte>, pat: BytePattern) {
    |win| >= |pat.bytes| && forall j :: 0 <= j < |pat.bytes| && pat.mask[j] ==> win[j] == pat.bytes[j]
  }

  method PatternWindowMatches(win: seq<Byte>, pat: BytePattern) returns (b: bool)
    requires |win| >= |pat.bytes|
    ensures b == Matches(win, pat)
  {
    var j := 0;
    while j < |pat.bytes|
      invariant 0 <= j <= |pat.bytes|
      invariant forall k :: 0 <= k < j && pat.mask[k] ==> win[k] == pat.bytes[k]
    {
      if pat.mask[j] && win[j] != pat.bytes[j] {
        return false;
      }
      j := j + 1;
    }
    return true;
  }

  /** pattern_from_text: the text's bytes, all exact; None for an empty or overlong text. */
  function FromText(text: seq<Byte>, limit: nat): (p: Option<BytePattern>)
    ensures p.None? <==> text == [] || |text| > limit
    ensures p.Some? ==> p.value.valid && p.value.bytes == text && forall k :: 0 <= k < |text| ==> p.value.mask[k]
    ensures p.Some? ==> forall win :: |win| >= |text| ==> (Matches(win, p.value) <==> win[..|text|] == text)
  {
    if text == [] || |text| > limit then None
    else
      var p: BytePattern := PatternRecord(text, seq(|text|, _ => true), true);
      assert forall win: seq<Byte> :: |win| >= |text| && Matches(win, p) ==> win[..|text|] == text by {
        forall win: seq<Byte> | |win| >= |text| && Matches(win, p)
          ensures win[..|text|] == text
        {
          assert forall j :: 0 <= j < |text| ==> p.mask[j];
        }
      }
      Some(p)
  }

  // --- Collecting what a traversal delivers ---

  /** The picks from a list of windows, in order. */
  function Picked<T>(mem: Bytes, w: nat, pick: (nat, seq<Byte>) -> Option<T>, ws: seq<nat>, k: nat): seq<T>
    requires k <= |ws|
  {
    if k == 0 then []
    else
      Picked(mem, w, pick, ws, k - 1) +
      (match pick(ws[k - 1], BytesAt(mem, ws[k - 1], w)) case None => [] case Some(x) => [x])
  }

  function AllPicked<T>(mem: Bytes, w: nat, pick: (nat, seq<Byte>) -> Option<T>, ws: seq<nat>): seq<T> {
    Picked(mem, w, pick, ws, |ws|)
  }

  lemma {:induction false} PickedPrefix<T>(mem: Bytes, w: nat, pick: (nat, seq<Byte>) -> Option<T>,
                                           ws: seq<nat>, all: seq<nat>, k: nat)
    requires k <= |ws| && ws <= all
    ensures Picked(mem, w, pick, ws, k) == Picked(mem, w, pick, all, k)
  {
    if k > 0 {
      PickedPrefix(mem, w, pick, ws, all, k - 1);
    }
  }

  lemma {:induction false} PickedGrows<T>(mem: Bytes, w: nat, pick: (nat, seq<Byte>) -> Option<T>, ws: seq<nat>, k: nat)
    requires k <= |ws|
    ensures Picked(mem, w, pick, ws, k) <= AllPicked(mem, w, pick, ws)
    decreases |ws| - k
  {
    if k < |ws| {
      PickedGrows(mem, w, pick, ws, k + 1);
    }
  }

  lemma PickedOfPrefix<T>(mem: Bytes, w: nat, pick: (nat, seq<Byte>) -> Option<T>, ws: seq<nat>, all: seq<nat>)
    requires ws <= all
    ensures AllPicked(mem, w, pick, ws) <= AllPicked(mem, w, pick, all)
  {
    PickedPrefix(mem, w, pick, ws, all, |ws|);
    PickedGrows(mem, w, pick, all, |ws|);
  }

  lemma {:induction false} PickedMembers<T>(mem: Bytes, w: nat, pick: (nat, seq<Byte>) -> Option<T>, ws: seq<nat>,
                                            k: nat, x: T)
    requires k <= |ws|
    ensures x in Picked(mem, w, pick, ws, k) <==>
              exists j :: 0 <= j < k && pick(ws[j], BytesAt(mem, ws[j], w)) == Some(x)
  {
    if k > 0 {
      PickedMembers(mem, w, pick, ws, k - 1, x);
    }
  }

  function Take<T>(xs: seq<T>, n: nat): seq<T> {
    if |xs| <= n then xs else xs[..n]
  }

  lemma TakePrefix<T>(xs: seq<T>, ys: seq<T>, n: nat)
    requires xs <= ys && |xs| >= n
    ensures Take(xs, n) == Take(ys, n)
  {
  }

  // --- scan_pattern ---

  datatype Hits = Hits(addresses: seq<nat>, truncated: bool)

  function PickMatch(pat: BytePattern): (nat, seq<Byte>) -> Option<nat> {
    (a: nat, win: seq<Byte>) => if Matches(win, pat) then Some(a) else None
  }

  function HitStep(pat: BytePattern, maxHits: nat): (Hits, nat, seq<Byte>) -> (Hits, bool) {
    (st: Hits, a: nat, win: seq<Byte>) =>
      if Matches(win, pat) then
        var hits := st.addresses + [a];
        if |hits| >= maxHits then (Hits(hits, true), false) else (Hits(hits, st.truncated), true)
      else (st, true)
  }

  lemma {:induction false} HitFold(mem: Bytes, pat: BytePattern, maxHits: nat, ws: seq<nat>)
    requires maxHits > 0
    ensures
      var all := AllPicked(mem, |pat.bytes|, PickMatch(pat), ws);
      Fold(mem, |pat.bytes|, HitStep(pat, maxHits), Hits([], false), ws) ==
        (Hits(Take(all, maxHits), |all| >= maxHits), |all| < maxHits)
  {
    if ws != [] {
      var n, w := |ws| - 1, |pat.bytes|;
      HitFold(mem, pat, maxHits, ws[..n]);
      assert ws == ws[..n] + [ws[n]];
      FoldAppend(mem, w, HitStep(pat, maxHits), Hits([], false), ws[..n], [ws[n]]);
      PickedPrefix(mem, w, PickMatch(pat), ws[..n], ws, n);
      var before := AllPicked(mem, w, PickMatch(pat), ws[..n]);
      if |before| < maxHits {
        FoldOne(mem, w, HitStep(pat, maxHits), Hits(before, false), ws[n]);
        assert before + [] == before;
      } else {
        TakePrefix(before, AllPicked(mem, w, PickMatch(pat), ws), maxHits);
      }
    }
  }

  /** Every place where the pattern occurs, in traversal order; a region without a byte has none. */
  function Occurrences(mem: Bytes, regions: seq<Region>, pat: BytePattern): seq<nat>
    requires |pat.bytes| > 0
  {
    AllPicked(mem, |pat.bytes|, PickMatch(pat), AllWindows(Backed(mem, regions), |pat.bytes|, 1))
  }

  /** An address is an occurrence just when the pattern matches there inside a readable region that holds bytes. */
  lemma OccurrencesSpec(mem: Bytes, regions: seq<Region>, pat: BytePattern, a: nat)
    requires |pat.bytes| > 0
    ensures a in Occurrences(mem, regions, pat) <==>
              SomeWindow(Backed(mem, regions), |Backed(mem, regions)|, a, |pat.bytes|, 1)
              && Matches(BytesAt(mem, a, |pat.bytes|), pat)
  {
    var ws := AllWindows(Backed(mem, regions), |pat.bytes|, 1);
    PickedMembers(mem, |pat.bytes|, PickMatch(pat), ws, |ws|, a);
    AllWindowsSpec(Backed(mem, regions), |pat.bytes|, 1);
    hide Backed;
  }

  /** scan_pattern: the first maxHits occurrences; nothing at all when cancelled. */
  method ScanPattern(mem: Bytes, got: ReadCounts, regions: seq<Region>, pat: BytePattern, maxHits: nat,
                     chunk: nat, cancel: CancelFlag)
    returns (hits: seq<nat>, truncated: bool, cancelled: bool)
    requires chunk > 0 && maxHits > 0 && ValidReads(mem, got)
    modifies cancel
    ensures cancelled ==> hits == [] && !truncated && cancel.raised
    ensures !pat.valid || |pat.bytes| == 0 ==> hits == [] && !truncated && !cancelled
    ensures pat.valid && |pat.bytes| > 0 && old(cancel.raised) ==> cancelled
    ensures forall a :: a in hits ==>
              Available(mem, a, |pat.bytes|) && Matches(BytesAt(mem, a, |pat.bytes|), pat)
    ensures |hits| <= maxHits && (truncated ==> |hits| == maxHits)
    ensures pat.valid && 0 < |pat.bytes| <= chunk && FullReads(got, Backed(mem, regions), |pat.bytes|) && !cancelled ==>
              hits == Take(Occurrences(mem, regions, pat), maxHits) &&
              truncated == (|Occurrences(mem, regions, pat)| >= maxHits)
  {
    if !pat.valid || |pat.bytes| == 0 {
      return [], false, false;
    }
    var w := |pat.bytes|;
    var st, outcome, progress;
    ghost var seen, home;
    st, outcome, progress, seen, home :=
      ForEachWindow(mem, got, regions, w, 1, chunk, HitStep(pat, maxHits), Hits([], false), cancel);
    HitFold(mem, pat, maxHits, seen);
    HitsReal(mem, regions, pat, seen, home, maxHits);
    var stop := cancel.Load();
    if stop {
      return [], false, true;
    }
    hits, truncated, cancelled := st.addresses, st.truncated, false;
    if w <= chunk && FullReads(got, Backed(mem, regions), w) {
      PickedOfPrefix(mem, w, PickMatch(pat), seen, AllWindows(Backed(mem, regions), w, 1));
    }
  }

  lemma HitsReal(mem: Bytes, regions: seq<Region>, pat: BytePattern, seen: seq<nat>, home: seq<nat>, maxHits: nat)
    requires RealWindows(mem, regions, |pat.bytes|, 1, seen, home)
    ensures forall a :: a in Take(AllPicked(mem, |pat.bytes|, PickMatch(pat), seen), maxHits) ==>
              Available(mem, a, |pat.bytes|) && Matches(BytesAt(mem, a, |pat.bytes|), pat)
  {
    var all := AllPicked(mem, |pat.bytes|, PickMatch(pat), seen);
    forall a | a in Take(all, maxHits)
      ensures Available(mem, a, |pat.bytes|) && Matches(BytesAt(mem, a, |pat.bytes|), pat)
    {
      assert a in all;
      PickedMembers(mem, |pat.bytes|, PickMatch(pat), seen, |seen|, a);
    }
  }
}
