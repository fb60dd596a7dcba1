/**
 * The block-wise sweep over sorted candidates that next_scan and next_scan_dynamic
 * share (src/scanner.cpp), and the one-candidate-at-a-time refinement it must equal.
 */
module Refine {
  import opened Words
  import opened Memory
  import Sorting

  /** at: where a candidate lives; judge: its new version when it is kept, from w bytes read there;
      spent: what the kept one leaves behind in the old list. */
  datatype Rules<!T> = Rules(w: nat, at: T -> nat, judge: (T, seq<Byte>) -> Option<T>, spent: T -> T)

  function Verdict<T>(mem: Bytes, rules: Rules<T>, c: T): Option<T> {
    rules.judge(c, BytesAt(mem, rules.at(c), rules.w))
  }

  /** The new list: flags says which candidates could be read in full. */
  function Kept<T>(mem: Bytes, rules: Rules<T>, cs: seq<T>, flags: seq<bool>): seq<T>
    requires |flags| <= |cs|
  {
    if flags == [] then []
    else
      var n := |flags| - 1;
      Kept(mem, rules, cs, flags[..n]) +
      (if flags[n] && Verdict(mem, rules, cs[n]).Some? then [Verdict(mem, rules, cs[n]).value] else [])
  }

  /** The old list after the candidates covered by flags were judged in place. */
  function Stored<T>(mem: Bytes, rules: Rules<T>, cs: seq<T>, flags: seq<bool>): (left: seq<T>)
    requires |flags| <= |cs|
    ensures |left| == |cs|
  {
    seq(|cs|, i requires 0 <= i < |cs| =>
      if i < |flags| && flags[i] && Verdict(mem, rules, cs[i]).Some?
      then rules.spent(Verdict(mem, rules, cs[i]).value) else cs[i])
  }

  /** Which candidates have all their bytes. */
  function Readable<T>(mem: Bytes, rules: Rules<T>, cs: seq<T>): (flags: seq<bool>)
    ensures |flags| == |cs|
  {
    seq(|cs|, i requires 0 <= i < |cs| => Available(mem, rules.at(cs[i]), rules.w))
  }

  /** Read w bytes at each candidate, drop it if short, else judge it. */
  function Naive<T>(mem: Bytes, rules: Rules<T>, cs: seq<T>): seq<T> {
    Kept(mem, rules, cs, Readable(mem, rules, cs))
  }

  /** Reads return the whole readable prefix. */
  ghost predicate MaximalReads(mem: Bytes, got: ReadCounts) {
    forall a: nat, n: nat {:trigger got(a, n)} ::
      if Prefix(mem, a, n) > 0 then got(a, n) == Prefix(mem, a, n) else got(a, n) <= 0
  }

  ghost predicate SortedAt<T>(at: T -> nat, cs: seq<T>) {
    forall i, j :: 0 <= i < j < |cs| ==> at(cs[i]) <= at(cs[j])
  }

  /** A flag is set only for a readable candidate, and for each one when reads are maximal. */
  ghost predicate FlagsOk<T>(mem: Bytes, got: ReadCounts, rules: Rules<T>, cs: seq<T>, flags: seq<bool>) {
    && |flags| <= |cs|
    && forall i :: 0 <= i < |flags| ==>
        (flags[i] ==> Available(mem, rules.at(cs[i]), rules.w)) &&
        (MaximalReads(mem, got) && Available(mem, rules.at(cs[i]), rules.w) ==> flags[i])
  }

  lemma FlagsExact<T>(mem: Bytes, got: ReadCounts, rules: Rules<T>, cs: seq<T>, flags: seq<bool>)
    requires FlagsOk(mem, got, rules, cs, flags) && |flags| == |cs| && MaximalReads(mem, got)
    ensures flags == Readable(mem, rules, cs)
  {
  }

  lemma KeptNext<T>(mem: Bytes, rules: Rules<T>, cs: seq<T>, flags: seq<bool>, flag: bool)
    requires |flags| < |cs|
    ensures Kept(mem, rules, cs, flags + [flag]) ==
            Kept(mem, rules, cs, flags) +
            (if flag && Verdict(mem, rules, cs[|flags|]).Some? then [Verdict(mem, rules, cs[|flags|]).value] else [])
    ensures Stored(mem, rules, cs, flags + [flag]) ==
            if flag && Verdict(mem, rules, cs[|flags|]).Some?
            then Stored(mem, rules, cs, flags)[|flags| := rules.spent(Verdict(mem, rules, cs[|flags|]).value)]
            else Stored(mem, rules, cs, flags)
  {
    hide Verdict;
    assert (flags + [flag])[..|flags|] == flags;
    StoredNext(mem, rules, cs, flags, flag);
    hide Stored;
  }

  lemma StoredNext<T>(mem: Bytes, rules: Rules<T>, cs: seq<T>, flags: seq<bool>, flag: bool)
    requires |flags| < |cs|
    ensures Stored(mem, rules, cs, flags + [flag]) ==
            if flag && Verdict(mem, rules, cs[|flags|]).Some?
            then Stored(mem, rules, cs, flags)[|flags| := rules.spent(Verdict(mem, rules, cs[|flags|]).value)]
            else Stored(mem, rules, cs, flags)
  {
    hide Verdict;
  }

  lemma FlagsNext<T>(mem: Bytes, got: ReadCounts, rules: Rules<T>, cs: seq<T>, flags: seq<bool>, flag: bool)
    requires FlagsOk(mem, got, rules, cs, flags) && |flags| < |cs|
    requires flag ==> Available(mem, rules.at(cs[|flags|]), rules.w)
    requires MaximalReads(mem, got) && Available(mem, rules.at(cs[|flags|]), rules.w) ==> flag
    ensures FlagsOk(mem, got, rules, cs, flags + [flag])
  {
  }

  /** With maximal reads, a candidate inside the block is readable just when its window fits. */
  lemma FitsIffReadable(mem: Bytes, got: ReadCounts, start: nat, window: nat, a: nat, w: nat, chunk: nat)
    requires ValidReads(mem, got) && window == chunk + w - 1 && w > 0
    requires got(start, window) > 0 && start <= a < start + Min(chunk, got(start, window))
    ensures a - start + w <= got(start, window) ==> Available(mem, a, w)
    ensures MaximalReads(mem, got) && Available(mem, a, w) ==> a - start + w <= got(start, window)
  {
    var n := got(start, window);
    if MaximalReads(mem, got) {
      assert n == Prefix(mem, start, window);
      assert n < window ==> start + n !in mem;
    }
  }

  // --- Which candidates a sweep has judged after so many blocks ---

  /** Candidate k lies in the block read at candidate i. */
  predicate InBlock<T>(got: ReadCounts, rules: Rules<T>, cs: seq<T>, chunk: nat, i: nat, k: nat)
    requires i <= k < |cs| && chunk > 0
  {
    var start := rules.at(cs[i]);
    k == i || rules.at(cs[k]) < start + Min(chunk, got(start, chunk + rules.w - 1))
  }

  /** The first candidate from k on outside the block read at candidate i. */
  function BlockEnd<T>(got: ReadCounts, rules: Rules<T>, cs: seq<T>, chunk: nat, i: nat, k: nat): (end: nat)
    requires i < k <= |cs| && chunk > 0
    ensures k <= end <= |cs|
    decreases |cs| - k
  {
    if k < |cs| && got(rules.at(cs[i]), chunk + rules.w - 1) > 0 && InBlock(got, rules, cs, chunk, i, k)
    then BlockEnd(got, rules, cs, chunk, i, k + 1) else k
  }

  /** Candidate k lies whole inside the bytes read at candidate i. */
  predicate InRead<T>(got: ReadCounts, rules: Rules<T>, cs: seq<T>, chunk: nat, i: nat, k: nat)
    requires i <= k < |cs| && chunk > 0
  {
    var start := rules.at(cs[i]);
    var n := got(start, chunk + rules.w - 1);
    n > 0 && rules.at(cs[k]) - start + rules.w <= n
  }

  function BlockFlags<T>(got: ReadCounts, rules: Rules<T>, cs: seq<T>, chunk: nat, i: nat, end: nat): (flags: seq<bool>)
    requires i <= end <= |cs| && chunk > 0
    ensures |flags| == end - i
  {
    seq(end - i, j requires 0 <= j < end - i => InRead(got, rules, cs, chunk, i, i + j))
  }

  /** The flags of the candidates judged in the first blocks of a sweep. */
  function JudgedAfter<T>(got: ReadCounts, rules: Rules<T>, cs: seq<T>, chunk: nat, blocks: nat): (flags: seq<bool>)
    requires chunk > 0
    ensures |flags| <= |cs|
  {
    if blocks == 0 then []
    else
      var before := JudgedAfter(got, rules, cs, chunk, blocks - 1);
      var i := |before|;
      if i == |cs| then before
      else before + BlockFlags(got, rules, cs, chunk, i, BlockEnd(got, rules, cs, chunk, i, i + 1))
  }

  lemma JudgedNext<T>(got: ReadCounts, rules: Rules<T>, cs: seq<T>, chunk: nat, blocks: nat)
    requires chunk > 0
    ensures var i := |JudgedAfter(got, rules, cs, chunk, blocks)|;
            i < |cs| ==>
              JudgedAfter(got, rules, cs, chunk, blocks + 1) ==
              JudgedAfter(got, rules, cs, chunk, blocks) +
              BlockFlags(got, rules, cs, chunk, i, BlockEnd(got, rules, cs, chunk, i, i + 1))
  {
    hide BlockEnd, BlockFlags;
  }

  lemma {:induction false} BlockEndSpelled<T>(got: ReadCounts, rules: Rules<T>, cs: seq<T>, chunk: nat, i: nat, k: nat)
    requires i < k <= |cs| && chunk > 0
    ensures var start := rules.at(cs[i]);
            var n := got(start, chunk + rules.w - 1);
            var e := BlockEnd(got, rules, cs, chunk, i, k);
            && (n <= 0 ==> e == k)
            && (forall j :: k <= j < e ==> rules.at(cs[j]) < start + chunk && rules.at(cs[j]) < start + n)
            && (n > 0 && e < |cs| ==> rules.at(cs[e]) >= start + chunk || rules.at(cs[e]) >= start + n)
    decreases |cs| - k
  {
    if k < |cs| {
      BlockEndSpelled(got, rules, cs, chunk, i, k + 1);
    }
  }

  /**
   * One block: a read at the first candidate not judged yet. When it fails that one is dropped alone; else the
   * candidates that follow below both the block's end and the end of what was read are judged with it, up to the
   * first that is not, and a flag says whether all bytes of the candidate were read.
   */
  lemma BlockSpelled<T>(got: ReadCounts, rules: Rules<T>, cs: seq<T>, chunk: nat, blocks: nat)
    requires chunk > 0 && |JudgedAfter(got, rules, cs, chunk, blocks)| < |cs|
    ensures var before, after :=
        JudgedAfter(got, rules, cs, chunk, blocks), JudgedAfter(got, rules, cs, chunk, blocks + 1);
            var i, e := |before|, |after|;
            var start := rules.at(cs[i]);
            var n := got(start, chunk + rules.w - 1);
            && before <= after && i < e
            && (n <= 0 ==> after == before + [false])
            && (forall j :: i < j < e ==> rules.at(cs[j]) < start + chunk && rules.at(cs[j]) < start + n)
            && (n > 0 && e < |cs| ==> rules.at(cs[e]) >= start + chunk || rules.at(cs[e]) >= start + n)
            && (n > 0 ==> forall j :: i <= j < e ==> (after[j] <==> rules.at(cs[j]) + rules.w <= start + n))
  {
    var before := JudgedAfter(got, rules, cs, chunk, blocks);
    var i := |before|;
    var e := BlockEnd(got, rules, cs, chunk, i, i + 1);
    JudgedNext(got, rules, cs, chunk, blocks);
    BlockEndSpelled(got, rules, cs, chunk, i, i + 1);
    hide JudgedAfter, BlockEnd;
    forall j | i <= j < e
      ensures (before + BlockFlags(got, rules, cs, chunk, i, e))[j] == InRead(got, rules, cs, chunk, i, j)
    {
      assert BlockFlags(got, rules, cs, chunk, i, e)[j - i] == InRead(got, rules, cs, chunk, i, i + (j - i));
    }
    hide BlockFlags;
  }

  lemma NaiveKept<T>(mem: Bytes, rules: Rules<T>, cs: seq<T>)
    ensures Naive(mem, rules, cs) == Kept(mem, rules, cs, Readable(mem, rules, cs))
  {
  }

  /** Every block judges a candidate. */
  lemma {:induction false} JudgedAdvances<T>(got: ReadCounts, rules: Rules<T>, cs: seq<T>, chunk: nat, blocks: nat)
    requires chunk > 0
    ensures blocks <= |cs| ==> blocks <= |JudgedAfter(got, rules, cs, chunk, blocks)|
  {
    if blocks > 0 {
      JudgedAdvances(got, rules, cs, chunk, blocks - 1);
    }
  }

  lemma {:induction false} JudgedGrows<T>(got: ReadCounts, rules: Rules<T>, cs: seq<T>, chunk: nat, m: nat, n: nat)
    requires chunk > 0 && m <= n
    ensures JudgedAfter(got, rules, cs, chunk, m) <= JudgedAfter(got, rules, cs, chunk, n)
  {
    if m < n {
      JudgedGrows(got, rules, cs, chunk, m, n - 1);
    }
  }

  /** The flags reach into the block that starts at the candidate after flags0. */
  ghost predicate MidBlock<T>(got: ReadCounts, rules: Rules<T>, cs: seq<T>, chunk: nat, flags0: seq<bool>,
                              flags: seq<bool>) {
    var i, k := |flags0|, |flags|;
    && i <= k <= |cs| && i < |cs| && chunk > 0 && flags == flags0 + BlockFlags(got, rules, cs, chunk, i, k)
    && (i < k ==> BlockEnd(got, rules, cs, chunk, i, i + 1) == BlockEnd(got, rules, cs, chunk, i, k))
  }

  lemma MidBlockStarts<T>(got: ReadCounts, rules: Rules<T>, cs: seq<T>, chunk: nat, flags0: seq<bool>)
    requires |flags0| < |cs| && chunk > 0
    ensures MidBlock(got, rules, cs, chunk, flags0, flags0)
  {
  }

  /** One more candidate of a block. */
  lemma MidBlockNext<T>(got: ReadCounts, rules: Rules<T>, cs: seq<T>, chunk: nat, flags0: seq<bool>, flags: seq<bool>)
    requires MidBlock(got, rules, cs, chunk, flags0, flags)
    requires var i, k := |flags0|, |flags|;
             k < |cs| && (i < k ==>
               got(rules.at(cs[i]), chunk + rules.w - 1) > 0 && InBlock(got, rules, cs, chunk, i, k))
    ensures MidBlock(got, rules, cs, chunk, flags0, flags + [InRead(got, rules, cs, chunk, |flags0|, |flags|)])
  {
    hide InRead;
    BlockFlagsNext(got, rules, cs, chunk, |flags0|, |flags|);
  }

  lemma BlockFlagsNext<T>(got: ReadCounts, rules: Rules<T>, cs: seq<T>, chunk: nat, i: nat, k: nat)
    requires i <= k < |cs| && chunk > 0
    ensures BlockFlags(got, rules, cs, chunk, i, k + 1) ==
            BlockFlags(got, rules, cs, chunk, i, k) + [InRead(got, rules, cs, chunk, i, k)]
  {
    hide InRead;
  }

  lemma MidBlockEnds<T>(got: ReadCounts, rules: Rules<T>, cs: seq<T>, chunk: nat, blocks: nat, flags: seq<bool>)
    requires chunk > 0 && MidBlock(got, rules, cs, chunk, JudgedAfter(got, rules, cs, chunk, blocks), flags)
    requires var i, k := |JudgedAfter(got, rules, cs, chunk, blocks)|, |flags|;
             i < k && (k == |cs| || got(rules.at(cs[i]), chunk + rules.w - 1) <= 0
               || !InBlock(got, rules, cs, chunk, i, k))
    ensures flags == JudgedAfter(got, rules, cs, chunk, blocks + 1)
  {
    hide InBlock;
  }

  /** One block read at the first candidate not yet judged, and every candidate it covers. */
  method SweepBlock<T>(mem: Bytes, got: ReadCounts, rules: Rules<T>, ghost cs: seq<T>, chunk: nat,
                       list0: seq<T>, next0: seq<T>, ghost flags0: seq<bool>, i0: nat, ghost blocks: nat)
    returns (list: seq<T>, next: seq<T>, ghost flags: seq<bool>, i: nat)
    requires rules.w > 0 && chunk > 0 && ValidReads(mem, got) && SortedAt(rules.at, cs)
    requires i0 == |flags0| < |cs| && FlagsOk(mem, got, rules, cs, flags0)
    requires flags0 == JudgedAfter(got, rules, cs, chunk, blocks)
    requires list0 == Stored(mem, rules, cs, flags0) && next0 == Kept(mem, rules, cs, flags0)
    ensures i == |flags| <= |cs| && i0 < i && FlagsOk(mem, got, rules, cs, flags)
    ensures list == Stored(mem, rules, cs, flags) && next == Kept(mem, rules, cs, flags)
    ensures flags == JudgedAfter(got, rules, cs, chunk, blocks + 1)
  {
    hide Kept, Stored, FlagsOk, MaximalReads, JudgedAfter, MidBlock;
    MidBlockStarts(got, rules, cs, chunk, flags0);
    list, next, flags, i := list0, next0, flags0, i0;
    StoredAhead(mem, rules, cs, flags, i);
    var start := rules.at(list[i]);
    var window := chunk + (rules.w - 1);
    var n := got(start, window);
    if n <= 0 {
      Unreadable(mem, got, start, window, rules.w);
      MidBlockNext(got, rules, cs, chunk, flags0, flags);
      MidBlockEnds(got, rules, cs, chunk, blocks, flags + [false]);
      FlagsNext(mem, got, rules, cs, flags, false);
      KeptNext(mem, rules, cs, flags, false);
      flags := flags + [false];
      i := i + 1;
      return;
    }
    var buf := BytesAt(mem, start, n);
    assert |buf| <= chunk + rules.w - 1;
    var limit := start + Min(chunk, n);
    while i < |list| && rules.at(list[i]) < limit
      invariant i0 <= i == |flags| <= |cs| == |list|
      invariant i == i0 ==> i < |list| && rules.at(list[i]) < limit
      invariant FlagsOk(mem, got, rules, cs, flags)
      invariant list == Stored(mem, rules, cs, flags) && next == Kept(mem, rules, cs, flags)
      invariant MidBlock(got, rules, cs, chunk, flags0, flags)
      decreases |list| - i
    {
      StoredAhead(mem, rules, cs, flags, i);
      MidBlockNext(got, rules, cs, chunk, flags0, flags);
      var c := list[i];
      var off := rules.at(c) - start;
      FitsIffReadable(mem, got, start, window, rules.at(c), rules.w, chunk);
      ghost var fits := off + rules.w <= n;
      FlagsNext(mem, got, rules, cs, flags, fits);
      KeptNext(mem, rules, cs, flags, fits);
      if off + rules.w <= n {
        var win := buf[off..off + rules.w];
        assert win == BytesAt(mem, rules.at(c), rules.w);
        var verdict := rules.judge(c, win);
        if verdict.Some? {
          next := next + [verdict.value];
          list := list[i := rules.spent(verdict.value)];
        }
      }
      flags := flags + [fits];
      i := i + 1;
    }
    if i < |list| {
      StoredAhead(mem, rules, cs, flags, i);
    }
    MidBlockEnds(got, rules, cs, chunk, blocks, flags);
  }

  /** Candidates not yet judged are as they were. */
  lemma StoredAhead<T>(mem: Bytes, rules: Rules<T>, cs: seq<T>, flags: seq<bool>, i: nat)
    requires |flags| <= i < |cs|
    ensures Stored(mem, rules, cs, flags)[i] == cs[i]
  {
  }

  lemma Unreadable(mem: Bytes, got: ReadCounts, start: nat, window: nat, w: nat)
    requires got(start, window) <= 0 && 0 < w <= window
    ensures MaximalReads(mem, got) ==> !Available(mem, start, w)
  {
    if MaximalReads(mem, got) {
      assert Prefix(mem, start, window) == 0;
      assert start !in mem;
    }
  }

  /**
   * The whole sweep; done is false exactly when the cancel flag was seen. The flag is loaded before
   * every block and once at the end, so the number of loads says how many blocks were judged.
   */
  method Sweep<T>(mem: Bytes, got: ReadCounts, rules: Rules<T>, cs: seq<T>, chunk: nat, cancel: CancelFlag)
    returns (done: bool, list: seq<T>, next: seq<T>, ghost flags: seq<bool>, ghost blocks: nat)
    requires rules.w > 0 && chunk > 0 && ValidReads(mem, got) && SortedAt(rules.at, cs)
    modifies cancel
    ensures |flags| <= |cs| && FlagsOk(mem, got, rules, cs, flags) && list == Stored(mem, rules, cs, flags)
    ensures done ==> |flags| == |cs| && next == Kept(mem, rules, cs, flags)
    ensures done && MaximalReads(mem, got) ==> next == Naive(mem, rules, cs)
    ensures done == !cancel.raised
    ensures flags == JudgedAfter(got, rules, cs, chunk, blocks)
    ensures cancel.Saw(old(cancel.raised), old(cancel.loads), blocks)
  {
    assert cancel.Quiet(cancel.raised, cancel.loads, 0);
    hide *;
    SweepStarts(mem, got, rules, cs, chunk);
    list, next, flags, blocks := cs, [], [], 0;
    var i := 0;
    while i < |list|
      invariant 0 <= i == |flags| <= |cs| == |list|
      invariant FlagsOk(mem, got, rules, cs, flags)
      invariant list == Stored(mem, rules, cs, flags) && next == Kept(mem, rules, cs, flags)
      invariant flags == JudgedAfter(got, rules, cs, chunk, blocks)
      invariant cancel.Quiet(old(cancel.raised), old(cancel.loads), blocks)
      decreases |list| - i
    {
      var stop := cancel.Load();
      if stop {
        done := false;
        return;
      }
      list, next, flags, i := SweepBlock(mem, got, rules, cs, chunk, list, next, flags, i, blocks);
      blocks := blocks + 1;
    }
    if MaximalReads(mem, got) {
      FlagsExact(mem, got, rules, cs, flags);
      NaiveKept(mem, rules, cs);
    }
    var stop := cancel.Load();
    done := !stop;
  }

  lemma SweepStarts<T>(mem: Bytes, got: ReadCounts, rules: Rules<T>, cs: seq<T>, chunk: nat)
    requires chunk > 0
    ensures Stored(mem, rules, cs, []) == cs && Kept(mem, rules, cs, []) == []
    ensures FlagsOk(mem, got, rules, cs, []) && JudgedAfter(got, rules, cs, chunk, 0) == []
  {
  }

  /** Sorts by address unless the list is sorted already. */
  method SortByAddress<T(!new)>(at: T -> nat, cs: seq<T>) returns (sorted: seq<T>)
    ensures SortedAt(at, sorted) && multiset(sorted) == multiset(cs)
    ensures SortedAt(at, cs) ==> sorted == cs
  {
    var i := 1;
    while i < |cs| && at(cs[i - 1]) <= at(cs[i])
      invariant 1 <= i && (i <= |cs| || |cs| == 0)
      invariant SortedAt(at, cs[..Min(i, |cs|)])
    {
      i := i + 1;
    }
    if i >= |cs| {
      assert cs[..Min(i, |cs|)] == cs;
      return cs;
    }
    sorted := Sorting.Sort(cs, (a: T, b: T) => at(a) < at(b));
  }

  // --- What the simple refinement computes ---

  lemma {:induction false} KeptMembers<T>(mem: Bytes, rules: Rules<T>, cs: seq<T>, flags: seq<bool>, x: T)
    requires |flags| <= |cs|
    ensures x in Kept(mem, rules, cs, flags) <==>
              exists i :: 0 <= i < |flags| && flags[i] && Verdict(mem, rules, cs[i]) == Some(x)
  {
    if flags != [] {
      KeptMembers(mem, rules, cs, flags[..|flags| - 1], x);
    }
  }

  /** Kept: exactly the new versions of readable candidates. */
  lemma NaiveMembers<T>(mem: Bytes, rules: Rules<T>, cs: seq<T>, x: T)
    ensures x in Naive(mem, rules, cs) <==>
              exists c :: c in cs && Available(mem, rules.at(c), rules.w) && Verdict(mem, rules, c) == Some(x)
  {
    var flags := Readable(mem, rules, cs);
    KeptMembers(mem, rules, cs, flags, x);
    if c :| c in cs && Available(mem, rules.at(c), rules.w) && Verdict(mem, rules, c) == Some(x) {
      var i :| 0 <= i < |cs| && cs[i] == c;
      assert flags[i];
    }
  }

  ghost predicate StrictlyAt<T>(at: T -> nat, cs: seq<T>) {
    forall i, j :: 0 <= i < j < |cs| ==> at(cs[i]) < at(cs[j])
  }

  /** Keeping a candidate keeps its address. */
  ghost predicate KeepsPlace<T(!new)>(rules: Rules<T>) {
    forall c: T, win: seq<Byte> :: rules.judge(c, win).Some? ==> rules.at(rules.judge(c, win).value) == rules.at(c)
  }

  /** Refining keeps the order of addresses. */
  lemma {:induction false} KeptOrdered<T(!new)>(mem: Bytes, rules: Rules<T>, cs: seq<T>, flags: seq<bool>)
    requires KeepsPlace(rules) && StrictlyAt(rules.at, cs) && |flags| <= |cs|
    ensures StrictlyAt(rules.at, Kept(mem, rules, cs, flags))
    ensures forall x :: x in Kept(mem, rules, cs, flags) ==>
              exists i :: 0 <= i < |flags| && rules.at(cs[i]) == rules.at(x)
  {
    if flags != [] {
      var n := |flags| - 1;
      KeptOrdered(mem, rules, cs, flags[..n]);
      var front := Kept(mem, rules, cs, flags[..n]);
      forall j | 0 <= j < |front|
        ensures rules.at(front[j]) < rules.at(cs[n])
      {
        assert front[j] in front;
        var i :| 0 <= i < n && rules.at(cs[i]) == rules.at(front[j]);
      }
      forall x | x in Kept(mem, rules, cs, flags)
        ensures exists i :: 0 <= i < |flags| && rules.at(cs[i]) == rules.at(x)
      {
        if x in front {
          var i :| 0 <= i < |flags[..n]| && rules.at(cs[i]) == rules.at(x);
          assert 0 <= i < |flags| && rules.at(cs[i]) == rules.at(x);
        } else {
          assert 0 <= n < |flags| && rules.at(cs[n]) == rules.at(x);
        }
      }
    }
  }

  /** A cancelled sweep leaves the old list as it was exactly when each kept candidate so far left itself behind. */
  lemma StoredIntact<T>(mem: Bytes, rules: Rules<T>, cs: seq<T>, flags: seq<bool>)
    requires |flags| <= |cs|
    ensures Stored(mem, rules, cs, flags) == cs <==>
              forall i :: 0 <= i < |flags| && flags[i] && Verdict(mem, rules, cs[i]).Some? ==>
                rules.spent(Verdict(mem, rules, cs[i]).value) == cs[i]
  {
    var left := Stored(mem, rules, cs, flags);
    if forall i :: 0 <= i < |flags| && flags[i] && Verdict(mem, rules, cs[i]).Some? ==>
                rules.spent(Verdict(mem, rules, cs[i]).value) == cs[i] {
      assert forall i :: 0 <= i < |cs| ==> left[i] == cs[i];
    }
    forall i | left == cs && 0 <= i < |flags| && flags[i] && Verdict(mem, rules, cs[i]).Some?
      ensures rules.spent(Verdict(mem, rules, cs[i]).value) == cs[i]
    {
      assert left[i] == cs[i];
    }
  }

  /** Fewer judged candidates leave the list intact when more do. */
  lemma IntactBefore<T>(mem: Bytes, rules: Rules<T>, cs: seq<T>, fewer: seq<bool>, more: seq<bool>)
    requires fewer <= more && |more| <= |cs| && Stored(mem, rules, cs, more) == cs
    ensures Stored(mem, rules, cs, fewer) == cs
  {
    hide Stored, Verdict;
    StoredIntact(mem, rules, cs, more);
    StoredIntact(mem, rules, cs, fewer);
  }

  /** The list is left intact by a cancel before any load exactly when judging every candidate leaves it intact. */
  lemma IntactAlways<T>(mem: Bytes, got: ReadCounts, rules: Rules<T>, cs: seq<T>, chunk: nat)
    requires chunk > 0
    ensures (forall m: nat :: Stored(mem, rules, cs, JudgedAfter(got, rules, cs, chunk, m)) == cs) <==>
              Stored(mem, rules, cs, JudgedAfter(got, rules, cs, chunk, |cs|)) == cs
  {
    hide Stored;
    var all := JudgedAfter(got, rules, cs, chunk, |cs|);
    if Stored(mem, rules, cs, all) == cs {
      forall m: nat
        ensures Stored(mem, rules, cs, JudgedAfter(got, rules, cs, chunk, m)) == cs
      {
        JudgedAdvances(got, rules, cs, chunk, |cs|);
        JudgedGrows(got, rules, cs, chunk, Min(m, |cs|), |cs|);
        JudgedGrows(got, rules, cs, chunk, Min(m, |cs|), m);
        IntactBefore(mem, rules, cs, JudgedAfter(got, rules, cs, chunk, m), all);
      }
    }
  }

  /** With maximal reads a sweep judges just the candidates that can be read. */
  lemma JudgedReadable<T>(mem: Bytes, got: ReadCounts, rules: Rules<T>, cs: seq<T>, chunk: nat, m: nat)
    requires chunk > 0 && rules.w > 0 && ValidReads(mem, got) && MaximalReads(mem, got) && SortedAt(rules.at, cs)
    ensures JudgedAfter(got, rules, cs, chunk, m) <= Readable(mem, rules, cs)
  {
    hide JudgedAfter, ValidReads, MaximalReads, SortedAt, Available;
    var flags := JudgedAfter(got, rules, cs, chunk, m);
    forall i | 0 <= i < |flags|
      ensures flags[i] == Readable(mem, rules, cs)[i]
    {
      JudgedEach(mem, got, rules, cs, chunk, m, i);
    }
  }

  lemma {:induction false} JudgedEach<T>(mem: Bytes, got: ReadCounts, rules: Rules<T>, cs: seq<T>, chunk: nat, m: nat,
                                         i: nat)
    requires chunk > 0 && rules.w > 0 && ValidReads(mem, got) && MaximalReads(mem, got) && SortedAt(rules.at, cs)
    requires i < |JudgedAfter(got, rules, cs, chunk, m)|
    ensures JudgedAfter(got, rules, cs, chunk, m)[i] == Available(mem, rules.at(cs[i]), rules.w)
  {
    hide ValidReads, MaximalReads, SortedAt, Available, InRead, BlockEnd, BlockFlags;
    if m > 0 {
      var before := JudgedAfter(got, rules, cs, chunk, m - 1);
      if i < |before| {
        JudgedEach(mem, got, rules, cs, chunk, m - 1, i);
      } else {
        FlagReadable(mem, got, rules, cs, chunk, |before|, i);
      }
    }
  }

  lemma FlagReadable<T>(mem: Bytes, got: ReadCounts, rules: Rules<T>, cs: seq<T>, chunk: nat, i: nat, k: nat)
    requires chunk > 0 && rules.w > 0 && ValidReads(mem, got) && MaximalReads(mem, got) && SortedAt(rules.at, cs)
    requires i < |cs| && i <= k < BlockEnd(got, rules, cs, chunk, i, i + 1)
    ensures BlockFlags(got, rules, cs, chunk, i, BlockEnd(got, rules, cs, chunk, i, i + 1))[k - i]
            == Available(mem, rules.at(cs[k]), rules.w)
  {
    InReadExact(mem, got, rules, cs, chunk, i, k);
    hide BlockEnd, InRead, MaximalReads, ValidReads, SortedAt, Available;
  }

  lemma {:induction false} BeforeEnd<T>(got: ReadCounts, rules: Rules<T>, cs: seq<T>, chunk: nat, i: nat, from: nat,
                                        k: nat)
    requires i < from <= k < |cs| && chunk > 0 && k < BlockEnd(got, rules, cs, chunk, i, from)
    ensures got(rules.at(cs[i]), chunk + rules.w - 1) > 0 && InBlock(got, rules, cs, chunk, i, k)
    decreases k - from
  {
    if from < k {
      BeforeEnd(got, rules, cs, chunk, i, from + 1, k);
    }
  }

  lemma InReadExact<T>(mem: Bytes, got: ReadCounts, rules: Rules<T>, cs: seq<T>, chunk: nat, i: nat, k: nat)
    requires chunk > 0 && rules.w > 0 && ValidReads(mem, got) && MaximalReads(mem, got) && SortedAt(rules.at, cs)
    requires i <= k < |cs| && k < BlockEnd(got, rules, cs, chunk, i, i + 1)
    ensures InRead(got, rules, cs, chunk, i, k) == Available(mem, rules.at(cs[k]), rules.w)
  {
    if i < k {
      BeforeEnd(got, rules, cs, chunk, i, i + 1, k);
    }
    hide BlockEnd;
    var start, window := rules.at(cs[i]), chunk + rules.w - 1;
    if got(start, window) > 0 {
      FitsIffReadable(mem, got, start, window, rules.at(cs[k]), rules.w, chunk);
    } else {
      Unreadable(mem, got, start, window, rules.w);
    }
  }
}
