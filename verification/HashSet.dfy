/** The flat open-addressing set of addresses (FlatHashSet in src/pointer.h, src/pointer.cpp). */
module HashSet {
  import opened Words
  import Sorting

  // --- Circular slot positions ---

  /** The slot d places after home, wrapping at cap. */
  function At(cap: nat, home: nat, d: nat): (i: nat)
    requires home < cap && d < cap
    ensures i < cap
  {
    if home + d < cap then home + d else home + d - cap
  }

  /** How many places slot i lies after home. */
  function Dist(cap: nat, home: nat, i: nat): (d: nat)
    requires home < cap && i < cap
    ensures d < cap && At(cap, home, d) == i
    ensures forall e :: 0 <= e < cap && At(cap, home, e) == i ==> e == d
  {
    if home <= i then i - home else i - home + cap
  }

  /** x & mask for a mask one below a power of two: the remainder modulo that power. */
  function Masked(x: nat, mask: nat): (i: nat)
    ensures i <= mask
    ensures x <= mask ==> i == x
    ensures x == mask + 1 ==> i == 0
  {
    if x <= mask then x else Masked(x - (mask + 1), mask)
  }

  /** The first probe position. */
  function Home(mix: Word -> Word, v: Word, cap: nat): (i: nat)
    requires cap > 0
    ensures i < cap
  {
    Masked(mix(v), cap - 1)
  }

  predicate PowerOfTwo(n: nat) {
    n == 1 || (n > 1 && n % 2 == 0 && PowerOfTwo(n / 2))
  }

  /** The & of two numbers, bit by bit. */
  function BitAnd(x: nat, y: nat): nat {
    if x == 0 || y == 0 then 0 else (x % 2) * (y % 2) + 2 * BitAnd(x / 2, y / 2)
  }

  /** With a power of two for the capacity, & mask is what Masked says. */
  lemma {:induction false} MaskIsRemainder(x: nat, n: nat)
    requires PowerOfTwo(n)
    ensures BitAnd(x, n - 1) == Masked(x, n - 1)
    decreases n
  {
    if n > 1 {
      MaskIsRemainder(x / 2, n / 2);
      assert (n - 1) / 2 == n / 2 - 1 && (n - 1) % 2 == 1;
      MaskedHalf(x, n / 2);
    }
  }

  lemma {:induction false} MaskedHalf(x: nat, half: nat)
    requires half > 0
    ensures Masked(x, 2 * half - 1) == x % 2 + 2 * Masked(x / 2, half - 1)
  {
    if x >= 2 * half {
      MaskedHalf(x - 2 * half, half);
      assert (x - 2 * half) / 2 == x / 2 - half && (x - 2 * half) % 2 == x % 2;
    }
  }

  // --- What the slots hold ---

  /** Every stored value is reached from its home slot without meeting an empty slot or itself. */
  ghost predicate NoGap(mix: Word -> Word, slots: seq<Word>)
    requires |slots| > 0
  {
    forall i, d {:trigger Unbroken(slots, Home(mix, slots[i], |slots|), d, slots[i])} ::
      0 <= i < |slots| && slots[i] != 0 && 0 <= d < Dist(|slots|, Home(mix, slots[i], |slots|), i) ==>
        Unbroken(slots, Home(mix, slots[i], |slots|), d, slots[i])
  }

  predicate Unbroken(slots: seq<Word>, home: nat, d: nat, v: Word)
    requires home < |slots| && d < |slots|
  {
    slots[At(|slots|, home, d)] != 0 && slots[At(|slots|, home, d)] != v
  }

  function Occupied(slots: seq<Word>): (n: nat)
    ensures n <= |slots|
    ensures n < |slots| ==> exists i :: 0 <= i < |slots| && slots[i] == 0
  {
    if slots == [] then 0
    else
      assert forall i :: 0 <= i < |slots| - 1 ==> slots[1..][i] == slots[i + 1];
      (if slots[0] == 0 then 0 else 1) + Occupied(slots[1..])
  }

  lemma {:induction false} OccupiedUpdate(slots: seq<Word>, i: nat, v: Word)
    requires i < |slots| && slots[i] == 0
    ensures Occupied(slots[i := v]) == Occupied(slots) + (if v == 0 then 0 else 1)
  {
    if i > 0 {
      assert slots[i := v][1..] == slots[1..][i - 1 := v];
      OccupiedUpdate(slots[1..], i - 1, v);
    }
  }

  /** The slot where the probe for v ends: an empty one, or v's own. */
  ghost predicate StopsAt(slots: seq<Word>, home: nat, d: nat, v: Word)
    requires home < |slots| && d < |slots|
  {
    && (slots[At(|slots|, home, d)] == 0 || slots[At(|slots|, home, d)] == v)
    && forall e :: 0 <= e < d ==> Unbroken(slots, home, e, v)
  }

  // --- Membership as the probe computes it ---

  function Probe(slots: seq<Word>, v: Word, i: nat, left: nat): bool
    requires i < |slots|
    decreases left
  {
    if left == 0 || slots[i] == 0 then false
    else if slots[i] == v then true
    else Probe(slots, v, if i + 1 < |slots| then i + 1 else 0, left - 1)
  }

  /** contains: an empty table holds nothing, otherwise probe from the home slot. */
  function Lookup(mix: Word -> Word, slots: seq<Word>, v: Word): bool {
    |slots| > 0 && Probe(slots, v, Home(mix, v, |slots|), |slots|)
  }

  /** The probe answers yes exactly for the nonzero members of the list. */
  ghost predicate TableOf(mix: Word -> Word, slots: seq<Word>, values: seq<Word>) {
    forall v :: Lookup(mix, slots, v) <==> v != 0 && v in values
  }

  lemma {:induction false} ProbeStops(slots: seq<Word>, v: Word, home: nat, d: nat, e: nat)
    requires home < |slots| && e <= d < |slots| && StopsAt(slots, home, d, v)
    ensures Probe(slots, v, At(|slots|, home, e), |slots| - e) <==> slots[At(|slots|, home, d)] == v && v != 0
    decreases d - e
  {
    if e < d {
      assert Unbroken(slots, home, e, v);
      ProbeStops(slots, v, home, d, e + 1);
    }
  }

  /** The probe finds exactly the nonzero values that some slot holds. */
  lemma LookupExact(mix: Word -> Word, slots: seq<Word>, v: Word)
    requires |slots| > 0 && NoGap(mix, slots) && Occupied(slots) < |slots|
    ensures Lookup(mix, slots, v) <==> v != 0 && v in slots
  {
    var home := Home(mix, v, |slots|);
    var d := FindStop(mix, slots, v);
    ProbeStops(slots, v, home, d, 0);
  }

  /** A probe in a table with an empty slot ends, and at v's slot when v is stored. */
  lemma FindStop(mix: Word -> Word, slots: seq<Word>, v: Word) returns (d: nat)
    requires |slots| > 0 && NoGap(mix, slots) && Occupied(slots) < |slots|
    ensures d < |slots| && StopsAt(slots, Home(mix, v, |slots|), d, v)
    ensures v != 0 && v in slots ==> slots[At(|slots|, Home(mix, v, |slots|), d)] == v
  {
    var cap, home := |slots|, Home(mix, v, |slots|);
    if v != 0 && v in slots {
      var i :| 0 <= i < cap && slots[i] == v;
      d := Dist(cap, home, i);
      forall e | 0 <= e < d
        ensures Unbroken(slots, home, e, v)
      {
        assert Unbroken(slots, Home(mix, slots[i], cap), e, slots[i]);
      }
    } else {
      var z :| 0 <= z < cap && slots[z] == 0;
      d := Dist(cap, home, z);
      d := FirstEmpty(slots, home, d);
      forall e | 0 <= e < d
        ensures Unbroken(slots, home, e, v)
      {
      }
    }
  }

  lemma {:induction false} FirstEmpty(slots: seq<Word>, home: nat, d: nat) returns (f: nat)
    requires home < |slots| && d < |slots| && slots[At(|slots|, home, d)] == 0
    ensures f <= d && slots[At(|slots|, home, f)] == 0
    ensures forall e :: 0 <= e < f ==> slots[At(|slots|, home, e)] != 0
  {
    f := 0;
    while slots[At(|slots|, home, f)] != 0
      invariant 0 <= f <= d
      invariant forall e :: 0 <= e < f ==> slots[At(|slots|, home, e)] != 0
      decreases d - f
    {
      f := f + 1;
    }
  }

  lemma Arrived(slots: seq<Word>, home: nat, stop: nat, d: nat, v: Word)
    requires home < |slots| && stop < |slots| && StopsAt(slots, home, stop, v) && d <= stop
    requires slots[At(|slots|, home, d)] == 0 || slots[At(|slots|, home, d)] == v
    ensures d == stop
  {
    var probed := Unbroken(slots, home, d, v);
  }

  /** Storing v where its probe ended keeps every stored value reachable. */
  lemma NoGapInsert(mix: Word -> Word, slots: seq<Word>, v: Word, d: nat)
    requires |slots| > 0 && d < |slots| && NoGap(mix, slots)
    requires StopsAt(slots, Home(mix, v, |slots|), d, v)
    ensures NoGap(mix, slots[At(|slots|, Home(mix, v, |slots|), d) := v])
  {
    var cap, home := |slots|, Home(mix, v, |slots|);
    var at := At(cap, home, d);
    var after := slots[at := v];
    forall i, e | 0 <= i < cap && after[i] != 0 && 0 <= e < Dist(cap, Home(mix, after[i], cap), i)
      ensures Unbroken(after, Home(mix, after[i], cap), e, after[i])
    {
      if slots[i] == v {
        StoredOnce(mix, slots, v, d, i);
      }
      if i == at {
        assert Unbroken(slots, home, e, v);
        assert At(cap, home, e) != at;
      } else {
        assert Unbroken(slots, Home(mix, slots[i], cap), e, slots[i]);
      }
    }
  }

  /** A value whose probe ended at d is in no slot other than that one. */
  lemma StoredOnce(mix: Word -> Word, slots: seq<Word>, v: Word, d: nat, i: nat)
    requires |slots| > 0 && d < |slots| && NoGap(mix, slots) && i < |slots| && v != 0 && slots[i] == v
    requires StopsAt(slots, Home(mix, v, |slots|), d, v)
    ensures i == At(|slots|, Home(mix, v, |slots|), d)
  {
    var home := Home(mix, v, |slots|);
    var di := Dist(|slots|, home, i);
    var probed := Unbroken(slots, home, di, v);
    var passed := Unbroken(slots, Home(mix, slots[i], |slots|), d, slots[i]);
  }

  // --- The class ---

  /** std::sort, then std::unique and erase. */
  method SortUnique(values: seq<Word>) returns (sorted: seq<Word>)
    ensures forall v :: v in sorted <==> v in values
    ensures forall i, j :: 0 <= i < j < |sorted| ==> sorted[i] < sorted[j]
  {
    var ys := Sorting.Sort(values, (a: Word, b: Word) => a < b);
    Sorting.PermutationMembers(ys, values);
    sorted := [];
    var i := 0;
    while i < |ys|
      invariant 0 <= i <= |ys|
      invariant i == 0 ==> sorted == []
      invariant i > 0 ==> sorted != [] && sorted[|sorted| - 1] == ys[i - 1]
      invariant forall v :: v in sorted <==> v in ys[..i]
      invariant forall j, k :: 0 <= j < k < |sorted| ==> sorted[j] < sorted[k]
    {
      if sorted == [] || sorted[|sorted| - 1] != ys[i] {
        sorted := sorted + [ys[i]];
      }
      assert ys[..i + 1] == ys[..i] + [ys[i]];
      i := i + 1;
    }
    assert ys[..i] == ys;
  }

  function ToSet(values: seq<Word>): set<Word> {
    set v | v in values
  }

  class FlatHashSet {
    const mix: Word -> Word
    var slots: seq<Word>
    var mask: nat
    var size: nat

    /** Built from some list: the invariant of the finished table. */
    ghost predicate Valid()
      reads this
    {
      if slots == [] then mask == 0 && size == 0
      else
        && PowerOfTwo(|slots|) && mask == |slots| - 1
        && 2 * size <= |slots| && Occupied(slots) <= size
        && NoGap(mix, slots)
    }

    constructor (mix: Word -> Word, values: seq<Word>)
      ensures this.mix == mix && Valid()
      ensures TableOf(mix, slots, values)
      ensures size == |ToSet(values)|
    {
      this.mix := mix;
      slots, mask, size := [], 0, 0;
      new;
      Build(values);
    }

    /** Replaces the contents by the nonzero values of the list, whatever the table held before. */
    method Build(values: seq<Word>)
      modifies this
      ensures Valid()
      ensures TableOf(mix, slots, values)
      ensures size == |ToSet(values)|
    {
      slots, mask, size := [], 0, 0;
      if |values| == 0 {
        return;
      }
      var sorted := SortUnique(values);
      var cap := 8;
      assert PowerOfTwo(8);
      while cap < |sorted| * 2
        invariant cap >= 8 && PowerOfTwo(cap)
        decreases |sorted| * 2 - cap
      {
        cap := cap * 2;
      }
      slots := seq(cap, _ => 0);
      mask := cap - 1;
      AllEmpty(slots);
      var i := 0;
      while i < |sorted|
        invariant 0 <= i <= |sorted| && |slots| == cap && mask == cap - 1
        invariant size == i && Occupied(slots) <= size && NoGap(mix, slots)
        invariant forall v :: v != 0 ==> (v in slots <==> v in sorted[..i])
      {
        assert sorted[i] !in sorted[..i];
        Insert(sorted[i]);
        i := i + 1;
      }
      assert sorted[..i] == sorted;
      forall v: Word
        ensures Lookup(mix, slots, v) <==> v != 0 && v in values
      {
        LookupExact(mix, slots, v);
      }
      SizeOfDistinct(sorted);
      assert ToSet(sorted) == ToSet(values);
    }

    method Insert(v: Word)
      requires |slots| > 0 && mask == |slots| - 1 && NoGap(mix, slots) && Occupied(slots) < |slots|
      modifies this`slots, this`size
      ensures |slots| == |old(slots)| && NoGap(mix, slots)
      ensures forall x :: x != 0 ==> (x in slots <==> x in old(slots) || x == v)
      ensures v != 0 && v in old(slots) ==> slots == old(slots) && size == old(size)
      ensures v == 0 || v !in old(slots) ==>
                size == old(size) + 1 && Occupied(slots) == Occupied(old(slots)) + (if v == 0 then 0 else 1)
    {
      hide Masked;
      ghost var home := Home(mix, v, |slots|);
      ghost var stop := FindStop(mix, slots, v);
      var i := Masked(mix(v), mask);
      ghost var d := 0;
      while slots[i] != 0 && slots[i] != v
        invariant 0 <= d <= stop && i == At(|slots|, home, d)
        decreases stop - d
      {
        assert d != stop;
        i := Masked(i + 1, mask);
        d := d + 1;
      }
      Arrived(slots, home, stop, d, v);
      NoGapInsert(mix, slots, v, stop);
      if slots[i] == 0 {
        OccupiedUpdate(slots, i, v);
        size := size + 1;
      }
      ghost var was := slots;
      slots := slots[i := v];
      MembersUpdate(was, i, v, slots);
    }

    method Contains(v: Word) returns (b: bool)
      requires Valid()
      ensures b == Lookup(mix, slots, v)
      ensures b <==> v != 0 && v in slots
    {
      if |slots| == 0 {
        return false;
      }
      hide Masked;
      LookupExact(mix, slots, v);
      ghost var home := Home(mix, v, |slots|);
      ghost var stop := FindStop(mix, slots, v);
      ProbeStops(slots, v, home, stop, 0);
      var i := Masked(mix(v), mask);
      ghost var d := 0;
      while slots[i] != 0
        invariant 0 <= d <= stop && i == At(|slots|, home, d)
        decreases stop - d
      {
        if slots[i] == v {
          Arrived(slots, home, stop, d, v);
          return true;
        }
        i := Masked(i + 1, mask);
        d := d + 1;
      }
      Arrived(slots, home, stop, d, v);
      return false;
    }
  }

  lemma MembersUpdate(slots: seq<Word>, i: nat, v: Word, after: seq<Word>)
    requires i < |slots| && (slots[i] == 0 || slots[i] == v) && after == slots[i := v]
    ensures forall x :: x != 0 ==> (x in after <==> x in slots || x == v)
  {
    forall x | x != 0
      ensures x in after <==> x in slots || x == v
    {
      if x in slots {
        var j :| 0 <= j < |slots| && slots[j] == x;
        assert after[j] == x;
      }
      assert after[i] == v;
    }
  }

  lemma {:induction false} AllEmpty(slots: seq<Word>)
    requires forall i :: 0 <= i < |slots| ==> slots[i] == 0
    ensures Occupied(slots) == 0
  {
    if slots != [] {
      AllEmpty(slots[1..]);
    }
  }

  lemma {:induction false} SizeOfDistinct(xs: seq<Word>)
    requires forall i, j :: 0 <= i < j < |xs| ==> xs[i] < xs[j]
    ensures |ToSet(xs)| == |xs|
  {
    if xs != [] {
      var n := |xs| - 1;
      SizeOfDistinct(xs[..n]);
      assert xs == xs[..n] + [xs[n]];
      assert ToSet(xs) == ToSet(xs[..n]) + {xs[n]};
    }
  }
}
