/** Regions of the target process and the snapshot of its memory that a scan reads. */
module Memory {
  import opened Words

  datatype Option<+T> = None | Some(value: T)

  datatype RegionRecord = RegionRecord(
    start: Word, end: Word, perms: string, offset: Word, path: string)
  {
    predicate Readable() { |perms| > 0 && perms[0] == 'r' }
    predicate Writable() { |perms| > 1 && perms[1] == 'w' }
    predicate Executable() { |perms| > 2 && perms[2] == 'x' }
    function Size(): int { end - start }
    predicate Contains(a: int) { start <= a < end }
  }

  /** The letters of a region's permissions, in the kernel's order; one it does not have shows as a dash. */
  lemma PermsSpelled(r: RegionRecord, a: char, b: char, c: char, rest: string)
    requires r.perms == [a, b, c] + rest
    ensures r.Readable() <==> a == 'r'
    ensures r.Writable() <==> b == 'w'
    ensures r.Executable() <==> c == 'x'
    ensures r.(perms := [a, b]).Executable() == false && r.(perms := [a]).Writable() == false
    ensures !r.(perms := "").Readable() && r.(perms := [a]).Readable() == r.Readable()
    ensures r.(perms := [a, b]).Writable() == r.Writable()
  {
  }

  /** The kernel lists no region that ends before it starts. */
  type Region = r: RegionRecord | r.start <= r.end witness RegionRecord(0, 0, "", 0, "")

  /** The readable bytes of the stopped process. */
  type Bytes = map<nat, Byte>

  /** The result of pread at an address for a length: the byte count, or a value <= 0. */
  type ReadCounts = (nat, nat) -> int

  predicate Available(mem: Bytes, a: nat, n: nat) {
    forall k {:trigger k in mem} :: a <= k < a + n ==> k in mem
  }

  function BytesAt(mem: Bytes, a: nat, n: nat): (bs: seq<Byte>)
    ensures |bs| == n
  {
    seq(n, i requires 0 <= i => if a + i in mem then mem[a + i] else 0)
  }

  function ByteAt(mem: Bytes, a: nat): int {
    if a in mem then mem[a] else 0
  }

  /** The little-endian numbers stored at an address. */
  function TwoAt(mem: Bytes, a: nat): int {
    ByteAt(mem, a) + 0x100 * ByteAt(mem, a + 1)
  }

  function FourAt(mem: Bytes, a: nat): int {
    TwoAt(mem, a) + 0x1_0000 * TwoAt(mem, a + 2)
  }

  function EightAt(mem: Bytes, a: nat): int {
    FourAt(mem, a) + 0x1_0000_0000 * FourAt(mem, a + 4)
  }

  /** These bytes from address a on. */
  function Laid(a: nat, bs: seq<Byte>): (mem: Bytes)
    ensures forall k {:trigger k in mem} :: k in mem <==> a <= k < a + |bs|
    ensures forall k {:trigger mem[k]} :: k in mem ==> mem[k] == bs[k - a]
  {
    if bs == [] then map[]
    else
      var n := |bs| - 1;
      Laid(a, bs[..n])[a + n := bs[n]]
  }

  /** Reads deliver at most what was asked for, and only bytes that are there. */
  ghost predicate ValidReads(mem: Bytes, got: ReadCounts) {
    forall a: nat, n: nat {:trigger got(a, n)} ::
      got(a, n) <= n && (got(a, n) > 0 ==> Available(mem, a, got(a, n)))
  }

  /** Length of the readable prefix of [a, a + n). */
  function Prefix(mem: Bytes, a: nat, n: nat): (k: nat)
    ensures k <= n && Available(mem, a, k)
    ensures k < n ==> a + k !in mem
    decreases n
  {
    if n == 0 || a !in mem then 0 else 1 + Prefix(mem, a + 1, n - 1)
  }

  /** Reads that return the whole readable prefix. */
  function MaximalCounts(mem: Bytes): ReadCounts {
    (a: nat, n: nat) => Prefix(mem, a, n)
  }

  /** The first region containing the address, as region_at searches for it. */
  function FirstAt(regions: seq<Region>, addr: Word): (r: Option<nat>)
    ensures r.Some? ==> r.value < |regions| && regions[r.value].Contains(addr)
    ensures r.Some? ==> forall j :: 0 <= j < r.value ==> !regions[j].Contains(addr)
    ensures r.None? ==> forall j :: 0 <= j < |regions| ==> !regions[j].Contains(addr)
  {
    if regions == [] then None
    else if regions[0].Contains(addr) then Some(0)
    else match FirstAt(regions[1..], addr)
      case None => assert regions == [regions[0]] + regions[1..]; None
      case Some(k) => assert regions == [regions[0]] + regions[1..]; Some(k + 1)
  }

  method RegionAt(regions: seq<Region>, addr: Word) returns (r: Option<nat>)
    ensures r == FirstAt(regions, addr)
  {
    var i := 0;
    while i < |regions|
      invariant 0 <= i <= |regions|
      invariant forall j :: 0 <= j < i ==> !regions[j].Contains(addr)
    {
      if regions[i].Contains(addr) {
        return Some(i);
      }
      i := i + 1;
    }
    return None;
  }

  predicate Disjoint(regions: seq<Region>) {
    forall i, j :: 0 <= i < j < |regions| ==>
      regions[i].end <= regions[j].start || regions[j].end <= regions[i].start
  }

  lemma OnlyOneContains(regions: seq<Region>, i: nat, a: Word)
    requires Disjoint(regions) && i < |regions| && regions[i].Contains(a)
    ensures FirstAt(regions, a) == Some(i)
  {
  }

  /**
   * The flag another thread may raise at any moment and nobody lowers during a scan. rise says
   * before which load it goes up, if ever: any choice is possible.
   */
  class CancelFlag {
    const rise: Option<nat>
    var raised: bool
    var loads: nat

    constructor (rise: Option<nat>)
      ensures this.rise == rise && !raised && loads == 0
    {
      this.rise, raised, loads := rise, false, 0;
    }

    /** The flag is up by the load with this number. */
    predicate UpAt(k: nat) {
      rise.Some? && rise.value <= k
    }

    /** So many loads after the given state none has seen the flag up. */
    predicate Quiet(raised0: bool, loads0: nat, n: nat)
      reads this
    {
      loads == loads0 + n && raised == (n == 0 && raised0) && (n > 0 ==> !raised0 && !UpAt(loads - 1))
    }

    /** So many loads after the given state came to nothing, and one more was made. */
    predicate Saw(raised0: bool, loads0: nat, n: nat)
      reads this
    {
      && loads == loads0 + n + 1 && raised == (raised0 || UpAt(loads0 + n))
      && (n > 0 ==> !raised0 && !UpAt(loads0 + n - 1))
    }

    method Load() returns (b: bool)
      modifies this
      ensures b == raised && loads == old(loads) + 1
      ensures raised == (old(raised) || UpAt(old(loads)))
      ensures raised ==> old(raised) || rise.Some?
      ensures forall raised0, loads0, n: nat :: old(Quiet(raised0, loads0, n)) ==>
                Saw(raised0, loads0, n) && (!raised ==> Quiet(raised0, loads0, n + 1))
    {
      if UpAt(loads) {
        raised := true;
      }
      loads := loads + 1;
      b := raised;
    }
  }
}
