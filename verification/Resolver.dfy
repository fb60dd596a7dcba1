/** Persistent chain references and their resolution (src/pointer_resolver.cpp). */
module Resolver {
  import opened Words
  import opened Memory
  import opened PointerPaths
  import Chunk
  import opened Values
  import PointerScan

  /** ABSOLUTE keeps a raw address, MODULE a file path and a file offset. */
  datatype Base = Absolute(address: Word) | Module(path: string, offset: Word)

  datatype ChainRef = ChainRef(root: Base, offsets: seq<Word>, valueType: DataType)

  datatype RootError = ModuleNotFound | OffsetOutside
  datatype RootResult = Root(address: Word) | NoRoot(error: RootError)

  datatype ResolveError =
    | RootFailed(error: RootError) | BrokenChain | UnreadablePointer | UnreadableRegion | UnreadableValue
  datatype Resolved = Resolved(address: Word, value: Word) | Unresolved(error: ResolveError)

  // --- Roots ---

  predicate IsModulePath(path: string) {
    path != "" && path[0] != '['
  }

  function BaseOf(regions: seq<Region>, address: Word): Base {
    match FirstAt(regions, address)
    case Some(i) =>
      var r := regions[i];
      if IsModulePath(r.path) then Module(r.path, Add(r.offset, Sub(address, r.start))) else Absolute(address)
    case None => Absolute(address)
  }

  method MakeBaseFromAddress(regions: seq<Region>, address: Word) returns (b: Base)
    ensures b == BaseOf(regions, address)
  {
    var at := RegionAt(regions, address);
    if at.Some? && IsModulePath(regions[at.value].path) {
      var r := regions[at.value];
      b := Module(r.path, Add(r.offset, Sub(address, r.start)));
    } else {
      b := Absolute(address);
    }
  }

  /** The region maps this file offset of this file. */
  predicate Maps(r: Region, path: string, offset: Word) {
    r.path == path && r.offset <= offset && offset < Add(r.offset, r.Size())
  }

  function RootOf(b: Base, regions: seq<Region>): RootResult {
    match b
    case Absolute(a) => Root(a)
    case Module(path, offset) => FindModule(path, offset, regions)
  }

  function FindModule(path: string, offset: Word, regions: seq<Region>): (r: RootResult)
    ensures r == NoRoot(ModuleNotFound) <==> forall i :: 0 <= i < |regions| ==> regions[i].path != path
    ensures r.NoRoot? <==> forall i :: 0 <= i < |regions| ==> !Maps(regions[i], path, offset)
  {
    if regions == [] then NoRoot(ModuleNotFound)
    else
      assert regions == [regions[0]] + regions[1..];
      if Maps(regions[0], path, offset) then Root(Add(regions[0].start, offset - regions[0].offset))
      else if regions[0].path == path then
        match FindModule(path, offset, regions[1..])
        case Root(a) => Root(a)
        case NoRoot(_) => NoRoot(OffsetOutside)
      else FindModule(path, offset, regions[1..])
  }

  method ResolveRoot(b: Base, regions: seq<Region>) returns (r: RootResult)
    ensures r == RootOf(b, regions)
  {
    if b.Absolute? {
      return Root(b.address);
    }
    var moduleExists := false;
    var i := 0;
    while i < |regions|
      invariant 0 <= i <= |regions|
      invariant RootOf(b, regions) ==
                match FindModule(b.path, b.offset, regions[i..])
                case Root(a) => Root(a)
                case NoRoot(e) => NoRoot(if moduleExists then OffsetOutside else e)
    {
      assert regions[i..][1..] == regions[i + 1..];
      if regions[i].path == b.path {
        moduleExists := true;
        if b.offset >= regions[i].offset && b.offset < Add(regions[i].offset, regions[i].Size()) {
          return Root(Add(regions[i].start, b.offset - regions[i].offset));
        }
      }
      i := i + 1;
    }
    return NoRoot(if moduleExists then OffsetOutside else ModuleNotFound);
  }

  /** The first region that maps the offset decides. */
  lemma {:induction false} FindModuleAt(path: string, offset: Word, regions: seq<Region>, i: nat)
    requires i < |regions| && Maps(regions[i], path, offset)
    requires forall j :: 0 <= j < i ==> !Maps(regions[j], path, offset)
    ensures FindModule(path, offset, regions) == Root(Add(regions[i].start, offset - regions[i].offset))
  {
    if i > 0 {
      assert !Maps(regions[0], path, offset);
      FindModuleAt(path, offset, regions[1..], i - 1);
    }
  }

  /** File ranges do not run past 2^64. */
  predicate FileRangesFit(regions: seq<Region>) {
    forall i :: 0 <= i < |regions| ==> regions[i].offset + regions[i].Size() < TWO64
  }

  /** No two mappings of this file overlap in the file. */
  predicate FileDisjoint(regions: seq<Region>, path: string) {
    forall i, j {:trigger regions[i], regions[j]} ::
      0 <= i < j < |regions| && regions[i].path == path && regions[j].path == path ==>
      regions[i].offset + regions[i].Size() <= regions[j].offset
        || regions[j].offset + regions[j].Size() <= regions[i].offset
  }

  /** No region listed before the one containing the address maps the same file offset. */
  predicate FirstMapping(regions: seq<Region>, address: Word) {
    match FirstAt(regions, address)
    case None => true
    case Some(i) =>
      IsModulePath(regions[i].path) ==>
        forall j :: 0 <= j < i ==>
          !Maps(regions[j], regions[i].path, Add(regions[i].offset, Sub(address, regions[i].start)))
  }

  /**
   * In one layout a base leads back to its address exactly when no earlier mapping of
   * the file covers the same file offset; otherwise it leads into that mapping.
   */
  lemma BaseRoundTrip(regions: seq<Region>, address: Word)
    requires Disjoint(regions) && FileRangesFit(regions)
    ensures RootOf(BaseOf(regions, address), regions) == Root(address) <==> FirstMapping(regions, address)
    ensures BaseOf(regions, address).Module? && FileDisjoint(regions, BaseOf(regions, address).path) ==>
              FirstMapping(regions, address)
    ensures BaseOf(regions, address).Absolute? ==> FirstMapping(regions, address)
  {
    match FirstAt(regions, address)
    case None =>
    case Some(i) =>
      var r := regions[i];
      if IsModulePath(r.path) {
        var offset := Add(r.offset, Sub(address, r.start));
        assert Maps(r, r.path, offset);
        if FirstMapping(regions, address) {
          FindModuleAt(r.path, offset, regions, i);
        } else {
          var k := EarliestMapping(regions, r.path, offset, i);
          FindModuleAt(r.path, offset, regions, k);
          assert regions[k].Contains(Add(regions[k].start, offset - regions[k].offset));
        }
      }
  }

  /** Two mappings that share a page of their file, as constant and writable data may. */
  function SharedPage(): seq<Region> {
    [RegionRecord(0x1000, 0x3000, "r--p", 0, "/bin/app"), RegionRecord(0x3000, 0x4000, "rw-p", 0x1000, "/bin/app")]
  }

  /** The base of a variable in the second leads into the first. */
  lemma SharedPageMisleads()
    ensures Disjoint(SharedPage()) && FileRangesFit(SharedPage())
    ensures BaseOf(SharedPage(), 0x3008) == Module("/bin/app", 0x1008)
    ensures RootOf(BaseOf(SharedPage(), 0x3008), SharedPage()) == Root(0x2008)
  {
    OnlyOneContains(SharedPage(), 1, 0x3008);
  }

  lemma EarliestMapping(regions: seq<Region>, path: string, offset: Word, i: nat) returns (k: nat)
    requires i <= |regions| && exists j :: 0 <= j < i && Maps(regions[j], path, offset)
    ensures k < i && Maps(regions[k], path, offset)
    ensures forall j :: 0 <= j < k ==> !Maps(regions[j], path, offset)
  {
    k := 0;
    while !Maps(regions[k], path, offset)
      invariant k < i
      invariant forall j :: 0 <= j < k ==> !Maps(regions[j], path, offset)
      invariant exists j :: 0 <= j < i && Maps(regions[j], path, offset)
      decreases i - k
    {
      k := k + 1;
    }
  }

  /** A resolved MODULE root, turned into a base again, is the same module and offset. */
  lemma RootRoundTrip(path: string, offset: Word, regions: seq<Region>)
    requires Disjoint(regions) && FileRangesFit(regions) && IsModulePath(path)
    requires RootOf(Module(path, offset), regions).Root?
    ensures BaseOf(regions, RootOf(Module(path, offset), regions).address) == Module(path, offset)
  {
    var k := EarliestMapping(regions, path, offset, |regions|);
    FindModuleAt(path, offset, regions, k);
    OnlyOneContains(regions, k, Add(regions[k].start, offset - regions[k].offset));
  }

  // --- Following a chain ---

  /** At each step: a readable region, a whole pointer, then its offset; at the end the value. */
  function Walk(mem: Bytes, got: ReadCounts, regions: seq<Region>, addr: Word, offsets: seq<Word>, w: nat): Resolved
    decreases |offsets|
  {
    var at := FirstAt(regions, addr);
    var readable := at.Some? && regions[at.value].Readable();
    if offsets == [] then
      if !readable then Unresolved(UnreadableRegion)
      else if got(addr, w) != w then Unresolved(UnreadableValue)
      else Resolved(addr, DecodeWord(BytesAt(mem, addr, w)))
    else if !readable then Unresolved(BrokenChain)
    else if got(addr, 8) != 8 then Unresolved(UnreadablePointer)
    else Walk(mem, got, regions, Add(PointerAt(mem, addr), offsets[0]), offsets[1..], w)
  }

  predicate InReadable(regions: seq<Region>, addr: Word) {
    var at := FirstAt(regions, addr);
    at.Some? && regions[at.value].Readable()
  }

  /** From node to node: a readable region, a whole pointer, and its value plus the offset is the next node. */
  predicate Reaches(mem: Bytes, got: ReadCounts, regions: seq<Region>, nodes: seq<Word>, offsets: seq<Word>) {
    && |nodes| == |offsets| + 1
    && forall i :: 0 <= i < |offsets| ==>
        && InReadable(regions, nodes[i]) && got(nodes[i], 8) == 8
        && (EightAt(mem, nodes[i]) + offsets[i] == nodes[i + 1]
            || EightAt(mem, nodes[i]) + offsets[i] == nodes[i + 1] as int + 0x1_0000_0000_0000_0000)
  }

  /** What is wrong at an address, where a pointer or, at the end, a value is to be read. */
  function Trouble(got: ReadCounts, regions: seq<Region>, a: Word, last: bool, w: nat): Option<ResolveError> {
    if !InReadable(regions, a) then Some(if last then UnreadableRegion else BrokenChain)
    else if last then if got(a, w) == w then None else Some(UnreadableValue)
    else if got(a, 8) == 8 then None else Some(UnreadablePointer)
  }

  /** Resolved: all nodes are there and the value of this type at the last; else the error of the first that is not. */
  ghost predicate Ends(mem: Bytes, got: ReadCounts, regions: seq<Region>, root: Word, offsets: seq<Word>, t: DataType,
                       r: Resolved) {
    exists nodes: seq<Word> {:trigger Ending(mem, got, regions, root, offsets, t, nodes, r)} ::
      Ending(mem, got, regions, root, offsets, t, nodes, r)
  }

  predicate Ending(mem: Bytes, got: ReadCounts, regions: seq<Region>, root: Word, offsets: seq<Word>, t: DataType,
                   nodes: seq<Word>, r: Resolved) {
    && 0 < |nodes| <= |offsets| + 1 && nodes[0] == root
    && var k := |nodes| - 1;
    && Reaches(mem, got, regions, nodes, offsets[..k])
    && match r
       case Resolved(a, v) =>
         && k == |offsets| && a == nodes[k] && Trouble(got, regions, a, true, TypeSize(t)) == None
         && Stands(mem, a, t, v)
       case Unresolved(e) => Trouble(got, regions, nodes[k], k == |offsets|, TypeSize(t)) == Some(e)
  }

  lemma PointerStored(mem: Bytes, a: nat)
    ensures PointerAt(mem, a) == EightAt(mem, a)
  {
    PointerScan.PointerStored(mem, a);
    hide PointerAt, EightAt;
  }

  /** The walk ends like that. */
  lemma {:induction false} WalkEnds(mem: Bytes, got: ReadCounts, regions: seq<Region>, root: Word, offsets: seq<Word>,
                                    t: DataType)
    returns (nodes: seq<Word>)
    ensures Ending(mem, got, regions, root, offsets, t, nodes, Walk(mem, got, regions, root, offsets, TypeSize(t)))
    decreases |offsets|
  {
    nodes := [root];
    if Trouble(got, regions, root, offsets == [], TypeSize(t)) != None {
      hide EightAt, PointerAt, Stands, BytesAt;
    } else if offsets == [] {
      WindowStands(mem, root, t);
      hide EightAt, PointerAt, Stands, BytesAt;
    } else {
      PointerStored(mem, root);
      var next := Add(PointerAt(mem, root), offsets[0]);
      hide EightAt, PointerAt, Stands, BytesAt;
      var rest := WalkEnds(mem, got, regions, next, offsets[1..], t);
      nodes := [root] + rest;
      EndingJoin(mem, got, regions, root, offsets, t, rest, Walk(mem, got, regions, root, offsets, TypeSize(t)));
    }
  }

  lemma EndingJoin(mem: Bytes, got: ReadCounts, regions: seq<Region>, root: Word, offsets: seq<Word>, t: DataType,
                   rest: seq<Word>, r: Resolved)
    requires offsets != [] && rest != [] && Ending(mem, got, regions, rest[0], offsets[1..], t, rest, r)
    requires InReadable(regions, root) && got(root, 8) == 8
    requires EightAt(mem, root) + offsets[0] == rest[0] || EightAt(mem, root) + offsets[0] == rest[0] + TWO64
    ensures Ending(mem, got, regions, root, offsets, t, [root] + rest, r)
  {
    hide EightAt, Stands, InReadable;
    var nodes, k := [root] + rest, |rest|;
    assert nodes[k] == rest[k - 1];
    forall i | 0 <= i < k
      ensures InReadable(regions, nodes[i]) && got(nodes[i], 8) == 8
      ensures EightAt(mem, nodes[i]) + offsets[..k][i] == nodes[i + 1]
              || EightAt(mem, nodes[i]) + offsets[..k][i] == nodes[i + 1] + TWO64
    {
      if i > 0 {
        assert nodes[i] == rest[i - 1] && offsets[..k][i] == offsets[1..][..k - 1][i - 1];
      }
    }
  }

  /** The nodes up to the first trouble are determined, so there is one end. */
  lemma {:induction false} SameNodes(mem: Bytes, got: ReadCounts, regions: seq<Region>, root: Word, offsets: seq<Word>,
                                     t: DataType, ns: seq<Word>, r: Resolved, os: seq<Word>, q: Resolved, k: nat)
    requires Ending(mem, got, regions, root, offsets, t, ns, r) && Ending(mem, got, regions, root, offsets, t, os, q)
    requires k < |ns| && k < |os|
    ensures ns[k] == os[k]
  {
    hide EightAt, Stands, InReadable, Trouble;
    if k > 0 {
      SameNodes(mem, got, regions, root, offsets, t, ns, r, os, q, k - 1);
      assert ns[k - 1] == os[k - 1] && offsets[..|ns| - 1][k - 1] == offsets[..|os| - 1][k - 1];
    }
  }

  lemma OneEnd(mem: Bytes, got: ReadCounts, regions: seq<Region>, root: Word, offsets: seq<Word>, t: DataType,
               r: Resolved, q: Resolved)
    requires Ends(mem, got, regions, root, offsets, t, r) && Ends(mem, got, regions, root, offsets, t, q)
    ensures r == q
  {
    var ns :| Ending(mem, got, regions, root, offsets, t, ns, r);
    var os :| Ending(mem, got, regions, root, offsets, t, os, q);
    var k := if |ns| < |os| then |ns| - 1 else |os| - 1;
    SameNodes(mem, got, regions, root, offsets, t, ns, r, os, q, k);
    hide EightAt, InReadable;
  }

  /** Following a chain has exactly one outcome: the one there must be. */
  lemma FollowExactly(mem: Bytes, got: ReadCounts, regions: seq<Region>, root: Word, offsets: seq<Word>, t: DataType,
                      r: Resolved)
    ensures Walk(mem, got, regions, root, offsets, TypeSize(t)) == r <==>
            Ends(mem, got, regions, root, offsets, t, r)
  {
    var nodes := WalkEnds(mem, got, regions, root, offsets, t);
    hide Ending, Walk;
    var q := Walk(mem, got, regions, root, offsets, TypeSize(t));
    if Ends(mem, got, regions, root, offsets, t, r) {
      OneEnd(mem, got, regions, root, offsets, t, r, q);
    }
  }

  method FollowChain(mem: Bytes, got: ReadCounts, regions: seq<Region>, rootAddr: Word, chain: ChainRef)
    returns (r: Resolved)
    ensures r == Walk(mem, got, regions, rootAddr, chain.offsets, TypeSize(chain.valueType))
    ensures forall q :: q == r <==> Ends(mem, got, regions, rootAddr, chain.offsets, chain.valueType, q)
  {
    forall q
      ensures Walk(mem, got, regions, rootAddr, chain.offsets, TypeSize(chain.valueType)) == q <==>
              Ends(mem, got, regions, rootAddr, chain.offsets, chain.valueType, q)
    {
      FollowExactly(mem, got, regions, rootAddr, chain.offsets, chain.valueType, q);
    }
    hide Ends, Stands;
    var w := TypeSize(chain.valueType);
    var addr := rootAddr;
    var i := 0;
    while i < |chain.offsets|
      invariant 0 <= i <= |chain.offsets|
      invariant Walk(mem, got, regions, rootAddr, chain.offsets, w) ==
                Walk(mem, got, regions, addr, chain.offsets[i..], w)
    {
      assert chain.offsets[i..][1..] == chain.offsets[i + 1..];
      var at := RegionAt(regions, addr);
      if at.None? || !regions[at.value].Readable() {
        return Unresolved(BrokenChain);
      }
      if got(addr, 8) != 8 {
        return Unresolved(UnreadablePointer);
      }
      addr := Add(DecodeWord(BytesAt(mem, addr, 8)), chain.offsets[i]);
      i := i + 1;
    }
    var at := RegionAt(regions, addr);
    if at.None? || !regions[at.value].Readable() {
      return Unresolved(UnreadableRegion);
    }
    if got(addr, w) != w {
      return Unresolved(UnreadableValue);
    }
    return Resolved(addr, DecodeWord(BytesAt(mem, addr, w)));
  }

  function Resolution(mem: Bytes, got: ReadCounts, regions: seq<Region>, chain: ChainRef): Resolved {
    match RootOf(chain.root, regions)
    case NoRoot(e) => Unresolved(RootFailed(e))
    case Root(a) => Walk(mem, got, regions, a, chain.offsets, TypeSize(chain.valueType))
  }

  method ResolveChain(mem: Bytes, got: ReadCounts, regions: seq<Region>, chain: ChainRef) returns (r: Resolved)
    ensures r == Resolution(mem, got, regions, chain)
    ensures match RootOf(chain.root, regions)
            case NoRoot(e) => r == Unresolved(RootFailed(e))
            case Root(a) => forall q :: q == r <==> Ends(mem, got, regions, a, chain.offsets, chain.valueType, q)
  {
    hide Ends;
    var root := ResolveRoot(chain.root, regions);
    if root.NoRoot? {
      return Unresolved(RootFailed(root.error));
    }
    r := FollowChain(mem, got, regions, root.address, chain);
  }

  /** A reference to the chain; offsets that do not match the nodes count as zeros. */
  function RefOf(regions: seq<Region>, nodes: seq<Word>, offsets: seq<Word>, t: DataType): ChainRef {
    if nodes == [] then ChainRef(Absolute(0), [], t)
    else
      ChainRef(BaseOf(regions, nodes[0]),
               if |offsets| == |nodes| - 1 then offsets else seq(|nodes| - 1, _ => 0), t)
  }

  method MakeChainRef(regions: seq<Region>, nodes: seq<Word>, offsets: seq<Word>, t: DataType) returns (ref: ChainRef)
    ensures ref == RefOf(regions, nodes, offsets, t)
  {
    if |nodes| == 0 {
      return ChainRef(Absolute(0), [], t);
    }
    var root := MakeBaseFromAddress(regions, nodes[0]);
    var steps := if |offsets| == |nodes| - 1 then offsets else seq(|nodes| - 1, _ => 0);
    return ChainRef(root, steps, t);
  }

  /** A base is MODULE in a region with a path that is none of the kernel's in brackets, else ABSOLUTE. */
  lemma BaseSpelled(regions: seq<Region>, a: Word)
    ensures (forall i :: 0 <= i < |regions| ==> !(regions[i].start <= a < regions[i].end)) ==>
              BaseOf(regions, a) == Absolute(a)
    ensures forall i :: 0 <= i < |regions| && regions[i].start <= a < regions[i].end
                        && (forall j :: 0 <= j < i ==> !(regions[j].start <= a < regions[j].end)) ==>
              BaseOf(regions, a) ==
              if regions[i].path == "" || regions[i].path[0] == '[' then Absolute(a)
              else Module(regions[i].path, (regions[i].offset + (a - regions[i].start)) % 0x1_0000_0000_0000_0000)
  {
  }

  /** A reference keeps the chain's offsets, or zeros when there are not as many as links, and the type. */
  lemma RefSpelled(regions: seq<Region>, nodes: seq<Word>, offsets: seq<Word>, t: DataType)
    ensures var ref := RefOf(regions, nodes, offsets, t);
            && ref.valueType == t && (nodes == [] ==> ref.root == Absolute(0) && ref.offsets == [])
            && (nodes != [] ==>
                  && ref.root == BaseOf(regions, nodes[0]) && |ref.offsets| == |nodes| - 1
                  && (|offsets| == |nodes| - 1 ==> ref.offsets == offsets)
                  && (|offsets| != |nodes| - 1 ==> forall i :: 0 <= i < |ref.offsets| ==> ref.offsets[i] == 0))
  {
    hide BaseOf;
  }

  // --- Moving to another layout ---

  /**
   * Each region i of layout a that m knows reappears, wherever it may be, as region m[i] of layout b: of the same file
   * at the same file offset, not smaller, and readable if it was. The other regions may change as they like.
   */
  ghost predicate Relocates(a: seq<Region>, b: seq<Region>, m: map<nat, nat>) {
    forall i {:trigger m[i]} :: i in m ==>
      && i < |a| && m[i] < |b|
      && b[m[i]].path == a[i].path && b[m[i]].offset == a[i].offset
      && b[m[i]].Size() >= a[i].Size() && (a[i].Readable() ==> b[m[i]].Readable())
  }

  /** The region of the address, if it lies in one, is among those that m knows. */
  predicate Follows(a: seq<Region>, m: map<nat, nat>, addr: Word) {
    FirstAt(a, addr).Some? ==> FirstAt(a, addr).value in m
  }

  /** Where an address of layout a ends up in layout b. */
  function Moved(a: seq<Region>, b: seq<Region>, m: map<nat, nat>, addr: Word): Word {
    match FirstAt(a, addr)
    case Some(i) => if i in m && m[i] < |b| then Add(b[m[i]].start, addr - a[i].start) else addr
    case None => addr
  }

  /** Memory b holds, at each moved node, the pointer of memory a moved with its destination. */
  ghost predicate PointersMove(memA: Bytes, memB: Bytes, a: seq<Region>, b: seq<Region>, m: map<nat, nat>,
                               nodes: seq<Word>, count: nat)
    requires count < |nodes|
  {
    forall i {:trigger nodes[i]} :: 0 <= i < count ==>
      PointerAt(memB, Moved(a, b, m, nodes[i])) ==
      Add(PointerAt(memA, nodes[i]), Sub(Moved(a, b, m, nodes[i + 1]), nodes[i + 1]))
  }

  /** Every node but the last is read as a pointer and the last one as a value. */
  ghost predicate ReadsAlong(got: ReadCounts, a: seq<Region>, b: seq<Region>, m: map<nat, nat>, nodes: seq<Word>,
                             w: nat)
    requires |nodes| > 0
  {
    && (forall i {:trigger nodes[i]} :: 0 <= i < |nodes| - 1 ==> got(Moved(a, b, m, nodes[i]), 8) == 8)
    && got(Moved(a, b, m, nodes[|nodes| - 1]), w) == w
  }

  lemma MovedInReadable(a: seq<Region>, b: seq<Region>, m: map<nat, nat>, addr: Word)
    requires Relocates(a, b, m) && Follows(a, m, addr) && Disjoint(b) && InReadable(a, addr)
    ensures InReadable(b, Moved(a, b, m, addr))
  {
    var i := FirstAt(a, addr).value;
    OnlyOneContains(b, m[i], Moved(a, b, m, addr));
  }

  /** Following the offsets from the moved start arrives at the moved end. */
  lemma {:induction false} WalkMoved(memA: Bytes, memB: Bytes, got: ReadCounts, a: seq<Region>, b: seq<Region>,
                                     m: map<nat, nat>, nodes: seq<Word>, offsets: seq<Word>, w: nat)
    requires Relocates(a, b, m) && Disjoint(b) && |nodes| == |offsets| + 1
    requires forall i :: 0 <= i < |nodes| ==> InReadable(a, nodes[i]) && Follows(a, m, nodes[i])
    requires forall i :: 0 <= i < |offsets| ==> Add(PointerAt(memA, nodes[i]), offsets[i]) == nodes[i + 1]
    requires PointersMove(memA, memB, a, b, m, nodes, |offsets|) && ReadsAlong(got, a, b, m, nodes, w)
    ensures Walk(memB, got, b, Moved(a, b, m, nodes[0]), offsets, w) ==
            Resolved(Moved(a, b, m, nodes[|offsets|]), DecodeWord(BytesAt(memB, Moved(a, b, m, nodes[|offsets|]), w)))
  {
    hide Moved, PointerAt, Relocates, Disjoint, InReadable, Follows;
    MovedInReadable(a, b, m, nodes[0]);
    if offsets == [] {
      WalkEnd(memB, got, b, Moved(a, b, m, nodes[0]), w);
    } else {
      var ns, os := nodes[1..], offsets[1..];
      var here, next := Moved(a, b, m, nodes[0]), Moved(a, b, m, nodes[1]);
      assert PointerAt(memB, here) == Add(PointerAt(memA, nodes[0]), Sub(next, nodes[1]));
      assert Add(PointerAt(memA, nodes[0]), offsets[0]) == nodes[1] && got(here, 8) == 8;
      SameShift(PointerAt(memA, nodes[0]), offsets[0], next);
      forall i | 0 <= i < |os|
        ensures Add(PointerAt(memA, ns[i]), os[i]) == ns[i + 1]
      {
        assert Add(PointerAt(memA, nodes[i + 1]), offsets[i + 1]) == nodes[i + 2];
      }
      hide Walk, Add, Sub;
      WalkMoved(memA, memB, got, a, b, m, ns, os, w);
      WalkNext(memB, got, b, here, offsets, w);
    }
  }

  /** Moving pointer and destination by the same distance keeps the offset. */
  lemma SameShift(p: Word, o: Word, next: Word)
    ensures Add(Add(p, Sub(next, Add(p, o))), o) == next
  {
  }

  lemma WalkEnd(mem: Bytes, got: ReadCounts, regions: seq<Region>, addr: Word, w: nat)
    requires InReadable(regions, addr) && got(addr, w) == w
    ensures Walk(mem, got, regions, addr, [], w) == Resolved(addr, DecodeWord(BytesAt(mem, addr, w)))
  {
  }

  lemma WalkNext(mem: Bytes, got: ReadCounts, regions: seq<Region>, addr: Word, offsets: seq<Word>, w: nat)
    requires offsets != [] && InReadable(regions, addr) && got(addr, 8) == 8
    ensures Walk(mem, got, regions, addr, offsets, w) ==
            Walk(mem, got, regions, Add(PointerAt(mem, addr), offsets[0]), offsets[1..], w)
  {
    hide PointerAt, Add;
  }

  /** A MODULE root must not be covered by an earlier mapping of its file; an ABSOLUTE one must not move at all. */
  predicate RootSurvives(a: seq<Region>, b: seq<Region>, m: map<nat, nat>, addr: Word) {
    if BaseOf(a, addr).Module? then FirstMapping(b, Moved(a, b, m, addr)) else Moved(a, b, m, addr) == addr
  }

  /** The base made of a moved address is the base made of the address, if that is a file's. */
  lemma BaseKept(a: seq<Region>, b: seq<Region>, m: map<nat, nat>, addr: Word)
    requires Relocates(a, b, m) && Follows(a, m, addr) && Disjoint(b) && BaseOf(a, addr).Module?
    ensures BaseOf(b, Moved(a, b, m, addr)) == BaseOf(a, addr)
  {
    var i := FirstAt(a, addr).value;
    OnlyOneContains(b, m[i], Moved(a, b, m, addr));
  }

  /** A base made in layout a leads to the moved address in layout b exactly if its root survives. */
  lemma BaseMoves(a: seq<Region>, b: seq<Region>, m: map<nat, nat>, addr: Word)
    requires Relocates(a, b, m) && Follows(a, m, addr) && Disjoint(b) && FileRangesFit(b)
    ensures RootOf(BaseOf(a, addr), b) == Root(Moved(a, b, m, addr)) <==> RootSurvives(a, b, m, addr)
  {
    if BaseOf(a, addr).Module? {
      BaseKept(a, b, m, addr);
      BaseRoundTrip(b, Moved(a, b, m, addr));
    }
    hide FirstMapping, Moved, Relocates, FileRangesFit;
  }

  /** It does so if in layout b no two mappings of its file overlap in the file. */
  lemma DisjointFileSurvives(a: seq<Region>, b: seq<Region>, m: map<nat, nat>, addr: Word)
    requires Relocates(a, b, m) && Follows(a, m, addr) && Disjoint(b) && FileRangesFit(b)
    requires BaseOf(a, addr).Module? && FileDisjoint(b, BaseOf(a, addr).path)
    ensures RootSurvives(a, b, m, addr)
  {
    BaseKept(a, b, m, addr);
    BaseRoundTrip(b, Moved(a, b, m, addr));
    hide FirstMapping, Moved, Relocates, FileRangesFit;
  }

  /**
   * A chain found in layout a and kept as a reference still resolves after the regions that hold its nodes moved and
   * the stored pointers with them, and to the moved target, if its root survives.
   */
  lemma ChainSurvivesRelocation(memA: Bytes, memB: Bytes, got: ReadCounts, a: seq<Region>, b: seq<Region>,
                                m: map<nat, nat>, opts: PointerScan.Options, chain: Chain, t: DataType)
    requires Disjoint(a) && Relocates(a, b, m) && Disjoint(b) && FileRangesFit(b)
    requires IsPath(PointerScan.ScanGraph(memA, a, opts), chain.nodes, chain.offsets)
    requires InReadable(a, opts.target) && forall i :: 0 <= i < |chain.nodes| ==> Follows(a, m, chain.nodes[i])
    requires RootSurvives(a, b, m, chain.nodes[0])
    requires PointersMove(memA, memB, a, b, m, chain.nodes, |chain.offsets|)
    requires ReadsAlong(got, a, b, m, chain.nodes, TypeSize(t))
    ensures Resolution(memB, got, b, RefOf(a, chain.nodes, chain.offsets, t)) ==
            Resolved(Moved(a, b, m, opts.target), DecodeWord(BytesAt(memB, Moved(a, b, m, opts.target), TypeSize(t))))
  {
    ChainReadable(memA, a, opts, chain);
    BaseMoves(a, b, m, chain.nodes[0]);
    hide IsPath, PointerAt, Moved, FirstMapping, InReadable, Relocates, PointersMove, ReadsAlong, BaseOf, RootOf, Walk,
      RootSurvives, Follows;
    WalkMoved(memA, memB, got, a, b, m, chain.nodes, chain.offsets, TypeSize(t));
  }

  /** Every node of a found chain lies in a readable region, and each link is an addition. */
  lemma ChainReadable(mem: Bytes, regions: seq<Region>, opts: PointerScan.Options, chain: Chain)
    requires Disjoint(regions) && InReadable(regions, opts.target)
    requires IsPath(PointerScan.ScanGraph(mem, regions, opts), chain.nodes, chain.offsets)
    ensures |chain.nodes| == |chain.offsets| + 1 && chain.nodes[|chain.offsets|] == opts.target
    ensures forall i :: 0 <= i < |chain.nodes| ==> InReadable(regions, chain.nodes[i])
    ensures forall i :: 0 <= i < |chain.offsets| ==>
              Add(PointerAt(mem, chain.nodes[i]), chain.offsets[i]) == chain.nodes[i + 1]
  {
    var g := PointerScan.ScanGraph(mem, regions, opts);
    IsPathSpec(g, chain.nodes, chain.offsets);
    hide IsPath;
    forall i | 0 <= i < |chain.offsets|
      ensures InReadable(regions, chain.nodes[i])
      ensures Add(PointerAt(mem, chain.nodes[i]), chain.offsets[i]) == chain.nodes[i + 1]
    {
      assert Link(g, chain.nodes[i], chain.offsets[i], chain.nodes[i + 1]);
      SourceReadable(regions, opts, chain.nodes[i]);
    }
  }

  lemma SourceReadable(regions: seq<Region>, opts: PointerScan.Options, addr: Word)
    requires Disjoint(regions)
    requires addr in Chunk.AllWindows(PointerScan.SourceRegions(regions, opts, |regions|), 8, 8)
    ensures InReadable(regions, addr)
  {
    var source := PointerScan.SourceRegions(regions, opts, |regions|);
    Chunk.WindowsBeforeMembers(source, |source|, 8, 8, addr);
    var k :| 0 <= k < |source| && Chunk.IsWindow(source[k], addr, 8, 8);
    PointerScan.SourceRegionsMembers(regions, opts, |regions|, source[k]);
    var i :| 0 <= i < |regions| && PointerScan.SourcePart(regions[i], opts) == Some(source[k]);
    PointerScan.SourcePartInside(regions[i], opts);
    PointerScan.SourcePartReadable(regions[i], opts);
    OnlyOneContains(regions, i, addr);
  }

  function Identity(n: nat): (m: map<nat, nat>)
    ensures forall i: nat :: (i in m <==> i < n) && (i in m ==> m[i] == i)
  {
    if n == 0 then map[] else Identity(n - 1)[n - 1 := n - 1]
  }

  lemma StaysPut(mem: Bytes, got: ReadCounts, regions: seq<Region>, nodes: seq<Word>, w: nat)
    requires |nodes| > 0
    requires forall i :: 0 <= i < |nodes| - 1 ==> got(nodes[i], 8) == 8
    requires got(nodes[|nodes| - 1], w) == w
    ensures var m := Identity(|regions|);
            && Relocates(regions, regions, m)
            && (forall i :: 0 <= i < |nodes| ==> Moved(regions, regions, m, nodes[i]) == nodes[i]
                                                 && Follows(regions, m, nodes[i]))
            && PointersMove(mem, mem, regions, regions, m, nodes, |nodes| - 1)
            && ReadsAlong(got, regions, regions, m, nodes, w)
  {
    hide PointerAt;
    var m := Identity(|regions|);
    forall i | 0 <= i < |nodes|
      ensures Moved(regions, regions, m, nodes[i]) == nodes[i] && Follows(regions, m, nodes[i])
    {
    }
    hide Moved;
  }

  /**
   * On the snapshot it was found in, a chain resolves back to the scan's target, provided
   * no earlier mapping of the root's file covers the root's file offset.
   */
  lemma ScanThenResolve(mem: Bytes, got: ReadCounts, regions: seq<Region>, opts: PointerScan.Options, chain: Chain,
                        t: DataType)
    requires Disjoint(regions) && FileRangesFit(regions)
    requires IsPath(PointerScan.ScanGraph(mem, regions, opts), chain.nodes, chain.offsets)
    requires FirstMapping(regions, chain.nodes[0]) && InReadable(regions, opts.target)
    requires forall i :: 0 <= i < |chain.offsets| ==> got(chain.nodes[i], 8) == 8
    requires got(opts.target, TypeSize(t)) == TypeSize(t)
    ensures Resolution(mem, got, regions, RefOf(regions, chain.nodes, chain.offsets, t)) ==
            Resolved(opts.target, DecodeWord(BytesAt(mem, opts.target, TypeSize(t))))
  {
    var m := Identity(|regions|);
    ChainReadable(mem, regions, opts, chain);
    BaseRoundTrip(regions, chain.nodes[0]);
    StaysPut(mem, got, regions, chain.nodes, TypeSize(t));
    hide IsPath, PointerAt, Moved, FirstMapping, InReadable, Relocates, PointersMove, ReadsAlong, BaseOf, RootOf, Walk,
      Follows;
    WalkMoved(mem, mem, got, regions, regions, m, chain.nodes, chain.offsets, TypeSize(t));
  }
}
