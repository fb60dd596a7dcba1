# MemoryTool: verified model of the scanning engine, its file formats and its job runner

MemoryTool is a memory scanner for Linux processes. This project models the parts of it that
compute something hard to get right, and proves what they are for.

**Pointer scanner and resolver** (`Words`, `Memory`, `Sorting`, `HashSet`, `PointerPaths`, `PointerScan`, `PointerLimits`,
`PointerExamples`, `Resolver`).
A pointer scan lists the chains of stored pointers that lead to a target address. `PointerPaths` says in a few
lines what such a chain is: a simple path in the graph of "stored pointer plus window offset". `PointerScan`
is the code: a reverse search level by level with an open-addressing hash set, a prefilter of shifted
targets, a frontier of chains with a cycle check each, limits, cancellation and progress. It is proved
sound in every case and complete when nothing was cut; when its flags are set is proved as well (`PointerLimits`), and
`PointerExamples` runs it where its limits or its null pointers surprise.
`Resolver` keeps chains as module + file offset and proves that they resolve again, on the same snapshot and after
the regions have moved.

**Scanning engine** (`Chunk`, `Values`, `Pattern`, `Refine`, `Scanner`, `ScanRuns`, `ScanCancel`, `ScanExamples`).
`Chunk` is the traversal in blocks with overlap, stride, short reads, unreadable blocks, cancellation and progress.
First and Next scans stand on it and on the block-wise sweep of `Refine`; each is proved equal to a
one-address-at-a-time definition, `ScanRuns` lifts that to whole runs over changing memory, and
`ScanCancel` says what a cancelled Next scan leaves behind; `ScanExamples` runs the scanner where promises fail.

**Formats** (`Decimal`, `Utf8`, `Json`, `JsonGrammar`, `JsonAccept`, `JsonFaults`, `JsonRoundTrip`, `JsonParser`; `Numerals`, `TableText`,
`TableRoundTrip`, `TableReading`, `TableFiles`, `TableFronts`, `TablePieces`, `TableRestored`, `AddressTable`). The JSON parser
accepts exactly the texts of RFC 8259's grammar within its limits (among them: no unpaired surrogate), each with its meaning, and reads back what the writer writes (escapes become UTF-8, RFC 3629; raw bytes
pass unchecked); what it refuses it reports at the place `JsonFaults` says. The address table's save and load undo each other for exactly the tables that `TableRestored.RestoredExactly`
describes, down to `strtoull`, line buffer, quoting and C strings; `TableReading` says what lines written by hand are read as.

**Job runner** (`Jobs`, `JobRunner`, `RunnerSafety`, `RunnerResults`, `RunnerRaces`). `Jobs` is the job and the registry as one thread sees
them. `JobRunner` is the protocol as atomic steps (lock, load, compare-and-swap, store) of any number of
threads; its inductive invariant gives the properties in `RunnerSafety`, `RunnerResults` follows over whole runs
how each job ends, and `RunnerRaces` exhibits the
interleavings that the code really allows.

How the outside world appears in the model:

- Memory is a finite map from addresses to bytes; a read is a function from address and length to the
  number of bytes read (0 or less when it fails) that returns bytes of the map. *Full* reads return at least
  min(window, want) bytes, *maximal* reads the whole readable prefix; nothing else is assumed of them. A region may be
  listed as readable and hold no byte at all (as [vvar] does); completeness asks for full reads only in the others. A pointer scan
  may see other read lengths in every level, over one snapshot.
- The cancel flag is an object that goes up before a load of any number, or never, and is not lowered.
- A traversal callback is a function that threads an accumulator and says whether to go on. The hash function is any
  function on 64-bit words. Block size and every limit are parameters.
- Integers that the code keeps in 64 bits wrap around in the model where the code computes on them.
- Files are whole texts, one char a byte. JSON doubles keep the text they were read from.

What the code does that its comments do not say (the model follows the code):

- `max_chains` is enforced per level, not in total (`src/pointer.h:68`). It bounds the total of every scan, whatever the memory and
  the other options, if and only if `max_depth` is at most 1 or `max_chains` is 0: `PointerScan.ChainsPerLevel`, `PointerExamples.MoreThanMaxChains`.
- A truncation flag may be set although nothing was lost (`src/pointer.h:269-273`); only its absence means something:
  `PointerLimits.StoppedExactly`, `PointerExamples.FlaggedButComplete`, and `PointerScan.ExtendChains` for chains.
- 0 is never contained in the hash set, so null pointers are never followed: `PointerPaths.LinkDiffers` says exactly when
  that or a wrap-around matters, and `PointerExamples.NullPointerMissedByScan` runs a scan where it does.
- A cancelled Next scan does not leave earlier results intact (`src/scanner.h:121-123`, `136` and `155`): `ScanExamples.LostChange`,
  `ScanExamples.LostCapture`. When it does can be decided before the call: `ScanCancel.NumericSurvivesAnyCancel`,
  `ScanCancel.DynamicSurvivesAnyCancel`.
- A module offset is looked up in the first mapping that covers it (`src/pointer_resolver.cpp:29-37`), which need not be the one the
  address was in: `Resolver.BaseRoundTrip`, `Resolver.SharedPageMisleads`.
- After a dynamic CHANGED scan the pattern no longer describes the bytes last read: `ScanRuns.ChangedCapture`,
  `ScanExamples.ChangedForever`.
- A NaN compares equal to every value (`src/types.h:151-157`).
- A cancel may set the flag of a job that has finished meanwhile (`src/web/jobs.cpp:198-201`).
- shutdown may join a worker that nobody has asked to stop (`src/web/job_runner.h:72-74`): one launched between its two locked
  sections, or one whose job was removed from the registry while it ran. `RunnerSafety.ShutdownTells` says that there is no
  other, and `RunnerRaces` shows both.
- shutdown is not safe from two threads at once (`src/web/job_runner.h:74`): the second call may return while the worker still
  runs (`RunnerRaces.ShutdownReturnsEarly`); otherwise it waits (`RunnerSafety.LoneShutdownWaits`).
- A description can be cut by the 4096-byte line buffer of load (`src/address_table.cpp:239-243`): `TableFiles.LineRestored`,
  `TableRestored.LongDescriptionLost`. So can the fields of a pointer entry with hundreds of offsets: `TableFronts.FrontCut`.

`dafny verify dfyconfig.toml` checks everything.

## Model

| member | source | states |
|---|---|---|
| Words.DecodeInjective | src/types.h:99-105 | Two windows of one width have the same value just when their bytes are the same. |
| Words.DecodeDigit | src/types.h:99-105 | The value is little-endian: byte i of any byte string is its digit of weight 256 to the power i. |
| Words.DecodeSpelled | src/types.h:99-105 | For the widths 1, 2, 4 and 8 the value with every byte and weight written out. |
| Values.MeansSpelled | src/types.h:107-148 | The numbers the integer types can mean, range by range: -128 to 127 for the first, and so on to 64 bits. |
| Values.ComparesNumbers | src/types.h:107-174 | On every integer type the three-way comparison orders the numbers the low bits mean (the one number in the type's range congruent to them), and equality is equality of those numbers. |
| Values.CompareLaws | src/types.h:150-178 | Swapping sides negates the result on every type, every value equals itself, and a NaN compares equal to everything. |
| Values.ComparesFloats | src/types.h:136-157 | Finite floats of either width compare as the numbers IEEE 754 gives their bits, in units of the smallest; an infinity is beyond all of them, and a NaN equals everything. |
| Values.WindowStands | src/types.h:31-50 | What a type reads at an address is the little-endian number of its 1, 2, 4 or 8 bytes there. |
| Memory.PermsSpelled | src/memory.h:22-24 | The three letters of a region's permissions, in their places, decide whether it is readable, writable, executable. |
| Memory.RegionAt | src/memory.cpp:60-64 | The search loop returns the first region containing the address, or none. |
| Memory.OnlyOneContains | src/memory.cpp:60-64 | Among disjoint regions any region containing the address is the one found. |
| Chunk.ForEachWindow | src/chunk.h:66-131 | For any memory, short or failed reads, stride, callback and cancellation: it ends; every delivered window is real, aligned, fully read and comes in order; the result is the callback folded over the delivered windows; progress never decreases and never passes the total, and for stride 1 reaches it on completion. On completion every window of each region whose own reads are full (at least min(window, want) bytes) is delivered, whatever happens in the others, when the window fits a block. When reads are full in every region that holds any byte, what is delivered is a prefix of the list of all aligned windows of those regions, and all of it unless stopped or cancelled. |
| Chunk.AllBacked | src/chunk.h:79-131 | When reads are full in all readable regions, leaving out those without a byte leaves out no window. |
| Chunk.AllWindowsSpec | src/chunk.h:46-65 | That list names exactly the stride-aligned windows that fit inside a readable region, each once for disjoint regions, upwards for regions listed upwards. |
| Chunk.RegionWindowsSpec | src/chunk.h:85-122 | Inside one region the list is strictly increasing and holds exactly the aligned windows that fit. |
| Chunk.ScanRegion | src/chunk.h:79-130 | One region's block loop: termination, windows delivered in order inside the region, covered bytes within the region and equal to its size for stride 1, completeness under full reads. |
| Chunk.DeliverBlock | src/chunk.h:101-122 | One block: the next position is aligned, no window is skipped or delivered twice across the block edge. |
| Chunk.SumReadable | src/chunk.h:39-44 | The total is the sum of the readable regions' sizes. |
| Chunk.FoldAppend | src/chunk.h:104-105 | Folding the callback over a list in two parts is folding it over the whole, unless it stopped in the first part. |
| Refine.Sweep | src/scanner.cpp:247-309 | The block-wise sweep over sorted candidates with holes anywhere: with maximal reads the new list is the one-candidate-at-a-time refinement; it is cancelled just when one of its loads of the flag sees it up; and the load that does says how many blocks were judged, which candidates those are, and so exactly what the old list has become. |
| Refine.BlockSpelled | src/scanner.cpp:250-303 | One block, in addresses: a failed read drops one candidate; else those below both the end of the block and of the bytes read are judged together, up to the first that is not, and a candidate counts as read if and only if its last byte was. |
| Refine.JudgedReadable | src/scanner.cpp:253-300 | With maximal reads the candidates judged in the first blocks are judged exactly by whether they can be read. |
| Refine.IntactAlways | src/scanner.cpp:247-309 | A list survives a cancel at any load just when it survives one after all blocks. |
| Refine.SweepBlock | src/scanner.cpp:253-300 | Every outer iteration consumes at least one candidate, and judges only candidates whose bytes lie inside the block read. |
| Refine.FitsIffReadable | src/scanner.cpp:265-279 | With maximal reads the in-block bound check decides exactly whether the candidate's bytes can be read. |
| Refine.NaiveMembers | src/scanner.cpp:272-298 | The refinement holds exactly the new versions of the readable candidates that pass. |
| Refine.KeptOrdered | src/scanner.cpp:295-298 | Refining keeps the order of addresses and invents none. |
| Refine.StoredIntact | src/scanner.cpp:295-303 | A sweep cut short leaves the old list as it was exactly when each kept candidate so far left itself behind unchanged. |
| Refine.SortByAddress | src/scanner.cpp:235-245 | A permutation sorted by address; a sorted list is left as it is. |
| Sorting.PermutationDistinct | src/pointer.h:291-297 | A permutation of a list without duplicates has none. |
| Scanner.FiltersCompareNumbers | src/scanner.cpp:283-294 | Each of the ten filters, on integers, in terms of the current, previous and given numbers; without a given value only the four comparing filters can keep anything. |
| Scanner.FiltersCompareFloats | src/scanner.cpp:283-294 | Each of the ten filters, on finite floats, in terms of the numbers themselves. |
| Scanner.FiltersTakeNaN | src/scanner.cpp:283-294 | On a current value that is no number exactly EXACT, UNCHANGED, at least and at most keep the candidate. |
| Scanner.EmitFold | src/scanner.cpp:193-201 | Folding emit keeps exactly the first N matches, raises truncated just when more exist and warned just when more than the threshold are kept. |
| Scanner.CollectWindows | src/scanner.cpp:51-91 | A first-scan traversal that is not cancelled ends with the first N matches among all windows of the regions that hold bytes; if it is not truncated it has seen every window of each region with full reads. |
| Scanner.Scanner.FirstScan | src/scanner.cpp:183-227 | With full reads in the regions that hold bytes the candidates, truncated and warned are those of the naive list of matches; in any case those of the windows delivered, which without truncation are all those of each region with full reads; every candidate's value is the little-endian number of its type's bytes at its address; cancelled leaves all state unchanged. |
| Scanner.Scanner.NextScan | src/scanner.cpp:229-310 | With maximal reads the candidates are the naive refinement of the sorted ones, each with the little-endian number of the bytes now at its address; when cancelled the addresses stay and the whole new state is the partly judged old list. |
| Scanner.Scanner.FirstScanDynamic | src/scanner.cpp:34-91 | The same for patterns, including the empty or invalid pattern; numeric results are cleared; cancelled leaves all state unchanged. |
| Scanner.Scanner.NextScanDynamic | src/scanner.cpp:93-181 | The same refinement for dynamic candidates; no spec or an unusable one changes nothing; a new spec is stored only on completion; a completed refinement leaves whole captures, also after a cancelled one. |
| Scanner.Scanner.Clear | src/scanner.cpp:26-32 | Everything but the type is reset. |
| Scanner.MakeDynamicSpec | src/scanner.h:60-67 | The spec carries the pattern and exactly its wildcard positions in order. |
| Scanner.DynamicWindowChanged | src/scanner.h:73-88 | The loop answers whether the window differs from the pattern merged with the captured bytes. |
| ScanRuns.RunExact | src/scanner.cpp:183-310 | After a first scan and any number of next scans the candidates are exactly the addresses, in regions that held bytes at first, that satisfied every filter between consecutive snapshots, each with its value in the last. |
| ScanRuns.RunOrdered | src/scanner.cpp:235-245 | Over the whole run candidates stay in strictly increasing address order. |
| ScanRuns.Replay | src/scanner.cpp:183-310 | The scanner object driven through a whole run, over a region list that may name unreadable regions, ends with exactly those candidates unless a scan is cancelled, and none is when the flag never rises. |
| ScanCancel.CancelledNumeric | src/scanner.cpp:272-303 | What a numeric next scan cancelled after any number of blocks leaves: every address in place, previous values changed only for readable candidates of those blocks, and nothing changed if and only if each of them would be dropped or has not changed value. |
| ScanCancel.NumericSurvivesAnyCancel | src/scanner.h:121-123 | The promise that a cancelled scan keeps earlier results intact, decided before a numeric next scan: it holds at every moment of cancelling if and only if every readable candidate would be dropped or has not changed value. |
| ScanCancel.UnchangedLosesNothing | src/scanner.h:153-158 | From the arguments alone: on an integer type a cancelled UNCHANGED scan loses no previous value, whatever the memory, if and only if that value fits the type. |
| ScanCancel.SafeArgumentsSurvive | src/scanner.h:121-123 | Arguments with which earlier results survive a cancel at every moment over any memory: a filter that needs a value without one, or UNCHANGED over integers that fit their type. |
| ScanExamples.LostChange | src/scanner.h:121-123 | The promise fails: scanning one byte, then a CHANGED scan cancelled at its second look at the flag, leaves the new value as the previous one, and a repeated CHANGED finds nothing. |
| ScanCancel.CancelledDynamic | src/scanner.cpp:157-174 | A dynamic next scan cancelled after any number of blocks keeps the addresses and empties the captures of exactly the readable kept candidates of those blocks. |
| ScanCancel.DynamicSurvivesAnyCancel | src/scanner.h:121-136 | The same promise for dynamic candidates, decided before the call: it holds at every moment if and only if the stored spec has no wildcard or no readable candidate would be kept. |
| ScanCancel.CompletedSurvivesAnyCancel | src/scanner.h:121-136 | With whole captures (one byte per wildcard of the stored spec), which every first scan and every completed refinement leaves, what decides it for the next scan is just that state, the memory and the arguments. |
| ScanExamples.LostCapture | src/scanner.h:121-136 | It fails for a pattern of one wildcard: a cancelled UNCHANGED scan empties the captured byte, and a repeated UNCHANGED drops the candidate although nothing changed. |
| ScanRuns.CaptureExact | src/scanner.h:69-88 | A window is recovered from pattern and captured bytes if and only if it matches the pattern. |
| ScanRuns.FirstFaithful | src/scanner.cpp:55-69 | After a dynamic first scan pattern and captures give every candidate's bytes. |
| ScanRuns.FirstDynamicExact | src/scanner.cpp:69-77 | A dynamic first scan finds exactly the places, in regions that hold bytes, where every byte of the pattern that is no wildcard stands. |
| ScanRuns.ExactDynamicExact | src/scanner.cpp:153-156 | EXACT, and every other filter but CHANGED and UNCHANGED, keeps exactly the readable candidates where every such byte stands. |
| ScanRuns.NextFaithful | src/scanner.cpp:148-168 | EXACT with any spec, and UNCHANGED from such a state, keep that. |
| ScanRuns.UnchangedExact | src/scanner.cpp:150-153 | From such a state UNCHANGED keeps exactly the readable candidates whose bytes are identical to those of the last scan. |
| ScanRuns.ChangedExact | src/scanner.cpp:150-153 | And CHANGED exactly those whose bytes are not identical. |
| ScanRuns.ChangedCapture | src/scanner.cpp:157-168 | After CHANGED the captures are right under the wildcards, and the whole window is recovered if and only if it still matches the stored pattern. |
| ScanRuns.ChangedTwice | src/scanner.cpp:150-168 | A second CHANGED over the same memory keeps a candidate if and only if its bytes no longer match the stored pattern. |
| ScanExamples.ChangedForever | src/scanner.cpp:150-168 | An EXACT first scan for the byte 1, which then becomes 2: CHANGED keeps the candidate however often it is repeated, though nothing changes any more, and pattern and captures still give 1. |
| Pattern.PatternWindowMatches | src/pattern.h:44-48 | The loop decides whether every exact byte of the pattern matches. |
| Pattern.FromText | src/pattern.h:54-69 | Refused just when empty or too long; otherwise it matches exactly the windows starting with the text. |
| Pattern.ScanPattern | src/pattern.h:88-121 | The first N occurrences, truncated if and only if at least N exist; nothing when cancelled; every hit is a real match for any reads. |
| Pattern.OccurrencesSpec | src/pattern.h:77-112 | An occurrence is an address in a readable region that holds bytes where the pattern matches. |
| HashSet.FlatHashSet.Build | src/pointer.cpp:62-74 | For every list and hash function the table answers for exactly the nonzero members, the load factor is at most one half, and the size is the number of distinct inputs. |
| HashSet.FlatHashSet.Insert | src/pointer.cpp:76-81 | The probe ends, the no-gap invariant is kept, exactly one nonzero value is added, and size grows unless it was there. |
| HashSet.FlatHashSet.Contains | src/pointer.cpp:83-91 | The probe ends and answers whether the value is nonzero and in some slot. |
| HashSet.LookupExact | src/pointer.cpp:83-91 | In a table without gaps and with an empty slot the probe finds exactly the nonzero stored values. |
| HashSet.NoGapInsert | src/pointer.cpp:76-81 | Storing a value where its probe ended keeps every stored value reachable from its home slot. |
| HashSet.StoredOnce | src/pointer.cpp:76-81 | No value is stored in two slots. |
| HashSet.SortUnique | src/pointer.cpp:67-68 | Strictly increasing, same members. |
| HashSet.MaskIsRemainder | src/pointer.cpp:69-77 | For the power-of-two capacities the table has, the bitwise and with the mask is the remainder that the probes are modelled with. |
| PointerPaths.IsPathSpec | src/pointer.h:88-96 | A path: ends at the target, no address twice, and each step is stored pointer plus window offset. |
| PointerPaths.LevelEdgesMembers | src/pointer.h:241-276 | A level's edges are the links into the current set, nothing else and nothing missing. |
| PointerPaths.ExtendSound | src/pointer.cpp:101-148 | Prolonging paths by real links gives simple paths one deeper, none twice. |
| PointerPaths.ExtendComplete | src/pointer.cpp:101-148 | One level loses no path, and the next level's targets include every head. |
| PointerPaths.NoDeeperPaths | src/pointer.h:285-304 | Where no path has d links none has more, so stopping at an empty level loses nothing. |
| PointerPaths.LinkDiffers | src/pointer.h:251-268 | The code's link differs from plain pointer + offset = address if and only if the stored pointer is null and the offset itself is the address, or the sum wraps past 2^64. |
| PointerPaths.PlainPaths | src/pointer.h:251-268 | With target and sources above the largest offset the code's paths are exactly the plain ones. |
| PointerPaths.NullPointerMissed | src/pointer.cpp:83-91 | Without that, a target that is itself a window offset has plain paths through null pointers that the search cannot see, since 0 is never contained. |
| PointerExamples.NullPointerMissedByScan | src/pointer.h:143-147 | A scan, whatever its depth and limits, of a heap with one null pointer for a target that is a window offset: the plain path is there, and the result is empty, without a flag and not cancelled. |
| PointerScan.SelectSources | src/pointer.h:200-211 | The source list is the selected regions clipped to the address range, in order. |
| PointerScan.SourcesExactly | src/pointer.cpp:24-53 | Which addresses a scan reads pointers from, region by region: the 8-aligned ones with 8 bytes inside the clip of a listed readable region that is the heap, a stack, anonymous and writable, or of a file and executable with code included or else writable; nothing of the three kernel pages. |
| PointerScan.SourceRegionsDisjoint | src/pointer.h:200-211 | Clipped parts of disjoint regions are disjoint. |
| PointerScan.PrefilterLossless | src/pointer.h:245-258 | Modulo 2^64 a value is in the shifted set if and only if some window offset takes it into the current set. |
| PointerScan.VisitPositionSpec | src/pointer.h:260-276 | At one position prefilter plus inner loop find the edges that testing every offset would find, up to the edge limit, and stop with the flag just when it is reached. |
| PointerScan.LevelWalk | src/pointer.h:260-281 | Over a whole level's positions: the first max_edges of all its edges (the first one for a limit of 0), flagged if and only if there are that many. |
| PointerScan.ShiftedValues | src/pointer.h:249-257 | The nested loops build the set of all target minus offset values modulo 2^64. |
| PointerScan.LowerBound | src/pointer.cpp:119-123 | The first edge whose target is not below the head. |
| PointerScan.ExtendChains | src/pointer.cpp:101-148 | The first max_chains of the prolonged chains in frontier and edge order; the flag is set if and only if the limit is 0 or is met before a further chain or at a further edge into a head, whether or not that would add anything. |
| PointerScan.ScanLevel | src/pointer.h:245-281 | One level: every edge is a real link into the current set; all are found unless truncated, cancelled or short-read in a region that holds bytes; truncated if and only if the number of edges is the limit. |
| PointerScan.BackedSources | src/pointer.h:245-281 | A region of which nothing can be read costs no link: where a nonnull pointer is stored, the region is read. |
| PointerScan.ExtendLevel | src/pointer.h:290-316 | Sorting and prolonging keep the level invariant: all chains so far are simple paths, and all paths of that depth when nothing was lost. |
| PointerScan.Level | src/pointer.h:237-316 | One level with its two cancel checks: an empty level or one that adds no chain gives the final answer, any other the invariant one level deeper. |
| PointerScan.AddLevelTo | src/pointer.h:237-320 | One pass of the loop keeps the state of the search: the result is that of the levels walked, each starting where the one before it ended. |
| PointerScan.Search | src/pointer.h:236-320 | The level loop with its cancel checks and early exits ends in a sound answer, complete when nothing was lost, and is cancelled only if the flag rises. |
| PointerScan.PointerScan | src/pointer.h:192-326 | Sound always: every chain is a simple path of depth 1 to max_depth, none twice. Complete when reads were full in the regions that hold bytes, not cancelled and neither flag is set. Cancelled returns no results and no flags. Otherwise the result is exactly the totals of its levels: their chains joined, edges and levels counted, and each flag set if and only if some level set it. Progress stays within level total times max_depth and ends there unless cancelled. |
| PointerScan.ChainsPerLevel | src/pointer.h:64-68 | Whatever the memory, max_chains bounds each level, so the result has at most levels times as many chains; it bounds the total when max_depth is at most 1 or max_chains is 0 (or the first edge already ends the search). |
| PointerExamples.MoreThanMaxChains | src/pointer.h:64-68 | And otherwise it does not: for every max_depth and max_chains there is a scan, with room for its edges, that returns more than max_chains chains if and only if max_depth is at least 2 and max_chains at least 1; it then returns one more, and sets no flag. |
| PointerLimits.StoppedExactly | src/pointer.h:260-276 | With full reads a level is truncated if and only if at least max_edges distinct links lead into its targets. |
| PointerLimits.CutMeans | src/pointer.cpp:101-148 | A level that loses a chain to max_chains is flagged, and a flagged one could have had at least max_chains. |
| PointerExamples.FlaggedButComplete | src/pointer.h:269-273 | For every max_edges k a scan of k links whose answer, k chains, is complete and whose edges are still flagged as truncated. |
| PointerScan.PlainAnswer | src/pointer.h:175-190 | With target and sources above the window such a lossless answer is exactly the set of plain simple paths. |
| PointerScan.ScanAnswer | src/pointer.h:175-190 | In terms of bytes, regions and options alone: a lossless answer is exactly the set of paths, of depth 1 to max_depth, whose links are 8 stored bytes at a wanted address plus an offset of the window, modulo 2^64. |
| PointerScan.LevelProgress | src/pointer.h:220-225 | Level reports added to the levels before stay monotone and within the grand total. |
| Resolver.FindModule | src/pointer_resolver.cpp:29-47 | Module-not-found just when no region has the path; failure just when no region maps the offset. |
| Resolver.ResolveRoot | src/pointer_resolver.cpp:23-47 | The search loop with its module_exists flag gives the first mapping of the offset or the right error. |
| Resolver.BaseRoundTrip | src/pointer_resolver.cpp:8-47 | A base leads back to its address if and only if no earlier mapping of the file covers the same file offset; that no two mappings of this file overlap in it guarantees it. |
| Resolver.SharedPageMisleads | src/pointer_resolver.cpp:23-37 | It does not with two mappings that share a page of their file: the base of an address in the second leads into the first. |
| Resolver.RootRoundTrip | src/pointer_resolver.cpp:8-47 | A resolved MODULE root made into a base again is the same module and offset, without disjoint file ranges. |
| Resolver.BaseSpelled | src/pointer_resolver.cpp:8-21 | A base, in terms of the first region that holds the address: its file and file offset modulo 2^64, or the address itself where there is no region, no path or a bracketed one. |
| Resolver.FollowExactly | src/pointer_resolver.cpp:49-86 | Following a chain has exactly one outcome, said without the walk. It is an address and value if and only if there are nodes from the root to it, each but the last in a readable region with 8 bytes read and leading to the next by its stored pointer plus its offset, and the last in a readable region with a whole value read, which is that value; else it is the error of the first node that fails. |
| Resolver.FollowChain | src/pointer_resolver.cpp:49-86 | The loop with its error exits ends in exactly that outcome, for every memory, read lengths, regions and offsets. |
| Resolver.ResolveChain | src/pointer_resolver.cpp:88-101 | From a reference: the error of its root, or the outcome of following its offsets from there. |
| Resolver.RefSpelled | src/pointer_resolver.cpp:103-124 | A reference has the base of the first node and the chain's offsets, or as many zeros when there are not as many as links. |
| Resolver.ChainReadable | src/pointer_resolver.cpp:55-68 | Every node of a found chain lies in a readable region and each link is the walk's addition. |
| Resolver.ScanThenResolve | src/pointer_resolver.cpp:49-124 | On the same snapshot a returned chain made into a reference resolves to the scan's target and the value there, when no earlier mapping covers the root's file offset. |
| Resolver.BaseMoves | src/pointer_resolver.cpp:8-47 | A base made in one layout leads to the moved address in another, in which the address's region reappears, if and only if, for a MODULE base, no earlier mapping of the file there covers the same file offset, and, for an ABSOLUTE one, the address has not moved. |
| Resolver.DisjointFileSurvives | README.md:440-454 | The first of these holds when the mappings of that one file do not overlap in the file, whatever else is mapped. |
| Resolver.ChainSurvivesRelocation | README.md:440-454 | A chain found in one layout resolves in another to the relocated target, when the regions of its nodes reappear (same file and file offset, not smaller, still readable), the stored pointers move with them, and its root survives in the sense of BaseMoves; all other regions are free. |
| Utf8.EncodeDecodes | src/web/json.cpp:243-259 | append_utf8 writes every scalar value as well-formed UTF-8 that decodes back to it (section 3 of RFC 3629). |
| Utf8.DecodeEncodes | src/web/json.cpp:243-259 | Every well-formed sequence is what append_utf8 writes for exactly one scalar value. |
| Utf8.PairsAreSupplementary | src/web/json.cpp:301-311 | Surrogate pairs denote scalar values in 0x10000..0x10FFFF, each its own. |
| Utf8.EverySupplementaryHasAPair | src/web/json.cpp:301-311 | And every value of that range has a pair. |
| JsonAccept.UnicodeEscapeSound | src/web/json.cpp:297-317 | Every accepted \u escape or pair is a scalar value and is appended as its well-formed UTF-8. |
| JsonAccept.HexSpelled | src/web/json.cpp:222-241 | What every character is worth as a hex digit, both digit strings written out, and that no other is one. |
| JsonAccept.EscapesExactly | src/web/json.cpp:297-317 | An escape is read as a scalar value's UTF-8 if and only if it spells that value's code unit or surrogate pair in hex digits, each in either case. |
| JsonAccept.EveryScalarEscapes | src/web/json.cpp:297-317 | So every scalar value can be escaped, and every such spelling is read as it. |
| Json.ControlsSpelled | src/web/json.cpp:105-125 | The text written for each of the 32 control characters, listed. |
| Json.PlainWritten | src/web/json.cpp:105-125 | Everything else is written as it stands, except quote and backslash, which get a backslash. |
| Decimal.NatJoin | src/web/json.cpp:374-396 | Decimal digits count from the last upwards in tens. |
| JsonRoundTrip.UnitOfSpells | src/web/json.cpp:105-125 | Whatever a byte is written as is a valid spelling of that byte by section 7 of RFC 8259. |
| JsonRoundTrip.NumberOfSpells | src/web/json.cpp:135-140 | Every 64-bit integer is written as a number of section 6 of RFC 8259 with that value. |
| JsonRoundTrip.TreeOfSpells | src/web/json.cpp:127-183 | What the writer writes spells the value, small unsigned numbers counting as signed. |
| JsonRoundTrip.RoundTripExactly | src/web/json.cpp:185-190 | A double-free value survives write and parse if and only if it keeps the depth and string limits and its text the input limit. |
| JsonRoundTrip.Stable | src/web/json.cpp:500-522 | Writing an accepted value that holds no double and parsing it again changes nothing, when the new text is at most 64 KiB long. |
| JsonRoundTrip.RoundTrip | src/web/json.cpp:185-190 | parse(write(v)) succeeds and returns v with small unsigned values as signed ones, for every double-free value within the limits. |
| JsonGrammar.AcceptsExactly | src/web/json.cpp:202-522 | The parser accepts exactly the texts in the grammar of RFC 8259 that keep its limits (64 KiB of text, depth, string length, numbers it can hold, surrogates in pairs), each with its meaning. Bytes from 0x20 on are not checked to be UTF-8, by grammar or parser. |
| JsonGrammar.ValidSplit | src/web/json.cpp:202-522 | The spellings the parser reads are those of the grammar that keep the limits on numbers and surrogates, part by part. |
| JsonGrammar.LoneSurrogate | src/web/json.cpp:297-318 | An escape that is half a surrogate pair is in the grammar (section 7), and its text is refused. |
| JsonGrammar.TreeParse | src/web/json.cpp:402-496 | Every spelling of a value within the limits, whatever follows it, is read as that value. |
| JsonGrammar.ValueSound | src/web/json.cpp:402-496 | Every accepted value comes from a valid spelling that is exactly the text consumed. |
| JsonGrammar.CharsSound | src/web/json.cpp:273-333 | An accepted string is a sequence of plain bytes, two-character escapes, code units and surrogate pairs, and means their concatenation. |
| JsonGrammar.NumberParse | src/web/json.cpp:335-397 | Every number spelled with sign, digits, fraction and exponent within the limits is read whole, as Int, UInt or double. |
| JsonGrammar.NumberSound | src/web/json.cpp:335-397 | And nothing else is accepted as a number. |
| JsonAccept.ValueCanonical | src/web/json.cpp:402-496 | No accepted value exceeds the depth, string or integer limits. |
| JsonFaults.EscapeFaults | src/web/json.cpp:286-318 | Of an escape: none after the backslash, an unknown letter, or no four hex digits is reported as that, where it ends. |
| JsonFaults.SurrogateFaults | src/web/json.cpp:301-314 | A low surrogate alone, a high one without an escape after it, or with one that is not hex, each with its place. |
| JsonFaults.PairFaults | src/web/json.cpp:306-310 | A high surrogate followed by a unit that is no low one. |
| JsonFaults.StringFaults | src/web/json.cpp:273-333 | After any valid units a string that ends, holds a control character or a bad escape is refused with that fault: the first at the opening quote, the others where they stand. |
| JsonFaults.LongStringFaults | src/web/json.cpp:319-330 | The unit that passes 4096 bytes is refused: a plain byte at its place, an escape after it. |
| JsonFaults.IntegerFaults | src/web/json.cpp:335-348 | A number without digits, or with a digit after a first 0, is refused at its start. |
| JsonFaults.FractionFaults | src/web/json.cpp:350-356 | So is a point without digits. |
| JsonFaults.ExponentFaults | src/web/json.cpp:357-364 | And an exponent without digits. |
| JsonFaults.NumberFaults | src/web/json.cpp:365-396 | A well-formed number of more than 64 characters is too long, and a shorter one that does not fit is out of range, both at its start. |
| JsonFaults.ValueFaults | src/web/json.cpp:402-418 | Nothing but blanks, a character no value starts with, and a bracket at depth 32 are refused there. |
| JsonFaults.LiteralFaults | src/web/json.cpp:261-271 | A word is read if and only if it is true, false or null and no letter, digit or underscore follows; else it is refused at its start. |
| JsonFaults.ArrayFaults | src/web/json.cpp:463-496 | After any number of items with their commas an array goes on with what those items mean, so a fault is reported where the rest has it. |
| JsonFaults.ElemFaults | src/web/json.cpp:476-482 | There the text may end, or the next value be refused with its own fault. |
| JsonFaults.SeparatorFaults | src/web/json.cpp:483-492 | Or neither comma nor bracket follow a value. |
| JsonFaults.ObjectFaults | src/web/json.cpp:421-461 | The same for the members of an object. |
| JsonFaults.KeyFaults | src/web/json.cpp:433-438 | There a key may be missing or refused. |
| JsonFaults.ColonFaults | src/web/json.cpp:439-444 | Or its colon be missing, or its value refused. |
| JsonFaults.MemberFaults | src/web/json.cpp:445-456 | Or neither comma nor bracket follow a member. |
| JsonFaults.TextFaults | src/web/json.cpp:500-520 | More than 64 KiB is refused unread at offset 0; what follows a value, blanks aside, is refused there. |
| JsonParser.ParseInput | src/web/json.cpp:500-522 | The cursor parser accepts what the specification accepts, with its value, and reports its error at its offset. |
| JsonParser.Parser.ParseString | src/web/json.cpp:273-333 | The in-place string loop agrees with the specification in value, cursor, error and error offset. |
| JsonParser.Parser.ParseUnicode | src/web/json.cpp:297-314 | The same for \u and surrogate pairs. |
| JsonParser.Parser.ParseNumber | src/web/json.cpp:335-397 | The same for numbers. |
| JsonParser.Parser.ParseValue | src/web/json.cpp:402-418 | The same for values, with the depth restored. |
| JsonParser.Parser.ParseArray | src/web/json.cpp:463-496 | The same for arrays. |
| JsonParser.Parser.ParseObject | src/web/json.cpp:421-461 | The same for objects. |
| JsonParser.WriteEscaped | src/web/json.cpp:105-125 | The appending loop writes the specified quoted text. |
| JsonParser.WriteValue | src/web/json.cpp:127-183 | The appending recursion writes the specified text. |
| JsonParser.WriteThenParse | src/web/json.cpp:185-190 | Running the writer and then the parser gives the value back. |
| Numerals.WordRoundTrip | src/address_table.cpp:115-134 | Both %llx and %016llx behind 0x are read by strtoull base 0 as the same 64-bit number. |
| Numerals.PaddedLength | src/address_table.cpp:115-119 | A padded address has 16 digits. |
| Numerals.WordReads | src/address_table.cpp:265-268 | Every number with an optional sign, in base 16 behind 0x, base 8 from a 0 on, else base 10, is read as its value, minus wrapping around, unless it needs more than 64 bits. |
| Numerals.WordSpelled | src/address_table.cpp:265-268 | And nothing else is read as a number. |
| Numerals.ValueJoin | src/address_table.cpp:265-268 | Digits count from the last upwards in powers of the base. |
| Numerals.FlagReads | src/address_table.cpp:273-275 | A flag is decimal with an optional sign, and set if and only if some digit is not 0. |
| TableReading.TypesSpelled | src/types.h:74-92 | A word is a type's name if and only if it is one of the aliases listed for that type. |
| TableReading.DescriptionRead | src/address_table.cpp:38-59 | A quoted description is what its pieces mean, a piece being a character or one behind a backslash; the last quote closes it, wherever it stands, or is missing. |
| TableReading.CommentsSkipped | src/address_table.cpp:243-249 | Blank lines and those whose first character is a number sign hold nothing. |
| TableReading.PlainLineRead | src/address_table.cpp:251-292 | Any line of three words and a tail, with any gaps, is the entry of its number, type, flag and description if these three can be read, and else nothing. |
| TableReading.ShortLineRead | src/address_table.cpp:261-263 | A line of fewer words is nothing. |
| TableReading.PointerLineRead | src/address_table.cpp:150-231 | Any pointer line of key=value words, with any gaps and in any order, is an entry if and only if every known key's value can be read and type and root are there; the entry is what they say: the last of each key, all steps joined, unknown keys ignored. |
| TableReading.NoEquals | src/address_table.cpp:171-173 | A word without an equals sign makes the line nothing. |
| TableReading.EmptyStep | src/address_table.cpp:189-205 | An empty offset in the list does too; a comma at its end does not. |
| TableReading.ExampleRead | src/address_table.cpp:15-19 | The example line of the format's own description, word by word, is the I32 entry it shows. |
| TableReading.DineroSaved | src/address_table.cpp:111-119 | That entry as saved, letter by letter. |
| TableReading.VidaSaved | src/address_table.cpp:120-138 | A pointer entry as saved, letter by letter. |
| TableRoundTrip.QuoteRoundTrip | src/address_table.cpp:20-59 | unquote_desc(quote_desc(s)) is s for every string. |
| TableRoundTrip.TypeRoundTrip | src/types.h:55-92 | Every fixed-width type's name is read back as that type; string and bytes are not read at all. |
| TableRoundTrip.StepsRoundTrip | src/address_table.cpp:189-205 | A written offset list is read back. |
| TableFiles.LineExactly | src/address_table.cpp:111-138 | Of all entries exactly those have a line that is read back as the entry, stale reset, which have no NUL in their description and no white space or NUL in a module name, are as add builds them, and have a fixed-width type, not a pointer at the end of a chain. |
| TableRestored.SaveThenLoad | src/address_table.cpp:105-298 | Save then load reads each entry's line for itself, whatever the entries hold; entries as above whose lines fit the buffer come back in order when their type is kept and are skipped when it is not. |
| TableRestored.RestoredExactly | src/address_table.cpp:105-298 | Of all tables exactly those come back whole, only stale reset, in which every entry is one of those that LineExactly names and survives the 4096-byte buffer. |
| TableRestored.PlainTableExactly | src/address_table.cpp:105-298 | Of the tables of absolute entries exactly those in which every entry has a fixed-width type, no NUL in its description and a line that fits by LineRestored. |
| TableRestored.LineSurvives | src/address_table.cpp:239-243 | Any line gives back its entry and nothing else if and only if it survives: as LineRestored says, or, when the fields alone take 4095 characters or more, if there is no description and what the first 4095 leave out is spare. |
| TableFronts.FrontCut | src/address_table.cpp:150-231 | What the first n characters, 64 or more, of a pointer entry's fields are read as: the entry, less its description, if and only if the rest is at most a blank, or the entry is enabled and the rest is the flag, or that and the x0 of a last offset 0, or that and an empty list of offsets, or both and the x0 of a root value 0; and whatever else they are read as has the same property itself. |
| TablePieces.LaterEntries | src/address_table.cpp:239-243 | The pieces after the first give no pointer entry that has a description, and none at all when the line has none. |
| TableRestored.LongDescriptionLost | src/address_table.cpp:239-243 | One absolute entry described by n times the letter a comes back if and only if n is at most 4067. |
| TableFiles.LineRestored | src/address_table.cpp:239-243 | With fewer than 4095 characters before the description a line survives the buffer if and only if it has at most 4096 characters, or one more and a description that does not end in a quote, blank, tab or carriage return, or two more and one that ends in a backslash. |
| TableFiles.EscapedCut | src/address_table.cpp:20-59 | Of an escaped description cut anywhere only the whole is read back right, or all but the second half of a last backslash. |
| TableFiles.FileLoaded | src/address_table.cpp:233-298 | Whatever the file, every loaded entry is well-formed: fixed-width type, no pointer at the end of a chain, address as add would set it, no NUL or white space in a module name, not stale. |
| TableRestored.LoadSaveLoad | src/address_table.cpp:105-298 | Saving what any file gave and loading it again changes nothing if and only if its lines survive the buffer. |
| AddressTable.QuoteDesc | src/address_table.cpp:20-35 | The loop writes the specified quotation. |
| AddressTable.UnquoteDesc | src/address_table.cpp:38-59 | The index loop with its trailing-quote and lone-backslash cases reads it. |
| AddressTable.ReadSteps | src/address_table.cpp:189-205 | The comma loop agrees with the specified list, including empty parts and a trailing comma. |
| AddressTable.ParsePointerLine | src/address_table.cpp:150-231 | The key loop agrees with the specified parse: unknown keys ignored, last key wins, steps accumulate, type and root required. |
| AddressTable.Table.Save | src/address_table.cpp:105-145 | The file's text is the header and every entry's line. |
| AddressTable.Table.Load | src/address_table.cpp:233-298 | The table becomes what the file holds; an unreadable file leaves it alone; every entry stays as add would build it. |
| AddressTable.Table.Add | src/address_table.cpp:63-71 | One enabled, fresh entry at the end. |
| AddressTable.Table.AddPointer | src/address_table.cpp:73-83 | One entry at the end whose type is the chain's and whose address is that of an absolute root only. |
| AddressTable.Table.Remove | src/address_table.cpp:85-89 | Exactly the entry at the index goes, if there is one. |
| AddressTable.Table.MarkAllStale | src/address_table.cpp:101-103 | Every entry becomes stale and nothing else changes. |
| Jobs.TransitionsForward | src/web/jobs.cpp:97-146 | Each transition goes forward in the life of a job or changes nothing, finished states never change, and forward is a partial order. |
| Jobs.Job.Complete | src/web/jobs.cpp:124-129 | Only from RUNNING; the count is stored only then. |
| Jobs.Job.Fail | src/web/jobs.cpp:131-139 | From either active state; the error is stored only then. |
| Jobs.Job.Cancel | src/web/jobs.cpp:141-146 | From either active state, with the flag. |
| Jobs.JobRegistry.Create | src/web/jobs.cpp:159-169 | 0 just when some job is active; otherwise a new QUEUED job under an id never used. |
| Jobs.JobRegistry.RequestCancel | src/web/jobs.cpp:192-208 | QUEUED becomes CANCELLED, RUNNING only gets the flag, a finished job nothing at all. |
| Jobs.JobRegistry.ClearFinished | src/web/jobs.cpp:220-230 | Exactly the finished jobs go. |
| Jobs.JobRegistry.ActiveJobId | src/web/jobs.cpp:232-239 | An active job's id, or 0 just when there is none. |
| JobRunner.InvKept | src/web/job_runner.cpp:7-96 | Every step of run, worker, request_cancel, shutdown and the registry, in any state, keeps the whole invariant: who holds each mutex, who owns the slot, how far each job can be, one active job, owed flags, shutdown's messages. |
| JobRunner.StepShape | src/web/job_runner.cpp:7-96 | Each step moves one thread, takes a mutex only when free, gives up only its own, and changes at most its own job forward. |
| RunnerSafety.Always | src/web/job_runner.cpp:7-96 | The invariant holds in every state of every run. |
| RunnerSafety.OneTask | src/web/job_runner.cpp:45-79 | At most one worker is unfinished, nothing else is in the session while a task executes, and no job is run twice. |
| RunnerSafety.FreeMeansQuiet | src/web/job_runner.cpp:93-96 | A free slot means no job is RUNNING and every worker is done. |
| RunnerSafety.FreedMeansFinished | src/web/job_runner.cpp:81-96 | From finish_slot on the job of a worker that found it is finished, even if it was removed meanwhile; a worker that found none had its job removed before, and never started it. Which final state it is, RunnerResults says. |
| RunnerSafety.JoinNeverWaits | src/web/job_runner.cpp:10-13 | The join under the runner mutex never waits for a thread that still needs a lock: its worker has given the runner mutex back (the thread itself may still be returning). |
| RunnerSafety.OneActiveJob | src/web/jobs.cpp:159-169 | At most one registered job is QUEUED or RUNNING, under every interleaving. |
| RunnerSafety.CancelledIsFlagged | src/web/jobs.cpp:141-146 | A CANCELLED job carries the flag, or the thread that cancelled it is one enabled step away from storing it. |
| RunnerSafety.JobsForward | src/web/jobs.cpp:97-146 | Over any stretch of any run a job only moves forward, a finished one never changes, a flag stays set, a removed id never comes back. |
| RunnerSafety.OnlyLateCancel | src/web/jobs.cpp:195-202 | While its worker has it in hand a job leaves RUNNING early if and only if a cancel that saw it QUEUED makes its exchange then. |
| RunnerSafety.OnlyLateFlag | src/web/jobs.cpp:203-206 | A finished job's flag changes if and only if a cancel that saw it RUNNING stores it. |
| RunnerSafety.ShutdownTells | src/web/job_runner.cpp:32-43 | Of the worker that shutdown joins: it is done, its job is over or its flag is raised, unless it was launched after the first section, or it is the last one launched before and its job was out of the registry when that section looked. |
| RunnerSafety.ShutdownWaits | src/web/job_runner.h:72-74 | When shutdown returns, every worker launched before it left its first section is done, or another shutdown is joining it. |
| RunnerSafety.LoneShutdownWaits | src/web/job_runner.h:72-74 | So where no other shutdown is joining, all of them are done. |
| RunnerSafety.LaunchIsFree | src/web/job_runner.cpp:7-18 | Where run stores its new thread none is stored, so a running one is never overwritten, and the step can be taken. |
| RunnerSafety.AnswersTrue | src/web/jobs.cpp:232-239 | The registry's active_job_id, which loads one state after the other, gives an id only of a job that is active then, and 0 only when none is. |
| RunnerSafety.ClearsFinished | src/web/jobs.cpp:220-230 | clear_finished removes a job if and only if it looks at it and finds it finished then. |
| RunnerSafety.CreateRefuses | src/web/jobs.cpp:159-169 | create refuses if and only if it looks at an active job, and makes its QUEUED job, under a new id, only when none of the registered ones is active. |
| RunnerSafety.RunRefusesExactly | src/web/job_runner.cpp:7-20 | run refuses if and only if some worker is not done, or else the job is not registered or no longer QUEUED as it looks; otherwise it starts one worker for the job while all others are done. |
| RunnerSafety.MissedMeansRemoved | src/web/job_runner.cpp:32-36 | The first section misses the active worker if and only if its job is not in the registry then. |
| RunnerSafety.NoDeadlock | src/web/job_runner.cpp:7-96 | From every thread inside an operation a chain of waiting (for the holder of a mutex or a joined worker), of at most four threads, ends in one that can take a step: no thread is stuck. |
| RunnerSafety.WaitsExactly | src/web/job_runner.cpp:7-96 | A thread inside an operation waits for another, in that sense, if and only if it has no step of its own to take. |
| RunnerRaces.CancelledWhileExecuting | src/web/jobs.cpp:195-202 | The late cancel really happens: a reachable state has a CANCELLED job whose task is executing. |
| RunnerRaces.FlagOnCompleted | src/web/jobs.cpp:198-201 | Against the comment there, a reachable state has a COMPLETED job with its cancel flag set. |
| RunnerRaces.ShutdownMissesWorker | src/web/job_runner.h:72-74 | A reachable state has shutdown joining a worker, launched between its two sections, whose job nobody has asked to stop. |
| RunnerRaces.ShutdownMissesRemoved | src/web/job_runner.h:72-74 | A reachable state has shutdown joining a worker in the middle of its task, whose job was removed while running: it is RUNNING, its flag is down, and no other call interfered. |
| RunnerRaces.ShutdownReturnsEarly | src/web/job_runner.h:72-74 | The wait fails for two calls at a time: a reachable state from which a second shutdown returns while the worker, which the first is joining, executes its task. |
| RunnerResults.LearntDecides | src/web/job_runner.cpp:57-91 | Over every run, at every moment after a worker's task returned, or its test saw the flag: the job is CANCELLED if a request_cancel made its exchange; else it is RUNNING until the worker's last exchange and then COMPLETED after success, FAILED after an error, CANCELLED after a cancelled task. |
| RunnerResults.CancelledNeverFinishes | src/web/job_runner.cpp:79-84 | The job of a cancelled task is never COMPLETED or FAILED, at any later moment of any run. |
| RunnerResults.TestDecides | src/web/job_runner.cpp:61-66 | A worker that sees the flag up at its test never executes, and one that sees it down executes next. |
| RunnerResults.EndsExactly | src/web/job_runner.cpp:57-91 | A job is COMPLETED, or FAILED, if and only if its worker ended with success, or an error, and no request_cancel made its exchange; CANCELLED if and only if one did or its task was cancelled. |
| RunnerResults.ResultSpec | src/web/job_runner.cpp:61-77 | What a worker knows of its task at a moment is what some step before told it, and it is told once. |
| RunnerResults.CancelReturns | src/web/jobs.cpp:192-208 | When a request_cancel is over its job carries the flag or is no longer active. |

## Left out

- Process access: ptrace, `/proc` parsing, pread and pwrite are replaced by the memory map and the read function.
- The sockets, routing, REST handlers, command line and browser UI, and the thin layers `src/application.cpp` and `src/session.cpp`.
- Doubles: `%.17g` and strtod are not modelled; a JSON double is its text and whether it is finite is a parameter of the
  parser, so the JSON round trip is stated for values without doubles. Float comparison works on the IEEE bits.
- The accessors of a JSON value (`get`, where the last of equal keys wins, `as_int` and the like).
- Clocks, elapsed times, `progress_percent`, error message texts (errors are a constructor each) and memory-order details of
  atomics: steps are sequentially consistent.
- parse_pattern's text syntax and text-to-value parsing: only the patterns and values themselves are modelled.
- Progress callbacks of the Next scans and the final 100% callback of the first scans.
- The mixing function of the hash set: it is a parameter, any function at all.
- Addresses so near 2^64 that the traversal position itself would wrap.
- PointerScan.SelectSources: does the selection and the clipping in one pass over the regions; the source makes two lists.
- PointerScan.PointerScan: requires disjoint regions and an offset window below 2^63 (the application allows at most
  0x10000); for a larger one the source's offset loop need not end.
- RunnerSafety.ShutdownTells: for the two kinds of workers it names nothing is promised, because nothing holds
  (`RunnerRaces.ShutdownMissesWorker`, `RunnerRaces.ShutdownMissesRemoved`).
- RunnerSafety.NoDeadlock: that every task returns and that the scheduler is fair is not stated.
- JobRunner.InvKept: the retry loop of the active-to-terminal exchange is one step, taken where it succeeds or finds a
  finished job; start, complete and fail called on the registry by anyone but the worker, and failing thread creation, are not steps, nor are
  pure loads of one field (`is_cancel_requested` and the like).
- PointerExamples.MoreThanMaxChains: is about scans with `max_edges` above `max_chains`, and a `max_chains` below 2^61 - 3, so that
  the heap fits the address space. A smaller edge limit can end the search first; whether the total then exceeds `max_chains`
  depends on depth and window.
- AddressTable.Table.Save: a file that cannot be written is not modelled, nor are direct changes through `AddressTable::get`
  other than those of the listed methods.
- ScanCancel.NumericSurvivesAnyCancel: is about lists in address order with maximal reads; a list out of order is sorted even when
  the scan is then cancelled.
