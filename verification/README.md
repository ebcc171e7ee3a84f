# Verification of the heap-reachability engine

A Dafny model of everything between the bytes of a Go heap dump and the numbers
and witness paths the tool reports, with proofs. `dafny verify dfyconfig.toml`
checks all of it.

Each layer of the engine is a fast, stateful form of a simple mathematical
object. The model keeps the form: methods with loops, arrays and classes where
the program updates state, functions where it computes; and ties it to the
object by contracts. The layers compose:

- **Bytes to snapshot.** `Varint`, `Wire`, `Records`: the record format, decoded by
  position and encoded back. `DumpReader`, `DumpParser`: the streaming reader and
  the record parser as classes. `Dump`, `DumpFacts`, `DumpLists`, `DumpCounts`,
  `Pointers`: what records mean and what holds of every accepted dump. `DumpItems`,
  `ParsedItems`, `DumpAcceptance`: the records byte by byte, what each becomes, and
  which dumps are accepted. `Contents`, `LazyContents`: object bytes kept against
  object bytes fetched from the file.
- **Snapshot to graph.** `ObjectIndex`, `Resolution`, `Edges`, `GraphRoots`,
  `RootOrigins`, `Build`, `Parity`, `WholeProcess`.
- **Graph to answers.** `Graphs` (plain reachability), `Search` (the one breadth-first
  search two components share), `Reachability`, `FindPath`, `ExportForest`,
  `Samples`, `ExportPaths`, `Summaries`, `Analyses`, `Holdings` (what goroutines hold),
  `Bubbles`, `Top`, `TopRows`, `TopTable`,
  `Agreement`, `SharedIDs`, `RowOrder`, `Explain`, `Distribution`.
- **Queries.** `Compute` (uncached answer, failures), `Session` (index, caches, whole
  runs), `Recovery` (label decoding seen from queries), `Pipeline` (from the bytes of
  a dump to the answer).
- **Memory and labels.** `AddressSpace`, `LabelMaps`, `Segments`, `Bundle`, and the
  capture protocol `CaptureGate`.
- `Words`, `Endian`, `Order`, `Firsts`, `Picks`, `Wrappers`, `Heap`: 64-bit arithmetic,
  byte orders, sorting and searching, first occurrences, filtered lists, results,
  snapshot types.

Conventions. 64-bit words are integers below 2^64 with wrap-around written out.
Iteration over a Go map or set picks an arbitrary element each time, so every
result holds in any order. Object IDs are natural numbers; the ID space is the
parameter `m` of `Build` and `Edges`, 2^32 in the program. Memory readers are
functions from (address, size) to optional bytes that keep the contract
`AddressSpace.IsReader`. `sort.Slice` is any sort by key, written as insertion;
`sort.Search` is the binary search `Order.SearchAbove`. Record layouts are a table
(`Records.Layout`) in place of one reading routine per record, and reading and
applying a record are two steps. Label texts are byte sequences in `LabelMaps` and
strings with one character per byte in `Analyses`; `Recovery` converts.

## Findings

- The comment at `internal/snapshotgraph/build.go:164-166` says that at exactly
  2^32 objects the last object keeps duplicate edges. The code does the opposite:
  its stamp is zero, so the test at line 202 drops edges to targets no earlier
  object has stamped. `Edges.FullTableLosesAnEdge` exhibits it for every modulus,
  `Edges.LastEpoch` says which edges survive, and `Edges.StampsSufficeIffDistinct`
  gives the exact condition.
- The paths export can fail with its selection mismatch error, although a valid
  request is made on an analysis `Build` returns: goroutine IDs may repeat, and roots
  are collected by ID. `ExportPaths.MismatchExample` is an input, and
  `SharedIDs.ShadowExampleIsBuilt` the heap it comes from (`SharedIDs.TwinSnapshotExists`).
  `ExportPaths.MismatchFiresIff` is the exact condition on a request and
  `ExportPaths.SomeMismatchIff` the one on an analysis and the options. The other
  mismatch error, that the forest does not cover the selection, never occurs.
- For the same reason a row of the group table can differ from `Exclusive` on the
  same label (`Agreement.DisagreementExample`, `SharedIDs.SharedExampleIsBuilt`).
  `Agreement.AgreeIff` is the exact condition for one group and
  `Agreement.AlwaysAgreeIff` the one on an analysis and the options; distinct IDs
  imply both.
- Contents kept in memory and contents fetched from the file can be read differently
  when two objects of a dump share an address (`Contents.SharedAddressExample`): the
  one keeps the longest, the other whichever the sort put last.
  `Contents.AgreeIffAlike` is the exact condition.

## Model

| member | source | states |
|---|---|---|
| `Graphs.ReachIsLeastClosure` | internal/snapshotgraph/reachability.go:7-39 | Plain reachability (`Graphs.Reach`: some path of child edges from a valid root) holds the valid roots, is closed under valid children, and is contained in every set that is both. |
| `Graphs.ReachOfUnion` | internal/memusage/compute.go:24-44 | One walk over the roots of several goroutines reaches exactly the union of what each reaches alone. |
| `Search.BfsIsSearch` | internal/snapshotgraph/path.go:19-100 | The breadth-first search shared by `FindPath` and the export forest records exactly the reachable objects, and every predecessor chain is a shortest path from the root it names. |
| `Reachability.ReachableFrom` | internal/snapshotgraph/reachability.go:7-39 | The set loop returns exactly the reachable objects, with cycles and invalid IDs in roots or children. |
| `Reachability.Walk` | internal/memusage/multibubble.go:135-163 | The session's own walk, with its `add` closure, returns the same set. |
| `FindPath.Find` | internal/snapshotgraph/path.go:19-100 | Under any visit budget: found iff the target is within the first `maxVisited` objects of the unlimited search; a found witness is a shortest path from `roots[RootIndex]`, without repetition, with the first retained slot of each transition; `SearchLimited` iff not found, valid and the budget is below the reachable count. |
| `FindPath.Reconstruct` | internal/snapshotgraph/path.go:60-73 | Following parents from the target and reversing the list in place yields the recorded path in root-to-target order. |
| `FindPath.UnlimitedMeansReachable` | internal/snapshotgraph/path.go:15-18 | With no budget, "found" is exactly reachability. |
| `FindPath.NotLimitedMeansAbsent` | internal/snapshotgraph/path.go:7-18 | "Not found" without `SearchLimited` proves that the target is unreachable. |
| `ExportForest.BuildExportForest` | internal/memusage/export_paths.go:223-276 | The array filled in place holds, for every object, the record of the finished search: parent, root, depth, edge slot and prefix anchor. |
| `ExportForest.ForestMarksReach` | internal/memusage/export_paths.go:215-276 | An object has non-zero depth iff it is reachable from the roots; all other records stay empty. |
| `ExportForest.ForestMeans` | internal/memusage/export_paths.go:210-276 | For a reachable object: depth is the length of a shortest root path, `root` names its first object, `parent` and `reference` its last transition, and `prefixEnd` is the path's object at depth min(depth, max(prefixDepth, 1)). |
| `ExportForest.ExportPathSegments` | internal/memusage/export_paths.go:278-304 | Prefix, omitted count and suffix abbreviate the real path: nothing is cut while it fits, otherwise the two ends hold exactly `maxDepth` objects; the middle is never visited. |
| `ExportForest.Collect` | internal/memusage/export_paths.go:284-297 | Filling an array backwards along the parents gives the last n objects of the path in order. |
| `ExportForest.AbbreviationIsContiguous` | internal/memusage/export_paths.go:278-304 | The path is prefix, one contiguous omitted run, and suffix; for `maxDepth` of at least 2 both ends of the path survive. |
| `ExportForest.ForestAgreesWithFindPath` | internal/memusage/export_paths.go:223-304 | The forest and `FindPath`, with different bookkeeping, give the same path from the same root for every object. |
| `ExportPaths.ExportPathsMode` | internal/memusage/export_paths.go:53-190 | After the guards it succeeds iff the goroutines with selected IDs reach nothing beyond the selection, else names the first such object; on success there is one sample per reachable object in ID order, each a shortest path with the ID of a selected goroutine that holds its root, and the six columns add up to the reachable, exclusive and shared totals. "Does not cover" never occurs. |
| `ExportPaths.MismatchFiresIff` | internal/memusage/export_paths.go:70-121 | For one request the mismatch error is returned iff the guards pass and some unmatchable goroutine carries a selected ID and has a valid root outside the selection. |
| `ExportPaths.SomeMismatchIff` | internal/memusage/export_paths.go:70-121 | Some labels and request meet the mismatch error iff the depth limit is valid and some unmatchable goroutine shares its ID with matchable ones, holds something they do not, and what they hold passes the byte guards; a condition on the analysis and options alone. |
| `ExportPaths.MismatchExample` | internal/memusage/export_paths.go:70-121 | Two goroutines with one ID, one of them of the runtime, and a valid request that passes the guards and meets the mismatch error. |
| `SharedIDs.ShadowExampleIsBuilt` | internal/snapshotgraph/build.go:36-404 | That analysis is what `Build` makes of any heap with two such goroutine records and two eight-byte objects. |
| `ExportPaths.NoMismatch` | internal/memusage/export_paths.go:53-190 | With unambiguous goroutine IDs the error is returned for no request and no depth limit. |
| `Summaries.ExportSummaryMode` | internal/memusage/export.go:36-67 | Summary mode fails exactly when the guards of paths mode do, and its at most two samples have the same six column sums. |
| `Summaries.ColumnsConsistent` | internal/memusage/export.go:36-67 | The six columns are objects and bytes of the reachable, the exclusive and the shared objects; behind the guards exclusive plus shared is reachable, within int64. |
| `Summaries.Summarize` | internal/memusage/summary.go:16-54 | The six measures, the size distribution of the selection, and exact counts of the roots, root categories and stack functions of the goroutines with selected IDs; fails iff the request is invalid or the selected bytes exceed 64 bits. |
| `Samples.ExportRoots` | internal/memusage/export_paths.go:70-88 | The collected roots are those of all goroutines with selected IDs, ordered by goroutine ID, each with the ID of a goroutine that holds it. |
| `Analyses.MeasureSet` | internal/memusage/multibubble.go:165-176 | In any iteration order: the exact object and byte count, or an error iff the total exceeds 64 bits. |
| `Bubbles.Inspect` | internal/memusage/objects.go:55-90 | A valid request yields the IDs of the matching goroutines, what those hold, and what is reached from globals, from runtime goroutines and from other goroutines that carry none of these IDs; otherwise an invalid-request error. |
| `Bubbles.Exclusive` | internal/memusage/multibubble.go:300-351 | The six measures, each the exact objects and bytes of what its name says; fails iff the reachable bytes overflow. |
| `Bubbles.Compare` | internal/memusage/multibubble.go:210-258 | Goroutine counts, common IDs and the exact measures of first-only, second-only, shared and union, or the exact error. |
| `Bubbles.ComparisonPartitions` | internal/memusage/multibubble.go:57-67 | Union is A-only plus B-only plus shared, in objects and bytes. |
| `Top.GroupGoroutines` | internal/memusage/multibubble.go:371-392 | Every goroutine lands in its group, among the ungrouped or among the excluded, with root sets and counts per label value. |
| `Top.CountMemberships` | internal/memusage/multibubble.go:406-415 | In any map order the counter of an object is the number of groups that reach it. |
| `Top.TallyDecides` | internal/memusage/multibubble.go:422-435 | A counter above one means exactly that another group's goroutines reach the object. |
| `TopTable.TopGroups` | internal/memusage/multibubble.go:353-470 | One row for every label value some goroutine has, each of its numbers in terms of what the goroutines with this value, with another, without the label and of the runtime hold; ordered by the chosen measure, ties by value, and cut to the limit; an invalid request is refused, and otherwise it fails, with byte overflow, iff some group's bytes overflow. |
| `TopRows.RowMeans` | internal/memusage/multibubble.go:416-447 | The eleven measures and the goroutine count of a row, goroutine by goroutine; a value has a row iff some goroutine that takes part has it. |
| `TopTable.RowPartitions` | internal/memusage/multibubble.go:416-447 | Exclusive, bubbles-only, other-roots-only and both partition the group's reach in objects and bytes; shared and the overlaps are the sums their names say. |
| `TopTable.ExclusiveSetsDisjoint` | internal/memusage/multibubble.go:421-435 | What one group holds exclusively is not reached by any other group. |
| `Agreement.AgreeIff` | internal/memusage/multibubble.go:300-470 | For one group: the row's reachable, exclusive, shared and global overlap equal those of `Exclusive` on the selector {by: value} iff whatever the group shares with the unmatchable goroutines of its IDs counts as outside anyway. |
| `Agreement.AlwaysAgreeIff` | internal/memusage/multibubble.go:300-470 | For all labels, keys and values: they agree iff what matchable goroutines share with unmatchable ones of their IDs is also reached from globals or from goroutines with other IDs; a condition on the analysis and options alone. |
| `Agreement.TopAgreesWithExclusive` | internal/memusage/multibubble.go:300-351 | With unambiguous goroutine IDs they always agree. |
| `Agreement.DisagreementExample` | internal/memusage/multibubble.go:300-470 | One object held by two goroutines of one ID, one of them of the runtime: the row and `Exclusive` differ. |
| `SharedIDs.SharedExampleIsBuilt` | internal/snapshotgraph/build.go:36-404 | That analysis is what `Build` makes of any heap with two such goroutine records and one eight-byte object. |
| `RowOrder.SortRows` | internal/memusage/multibubble.go:449-465 | The same rows, by descending bytes of the reachable, exclusive or shared measure as asked, then by value. |
| `RowOrder.LessMeans` | internal/memusage/multibubble.go:459-465 | The order of values is that of the first character that differs, a proper prefix first. |
| `Compute.EligibleFailures` | internal/memusage/compute.go:125-167 | With goroutine IDs the two counts are the sizes of the failed and missing ID sets that are eligible or unknown, in any map order; without IDs the raw counts. |
| `Compute.IntersectCountBytes` | internal/memusage/compute.go:63-87 | Count and wrapping byte sum of the intersection, whichever set is walked; IDs of no object count without bytes. |
| `Compute.ComputeFromAnalysis` | internal/memusage/compute.go:256-365 | With any candidate set that loses no match and any correctly filled cache: an invalid request, an unsupported runtime, a missing string and failed labels are reported in this order, and otherwise the number of matching goroutines, and the objects and wrapping bytes they hold, they share with the globals and with the runtime (none when runtime goroutines take part); equal to the uncached, unindexed answer, and the cache stays correct. |
| `Compute.AnswerMeans` | internal/memusage/compute.go:256-365 | The uncached answer, number by number, in terms of which goroutines hold which objects, and the failures that count. |
| `Compute.SuccessIsAuthoritative` | internal/memusage/compute.go:284-365 | Replacing the labels of all failed goroutines by anything leaves a successful answer unchanged. |
| `Compute.NoWrap` | internal/memusage/compute.go:49-87 | When the selection's bytes fit 64 bits the three unchecked sums are the exact ones. |
| `Recovery.DiagnosticsFromHeapLabels` | internal/memusage/compute.go:387-427 | The loop gives the specified diagnostics. |
| `Recovery.DiagnosisMeans` | internal/memusage/compute.go:387-427 | Those are: unsupported iff there are goroutines and every one is, the numbers of results with a missing string and with any failure, and the sets of their IDs, absent when empty. |
| `Recovery.AnswerIsFinal` | internal/memusage/compute.go:284-427 | An answer that succeeds on labels decoded without extra string memory is the same answer with any extra reader, although more labels may then decode. |
| `Session.BuildIndex` | internal/memusage/snapshot.go:80-103 | Index list (k, v) holds exactly the IDs of eligible goroutines with that label. |
| `Session.Candidates` | internal/memusage/snapshot.go:105-138 | In any label order the intersection of index lists keeps every selected goroutine. |
| `Session.Snapshot.Query` | internal/memusage/snapshot.go:105-138 | The cached, indexed query returns that answer, number by number, and changes no later answer. |
| `Session.Snapshot.Close` | internal/memusage/snapshot.go:174-184 | Clears analysis, labels, index and cache; later queries report a closed session. |
| `Session.Snapshot.Exclusive` | internal/memusage/multibubble.go:95-113 | Closed, unsupported and failed sessions are refused first; otherwise the inspection result, exactly. |
| `Session.AskBoth` | internal/memusage/snapshot.go:105-138 | `Query` and `Exclusive`, asked the same, agree on the reachable and global-overlap measures, and on the system overlap when no runtime goroutine carries a selected ID; `Exclusive` succeeds only where `Query` does, and fails besides only by byte overflow. |
| `Session.Snapshot.GoroutineIDs` | internal/memusage/snapshot.go:162-166 | The index lists exactly the IDs of the eligible goroutines with a label. |
| `Session.Run` | internal/memusage/snapshot.go:18-140 | Over every sequence of queries and closings each answer is the one nothing cached or indexed would give. |
| `Explain.Path` | internal/memusage/explain.go:122-174 | "Found" iff the target lies within the budget, with a shortest witness, its owner and slots, cut to `maxSteps`; "not reachable" means the source does not reach it; "search limit" only when the budget is below the reachable count. |
| `Explain.Explain` | internal/memusage/explain.go:176-295 | Negative limits, no selector, an invalid selector and an address in no object are refused in this order. Otherwise the object the address points to or into is classified; every selection is listed with its goroutine count and whether it reaches the object; all sources (selections, global, other system, other goroutines, groups) that reach it are counted; the first `maxPaths` in order are explained and the groups listed up to `maxGroups`, with exact counts and truncation flags; with an unlimited budget every path is found. |
| `Explain.GroupSources` | internal/memusage/objects.go:163-196 | One group source per label value in ascending order with the roots of its goroutines and their owners. |
| `ObjectIndex.RegisterObjects` | internal/snapshotgraph/build.go:53-130 | Succeeds iff no object is refused (ID space, strict duplicates, strict overflow), else reports the first refusal; yields one graph object each, an address map and one range per eligible object. |
| `ObjectIndex.ScanOverlaps` | internal/snapshotgraph/build.go:132-151 | The one-pass scan that remembers only the range ending last fails in strict mode iff two ranges intersect, and else counts the ranges that collide with an earlier one. |
| `ObjectIndex.NoCollisions` | internal/snapshotgraph/build.go:136-151 | The scan warns about nothing iff all ranges are pairwise disjoint. |
| `Resolution.FindObjectContaining` | internal/snapshotgraph/graph.go:69-94 | Binary search and bounds test equal the lookup that tries the exact address, then the last range starting at or below the pointer. |
| `Resolution.ResolveMeans` | internal/snapshotgraph/graph.go:69-94 | What a lookup answers, in terms of the objects alone, for any input including overlapping ranges. |
| `Resolution.StrictResolve` | internal/snapshotgraph/graph.go:69-94 | For inputs strict mode accepts, every pointer resolves to the object at its exact address or else to the object whose range contains it. |
| `Resolution.OwnerIsUnique` | internal/snapshotgraph/graph.go:69-94 | ... and that object is unique. |
| `Edges.ResolveEdges` | internal/snapshotgraph/build.go:153-208 | The loop over one stamp array, for any modulus, gives children, retained slots and pointer counters as specified. |
| `Edges.StampsSufficeIffDistinct` | internal/snapshotgraph/build.go:164-208 | Every object gets its distinct resolved targets in first-occurrence order iff fewer objects than stamps, or the last object's targets were all stamped before; so the bound 2^32 is tight. |
| `Edges.LastEpoch` | internal/snapshotgraph/build.go:164-208 | At exactly the modulus the last object keeps precisely the targets that an earlier object has stamped. |
| `Edges.FullTableLosesAnEdge` | internal/snapshotgraph/build.go:164-208 | For every modulus, a heap whose last object loses its only edge. |
| `Edges.SlotsMatchTargets` | internal/snapshotgraph/graph.go:33-41 | Retained slots are parallel to the resolved pointers, one each, duplicates included. |
| `Build.Build` | internal/snapshotgraph/build.go:36-404 | Succeeds iff the objects are registrable, strictly disjoint when asked, and their bytes fit 64 bits; then graph, statistics, goroutine and global roots are as specified. A failure is the refusal of the first refused object, else the lowest overlap, else the byte total. |
| `Build.StrictChecks` | internal/snapshotgraph/build.go:53-151 | Given distinct addresses and no overflow, disjoint range tables are exactly well-formed heaps. |
| `Build.ChildrenAreDistinctTargets` | internal/snapshotgraph/build.go:153-208 | The same statement for the graph `Build` returns. |
| `Build.StatsBalance` | internal/snapshotgraph/graph.go:149-161 | Raw counts every pointer slot and is zero + resolved + unresolved; edges do not exceed resolved. |
| `Build.EdgesHaveSlots` | internal/snapshotgraph/build.go:153-208 | The retained slots of an object are one for each pointer that resolves, in order, with target, pointer and offset, the offset known iff recorded and inside the object; every edge has a slot, and every slot an edge when stamps suffice. |
| `Build.MeasuresNeverOverflow` | internal/snapshotgraph/build.go:387-398 | After a successful build no subset of objects has a byte total above 64 bits. |
| `Build.ParsedGlobals` | internal/snapshotgraph/build.go:300-352 | When every segment pointer is among the parsed globals, data and bss add no root and no unresolved count. |
| `Parity.BuildIgnoresContents` | internal/memusage/lazy_parity_test.go:18-104 | A snapshot stripped of its contents builds to exactly the same analysis, with the same statistics. |
| `GraphRoots.GoroutineRoots` | internal/snapshotgraph/build.go:217-297 | The nested loops over frames, pointers and scheduler words give the specified roots and unresolved count. |
| `RootOrigins.BuiltGoroutines` | internal/snapshotgraph/build.go:217-297 | Of every build: goroutine i keeps ID and flags, and its roots are, in order and without omission, one for each frame pointer that is not null and resolves, with pointer, slot and function name, then one for each of context, defer and panic words that does; the frame pointers that resolve to nothing are counted. |
| `RootOrigins.RootIff` | internal/snapshotgraph/build.go:217-297 | A root is listed for a goroutine iff it comes from one of its frame slots or scheduler words in that way. |
| `RootOrigins.BuiltGlobals` | internal/snapshotgraph/build.go:300-352 | Of every build: the global roots are the distinct resolvable ones of the parsed globals and segments, then those of the finalizers and of the queued finalizers in order; the unresolved finalizer words are counted. |
| `GraphRoots.FoundMeans` | internal/snapshotgraph/build.go:304-332 | The roots found are exactly the resolvable non-zero candidates. |
| `GraphRoots.SecondPassAddsNothing` | internal/snapshotgraph/build.go:300-352 | The deduplication key matches on both routes: candidates listed by the parser absorb those of the segments. |
| `WholeProcess.CountOwners` | internal/snapshotgraph/build.go:432-441 | Each object is counted once per goroutine that reaches it. |
| `WholeProcess.Process.ComputeReachability` | internal/snapshotgraph/build.go:406-458 | Fills per-goroutine and global reach and the four exact counts; a second call changes nothing. |
| `WholeProcess.ReachedAreObjects` | internal/snapshotgraph/build.go:442-458 | Reached objects never outnumber objects, so the clamp of the unreachable count is never taken. |
| `Pipeline.LoadSnapshot` | internal/memusage/snapshot.go:44-78 | For every byte sequence and any memory at hand: parse failure, unknown layout, too many objects or too many bytes, in this order; otherwise a session on the analysis of the whole snapshot, although contents were never kept, with the labels and diagnostics recovered through the resolver. The second global pass is redundant, and every measure and size distribution on the session fits. |
| `Pipeline.AnalyzeDump` | internal/memusage/analyze.go:36-69 | From bytes to response: an invalid request is refused before anything is read; otherwise the load error, or the uncached answer on the eagerly parsed snapshot. |
| `Pipeline.LazyLabelsAreEager` | internal/memusage/lazy_parity_test.go:18-70 | Labels decoded through the lazy resolver are those decoded from kept contents. |
| `Pipeline.RecoveryMeans` | internal/memusage/analyze.go:71-113 | Labels and diagnostics of a session: for every goroutine record of the dump the labels its labels word leads to in the dump's memory, string bytes also from the extra memory, spelled out; of an ID the last record with labels counts; without a layout none. |
| `Pipeline.DumpAnswerIsFinal` | internal/memusage/analyze.go:71-113 | A successful answer from the dump alone is the same with any process memory consulted in addition. |
| `Varint.UvarintRoundTrip` | internal/heapdump/reader.go:67-89 | Decoding an encoded 64-bit word (LEB128, section 7.6 of DWARF Version 5) returns it and stops behind it. |
| `DumpReader.Reader.ReadUvarint` | internal/heapdump/reader.go:67-89 | The digit loop agrees with the specification, bounds and overflow included, and advances the offset by what it took. |
| `DumpReader.Reader.ReadPayload` | internal/heapdump/reader.go:163-183 | Chunked reading yields the whole payload or the same failure, whatever the chunk size. |
| `Wire.ValuesRoundTrip` | internal/heapdump/reader.go:91-202 | Any fields within the limits read back as written, blocks with their file offsets. |
| `Records.RecordsRoundTrip` | internal/heapdump/parser.go:163-267 | Any well-formed record list reads back record by record, whatever follows it. |
| `Dump.ParseIsRun` | internal/heapdump/parser.go:163-267 | Parsing is decoding the records and applying them in order. |
| `Dump.DumpRoundTrip` | internal/heapdump/parser.go:84-267 | Parsing the encoding of any well-formed record list yields exactly what the records mean, snapshot or error, and stops before the trailing bytes. |
| `Dump.PrefixRejected` | internal/heapdump/parser.go:84-267 | No proper prefix of the bytes consumed by an accepted dump is accepted, strict or not. |
| `DumpFacts.ParsedFacts` | internal/heapdump/parser.go:362-800 | For every accepted dump each counter equals the length of its list, pointer and byte counters the sums over the lists, and every segment pointer is listed among the globals. |
| `DumpCounts.ParsedCounts` | internal/heapdump/parser.go:354-875 | For every accepted dump the counter of each record kind is the number of such records; parameters and memory statistics have none, and a frame counts iff it belongs to a goroutine. |
| `DumpFacts.OwnerMeans` | internal/heapdump/parser.go:163-267 | A record belongs to goroutine j iff its start record is followed only by frame, defer and panic records. |
| `DumpFacts.ParsedFrames` | internal/heapdump/parser.go:647-800 | For every accepted dump, encoded by this model or not: the goroutines are its goroutine records in order, each with exactly the frames of its section in order, pointers decoded under the latest parameters. |
| `ParsedItems.GoroutineParsed` | internal/heapdump/parser.go:647-720 | A record written as tag 4, address, stack top, ID, creating PC, status, two flags, wait time, wait reason and four scheduler words becomes the goroutine with exactly these fields, at its place among the goroutines, with as many frames as frame records follow in its section. |
| `ParsedItems.FrameParsed` | internal/heapdump/parser.go:721-800 | A record written as tag 5, its three words, its bytes, three code addresses, name and fields becomes, in a goroutine's section, the next frame of that goroutine, with these fields and the pointers its bytes hold under the latest parameters. |
| `ParsedItems.ObjectParsed` | internal/heapdump/parser.go:362-425 | A record written as tag 1, address, bytes and fields becomes the object at its place with this address, as many bytes, these fields, its contents when kept and the pointers its bytes hold under the latest parameters, none before any. |
| `ParsedItems.SegmentParsed` | internal/heapdump/parser.go:580-645 | The same for tags 12 and 13, data and bss, with slots as addresses. |
| `ParsedItems.FinalizerParsed` | internal/heapdump/parser.go:446-508 | A record written as tag 7, or 11 for a queued one, and five words becomes the finalizer with these words. |
| `ParsedItems.ParamsParsed` | internal/heapdump/parser.go:284-333 | The parameters are the fields of the last record written as tag 6, byte order, width, heap bounds, two texts and CPU count. |
| `ParsedItems.GlobalsParsed` | internal/heapdump/parser.go:427-645 | The global roots are exactly the other-root records and the pointers of data and bss records, with their slots. |
| `DumpItems.OtherRootBytes` | internal/heapdump/parser.go:427-444 | An other-root record is tag 2, a text and a pointer. |
| `DumpItems.GoroutineForm` | internal/heapdump/parser.go:647-720 | Every goroutine record within the limits is written that way; likewise for the other kinds. |
| `DumpItems.PlainEncodes` | internal/heapdump/parser.go:163-267 | Every dump is, byte for byte, one of records whose blocks lie nowhere yet, the form in which the three results around it take them. |
| `DumpAcceptance.AcceptedIff` | internal/heapdump/parser.go:163-425 | The bytes of any dump within the limits are accepted iff every parameters record has a width of 4 or 8 and every object ends in the address space, and in strict mode also parameters precede every object, every frame lies in a section and no field gives a warning. |
| `Pointers.ExtractPointers` | internal/heapdump/pointers.go:31-106 | Field loop and bounded reads equal the specification. |
| `Pointers.ExtractIsFaithful` | internal/heapdump/pointers.go:31-106 | Targets and slots stay parallel, and each recorded target is the word in the contents at its slot. |
| `Pointers.EveryFieldAccounted` | internal/heapdump/pointers.go:31-106 | No field counts twice, and when all fields are readable pointers each yields one target. |
| `Pointers.ExtractMeans` | internal/heapdump/pointers.go:31-106 | In field order, one target for each pointer at its offset, and each interface at the word after it, that lies in the range and is not null, with that place's address where slots are wanted; one warning for each field of another kind, outside the range or with an overflowing slot; and the number of interfaces of each kind. |
| `Endian.EightBytes` | internal/heapdump/pointers.go:108-130 | A word in either byte order, as two groups of four bytes (`Endian.FourBytes` gives those byte by byte). |
| `LazyContents.LazyParseIsEagerParse` | internal/heapdump/parser.go:71-130 | Parsing with a tracker and parsing with kept contents accept the same bytes and differ only in contents versus recorded offsets. |
| `LazyContents.ReadBothWays` | internal/heapdump/contentresolver.go:42-122 | For every dump, keeping contents and fetching them from the file fail to parse alike, and answer every read from an object that starts last at or below the address; they answer alike wherever objects that share an address share their bytes. |
| `Contents.AgreeIffAlike` | internal/heapdump/contentresolver.go:42-122 | Both ways agree on all reads, however equal addresses were sorted, iff objects with bytes at one address have the same visible bytes. |
| `Contents.SharedAddressExample` | internal/heapdump/contentresolver.go:42-122 | Two objects at one address with different bytes, and a read that the two ways may answer differently. |
| `Contents.AnswerIs` | internal/heaplabels/memory.go:83-118 | Then the answer of either is the one reading of the list of objects. |
| `Contents.Memory.Read` | internal/heaplabels/memory.go:83-118 | For any objects, the bytes of a longest object among those that start last at or below the address, if it covers the read. |
| `Contents.ContentResolver.Finalize` | internal/heapdump/contentresolver.go:114-122 | Sorting and indexing the recorded places keeps them and makes the index exact. |
| `Contents.ContentResolver.Read` | internal/heapdump/contentresolver.go:42-100 | For any recorded places, index, binary search and file read with wrapped sums equal the lookup of the exact address, else of the last place below it. |
| `LazyContents.ResolverReads` | internal/heapdump/contentresolver.go:42-100 | After a lazy parse that lookup answers with the bytes of an object that starts last at or below the address, if it covers the read. |
| `Words.AddIsExact` | internal/addrspace/reader.go:103-107 | The flag is set iff the sum fits 64 bits, and then the word is the sum. |
| `Words.MulIsExact` | internal/addrspace/reader.go:109-116 | The same for products, tested by division. |
| `AddressSpace.ReadComposite` | internal/addrspace/composite.go:17-36 | The loop is the first-match reader. |
| `AddressSpace.CompositeIsReader` | internal/addrspace/composite.go:17-36 | Readers that keep the contract compose to one that does, preferring the first. |
| `AddressSpace.CompositeFails` | internal/addrspace/composite.go:17-36 | The composite fails exactly where all its readers fail. |
| `LabelMaps.DecodeLabelMap` | internal/heaplabels/decode.go:157-238 | Overflow-checked decoding equals decoding in exact arithmetic, errors included. |
| `LabelMaps.DecodeLabelsForGoroutine` | internal/heaplabels/decode.go:110-148 | For 4- and 8-byte pointers: no labels iff the word at the goroutine plus the labels offset is 0, decoded with the last-value-wins map iff that word points to a laid-out label list, object missing iff it cannot be read; other widths are unsupported. |
| `LabelMaps.ProductFits` | internal/heaplabels/decode.go:205-218 | After the checked total the unchecked i*size never wraps. |
| `LabelMaps.LaidOutMapDecodes` | internal/heaplabels/decode.go:157-287 | Any label list within the limits laid out in memory, for 4- and 8-byte pointers in either byte order, decodes to its last-value-wins map. |
| `LabelMaps.DecodedMapWasLaidOut` | internal/heaplabels/decode.go:157-287 | Whatever decodes was such a list. |
| `LabelMaps.LastWinsMeans` | internal/heaplabels/decode.go:213-237 | The map has exactly the listed keys, each with the value listed last. |
| `LabelMaps.ExtraMemoryIsHarmless` | internal/heaplabels/decode.go:281-296 | Adding a reader for string bodies changes no goroutine result that was not string_missing. |
| `LabelMaps.DecodeAll` | internal/heaplabels/decode.go:33-71 | Every result reports what memory holds for its goroutine, the labels by ID are those of the last record of the ID that has any, and the totals count the results. |
| `LabelMaps.TotalsMean` | internal/heaplabels/decode.go:33-71 | Each total is the number of results with its statuses. |
| `LabelMaps.SameResults` | internal/heaplabels/decode.go:33-71 | Results depend on what the readers answer alone: readers that answer alike give the same labels and statuses. |
| `LabelMaps.TotalsBalance` | internal/heaplabels/decode.go:33-71 | Every goroutine is counted in exactly one class; missing is part of failed. |
| `CaptureGate.StepKeepsSafe` | internal/capture/gate.go:36-53 | Every atomic step keeps the slot count equal to the occupying calls, the cooldown at the last release, and grants spaced. |
| `CaptureGate.GateProtocol` | internal/capture/gate.go:36-53 | In every interleaving on a capacity-1 gate with a monotone clock, grants and releases alternate, each grant comes at least the cooldown after the previous release, and at most one call occupies the slot. |
| `CaptureGate.BusyMeansFull` | internal/capture/gate.go:40-44 | After every run: an arriving call is refused as busy iff all slots are occupied, and takes a slot otherwise; occupied slots never exceed the capacity. |
| `CaptureGate.CheckDecides` | internal/capture/gate.go:45-52 | After every run: a call that took a slot is granted iff the last release lies at least the cooldown back or there was none, and otherwise denied with exactly the time left until then. |
| `CaptureGate.FreeGateGrants` | internal/capture/gate.go:40-53 | After every run that left a free slot and an elapsed cooldown, the next call is granted. |
| `CaptureGate.FirstIsGranted` | internal/capture/gate.go:40-53 | The first call on a gate of positive capacity is granted, whatever the cooldown. |
| `CaptureGate.RefusedForCooldown` | internal/capture/gate.go:45-51 | Over every run: a call that ends refused with a remaining time was denied for the cooldown at some step, with that time left then. |
| `CaptureGate.MutualExclusion` | internal/capture/gate.go:36-53 | At most one capture is in progress. |
| `CaptureGate.ReleaseOnce` | internal/capture/gate.go:36-53 | In every interleaving on a gate of any capacity, however often release closures are called, each grant ends at most once and nothing ends ungranted. |
| `CaptureGate.NeverBlocks` | internal/capture/gate.go:36-53 | Every receive from the semaphore finds a token. |
| `CaptureGate.WaitingClears` | internal/capture/gate.go:62-68 | After the advertised whole seconds (section 10.2.3 of RFC 9110) without a new capture, an acquire is granted. |
| `Bundle.CollectSegments` | internal/bundle/capture.go:158-204 | A range is taken iff it is not empty, both its ends can be read and it fits the budget left by the ranges taken before it; truncated iff some readable range did not fit, unavailable iff none was readable. |
| `Bundle.BudgetHolds` | internal/bundle/capture.go:158-204 | Bytes taken plus remaining budget is the budget; every range taken is eligible, non-empty and readable at both ends. |
| `Bundle.CopyRange` | internal/bundle/capture.go:236-264 | Streaming with any buffer succeeds iff every chunk can be read, and then yields exactly the range. |
| `Bundle.StreamsUnlessFailing` | internal/bundle/capture.go:236-264 | Streaming stops only at a failing read of at most one chunk inside the range. |
| `Bundle.WriteSegments` | internal/bundle/write.go:81-107 | An index aligned with the data members, iff all ranges stream. |
| `Bundle.OpenSegments` | internal/bundle/read.go:97-222 | Duplicate members, the data limit, missing members and bad indexes are refused; otherwise the segments of the index. |
| `Bundle.SaveAndOpen` | internal/bundle/capture.go:166-264 | Collect, stream, write, read and open: the write succeeds iff every collected range streams, else some chunk read inside one failed; what is written opens iff it fits the reader's limit, and then holds exactly the collected ranges with the live bytes. |
| `Bundle.SnapshotReads` | internal/bundle/segreader.go:65-93 | A read of the reopened snapshot succeeds iff it is empty or inside one collected range, and returns the live bytes. |
| `Bundle.SnapshotAgreesWithLive` | internal/bundle/segreader.go:65-93 | Wherever both answer, snapshot and live reader agree. |
| `Segments.NewSegmentsReader` | internal/bundle/segreader.go:31-60 | Accepts iff sizes match, nothing overflows and the non-empty segments are pairwise disjoint; the table is a sorted permutation of them. |
| `Segments.NeighboursDecide` | internal/bundle/segreader.go:48-58 | After sorting, checking neighbours decides disjointness of all pairs. |
| `Segments.ReadAtAddr` | internal/bundle/segreader.go:65-93 | The one candidate found by search decides: the bytes of the segment that covers the read, or failure when none does. |
| `Distribution.BucketIs` | internal/memusage/objects.go:136-162 | A size lies in bucket k iff it lies within the bounds reported for k, k = 64 included. |
| `Distribution.Distribute` | internal/memusage/objects.go:136-162 | In any iteration order every bucket measures exactly its class; fails, with byte overflow, iff some class exceeds 64 bits. |
| `Distribution.SizeDistribution` | internal/memusage/objects.go:136-162 | The listed distribution of a set; it fails only where the whole set does not fit 64 bits either. |
| `Distribution.ListingTotals` | internal/memusage/objects.go:136-162 | The listed buckets add up to the measure of the whole set. |
| `Distribution.Change` | internal/offline/diff.go:78-102 | An ascending bucket list whose value at every bucket is the signed difference of the two listings. |
| `Distribution.ReachableDelta` | internal/offline/diff.go:63-102 | The signed bucket deltas add up to the reachable delta. |
| `Distribution.ChangesTelescope` | internal/offline/diff.go:63-102 | Across three captures deltas add, bucket by bucket and in total. |
| `Distribution.CountDelta` | internal/offline/diff.go:68-76 | Exactly the keys of either map, each with the difference of its counts. |

## Left out

- Context cancellation: assumed never to fire.
- CLI, HTTP, rendering, downloads, temporary files and heap capture itself: a dump is a byte sequence, live memory a reader.
- tar framing, JSON, and the metadata, profile and heap-dump members of a bundle: a bundle is a list of index and data members.
- pprof encoding, frame-name strings and interning: samples carry values, object paths and goroutine IDs; `RootRef.Frame` is dropped.
- Warning and error texts: error kinds, and counts of warnings; of the build warnings only overlaps are counted.
- The choice between error codes in request validation: one invalid-request error.
- Object ranking and per-object membership listings, exact-label-set listing and representative-object aggregation: selections from what is proved here.
- Order among equal keys of an unstable sort: nothing is promised about it, so results hold for any order.
- Ordering of index lists and of goroutine-ID listings: modelled as sets of IDs.
- Process, ELF, Mach-O and PE readers, the runtime layout table and offset probing: layouts and readers are parameters.
- The session guard before an inspection (closed, unsupported, failed recovery): stated once, on `Session.Snapshot.Exclusive`; the other inspection methods begin after it.
- Saturation of 64-bit durations and negative cooldowns in the gate: time is an integer, the cooldown a natural number.
- Negative or zero explicit limits of request validation: only the selection of defaults is modelled.
- Allocation samples, memory profiles, memory statistics, types, itabs and OS threads: parsed and kept, but nothing beyond their layouts and counts is stated, since no graph, label or answer reads them.
- The fallback to field slots for data segments without recorded slots (`internal/snapshotgraph/build.go:484-511`): modelled inside `GraphRoots`, not stated as a result.
- DumpParser.Parser.ParseRecords: the parser's methods are tied to the handler functions of `Dump` that share their helpers; the results about dumps are stated on `Dump`, `DumpFacts` and `LazyContents`.
- Build.Build: does not state the list of warnings, which are texts; `ObjectIndex.ScanOverlaps` counts the overlap warnings.
- Contents.ContentResolver.Read: the file is a byte sequence shorter than 2^63, so the sum of a file offset and an object offset does not wrap; read errors of the file are not modelled.
