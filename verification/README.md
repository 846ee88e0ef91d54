# pprof-alloc: verified models

`pprof-alloc` is a global allocator for Rust that keeps a heap profile while the program runs. These
modules model its state and its text formats in Dafny and prove what the program relies on.

| files | what they model |
|---|---|
| `Ledger`, `LedgerInvariant`, `PprofAlloc` | the pointer map and trace map under `alloc`, `dealloc` and `realloc`: any number of threads, one step per map operation and per call of the backing allocator, any reuse of freed addresses |
| `Counters`, `CountersInvariant` | per-thread counters, their deferred flush to four atomics, and the four-load reader, interleaved |
| `Sampler`, `Estimator` | the byte countdown and its random source; scaling of sampled totals |
| `Env`, `Selection`, `SelectionInvariant` | environment parsing and the lazily filled caches that choose allocator and tracking mode, under racing first uses |
| `StringTable`, `Profile`, `ProfileBuilder`, `StackCollector` | collecting stacks and construction of the pprof message |
| `FrameWalk`, `ElfNotes` | the two walkers over raw memory |
| `Text`, `Jemalloc`, `MappingLine`, `Smaps`, `SmapsPrinter` | the jemalloc `heap_v2` and `/proc/<pid>/smaps` readers, with printers written for the model |
| `Wrappers`, `Bytes`, `MapSums` | shared definitions |

Code that updates fields in place is a class (`PprofAlloc`, `LocalAllocationStats`, `SamplerCells`, `EnvCaches`,
`StringTable`, `StackCollector`, `ProfileBuilder`, `StackBoundsCell`) whose methods are proved against the functions of the
same module; the results are lemmas about those functions and about all runs of the state machines.

How the pieces fit:

* A run of the ledger is a sequence of (thread, event) pairs, each enabled in its turn. The methods of
  `PprofAlloc.PprofAlloc` are shown to perform exactly the events of one call in order, so what holds of all
  runs holds of all interleavings of those calls.
* The client rule is explicit. A block may be released or moved only by whoever owns it. With `exact`,
  a block that has a record is not released or moved by client code running under the recursion guard
  (`IN_ALLOC`), because that path skips the maps. `Conservation` does not need the second rule: it names
  the amount lost without it, and `GuardedFreeLoses` is a run that loses.
* A function `exp` is any function with `exp(a+b) = exp(a)*exp(b)` and `exp(x) >= 1+x`; `log2` is any
  monotone function with the right values at 1 and 2^26.

What the proofs say about the program beyond confirming it:

* The lag promised in the repository's README (at most 1023 events and 1 MiB for each idle thread) holds for threads
  between calls. A thread in the middle of a flush may hold back the event that triggered the flush
  as well (`MidFlushLag`).
* At a sample rate of `usize::MAX` the unused cells are taken for cells of that rate, so the first block of a thread is
  sampled without a draw (`CutExactly`).
* A configured sample rate of `usize::MAX - 1` is taken for "not set" from the second call on. This is
  the only value for which the answer depends on the call (`RateIsStable`, `SentinelIsConfusable`), and with
  recording disabled by default it lets two racing calls publish different tracking modes (`ModesCanDiffer`,
  `ModeAgreement`, `RiskyConfigIsAtRisk`).
* Locations are shared by file-relative address alone, so a frame may be shown in another mapping.
  This happens exactly when translation is not injective across mappings (`MappingsNamedExactly`, with an input in
  `SharedTranslationIsNotInjective`).
* Estimated live bytes never exceed estimated allocated bytes, but estimated live objects can
  exceed estimated allocated objects (`LiveObjectsCanExceedAllocated`). They do so at some rate exactly when
  c\*c\*s' > c'\*c'\*s for c of c' objects and s of s' bytes still live (`ObjectsOrderedExactly`).
* The build-id walk takes the size of a matching note's descriptor on trust. Everything else it reads is inside the
  segment for any bytes; the descriptor is not exactly when its end lies past the segment (`LeavesExactly`,
  `CutShortLeaves`).
* The native and the jemalloc scaler agree at every rate except one byte (`ScalersAgreeExactly`, `ScalersDifferAtOne`).
* The smaps reader refuses the whole text for one unreadable amount, even under a key it does not store; lines
  without exactly one colon, the blank one after a final line end included, never matter (`OtherLinesSkipped`).

## Model

| member | source | states |
|---|---|---|
| `LedgerInvariant.Conservation` | src/lib.rs:496-534 | over every interleaving and address reuse, allocated minus freed of a trace, in bytes and in blocks, equals the records of that trace in the pointer map, less those inserted but not yet added, plus those held between take and finish or restore, plus what insertions over stale records destroyed |
| `LedgerInvariant.ExactLedger` | src/lib.rs:897-901 | under the client rule nothing is destroyed, so the figures are exact, and every record describes a live block at its present layout size |
| `LedgerInvariant.QuiescentLedger` | src/lib.rs:939-949 | with no call in flight a trace shows exactly its recorded live blocks |
| `LedgerInvariant.CumulativeTotals` | src/lib.rs:496-507 | the cumulative allocation figures of a trace are the sum of its recorded allocations over the run |
| `LedgerInvariant.NoCollision` | src/lib.rs:509-518 | restoring after a failed reallocation never meets another record; under the client rule neither does inserting, and a taken record has the caller's layout size |
| `LedgerInvariant.NeverOverFreed` | src/stats/mod.rs:18-26 | without the client rule too, frees never exceed allocations for any trace, so the in-use subtractions never saturate, and the gap covers what maps and calls hold |
| `LedgerInvariant.GuardedFreeLoses` | src/lib.rs:884-887 | a concrete legal run in which a recorded block freed under the guard leaves its trace overcounted by its bytes, and every legal continuation of that run keeps them overcounted |
| `LedgerInvariant.LossRemains` | src/lib.rs:496-534 | what a run has destroyed of a trace stays missing from its gap, however the run goes on |
| `LedgerInvariant.OwnershipKept` | src/lib.rs:801-951 | every step keeps each live block with the client or with at most one call, which knows its size |
| `LedgerInvariant.InvKept` | src/lib.rs:496-534 | every step keeps ownership, pending records, room to restore and, under the client rule, exact records |
| `LedgerInvariant.BalancedKept` | src/lib.rs:496-534 | every step keeps the balance of each trace up to what that step destroys |
| `PprofAllocCalls.PprofAlloc.RecordAllocationWithTrace` | src/lib.rs:496-507 | writes the record and adds to the totals of its trace only |
| `PprofAllocCalls.PprofAlloc.TakeAllocationRecord` | src/lib.rs:509-515 | removes and returns the record of the pointer, if any |
| `PprofAllocCalls.PprofAlloc.RestoreAllocationRecord` | src/lib.rs:517-519 | puts the record back |
| `PprofAllocCalls.PprofAlloc.FinishDeallocation` | src/lib.rs:521-534 | charges the record's trace, and the recorded size if there is one |
| `PprofAllocCalls.PprofAlloc.RecordTrackedAllocation` | src/lib.rs:412-438 | records a block exactly when sampled and hands it to the client |
| `PprofAllocCalls.PprofAlloc.Alloc` | src/lib.rs:801-830 | runs exactly the events obtain, insert, add totals in that order, or the nested allocation under the guard; the maps gain exactly one record with its size and trace when a block is sampled outside the guard, and nothing changes when the backend fails |
| `PprofAllocCalls.PprofAlloc.Dealloc` | src/lib.rs:863-903 | runs exactly take, release, finish in that order, or the nested release under the guard; the record goes and its trace, and no other, is charged the recorded size and one free |
| `PprofAllocCalls.PprofAlloc.Realloc` | src/lib.rs:905-951 | runs exactly take, backend, finish, record on success, which books the old record as freed and the new block as allocated, and take, backend, restore on failure, which leaves everything as it was |
| `Counters.EventIsExact` | src/lib.rs:125-147 | between calls no local addition of a size up to isize::MAX saturates, and a flush is due exactly when the lag bound is reached |
| `Counters.LocalAllocationStats.Flush` | src/lib.rs:149-171 | moves the four amounts to the atomics and leaves zeros |
| `Counters.LocalAllocationStats.FlushIfNeeded` | src/lib.rs:141-147 | flushes exactly at 1024 events or 1 MiB |
| `Counters.LocalAllocationStats.RecordAllocation` | src/lib.rs:125-133 | local plus global bytes allocated grow by the size and allocations by one, bytes freed and frees not at all; the cells are emptied exactly from 1024 events or 1048576 bytes on |
| `Counters.LocalAllocationStats.RecordDeallocation` | src/lib.rs:135-139 | local plus global bytes freed grow by the size and frees by one, the other two not at all; emptied at the same two limits |
| `Counters.LocalAllocationStats.AllocationStats` | src/lib.rs:625-636 | alone, a report includes the caller's own unflushed events |
| `CountersInvariant.CountersConserved` | src/lib.rs:125-186 | in every reachable state atomics, thread cells and amounts in flight add up to the traffic, counter by counter |
| `CountersInvariant.ExactAfterDrop` | src/lib.rs:182-186 | once every thread has dropped its cells the atomics are exact |
| `CountersInvariant.TornSnapshot` | src/stats/mod.rs:46-53 | each of the four separately loaded values lies between the total at the start of the call minus the other threads' lag and the total at its own load, and is never more than its atomic shows at the end |
| `CountersInvariant.IdleThreadsLag` | README.md:116-119 | n idle threads lag by at most 1023 n events and (2^20 - 1) n bytes |
| `CountersInvariant.MidFlushLag` | src/lib.rs:141-171 | a concrete run in which a thread that has begun to flush holds back 1024 events |
| `CountersInvariant.InvKept` | src/lib.rs:125-171 | every step, a half-done flush included, keeps the balance, the lag bounds and the bounds on loaded values |
| `CountersInvariant.ExactIsTraffic` | src/lib.rs:380-400 | the exact totals of a run are the sum of its recorded events |
| `CountersInvariant.TrafficMeans` | src/lib.rs:125-139 | the four totals of a run are the sizes allocated, the sizes freed, the number of allocations and the number of frees, in the order of the counters |
| `Sampler.CountdownIsCut` | src/lib.rs:674-705 | for any sizes and draws the countdown samples an allocation iff the bytes since the last sample, with it, exceed the current draw; the counter is never negative and is draw minus bytes since |
| `Sampler.CutIsUnique` | src/lib.rs:674-705 | that batch rule determines every decision |
| `Sampler.CutExactly` | src/lib.rs:682-688 | the countdown decides so for all sizes and draws if and only if the rate is not usize::MAX, the mark of the unused cells, at which the first block is sampled however small |
| `Sampler.DecideMeans` | src/lib.rs:674-705 | one decision by cases: nothing is sampled at rate 0 and everything but empty blocks at rate 1; otherwise a block is sampled iff it is larger than what is left, which is the first draw when the rate has changed; a sample leaves the next draw, anything else uses the size up |
| `Sampler.SamplesPayForDraws` | src/lib.rs:690-699 | the first k draws, and one byte for each, are covered by the bytes allocated by the k-th sample |
| `Sampler.DistanceBounded` | src/lib.rs:715-724 | the scaled exponent stays below 2^31 - 2 for every mean, so the cast does not saturate and the increment does not overflow |
| `Sampler.XorShiftStaysNonZero` | src/lib.rs:726-738 | the xorshift step maps zero, and only zero, to zero |
| `Sampler.XorShiftVectors` | src/lib.rs:732-738 | known answers of the xorshift step |
| `Sampler.NeverReseeds` | src/lib.rs:726-740 | over any run the generator state never returns to zero |
| `Sampler.Seed` | src/lib.rs:742-754 | the seed is never zero |
| `Sampler.SeedVectors` | src/lib.rs:742-754 | known answers of the seed: address and time both count, and zero is replaced by the mask |
| `Sampler.SamplerCells.CheapRandom` | src/lib.rs:726-740 | advances the state by one xorshift step from the old state or, if that is zero, the seed, and returns the new state times 2685821657736338717 modulo 2^64; seeds at most once |
| `Sampler.SamplerCells.FastExpRand` | src/lib.rs:715-724 | the draw is floor((26 - log2 q) ln 2 min(mean, 0x7000000)) + 1 for q one more than the low 26 bits of the new output, and lies in 1..2^31-1; a mean of zero draws nothing |
| `Sampler.SamplerCells.NextSampleDistance` | src/lib.rs:707-713 | for every rate from 2 on, that draw for a mean of exactly the rate; 2^63-1 for rate 0 and 0 for rate 1, without touching the generator |
| `Sampler.SamplerCells.ShouldSample` | src/lib.rs:674-705 | decides as one step of the countdown; the distance begun with and the one after a sample are each the draw of the rate from the next generator state, and nothing is drawn otherwise |
| `Sampler.SampleAll` | src/lib.rs:674-705 | a run of calls from unused cells decides every allocation as the countdown does for the distances it draws, and so by the batch rule; the k-th distance is the draw of the rate from the generator state k+1 steps after the start, which is the old state or the seed |
| `Estimator.SpaceMonotone` | src/lib.rs:210-229 | more samples of more bytes never estimate fewer bytes, truncation and clamping included |
| `Estimator.EstimateAtLeastRaw` | src/lib.rs:206-229 | an estimate is never below the sampled total |
| `Estimator.LiveSpaceBounds` | src/lib.rs:188-204 | in every state a ledger run reaches, live bytes are estimated at no more than allocated bytes and no less than the recorded live bytes, without exception |
| `Estimator.ObjectsOrderedExactly` | src/lib.rs:210-229 | for c of c' objects and s of s' bytes still live, live objects are estimated at no more than allocated ones at every rate if and only if c\*c\*s' <= c'\*c'\*s, before truncation and after it |
| `Estimator.LiveObjectsOrdered` | src/lib.rs:188-229 | under that inequality, or with an empty total, the estimates themselves keep the order at every rate, clamped ones included |
| `Estimator.LiveObjectsReversed` | src/lib.rs:188-229 | without it some rate reverses the estimates themselves, unless the larger total is clamped there |
| `Estimator.LiveObjectsCanExceedAllocated` | src/lib.rs:188-204 | a legal ledger run after which the estimate of live objects is at least 500 times the estimate of allocated ones |
| `Estimator.ScaleHeapSampleIs` | src/lib.rs:210-229 | each estimate r of n is 0 for an empty total, min(n, 2^63-1) at rates 0 and 1, and otherwise at most 2^63-1 with r p <= n < (r+1) p for p = 1 - exp(-(size/count/rate)), the second bound dropped at 2^63-1 |
| `Estimator.EstimateIsUnique` | src/lib.rs:220-228 | no other number meets those bounds |
| `Estimator.ValuesOfTrace` | src/lib.rs:188-204 | in every state a ledger run reaches the four values of a trace are the estimates, in that sense, of its allocation totals and of its totals less what was freed, which is never negative |
| `Estimator.HitConcave` | src/lib.rs:206-229 | for exp any exponential, x (1 - exp(-y)) <= y (1 - exp(-x)) for 0 < x <= y: the chance of a sample grows more slowly than proportionally |
| `Estimator.Scaled` | src/lib.rs:220-229 | what is divided by p, exactly; that p is 1 - exp(-(size/count/rate)) is `ScaleHeapSampleIs` |
| `Env.CStrEqIgnoreAscii` | src/env.rs:281-290 | true exactly for equal strings up to ASCII case, reading no byte past the terminator |
| `Env.ReadPprofSampleRateEnv` | src/env.rs:166-191 | min(decimal value, usize::MAX) for non-empty digit strings, none for all others |
| `Env.ParseRateMeans` | src/env.rs:166-191 | a text is a rate iff it is non-empty and all digits; every number is the rate of its own text, capped at 2^64-1 |
| `Env.DecimalMeans` | src/env.rs:184-186 | each digit counts ten times the next, and leading zeros count nothing |
| `Env.EnvCaches.SelectedAllocator` | src/env.rs:139-157 | the first call fixes the answer; an invalid choice ends the process |
| `Env.SelectMeans` | src/env.rs:210-263 | the first variable decides if set, else the second, else the default; "jemalloc" and "mimalloc" in any case select those allocators, any other text the system one; what is not compiled in ends the process |
| `Env.EnvCaches.SelectedPprofBackend` | src/env.rs:121-130 | the first call fixes the answer |
| `Env.SelectBackendMeans` | src/env.rs:193-207 | the wrapper exactly for "wrapper", "pprof-alloc" and "rust", in any case |
| `Env.EnvCaches.PprofSampleRate` | src/env.rs:105-119 | answer and new cache value for each cache value |
| `Env.RateIsStable` | src/env.rs:105-119 | all calls answer alike if and only if the parsed value is not usize::MAX - 1 (or equals the default) |
| `Env.AnswerIs` | src/env.rs:105-119 | call number n answers the rate read from the variable if it has one, else the default; only 18446744073709551614 is answered by the first call and not by later ones |
| `Env.SentinelIsConfusable` | src/env.rs:33-34 | the text 18446744073709551614 makes the first two calls answer differently for every other default |
| `Env.DecimalOfText` | src/env.rs:166-191 | a printed number has its own decimal value |
| `SelectionInvariant.SameAllocatorThroughout` | src/lib.rs:549-587 | in every run with racing first uses each call is served by the allocator that environment and default select, on the fast and on the inner path, so a block is freed or moved by the allocator that handed it out |
| `SelectionInvariant.ModeAgreement` | src/lib.rs:452-483 | in all runs, under any mode published or acted on: calls record stacks iff profiling is on, not left to jemalloc, and the resolved rate is not zero; they count iff statistics are on and jemalloc is not selected and compiled in; they bypass the wrapper, for the selected allocator, iff neither. This holds if and only if the rate variable does not hold the sentinel while recording is off by default |
| `SelectionInvariant.ModeIsUnique` | src/lib.rs:471-480 | there is only one such mode |
| `SelectionInvariant.ModesCanDiffer` | src/lib.rs:349-364 | otherwise two racing calls publish a mode that does not record and one that does |
| `SelectionInvariant.RiskyConfigIsAtRisk` | src/lib.rs:349-364 | a concrete configuration at that risk |
| `SelectionInvariant.AllocatorKept` | src/env.rs:139-157 | every step keeps the caches and the threads' choices on the agreed allocator |
| `StringTables.StringTable.Insert` | src/pprof/mod.rs:35-43 | returns the place of the string; indices never change and a new string takes the next one |
| `StringTables.StringTable.Finish` | src/pprof/mod.rs:45-50 | the strings in index order: each entry goes to the place its index names, where sorting by index puts it |
| `Bytes.BuildIdTextIsInjective` | src/pprof/mod.rs:73-80 | the hexadecimal text identifies the build id |
| `Bytes.BuildIdTextSpells` | src/pprof/mod.rs:73-80 | the text has two hexadecimal digits for each byte, the high one first |
| `StackCollectors.StackCollector.PushStack` | src/pprof/mod.rs:435-451 | the stacks and annotations read back are exactly those pushed, in order, and each annotation is stored once |
| `StackCollectors.StackCollector.Position` | src/pprof/mod.rs:438-442 | an index of the annotation, or none exactly when it is not stored |
| `ProfileBuilders.ProfileBuilder.FunctionFor` | src/pprof/mod.rs:227-252 | one function for each name, whose strings resolve |
| `ProfileBuilders.ProfileBuilder.LocationFor` | src/pprof/mod.rs:196-272 | one location for each file-relative address, ids 1..n |
| `ProfileBuilders.ProfileBuilder.AddFrame` | src/pprof/mod.rs:185-284 | skips zero and internal frames, otherwise appends the location id and the annotation label |
| `ProfileBuilders.ProfileBuilder.AddSample` | src/pprof/mod.rs:176-286 | one sample for each stack, with its values |
| `ProfileBuilders.BuildHeader` | src/pprof/mod.rs:133-172 | types and mappings resolve to what was given |
| `ProfileBuilders.ToPprofProto` | src/pprof/mod.rs:114-291 | everything stored in the message decodes to the input |
| `ProfileBuilders.StacksDecode` | src/pprof/perftools.profiles.rs:86-102 | the location ids of a sample give, in order, exactly the stack's frames that are not zero and have no symbol named "pprof_alloc::..."; each is shown as it is when no mapping contains it, and otherwise at its place in the file of the first that does, modulo 2^64; no address has two locations |
| `ProfileBuilders.LocationsDecode` | src/pprof/mod.rs:196-272 | every location stands for such a frame, and its mapping id is 0 iff no mapping contains the frame and else that of the first that does |
| `ProfileBuilders.FramesShare` | src/pprof/mod.rs:209-215 | two frames share a location exactly if their translations agree |
| `Profiles.ShownOnce` | src/pprof/mod.rs:202-207 | no frame can be shown at two addresses |
| `ProfileBuilders.FunctionsDecode` | src/pprof/mod.rs:227-252 | every function has the name, system name and file name of a symbol of some frame shown; functions are numbered from 1 and no two share a name |
| `ProfileBuilders.LabelsDecode` | src/pprof/mod.rs:276-282 | every frame of an annotated stack, and of no other, has a label with the key and that annotation |
| `ProfileBuilders.HeaderMeans` | src/pprof/mod.rs:133-172 | the indices of types, period, default type and mappings lead to the strings given, the last type being the default and a missing build id the empty string |
| `ProfileBuilders.MappingsNamedExactly` | src/pprof/perftools.profiles.rs:170-183 | every frame is shown in its own mapping if and only if translation is injective across mappings |
| `ProfileBuilders.SharedTranslationIsNotInjective` | src/pprof/mod.rs:196-209 | a concrete profile, two mappings at offset 0 and one frame at the same place in each, for which it is not |
| `ProfileBuilders.LinesDecode` | src/pprof/mod.rs:220-262 | the lines of a location are, in order, those of exactly the symbols with a name of the frame that brought it, each with its name and its line number or 0 |
| `FrameWalk.BoundsAreExact` | src/trace/frame_pointer.rs:93-146 | the bounds accept exactly the aligned two-word records inside the reported stack |
| `FrameWalk.StackBoundsCell.Get` | src/trace/frame_pointer.rs:100-109 | the bounds are asked for once per thread |
| `FrameWalk.StackIsReadable` | src/trace/frame_pointer.rs:111-146 | both words of an accepted record can be read |
| `FrameWalk.Trace` | src/trace/frame_pointer.rs:38-53 | for any memory the walk ends, reads only accepted records, and returns the captured address and the first 127 addresses of the chain |
| `FrameWalk.TraceThread` | src/trace/frame_pointer.rs:20-53 | the same over a thread's own stack, of which nothing outside is read |
| `FrameWalk.ChainIs` | src/trace/frame_pointer.rs:40-53 | for any memory the chain is the adjusted return addresses of frames each within the bounds and saved in, and above, the one before; it stops only at a pointer that does not go up, leaves the bounds or has a return address too small to adjust |
| `FrameWalk.ChainRecoversCallers` | src/trace/frame_pointer.rs:40-53 | on a stack kept by the calling convention the chain is exactly the callers |
| `ElfNotes.AlignUpIsLeast` | src/pprof/mappings.rs:248-256 | the least multiple of four not below p |
| `ElfNotes.NoteAt` | src/pprof/mappings.rs:183-233 | where the parts of an encoded note lie |
| `ElfNotes.MatchNote` | src/pprof/mappings.rs:196-224 | at any header: the descriptor exactly for a non-empty type-3 note named GNU, and whether it ends inside the segment |
| `ElfNotes.WalkNotes` | src/pprof/mappings.rs:183-233 | over any bytes at any address the walk ends, looks only at aligned headers inside the segment, aborts only on a misplaced first header, and ends at the first match |
| `ElfNotes.LeavesExactly` | src/pprof/mappings.rs:214-224 | for any bytes the walk reads outside the segment if and only if the headers lead to a first match whose descriptor ends past it |
| `ElfNotes.WalkExactly` | src/pprof/mappings.rs:183-233 | for any bytes: it fails at once iff there is room for a header at an address that is null or no multiple of four, finds exactly the descriptor of the first match when that lies inside, and nothing only when no match is reached |
| `ElfNotes.CutShortLeaves` | src/pprof/mappings.rs:214-224 | sixteen concrete bytes for which it does |
| `ElfNotes.WellFormedWalk` | src/pprof/mappings.rs:183-233 | over every well-formed sequence of notes the walk stays in the segment and finds the first build id |
| `ElfNotes.ShortSegmentHasNone` | src/pprof/mappings.rs:183-186 | the stop test never skips a build id |
| `ElfNotes.ReadHeaders` | src/pprof/mappings.rs:150-235 | for any program headers: loaded segments in order, and the last walk that found something unless one is fatal |
| `ElfNotes.LoadsAre` | src/pprof/mappings.rs:150-156 | the loaded segments are those of exactly the load headers, in order |
| `ElfNotes.LastWalkIs` | src/pprof/mappings.rs:157-233 | which walk decides: the first fatal one, else the last that found something, else none found anything |
| `ElfNotes.WellFormedHeaders` | src/pprof/mappings.rs:150-235 | with well-formed note segments the build id is that of the last one that has one |
| `ElfNotes.BuildMappings` | src/pprof/mappings.rs:312-329 | the mapping table as the concatenation of the objects' mappings |
| `ElfNotes.SegmentIsMapped` | src/pprof/mappings.rs:312-329 | the table has exactly one entry for each loaded segment, in order: from base plus memory offset modulo 2^64, as long as the segment, with its file offset and the object's path and build id |
| `ElfNotes.TranslationUndoesLoading` | src/pprof/mappings.rs:312-329 | with disjoint segments, translating a loaded address gives its file offset, in its own mapping |
| `JemallocProfiles.ParseJemallocHeapProfile` | src/pprof/mod.rs:310-400 | the loop over lines computes the recursive reading, errors included |
| `JemallocProfiles.AcceptedExactly` | src/pprof/mod.rs:333-394 | for any text: accepted if and only if the header is readable and each stack line is followed by its own readable counters line; the result is those pairs in order |
| `JemallocProfiles.UnfinishedStackRefused` | src/pprof/mod.rs:342-345 | two stack lines with no counters between them, or a last one without, are refused wherever they stand and whatever the other lines are, all lines given as words and white space |
| `JemallocProfiles.RoundTrip` | src/pprof/mod.rs:310-400 | any stacks and counters, printed with any white space, with any lines that are neither stacks nor counters between, a totals line before and counters of other owners after, and with the accumulated counters left off when zero, read back with every address but zero lowered by one and only empty entries dropped |
| `JemallocProfiles.PlainBlock` | src/pprof/mod.rs:340-383 | every stack with every counters can be printed so |
| `JemallocProfiles.LineMeans` | src/pprof/mod.rs:337-355 | a line is a stack line iff its first word is "@", and a counters line iff it has at least three words of which the first is "t*:" |
| `JemallocProfiles.EveryTextIsALine` | src/pprof/mod.rs:337 | every text is such a line of words and white space |
| `JemallocProfiles.HeaderExactly` | src/pprof/mod.rs:324-332 | for any first line: refused as unsupported iff it does not begin, after white space, with "heap_v2/", and else read as the number that follows |
| `JemallocProfiles.AddressMeans` | src/pprof/mod.rs:347-352 | an address is read with any number of "0x" before it, and every one but zero lowered by one |
| `JemallocProfiles.NoBracketNoObjects` | src/pprof/mod.rs:362-367 | accumulated objects that do not follow a bracket count as zero |
| `JemallocProfiles.ScaleJemallocIs` | src/pprof/mod.rs:295-308 | the scaled pair is 0 for an empty total, the totals capped at 2^63-1 at rate 0, and at every other rate the two numbers r <= 2^63-1 with r p <= n < (r+1) p for p = 1 - exp(-(bytes/objects/rate)) |
| `JemallocProfiles.ScaledToZero` | src/pprof/mod.rs:295-308 | a scaled pair is zero exactly when a raw counter is |
| `JemallocProfiles.ScalersAgreeExactly` | src/pprof/mod.rs:295-308 | agrees with the native scaler on all totals if and only if the rate is not one byte |
| `JemallocProfiles.ScalersDifferAtOne` | src/lib.rs:206-229 | at a rate of one byte they differ |
| `Text.ParseOfPrint` | src/pprof/mod.rs:330-331 | printed numbers parse back, below 2^64 |
| `Text.WordsOfSpaced` | src/pprof/mod.rs:337 | splitting recovers the words whatever white space lies between them |
| `Text.WordsSpelled` | src/pprof/mod.rs:337 | every text is words between white space, and these are its words |
| `Text.NumberExactly` | src/pprof/mod.rs:330-331 | a text is a number iff it is digits of the base, at least one, with a plus sign or without, and it fits iff it is below 2^64 |
| `Text.TrimExactly` | src/pprof/mod.rs:329 | trimming takes off all the white space at both ends and nothing else |
| `Text.TrimAllSuffixes` | src/pprof/mod.rs:360-371 | trimming a character takes off all that follow |
| `MappingLines.ReadPermissions` | src/stats/procmaps.rs:33-48 | each flag is set exactly when its letter occurs |
| `MappingLines.MatchSound` | src/stats/procmaps.rs:178-194 | what the pattern takes spells it and makes up the text |
| `MappingLines.MatchComplete` | src/stats/procmaps.rs:178-194 | it takes the only pieces that spell it |
| `MappingLines.HeaderExactly` | src/stats/procmaps.rs:196-222 | a line is a header with a given meaning if and only if, without the white space around, it is five lower-case hexadecimal numbers, letters of "rwsxp-" and a decimal number with a dash, a colon and white space between and at most a path after, and these say so |
| `MappingLines.HeaderHasDash` | src/stats/procmaps.rs:178-194 | a header contains a dash |
| `MappingLines.HeaderRoundTrip` | src/stats/procmaps.rs:196-222 | any mapping, printed with any white space, reads back |
| `Smaps.ReadFlags` | src/stats/procmaps.rs:88-131 | the known flags among the pieces |
| `SmapsPrinter.ReadAmountText` | src/stats/procmaps.rs:315-326 | an amount below 2^64 printed in bytes, or in kB when it is a multiple of 1024, reads back as that many bytes |
| `Smaps.FromLines` | src/stats/procmaps.rs:298-363 | the loop over body lines computes the recursive reading, in which a line without exactly one colon says nothing (`OtherLinesSkipped`) |
| `Smaps.OtherLinesSkipped` | src/stats/procmaps.rs:305-308 | by the text alone, a line with no colon, such as a blank one, or with two or more says nothing |
| `Smaps.ColonLineMeans` | src/stats/procmaps.rs:310-326 | a line with one colon is the known flags between spaces after "VmFlags", and else the amount, without the white space around, under its key, or malformed |
| `Smaps.AmountMeans` | src/stats/procmaps.rs:315-326 | an amount is a number, or 1024 times the number before white space and "kB", modulo 2^64 |
| `Smaps.LastLineWins` | src/stats/procmaps.rs:298-363 | for any lines: failure exactly for a malformed line, otherwise each stored key has its last amount and the flags are the last ones |
| `Smaps.TakeBody` | src/stats/procmaps.rs:373-377 | the lines up to the next header |
| `Smaps.FromStr` | src/stats/procmaps.rs:365-384 | the nested loops compute the recursive reading, for which see `ReadByGroups`, `LastLineWins` and `OtherLinesSkipped` |
| `Smaps.GroupsCover` | src/stats/procmaps.rs:365-384 | header and body groups concatenate to exactly the lines, and no body line is a header |
| `Smaps.GroupsAreUnique` | src/stats/procmaps.rs:365-384 | no other cut has that property |
| `Smaps.ReadByGroups` | src/stats/procmaps.rs:365-384 | for any text: read if and only if every group has a header and no malformed line, one entry for each group in order |
| `SmapsPrinter.RoundTrip` | src/stats/procmaps.rs:365-384 | any non-empty list of entries, body lines in any order and repeated, any other single lines that are no header and do not have exactly one colon among them, with or without a line end after the last line, reads back |
| `SmapsPrinter.LinuxRoundTrip` | src/stats/procmaps.rs:327-353 | the same with the keys and flags the program knows |

## Left out

- The real system, jemalloc and mimalloc allocators, `mallctl`, memory-file dumps, `getenv`, `pthread_*`, `dl_iterate_phdr` and inline assembly: a nondeterministic heap and given bytes, attributes and memory stand for them.
- The two steps inside a backend reallocation (obtain, release) are one step; `alloc_zeroed` takes the path of `alloc`.
- DashMap internals and weak memory: each map operation and each atomic access is one step.
- Threads whose thread-local storage is gone: the counters' direct path is modelled, the sampler's (never sample, fresh seed each time) is not.
- Wrap-around of the cumulative 64-bit totals: they are unbounded.
- The tracking rate is fixed and non-zero for a ledger run; whether a call samples is left open.
- f64 rounding and float parsing: estimates are over the reals. `Estimator.Scaled` and the two scalers are exact in the model.
- JemallocProfiles.ParseJemallocHeapProfile: counters are decimal naturals; the other spellings the float parser accepts (signs, fractions, exponents, infinities) are not modelled, nor are I/O errors of single lines. Lines are given without their line ends.
- Estimator.ObjectsOrderedExactly: rates range over all naturals, so the rate that shows a reversal may exceed 64 bits.
- `backtrace::resolve`: `resolve` is any function from addresses to symbols.
- The `has_functions`, `has_filenames`, `has_line_numbers` and `has_inline_frames` flags of mappings, and gzip and protobuf encoding.
- Smaps.ReadValue: a product with 1024 beyond 64 bits wraps as in release builds; debug builds stop instead. `VmFlags` is the set of its true fields and the sizes are a map from key to amount.
- The regular-expression engine: its one pattern is an explicit grammar, with ASCII digits (other decimal digits match the pattern but fail to parse, with the same outcome).
- ElfNotes.WalkNotes: addresses do not wrap around at 2^64, as they could not in a mapped segment below the top of the address space; what lies past a segment is not modelled.
- SelectionInvariant.SameAllocatorThroughout: the environment and the builder's default do not change during the life of the process, and all instances share one default.
- Sampler.NeverReseeds: nothing is proved about the distribution of the draws.
- Prometheus collectors, snapshots, cgroup files, `malloc_info` XML, `pprof_summary` and cast utilities: field copies.
- Windows and musl branches: constant choices.
