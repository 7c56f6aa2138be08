# Shenandoah region metadata and the compile-broker activity switch, in Dafny

This project models two small sequential cores of the HotSpot virtual machine.

**Shenandoah heap regions.** Each fixed-size slice of the heap is a region with a state.
- The ten `RegionState` values and the predicates that group them into the "Empty", "Active" and "Trash" phases are in `region_states.dfy`.
- The same file has the diagnostic ordinal table. It is kept separate from enum order on purpose.
- `region_transitions.dfy` encodes the state diagram as a relation `Legal(from, to)`. It proves the design rules a) to i) of the diagram's comment, both for one step and for whole walks through the graph.
- `region_age.dfy` covers the saturating age counter and its reset into `youth`.
- `region_geometry.dfy` covers the power-of-two region size, `required_regions` and `requires_humongous`.
- `heap_region.dfy` covers space accounting over `bottom <= top <= end`, `contains`, and the coalesce-and-fill boundary cursor.

**Compile broker.** The compiler activity mode is a shared `jint` that holds stop, run or shutdown.
- `compiler_activity.dfy` models `set_should_compile_new_jobs`, `disable_compilation_forever`, the two queries, and the print-once warning latch.
- Each compare-and-swap or exchange is one atomic step on an immutable `Broker` value. Sequences of calls are run by `Run`.
- `compiler_counters.dfy` models `CompilerCounters::set_current_method`. It copies the name into a 160-character buffer with `strncpy` and then forces a final NUL.

`machine_ints.dfy` holds the integer widths. `uint` counters wrap modulo 2^32. The `size_t` sum in `required_regions` wraps modulo 2^64.

## The state diagram, as encoded

The relation follows the diagram in `shenandoahHeapRegion.hpp` as drawn:

- `EmptyUncommitted` and `EmptyCommitted` go to `Regular`, `HumongousStart` or `HumongousCont` (first allocation).
- `EmptyCommitted` also goes to `EmptyUncommitted`.
- `Regular` goes to `Pinned`, `Cset` or `Trash`. `Pinned` goes back to `Regular`.
- `Cset` goes to `PinnedCset` or `Trash`. `PinnedCset` goes to `Pinned`.
- `HumongousStart` goes to `PinnedHumongousStart` or `Trash`. `PinnedHumongousStart` goes back to `HumongousStart`.
- `HumongousCont` goes to `Trash`.
- `Trash` goes to `EmptyCommitted` (recycling).

The diagram draws no `pinned_cset -> trash` edge; such an edge would break rule d), "Pinned cannot go Trash". The diagram draws no arrow from Uncommitted to Committed; an uncommitted region leaves the Empty group only by first allocation. `make_committed_bypass` skips the graph and is not modelled.

## Model

| member | source | states |
|---|---|---|
| RegionStates.EnumValue | src/hotspot/share/gc/shenandoah/shenandoahHeapRegion.hpp:114-126 | each state's enumerator value is below `_REGION_STATES_NUM` (10), and the declaration list at that position is the state itself |
| RegionStates.StateOrdinal | src/hotspot/share/gc/shenandoah/shenandoahHeapRegion.hpp:148-165 | the diagnostic ordinal of every state lies in 0..9 |
| RegionStates.StateOfOrdinal | src/hotspot/share/gc/shenandoah/shenandoahHeapRegion.hpp:149-165 | every ordinal in 0..9 is the ordinal of the decoded state, so the table is onto 0..9 |
| RegionStates.OrdinalRoundTrip | src/hotspot/share/gc/shenandoah/shenandoahHeapRegion.hpp:149-165 | decoding a state's ordinal gives back the state |
| RegionStates.OrdinalIsInjective | src/hotspot/share/gc/shenandoah/shenandoahHeapRegion.hpp:149-165 | distinct states have distinct ordinals (with the above, a bijection onto 0..9) |
| RegionStates.OrdinalDiffersFromEnumOrder | src/hotspot/share/gc/shenandoah/shenandoahHeapRegion.hpp:148-165 | ordinal and enum position agree on exactly six states, so the table is independent of enum order |
| RegionStates.StateName | src/hotspot/share/gc/shenandoah/shenandoahHeapRegion.hpp:129-145 | every state has a non-empty printable name |
| RegionStates.StateNamesDistinct | src/hotspot/share/gc/shenandoah/shenandoahHeapRegion.hpp:129-145 | no two states share a printable name |
| RegionStates.IsEmpty | src/hotspot/share/gc/shenandoah/shenandoahHeapRegion.hpp:201-203 | the Empty group is exactly the committed and uncommitted empty states; `PhasePartition` proves it disjoint from Active and Trash |
| RegionStates.IsHumongousStart | src/hotspot/share/gc/shenandoah/shenandoahHeapRegion.hpp:202 | a humongous start is the plain or the pinned start; `GroupOverlaps` proves neither is in the collection set |
| RegionStates.IsHumongous | src/hotspot/share/gc/shenandoah/shenandoahHeapRegion.hpp:206 | humongous regions are the two starts and the continuation; `HumongousStaysHumongous` and `HumongousLeavesOnlyThroughTrash` build rules f) and g) on it |
| RegionStates.IsCommitted | src/hotspot/share/gc/shenandoah/shenandoahHeapRegion.hpp:207 | committed is every state except the uncommitted empty one; `PhasePartition` proves the iff |
| RegionStates.IsCset | src/hotspot/share/gc/shenandoah/shenandoahHeapRegion.hpp:208 | the collection set is Cset and PinnedCset; `CsetOnlyThroughRegular` proves it is entered only from Regular |
| RegionStates.IsActive | src/hotspot/share/gc/shenandoah/shenandoahHeapRegion.hpp:204 | "neither empty nor trash" is exactly the seven states of the diagram's Active box |
| RegionStates.IsPinned | src/hotspot/share/gc/shenandoah/shenandoahHeapRegion.hpp:209 | every pinned state is active, and none is both humongous and in the collection set |
| RegionStates.IsAllocAllowed | src/hotspot/share/gc/shenandoah/shenandoahHeapRegion.hpp:216 | allocation is allowed exactly in states that are not humongous, not in the collection set and not trash |
| RegionStates.IsStwMoveAllowed | src/hotspot/share/gc/shenandoah/shenandoahHeapRegion.hpp:217 | a stop-the-world move is allowed exactly for active, unpinned states other than a continuation, and for a humongous start only with humongous moves on |
| RegionStates.PhasePartition | src/hotspot/share/gc/shenandoah/shenandoahHeapRegion.hpp:201-207 | exactly one of empty, active or trash holds for every state; committed holds iff the state is not uncommitted |
| RegionStates.GroupOverlaps | src/hotspot/share/gc/shenandoah/shenandoahHeapRegion.hpp:205-217 | pinned and cset meet only in PinnedCset; pinned and humongous meet only in PinnedHumongousStart; cset and humongous never meet; humongous never allows allocation; a pinned state never allows a stop-the-world move |
| RegionTransitions.Legal | src/hotspot/share/gc/shenandoah/shenandoahHeapRegion.hpp:51-88 | the diagram's arrows, one disjunct per arrow; the rule lemmas below state what the relation guarantees |
| RegionTransitions.EmptyOnlyByRecycling | src/hotspot/share/gc/shenandoah/shenandoahHeapRegion.hpp:97-102 | rules a) and b): a non-empty region becomes empty only from Trash; Uncommitted is entered only from Committed; Trash leads only to Committed |
| RegionTransitions.OnlyRegularEntersCset | src/hotspot/share/gc/shenandoah/shenandoahHeapRegion.hpp:103 | rule c): a step into the collection set comes from Regular |
| RegionTransitions.PinnedStaysPut | src/hotspot/share/gc/shenandoah/shenandoahHeapRegion.hpp:104-105 | rules d) and e): a pinned state never steps to Trash or Cset, and a pinned state outside the cset never steps into it |
| RegionTransitions.HumongousStaysHumongous | src/hotspot/share/gc/shenandoah/shenandoahHeapRegion.hpp:106-109 | rules f), g) and h): humongous steps stay humongous or go to Trash, never to an allocatable or cset state; only a start is pinned; a continuation only goes to Trash |
| RegionTransitions.HumongousStartPinnable | src/hotspot/share/gc/shenandoah/shenandoahHeapRegion.hpp:108 | rule h): a humongous start can be pinned and unpinned |
| RegionTransitions.EmptyNeverTrashed | src/hotspot/share/gc/shenandoah/shenandoahHeapRegion.hpp:110 | rule i): no empty state steps to Trash |
| RegionTransitions.NoSelfLoops | src/hotspot/share/gc/shenandoah/shenandoahHeapRegion.hpp:46-88 | every legal step changes the state |
| RegionTransitions.EmptyAgainOnlyThroughTrash | src/hotspot/share/gc/shenandoah/shenandoahHeapRegion.hpp:93-102 | every walk from a non-empty state to an empty one passes through Trash |
| RegionTransitions.CsetOnlyThroughRegular | src/hotspot/share/gc/shenandoah/shenandoahHeapRegion.hpp:103 | every walk from outside the collection set into it passes through Regular |
| RegionTransitions.PinnedReclaimedOnlyAfterUnpin | src/hotspot/share/gc/shenandoah/shenandoahHeapRegion.hpp:104 | every walk from a pinned state to Trash passes through an unpinned Regular or HumongousStart |
| RegionTransitions.HumongousLeavesOnlyThroughTrash | src/hotspot/share/gc/shenandoah/shenandoahHeapRegion.hpp:106-107 | rules f) and g): every walk from a humongous state to a non-humongous one (an allocatable or cset state among them) passes through Trash |
| RegionTransitions.ContinuationPinnedOnlyAfterTrash | src/hotspot/share/gc/shenandoah/shenandoahHeapRegion.hpp:108-109 | a continuation reaches a pinned or cset state only after it has been trashed |
| RegionTransitions.TrashOnlyAfterActive | src/hotspot/share/gc/shenandoah/shenandoahHeapRegion.hpp:110 | every walk from an empty state to Trash passes through an active state |
| RegionTransitions.PathFromUncommitted | src/hotspot/share/gc/shenandoah/shenandoahHeapRegion.hpp:90-98 | every state is reachable by legal steps from Uncommitted: the diagram has no dead states |
| RegionTransitions.PathToTrash | src/hotspot/share/gc/shenandoah/shenandoahHeapRegion.hpp:93-95 | every state can reach Trash by legal steps, so every region can eventually be reclaimed |
| RegionAge.IncrementAge | src/hotspot/share/gc/shenandoah/shenandoahHeapRegion.hpp:467-473 | age stays at most `max_age` (15); below the limit it grows by exactly one; at the limit the region is unchanged; youth is untouched |
| RegionAge.ResetAge | src/hotspot/share/gc/shenandoah/shenandoahHeapRegion.hpp:475-478 | age becomes 0; without census noise youth is unchanged; with it, age plus youth is conserved when the `uint` sum fits, and youth wraps modulo 2^32 when it does not |
| RegionAge.ClearYouth | src/hotspot/share/gc/shenandoah/shenandoahHeapRegion.hpp:480 | youth becomes 0 and age is kept |
| RegionAge.IncrementAgeTimesSaturates | src/hotspot/share/gc/shenandoah/shenandoahHeapRegion.hpp:467-473 | after n increments the age is min(age + n, max_age) and youth is unchanged |
| RegionAge.IncrementAgeTimesMonotone | src/hotspot/share/gc/shenandoah/shenandoahHeapRegion.hpp:467-473 | more increments never give a smaller age |
| RegionGeometry.WordsAndBytesAgree | src/hotspot/share/gc/shenandoah/shenandoahHeapRegion.hpp:227-233 | with both sizes powers of two and the shifts three apart, region bytes = region words * 8 |
| RegionGeometry.RequiredRegions | src/hotspot/share/gc/shenandoah/shenandoahHeapRegion.hpp:283-285 | when `bytes + size - 1` does not wrap, the result covers the bytes and one region fewer does not |
| RegionGeometry.RequiredRegionsIsLeast | src/hotspot/share/gc/shenandoah/shenandoahHeapRegion.hpp:283-285 | `required_regions(b)` is at most any n with n * region size >= b, so it is the least such n |
| RegionGeometry.RequiresHumongous | src/hotspot/share/gc/shenandoah/shenandoahHeapRegion.hpp:287-289 | an allocation is humongous when it has more words than one region; the two lemmas below relate it to bytes and region counts |
| RegionGeometry.HumongousIffMoreBytesThanRegion | src/hotspot/share/gc/shenandoah/shenandoahHeapRegion.hpp:287-289 | for every word count, `requires_humongous(w)` iff w words are more bytes than one region |
| RegionGeometry.HumongousIffSeveralRegions | src/hotspot/share/gc/shenandoah/shenandoahHeapRegion.hpp:287-289 | when `w * 8 + region_size - 1` fits in `size_t`, `requires_humongous(w)` iff `required_regions(w * 8) > 1` |
| MachineInts.ShiftRight | src/hotspot/share/gc/shenandoah/shenandoahHeapRegion.hpp:284 | `x >> k` is the r with r * 2^k <= x < (r + 1) * 2^k |
| HeapRegion.ByteSize | src/hotspot/share/gc/shenandoah/shenandoahHeapRegion.hpp:437-440 | a byte size is a whole number of heap words, and zero exactly for equal addresses |
| HeapRegion.Capacity | src/hotspot/share/gc/shenandoah/shenandoahHeapRegion.hpp:437 | capacity is a whole number of heap words, and zero exactly for a region with `bottom == end` |
| HeapRegion.Used | src/hotspot/share/gc/shenandoah/shenandoahHeapRegion.hpp:438 | used bytes never exceed capacity |
| HeapRegion.Free | src/hotspot/share/gc/shenandoah/shenandoahHeapRegion.hpp:437-440 | `capacity == used + free`; free is zero exactly when `top == end` |
| HeapRegion.ContainedWordsMatchUsed | src/hotspot/share/gc/shenandoah/shenandoahHeapRegion.hpp:443-445 | the addresses `contains` accepts are exactly `[bottom, top)`; their count times 8 is `used()`; none are contained iff nothing is used |
| HeapRegion.Contains | src/hotspot/share/gc/shenandoah/shenandoahHeapRegion.hpp:443-445 | an address is contained iff it lies in `[bottom, top)`; `ContainedWordsMatchUsed` counts those addresses against `used()` |
| HeapRegion.BeginCoalesceAndFill | src/hotspot/share/gc/shenandoah/shenandoahHeapRegion.hpp:390-392 | resume then yields `bottom`, and nothing else about the region changes |
| HeapRegion.EndCoalesceAndFill | src/hotspot/share/gc/shenandoah/shenandoahHeapRegion.hpp:394-396 | resume then yields `end`, and nothing else changes |
| HeapRegion.SuspendCoalesceAndFill | src/hotspot/share/gc/shenandoah/shenandoahHeapRegion.hpp:398-404 | resume returns exactly the suspended point, and nothing else changes |
| HeapRegion.ResumeCoalesceAndFill | src/hotspot/share/gc/shenandoah/shenandoahHeapRegion.hpp:402-404 | resume reads the boundary cursor; `ResumeReturnsLastPoint` proves it yields the point the last begin/end/suspend set |
| HeapRegion.ResumeReturnsLastPoint | src/hotspot/share/gc/shenandoah/shenandoahHeapRegion.hpp:390-404 | after any non-empty sequence of begin/end/suspend calls, resume returns the point the last call set, and no other field has changed |
| HeapRegion.IncrementAge | src/hotspot/share/gc/shenandoah/shenandoahHeapRegion.hpp:467-473 | ageing a region adds exactly one to its age below `max_age` and leaves the region unchanged at `max_age`; youth and every other field are kept |
| HeapRegion.ResetAge | src/hotspot/share/gc/shenandoah/shenandoahHeapRegion.hpp:475-478 | resetting a region zeroes its age; youth is kept, or under census noise grows by the old age modulo 2^32; no other field changes |
| CompilerActivity.ShouldCompileNewJobs | src/hotspot/share/compiler/compileBroker.hpp:362 | new jobs are compiled only while `UseCompiler` is on and the mode is run; `DisableAnywhereIsFinal` proves it false after any shutdown |
| CompilerActivity.IsCompilationDisabledForever | src/hotspot/share/compiler/compileBroker.hpp:383-385 | the mode is shutdown; `DisabledForeverStaysDisabled` proves it persists over any later calls |
| CompilerActivity.CompareAndSwapMode | src/hotspot/share/compiler/compileBroker.hpp:365 | `cmpxchg` returns the old mode, stores `desired` only when the old mode equalled `expected`, and touches no other field |
| CompilerActivity.SetShouldCompileNewJobs | src/hotspot/share/compiler/compileBroker.hpp:363-375 | succeeds iff the mode was `1 - new_state`. On success the mode becomes `new_state` and only one counter moves: the restarted count for run, else the stopped count. On failure nothing changes |
| CompilerActivity.DisableCompilationForever | src/hotspot/share/compiler/compileBroker.hpp:377-381 | afterwards compilation is disabled forever, `should_compile_new_jobs` is false, both flags are cleared, and counters and latch are kept |
| CompilerActivity.ShouldPrintCompilerWarning | src/hotspot/share/compiler/compileBroker.hpp:390-394 | answers true iff the latch was 0; on success the latch becomes exactly 1; on failure nothing changes; no other field ever changes |
| CompilerActivity.ShutdownIsAbsorbing | src/hotspot/share/compiler/compileBroker.hpp:363-385 | from shutdown, a stop or run request never succeeds and changes nothing |
| CompilerActivity.WarningPrintedAtMostOnce | src/hotspot/share/compiler/compileBroker.hpp:390-394 | over any call sequence the warning query answers true at most once, and never once the latch is set |
| CompilerActivity.DisabledForeverStaysDisabled | src/hotspot/share/compiler/compileBroker.hpp:377-385 | from shutdown, any later sequence of calls ends in shutdown with no successful toggle and no compilation |
| CompilerActivity.DisableAnywhereIsFinal | src/hotspot/share/compiler/compileBroker.hpp:377-385 | a sequence that contains `disable_compilation_forever` anywhere ends disabled forever and not compiling |
| CompilerActivity.CallKeepsCountersBalanced | src/hotspot/share/compiler/compileBroker.hpp:363-375 | each call keeps the counters matched to the mode: equal while running, one more stop while stopped (mod 2^32) |
| CompilerActivity.RunKeepsCountersBalanced | src/hotspot/share/compiler/compileBroker.hpp:363-375 | the same balance holds after any sequence of well-formed calls |
| CompilerActivity.CountersCountSuccesses | src/hotspot/share/compiler/compileBroker.hpp:367-374 | with no wrap, the stopped plus restarted total grows by exactly the number of successful toggles |
| CompilerCounters.CStrLen | src/hotspot/share/compiler/compileBroker.hpp:80 | the length of a C string is the position of its first NUL, or the whole sequence if it has none |
| CompilerCounters.StrNCpy | src/hotspot/share/compiler/compileBroker.hpp:80 | `strncpy` copies the string's characters up to position n, pads with NULs up to n, and leaves the rest of the buffer untouched |
| CompilerCounters.SetCurrentMethod | src/hotspot/share/compiler/compileBroker.hpp:65-82 | the 160-character buffer ends in NUL; it reads as the name's prefix of length min(strlen, 159) followed only by NULs; a name shorter than 160 characters is kept whole |

## Left out

- The `make_*` transition operations, `report_illegal_transition` and `set_state`: their bodies are in the region's `.cpp` file, which is not part of this model. Only the relation the diagram draws is modelled. The `*_bypass` operations that skip the graph are left out too.
- The region's `_index` and `_state` fields and `MIN_NUM_REGIONS`: no modelled operation reads them. The state is modelled through the transition relation alone, and the region count is set by `setup_sizes`.
- The plain stores and queries `set_top`, `new_top`/`set_new_top`, `block_is_obj` and the bitmap-reset flag accessors. `set_top` stores any address without checking it, so the model assumes the `bottom <= top <= end` invariant (`WellFormed`) rather than proving that the region's callers keep it.
- CompilerCounters.SetCurrentMethod: counts the name in `char`s, one per C byte. It does not model how a UTF-8 method name is encoded, so it does not state whether truncation splits a multi-byte character.
- `allocate`, `allocate_aligned` and the shared/TLAB/GCLAB/PLAB tallies: the bodies are in `.inline.hpp`/`.cpp` files that are not part of this model.
- Live-data counters, `garbage`, pin counts (`record_pin`/`record_unpin`), `try_recycle*`, `humongous_start_region`, commit/uncommit and `setup_sizes`: their bodies are not part of this model.
- `oop_coalesce_and_fill`, the two humongous-slice iterators, `block_start`/`block_size`, `print_on`, the update watermark and `top_before_promote`: these are object iteration, reporting or code that is not shown.
- Concurrency: `Atomic::load`, `cmpxchg` and `xchg`, the heap lock and the volatile fields. Each compare-and-swap is one atomic step; races between threads are not modelled.
- `_empty_time` (a `double`), the size masks, the TLAB size limits, and the `jint` conversion helpers with their sanity asserts.
- The `ShenandoahHumongousMoves` flag and the `CENSUS_NOISE` build option are plain boolean parameters.
- `markWord::max_age` is taken as 15, the largest value of the 4-bit object-header age field. `markWord.hpp` is not part of this model.
- The rest of `CompileBroker`: thread creation, compile queues, `compile_method`, timers, perf counters and logging. Also `CompilerCounters::set_compile_type`, a plain field store.
- CompilerActivity.SetShouldCompileNewJobs: requires that `1 - new_state` is a `jint`. In C++, that subtraction overflows (undefined behaviour) for the two smallest `jint` values.
- CompilerActivity.ShutdownIsAbsorbing: stated only for stop and run requests. The model assumes toggle requests pass stop or run; the header does not enforce this, and a `new_state` of -1 would swap shutdown out.
- CompilerActivity.CountersCountSuccesses: assumes the 32-bit counters do not wrap during the sequence. `CountersBalanced` covers the wrapped case for the stop/run balance.
- RegionGeometry.RequiredRegions: the ceiling property is stated only when `bytes + region_size_bytes - 1` fits in `size_t`. The model keeps the source's wrap-around for larger byte counts.
