# Leaper, modelled and proved in Dafny

Leaper is a learned block prefetcher for LSM-tree stores: it counts accesses per key range, predicts
which ranges will be read during and after a compaction, evicts the cold input blocks and warms the
hot output blocks. This project models its engine-independent core, the job protocols of the LevelDB
and RocksDB adapters, the measurement arithmetic of the benchmark and the trainer's key range
selection, and proves what the design promises of them. `dafny verify dfyconfig.toml` checks all of it.

| file | component |
|---|---|
| `Types.dfy` | block references, spans, ascending id lists, 64-bit wrap-around, division |
| `Overlap.dfy` | hot ids to spans, the two strategies of the overlap check |
| `Mappers.dfy` | the prefix and the decimal key mapper with their inverses |
| `Collector.dfy`, `RecordRace.dfy` | the ring of packed counters; `Record` as a lock-free algorithm |
| `Predictor.dfy` | multi-step prediction and its memo |
| `Ssad.dfy`, `Jobs.dfy` | the health state machine; the stack of job contexts |
| `LeaperCore.dfy` | `LeaperImpl`: the policies and the two phases, on top of all of the above |
| `RocksJobs.dfy`, `RocksWarm.dfy` | overlapping jobs on RocksDB; budgets of warm reads |
| `LevelDb.dfy` | nested jobs on LevelDB and the warm queue |
| `Gbdt.dfy` | the flat-array tree walk |
| `Histogram.dfy`, `StatsCache.dfy` | latency percentiles; the accounting cache decorator |
| `KeyRange.dfy` | Algorithm 1 in the trainer |

The pattern throughout: a state machine or a loop is specified by functions on values; whole-run
properties are lemmas about those functions; classes and methods keep the source's in-place updates
and loops and are proved against the functions.

## Where the code and its promises part

Each of these is stated with the exact condition under which the promise holds, for all inputs, and
with an input that breaks it.

- The scan `[RangeStartKey(i), RangeStartKey(j + 1))` is exactly ranges i..j if and only if its end
  still has a key: `(j + 1) * range_size` below 2^64 for the prefix mapper (`PrefixScan`), a width of
  at most 19 and a numeral of that width for the decimal one (`DecimalScan`). When the ranges fill the
  key space, the last one is never scanned to its end.
- The decimal mapper keeps byte order on digit strings up to the width if and only if the width is at
  most 19 (`DecimalMonotoneIff`). Up to a length above the width it does so if and only if that length
  is at most 19 and ranges are larger than 10^length - 11 (`DecimalOrderNeedsWidth`). With other
  characters no earlier key maps above a given one if and only if that key's digits do not end early
  at a character above '9', or filled up with nines are still in its range (`DecimalOrderNeedsDigits`).
- "The first access of a slot is always recorded" holds for every slot but slot 0, where a zeroed cell
  already reads as epoch 0; there an access shows iff some access was kept (`SampledZeroOne`).
- Over all interleavings of `Record` no call is lost, and counting is exact, if and only if all calls
  race in one slot (`ExactIffOneSlot`); otherwise a call can be dropped (`LosingSchedule`). No slot ever
  reads more than it held plus its own calls if and only if all calls race in one slot, or in pairwise
  different slots none of which is the cell's (`OwnCallsOnlyIff`); two calls of slot 1 and one of slot
  1 + ring can break it (`MixedSlotsMisattribute`).
- The memo of the predictor has no threshold in its key: filled at x it is right at y for all models
  and tables if and only if x == y (`MemoThresholdIff`). It also trusts the clock: after every log it
  survives an access if and only if no history slot has that access's ring cell, or the access is one
  of slot 0 that sampling skips while slot 0 is still in the history or current (`MemoSurvivesIff`).
  Once a whole history has passed, the first condition means the cell of the current slot
  (`HarmlessIsSameCell`). A reader thread that stalls between taking the time and recording can break
  this; `BreakingRun` gives a run for every such access.
- The byte budget test adds in 64 bits. One decision is exact if and only if the sum does not wrap into
  the budget (`DecisionExactIff`). Modulo 2^64 all runs keep to max_prefetch_frac * cache_bytes per job
  (`JobsStayWithinBudget`); outright they do if and only if the policy warms nothing or budget plus
  largest block stays below 2^64 (`BudgetHoldsIff`).
- `ToSpans` yields separated spans unless the greatest 64-bit id is repeated (`ToSpans`).
- The structural checks of `LoadString` accept arrays with a cycle (`ChecksAllowCycle`) or with a child
  index past the arrays (`ChecksAllowStrayChild`). Arrays stand for a tree if and only if every walk
  from the root ends at a leaf, inside the arrays, within as many steps as there are nodes
  (`EncodesTreeIff`).
- The histogram's 3% resolution ends at 2079 * 2^29 us, a little above 2^40 us (`ResolutionIff`).
- A prefetched entry's balance survives a hit if and only if its 32-bit hit count does not wrap
  (`HitBalancedIff`); over a run the prefetch counter is off by exactly the wrapped hits, so it
  balances if and only if there are none (`ExactIffNoWrap`).
- The trainer's comment calls the count test and the proportion test the same. They agree on every
  trace and every alpha if and only if key_space // a is odd (`CountsAreProportionsIff`); for an even
  one the trace without reads tells them apart (`EmptyTraceTells`).
- The binary search for "the largest" size finds it if and only if the midpoints below it on the
  bisection towards it all pass (`SelectedIsLargestIff`); it can stop at 2 when 3 passes
  (`SearchCanMissLargest`).
- In relative mode a first miss ratio of 0 makes the baseline 0 for ever (`ZeroSeedIsPermanent`), and
  for alpha below 1 nothing else does (`ZeroBaselineIff`).

## Model

| member | source | states |
|---|---|---|
| `Overlap.SpansOrdered` | leaper/src/overlap.cc:9-19 | for every ascending list the spans are in order, end at the last id, and are separated iff the greatest id is not repeated |
| `Overlap.SpansCover` | leaper/src/overlap.cc:9-19 | the spans cover exactly the ids of the list, both directions |
| `Overlap.ToSpans` | leaper/src/overlap.cc:9-19 | the loop yields ordered spans that cover exactly its input; non-adjacent iff the 64-bit wrap of end + 1 is not hit |
| `Overlap.MeetsIsContainsHot` | leaper/src/overlap.cc:21-30 | a block's inclusive interval meets a span iff it contains a covered id |
| `Overlap.BlockOverlaps` | leaper/src/overlap.cc:21-30 | the binary search answers yes iff the block contains a covered id |
| `Overlap.SelectBySearch` | leaper/src/overlap.cc:41-46 | the search branch returns the reference list of meeting blocks |
| `Overlap.SelectByMerge` | leaper/src/overlap.cc:48-61 | the forward-only cursor returns the same reference list although blocks may overlap or nest |
| `Overlap.SelectOverlapping` | leaper/src/overlap.cc:32-62 | whichever branch the cost model picks: ascending, duplicate-free, exactly the blocks with a hot id |
| `Mappers.PrefixMap` | leaper/src/leaper.cc:64-72 | the shift loops compute the first eight bytes, zero-padded on the right, as a base-256 number, divided |
| `Mappers.PrefixStartKey` | leaper/src/leaper.cc:74-79 | the eight bytes read back as range * size reduced to 64 bits |
| `Mappers.PrefixMonotone` | leaper/src/leaper.cc:64-72 | byte order implies range order for all byte strings |
| `Mappers.PrefixScan` | leaper/src/leaper.cc:74-79 | the scan interval of ranges i..j holds exactly their keys of 8+ bytes iff (j + 1) * size < 2^64 |
| `Mappers.DecimalMap` | leaper/src/leaper.cc:89-102 | the two loops compute the leading digits restored to the width, reduced to 64 bits, divided |
| `Mappers.DecimalKeepsOrder` | leaper/src/leaper.cc:89-102 | byte order implies range order for any characters, while the later key's number is 64 bits and its digits do not end early above '9' |
| `Mappers.DecimalMonotoneIff` | leaper/src/leaper.cc:89-102 | for every 64-bit range size, order is kept on all digit strings up to the width iff the width is at most 19 |
| `Mappers.DecimalSeparator` | leaper/src/leaper.cc:98-101 | a shortened separator between two 64-bit keys maps between their ranges, at any width |
| `Mappers.DecimalOrderNeedsWidth` | leaper/src/leaper.cc:89-102 | for every 64-bit range size, order is kept on digit strings up to a length, the width or more, iff the length is at most 19 and is the width or the size is above 10^length - 11 |
| `Mappers.DecimalOrderNeedsDigits` | leaper/src/leaper.cc:92-97 | for every range size, no earlier key maps above a key iff its digits do not end early at a character above '9' or, filled up with nines to the width, are still in its range |
| `Mappers.DecimalStartValue` | leaper/src/leaper.cc:104-109 | round trip at any width: mapping the start key of a representable range gives the range back |
| `Mappers.DecimalScanOfKey` | leaper/src/leaper.cc:104-109 | at any width a full-width 64-bit key is in the scan of ranges i..j iff it belongs to one of them |
| `Mappers.DecimalScan` | leaper/src/leaper.cc:104-109 | at any width the scan is exact for all full-width keys iff the width is at most 19 and (j + 1) * size has a numeral of it |
| `Collecting.CellInjective` | leaper/src/collector.h:49-52 | two (class, slot) pairs share a cell iff same class and slots equal modulo the ring |
| `Collecting.AfterIsCellwise` | leaper/src/collector.cc:30-65 | after any log, each array element is the fold of the accesses to that cell alone |
| `Collecting.CellHoldsLatest` | leaper/src/collector.cc:38-54 | lazy rollover leaves in each cell the newest slot that maps to it and its count, for every log at most `history` slots late |
| `Collecting.RingHoldsWindow` | leaper/src/collector.cc:30-78 | each of the `history` slots before any query slot not before the newest reads the count of the accesses to ranges equal to r modulo the table size, with no sweep and after any idle gap |
| `Collecting.UnsampledIsTrue` | leaper/src/collector.cc:56-64 | when every access is kept, the sampled count is the true count |
| `Collecting.SampledZeroOne` | leaper/src/collector.cc:38-51 | sampling turns no accessed slot idle, iff-exact with slot 0 as the exception |
| `Collecting.HistoryExact` | leaper/src/collector.cc:67-78 | History reports, for each preceding slot, the estimate of the sampled accesses to the ranges equal to r modulo the table size; the true count at rate 1; 0 before time 0 |
| `Collecting.HistoryIsOwn` | leaper/src/collector.cc:67-78 | when every range is below the table size, History counts the accesses of the range itself and no other's |
| `Collecting.SeparateIff` | leaper/src/leaper.cc:124-131 | no two ranges of the key space share cells iff the table exceeds the greatest range id, as it does when max_ranges does; the table is less than twice the key space (or 64) and twice max_ranges |
| `Collecting.SlotHoldsTime` | leaper/src/collector.h:39-41 | the slot of a time is the one whose slot_us microseconds it falls into |
| `Collecting.EstimateUnbiased` | leaper/src/collector.h:56-62 | the estimator is unbiased: its mean over all sampling outcomes of n accesses, the first always counted, is n |
| `Collecting.RoundUpPow2` | leaper/src/collector.cc:7-11 | the least power of two not below the argument |
| `Collecting.Collector.constructor` | leaper/src/collector.cc:14-28 | zeroed tables of the least power of two for the asked size, or for 1024; history at least 1 |
| `Collecting.Collector.Record` | leaper/src/collector.cc:30-65 | the in-place update is one step of the log semantics; seen and sampled counters move accordingly |
| `Collecting.Collector.History` | leaper/src/collector.cc:67-78 | the loop returns the rates of the preceding slots, oldest first |
| `RecordRace.OneSlotExact` | leaper/src/collector.cc:34-64 | any number of calls in one slot, any interleaving: none dropped, each counted exactly once |
| `RecordRace.MixedSlotsBound` | leaper/src/collector.cc:34-64 | with mixed slots a cell's count never exceeds what it held plus the calls counted, and its epoch is one that was called |
| `RecordRace.ExactIffOneSlot` | leaper/src/collector.cc:34-64 | over all interleavings no call is dropped, and every call is counted exactly once, iff all calls are in one slot |
| `RecordRace.LosingSchedule` | leaper/src/collector.cc:46-53 | any two calls in different slots have a schedule that drops one of them |
| `RecordRace.OwnCallsOnlyIff` | leaper/src/collector.cc:34-64 | over all interleavings no slot reads more than it held plus its own finished calls iff all calls are in one slot, or in pairwise different slots none of which is the cell's |
| `RecordRace.MixedSlotsMisattribute` | leaper/src/collector.cc:52-64 | at every ring size of 32 bits, two calls of slot 1 and one of slot 1 + ring, which share a cell, have a schedule that credits a slot with another slot's access |
| `RecordRace.WaitFree` | leaper/src/collector.cc:38-64 | a call given four turns has finished, whatever the other calls do |
| `Prediction.ClampSteps` | leaper/src/predictor.cc:88-100 | the steps left are exactly those of the asked range that have a model; a single model always yields one step |
| `Prediction.Score` | leaper/src/predictor.cc:126-131 | the early-exit loop is hot iff some step of the range scores at least the threshold, and runs the models up to the first such step, or all |
| `Prediction.RateFeatures` | leaper/src/predictor.cc:59-61 | after any log, positions 0..history-1 are the estimates of the sampled reads of the preceding slots, oldest first, and the next history ones those of the writes |
| `Prediction.TimeFeatures` | leaper/src/predictor.cc:63-67 | the next three are hour < 24, minute < 60 and second < 60 with 3600h + 60m + s equal to the second modulo 86400 |
| `Prediction.PrecursorFeatures` | leaper/src/predictor.cc:69-78 | the last gamma are the estimates of each precursor's sampled reads in the slot before the current one, 0 where there is no precursor |
| `Prediction.PredictedMeaning` | leaper/src/predictor.cc:88-137 | a range is in the answer iff it is a candidate and some step of lo..hi has a model that scores its features at the threshold or above |
| `Prediction.CurrentSlotIsHarmless` | leaper/src/collector.cc:71-77 | with ring = history + 1 no history slot has the current slot's cell |
| `Prediction.HarmlessKeepsRates` | leaper/src/collector.cc:71-77 | an access in a harmless slot changes no rate, slots before time 0 included |
| `Prediction.HarmlessIsSameCell` | leaper/src/collector.h:50-52 | after a whole history, a slot is harmless iff it has the current slot's ring cell |
| `Prediction.RecordKeepsFeatures` | leaper/src/predictor.cc:59-79 | recording an access in a harmless slot leaves every feature unchanged, precursors included |
| `Prediction.MemoIsPlain` | leaper/src/predictor.cc:102-139 | with agreeing memos the memoised call gives the plain answer and leaves agreeing memos |
| `Prediction.AgreeLater` | leaper/src/predictor.cc:106-109 | time passing keeps memos right: dead ones can never be asked again |
| `Prediction.MemoRefinesPlain` | leaper/src/predictor.cc:81-140 | in every run whose predictions do not go back in time and whose late accesses are harmless, memoised and unmemoised answers are equal |
| `Prediction.SecondAskIsFree` | leaper/src/core_check.cc:252-291 | a second ask in the same second, slot and step range about known ranges runs no model, whatever was recorded in between |
| `Prediction.MemoSaves` | leaper/src/predictor.cc:119-137 | with the memo no call runs more models than without, and none for an empty step range |
| `Prediction.MemoThresholdIff` | leaper/src/predictor.cc:110-117 | a memo filled at threshold x answers rightly at y for all models, tables and candidates iff x == y |
| `Prediction.MemoSurvivesIff` | leaper/src/predictor.cc:102-117 | a memo answers rightly after an access, for all models, candidates and logs up to the current slot, iff the access is harmless or is a skipped one of slot 0 within the first history slots |
| `Prediction.HarmfulAccess` | leaper/src/collector.cc:38-64 | for any other access there is a log of at most one kept access after which it changes some rate from 0 to 1 or back |
| `Prediction.SkippedChangesNothing` | leaper/src/collector.cc:38-62 | a skipped access of slot 0 within the first history slots leaves the tables of every log as they are |
| `Prediction.BreakingRun` | leaper/src/predictor.cc:102-117 | for every access the memo need not survive, a run of at most four events whose memoised and plain answers differ |
| `Prediction.ScanWhileIsScan` | leaper/src/predictor.cc:119-137 | harmless accesses landing between the candidates of one call change nothing it finds, learns or counts |
| `Prediction.Predictor.Features` | leaper/src/predictor.cc:59-79 | the imperative call builds the feature vector whose positions RateFeatures, TimeFeatures and PrecursorFeatures describe |
| `Prediction.Predictor.PredictHot` | leaper/src/predictor.cc:81-140 | the imperative call is the memoised or the plain prediction; it counts its model runs, memo hits and clamped calls |
| `Ssad.SuspendedIff` | leaper/src/leaper.cc:394-415 | after any reports: suspended iff the most recent run of at least `window` equal verdicts was bad; what a verdict is, the next rows say |
| `Ssad.AbsoluteSuspendedIff` | leaper/src/leaper.cc:403-415 | absolute mode, over the reports: suspended iff `window` reports in a row were above the threshold and no `window` in a row at or below it have followed |
| `Ssad.RelativeVerdicts` | leaper/src/leaper.cc:398-402 | relative mode, over the reports: the first is healthy, and each later one is bad iff it exceeds 1 + relative times the average of the healthy ones before it |
| `Ssad.BaselineIsAverage` | leaper/src/leaper.cc:398-402 | the baseline is the exponentially weighted average of the healthy reports, seeded by the first |
| `Ssad.DisabledIsInert` | leaper/src/leaper.cc:395 | with both thresholds off no report changes anything |
| `Ssad.SuspensionsCountSwitches` | leaper/src/leaper.cc:409-411 | the counter equals the number of off switches of the history |
| `Ssad.BaselineBounds` | leaper/src/leaper.cc:398-402 | after n healthy reports the baseline lies in [seed(1-a)^n, seed(1+a*rel)^n] |
| `Ssad.ZeroSeedIsPermanent` | leaper/src/leaper.cc:398-402 | a zero seed stays zero, so every later nonzero miss ratio is unhealthy |
| `Ssad.ZeroBaselineIff` | leaper/src/leaper.cc:398-402 | for alpha below 1 the baseline is zero iff the seed was |
| `Jobs.RunRestores` | leaper/src/leaper.cc:177-191 | any well-bracketed run gives back stack, hot spans, budget and flush flag |
| `Jobs.ItemRestores` | leaper/src/leaper.cc:348-364 | a nested job gives the enclosing context back exactly, bytes spent included |
| `Jobs.NonInterference` | leaper/src/leaper.cc:178-191 | deleting any nested jobs at any depth, keeping their health reports, changes no remaining answer and no final job state |
| `Jobs.SpentIsOwnBytes` | leaper/src/leaper.cc:338-345 | whatever the block sizes, the bytes spent are the job's own accepted bytes modulo 2^64 and within the budget; exactly those bytes when no sum can wrap |
| `Jobs.JobsStayWithinBudget` | leaper/src/leaper.cc:187-191 | in every well-bracketed run and policy each job, at any depth, accepts at most max_prefetch_frac * cache_bytes bytes modulo 2^64, and outright when no sum can wrap; stated on the two options themselves |
| `Jobs.BudgetHoldsIff` | leaper/src/leaper.cc:338-345 | for blocks up to a size, all jobs of all runs keep to max_prefetch_frac * cache_bytes iff the policy warms nothing or budget + size < 2^64 |
| `Jobs.BudgetIsFraction` | leaper/src/leaper.cc:338-345 | while no sum can wrap, in every job at every depth a wanted block is refused iff it would bring the job's own accepted bytes above max_prefetch_frac * cache_bytes |
| `Jobs.FirstAskByPolicy` | leaper/src/leaper.cc:314-346 | per policy, in ids: the first block of a job is accepted iff it fits and the policy warms all, warms flushes and it is one, or a planned id is in its span |
| `Jobs.DecisionExactIff` | leaper/src/leaper.cc:339-342 | a wanted block is accepted iff it fits what is left, exactly when the 64-bit sum does not wrap into the budget |
| `Jobs.AcceptedPlusRefused` | leaper/src/leaper.cc:338-345 | in any run accepted plus refused blocks are the wanted ones |
| `LeaperCore.CandidatesAreBlockIds` | leaper/src/leaper.cc:432-446 | below the hard cap the candidates are exactly the ids of the clamped blocks |
| `LeaperCore.ExpandRanges` | leaper/src/leaper.cc:432-446 | the nested loops with both guards collect the sorted, distinct, capped ids |
| `LeaperCore.ScoredMeaning` | leaper/src/leaper.cc:256-268 | a candidate is in the hot list of steps lo..hi iff some step of them has a model that scores its features at the threshold or above; a single model has every step |
| `LeaperCore.PhasesMeaning` | leaper/src/leaper.cc:256-268 | the two hot lists are the candidates scored hot by a model of steps 1..k1 and of k1+1..k1+k2; a flush has 1..k2 alone |
| `LeaperCore.K1` | leaper/src/leaper.cc:241-247 | the least number of slots, at least 1, that covers t1_seconds or else t1_alpha per block |
| `LeaperCore.K2` | leaper/src/leaper.cc:244-248 | the least number of slots, at least 1, that covers t2_seconds or else t2_beta times the load per byte of cache |
| `LeaperCore.ColdPartInIds` | leaper/src/leaper.cc:283-311 | blocks meeting no kept span are, as a multiset, the blocks whose span has no hot id |
| `LeaperCore.LeaperImpl.BeginThenAsk` | leaper/src/leaper.cc:247-345 | after OnCompactionBegin an output block is accepted iff its span has a candidate scored hot by a model of steps k1+1..k1+k2 (1..k2 for a flush) and it fits max_prefetch_frac * cache_bytes; a compaction's evictions are the input blocks without a candidate scored hot in steps 1..k1 |
| `LeaperCore.LeaperImpl.AcceptedAfterRun` | leaper/src/leaper.cc:334-364 | and so after any well-bracketed run of asks, reports and nested jobs that leaves Leaper unsuspended, with the job's own bytes against max_prefetch_frac * cache_bytes |
| `LeaperCore.SortByFirst` | leaper/src/leaper.cc:295-299 | sorted by first range and a permutation |
| `LeaperCore.LeaperImpl.Predict` | leaper/src/leaper.cc:256-268 | through the memo, the answer is the unmemoised one for the present tables |
| `LeaperCore.LeaperImpl.EvictCold` | leaper/src/leaper.cc:283-311 | the Evict calls are, as a multiset, exactly the input blocks that meet no kept span |
| `LeaperCore.LeaperImpl.PlanIncremental` | leaper/src/leaper.cc:205-223 | hot spans cover exactly the ids of cached inputs; exactly the cached inputs are evicted, each once |
| `LeaperCore.LeaperImpl.OnCompactionBegin` | leaper/src/leaper.cc:174-312 | job state moves as the context stack says; learned: spans cover exactly the candidates scored hot by a model of steps k1+1..k1+k2 (1..k2 for a flush), and a compaction evicts exactly the blocks without one in 1..k1; incremental and oracle: their own spans and evictions |
| `LeaperCore.LeaperImpl.ShouldPrefetch` | leaper/src/leaper.cc:314-346 | the answer and new state of the context machine, for every policy |
| `LeaperCore.LeaperImpl.OnCompactionEnd` | leaper/src/leaper.cc:348-364 | pops the enclosing context, or clears the spans at depth 0 |
| `LeaperCore.LeaperImpl.SetHealth` | leaper/src/leaper.cc:394-415 | one report of the health machine, of which AbsoluteSuspendedIff and RelativeVerdicts speak; nothing else changes |
| `LeaperCore.LeaperImpl.OnAccess` | leaper/src/leaper.cc:164-172 | only the learned policy collects; memos stay in agreement, late harmless accesses included |
| `RocksJobs.AskingIsFree` | adapters/rocksdb/leaper_rocksdb.cc:196-219 | size-0 asks change no context, so choosing depends only on the job's own context |
| `RocksJobs.ChosenAreWanted` | adapters/rocksdb/leaper_rocksdb.cc:216-219 | the chosen list holds exactly the ranges the policy wants |
| `RocksJobs.JobIsolation` | adapters/rocksdb/leaper_rocksdb.cc:184-277 | every interleaving of overlapping jobs: depth is the number of live jobs, the initial context is back when none is, and each job warms what it would choose alone |
| `RocksJobs.ChosenAreHot` | adapters/rocksdb/leaper_rocksdb.cc:196-219 | under the learned policy a job chooses exactly the ranges its own prediction calls hot, whatever stack it begins on |
| `RocksJobs.JobWarmsItsHotRanges` | adapters/rocksdb/leaper_rocksdb.cc:184-277 | and in every interleaving of overlapping jobs it warms exactly those |
| `RocksJobs.ChoosingMustBeAtomic` | adapters/rocksdb/leaper_rocksdb.cc:267-276 | without the common mutex a pop between Begin and its asks empties the flush's choice |
| `RocksJobs.Listener.Begin` | adapters/rocksdb/leaper_rocksdb.cc:184-231 | one Begin section of the protocol, on the core; a learned, unsuspended core chooses exactly the ranges scored hot by a model of the steps after the job; in prepop mode they go to the thread's job instead of the map |
| `RocksJobs.Listener.TakePending` | adapters/rocksdb/leaper_rocksdb.cc:233-242 | the job's list leaves the map; an unknown job gets none |
| `RocksWarm.ScanRange` | adapters/rocksdb/leaper_rocksdb.cc:335-357 | within the budget bound; unless exhausted every key of the interval is visited |
| `RocksWarm.WarmFromFiles` | adapters/rocksdb/leaper_rocksdb.cc:305-369 | at most budget + c - 1 blocks whatever the files and ranges; with no stop every key of every opened file in a chosen range is visited |
| `RocksWarm.CoversWholeRanges` | adapters/rocksdb/leaper_rocksdb.cc:335-351 | with the decimal mapper the visited 64-bit keys are those of the chosen ranges themselves, at any width |
| `RocksWarm.Prefetch` | adapters/rocksdb/leaper_rocksdb.cc:109-145 | one iterator scan stays within what is left plus c - 1, charges what it read, stops only for the budget, and unless stopped visits warm_scan_keys keys or the whole interval |
| `RocksWarm.WarmByIterator` | adapters/rocksdb/leaper_rocksdb.cc:259-266 | over all chosen ranges at most budget + c - 1 blocks, although 0 left means unlimited inside a scan; unless the budget is used up every range is scanned |
| `RocksWarm.PrepopJob.ShouldWarm` | adapters/rocksdb/leaper_rocksdb.cc:65-82 | yes iff the block's span holds a chosen range and the budget is not spent; warmed plus left is constant |
| `LevelDb.SameDepth` | adapters/leveldb/leaper_leveldb.cc:155-160 | adapter and core stacks stay equally deep in any callback sequence, matched or not |
| `LevelDb.ContentExec` | adapters/leveldb/leaper_leveldb.cc:184-198 | a file's accepted blocks join the waiting list across flushes in its middle |
| `LevelDb.OutputsExec` | adapters/leveldb/leaper_leveldb.cc:179-228 | one batch per finished file with exactly its accepted blocks; unfinished files' blocks stay waiting |
| `LevelDb.JobExec` | adapters/leveldb/leaper_leveldb.cc:138-238 | a whole job restores the adapter and hands each accepted block of a finished file over exactly once, in its file's batch |
| `LevelDb.JobConservation` | adapters/leveldb/leaper_leveldb.cc:195-238 | blocks the core counts as prefetched are those handed over plus those of unfinished files, at any depth |
| `LevelDb.QueueIsFifo` | adapters/leveldb/leaper_leveldb.cc:77-106 | batches are warmed at most once and in order; before a shutdown none is lost |
| `LevelDb.BlockOf` | adapters/leveldb/leaper_leveldb.cc:114-124 | the bounds are the ranges of the two keys without their 8-byte tags, clamped to the key space and in order; place and size are kept |
| `LevelDb.LevelDbAdapter.OnCompactionBegin` | adapters/leveldb/leaper_leveldb.cc:138-177 | builds the input references, counts the cached ones a compaction invalidates, pushes list and current file, and begins the core's job, whose spans and evictions are those the core plans from the references |
| `LevelDb.LevelDbAdapter.OnOutputBlock` | adapters/leveldb/leaper_leveldb.cc:184-198 | the block waits iff the core accepts it |
| `LevelDb.LevelDbAdapter.OnOutputFileFinished` | adapters/leveldb/leaper_leveldb.cc:200-228 | hands over and removes exactly the file's blocks; an empty batch is not handed over |
| `LevelDb.LevelDbAdapter.OnCompactionEnd` | adapters/leveldb/leaper_leveldb.cc:230-238 | pops core and adapter |
| `Gbdt.EncodingUnique` | leaper/src/gbdt.cc:124-130 | arrays stand for at most one tree |
| `Gbdt.PathFits` | leaper/src/gbdt.cc:124-130 | no path outgrows the node arrays, even where subtrees are shared |
| `Gbdt.Walk` | leaper/src/gbdt.cc:124-131 | the index walk follows the arrays from the root, left iff the feature is at most the threshold, and ends within the number of internal nodes at the tree's leaf |
| `Gbdt.ScoreOfWalk` | leaper/src/gbdt.cc:124-135 | a tree contributes the value of the leaf that the walk on the arrays ends at, or nothing if there is no such leaf |
| `Gbdt.RawScore` | leaper/src/gbdt.cc:116-137 | the sum of the trees' leaf values; single-leaf trees count their leaf, leafless trees nothing |
| `Gbdt.SumIsAdditive` | leaper/src/gbdt.cc:116-137 | a model's score is the sum of the scores of its parts, down to single trees |
| `Gbdt.EncodesTreeIff` | leaper/src/gbdt.cc:90-130 | arrays stand for a tree iff every walk from the root ends at a leaf, inside the arrays, within as many steps as nodes |
| `Gbdt.ChecksAllowCycle` | leaper/src/gbdt.cc:90-108 | accepted arrays with a cycle, which encode no tree |
| `Gbdt.ChecksAllowStrayChild` | leaper/src/gbdt.cc:90-108 | accepted arrays with a child index past the arrays, which encode no tree |
| `Histogram.BucketOfValue` | bench/include/leaper_bench/histogram.h:31-45 | each bucket's value falls into that bucket |
| `Histogram.BucketMonotone` | bench/include/leaper_bench/histogram.h:31-37 | larger latencies never go into smaller buckets |
| `Histogram.RawResolution` | bench/include/leaper_bench/histogram.h:31-45 | a latency is at most a 32nd above its bucket's value |
| `Histogram.ResolutionIff` | bench/include/leaper_bench/histogram.h:31-45 | with the cut at the last bucket that holds iff us <= 2079 * 2^29 |
| `Histogram.KthIsInCrossingBucket` | bench/include/leaper_bench/histogram.h:69-73 | the bucket where the running count reaches k is the k-th smallest latency's |
| `Histogram.KthExists` | bench/include/leaper_bench/histogram.h:68-73 | there is a k-th smallest latency, so the statement about percentiles is not empty |
| `Histogram.Percentile` | bench/include/leaper_bench/histogram.h:63-75 | with target <= total * p < target + 1, the value of the bucket of the target-th smallest latency between the snapshots: v <= s, and s - v <= v/32 below the cut |
| `Histogram.SnapshotsDiffer` | bench/include/leaper_bench/histogram.h:47-56 | two snapshots of a growing log differ by what was recorded in between |
| `Histogram.Recorder.Add` | bench/include/leaper_bench/histogram.h:47-49 | the buckets count the log extended by the latency |
| `Histogram.Recorder.AccumulateInto` | bench/include/leaper_bench/histogram.h:52-56 | each bucket's count of the log is added |
| `StatsCache.InsertBalanced` | bench/include/leaper_bench/stats_cache.h:81-96 | inserting keeps every balance |
| `StatsCache.DispatchBalanced` | bench/include/leaper_bench/stats_cache.h:212-229 | deleting any entry keeps every balance |
| `StatsCache.HitBalancedIff` | bench/include/leaper_bench/stats_cache.h:111-124 | a hit keeps the balance iff the entry's 32-bit count does not wrap, and otherwise puts it off by one |
| `StatsCache.Conservation` | bench/include/leaper_bench/stats_cache.h:81-132 | every run, any evictions and hit counts: lookups = hits + misses; inserts, bytes (also per slot) and both prefetch counters balance against the undeleted entries, up to the wrapped hits |
| `StatsCache.ExactIffNoWrap` | bench/include/leaper_bench/stats_cache.h:111-124 | at any point of any run the counters balance exactly iff no hit count has wrapped |
| `StatsCache.CountersTally` | bench/include/leaper_bench/stats_cache.h:81-132 | every run: workload, background and policy lookups, hits, inserts, prefetches, deletions and erasures are each the number of such operations |
| `StatsCache.ReadOnceIsBlocksRead` | bench/include/leaper_bench/stats_cache.h:111-124 | prefetch precision: while no hit count has wrapped, pf_read_once is the number of different prefetched blocks the workload has read |
| `StatsCache.TrackingCache.InsertBlock` | bench/include/leaper_bench/stats_cache.h:81-96 | counters and entry as the step says, balance kept |
| `StatsCache.TrackingCache.LookupBlock` | bench/include/leaper_bench/stats_cache.h:98-132 | policy, background and workload lookups are kept apart; a workload hit stamps the slot cache_id modulo the table size; balance kept |
| `StatsCache.TrackingCache.DispatchEntry` | bench/include/leaper_bench/stats_cache.h:212-229 | eviction accounting, balance kept |
| `KeyRange.CoarsenRead` | tools/train_leaper.py:116-126 | coarsening a packed cell of the finest grid gives the packed coarse cell of the read |
| `KeyRange.ZerosForIsExact` | tools/train_leaper.py:116-128 | for every trace and every multiple of the initial size the derived zero count is the count from the raw keys |
| `KeyRange.ExpandKeeps` | tools/train_leaper.py:130-155 | doubling stays on multiples of the initial size with enough ranges |
| `KeyRange.ExpandStopsFirst` | tools/train_leaper.py:130-155 | the expanded size is the first of a, 2a, 4a, ... whose double does not fit, leaves too few ranges, or fails 2 * zeros(2a) > alpha * zeros(a), counted on the raw reads |
| `KeyRange.TopMultipleIs` | tools/train_leaper.py:159-163 | the search looks at the multiples up to twice the expanded size, within the key space, that leave min_ranges whole ranges or are the initial size |
| `KeyRange.RangesAreThoseOfKeys` | tools/train_leaper.py:122-128 | the ranges counted at a size are exactly those of the keys of the key space |
| `KeyRange.SelectedIsSound` | tools/train_leaper.py:159-176 | the result is a multiple between the expanded size and twice it, is the expanded size or has s * zeros(s) > alpha * e * zeros(e) counted on the raw reads, and is the initial size or leaves min_ranges ranges |
| `KeyRange.SelectedIsLargestIff` | tools/train_leaper.py:159-176 | the result is the largest passing size iff the midpoints below it on the bisection towards it all pass |
| `KeyRange.DownwardClosedFindsLargest` | tools/train_leaper.py:159-176 | where the test passes below whatever passes, the largest is found |
| `KeyRange.SearchCanMissLargest` | tools/train_leaper.py:159-176 | a trace on which a larger passing size is missed |
| `KeyRange.CountsAreProportionsIff` | tools/train_leaper.py:87-91 | the count test and the proportion test agree on every trace and alpha iff key_space // a is odd |
| `KeyRange.EmptyTraceTells` | tools/train_leaper.py:87-91 | for an even key_space // a the trace without reads, at alpha 1, tells the two tests apart |
| `KeyRange.SelectKeyRange` | tools/train_leaper.py:130-176 | the two loops compute the selected size |

## Left out

- Floating point: doubles and floats are `real`, so rounding (the estimator, the SSAD average, the budget product, `total * p`, scores) is not modelled; budgets, scores and times are taken as finite.
- Integer widths: cell words, range * size, spent + size, span ends and hit counts wrap as in the source; counters of events, microseconds and bucket counts do not. Logs stay below 2^32 slots and 2^32 accesses per cell where a lemma says so.
- Model scores are an arbitrary function of the feature vector; LightGBM text parsing, the sigmoid and training are not modelled.
- Clocks are arguments; predictions do not go back in time, accesses may where that is harmless; `ResetClock` and the timing counters (`inference_us`, `overlap_us`, `warm_us`) are not modelled.
- Sampling is an arbitrary keep-or-skip per access; the xorshift generator is not modelled, and the unbiasedness lemma takes the outcomes as independent.
- LeaperCore.LeaperImpl.constructor: requires a key space below 2^64 - 1, because the id loop of ExpandRanges would otherwise wrap around until the hard cap.
- Mappers.DecimalStartKey: widths above 39, which the source's 40-byte buffer cannot hold, are taken as the padded numeral.
- Mappers.DecimalOrderNeedsDigits: is stated for keys with no more leading digits than the width, whose digits filled up with nines are a 64-bit number, as at every width up to 19.
- Mappers.DecimalOrderNeedsWidth: is stated for range sizes of 64 bits, which is the type of the option.
- Ssad.RelativeVerdicts: takes miss ratios that are not negative and an average weight between 0 and 1, as do the other lemmas about the baseline; outside of that the baseline can turn negative and is seeded again.
- RocksJobs.JobIsolation: has no health reports between the sections, since a suspension between two jobs rightly changes what they choose.
- RocksJobs.Listener.Begin: takes the thread's prepop job as an argument.
- RecordRace.ExactIffOneSlot: takes slots and counts that fit their 32 bits.
- RecordRace.OwnCallsOnlyIff: takes the same.
- Prediction.MemoSurvivesIff: takes slot numbers of 32 bits and logs of fewer than 2^32 accesses.
- LevelDb.LevelDbAdapter.OnOutputBlock: is one step although the source takes its mutex twice, because LevelDB issues the callbacks of nested jobs from one background thread.
- Collecting.Collector.Record: is the call without a concurrent writer; interleaved calls are in RecordRace, on one cell and at sampling rate 1.
- Histogram.Recorder.Add: a snapshot is taken between additions; a reader running beside the writers is not modelled.
- StatsCache: the staleness scan of a snapshot and the untracked mode are not modelled.
- `OnFileObsolete`, option parsing and plain getters would only add easy members.
- Engine internals (LevelDB, RocksDB and their patches), table readers, the benchmark drivers, key generators, logging, plotting and calibration.
- Precursor selection (Algorithm 2), the label builder and the metrics of the trainer.
