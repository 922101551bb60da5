/**
  LeaperImpl: the policy switch and the two-phase prefetcher (section 6.2 of the paper) over the
  collector, the predictor and the overlap check, with CacheOps as a log of the calls made on it.
 */
module LeaperCore {
  import opened Types
  import opened Overlap
  import opened Collecting
  import opened Prediction
  import Ssad
  import Jobs

  datatype LeaperOptions = LeaperOptions(
    jobs: Jobs.Options,
    maxRangeId: RangeId,
    slotSeconds: real,
    t1Alpha: real, t2Beta: real, t1Seconds: real, t2Seconds: real,
    dryRun: bool,
    phase1: bool)

  /** kMaxCandidates */
  const MAX_CANDIDATES: nat := 0x10_0000

  // ----- candidates -------------------------------------------------------------------------

  function Cap(r: RangeId, cap: RangeId): RangeId {
    if r < cap then r else cap
  }

  /** lo, lo + 1, ... : n ids. */
  function Consecutive(lo: RangeId, n: nat): (ids: seq<RangeId>)
    ensures |ids| == n && forall i :: 0 <= i < n ==> ids[i] == lo + i
  {
    if n == 0 then [] else Consecutive(lo, n - 1) + [lo + n - 1]
  }

  /** The ids of one block, both bounds cut to the configured key space. */
  function BlockIds(b: BlockRef, cap: RangeId): seq<RangeId> {
    var lo, hi := Cap(b.first, cap), Cap(b.last, cap);
    if lo <= hi then Consecutive(lo, hi - lo + 1) else []
  }

  /** An id of the block, if its bounds above the key space are taken as the greatest id of that. */
  predicate InCapped(b: BlockRef, cap: RangeId, r: RangeId) {
    (b.first <= r || cap <= r) && r <= b.last && r <= cap
  }

  lemma BlockIdsMembers(b: BlockRef, cap: RangeId, r: RangeId)
    ensures r in BlockIds(b, cap) <==> InCapped(b, cap, r)
  {
    var lo, hi := Cap(b.first, cap), Cap(b.last, cap);
    if lo <= r <= hi { assert BlockIds(b, cap)[r - lo] == r; }
  }

  function AllIds(blocks: seq<BlockRef>, cap: RangeId): seq<RangeId> {
    if blocks == [] then []
    else AllIds(blocks[..|blocks| - 1], cap) + BlockIds(blocks[|blocks| - 1], cap)
  }

  lemma {:induction false} AllIdsMembers(blocks: seq<BlockRef>, cap: RangeId, r: RangeId)
    ensures r in AllIds(blocks, cap) <==> exists i :: 0 <= i < |blocks| && InCapped(blocks[i], cap, r)
  {
    if blocks != [] {
      var n := |blocks| - 1;
      AllIdsMembers(blocks[..n], cap, r);
      BlockIdsMembers(blocks[n], cap, r);
      assert forall i :: 0 <= i < n ==> blocks[..n][i] == blocks[i];
    }
  }

  /** At most limit + 1 ids are collected. */
  function Truncated(ids: seq<RangeId>, limit: nat): (t: seq<RangeId>)
    ensures t <= ids && |t| == Min(|ids|, limit + 1)
  {
    if |ids| <= limit + 1 then ids else ids[..limit + 1]
  }

  function Candidates(blocks: seq<BlockRef>, cap: RangeId, limit: nat): (c: seq<RangeId>)
    ensures StrictlyAscending(c)
  {
    SortUnique(Truncated(AllIds(blocks, cap), limit))
  }

  /** Below the hard cap the candidates are exactly the ids of the clamped blocks. */
  lemma CandidatesAreBlockIds(blocks: seq<BlockRef>, cap: RangeId, limit: nat, r: RangeId)
    requires |AllIds(blocks, cap)| <= limit + 1
    ensures r in Candidates(blocks, cap, limit) <==>
      exists i :: 0 <= i < |blocks| && InCapped(blocks[i], cap, r)
  {
    AllIdsMembers(blocks, cap, r);
  }

  predicate ListOf64Bit(ids: seq<RangeId>) {
    forall i :: 0 <= i < |ids| ==> ids[i] < TWO64
  }

  lemma CandidatesFit(blocks: seq<BlockRef>, cap: RangeId, limit: nat, ids: seq<RangeId>)
    requires cap < TWO64 && forall r :: r in ids ==> r in Candidates(blocks, cap, limit)
    ensures ListOf64Bit(ids)
  {
    forall i | 0 <= i < |ids| ensures ids[i] < TWO64 {
      assert ids[i] in ids;
      assert ids[i] in Truncated(AllIds(blocks, cap), limit);
      AllIdsMembers(blocks, cap, ids[i]);
    }
  }

  lemma TruncatedPrefix(a: seq<RangeId>, b: seq<RangeId>, limit: nat)
    requires |a| > limit
    ensures Truncated(a + b, limit) == Truncated(a, limit)
  {
    assert (a + b)[..limit + 1] == a[..limit + 1];
  }

  lemma {:induction false} AllIdsPrefix(blocks: seq<BlockRef>, i: nat, cap: RangeId)
    requires i <= |blocks|
    ensures AllIds(blocks[..i], cap) <= AllIds(blocks, cap)
    decreases |blocks|
  {
    if i < |blocks| {
      AllIdsPrefix(blocks[..|blocks| - 1], i, cap);
      assert blocks[..|blocks| - 1][..i] == blocks[..i];
    } else {
      assert blocks[..i] == blocks;
    }
  }

  lemma TruncatedStep(ids: seq<RangeId>, more: seq<RangeId>, limit: nat)
    requires |Truncated(ids, limit)| <= limit
    ensures Truncated(Truncated(ids, limit) + more, limit) == Truncated(ids + more, limit)
  {
  }

  /** Once the guard has tripped, later blocks add nothing. */
  lemma GuardTripped(blocks: seq<BlockRef>, i: nat, cap: RangeId, limit: nat)
    requires i <= |blocks| && |Truncated(AllIds(blocks[..i], cap), limit)| > limit
    ensures Truncated(AllIds(blocks[..i], cap), limit) == Truncated(AllIds(blocks, cap), limit)
  {
    AllIdsPrefix(blocks, i, cap);
    var all, some := AllIds(blocks, cap), AllIds(blocks[..i], cap);
    assert all == some + all[|some|..];
    TruncatedPrefix(some, all[|some|..], limit);
  }

  /** ExpandRanges, with its two nested loops and the guard against runaway bounds. */
  method ExpandRanges(blocks: seq<BlockRef>, cap: RangeId, limit: nat) returns (out: seq<RangeId>)
    ensures out == Candidates(blocks, cap, limit)
  {
    out := [];
    var i := 0;
    while i < |blocks| && |out| <= limit
      invariant 0 <= i <= |blocks|
      invariant out == Truncated(AllIds(blocks[..i], cap), limit)
      decreases |blocks| - i
    {
      TruncatedStep(AllIds(blocks[..i], cap), BlockIds(blocks[i], cap), limit);
      assert blocks[..i + 1][..i] == blocks[..i];
      out := ExpandBlock(out, blocks[i], cap, limit);
      i := i + 1;
    }
    if i < |blocks| {
      GuardTripped(blocks, i, cap, limit);
    } else {
      assert blocks[..i] == blocks;
    }
    out := SortUnique(out);
  }

  method ExpandBlock(prior: seq<RangeId>, b: BlockRef, cap: RangeId, limit: nat) returns (out: seq<RangeId>)
    requires |prior| <= limit
    ensures out == Truncated(prior + BlockIds(b, cap), limit)
  {
    out := prior;
    var lo, hi := Cap(b.first, cap), Cap(b.last, cap);
    ghost var ids := BlockIds(b, cap);
    var r := lo;
    while r <= hi && |out| <= limit
      invariant lo <= r && (lo <= hi ==> r <= hi + 1) && (lo > hi ==> r == lo)
      invariant r - lo <= |ids| && out == prior + ids[..r - lo]
      invariant |out| <= limit + 1
      decreases hi + 1 - r
    {
      assert ids[r - lo] == r;
      assert ids[..r - lo + 1] == ids[..r - lo] + [r];
      out := out + [r];
      r := r + 1;
    }
    assert r > hi ==> ids[..r - lo] == ids;
    assert r <= hi ==> (prior + ids)[..limit + 1] == out;
  }

  // ----- sorting blocks ---------------------------------------------------------------------

  method Place(sorted: seq<BlockRef>, b: BlockRef) returns (placed: seq<BlockRef>)
    requires SortedByFirst(sorted)
    ensures SortedByFirst(placed) && multiset(placed) == multiset(sorted) + multiset{b}
  {
    var k := 0;
    while k < |sorted| && sorted[k].first <= b.first
      invariant 0 <= k <= |sorted|
      invariant forall j :: 0 <= j < k ==> sorted[j].first <= b.first
    {
      k := k + 1;
    }
    placed := sorted[..k] + [b] + sorted[k..];
    PlacedInOrder(sorted, b, k);
    assert sorted == sorted[..k] + sorted[k..];
  }

  lemma PlacedInOrder(sorted: seq<BlockRef>, b: BlockRef, k: nat)
    requires SortedByFirst(sorted) && k <= |sorted|
    requires forall j :: 0 <= j < k ==> sorted[j].first <= b.first
    requires k < |sorted| ==> b.first <= sorted[k].first
    ensures SortedByFirst(sorted[..k] + [b] + sorted[k..])
  {
    var placed := sorted[..k] + [b] + sorted[k..];
    forall i, j | 0 <= i < j < |placed| ensures placed[i].first <= placed[j].first {
      assert placed[i] == if i < k then sorted[i] else if i == k then b else sorted[i - 1];
      assert placed[j] == if j < k then sorted[j] else if j == k then b else sorted[j - 1];
    }
  }

  /** std::sort by first_range; ties in any order. */
  method SortByFirst(blocks: seq<BlockRef>) returns (sorted: seq<BlockRef>)
    ensures SortedByFirst(sorted) && multiset(sorted) == multiset(blocks)
  {
    sorted := [];
    for i := 0 to |blocks|
      invariant SortedByFirst(sorted) && multiset(sorted) == multiset(blocks[..i])
    {
      sorted := Place(sorted, blocks[i]);
      assert blocks[..i + 1] == blocks[..i] + [blocks[i]];
    }
    assert blocks[..|blocks|] == blocks;
  }

  // ----- the cache, seen through CacheOps ---------------------------------------------------

  class BlockCache {
    var resident: set<BlockRef>
    var evicted: seq<BlockRef>  // every Evict call so far

    constructor ()
      ensures resident == {} && evicted == []
    {
      resident, evicted := {}, [];
    }

    method Evict(b: BlockRef)
      modifies this
      ensures evicted == old(evicted) + [b] && resident == old(resident) - {b}
    {
      evicted := evicted + [b];
      resident := resident - {b};
    }
  }

  predicate Distinct(blocks: seq<BlockRef>) {
    forall i, j :: 0 <= i < j < |blocks| ==> blocks[i] != blocks[j]
  }

  /** The inputs that are cached, in order. */
  function CachedOf(inputs: seq<BlockRef>, cached: set<BlockRef>): (found: seq<BlockRef>)
    ensures forall b :: b in found <==> b in inputs && b in cached
  {
    if inputs == [] then []
    else
      var n := |inputs| - 1;
      CachedOf(inputs[..n], cached) + if inputs[n] in cached then [inputs[n]] else []
  }

  // ----- how many steps each phase covers ------------------------------------------------------

  function Ceil(x: real): int {
    -((-x).Floor)
  }

  /** The number of slots that cover a time: the least one, but at least 1. */
  ghost predicate Covers(k: int, seconds: real, slotSeconds: real) {
    && k >= 1 && k as real * slotSeconds >= seconds
    && (k > 1 ==> (k - 1) as real * slotSeconds < seconds)
  }

  lemma QuotientTimes(x: real, y: real)
    requires y > 0.0
    ensures x / y * y == x
  {
  }

  lemma TimesMonotone(x: real, y: real, z: real)
    requires z > 0.0
    ensures x <= y <==> x * z <= y * z
  {
    if x <= y { assert (y - x) * z >= 0.0; } else { assert (x - y) * z > 0.0; }
  }

  function StepsIn(seconds: real, slotSeconds: real): (k: int)
    requires slotSeconds > 0.0
    ensures Covers(k, seconds, slotSeconds)
  {
    var k := Max(1, Ceil(seconds / slotSeconds));
    QuotientTimes(seconds, slotSeconds);
    TimesMonotone(seconds / slotSeconds, k as real, slotSeconds);
    TimesMonotone(seconds / slotSeconds, (k - 1) as real, slotSeconds);
    k
  }

  /** T1 in slots: the configured time, or the estimate from the blocks of the job. */
  function K1(o: LeaperOptions, estBlocks: nat): (k: int)
    requires o.slotSeconds > 0.0
    ensures o.t1Seconds > 0.0 ==> Covers(k, o.t1Seconds, o.slotSeconds)
    ensures o.t1Seconds <= 0.0 ==> Covers(k, o.t1Alpha * estBlocks as real, o.slotSeconds)
  {
    StepsIn(if o.t1Seconds > 0.0 then o.t1Seconds else o.t1Alpha * estBlocks as real, o.slotSeconds)
  }

  /** T2 in slots: the configured time, or the estimate from the load per byte of cache. */
  function K2(o: LeaperOptions, qps: real): (k: int)
    requires o.slotSeconds > 0.0
    ensures o.t2Seconds > 0.0 ==> Covers(k, o.t2Seconds, o.slotSeconds)
    ensures o.t2Seconds <= 0.0 ==>
      Covers(k, o.t2Beta * (qps / (if o.jobs.cacheBytes > 1.0 then o.jobs.cacheBytes else 1.0)), o.slotSeconds)
  {
    StepsIn(if o.t2Seconds > 0.0 then o.t2Seconds
            else o.t2Beta * (qps / (if o.jobs.cacheBytes > 1.0 then o.jobs.cacheBytes else 1.0)), o.slotSeconds)
  }

  // ----- what the two phases select ---------------------------------------------------------

  /** The ranges scored hot in steps lo..hi: an answer without a memo in sight. */
  function Scored(u: Setup, t: Tables, candidates: seq<RangeId>, lo: int, hi: int, nowUs: nat): (hot: seq<RangeId>)
    requires u.cfg.Valid() && Sized(u.cfg, t)
    ensures StrictlyAscending(hot) && forall r :: r in hot ==> r in candidates
  {
    var hot := Predicted(u, t, candidates, lo, hi, nowUs, []);
    assert forall x: seq<RangeId> {:trigger [] + x} :: [] + x == x;
    hot
  }

  /** Membership in Scored: some model of the step range scores the range's features hot. */
  lemma ScoredMeaning(u: Setup, t: Tables, candidates: seq<RangeId>, lo: int, hi: int, nowUs: nat, r: RangeId)
    requires u.cfg.Valid() && Sized(u.cfg, t) && 1 <= lo <= hi
    ensures r in Scored(u, t, candidates, lo, hi, nowUs) <==> r in candidates && HotBetween(u, t, r, lo, hi, nowUs)
  {
    PredictedMeaning(u, t, candidates, lo, hi, nowUs, r);
  }

  /** The candidates scored hot during the job (T1) and after it (T2); a flush has only the second. */
  function Phases(u: Setup, t: Tables, candidates: seq<RangeId>, k1: int, k2: int, isFlush: bool, nowUs: nat)
    : (hot: (seq<RangeId>, seq<RangeId>))
    requires u.cfg.Valid() && Sized(u.cfg, t)
  {
    if isFlush then ([], Scored(u, t, candidates, 1, k2, nowUs))
    else (Scored(u, t, candidates, 1, k1, nowUs), Scored(u, t, candidates, k1 + 1, k1 + k2, nowUs))
  }

  /** Steps 1..k1 are for the time of a compaction and k1 + 1..k1 + k2 for the time after it; a flush has 1..k2. */
  lemma PhasesMeaning(u: Setup, t: Tables, candidates: seq<RangeId>, k1: int, k2: int, isFlush: bool, nowUs: nat,
                      r: RangeId)
    requires u.cfg.Valid() && Sized(u.cfg, t) && k1 >= 1 && k2 >= 1
    ensures var (hot1, hot2) := Phases(u, t, candidates, k1, k2, isFlush, nowUs);
      && (r in hot1 <==> !isFlush && r in candidates && HotBetween(u, t, r, 1, k1, nowUs))
      && (isFlush ==> (r in hot2 <==> r in candidates && HotBetween(u, t, r, 1, k2, nowUs)))
      && (!isFlush ==> (r in hot2 <==> r in candidates && HotBetween(u, t, r, k1 + 1, k1 + k2, nowUs)))
  {
    if isFlush {
      ScoredMeaning(u, t, candidates, 1, k2, nowUs, r);
    } else {
      ScoredMeaning(u, t, candidates, 1, k1, nowUs, r);
      ScoredMeaning(u, t, candidates, k1 + 1, k1 + k2, nowUs, r);
    }
  }

  /** The block's span contains one of the ids. */
  predicate SpanHasOne(b: BlockRef, ids: seq<RangeId>) {
    exists i :: 0 <= i < |ids| && b.first <= ids[i] <= b.last
  }

  lemma SpanHasMember(b: BlockRef, ids: seq<RangeId>)
    ensures SpanHasOne(b, ids) <==> exists r :: b.first <= r <= b.last && r in ids
  {
    if r :| b.first <= r <= b.last && r in ids {
      var i :| 0 <= i < |ids| && ids[i] == r;
    }
    if i :| 0 <= i < |ids| && b.first <= ids[i] <= b.last { assert ids[i] in ids; }
  }

  lemma MeetsIsSpanHasOne(b: BlockRef, spans: seq<RangeSpan>, ids: seq<RangeId>)
    requires b.first <= b.last && Ordered(spans) && forall r :: Covered(spans, r) <==> r in ids
    ensures Meets(b, spans) <==> SpanHasOne(b, ids)
  {
    MeetsIsContainsHot(b, spans);
    if r :| b.first <= r <= b.last && Covered(spans, r) {
      assert r in ids;
    }
    if i :| 0 <= i < |ids| && b.first <= ids[i] <= b.last {
      assert ids[i] in ids && Covered(spans, ids[i]);
    }
  }

  /** These are the blocks among `inputs`, with multiplicity, that meet no span. */
  ghost predicate IsColdPart(evictions: seq<BlockRef>, inputs: seq<BlockRef>, keep: seq<RangeSpan>) {
    forall b: BlockRef :: multiset(evictions)[b] == if Meets(b, keep) then 0 else multiset(inputs)[b]
  }

  lemma ColdPartGrows(evictions: seq<BlockRef>, inputs: seq<BlockRef>, keep: seq<RangeSpan>, b: BlockRef)
    requires IsColdPart(evictions, inputs, keep)
    ensures IsColdPart(if Meets(b, keep) then evictions else evictions + [b], inputs + [b], keep)
  {
  }

  /** ... and the same in terms of ids, for blocks whose bounds are in order. */
  ghost predicate AreTheColdBlocks(evictions: seq<BlockRef>, inputs: seq<BlockRef>, hot: seq<RangeId>) {
    forall b: BlockRef :: b.first <= b.last ==>
      multiset(evictions)[b] == if SpanHasOne(b, hot) then 0 else multiset(inputs)[b]
  }

  lemma ColdPartInIds(evictions: seq<BlockRef>, inputs: seq<BlockRef>, keep: seq<RangeSpan>, hot: seq<RangeId>)
    requires IsColdPart(evictions, inputs, keep)
    requires Ordered(keep) && forall r :: Covered(keep, r) <==> r in hot
    ensures AreTheColdBlocks(evictions, inputs, hot)
  {
    forall b: BlockRef | b.first <= b.last
      ensures multiset(evictions)[b] == if SpanHasOne(b, hot) then 0 else multiset(inputs)[b]
    {
      MeetsIsSpanHasOne(b, keep, hot);
    }
  }

  /** LoadOracle sorts each slot's list. */
  predicate ValidOracle(oracle: map<nat, seq<RangeId>>) {
    forall slot :: slot in oracle ==> Ids(oracle[slot])
  }

  datatype CompactionInfo = CompactionInfo(estBlocks: nat, isFlush: bool)

  // ----- the class --------------------------------------------------------------------------

  class LeaperImpl {
    const opt: LeaperOptions
    const oracle: map<nat, seq<RangeId>>
    const collector: Collector
    const predictor: Predictor
    const cache: BlockCache

    var hotT2: seq<RangeSpan>
    var prefetchedBytes: nat
    var budgetBytes: nat
    var curIsFlush: bool
    var ctxStack: seq<Jobs.Context>
    var qps: real
    var ssadSuspended: bool
    var ssadLastBad: bool
    var ssadRun: nat
    var ssadEwma: real
    // stats_
    var ssadSuspensions: nat
    var blocksPrefetched: nat
    var refusedBudget: nat
    var blocksEvicted: nat
    var inferences: nat
    var memoHits: nat

    ghost var clock: nat  // the latest time seen

    /** The job state as the Jobs module has it. */
    ghost function State(): Jobs.Core
      reads this`hotT2, this`prefetchedBytes, this`budgetBytes, this`curIsFlush, this`ctxStack
      reads this`ssadSuspended, this`ssadLastBad, this`ssadRun, this`ssadEwma, this`ssadSuspensions
      reads this`blocksPrefetched, this`refusedBudget
    {
      Jobs.Core(Jobs.Context(hotT2, prefetchedBytes, budgetBytes, curIsFlush), ctxStack, HealthState(),
                blocksPrefetched, refusedBudget)
    }

    ghost function HealthState(): Ssad.Health
      reads this`ssadSuspended, this`ssadLastBad, this`ssadRun, this`ssadEwma, this`ssadSuspensions
    {
      Ssad.Health(ssadSuspended, ssadLastBad, ssadRun, ssadEwma, ssadSuspensions)
    }

    /** The job side: every saved list of spans is in order. */
    ghost predicate ValidJobs()
      reads this`hotT2, this`ctxStack
    {
      Ordered(hotT2) && forall i :: 0 <= i < |ctxStack| ==> Ordered(ctxStack[i].hot)
    }

    /** The prediction side: the memos agree with what would be predicted now. */
    ghost predicate ValidPredictor()
      reads this`clock, collector, collector.readCells, collector.writeCells, predictor
    {
      && opt.slotSeconds > 0.0 && opt.maxRangeId < TWO64 - 1
      && collector.Valid() && predictor.u.cfg == collector.cfg
      && MemosAgree(predictor.u, collector.State(), predictor.memos, clock)
    }

    ghost predicate Valid()
      reads this`clock, this`hotT2, this`ctxStack, collector, collector.readCells, collector.writeCells, predictor
    {
      ValidJobs() && ValidPredictor() && ValidOracle(oracle)
    }

    constructor (opt: LeaperOptions, oracle: map<nat, seq<RangeId>>, collector: Collector, predictor: Predictor,
                 cache: BlockCache)
      requires opt.slotSeconds > 0.0 && opt.maxRangeId < TWO64 - 1
      requires ValidOracle(oracle)
      requires collector.Valid() && predictor.u.cfg == collector.cfg && predictor.memos == []
      ensures Valid() && State() == Jobs.FRESH
      ensures this.opt == opt && this.oracle == oracle
      ensures this.collector == collector && this.predictor == predictor && this.cache == cache
      ensures qps == 0.0 && blocksEvicted == inferences == memoHits == 0
    {
      this.opt, this.oracle := opt, oracle;
      this.collector, this.predictor, this.cache := collector, predictor, cache;
      hotT2, prefetchedBytes, budgetBytes, curIsFlush, ctxStack := [], 0, 0, false, [];
      qps := 0.0;
      ssadSuspended, ssadLastBad, ssadRun, ssadEwma, ssadSuspensions := false, false, 0, -1.0, 0;
      blocksPrefetched, refusedBudget, blocksEvicted, inferences, memoHits := 0, 0, 0, 0, 0;
      clock := 0;
    }

    /** OnRead and OnWrite: only the learned policy collects. An access may come late if its slot is harmless now. */
    method OnAccess(range: RangeId, isWrite: bool, nowUs: nat, keep: bool)
      requires ValidPredictor() && clock < TWO64 && nowUs < TWO64
      requires clock <= nowUs || Harmless(collector.cfg, collector.cfg.SlotOf(clock), collector.cfg.SlotOf(nowUs))
      modifies this`clock, collector, collector.readCells, collector.writeCells
      ensures ValidPredictor() && clock == Max(old(clock), nowUs)
      ensures opt.jobs.policy.Learned? ==>
        collector.State() == Recorded(collector.cfg, old(collector.State()),
          Access(range, isWrite, collector.cfg.SlotOf(nowUs), keep || collector.cfg.sampleRate >= 1.0))
      ensures !opt.jobs.policy.Learned? ==> collector.State() == old(collector.State())
    {
      ghost var u, t, m := predictor.u, collector.State(), predictor.memos;
      AgreeLater(u, t, m, clock, Max(clock, nowUs));
      clock := Max(clock, nowUs);
      if opt.jobs.policy.Learned? {
        ghost var a := Access(range, isWrite, collector.cfg.SlotOf(nowUs), keep || collector.cfg.sampleRate >= 1.0);
        CurrentSlotIsHarmless(u.cfg, a.slot);
        AgreeAfterRecord(u, t, m, a, clock);
        collector.Record(range, isWrite, nowUs, keep);
      }
    }

    /** One PredictHot call under the core's mutex: the memo, on or off, does not show. */
    method Predict(candidates: seq<RangeId>, lo: int, hi: int, nowUs: nat) returns (hot: seq<RangeId>)
      requires ValidPredictor() && clock <= nowUs
      modifies this`clock, this`inferences, this`memoHits, predictor
      ensures ValidPredictor() && clock == nowUs
      ensures hot == Scored(predictor.u, collector.State(), candidates, lo, hi, nowUs)
    {
      hot := PredictAndCount(candidates, lo, hi, nowUs);
    }

    /** The call, with what it adds to the statistics. */
    method PredictAndCount(candidates: seq<RangeId>, lo: int, hi: int, nowUs: nat) returns (hot: seq<RangeId>)
      requires ValidPredictor() && clock <= nowUs
      modifies this`clock, this`inferences, this`memoHits, predictor
      ensures ValidPredictor() && clock == nowUs
      ensures hot == Scored(predictor.u, collector.State(), candidates, lo, hi, nowUs)
      ensures predictor.memoize ==>
        var o := PredictedWithMemo(predictor.u, collector.State(), old(predictor.memos), candidates, lo, hi, nowUs, []);
        inferences == old(inferences) + o.runs && memoHits == old(memoHits) + o.hits
      ensures !predictor.memoize ==>
        && inferences == old(inferences) + PlainRuns(predictor.u, collector.State(), candidates, lo, hi, nowUs)
        && memoHits == old(memoHits)
    {
      ghost var u, t, m := predictor.u, collector.State(), predictor.memos;
      AgreeLater(u, t, m, clock, nowUs);
      clock := nowUs;
      MemoIsPlain(u, t, m, candidates, lo, hi, nowUs, []);
      var runs, hits;
      hot, runs, hits := predictor.PredictHot(collector, candidates, lo, hi, nowUs, []);
      inferences, memoHits := inferences + runs, memoHits + hits;
    }

    /** Phase 1: evict the input blocks that meet no kept span. */
    method EvictCold(inputs: seq<BlockRef>, keep: seq<RangeSpan>) returns (ghost evictions: seq<BlockRef>)
      requires Ordered(keep)
      modifies this`blocksEvicted, cache
      ensures cache.evicted == old(cache.evicted) + evictions && IsColdPart(evictions, inputs, keep)
      ensures blocksEvicted == old(blocksEvicted) + |evictions|
    {
      var sorted := SortByFirst(inputs);
      var kept := SelectOverlapping(sorted, keep);
      evictions := EvictUnkept(sorted, kept, keep);
    }

    /** The loop over the mask. */
    method EvictUnkept(sorted: seq<BlockRef>, kept: seq<nat>, ghost keep: seq<RangeSpan>)
      returns (ghost evictions: seq<BlockRef>)
      requires forall i :: i in kept <==> 0 <= i < |sorted| && Meets(sorted[i], keep)
      modifies this`blocksEvicted, cache
      ensures cache.evicted == old(cache.evicted) + evictions && IsColdPart(evictions, sorted, keep)
      ensures blocksEvicted == old(blocksEvicted) + |evictions|
    {
      evictions := [];
      for i := 0 to |sorted|
        invariant cache.evicted == old(cache.evicted) + evictions
        invariant blocksEvicted == old(blocksEvicted) + |evictions|
        invariant IsColdPart(evictions, sorted[..i], keep)
      {
        assert sorted[..i + 1] == sorted[..i] + [sorted[i]];
        ColdPartGrows(evictions, sorted[..i], keep, sorted[i]);
        if i !in kept {
          cache.Evict(sorted[i]);
          blocksEvicted := blocksEvicted + 1;
          evictions := evictions + [sorted[i]];
        }
      }
      assert sorted[..|sorted|] == sorted;
    }

    /** The two predictions of a compaction, or the single one of a flush. */
    method PredictBoth(candidates: seq<RangeId>, k1: int, k2: int, isFlush: bool, nowUs: nat)
      returns (hot1: seq<RangeId>, hot2: seq<RangeId>)
      requires ValidPredictor() && clock <= nowUs
      modifies this`clock, this`inferences, this`memoHits, predictor
      ensures ValidPredictor() && clock == nowUs
      ensures (hot1, hot2) == Phases(predictor.u, collector.State(), candidates, k1, k2, isFlush, nowUs)
    {
      hot1, hot2 := [], [];
      ghost var t := collector.State();
      if isFlush {
        hot2 := Predict(candidates, 1, k2, nowUs);
      } else {
        hot1 := Predict(candidates, 1, k1, nowUs);
        assert collector.State() == t;
        hot2 := Predict(candidates, k1 + 1, k1 + k2, nowUs);
      }
      assert collector.State() == t;
    }

    method PredictPhases(info: CompactionInfo, inputs: seq<BlockRef>, nowUs: nat)
      returns (hot1: seq<RangeId>, hot2: seq<RangeId>)
      requires ValidPredictor() && clock <= nowUs
      modifies this`clock, this`inferences, this`memoHits, predictor
      ensures ValidPredictor() && clock == nowUs
      ensures (hot1, hot2) == PhasesOf(info, inputs, nowUs)
      ensures StrictlyAscending(hot1) && ListOf64Bit(hot1) && StrictlyAscending(hot2) && ListOf64Bit(hot2)
    {
      var candidates := ExpandRanges(inputs, opt.maxRangeId, MAX_CANDIDATES);
      hot1, hot2 := PredictBoth(candidates, K1(opt, info.estBlocks), K2(opt, qps), info.isFlush, nowUs);
      CandidatesFit(inputs, opt.maxRangeId, MAX_CANDIDATES, hot1);
      CandidatesFit(inputs, opt.maxRangeId, MAX_CANDIDATES, hot2);
    }

    ghost function PhasesOf(info: CompactionInfo, inputs: seq<BlockRef>, nowUs: nat): (seq<RangeId>, seq<RangeId>)
      requires opt.slotSeconds > 0.0 && collector.Valid() && predictor.u.cfg == collector.cfg
      reads this`qps, collector, collector.readCells, collector.writeCells
    {
      Phases(predictor.u, collector.State(), Candidates(inputs, opt.maxRangeId, MAX_CANDIDATES),
             K1(opt, info.estBlocks), K2(opt, qps), info.isFlush, nowUs)
    }

    /** A candidate that some model of the job's own time, steps 1..k1, scores hot. */
    ghost predicate HotDuring(info: CompactionInfo, inputs: seq<BlockRef>, nowUs: nat, r: RangeId)
      requires opt.slotSeconds > 0.0 && collector.Valid() && predictor.u.cfg == collector.cfg
      reads this`qps, collector, collector.readCells, collector.writeCells
    {
      && r in Candidates(inputs, opt.maxRangeId, MAX_CANDIDATES)
      && HotBetween(predictor.u, collector.State(), r, 1, K1(opt, info.estBlocks), nowUs)
    }

    /** A candidate that some model of the time after the job scores hot: steps k1 + 1..k1 + k2, for a flush 1..k2. */
    ghost predicate HotAfter(info: CompactionInfo, inputs: seq<BlockRef>, nowUs: nat, r: RangeId)
      requires opt.slotSeconds > 0.0 && collector.Valid() && predictor.u.cfg == collector.cfg
      reads this`qps, collector, collector.readCells, collector.writeCells
    {
      var k1 := if info.isFlush then 0 else K1(opt, info.estBlocks);
      && r in Candidates(inputs, opt.maxRangeId, MAX_CANDIDATES)
      && HotBetween(predictor.u, collector.State(), r, k1 + 1, k1 + K2(opt, qps), nowUs)
    }

    lemma PhasesOfMeaning(info: CompactionInfo, inputs: seq<BlockRef>, nowUs: nat)
      requires opt.slotSeconds > 0.0 && collector.Valid() && predictor.u.cfg == collector.cfg
      ensures forall r :: r in PhasesOf(info, inputs, nowUs).0 <==>
        !info.isFlush && HotDuring(info, inputs, nowUs, r)
      ensures forall r :: r in PhasesOf(info, inputs, nowUs).1 <==> HotAfter(info, inputs, nowUs, r)
    {
      var candidates := Candidates(inputs, opt.maxRangeId, MAX_CANDIDATES);
      forall r: RangeId {
        PhasesMeaning(predictor.u, collector.State(), candidates, K1(opt, info.estBlocks), K2(opt, qps), info.isFlush,
                      nowUs, r);
      }
    }

    /** The block's span has an id that is hot after the job. */
    ghost predicate WarmBlock(info: CompactionInfo, inputs: seq<BlockRef>, nowUs: nat, b: BlockRef)
      requires opt.slotSeconds > 0.0 && collector.Valid() && predictor.u.cfg == collector.cfg
      reads this`qps, collector, collector.readCells, collector.writeCells
    {
      exists r :: b.first <= r <= b.last && HotAfter(info, inputs, nowUs, r)
    }

    /** The block's span has an id that is hot while the job runs. */
    ghost predicate BusyBlock(info: CompactionInfo, inputs: seq<BlockRef>, nowUs: nat, b: BlockRef)
      requires opt.slotSeconds > 0.0 && collector.Valid() && predictor.u.cfg == collector.cfg
      reads this`qps, collector, collector.readCells, collector.writeCells
    {
      exists r :: b.first <= r <= b.last && HotDuring(info, inputs, nowUs, r)
    }

    lemma SpanHasHot(info: CompactionInfo, inputs: seq<BlockRef>, nowUs: nat, b: BlockRef)
      requires opt.slotSeconds > 0.0 && collector.Valid() && predictor.u.cfg == collector.cfg
      ensures SpanHasOne(b, PhasesOf(info, inputs, nowUs).1) <==> WarmBlock(info, inputs, nowUs, b)
      ensures !info.isFlush ==>
        (SpanHasOne(b, PhasesOf(info, inputs, nowUs).0) <==> BusyBlock(info, inputs, nowUs, b))
    {
      PhasesOfMeaning(info, inputs, nowUs);
      SpanHasMember(b, PhasesOf(info, inputs, nowUs).0);
      SpanHasMember(b, PhasesOf(info, inputs, nowUs).1);
    }

    /** What the learned policy does with its two predictions. */
    method ActOnPhases(info: CompactionInfo, inputs: seq<BlockRef>, hot1: seq<RangeId>, hot2: seq<RangeId>)
      returns (ghost evictions: seq<BlockRef>)
      requires ValidJobs()
      requires StrictlyAscending(hot1) && ListOf64Bit(hot1) && StrictlyAscending(hot2) && ListOf64Bit(hot2)
      modifies this`hotT2, this`blocksEvicted, cache
      ensures ValidJobs()
      ensures cache.evicted == old(cache.evicted) + evictions
      ensures Acted(info, inputs, hot1, hot2, evictions)
    {
      evictions := [];
      hotT2 := ToSpans(hot2);
      if opt.dryRun {
        hotT2 := [];
        return;
      }
      if !info.isFlush && opt.phase1 {
        var keep := ToSpans(hot1);
        evictions := EvictCold(inputs, keep);
        ColdPartInIds(evictions, inputs, keep, hot1);
      }
    }

    /** The hot spans are hot2's; a compaction's evictions are the blocks without an id of hot1. */
    ghost predicate Acted(info: CompactionInfo, inputs: seq<BlockRef>, hot1: seq<RangeId>, hot2: seq<RangeId>,
                          evictions: seq<BlockRef>)
      reads this`hotT2
    {
      if opt.dryRun then hotT2 == [] && evictions == []
      else
        && (forall r :: Covered(hotT2, r) <==> r in hot2)
        && (if !info.isFlush && opt.phase1 then AreTheColdBlocks(evictions, inputs, hot1) else evictions == [])
    }

    /**
      The two phases, in terms of the models: the spans cover the ids that are hot after the job, and an
      input block of a compaction is evicted iff no id of its span is hot while the job runs.
     */
    ghost predicate Selects(info: CompactionInfo, inputs: seq<BlockRef>, nowUs: nat, evictions: seq<BlockRef>)
      requires opt.slotSeconds > 0.0 && collector.Valid() && predictor.u.cfg == collector.cfg
      reads this`hotT2, this`qps, collector, collector.readCells, collector.writeCells
    {
      && (forall r :: Covered(hotT2, r) <==> HotAfter(info, inputs, nowUs, r))
      && (info.isFlush || !opt.phase1 ==> evictions == [])
      && (!info.isFlush && opt.phase1 ==>
            forall b: BlockRef :: b.first <= b.last ==>
              multiset(evictions)[b] == if BusyBlock(info, inputs, nowUs, b) then 0 else multiset(inputs)[b])
    }

    lemma ActedSelects(info: CompactionInfo, inputs: seq<BlockRef>, nowUs: nat, hot1: seq<RangeId>,
                       hot2: seq<RangeId>, evictions: seq<BlockRef>)
      requires opt.slotSeconds > 0.0 && collector.Valid() && predictor.u.cfg == collector.cfg
      requires (hot1, hot2) == PhasesOf(info, inputs, nowUs) && Acted(info, inputs, hot1, hot2, evictions)
      ensures !opt.dryRun ==> Selects(info, inputs, nowUs, evictions)
    {
      if !opt.dryRun {
        PhasesOfMeaning(info, inputs, nowUs);
        forall b: BlockRef | b.first <= b.last && !info.isFlush && opt.phase1
          ensures multiset(evictions)[b] == if BusyBlock(info, inputs, nowUs, b) then 0 else multiset(inputs)[b]
        {
          SpanHasHot(info, inputs, nowUs, b);
        }
      }
    }

    /** The learned policy's part of OnCompactionBegin. */
    method PlanLearned(info: CompactionInfo, inputs: seq<BlockRef>, nowUs: nat)
      returns (ghost hot1: seq<RangeId>, ghost hot2: seq<RangeId>, ghost evictions: seq<BlockRef>)
      requires ValidJobs() && ValidPredictor() && clock <= nowUs
      modifies this`clock, this`inferences, this`memoHits, this`hotT2, this`blocksEvicted, predictor, cache
      ensures ValidJobs() && ValidPredictor() && clock == nowUs
      ensures (hot1, hot2) == PhasesOf(info, inputs, nowUs)
      ensures cache.evicted == old(cache.evicted) + evictions
      ensures Acted(info, inputs, hot1, hot2, evictions)
      ensures !opt.dryRun ==> Selects(info, inputs, nowUs, evictions)
    {
      var h1, h2 := PredictPhases(info, inputs, nowUs);
      ghost var phases := PhasesOf(info, inputs, nowUs);
      hot1, hot2 := h1, h2;
      evictions := ActOnPhases(info, inputs, h1, h2);
      assert PhasesOf(info, inputs, nowUs) == phases;
      ActedSelects(info, inputs, nowUs, hot1, hot2, evictions);
    }

    /** The incremental warm-up baseline: blocks that overlap what is cached now count as hot. */
    method PlanIncremental(inputs: seq<BlockRef>) returns (ghost evictions: seq<BlockRef>)
      requires ValidJobs() && opt.maxRangeId < TWO64 - 1
      modifies this`hotT2, this`blocksEvicted, cache
      ensures ValidJobs() && State() == old(State()).(ctx := old(State()).ctx.(hot := hotT2))
      ensures cache.evicted == old(cache.evicted) + evictions && blocksEvicted == old(blocksEvicted) + |evictions|
      ensures WarmsIncrementally(inputs, old(cache.resident), evictions)
      ensures forall b :: b in cache.resident <==> b in old(cache.resident) && b !in inputs
    {
      var found := CachedInputs(inputs);
      var ids := ExpandRanges(found, opt.maxRangeId, MAX_CANDIDATES);
      CandidatesFit(found, opt.maxRangeId, MAX_CANDIDATES, ids);
      hotT2 := ToSpans(ids);
      evictions := EvictCached(inputs);
    }

    method CachedInputs(inputs: seq<BlockRef>) returns (found: seq<BlockRef>)
      ensures found == CachedOf(inputs, cache.resident)
    {
      found := [];
      for i := 0 to |inputs|
        invariant found == CachedOf(inputs[..i], cache.resident)
      {
        assert inputs[..i + 1][..i] == inputs[..i];
        if inputs[i] in cache.resident { found := found + [inputs[i]]; }
      }
      assert inputs[..|inputs|] == inputs;
    }

    /** Evict every cached input, each once. */
    method EvictCached(inputs: seq<BlockRef>) returns (ghost evictions: seq<BlockRef>)
      modifies this`blocksEvicted, cache
      ensures cache.evicted == old(cache.evicted) + evictions && blocksEvicted == old(blocksEvicted) + |evictions|
      ensures forall b :: b in evictions <==> b in inputs && b in old(cache.resident)
      ensures Distinct(evictions)
      ensures forall b :: b in cache.resident <==> b in old(cache.resident) && b !in inputs
    {
      evictions := [];
      for i := 0 to |inputs|
        modifies this`blocksEvicted, cache
        invariant cache.evicted == old(cache.evicted) + evictions && blocksEvicted == old(blocksEvicted) + |evictions|
        invariant forall b :: b in evictions <==> b in inputs[..i] && b in old(cache.resident)
        invariant Distinct(evictions)
        invariant forall b :: b in cache.resident <==> b in old(cache.resident) && b !in inputs[..i]
      {
        assert inputs[..i + 1] == inputs[..i] + [inputs[i]];
        if inputs[i] in cache.resident {
          cache.Evict(inputs[i]);
          blocksEvicted := blocksEvicted + 1;
          evictions := evictions + [inputs[i]];
        }
      }
      assert inputs[..|inputs|] == inputs;
    }

    /** Hot is what cached inputs hold, and exactly the cached inputs are evicted, each once. */
    ghost predicate WarmsIncrementally(inputs: seq<BlockRef>, cached: set<BlockRef>, evictions: seq<BlockRef>)
      reads this`hotT2
    {
      && (forall r :: Covered(hotT2, r) <==>
            r in Candidates(CachedOf(inputs, cached), opt.maxRangeId, MAX_CANDIDATES))
      && (forall b :: b in evictions <==> b in inputs && b in cached)
      && Distinct(evictions)
    }

    /** Save the enclosing job and start a fresh context; the first lines of OnCompactionBegin. */
    method PushContext(isFlush: bool)
      requires ValidJobs()
      modifies this`ctxStack, this`hotT2, this`prefetchedBytes, this`curIsFlush, this`budgetBytes
      ensures ValidJobs() && hotT2 == []
      ensures State() == old(State()).(stack := old(State()).stack + [old(State()).ctx],
                                       ctx := Jobs.Context([], 0, opt.jobs.Budget(), isFlush))
    {
      ctxStack := ctxStack + [Jobs.Context(hotT2, prefetchedBytes, budgetBytes, curIsFlush)];
      hotT2 := [];
      prefetchedBytes := 0;
      curIsFlush := isFlush;
      budgetBytes := opt.jobs.Budget();
    }

    /** What the policy makes of a job: its hot spans, and the evictions of this call; `cached` was in the cache. */
    ghost predicate Planned(info: CompactionInfo, inputs: seq<BlockRef>, nowUs: nat, cached: set<BlockRef>,
                            hot1: seq<RangeId>, hot2: seq<RangeId>, evictions: seq<BlockRef>)
      requires ValidPredictor()
      reads this`clock, this`hotT2, this`qps, this`ssadSuspended
      reads collector, collector.readCells, collector.writeCells, predictor
    {
      match opt.jobs.policy
      case Learned =>
        if ssadSuspended then hotT2 == [] && evictions == []
        else
          && (hot1, hot2) == PhasesOf(info, inputs, nowUs) && Acted(info, inputs, hot1, hot2, evictions)
          && (!opt.dryRun ==> Selects(info, inputs, nowUs, evictions))
      case Oracle =>
        var slot := collector.cfg.SlotOf(nowUs) + 1;
        && evictions == []
        && (forall r :: Covered(hotT2, r) <==> slot in oracle && r in oracle[slot])
      case IncrementalWarmup =>
        WarmsIncrementally(inputs, cached, evictions)
      case _ =>
        hotT2 == [] && evictions == []
    }

    /** The policy switch of OnCompactionBegin. */
    method Plan(info: CompactionInfo, inputs: seq<BlockRef>, nowUs: nat)
      returns (ghost hot1: seq<RangeId>, ghost hot2: seq<RangeId>, ghost evictions: seq<BlockRef>)
      requires Valid() && clock <= nowUs && hotT2 == []
      modifies this`clock, this`inferences, this`memoHits, this`hotT2, this`blocksEvicted, predictor, cache
      ensures ValidJobs() && ValidPredictor() && clock <= nowUs
      ensures Jobs.HotFor(opt.jobs, ssadSuspended, hotT2) == hotT2
      ensures Planned(info, inputs, nowUs, old(cache.resident), hot1, hot2, evictions)
      ensures cache.evicted == old(cache.evicted) + evictions
    {
      hot1, hot2, evictions := [], [], [];
      if ssadSuspended && opt.jobs.policy.Learned? { return; }
      match opt.jobs.policy {
        case Off =>
        case EagerEvict =>
        case WarmAll =>
        case WarmFlush =>
        case IncrementalWarmup =>
          evictions := PlanIncremental(inputs);
        case Oracle =>
          var slot := collector.cfg.SlotOf(nowUs) + 1;
          if slot in oracle { hotT2 := ToSpans(oracle[slot]); }
        case Learned =>
          hot1, hot2, evictions := PlanLearned(info, inputs, nowUs);
      }
    }

    /**
      OnCompactionBegin. In every case the job state moves as Jobs.Begin says, the plan being the hot
      spans chosen here. For the learned policy, unsuspended and not a dry run, the spans cover exactly
      the candidates scored hot for T2, and a compaction with phase 1 on evicts exactly the input
      blocks whose span has no candidate scored hot for T1.
     */
    method OnCompactionBegin(info: CompactionInfo, inputs: seq<BlockRef>, nowUs: nat)
      returns (ghost hot1: seq<RangeId>, ghost hot2: seq<RangeId>, ghost evictions: seq<BlockRef>)
      requires Valid() && clock <= nowUs
      modifies this`ctxStack, this`hotT2, this`prefetchedBytes, this`curIsFlush, this`budgetBytes
      modifies this`clock, this`inferences, this`memoHits, this`blocksEvicted, predictor, cache
      ensures Valid() && clock <= nowUs
      ensures State() == Jobs.Begin(opt.jobs, old(State()), info.isFlush, hotT2)
      ensures Planned(info, inputs, nowUs, old(cache.resident), hot1, hot2, evictions)
      ensures cache.evicted == old(cache.evicted) + evictions
    {
      PushContext(info.isFlush);
      hot1, hot2, evictions := Plan(info, inputs, nowUs);
    }

    /** ShouldPrefetch. */
    method ShouldPrefetch(b: BlockRef) returns (ok: bool)
      requires ValidJobs()
      modifies this`prefetchedBytes, this`blocksPrefetched, this`refusedBudget
      ensures ok == Jobs.Accepts(opt.jobs, old(State()), b) && State() == Jobs.Ask(opt.jobs, old(State()), b)
    {
      var want := false;
      match opt.jobs.policy {
        case Off => return false;
        case EagerEvict => return false;
        case WarmAll => want := true;
        case WarmFlush => want := curIsFlush;
        case IncrementalWarmup => want := BlockOverlaps(b, hotT2);
        case Oracle => want := BlockOverlaps(b, hotT2);
        case Learned =>
          if opt.jobs.phase2 && !ssadSuspended { want := BlockOverlaps(b, hotT2); }
      }
      if !want { return false; }
      if Wrap64(prefetchedBytes + b.size) > budgetBytes {
        refusedBudget := refusedBudget + 1;
        return false;
      }
      prefetchedBytes := Wrap64(prefetchedBytes + b.size);
      blocksPrefetched := blocksPrefetched + 1;
      return true;
    }

    /** OnCompactionEnd. */
    method OnCompactionEnd()
      requires ValidJobs()
      modifies this`hotT2, this`prefetchedBytes, this`budgetBytes, this`curIsFlush, this`ctxStack
      ensures ValidJobs() && State() == Jobs.End(old(State()))
    {
      if ctxStack == [] {
        hotT2 := [];
        return;
      }
      var outer := ctxStack[|ctxStack| - 1];
      ctxStack := ctxStack[..|ctxStack| - 1];
      hotT2 := outer.hot;
      prefetchedBytes := outer.spent;
      budgetBytes := outer.budget;
      curIsFlush := outer.isFlush;
    }

    /** The verdict on one report and the baseline's move. */
    method JudgeHealth(miss: real) returns (bad: bool)
      requires opt.jobs.ssad.Enabled()
      modifies this`ssadEwma
      ensures bad == Ssad.Bad(opt.jobs.ssad, old(HealthState()), miss)
      ensures ssadEwma == Ssad.Tracked(opt.jobs.ssad, old(HealthState()), miss)
    {
      var o := opt.jobs.ssad;
      if o.relative > 0.0 {
        if ssadEwma < 0.0 { ssadEwma := miss; }
        bad := miss > ssadEwma * (1.0 + o.relative);
        if !bad { ssadEwma := ssadEwma + o.alpha * (miss - ssadEwma); }
      } else {
        bad := miss > o.missThreshold;
      }
    }

    /** set_health. */
    method SetHealth(miss: real)
      modifies this`ssadSuspended, this`ssadLastBad, this`ssadRun, this`ssadEwma, this`ssadSuspensions
      ensures State() == Jobs.Report(opt.jobs, old(State()), miss)
    {
      if opt.jobs.ssad.missThreshold <= 0.0 && opt.jobs.ssad.relative <= 0.0 { return; }
      var bad := JudgeHealth(miss);
      ssadRun := if bad == ssadLastBad then ssadRun + 1 else 1;
      ssadLastBad := bad;
      if ssadRun < opt.jobs.ssad.window { return; }
      if bad && !ssadSuspended {
        ssadSuspended := true;
        ssadSuspensions := ssadSuspensions + 1;
      } else if !bad && ssadSuspended {
        ssadSuspended := false;
      }
    }

    /** A learned job under way: its spans are those of the last OnCompactionBegin, its bytes within the budget. */
    ghost predicate UnderWay(hot2: seq<RangeId>)
      reads this`hotT2, this`ctxStack, this`prefetchedBytes, this`budgetBytes
    {
      && opt.jobs.policy.Learned? && opt.jobs.phase2 && ValidJobs()
      && prefetchedBytes <= budgetBytes == opt.jobs.Budget()
      && forall r :: Covered(hotT2, r) <==> r in hot2
    }

    /**
      While the job is under way, after any well-bracketed run of asks, health reports and nested jobs
      that leaves Leaper unsuspended, a block is accepted iff its span has an id of hot2 and it fits
      beside what the job itself has accepted.
     */
    lemma AcceptedAfterRun(hot2: seq<RangeId>, run: Jobs.Run, b: BlockRef)
      requires UnderWay(hot2) && Jobs.SizesFit(opt.jobs, run)
      requires b.first <= b.last && opt.jobs.Budget() + b.size < TWO64
      requires !Jobs.Exec(opt.jobs, State(), Jobs.Calls(run, true)).health.suspended
      ensures var bytes := prefetchedBytes + Jobs.OwnBytes(opt.jobs, State(), run) + b.size;
        Jobs.Accepts(opt.jobs, Jobs.Exec(opt.jobs, State(), Jobs.Calls(run, true)), b) <==>
          SpanHasOne(b, hot2) && Jobs.Within(bytes, opt.jobs.maxPrefetchFrac * opt.jobs.cacheBytes)
    {
      var s := Jobs.Exec(opt.jobs, State(), Jobs.Calls(run, true));
      Jobs.RunRestores(opt.jobs, State(), run, true);
      Jobs.SpentIsOwnBytes(opt.jobs, State(), run);
      AcceptedIffHotAndFits(opt.jobs, s, b, hot2);
      Jobs.BudgetMeaning(opt.jobs, prefetchedBytes + Jobs.OwnBytes(opt.jobs, State(), run) + b.size,
                         opt.jobs.maxPrefetchFrac * opt.jobs.cacheBytes);
    }

    /**
      Both phases end to end, as an adapter drives them: a compaction or flush begins, and an output
      block is offered. It is accepted iff its span has a candidate that some model of the steps after
      the job scores hot, and it fits max_prefetch_frac * cache_bytes; the evictions are the input blocks
      without such a candidate in the steps of the job. From there AcceptedAfterRun goes on.
     */
    method BeginThenAsk(info: CompactionInfo, inputs: seq<BlockRef>, nowUs: nat, b: BlockRef)
      returns (ok: bool, ghost evictions: seq<BlockRef>)
      requires Valid() && clock <= nowUs && !ssadSuspended && !opt.dryRun
      requires opt.jobs.policy.Learned? && opt.jobs.phase2
      requires b.first <= b.last && opt.jobs.Budget() + b.size < TWO64
      modifies this`ctxStack, this`hotT2, this`prefetchedBytes, this`curIsFlush, this`budgetBytes
      modifies this`clock, this`inferences, this`memoHits, this`blocksEvicted, predictor, cache
      modifies this`blocksPrefetched, this`refusedBudget
      ensures Valid()
      ensures ok <==>
        WarmBlock(info, inputs, nowUs, b) && Jobs.Within(b.size, opt.jobs.maxPrefetchFrac * opt.jobs.cacheBytes)
      ensures Selects(info, inputs, nowUs, evictions) && cache.evicted == old(cache.evicted) + evictions
      ensures UnderWay(PhasesOf(info, inputs, nowUs).1) && prefetchedBytes == if ok then b.size else 0
    {
      ghost var hot1, hot2;
      hot1, hot2, evictions := OnCompactionBegin(info, inputs, nowUs);
      FirstAsk(b, hot2);
      SpanHasHot(info, inputs, nowUs, b);
      ok := AskFirst(b, hot2);
      assert hot2 == PhasesOf(info, inputs, nowUs).1;
    }

    method AskFirst(b: BlockRef, ghost hot2: seq<RangeId>) returns (ok: bool)
      requires UnderWay(hot2) && prefetchedBytes == 0 && b.size < TWO64
      modifies this`prefetchedBytes, this`blocksPrefetched, this`refusedBudget
      ensures ok == Jobs.Accepts(opt.jobs, old(State()), b)
      ensures UnderWay(hot2) && prefetchedBytes == if ok then b.size else 0
    {
      WrapSmall(b.size);
      ok := ShouldPrefetch(b);
      assert ok ==> State().ctx.spent == b.size;
      assert !ok ==> State().ctx.spent == 0;
    }

    /** The answer to the first ask of a job that has just begun. */
    lemma FirstAsk(b: BlockRef, hot2: seq<RangeId>)
      requires UnderWay(hot2) && !ssadSuspended && prefetchedBytes == 0
      requires b.first <= b.last && opt.jobs.Budget() + b.size < TWO64
      ensures Jobs.Accepts(opt.jobs, State(), b) <==>
        SpanHasOne(b, hot2) && Jobs.Within(b.size, opt.jobs.maxPrefetchFrac * opt.jobs.cacheBytes)
    {
      assert hotT2 == State().ctx.hot;
      FirstIffHotAndFits(opt.jobs, State(), b, hot2);
    }
  }

  /** One decision: with spans that cover exactly hot2, accepted iff the block's span has one of them and it fits. */
  lemma AcceptedIffHotAndFits(o: Jobs.Options, s: Jobs.Core, b: BlockRef, hot2: seq<RangeId>)
    requires o.policy.Learned? && o.phase2 && !s.health.suspended && b.first <= b.last
    requires Ordered(s.ctx.hot) && forall r :: Covered(s.ctx.hot, r) <==> r in hot2
    requires s.ctx.spent <= s.ctx.budget && s.ctx.budget + b.size < TWO64
    ensures Jobs.Accepts(o, s, b) <==> SpanHasOne(b, hot2) && s.ctx.spent + b.size <= s.ctx.budget
  {
    MeetsIsSpanHasOne(b, s.ctx.hot, hot2);
    WrapSmall(s.ctx.spent + b.size);
  }

  /** The same for the first block of a job. */
  lemma FirstIffHotAndFits(o: Jobs.Options, s: Jobs.Core, b: BlockRef, hot2: seq<RangeId>)
    requires o.policy.Learned? && o.phase2 && !s.health.suspended && b.first <= b.last
    requires Ordered(s.ctx.hot) && forall r :: Covered(s.ctx.hot, r) <==> r in hot2
    requires s.ctx.spent == 0 && s.ctx.budget == o.Budget() && o.Budget() + b.size < TWO64
    ensures Jobs.Accepts(o, s, b) <==> SpanHasOne(b, hot2) && Jobs.Within(b.size, o.maxPrefetchFrac * o.cacheBytes)
  {
    AcceptedIffHotAndFits(o, s, b, hot2);
    Jobs.BudgetMeaning(o, b.size, o.maxPrefetchFrac * o.cacheBytes);
  }
}
