/**
  StatsCache in tracking mode: counters around a wrapped cache that may evict whatever it likes,
  whenever it likes. `live` are the entries inserted and not yet deleted.
 */
module StatsCache {
  import opened Types

  const SLOTS: nat := 0x10_0000

  /** Entry; `id` tells entries apart. */
  datatype Entry = Entry(id: nat, cacheId: nat, charge: nat, prefetched: bool, hits: nat)

  datatype Counters = Counters(
    lookups: nat, hits: nat, misses: nat,
    inserts: nat, insertBytes: nat, erases: nat, evictions: nat, evictedBytes: nat,
    liveTotal: int,
    internalLookups: nat, bgLookups: nat, bgHits: nat,
    prefetchInserts: nat, pfInserted: nat, pfEvicted: nat, pfUsed: nat, pfReadOnce: nat)

  datatype Cache = Cache(c: Counters, live: seq<Entry>, liveBySlot: map<nat, int>)

  const NO_COUNTS := Counters(0, 0, 0, 0, 0, 0, 0, 0, 0, 0, 0, 0, 0, 0, 0, 0, 0)

  const EMPTY := Cache(NO_COUNTS, [], map[])

  const NO_STAMPS: map<nat, nat> := map[]

  datatype Caller = Policy | Background | Foreground

  /** What happens to the decorator. `found` is the wrapped cache's answer: a position in `live`. */
  datatype Op =
    | Insert(cacheId: nat, charge: nat, internal: bool)
    | Lookup(caller: Caller, found: Option<nat>)
    | Dispatch(i: nat)
    | Erase

  function SlotOf(cacheId: nat): nat {
    cacheId % SLOTS
  }

  function At(m: map<nat, int>, slot: nat): int {
    if slot in m then m[slot] else 0
  }

  function Bump(m: map<nat, int>, slot: nat, delta: int): map<nat, int> {
    m[slot := At(m, slot) + delta]
  }

  /** The wrapped cache answers with, and deletes, only entries it holds. */
  predicate Possible(s: Cache, op: Op) {
    match op
    case Lookup(caller, found) => found.Some? ==> found.value < |s.live|
    case Dispatch(i) => i < |s.live|
    case Insert(_, _, _) => true
    case Erase => true
  }

  function Inserted(s: Cache, cacheId: nat, charge: nat, internal: bool): Cache {
    var pf := if internal then 1 else 0;
    Cache(s.c.(inserts := s.c.inserts + 1, insertBytes := s.c.insertBytes + charge, liveTotal := s.c.liveTotal + charge,
               prefetchInserts := s.c.prefetchInserts + pf, pfInserted := s.c.pfInserted + pf),
          s.live + [Entry(s.c.inserts, cacheId, charge, internal, 0)],
          Bump(s.liveBySlot, SlotOf(cacheId), charge))
  }

  /** A workload hit on entry i; only prefetched entries count their hits. */
  function HitEntry(s: Cache, i: nat): Cache
    requires i < |s.live|
  {
    var e := s.live[i];
    if !e.prefetched then s
    else
      s.(live := s.live[i := e.(hits := (e.hits + 1) % TWO32)],
         c := s.c.(pfReadOnce := s.c.pfReadOnce + if e.hits == 0 then 1 else 0))
  }

  function LookedUp(s: Cache, caller: Caller, found: Option<nat>): Cache
    requires found.Some? ==> found.value < |s.live|
  {
    match caller
    case Policy => s.(c := s.c.(internalLookups := s.c.internalLookups + 1))
    case Background =>
      s.(c := s.c.(bgLookups := s.c.bgLookups + 1, bgHits := s.c.bgHits + if found.Some? then 1 else 0))
    case Foreground =>
      if found.None? then s.(c := s.c.(lookups := s.c.lookups + 1, misses := s.c.misses + 1))
      else HitEntry(s.(c := s.c.(lookups := s.c.lookups + 1, hits := s.c.hits + 1)), found.value)
  }

  /** The counters after an entry has been deleted. */
  function Evicted(c: Counters, e: Entry): Counters {
    c.(evictions := c.evictions + 1, evictedBytes := c.evictedBytes + e.charge,
       liveTotal := c.liveTotal - e.charge,
       pfEvicted := c.pfEvicted + (if e.prefetched then 1 else 0),
       pfUsed := c.pfUsed + (if e.prefetched && e.hits > 0 then 1 else 0))
  }

  function Dispatched(s: Cache, i: nat): Cache
    requires i < |s.live|
  {
    var e := s.live[i];
    Cache(Evicted(s.c, e),
          s.live[..i] + s.live[i + 1..],
          Bump(s.liveBySlot, SlotOf(e.cacheId), 0 - e.charge))
  }

  function Step(s: Cache, op: Op): Cache
    requires Possible(s, op)
  {
    match op
    case Insert(cacheId, charge, internal) => Inserted(s, cacheId, charge, internal)
    case Lookup(caller, found) => LookedUp(s, caller, found)
    case Dispatch(i) => Dispatched(s, i)
    case Erase => s.(c := s.c.(erases := s.c.erases + 1))
  }

  // ----- sums over the undeleted entries -----------------------------------------------------------

  /** The sum of a weight over the entries. */
  function Sum(live: seq<Entry>, weight: Entry -> nat): nat {
    if live == [] then 0 else weight(live[0]) + Sum(live[1..], weight)
  }

  function Charge(e: Entry): nat { e.charge }
  function IsPrefetched(e: Entry): nat { if e.prefetched then 1 else 0 }
  function IsRead(e: Entry): nat { if e.prefetched && e.hits > 0 then 1 else 0 }

  /** What an entry adds to one slot of live_. */
  function ChargeIn(slot: nat): Entry -> nat {
    (e: Entry) => if e.cacheId % SLOTS == slot then e.charge else 0
  }

  lemma {:induction false} SumConcat(x: seq<Entry>, y: seq<Entry>, weight: Entry -> nat)
    ensures Sum(x + y, weight) == Sum(x, weight) + Sum(y, weight)
  {
    if x == [] {
      assert x + y == y;
    } else {
      assert (x + y)[1..] == x[1..] + y;
      SumConcat(x[1..], y, weight);
    }
  }

  lemma SumAppend(live: seq<Entry>, e: Entry, weight: Entry -> nat)
    ensures Sum(live + [e], weight) == Sum(live, weight) + weight(e)
  {
    SumConcat(live, [e], weight);
    assert [e][1..] == [];
  }

  /** Taking entry i out of the list takes its weight out of the sum. */
  lemma SumSplit(live: seq<Entry>, i: nat, weight: Entry -> nat)
    requires i < |live|
    ensures Sum(live, weight) == weight(live[i]) + Sum(live[..i] + live[i + 1..], weight)
  {
    var x, y := live[..i], live[i..];
    assert live == x + y && y[1..] == live[i + 1..];
    SumConcat(x, y, weight);
    SumConcat(x, live[i + 1..], weight);
  }

  lemma SumUpdate(live: seq<Entry>, i: nat, e: Entry, weight: Entry -> nat)
    requires i < |live|
    ensures Sum(live[i := e], weight) + weight(live[i]) == Sum(live, weight) + weight(e)
  {
    SumSplit(live[i := e], i, weight);
    SumSplit(live, i, weight);
    assert live[i := e][..i] == live[..i] && live[i := e][i + 1..] == live[i + 1..];
  }

  // ----- conservation -----------------------------------------------------------------------

  /**
    The counters balance against the undeleted entries. `wraps` is how often a prefetched entry's 32-bit
    hit count has wrapped to zero: such an entry counts as unread again.
   */
  predicate Balanced(s: Cache, wraps: nat) {
    && s.c.lookups == s.c.hits + s.c.misses
    && s.c.bgHits <= s.c.bgLookups
    && s.c.inserts == s.c.evictions + |s.live|
    && s.c.insertBytes == s.c.evictedBytes + Sum(s.live, Charge)
    && s.c.liveTotal == Sum(s.live, Charge)
    && s.c.prefetchInserts == s.c.pfInserted == s.c.pfEvicted + Sum(s.live, IsPrefetched)
    && s.c.pfReadOnce == s.c.pfUsed + Sum(s.live, IsRead) + wraps
  }

  /** Hit counts are 32-bit. */
  predicate SmallHits(live: seq<Entry>) {
    forall i :: 0 <= i < |live| ==> live[i].hits < TWO32
  }

  /** Does this hit wrap the entry's count? */
  predicate HitWraps(s: Cache, i: nat) {
    i < |s.live| && s.live[i].prefetched && s.live[i].hits + 1 == TWO32
  }

  function WrapsIn(s: Cache, op: Op): nat {
    if op.Lookup? && op.caller.Foreground? && op.found.Some? && HitWraps(s, op.found.value) then 1 else 0
  }

  /** ... and live_, slot by slot. */
  ghost predicate SlotsBalanced(s: Cache) {
    forall slot: nat :: At(s.liveBySlot, slot) == Sum(s.live, ChargeIn(slot))
  }

  lemma EmptyBalanced(s: Cache)
    requires s == EMPTY
    ensures Balanced(s, 0) && SlotsBalanced(s) && SmallHits(s.live)
  {
    SumOfNone(s.live, Charge);
    SumOfNone(s.live, IsPrefetched);
    SumOfNone(s.live, IsRead);
    forall slot: nat ensures At(s.liveBySlot, slot) == Sum(s.live, ChargeIn(slot)) {
      SumOfNone(s.live, ChargeIn(slot));
    }
  }

  lemma SumOfNone(live: seq<Entry>, weight: Entry -> nat)
    requires live == []
    ensures Sum(live, weight) == 0
  {
  }

  lemma InsertBalanced(s: Cache, cacheId: nat, charge: nat, internal: bool, wraps: nat)
    requires Balanced(s, wraps) && SlotsBalanced(s)
    ensures var t := Inserted(s, cacheId, charge, internal); Balanced(t, wraps) && SlotsBalanced(t)
  {
    var e := Entry(s.c.inserts, cacheId, charge, internal, 0);
    SumAppend(s.live, e, Charge);
    SumAppend(s.live, e, IsPrefetched);
    SumAppend(s.live, e, IsRead);
    var t := Inserted(s, cacheId, charge, internal);
    forall slot: nat ensures At(t.liveBySlot, slot) == Sum(t.live, ChargeIn(slot)) {
      SumAppend(s.live, e, ChargeIn(slot));
    }
  }

  lemma DispatchBalanced(s: Cache, i: nat, wraps: nat)
    requires Balanced(s, wraps) && SlotsBalanced(s) && i < |s.live|
    ensures Balanced(Dispatched(s, i), wraps) && SlotsBalanced(Dispatched(s, i))
  {
    SumSplit(s.live, i, Charge);
    SumSplit(s.live, i, IsPrefetched);
    SumSplit(s.live, i, IsRead);
    var t := Dispatched(s, i);
    forall slot: nat ensures At(t.liveBySlot, slot) == Sum(t.live, ChargeIn(slot)) {
      SumSplit(s.live, i, ChargeIn(slot));
    }
  }

  /** A hit keeps the balance unless the entry's 32-bit hit count wraps to zero, and then it is off by one. */
  lemma HitBalancedIff(s: Cache, i: nat, wraps: nat)
    requires Balanced(s, wraps) && SlotsBalanced(s) && i < |s.live| && s.live[i].hits < TWO32
    ensures SlotsBalanced(HitEntry(s, i))
    ensures Balanced(HitEntry(s, i), wraps) <==> !HitWraps(s, i)
    ensures HitWraps(s, i) ==> Balanced(HitEntry(s, i), wraps + 1)
  {
    var e := s.live[i];
    if e.prefetched {
      var e' := e.(hits := (e.hits + 1) % TWO32);
      SumUpdate(s.live, i, e', Charge);
      SumUpdate(s.live, i, e', IsPrefetched);
      SumUpdate(s.live, i, e', IsRead);
      var t := HitEntry(s, i);
      forall slot: nat ensures At(t.liveBySlot, slot) == Sum(t.live, ChargeIn(slot)) {
        SumUpdate(s.live, i, e', ChargeIn(slot));
      }
    }
  }

  lemma StepBalanced(s: Cache, op: Op, wraps: nat)
    requires Balanced(s, wraps) && SlotsBalanced(s) && SmallHits(s.live) && Possible(s, op)
    ensures Balanced(Step(s, op), wraps + WrapsIn(s, op)) && SlotsBalanced(Step(s, op))
  {
    match op
    case Insert(cacheId, charge, internal) => InsertBalanced(s, cacheId, charge, internal, wraps);
    case Lookup(caller, found) =>
      if caller.Foreground? && found.Some? {
        HitBalancedIff(s.(c := s.c.(lookups := s.c.lookups + 1, hits := s.c.hits + 1)), found.value, wraps);
      }
    case Dispatch(i) => DispatchBalanced(s, i, wraps);
    case Erase =>
  }

  lemma StepSmallHits(s: Cache, op: Op)
    requires SmallHits(s.live) && Possible(s, op)
    ensures SmallHits(Step(s, op).live)
  {
  }

  /** A run the wrapped cache could produce. */
  ghost predicate IsRun(ops: seq<Op>, states: seq<Cache>) {
    && |states| == |ops| + 1 && states[0] == EMPTY
    && forall k :: 0 <= k < |ops| ==> Possible(states[k], ops[k]) && states[k + 1] == Step(states[k], ops[k])
  }

  /** Wrapping hits in the first k operations. */
  function WrapsUpTo(ops: seq<Op>, states: seq<Cache>, k: nat): nat
    requires k <= |ops| < |states|
  {
    if k == 0 then 0 else WrapsUpTo(ops, states, k - 1) + WrapsIn(states[k - 1], ops[k - 1])
  }

  /** All balances, the read-once one up to the wrapped hits. */
  ghost predicate Kept(s: Cache, wraps: nat) {
    Balanced(s, wraps) && SlotsBalanced(s) && SmallHits(s.live)
  }

  lemma EmptyKept(s: Cache, wraps: nat)
    requires s == EMPTY && wraps == 0
    ensures Kept(s, wraps)
  {
    EmptyBalanced(s);
  }

  lemma NextKept(s: Cache, op: Op, t: Cache, wraps: nat)
    requires Kept(s, wraps) && Possible(s, op) && t == Step(s, op)
    ensures Kept(t, wraps + WrapsIn(s, op))
  {
    StepBalanced(s, op, wraps);
    StepSmallHits(s, op);
  }

  /** Conservation: in every run, whatever the wrapped cache evicts, the counters balance up to the wrapped hits. */
  lemma {:induction false} Conservation(ops: seq<Op>, states: seq<Cache>, k: nat)
    requires IsRun(ops, states) && k <= |ops|
    ensures Kept(states[k], WrapsUpTo(ops, states, k))
  {
    var wraps := WrapsUpTo(ops, states, k);
    if k == 0 {
      EmptyKept(states[0], wraps);
    } else {
      Conservation(ops, states, k - 1);
      var s, op, t := states[k - 1], ops[k - 1], states[k - 1 + 1];
      NextKept(s, op, t, WrapsUpTo(ops, states, k - 1));
    }
  }

  /** So they balance exactly if and only if no hit count has wrapped. */
  lemma ExactIffNoWrap(ops: seq<Op>, states: seq<Cache>, k: nat)
    requires IsRun(ops, states) && k <= |ops|
    ensures Balanced(states[k], 0) <==> WrapsUpTo(ops, states, k) == 0
  {
    Conservation(ops, states, k);
    OffByWraps(states[k], WrapsUpTo(ops, states, k));
  }

  lemma OffByWraps(s: Cache, wraps: nat)
    requires Balanced(s, wraps)
    ensures Balanced(s, 0) <==> wraps == 0
  {
  }

  // ----- what the counters count ------------------------------------------------------------

  /** How many of the operations are of a kind. */
  function Count(ops: seq<Op>, kind: Op -> bool): nat {
    if ops == [] then 0 else Count(ops[..|ops| - 1], kind) + if kind(ops[|ops| - 1]) then 1 else 0
  }

  const WORKLOAD := (op: Op) => op.Lookup? && op.caller == Foreground
  const WORKLOAD_HIT := (op: Op) => op.Lookup? && op.caller == Foreground && op.found != None
  const BACKGROUND := (op: Op) => op.Lookup? && op.caller == Background
  const BACKGROUND_HIT := (op: Op) => op.Lookup? && op.caller == Background && op.found != None
  const PROBE := (op: Op) => op.Lookup? && op.caller == Policy
  const INSERT := (op: Op) => op.Insert?
  const PREFETCH := (op: Op) => op.Insert? && op.internal
  const DELETION := (op: Op) => op.Dispatch?
  const ERASURE := (op: Op) => op.Erase?

  /** The counters say how often each kind of operation happened. */
  predicate Tallies(c: Counters, ops: seq<Op>) {
    && c.lookups == Count(ops, WORKLOAD) && c.hits == Count(ops, WORKLOAD_HIT)
    && c.bgLookups == Count(ops, BACKGROUND) && c.bgHits == Count(ops, BACKGROUND_HIT)
    && c.internalLookups == Count(ops, PROBE)
    && c.inserts == Count(ops, INSERT) && c.prefetchInserts == Count(ops, PREFETCH)
    && c.evictions == Count(ops, DELETION) && c.erases == Count(ops, ERASURE)
  }

  lemma TallyStep(s: Cache, ops: seq<Op>, op: Op)
    requires Tallies(s.c, ops) && Possible(s, op)
    ensures Tallies(Step(s, op).c, ops + [op])
  {
    assert (ops + [op])[..|ops|] == ops;
  }

  /** In every run: workload, background and policy lookups are counted apart, and every operation once. */
  lemma {:induction false} CountersTally(ops: seq<Op>, states: seq<Cache>, k: nat)
    requires IsRun(ops, states) && k <= |ops|
    ensures Tallies(states[k].c, ops[..k])
  {
    if k > 0 {
      CountersTally(ops, states, k - 1);
      assert states[k - 1 + 1] == Step(states[k - 1], ops[k - 1]);
      TallyStep(states[k - 1], ops[..k - 1], ops[k - 1]);
      assert ops[..k] == ops[..k - 1] + [ops[k - 1]];
    }
  }

  /** The prefetched entry, by id, that an operation reads for the workload; at most one. */
  function ReadBy(s: Cache, op: Op): set<nat> {
    if op.Lookup? && op.caller == Foreground && op.found.Some? && op.found.value < |s.live| &&
       s.live[op.found.value].prefetched
    then {s.live[op.found.value].id} else {}
  }

  /** The prefetched entries read at least once in the first k operations. */
  function ReadUpTo(ops: seq<Op>, states: seq<Cache>, k: nat): set<nat>
    requires k <= |ops| < |states|
  {
    if k == 0 then {} else ReadUpTo(ops, states, k - 1) + ReadBy(states[k - 1], ops[k - 1])
  }

  /** Ids tell entries apart, the counter is the number of ids read, and an entry's hits show whether its id is one. */
  ghost predicate ReadsKnown(s: Cache, read: set<nat>) {
    && (forall i :: 0 <= i < |s.live| ==> s.live[i].id < s.c.inserts)
    && (forall i, j :: 0 <= i < j < |s.live| ==> s.live[i].id != s.live[j].id)
    && (forall id :: id in read ==> id < s.c.inserts)
    && s.c.pfReadOnce == |read|
    && (forall i :: 0 <= i < |s.live| && s.live[i].prefetched ==> (s.live[i].hits > 0 <==> s.live[i].id in read))
  }

  lemma HitKnown(s: Cache, i: nat, read: set<nat>)
    requires ReadsKnown(s, read) && i < |s.live| && s.live[i].hits + 1 < TWO32
    ensures ReadsKnown(HitEntry(s, i), read + if s.live[i].prefetched then {s.live[i].id} else {})
  {
    var e := s.live[i];
    if e.prefetched {
      if e.hits > 0 { assert read + {e.id} == read; } else { assert |read + {e.id}| == |read| + 1; }
    } else {
      assert read + {} == read;
    }
  }

  lemma InsertKnown(s: Cache, cacheId: nat, charge: nat, internal: bool, read: set<nat>)
    requires ReadsKnown(s, read)
    ensures ReadsKnown(Inserted(s, cacheId, charge, internal), read)
  {
  }

  lemma DispatchKnown(s: Cache, i: nat, read: set<nat>)
    requires ReadsKnown(s, read) && i < |s.live|
    ensures ReadsKnown(Dispatched(s, i), read)
  {
    var t := Dispatched(s, i);
    forall k | 0 <= k < |t.live| ensures t.live[k] == s.live[if k < i then k else k + 1] { }
  }

  lemma LookupKnown(s: Cache, caller: Caller, found: Option<nat>, read: set<nat>)
    requires var op := Lookup(caller, found);
      ReadsKnown(s, read) && Possible(s, op) && SmallHits(s.live) && WrapsIn(s, op) == 0
    ensures ReadsKnown(LookedUp(s, caller, found), read + ReadBy(s, Lookup(caller, found)))
  {
    assert read + {} == read;
    if caller.Foreground? && found.Some? {
      var t := s.(c := s.c.(lookups := s.c.lookups + 1, hits := s.c.hits + 1));
      assert ReadsKnown(t, read);
      if s.live[found.value].prefetched { HitKnown(t, found.value, read); }
    } else {
      CountersOnly(s, LookedUp(s, caller, found), read);
    }
  }

  lemma CountersOnly(s: Cache, t: Cache, read: set<nat>)
    requires ReadsKnown(s, read) && t.live == s.live
    requires t.c.inserts == s.c.inserts && t.c.pfReadOnce == s.c.pfReadOnce
    ensures ReadsKnown(t, read)
  {
  }

  lemma StepKnown(s: Cache, op: Op, read: set<nat>)
    requires ReadsKnown(s, read) && Possible(s, op) && SmallHits(s.live) && WrapsIn(s, op) == 0
    ensures ReadsKnown(Step(s, op), read + ReadBy(s, op))
  {
    assert read + {} == read;
    match op
    case Insert(cacheId, charge, internal) => InsertKnown(s, cacheId, charge, internal, read);
    case Lookup(caller, found) => LookupKnown(s, caller, found, read);
    case Dispatch(i) => DispatchKnown(s, i, read);
    case Erase => CountersOnly(s, Step(s, op), read);
  }

  /**
    Prefetch precision: while no hit count has wrapped, pf_read_once is the number of different
    prefetched blocks that the workload has read, deleted ones included.
   */
  lemma {:induction false} ReadOnceIsBlocksRead(ops: seq<Op>, states: seq<Cache>, k: nat)
    requires IsRun(ops, states) && k <= |ops| && WrapsUpTo(ops, states, k) == 0
    ensures ReadsKnown(states[k], ReadUpTo(ops, states, k))
    ensures states[k].c.pfReadOnce == |ReadUpTo(ops, states, k)|
  {
    if k > 0 {
      ReadOnceIsBlocksRead(ops, states, k - 1);
      Conservation(ops, states, k - 1);
      assert states[k - 1 + 1] == Step(states[k - 1], ops[k - 1]);
      StepKnown(states[k - 1], ops[k - 1], ReadUpTo(ops, states, k - 1));
    }
  }

  // ----- the class --------------------------------------------------------------------------

  class TrackingCache {
    var c: Counters
    var live: seq<Entry>
    var liveBySlot: map<nat, int>
    var lastHit: map<nat, nat>  // by slot; a slot without an entry reads 0
    ghost var wraps: nat

    ghost function State(): Cache
      reads this
    {
      Cache(c, live, liveBySlot)
    }

    ghost predicate Valid()
      reads this
    {
      Balanced(State(), wraps) && SlotsBalanced(State()) && SmallHits(live)
    }

    constructor ()
      ensures Valid() && State() == EMPTY
      ensures lastHit == NO_STAMPS && wraps == 0
    {
      c, live, liveBySlot, lastHit := EMPTY.c, EMPTY.live, EMPTY.liveBySlot, NO_STAMPS;
      wraps := 0;
      new;
      ghost var s := State();
      assert s == EMPTY && lastHit == NO_STAMPS && wraps == 0;
      EmptyBalanced(s);
      assert live == s.live;
    }

    /** Insert. */
    method InsertBlock(cacheId: nat, charge: nat, internal: bool)
      requires Valid()
      modifies this`c, this`live, this`liveBySlot
      ensures Valid() && State() == Step(old(State()), Insert(cacheId, charge, internal))
    {
      InsertBalanced(State(), cacheId, charge, internal, wraps);
      var pf := if internal then 1 else 0;
      live := live + [Entry(c.inserts, cacheId, charge, internal, 0)];
      liveBySlot := Bump(liveBySlot, SlotOf(cacheId), charge);
      c := c.(inserts := c.inserts + 1, insertBytes := c.insertBytes + charge, liveTotal := c.liveTotal + charge,
              prefetchInserts := c.prefetchInserts + pf, pfInserted := c.pfInserted + pf);
    }

    /** Lookup; a workload hit stamps the slot of the looked-up key's cache id. */
    method LookupBlock(caller: Caller, found: Option<nat>, cacheId: nat, nowSecs: nat)
      requires Valid() && Possible(State(), Lookup(caller, found))
      modifies this`c, this`live, this`lastHit, this`wraps
      ensures Valid() && State() == Step(old(State()), Lookup(caller, found))
      ensures wraps == old(wraps) + WrapsIn(old(State()), Lookup(caller, found))
      ensures lastHit ==
        if caller.Foreground? && found.Some? then old(lastHit)[cacheId % SLOTS := nowSecs] else old(lastHit)
    {
      ghost var s := Step(State(), Lookup(caller, found));
      StepBalanced(State(), Lookup(caller, found), wraps);
      StepSmallHits(State(), Lookup(caller, found));
      wraps := wraps + WrapsIn(State(), Lookup(caller, found));
      CountLookup(caller, found);
      assert State() == s;
      if caller.Foreground? && found.Some? { lastHit := lastHit[SlotOf(cacheId) := nowSecs]; }
    }

    method CountLookup(caller: Caller, found: Option<nat>)
      requires found.Some? ==> found.value < |live|
      modifies this`c, this`live
      ensures State() == LookedUp(old(State()), caller, found)
    {
      if caller.Policy? {
        c := c.(internalLookups := c.internalLookups + 1);
        return;
      }
      if caller.Background? {
        c := c.(bgLookups := c.bgLookups + 1);
        if found.Some? { c := c.(bgHits := c.bgHits + 1); }
        return;
      }
      c := c.(lookups := c.lookups + 1);
      if found.None? {
        c := c.(misses := c.misses + 1);
        return;
      }
      c := c.(hits := c.hits + 1);
      CountHit(found.value);
    }

    /** The first read of a prefetched entry settles that it was used. */
    method CountHit(i: nat)
      requires i < |live|
      modifies this`c, this`live
      ensures State() == HitEntry(old(State()), i)
    {
      var e := live[i];
      if e.prefetched {
        live := live[i := e.(hits := (e.hits + 1) % TWO32)];
        if e.hits == 0 { c := c.(pfReadOnce := c.pfReadOnce + 1); }
      }
    }

    /** Dispatch: the wrapped cache deletes an entry. */
    method DispatchEntry(i: nat)
      requires Valid() && i < |live|
      modifies this`c, this`live, this`liveBySlot
      ensures Valid() && State() == Step(old(State()), Dispatch(i))
    {
      DispatchBalanced(State(), i, wraps);
      var e := live[i];
      CountEviction(e);
      liveBySlot := Bump(liveBySlot, SlotOf(e.cacheId), 0 - e.charge);
      live := live[..i] + live[i + 1..];
    }

    method CountEviction(e: Entry)
      modifies this`c
      ensures c == Evicted(old(c), e)
    {
      c := c.(evictions := c.evictions + 1, evictedBytes := c.evictedBytes + e.charge,
              liveTotal := c.liveTotal - e.charge);
      if e.prefetched {
        c := c.(pfEvicted := c.pfEvicted + 1);
        if e.hits > 0 { c := c.(pfUsed := c.pfUsed + 1); }
      }
    }
  }
}
