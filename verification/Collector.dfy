/**
  Statistics collection (section 5.1 of the paper): per range a ring of history + 1 cells, each a
  64-bit word packing (slot << 32 | count), rolled over lazily on first touch and never swept.
 */
module Collecting {
  import opened Types

  type Word = nat

  function EpochOf(w: Word): nat {
    w / TWO32
  }

  function LowHalf(w: Word): nat {
    w % TWO32
  }

  /** (epoch << 32) | count in a uint64_t: the slot number is cut to 32 bits. */
  function Pack(epoch: nat, count: nat): Word {
    Wrap64(epoch * TWO32) + count
  }

  lemma PackFits(epoch: nat, count: nat)
    requires epoch < TWO32 && count < TWO32
    ensures EpochOf(Pack(epoch, count)) == epoch && LowHalf(Pack(epoch, count)) == count
    ensures Pack(epoch, count) < TWO64
  {
    WrapSmall(epoch * TWO32);
  }

  /** Collector::CountOf. */
  function CountOf(w: Word, epoch: nat): nat {
    if EpochOf(w) == epoch then LowHalf(w) else 0
  }

  /** What one uninterrupted Record does to its cell; `keep` is the sampling outcome. */
  function Touch(w: Word, epoch: nat, keep: bool): Word {
    if EpochOf(w) != epoch then Pack(epoch, 1)
    else if keep then Wrap64(w + 1)
    else w
  }

  datatype Config = Config(history: nat, slots: nat, slotUs: nat, sampleRate: real) {
    /** The constructor rounds the table up to a power of two; slot_us is a divisor. */
    ghost predicate Valid() {
      && 1 <= history < TWO32 && slotUs >= 1 && sampleRate > 0.0
      && slots >= 1 && (exists k: nat :: slots == PowerOfTwo(k))
    }

    function Ring(): nat {
      history + 1
    }

    function SlotOf(nowUs: nat): nat
      requires slotUs >= 1
    {
      nowUs / slotUs
    }

    /** Collector::Slot. The mask is slots - 1 and slots a power of two. */
    function Index(r: RangeId): (i: nat)
      requires slots >= 1
      ensures i < slots
    {
      r % slots
    }

    /** Collector::Cell. */
    function Cell(index: nat, epoch: nat): (c: nat)
      requires index < slots
      ensures c < slots * Ring()
    {
      CellBound(index, epoch % Ring(), slots, Ring());
      index * Ring() + epoch % Ring()
    }
  }

  /** The slot is the one whose slotUs microseconds the time falls into. */
  lemma SlotHoldsTime(c: Config, nowUs: nat)
    requires c.slotUs >= 1
    ensures c.SlotOf(nowUs) * c.slotUs <= nowUs < (c.SlotOf(nowUs) + 1) * c.slotUs
  {
    DivIsDivision(nowUs, c.slotUs);
    DivAtLeast(nowUs, c.slotUs, c.SlotOf(nowUs));
    DivAtLeast(nowUs, c.slotUs, c.SlotOf(nowUs) + 1);
  }

  function PowerOfTwo(k: nat): nat {
    if k == 0 then 1 else 2 * PowerOfTwo(k - 1)
  }

  lemma CellBound(index: nat, residue: nat, slots: nat, ring: nat)
    requires index < slots && residue < ring
    ensures index * ring + residue < slots * ring
  {
    MulMonotone(index + 1, slots, ring);
    assert (index + 1) * ring == index * ring + ring;
  }

  lemma CellInjective(c: Config, i: nat, d: nat, j: nat, e: nat)
    requires i < c.slots && j < c.slots
    ensures c.Cell(i, d) == c.Cell(j, e) <==> i == j && d % c.Ring() == e % c.Ring()
  {
    var ring := c.Ring();
    if i < j {
      MulMonotone(i + 1, j, ring);
      assert (i + 1) * ring == i * ring + ring;
    } else if j < i {
      MulMonotone(j + 1, i, ring);
      assert (j + 1) * ring == j * ring + ring;
    }
  }

  /** Two slots that share a ring cell are a whole ring apart. */
  lemma RingApart(a: nat, b: nat, ring: nat)
    requires ring > 0 && a < b && a % ring == b % ring
    ensures b - a >= ring
  {
    var p, q := a / ring, b / ring;
    assert b - a == ring * q - ring * p;
    assert ring * (q - p) == ring * q - ring * p;
    if q - p >= 1 { AtLeastOnce(ring, q - p); } else { MulMonotone(q, p, ring); }
  }

  // ----- access logs ------------------------------------------------------------------------

  /** One call of Record: which range, which kind, in which slot, and whether sampling kept it. */
  datatype Access = Access(range: RangeId, isWrite: bool, slot: nat, keep: bool)

  datatype Tables = Tables(readCells: seq<Word>, writeCells: seq<Word>) {
    function Of(isWrite: bool): seq<Word> {
      if isWrite then writeCells else readCells
    }
  }

  predicate Sized(c: Config, t: Tables) {
    |t.readCells| == |t.writeCells| == c.slots * c.Ring()
  }

  function Recorded(c: Config, t: Tables, a: Access): (u: Tables)
    requires c.slots >= 1 && Sized(c, t)
    ensures Sized(c, u)
  {
    var cell := c.Cell(c.Index(a.range), a.slot);
    var w := Touch(t.Of(a.isWrite)[cell], a.slot, a.keep);
    if a.isWrite then t.(writeCells := t.writeCells[cell := w]) else t.(readCells := t.readCells[cell := w])
  }

  function Zeros(n: nat): (z: seq<Word>)
    ensures |z| == n
  {
    seq(n, i => 0)
  }

  /** The tables after a log of calls. */
  function After(c: Config, log: seq<Access>): (t: Tables)
    requires c.slots >= 1
    ensures Sized(c, t)
  {
    if log == [] then Tables(Zeros(c.slots * c.Ring()), Zeros(c.slots * c.Ring()))
    else Recorded(c, After(c, log[..|log| - 1]), log[|log| - 1])
  }

  /** An access of the kind to a range that shares r's cells. */
  predicate Matches(c: Config, a: Access, r: RangeId, isWrite: bool)
    requires c.slots >= 1
  {
    a.range % c.slots == r % c.slots && a.isWrite == isWrite
  }

  /** The accesses in one slot to the ranges that are equal to r modulo the table size. */
  function TrueCount(c: Config, log: seq<Access>, r: RangeId, isWrite: bool, slot: nat): nat
    requires c.slots >= 1
  {
    if log == [] then 0
    else
      var a := log[|log| - 1];
      TrueCount(c, log[..|log| - 1], r, isWrite, slot) +
      if Matches(c, a, r, isWrite) && a.slot == slot then 1 else 0
  }

  /** The same count as sampling sees it: the first access of a slot always, later ones if kept. */
  function SampledCount(c: Config, log: seq<Access>, r: RangeId, isWrite: bool, slot: nat): nat
    requires c.slots >= 1
  {
    if log == [] then 0
    else
      var a, before := log[|log| - 1], log[..|log| - 1];
      SampledCount(c, before, r, isWrite, slot) +
      if Matches(c, a, r, isWrite) && a.slot == slot &&
         (a.keep || (slot > 0 && TrueCount(c, before, r, isWrite, slot) == 0)) then 1 else 0
  }

  function Newest(log: seq<Access>): nat {
    if log == [] then 0
    else
      var n := Newest(log[..|log| - 1]);
      if n < log[|log| - 1].slot then log[|log| - 1].slot else n
  }

  /** No access is more than `history` slots behind the newest before it. */
  predicate Recent(c: Config, log: seq<Access>) {
    log != [] ==>
      && Recent(c, log[..|log| - 1])
      && Newest(log[..|log| - 1]) <= log[|log| - 1].slot + c.history
  }

  /** What 32-bit slot numbers and 32-bit counts can hold. */
  ghost predicate Fits(c: Config, log: seq<Access>)
    requires c.slots >= 1
  {
    && Newest(log) < TWO32
    && forall r: RangeId, isWrite: bool, slot: nat :: TrueCount(c, log, r, isWrite, slot) < TWO32
  }

  /** The word one cell holds after a log, cell by cell. */
  function CellAfter(c: Config, log: seq<Access>, r: RangeId, isWrite: bool, residue: nat): Word
    requires c.slots >= 1
  {
    if log == [] then 0
    else
      var a := log[|log| - 1];
      var w := CellAfter(c, log[..|log| - 1], r, isWrite, residue);
      if Matches(c, a, r, isWrite) && a.slot % c.Ring() == residue then Touch(w, a.slot, a.keep) else w
  }

  lemma {:induction false} AfterIsCellwise(c: Config, log: seq<Access>, r: RangeId, isWrite: bool, epoch: nat)
    requires c.slots >= 1
    ensures After(c, log).Of(isWrite)[c.Cell(c.Index(r), epoch)] == CellAfter(c, log, r, isWrite, epoch % c.Ring())
  {
    if log != [] {
      var a := log[|log| - 1];
      AfterIsCellwise(c, log[..|log| - 1], r, isWrite, epoch);
      CellInjective(c, c.Index(r), epoch, c.Index(a.range), a.slot);
    }
  }

  /** The newest slot recorded in a ring cell, 0 for an untouched one. */
  function LatestIn(c: Config, log: seq<Access>, r: RangeId, isWrite: bool, residue: nat): nat
    requires c.slots >= 1
  {
    if log == [] then 0
    else
      var a := log[|log| - 1];
      if Matches(c, a, r, isWrite) && a.slot % c.Ring() == residue then a.slot
      else LatestIn(c, log[..|log| - 1], r, isWrite, residue)
  }

  lemma FitsBefore(c: Config, log: seq<Access>)
    requires c.slots >= 1 && log != [] && Fits(c, log)
    ensures Fits(c, log[..|log| - 1])
  {
    var before := log[..|log| - 1];
    forall r: RangeId, isWrite: bool, slot: nat
      ensures TrueCount(c, before, r, isWrite, slot) < TWO32
    {
      assert TrueCount(c, log, r, isWrite, slot) < TWO32;
    }
  }

  lemma {:induction false} SampledAtMostTrue(c: Config, log: seq<Access>, r: RangeId, isWrite: bool, slot: nat)
    requires c.slots >= 1
    ensures SampledCount(c, log, r, isWrite, slot) <= TrueCount(c, log, r, isWrite, slot)
  {
    if log != [] { SampledAtMostTrue(c, log[..|log| - 1], r, isWrite, slot); }
  }

  lemma {:induction false} LatestIsInLog(c: Config, log: seq<Access>, r: RangeId, isWrite: bool, residue: nat)
    requires c.slots >= 1
    ensures var e := LatestIn(c, log, r, isWrite, residue);
      e <= Newest(log) && (e == 0 || (e % c.Ring() == residue && TrueCount(c, log, r, isWrite, e) > 0))
  {
    if log != [] { LatestIsInLog(c, log[..|log| - 1], r, isWrite, residue); }
  }

  /** A late access never falls behind what its cell already holds. */
  lemma NeverBehindCell(c: Config, log: seq<Access>, r: RangeId, isWrite: bool)
    requires c.slots >= 1 && Recent(c, log) && log != []
    ensures var a := log[|log| - 1];
      LatestIn(c, log[..|log| - 1], r, isWrite, a.slot % c.Ring()) <= a.slot
  {
    var a, before := log[|log| - 1], log[..|log| - 1];
    var e := LatestIn(c, before, r, isWrite, a.slot % c.Ring());
    LatestIsInLog(c, before, r, isWrite, a.slot % c.Ring());
    if a.slot < e { RingApart(a.slot, e, c.Ring()); }
  }

  lemma {:induction false} NothingAfterLatest(c: Config, log: seq<Access>, r: RangeId, isWrite: bool, slot: nat)
    requires c.slots >= 1 && Recent(c, log)
    requires LatestIn(c, log, r, isWrite, slot % c.Ring()) < slot
    ensures TrueCount(c, log, r, isWrite, slot) == 0
  {
    if log != [] {
      var a, before := log[|log| - 1], log[..|log| - 1];
      if Matches(c, a, r, isWrite) && a.slot % c.Ring() == slot % c.Ring() {
        NeverBehindCell(c, log, r, isWrite);
      }
      NothingAfterLatest(c, before, r, isWrite, slot);
    }
  }

  /** Lazy rollover keeps, in every cell, exactly the newest slot that maps to it. */
  lemma {:induction false} CellHoldsLatest(c: Config, log: seq<Access>, r: RangeId, isWrite: bool, residue: nat)
    requires c.slots >= 1 && Recent(c, log) && Fits(c, log)
    ensures var w := CellAfter(c, log, r, isWrite, residue);
      var e := LatestIn(c, log, r, isWrite, residue);
      && EpochOf(w) == e
      && (e % c.Ring() == residue ==> LowHalf(w) == SampledCount(c, log, r, isWrite, e))
  {
    if log != [] {
      var a, before := log[|log| - 1], log[..|log| - 1];
      FitsBefore(c, log);
      CellHoldsLatest(c, before, r, isWrite, residue);
      if Matches(c, a, r, isWrite) && a.slot % c.Ring() == residue {
        NeverBehindCell(c, log, r, isWrite);
        SampledAtMostTrue(c, before, r, isWrite, a.slot);
        assert TrueCount(c, log, r, isWrite, a.slot) < TWO32;
        LatestIsInLog(c, before, r, isWrite, residue);
        if LatestIn(c, before, r, isWrite, residue) < a.slot {
          NothingAfterLatest(c, before, r, isWrite, a.slot);
        }
        TouchEffect(CellAfter(c, before, r, isWrite, residue), a.slot, a.keep);
      }
    }
  }

  lemma TouchEffect(w: Word, epoch: nat, keep: bool)
    requires epoch < TWO32
    requires EpochOf(w) == epoch ==> LowHalf(w) + 1 < TWO32
    ensures EpochOf(Touch(w, epoch, keep)) == epoch
    ensures LowHalf(Touch(w, epoch, keep)) ==
      if EpochOf(w) != epoch then 1 else if keep then LowHalf(w) + 1 else LowHalf(w)
  {
    PackFits(epoch, 1);
    WrapSmall(w + 1);
  }

  /**
    Ring exactness. After any log whose accesses are at most `history` slots late, the cell of each of
    the `history` slots before any slot q not before the newest holds that slot's count, with no
    sweep and whatever idle gaps the log has.
   */
  lemma RingHoldsWindow(c: Config, log: seq<Access>, r: RangeId, isWrite: bool, q: nat, slot: nat)
    requires c.slots >= 1 && Recent(c, log) && Fits(c, log)
    requires Newest(log) <= q && q - c.history <= slot < q
    ensures CountOf(After(c, log).Of(isWrite)[c.Cell(c.Index(r), slot)], slot) == SampledCount(c, log, r, isWrite, slot)
  {
    var residue := slot % c.Ring();
    AfterIsCellwise(c, log, r, isWrite, slot);
    CellHoldsLatest(c, log, r, isWrite, residue);
    LatestIsInLog(c, log, r, isWrite, residue);
    var e := LatestIn(c, log, r, isWrite, residue);
    if slot < e {
      RingApart(slot, e, c.Ring());
    } else if e < slot {
      NothingAfterLatest(c, log, r, isWrite, slot);
      SampledAtMostTrue(c, log, r, isWrite, slot);
    }
  }

  /** At sampling rate 1 every access is kept and the sampled count is the true count. */
  lemma {:induction false} UnsampledIsTrue(c: Config, log: seq<Access>, r: RangeId, isWrite: bool, slot: nat)
    requires c.slots >= 1 && forall i :: 0 <= i < |log| ==> log[i].keep
    ensures SampledCount(c, log, r, isWrite, slot) == TrueCount(c, log, r, isWrite, slot)
  {
    if log != [] { UnsampledIsTrue(c, log[..|log| - 1], r, isWrite, slot); }
  }

  /** Some kept access of the class fell into the slot. */
  predicate SomeKept(c: Config, log: seq<Access>, r: RangeId, isWrite: bool, slot: nat)
    requires c.slots >= 1
  {
    exists i :: 0 <= i < |log| && Matches(c, log[i], r, isWrite) && log[i].slot == slot && log[i].keep
  }

  /**
    The 0/1 property the classifier rests on: sampling never turns an accessed slot into an idle one.
    It holds for every slot but slot 0, where a zeroed cell already reads as epoch 0 and the first
    access is sampled like any other: there the slot counts as accessed iff some access was kept.
   */
  lemma {:induction false} SampledZeroOne(c: Config, log: seq<Access>, r: RangeId, isWrite: bool, slot: nat)
    requires c.slots >= 1
    ensures SampledCount(c, log, r, isWrite, slot) > 0 <==>
      TrueCount(c, log, r, isWrite, slot) > 0 && (slot > 0 || SomeKept(c, log, r, isWrite, slot))
  {
    if log != [] {
      var a, before := log[|log| - 1], log[..|log| - 1];
      SampledZeroOne(c, before, r, isWrite, slot);
      assert SomeKept(c, log, r, isWrite, slot) <==>
        SomeKept(c, before, r, isWrite, slot) || (Matches(c, a, r, isWrite) && a.slot == slot && a.keep)
      by {
        assert forall i :: 0 <= i < |before| ==> before[i] == log[i];
        if i :| 0 <= i < |before| && Matches(c, before[i], r, isWrite) && before[i].slot == slot && before[i].keep {
          assert log[i] == before[i];
        }
      }
      if SomeKept(c, before, r, isWrite, slot) { KeptIsCounted(c, before, r, isWrite, slot); }
    }
  }

  lemma {:induction false} KeptIsCounted(c: Config, log: seq<Access>, r: RangeId, isWrite: bool, slot: nat)
    requires c.slots >= 1 && SomeKept(c, log, r, isWrite, slot)
    ensures TrueCount(c, log, r, isWrite, slot) > 0
  {
    var i :| 0 <= i < |log| && Matches(c, log[i], r, isWrite) && log[i].slot == slot && log[i].keep;
    if i < |log| - 1 {
      assert log[..|log| - 1][i] == log[i];
      KeptIsCounted(c, log[..|log| - 1], r, isWrite, slot);
    }
  }

  // ----- History ----------------------------------------------------------------------------

  /** Collector::Estimate, the paper's N = (S - 1) / P + 1. */
  function Estimate(count: nat, rate: real): real
    requires rate > 0.0
  {
    if count == 0 then 0.0
    else if rate >= 1.0 then count as real
    else (count - 1) as real / rate + 1.0
  }

  /** The mean of a with probability p and b otherwise. */
  function Mixed(p: real, a: real, b: real): real {
    p * a + (1.0 - p) * b
  }

  /** The mean estimate when `later` more accesses follow `count` counted ones, each kept with probability `rate`. */
  function MeanEstimate(later: nat, count: nat, rate: real): real
    requires rate > 0.0
  {
    if later == 0 then Estimate(count, rate)
    else Mixed(rate, MeanEstimate(later - 1, count + 1, rate), MeanEstimate(later - 1, count, rate))
  }

  /** The estimator is unbiased: with the first of n accesses always counted, the mean estimate is n. */
  lemma {:induction false} EstimateUnbiased(later: nat, count: nat, rate: real)
    requires 0.0 < rate <= 1.0 && count >= 1
    ensures MeanEstimate(later, count, rate) == Estimate(count, rate) + later as real
    ensures count == 1 ==> MeanEstimate(later, count, rate) == (later + 1) as real
  {
    if later > 0 {
      EstimateUnbiased(later - 1, count + 1, rate);
      EstimateUnbiased(later - 1, count, rate);
      OneMore(count, rate, MeanEstimate(later - 1, count + 1, rate), MeanEstimate(later - 1, count, rate),
              later as real - 1.0);
    }
  }

  lemma OneMore(count: nat, rate: real, kept: real, skipped: real, k: real)
    requires 0.0 < rate <= 1.0 && count >= 1
    requires kept == Estimate(count + 1, rate) + k && skipped == Estimate(count, rate) + k
    ensures Mixed(rate, kept, skipped) == Estimate(count, rate) + k + 1.0
  {
    var d := Estimate(count + 1, rate) - Estimate(count, rate);
    Steepness(count, rate);
    assert kept == skipped + d;
    MixedStep(rate, skipped, d);
  }

  lemma Steepness(count: nat, rate: real)
    requires 0.0 < rate <= 1.0 && count >= 1
    ensures rate * (Estimate(count + 1, rate) - Estimate(count, rate)) == 1.0
  {
    if rate < 1.0 {
      assert count as real / rate == (count as real - 1.0) / rate + 1.0 / rate;
    }
  }

  lemma MixedStep(p: real, x: real, d: real)
    ensures Mixed(p, x + d, x) == x + p * d
  {
  }

  /** The i-th of the `history` slots before `epoch`, oldest first, in uint64_t arithmetic. */
  function HistorySlot(c: Config, epoch: nat, i: nat): nat {
    Wrap64(epoch - (c.history - i))
  }

  function Rate(c: Config, t: Tables, r: RangeId, isWrite: bool, epoch: nat, i: nat): real
    requires c.slots >= 1 && c.sampleRate > 0.0 && Sized(c, t)
  {
    var e := HistorySlot(c, epoch, i);
    Estimate(CountOf(t.Of(isWrite)[c.Cell(c.Index(r), e)], e), c.sampleRate)
  }

  function Rates(c: Config, t: Tables, r: RangeId, isWrite: bool, epoch: nat): (rates: seq<real>)
    requires c.slots >= 1 && c.sampleRate > 0.0 && Sized(c, t)
    ensures |rates| == c.history
    ensures forall i :: 0 <= i < c.history ==> rates[i] == Rate(c, t, r, isWrite, epoch, i)
  {
    seq(c.history, i requires 0 <= i < c.history => Rate(c, t, r, isWrite, epoch, i))
  }

  /** Every stored word is a uint64_t. */
  predicate Words(t: Tables) {
    && (forall i :: 0 <= i < |t.readCells| ==> t.readCells[i] < TWO64)
    && (forall i :: 0 <= i < |t.writeCells| ==> t.writeCells[i] < TWO64)
  }

  lemma TouchIsWord(w: Word, epoch: nat, keep: bool)
    requires w < TWO64
    ensures Touch(w, epoch, keep) < TWO64
  {
    assert Wrap64(epoch * TWO32) % TWO32 == 0;
  }

  /** Slots before time 0 have numbers that no cell's epoch equals. */
  lemma BeforeTimeZero(c: Config, log: seq<Access>, r: RangeId, isWrite: bool, e: nat)
    requires c.slots >= 1 && Recent(c, log) && Fits(c, log) && e >= TWO32
    ensures CountOf(After(c, log).Of(isWrite)[c.Cell(c.Index(r), e)], e) == 0
  {
    AfterIsCellwise(c, log, r, isWrite, e);
    CellHoldsLatest(c, log, r, isWrite, e % c.Ring());
    LatestIsInLog(c, log, r, isWrite, e % c.Ring());
  }

  /** The i-th history slot: one that is looked back on, or a number no 32-bit epoch equals. */
  lemma HistorySlotIs(c: Config, q: nat, i: nat)
    requires c.history < TWO32 && q < TWO64 && i < c.history
    ensures var e, back := HistorySlot(c, q, i), c.history - i;
      if q >= back then e == q - back else e >= TWO32
  {
    var back := c.history - i;
    if q >= back {
      WrapSmall(q - back);
    } else {
      WrapIs(TWO64 + q - back, 0, TWO64 + q - back);
      assert HistorySlot(c, q, i) == TWO64 + q - back;
    }
  }

  /** One entry of History, and its true count when every access is kept. */
  lemma HistoryEntry(c: Config, log: seq<Access>, r: RangeId, isWrite: bool, q: nat, i: nat, slot: nat)
    requires c.Valid() && Recent(c, log) && Fits(c, log) && Newest(log) <= q < TWO64 && i < c.history
    requires slot == q - (c.history - i)
    ensures Rate(c, After(c, log), r, isWrite, q, i) ==
      Estimate(SampledCount(c, log, r, isWrite, slot), c.sampleRate)
    ensures c.sampleRate >= 1.0 && (forall k :: 0 <= k < |log| ==> log[k].keep) ==>
      Rate(c, After(c, log), r, isWrite, q, i) == TrueCount(c, log, r, isWrite, slot) as real
  {
    HistorySlotIs(c, q, i);
    RingHoldsWindow(c, log, r, isWrite, q, slot);
    if forall k :: 0 <= k < |log| ==> log[k].keep {
      UnsampledIsTrue(c, log, r, isWrite, slot);
    }
  }

  /**
    What History reports, for every log and query the ring is exact for: the estimate of the sampled
    count of each preceding slot, and 0 for the slots before time 0 (whose numbers wrap around).
    At rate 1 that is the true count.
   */
  lemma HistoryExact(c: Config, log: seq<Access>, r: RangeId, isWrite: bool, q: nat, i: nat)
    requires c.Valid() && Recent(c, log) && Fits(c, log) && Newest(log) <= q < TWO64 && i < c.history
    ensures var slot := q - (c.history - i);
      Rates(c, After(c, log), r, isWrite, q)[i] ==
        if slot < 0 then 0.0 else Estimate(SampledCount(c, log, r, isWrite, slot), c.sampleRate)
    ensures c.sampleRate >= 1.0 && (forall k :: 0 <= k < |log| ==> log[k].keep) && q >= c.history - i ==>
      Rates(c, After(c, log), r, isWrite, q)[i] ==
        TrueCount(c, log, r, isWrite, q - (c.history - i)) as real
  {
    if q < c.history - i {
      HistorySlotIs(c, q, i);
      BeforeTimeZero(c, log, r, isWrite, HistorySlot(c, q, i));
    } else {
      HistoryEntry(c, log, r, isWrite, q, i, q - (c.history - i));
    }
  }

  // ----- a table as large as the key space ----------------------------------------------------

  /** The accesses of the kind to range r itself in one slot. */
  function OwnTrueCount(log: seq<Access>, r: RangeId, isWrite: bool, slot: nat): nat {
    if log == [] then 0
    else
      var a := log[|log| - 1];
      OwnTrueCount(log[..|log| - 1], r, isWrite, slot) +
      if a.range == r && a.isWrite == isWrite && a.slot == slot then 1 else 0
  }

  /** Those of them that sampling sees. */
  function OwnSampledCount(log: seq<Access>, r: RangeId, isWrite: bool, slot: nat): nat {
    if log == [] then 0
    else
      var a, before := log[|log| - 1], log[..|log| - 1];
      OwnSampledCount(before, r, isWrite, slot) +
      if a.range == r && a.isWrite == isWrite && a.slot == slot &&
         (a.keep || (slot > 0 && OwnTrueCount(before, r, isWrite, slot) == 0)) then 1 else 0
  }

  predicate RangesBelow(log: seq<Access>, n: nat) {
    forall i :: 0 <= i < |log| ==> log[i].range < n
  }

  lemma {:induction false} CountsAreOwn(c: Config, log: seq<Access>, r: RangeId, isWrite: bool, slot: nat)
    requires r < c.slots && RangesBelow(log, c.slots)
    ensures TrueCount(c, log, r, isWrite, slot) == OwnTrueCount(log, r, isWrite, slot)
    ensures SampledCount(c, log, r, isWrite, slot) == OwnSampledCount(log, r, isWrite, slot)
  {
    if log != [] {
      var a := log[|log| - 1];
      SmallModulo(a.range, c.slots);
      SmallModulo(r, c.slots);
      CountsAreOwn(c, log[..|log| - 1], r, isWrite, slot);
    }
  }

  lemma SmallModulo(x: nat, n: nat)
    requires x < n
    ensures x % n == x
  {
  }

  /** When every range is below the table size, History counts the accesses of the range itself and no other's. */
  lemma HistoryIsOwn(c: Config, log: seq<Access>, r: RangeId, isWrite: bool, q: nat, i: nat)
    requires c.Valid() && Recent(c, log) && Fits(c, log) && Newest(log) <= q < TWO64 && i < c.history
    requires r < c.slots && RangesBelow(log, c.slots)
    ensures var slot := q - (c.history - i);
      Rates(c, After(c, log), r, isWrite, q)[i] ==
        if slot < 0 then 0.0 else Estimate(OwnSampledCount(log, r, isWrite, slot), c.sampleRate)
    ensures c.sampleRate >= 1.0 && (forall k :: 0 <= k < |log| ==> log[k].keep) && q >= c.history - i ==>
      Rates(c, After(c, log), r, isWrite, q)[i] == OwnTrueCount(log, r, isWrite, q - (c.history - i)) as real
  {
    HistoryExact(c, log, r, isWrite, q, i);
    if q >= c.history - i { CountsAreOwn(c, log, r, isWrite, q - (c.history - i)); }
  }

  /** LeaperImpl::CollectorSlots: as many ranges as the key space has, at least 64, at most max_ranges. */
  function CollectorSlots(maxRanges: nat, maxRangeId: RangeId): nat {
    Min(maxRanges, Max(maxRangeId + 1, 64))
  }

  /**
    The table covers the key space and no more. No two ranges of the key space share cells if and only
    if the table is larger than the greatest range id, which it is whenever max_ranges is; and it is
    less than twice the key space, or 64, and less than twice max_ranges.
   */
  lemma SeparateIff(c: Config, maxRanges: nat, maxRangeId: RangeId)
    requires var n := CollectorSlots(maxRanges, maxRangeId); IsRoundedUp(c.slots, if n > 0 then n else 1024)
    ensures c.slots >= 1
    ensures (forall r, q :: 0 <= r < q <= maxRangeId ==> c.Index(r) != c.Index(q)) <==> maxRangeId < c.slots
    ensures maxRangeId < maxRanges ==> maxRangeId < c.slots
    ensures maxRanges > 0 ==> c.slots < 2 * Max(maxRangeId + 1, 64) && c.slots < 2 * maxRanges
  {
    if maxRangeId < c.slots {
      forall r, q | 0 <= r < q <= maxRangeId ensures c.Index(r) != c.Index(q) {
        SmallModulo(r, c.slots);
        SmallModulo(q, c.slots);
      }
    } else {
      assert c.Index(0) == c.Index(c.slots);
    }
  }

  // ----- the class --------------------------------------------------------------------------

  /** The least power of two that is not below n, and therefore below 2n unless it is 1. */
  ghost predicate IsRoundedUp(p: nat, n: nat) {
    && p >= n && (p == 1 || p < 2 * n)
    && exists k: nat :: p == PowerOfTwo(k) && forall j: nat :: j < k ==> PowerOfTwo(j) < n
  }

  lemma RoundedUpIsPower(p: nat, n: nat)
    requires IsRoundedUp(p, n) && n > 0
    ensures p >= 1 && exists k: nat :: p == PowerOfTwo(k)
  {
  }

  method RoundUpPow2(n: nat) returns (p: nat)
    ensures IsRoundedUp(p, n)
  {
    p := 1;
    ghost var k: nat := 0;
    while p < n
      invariant p >= 1 && p == PowerOfTwo(k) && (p == 1 || p < 2 * n)
      invariant forall j: nat :: j < k ==> PowerOfTwo(j) < n
      decreases n - p
    {
      p := p * 2;
      k := k + 1;
    }
  }

  class Collector {
    const cfg: Config
    const readCells: array<Word>
    const writeCells: array<Word>
    var readsSeen: nat
    var writesSeen: nat
    var sampled: nat

    ghost predicate Valid()
      reads this, readCells, writeCells
    {
      && cfg.Valid()
      && readCells != writeCells
      && readCells.Length == writeCells.Length == cfg.slots * cfg.Ring()
      && Words(State())
    }

    ghost function State(): Tables
      reads readCells, writeCells
    {
      Tables(readCells[..], writeCells[..])
    }

    constructor (maxRanges: nat, historySlots: int, slotSeconds: real, sampleRate: real)
      requires slotSeconds * 1000000.0 >= 1.0 && sampleRate > 0.0 && historySlots < TWO32
      ensures Valid() && fresh(readCells) && fresh(writeCells)
      ensures cfg.history == if historySlots > 0 then historySlots else 1
      ensures IsRoundedUp(cfg.slots, if maxRanges > 0 then maxRanges else 1024)
      ensures cfg.slotUs == (slotSeconds * 1000000.0).Floor && cfg.sampleRate == sampleRate
      ensures State() == After(cfg, [])
      ensures readsSeen == writesSeen == sampled == 0
    {
      var history := if historySlots > 0 then historySlots else 1;
      var slots := RoundUpPow2(if maxRanges > 0 then maxRanges else 1024);
      RoundedUpIsPower(slots, if maxRanges > 0 then maxRanges else 1024);
      var c := Config(history, slots, (slotSeconds * 1000000.0).Floor, sampleRate);
      var cells := Times(c.slots, c.Ring());
      cfg := c;
      readCells := new Word[cells](i => 0);
      writeCells := new Word[cells](i => 0);
      readsSeen, writesSeen, sampled := 0, 0, 0;
      new;
      assert readCells[..] == Zeros(cells);
      assert writeCells[..] == Zeros(cells);
    }

    /** Record without a concurrent writer, so that its compare-and-swap succeeds. */
    method Record(range: RangeId, isWrite: bool, nowUs: nat, keep: bool)
      requires Valid()
      modifies this, readCells, writeCells
      ensures Valid()
      ensures State() == Recorded(cfg, old(State()),
                                  Access(range, isWrite, cfg.SlotOf(nowUs), keep || cfg.sampleRate >= 1.0))
      ensures readsSeen + writesSeen == old(readsSeen + writesSeen) + 1
      ensures writesSeen == old(writesSeen) + if isWrite then 1 else 0
      ensures var word := old(State()).Of(isWrite)[cfg.Cell(cfg.Index(range), cfg.SlotOf(nowUs))];
        sampled == old(sampled) +
          if keep || cfg.sampleRate >= 1.0 || EpochOf(word) != cfg.SlotOf(nowUs) then 1 else 0
    {
      if isWrite { writesSeen := writesSeen + 1; } else { readsSeen := readsSeen + 1; }
      var epoch := cfg.SlotOf(nowUs);
      var cell := cfg.Cell(cfg.Index(range), epoch);
      var c := if isWrite then writeCells else readCells;
      var v := c[cell];
      TouchIsWord(v, epoch, keep || cfg.sampleRate >= 1.0);
      if EpochOf(v) != epoch {
        c[cell] := Pack(epoch, 1);
        sampled := sampled + 1;
        return;
      }
      if cfg.sampleRate < 1.0 && !keep {
        assert State() == old(State());
        return;
      }
      sampled := sampled + 1;
      c[cell] := Wrap64(v + 1);
    }

    /** History: the rates of the preceding slots, oldest first. */
    method History(range: RangeId, nowUs: nat) returns (r: seq<real>, w: seq<real>)
      requires Valid()
      ensures r == Rates(cfg, State(), range, false, cfg.SlotOf(nowUs))
      ensures w == Rates(cfg, State(), range, true, cfg.SlotOf(nowUs))
    {
      var epoch := cfg.SlotOf(nowUs);
      var idx := cfg.Index(range);
      r, w := [], [];
      for i := 0 to cfg.history
        invariant |r| == |w| == i
        invariant forall k :: 0 <= k < i ==> r[k] == Rate(cfg, State(), range, false, epoch, k)
        invariant forall k :: 0 <= k < i ==> w[k] == Rate(cfg, State(), range, true, epoch, k)
      {
        var e := Wrap64(epoch - (cfg.history - i));
        var cell := cfg.Cell(idx, e);
        r := r + [Estimate(CountOf(readCells[cell], e), cfg.sampleRate)];
        w := w + [Estimate(CountOf(writeCells[cell], e), cfg.sampleRate)];
      }
    }
  }
}
