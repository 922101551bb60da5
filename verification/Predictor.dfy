/**
  Multi-step prediction (section 6.1 of the paper), with answers memoised per (second, slot, step
  range). The memo must give what the unmemoised predictor would, while accesses keep arriving.
 */
module Prediction {
  import opened Types
  import opened Collecting

  type Features = seq<real>

  /** What stays fixed after Load: layout, models (uninterpreted scores), precursors, threshold. */
  datatype Setup = Setup(
    cfg: Config,
    gamma: nat,
    models: seq<Features -> real>,
    precursors: map<RangeId, seq<RangeId>>,
    threshold: real)

  function SecondOf(nowUs: nat): (sec: nat)
    ensures sec * 1000000 <= nowUs < sec * 1000000 + 1000000
  {
    nowUs / 1000000
  }

  /** Predictor::BuildFeatures; the time enters only as a second and a slot. */
  function BuildFeatures(u: Setup, t: Tables, r: RangeId, sec: nat, slot: nat): Features
    requires u.cfg.Valid() && Sized(u.cfg, t)
  {
    Rates(u.cfg, t, r, false, slot) + Rates(u.cfg, t, r, true, slot) +
    [(sec / 3600 % 24) as real, (sec / 60 % 60) as real, (sec % 60) as real] +
    PrecursorRates(u, t, r, slot)
  }

  /** The precursors' read rates in the previous slot, 0 where there is none. */
  function PrecursorRates(u: Setup, t: Tables, r: RangeId, slot: nat): seq<real>
    requires u.cfg.Valid() && Sized(u.cfg, t)
  {
    seq(u.gamma, g requires 0 <= g < u.gamma =>
      if r in u.precursors && g < |u.precursors[r]|
      then Rate(u.cfg, t, u.precursors[r][g], false, slot, u.cfg.history - 1)
      else 0.0)
  }

  // ----- what each feature is ---------------------------------------------------------------

  /** The logs and times for which the collector's history is exact. */
  ghost predicate Exact(c: Config, log: seq<Access>, nowUs: nat) {
    c.Valid() && Recent(c, log) && Fits(c, log) && Newest(log) <= c.SlotOf(nowUs) < TWO64
  }

  ghost function FeaturesAfter(u: Setup, log: seq<Access>, r: RangeId, nowUs: nat): (f: Features)
    requires u.cfg.Valid()
    ensures |f| == 2 * u.cfg.history + 3 + u.gamma
  {
    BuildFeatures(u, After(u.cfg, log), r, SecondOf(nowUs), u.cfg.SlotOf(nowUs))
  }

  /** First the reads, then the writes of the history slots, oldest first, as sampling counted them. */
  lemma RateFeatures(u: Setup, log: seq<Access>, r: RangeId, nowUs: nat, i: nat)
    requires Exact(u.cfg, log, nowUs) && i < u.cfg.history
    ensures var f, h := FeaturesAfter(u, log, r, nowUs), u.cfg.history;
      var slot := u.cfg.SlotOf(nowUs) - (h - i);
      && f[i] == (if slot < 0 then 0.0 else Estimate(SampledCount(u.cfg, log, r, false, slot), u.cfg.sampleRate))
      && f[h + i] == (if slot < 0 then 0.0 else Estimate(SampledCount(u.cfg, log, r, true, slot), u.cfg.sampleRate))
  {
    HistoryExact(u.cfg, log, r, false, u.cfg.SlotOf(nowUs), i);
    HistoryExact(u.cfg, log, r, true, u.cfg.SlotOf(nowUs), i);
  }

  /** Then the time of day: hour, minute and second. */
  lemma TimeFeatures(u: Setup, log: seq<Access>, r: RangeId, nowUs: nat) returns (hour: nat, minute: nat, second: nat)
    requires u.cfg.Valid()
    ensures hour < 24 && minute < 60 && second < 60
    ensures 3600 * hour + 60 * minute + second == SecondOf(nowUs) % 86400
    ensures FeaturesAfter(u, log, r, nowUs)[2 * u.cfg.history..2 * u.cfg.history + 3] ==
      [hour as real, minute as real, second as real]
  {
    var sec := SecondOf(nowUs);
    hour, minute, second := sec / 3600 % 24, sec / 60 % 60, sec % 60;
    TimeOfDay(sec);
  }

  lemma TimeOfDay(sec: nat)
    ensures 3600 * (sec / 3600 % 24) + 60 * (sec / 60 % 60) + sec % 60 == sec % 86400
  {
    var minutes := sec / 60;
    var hours := minutes / 60;
    HoursOf(sec, minutes, hours);
    DayOf(sec, hours / 24, 3600 * (hours % 24) + 60 * (minutes % 60) + sec % 60);
  }

  lemma HoursOf(sec: nat, minutes: nat, hours: nat)
    requires 60 * minutes <= sec < 60 * minutes + 60 && 60 * hours <= minutes < 60 * hours + 60
    ensures sec / 3600 == hours
  {
  }

  lemma DayOf(sec: nat, days: nat, rest: nat)
    requires sec == 86400 * days + rest && rest < 86400
    ensures sec % 86400 == rest
  {
  }

  /** Last, per precursor, its reads in the slot before the current one; 0 where there is no precursor. */
  lemma PrecursorFeatures(u: Setup, log: seq<Access>, r: RangeId, nowUs: nat, g: nat)
    requires Exact(u.cfg, log, nowUs) && g < u.gamma
    ensures FeaturesAfter(u, log, r, nowUs)[2 * u.cfg.history + 3 + g] ==
      if r in u.precursors && g < |u.precursors[r]| && u.cfg.SlotOf(nowUs) >= 1
      then Estimate(SampledCount(u.cfg, log, u.precursors[r][g], false, u.cfg.SlotOf(nowUs) - 1), u.cfg.sampleRate)
      else 0.0
  {
    if r in u.precursors && g < |u.precursors[r]| {
      HistoryExact(u.cfg, log, u.precursors[r][g], false, u.cfg.SlotOf(nowUs), u.cfg.history - 1);
    }
  }

  // ----- one prediction ---------------------------------------------------------------------

  /** The step range PredictHot works with: a single model stands in for every step. */
  datatype Steps = Nothing | Steps(lo: nat, hi: nat) {
    predicate Has(k: int) {
      Steps? && lo <= k <= hi
    }
  }

  function ClampSteps(models: nat, lo: int, hi: int): (s: Steps)
    ensures s.Steps? ==> 1 <= s.lo <= s.hi && (models > 1 ==> s.hi <= models) && models >= 1
    ensures models == 1 ==> s.Steps?
    ensures models > 1 ==> (s.Steps? <==> Max(1, lo) <= Min(models, hi))
    ensures models != 1 ==> forall k :: s.Has(k) <==> 1 <= k <= models && lo <= k <= hi
    ensures models == 1 ==> forall k :: s.Has(k) <==> k == Max(1, lo)
  {
    if models == 0 then Nothing
    else
      var lo := Max(1, lo);
      var hi := if models == 1 then lo else Min(models, hi);
      if hi < lo then Nothing else Steps(lo, hi)
  }

  predicate StepsFit(u: Setup, s: Steps) {
    s.Steps? && 1 <= s.lo <= s.hi && |u.models| >= 1 && (|u.models| > 1 ==> s.hi <= |u.models|)
  }

  function ModelOf(u: Setup, step: nat): Features -> real
    requires |u.models| >= 1 && step >= 1 && (|u.models| > 1 ==> step <= |u.models|)
  {
    if |u.models| == 1 then u.models[0] else u.models[step - 1]
  }

  /** The step has a model, which scores the features at the threshold or above. A single model has every step. */
  predicate StepScores(u: Setup, step: int, f: Features) {
    && 1 <= step && |u.models| >= 1
    && if |u.models| == 1 then u.models[0](f) >= u.threshold
       else step <= |u.models| && u.models[step - 1](f) >= u.threshold
  }

  /** The scoring loop: steps from `step` to `hi` until one is hot; how many models it ran. */
  function Score(u: Setup, f: Features, step: nat, hi: nat): (hotAndRuns: (bool, nat))
    requires |u.models| >= 1 && step >= 1 && (|u.models| > 1 ==> hi <= |u.models|)
    ensures hotAndRuns.0 <==> exists s :: step <= s <= hi && ModelOf(u, s)(f) >= u.threshold
    ensures step <= hi ==> hotAndRuns.1 >= 1
    ensures hotAndRuns.0 ==>
      var last := step + hotAndRuns.1 - 1;
      && last <= hi && ModelOf(u, last)(f) >= u.threshold
      && forall s :: step <= s < last ==> ModelOf(u, s)(f) < u.threshold
    ensures !hotAndRuns.0 ==> hotAndRuns.1 == if step <= hi then hi - step + 1 else 0
    decreases hi + 1 - step
  {
    if step > hi then (false, 0)
    else if ModelOf(u, step)(f) >= u.threshold then (true, 1)
    else
      var rest := Score(u, f, step + 1, hi);
      (rest.0, rest.1 + 1)
  }

  /** The range is predicted hot for some step. */
  predicate IsHot(u: Setup, t: Tables, r: RangeId, steps: Steps, sec: nat, slot: nat)
    requires u.cfg.Valid() && Sized(u.cfg, t) && StepsFit(u, steps)
  {
    exists s :: steps.lo <= s <= steps.hi && ModelOf(u, s)(BuildFeatures(u, t, r, sec, slot)) >= u.threshold
  }

  /** The verdict on one range and the number of models it took. */
  function Judged(u: Setup, t: Tables, r: RangeId, steps: Steps, sec: nat, slot: nat): (v: (bool, nat))
    requires u.cfg.Valid() && Sized(u.cfg, t) && StepsFit(u, steps)
    ensures v.0 <==> IsHot(u, t, r, steps, sec, slot)
    ensures v.1 >= 1
  {
    Score(u, BuildFeatures(u, t, r, sec, slot), steps.lo, steps.hi)
  }

  function HotAmong(u: Setup, t: Tables, candidates: seq<RangeId>, steps: Steps, sec: nat, slot: nat)
    : (out: seq<RangeId>)
    requires u.cfg.Valid() && Sized(u.cfg, t) && StepsFit(u, steps)
    ensures forall r :: r in out <==> r in candidates && IsHot(u, t, r, steps, sec, slot)
  {
    if candidates == [] then []
    else
      (if IsHot(u, t, candidates[0], steps, sec, slot) then [candidates[0]] else []) +
      HotAmong(u, t, candidates[1..], steps, sec, slot)
  }

  /** The models a scan without a memo runs. */
  function RunsOver(u: Setup, t: Tables, candidates: seq<RangeId>, steps: Steps, sec: nat, slot: nat): nat
    requires u.cfg.Valid() && Sized(u.cfg, t) && StepsFit(u, steps)
  {
    if candidates == [] then 0
    else Judged(u, t, candidates[0], steps, sec, slot).1 + RunsOver(u, t, candidates[1..], steps, sec, slot)
  }

  /** The models a call without a memo runs; none for an empty step range. */
  function PlainRuns(u: Setup, t: Tables, candidates: seq<RangeId>, lo: int, hi: int, nowUs: nat): nat
    requires u.cfg.Valid() && Sized(u.cfg, t)
  {
    var steps := ClampSteps(|u.models|, lo, hi);
    if steps.Nothing? then 0 else RunsOver(u, t, candidates, steps, SecondOf(nowUs), u.cfg.SlotOf(nowUs))
  }

  /** The reference: PredictHot with the memo switched off. `prior` is what `out` held before. */
  function Predicted(u: Setup, t: Tables, candidates: seq<RangeId>, lo: int, hi: int, nowUs: nat, prior: seq<RangeId>)
    : (out: seq<RangeId>)
    requires u.cfg.Valid() && Sized(u.cfg, t)
  {
    var steps := ClampSteps(|u.models|, lo, hi);
    if steps.Nothing? then prior
    else SortUnique(prior + HotAmong(u, t, candidates, steps, SecondOf(nowUs), u.cfg.SlotOf(nowUs)))
  }

  /** Some step from lo to hi scores the range's features hot. */
  predicate HotBetween(u: Setup, t: Tables, r: RangeId, lo: int, hi: int, nowUs: nat)
    requires u.cfg.Valid() && Sized(u.cfg, t)
  {
    var f := BuildFeatures(u, t, r, SecondOf(nowUs), u.cfg.SlotOf(nowUs));
    exists step :: lo <= step <= hi && StepScores(u, step, f)
  }

  /** What a prediction for the steps from lo to hi says; a single model serves an empty range too. */
  lemma PredictedMeaning(u: Setup, t: Tables, candidates: seq<RangeId>, lo: int, hi: int, nowUs: nat, r: RangeId)
    requires u.cfg.Valid() && Sized(u.cfg, t)
    ensures var hi' := if |u.models| == 1 then Max(1, Max(lo, hi)) else hi;
      r in Predicted(u, t, candidates, lo, hi, nowUs, []) <==>
        r in candidates && HotBetween(u, t, r, lo, hi', nowUs)
  {
    var f := BuildFeatures(u, t, r, SecondOf(nowUs), u.cfg.SlotOf(nowUs));
    var steps := ClampSteps(|u.models|, lo, hi);
    if steps.Steps? {
      var hot := HotAmong(u, t, candidates, steps, SecondOf(nowUs), u.cfg.SlotOf(nowUs));
      assert [] + hot == hot;
      if s :| steps.lo <= s <= steps.hi && ModelOf(u, s)(f) >= u.threshold {
        assert steps.Has(s) && StepScores(u, s, f);
      }
      if step :| lo <= step <= (if |u.models| == 1 then Max(1, Max(lo, hi)) else hi) && StepScores(u, step, f) {
        var s := if |u.models| == 1 then Max(1, lo) else step;
        assert steps.Has(s) && ModelOf(u, s)(f) >= u.threshold;
      }
    } else {
      assert forall step :: lo <= step <= hi && StepScores(u, step, f) ==> steps.Has(step);
    }
  }

  // ----- the memo ---------------------------------------------------------------------------

  /** Predictor::Memo; known[r] is -1 unknown, 0 cold, 1 hot. */
  datatype Memo = Memo(sec: nat, slot: nat, steps: Steps, known: seq<int>)

  function Remember(known: seq<int>, r: RangeId, hot: bool): (k: seq<int>)
    ensures |k| == (if r < |known| then |known| else r + 1)
    ensures k[r] == if hot then 1 else 0
    ensures forall i :: 0 <= i < |k| && i != r ==> k[i] == if i < |known| then known[i] else -1
  {
    (if r < |known| then known else known + seq(r + 1 - |known|, i => -1))[r := if hot then 1 else 0]
  }

  predicate IsKnown(known: seq<int>, r: RangeId) {
    r < |known| && known[r] >= 0
  }

  datatype Scan = Scan(known: seq<int>, out: seq<RangeId>, runs: nat, hits: nat)

  /** The candidate loop of PredictHot with a memo. */
  function ScanWith(u: Setup, t: Tables, known: seq<int>, candidates: seq<RangeId>, steps: Steps, sec: nat, slot: nat)
    : Scan
    requires u.cfg.Valid() && Sized(u.cfg, t) && StepsFit(u, steps)
    decreases |candidates|
  {
    if candidates == [] then Scan(known, [], 0, 0)
    else
      var r := candidates[0];
      if IsKnown(known, r) then
        var rest := ScanWith(u, t, known, candidates[1..], steps, sec, slot);
        rest.(out := (if known[r] != 0 then [r] else []) + rest.out, hits := rest.hits + 1)
      else
        var (hot, runs) := Judged(u, t, r, steps, sec, slot);
        var rest := ScanWith(u, t, Remember(known, r, hot), candidates[1..], steps, sec, slot);
        rest.(out := (if hot then [r] else []) + rest.out, runs := rest.runs + runs)
  }

  /** Memos from any other second or slot are dead. */
  function Purged(memos: seq<Memo>, sec: nat, slot: nat): (alive: seq<Memo>)
    ensures forall m :: m in alive <==> m in memos && m.sec == sec && m.slot == slot
  {
    if memos == [] then []
    else (if memos[0].sec == sec && memos[0].slot == slot then [memos[0]] else []) + Purged(memos[1..], sec, slot)
  }

  /** The position of the memo for a step range; the length if there is none. */
  function Find(memos: seq<Memo>, steps: Steps): (i: nat)
    ensures i <= |memos| && (i < |memos| ==> memos[i].steps == steps)
    ensures i == |memos| ==> forall k :: 0 <= k < |memos| ==> memos[k].steps != steps
  {
    if memos == [] then 0
    else
      var i := Find(memos[1..], steps);
      if i < |memos| - 1 then i + 1 else if memos[0].steps == steps then 0 else |memos|
  }

  /** The memos after purging, with one for the step range, and where that one is. */
  function Opened(memos: seq<Memo>, steps: Steps, sec: nat, slot: nat): (o: (seq<Memo>, nat))
    ensures o.1 < |o.0| && o.0[o.1].steps == steps
    ensures forall i :: 0 <= i < |o.0| ==> o.0[i].sec == sec && o.0[i].slot == slot
    ensures forall i :: 0 <= i < |o.0| ==> o.0[i] in memos || o.0[i].known == []
  {
    var alive := Purged(memos, sec, slot);
    assert forall i :: 0 <= i < |alive| ==> alive[i] in alive;
    var i := Find(alive, steps);
    if i < |alive| then (alive, i) else (alive + [Memo(sec, slot, steps, [])], i)
  }

  datatype Outcome = Outcome(memos: seq<Memo>, out: seq<RangeId>, runs: nat, hits: nat)

  /** PredictHot as written, with the memo. */
  function PredictedWithMemo(u: Setup, t: Tables, memos: seq<Memo>, candidates: seq<RangeId>, lo: int, hi: int,
                             nowUs: nat, prior: seq<RangeId>): Outcome
    requires u.cfg.Valid() && Sized(u.cfg, t)
  {
    var steps := ClampSteps(|u.models|, lo, hi);
    if steps.Nothing? then Outcome(memos, prior, 0, 0)
    else
      var sec, slot := SecondOf(nowUs), u.cfg.SlotOf(nowUs);
      var (open, i) := Opened(memos, steps, sec, slot);
      var s := ScanWith(u, t, open[i].known, candidates, steps, sec, slot);
      Outcome(open[i := open[i].(known := s.known)], SortUnique(prior + s.out), s.runs, s.hits)
  }

  /** Every candidate is answered by the memo or judged, and judging all of them would run at least as many models. */
  lemma {:induction false} ScanCounts(u: Setup, t: Tables, known: seq<int>, candidates: seq<RangeId>, steps: Steps,
                                      sec: nat, slot: nat)
    requires u.cfg.Valid() && Sized(u.cfg, t) && StepsFit(u, steps)
    ensures var s := ScanWith(u, t, known, candidates, steps, sec, slot);
      && s.hits <= |candidates|
      && s.runs <= RunsOver(u, t, candidates, steps, sec, slot)
      && (s.hits == |candidates| <==> s.runs == 0)
    decreases |candidates|
  {
    if candidates != [] {
      var r := candidates[0];
      var learned := if IsKnown(known, r) then known else Remember(known, r, Judged(u, t, r, steps, sec, slot).0);
      ScanCounts(u, t, learned, candidates[1..], steps, sec, slot);
    }
  }

  /** The memo never costs a model run, and no models are run for an empty step range. */
  lemma MemoSaves(u: Setup, t: Tables, memos: seq<Memo>, candidates: seq<RangeId>, lo: int, hi: int, nowUs: nat,
                  prior: seq<RangeId>)
    requires u.cfg.Valid() && Sized(u.cfg, t)
    ensures var o := PredictedWithMemo(u, t, memos, candidates, lo, hi, nowUs, prior);
      && o.runs <= PlainRuns(u, t, candidates, lo, hi, nowUs) && o.hits <= |candidates|
      && (ClampSteps(|u.models|, lo, hi).Nothing? ==> o.runs == o.hits == 0)
  {
    var steps := ClampSteps(|u.models|, lo, hi);
    if steps.Steps? {
      var sec, slot := SecondOf(nowUs), u.cfg.SlotOf(nowUs);
      var (open, i) := Opened(memos, steps, sec, slot);
      ScanCounts(u, t, open[i].known, candidates, steps, sec, slot);
    }
  }

  // ----- the memo agrees with the predictor -------------------------------------------------

  /** Every remembered answer is the one a fresh prediction would give. */
  ghost predicate Agrees(u: Setup, t: Tables, known: seq<int>, steps: Steps, sec: nat, slot: nat)
    requires u.cfg.Valid() && Sized(u.cfg, t) && StepsFit(u, steps)
  {
    forall r: nat :: IsKnown(known, r) ==> (known[r] != 0 <==> IsHot(u, t, r, steps, sec, slot))
  }

  lemma {:induction false} ScanAgrees(u: Setup, t: Tables, known: seq<int>, candidates: seq<RangeId>, steps: Steps,
                                      sec: nat, slot: nat)
    requires u.cfg.Valid() && Sized(u.cfg, t) && StepsFit(u, steps)
    requires Agrees(u, t, known, steps, sec, slot)
    ensures var s := ScanWith(u, t, known, candidates, steps, sec, slot);
      && s.out == HotAmong(u, t, candidates, steps, sec, slot)
      && Agrees(u, t, s.known, steps, sec, slot)
    decreases |candidates|
  {
    if candidates != [] {
      var r := candidates[0];
      if IsKnown(known, r) {
        ScanAgrees(u, t, known, candidates[1..], steps, sec, slot);
      } else {
        var hot := Judged(u, t, r, steps, sec, slot).0;
        ScanAgrees(u, t, Remember(known, r, hot), candidates[1..], steps, sec, slot);
      }
    }
  }

  /** All live memos agree; no memo is ahead of the clock. */
  ghost predicate MemosAgree(u: Setup, t: Tables, memos: seq<Memo>, nowUs: nat)
    requires u.cfg.Valid() && Sized(u.cfg, t)
  {
    forall i :: 0 <= i < |memos| ==>
      var m := memos[i];
      && m.sec <= SecondOf(nowUs) && m.slot <= u.cfg.SlotOf(nowUs) && StepsFit(u, m.steps)
      && (m.sec == SecondOf(nowUs) && m.slot == u.cfg.SlotOf(nowUs) ==> Agrees(u, t, m.known, m.steps, m.sec, m.slot))
  }

  /** Given agreeing memos, memoised and plain prediction give the same list and memos stay right. */
  lemma MemoIsPlain(u: Setup, t: Tables, memos: seq<Memo>, candidates: seq<RangeId>, lo: int, hi: int,
                    nowUs: nat, prior: seq<RangeId>)
    requires u.cfg.Valid() && Sized(u.cfg, t) && MemosAgree(u, t, memos, nowUs)
    ensures var o := PredictedWithMemo(u, t, memos, candidates, lo, hi, nowUs, prior);
      && o.out == Predicted(u, t, candidates, lo, hi, nowUs, prior)
      && MemosAgree(u, t, o.memos, nowUs)
  {
    var steps := ClampSteps(|u.models|, lo, hi);
    if steps.Steps? {
      var sec, slot := SecondOf(nowUs), u.cfg.SlotOf(nowUs);
      var (open, i) := Opened(memos, steps, sec, slot);
      forall k | 0 <= k < |open|
        ensures StepsFit(u, open[k].steps) && Agrees(u, t, open[k].known, open[k].steps, sec, slot)
      {
        if open[k].known != [] {
          assert open[k] in memos;
          var j :| 0 <= j < |memos| && memos[j] == open[k];
        }
        OpenedFit(u, memos, steps, sec, slot, nowUs, k);
      }
      ScanAgrees(u, t, open[i].known, candidates, steps, sec, slot);
    }
  }

  lemma OpenedFit(u: Setup, memos: seq<Memo>, steps: Steps, sec: nat, slot: nat, nowUs: nat, k: nat)
    requires StepsFit(u, steps) && forall i :: 0 <= i < |memos| ==> StepsFit(u, memos[i].steps)
    requires k < |Opened(memos, steps, sec, slot).0|
    ensures StepsFit(u, Opened(memos, steps, sec, slot).0[k].steps)
  {
    var alive := Purged(memos, sec, slot);
    if k < |alive| { assert alive[k] in alive; }
  }

  /** No slot that History looks back on from slot q has the ring cell of this slot. */
  predicate Harmless(c: Config, q: nat, slot: nat) {
    forall e: nat :: e < q <= e + c.history ==> e % c.Ring() != slot % c.Ring()
  }

  /** With ring = history + 1 the current slot's cell is none of the history cells. */
  lemma CurrentSlotIsHarmless(c: Config, q: nat)
    ensures Harmless(c, q, q)
  {
    forall e: nat | e < q <= e + c.history ensures e % c.Ring() != q % c.Ring() {
      if e % c.Ring() == q % c.Ring() { RingApart(e, q, c.Ring()); }
    }
  }

  /** Once a whole history has passed, only slots that share the current slot's cell are harmless. */
  lemma HarmlessIsSameCell(c: Config, q: nat, slot: nat)
    requires q >= c.history
    ensures Harmless(c, q, slot) <==> slot % c.Ring() == q % c.Ring()
  {
    var ring := c.Ring();
    if slot % ring == q % ring {
      CurrentSlotIsHarmless(c, q);
    } else {
      var back := (q % ring - slot % ring) % ring;
      var e: nat := q - back;
      BackToResidue(q, slot, back, ring);
    }
  }

  lemma BackToResidue(q: nat, slot: nat, back: nat, ring: nat)
    requires ring > 0 && back == (q % ring - slot % ring) % ring && back <= q
    ensures (q - back) % ring == slot % ring
  {
    var s, d := slot % ring, q / ring;
    assert q == ring * d + q % ring;
    if q % ring >= s {
      SmallRemainder(q % ring - s, ring, 0);
      SmallRemainder(s, ring, d);
    } else {
      assert q % ring - s == ring * (-1) + (q % ring - s + ring);
      SmallRemainder(q % ring - s + ring, ring, -1);
      assert q - back == ring * (d - 1) + s by { assert ring * (d - 1) == ring * d - ring; }
      SmallRemainder(s, ring, d - 1);
    }
  }

  lemma SmallRemainder(r: nat, ring: nat, k: int)
    requires r < ring
    ensures (ring * k + r) % ring == r
  {
    var x := ring * k + r;
    var q, p := x / ring, x % ring;
    assert x == ring * q + p;
    assert ring * (q - k) == ring * q - ring * k;
    SmallMultiple(ring, q - k);
  }

  lemma NoSuchEpoch(w: Word, e: nat)
    requires w < TWO64 && e >= TWO32
    ensures CountOf(w, e) == 0
  {
  }

  /** An access in a harmless slot changes no rate seen from slot q. */
  lemma HarmlessKeepsRates(c: Config, t: Tables, a: Access, q: nat, r: RangeId, isWrite: bool, i: nat)
    requires c.Valid() && Sized(c, t) && Words(t) && q < TWO64 && i < c.history && Harmless(c, q, a.slot)
    ensures Rate(c, Recorded(c, t, a), r, isWrite, q, i) == Rate(c, t, r, isWrite, q, i)
  {
    var e := HistorySlot(c, q, i);
    var cell := c.Cell(c.Index(r), e);
    HistorySlotIs(c, q, i);
    if q >= c.history - i {
      CellInjective(c, c.Index(r), e, c.Index(a.range), a.slot);
    } else {
      RecordedWords(c, t, a);
      NoSuchEpoch(t.Of(isWrite)[cell], e);
      NoSuchEpoch(Recorded(c, t, a).Of(isWrite)[cell], e);
    }
  }

  lemma RecordKeepsFeatures(u: Setup, t: Tables, a: Access, r: RangeId, sec: nat, q: nat)
    requires u.cfg.Valid() && Sized(u.cfg, t) && Words(t) && q < TWO64 && Harmless(u.cfg, q, a.slot)
    ensures BuildFeatures(u, Recorded(u.cfg, t, a), r, sec, q) == BuildFeatures(u, t, r, sec, q)
  {
    var t' := Recorded(u.cfg, t, a);
    forall x: RangeId, k: bool, i: nat | i < u.cfg.history
      ensures Rate(u.cfg, t', x, k, q, i) == Rate(u.cfg, t, x, k, q, i)
    {
      HarmlessKeepsRates(u.cfg, t, a, q, x, k, i);
    }
    assert Rates(u.cfg, t', r, false, q) == Rates(u.cfg, t, r, false, q);
    assert Rates(u.cfg, t', r, true, q) == Rates(u.cfg, t, r, true, q);
    assert PrecursorRates(u, t', r, q) == PrecursorRates(u, t, r, q);
  }

  lemma RecordedWords(c: Config, t: Tables, a: Access)
    requires c.Valid() && Sized(c, t) && Words(t)
    ensures Words(Recorded(c, t, a))
  {
    TouchIsWord(t.Of(a.isWrite)[c.Cell(c.Index(a.range), a.slot)], a.slot, a.keep);
  }

  lemma ClockForward(u: Setup, before: nat, after: nat)
    requires u.cfg.Valid() && before <= after
    ensures SecondOf(before) <= SecondOf(after) && u.cfg.SlotOf(before) <= u.cfg.SlotOf(after)
    ensures u.cfg.SlotOf(after) <= after
  {
    DivIsDivision(before, u.cfg.slotUs);
    DivIsDivision(after, u.cfg.slotUs);
    DivMonotone(before, after, u.cfg.slotUs);
    DivAtMost(after, u.cfg.slotUs);
  }

  lemma {:induction false} DivAtMost(x: nat, d: nat)
    requires d > 0
    ensures Div(x, d) <= x
  {
    if x >= d { DivAtMost(x - d, d); }
  }

  /** Time passing keeps the memos right: those of an earlier second or slot can never be asked again. */
  lemma AgreeLater(u: Setup, t: Tables, memos: seq<Memo>, before: nat, after: nat)
    requires u.cfg.Valid() && Sized(u.cfg, t) && MemosAgree(u, t, memos, before) && before <= after
    ensures MemosAgree(u, t, memos, after)
  {
    ClockForward(u, before, after);
  }

  /** An access in a slot that is harmless now keeps the memos right. */
  lemma AgreeAfterRecord(u: Setup, t: Tables, memos: seq<Memo>, a: Access, nowUs: nat)
    requires u.cfg.Valid() && Sized(u.cfg, t) && Words(t) && MemosAgree(u, t, memos, nowUs)
    requires nowUs < TWO64 && Harmless(u.cfg, u.cfg.SlotOf(nowUs), a.slot)
    ensures MemosAgree(u, Recorded(u.cfg, t, a), memos, nowUs)
  {
    ClockForward(u, nowUs, nowUs);
    var t', q := Recorded(u.cfg, t, a), u.cfg.SlotOf(nowUs);
    forall i | 0 <= i < |memos| && memos[i].sec == SecondOf(nowUs) && memos[i].slot == q
      ensures Agrees(u, t', memos[i].known, memos[i].steps, memos[i].sec, memos[i].slot)
    {
      forall r: nat { RecordKeepsFeatures(u, t, a, r, memos[i].sec, q); }
    }
  }

  // ----- accesses while a prediction is under way ---------------------------------------------

  function RecordedAll(c: Config, t: Tables, accesses: seq<Access>): (t': Tables)
    requires c.slots >= 1 && Sized(c, t)
    ensures Sized(c, t')
  {
    if accesses == [] then t else Recorded(c, RecordedAll(c, t, accesses[..|accesses| - 1]), accesses[|accesses| - 1])
  }

  predicate AllHarmless(c: Config, q: nat, accesses: seq<Access>) {
    forall i :: 0 <= i < |accesses| ==> Harmless(c, q, accesses[i].slot)
  }

  /** The candidate loop as it runs beside readers and writers: arrivals[i] is recorded before candidate i. */
  function ScanWhile(u: Setup, t: Tables, known: seq<int>, candidates: seq<RangeId>, arrivals: seq<seq<Access>>,
                     steps: Steps, sec: nat, slot: nat): Scan
    requires u.cfg.Valid() && Sized(u.cfg, t) && StepsFit(u, steps) && |arrivals| == |candidates|
    decreases |candidates|
  {
    if candidates == [] then Scan(known, [], 0, 0)
    else
      var r, now := candidates[0], RecordedAll(u.cfg, t, arrivals[0]);
      if IsKnown(known, r) then
        var rest := ScanWhile(u, now, known, candidates[1..], arrivals[1..], steps, sec, slot);
        rest.(out := (if known[r] != 0 then [r] else []) + rest.out, hits := rest.hits + 1)
      else
        var (hot, runs) := Judged(u, now, r, steps, sec, slot);
        var rest := ScanWhile(u, now, Remember(known, r, hot), candidates[1..], arrivals[1..], steps, sec, slot);
        rest.(out := (if hot then [r] else []) + rest.out, runs := rest.runs + runs)
  }

  /** Tables that give every range the same features. */
  ghost predicate SameFeatures(u: Setup, t: Tables, t': Tables, sec: nat, q: nat)
    requires u.cfg.Valid() && Sized(u.cfg, t) && Sized(u.cfg, t')
  {
    forall r: RangeId :: BuildFeatures(u, t', r, sec, q) == BuildFeatures(u, t, r, sec, q)
  }

  lemma {:induction false} ArrivalsKeepFeatures(u: Setup, t: Tables, accesses: seq<Access>, sec: nat, q: nat)
    requires u.cfg.Valid() && Sized(u.cfg, t) && Words(t) && q < TWO64 && AllHarmless(u.cfg, q, accesses)
    ensures var t' := RecordedAll(u.cfg, t, accesses); Words(t') && SameFeatures(u, t, t', sec, q)
  {
    if accesses != [] {
      var before, a := accesses[..|accesses| - 1], accesses[|accesses| - 1];
      ArrivalsKeepFeatures(u, t, before, sec, q);
      var t1 := RecordedAll(u.cfg, t, before);
      RecordedWords(u.cfg, t1, a);
      forall r: RangeId ensures BuildFeatures(u, Recorded(u.cfg, t1, a), r, sec, q) == BuildFeatures(u, t, r, sec, q) {
        RecordKeepsFeatures(u, t1, a, r, sec, q);
      }
    }
  }

  /**
    OnRead and OnWrite take no lock, so accesses land between the candidates of one PredictHot. As long
    as they are harmless, the loop finds, learns and counts exactly what it would on the tables it
    started from.
   */
  lemma {:induction false} ScanWhileIsScan(u: Setup, t: Tables, now: Tables, known: seq<int>,
                                           candidates: seq<RangeId>, arrivals: seq<seq<Access>>, steps: Steps,
                                           sec: nat, q: nat)
    requires u.cfg.Valid() && Sized(u.cfg, t) && Sized(u.cfg, now) && StepsFit(u, steps)
    requires Words(now) && q < TWO64 && SameFeatures(u, t, now, sec, q)
    requires |arrivals| == |candidates| && forall i :: 0 <= i < |arrivals| ==> AllHarmless(u.cfg, q, arrivals[i])
    ensures ScanWhile(u, now, known, candidates, arrivals, steps, sec, q) ==
      ScanWith(u, t, known, candidates, steps, sec, q)
    decreases |candidates|
  {
    if candidates != [] {
      var r := candidates[0];
      var next := RecordedAll(u.cfg, now, arrivals[0]);
      ArrivalsKeepFeatures(u, now, arrivals[0], sec, q);
      assert SameFeatures(u, t, next, sec, q);
      assert Judged(u, next, r, steps, sec, q) == Judged(u, t, r, steps, sec, q);
      var learned := if IsKnown(known, r) then known else Remember(known, r, Judged(u, t, r, steps, sec, q).0);
      ScanWhileIsScan(u, t, next, learned, candidates[1..], arrivals[1..], steps, sec, q);
    }
  }

  // ----- whole runs -------------------------------------------------------------------------

  /** Client accesses and predictions, each at a time. */
  datatype Event =
    | Accessed(range: RangeId, isWrite: bool, keep: bool, nowUs: nat)
    | Asked(candidates: seq<RangeId>, lo: int, hi: int, nowUs: nat, prior: seq<RangeId>)

  /** The latest time so far. */
  function Clock(run: seq<Event>): nat {
    if run == [] then 0 else Max(Clock(run[..|run| - 1]), run[|run| - 1].nowUs)
  }

  /** Predictions do not go back in time; an access may arrive late if its slot is harmless then. */
  predicate ClockOk(c: Config, run: seq<Event>)
    requires c.slotUs >= 1
  {
    run != [] ==>
      var before, e := run[..|run| - 1], run[|run| - 1];
      && ClockOk(c, before) && e.nowUs < TWO64
      && (Clock(before) <= e.nowUs || (e.Accessed? && Harmless(c, c.SlotOf(Clock(before)), c.SlotOf(e.nowUs))))
  }

  datatype System = System(tables: Tables, memos: seq<Memo>, answers: seq<seq<RangeId>>)

  function AccessOf(u: Setup, e: Event): Access
    requires u.cfg.Valid() && e.Accessed?
  {
    Access(e.range, e.isWrite, u.cfg.SlotOf(e.nowUs), e.keep)
  }

  /** A run with the memo on or off. */
  function Run(u: Setup, memoize: bool, run: seq<Event>): (s: System)
    requires u.cfg.Valid()
    ensures Sized(u.cfg, s.tables)
  {
    if run == [] then System(After(u.cfg, []), [], [])
    else
      var s, e := Run(u, memoize, run[..|run| - 1]), run[|run| - 1];
      match e
      case Accessed(_, _, _, _) => s.(tables := Recorded(u.cfg, s.tables, AccessOf(u, e)))
      case Asked(candidates, lo, hi, nowUs, prior) =>
        if memoize then
          var o := PredictedWithMemo(u, s.tables, s.memos, candidates, lo, hi, nowUs, prior);
          s.(memos := o.memos, answers := s.answers + [o.out])
        else
          s.(answers := s.answers + [Predicted(u, s.tables, candidates, lo, hi, nowUs, prior)])
  }

  lemma {:induction false} ClockFits(c: Config, run: seq<Event>)
    requires c.slotUs >= 1 && ClockOk(c, run)
    ensures Clock(run) < TWO64
  {
    if run != [] { ClockFits(c, run[..|run| - 1]); }
  }

  /**
    Memo refinement. In every run of accesses and predictions whose predictions do not go back in time
    and whose late accesses are harmless, the memoised predictor gives exactly the answers of the
    unmemoised one.
   */
  lemma {:induction false} MemoRefinesPlain(u: Setup, run: seq<Event>)
    requires u.cfg.Valid() && ClockOk(u.cfg, run)
    ensures Run(u, true, run).answers == Run(u, false, run).answers
    ensures Run(u, true, run).tables == Run(u, false, run).tables
    ensures Words(Run(u, true, run).tables)
    ensures MemosAgree(u, Run(u, true, run).tables, Run(u, true, run).memos, Clock(run))
  {
    if run != [] {
      var before, e := run[..|run| - 1], run[|run| - 1];
      MemoRefinesPlain(u, before);
      ClockFits(u.cfg, run);
      var s := Run(u, true, before);
      AgreeLater(u, s.tables, s.memos, Clock(before), Clock(run));
      match e
      case Accessed(_, _, _, _) =>
        CurrentSlotIsHarmless(u.cfg, u.cfg.SlotOf(e.nowUs));
        RecordedWords(u.cfg, s.tables, AccessOf(u, e));
        AgreeAfterRecord(u, s.tables, s.memos, AccessOf(u, e), Clock(run));
      case Asked(candidates, lo, hi, nowUs, prior) =>
        MemoIsPlain(u, s.tables, s.memos, candidates, lo, hi, nowUs, prior);
    }
  }

  // ----- what the memo saves ----------------------------------------------------------------

  lemma {:induction false} ScanLearns(u: Setup, t: Tables, known: seq<int>, candidates: seq<RangeId>, steps: Steps,
                                      sec: nat, slot: nat)
    requires u.cfg.Valid() && Sized(u.cfg, t) && StepsFit(u, steps)
    ensures var s := ScanWith(u, t, known, candidates, steps, sec, slot);
      && (forall r :: IsKnown(known, r) ==> IsKnown(s.known, r))
      && (forall r :: r in candidates ==> IsKnown(s.known, r))
      && s.hits <= |candidates|
    decreases |candidates|
  {
    if candidates != [] {
      var r := candidates[0];
      var next := if IsKnown(known, r) then known
                  else Remember(known, r, Judged(u, t, r, steps, sec, slot).0);
      ScanLearns(u, t, next, candidates[1..], steps, sec, slot);
      assert IsKnown(next, r);
    }
  }

  lemma {:induction false} ScanOfKnown(u: Setup, t: Tables, known: seq<int>, candidates: seq<RangeId>, steps: Steps,
                                       sec: nat, slot: nat)
    requires u.cfg.Valid() && Sized(u.cfg, t) && StepsFit(u, steps)
    requires forall r :: r in candidates ==> IsKnown(known, r)
    ensures var s := ScanWith(u, t, known, candidates, steps, sec, slot);
      s.runs == 0 && s.hits == |candidates| && s.known == known
    decreases |candidates|
  {
    if candidates != [] {
      assert candidates[0] in candidates;
      ScanOfKnown(u, t, known, candidates[1..], steps, sec, slot);
    }
  }

  /**
    A second job in the same second and slot that asks for the same step range about ranges already
    asked runs no model at all, whatever accesses were recorded in between.
   */
  lemma SecondAskIsFree(u: Setup, t: Tables, memos: seq<Memo>, first: seq<RangeId>, lo: int, hi: int, nowUs: nat,
                        t': Tables, again: seq<RangeId>, laterUs: nat, prior: seq<RangeId>)
    requires u.cfg.Valid() && Sized(u.cfg, t) && Sized(u.cfg, t') && ClampSteps(|u.models|, lo, hi).Steps?
    requires SecondOf(laterUs) == SecondOf(nowUs) && u.cfg.SlotOf(laterUs) == u.cfg.SlotOf(nowUs)
    requires forall r :: r in again ==> r in first
    ensures var o := PredictedWithMemo(u, t, memos, first, lo, hi, nowUs, prior);
      var p := PredictedWithMemo(u, t', o.memos, again, lo, hi, laterUs, prior);
      p.runs == 0 && p.hits == |again| && p.memos == o.memos
  {
    var steps := ClampSteps(|u.models|, lo, hi);
    var sec, slot := SecondOf(nowUs), u.cfg.SlotOf(nowUs);
    var (open, i) := Opened(memos, steps, sec, slot);
    ScanLearns(u, t, open[i].known, first, steps, sec, slot);
    var o := PredictedWithMemo(u, t, memos, first, lo, hi, nowUs, prior);
    PurgeKeepsLive(o.memos, sec, slot);
    FindIsLast(memos, steps, sec, slot, o.memos[i].known);
    ScanOfKnown(u, t', o.memos[i].known, again, steps, sec, slot);
  }

  lemma {:induction false} PurgeKeepsLive(memos: seq<Memo>, sec: nat, slot: nat)
    requires forall i :: 0 <= i < |memos| ==> memos[i].sec == sec && memos[i].slot == slot
    ensures Purged(memos, sec, slot) == memos
  {
    if memos != [] { PurgeKeepsLive(memos[1..], sec, slot); }
  }

  lemma {:induction false} FindUpdated(memos: seq<Memo>, steps: Steps, i: nat, m: Memo)
    requires i < |memos| && m.steps == memos[i].steps
    ensures Find(memos[i := m], steps) == Find(memos, steps)
  {
    if i > 0 {
      assert memos[i := m][1..] == memos[1..][i - 1 := m];
      FindUpdated(memos[1..], steps, i - 1, m);
    } else {
      assert memos[i := m][1..] == memos[1..];
    }
  }

  lemma {:induction false} FindAppended(memos: seq<Memo>, m: Memo)
    ensures Find(memos + [m], m.steps) == |memos|
  {
    if memos == [] {
      assert ([m])[1..] == [];
    } else {
      assert (memos + [m])[1..] == memos[1..] + [m];
      FindAppended(memos[1..], m);
    }
  }

  /** Looking for the step range again finds the memo that was just used. */
  lemma FindIsLast(memos: seq<Memo>, steps: Steps, sec: nat, slot: nat, known: seq<int>)
    ensures var (open, i) := Opened(memos, steps, sec, slot);
      Find(open[i := open[i].(known := known)], steps) == i
  {
    var alive := Purged(memos, sec, slot);
    var (open, i) := Opened(memos, steps, sec, slot);
    if Find(alive, steps) == |alive| { FindAppended(alive, Memo(sec, slot, steps, [])); }
    FindUpdated(open, steps, i, open[i].(known := known));
  }

  // ----- exactly where agreement ends -------------------------------------------------------

  lemma {:induction false} KnownScanRepeats(u: Setup, t: Tables, v: Setup, t': Tables, known: seq<int>,
                                            candidates: seq<RangeId>, steps: Steps, sec: nat, slot: nat)
    requires u.cfg.Valid() && v.cfg == u.cfg && |v.models| == |u.models|
    requires Sized(u.cfg, t) && Sized(u.cfg, t') && StepsFit(u, steps) && Agrees(u, t, known, steps, sec, slot)
    requires forall r :: r in candidates ==> IsKnown(known, r)
    ensures ScanWith(v, t', known, candidates, steps, sec, slot).out == HotAmong(u, t, candidates, steps, sec, slot)
    decreases |candidates|
  {
    if candidates != [] {
      assert candidates[0] in candidates;
      KnownScanRepeats(u, t, v, t', known, candidates[1..], steps, sec, slot);
    }
  }

  /** Asked the same again, the memo repeats the first answer, whatever has become of tables and threshold. */
  lemma RepeatsFirstAnswer(u: Setup, v: Setup, t: Tables, t': Tables, candidates: seq<RangeId>, lo: int, hi: int,
                           nowUs: nat)
    requires u.cfg.Valid() && v.cfg == u.cfg && |v.models| == |u.models| && Sized(u.cfg, t) && Sized(u.cfg, t')
    ensures var o := PredictedWithMemo(u, t, [], candidates, lo, hi, nowUs, []);
      PredictedWithMemo(v, t', o.memos, candidates, lo, hi, nowUs, []).out ==
        Predicted(u, t, candidates, lo, hi, nowUs, [])
  {
    var steps := ClampSteps(|u.models|, lo, hi);
    if steps.Steps? {
      var sec, slot := SecondOf(nowUs), u.cfg.SlotOf(nowUs);
      var (open, i) := Opened([], steps, sec, slot);
      ScanLearns(u, t, open[i].known, candidates, steps, sec, slot);
      ScanAgrees(u, t, open[i].known, candidates, steps, sec, slot);
      var o := PredictedWithMemo(u, t, [], candidates, lo, hi, nowUs, []);
      PurgeKeepsLive(o.memos, sec, slot);
      FindIsLast([], steps, sec, slot, o.memos[i].known);
      KnownScanRepeats(u, t, v, t', o.memos[i].known, candidates, steps, sec, slot);
    }
  }

  predicate Fitting(c: Config, u: Setup, t: Tables) {
    u.cfg == c && Sized(c, t) && Words(t)
  }

  /** With the memo filled by u on tables t, asking again with threshold y on t' gives the plain answer. */
  ghost predicate MemoIsRight(c: Config, u: Setup, y: real, t: Tables, t': Tables, candidates: seq<RangeId>,
                              lo: int, hi: int, nowUs: nat)
    requires c.Valid() && Fitting(c, u, t) && Sized(c, t')
  {
    var v := u.(threshold := y);
    PredictedWithMemo(v, t', PredictedWithMemo(u, t, [], candidates, lo, hi, nowUs, []).memos,
                      candidates, lo, hi, nowUs, []).out ==
      Predicted(v, t', candidates, lo, hi, nowUs, [])
  }

  /** One range, one model, one step: hot iff the model scores its features at the threshold or above. */
  lemma AskOnce(u: Setup, t: Tables, r: RangeId, nowUs: nat)
    requires u.cfg.Valid() && Sized(u.cfg, t) && |u.models| == 1
    ensures Predicted(u, t, [r], 1, 1, nowUs, []) ==
      if u.models[0](BuildFeatures(u, t, r, SecondOf(nowUs), u.cfg.SlotOf(nowUs))) >= u.threshold then [r] else []
  {
    var sec, slot := SecondOf(nowUs), u.cfg.SlotOf(nowUs);
    var f := BuildFeatures(u, t, r, sec, slot);
    assert ClampSteps(1, 1, 1) == Steps(1, 1);
    assert IsHot(u, t, r, Steps(1, 1), sec, slot) <==> ModelOf(u, 1)(f) >= u.threshold;
    var hot := HotAmong(u, t, [r], Steps(1, 1), sec, slot);
    HotAmongStep(u, t, [r], 0, Steps(1, 1), sec, slot);
    assert [r][0..] == [r] && [r][1..] == [];
    assert HotAmong(u, t, [], Steps(1, 1), sec, slot) == [];
    assert hot == if ModelOf(u, 1)(f) >= u.threshold then [r] else [];
    assert [] + hot == hot;
    assert SortUnique([r]) == [r];
  }

  /** Two asks whose scores fall on different sides of their thresholds show the memo wrong. */
  lemma AnswersDiffer(c: Config, u: Setup, y: real, t: Tables, t': Tables, r: RangeId, nowUs: nat)
    requires c.Valid() && Fitting(c, u, t) && Sized(c, t') && |u.models| == 1
    requires var sec, q := SecondOf(nowUs), c.SlotOf(nowUs);
      (u.models[0](BuildFeatures(u, t, r, sec, q)) >= u.threshold) !=
      (u.models[0](BuildFeatures(u, t', r, sec, q)) >= y)
    ensures !MemoIsRight(c, u, y, t, t', [r], 1, 1, nowUs)
  {
    var v := u.(threshold := y);
    FeaturesIgnoreThreshold(u, y, t', r, SecondOf(nowUs), c.SlotOf(nowUs));
    AskOnce(u, t, r, nowUs);
    AskOnce(v, t', r, nowUs);
    assert Predicted(u, t, [r], 1, 1, nowUs, []) != Predicted(v, t', [r], 1, 1, nowUs, []);
    RepeatsFirstAnswer(u, v, t, t', [r], 1, 1, nowUs);
  }

  lemma FeaturesIgnoreThreshold(u: Setup, y: real, t: Tables, r: RangeId, sec: nat, q: nat)
    requires u.cfg.Valid() && Sized(u.cfg, t)
    ensures BuildFeatures(u.(threshold := y), t, r, sec, q) == BuildFeatures(u, t, r, sec, q)
  {
  }

  lemma EmptyTablesAreWords(c: Config)
    requires c.slots >= 1
    ensures Words(After(c, []))
  {
  }

  /** A model that scores everything at the smaller of two thresholds tells them apart. */
  lemma ThresholdTold(c: Config, x: real, y: real, nowUs: nat) returns (u: Setup)
    requires c.Valid() && x != y
    ensures Fitting(c, u, After(c, [])) && u.threshold == x
    ensures !MemoIsRight(c, u, y, After(c, []), After(c, []), [0], 1, 1, nowUs)
  {
    var score := if x < y then x else y;
    u := Setup(c, 0, [(f: Features) => score], map[], x);
    EmptyTablesAreWords(c);
    AnswersDiffer(c, u, y, After(c, []), After(c, []), 0, nowUs);
  }

  /**
    The memo's key has no threshold. A memo filled at threshold x answers rightly at threshold y, for
    all models, tables and candidates, if and only if x == y.
   */
  lemma MemoThresholdIff(c: Config, x: real, y: real, nowUs: nat)
    requires c.Valid()
    ensures (forall u, t, candidates, lo, hi :: Fitting(c, u, t) && u.threshold == x ==>
               MemoIsRight(c, u, y, t, t, candidates, lo, hi, nowUs)) <==> x == y
  {
    if x == y {
      forall u, t, candidates, lo, hi | Fitting(c, u, t) && u.threshold == x
        ensures MemoIsRight(c, u, y, t, t, candidates, lo, hi, nowUs)
      {
        assert u.(threshold := y) == u;
        RepeatsFirstAnswer(u, u, t, t, candidates, lo, hi, nowUs);
      }
    } else {
      var u := ThresholdTold(c, x, y, nowUs);
    }
  }

  lemma {:induction false} LogWords(c: Config, log: seq<Access>)
    requires c.Valid()
    ensures Words(After(c, log))
  {
    if log == [] {
      EmptyTablesAreWords(c);
    } else {
      LogWords(c, log[..|log| - 1]);
      RecordedWords(c, After(c, log[..|log| - 1]), log[|log| - 1]);
    }
  }

  lemma AfterOneMore(c: Config, log: seq<Access>, a: Access)
    requires c.slots >= 1
    ensures After(c, log + [a]) == Recorded(c, After(c, log), a)
  {
    assert (log + [a])[..|log|] == log;
  }

  /**
    The one access that is harmless although a history slot has its cell: slot 0's cell is still the
    zeroed one or slot 0's own, so a sampled-out access leaves it as it is.
   */
  predicate SkippedAtStart(c: Config, q: nat, a: Access) {
    a.slot == 0 && !a.keep && q <= c.history
  }

  /** In the first history + 1 slots, only slot 0 touches the cell of slot 0. */
  lemma {:induction false} SlotZeroCell(c: Config, log: seq<Access>, r: RangeId, isWrite: bool)
    requires c.slots >= 1 && Newest(log) <= c.history && |log| < TWO32
    ensures CellAfter(c, log, r, isWrite, 0) <= |log|
  {
    if log != [] {
      var a := log[|log| - 1];
      SlotZeroCell(c, log[..|log| - 1], r, isWrite);
      if a.slot % c.Ring() == 0 && a.slot > 0 { RingApart(0, a.slot, c.Ring()); }
      WrapSmall(CellAfter(c, log[..|log| - 1], r, isWrite, 0) + 1);
    }
  }

  lemma SkippedChangesNothing(c: Config, log: seq<Access>, a: Access, q: nat)
    requires c.Valid() && Newest(log) <= q && |log| < TWO32 && SkippedAtStart(c, q, a)
    ensures After(c, log + [a]) == After(c, log)
  {
    var index := c.Index(a.range);
    SlotZeroCell(c, log, a.range, a.isWrite);
    AfterIsCellwise(c, log, a.range, a.isWrite, 0);
    AfterOneMore(c, log, a);
    var w := After(c, log).Of(a.isWrite)[c.Cell(index, 0)];
    assert EpochOf(w) == 0 && Touch(w, 0, false) == w;
  }

  /** A log of at most one access, in slot e, after which the access changes the count of slot e between 0 and 1. */
  lemma LogThatTells(c: Config, e: nat, a: Access) returns (log: seq<Access>)
    requires c.slots >= 1 && e < TWO32 && a.slot < TWO32 && e % c.Ring() == a.slot % c.Ring()
    requires a.slot == e == 0 ==> a.keep
    ensures log == [] || log == [Access(a.range, a.isWrite, e, true)]
    ensures var w := CellAfter(c, log, a.range, a.isWrite, e % c.Ring());
      var w' := Touch(w, a.slot, a.keep);
      (CountOf(w, e) == 0 && CountOf(w', e) == 1) || (CountOf(w, e) == 1 && CountOf(w', e) == 0)
  {
    PackFits(e, 1);
    PackFits(a.slot, 1);
    if a.slot == e {
      log := [];
      WrapSmall(1);
    } else {
      log := [Access(a.range, a.isWrite, e, true)];
      assert log[..0] == [];
      WrapSmall(1);
      assert CellAfter(c, log, a.range, a.isWrite, e % c.Ring()) == Touch(0, e, true) == Pack(e, 1);
    }
  }

  /** After such a log, any other access changes some rate seen from slot q, from 0 to 1 or back. */
  lemma HarmfulAccess(c: Config, a: Access, q: nat) returns (e: nat, log: seq<Access>, i: nat)
    requires c.Valid() && q < TWO32 && a.slot < TWO32 && !Harmless(c, q, a.slot) && !SkippedAtStart(c, q, a)
    ensures e < q && (log == [] || log == [Access(a.range, a.isWrite, e, true)]) && i < c.history
    ensures var t, t' := After(c, log), After(c, log + [a]);
      var before, after := Rate(c, t, a.range, a.isWrite, q, i), Rate(c, t', a.range, a.isWrite, q, i);
      (before == 0.0 && after == 1.0) || (before == 1.0 && after == 0.0)
  {
    e :| e < q <= e + c.history && e % c.Ring() == a.slot % c.Ring();
    i := c.history - (q - e);
    log := LogThatTells(c, e, a);
    HistorySlotIs(c, q, i);
    var index, t := c.Index(a.range), After(c, log);
    AfterIsCellwise(c, log, a.range, a.isWrite, e);
    AfterOneMore(c, log, a);
    CellInjective(c, index, e, index, a.slot);
    var w := t.Of(a.isWrite)[c.Cell(index, e)];
    RateOfWord(c, t, a.range, a.isWrite, q, i, e, w);
    RateOfWord(c, After(c, log + [a]), a.range, a.isWrite, q, i, e, Touch(w, a.slot, a.keep));
  }

  lemma RateOfWord(c: Config, t: Tables, r: RangeId, isWrite: bool, q: nat, i: nat, e: nat, w: Word)
    requires c.Valid() && Sized(c, t) && HistorySlot(c, q, i) == e && t.Of(isWrite)[c.Cell(c.Index(r), e)] == w
    ensures CountOf(w, e) == 0 ==> Rate(c, t, r, isWrite, q, i) == 0.0
    ensures CountOf(w, e) == 1 ==> Rate(c, t, r, isWrite, q, i) == 1.0
  {
  }

  /** The feature at position k, 0 past the end. */
  function FeatureAt(k: nat): Features -> real {
    (f: Features) => if k < |f| then f[k] else 0.0
  }

  lemma FeatureIsRate(u: Setup, t: Tables, r: RangeId, isWrite: bool, sec: nat, q: nat, i: nat)
    requires u.cfg.Valid() && Sized(u.cfg, t) && i < u.cfg.history
    ensures FeatureAt(if isWrite then u.cfg.history + i else i)(BuildFeatures(u, t, r, sec, q)) ==
      Rate(u.cfg, t, r, isWrite, q, i)
  {
  }

  lemma HarmTold(c: Config, a: Access, nowUs: nat) returns (u: Setup, e: nat, log: seq<Access>)
    requires c.Valid() && c.SlotOf(nowUs) < TWO32 && a.slot < TWO32
    requires !Harmless(c, c.SlotOf(nowUs), a.slot) && !SkippedAtStart(c, c.SlotOf(nowUs), a)
    ensures Fitting(c, u, After(c, log)) && u.threshold == 1.0
    ensures e < c.SlotOf(nowUs) && (log == [] || log == [Access(a.range, a.isWrite, e, true)])
    ensures !MemoIsRight(c, u, 1.0, After(c, log), After(c, log + [a]), [a.range], 1, 1, nowUs)
  {
    var q := c.SlotOf(nowUs);
    var i;
    e, log, i := HarmfulAccess(c, a, q);
    LogWords(c, log);
    var t, t' := After(c, log), After(c, log + [a]);
    u := Setup(c, 0, [FeatureAt(if a.isWrite then c.history + i else i)], map[], 1.0);
    RateTells(c, u, t, t', a.range, a.isWrite, nowUs, i);
  }

  /** A model that scores one rate tells two tables apart when that rate goes from 0 to 1 or back. */
  lemma RateTells(c: Config, u: Setup, t: Tables, t': Tables, r: RangeId, isWrite: bool, nowUs: nat, i: nat)
    requires c.Valid() && Fitting(c, u, t) && Sized(c, t') && u.cfg == c && i < c.history && u.threshold == 1.0
    requires u.models == [FeatureAt(if isWrite then c.history + i else i)]
    requires var q := c.SlotOf(nowUs);
      var before, after := Rate(c, t, r, isWrite, q, i), Rate(c, t', r, isWrite, q, i);
      (before == 0.0 && after == 1.0) || (before == 1.0 && after == 0.0)
    ensures !MemoIsRight(c, u, 1.0, t, t', [r], 1, 1, nowUs)
  {
    FeatureIsRate(u, t, r, isWrite, SecondOf(nowUs), c.SlotOf(nowUs), i);
    FeatureIsRate(u, t', r, isWrite, SecondOf(nowUs), c.SlotOf(nowUs), i);
    AnswersDiffer(c, u, 1.0, t, t', r, nowUs);
  }

  /** The memo filled after any log up to slot q is still right after one more access. */
  ghost predicate Survives(c: Config, q: nat, a: Access, nowUs: nat)
    requires c.Valid()
  {
    forall u, log, candidates, lo, hi ::
      Fitting(c, u, After(c, log)) && Newest(log) <= q && |log| < TWO32 ==>
        MemoIsRight(c, u, u.threshold, After(c, log), After(c, log + [a]), candidates, lo, hi, nowUs)
  }

  /**
    Which accesses a live memo survives. For every log up to the current slot q, all models and all
    candidates, the memo filled before the access still answers rightly after it, if and only if no
    history slot has the access's ring cell, or it is slot 0's and skipped in the first slots.
   */
  lemma MemoSurvivesIff(c: Config, a: Access, nowUs: nat)
    requires c.Valid() && c.SlotOf(nowUs) < TWO32 && a.slot < TWO32
    ensures var q := c.SlotOf(nowUs);
      Survives(c, q, a, nowUs) <==> Harmless(c, q, a.slot) || SkippedAtStart(c, q, a)
  {
    var q := c.SlotOf(nowUs);
    if Harmless(c, q, a.slot) || SkippedAtStart(c, q, a) {
      forall u, log, candidates, lo, hi | Fitting(c, u, After(c, log)) && Newest(log) <= q && |log| < TWO32
        ensures MemoIsRight(c, u, u.threshold, After(c, log), After(c, log + [a]), candidates, lo, hi, nowUs)
      {
        AfterOneMore(c, log, a);
        if Harmless(c, q, a.slot) {
          SamePrediction(u, After(c, log), a, candidates, lo, hi, nowUs);
        } else {
          SkippedChangesNothing(c, log, a, q);
          assert u.(threshold := u.threshold) == u;
          RepeatsFirstAnswer(u, u, After(c, log), After(c, log), candidates, lo, hi, nowUs);
        }
      }
    } else {
      var u, e, log := HarmTold(c, a, nowUs);
      assert |log| <= 1 && Newest(log) <= q;
    }
  }

  lemma RunOneMore(u: Setup, memoize: bool, run: seq<Event>, e: Event)
    requires u.cfg.Valid()
    ensures var s := Run(u, memoize, run);
      Run(u, memoize, run + [e]) ==
        match e {
          case Accessed(_, _, _, _) => s.(tables := Recorded(u.cfg, s.tables, AccessOf(u, e)))
          case Asked(candidates, lo, hi, nowUs, prior) =>
            if memoize then
              var o := PredictedWithMemo(u, s.tables, s.memos, candidates, lo, hi, nowUs, prior);
              s.(memos := o.memos, answers := s.answers + [o.out])
            else s.(answers := s.answers + [Predicted(u, s.tables, candidates, lo, hi, nowUs, prior)])
        }
  {
    assert (run + [e])[..|run|] == run;
  }

  /** The run of a log of at most one access. */
  lemma RunOfLog(u: Setup, memoize: bool, log: seq<Access>, atUs: nat) returns (run: seq<Event>)
    requires u.cfg.Valid() && |log| <= 1 && (log != [] ==> u.cfg.SlotOf(atUs) == log[0].slot)
    ensures log == [] ==> run == []
    ensures log != [] ==> run == [Accessed(log[0].range, log[0].isWrite, log[0].keep, atUs)]
    ensures Run(u, memoize, run) == System(After(u.cfg, log), [], [])
  {
    run := [];
    if log != [] {
      var a := log[0];
      assert log == [a];
      RunOfOne(u, memoize, a, atUs);
      run := [Accessed(a.range, a.isWrite, a.keep, atUs)];
    }
  }

  lemma RunOfOne(u: Setup, memoize: bool, a: Access, atUs: nat)
    requires u.cfg.Valid() && u.cfg.SlotOf(atUs) == a.slot
    ensures Run(u, memoize, [Accessed(a.range, a.isWrite, a.keep, atUs)]) == System(After(u.cfg, [a]), [], [])
  {
    var e := Accessed(a.range, a.isWrite, a.keep, atUs);
    RunOneMore(u, memoize, [], e);
    AfterOneMore(u.cfg, [], a);
    assert [] + [a] == [a] && [] + [e] == [e];
  }

  lemma StartOfSlot(c: Config, e: nat) returns (atUs: nat)
    requires c.slotUs >= 1
    ensures c.SlotOf(atUs) == e
  {
    atUs := Times(e, c.slotUs);
    DivIsDivision(atUs, c.slotUs);
    DivExact(e, c.slotUs, 0);
  }

  /** ask, the access, ask again; `start` is the run before. */
  function AskedAround(start: seq<Event>, a: Access, aUs: nat, nowUs: nat): seq<Event> {
    var ask := Asked([a.range], 1, 1, nowUs, []);
    start + [ask] + [Accessed(a.range, a.isWrite, a.keep, aUs)] + [ask]
  }

  lemma AnswersAround(u: Setup, memoize: bool, start: seq<Event>, t: Tables, a: Access, aUs: nat, nowUs: nat)
    requires u.cfg.Valid() && Sized(u.cfg, t) && a.slot == u.cfg.SlotOf(aUs)
    requires Run(u, memoize, start) == System(t, [], [])
    ensures var t', r := Recorded(u.cfg, t, a), [a.range];
      var answers := Run(u, memoize, AskedAround(start, a, aUs, nowUs)).answers;
      && |answers| == 2
      && answers[1] ==
           if memoize then
             var o := PredictedWithMemo(u, t, [], r, 1, 1, nowUs, []);
             PredictedWithMemo(u, t', o.memos, r, 1, 1, nowUs, []).out
           else Predicted(u, t', r, 1, 1, nowUs, [])
  {
    var ask, access := Asked([a.range], 1, 1, nowUs, []), Accessed(a.range, a.isWrite, a.keep, aUs);
    RunOneMore(u, memoize, start, ask);
    RunOneMore(u, memoize, start + [ask], access);
    RunOneMore(u, memoize, start + [ask] + [access], ask);
  }

  /**
    And a run that shows it: at most one access, an ask, the harmful access stamped aUs, the same ask.
    The second answers of the memoised and the plain predictor differ.
   */
  lemma BreakingRun(c: Config, a: Access, aUs: nat, nowUs: nat) returns (u: Setup, start: seq<Event>)
    requires c.Valid() && c.SlotOf(nowUs) < TWO32 && a.slot == c.SlotOf(aUs) < TWO32
    requires !Harmless(c, c.SlotOf(nowUs), a.slot) && !SkippedAtStart(c, c.SlotOf(nowUs), a)
    ensures u.cfg == c && |start| <= 1
    ensures var run := AskedAround(start, a, aUs, nowUs);
      Run(u, true, run).answers != Run(u, false, run).answers
  {
    var e, log;
    u, e, log := HarmTold(c, a, nowUs);
    var atUs := StartOfSlot(c, e);
    start := RunOfLog(u, true, log, atUs);
    var start' := RunOfLog(u, false, log, atUs);
    AnswersAround(u, true, start, After(c, log), a, aUs, nowUs);
    AnswersAround(u, false, start, After(c, log), a, aUs, nowUs);
    AfterOneMore(c, log, a);
    assert u.(threshold := 1.0) == u;
  }

  lemma SamePrediction(u: Setup, t: Tables, a: Access, candidates: seq<RangeId>, lo: int, hi: int, nowUs: nat)
    requires u.cfg.Valid() && Fitting(u.cfg, u, t) && u.cfg.SlotOf(nowUs) < TWO32
    requires Harmless(u.cfg, u.cfg.SlotOf(nowUs), a.slot)
    ensures MemoIsRight(u.cfg, u, u.threshold, t, Recorded(u.cfg, t, a), candidates, lo, hi, nowUs)
  {
    var t', q, sec := Recorded(u.cfg, t, a), u.cfg.SlotOf(nowUs), SecondOf(nowUs);
    assert u.(threshold := u.threshold) == u;
    RepeatsFirstAnswer(u, u, t, t', candidates, lo, hi, nowUs);
    var steps := ClampSteps(|u.models|, lo, hi);
    if steps.Steps? { HotAmongKept(u, t, a, candidates, steps, sec, q); }
  }

  lemma {:induction false} HotAmongKept(u: Setup, t: Tables, a: Access, candidates: seq<RangeId>, steps: Steps,
                                        sec: nat, q: nat)
    requires u.cfg.Valid() && Fitting(u.cfg, u, t) && StepsFit(u, steps) && q < TWO64 && Harmless(u.cfg, q, a.slot)
    ensures HotAmong(u, Recorded(u.cfg, t, a), candidates, steps, sec, q) == HotAmong(u, t, candidates, steps, sec, q)
    decreases |candidates|
  {
    if candidates != [] {
      RecordKeepsFeatures(u, t, a, candidates[0], sec, q);
      HotAmongKept(u, t, a, candidates[1..], steps, sec, q);
    }
  }

  // ----- the class --------------------------------------------------------------------------

  lemma Regroup(a: seq<RangeId>, b: seq<RangeId>, c: seq<RangeId>)
    ensures a + (b + c) == (a + b) + c
  {
  }

  lemma RunsOverStep(u: Setup, t: Tables, candidates: seq<RangeId>, i: nat, steps: Steps, sec: nat, slot: nat)
    requires u.cfg.Valid() && Sized(u.cfg, t) && StepsFit(u, steps) && i < |candidates|
    ensures RunsOver(u, t, candidates[i..], steps, sec, slot) ==
      Judged(u, t, candidates[i], steps, sec, slot).1 + RunsOver(u, t, candidates[i + 1..], steps, sec, slot)
  {
    assert candidates[i..][1..] == candidates[i + 1..];
  }

  lemma HotAmongStep(u: Setup, t: Tables, candidates: seq<RangeId>, i: nat, steps: Steps, sec: nat, slot: nat)
    requires u.cfg.Valid() && Sized(u.cfg, t) && StepsFit(u, steps) && i < |candidates|
    ensures HotAmong(u, t, candidates[i..], steps, sec, slot) ==
      (if Judged(u, t, candidates[i], steps, sec, slot).0 then [candidates[i]] else []) +
      HotAmong(u, t, candidates[i + 1..], steps, sec, slot)
  {
    assert candidates[i..][1..] == candidates[i + 1..];
  }

  /** What one turn of the memo loop does to the answers so far. */
  function Turn(u: Setup, t: Tables, s: Scan, r: RangeId, steps: Steps, sec: nat, slot: nat): Scan
    requires u.cfg.Valid() && Sized(u.cfg, t) && StepsFit(u, steps)
  {
    if IsKnown(s.known, r) then s.(out := s.out + (if s.known[r] != 0 then [r] else []), hits := s.hits + 1)
    else
      var (hot, runs) := Judged(u, t, r, steps, sec, slot);
      Scan(Remember(s.known, r, hot), s.out + (if hot then [r] else []), s.runs + runs, s.hits)
  }

  /** What the loop has collected, followed by what the rest will. */
  function Finish(u: Setup, t: Tables, s: Scan, candidates: seq<RangeId>, steps: Steps, sec: nat, slot: nat): Scan
    requires u.cfg.Valid() && Sized(u.cfg, t) && StepsFit(u, steps)
  {
    var rest := ScanWith(u, t, s.known, candidates, steps, sec, slot);
    Scan(rest.known, s.out + rest.out, s.runs + rest.runs, s.hits + rest.hits)
  }

  lemma TurnFinishes(u: Setup, t: Tables, s: Scan, candidates: seq<RangeId>, i: nat, steps: Steps, sec: nat, slot: nat)
    requires u.cfg.Valid() && Sized(u.cfg, t) && StepsFit(u, steps) && i < |candidates|
    ensures Finish(u, t, Turn(u, t, s, candidates[i], steps, sec, slot), candidates[i + 1..], steps, sec, slot) ==
      Finish(u, t, s, candidates[i..], steps, sec, slot)
  {
    assert candidates[i..][1..] == candidates[i + 1..];
  }

  class Predictor {
    const u: Setup
    var memos: seq<Memo>
    var memoize: bool
    var clampedCalls: nat

    constructor (u: Setup, memoize: bool)
      ensures this.u == u && memos == [] && this.memoize == memoize && clampedCalls == 0
    {
      this.u := u;
      this.memoize := memoize;
      memos, clampedCalls := [], 0;
    }

    method Features(collector: Collector, r: RangeId, nowUs: nat) returns (f: Features)
      requires collector.Valid() && collector.cfg == u.cfg
      ensures f == BuildFeatures(u, collector.State(), r, SecondOf(nowUs), u.cfg.SlotOf(nowUs))
    {
      var reads', writes' := collector.History(r, nowUs);
      var sec := nowUs / 1000000;
      var pf := [];
      for g := 0 to u.gamma
        invariant |pf| == g
        invariant forall k :: 0 <= k < g ==>
          pf[k] == PrecursorRates(u, collector.State(), r, u.cfg.SlotOf(nowUs))[k]
      {
        if r in u.precursors && g < |u.precursors[r]| {
          var pr, pw := collector.History(u.precursors[r][g], nowUs);
          pf := pf + [pr[u.cfg.history - 1]];
        } else {
          pf := pf + [0.0];
        }
      }
      f := reads' + writes' + [(sec / 3600 % 24) as real, (sec / 60 % 60) as real, (sec % 60) as real] + pf;
    }

    method Judge(collector: Collector, r: RangeId, steps: Steps, nowUs: nat) returns (hot: bool, runs: nat)
      requires collector.Valid() && collector.cfg == u.cfg && StepsFit(u, steps)
      ensures (hot, runs) == Judged(u, collector.State(), r, steps, SecondOf(nowUs), u.cfg.SlotOf(nowUs))
    {
      var f := Features(collector, r, nowUs);
      var v := Score(u, f, steps.lo, steps.hi);
      return v.0, v.1;
    }

    /** The candidate loop without a memo. */
    method ScanPlain(collector: Collector, candidates: seq<RangeId>, steps: Steps, nowUs: nat)
      returns (hot: seq<RangeId>, runs: nat)
      requires collector.Valid() && collector.cfg == u.cfg && StepsFit(u, steps)
      ensures hot == HotAmong(u, collector.State(), candidates, steps, SecondOf(nowUs), u.cfg.SlotOf(nowUs))
      ensures runs == RunsOver(u, collector.State(), candidates, steps, SecondOf(nowUs), u.cfg.SlotOf(nowUs))
    {
      ghost var t, sec, slot := collector.State(), SecondOf(nowUs), u.cfg.SlotOf(nowUs);
      ghost var want := HotAmong(u, t, candidates, steps, sec, slot);
      ghost var cost := RunsOver(u, t, candidates, steps, sec, slot);
      hot, runs := [], 0;
      for i := 0 to |candidates|
        invariant want == hot + HotAmong(u, t, candidates[i..], steps, sec, slot)
        invariant cost == runs + RunsOver(u, t, candidates[i..], steps, sec, slot)
      {
        var isHot, n := Judge(collector, candidates[i], steps, nowUs);
        runs := runs + n;
        var more := if isHot then [candidates[i]] else [];
        HotAmongStep(u, t, candidates, i, steps, sec, slot);
        RunsOverStep(u, t, candidates, i, steps, sec, slot);
        Regroup(hot, more, HotAmong(u, t, candidates[i + 1..], steps, sec, slot));
        hot := hot + more;
      }
      assert candidates[|candidates|..] == [];
    }

    /** The candidate loop with a memo. */
    method ScanMemo(collector: Collector, known: seq<int>, candidates: seq<RangeId>, steps: Steps, nowUs: nat)
      returns (s: Scan)
      requires collector.Valid() && collector.cfg == u.cfg && StepsFit(u, steps)
      ensures s == ScanWith(u, collector.State(), known, candidates, steps, SecondOf(nowUs), u.cfg.SlotOf(nowUs))
    {
      ghost var t, sec, slot := collector.State(), SecondOf(nowUs), u.cfg.SlotOf(nowUs);
      s := Scan(known, [], 0, 0);
      for i := 0 to |candidates|
        invariant Finish(u, t, s, candidates[i..], steps, sec, slot) ==
          ScanWith(u, t, known, candidates, steps, sec, slot)
      {
        var r := candidates[i];
        TurnFinishes(u, t, s, candidates, i, steps, sec, slot);
        if IsKnown(s.known, r) {
          s := s.(out := s.out + (if s.known[r] != 0 then [r] else []), hits := s.hits + 1);
        } else {
          var hot, n := Judge(collector, r, steps, nowUs);
          s := Scan(Remember(s.known, r, hot), s.out + (if hot then [r] else []), s.runs + n, s.hits);
        }
      }
      assert candidates[|candidates|..] == [];
    }

    /** PredictHot. */
    method PredictHot(collector: Collector, candidates: seq<RangeId>, lo: int, hi: int, nowUs: nat, prior: seq<RangeId>)
      returns (out: seq<RangeId>, runs: nat, hits: nat)
      requires collector.Valid() && collector.cfg == u.cfg
      modifies this
      ensures memoize == old(memoize)
      ensures memoize ==>
        Outcome(memos, out, runs, hits) ==
        PredictedWithMemo(u, collector.State(), old(memos), candidates, lo, hi, nowUs, prior)
      ensures !memoize ==>
        && memos == old(memos) && hits == 0
        && out == Predicted(u, collector.State(), candidates, lo, hi, nowUs, prior)
        && runs == PlainRuns(u, collector.State(), candidates, lo, hi, nowUs)
      ensures clampedCalls == old(clampedCalls) +
        if |u.models| > 0 && ClampSteps(|u.models|, lo, hi).Nothing? then 1 else 0
    {
      out, runs, hits := prior, 0, 0;
      if |u.models| == 0 { return; }
      var steps := ClampSteps(|u.models|, lo, hi);
      if steps.Nothing? {
        clampedCalls := clampedCalls + 1;
        return;
      }
      var hot;
      if memoize {
        var (open, at) := Opened(memos, steps, SecondOf(nowUs), u.cfg.SlotOf(nowUs));
        var s := ScanMemo(collector, open[at].known, candidates, steps, nowUs);
        memos := open[at := open[at].(known := s.known)];
        hot, runs, hits := s.out, s.runs, s.hits;
      } else {
        hot, runs := ScanPlain(collector, candidates, steps, nowUs);
      }
      out := SortUnique(prior + hot);
    }
  }
}
