/**
  SSAD (section 7.4 of the paper): a second state machine beside the jobs that switches the
  prefetcher off after `window` unhealthy reports in a row and on again after as many healthy ones.
 */
module Ssad {

  datatype Options = Options(missThreshold: real, relative: real, alpha: real, window: int) {
    predicate Enabled() {
      missThreshold > 0.0 || relative > 0.0
    }

    /** A window below 1 acts as 1: every report is decisive. */
    function Window(): (w: nat)
      ensures w >= 1 && w >= window && (w == 1 || w == window)
    {
      if window < 1 then 1 else window
    }
  }

  /** ssad_ewma_ is negative until the first report seeds it. */
  datatype Health = Health(suspended: bool, lastBad: bool, run: nat, ewma: real, suspensions: nat)

  const INITIAL := Health(false, false, 0, -1.0, 0)

  function Seeded(h: Health, miss: real): real {
    if h.ewma < 0.0 then miss else h.ewma
  }

  /** Is this report unhealthy? */
  predicate Bad(o: Options, h: Health, miss: real) {
    if o.relative > 0.0 then miss > Seeded(h, miss) * (1.0 + o.relative) else miss > o.missThreshold
  }

  /** The moving average, which follows healthy reports only. */
  function Tracked(o: Options, h: Health, miss: real): real {
    if o.relative <= 0.0 then h.ewma
    else if Bad(o, h, miss) then Seeded(h, miss)
    else Seeded(h, miss) + o.alpha * (miss - Seeded(h, miss))
  }

  /** set_health. */
  function Report(o: Options, h: Health, miss: real): Health {
    if !o.Enabled() then h
    else
      var bad := Bad(o, h, miss);
      var run := if bad == h.lastBad then h.run + 1 else 1;
      var h' := h.(lastBad := bad, run := run, ewma := Tracked(o, h, miss));
      if run < o.window then h'
      else if bad && !h.suspended then h'.(suspended := true, suspensions := h.suspensions + 1)
      else if !bad && h.suspended then h'.(suspended := false)
      else h'
  }

  function After(o: Options, reports: seq<real>): Health {
    if reports == [] then INITIAL
    else Report(o, After(o, reports[..|reports| - 1]), reports[|reports| - 1])
  }

  /** The verdict on each report of a history. */
  function Verdicts(o: Options, reports: seq<real>): (v: seq<bool>)
    ensures |v| == |reports|
  {
    if reports == [] then []
    else
      var before := reports[..|reports| - 1];
      Verdicts(o, before) + [Bad(o, After(o, before), reports[|reports| - 1])]
  }

  // ----- suspended iff the last long run was bad ------------------------------------------------

  /** The `w` verdicts that end at position `e` are all `b`. */
  predicate RunEndsAt(v: seq<bool>, w: nat, e: nat, b: bool) {
    w <= e <= |v| && forall i :: e - w <= i < e ==> v[i] == b
  }

  /** Of all runs of at least `w` equal verdicts, the most recent one was bad. */
  ghost predicate LastLongRunIsBad(v: seq<bool>, w: nat) {
    exists e: nat :: RunEndsAt(v, w, e, true) && forall f :: e < f <= |v| ==> !RunEndsAt(v, w, f, false)
  }

  lemma RunEndsAtExtend(v: seq<bool>, x: bool, w: nat, e: nat, b: bool)
    requires e <= |v|
    ensures RunEndsAt(v + [x], w, e, b) <==> RunEndsAt(v, w, e, b)
  {
    assert forall i :: 0 <= i < e ==> (v + [x])[i] == v[i];
  }

  /** Only a run that has just become long changes which long run is the last. */
  lemma LastLongRunStep(v: seq<bool>, x: bool, w: nat)
    requires w >= 1
    ensures LastLongRunIsBad(v + [x], w) <==>
      if RunEndsAt(v + [x], w, |v| + 1, x) then x else LastLongRunIsBad(v, w)
  {
    var u := v + [x];
    var n := |v| + 1;
    forall e, b | 0 <= e <= |v| ensures RunEndsAt(u, w, e, b) <==> RunEndsAt(v, w, e, b) {
      RunEndsAtExtend(v, x, w, e, b);
    }
    assert u[n - 1] == x;
    assert !RunEndsAt(u, w, n, !x);
    if RunEndsAt(u, w, n, x) {
      if x {
        assert RunEndsAt(u, w, n, true);
      }
    } else {
      if LastLongRunIsBad(v, w) {
        var e: nat :| RunEndsAt(v, w, e, true) && forall f :: e < f <= |v| ==> !RunEndsAt(v, w, f, false);
        assert RunEndsAt(u, w, e, true);
        assert forall f :: e < f <= |u| ==> !RunEndsAt(u, w, f, false);
      }
      if LastLongRunIsBad(u, w) {
        var e: nat :| RunEndsAt(u, w, e, true) && forall f :: e < f <= |u| ==> !RunEndsAt(u, w, f, false);
        assert e <= |v| && RunEndsAt(v, w, e, true);
        forall f | e < f <= |v| ensures !RunEndsAt(v, w, f, false) {
          assert !RunEndsAt(u, w, f, false);
        }
      }
    }
  }

  /** ssad_run_ is the length of the run of equal verdicts that the history ends with. */
  predicate IsTrailingRun(v: seq<bool>, h: Health) {
    && h.run <= |v|
    && (forall i :: |v| - h.run <= i < |v| ==> v[i] == h.lastBad)
    && (h.run < |v| ==> v[|v| - h.run - 1] != h.lastBad)
    && (h.run == 0 ==> !h.lastBad)
  }

  /**
    After every sequence of reports the prefetcher is suspended iff the most recent run of at least
    `window` equal verdicts was a bad one.
   */
  lemma {:induction false} SuspendedIff(o: Options, reports: seq<real>)
    requires o.Enabled()
    ensures IsTrailingRun(Verdicts(o, reports), After(o, reports))
    ensures After(o, reports).suspended <==> LastLongRunIsBad(Verdicts(o, reports), o.Window())
  {
    var w := o.Window();
    if reports != [] {
      var before := reports[..|reports| - 1];
      SuspendedIff(o, before);
      var v, x := Verdicts(o, before), Bad(o, After(o, before), reports[|reports| - 1]);
      LastLongRunStep(v, x, w);
      var h, h' := After(o, before), After(o, reports);
      assert h'.run == if x == h.lastBad then h.run + 1 else 1;
      assert IsTrailingRun(v + [x], h');
      assert RunEndsAt(v + [x], w, |v| + 1, x) <==> h'.run >= w;
    }
  }

  /** The last w reports before position e were all above the threshold, or all not above it. */
  predicate AllAbove(reports: seq<real>, threshold: real, w: nat, e: nat) {
    w <= e <= |reports| && forall i :: e - w <= i < e ==> reports[i] > threshold
  }

  predicate NoneAbove(reports: seq<real>, threshold: real, w: nat, e: nat) {
    w <= e <= |reports| && forall i :: e - w <= i < e ==> reports[i] <= threshold
  }

  lemma {:induction false} AbsoluteVerdicts(o: Options, reports: seq<real>)
    requires o.relative <= 0.0
    ensures forall i :: 0 <= i < |reports| ==> (Verdicts(o, reports)[i] <==> reports[i] > o.missThreshold)
    ensures After(o, reports).ewma == INITIAL.ewma
  {
    if reports != [] { AbsoluteVerdicts(o, reports[..|reports| - 1]); }
  }

  /**
    Absolute mode, over the reports alone: suspended iff `window` reports in a row were above the
    threshold and no `window` reports in a row have been at or below it since.
   */
  lemma AbsoluteSuspendedIff(o: Options, reports: seq<real>)
    requires o.relative <= 0.0 < o.missThreshold
    ensures After(o, reports).suspended <==>
      exists e: nat :: AllAbove(reports, o.missThreshold, o.Window(), e) &&
        forall f: nat :: e < f ==> !NoneAbove(reports, o.missThreshold, o.Window(), f)
  {
    SuspendedIff(o, reports);
    AbsoluteVerdicts(o, reports);
    var v, w := Verdicts(o, reports), o.Window();
    assert forall e: nat :: AllAbove(reports, o.missThreshold, w, e) <==> RunEndsAt(v, w, e, true);
    assert forall f: nat :: NoneAbove(reports, o.missThreshold, w, f) <==> RunEndsAt(v, w, f, false);
  }

  /** Disabled, the state never moves. */
  lemma {:induction false} DisabledIsInert(o: Options, reports: seq<real>)
    requires o.missThreshold <= 0.0 && o.relative <= 0.0
    ensures After(o, reports) == INITIAL
  {
    if reports != [] { DisabledIsInert(o, reports[..|reports| - 1]); }
  }

  function SwitchedOff(o: Options, reports: seq<real>): nat {
    if reports == [] then 0
    else
      var before := reports[..|reports| - 1];
      SwitchedOff(o, before) + if !After(o, before).suspended && After(o, reports).suspended then 1 else 0
  }

  /** The suspension counter counts the off switches. */
  lemma {:induction false} SuspensionsCountSwitches(o: Options, reports: seq<real>)
    ensures After(o, reports).suspensions == SwitchedOff(o, reports)
  {
    if reports != [] { SuspensionsCountSwitches(o, reports[..|reports| - 1]); }
  }

  // ----- the baseline -----------------------------------------------------------------------

  /** seed multiplied by `x`, `n` times: seed * x^n. */
  function Scaled(seed: real, x: real, n: nat): real {
    if n == 0 then seed else x * Scaled(seed, x, n - 1)
  }

  /** Healthy reports after the one that seeded the baseline. */
  function HealthyAfterSeed(o: Options, reports: seq<real>): nat {
    if |reports| <= 1 then 0
    else HealthyAfterSeed(o, reports[..|reports| - 1]) +
         if Verdicts(o, reports)[|reports| - 1] then 0 else 1
  }

  lemma MulLe(a: real, x: real, y: real)
    requires a >= 0.0 && x <= y
    ensures a * x <= a * y
  {
  }

  lemma EwmaStep(e: real, miss: real, a: real, rel: real)
    requires 0.0 <= e && 0.0 <= miss <= e * (1.0 + rel) && 0.0 <= a
    ensures (1.0 - a) * e <= e + a * (miss - e) <= (1.0 + a * rel) * e
  {
    MulLe(a, 0.0, miss);
    MulLe(a, miss, e * (1.0 + rel));
    assert a * (miss - e) == a * miss - a * e;
    assert a * (e * (1.0 + rel)) == a * e + (a * rel) * e;
    assert (1.0 - a) * e == e - a * e;
    assert (1.0 + a * rel) * e == e + (a * rel) * e;
  }

  /** The first report is healthy by its own measure and becomes the baseline. */
  lemma FirstReportSeeds(o: Options, miss: real)
    requires o.relative > 0.0 && miss >= 0.0
    ensures !Bad(o, INITIAL, miss) && Tracked(o, INITIAL, miss) == miss
  {
    MulLe(miss, 0.0, o.relative);
    assert miss * (1.0 + o.relative) == miss + miss * o.relative;
  }

  /** What Tracked is once seeded. */
  lemma TrackedWhenSeeded(o: Options, h: Health, miss: real)
    requires o.relative > 0.0 && h.ewma >= 0.0
    ensures Bad(o, h, miss) ==> Tracked(o, h, miss) == h.ewma
    ensures !Bad(o, h, miss) ==>
      Tracked(o, h, miss) == h.ewma + o.alpha * (miss - h.ewma) && miss <= h.ewma * (1.0 + o.relative)
  {
  }

  /** A baseline that starts at `seed` and is multiplied n times by something in [down, up]. */
  predicate Within(seed: real, down: real, up: real, e: real, n: nat) {
    e >= 0.0 && Scaled(seed, down, n) <= e <= Scaled(seed, up, n)
  }

  lemma ScaleStep(seed: real, down: real, up: real, e: real, e': real, n: nat)
    requires 0.0 <= down && 0.0 <= up && Within(seed, down, up, e, n) && down * e <= e' <= up * e
    ensures Within(seed, down, up, e', n + 1)
  {
    MulLe(down, 0.0, e);
    MulLe(down, Scaled(seed, down, n), e);
    MulLe(up, e, Scaled(seed, up, n));
  }

  lemma ReportKeepsBounds(o: Options, h: Health, seed: real, down: real, up: real, miss: real, n: nat)
    requires o.relative > 0.0 && 0.0 <= o.alpha <= 1.0 && miss >= 0.0
    requires down == 1.0 - o.alpha && up == 1.0 + o.alpha * o.relative && Within(seed, down, up, h.ewma, n)
    ensures Within(seed, down, up, Tracked(o, h, miss), if Bad(o, h, miss) then n else n + 1)
  {
    TrackedWhenSeeded(o, h, miss);
    if !Bad(o, h, miss) {
      HealthyFactor(h.ewma, Tracked(o, h, miss), miss, o.alpha, o.relative, down, up);
      ScaleStep(seed, down, up, h.ewma, Tracked(o, h, miss), n);
    }
  }

  lemma HealthyFactor(e: real, e': real, miss: real, a: real, rel: real, down: real, up: real)
    requires rel > 0.0 && 0.0 <= a <= 1.0 && 0.0 <= e && 0.0 <= miss <= e * (1.0 + rel)
    requires e' == e + a * (miss - e) && down == 1.0 - a && up == 1.0 + a * rel
    ensures 0.0 <= down && 0.0 <= up && down * e <= e' <= up * e
  {
    MulLe(a, 0.0, rel);
    EwmaStep(e, miss, a, rel);
  }

  /**
    In relative mode, after n healthy reports beyond the seed the baseline lies between
    seed * (1 - alpha)^n and seed * (1 + alpha * relative)^n.
   */
  lemma {:induction false} BaselineBounds(o: Options, reports: seq<real>)
    requires o.relative > 0.0 && 0.0 <= o.alpha <= 1.0 && reports != []
    requires forall i :: 0 <= i < |reports| ==> reports[i] >= 0.0
    ensures Within(reports[0], 1.0 - o.alpha, 1.0 + o.alpha * o.relative,
                   After(o, reports).ewma, HealthyAfterSeed(o, reports))
  {
    var before, miss := reports[..|reports| - 1], reports[|reports| - 1];
    var h := After(o, before);
    assert After(o, reports).ewma == Tracked(o, h, miss);
    if |reports| == 1 {
      assert h == INITIAL;
      FirstReportSeeds(o, miss);
    } else {
      BaselineBounds(o, before);
      ReportKeepsBounds(o, h, reports[0], 1.0 - o.alpha, 1.0 + o.alpha * o.relative, miss, HealthyAfterSeed(o, before));
    }
  }

  /** The exponentially weighted average, which starts at the first value. */
  function Average(alpha: real, values: seq<real>): real {
    if values == [] then 0.0
    else if |values| == 1 then values[0]
    else (1.0 - alpha) * Average(alpha, values[..|values| - 1]) + alpha * values[|values| - 1]
  }

  /** The reports whose verdict was healthy, in order. */
  function HealthyOnes(reports: seq<real>, bad: seq<bool>): seq<real>
    requires |bad| == |reports|
  {
    if reports == [] then []
    else
      var n := |reports| - 1;
      HealthyOnes(reports[..n], bad[..n]) + if bad[n] then [] else [reports[n]]
  }

  /** A healthy report moves the average as it moves the baseline. */
  lemma AverageStep(alpha: real, values: seq<real>, x: real, mean: real)
    requires values != [] && Average(alpha, values) == mean
    ensures Average(alpha, values + [x]) == mean + alpha * (x - mean)
  {
    assert (values + [x])[..|values|] == values;
    assert (1.0 - alpha) * mean + alpha * x == mean + alpha * (x - mean);
  }

  lemma HealthyStep(o: Options, reports: seq<real>)
    requires reports != []
    ensures var n := |reports| - 1;
      var bad := Bad(o, After(o, reports[..n]), reports[n]);
      && Verdicts(o, reports) == Verdicts(o, reports[..n]) + [bad]
      && HealthyOnes(reports, Verdicts(o, reports)) ==
         HealthyOnes(reports[..n], Verdicts(o, reports[..n])) + if bad then [] else [reports[n]]
  {
    var n := |reports| - 1;
    assert Verdicts(o, reports)[..n] == Verdicts(o, reports[..n]);
  }

  lemma {:induction false} BaselineSeeded(o: Options, reports: seq<real>)
    requires o.relative > 0.0 && 0.0 <= o.alpha <= 1.0 && reports != []
    requires forall i :: 0 <= i < |reports| ==> reports[i] >= 0.0
    ensures After(o, reports).ewma >= 0.0
  {
    BaselineBounds(o, reports);
  }

  lemma TrackedIsAverage(o: Options, h: Health, miss: real, healthy: seq<real>)
    requires o.relative > 0.0 && h.ewma >= 0.0 && healthy != [] && h.ewma == Average(o.alpha, healthy)
    ensures Tracked(o, h, miss) == Average(o.alpha, healthy + if Bad(o, h, miss) then [] else [miss])
  {
    TrackedWhenSeeded(o, h, miss);
    AverageStep(o.alpha, healthy, miss, h.ewma);
    assert healthy + [] == healthy;
  }

  /** In relative mode the baseline is the average of the healthy reports, of which the first report is one. */
  lemma {:induction false} BaselineIsAverage(o: Options, reports: seq<real>)
    requires o.relative > 0.0 && 0.0 <= o.alpha <= 1.0 && reports != []
    requires forall i :: 0 <= i < |reports| ==> reports[i] >= 0.0
    ensures !Verdicts(o, reports)[0] && HealthyOnes(reports, Verdicts(o, reports)) != []
    ensures After(o, reports).ewma == Average(o.alpha, HealthyOnes(reports, Verdicts(o, reports)))
  {
    var n := |reports| - 1;
    var before, miss := reports[..n], reports[n];
    var h := After(o, before);
    HealthyStep(o, reports);
    assert After(o, reports).ewma == Tracked(o, h, miss);
    if n == 0 {
      assert h == INITIAL;
      FirstReportSeeds(o, miss);
      assert HealthyOnes(before, Verdicts(o, before)) + [miss] == [miss];
    } else {
      BaselineIsAverage(o, before);
      BaselineSeeded(o, before);
      TrackedIsAverage(o, h, miss, HealthyOnes(before, Verdicts(o, before)));
    }
  }

  /** The report exceeds 1 + relative times the average of these healthy ones. */
  predicate Exceeds(o: Options, miss: real, healthy: seq<real>) {
    miss > (1.0 + o.relative) * Average(o.alpha, healthy)
  }

  lemma BadWhenSeeded(o: Options, h: Health, miss: real, healthy: seq<real>, mean: real)
    requires o.relative > 0.0 && h.ewma == mean >= 0.0 && Average(o.alpha, healthy) == mean
    ensures Bad(o, h, miss) <==> Exceeds(o, miss, healthy)
  {
    assert Bad(o, h, miss) <==> miss > mean * (1.0 + o.relative);
    assert mean * (1.0 + o.relative) == (1.0 + o.relative) * mean;
  }

  lemma LastVerdict(o: Options, before: seq<real>, miss: real)
    requires o.relative > 0.0 && 0.0 <= o.alpha <= 1.0 && before != []
    requires forall i :: 0 <= i < |before| ==> before[i] >= 0.0
    ensures Bad(o, After(o, before), miss) <==> Exceeds(o, miss, HealthyOnes(before, Verdicts(o, before)))
  {
    BaselineIsAverage(o, before);
    BaselineSeeded(o, before);
    BadWhenSeeded(o, After(o, before), miss, HealthyOnes(before, Verdicts(o, before)), After(o, before).ewma);
  }

  /** A verdict depends on the reports before it only. */
  lemma {:induction false} VerdictAt(o: Options, reports: seq<real>, i: nat)
    requires i < |reports|
    ensures Verdicts(o, reports)[..i] == Verdicts(o, reports[..i])
    ensures Verdicts(o, reports)[i] == Bad(o, After(o, reports[..i]), reports[i])
  {
    var n := |reports| - 1;
    if i < n {
      VerdictAt(o, reports[..n], i);
      assert reports[..n][..i] == reports[..i];
    }
  }

  /**
    Relative mode, over the reports alone: the first report is healthy, and each later one is bad iff it
    exceeds 1 + relative times the average of the healthy reports before it.
   */
  lemma RelativeVerdicts(o: Options, reports: seq<real>, i: nat)
    requires o.relative > 0.0 && 0.0 <= o.alpha <= 1.0 && i < |reports|
    requires forall i :: 0 <= i < |reports| ==> reports[i] >= 0.0
    ensures Verdicts(o, reports)[i] <==>
      i > 0 && Exceeds(o, reports[i], HealthyOnes(reports[..i], Verdicts(o, reports)[..i]))
  {
    VerdictAt(o, reports, i);
    if i > 0 { LastVerdict(o, reports[..i], reports[i]); } else { BaselineIsAverage(o, reports); }
  }

  lemma {:induction false} ScaledZero(x: real, n: nat)
    ensures Scaled(0.0, x, n) == 0.0
  {
    if n > 0 { ScaledZero(x, n - 1); }
  }

  /** A zero seed stays zero for ever, so from then on every nonzero miss ratio is unhealthy. */
  lemma {:induction false} ZeroSeedIsPermanent(o: Options, reports: seq<real>, miss: real)
    requires o.relative > 0.0 && 0.0 <= o.alpha <= 1.0 && reports != [] && reports[0] == 0.0
    requires forall i :: 0 <= i < |reports| ==> reports[i] >= 0.0
    ensures After(o, reports).ewma == 0.0
    ensures Bad(o, After(o, reports), miss) <==> miss > 0.0
  {
    BaselineBounds(o, reports);
    ScaledZero(1.0 - o.alpha, HealthyAfterSeed(o, reports));
    ScaledZero(1.0 + o.alpha * o.relative, HealthyAfterSeed(o, reports));
  }

  lemma {:induction false} ScaledPositive(seed: real, x: real, n: nat)
    requires seed > 0.0 && x > 0.0
    ensures Scaled(seed, x, n) > 0.0
  {
    if n > 0 { ScaledPositive(seed, x, n - 1); }
  }

  /** While alpha is below 1, nothing but a zero seed brings the baseline to zero. */
  lemma {:induction false} ZeroBaselineIff(o: Options, reports: seq<real>)
    requires o.relative > 0.0 && 0.0 <= o.alpha < 1.0 && reports != []
    requires forall i :: 0 <= i < |reports| ==> reports[i] >= 0.0
    ensures After(o, reports).ewma == 0.0 <==> reports[0] == 0.0
  {
    if reports[0] == 0.0 {
      ZeroSeedIsPermanent(o, reports, 0.0);
    } else {
      BaselineBounds(o, reports);
      ScaledPositive(reports[0], 1.0 - o.alpha, HealthyAfterSeed(o, reports));
    }
  }
}
