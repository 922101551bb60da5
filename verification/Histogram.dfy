/**
  The latency histogram: exact below 64 us, 32 buckets per octave above, and percentiles of what was
  recorded between two cumulative snapshots.
 */
module Histogram {

  const LINEAR_MAX: nat := 64
  const NUM_BUCKETS: nat := 1152  // LINEAR_MAX + 34 octaves * 32

  /** v << n */
  function ShiftLeft(v: nat, n: nat): nat {
    if n == 0 then v else 2 * ShiftLeft(v, n - 1)
  }

  /** v >> n */
  function ShiftRight(v: nat, n: nat): nat {
    if n == 0 then v else ShiftRight(v / 2, n - 1)
  }

  lemma {:induction false} ShiftLeftInner(v: nat, n: nat)
    ensures ShiftLeft(v, n + 1) == ShiftLeft(2 * v, n)
  {
    if n > 0 { ShiftLeftInner(v, n - 1); }
  }

  /** 63 - __builtin_clzll(us): the position of the highest set bit. */
  function Log2(us: nat): (e: nat)
    requires us >= 1
    ensures ShiftLeft(1, e) <= us < ShiftLeft(1, e + 1)
  {
    if us == 1 then 0
    else
      var h := Log2(us / 2);
      assert ShiftLeft(1, h + 1) == 2 * ShiftLeft(1, h);
      assert ShiftLeft(1, h + 2) == 2 * ShiftLeft(1, h + 1);
      h + 1
  }

  lemma {:induction false} ShiftLeftMonotone(a: nat, b: nat, n: nat)
    requires a <= b
    ensures ShiftLeft(a, n) <= ShiftLeft(b, n) && (a < b ==> ShiftLeft(a, n) < ShiftLeft(b, n))
  {
    if n > 0 { ShiftLeftMonotone(a, b, n - 1); }
  }

  lemma {:induction false} ShiftLeftAdd(a: nat, b: nat, n: nat)
    ensures ShiftLeft(a + b, n) == ShiftLeft(a, n) + ShiftLeft(b, n)
  {
    if n > 0 { ShiftLeftAdd(a, b, n - 1); }
  }

  lemma {:induction false} PowerGrows(i: nat, j: nat)
    requires i <= j
    ensures 1 <= ShiftLeft(1, i) <= ShiftLeft(1, j)
    decreases j
  {
    if i < j { PowerGrows(i, j - 1); } else if i > 0 { PowerGrows(i - 1, j - 1); }
  }

  /** 32 << n and 64 << n are powers of two. */
  lemma {:induction false} OctaveBounds(n: nat)
    ensures ShiftLeft(32, n) == ShiftLeft(1, n + 5) == 32 * ShiftLeft(1, n)
    ensures ShiftLeft(64, n) == ShiftLeft(1, n + 6)
  {
    if n == 0 {
      ShiftByFive(1);
    } else {
      OctaveBounds(n - 1);
    }
  }

  lemma ShiftByFive(v: nat)
    ensures ShiftLeft(v, 5) == 32 * v && ShiftLeft(v, 6) == 64 * v
  {
    assert ShiftLeft(v, 1) == 2 * v;
    assert ShiftLeft(v, 2) == 4 * v;
    assert ShiftLeft(v, 3) == 8 * v;
    assert ShiftLeft(v, 4) == 16 * v;
  }

  lemma {:induction false} ShiftTwice(v: nat, a: nat, b: nat)
    ensures ShiftLeft(ShiftLeft(v, a), b) == ShiftLeft(v, a + b)
  {
    if b > 0 { ShiftTwice(v, a, b - 1); }
  }

  lemma ShiftByTens(v: nat)
    ensures ShiftLeft(v, 10) == 0x400 * v
    ensures ShiftLeft(v, 20) == 0x10_0000 * v
    ensures ShiftLeft(v, 30) == 0x4000_0000 * v
    ensures ShiftLeft(v, 35) == 0x8_0000_0000 * v
  {
    ShiftByFive(v);
    ShiftByFive(32 * v);
    ShiftTwice(v, 5, 5);
    ShiftByTen(v);
    ShiftByTen(0x400 * v);
    ShiftTwice(v, 10, 10);
    ShiftByTen(0x10_0000 * v);
    ShiftTwice(v, 20, 10);
    ShiftByFive(0x4000_0000 * v);
    ShiftTwice(v, 30, 5);
  }

  lemma ShiftByTen(v: nat)
    ensures ShiftLeft(v, 10) == 0x400 * v
  {
    ShiftByFive(v);
    ShiftByFive(32 * v);
    ShiftTwice(v, 5, 5);
  }

  lemma Log2Is(us: nat, e: nat)
    requires ShiftLeft(1, e) <= us < ShiftLeft(1, e + 1)
    ensures us >= 1 && Log2(us) == e
  {
    PowerGrows(0, e);
    var d := Log2(us);
    if d < e { PowerGrows(d + 1, e); } else if e < d { PowerGrows(e + 1, d); }
  }

  lemma Log2Monotone(a: nat, b: nat)
    requires 1 <= a <= b
    ensures Log2(a) <= Log2(b)
  {
    var d, e := Log2(a), Log2(b);
    if e < d { PowerGrows(e + 1, d); }
  }

  /** The top n bits bound the value from both sides. */
  lemma {:induction false} TopBits(us: nat, n: nat)
    ensures ShiftLeft(ShiftRight(us, n), n) <= us < ShiftLeft(ShiftRight(us, n) + 1, n)
    decreases n
  {
    if n > 0 { TopBits(us / 2, n - 1); }
  }

  lemma {:induction false} ShiftRightMonotone(a: nat, b: nat, n: nat)
    requires a <= b
    ensures ShiftRight(a, n) <= ShiftRight(b, n)
    decreases n
  {
    if n > 0 { ShiftRightMonotone(a / 2, b / 2, n - 1); }
  }

  lemma {:induction false} ShiftBack(v: nat, n: nat)
    ensures ShiftRight(ShiftLeft(v, n), n) == v
    decreases n
  {
    if n > 0 { ShiftBack(v, n - 1); }
  }

  // ----- buckets ----------------------------------------------------------------------------

  lemma OctaveAtLeastSix(us: nat)
    requires us >= LINEAR_MAX
    ensures Log2(us) >= 6
  {
    var e := Log2(us);
    ShiftByFive(1);
    if e < 6 { PowerGrows(e + 1, 6); }
  }

  lemma InOctave(us: nat, n: nat)
    requires ShiftLeft(1, n + 5) <= us < ShiftLeft(1, n + 6)
    ensures 32 <= ShiftRight(us, n) < 64
  {
    var q := ShiftRight(us, n);
    TopBits(us, n);
    OctaveBounds(n);
    if q < 32 { ShiftLeftMonotone(q + 1, 32, n); } else if q >= 64 { ShiftLeftMonotone(64, q, n); }
  }

  /** Above the linear part: the octave is at least 6 and the top six bits are in [32, 64). */
  lemma TopSixBits(us: nat)
    requires us >= LINEAR_MAX
    ensures Log2(us) >= 6 && 32 <= ShiftRight(us, Log2(us) - 5) < 64
  {
    OctaveAtLeastSix(us);
    InOctave(us, Log2(us) - 5);
  }

  /** BucketOf before it is cut to the last bucket. */
  function RawBucket(us: nat): nat {
    if us < LINEAR_MAX then us
    else
      var e := Log2(us);
      TopSixBits(us);
      LINEAR_MAX + (e - 6) * 32 + ShiftRight(us, e - 5) % 32
  }

  function BucketOf(us: nat): (b: nat)
    ensures b < NUM_BUCKETS
  {
    if RawBucket(us) < NUM_BUCKETS then RawBucket(us) else NUM_BUCKETS - 1
  }

  function ValueOf(bucket: nat): nat {
    if bucket < LINEAR_MAX then bucket
    else
      var rel := bucket - LINEAR_MAX;
      ShiftLeft(32 + rel % 32, 1 + rel / 32)
  }

  /** The bucket of a value above the linear part, by its octave and its top six bits. */
  lemma RawParts(us: nat) returns (n: nat, q: nat)
    requires us >= LINEAR_MAX
    ensures n >= 1 && n == Log2(us) - 5 && q == ShiftRight(us, n) && 32 <= q < 64
    ensures RawBucket(us) == 32 * n + q
  {
    TopSixBits(us);
    n := Log2(us) - 5;
    q := ShiftRight(us, n);
  }

  /** A bucket above the linear part by octave and mantissa. */
  lemma ValueParts(n: nat, m: nat)
    requires n >= 1 && m < 32
    ensures ValueOf(32 * n + 32 + m) == ShiftLeft(32 + m, n)
  {
    var rel := 32 * (n - 1) + m;
    assert rel / 32 == n - 1 && rel % 32 == m;
  }

  lemma OctaveOfShift(q: nat, n: nat)
    requires n >= 1 && 32 <= q < 64
    ensures ShiftLeft(q, n) >= LINEAR_MAX && Log2(ShiftLeft(q, n)) == n + 5
  {
    OctaveBounds(n);
    ShiftLeftMonotone(32, q, n);
    ShiftLeftMonotone(q, 64, n);
    Log2Is(ShiftLeft(q, n), n + 5);
    PowerGrows(6, n + 5);
    ShiftByFive(1);
  }

  lemma RawOfShift(q: nat, n: nat)
    requires n >= 1 && 32 <= q < 64
    ensures RawBucket(ShiftLeft(q, n)) == 32 * n + q
  {
    OctaveOfShift(q, n);
    ShiftBack(q, n);
    var n', q' := RawParts(ShiftLeft(q, n));
  }

  /** Each bucket's value falls into that bucket. */
  lemma BucketOfValue(b: nat)
    ensures RawBucket(ValueOf(b)) == b
    ensures b < NUM_BUCKETS ==> BucketOf(ValueOf(b)) == b
  {
    if b >= LINEAR_MAX {
      var rel := b - LINEAR_MAX;
      ValueParts(1 + rel / 32, rel % 32);
      RawOfShift(32 + rel % 32, 1 + rel / 32);
    }
  }

  lemma RawBucketMonotone(a: nat, b: nat)
    requires a <= b
    ensures RawBucket(a) <= RawBucket(b)
  {
    if b >= LINEAR_MAX {
      var n, q := RawParts(b);
      if a >= LINEAR_MAX {
        var m, p := RawParts(a);
        Log2Monotone(a, b);
        if m == n { ShiftRightMonotone(a, b, n); }
      }
    }
  }

  lemma BucketMonotone(a: nat, b: nat)
    requires a <= b
    ensures BucketOf(a) <= BucketOf(b)
  {
    RawBucketMonotone(a, b);
  }

  /** A value and its bucket's value, before the cut: at most a 32nd apart. */
  lemma RawResolution(us: nat)
    ensures var v := ValueOf(RawBucket(us)); v <= us && us - v <= v / 32
  {
    if us >= LINEAR_MAX {
      var n, q := RawParts(us);
      TopBits(us, n);
      ValueParts(n, q - 32);
      ShiftLeftAdd(q, 1, n);
      ShiftLeftMonotone(32, q, n);
      OctaveBounds(n);
    }
  }

  const TWO40: nat := 0x100_0000_0000

  lemma CutAt40Bits(us: nat)
    ensures RawBucket(us) < NUM_BUCKETS <==> us < TWO40
  {
    var top := ValueOf(NUM_BUCKETS);
    ShiftByTens(32);
    BucketOfValue(NUM_BUCKETS);
    if us < TWO40 {
      RawBucketMonotone(us, top);
      if RawBucket(us) == NUM_BUCKETS { RawResolution(us); }
    } else {
      RawBucketMonotone(top, us);
    }
  }

  /**
    The promised resolution of about 3% holds up to and a little beyond 2^40 us, exactly as far as a
    32nd above the last bucket's value.
   */
  lemma ResolutionIff(us: nat)
    ensures var v := ValueOf(BucketOf(us));
      (v <= us && us - v <= v / 32) <==> us <= 2079 * 0x2000_0000
  {
    CutAt40Bits(us);
    RawResolution(us);
    ShiftByTens(63);
    assert 2 * ShiftLeft(63, 34) == ShiftLeft(63, 35);
  }

  // ----- counting ---------------------------------------------------------------------------

  function InBucket(latencies: seq<nat>, b: nat): nat {
    if latencies == [] then 0 else (if BucketOf(latencies[0]) == b then 1 else 0) + InBucket(latencies[1..], b)
  }

  /** Latencies in the buckets before b. */
  function UnderBucket(latencies: seq<nat>, b: nat): (n: nat)
    ensures n <= |latencies|
  {
    if latencies == [] then 0 else (if BucketOf(latencies[0]) < b then 1 else 0) + UnderBucket(latencies[1..], b)
  }

  function Below(latencies: seq<nat>, s: nat): nat {
    if latencies == [] then 0 else (if latencies[0] < s then 1 else 0) + Below(latencies[1..], s)
  }

  function AtMost(latencies: seq<nat>, s: nat): nat {
    if latencies == [] then 0 else (if latencies[0] <= s then 1 else 0) + AtMost(latencies[1..], s)
  }

  /** s is the k-th smallest latency, whatever the order of recording. */
  predicate IsKth(latencies: seq<nat>, k: nat, s: nat) {
    Below(latencies, s) < k <= AtMost(latencies, s)
  }

  lemma {:induction false} NextBucket(latencies: seq<nat>, b: nat)
    ensures UnderBucket(latencies, b + 1) == UnderBucket(latencies, b) + InBucket(latencies, b)
  {
    if latencies != [] { NextBucket(latencies[1..], b); }
  }

  lemma {:induction false} BucketEnds(latencies: seq<nat>)
    ensures UnderBucket(latencies, 0) == 0 && UnderBucket(latencies, NUM_BUCKETS) == |latencies|
  {
    if latencies != [] { BucketEnds(latencies[1..]); }
  }

  lemma {:induction false} AtMostIsUnder(latencies: seq<nat>, s: nat, b: nat)
    requires BucketOf(s) < b
    ensures AtMost(latencies, s) <= UnderBucket(latencies, b)
  {
    if latencies != [] {
      AtMostIsUnder(latencies[1..], s, b);
      if latencies[0] <= s { BucketMonotone(latencies[0], s); }
    }
  }

  lemma {:induction false} UnderIsBelow(latencies: seq<nat>, s: nat, b: nat)
    requires b <= BucketOf(s)
    ensures UnderBucket(latencies, b) <= Below(latencies, s)
  {
    if latencies != [] {
      UnderIsBelow(latencies[1..], s, b);
      if s <= latencies[0] { BucketMonotone(s, latencies[0]); }
    }
  }

  /** The bucket in which the running count first reaches k is the k-th smallest latency's bucket. */
  lemma KthIsInCrossingBucket(latencies: seq<nat>, k: nat, s: nat, b: nat)
    requires IsKth(latencies, k, s)
    requires UnderBucket(latencies, b) < k <= UnderBucket(latencies, b + 1)
    ensures BucketOf(s) == b
  {
    if BucketOf(s) < b {
      AtMostIsUnder(latencies, s, b);
    } else if BucketOf(s) > b {
      UnderIsBelow(latencies, s, b + 1);
    }
  }

  lemma {:induction false} BelowIsAtMostBefore(latencies: seq<nat>, s: nat)
    ensures Below(latencies, 0) == 0
    ensures s > 0 ==> Below(latencies, s) == AtMost(latencies, s - 1)
  {
    if latencies != [] { BelowIsAtMostBefore(latencies[1..], s); }
  }

  /** There is a k-th smallest latency at or under any bound that has k latencies under it. */
  lemma {:induction false} KthExists(latencies: seq<nat>, k: nat, bound: nat) returns (s: nat)
    requires 1 <= k <= AtMost(latencies, bound)
    ensures s <= bound && IsKth(latencies, k, s)
    decreases bound
  {
    BelowIsAtMostBefore(latencies, bound);
    if Below(latencies, bound) < k {
      s := bound;
    } else {
      s := KthExists(latencies, k, bound - 1);
    }
  }

  // ----- Percentile -------------------------------------------------------------------------

  /** The two snapshots differ by these latencies. */
  predicate Between(prev: seq<nat>, cur: seq<nat>, latencies: seq<nat>) {
    && |prev| == |cur| == NUM_BUCKETS
    && forall i :: 0 <= i < NUM_BUCKETS ==> cur[i] == prev[i] + InBucket(latencies, i)
  }

  /** v is the value of the bucket of every target-th smallest latency, and close below it. */
  ghost predicate Answers(latencies: seq<nat>, target: nat, v: nat) {
    forall s: nat :: IsKth(latencies, target, s) ==>
      v == ValueOf(BucketOf(s)) && (s < TWO40 ==> v <= s && s - v <= v / 32)
  }

  lemma CrossingAnswers(latencies: seq<nat>, target: nat, b: nat)
    requires UnderBucket(latencies, b) < target <= UnderBucket(latencies, b + 1)
    ensures Answers(latencies, target, ValueOf(b))
  {
    forall s: nat | IsKth(latencies, target, s)
      ensures ValueOf(b) == ValueOf(BucketOf(s)) && (s < TWO40 ==> ValueOf(b) <= s && s - ValueOf(b) <= ValueOf(b) / 32)
    {
      KthIsInCrossingBucket(latencies, target, s, b);
      ResolutionIff(s);
    }
  }

  predicate IsTarget(target: nat, total: nat, p: real) {
    target as real <= total as real * p < (target + 1) as real
  }

  /** static_cast<uint64_t>(total * p) */
  function Target(total: nat, p: real): (target: nat)
    requires p >= 0.0
    ensures forall t: nat :: IsTarget(t, total, p) <==> t == target
  {
    assert total as real * p >= 0.0;
    (total as real * p).Floor
  }

  /** The first loop. */
  method Total(cur: seq<nat>, prev: seq<nat>, ghost latencies: seq<nat>) returns (total: nat)
    requires Between(prev, cur, latencies)
    ensures total == |latencies|
  {
    BucketEnds(latencies);
    total := 0;
    for i := 0 to |cur|
      invariant total == UnderBucket(latencies, i)
    {
      NextBucket(latencies, i);
      total := total + (cur[i] - prev[i]);
    }
  }

  /** The second loop: the bucket in which the running count reaches the target, if there is one. */
  method Crossing(cur: seq<nat>, prev: seq<nat>, target: nat, ghost latencies: seq<nat>) returns (b: nat)
    requires Between(prev, cur, latencies)
    ensures b < |cur| && target >= 1 ==> UnderBucket(latencies, b) < target <= UnderBucket(latencies, b + 1)
    ensures b < |cur| <==> target <= |latencies|
    ensures target == 0 ==> b == 0
  {
    BucketEnds(latencies);
    var seen := 0;
    b := 0;
    while b < |cur|
      invariant 0 <= b <= |cur| && seen == UnderBucket(latencies, b)
      invariant b > 0 ==> seen < target
    {
      NextBucket(latencies, b);
      seen := seen + (cur[b] - prev[b]);
      if seen >= target { return; }
      b := b + 1;
    }
  }

  /**
    Percentile over what was recorded between two snapshots. With target <= total * p < target + 1, it
    returns the value of the bucket of the target-th smallest latency: never more than that latency,
    and below 2^40 us at most a 32nd less.
   */
  method Percentile(cur: seq<nat>, prev: seq<nat>, p: real, ghost latencies: seq<nat>) returns (v: nat)
    requires Between(prev, cur, latencies) && p >= 0.0
    ensures latencies == [] ==> v == 0
    ensures latencies != [] ==> forall target: nat :: IsTarget(target, |latencies|, p) ==>
      if target == 0 then v == ValueOf(0)
      else if target > |latencies| then v == ValueOf(|cur| - 1)
      else Answers(latencies, target, v)
  {
    var total := Total(cur, prev, latencies);
    if total == 0 { return 0; }
    var target := Target(total, p);
    var b := Crossing(cur, prev, target, latencies);
    if b < |cur| {
      if target >= 1 { CrossingAnswers(latencies, target, b); }
      return ValueOf(b);
    }
    return ValueOf(|cur| - 1);
  }

  // ----- recording --------------------------------------------------------------------------

  lemma {:induction false} InBucketConcat(x: seq<nat>, y: seq<nat>, b: nat)
    ensures InBucket(x + y, b) == InBucket(x, b) + InBucket(y, b)
  {
    if x == [] {
      assert x + y == y;
    } else {
      assert (x + y)[1..] == x[1..] + y;
      InBucketConcat(x[1..], y, b);
    }
  }

  /** Snapshots of a growing log differ by what was recorded in between. */
  lemma SnapshotsDiffer(before: seq<nat>, more: seq<nat>, prev: seq<nat>, cur: seq<nat>)
    requires |prev| == |cur| == NUM_BUCKETS
    requires forall i :: 0 <= i < NUM_BUCKETS ==> prev[i] == InBucket(before, i)
    requires forall i :: 0 <= i < NUM_BUCKETS ==> cur[i] == InBucket(before + more, i)
    ensures Between(prev, cur, more)
  {
    forall i | 0 <= i < NUM_BUCKETS ensures cur[i] == prev[i] + InBucket(more, i) {
      InBucketConcat(before, more, i);
    }
  }

  class Recorder {
    const buckets: array<nat>
    ghost var log: seq<nat>

    ghost predicate Valid()
      reads this, buckets
    {
      buckets.Length == NUM_BUCKETS && forall i :: 0 <= i < NUM_BUCKETS ==> buckets[i] == InBucket(log, i)
    }

    constructor ()
      ensures Valid() && log == [] && fresh(buckets)
    {
      buckets := new nat[NUM_BUCKETS](i => 0);
      log := [];
    }

    method Add(us: nat)
      requires Valid()
      modifies this, buckets
      ensures Valid() && log == old(log) + [us]
    {
      buckets[BucketOf(us)] := buckets[BucketOf(us)] + 1;
      forall i | 0 <= i < NUM_BUCKETS
        ensures InBucket(log + [us], i) == InBucket(log, i) + if i == BucketOf(us) then 1 else 0
      {
        InBucketConcat(log, [us], i);
        assert [us][1..] == [];
      }
      log := log + [us];
    }

    /** Adds this histogram's counts, so that several threads' histograms form one snapshot. */
    method AccumulateInto(out: array<nat>)
      requires Valid() && out.Length == NUM_BUCKETS && out != buckets
      modifies out
      ensures forall i :: 0 <= i < NUM_BUCKETS ==> out[i] == old(out[i]) + InBucket(log, i)
    {
      for i := 0 to NUM_BUCKETS
        invariant forall k :: 0 <= k < i ==> out[k] == old(out[k]) + InBucket(log, k)
        invariant forall k :: i <= k < NUM_BUCKETS ==> out[k] == old(out[k])
      {
        out[i] := out[i] + buckets[i];
      }
    }
  }
}
