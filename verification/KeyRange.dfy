/**
  Key range selection (Algorithm 1 of the paper) as the offline trainer does it: zero counts of the
  slot x range access matrix at every candidate size are derived from the finest grid only.
 */
module KeyRange {
  import opened Types

  /** One read: in which time slot, of which key. */
  datatype Read = Read(slot: nat, key: nat)

  datatype Grid = Grid(reads': seq<Read>, slots: nat, keySpace: nat, initA: nat) {
    predicate Valid() {
      initA >= 1 && forall i :: 0 <= i < |reads'| ==> reads'[i].key <= keySpace
    }

    /** Ranges of size a that cover the key space. */
    function Ranges(a: nat): nat
      requires a > 0
    {
      Div(keySpace, a) + 1
    }
  }

  // ----- zero counts ------------------------------------------------------------------------

  /** The occupied cells at size a, straight from the reads. */
  function Occupied(g: Grid, a: nat): set<(nat, nat)>
    requires a > 0
  {
    set i | 0 <= i < |g.reads'| :: (g.reads'[i].slot, Div(g.reads'[i].key, a))
  }

  /** Zero cells counted directly. */
  function Zeros(g: Grid, a: nat): int
    requires a > 0
  {
    g.slots * g.Ranges(a) - |Occupied(g, a)|
  }

  /** `base`: the occupied cells of the finest grid, each packed into one number. */
  function Base(g: Grid): set<nat>
    requires g.Valid()
  {
    set i | 0 <= i < |g.reads'| :: g.reads'[i].slot * g.Ranges(g.initA) + Div(g.reads'[i].key, g.initA)
  }

  /** Unpack a cell of the finest grid, coarsen it, pack it again. */
  function Coarsen(g: Grid, b: nat, a: nat): nat
    requires g.Valid() && a > 0
  {
    var w := g.Ranges(g.initA);
    var slot := Div(b, w);
    RemainderBound(b, w);
    var rest: nat := b - slot * w;
    Times(slot, g.Ranges(a)) + Div(Times(rest, g.initA), a)
  }

  function CoarseCells(g: Grid, a: nat): set<nat>
    requires g.Valid() && a > 0
  {
    set b | b in Base(g) :: Coarsen(g, b, a)
  }

  /** zeros_for: the zero count at size a, from `base` alone. */
  function ZerosFor(g: Grid, a: nat): int
    requires g.Valid() && a > 0
  {
    g.slots * g.Ranges(a) - |CoarseCells(g, a)|
  }

  /** The ranges of size a are those of the keys of the key space, no fewer and no more. */
  lemma RangesAreThoseOfKeys(g: Grid, a: nat, q: nat)
    requires a > 0
    ensures q < g.Ranges(a) <==> exists key: nat :: key <= g.keySpace && Div(key, a) == q
  {
    if q < g.Ranges(a) {
      DivAtLeast(g.keySpace, a, q);
      DivExact(q, a, 0);
    }
    if key: nat :| key <= g.keySpace && Div(key, a) == q { DivMonotone(key, g.keySpace, a); }
  }

  lemma UniqueDiv(x: nat, d: nat, q: nat)
    requires d > 0 && q * d <= x < (q + 1) * d
    ensures Div(x, d) == q
  {
    DivAtLeast(x, d, q);
    DivAtLeast(x, d, q + 1);
  }

  /** For a multiple a of the initial size, coarsening the finest cell is dividing the key. */
  lemma CoarseCell(key: nat, initA: nat, m: nat)
    requires initA > 0 && m > 0
    ensures initA * m > 0 && Div(Div(key, initA) * initA, initA * m) == Div(key, initA * m)
  {
    var a := initA * m;
    AtLeastOnce(initA, m);
    var q, f := Div(key, a), Div(key, initA);
    RemainderBound(key, a);
    RemainderBound(key, initA);
    assert (q + 1) * a == q * a + a;
    // q * a is itself a multiple of initA at or below key, so it is at or below f * initA.
    TimesAssociative(q, initA, m);
    var qm := Times(q, m);
    DivAtLeast(key, initA, qm);
    MulMonotone(qm, f, initA);
    UniqueDiv(f * initA, a, q);
  }

  lemma DivWithin(key: nat, bound: nat, a: nat)
    requires key <= bound && a > 0
    ensures Div(key, a) < Div(bound, a) + 1
  {
    DivMonotone(key, bound, a);
  }

  /** Coarsening the packed cell of one read gives the packed coarse cell of that read. */
  lemma CoarsenRead(g: Grid, i: nat, m: nat)
    requires g.Valid() && i < |g.reads'| && m > 0
    ensures g.initA * m > 0
    ensures var r := g.reads'[i];
      Coarsen(g, r.slot * g.Ranges(g.initA) + Div(r.key, g.initA), g.initA * m) ==
        r.slot * g.Ranges(g.initA * m) + Div(r.key, g.initA * m)
  {
    var r := g.reads'[i];
    var w, f := g.Ranges(g.initA), Div(r.key, g.initA);
    AtLeastOnce(g.initA, m);
    DivWithin(r.key, g.keySpace, g.initA);
    DivExact(r.slot, w, f);
    CoarseCell(r.key, g.initA, m);
  }

  function Pack(p: (nat, nat), n: nat): nat {
    p.0 * n + p.1
  }

  lemma PackInjective(p: (nat, nat), q: (nat, nat), n: nat)
    requires p.1 < n && q.1 < n && Pack(p, n) == Pack(q, n)
    ensures p == q
  {
    DivExact(p.0, n, p.1);
    DivExact(q.0, n, q.1);
  }

  /** Packing cells whose range is below n into numbers loses none. */
  lemma {:induction false} PackedSize(cells: set<(nat, nat)>, n: nat)
    requires forall p :: p in cells ==> p.1 < n
    ensures |set p | p in cells :: Pack(p, n)| == |cells|
    decreases |cells|
  {
    if cells != {} {
      var p :| p in cells;
      var rest := cells - {p};
      PackedSize(rest, n);
      var packed := set q | q in rest :: Pack(q, n);
      if Pack(p, n) in packed {
        var q :| q in rest && Pack(q, n) == Pack(p, n);
        PackInjective(p, q, n);
      }
      assert (set q | q in cells :: Pack(q, n)) == packed + {Pack(p, n)};
    }
  }

  /**
    For every trace and every multiple of the initial size, the count derived from the finest grid is
    the count of the zero cells of that size's own matrix.
   */
  lemma ZerosForIsExact(g: Grid, m: nat)
    requires g.Valid() && m > 0
    ensures g.initA * m > 0 && ZerosFor(g, g.initA * m) == Zeros(g, g.initA * m)
  {
    AtLeastOnce(g.initA, m);
    var a := g.initA * m;
    var n := g.Ranges(a);
    var cells := Occupied(g, a);
    forall p | p in cells ensures p.1 < n {
      var i :| 0 <= i < |g.reads'| && p == (g.reads'[i].slot, Div(g.reads'[i].key, a));
      DivWithin(g.reads'[i].key, g.keySpace, a);
    }
    PackedSize(cells, n);
    SamePackedCells(g, m);
  }

  lemma SamePackedCells(g: Grid, m: nat)
    requires g.Valid() && m > 0 && g.initA * m > 0
    ensures CoarseCells(g, g.initA * m) ==
      (set p | p in Occupied(g, g.initA * m) :: Pack(p, g.Ranges(g.initA * m)))
  {
    var a := g.initA * m;
    var left := CoarseCells(g, a);
    var right := set p | p in Occupied(g, a) :: Pack(p, g.Ranges(a));
    forall x ensures x in left <==> x in right {
      if x in left {
        var b :| b in Base(g) && x == Coarsen(g, b, a);
        var i :| 0 <= i < |g.reads'| && b == g.reads'[i].slot * g.Ranges(g.initA) + Div(g.reads'[i].key, g.initA);
        CoarsenRead(g, i, m);
        var p := (g.reads'[i].slot, Div(g.reads'[i].key, a));
        assert p in Occupied(g, a) && x == Pack(p, g.Ranges(a));
      }
      if x in right {
        var p :| p in Occupied(g, a) && x == Pack(p, g.Ranges(a));
        var i :| 0 <= i < |g.reads'| && p == (g.reads'[i].slot, Div(g.reads'[i].key, a));
        CoarsenRead(g, i, m);
        var b := g.reads'[i].slot * g.Ranges(g.initA) + Div(g.reads'[i].key, g.initA);
        assert b in Base(g);
      }
    }
  }

  // ----- the search -------------------------------------------------------------------------

  datatype Rule = Rule(alpha: real, minRanges: int)

  /** The paper's efficiency test, in counts. */
  predicate Efficient(g: Grid, r: Rule, a: nat)
    requires g.Valid() && a > 0
  {
    (2 * ZerosFor(g, 2 * a)) as real > r.alpha * ZerosFor(g, a) as real
  }

  /** One more doubling: it fits, it is efficient, and enough ranges remain. */
  predicate Expandable(g: Grid, r: Rule, a: nat)
    requires g.Valid() && a > 0
  {
    && 2 * a <= g.keySpace
    && Efficient(g, r, a)
    && g.Ranges(2 * a) >= r.minRanges
  }

  /** The size the doubling phase stops at. */
  function Expand(g: Grid, r: Rule, a: nat): (e: nat)
    requires g.Valid() && a > 0
    ensures e >= a && !Expandable(g, r, e)
    decreases g.keySpace - a
  {
    if Expandable(g, r, a) then Expand(g, r, 2 * a) else a
  }

  /** The doubling phase keeps to multiples of the initial size, and to enough ranges. */
  lemma {:induction false} ExpandKeeps(g: Grid, r: Rule, a: nat, m: nat) returns (k: nat)
    requires g.Valid() && m > 0 && a > 0 && a == Times(g.initA, m)
    requires a == g.initA || g.Ranges(a) >= r.minRanges
    ensures k > 0 && Expand(g, r, a) == Times(g.initA, k)
    ensures Expand(g, r, a) == g.initA || g.Ranges(Expand(g, r, a)) >= r.minRanges
    decreases g.keySpace - a
  {
    if Expandable(g, r, a) {
      Twice(g.initA, m);
      k := ExpandKeeps(g, r, 2 * a, 2 * m);
    } else {
      k := m;
    }
  }

  /** a doubled n times. */
  function Doubled(a: nat, n: nat): (d: nat)
    ensures a > 0 ==> d > 0
    decreases n
  {
    if n == 0 then a else Doubled(2 * a, n - 1)
  }

  /**
    Doubling from size a goes on, on the zeros counted on the raw reads: 2a fits the key space, has
    min_ranges ranges, and twice its zeros are more than alpha times a's.
   */
  predicate GoesOn(g: Grid, r: Rule, a: nat)
    requires a > 0
  {
    && 2 * a <= g.keySpace && g.Ranges(2 * a) >= r.minRanges
    && 2.0 * Zeros(g, 2 * a) as real > r.alpha * Zeros(g, a) as real
  }

  lemma ExpandableIsGoesOn(g: Grid, r: Rule, a: nat, m: nat)
    requires g.Valid() && m > 0 && a > 0 && a == Times(g.initA, m)
    ensures Expandable(g, r, a) <==> GoesOn(g, r, a)
  {
    ZerosForIsExact(g, m);
    Twice(g.initA, m);
    ZerosForIsExact(g, 2 * m);
  }

  /** The expanded size is the first of a, 2a, 4a, ... from which doubling does not go on. */
  lemma {:induction false} ExpandStopsFirst(g: Grid, r: Rule, a: nat, m: nat) returns (n: nat)
    requires g.Valid() && m > 0 && a > 0 && a == Times(g.initA, m)
    ensures Expand(g, r, a) == Doubled(a, n) && !GoesOn(g, r, Doubled(a, n))
    ensures forall i: nat :: i < n ==> GoesOn(g, r, Doubled(a, i))
    decreases g.keySpace - a
  {
    ExpandableIsGoesOn(g, r, a, m);
    if Expandable(g, r, a) {
      Twice(g.initA, m);
      var k := ExpandStopsFirst(g, r, 2 * a, 2 * m);
      n := k + 1;
      forall i: nat | i < n ensures GoesOn(g, r, Doubled(a, i)) {
        if i > 0 { assert Doubled(a, i) == Doubled(2 * a, i - 1); }
      }
    } else {
      n := 0;
    }
  }

  lemma Twice(a: nat, m: nat)
    ensures 2 * Times(a, m) == Times(a, 2 * m)
  {
  }

  /** s ranges' worth of zeros against e's. */
  predicate Outweighs(s: nat, zerosAtS: int, e: nat, zerosAtE: int, alpha: real) {
    s as real * zerosAtS as real > alpha * e as real * zerosAtE as real
  }

  /** The test of the binary search, for a candidate of m times the initial size. */
  predicate Passes(g: Grid, r: Rule, expanded: nat, m: nat)
    requires g.Valid() && expanded > 0
  {
    m > 0 && g.initA * m > 0 &&
    Outweighs(g.initA * m, ZerosFor(g, g.initA * m), expanded, ZerosFor(g, expanded), r.alpha)
  }

  function Test(g: Grid, r: Rule, expanded: nat): nat -> bool
    requires g.Valid() && expanded > 0
  {
    (m: nat) => Passes(g, r, expanded, m)
  }

  /** The largest multiple the binary search looks at. */
  function TopMultiple(g: Grid, r: Rule, expanded: nat): nat
    requires g.Valid() && expanded > 0
  {
    Div(Min(Min(2 * expanded, g.keySpace), Max(g.initA, Div(g.keySpace, Max(r.minRanges, 1)))), g.initA)
  }

  /** Which multiples those are: up to twice the expanded size, within the key space, with min_ranges whole ranges. */
  lemma TopMultipleIs(g: Grid, r: Rule, expanded: nat, m: nat)
    requires g.Valid() && expanded > 0
    ensures var a := g.initA * m;
      m <= TopMultiple(g, r, expanded) <==>
        a <= 2 * expanded && a <= g.keySpace && (a <= g.initA || a * Max(r.minRanges, 1) <= g.keySpace)
  {
    var a, least := g.initA * m, Max(r.minRanges, 1);
    var top := Min(Min(2 * expanded, g.keySpace), Max(g.initA, Div(g.keySpace, least)));
    assert m * g.initA == a;
    DivAtLeast(top, g.initA, m);
    DivAtLeast(g.keySpace, least, a);
  }

  /** The probe of the binary search. */
  function Mid(lo: nat, hi: int): (mid: int)
    requires lo <= hi
    ensures lo <= mid <= hi && 2 * mid <= lo + hi < 2 * mid + 2
  {
    (lo + hi) / 2
  }

  /** The binary search loop over multiples of the initial size. */
  function Search(test: nat -> bool, lo: nat, hi: int, best: nat): nat
    decreases hi + 1 - lo
  {
    if lo > hi then best
    else
      var mid := Mid(lo, hi);
      if test(mid) then Search(test, mid + 1, hi, mid) else Search(test, lo, mid - 1, best)
  }

  /** Whatever the test does, the search ends on its start value or on a candidate that passes. */
  lemma {:induction false} SearchPasses(test: nat -> bool, lo: nat, hi: int, best: nat)
    ensures var s := Search(test, lo, hi, best);
      s == best || (lo <= s <= hi && test(s))
    decreases hi + 1 - lo
  {
    if lo <= hi {
      var mid := Mid(lo, hi);
      if test(mid) { SearchPasses(test, mid + 1, hi, mid); } else { SearchPasses(test, lo, mid - 1, best); }
    }
  }

  /** The midpoints below m on the bisection of [lo, hi] towards m; the test has no part in them. */
  function Midpoints(lo: nat, hi: int, m: nat): (mids: seq<nat>)
    ensures forall x :: x in mids ==> lo <= x < m
    decreases hi + 1 - lo
  {
    if lo > hi then []
    else
      var mid := Mid(lo, hi);
      if mid < m then [mid] + Midpoints(mid + 1, hi, m)
      else if mid > m then Midpoints(lo, mid - 1, m)
      else []
  }

  /** m is the largest candidate that passes. */
  ghost predicate IsLargest(test: nat -> bool, lo: nat, hi: int, m: nat) {
    lo <= m <= hi && test(m) && forall n: nat :: m < n <= hi ==> !test(n)
  }

  ghost predicate AllPass(test: nat -> bool, mids: seq<nat>) {
    forall x :: x in mids ==> test(x)
  }

  lemma SearchTurn(test: nat -> bool, lo: nat, mid: nat, hi: int, best: nat)
    requires lo <= hi && mid == Mid(lo, hi)
    ensures lo <= mid <= hi
    ensures Search(test, lo, hi, best) ==
      if test(mid) then Search(test, mid + 1, hi, mid) else Search(test, lo, mid - 1, best)
  {
  }

  lemma MidpointsTurn(test: nat -> bool, lo: nat, mid: nat, hi: int, m: nat)
    requires lo <= hi && mid == Mid(lo, hi)
    ensures mid < m ==> (AllPass(test, Midpoints(lo, hi, m)) <==> test(mid) && AllPass(test, Midpoints(mid + 1, hi, m)))
    ensures mid > m ==> Midpoints(lo, hi, m) == Midpoints(lo, mid - 1, m)
    ensures mid == m ==> Midpoints(lo, hi, m) == []
  {
    if mid < m {
      var rest := Midpoints(mid + 1, hi, m);
      assert Midpoints(lo, hi, m) == [mid] + rest;
      assert forall x :: x in [mid] + rest <==> x == mid || x in rest;
    }
  }

  /** The search finds the largest candidate that passes if and only if the midpoints below it all pass. */
  lemma {:induction false} SearchIsLargestIff(test: nat -> bool, lo: nat, hi: int, best: nat, m: nat)
    requires best <= lo && IsLargest(test, lo, hi, m)
    ensures Search(test, lo, hi, best) == m <==> AllPass(test, Midpoints(lo, hi, m))
    decreases hi + 1 - lo, 1
  {
    var mid := Mid(lo, hi);
    if mid < m { LargestIsAbove(test, lo, mid, hi, best, m); } else { LargestIsNotAbove(test, lo, mid, hi, best, m); }
  }

  lemma {:induction false} LargestIsAbove(test: nat -> bool, lo: nat, mid: nat, hi: int, best: nat, m: nat)
    requires best <= lo && IsLargest(test, lo, hi, m) && mid == Mid(lo, hi) < m
    ensures Search(test, lo, hi, best) == m <==> AllPass(test, Midpoints(lo, hi, m))
    decreases hi + 1 - lo, 0
  {
    if test(mid) {
      SearchIsLargestIff(test, mid + 1, hi, mid, m);
      GoesUp(test, lo, mid, hi, best, m);
    } else {
      GoesDownPast(test, lo, mid, hi, best, m);
    }
  }

  lemma GoesUp(test: nat -> bool, lo: nat, mid: nat, hi: int, best: nat, m: nat)
    requires lo <= hi && mid == Mid(lo, hi) < m && test(mid)
    ensures Search(test, lo, hi, best) == Search(test, mid + 1, hi, mid)
    ensures AllPass(test, Midpoints(lo, hi, m)) <==> AllPass(test, Midpoints(mid + 1, hi, m))
  {
    SearchTurn(test, lo, mid, hi, best);
    MidpointsTurn(test, lo, mid, hi, m);
  }

  lemma GoesDownPast(test: nat -> bool, lo: nat, mid: nat, hi: int, best: nat, m: nat)
    requires best <= lo <= hi && mid == Mid(lo, hi) < m && !test(mid)
    ensures Search(test, lo, hi, best) < m && !AllPass(test, Midpoints(lo, hi, m))
  {
    SearchTurn(test, lo, mid, hi, best);
    MidpointsTurn(test, lo, mid, hi, m);
    SearchPasses(test, lo, mid - 1, best);
  }

  lemma {:induction false} LargestIsNotAbove(test: nat -> bool, lo: nat, mid: nat, hi: int, best: nat, m: nat)
    requires best <= lo && IsLargest(test, lo, hi, m) && mid == Mid(lo, hi) >= m
    ensures Search(test, lo, hi, best) == m <==> AllPass(test, Midpoints(lo, hi, m))
    decreases hi + 1 - lo, 0
  {
    SearchTurn(test, lo, mid, hi, best);
    MidpointsTurn(test, lo, mid, hi, m);
    if mid > m { SearchIsLargestIff(test, lo, mid - 1, best, m); } else { SearchPasses(test, mid + 1, hi, mid); }
  }

  /** A test that passes below whatever passes. */
  ghost predicate DownwardClosed(test: nat -> bool, lo: nat) {
    forall k: nat, n: nat :: lo <= k <= n && test(n) ==> test(k)
  }

  // ----- select_key_range -------------------------------------------------------------------

  function SelectedMultiple(g: Grid, r: Rule): nat
    requires g.Valid()
  {
    var e := Expand(g, r, g.initA);
    Search(Test(g, r, e), Div(e, g.initA), TopMultiple(g, r, e), Div(e, g.initA))
  }

  function Selected(g: Grid, r: Rule): nat
    requires g.Valid()
  {
    Times(g.initA, SelectedMultiple(g, r))
  }

  lemma EnoughRanges(g: Grid, r: Rule, e: nat, m: nat)
    requires g.Valid() && e > 0 && 0 < m <= TopMultiple(g, r, e)
    ensures g.initA * m > 0 && (g.initA * m == g.initA || g.Ranges(g.initA * m) >= r.minRanges)
  {
    AtLeastOnce(g.initA, m);
    var a := g.initA * m;
    var top := Min(Min(2 * e, g.keySpace), Max(g.initA, Div(g.keySpace, Max(r.minRanges, 1))));
    DivAtLeast(top, g.initA, m);
    assert m * g.initA == a;
    if a > g.initA && r.minRanges > 0 {
      DivAtLeast(g.keySpace, r.minRanges, a);
      assert a * r.minRanges == r.minRanges * a;
      DivAtLeast(g.keySpace, a, r.minRanges);
    }
  }

  /** The expanded size is a positive multiple k of the initial one. */
  lemma ExpandedMultiple(g: Grid, r: Rule) returns (k: nat)
    requires g.Valid()
    ensures k > 0 && Expand(g, r, g.initA) == g.initA * k && k == Div(Expand(g, r, g.initA), g.initA)
    ensures Expand(g, r, g.initA) == g.initA || g.Ranges(Expand(g, r, g.initA)) >= r.minRanges
  {
    var e := Expand(g, r, g.initA);
    assert g.initA == g.initA * 1;
    k := ExpandKeeps(g, r, g.initA, 1);
    assert k * g.initA == e;
    DivExact(k, g.initA, 0);
  }

  /** The threshold test on the zero counts of the two sizes' own matrices. */
  predicate Beats(g: Grid, r: Rule, s: nat, e: nat)
    requires s > 0 && e > 0
  {
    s as real * Zeros(g, s) as real > r.alpha * e as real * Zeros(g, e) as real
  }

  lemma BeatsIsOutweighs(g: Grid, r: Rule, s: nat, e: nat)
    requires s > 0 && e > 0
    ensures Beats(g, r, s, e) <==> Outweighs(s, Zeros(g, s), e, Zeros(g, e), r.alpha)
  {
  }

  lemma PassesIsBeats(g: Grid, r: Rule, e: nat, k: nat, m: nat)
    requires g.Valid() && k > 0 && m > 0 && e > 0 && e == g.initA * k
    ensures g.initA * m > 0 && (Passes(g, r, e, m) <==> Beats(g, r, g.initA * m, e))
  {
    ZerosForIsExact(g, k);
    ZerosForIsExact(g, m);
    var s := g.initA * m;
    BeatsIsOutweighs(g, r, s, e);
    assert ZerosFor(g, s) == Zeros(g, s) && ZerosFor(g, e) == Zeros(g, e);
  }

  /**
    What the selection promises for every trace: the result is a multiple of the initial size; it is
    the expanded size or beats it in the threshold test, counted on the raw reads; and it is the
    initial size or leaves at least min_ranges ranges.
   */
  lemma SelectedIsSound(g: Grid, r: Rule)
    requires g.Valid()
    ensures var e, s := Expand(g, r, g.initA), Selected(g, r);
      && s > 0 && (exists m: nat :: m > 0 && s == Times(g.initA, m))
      && (s == e || (Beats(g, r, s, e) && e <= s <= 2 * e && s <= g.keySpace))
      && (s == g.initA || g.Ranges(s) >= r.minRanges)
  {
    var e := Expand(g, r, g.initA);
    var k := ExpandedMultiple(g, r);
    var m := Search(Test(g, r, e), k, TopMultiple(g, r, e), k);
    SearchPasses(Test(g, r, e), k, TopMultiple(g, r, e), k);
    AtLeastOnce(g.initA, m);
    assert Selected(g, r) == Times(g.initA, m);
    if m != k {
      EnoughRanges(g, r, e, m);
      PassesIsBeats(g, r, e, k, m);
      TopMultipleIs(g, r, e, m);
      MulMonotone(k, m, g.initA);
    }
  }

  lemma TimesInjective(a: nat, m: nat, n: nat)
    requires a > 0 && m != n
    ensures Times(a, m) != Times(a, n)
  {
    if m < n { MulMonotone(m + 1, n, a); } else { MulMonotone(n + 1, m, a); }
  }

  /**
    The selected size is the largest that passes, m times the initial one, if and only if the midpoints
    below m on the bisection towards m all pass.
   */
  lemma SelectedIsLargestIff(g: Grid, r: Rule, m: nat)
    requires g.Valid()
    requires var e := Expand(g, r, g.initA); IsLargest(Test(g, r, e), Div(e, g.initA), TopMultiple(g, r, e), m)
    ensures var e := Expand(g, r, g.initA);
      Selected(g, r) == Times(g.initA, m) <==>
        AllPass(Test(g, r, e), Midpoints(Div(e, g.initA), TopMultiple(g, r, e), m))
  {
    var e := Expand(g, r, g.initA);
    var test, k, top := Test(g, r, e), Div(e, g.initA), TopMultiple(g, r, e);
    SearchIsLargestIff(test, k, top, k, m);
    if Search(test, k, top, k) != m { TimesInjective(g.initA, Search(test, k, top, k), m); }
  }

  /** In particular, where the test passes below whatever passes, the largest is always found. */
  lemma DownwardClosedFindsLargest(g: Grid, r: Rule, m: nat)
    requires g.Valid()
    requires var e := Expand(g, r, g.initA);
      && DownwardClosed(Test(g, r, e), Div(e, g.initA))
      && IsLargest(Test(g, r, e), Div(e, g.initA), TopMultiple(g, r, e), m)
    ensures Selected(g, r) == Times(g.initA, m)
  {
    SelectedIsLargestIff(g, r, m);
  }

  /** The doubling loop. */
  method ExpandLoop(g: Grid, r: Rule) returns (a: nat)
    requires g.Valid()
    ensures a == Expand(g, r, g.initA)
  {
    a := g.initA;
    while true
      invariant a > 0 && Expand(g, r, a) == Expand(g, r, g.initA)
      decreases g.keySpace - a
    {
      var twoA := 2 * a;
      if twoA > g.keySpace { break; }
      if !Efficient(g, r, a) { break; }
      if g.Ranges(twoA) < r.minRanges { break; }
      a := twoA;
    }
  }

  /** The binary search loop. */
  method SearchLoop(test: nat -> bool, start: nat, top: int) returns (best: nat)
    ensures best == Search(test, start, top, start)
  {
    var lo: nat, hi: int := start, top;
    best := start;
    while lo <= hi
      invariant Search(test, lo, hi, best) == Search(test, start, top, start)
      decreases hi + 1 - lo
    {
      var mid := Mid(lo, hi);
      if test(mid) {
        best := mid;
        lo := mid + 1;
      } else {
        hi := mid - 1;
      }
    }
  }

  /** select_key_range. */
  method SelectKeyRange(g: Grid, r: Rule) returns (best: nat)
    requires g.Valid()
    ensures best == Selected(g, r)
  {
    var a := ExpandLoop(g, r);
    var m := SearchLoop(Test(g, r, a), Div(a, g.initA), TopMultiple(g, r, a));
    best := Times(g.initA, m);
  }

  // ----- two claims that hold only in part --------------------------------------------------

  lemma ZerosOfNothing(g: Grid, a: nat)
    requires g.Valid() && g.reads' == [] && g.slots == 1 && a > 0
    ensures ZerosFor(g, a) == g.Ranges(a)
  {
    assert CoarseCells(g, a) == {};
  }

  lemma SixKeys(g: Grid, a: nat, n: nat)
    requires g == Grid([], 1, 6, 1) && a > 0 && 6 / a + 1 == n
    ensures g.Ranges(a) == n && ZerosFor(g, a) == n
  {
    DivIsDivision(6, a);
    ZerosOfNothing(g, a);
  }

  lemma SixKeysExpand(g: Grid, r: Rule, one: nat, two: nat)
    requires g == Grid([], 1, 6, 1) && r == Rule(1.0, 2) && one == 1 && two == 2
    ensures Expand(g, r, one) == two
  {
    SixKeys(g, one, 7);
    SixKeys(g, two, 4);
    SixKeys(g, 2 * two, 2);
    assert Expandable(g, r, one) && !Expandable(g, r, two);
  }

  lemma SixKeysPass(g: Grid, r: Rule, two: nat, three: nat)
    requires g == Grid([], 1, 6, 1) && r == Rule(1.0, 2) && two == 2 && three == 3
    ensures !Passes(g, r, two, two) && Passes(g, r, two, three)
  {
    SixKeys(g, two, 4);
    SixKeys(g, three, 3);
  }

  lemma SixKeysTop(g: Grid, r: Rule, two: nat)
    requires g == Grid([], 1, 6, 1) && r == Rule(1.0, 2) && two == 2
    ensures TopMultiple(g, r, two) == 3 && Div(two, g.initA) == two
  {
    DivIsDivision(6, two);
    DivIsDivision(3, 1);
    DivIsDivision(two, 1);
  }

  lemma SearchStopsShort(test: nat -> bool, two: nat, three: nat)
    requires two == 2 && three == 3 && !test(two) && test(three)
    ensures Search(test, two, three, two) == two
  {
    SearchTurn(test, two, two, three, two);
    assert Search(test, two, 1, two) == two;
  }

  /**
    The binary search need not find the largest size that passes: without a single read, over six
    keys, it stops at 2 although 3 is in reach and passes.
   */
  lemma SearchCanMissLargest(g: Grid, r: Rule, two: nat, three: nat)
    requires g == Grid([], 1, 6, 1) && r == Rule(1.0, 2) && two == 2 && three == 3
    ensures g.Valid() && Expand(g, r, g.initA) == two && Selected(g, r) == two
    ensures TopMultiple(g, r, two) == three && Passes(g, r, two, three)
  {
    SixKeysExpand(g, r, g.initA, two);
    SixKeysPass(g, r, two, three);
    SixKeysTop(g, r, two);
    SearchStopsShort(Test(g, r, two), two, three);
    assert SelectedMultiple(g, r) == two;
  }

  /** The efficiency test on proportions of zeros instead of counts, with n ranges at A and h at 2A. */
  predicate ProportionTest(z: int, n: nat, zDouble: int, h: nat, alpha: real) {
    (zDouble * n) as real > alpha * (z * h) as real
  }

  predicate CountTest(z: int, zDouble: int, alpha: real) {
    (2 * zDouble) as real > alpha * z as real
  }

  /** On this trace, doubling from size a, the two tests give the same verdict. */
  predicate TestsAgree(g: Grid, a: nat, alpha: real)
    requires a > 0
  {
    CountTest(Zeros(g, a), Zeros(g, 2 * a), alpha) <==>
    ProportionTest(Zeros(g, a), g.Ranges(a), Zeros(g, 2 * a), g.Ranges(2 * a), alpha)
  }

  lemma HalvedIsSame(z: int, zDouble: int, alpha: real, n: nat, h: nat)
    requires n == 2 * h && h > 0
    ensures CountTest(z, zDouble, alpha) <==> ProportionTest(z, n, zDouble, h, alpha)
  {
    ScaleBothSides((2 * zDouble) as real, alpha * z as real, h);
    assert (zDouble * n) as real == (2 * zDouble) as real * h as real;
    assert alpha * (z * h) as real == (alpha * z as real) * h as real;
  }

  lemma DoubledRanges(keySpace: nat, a: nat)
    requires a > 0
    ensures Div(keySpace, 2 * a) == Div(keySpace, a) / 2
  {
    var q := Div(keySpace, a);
    var half, odd := q / 2, q % 2;
    RemainderBound(keySpace, a);
    HalfTimes(q, half, odd, a);
    UniqueDiv(keySpace, 2 * a, half);
  }

  lemma HalfTimes(q: nat, half: nat, odd: nat, a: nat)
    requires q == 2 * half + odd && odd <= 1
    ensures q * a == half * (2 * a) + (if odd == 1 then a else 0)
    ensures (half + 1) * (2 * a) == half * (2 * a) + 2 * a
  {
    TwoOut(half, a);
    OneMore(half, 2 * a);
    if odd == 1 { OneMore(2 * half, a); }
  }

  lemma TwoOut(h: nat, a: nat)
    ensures h * (2 * a) == (2 * h) * a
  {
  }

  lemma OneMore(x: nat, a: nat)
    ensures (x + 1) * a == x * a + a
  {
  }

  /** Without a read, all cells are zeros. */
  lemma NothingOccupied(g: Grid, a: nat)
    requires g.reads' == [] && g.slots == 1 && a > 0
    ensures Zeros(g, a) == g.Ranges(a)
  {
    assert Occupied(g, a) == {};
  }

  /** Without a read and at alpha 1, an even number of whole ranges tells the two tests apart. */
  lemma EmptyTraceTells(keySpace: nat, initA: nat, a: nat)
    requires initA >= 1 && a > 0 && Div(keySpace, a) % 2 == 0
    ensures var g := Grid([], 1, keySpace, initA); g.Valid() && !TestsAgree(g, a, 1.0)
  {
    var g := Grid([], 1, keySpace, initA);
    DoubledRanges(keySpace, a);
    NothingOccupied(g, a);
    NothingOccupied(g, 2 * a);
    MoreCountsSameProportion(g.Ranges(a), g.Ranges(2 * a));
  }

  lemma MoreCountsSameProportion(n: nat, h: nat)
    requires 2 * h == n + 1
    ensures CountTest(n, h, 1.0) && !ProportionTest(n, n, h, h, 1.0)
  {
    assert h * n == n * h;
  }

  /**
    The trainer takes the count test for the proportion test. For a key space and a size a they agree
    on every trace and at every alpha if and only if key_space // a is odd, so that doubling a exactly
    halves the number of ranges.
   */
  lemma CountsAreProportionsIff(keySpace: nat, initA: nat, a: nat)
    requires initA >= 1 && a > 0
    ensures (forall g: Grid, alpha: real :: g.Valid() && g.keySpace == keySpace && g.initA == initA ==>
               TestsAgree(g, a, alpha)) <==> Div(keySpace, a) % 2 == 1
  {
    DoubledRanges(keySpace, a);
    if Div(keySpace, a) % 2 == 1 {
      forall g: Grid, alpha: real | g.Valid() && g.keySpace == keySpace && g.initA == initA
        ensures TestsAgree(g, a, alpha)
      {
        HalvedIsSame(Zeros(g, a), Zeros(g, 2 * a), alpha, g.Ranges(a), g.Ranges(2 * a));
      }
    } else {
      EmptyTraceTells(keySpace, initA, a);
    }
  }

  lemma ScaleLe(x: real, y: real, h: real)
    requires x <= y && h >= 0.0
    ensures x * h <= y * h
  {
  }

  lemma ScaleBothSides(x: real, y: real, h: nat)
    requires h > 0
    ensures x > y <==> x * h as real > y * h as real
  {
    if x <= y { ScaleLe(x, y, h as real); }
  }
}
