/** The values every component shares: block metadata, range spans, ascending id lists. */
module Types {

  const TWO32: nat := 0x1_0000_0000
  const TWO64: nat := 0x1_0000_0000_0000_0000

  /** The value a uint64_t holds after an arithmetic operation whose exact result is `x`. */
  function Wrap64(x: int): nat {
    x % TWO64
  }

  /** Quotient and remainder determine what a uint64_t keeps. */
  lemma WrapIs(x: nat, q: nat, r: nat)
    requires x == TWO64 * q + r && r < TWO64
    ensures Wrap64(x) == r
  {
  }

  lemma WrapSmall(x: nat)
    ensures x < TWO64 <==> Wrap64(x) == x
  {
  }

  type RangeId = nat

  datatype Option<+T> = None | Some(value: T)

  /** leaper::BlockRef; `last` is inclusive. */
  datatype BlockRef = BlockRef(file: nat, offset: nat, size: nat, first: RangeId, last: RangeId)

  /** leaper::RangeSpan; both ends inclusive. */
  datatype RangeSpan = RangeSpan(begin: RangeId, end: RangeId)

  predicate Ascending(s: seq<nat>) {
    forall i, j :: 0 <= i < j < |s| ==> s[i] <= s[j]
  }

  predicate StrictlyAscending(s: seq<nat>) {
    forall i, j :: 0 <= i < j < |s| ==> s[i] < s[j]
  }

  function InsertUnique(x: nat, s: seq<nat>): (r: seq<nat>)
    requires StrictlyAscending(s)
    ensures StrictlyAscending(r)
    ensures forall y :: y in r <==> y == x || y in s
  {
    if s == [] || x < s[0] then [x] + s
    else if x == s[0] then s
    else
      var t := InsertUnique(x, s[1..]);
      assert forall y :: y in s <==> y == s[0] || y in s[1..];
      assert forall k :: 0 <= k < |t| ==> t[k] in t;
      [s[0]] + t
  }

  /** std::sort followed by std::unique and erase. */
  function SortUnique(s: seq<nat>): (r: seq<nat>)
    ensures StrictlyAscending(r)
    ensures forall y :: y in r <==> y in s
  {
    if s == [] then []
    else
      assert forall y :: y in s <==> y == s[0] || y in s[1..];
      InsertUnique(s[0], SortUnique(s[1..]))
  }

  /** An ascending list without repeats is determined by its elements. */
  lemma {:induction false} AscendingListIsItsSet(a: seq<nat>, b: seq<nat>)
    requires StrictlyAscending(a) && StrictlyAscending(b)
    requires forall y :: y in a <==> y in b
    ensures a == b
  {
    assert b == [] || b[0] in b;
    if a != [] {
      assert a[0] in a && a[0] in b;
      assert b[0] in b && b[0] in a;
      assert a[0] == b[0];
      forall y ensures y in a[1..] <==> y in b[1..] {
        assert y in a <==> y == a[0] || y in a[1..];
        assert y in b <==> y == b[0] || y in b[1..];
      }
      AscendingListIsItsSet(a[1..], b[1..]);
      assert a == [a[0]] + a[1..] && b == [b[0]] + b[1..];
    }
  }

  function Max(a: int, b: int): int {
    if a < b then b else a
  }

  function Min(a: int, b: int): int {
    if a < b then a else b
  }

  function Times(a: nat, b: nat): nat {
    a * b
  }

  lemma TimesAssociative(a: nat, b: nat, c: nat)
    ensures a * (b * c) == (a * c) * b
  {
  }

  // ----- division ---------------------------------------------------------------------------

  /** Integer division, by repeated subtraction so that proofs stay linear; see DivIsDivision. */
  function Div(x: nat, d: nat): nat
    requires d > 0
  {
    if x < d then 0 else 1 + Div(x - d, d)
  }

  lemma {:induction false} DivIsDivision(x: nat, d: nat)
    requires d > 0
    ensures Div(x, d) == x / d
  {
    if x < d {
      SmallQuotient(x, d);
    } else {
      DivIsDivision(x - d, d);
      PeelQuotient(x, d);
    }
  }

  lemma SmallQuotient(x: nat, d: nat)
    requires x < d
    ensures x / d == 0
  {
  }

  lemma PeelQuotient(x: nat, d: nat)
    requires 0 < d <= x
    ensures x / d == 1 + (x - d) / d
  {
    var q, r := x / d, x % d;
    var q', r' := (x - d) / d, (x - d) % d;
    assert x == d * q + r && x - d == d * q' + r';
    assert d * (q - 1 - q') == d * q - d - d * q';
    SmallMultiple(d, q - 1 - q');
  }

  lemma SmallMultiple(d: nat, e: int)
    requires 0 < d * e + d && d * e < d
    ensures e == 0
  {
    assert d * (-e) == -(d * e);
    if e > 0 {
      AtLeastOnce(d, e);
    } else if e < 0 {
      AtLeastOnce(d, -e);
    }
  }

  lemma AtLeastOnce(d: nat, e: nat)
    requires e > 0
    ensures d * e >= d
  {
    assert d * e == d * (e - 1) + d;
  }

  lemma MulMonotone(i: nat, j: nat, d: nat)
    requires i <= j
    ensures i * d <= j * d
  {
    assert (j - i) * d >= 0;
    assert (j - i) * d == j * d - i * d;
  }

  lemma {:induction false} DivAtLeast(x: nat, d: nat, r: nat)
    requires d > 0
    ensures Div(x, d) >= r <==> x >= r * d
    decreases r
  {
    if r > 0 {
      assert r * d == (r - 1) * d + d;
      assert (r - 1) * d >= 0;
      if x >= d { DivAtLeast(x - d, d, r - 1); }
    }
  }

  lemma {:induction false} DivMonotone(x: nat, y: nat, d: nat)
    requires x <= y && d > 0
    ensures Div(x, d) <= Div(y, d)
  {
    if x >= d { DivMonotone(x - d, y - d, d); }
  }

  lemma {:induction false} DivExact(q: nat, d: nat, r: nat)
    requires r < d
    ensures Div(q * d + r, d) == q
  {
    if q > 0 {
      assert q * d == (q - 1) * d + d;
      assert (q - 1) * d >= 0;
      DivExact(q - 1, d, r);
    }
  }

  lemma RemainderBound(v: nat, base: nat)
    requires base > 0
    ensures 0 <= v - Div(v, base) * base < base
  {
    DivAtLeast(v, base, Div(v, base));
    DivAtLeast(v, base, Div(v, base) + 1);
    assert (Div(v, base) + 1) * base == Div(v, base) * base + base;
  }
}
