/**
  Order-preserving key to range id mappers. Both read a key as the leading digits of a positional
  number (base 256 and width 8, or base 10 and the configured width), right-padded with zeros, and
  divide by the range size.
 */
module Mappers {
  import opened Types

  type Byte = x: int | 0 <= x < 256

  /** memcmp order on byte strings: a proper prefix comes first. */
  predicate LexLe(a: seq<int>, b: seq<int>) {
    a == [] || (b != [] && (a[0] < b[0] || (a[0] == b[0] && LexLe(a[1..], b[1..]))))
  }

  predicate LexLt(a: seq<int>, b: seq<int>) {
    !LexLe(b, a)
  }

  lemma {:induction false} LexTotal(a: seq<int>, b: seq<int>)
    ensures LexLe(a, b) || LexLe(b, a)
  {
    if a != [] && b != [] { LexTotal(a[1..], b[1..]); }
  }

  lemma {:induction false} LexTransitive(a: seq<int>, b: seq<int>, c: seq<int>)
    requires LexLe(a, b) && LexLe(b, c)
    ensures LexLe(a, c)
  {
    if a != [] && a[0] == b[0] && b[0] == c[0] { LexTransitive(a[1..], b[1..], c[1..]); }
  }

  predicate DigitsOf(base: nat, ds: seq<int>) {
    forall i :: 0 <= i < |ds| ==> 0 <= ds[i] < base
  }

  function Head(ds: seq<int>): int {
    if ds == [] then 0 else ds[0]
  }

  function Tail(ds: seq<int>): seq<int> {
    if ds == [] then [] else ds[1..]
  }

  /** Append to the number `v` the first `n` digits of `ds`, right-padded with zeros. */
  function Append(base: nat, v: nat, ds: seq<int>, n: nat): nat
    requires DigitsOf(base, ds)
    decreases n
  {
    if n == 0 then v else Append(base, v * base + Head(ds), Tail(ds), n - 1)
  }

  lemma AppendStep(base: nat, v: nat, ds: seq<int>, i: nat, n: nat)
    requires DigitsOf(base, ds) && i < |ds| && n > 0
    ensures Append(base, v, ds[i..], n) == Append(base, v * base + ds[i], ds[i + 1..], n - 1)
  {
    assert ds[i..][1..] == ds[i + 1..];
  }

  /** The first `n` digits of `ds`, right-padded with zeros, as a number. */
  function Value(base: nat, ds: seq<int>, n: nat): nat
    requires DigitsOf(base, ds)
  {
    Append(base, 0, ds, n)
  }

  /** How many `n`-digit numbers there are: `base` to the `n`. */
  function Space(base: nat, n: nat): nat {
    if n == 0 then 1 else base * Space(base, n - 1)
  }

  lemma Scale(v: nat, w: nat, base: nat, c: int, d: int)
    requires v < w && 0 <= c < base && 0 <= d
    ensures v * base + c < w * base + d
  {
    assert (w - v - 1) * base >= 0;
    assert (w - v - 1) * base == w * base - v * base - base;
  }

  /** A smaller leading part decides, whatever digits follow. */
  lemma {:induction false} LeadDecides(base: nat, v: nat, a: seq<int>, w: nat, b: seq<int>, n: nat)
    requires DigitsOf(base, a) && DigitsOf(base, b) && v < w && base > 0
    ensures Append(base, v, a, n) < Append(base, w, b, n)
    decreases n
  {
    if n > 0 {
      Scale(v, w, base, Head(a), Head(b));
      LeadDecides(base, v * base + Head(a), Tail(a), w * base + Head(b), Tail(b), n - 1);
    }
  }

  lemma {:induction false} AppendMonotone(base: nat, v: nat, a: seq<int>, b: seq<int>, n: nat)
    requires DigitsOf(base, a) && DigitsOf(base, b) && LexLe(a, b) && base > 0
    ensures Append(base, v, a, n) <= Append(base, v, b, n)
    decreases n
  {
    if n > 0 {
      if Head(a) < Head(b) {
        LeadDecides(base, v * base + Head(a), Tail(a), v * base + Head(b), Tail(b), n - 1);
      } else {
        AppendMonotone(base, v * base + Head(a), Tail(a), Tail(b), n - 1);
      }
    }
  }

  /** Byte order on keys is kept by the numbers they stand for. */
  lemma ValueMonotone(base: nat, a: seq<int>, b: seq<int>, n: nat)
    requires DigitsOf(base, a) && DigitsOf(base, b) && LexLe(a, b) && base > 0
    ensures Value(base, a, n) <= Value(base, b, n)
  {
    AppendMonotone(base, 0, a, b, n);
  }

  lemma {:induction false} AppendStrict(base: nat, v: nat, k: seq<int>, s: seq<int>, n: nat)
    requires DigitsOf(base, k) && DigitsOf(base, s) && |s| == n <= |k| && LexLt(k, s) && base > 0
    ensures Append(base, v, k, n) < Append(base, v, s, n)
    decreases n
  {
    if k[0] < s[0] {
      LeadDecides(base, v * base + k[0], k[1..], v * base + s[0], s[1..], n - 1);
    } else {
      AppendStrict(base, v * base + k[0], k[1..], s[1..], n - 1);
    }
  }

  /** For a full-width bound `s`, comparing bytes is comparing numbers. */
  lemma BoundIsNumeric(base: nat, k: seq<int>, s: seq<int>, n: nat)
    requires DigitsOf(base, k) && DigitsOf(base, s) && |s| == n <= |k| && base > 0
    ensures LexLe(s, k) <==> Value(base, s, n) <= Value(base, k, n)
  {
    if LexLe(s, k) { ValueMonotone(base, s, k, n); } else { AppendStrict(base, 0, k, s, n); }
  }

  lemma {:induction false} PadOne(base: nat, v: nat, n: nat)
    ensures Append(base, v, [], n + 1) == base * Append(base, v, [], n)
    decreases n
  {
    if n > 0 { PadOne(base, v * base, n - 1); }
  }

  lemma {:induction false} SpaceIsOneAndZeros(base: nat, n: nat)
    ensures Append(base, 1, [], n) == Space(base, n)
  {
    if n > 0 {
      SpaceIsOneAndZeros(base, n - 1);
      PadOne(base, 1, n - 1);
    }
  }

  lemma ValueBound(base: nat, ds: seq<int>, n: nat)
    requires DigitsOf(base, ds) && base > 0
    ensures Value(base, ds, n) < Space(base, n)
  {
    LeadDecides(base, 0, ds, 1, [], n);
    SpaceIsOneAndZeros(base, n);
  }

  /** The `n`-digit numeral of `v`. */
  function Numeral(base: nat, v: nat, n: nat): (ds: seq<int>)
    requires base > 0
    ensures |ds| == n && DigitsOf(base, ds)
    decreases n
  {
    if n == 0 then []
    else
      var q := Div(v, base);
      RemainderBound(v, base);
      Numeral(base, q, n - 1) + [v - q * base]
  }

  lemma {:induction false} AppendSnoc(base: nat, v: nat, ds: seq<int>, d: int)
    requires DigitsOf(base, ds) && 0 <= d < base
    ensures Append(base, v, ds + [d], |ds| + 1) == Append(base, v, ds, |ds|) * base + d
    decreases |ds|
  {
    if ds == [] {
      assert Append(base, v, [d], 1) == Append(base, v * base + d, [], 0);
    } else {
      assert (ds + [d])[1..] == ds[1..] + [d];
      AppendSnoc(base, v * base + ds[0], ds[1..], d);
    }
  }

  /** Writing a number down and reading it back. */
  lemma {:induction false} NumeralRoundTrip(base: nat, v: nat, n: nat)
    requires base > 0 && v < Space(base, n)
    ensures Value(base, Numeral(base, v, n), n) == v
    decreases n
  {
    if n > 0 {
      var q := Div(v, base);
      RemainderBound(v, base);
      DivAtLeast(v, base, Space(base, n - 1));
      NumeralRoundTrip(base, q, n - 1);
      AppendSnoc(base, 0, Numeral(base, q, n - 1), v - q * base);
    }
  }

  // ----- ranges -----------------------------------------------------------------------------

  /** The key is inside the half-open scan interval [start, limit). */
  predicate InScan(k: seq<int>, start: seq<int>, limit: seq<int>) {
    LexLe(start, k) && LexLt(k, limit)
  }

  /**
    A scan from a start key to a limit key is exact for ranges i..j.
    The whole failing family is the last range of the key space: its limit has no numeral.
   */
  lemma ScanExact(base: nat, n: nat, size: nat, i: nat, j: nat, start: seq<int>, limit: seq<int>, k: seq<int>)
    requires base > 0 && size > 0 && DigitsOf(base, start) && DigitsOf(base, limit) && DigitsOf(base, k)
    requires |start| == n && |limit| == n && n <= |k|
    requires Value(base, start, n) == i * size && Value(base, limit, n) == (j + 1) * size
    ensures InScan(k, start, limit) <==> i <= Div(Value(base, k, n), size) <= j
  {
    BoundIsNumeric(base, k, start, n);
    BoundIsNumeric(base, k, limit, n);
    DivAtLeast(Value(base, k, n), size, i);
    DivAtLeast(Value(base, k, n), size, j + 1);
  }

  /** The greatest full-width key lies in the last range and below no limit key. */
  lemma ScanMissesTopKey(base: nat, n: nat, size: nat, i: nat, j: nat, start: seq<int>, limit: seq<int>)
    returns (k: seq<int>)
    requires base > 0 && size > 0 && i <= j && DigitsOf(base, start) && DigitsOf(base, limit)
    requires |start| == n && |limit| == n
    requires j * size < Space(base, n) <= (j + 1) * size
    ensures |k| == n && DigitsOf(base, k) && i <= Div(Value(base, k, n), size) <= j
    ensures !InScan(k, start, limit)
  {
    var top := Space(base, n) - 1;
    k := Numeral(base, top, n);
    NumeralRoundTrip(base, top, n);
    BoundIsNumeric(base, k, limit, n);
    ValueBound(base, limit, n);
    DivAtLeast(top, size, j);
    DivAtLeast(top, size, j + 1);
  }

  // ----- the prefix mapper --------------------------------------------------------------------

  const PREFIX_BYTES: nat := 8

  lemma PrefixSpaceIs64Bits()
    ensures Space(256, PREFIX_BYTES) == TWO64
  {
    assert Space(256, 4) == TWO32;
  }

  /** The constructors replace a zero size by one. */
  function SizeOrOne(size: nat): (s: nat)
    ensures s > 0
  {
    if size == 0 then 1 else size
  }

  function PrefixRange(key: seq<Byte>, size: nat): RangeId {
    Div(Value(256, key, PREFIX_BYTES), SizeOrOne(size))
  }

  lemma WrapShift(x: nat, d: nat)
    requires d < 256
    ensures Wrap64(Wrap64(x) * 256) + d == Wrap64(x * 256 + d)
  {
    var w, k := Wrap64(x), x / TWO64;
    var q, low := w / 0x100_0000_0000_0000, w % 0x100_0000_0000_0000;
    WrapIs(w * 256, q, low * 256);
    WrapIs(x * 256 + d, 256 * k + q, low * 256 + d);
  }

  method Quotient(v: nat, size: nat) returns (q: nat)
    requires size > 0
    ensures q == Div(v, size)
  {
    DivIsDivision(v, size);
    q := v / size;
  }

  /** The two loops of PrefixRangeMapper::Map: shift the bytes in, then pad. */
  method ShiftIn(key: seq<Byte>, bytes: nat) returns (v: nat)
    ensures v == Wrap64(Value(256, key, bytes))
  {
    ghost var x: nat := 0;  // what v would be without the 64-bit limit
    v := 0;
    var n := if |key| < bytes then |key| else bytes;
    var i := 0;
    while i < n
      invariant 0 <= i <= n
      invariant v == Wrap64(x)
      invariant Append(256, x, key[i..], bytes - i) == Value(256, key, bytes)
    {
      WrapShift(x, key[i]);
      v := Wrap64(v * 256) + key[i];
      AppendStep(256, x, key, i, bytes - i);
      x := x * 256 + key[i];
      i := i + 1;
    }
    ghost var rest := key[i..];
    while i < bytes
      invariant n <= i <= bytes
      invariant i == bytes || rest == []
      invariant v == Wrap64(x)
      invariant Append(256, x, rest, bytes - i) == Value(256, key, bytes)
    {
      WrapShift(x, 0);
      v := Wrap64(v * 256);
      x := x * 256;
      i := i + 1;
    }
  }

  /** PrefixRangeMapper::Map. */
  method PrefixMap(key: seq<Byte>, size: nat) returns (r: RangeId)
    ensures r == PrefixRange(key, size)
  {
    var v := ShiftIn(key, PREFIX_BYTES);
    ValueBound(256, key, PREFIX_BYTES);
    PrefixSpaceIs64Bits();
    WrapSmall(Value(256, key, PREFIX_BYTES));
    r := Quotient(v, SizeOrOne(size));
  }

  /** `v` shifted right by `n` digits. */
  function DroppedDigits(base: nat, v: nat, n: nat): nat
    requires base > 0
  {
    if n == 0 then v else Div(DroppedDigits(base, v, n - 1), base)
  }

  lemma {:induction false} ShiftedOut(base: nat, v: nat, n: nat)
    requires base > 0 && v < Space(base, n)
    ensures DroppedDigits(base, v, n) == 0
    decreases n
  {
    if n > 0 {
      ShiftInner(base, v, n - 1);
      DivAtLeast(v, base, Space(base, n - 1));
      ShiftedOut(base, Div(v, base), n - 1);
    }
  }

  lemma {:induction false} ShiftInner(base: nat, v: nat, n: nat)
    requires base > 0
    ensures DroppedDigits(base, v, n + 1) == DroppedDigits(base, Div(v, base), n)
  {
    if n > 0 { ShiftInner(base, v, n - 1); }
  }

  /** PrefixRangeMapper::RangeStartKey: the eight bytes of the wrapped product, highest first. */
  method PrefixStartKey(range: RangeId, size: nat) returns (k: seq<Byte>)
    ensures |k| == PREFIX_BYTES && Value(256, k, PREFIX_BYTES) == Wrap64(range * SizeOrOne(size))
  {
    var v := Wrap64(range * SizeOrOne(size));
    PrefixSpaceIs64Bits();
    ShiftedOut(256, v, 8);
    k := [];
    var i := 0;
    while i < 8
      invariant 0 <= i <= 8 && |k| == i
      invariant DroppedDigits(256, v, 8 - i) == Value(256, k, i)
    {
      var d := DroppedDigits(256, v, 7 - i) % 256;
      DivIsDivision(DroppedDigits(256, v, 7 - i), 256);
      AppendSnoc(256, 0, k, d);
      k := k + [d];
      i := i + 1;
    }
  }

  /** Byte order implies range order, for all byte strings. */
  lemma PrefixMonotone(a: seq<Byte>, b: seq<Byte>, size: nat)
    requires LexLe(a, b)
    ensures PrefixRange(a, size) <= PrefixRange(b, size)
  {
    ValueMonotone(256, a, b, PREFIX_BYTES);
    DivMonotone(Value(256, a, PREFIX_BYTES), Value(256, b, PREFIX_BYTES), SizeOrOne(size));
  }

  /** What PrefixStartKey returns. */
  predicate IsPrefixStart(s: seq<int>, range: RangeId, size: nat) {
    |s| == PREFIX_BYTES && DigitsOf(256, s) && Value(256, s, PREFIX_BYTES) == Wrap64(range * SizeOrOne(size))
  }

  /**
    Scanning [start(i), start(j + 1)) visits exactly the keys of ranges i..j, over all keys of at
    least eight bytes, if and only if (j + 1) * size is still a uint64_t. Otherwise the limit wraps.
   */
  lemma PrefixScan(i: RangeId, j: RangeId, size: nat, start: seq<int>, limit: seq<int>)
    requires i <= j && j * SizeOrOne(size) < TWO64
    requires IsPrefixStart(start, i, size) && IsPrefixStart(limit, j + 1, size)
    ensures (j + 1) * SizeOrOne(size) < TWO64 <==>
      forall k: seq<Byte> :: |k| >= PREFIX_BYTES ==> (InScan(k, start, limit) <==> i <= PrefixRange(k, size) <= j)
  {
    PrefixSpaceIs64Bits();
    var z := SizeOrOne(size);
    MulMonotone(i, j, z);
    WrapSmall(i * z);
    if (j + 1) * z < TWO64 {
      WrapSmall((j + 1) * z);
      forall k: seq<Byte> | |k| >= PREFIX_BYTES
        ensures InScan(k, start, limit) <==> i <= PrefixRange(k, size) <= j
      {
        ScanExact(256, PREFIX_BYTES, z, i, j, start, limit, k);
      }
    } else {
      var k := ScanMissesTopKey(256, PREFIX_BYTES, z, i, j, start, limit);
      var bytes: seq<Byte> := AsBytes(k);
      assert |bytes| >= PREFIX_BYTES && !InScan(bytes, start, limit) && i <= PrefixRange(bytes, size) <= j;
    }
  }

  function AsBytes(s: seq<int>): (r: seq<Byte>)
    requires DigitsOf(256, s)
    ensures r == s
  {
    seq(|s|, i requires 0 <= i < |s| => s[i])
  }

  // ----- the decimal mapper -------------------------------------------------------------------

  const ZERO: int := 48  // '0'

  predicate AllDigits(key: seq<int>) {
    forall i :: 0 <= i < |key| ==> ZERO <= key[i] <= ZERO + 9
  }

  /** The numeric digits of the leading run of digit characters; Map stops at the first other one. */
  function LeadingDigits(key: seq<int>): (ds: seq<int>)
    ensures DigitsOf(10, ds) && |ds| <= |key|
    ensures AllDigits(key) ==> |ds| == |key|
    ensures forall i :: 0 <= i < |ds| ==> ds[i] == key[i] - ZERO
    ensures |ds| < |key| ==> !(ZERO <= key[|ds|] <= ZERO + 9)
  {
    if key == [] || !(ZERO <= key[0] <= ZERO + 9) then []
    else [key[0] - ZERO] + LeadingDigits(key[1..])
  }

  function WidthOrDefault(width: int): (w: nat)
    ensures w > 0
  {
    if width > 0 then width else 16
  }

  /** What the constructors make of a size or width that is not given. */
  lemma MapperDefaults(size: nat, width: int)
    ensures SizeOrOne(size) == Max(size, 1)
    ensures (width >= 1 ==> WidthOrDefault(width) == width) && (width < 1 ==> WidthOrDefault(width) == 16)
  {
  }

  /** Restored to the width, then reduced to a uint64_t, then divided. */
  function DecimalRange(key: seq<int>, size: nat, width: int): RangeId {
    var ds := LeadingDigits(key);
    Div(Wrap64(Value(10, ds, Max(|ds|, WidthOrDefault(width)))), SizeOrOne(size))
  }

  lemma WrapStep(x: nat, d: nat)
    ensures Wrap64(Wrap64(x) * 10 + d) == Wrap64(x * 10 + d)
  {
    var w, k := Wrap64(x), x / TWO64;
    var q, r := (w * 10 + d) / TWO64, (w * 10 + d) % TWO64;
    WrapIs(w * 10 + d, q, r);
    WrapIs(x * 10 + d, 10 * k + q, r);
  }

  /** Digits pushed one by one into a uint64_t. */
  function Pushed(v: nat, ds: seq<int>): nat
    requires DigitsOf(10, ds)
  {
    if ds == [] then v else Wrap64(Pushed(v, ds[..|ds| - 1]) * 10 + ds[|ds| - 1])
  }

  lemma {:induction false} PushedIsValue(ds: seq<int>)
    requires DigitsOf(10, ds)
    ensures Pushed(0, ds) == Wrap64(Value(10, ds, |ds|))
  {
    if ds != [] {
      var init, d := ds[..|ds| - 1], ds[|ds| - 1];
      PushedIsValue(init);
      WrapStep(Value(10, init, |init|), d);
      AppendSnoc(10, 0, init, d);
      assert init + [d] == ds;
    }
  }

  /** The first loop of DecimalRangeMapper::Map: up to the first character that is no digit. */
  method ReadDigits(key: seq<int>) returns (v: nat, digits: nat)
    ensures digits == |LeadingDigits(key)|
    ensures v == Wrap64(Value(10, LeadingDigits(key), digits))
  {
    ghost var ds := LeadingDigits(key);
    v, digits := 0, 0;
    while digits < |key| && ZERO <= key[digits] <= ZERO + 9
      invariant 0 <= digits <= |ds|
      invariant v == Pushed(0, ds[..digits])
    {
      assert ds[..digits + 1][..digits] == ds[..digits];
      v := Wrap64(v * 10 + (key[digits] - ZERO));
      digits := digits + 1;
    }
    assert ds[..digits] == ds;
    PushedIsValue(ds);
  }

  /** The second loop: a short key is padded on the right. */
  method PadDigits(v0: nat, ghost x0: nat, digits: nat, width: nat) returns (v: nat)
    requires v0 == Wrap64(x0)
    ensures v == Wrap64(Append(10, x0, [], Max(digits, width) - digits))
  {
    v := v0;
    ghost var x := x0;
    var i := digits;
    while i < width
      invariant digits <= i && (i <= width || i == digits)
      invariant v == Wrap64(x)
      invariant i <= width ==> Append(10, x, [], width - i) == Append(10, x0, [], width - digits)
      invariant i > width ==> x == x0
    {
      WrapStep(x, 0);
      v := Wrap64(v * 10);
      x := x * 10;
      i := i + 1;
    }
  }

  lemma {:induction false} AppendSplit(base: nat, v: nat, ds: seq<int>, more: seq<int>, n: nat, total: nat)
    requires DigitsOf(base, ds) && DigitsOf(base, more) && total == |ds| + n
    ensures Append(base, v, ds + more, total) == Append(base, Append(base, v, ds, |ds|), more, n)
    decreases ds
  {
    if ds == [] {
      assert ds + more == more;
    } else {
      assert (ds + more)[1..] == ds[1..] + more;
      AppendSplit(base, v * base + ds[0], ds[1..], more, n, total - 1);
    }
  }

  lemma PaddedValue(ds: seq<int>, n: nat, total: nat)
    requires DigitsOf(10, ds) && total == |ds| + n
    ensures Value(10, ds, total) == Append(10, Value(10, ds, |ds|), [], n)
  {
    AppendSplit(10, 0, ds, [], n, total);
    assert ds + [] == ds;
  }

  /** DecimalRangeMapper::Map. */
  method DecimalMap(key: seq<int>, size: nat, width: int) returns (r: RangeId)
    ensures r == DecimalRange(key, size, width)
  {
    var w := WidthOrDefault(width);
    ghost var ds := LeadingDigits(key);
    var v, digits := ReadDigits(key);
    ghost var x := Value(10, ds, |ds|);
    PaddedValue(ds, Max(|ds|, w) - |ds|, Max(|ds|, w));
    v := PadDigits(v, x, digits, w);
    r := Quotient(v, SizeOrOne(size));
  }

  /** The widths at which a padded key fits a uint64_t. */
  lemma NineteenDigitsFit(w: nat)
    requires w <= 19
    ensures Space(10, w) < TWO64
  {
    SpaceGrows(10, w, 19);
    assert Space(10, 10) == 100_0000_0000;
  }

  lemma {:induction false} SpaceGrows(base: nat, i: nat, j: nat)
    requires base > 0 && i <= j
    ensures 0 < Space(base, i) <= Space(base, j)
    decreases j
  {
    if i < j {
      SpaceGrows(base, i, j - 1);
    } else if i > 0 {
      SpaceGrows(base, i - 1, j - 1);
    }
  }

  lemma {:induction false} LexSameDigits(a: seq<int>, b: seq<int>)
    requires AllDigits(a) && AllDigits(b)
    ensures LexLe(a, b) <==> LexLe(LeadingDigits(a), LeadingDigits(b))
  {
    if a != [] && b != [] { LexSameDigits(a[1..], b[1..]); }
  }

  /** The number of a key whose digits fit the width. */
  function Number(key: seq<int>, width: int): nat {
    Value(10, LeadingDigits(key), WidthOrDefault(width))
  }

  /** A number of 64 bits does not wrap. */
  lemma DecimalRangeFits(key: seq<int>, size: nat, width: int)
    requires |LeadingDigits(key)| <= WidthOrDefault(width) && Number(key, width) < TWO64
    ensures DecimalRange(key, size, width) == Div(Number(key, width), SizeOrOne(size))
  {
    assert Max(|LeadingDigits(key)|, WidthOrDefault(width)) == WidthOrDefault(width);
    WrapSmall(Number(key, width));
  }

  lemma NineteenDigitsAreNumbers(key: seq<int>, width: int)
    requires WidthOrDefault(width) <= 19
    ensures Number(key, width) < TWO64
  {
    NineteenDigitsFit(WidthOrDefault(width));
    ValueBound(10, LeadingDigits(key), WidthOrDefault(width));
  }

  /** The digits end early, at a character above '9'. */
  predicate StopsAbove(key: seq<int>, w: nat) {
    var n := |LeadingDigits(key)|;
    n < w && n < |key| && key[n] > ZERO + 9
  }

  lemma AfterFirstDigit(key: seq<int>, w: nat)
    requires LeadingDigits(key) != [] && w > 0
    ensures LeadingDigits(key) == [key[0] - ZERO] + LeadingDigits(key[1..])
    ensures StopsAbove(key, w) <==> StopsAbove(key[1..], w - 1)
  {
    var ds := LeadingDigits(key[1..]);
    assert |LeadingDigits(key)| == |ds| + 1;
    if |ds| < |key| - 1 { assert key[1..][|ds|] == key[|ds| + 1]; }
  }

  lemma {:induction false} DigitsInOrder(a: seq<int>, b: seq<int>, n: nat)
    requires LexLe(a, b) && |LeadingDigits(a)| <= n && |LeadingDigits(b)| <= n && !StopsAbove(b, n)
    ensures LexLe(LeadingDigits(a), LeadingDigits(b))
    decreases n
  {
    var da, db := LeadingDigits(a), LeadingDigits(b);
    if da != [] {
      AfterFirstDigit(a, n);
      AfterFirstDigit(b, n);
      assert da[1..] == LeadingDigits(a[1..]) && db[1..] == LeadingDigits(b[1..]);
      if a[0] == b[0] { DigitsInOrder(a[1..], b[1..], n - 1); }
    }
  }

  lemma NumbersInOrder(a: seq<int>, b: seq<int>, width: int)
    requires |LeadingDigits(a)| <= WidthOrDefault(width) && |LeadingDigits(b)| <= WidthOrDefault(width)
    requires LexLe(a, b) && !StopsAbove(b, WidthOrDefault(width))
    ensures Number(a, width) <= Number(b, width)
  {
    DigitsInOrder(a, b, WidthOrDefault(width));
    ValueMonotone(10, LeadingDigits(a), LeadingDigits(b), WidthOrDefault(width));
  }

  /** Byte order implies range order, for any bytes after the digits of `a` and for 64-bit numbers. */
  lemma DecimalKeepsOrder(a: seq<int>, b: seq<int>, size: nat, width: int)
    requires |LeadingDigits(a)| <= WidthOrDefault(width) && |LeadingDigits(b)| <= WidthOrDefault(width)
    requires LexLe(a, b) && !StopsAbove(b, WidthOrDefault(width)) && Number(b, width) < TWO64
    ensures DecimalRange(a, size, width) <= DecimalRange(b, size, width)
  {
    NumbersInOrder(a, b, width);
    DecimalRangeFits(a, size, width);
    DecimalRangeFits(b, size, width);
    DivMonotone(Number(a, width), Number(b, width), SizeOrOne(size));
  }

  /**
    A shortened separator s between a block's last key a and the next block's first key c maps
    between them; and the order is only weakly kept when s is a proper prefix of c.
   */
  lemma DecimalSeparator(a: seq<int>, s: seq<int>, c: seq<int>, size: nat, width: int)
    requires AllDigits(a) && AllDigits(s) && AllDigits(c)
    requires |a| == |c| == WidthOrDefault(width) && |s| <= |c| && Number(c, width) < TWO64
    requires LexLe(a, s) && LexLt(s, c)
    ensures DecimalRange(a, size, width) <= DecimalRange(s, size, width) <= DecimalRange(c, size, width)
  {
    LexTotal(s, c);
    NumbersInOrder(s, c, width);
    DecimalKeepsOrder(a, s, size, width);
    DecimalKeepsOrder(s, c, size, width);
  }

  // ----- exactly when the decimal mapper keeps order -----------------------------------------

  /** Byte order implies range order on all digit strings of up to `length` characters. */
  ghost predicate KeepsOrder(size: nat, width: int, length: nat) {
    forall a, b :: OrderedDigits(a, b, length) ==> DecimalRange(a, size, width) <= DecimalRange(b, size, width)
  }

  predicate OrderedDigits(a: seq<int>, b: seq<int>, length: nat) {
    AllDigits(a) && AllDigits(b) && |a| <= length && |b| <= length && LexLe(a, b)
  }

  function Text(ds: seq<int>): (text: seq<int>)
    requires DigitsOf(10, ds)
    ensures |text| == |ds| && AllDigits(text)
  {
    seq(|ds|, i requires 0 <= i < |ds| => ds[i] + ZERO)
  }

  lemma TextReadsBack(ds: seq<int>)
    requires DigitsOf(10, ds)
    ensures LeadingDigits(Text(ds)) == ds
  {
  }

  lemma TwentyDigitsDoNotFit(w: nat)
    requires w >= 20
    ensures Space(10, w) > 2 * TWO64
  {
    SpaceGrows(10, 20, w);
    assert Space(10, 10) == 100_0000_0000;
    assert Space(10, 20) == 1_0000_0000_0000_0000_0000;
  }

  /** The full-width key of a number. */
  lemma KeyOfNumber(v: nat, width: int) returns (k: seq<int>)
    requires v < Space(10, WidthOrDefault(width))
    ensures AllDigits(k) && |k| == WidthOrDefault(width) && Number(k, width) == v
  {
    var ds := Numeral(10, v, WidthOrDefault(width));
    NumeralRoundTrip(10, v, WidthOrDefault(width));
    TextReadsBack(ds);
    k := Text(ds);
  }

  lemma NumbersOrderKeys(a: seq<int>, b: seq<int>, width: int)
    requires AllDigits(a) && AllDigits(b) && |a| == |b| == WidthOrDefault(width)
    ensures LexLe(a, b) <==> Number(a, width) <= Number(b, width)
  {
    LexSameDigits(a, b);
    BoundIsNumeric(10, LeadingDigits(b), LeadingDigits(a), WidthOrDefault(width));
  }

  /** The number a key of digits stands for, before it is reduced to 64 bits. */
  function Reading(key: seq<int>, width: int): nat {
    Value(10, LeadingDigits(key), Max(|LeadingDigits(key)|, WidthOrDefault(width)))
  }

  lemma RangeOfReading(key: seq<int>, size: nat, width: int)
    ensures DecimalRange(key, size, width) == Div(Wrap64(Reading(key, width)), SizeOrOne(size))
    ensures Reading(key, width) < TWO64 ==>
      DecimalRange(key, size, width) == Div(Reading(key, width), SizeOrOne(size))
  {
    WrapSmall(Reading(key, width));
  }

  /** A number's key of n digits, at least the width. */
  lemma LongKeyOfNumber(v: nat, n: nat, width: int) returns (k: seq<int>)
    requires v < Space(10, n) && n >= WidthOrDefault(width)
    ensures AllDigits(k) && |k| == n && LeadingDigits(k) == Numeral(10, v, n)
    ensures Value(10, LeadingDigits(k), n) == Reading(k, width) == v
  {
    var ds := Numeral(10, v, n);
    NumeralRoundTrip(10, v, n);
    TextReadsBack(ds);
    k := Text(ds);
  }

  /** From 20 digits on, 2^64 - 1 and 2^64 are keys in order that map the other way round. */
  lemma OrderFailsBeyond64Bits(size: nat, width: int, length: nat)
    requires length >= 20 && length >= WidthOrDefault(width) && size < TWO64
    ensures !KeepsOrder(size, width, length)
  {
    var n, z := Max(20, WidthOrDefault(width)), SizeOrOne(size);
    TwentyDigitsDoNotFit(n);
    var a := LongKeyOfNumber(TWO64 - 1, n, width);
    var b := LongKeyOfNumber(TWO64, n, width);
    LexSameDigits(a, b);
    BoundIsNumeric(10, LeadingDigits(b), LeadingDigits(a), n);
    RangeOfReading(a, size, width);
    RangeOfReading(b, size, width);
    DivAtLeast(TWO64 - 1, z, 1);
    assert Wrap64(TWO64) == 0;
    assert OrderedDigits(a, b, length);
  }

  /**
    For every 64-bit range size, byte order implies range order on all digit strings up to the width if
    and only if the width is at most 19.
   */
  lemma DecimalMonotoneIff(size: nat, width: int)
    requires size < TWO64
    ensures KeepsOrder(size, width, WidthOrDefault(width)) <==> WidthOrDefault(width) <= 19
  {
    if WidthOrDefault(width) <= 19 {
      forall a, b | OrderedDigits(a, b, WidthOrDefault(width))
        ensures DecimalRange(a, size, width) <= DecimalRange(b, size, width)
      {
        NineteenDigitsAreNumbers(b, width);
        DecimalKeepsOrder(a, b, size, width);
      }
    } else {
      OrderFailsBeyond64Bits(size, width, WidthOrDefault(width));
    }
  }

  // ----- keys longer than the width -------------------------------------------------------------

  lemma {:induction false} LexAntisymmetric(a: seq<int>, b: seq<int>)
    requires LexLe(a, b) && LexLe(b, a)
    ensures a == b
  {
    if a != [] {
      LexAntisymmetric(a[1..], b[1..]);
      assert a == [a[0]] + a[1..] && b == [b[0]] + b[1..];
    }
  }

  lemma {:induction false} PadGap(v: nat, m: nat)
    requires m >= 1
    ensures Append(10, v, [], m) + 10 <= Append(10, v + 1, [], m)
  {
    PadOne(10, v, m - 1);
    PadOne(10, v + 1, m - 1);
    LeadDecides(10, v, [], v + 1, [], m - 1);
  }

  lemma {:induction false} SpacePad(n: nat, m: nat)
    ensures Append(10, Space(10, n), [], m) == Space(10, n + m)
  {
    if m > 0 {
      SpacePad(n, m - 1);
      PadOne(10, Space(10, n), m - 1);
    }
  }

  lemma SpaceAtLeastTen(n: nat)
    requires n >= 1
    ensures Space(10, n) >= 10
  {
    SpaceGrows(10, 0, n - 1);
  }

  /** Only the first digits count ... */
  lemma ValueOfPrefix(lead: seq<int>, more: seq<int>)
    requires DigitsOf(10, lead) && DigitsOf(10, more)
    ensures Value(10, lead + more, |lead|) == Value(10, lead, |lead|)
  {
    AppendSplit(10, 0, lead, more, 0, |lead|);
  }

  /** ... and the others are appended. */
  lemma ValueOfAll(lead: seq<int>, more: seq<int>, all: seq<int>, n: nat)
    requires DigitsOf(10, lead) && DigitsOf(10, more) && all == lead + more && n == |lead| + |more|
    ensures Value(10, all, n) == Append(10, Value(10, lead, |lead|), more, |more|)
  {
    var v := Append(10, 0, lead, |lead|);
    AppendSplit(10, 0, lead, more, |more|, n);
    assert Append(10, 0, all, n) == Append(10, v, more, |more|);
  }

  lemma GapBelowSpace(x: nat, more: seq<int>, n: nat, m: nat)
    requires x + 2 <= Space(10, n) && DigitsOf(10, more) && m >= 1
    ensures Append(10, x, more, m) + 10 < Space(10, n + m)
  {
    LeadDecides(10, x, more, x + 1, [], m);
    PadGap(x + 1, m);
    SpacePad(n, m);
    if x + 2 < Space(10, n) { LeadDecides(10, x + 2, [], Space(10, n), [], m); }
  }

  /** L digits that come before fewer than L digits are not among the ten largest. */
  lemma PrefixGap(a: seq<int>, b: seq<int>)
    requires DigitsOf(10, a) && DigitsOf(10, b) && |b| < |a| && LexLe(a, b)
    ensures Value(10, a, |a|) + 10 < Space(10, |a|)
  {
    var lead, more := a[..|b|], a[|b|..];
    assert a == lead + more;
    LeadIsLess(a, b);
    ValueOfPrefix(lead, more);
    ValueOfAll(lead, more, a, |a|);
    GapBelowSpace(Value(10, lead, |lead|), more, |b|, |more|);
  }

  lemma LeadIsLess(a: seq<int>, b: seq<int>)
    requires DigitsOf(10, a) && DigitsOf(10, b) && |b| < |a| && LexLe(a, b)
    ensures Value(10, a, |b|) + 2 <= Space(10, |b|)
  {
    if LexLe(b, a) { LexAntisymmetric(a, b); }
    BoundIsNumeric(10, a, b, |b|);
    ValueBound(10, b, |b|);
  }

  /** 9..989, in digits: n - 1 nines and an 8, which stand for 10^n - 2, and a 9. */
  lemma LongDigits(n: nat) returns (ds: seq<int>)
    requires n >= 1
    ensures DigitsOf(10, ds) && |ds| == n + 1
    ensures Value(10, ds, n) == Space(10, n) - 2 && Value(10, ds, n + 1) == Space(10, n + 1) - 11
  {
    SpaceAtLeastTen(n);
    var lead := Numeral(10, Space(10, n) - 2, n);
    NumeralRoundTrip(10, Space(10, n) - 2, n);
    AppendSnoc(10, 0, lead, 9);
    ValueOfPrefix(lead, [9]);
    ds := lead + [9];
  }

  /** The keys 9..989, of L digits, and 9..9, of L - 1 digits: in order, and 10^L - 11 against 10^(L-1) - 1. */
  lemma LongAndShort(length: nat, width: int) returns (long: seq<int>, short: seq<int>)
    requires WidthOrDefault(width) < length
    ensures OrderedDigits(long, short, length)
    ensures Reading(long, width) == Space(10, length) - 11 && Reading(short, width) == Space(10, length - 1) - 1
  {
    var n := length - 1;
    SpaceAtLeastTen(n);
    short := LongKeyOfNumber(Space(10, n) - 1, n, width);
    var ds := LongDigits(n);
    TextReadsBack(ds);
    long := Text(ds);
    BoundIsNumeric(10, ds, LeadingDigits(short), n);
    LexTotal(ds, LeadingDigits(short));
    LexSameDigits(long, short);
  }

  lemma QuotientsDiffer(s: nat, z: nat)
    requires s >= 10 && 0 < z <= 10 * s - 11
    ensures Div(10 * s - 11, z) > Div(s - 1, z)
  {
    var q := Div(s - 1, z);
    DivAtLeast(s - 1, z, q);
    OneMoreTimes(q, z);
    if q > 0 { MulMonotone(1, q, z); }
    DivAtLeast(10 * s - 11, z, q + 1);
  }

  lemma OneMoreTimes(q: nat, z: nat)
    ensures (q + 1) * z == q * z + z
  {
  }

  lemma LongKeysFail(size: nat, width: int, length: nat)
    requires WidthOrDefault(width) < length <= 19 && SizeOrOne(size) <= Space(10, length) - 11
    ensures !KeepsOrder(size, width, length)
  {
    var long, short := LongAndShort(length, width);
    LongSpaces(length);
    RangeOfReading(long, size, width);
    RangeOfReading(short, size, width);
    var lead := Space(10, length - 1);
    QuotientsDiffer(lead, SizeOrOne(size));
    assert Reading(long, width) == 10 * lead - 11 && Reading(short, width) == lead - 1;
    assert DecimalRange(long, size, width) > DecimalRange(short, size, width);
  }

  lemma LongSpaces(length: nat)
    requires 2 <= length <= 19
    ensures 10 <= Space(10, length - 1) && Space(10, length) == 10 * Space(10, length - 1) < TWO64
  {
    NineteenDigitsFit(length);
    SpaceAtLeastTen(length - 1);
  }

  /** A reading among the ten largest is one of all the digits. */
  lemma LargeReadingIsLong(a: seq<int>, width: int, length: nat)
    requires AllDigits(a) && |a| <= length && WidthOrDefault(width) < length
    requires Reading(a, width) >= Space(10, length) - 10
    ensures |a| == length
  {
    var n := Max(|a|, WidthOrDefault(width));
    ValueBound(10, LeadingDigits(a), n);
    if |a| < length {
      SpaceGrows(10, n, length - 1);
      SpaceAtLeastTen(length - 1);
    }
  }

  /** With ranges that large, only the ten largest keys can be outside range 0, and these are in order. */
  lemma LongKeysInOrder(a: seq<int>, b: seq<int>, size: nat, width: int, length: nat)
    requires WidthOrDefault(width) < length <= 19 && SizeOrOne(size) > Space(10, length) - 11
    requires OrderedDigits(a, b, length)
    ensures DecimalRange(a, size, width) <= DecimalRange(b, size, width)
  {
    ReadingFits(a, width, length);
    ReadingFits(b, width, length);
    RangeOfReading(a, size, width);
    RangeOfReading(b, size, width);
    if Reading(a, width) >= SizeOrOne(size) {
      LongReadingsInOrder(a, b, width, length);
      DivMonotone(Reading(a, width), Reading(b, width), SizeOrOne(size));
    }
  }

  lemma LongReadingsInOrder(a: seq<int>, b: seq<int>, width: int, length: nat)
    requires WidthOrDefault(width) < length && OrderedDigits(a, b, length)
    requires Reading(a, width) >= Space(10, length) - 10
    ensures Reading(a, width) <= Reading(b, width)
  {
    LargeReadingIsLong(a, width, length);
    LexSameDigits(a, b);
    ReadingOfLong(a, width, length);
    LastDigitsInOrder(LeadingDigits(a), LeadingDigits(b), length);
    ReadingOfLong(b, width, length);
  }

  lemma ReadingOfLong(a: seq<int>, width: int, length: nat)
    requires AllDigits(a) && |a| == length > WidthOrDefault(width)
    ensures Reading(a, width) == Value(10, LeadingDigits(a), length)
  {
    assert Max(|LeadingDigits(a)|, WidthOrDefault(width)) == length;
  }

  /** After one of the ten largest strings of digits come only strings of as many digits. */
  lemma LastDigitsInOrder(a: seq<int>, b: seq<int>, length: nat)
    requires DigitsOf(10, a) && DigitsOf(10, b) && |a| == length >= |b| && LexLe(a, b)
    requires Value(10, a, length) >= Space(10, length) - 10
    ensures |b| == length && Value(10, a, length) <= Value(10, b, length)
  {
    if |b| < |a| { PrefixGap(a, b); }
    ValueMonotone(10, a, b, length);
  }

  lemma ReadingFits(a: seq<int>, width: int, length: nat)
    requires AllDigits(a) && |a| <= length <= 19 && WidthOrDefault(width) <= length
    ensures Reading(a, width) < Space(10, length) < TWO64
  {
    var n := Max(|a|, WidthOrDefault(width));
    ValueBound(10, LeadingDigits(a), n);
    SpaceGrows(10, n, length);
    NineteenDigitsFit(length);
  }

  /**
    Keys may be longer than the width. For every 64-bit range size, order is kept on digit strings of
    up to `length` characters, the width or more, if and only if that is at most 19, and is the width
    or ranges are larger than 10^length - 11.
   */
  lemma DecimalOrderNeedsWidth(size: nat, width: int, length: nat)
    requires length >= WidthOrDefault(width) && size < TWO64
    ensures KeepsOrder(size, width, length) <==>
      length <= 19 && (length == WidthOrDefault(width) || SizeOrOne(size) > Space(10, length) - 11)
  {
    if length >= 20 {
      OrderFailsBeyond64Bits(size, width, length);
    } else if length == WidthOrDefault(width) {
      DecimalMonotoneIff(size, width);
    } else if SizeOrOne(size) <= Space(10, length) - 11 {
      LongKeysFail(size, width, length);
    } else {
      forall a, b | OrderedDigits(a, b, length)
        ensures DecimalRange(a, size, width) <= DecimalRange(b, size, width)
      {
        LongKeysInOrder(a, b, size, width, length);
      }
    }
  }

  // ----- keys with other characters ---------------------------------------------------------------

  /** `a` comes before `b` and has no more digits than the width. */
  predicate Before(a: seq<int>, b: seq<int>, w: nat) {
    |LeadingDigits(a)| <= w && LexLe(a, b)
  }

  function Nines(m: nat): (ds: seq<int>)
    ensures |ds| == m && DigitsOf(10, ds) && forall i :: 0 <= i < m ==> ds[i] == 9
  {
    seq(m, i => 9)
  }

  lemma {:induction false} NinesAreLast(ds: seq<int>, m: nat)
    requires DigitsOf(10, ds) && |ds| <= m
    ensures LexLe(ds, Nines(m))
  {
    if ds != [] {
      assert Nines(m)[1..] == Nines(m - 1);
      NinesAreLast(ds[1..], m - 1);
    }
  }

  lemma {:induction false} NinesValue(v: nat, m: nat)
    ensures Append(10, v, Nines(m), m) + 1 == Append(10, v + 1, [], m)
    decreases m
  {
    if m > 0 {
      assert Nines(m)[1..] == Nines(m - 1);
      NinesValue(v * 10 + 9, m - 1);
      assert v * 10 + 9 + 1 == (v + 1) * 10;
    }
  }

  lemma FirstDecides(x: int, xs: seq<int>, y: int, ys: seq<int>)
    requires x < y || (x == y && LexLe(xs, ys))
    ensures LexLe([x] + xs, [y] + ys)
  {
    assert ([x] + xs)[1..] == xs && ([y] + ys)[1..] == ys;
  }

  /** A key before b has digits no later than b's followed by nines. */
  lemma {:induction false} DigitsBeforeNines(a: seq<int>, b: seq<int>, m: nat)
    requires LexLe(a, b) && |LeadingDigits(a)| <= |LeadingDigits(b)| + m
    ensures LexLe(LeadingDigits(a), LeadingDigits(b) + Nines(m))
    decreases |b|
  {
    var da, db := LeadingDigits(a), LeadingDigits(b);
    if db == [] {
      assert db + Nines(m) == Nines(m);
      NinesAreLast(da, m);
    } else if da != [] {
      AfterFirstDigit(a, |da|);
      AfterFirstDigit(b, |db|);
      var ta, tb := LeadingDigits(a[1..]), LeadingDigits(b[1..]);
      if a[0] == b[0] { DigitsBeforeNines(a[1..], b[1..], m); }
      assert db + Nines(m) == [b[0] - ZERO] + (tb + Nines(m));
      FirstDecides(a[0] - ZERO, ta, b[0] - ZERO, tb + Nines(m));
    }
  }

  lemma {:induction false} SamePrefix(p: seq<int>, x: seq<int>, y: seq<int>)
    requires LexLe(x, y)
    ensures LexLe(p + x, p + y)
  {
    if p == [] {
      assert p + x == x && p + y == y;
    } else {
      SamePrefix(p[1..], x, y);
      FirstDecides(p[0], p[1..] + x, p[0], p[1..] + y);
      assert [p[0]] + (p[1..] + x) == p + x && [p[0]] + (p[1..] + y) == p + y;
    }
  }

  lemma NinesBeforeStop(b: seq<int>, w: nat, m: nat) returns (a: seq<int>)
    requires StopsAbove(b, w) && m >= 1
    ensures LexLe(a, b) && LeadingDigits(a) == LeadingDigits(b) + Nines(m)
  {
    var ds, nines := LeadingDigits(b), Nines(m);
    a := Text(ds + nines);
    TextReadsBack(ds + nines);
    TextConcat(ds, nines);
    TextOfLead(b);
    NineBelow(b, w, m);
    SamePrefix(Text(ds), Text(nines), b[|ds|..]);
  }

  lemma NineBelow(b: seq<int>, w: nat, m: nat)
    requires StopsAbove(b, w) && m >= 1
    ensures LexLe(Text(Nines(m)), b[|LeadingDigits(b)|..])
  {
    assert Text(Nines(m))[0] == ZERO + 9 < b[|LeadingDigits(b)|..][0];
  }

  lemma TextConcat(ds: seq<int>, more: seq<int>)
    requires DigitsOf(10, ds) && DigitsOf(10, more)
    ensures Text(ds + more) == Text(ds) + Text(more)
  {
  }

  lemma {:induction false} TextOfLead(b: seq<int>)
    ensures b == Text(LeadingDigits(b)) + b[|LeadingDigits(b)|..]
  {
    var ds := LeadingDigits(b);
    TextOfPrefix(b, ds, |ds|);
    assert b == b[..|ds|] + b[|ds|..];
  }

  lemma TextOfPrefix(b: seq<int>, ds: seq<int>, n: nat)
    requires DigitsOf(10, ds) && |ds| == n <= |b| && forall i :: 0 <= i < n ==> ds[i] == b[i] - ZERO
    ensures Text(ds) == b[..n]
  {
    assert forall i :: 0 <= i < n ==> Text(ds)[i] == b[i];
  }

  /** The digits of b, filled up with nines to the width. */
  function TopDigits(b: seq<int>, width: int): (ds: seq<int>)
    requires |LeadingDigits(b)| <= WidthOrDefault(width)
    ensures |ds| == WidthOrDefault(width) && DigitsOf(10, ds)
  {
    LeadingDigits(b) + Nines(WidthOrDefault(width) - |LeadingDigits(b)|)
  }

  /** The largest number with the digits of b in front. */
  function TopNumber(b: seq<int>, width: int): nat
    requires |LeadingDigits(b)| <= WidthOrDefault(width)
  {
    Value(10, TopDigits(b, width), WidthOrDefault(width))
  }

  lemma NinesFilled(ds: seq<int>, m: nat, total: nat)
    requires DigitsOf(10, ds) && total == |ds| + m
    ensures Value(10, ds + Nines(m), total) + 1 == Value(10, ds, total) + Space(10, m)
  {
    var x := Value(10, ds, |ds|);
    AppendSplit(10, 0, ds, Nines(m), m, total);
    PaddedValue(ds, m, total);
    NinesValue(x, m);
    PadNext(x, m);
  }

  /** With n digits in front that is the number plus 10^(w - n) - 1. */
  lemma TopNumberIs(b: seq<int>, width: int)
    requires |LeadingDigits(b)| <= WidthOrDefault(width)
    ensures TopNumber(b, width) + 1 == Number(b, width) + Space(10, WidthOrDefault(width) - |LeadingDigits(b)|)
  {
    var ds, w := LeadingDigits(b), WidthOrDefault(width);
    var m: nat := w - |ds|;
    NinesFilled(ds, m, w);
    assert TopDigits(b, width) == ds + Nines(m);
  }

  lemma {:induction false} PadNext(v: nat, m: nat)
    ensures Append(10, v + 1, [], m) == Append(10, v, [], m) + Space(10, m)
    decreases m
  {
    if m > 0 {
      PadOne(10, v, m - 1);
      PadOne(10, v + 1, m - 1);
      PadNext(v, m - 1);
    }
  }

  /** No key before b stands for more than b's digits filled up with nines. */
  lemma BeforeIsBelowTop(a: seq<int>, b: seq<int>, width: int)
    requires |LeadingDigits(b)| <= WidthOrDefault(width) && Before(a, b, WidthOrDefault(width))
    ensures Number(a, width) <= TopNumber(b, width)
  {
    DigitsBeforeNines(a, b, WidthOrDefault(width) - |LeadingDigits(b)|);
    ValueMonotone(10, LeadingDigits(a), TopDigits(b, width), WidthOrDefault(width));
  }

  /** The key with b's digits filled up with nines, where that is a key before b. */
  lemma TopKey(b: seq<int>, width: int) returns (a: seq<int>)
    requires StopsAbove(b, WidthOrDefault(width))
    ensures Before(a, b, WidthOrDefault(width)) && Number(a, width) == TopNumber(b, width)
  {
    var w := WidthOrDefault(width);
    a := NinesBeforeStop(b, w, w - |LeadingDigits(b)|);
    assert LeadingDigits(a) == TopDigits(b, width);
  }

  /**
    Keys may hold other characters than digits. No key before `b` maps above it if and only if the
    digits of `b` do not end early at a character above '9', or b's digits filled up with nines are
    still in b's range.
   */
  lemma DecimalOrderNeedsDigits(b: seq<int>, size: nat, width: int)
    requires |LeadingDigits(b)| <= WidthOrDefault(width) && TopNumber(b, width) < TWO64
    ensures (forall a :: Before(a, b, WidthOrDefault(width)) ==>
               DecimalRange(a, size, width) <= DecimalRange(b, size, width)) <==>
      !StopsAbove(b, WidthOrDefault(width)) ||
      Div(TopNumber(b, width), SizeOrOne(size)) == Div(Number(b, width), SizeOrOne(size))
  {
    var w, z := WidthOrDefault(width), SizeOrOne(size);
    NumberBelowTop(b, width);
    DecimalRangeFits(b, size, width);
    DivMonotone(Number(b, width), TopNumber(b, width), z);
    if StopsAbove(b, w) && Div(TopNumber(b, width), z) != Div(Number(b, width), z) {
      var a := TopKey(b, width);
      DecimalRangeFits(a, size, width);
    } else {
      forall a | Before(a, b, w) ensures DecimalRange(a, size, width) <= DecimalRange(b, size, width) {
        BeforeMapsBelow(a, b, size, width);
      }
    }
  }

  lemma {:induction false} LexReflexive(a: seq<int>)
    ensures LexLe(a, a)
  {
    if a != [] { LexReflexive(a[1..]); }
  }

  lemma NumberBelowTop(b: seq<int>, width: int)
    requires |LeadingDigits(b)| <= WidthOrDefault(width)
    ensures Number(b, width) <= TopNumber(b, width)
  {
    LexReflexive(b);
    BeforeIsBelowTop(b, b, width);
  }

  lemma BeforeMapsBelow(a: seq<int>, b: seq<int>, size: nat, width: int)
    requires |LeadingDigits(b)| <= WidthOrDefault(width) && TopNumber(b, width) < TWO64
    requires Before(a, b, WidthOrDefault(width))
    requires !StopsAbove(b, WidthOrDefault(width)) ||
      Div(TopNumber(b, width), SizeOrOne(size)) == Div(Number(b, width), SizeOrOne(size))
    ensures DecimalRange(a, size, width) <= DecimalRange(b, size, width)
  {
    NumberBelowTop(b, width);
    if !StopsAbove(b, WidthOrDefault(width)) {
      DecimalKeepsOrder(a, b, size, width);
    } else {
      BeforeIsBelowTop(a, b, width);
      DecimalRangeFits(a, size, width);
      DecimalRangeFits(b, size, width);
      DivMonotone(Number(a, width), TopNumber(b, width), SizeOrOne(size));
    }
  }

  /** At widths up to 19 all of this is 64 bits. */
  lemma TopFits(b: seq<int>, width: int)
    requires |LeadingDigits(b)| <= WidthOrDefault(width) <= 19
    ensures TopNumber(b, width) < TWO64
  {
    ValueBound(10, TopDigits(b, width), WidthOrDefault(width));
    NineteenDigitsFit(WidthOrDefault(width));
  }

  // ----- start keys and scans of the decimal mapper --------------------------------------------

  /** How many digits "%llu" prints for v. */
  function PrintedDigits(v: nat): (n: nat)
    ensures n > 0 && v < Space(10, n)
  {
    if v < 10 then
      assert Space(10, 1) == 10; 1
    else
      DivIsDivision(v, 10);
      1 + PrintedDigits(Div(v, 10))
  }

  /** snprintf("%0*llu", width, v): at least `width` digits, more when v needs them. */
  function ZeroPadded(v: nat, width: nat): (text: seq<int>)
    ensures |text| >= width && AllDigits(text)
    ensures v < Space(10, width) && PrintedDigits(v) <= width ==> |text| == width
  {
    Text(Numeral(10, v, Max(width, PrintedDigits(v))))
  }

  lemma {:induction false} PrintedDigitsMinimal(v: nat, n: nat)
    requires v < Space(10, n) && n > 0
    ensures PrintedDigits(v) <= n
  {
    if v >= 10 {
      assert Space(10, 1) == 10;
      DivIsDivision(v, 10);
      DivAtLeast(v, 10, Space(10, n - 1));
      PrintedDigitsMinimal(Div(v, 10), n - 1);
    }
  }

  /** DecimalRangeMapper::RangeStartKey: the first `width` characters of the padded number. */
  function DecimalStartKey(range: RangeId, size: nat, width: int): (k: seq<int>)
    ensures |k| == WidthOrDefault(width) && AllDigits(k)
  {
    ZeroPadded(Wrap64(range * SizeOrOne(size)), WidthOrDefault(width))[..WidthOrDefault(width)]
  }

  /** A number that has a numeral of the width is printed as that numeral. */
  lemma PaddedIsNumeral(v: nat, w: nat)
    requires v < Space(10, w) && w > 0
    ensures ZeroPadded(v, w)[..w] == Text(Numeral(10, v, w))
  {
    PrintedDigitsMinimal(v, w);
    assert Max(w, PrintedDigits(v)) == w;
    var text := Text(Numeral(10, v, w));
    assert text[..w] == text;
  }

  lemma StartDigits(range: RangeId, size: nat, width: int, v: nat)
    requires v == Wrap64(range * SizeOrOne(size)) && v < Space(10, WidthOrDefault(width))
    ensures LeadingDigits(DecimalStartKey(range, size, width)) == Numeral(10, v, WidthOrDefault(width))
    ensures Number(DecimalStartKey(range, size, width), width) == v
  {
    var w := WidthOrDefault(width);
    PaddedIsNumeral(v, w);
    TextReadsBack(Numeral(10, v, w));
    NumeralRoundTrip(10, v, w);
  }

  /** The range's first number is 64 bits and has a numeral of the width. */
  predicate Representable(range: RangeId, size: nat, width: int) {
    range * SizeOrOne(size) < TWO64 && range * SizeOrOne(size) < Space(10, WidthOrDefault(width))
  }

  /** For a representable range, at any width, the start key reads back as the range's first number. */
  lemma DecimalStartValue(range: RangeId, size: nat, width: int)
    requires Representable(range, size, width)
    ensures Number(DecimalStartKey(range, size, width), width) == range * SizeOrOne(size)
    ensures DecimalRange(DecimalStartKey(range, size, width), size, width) == range
  {
    var v := range * SizeOrOne(size);
    WrapSmall(v);
    StartDigits(range, size, width, v);
    DivExact(range, SizeOrOne(size), 0);
    DecimalRangeFits(DecimalStartKey(range, size, width), size, width);
  }

  lemma DecimalInScanByDigits(k: seq<int>, start: seq<int>, limit: seq<int>)
    requires AllDigits(k) && AllDigits(start) && AllDigits(limit)
    ensures InScan(k, start, limit) <==> InScan(LeadingDigits(k), LeadingDigits(start), LeadingDigits(limit))
  {
    LexSameDigits(start, k);
    LexSameDigits(limit, k);
  }

  /** A full-width 64-bit key is in the scan of ranges i..j iff it is in one of them, while j's end is representable. */
  lemma DecimalScanOfKey(i: RangeId, j: RangeId, size: nat, width: int, k: seq<int>)
    requires i <= j && Representable(j + 1, size, width)
    requires AllDigits(k) && |k| == WidthOrDefault(width) && Number(k, width) < TWO64
    ensures InScan(k, DecimalStartKey(i, size, width), DecimalStartKey(j + 1, size, width)) <==>
      i <= DecimalRange(k, size, width) <= j
  {
    var w, z := WidthOrDefault(width), SizeOrOne(size);
    var start, limit := DecimalStartKey(i, size, width), DecimalStartKey(j + 1, size, width);
    MulMonotone(i, j + 1, z);
    DecimalStartValue(i, size, width);
    DecimalStartValue(j + 1, size, width);
    DecimalInScanByDigits(k, start, limit);
    DecimalRangeFits(k, size, width);
    ScanExact(10, w, z, i, j, LeadingDigits(start), LeadingDigits(limit), LeadingDigits(k));
  }

  /** Where range j's end has no numeral of the width, the greatest key of range j is not scanned. */
  lemma ScanMissesLastKey(i: RangeId, j: RangeId, size: nat, width: int) returns (k: seq<int>)
    requires WidthOrDefault(width) <= 19 && i <= j
    requires j * SizeOrOne(size) < Space(10, WidthOrDefault(width)) <= (j + 1) * SizeOrOne(size)
    ensures AllDigits(k) && |k| == WidthOrDefault(width) && i <= DecimalRange(k, size, width) <= j
    ensures !InScan(k, DecimalStartKey(i, size, width), DecimalStartKey(j + 1, size, width))
  {
    var w, z := WidthOrDefault(width), SizeOrOne(size);
    var start, limit := DecimalStartKey(i, size, width), DecimalStartKey(j + 1, size, width);
    var ds := ScanMissesTopKey(10, w, z, i, j, LeadingDigits(start), LeadingDigits(limit));
    k := Text(ds);
    TextReadsBack(ds);
    DecimalInScanByDigits(k, start, limit);
    NineteenDigitsAreNumbers(k, width);
    DecimalRangeFits(k, size, width);
  }

  /** The start key of any range reads as a 64-bit number where that has a numeral. */
  lemma StartIsBelow64Bits(range: RangeId, size: nat, width: int)
    requires WidthOrDefault(width) >= 20
    ensures Number(DecimalStartKey(range, size, width), width) < TWO64
  {
    TwentyDigitsDoNotFit(WidthOrDefault(width));
    StartDigits(range, size, width, Wrap64(range * SizeOrOne(size)));
  }

  lemma WrappedKey(x: nat, size: nat, width: int) returns (k: seq<int>)
    requires WidthOrDefault(width) >= 20 && x < TWO64
    ensures AllDigits(k) && |k| == WidthOrDefault(width) && Number(k, width) == TWO64 + x
    ensures DecimalRange(k, size, width) == Div(x, SizeOrOne(size))
  {
    TwentyDigitsDoNotFit(WidthOrDefault(width));
    k := KeyOfNumber(TWO64 + x, width);
    WrapIs(TWO64 + x, 1, x);
  }

  /** From 20 digits on, a key 2^64 above the start of range i wraps into range i and is never scanned. */
  lemma ScanMissesWrappedKey(i: RangeId, j: RangeId, size: nat, width: int) returns (k: seq<int>)
    requires WidthOrDefault(width) >= 20 && i <= j && i * SizeOrOne(size) < TWO64
    ensures AllDigits(k) && |k| == WidthOrDefault(width) && DecimalRange(k, size, width) == i
    ensures !InScan(k, DecimalStartKey(i, size, width), DecimalStartKey(j + 1, size, width))
  {
    DivExact(i, SizeOrOne(size), 0);
    k := WrappedKey(i * SizeOrOne(size), size, width);
    StartIsBelow64Bits(j + 1, size, width);
    NumbersOrderKeys(DecimalStartKey(j + 1, size, width), k, width);
  }

  /** The scan [start(i), start(j + 1)) holds exactly the full-width keys of ranges i..j. */
  ghost predicate ScanIsExact(i: RangeId, j: RangeId, size: nat, width: int) {
    forall k :: AllDigits(k) && |k| == WidthOrDefault(width) ==>
      (InScan(k, DecimalStartKey(i, size, width), DecimalStartKey(j + 1, size, width)) <==>
       i <= DecimalRange(k, size, width) <= j)
  }

  /**
    At any width, the scan of representable ranges i..j is exact if and only if the width is at most 19
    and (j + 1) * size still has a numeral of that width; so the last range of a key space that the
    ranges fill is never scanned to its end.
   */
  lemma DecimalScan(i: RangeId, j: RangeId, size: nat, width: int)
    requires i <= j && Representable(j, size, width)
    ensures ScanIsExact(i, j, size, width) <==>
      WidthOrDefault(width) <= 19 && (j + 1) * SizeOrOne(size) < Space(10, WidthOrDefault(width))
  {
    if WidthOrDefault(width) >= 20 {
      MulMonotone(i, j, SizeOrOne(size));
      var k := ScanMissesWrappedKey(i, j, size, width);
    } else if (j + 1) * SizeOrOne(size) < Space(10, WidthOrDefault(width)) {
      NineteenDigitsFit(WidthOrDefault(width));
      forall k | AllDigits(k) && |k| == WidthOrDefault(width)
        ensures InScan(k, DecimalStartKey(i, size, width), DecimalStartKey(j + 1, size, width)) <==>
          i <= DecimalRange(k, size, width) <= j
      {
        NineteenDigitsAreNumbers(k, width);
        DecimalScanOfKey(i, j, size, width, k);
      }
    } else {
      var k := ScanMissesLastKey(i, j, size, width);
    }
  }
}
