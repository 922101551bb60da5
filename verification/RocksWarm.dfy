/**
  Warm reads on RocksDB. A job's budget is in data blocks and is metered while the reads happen: an
  iterator's Seek and Next read some number of blocks, and the scans stop once the budget is used.
 */
module RocksWarm {
  import opened Types
  import opened Mappers

  type Key = seq<int>

  predicate Sorted(keys: seq<Key>) {
    forall i, j :: 0 <= i < j < |keys| ==> LexLt(keys[i], keys[j])
  }

  /** The position of the first key at or after `start`. */
  predicate IsFirst(keys: seq<Key>, start: Key, p: nat) {
    && p <= |keys|
    && (forall i :: 0 <= i < p ==> LexLt(keys[i], start))
    && (p < |keys| ==> LexLe(start, keys[p]))
  }

  /** The thread's PerfContext: data blocks read so far. */
  class PerfContext {
    var blocks: nat

    constructor ()
      ensures blocks == 0
    {
      blocks := 0;
    }
  }

  /**
    An iterator over sorted keys. How many blocks an operation reads is up to the table, at most `c`;
    `visited` are the keys it has stood on, whose blocks are now in the cache.
   */
  class Iterator {
    const keys: seq<Key>
    const perf: PerfContext
    const c: nat
    var pos: nat
    ghost var visited: set<Key>

    ghost predicate Valid()
      reads this
    {
      Sorted(keys) && pos <= |keys|
    }

    constructor (keys: seq<Key>, perf: PerfContext, c: nat)
      requires Sorted(keys)
      ensures Valid() && this.keys == keys && this.perf == perf && this.c == c && visited == {}
    {
      this.keys, this.perf, this.c := keys, perf, c;
      pos, visited := |keys|, {};
    }

    /** The key the iterator stands on, if any. */
    ghost function Here(): set<Key>
      reads this
    {
      if pos < |keys| then {keys[pos]} else {}
    }

    method ReadSome()
      modifies perf
      ensures old(perf.blocks) <= perf.blocks <= old(perf.blocks) + c
    {
      var d: nat :| d <= c;
      perf.blocks := perf.blocks + d;
    }

    method Seek(start: Key)
      requires Valid()
      modifies this, perf
      ensures Valid() && IsFirst(keys, start, pos) && visited == old(visited) + Here()
      ensures old(perf.blocks) <= perf.blocks <= old(perf.blocks) + c
    {
      pos := 0;
      while pos < |keys| && LexLt(keys[pos], start)
        invariant 0 <= pos <= |keys| && perf.blocks == old(perf.blocks) && visited == old(visited)
        invariant forall i :: 0 <= i < pos ==> LexLt(keys[i], start)
      {
        pos := pos + 1;
      }
      visited := visited + Here();
      ReadSome();
    }

    method Next()
      requires Valid() && pos < |keys|
      modifies this, perf
      ensures Valid() && pos == old(pos) + 1 && visited == old(visited) + Here()
      ensures old(perf.blocks) <= perf.blocks <= old(perf.blocks) + c
    {
      pos := pos + 1;
      visited := visited + Here();
      ReadSome();
    }
  }

  /** The budget test; a budget of 0 is unlimited. */
  predicate Over(budget: nat, blocks: nat) {
    budget != 0 && blocks >= budget
  }

  /** The promised bound: an operation may overshoot by what a single read brings. */
  predicate WithinBudget(budget: nat, blocks: nat, c: nat) {
    budget != 0 ==> blocks <= budget + c - 1
  }

  lemma PastLimit(keys: seq<Key>, pos: nat, limit: Key, j: nat)
    requires Sorted(keys) && pos <= j < |keys| && LexLe(limit, keys[pos])
    ensures LexLe(limit, keys[j])
  {
    if pos < j {
      LexTotal(keys[pos], keys[j]);
      LexTransitive(limit, keys[pos], keys[j]);
    }
  }

  // ----- sst mode ---------------------------------------------------------------------------

  /** The body of the loop over ranges in WarmFromFiles. */
  method ScanRange(it: Iterator, start: Key, limit: Key, budget: nat) returns (exhausted: bool)
    requires it.Valid() && it.c >= 1 && WithinBudget(budget, it.perf.blocks, it.c)
    modifies it, it.perf
    ensures it.Valid() && WithinBudget(budget, it.perf.blocks, it.c)
    ensures old(it.perf.blocks) <= it.perf.blocks && old(it.visited) <= it.visited
    ensures exhausted ==> Over(budget, it.perf.blocks)
    ensures !exhausted ==> forall k :: k in it.keys && InScan(k, start, limit) ==> k in it.visited
  {
    exhausted := false;
    if Over(budget, it.perf.blocks) { return true; }
    it.Seek(start);
    if Over(budget, it.perf.blocks) { return true; }
    ghost var from := it.pos;
    while it.pos < |it.keys| && LexLt(it.keys[it.pos], limit)
      invariant it.Valid() && from <= it.pos && it.Here() <= it.visited && old(it.visited) <= it.visited
      invariant WithinBudget(budget, it.perf.blocks, it.c) && old(it.perf.blocks) <= it.perf.blocks
      invariant forall i :: from <= i < it.pos ==> it.keys[i] in it.visited
      decreases |it.keys| - it.pos
    {
      if Over(budget, it.perf.blocks) { return true; }
      it.Next();
    }
    forall k | k in it.keys && InScan(k, start, limit) ensures k in it.visited {
      var j :| 0 <= j < |it.keys| && it.keys[j] == k;
      if it.pos <= j { PastLimit(it.keys, it.pos, limit, j); }
    }
  }

  /** Every key of the file that a chosen range's scan interval holds has been visited. */
  ghost predicate Covers(keys: seq<Key>, ranges: seq<BlockRef>, startKey: RangeId -> Key, seen: set<Key>) {
    forall i, k :: 0 <= i < |ranges| && k in keys && InBlockScan(k, ranges[i], startKey) ==> k in seen
  }

  predicate InBlockScan(k: Key, b: BlockRef, startKey: RangeId -> Key) {
    InScan(k, startKey(b.first), startKey(b.last + 1))
  }

  /** The loop over ranges for one opened file. */
  method ScanFile(it: Iterator, ranges: seq<BlockRef>, startKey: RangeId -> Key, budget: nat) returns (exhausted: bool)
    requires it.Valid() && it.c >= 1 && WithinBudget(budget, it.perf.blocks, it.c)
    modifies it, it.perf
    ensures it.Valid() && WithinBudget(budget, it.perf.blocks, it.c)
    ensures old(it.perf.blocks) <= it.perf.blocks
    ensures exhausted ==> Over(budget, it.perf.blocks)
    ensures !exhausted ==> Covers(it.keys, ranges, startKey, it.visited)
  {
    exhausted := false;
    for i := 0 to |ranges|
      invariant it.Valid() && WithinBudget(budget, it.perf.blocks, it.c)
      invariant old(it.perf.blocks) <= it.perf.blocks
      invariant Covers(it.keys, ranges[..i], startKey, it.visited)
    {
      exhausted := ScanRange(it, startKey(ranges[i].first), startKey(ranges[i].last + 1), budget);
      if exhausted { return; }
    }
    assert ranges[..|ranges|] == ranges;
  }

  /**
    WarmFromFiles. `files` are the job's outputs, None for one that does not open. Whatever the files
    and ranges, ranges without a key included, at most budget + c - 1 data blocks are read; and if no
    stop was counted, every key of every opened file that lies in a chosen range was visited.
   */
  method WarmFromFiles(files: seq<Option<seq<Key>>>, ranges: seq<BlockRef>, startKey: RangeId -> Key, budget: nat,
                       perf: PerfContext, c: nat)
    returns (numOpened: nat, failed: nat, stops: nat, ghost seen: seq<set<Key>>)
    requires c >= 1 && forall f :: 0 <= f < |files| && files[f].Some? ==> Sorted(files[f].value)
    modifies perf
    ensures ranges == [] || files == [] ==> perf.blocks == old(perf.blocks)
    ensures ranges != [] && files != [] ==> WithinBudget(budget, perf.blocks, c)
    ensures stops <= 1 && |seen| == |files|
    ensures stops == 0 ==>
      forall f :: 0 <= f < |files| && files[f].Some? ==> Covers(files[f].value, ranges, startKey, seen[f])
    ensures stops == 0 && ranges != [] ==> numOpened + failed == |files|
    ensures budget == 0 ==> stops == 0
  {
    numOpened, failed, stops, seen := 0, 0, 0, seq(|files|, f => {});
    if ranges == [] || files == [] { return; }
    perf.blocks := 0;
    var f := 0;
    while f < |files|
      invariant 0 <= f <= |files| == |seen| && stops == 0 && numOpened + failed == f
      invariant WithinBudget(budget, perf.blocks, c)
      invariant forall g :: 0 <= g < f && files[g].Some? ==> Covers(files[g].value, ranges, startKey, seen[g])
    {
      if Over(budget, perf.blocks) {
        stops := 1;
        return;
      }
      if files[f].None? {
        failed := failed + 1;
      } else {
        numOpened := numOpened + 1;
        var it := new Iterator(files[f].value, perf, c);
        var exhausted := ScanFile(it, ranges, startKey, budget);
        seen := seen[f := it.visited];
        if exhausted {
          stops := 1;
          return;
        }
      }
      f := f + 1;
    }
  }

  /**
    With the decimal mapper the scan intervals are the ranges themselves, at any width, for 64-bit keys
    and ranges whose end is representable.
   */
  lemma CoversWholeRanges(keys: seq<Key>, ranges: seq<BlockRef>, startKey: RangeId -> Key, size: nat, width: int,
                          seen: set<Key>, i: nat, k: Key)
    requires StartsDecimal(startKey, size, width)
    requires Covers(keys, ranges, startKey, seen) && i < |ranges| && k in keys
    requires AllDigits(k) && |k| == WidthOrDefault(width) && Number(k, width) < TWO64
    requires ranges[i].first <= DecimalRange(k, size, width) <= ranges[i].last
    requires Representable(ranges[i].last + 1, size, width)
    ensures k in seen
  {
    DecimalScanOfKey(ranges[i].first, ranges[i].last, size, width, k);
    SeenIfInScan(keys, ranges, startKey, size, width, seen, i, k);
  }

  /** The start keys are the decimal mapper's. */
  ghost predicate StartsDecimal(startKey: RangeId -> Key, size: nat, width: int) {
    forall r: RangeId :: startKey(r) == DecimalStartKey(r, size, width)
  }

  lemma SeenIfInScan(keys: seq<Key>, ranges: seq<BlockRef>, startKey: RangeId -> Key, size: nat, width: int,
                     seen: set<Key>, i: nat, k: Key)
    requires StartsDecimal(startKey, size, width)
    requires Covers(keys, ranges, startKey, seen) && i < |ranges| && k in keys
    requires InScan(k, DecimalStartKey(ranges[i].first, size, width), DecimalStartKey(ranges[i].last + 1, size, width))
    ensures k in seen
  {
    var first, last := ranges[i].first, ranges[i].last;
    assert startKey(first) == DecimalStartKey(first, size, width);
    assert startKey(last + 1) == DecimalStartKey(last + 1, size, width);
    assert InBlockScan(k, ranges[i], startKey);
  }

  // ----- iterator mode ----------------------------------------------------------------------

  /** From the first key of the interval on, `scanKeys` keys or all up to the limit have been visited. */
  ghost predicate Scanned(keys: seq<Key>, start: Key, limit: Key, scanKeys: int, visited: set<Key>) {
    exists from: nat, to: nat :: ScannedTo(keys, start, limit, scanKeys, visited, from, to)
  }

  predicate ScannedTo(keys: seq<Key>, start: Key, limit: Key, scanKeys: int, visited: set<Key>, from: nat, to: nat) {
    && IsFirst(keys, start, from) && from <= to <= |keys|
    && (to - from >= scanKeys || to == |keys| || !LexLt(keys[to], limit))
    && forall i :: from <= i < to ==> keys[i] in visited
  }

  /** CacheBridge::Prefetch: scan one range through a DB iterator, at most scanKeys keys. */
  method Prefetch(it: Iterator, start: Key, limit: Key, scanKeys: int, left: nat) returns (left': nat, stopped: bool)
    requires it.Valid() && it.c >= 1
    modifies it, it.perf
    ensures it.Valid() && old(it.perf.blocks) <= it.perf.blocks
    ensures WithinBudget(left, it.perf.blocks - old(it.perf.blocks), it.c)
    ensures left' == Max(left - (it.perf.blocks - old(it.perf.blocks)), 0)
    ensures stopped ==> left != 0 && left' == 0
    ensures !stopped ==> Scanned(it.keys, start, limit, scanKeys, it.visited)
    ensures exists from: nat ::
      && IsFirst(it.keys, start, from) && from <= it.pos <= from + Max(scanKeys, 0)
      && (it.pos == from && !stopped ==> !Over(left, it.perf.blocks - old(it.perf.blocks)))
  {
    var blocks0 := it.perf.blocks;
    var n := 0;
    stopped := false;
    it.Seek(start);
    ghost var from := it.pos;
    if Over(left, it.perf.blocks - blocks0) { stopped := true; }
    while !stopped && it.pos < |it.keys| && LexLt(it.keys[it.pos], limit) && n < scanKeys
      invariant it.Valid() && blocks0 <= it.perf.blocks && it.pos == from + n
      invariant 0 <= n <= if scanKeys > 0 then scanKeys else 0
      invariant it.Here() <= it.visited && forall i :: from <= i < it.pos ==> it.keys[i] in it.visited
      invariant WithinBudget(left, it.perf.blocks - blocks0, it.c)
      invariant stopped ==> Over(left, it.perf.blocks - blocks0)
      invariant n == 0 && !stopped ==> !Over(left, it.perf.blocks - blocks0)
      decreases !stopped, |it.keys| - it.pos
    {
      n := n + 1;
      if Over(left, it.perf.blocks - blocks0) {
        stopped := true;
        break;
      }
      it.Next();
    }
    left' := Left(left, it.perf.blocks - blocks0);
    assert !stopped ==> ScannedTo(it.keys, start, limit, scanKeys, it.visited, from, it.pos);
    assert IsFirst(it.keys, start, from);
  }

  ghost predicate AllScanned(keys: seq<Key>, chosen: seq<BlockRef>, startKey: RangeId -> Key, scanKeys: int,
                             visited: seq<set<Key>>)
  {
    && |visited| == |chosen|
    && forall i :: 0 <= i < |chosen| ==>
         Scanned(keys, startKey(chosen[i].first), startKey(chosen[i].last + 1), scanKeys, visited[i])
  }

  /** What is left of a budget; 0 stays 0. */
  function Left(left: nat, read: nat): nat {
    if read < left then left - read else 0
  }

  /**
    The iterator branch of Listener::End. Across all chosen ranges of the job at most budget + c - 1
    data blocks are read, although 0 left also means unlimited inside Prefetch. Unless the budget was
    used up, every chosen range has been scanned.
   */
  method WarmByIterator(keys: seq<Key>, chosen: seq<BlockRef>, startKey: RangeId -> Key, scanKeys: int, budget: nat,
                        perf: PerfContext, c: nat)
    returns (ghost visited: seq<set<Key>>)
    requires Sorted(keys) && c >= 1
    modifies perf
    ensures perf.blocks >= old(perf.blocks) && WithinBudget(budget, perf.blocks - old(perf.blocks), c)
    ensures !Over(budget, perf.blocks - old(perf.blocks)) ==> AllScanned(keys, chosen, startKey, scanKeys, visited)
  {
    var left := budget;
    visited := [];
    for i := 0 to |chosen|
      invariant old(perf.blocks) <= perf.blocks
      invariant left != 0 ==> budget != 0 && perf.blocks - old(perf.blocks) == budget - left
      invariant left == 0 && budget != 0 ==> Over(budget, perf.blocks - old(perf.blocks))
      invariant WithinBudget(budget, perf.blocks - old(perf.blocks), c)
      invariant budget == 0 || left != 0 ==> AllScanned(keys, chosen[..i], startKey, scanKeys, visited)
    {
      if budget != 0 && left == 0 { break; }
      var it := new Iterator(keys, perf, c);
      var stopped;
      left, stopped := Prefetch(it, startKey(chosen[i].first), startKey(chosen[i].last + 1), scanKeys, left);
      visited := visited + [it.visited];
    }
    assert chosen[..|chosen|] == chosen;
  }

  // ----- prepop mode ------------------------------------------------------------------------

  /** The first position whose id is at least `lo`. */
  method LowerBound(hot: seq<RangeId>, lo: RangeId) returns (i: nat)
    requires Ascending(hot)
    ensures i <= |hot| && (forall k :: 0 <= k < i ==> hot[k] < lo) && (i < |hot| ==> hot[i] >= lo)
  {
    i := 0;
    var hi := |hot|;
    while i < hi
      invariant 0 <= i <= hi <= |hot|
      invariant forall k :: 0 <= k < i ==> hot[k] < lo
      invariant forall k :: hi <= k < |hot| ==> hot[k] >= lo
    {
      var mid := i + (hi - i) / 2;
      if hot[mid] < lo { i := mid + 1; } else { hi := mid; }
    }
  }

  /** The job the filter serves on one thread. */
  class PrepopJob {
    const blockBudget: nat  // 0 = unlimited
    var hot: seq<RangeId>
    var budgetLeft: nat
    var active: bool
    var warmed: nat
    var rejected: nat

    ghost predicate Valid()
      reads this
    {
      Ascending(hot)
    }

    constructor (blockBudget: nat)
      ensures Valid() && this.blockBudget == blockBudget && !active && hot == []
      ensures budgetLeft == warmed == rejected == 0
    {
      this.blockBudget := blockBudget;
      hot, budgetLeft, active, warmed, rejected := [], 0, false, 0, 0;
    }

    /** The prepop lines of Listener::Begin and End. */
    method Start(chosen: seq<RangeId>)
      modifies this
      ensures Valid() && active && budgetLeft == blockBudget && warmed == old(warmed) && rejected == old(rejected)
      ensures forall r :: r in hot <==> r in chosen
    {
      hot := SortUnique(chosen);
      budgetLeft, active := blockBudget, true;
    }

    method Stop()
      modifies this`active, this`hot
      ensures Valid() && !active && hot == []
    {
      active, hot := false, [];
    }

    /**
      PrepopFilter::ShouldWarm: yes iff the block's span holds a chosen range of the running job and
      the budget is not spent. With a budget, blocks warmed plus what is left stays constant.
     */
    method ShouldWarm(first: Key, last: Key, mapKey: Key -> RangeId) returns (yes: bool)
      requires Valid()
      modifies this`budgetLeft, this`warmed, this`rejected
      ensures yes <==>
        && active && |first| >= 8 && |last| >= 8 && (blockBudget == 0 || old(budgetLeft) > 0)
        && exists i :: 0 <= i < |hot| &&
             (mapKey(first[..|first| - 8]) <= hot[i] <= mapKey(last[..|last| - 8]) ||
              mapKey(last[..|last| - 8]) <= hot[i] <= mapKey(first[..|first| - 8]))
      ensures warmed == old(warmed) + (if yes then 1 else 0)
      ensures rejected == old(rejected) + (if yes then 0 else 1)
      ensures blockBudget != 0 ==> warmed + budgetLeft == old(warmed + budgetLeft)
      ensures blockBudget == 0 ==> budgetLeft == old(budgetLeft)
    {
      rejected := rejected + 1;
      if !active || hot == [] { return false; }
      if budgetLeft == 0 && blockBudget != 0 { return false; }
      if |first| < 8 || |last| < 8 { return false; }
      var lo, hi := mapKey(first[..|first| - 8]), mapKey(last[..|last| - 8]);
      if hi < lo { lo, hi := hi, lo; }
      var i := LowerBound(hot, lo);
      if i == |hot| || hot[i] > hi { return false; }
      rejected := rejected - 1;
      if blockBudget != 0 { budgetLeft := budgetLeft - 1; }
      warmed := warmed + 1;
      return true;
    }
  }
}
