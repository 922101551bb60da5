/**
  Overlap check (Algorithm 3 of the paper): hot range ids are merged into spans, and blocks are
  intersected with the spans by one of two strategies.
 */
module Overlap {
  import opened Types

  /** Some id of the inclusive interval of `s` is `r`. */
  predicate Holds(s: RangeSpan, r: RangeId) {
    s.begin <= r <= s.end
  }

  predicate Covered(spans: seq<RangeSpan>, r: RangeId) {
    exists k :: 0 <= k < |spans| && Holds(spans[k], r)
  }

  /** Spans in order; neighbours may touch. This is what the searches need. */
  predicate Ordered(spans: seq<RangeSpan>) {
    && (forall k :: 0 <= k < |spans| ==> spans[k].begin <= spans[k].end)
    && (forall j, k :: 0 <= j < k < |spans| ==>
          spans[j].begin <= spans[k].begin && spans[j].end <= spans[k].end)
  }

  /** Spans in order with at least one uncovered id between neighbours. */
  predicate Separated(spans: seq<RangeSpan>) {
    && (forall k :: 0 <= k < |spans| ==> spans[k].begin <= spans[k].end)
    && (forall j, k :: 0 <= j < k < |spans| ==> spans[j].end + 1 < spans[k].begin)
  }

  /** The last uint64_t occurs twice; since the list is ascending, at its end. */
  predicate RepeatsLastId(s: seq<RangeId>) {
    |s| >= 2 && s[|s| - 2] == TWO64 - 1
  }

  /** One turn of the loop of ToSpans: extend the last span or open a new one. */
  function AddId(spans: seq<RangeSpan>, r: RangeId): seq<RangeSpan> {
    if spans != [] && r <= Wrap64(spans[|spans| - 1].end + 1) then
      var last := spans[|spans| - 1];
      spans[|spans| - 1 := RangeSpan(last.begin, if last.end < r then r else last.end)]
    else spans + [RangeSpan(r, r)]
  }

  /** Spans built so far end at the last id, or there are none. */
  predicate EndsAt(spans: seq<RangeSpan>, hot: seq<RangeId>) {
    if hot == [] then spans == [] else spans != [] && spans[|spans| - 1].end == hot[|hot| - 1]
  }

  lemma AddIdOrdered(spans: seq<RangeSpan>, hot: seq<RangeId>, r: RangeId)
    requires Ordered(spans) && EndsAt(spans, hot) && r < TWO64 && (hot != [] ==> hot[|hot| - 1] <= r)
    ensures Ordered(AddId(spans, r)) && EndsAt(AddId(spans, r), hot + [r])
  {
    if spans != [] {
      var n := |spans| - 1;
      assert forall k :: 0 <= k < n ==> AddId(spans, r)[k] == spans[k];
    }
  }

  lemma AddIdCovers(spans: seq<RangeSpan>, hot: seq<RangeId>, r: RangeId, q: RangeId)
    requires Ordered(spans) && EndsAt(spans, hot) && r < TWO64 && (hot != [] ==> hot[|hot| - 1] <= r)
    ensures Covered(AddId(spans, r), q) <==> Covered(spans, q) || q == r
  {
    var after := AddId(spans, r);
    if |after| == |spans| {
      var n := |spans| - 1;
      assert after[n] == RangeSpan(spans[n].begin, r) && spans[n].end <= r <= spans[n].end + 1;
      assert Holds(after[n], q) <==> Holds(spans[n], q) || q == r;
      assert forall k :: 0 <= k < n ==> after[k] == spans[k];
    } else {
      assert after[|spans|] == RangeSpan(r, r) && (Holds(after[|spans|], q) <==> q == r);
      assert forall k :: 0 <= k < |spans| ==> after[k] == spans[k];
    }
  }

  lemma AddIdSeparated(spans: seq<RangeSpan>, hot: seq<RangeId>, r: RangeId)
    requires Ordered(spans) && EndsAt(spans, hot) && r < TWO64 && (hot != [] ==> hot[|hot| - 1] <= r)
    ensures Separated(AddId(spans, r)) <==> Separated(spans) && (hot != [] ==> hot[|hot| - 1] != TWO64 - 1)
  {
    var after := AddId(spans, r);
    if spans != [] {
      var n := |spans| - 1;
      var end := spans[n].end;
      if end == TWO64 - 1 {
        assert after == spans + [RangeSpan(r, r)];
        assert after[n] == spans[n] && after[n + 1].begin == r;
      } else {
        WrapSmall(end + 1);
        if r <= end + 1 {
          assert |after| == |spans| && after[n].begin == spans[n].begin;
          assert forall k :: 0 <= k < n ==> after[k] == spans[k];
        } else {
          assert after == spans + [RangeSpan(r, r)];
          assert forall k :: 0 <= k <= n ==> after[k] == spans[k] && spans[k].end <= end;
        }
        SameButLastEnd(spans, after, n);
      }
    }
  }

  /** Separation looks only at what two lists with these parts have in common. */
  lemma SameButLastEnd(spans: seq<RangeSpan>, after: seq<RangeSpan>, n: nat)
    requires |spans| == n + 1 <= |after| <= n + 2 && spans[n].begin <= spans[n].end
    requires forall k :: 0 <= k < n ==> after[k] == spans[k]
    requires after[n].begin == spans[n].begin <= after[n].end
    requires |after| == n + 2 ==> after[n + 1].begin <= after[n + 1].end
    requires |after| == n + 2 ==> forall k :: 0 <= k <= n ==> after[k].end + 1 < after[n + 1].begin
    ensures Separated(after) <==> Separated(spans)
  {
    if Separated(after) {
      forall j, k | 0 <= j < k < |spans| ensures spans[j].end + 1 < spans[k].begin {
        assert after[j].end + 1 < after[k].begin;
      }
    }
    if Separated(spans) {
      forall j, k | 0 <= j < k < |after| ensures after[j].end + 1 < after[k].begin {
        if k <= n { assert spans[j].end + 1 < spans[k].begin; }
      }
    }
  }

  /** The spans after a list of ids. */
  function SpansOf(hot: seq<RangeId>): seq<RangeSpan> {
    if hot == [] then [] else AddId(SpansOf(hot[..|hot| - 1]), hot[|hot| - 1])
  }

  predicate Ids(hot: seq<RangeId>) {
    Ascending(hot) && forall i :: 0 <= i < |hot| ==> hot[i] < TWO64
  }

  lemma {:induction false} SpansOrdered(hot: seq<RangeId>)
    requires Ids(hot)
    ensures Ordered(SpansOf(hot)) && EndsAt(SpansOf(hot), hot)
    ensures Separated(SpansOf(hot)) <==> !RepeatsLastId(hot)
  {
    if hot != [] {
      var before, r := hot[..|hot| - 1], hot[|hot| - 1];
      SpansOrdered(before);
      AddIdOrdered(SpansOf(before), before, r);
      AddIdSeparated(SpansOf(before), before, r);
      assert before + [r] == hot;
      if |hot| >= 2 {
        assert before[|before| - 1] == hot[|hot| - 2];
        if RepeatsLastId(before) { assert hot[|hot| - 3] <= hot[|hot| - 2]; }
      }
    }
  }

  lemma {:induction false} SpansCover(hot: seq<RangeId>, q: RangeId)
    requires Ids(hot)
    ensures Covered(SpansOf(hot), q) <==> q in hot
  {
    if hot != [] {
      var before, r := hot[..|hot| - 1], hot[|hot| - 1];
      SpansOrdered(before);
      SpansCover(before, q);
      AddIdCovers(SpansOf(before), before, r, q);
      assert hot == before + [r];
    }
  }

  /**
    ToSpans. The spans cover exactly the ids of the input. They are separated unless the greatest
    uint64_t is repeated: then `end + 1` wraps to 0 and the repeat opens a second span on the same id.
   */
  method ToSpans(hot: seq<RangeId>) returns (spans: seq<RangeSpan>)
    requires Ids(hot)
    ensures Ordered(spans)
    ensures forall r :: Covered(spans, r) <==> r in hot
    ensures Separated(spans) <==> !RepeatsLastId(hot)
    ensures StrictlyAscending(hot) ==> Separated(spans)
  {
    spans := [];
    var i := 0;
    while i < |hot|
      invariant 0 <= i <= |hot| && spans == SpansOf(hot[..i])
    {
      var r := hot[i];
      assert hot[..i + 1][..i] == hot[..i];
      if spans != [] && r <= Wrap64(spans[|spans| - 1].end + 1) {
        var last := spans[|spans| - 1];
        spans := spans[|spans| - 1 := RangeSpan(last.begin, if last.end < r then r else last.end)];
      } else {
        spans := spans + [RangeSpan(r, r)];
      }
      i := i + 1;
    }
    assert hot[..i] == hot;
    SpansOrdered(hot);
    forall r ensures Covered(spans, r) <==> r in hot { SpansCover(hot, r); }
    assert StrictlyAscending(hot) && |hot| >= 2 ==> hot[|hot| - 2] < hot[|hot| - 1];
  }

  /** The block's inclusive interval and some span meet. */
  predicate Meets(b: BlockRef, spans: seq<RangeSpan>) {
    exists k :: 0 <= k < |spans| && spans[k].begin <= b.last && b.first <= spans[k].end
  }

  /** For a block whose bounds are in order, meeting a span is containing a covered id. */
  lemma MeetsIsContainsHot(b: BlockRef, spans: seq<RangeSpan>)
    requires b.first <= b.last && Ordered(spans)
    ensures Meets(b, spans) <==> exists r :: b.first <= r <= b.last && Covered(spans, r)
  {
    if Meets(b, spans) {
      var k :| 0 <= k < |spans| && spans[k].begin <= b.last && b.first <= spans[k].end;
      var r := if spans[k].begin < b.first then b.first else spans[k].begin;
      assert Holds(spans[k], r) && Covered(spans, r);
    }
    if r :| b.first <= r <= b.last && Covered(spans, r) {
      var k :| 0 <= k < |spans| && Holds(spans[k], r);
      assert spans[k].begin <= b.last && b.first <= spans[k].end;
    }
  }

  /** The first span that ends at or after the block's start decides. */
  lemma FirstReach(spans: seq<RangeSpan>, j: nat, b: BlockRef)
    requires Ordered(spans) && j < |spans| && b.first <= spans[j].end
    requires forall k :: 0 <= k < j ==> spans[k].end < b.first
    ensures spans[j].begin <= b.last <==> Meets(b, spans)
  {
    if k :| 0 <= k < |spans| && spans[k].begin <= b.last && b.first <= spans[k].end {
      assert j <= k && spans[j].begin <= spans[k].begin;
    }
  }

  /** BlockOverlaps: a binary search for the first span that ends at or after the block's start. */
  method BlockOverlaps(b: BlockRef, spans: seq<RangeSpan>) returns (hit: bool)
    requires Ordered(spans)
    ensures hit <==> Meets(b, spans)
    ensures b.first <= b.last ==> (hit <==> exists r :: b.first <= r <= b.last && Covered(spans, r))
  {
    var lo, hi := 0, |spans|;
    while lo < hi
      invariant 0 <= lo <= hi <= |spans|
      invariant forall k :: 0 <= k < lo ==> spans[k].end < b.first
      invariant forall k :: hi <= k < |spans| ==> spans[k].end >= b.first
    {
      var mid := lo + (hi - lo) / 2;
      if spans[mid].end < b.first {
        lo := mid + 1;
      } else {
        hi := mid;
      }
    }
    hit := lo < |spans| && spans[lo].begin <= b.last;
    if lo < |spans| { FirstReach(spans, lo, b); }
    if b.first <= b.last { MeetsIsContainsHot(b, spans); }
  }

  /** The reference: indices of the blocks that meet a span, from `i` on, in order. */
  function MeetingFrom(blocks: seq<BlockRef>, spans: seq<RangeSpan>, i: nat): seq<nat>
    requires i <= |blocks|
    decreases |blocks| - i
  {
    if i == |blocks| then []
    else if Meets(blocks[i], spans) then [i] + MeetingFrom(blocks, spans, i + 1)
    else MeetingFrom(blocks, spans, i + 1)
  }

  lemma {:induction false} MeetingFromMembers(blocks: seq<BlockRef>, spans: seq<RangeSpan>, i: nat, x: nat)
    requires i <= |blocks|
    ensures x in MeetingFrom(blocks, spans, i) <==> i <= x < |blocks| && Meets(blocks[x], spans)
    decreases |blocks| - i
  {
    if i < |blocks| {
      MeetingFromMembers(blocks, spans, i + 1, x);
      var rest := MeetingFrom(blocks, spans, i + 1);
      assert x in [i] + rest <==> x == i || x in rest;
    }
  }

  lemma {:induction false} MeetingFromAscends(blocks: seq<BlockRef>, spans: seq<RangeSpan>, i: nat)
    requires i <= |blocks|
    ensures StrictlyAscending(MeetingFrom(blocks, spans, i))
    decreases |blocks| - i
  {
    if i < |blocks| {
      MeetingFromAscends(blocks, spans, i + 1);
      var rest := MeetingFrom(blocks, spans, i + 1);
      forall k | 0 <= k < |rest| ensures i < rest[k] {
        assert rest[k] in rest;
        MeetingFromMembers(blocks, spans, i + 1, rest[k]);
      }
    }
  }

  lemma {:induction false} NoMoreMeeting(blocks: seq<BlockRef>, spans: seq<RangeSpan>, i: nat)
    requires i <= |blocks|
    requires forall x :: i <= x < |blocks| ==> !Meets(blocks[x], spans)
    ensures MeetingFrom(blocks, spans, i) == []
    decreases |blocks| - i
  {
    if i < |blocks| { NoMoreMeeting(blocks, spans, i + 1); }
  }

  lemma NextMeeting(blocks: seq<BlockRef>, spans: seq<RangeSpan>, i: nat, out: seq<nat>)
    requires i < |blocks|
    ensures out + MeetingFrom(blocks, spans, i) ==
      (if Meets(blocks[i], spans) then out + [i] else out) + MeetingFrom(blocks, spans, i + 1)
  {
    var rest := MeetingFrom(blocks, spans, i + 1);
    assert out + ([i] + rest) == (out + [i]) + rest;
  }

  /** The branch taken when few spans face many blocks: one binary search per block. */
  method SelectBySearch(blocks: seq<BlockRef>, spans: seq<RangeSpan>) returns (out: seq<nat>)
    requires Ordered(spans)
    ensures out == MeetingFrom(blocks, spans, 0)
  {
    out := [];
    for i := 0 to |blocks|
      invariant out + MeetingFrom(blocks, spans, i) == MeetingFrom(blocks, spans, 0)
    {
      var hit := BlockOverlaps(blocks[i], spans);
      NextMeeting(blocks, spans, i, out);
      if hit { out := out + [i]; }
    }
  }

  predicate SortedByFirst(blocks: seq<BlockRef>) {
    forall i, j :: 0 <= i < j < |blocks| ==> blocks[i].first <= blocks[j].first
  }

  /** The other branch: a span cursor that only moves forward, although blocks may nest. */
  method SelectByMerge(blocks: seq<BlockRef>, spans: seq<RangeSpan>) returns (out: seq<nat>)
    requires Ordered(spans) && SortedByFirst(blocks)
    ensures out == MeetingFrom(blocks, spans, 0)
  {
    out := [];
    var i, j := 0, 0;
    while i < |blocks|
      invariant 0 <= i <= |blocks| && 0 <= j <= |spans|
      invariant forall k :: 0 <= k < j && i < |blocks| ==> spans[k].end < blocks[i].first
      invariant out + MeetingFrom(blocks, spans, i) == MeetingFrom(blocks, spans, 0)
    {
      while j < |spans| && spans[j].end < blocks[i].first
        invariant j <= |spans|
        invariant forall k :: 0 <= k < j ==> spans[k].end < blocks[i].first
      {
        j := j + 1;
      }
      if j == |spans| {
        NoMoreMeeting(blocks, spans, i);
        break;
      }
      FirstReach(spans, j, blocks[i]);
      NextMeeting(blocks, spans, i, out);
      if spans[j].begin <= blocks[i].last { out := out + [i]; }
      i := i + 1;
    }
  }

  /**
    SelectOverlapping with its cost model. Whichever branch the sizes pick, the answer is the same
    ascending list of exactly the blocks that meet a span.
   */
  method SelectOverlapping(blocks: seq<BlockRef>, spans: seq<RangeSpan>) returns (out: seq<nat>)
    requires Ordered(spans) && SortedByFirst(blocks)
    ensures StrictlyAscending(out)
    ensures forall i :: i in out <==> 0 <= i < |blocks| && Meets(blocks[i], spans)
    ensures forall i :: 0 <= i < |blocks| && blocks[i].first <= blocks[i].last ==>
      (i in out <==> exists r :: blocks[i].first <= r <= blocks[i].last && Covered(spans, r))
  {
    MeetingFromAscends(blocks, spans, 0);
    forall i: nat ensures i in MeetingFrom(blocks, spans, 0) <==> 0 <= i < |blocks| && Meets(blocks[i], spans) {
      MeetingFromMembers(blocks, spans, 0, i);
    }
    forall i | 0 <= i < |blocks| && blocks[i].first <= blocks[i].last
      ensures Meets(blocks[i], spans) <==> exists r :: blocks[i].first <= r <= blocks[i].last && Covered(spans, r)
    {
      MeetsIsContainsHot(blocks[i], spans);
    }
    if blocks == [] || spans == [] {
      NoMoreMeeting(blocks, spans, 0);
      return [];
    }
    var m, n := |blocks|, |spans|;
    var logM := 1.0;
    var x := m;
    while x > 1 {
      logM := logM + 1.0;
      x := x / 2;
    }
    if n as real * logM < (n + m) as real {
      out := SelectBySearch(blocks, spans);
    } else {
      out := SelectByMerge(blocks, spans);
    }
  }
}
