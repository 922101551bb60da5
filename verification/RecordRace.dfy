/**
  Record as the small lock-free algorithm it is: any number of calls on one cell, interleaved at the
  granularity of its atomic operations (load, compare-and-swap, reload, fetch_add), at sampling rate 1.
  Relaxed operations on a single location have one modification order, so steps on the cell are atomic.
 */
module RecordRace {
  import opened Types
  import opened Collecting

  datatype Pc = Load | Cas(seen: Word) | Reload | Add | Counted | Dropped

  datatype Call = Call(slot: nat, pc: Pc)

  datatype Race = Race(cell: Word, calls: seq<Call>)

  /** The next atomic operation of one call. */
  function Advance(cell: Word, call: Call): (Word, Pc) {
    match call.pc
    case Load => (cell, if EpochOf(cell) != call.slot then Cas(cell) else Add)
    case Cas(v) => if cell == v then (Pack(call.slot, 1), Counted) else (cell, Reload)
    case Reload => (cell, if EpochOf(cell) != call.slot then Dropped else Add)
    case Add => (Wrap64(cell + 1), Counted)
    case Counted => (cell, Counted)
    case Dropped => (cell, Dropped)
  }

  function Step(s: Race, i: nat): (s': Race)
    ensures |s'.calls| == |s.calls|
  {
    if i >= |s.calls| then s
    else
      var (cell, pc) := Advance(s.cell, s.calls[i]);
      Race(cell, s.calls[i := s.calls[i].(pc := pc)])
  }

  /** Any interleaving is a schedule: who moves next. */
  function Interleave(s: Race, schedule: seq<nat>): (s': Race)
    ensures |s'.calls| == |s.calls|
  {
    if schedule == [] then s else Step(Interleave(s, schedule[..|schedule| - 1]), schedule[|schedule| - 1])
  }

  function NumCounted(calls: seq<Call>): (n: nat)
    ensures n <= |calls|
  {
    if calls == [] then 0
    else NumCounted(calls[..|calls| - 1]) + if calls[|calls| - 1].pc.Counted? then 1 else 0
  }

  lemma {:induction false} CountedUpdate(calls: seq<Call>, i: nat, call: Call)
    requires i < |calls|
    ensures NumCounted(calls[i := call]) ==
      NumCounted(calls) + (if call.pc.Counted? then 1 else 0) - (if calls[i].pc.Counted? then 1 else 0)
  {
    var n := |calls| - 1;
    if i == n {
      assert calls[i := call][..n] == calls[..n];
    } else {
      assert calls[i := call][..n] == calls[..n][i := call];
      CountedUpdate(calls[..n], i, call);
    }
  }

  lemma {:induction false} AllCounted(calls: seq<Call>)
    ensures NumCounted(calls) == |calls| <==> forall i :: 0 <= i < |calls| ==> calls[i].pc.Counted?
    ensures (forall i :: 0 <= i < |calls| ==> !calls[i].pc.Counted?) <==> NumCounted(calls) == 0
  {
    if calls != [] {
      var before := calls[..|calls| - 1];
      AllCounted(before);
      assert forall i :: 0 <= i < |before| ==> before[i] == calls[i];
    }
  }

  predicate Fresh(s: Race) {
    forall i :: 0 <= i < |s.calls| ==> s.calls[i].pc.Load?
  }

  // ----- all calls in one slot --------------------------------------------------------------

  /** Nobody has rolled the cell over yet. */
  predicate Untouched(s: Race, w: Word, slot: nat) {
    && s.cell == w && EpochOf(w) != slot
    && forall i :: 0 <= i < |s.calls| ==> s.calls[i].pc.Load? || s.calls[i].pc.Cas?
  }

  predicate Rolled(s: Race, w: Word, slot: nat) {
    EpochOf(s.cell) == slot && LowHalf(s.cell) == CountOf(w, slot) + NumCounted(s.calls)
  }

  predicate OneSlotInv(s: Race, w: Word, slot: nat) {
    && (forall i :: 0 <= i < |s.calls| ==>
          && s.calls[i].slot == slot
          && !s.calls[i].pc.Dropped?
          && (s.calls[i].pc.Cas? ==> s.calls[i].pc.seen == w && EpochOf(w) != slot))
    && (Untouched(s, w, slot) || Rolled(s, w, slot))
  }

  lemma AddOne(w: Word)
    requires LowHalf(w) + 1 < TWO32
    ensures w < TWO64 ==> Wrap64(w + 1) == w + 1
    ensures EpochOf(w + 1) == EpochOf(w) && LowHalf(w + 1) == LowHalf(w) + 1
  {
  }

  /** A rolled cell stays rolled: only an increment touches it. */
  lemma StaysRolled(s: Race, w: Word, slot: nat, i: nat)
    requires slot < TWO32 && OneSlotInv(s, w, slot) && Rolled(s, w, slot)
    requires CountOf(w, slot) + |s.calls| < TWO32 && i < |s.calls|
    ensures Rolled(Step(s, i), w, slot)
  {
    var call := s.calls[i];
    var (cell, pc) := Advance(s.cell, call);
    CountedUpdate(s.calls, i, call.(pc := pc));
    if call.pc.Add? {
      AllCounted(s.calls);
      AddOne(s.cell);
      WrapSmall(s.cell + 1);
    }
  }

  /** An untouched cell stays so until the first compare-and-swap, which rolls it over. */
  lemma StaysOrRolls(s: Race, w: Word, slot: nat, i: nat)
    requires slot < TWO32 && OneSlotInv(s, w, slot) && Untouched(s, w, slot) && i < |s.calls|
    ensures Untouched(Step(s, i), w, slot) || Rolled(Step(s, i), w, slot)
  {
    var call := s.calls[i];
    var (cell, pc) := Advance(s.cell, call);
    CountedUpdate(s.calls, i, call.(pc := pc));
    AllCounted(s.calls);
    PackFits(slot, 1);
  }

  lemma OneSlotStep(s: Race, w: Word, slot: nat, i: nat)
    requires slot < TWO32 && OneSlotInv(s, w, slot)
    requires CountOf(w, slot) + |s.calls| < TWO32
    ensures OneSlotInv(Step(s, i), w, slot)
  {
    if i < |s.calls| {
      if Rolled(s, w, slot) { StaysRolled(s, w, slot, i); } else { StaysOrRolls(s, w, slot, i); }
    }
  }

  /**
    Exactly-once counting. Whatever the interleaving, with all calls in one slot no call is dropped
    and the cell's count is its old count for the slot plus the calls that have finished.
   */
  lemma {:induction false} OneSlotExact(s: Race, slot: nat, schedule: seq<nat>)
    requires slot < TWO32 && Fresh(s) && CountOf(s.cell, slot) + |s.calls| < TWO32
    requires forall i :: 0 <= i < |s.calls| ==> s.calls[i].slot == slot
    ensures OneSlotInv(Interleave(s, schedule), s.cell, slot)
    ensures var e := Interleave(s, schedule);
      && (forall i :: 0 <= i < |e.calls| ==> !e.calls[i].pc.Dropped?)
      && CountOf(e.cell, slot) == CountOf(s.cell, slot) + NumCounted(e.calls)
      && ((forall i :: 0 <= i < |e.calls| ==> e.calls[i].pc.Counted?) ==>
            CountOf(e.cell, slot) == CountOf(s.cell, slot) + |s.calls|)
  {
    if schedule == [] {
      AllCounted(s.calls);
    } else {
      OneSlotExact(s, slot, schedule[..|schedule| - 1]);
      OneSlotStep(Interleave(s, schedule[..|schedule| - 1]), s.cell, slot, schedule[|schedule| - 1]);
    }
    var e := Interleave(s, schedule);
    AllCounted(e.calls);
  }

  // ----- calls in any slots -----------------------------------------------------------------

  /** A cell word whose count is bounded by what it held plus the calls counted. */
  predicate Bounded(s: Race, w: Word) {
    s.cell < TWO64 && LowHalf(s.cell) <= LowHalf(w) + NumCounted(s.calls)
  }

  lemma MixedStep(s: Race, w: Word, i: nat)
    requires Bounded(s, w) && LowHalf(w) + |s.calls| < TWO32 && i < |s.calls| && s.calls[i].slot < TWO32
    ensures Bounded(Step(s, i), w)
    ensures EpochOf(Step(s, i).cell) == EpochOf(s.cell) || EpochOf(Step(s, i).cell) == s.calls[i].slot
  {
    var call := s.calls[i];
    var (cell, pc) := Advance(s.cell, call);
    CountedUpdate(s.calls, i, call.(pc := pc));
    if pc.Counted? && !call.pc.Counted? {
      AllCounted(s.calls);
      PackFits(call.slot, 1);
      AddOne(s.cell);
    }
  }

  /**
    With mixed slots increments can be lost or credited to the next slot, but a cell's count never
    exceeds what it held plus the calls that have been counted on it.
   */
  lemma {:induction false} MixedSlotsBound(s: Race, schedule: seq<nat>)
    requires Fresh(s) && s.cell < TWO64 && LowHalf(s.cell) + |s.calls| < TWO32
    requires forall i :: 0 <= i < |s.calls| ==> s.calls[i].slot < TWO32
    ensures var e := Interleave(s, schedule);
      && Bounded(e, s.cell)
      && (forall i :: 0 <= i < |s.calls| ==> e.calls[i].slot == s.calls[i].slot)
      && (EpochOf(e.cell) == EpochOf(s.cell) || exists i :: 0 <= i < |s.calls| && s.calls[i].slot == EpochOf(e.cell))
  {
    if schedule != [] {
      MixedSlotsBound(s, schedule[..|schedule| - 1]);
      var b, i := Interleave(s, schedule[..|schedule| - 1]), schedule[|schedule| - 1];
      if i < |b.calls| {
        assert s.calls[i].slot == b.calls[i].slot;
        MixedStep(b, s.cell, i);
      }
    }
  }

  // ----- exactly when no call is lost -------------------------------------------------------

  predicate NoneDropped(s: Race) {
    forall i :: 0 <= i < |s.calls| ==> !s.calls[i].pc.Dropped?
  }

  predicate SameSlot(s: Race) {
    forall i, j :: 0 <= i < |s.calls| && 0 <= j < |s.calls| ==> s.calls[i].slot == s.calls[j].slot
  }

  /** No call is dropped, and the slot of each call reads its old count plus the calls that have finished. */
  predicate CountsExactly(s: Race, e: Race) {
    && NoneDropped(e)
    && forall i :: 0 <= i < |e.calls| ==>
         CountOf(e.cell, e.calls[i].slot) == CountOf(s.cell, e.calls[i].slot) + NumCounted(e.calls)
  }

  lemma InterleaveMore(s: Race, schedule: seq<nat>, i: nat)
    ensures Interleave(s, schedule + [i]) == Step(Interleave(s, schedule), i)
  {
    assert (schedule + [i])[..|schedule|] == schedule;
  }

  /** A fresh call given two turns leaves the cell with its slot and another word. */
  lemma TakesCell(s: Race, a: nat)
    requires a < |s.calls| && s.calls[a].pc.Load? && s.calls[a].slot < TWO32
    requires s.cell < TWO64 && LowHalf(s.cell) + 1 < TWO32
    ensures var e := Step(Step(s, a), a);
      && e.cell != s.cell && EpochOf(e.cell) == s.calls[a].slot
      && forall b :: 0 <= b < |s.calls| && b != a ==> e.calls[b] == s.calls[b]
  {
    PackFits(s.calls[a].slot, 1);
    AddOne(s.cell);
  }

  /** A call whose compare-and-swap meets another slot's word is dropped. */
  lemma LosesCell(s: Race, b: nat)
    requires b < |s.calls| && s.calls[b].pc.Cas? && s.calls[b].pc.seen != s.cell && EpochOf(s.cell) != s.calls[b].slot
    ensures Step(Step(s, b), b).calls[b].pc.Dropped?
  {
  }

  /** Call a, in another slot, takes the cell between b's load and its compare-and-swap. */
  lemma LosingSchedule(s: Race, a: nat, b: nat)
    requires Fresh(s) && s.cell < TWO64 && LowHalf(s.cell) + 1 < TWO32 && a < |s.calls| && b < |s.calls|
    requires s.calls[a].slot < TWO32 && s.calls[a].slot != s.calls[b].slot
    requires EpochOf(s.cell) != s.calls[b].slot
    ensures Interleave(s, [b] + [a] + [a] + [b] + [b]).calls[b].pc.Dropped?
  {
    var s1 := Step(s, b);
    TakesCell(s1, a);
    LosesCell(Step(Step(s1, a), a), b);
    InterleaveMore(s, [], b);
    InterleaveMore(s, [b], a);
    InterleaveMore(s, [b] + [a], a);
    InterleaveMore(s, [b] + [a] + [a], b);
    InterleaveMore(s, [b] + [a] + [a] + [b], b);
    assert [] + [b] == [b];
  }

  /**
    Over all interleavings no call is lost, and counting is exact, if and only if all calls race in
    one slot.
   */
  lemma ExactIffOneSlot(s: Race)
    requires Fresh(s) && s.cell < TWO64 && LowHalf(s.cell) + |s.calls| < TWO32
    requires forall i :: 0 <= i < |s.calls| ==> s.calls[i].slot < TWO32
    ensures (forall schedule :: NoneDropped(Interleave(s, schedule))) <==> SameSlot(s)
    ensures (forall schedule :: CountsExactly(s, Interleave(s, schedule))) <==> SameSlot(s)
  {
    if SameSlot(s) {
      forall schedule ensures CountsExactly(s, Interleave(s, schedule)) {
        if s.calls != [] { OneSlotExact(s, s.calls[0].slot, schedule); }
      }
    } else {
      var i, j :| 0 <= i < |s.calls| && 0 <= j < |s.calls| && s.calls[i].slot != s.calls[j].slot;
      var (a, b) := if s.calls[j].slot != EpochOf(s.cell) then (i, j) else (j, i);
      LosingSchedule(s, a, b);
      assert !NoneDropped(Interleave(s, [b] + [a] + [a] + [b] + [b]));
    }
  }

  // ----- exactly when no slot is credited with another's calls ----------------------------------

  /** Calls of one slot that have been counted. */
  function CountedIn(calls: seq<Call>, slot: nat): (n: nat)
    ensures n <= |calls|
  {
    if calls == [] then 0
    else
      var last := calls[|calls| - 1];
      CountedIn(calls[..|calls| - 1], slot) + if last.pc.Counted? && last.slot == slot then 1 else 0
  }

  lemma {:induction false} CountedInUpdate(calls: seq<Call>, i: nat, call: Call, slot: nat)
    requires i < |calls| && call.slot == calls[i].slot
    ensures CountedIn(calls[i := call], slot) == CountedIn(calls, slot) +
      if call.slot != slot then 0
      else (if call.pc.Counted? then 1 else 0) - (if calls[i].pc.Counted? then 1 else 0)
  {
    var n := |calls| - 1;
    if i == n {
      assert calls[i := call][..n] == calls[..n];
    } else {
      assert calls[i := call][..n] == calls[..n][i := call];
      CountedInUpdate(calls[..n], i, call, slot);
    }
  }

  lemma {:induction false} NoneCountedIn(calls: seq<Call>, slot: nat)
    requires forall i :: 0 <= i < |calls| && calls[i].slot == slot ==> !calls[i].pc.Counted?
    ensures CountedIn(calls, slot) == 0
  {
    if calls != [] { NoneCountedIn(calls[..|calls| - 1], slot); }
  }

  lemma {:induction false} SomeCountedIn(calls: seq<Call>, i: nat)
    requires i < |calls| && calls[i].pc.Counted?
    ensures CountedIn(calls, calls[i].slot) >= 1
  {
    if i < |calls| - 1 { SomeCountedIn(calls[..|calls| - 1], i); }
  }

  lemma {:induction false} CountedInOneSlot(calls: seq<Call>, slot: nat)
    requires forall i :: 0 <= i < |calls| ==> calls[i].slot == slot
    ensures CountedIn(calls, slot) == NumCounted(calls)
  {
    if calls != [] { CountedInOneSlot(calls[..|calls| - 1], slot); }
  }

  /** No slot reads more than it held plus its own finished calls. */
  predicate OwnCallsOnly(s: Race, e: Race) {
    forall i :: 0 <= i < |e.calls| ==>
      CountOf(e.cell, e.calls[i].slot) <= CountOf(s.cell, e.calls[i].slot) + CountedIn(e.calls, e.calls[i].slot)
  }

  /** Slots pairwise different, and none is the cell's. */
  predicate AllStrangers(s: Race) {
    && (forall i, j :: 0 <= i < j < |s.calls| ==> s.calls[i].slot != s.calls[j].slot)
    && (forall i :: 0 <= i < |s.calls| ==> s.calls[i].slot != EpochOf(s.cell))
  }

  /** Among strangers no call ever gets to add: the cell is as it was, or one counted call's. */
  predicate StrangersInv(s: Race, e: Race) {
    && |e.calls| == |s.calls|
    && (forall i :: 0 <= i < |s.calls| ==> e.calls[i].slot == s.calls[i].slot && !e.calls[i].pc.Add?)
    && (e.cell == s.cell ||
        exists i :: 0 <= i < |e.calls| && e.calls[i].pc.Counted? && e.cell == Pack(e.calls[i].slot, 1))
  }

  lemma StrangersStep(s: Race, e: Race, i: nat)
    requires AllStrangers(s) && StrangersInv(s, e)
    requires forall k :: 0 <= k < |s.calls| ==> s.calls[k].slot < TWO32
    ensures StrangersInv(s, Step(e, i))
  {
    if i < |e.calls| {
      var call, next := e.calls[i], Step(e, i);
      if e.cell != s.cell {
        var k :| 0 <= k < |e.calls| && e.calls[k].pc.Counted? && e.cell == Pack(e.calls[k].slot, 1);
        PackFits(e.calls[k].slot, 1);
        if k != i { assert s.calls[k].slot != s.calls[i].slot; }
        assert next.calls[k].pc.Counted?;
      }
      if call.pc.Cas? && e.cell == call.pc.seen { assert next.calls[i].pc.Counted? && next.cell == Pack(call.slot, 1); }
    }
  }

  lemma {:induction false} StrangersStayOwn(s: Race, schedule: seq<nat>)
    requires Fresh(s) && AllStrangers(s) && forall k :: 0 <= k < |s.calls| ==> s.calls[k].slot < TWO32
    ensures StrangersInv(s, Interleave(s, schedule))
  {
    if schedule != [] {
      StrangersStayOwn(s, schedule[..|schedule| - 1]);
      StrangersStep(s, Interleave(s, schedule[..|schedule| - 1]), schedule[|schedule| - 1]);
    }
  }

  lemma StrangersOwn(s: Race, e: Race)
    requires StrangersInv(s, e) && AllStrangers(s) && forall k :: 0 <= k < |s.calls| ==> s.calls[k].slot < TWO32
    ensures OwnCallsOnly(s, e)
  {
    if e.cell != s.cell {
      var k :| 0 <= k < |e.calls| && e.calls[k].pc.Counted? && e.cell == Pack(e.calls[k].slot, 1);
      PackFits(e.calls[k].slot, 1);
      SomeCountedIn(e.calls, k);
    }
  }

  /**
    Call i has loaded the cell in its own slot and will add; call j rolls the cell over in between, and
    i's access is credited to j's slot.
   */
  lemma Misattributes(s: Race, i: nat, j: nat)
    requires i < |s.calls| && j < |s.calls| && s.calls[i].pc.Load? && s.calls[j].pc.Load?
    requires s.calls[i].slot == EpochOf(s.cell) != s.calls[j].slot < TWO32
    ensures var e, x := Step(Step(Step(Step(s, i), j), j), i), s.calls[j].slot;
      && CountOf(e.cell, x) == 2 && CountedIn(e.calls, x) == CountedIn(s.calls, x) + 1
      && e.calls[j].slot == x && |e.calls| == |s.calls|
  {
    var y, x := s.calls[i].slot, s.calls[j].slot;
    PackFits(x, 1);
    AddOne(Pack(x, 1));
    WrapSmall(Pack(x, 1) + 1);
    var s1 := Race(s.cell, s.calls[i := Call(y, Add)]);
    assert Step(s, i) == s1;
    var s2 := Race(s.cell, s1.calls[j := Call(x, Cas(s.cell))]);
    assert Step(s1, j) == s2;
    var s3 := Race(Pack(x, 1), s2.calls[j := Call(x, Counted)]);
    assert Step(s2, j) == s3;
    var s4 := Race(Pack(x, 1) + 1, s3.calls[i := Call(y, Counted)]);
    assert Step(s3, i) == s4;
    CountedInUpdate(s.calls, i, Call(y, Add), x);
    CountedInUpdate(s1.calls, j, Call(x, Cas(s.cell)), x);
    CountedInUpdate(s2.calls, j, Call(x, Counted), x);
    CountedInUpdate(s3.calls, i, Call(y, Counted), x);
  }

  /** One call is in the cell's slot: call j of another slot is credited with its access. */
  lemma StealFromCell(s: Race, i: nat, j: nat)
    requires Fresh(s) && i < |s.calls| && j < |s.calls|
    requires s.calls[i].slot == EpochOf(s.cell) != s.calls[j].slot < TWO32
    ensures !OwnCallsOnly(s, Interleave(s, [i] + [j] + [j] + [i]))
  {
    Misattributes(s, i, j);
    NoneCountedIn(s.calls, s.calls[j].slot);
    InterleaveMore(s, [], i);
    InterleaveMore(s, [i], j);
    InterleaveMore(s, [i] + [j], j);
    InterleaveMore(s, [i] + [j] + [j], i);
    assert [] + [i] == [i];
  }

  /** Two calls share a slot: the first rolls the cell over to it, the second is credited to call j's. */
  lemma StealFromTwin(s: Race, i: nat, k: nat, j: nat)
    requires Fresh(s) && i < |s.calls| && k < |s.calls| && j < |s.calls| && i != k
    requires s.calls[i].slot == s.calls[k].slot != s.calls[j].slot
    requires s.calls[i].slot < TWO32 && s.calls[j].slot < TWO32
    requires s.calls[i].slot != EpochOf(s.cell) && s.calls[j].slot != EpochOf(s.cell)
    ensures !OwnCallsOnly(s, Interleave(s, [i] + [i] + [k] + [j] + [j] + [k]))
  {
    var y, x := s.calls[i].slot, s.calls[j].slot;
    PackFits(y, 1);
    var s1 := Race(s.cell, s.calls[i := Call(y, Cas(s.cell))]);
    assert Step(s, i) == s1;
    var s2 := Race(Pack(y, 1), s1.calls[i := Call(y, Counted)]);
    assert Step(s1, i) == s2;
    NoneCountedIn(s.calls, x);
    CountedInUpdate(s.calls, i, Call(y, Cas(s.cell)), x);
    CountedInUpdate(s1.calls, i, Call(y, Counted), x);
    Misattributes(s2, k, j);
    InterleaveMore(s, [], i);
    InterleaveMore(s, [i], i);
    InterleaveMore(s, [i] + [i], k);
    InterleaveMore(s, [i] + [i] + [k], j);
    InterleaveMore(s, [i] + [i] + [k] + [j], j);
    InterleaveMore(s, [i] + [i] + [k] + [j] + [j], k);
    assert [] + [i] == [i];
  }

  /** If calls are neither all of one slot nor strangers, some schedule credits a slot with another's call. */
  lemma SomeSlotSteals(s: Race) returns (schedule: seq<nat>)
    requires Fresh(s) && !SameSlot(s) && !AllStrangers(s)
    requires forall k :: 0 <= k < |s.calls| ==> s.calls[k].slot < TWO32
    ensures !OwnCallsOnly(s, Interleave(s, schedule))
  {
    var p, r :| 0 <= p < |s.calls| && 0 <= r < |s.calls| && s.calls[p].slot != s.calls[r].slot;
    if i :| 0 <= i < |s.calls| && s.calls[i].slot == EpochOf(s.cell) {
      var j := if s.calls[p].slot != s.calls[i].slot then p else r;
      StealFromCell(s, i, j);
      schedule := [i] + [j] + [j] + [i];
    } else {
      var i, k :| 0 <= i < k < |s.calls| && s.calls[i].slot == s.calls[k].slot;
      var j := if s.calls[p].slot != s.calls[i].slot then p else r;
      StealFromTwin(s, i, k, j);
      schedule := [i] + [i] + [k] + [j] + [j] + [k];
    }
  }

  /**
    Over all interleavings no slot reads more than it held plus its own finished calls, if and only if
    all calls are in one slot, or their slots are pairwise different and none is the cell's.
   */
  lemma OwnCallsOnlyIff(s: Race)
    requires Fresh(s) && s.cell < TWO64 && LowHalf(s.cell) + |s.calls| < TWO32
    requires forall i :: 0 <= i < |s.calls| ==> s.calls[i].slot < TWO32
    ensures (forall schedule :: OwnCallsOnly(s, Interleave(s, schedule))) <==> SameSlot(s) || AllStrangers(s)
  {
    if SameSlot(s) {
      forall schedule ensures OwnCallsOnly(s, Interleave(s, schedule)) {
        if s.calls != [] {
          OneSlotExact(s, s.calls[0].slot, schedule);
          CountedInOneSlot(Interleave(s, schedule).calls, s.calls[0].slot);
        }
      }
    } else if AllStrangers(s) {
      forall schedule ensures OwnCallsOnly(s, Interleave(s, schedule)) {
        StrangersStayOwn(s, schedule);
        StrangersOwn(s, Interleave(s, schedule));
      }
    } else {
      var schedule := SomeSlotSteals(s);
    }
  }

  /** For instance, at any ring size, two calls of slot 1 and one of slot 1 + ring, which share a cell. */
  lemma MixedSlotsMisattribute(ring: nat, s: Race) returns (schedule: seq<nat>)
    requires 2 <= ring < TWO32 - 1 && s == Race(0, [Call(1, Load), Call(1, Load), Call(1 + ring, Load)])
    ensures 1 % ring == (1 + ring) % ring
    ensures !OwnCallsOnly(s, Interleave(s, schedule))
  {
    SameCell(ring);
    assert s.calls[0].slot == s.calls[1].slot == 1 && s.calls[2].slot == 1 + ring;
    schedule := SomeSlotSteals(s);
  }

  lemma SameCell(ring: nat)
    requires ring >= 2
    ensures 1 % ring == (1 + ring) % ring
  {
    PeelQuotient(1 + ring, ring);
  }

  // ----- progress ---------------------------------------------------------------------------

  /** Atomic operations a call still has before it, at most. */
  function Remaining(pc: Pc): nat {
    match pc
    case Load => 4
    case Cas(_) => 3
    case Reload => 2
    case Add => 1
    case Counted => 0
    case Dropped => 0
  }

  function Turns(schedule: seq<nat>, i: nat): nat {
    if schedule == [] then 0
    else Turns(schedule[..|schedule| - 1], i) + if schedule[|schedule| - 1] == i then 1 else 0
  }

  /** Record is wait-free: a call given four turns has finished, whatever the others do. */
  lemma {:induction false} WaitFree(s: Race, schedule: seq<nat>, i: nat)
    requires i < |s.calls| && Fresh(s)
    ensures Remaining(Interleave(s, schedule).calls[i].pc) + Turns(schedule, i) <= 4
      || Remaining(Interleave(s, schedule).calls[i].pc) == 0
  {
    if schedule != [] { WaitFree(s, schedule[..|schedule| - 1], i); }
  }
}
