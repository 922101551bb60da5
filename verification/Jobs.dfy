/**
  The job contexts of LeaperImpl. Background jobs nest, so what one job decided (hot spans, bytes
  spent, budget, flush flag) is saved on a stack while another runs. Each function is one call under
  the core's mutex; what OnCompactionBegin predicted enters as `plan`.
 */
module Jobs {
  import opened Types
  import opened Overlap
  import Ssad

  datatype Policy = Off | EagerEvict | IncrementalWarmup | WarmAll | WarmFlush | Learned | Oracle

  datatype Options = Options(
    policy: Policy, maxPrefetchFrac: real, cacheBytes: real, phase2: bool, ssad: Ssad.Options)
  {
    /** static_cast<uint64_t>(max_prefetch_frac * cache_bytes) */
    function Budget(): (budget: nat)
      ensures budget == 0 || budget as real <= maxPrefetchFrac * cacheBytes
      ensures maxPrefetchFrac * cacheBytes < (budget + 1) as real
    {
      var b := (maxPrefetchFrac * cacheBytes).Floor;
      if b < 0 then 0 else b
    }
  }

  datatype Context = Context(hot: seq<RangeSpan>, spent: nat, budget: nat, isFlush: bool)

  const NO_JOB := Context([], 0, 0, false)

  /** prefetched and refused are stats_.blocks_prefetched and stats_.prefetch_refused_budget. */
  datatype Core = Core(ctx: Context, stack: seq<Context>, health: Ssad.Health, prefetched: nat, refused: nat)

  const FRESH := Core(NO_JOB, [], Ssad.INITIAL, 0, 0)

  /** The hot spans a job ends up with: only some policies plan, and a suspended Leaper does not. */
  function HotFor(o: Options, suspended: bool, plan: seq<RangeSpan>): seq<RangeSpan> {
    match o.policy
    case Off => []
    case EagerEvict => []
    case WarmAll => []
    case WarmFlush => []
    case IncrementalWarmup => plan
    case Oracle => plan
    case Learned => if suspended then [] else plan
  }

  /** OnCompactionBegin, as far as the job state goes. */
  function Begin(o: Options, s: Core, isFlush: bool, plan: seq<RangeSpan>): Core {
    s.(stack := s.stack + [s.ctx],
       ctx := Context(HotFor(o, s.health.suspended, plan), 0, o.Budget(), isFlush))
  }

  /** Does the policy want this block, before the budget is looked at? */
  predicate Wants(o: Options, s: Core, b: BlockRef) {
    match o.policy
    case Off => false
    case EagerEvict => false
    case WarmAll => true
    case WarmFlush => s.ctx.isFlush
    case IncrementalWarmup => Meets(b, s.ctx.hot)
    case Oracle => Meets(b, s.ctx.hot)
    case Learned => o.phase2 && !s.health.suspended && Meets(b, s.ctx.hot)
  }

  /** The test ShouldPrefetch makes; the sum is a uint64_t. */
  predicate FitsBudget(s: Core, b: BlockRef) {
    Wrap64(s.ctx.spent + b.size) <= s.ctx.budget
  }

  predicate Accepts(o: Options, s: Core, b: BlockRef) {
    Wants(o, s, b) && FitsBudget(s, b)
  }

  /** ShouldPrefetch; its answer is Accepts. */
  function Ask(o: Options, s: Core, b: BlockRef): Core {
    if !Wants(o, s, b) then s
    else if !FitsBudget(s, b) then s.(refused := s.refused + 1)
    else s.(ctx := s.ctx.(spent := Wrap64(s.ctx.spent + b.size)), prefetched := s.prefetched + 1)
  }

  /** OnCompactionEnd. */
  function End(s: Core): Core {
    if s.stack == [] then s.(ctx := s.ctx.(hot := []))
    else s.(ctx := s.stack[|s.stack| - 1], stack := s.stack[..|s.stack| - 1])
  }

  function Report(o: Options, s: Core, miss: real): Core {
    s.(health := Ssad.Report(o.ssad, s.health, miss))
  }

  // ----- runs -------------------------------------------------------------------------------

  /** The calls the core receives; `kept` marks the asks whose answers are compared. */
  datatype Event =
    | BeginEvent(isFlush: bool, plan: seq<RangeSpan>)
    | AskEvent(block: BlockRef, kept: bool)
    | EndEvent
    | HealthEvent(miss: real)

  function Step(o: Options, s: Core, e: Event): Core {
    match e
    case BeginEvent(isFlush, plan) => Begin(o, s, isFlush, plan)
    case AskEvent(b, _) => Ask(o, s, b)
    case EndEvent => End(s)
    case HealthEvent(miss) => Report(o, s, miss)
  }

  function Exec(o: Options, s: Core, run: seq<Event>): Core
    decreases |run|
  {
    if run == [] then s else Exec(o, Step(o, s, run[0]), run[1..])
  }

  /** The answers to the kept asks, in order. */
  function Answers(o: Options, s: Core, run: seq<Event>): seq<bool>
    decreases |run|
  {
    if run == [] then []
    else
      (if run[0].AskEvent? && run[0].kept then [Accepts(o, s, run[0].block)] else []) +
      Answers(o, Step(o, s, run[0]), run[1..])
  }

  lemma {:induction false} ExecThen(o: Options, s: Core, a: seq<Event>, b: seq<Event>)
    ensures Exec(o, s, a + b) == Exec(o, Exec(o, s, a), b)
    decreases |a|
  {
    if a == [] {
      assert a + b == b;
    } else {
      assert (a + b)[1..] == a[1..] + b;
      ExecThen(o, Step(o, s, a[0]), a[1..], b);
    }
  }

  lemma {:induction false} AnswersThen(o: Options, s: Core, a: seq<Event>, b: seq<Event>)
    ensures Answers(o, s, a + b) == Answers(o, s, a) + Answers(o, Exec(o, s, a), b)
    decreases |a|
  {
    if a == [] {
      assert a + b == b;
    } else {
      assert (a + b)[1..] == a[1..] + b;
      AnswersThen(o, Step(o, s, a[0]), a[1..], b);
    }
  }

  lemma ExecConcat(o: Options, s: Core, a: seq<Event>, b: seq<Event>)
    ensures Exec(o, s, a + b) == Exec(o, Exec(o, s, a), b)
    ensures Answers(o, s, a + b) == Answers(o, s, a) + Answers(o, Exec(o, s, a), b)
  {
    ExecThen(o, s, a, b);
    AnswersThen(o, s, a, b);
  }

  /** A well-bracketed run: jobs contain what happens while they are the innermost one. */
  datatype Item =
    | AskItem(block: BlockRef)
    | HealthItem(miss: real)
    | Job(isFlush: bool, plan: seq<RangeSpan>, dropped: bool, body: Run)

  datatype Run = Done | Then(head: Item, tail: Run)

  /** All calls of a run. */
  function Calls(run: Run, kept: bool): seq<Event> {
    match run
    case Done => []
    case Then(item, tail) => ItemCalls(item, kept) + Calls(tail, kept)
  }

  function ItemCalls(item: Item, kept: bool): seq<Event> {
    match item
    case AskItem(b) => [AskEvent(b, kept)]
    case HealthItem(miss) => [HealthEvent(miss)]
    case Job(isFlush, plan, dropped, body) =>
      [BeginEvent(isFlush, plan)] + Calls(body, kept && !dropped) + [EndEvent]
  }

  /** The health reports inside a run, without its jobs. */
  function HealthCalls(run: Run): seq<Event> {
    match run
    case Done => []
    case Then(AskItem(_), tail) => HealthCalls(tail)
    case Then(HealthItem(miss), tail) => [HealthEvent(miss)] + HealthCalls(tail)
    case Then(Job(_, _, _, body), tail) => HealthCalls(body) + HealthCalls(tail)
  }

  /** The calls that remain when the dropped jobs are deleted and only their health reports stay. */
  function RemainingCalls(run: Run): seq<Event> {
    match run
    case Done => []
    case Then(item, tail) => RemainingOf(item) + RemainingCalls(tail)
  }

  function RemainingOf(item: Item): seq<Event> {
    match item
    case AskItem(b) => [AskEvent(b, true)]
    case HealthItem(miss) => [HealthEvent(miss)]
    case Job(isFlush, plan, dropped, body) =>
      if dropped then HealthCalls(body) else [BeginEvent(isFlush, plan)] + RemainingCalls(body) + [EndEvent]
  }

  lemma JobCalls(o: Options, s: Core, isFlush: bool, plan: seq<RangeSpan>, body: seq<Event>)
    ensures var run := [BeginEvent(isFlush, plan)] + body + [EndEvent];
      var inner := Exec(o, Begin(o, s, isFlush, plan), body);
      Exec(o, s, run) == End(inner) && Answers(o, s, run) == Answers(o, Begin(o, s, isFlush, plan), body)
  {
    var b := Begin(o, s, isFlush, plan);
    ExecConcat(o, s, [BeginEvent(isFlush, plan)], body);
    ExecConcat(o, s, [BeginEvent(isFlush, plan)] + body, [EndEvent]);
    OneStep(o, s, BeginEvent(isFlush, plan));
    OneStep(o, Exec(o, b, body), EndEvent);
  }

  lemma OneStep(o: Options, s: Core, e: Event)
    ensures Exec(o, s, [e]) == Step(o, s, e)
    ensures Answers(o, s, [e]) == if e.AskEvent? && e.kept then [Accepts(o, s, e.block)] else []
  {
    assert [e][1..] == [];
  }

  // ----- restoration ------------------------------------------------------------------------

  /** Whatever a run contains, at its end the stack and all but the bytes spent are as before. */
  lemma {:induction false} RunRestores(o: Options, s: Core, run: Run, kept: bool)
    ensures var e := Exec(o, s, Calls(run, kept));
      e.stack == s.stack && e.ctx == s.ctx.(spent := e.ctx.spent)
    decreases run
  {
    match run
    case Done =>
    case Then(item, tail) =>
      ItemRestores(o, s, item, kept);
      ExecConcat(o, s, ItemCalls(item, kept), Calls(tail, kept));
      RunRestores(o, Exec(o, s, ItemCalls(item, kept)), tail, kept);
  }

  /** A nested job gives the enclosing one its context back exactly, bytes spent included. */
  lemma {:induction false} ItemRestores(o: Options, s: Core, item: Item, kept: bool)
    ensures var e := Exec(o, s, ItemCalls(item, kept));
      && e.stack == s.stack && e.ctx == s.ctx.(spent := e.ctx.spent)
      && (!item.AskItem? ==> e.ctx == s.ctx)
    decreases item
  {
    match item
    case AskItem(b) => OneStep(o, s, AskEvent(b, kept));
    case HealthItem(miss) => OneStep(o, s, HealthEvent(miss));
    case Job(isFlush, plan, dropped, body) =>
      JobCalls(o, s, isFlush, plan, Calls(body, kept && !dropped));
      RunRestores(o, Begin(o, s, isFlush, plan), body, kept && !dropped);
  }

  lemma {:induction false} HealthOfRun(o: Options, s: Core, h: Core, run: Run, kept: bool)
    requires s.health == h.health
    ensures Exec(o, s, Calls(run, kept)).health == Exec(o, h, HealthCalls(run)).health
    ensures Exec(o, h, HealthCalls(run)) == h.(health := Exec(o, h, HealthCalls(run)).health)
    ensures Answers(o, h, HealthCalls(run)) == []
    decreases run
  {
    match run
    case Done =>
    case Then(item, tail) =>
      ExecConcat(o, s, ItemCalls(item, kept), Calls(tail, kept));
      var s' := Exec(o, s, ItemCalls(item, kept));
      match item {
        case AskItem(b) =>
          OneStep(o, s, AskEvent(b, kept));
          HealthOfRun(o, s', h, tail, kept);
        case HealthItem(miss) =>
          OneStep(o, s, HealthEvent(miss));
          ExecConcat(o, h, [HealthEvent(miss)], HealthCalls(tail));
          OneStep(o, h, HealthEvent(miss));
          HealthOfRun(o, s', Report(o, h, miss), tail, kept);
        case Job(isFlush, plan, dropped, body) =>
          JobCalls(o, s, isFlush, plan, Calls(body, kept && !dropped));
          HealthOfRun(o, Begin(o, s, isFlush, plan), h, body, kept && !dropped);
          RunRestores(o, Begin(o, s, isFlush, plan), body, kept && !dropped);
          ExecConcat(o, h, HealthCalls(body), HealthCalls(tail));
          HealthOfRun(o, s', Exec(o, h, HealthCalls(body)), tail, kept);
      }
  }

  lemma {:induction false} UnkeptIsSilent(o: Options, s: Core, run: Run)
    ensures Answers(o, s, Calls(run, false)) == []
    decreases run
  {
    match run
    case Done =>
    case Then(item, tail) =>
      ExecConcat(o, s, ItemCalls(item, false), Calls(tail, false));
      UnkeptIsSilent(o, Exec(o, s, ItemCalls(item, false)), tail);
      match item {
        case AskItem(b) => OneStep(o, s, AskEvent(b, false));
        case HealthItem(miss) => OneStep(o, s, HealthEvent(miss));
        case Job(isFlush, plan, dropped, body) =>
          JobCalls(o, s, isFlush, plan, Calls(body, false));
          UnkeptIsSilent(o, Begin(o, s, isFlush, plan), body);
      }
  }

  // ----- non-interference -------------------------------------------------------------------

  /** Equal but for the statistics. */
  predicate SameJobs(s: Core, t: Core) {
    s.ctx == t.ctx && s.stack == t.stack && s.health == t.health
  }

  /**
    Nested jobs do not interfere. Delete any of them, at any depth, keeping only their health
    reports: every remaining ask gets the same answer and the core ends in the same job state.
   */
  lemma {:induction false} NonInterference(o: Options, s: Core, t: Core, run: Run)
    requires SameJobs(s, t)
    ensures Answers(o, s, Calls(run, true)) == Answers(o, t, RemainingCalls(run))
    ensures SameJobs(Exec(o, s, Calls(run, true)), Exec(o, t, RemainingCalls(run)))
    decreases run
  {
    match run
    case Done =>
    case Then(item, tail) =>
      ItemNonInterference(o, s, t, item);
      ExecConcat(o, s, ItemCalls(item, true), Calls(tail, true));
      ExecConcat(o, t, RemainingOf(item), RemainingCalls(tail));
      NonInterference(o, Exec(o, s, ItemCalls(item, true)), Exec(o, t, RemainingOf(item)), tail);
  }

  lemma {:induction false} ItemNonInterference(o: Options, s: Core, t: Core, item: Item)
    requires SameJobs(s, t)
    ensures Answers(o, s, ItemCalls(item, true)) == Answers(o, t, RemainingOf(item))
    ensures SameJobs(Exec(o, s, ItemCalls(item, true)), Exec(o, t, RemainingOf(item)))
    decreases item
  {
    match item
    case AskItem(b) =>
      OneStep(o, s, AskEvent(b, true));
      OneStep(o, t, AskEvent(b, true));
    case HealthItem(miss) =>
      OneStep(o, s, HealthEvent(miss));
      OneStep(o, t, HealthEvent(miss));
    case Job(isFlush, plan, dropped, body) =>
      var s' := Begin(o, s, isFlush, plan);
      JobCalls(o, s, isFlush, plan, Calls(body, !dropped));
      RunRestores(o, s', body, !dropped);
      if dropped {
        UnkeptIsSilent(o, s', body);
        HealthOfRun(o, s', t, body, false);
      } else {
        JobCalls(o, t, isFlush, plan, RemainingCalls(body));
        NonInterference(o, s', Begin(o, t, isFlush, plan), body);
      }
  }

  // ----- the byte budget --------------------------------------------------------------------

  /** Sizes small enough that spent + size stays a uint64_t while spent is within the budget. */
  predicate SizesFit(o: Options, run: Run) {
    match run
    case Done => true
    case Then(AskItem(b), tail) => b.size + o.Budget() < TWO64 && SizesFit(o, tail)
    case Then(HealthItem(_), tail) => SizesFit(o, tail)
    case Then(Job(_, _, _, body), tail) => SizesFit(o, body) && SizesFit(o, tail)
  }

  /** The bytes accepted by a run's own asks, those of nested jobs not counted. */
  function OwnBytes(o: Options, s: Core, run: Run): nat
    decreases run
  {
    match run
    case Done => 0
    case Then(item, tail) =>
      (if item.AskItem? && Accepts(o, s, item.block) then item.block.size else 0) +
      OwnBytes(o, Exec(o, s, ItemCalls(item, true)), tail)
  }

  /** These bytes are within a limit; no bytes at all are within any. */
  predicate Within(bytes: nat, limit: real) {
    bytes == 0 || bytes as real <= limit
  }

  /** Which bytes the rounded budget lets pass. */
  lemma BudgetMeaning(o: Options, bytes: nat, limit: real)
    requires limit == o.maxPrefetchFrac * o.cacheBytes
    ensures bytes <= o.Budget() <==> Within(bytes, limit)
  {
  }

  /** Every job of a run, at any depth, accepts at most the limit. */
  predicate EveryJobWithin(o: Options, s: Core, run: Run, limit: real)
    decreases run
  {
    match run
    case Done => true
    case Then(item, tail) =>
      && (item.Job? ==>
            && Within(OwnBytes(o, Begin(o, s, item.isFlush, item.plan), item.body), limit)
            && EveryJobWithin(o, Begin(o, s, item.isFlush, item.plan), item.body, limit))
      && EveryJobWithin(o, Exec(o, s, ItemCalls(item, true)), tail, limit)
  }

  /** Calls with `kept` on or off move the core alike. */
  lemma {:induction false} KeptIsObservation(o: Options, s: Core, run: Run, kept: bool)
    ensures Exec(o, s, Calls(run, kept)) == Exec(o, s, Calls(run, true))
    decreases run
  {
    match run
    case Done =>
    case Then(item, tail) =>
      ExecConcat(o, s, ItemCalls(item, kept), Calls(tail, kept));
      ExecConcat(o, s, ItemCalls(item, true), Calls(tail, true));
      match item {
        case AskItem(b) =>
          OneStep(o, s, AskEvent(b, kept));
          OneStep(o, s, AskEvent(b, true));
        case HealthItem(miss) =>
        case Job(isFlush, plan, dropped, body) =>
          JobCalls(o, s, isFlush, plan, Calls(body, kept && !dropped));
          JobCalls(o, s, isFlush, plan, Calls(body, !dropped));
          KeptIsObservation(o, Begin(o, s, isFlush, plan), body, kept && !dropped);
          KeptIsObservation(o, Begin(o, s, isFlush, plan), body, !dropped);
      }
      KeptIsObservation(o, Exec(o, s, ItemCalls(item, true)), tail, kept);
  }

  lemma OwnBytesOfAsk(o: Options, s: Core, b: BlockRef, tail: Run)
    ensures OwnBytes(o, s, Then(AskItem(b), tail)) ==
      (if Accepts(o, s, b) then b.size else 0) + OwnBytes(o, Ask(o, s, b), tail)
  {
    OneStep(o, s, AskEvent(b, true));
  }

  lemma WrapSum(x: nat, y: nat, z: nat)
    ensures Wrap64(Wrap64(x + y) + z) == Wrap64(x + (y + z))
  {
    var q, r := (x + y) / TWO64, Wrap64(x + y);
    var q', r' := (r + z) / TWO64, Wrap64(r + z);
    WrapIs(x + (y + z), q + q', r');
  }

  /**
    The bytes spent are the run's own accepted bytes, nested jobs not counted, as far as 64 bits can
    tell, and never more than the budget; while no sum can wrap they are exactly those bytes.
   */
  lemma {:induction false} SpentIsOwnBytes(o: Options, s: Core, run: Run)
    requires s.ctx.spent <= s.ctx.budget == o.Budget() && s.ctx.spent < TWO64
    ensures var e := Exec(o, s, Calls(run, true));
      e.ctx.spent == Wrap64(s.ctx.spent + OwnBytes(o, s, run)) <= o.Budget()
    ensures SizesFit(o, run) ==>
      Exec(o, s, Calls(run, true)).ctx.spent == s.ctx.spent + OwnBytes(o, s, run) <= o.Budget()
    decreases run
  {
    match run
    case Done => WrapSmall(s.ctx.spent);
    case Then(item, tail) =>
      ExecConcat(o, s, ItemCalls(item, true), Calls(tail, true));
      ItemRestores(o, s, item, true);
      var s' := Exec(o, s, ItemCalls(item, true));
      if item.AskItem? { OneStep(o, s, AskEvent(item.block, true)); }
      SpentIsOwnBytes(o, s', tail);
      SpentStep(o, s, item, tail);
  }

  /** What is spent and what the rest will accept, before and after one item. */
  predicate SpendsAlike(o: Options, s: Core, item: Item, tail: Run, s': Core) {
    var before, after := s.ctx.spent + OwnBytes(o, s, Then(item, tail)), s'.ctx.spent + OwnBytes(o, s', tail);
    Wrap64(after) == Wrap64(before) && (SizesFit(o, Then(item, tail)) ==> after == before)
  }

  lemma SpentStep(o: Options, s: Core, item: Item, tail: Run)
    requires s.ctx.spent <= s.ctx.budget == o.Budget() && s.ctx.spent < TWO64
    ensures SpendsAlike(o, s, item, tail, Exec(o, s, ItemCalls(item, true)))
  {
    if item.AskItem? {
      OneStep(o, s, AskEvent(item.block, true));
      SpentByAsk(o, s, item.block, tail);
    } else {
      ItemRestores(o, s, item, true);
      var s' := Exec(o, s, ItemCalls(item, true));
      OwnBytesOfOther(o, s, item, tail);
      NothingSpent(o, s, item, tail, s');
    }
  }

  lemma OwnBytesOfOther(o: Options, s: Core, item: Item, tail: Run)
    requires !item.AskItem?
    ensures OwnBytes(o, s, Then(item, tail)) == OwnBytes(o, Exec(o, s, ItemCalls(item, true)), tail)
  {
  }

  lemma NothingSpent(o: Options, s: Core, item: Item, tail: Run, s': Core)
    requires s'.ctx == s.ctx && OwnBytes(o, s, Then(item, tail)) == OwnBytes(o, s', tail)
    ensures SpendsAlike(o, s, item, tail, s')
  {
  }

  lemma SpentByAsk(o: Options, s: Core, b: BlockRef, tail: Run)
    requires s.ctx.spent <= s.ctx.budget == o.Budget() && s.ctx.spent < TWO64
    ensures SpendsAlike(o, s, AskItem(b), tail, Ask(o, s, b))
  {
    var s' := Ask(o, s, b);
    OwnBytesOfAsk(o, s, b, tail);
    if Accepts(o, s, b) {
      AskSpends(s, b.size, s', OwnBytes(o, s', tail));
    } else {
      assert s'.ctx == s.ctx;
    }
  }

  lemma AskSpends(s: Core, size: nat, s': Core, rest: nat)
    requires s'.ctx.spent == Wrap64(s.ctx.spent + size) && s.ctx.spent < TWO64
    ensures Wrap64(s'.ctx.spent + rest) == Wrap64(s.ctx.spent + (size + rest))
    ensures s.ctx.spent + size < TWO64 ==> s'.ctx.spent + rest == s.ctx.spent + (size + rest)
  {
    WrapSum(s.ctx.spent, size, rest);
    WrapSmall(s.ctx.spent + size);
  }

  /** As 64 bits see it, every job of a run, at any depth, accepts at most the limit. */
  predicate EveryJobSeemsWithin(o: Options, s: Core, run: Run, limit: real)
    decreases run
  {
    match run
    case Done => true
    case Then(item, tail) =>
      && (item.Job? ==>
            && Within(Wrap64(OwnBytes(o, Begin(o, s, item.isFlush, item.plan), item.body)), limit)
            && EveryJobSeemsWithin(o, Begin(o, s, item.isFlush, item.plan), item.body, limit))
      && EveryJobSeemsWithin(o, Exec(o, s, ItemCalls(item, true)), tail, limit)
  }

  /**
    The per-job byte budget: in every well-bracketed run and under every policy, each job accepts at
    most max_prefetch_frac * cache_bytes modulo 2^64, exactly so while no sum can wrap, and nested jobs
    neither spend nor refund it.
   */
  lemma {:induction false} JobsStayWithinBudget(o: Options, s: Core, run: Run, limit: real)
    requires limit == o.maxPrefetchFrac * o.cacheBytes
    ensures EveryJobSeemsWithin(o, s, run, limit)
    ensures SizesFit(o, run) ==> EveryJobWithin(o, s, run, limit)
    decreases run
  {
    match run
    case Done =>
    case Then(item, tail) =>
      JobsStayWithinBudget(o, Exec(o, s, ItemCalls(item, true)), tail, limit);
      if item.Job? {
        var inner := Begin(o, s, item.isFlush, item.plan);
        var bytes := OwnBytes(o, inner, item.body);
        SpentIsOwnBytes(o, inner, item.body);
        BudgetMeaning(o, bytes, limit);
        BudgetMeaning(o, Wrap64(bytes), limit);
        JobsStayWithinBudget(o, inner, item.body, limit);
      }
  }

  /**
    Every ask of a job, and of the jobs nested in it, is answered by the limit: a wanted block is
    accepted iff the job's own accepted bytes, `own` so far, stay within it.
   */
  predicate AnsweredBy(o: Options, s: Core, run: Run, own: nat, limit: real)
    decreases run
  {
    match run
    case Done => true
    case Then(item, tail) =>
      var asked := item.AskItem? && Wants(o, s, item.block);
      && (asked ==> (Accepts(o, s, item.block) <==> Within(own + item.block.size, limit)))
      && (item.Job? ==> AnsweredBy(o, Begin(o, s, item.isFlush, item.plan), item.body, 0, limit))
      && AnsweredBy(o, Exec(o, s, ItemCalls(item, true)), tail,
                    own + (if asked && Accepts(o, s, item.block) then item.block.size else 0), limit)
  }

  /**
    The budget is max_prefetch_frac * cache_bytes, for every job at every depth: while no sum can wrap,
    a wanted block is refused if and only if it would bring the job's own bytes above that product.
   */
  lemma {:induction false} BudgetIsFraction(o: Options, s: Core, run: Run, limit: real)
    requires s.ctx.spent <= s.ctx.budget == o.Budget() < TWO64 && SizesFit(o, run)
    requires limit == o.maxPrefetchFrac * o.cacheBytes
    ensures AnsweredBy(o, s, run, s.ctx.spent, limit)
    decreases run
  {
    match run
    case Done =>
    case Then(item, tail) =>
      ItemRestores(o, s, item, true);
      if item.AskItem? {
        OneStep(o, s, AskEvent(item.block, true));
        WrapSmall(s.ctx.spent + item.block.size);
        BudgetMeaning(o, s.ctx.spent + item.block.size, limit);
      }
      if item.Job? { BudgetIsFraction(o, Begin(o, s, item.isFlush, item.plan), item.body, limit); }
      BudgetIsFraction(o, Exec(o, s, ItemCalls(item, true)), tail, limit);
  }

  /** What the policies want, in ids: everything, everything a flush writes, or what holds a planned id. */
  ghost predicate WantedBy(policy: Policy, isFlush: bool, active: bool, plan: seq<RangeSpan>, b: BlockRef) {
    || policy.WarmAll?
    || (policy.WarmFlush? && isFlush)
    || ((policy.IncrementalWarmup? || policy.Oracle? || (policy.Learned? && active)) &&
        exists r :: b.first <= r <= b.last && Covered(plan, r))
  }

  /**
    The first block offered to a job is accepted iff the policy wants it and it stays within
    max_prefetch_frac * cache_bytes, whatever job the new one interrupts. Leaper is active with phase 2
    on and while not suspended.
   */
  lemma FirstAskByPolicy(o: Options, s: Core, isFlush: bool, plan: seq<RangeSpan>, b: BlockRef)
    requires Ordered(plan) && b.first <= b.last && o.Budget() + b.size < TWO64
    ensures Accepts(o, Begin(o, s, isFlush, plan), b) <==>
      WantedBy(o.policy, isFlush, o.phase2 && !s.health.suspended, plan, b) &&
      Within(b.size, o.maxPrefetchFrac * o.cacheBytes)
  {
    WrapSmall(b.size);
    BudgetMeaning(o, b.size, o.maxPrefetchFrac * o.cacheBytes);
    MeetsIsContainsHot(b, plan);
  }

  /**
    When one decision is exact: a wanted block is accepted iff it fits what is left, if and only if
    the 64-bit sum does not wrap around to something within the budget.
   */
  lemma DecisionExactIff(o: Options, s: Core, b: BlockRef)
    requires Wants(o, s, b) && s.ctx.spent <= s.ctx.budget < TWO64 && b.size < TWO64
    ensures (Accepts(o, s, b) <==> s.ctx.spent + b.size <= s.ctx.budget) <==>
      !(TWO64 <= s.ctx.spent + b.size <= TWO64 + s.ctx.budget)
    ensures s.ctx.budget + b.size < TWO64 ==> (Accepts(o, s, b) <==> s.ctx.spent + b.size <= s.ctx.budget)
  {
    var sum := s.ctx.spent + b.size;
    if sum < TWO64 {
      WrapSmall(sum);
    } else {
      assert Wrap64(sum) == sum - TWO64;
    }
  }

  // ----- exactly when the budget holds --------------------------------------------------------

  /** No block of the run is larger than the limit. */
  predicate SizesAtMost(run: Run, limit: nat) {
    match run
    case Done => true
    case Then(AskItem(b), tail) => b.size <= limit && SizesAtMost(tail, limit)
    case Then(HealthItem(_), tail) => SizesAtMost(tail, limit)
    case Then(Job(_, _, _, body), tail) => SizesAtMost(body, limit) && SizesAtMost(tail, limit)
  }

  /** The policy warms blocks at all. */
  predicate CanWarm(o: Options) {
    match o.policy
    case Off => false
    case EagerEvict => false
    case Learned => o.phase2
    case _ => true
  }

  lemma {:induction false} SmallSizesFit(o: Options, run: Run, limit: nat)
    requires SizesAtMost(run, limit) && o.Budget() + limit < TWO64
    ensures SizesFit(o, run)
    decreases run
  {
    match run
    case Done =>
    case Then(item, tail) =>
      SmallSizesFit(o, tail, limit);
      if item.Job? { SmallSizesFit(o, item.body, limit); }
  }

  lemma {:induction false} NothingAccepted(o: Options, s: Core, run: Run)
    requires !CanWarm(o)
    ensures OwnBytes(o, s, run) == 0
    decreases run
  {
    match run
    case Done =>
    case Then(item, tail) => NothingAccepted(o, Exec(o, s, ItemCalls(item, true)), tail);
  }

  lemma {:induction false} NothingIsWithin(o: Options, s: Core, run: Run, limit: real)
    requires !CanWarm(o)
    ensures EveryJobWithin(o, s, run, limit)
    decreases run
  {
    match run
    case Done =>
    case Then(item, tail) =>
      NothingIsWithin(o, Exec(o, s, ItemCalls(item, true)), tail, limit);
      if item.Job? {
        var inner := Begin(o, s, item.isFlush, item.plan);
        NothingAccepted(o, inner, item.body);
        NothingIsWithin(o, inner, item.body, limit);
      }
  }

  /** A block of range 0. */
  function Sized(size: nat): BlockRef {
    BlockRef(0, 0, size, 0, 0)
  }

  /** n asks for one byte, then the tail. */
  function Bytewise(n: nat, tail: Run): Run {
    if n == 0 then tail else Then(AskItem(Sized(1)), Bytewise(n - 1, tail))
  }

  function Spending(s: Core, n: nat): Core {
    s.(ctx := s.ctx.(spent := s.ctx.spent + n), prefetched := s.prefetched + n)
  }

  /** Within the budget, n wanted bytes are all accepted. */
  lemma {:induction false} BytewiseSpends(o: Options, s: Core, n: nat, tail: Run)
    requires Wants(o, s, Sized(1)) && s.ctx.spent + n <= s.ctx.budget < TWO64
    ensures OwnBytes(o, s, Bytewise(n, tail)) == n + OwnBytes(o, Spending(s, n), tail)
    decreases n
  {
    if n == 0 {
      assert Spending(s, 0) == s;
    } else {
      OneByte(o, s);
      OwnBytesOfAsk(o, s, Sized(1), Bytewise(n - 1, tail));
      BytewiseSpends(o, Spending(s, 1), n - 1, tail);
      assert Spending(Spending(s, 1), n - 1) == Spending(s, n);
    }
  }

  lemma OneByte(o: Options, s: Core)
    requires Wants(o, s, Sized(1)) && s.ctx.spent + 1 <= s.ctx.budget < TWO64
    ensures Accepts(o, s, Sized(1)) && Ask(o, s, Sized(1)) == Spending(s, 1)
    ensures Wants(o, Spending(s, 1), Sized(1))
  {
    WrapSmall(s.ctx.spent + 1);
  }

  lemma {:induction false} BytewiseSizes(n: nat, tail: Run, limit: nat)
    requires limit >= 1 && SizesAtMost(tail, limit)
    ensures SizesAtMost(Bytewise(n, tail), limit)
  {
    if n > 0 { BytewiseSizes(n - 1, tail, limit); }
  }

  /** 2^64 - limit single bytes and a block of `limit` bytes: the sum wraps to 0 and all are accepted. */
  function Overdrawn(limit: nat): Run
    requires limit <= TWO64
  {
    Then(Job(true, [RangeSpan(0, 0)], false, Bytewise(TWO64 - limit, Then(AskItem(Sized(limit)), Done))), Done)
  }

  lemma OverdrawnExceeds(o: Options, size: nat, limit: real)
    requires CanWarm(o) && o.Budget() < TWO64 && size < TWO64 <= o.Budget() + size
    requires limit == o.maxPrefetchFrac * o.cacheBytes
    ensures SizesAtMost(Overdrawn(size), size) && !EveryJobWithin(o, FRESH, Overdrawn(size), limit)
  {
    var n: nat := TWO64 - size;
    var tail := Then(AskItem(Sized(size)), Done);
    BytewiseSizes(n, tail, size);
    var s := Begin(o, FRESH, true, [RangeSpan(0, 0)]);
    assert Meets(Sized(1), [RangeSpan(0, 0)]) && Meets(Sized(size), [RangeSpan(0, 0)]) by {
      assert [RangeSpan(0, 0)][0] == RangeSpan(0, 0);
    }
    BytewiseSpends(o, s, n, tail);
    WrapIs(n + size, 1, 0);
    OwnBytesOfAsk(o, Spending(s, n), Sized(size), Done);
    BudgetMeaning(o, n + size, limit);
  }

  /** With blocks of up to `size` bytes, every job of every well-bracketed run accepts at most the limit. */
  ghost predicate AllRunsWithin(o: Options, size: nat, limit: real) {
    forall run :: SizesAtMost(run, size) ==> EveryJobWithin(o, FRESH, run, limit)
  }

  /**
    For blocks of up to `size` bytes, all runs keep to max_prefetch_frac * cache_bytes per job if and
    only if the policy warms nothing or budget + size is below 2^64.
   */
  lemma BudgetHoldsIff(o: Options, size: nat, limit: real)
    requires o.Budget() < TWO64 && size < TWO64 && limit == o.maxPrefetchFrac * o.cacheBytes
    ensures AllRunsWithin(o, size, limit) <==> !CanWarm(o) || o.Budget() + size < TWO64
  {
    if !CanWarm(o) {
      forall run { NothingIsWithin(o, FRESH, run, limit); }
    } else if o.Budget() + size < TWO64 {
      forall run | SizesAtMost(run, size) ensures EveryJobWithin(o, FRESH, run, limit) {
        SmallSizesFit(o, run, size);
        JobsStayWithinBudget(o, FRESH, run, limit);
      }
    } else {
      OverdrawnExceeds(o, size, limit);
    }
  }

  function WantedCount(o: Options, s: Core, run: seq<Event>): nat
    decreases |run|
  {
    if run == [] then 0
    else
      (if run[0].AskEvent? && Wants(o, s, run[0].block) then 1 else 0) +
      WantedCount(o, Step(o, s, run[0]), run[1..])
  }

  /** In any run at all, accepted and refused blocks are together the wanted ones. */
  lemma {:induction false} AcceptedPlusRefused(o: Options, s: Core, run: seq<Event>)
    ensures var e := Exec(o, s, run);
      e.prefetched + e.refused == s.prefetched + s.refused + WantedCount(o, s, run)
    decreases |run|
  {
    if run != [] { AcceptedPlusRefused(o, Step(o, s, run[0]), run[1..]); }
  }
}
