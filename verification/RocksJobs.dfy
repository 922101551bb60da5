/**
  The RocksDB listener: flushes and compactions overlap without nesting, on several threads, against
  the one context stack of the core. Each section below runs under the adapter's mutex; a job is a
  Begin (predict and choose), then the take of its list, the warm reads outside the lock, and the pop.
 */
module RocksJobs {
  import opened Types
  import Jobs
  import LeaperCore
  import Overlap
  import RocksWarm
  import Ssad

  type JobId = int

  /** The candidate a range becomes: one range, no size. */
  function RangeBlock(r: RangeId): BlockRef {
    BlockRef(0, r, 0, r, r)
  }

  /** The asks of Begin from candidate r on. */
  function AskFrom(o: Jobs.Options, s: Jobs.Core, r: nat, n: nat): (Jobs.Core, seq<BlockRef>)
    requires r <= n
    decreases n - r
  {
    if r == n then (s, [])
    else
      var b := RangeBlock(r);
      var (e, rest) := AskFrom(o, Jobs.Ask(o, s, b), r + 1, n);
      (e, (if Jobs.Accepts(o, s, b) then [b] else []) + rest)
  }

  datatype System = System(core: Jobs.Core, pending: map<JobId, seq<BlockRef>>, warmed: map<JobId, seq<BlockRef>>)

  const IDLE := System(Jobs.FRESH, map[], map[])

  datatype Section =
    | Begin(job: JobId, isFlush: bool, plan: seq<RangeSpan>)
    | Take(job: JobId)
    | Pop(job: JobId)

  function Step(o: Jobs.Options, n: nat, s: System, e: Section): System {
    match e
    case Begin(job, isFlush, plan) =>
      var (core, chosen) := AskFrom(o, Jobs.Begin(o, s.core, isFlush, plan), 0, n);
      s.(core := core, pending := s.pending[job := chosen])
    case Take(job) =>
      s.(pending := s.pending - {job},
         warmed := s.warmed[job := if job in s.pending then s.pending[job] else []])
    case Pop(job) =>
      s.(core := Jobs.End(s.core))
  }

  function Exec(o: Jobs.Options, n: nat, run: seq<Section>): System {
    if run == [] then IDLE else Step(o, n, Exec(o, n, run[..|run| - 1]), run[|run| - 1])
  }

  // ----- interleavings ----------------------------------------------------------------------

  /** How far a job has come: 0 not begun, 1 begun, 2 list taken, 3 popped. */
  function Phase(run: seq<Section>, job: JobId): nat {
    if run == [] then 0
    else if run[|run| - 1].job == job then
      match run[|run| - 1]
      case Begin(_, _, _) => 1
      case Take(_) => 2
      case Pop(_) => 3
    else Phase(run[..|run| - 1], job)
  }

  /** Every job begins once, then takes, then pops; jobs interleave at will. */
  predicate WellFormed(run: seq<Section>) {
    run != [] ==>
      var before, e := run[..|run| - 1], run[|run| - 1];
      && WellFormed(before)
      && Phase(before, e.job) == match e { case Begin(_, _, _) => 0 case Take(_) => 1 case Pop(_) => 2 }
  }

  /** Jobs begun but not popped. */
  function Live(run: seq<Section>): (jobs: set<JobId>)
    ensures forall job :: job in jobs <==> 1 <= Phase(run, job) <= 2
  {
    if run == [] then {}
    else
      var e := run[|run| - 1];
      if e.Pop? then Live(run[..|run| - 1]) - {e.job} else Live(run[..|run| - 1]) + {e.job}
  }

  /** A job's Begin, with its arguments. */
  function BeginOf(run: seq<Section>, job: JobId): (begin: Section)
    requires Phase(run, job) >= 1 && WellFormed(run)
    ensures begin.Begin? && begin.job == job && begin in run
  {
    var e := run[|run| - 1];
    if e.job == job && e.Begin? then e else BeginOf(run[..|run| - 1], job)
  }

  /** What a job chooses and warms when no other job is about. */
  function Alone(o: Jobs.Options, n: nat, begin: Section): seq<BlockRef>
    requires begin.Begin?
  {
    AskFrom(o, Jobs.Begin(o, Jobs.FRESH, begin.isFlush, begin.plan), 0, n).1
  }

  // ----- choosing does not depend on what is on the stack ---------------------------------------

  /** The asks of a Begin are free: sizes are 0, so the context stays and so do the answers. */
  lemma {:induction false} AskingIsFree(o: Jobs.Options, s: Jobs.Core, t: Jobs.Core, r: nat, n: nat)
    requires r <= n && s.ctx == t.ctx && s.health == t.health && s.ctx.spent == 0
    ensures var (e, chosen) := AskFrom(o, s, r, n);
      && e.ctx == s.ctx && e.stack == s.stack && e.health == s.health
      && chosen == AskFrom(o, t, r, n).1
    decreases n - r
  {
    if r < n {
      WrapSmall(0);
      AskingIsFree(o, Jobs.Ask(o, s, RangeBlock(r)), Jobs.Ask(o, t, RangeBlock(r)), r + 1, n);
    }
  }

  /** The list is exactly the ranges the policy wants, in order. */
  lemma {:induction false} ChosenAreWanted(o: Jobs.Options, s: Jobs.Core, r: nat, n: nat, q: RangeId)
    requires r <= n && s.ctx.spent == 0
    ensures RangeBlock(q) in AskFrom(o, s, r, n).1 <==> r <= q < n && Jobs.Wants(o, s, RangeBlock(q))
    decreases n - r
  {
    if r < n {
      WrapSmall(0);
      var s' := Jobs.Ask(o, s, RangeBlock(r));
      ChosenAreWanted(o, s', r + 1, n, q);
      assert Jobs.Wants(o, s', RangeBlock(q)) <==> Jobs.Wants(o, s, RangeBlock(q));
    }
  }

  // ----- isolation --------------------------------------------------------------------------

  predicate Isolated(o: Jobs.Options, n: nat, run: seq<Section>, lists: map<JobId, seq<BlockRef>>, job: JobId)
    requires WellFormed(run)
  {
    job in lists && Phase(run, job) >= 1 ==> lists[job] == Alone(o, n, BeginOf(run, job))
  }

  lemma BeginOfLater(run: seq<Section>, job: JobId)
    requires WellFormed(run) && run != [] && Phase(run[..|run| - 1], job) >= 1
    ensures Phase(run, job) >= 1 && BeginOf(run, job) == BeginOf(run[..|run| - 1], job)
  {
  }

  /** The stack holds one context per live job, above the initial one. */
  lemma {:induction false} StackIsLive(o: Jobs.Options, n: nat, run: seq<Section>)
    requires WellFormed(run)
    ensures var c := Exec(o, n, run).core;
      && |c.stack| == |Live(run)| && c.health == Ssad.INITIAL
      && (if c.stack == [] then c.ctx == Jobs.NO_JOB else c.stack[0] == Jobs.NO_JOB)
  {
    if run != [] {
      var before, e := run[..|run| - 1], run[|run| - 1];
      StackIsLive(o, n, before);
      if e.Begin? {
        var mine := Jobs.Begin(o, Exec(o, n, before).core, e.isFlush, e.plan);
        AskingIsFree(o, mine, mine, 0, n);
      }
    }
  }

  /** A list waits from its job's Begin to its take, and is there from then on. */
  lemma {:induction false} ListsFollowPhases(o: Jobs.Options, n: nat, run: seq<Section>)
    requires WellFormed(run)
    ensures var s := Exec(o, n, run);
      && (forall job :: job in s.pending <==> Phase(run, job) == 1)
      && (forall job :: job in s.warmed <==> Phase(run, job) >= 2)
  {
    if run != [] { ListsFollowPhases(o, n, run[..|run| - 1]); }
  }

  /** What a Begin chooses on top of any stack is what it would choose alone. */
  lemma ChoosesAlone(o: Jobs.Options, n: nat, core: Jobs.Core, begin: Section)
    requires begin.Begin? && core.health == Ssad.INITIAL
    ensures AskFrom(o, Jobs.Begin(o, core, begin.isFlush, begin.plan), 0, n).1 == Alone(o, n, begin)
  {
    AskingIsFree(o, Jobs.Begin(o, core, begin.isFlush, begin.plan),
                 Jobs.Begin(o, Jobs.FRESH, begin.isFlush, begin.plan), 0, n);
  }

  lemma {:induction false} ListsAreOwn(o: Jobs.Options, n: nat, run: seq<Section>, job: JobId)
    requires WellFormed(run)
    ensures var s := Exec(o, n, run); Isolated(o, n, run, s.pending, job) && Isolated(o, n, run, s.warmed, job)
  {
    if run != [] {
      var before, e := run[..|run| - 1], run[|run| - 1];
      var s := Exec(o, n, before);
      ListsAreOwn(o, n, before, job);
      ListsFollowPhases(o, n, before);
      if Phase(before, job) >= 1 { BeginOfLater(run, job); }
      if e.Begin? {
        StackIsLive(o, n, before);
        ChoosesAlone(o, n, s.core, e);
        if e.job == job { assert BeginOf(run, job) == e; }
      }
    }
  }

  /**
    Job isolation. For every interleaving of overlapping jobs: the stack is as deep as there are jobs
    begun and not popped; its bottom is the initial context, which is back whenever no job is live,
    even after out-of-order ends; and every job warms exactly the list it would have chosen alone.
   */
  lemma {:induction false} JobIsolation(o: Jobs.Options, n: nat, run: seq<Section>)
    requires WellFormed(run)
    ensures var s := Exec(o, n, run);
      && |s.core.stack| == |Live(run)| && s.core.health == Ssad.INITIAL
      && (if s.core.stack == [] then s.core.ctx == Jobs.NO_JOB else s.core.stack[0] == Jobs.NO_JOB)
      && (forall job :: job in s.pending <==> Phase(run, job) == 1)
      && (forall job :: job in s.warmed <==> Phase(run, job) >= 2)
      && (forall job :: Isolated(o, n, run, s.pending, job))
      && (forall job :: Isolated(o, n, run, s.warmed, job))
  {
    StackIsLive(o, n, run);
    ListsFollowPhases(o, n, run);
    var s := Exec(o, n, run);
    forall job ensures Isolated(o, n, run, s.pending, job) && Isolated(o, n, run, s.warmed, job) {
      ListsAreOwn(o, n, run, job);
    }
  }

  /**
    Why the pop takes the same mutex: if any pop slips between a flush's Begin and its asks, the
    context of the compaction below comes back and the flush chooses nothing.
   */
  lemma ChoosingMustBeAtomic(o: Jobs.Options, n: nat)
    requires o.policy.WarmFlush? && n >= 1
    ensures var compaction := Jobs.Begin(o, Jobs.FRESH, false, []);
      var flush := Jobs.Begin(o, compaction, true, []);
      && RangeBlock(0) in AskFrom(o, flush, 0, n).1
      && RangeBlock(0) !in AskFrom(o, Jobs.End(flush), 0, n).1
  {
    var flush := Jobs.Begin(o, Jobs.Begin(o, Jobs.FRESH, false, []), true, []);
    ChosenAreWanted(o, flush, 0, n, 0);
    ChosenAreWanted(o, Jobs.End(flush), 0, n, 0);
  }

  // ----- the listener -----------------------------------------------------------------------

  lemma {:induction false} ChosenAreRangeBlocks(o: Jobs.Options, s: Jobs.Core, r: nat, n: nat)
    requires r <= n
    ensures forall b :: b in AskFrom(o, s, r, n).1 ==> b == RangeBlock(b.first)
    decreases n - r
  {
    if r < n { ChosenAreRangeBlocks(o, Jobs.Ask(o, s, RangeBlock(r)), r + 1, n); }
  }

  lemma FirstsOfRangeBlocks(chosen: seq<BlockRef>, ids: seq<RangeId>, r: RangeId)
    requires |ids| == |chosen| && forall i :: 0 <= i < |ids| ==> ids[i] == chosen[i].first
    requires forall b :: b in chosen ==> b == RangeBlock(b.first)
    ensures r in ids <==> RangeBlock(r) in chosen
  {
    if r in ids {
      var i :| 0 <= i < |ids| && ids[i] == r;
      assert chosen[i] in chosen;
    }
    if RangeBlock(r) in chosen {
      var i :| 0 <= i < |chosen| && chosen[i] == RangeBlock(r);
      assert ids[i] == r;
    }
  }

  /** A plan that covers exactly these ids. */
  ghost predicate PlansFor(plan: seq<RangeSpan>, hot: seq<RangeId>) {
    Overlap.Ordered(plan) && forall r :: Overlap.Covered(plan, r) <==> r in hot
  }

  /** The learned policy, not suspended: a job chooses exactly the ranges its own prediction calls hot. */
  lemma ChosenAreHot(o: Jobs.Options, n: nat, core: Jobs.Core, isFlush: bool, plan: seq<RangeSpan>, hot: seq<RangeId>,
                     q: RangeId)
    requires o.policy.Learned? && o.phase2 && !core.health.suspended && PlansFor(plan, hot)
    ensures RangeBlock(q) in AskFrom(o, Jobs.Begin(o, core, isFlush, plan), 0, n).1 <==> q < n && q in hot
  {
    var s := Jobs.Begin(o, core, isFlush, plan);
    ChosenAreWanted(o, s, 0, n, q);
    Overlap.MeetsIsContainsHot(RangeBlock(q), plan);
    assert Overlap.Covered(plan, q) <==> q in hot;
  }

  /** So in every interleaving a job warms exactly the ranges its own prediction called hot. */
  lemma JobWarmsItsHotRanges(o: Jobs.Options, n: nat, run: seq<Section>, job: JobId, hot: seq<RangeId>, q: RangeId)
    requires o.policy.Learned? && o.phase2 && WellFormed(run) && Phase(run, job) >= 2
    requires PlansFor(BeginOf(run, job).plan, hot)
    ensures var s := Exec(o, n, run);
      job in s.warmed && (RangeBlock(q) in s.warmed[job] <==> q < n && q in hot)
  {
    var begin := BeginOf(run, job);
    ListsFollowPhases(o, n, run);
    ListsAreOwn(o, n, run, job);
    ChosenAreHot(o, n, Jobs.FRESH, begin.isFlush, begin.plan, hot, q);
  }

  /** The candidates of a Begin: every range. */
  function RangeBlocks(n: nat): (blocks: seq<BlockRef>)
    ensures |blocks| == n && forall r :: 0 <= r < n ==> blocks[r] == RangeBlock(r)
  {
    seq(n, r requires 0 <= r < n => RangeBlock(r))
  }

  class Listener {
    const core: LeaperCore.LeaperImpl
    const numRanges: nat
    const prepop: bool
    var pendingByJob: map<JobId, seq<BlockRef>>
    var warmed: nat

    ghost function State(): System
      reads this, core
    {
      System(core.State(), pendingByJob, map[])
    }

    constructor (core: LeaperCore.LeaperImpl, numRanges: nat, prepop: bool)
      ensures this.core == core && this.numRanges == numRanges && this.prepop == prepop
      ensures pendingByJob == map[] && warmed == 0
    {
      this.core, this.numRanges, this.prepop := core, numRanges, prepop;
      pendingByJob, warmed := map[], 0;
    }

    /** The asks of Begin. */
    method Choose() returns (chosen: seq<BlockRef>)
      requires core.ValidJobs()
      modifies core`prefetchedBytes, core`blocksPrefetched, core`refusedBudget
      ensures (core.State(), chosen) == AskFrom(core.opt.jobs, old(core.State()), 0, numRanges)
    {
      ghost var o := core.opt.jobs;
      ghost var all := AskFrom(o, core.State(), 0, numRanges);
      chosen := [];
      for r := 0 to numRanges
        invariant AskFrom(o, core.State(), r, numRanges).0 == all.0
        invariant chosen + AskFrom(o, core.State(), r, numRanges).1 == all.1
      {
        var b := RangeBlock(r);
        var yes := core.ShouldPrefetch(b);
        if yes { chosen := chosen + [b]; }
      }
      assert chosen + [] == chosen;
    }

    /** The core's Begin over every range, and the asks; the plan is what the core made of it. */
    method PredictAndChoose(info: LeaperCore.CompactionInfo, nowUs: nat)
      returns (chosen: seq<BlockRef>, ghost plan: seq<RangeSpan>)
      requires core.Valid() && core.clock <= nowUs
      modifies core, core.predictor, core.cache
      ensures core.Valid() && core.ssadSuspended == old(core.ssadSuspended)
      ensures (core.State(), chosen) ==
        AskFrom(core.opt.jobs, Jobs.Begin(core.opt.jobs, old(core.State()), info.isFlush, plan), 0, numRanges)
      ensures core.opt.jobs.policy.Learned? && !core.opt.dryRun && !core.ssadSuspended ==>
        PlansFor(plan, core.PhasesOf(info, RangeBlocks(numRanges), nowUs).1)
    {
      var candidates := RangeBlocks(numRanges);
      ghost var hot1, hot2, evictions := core.OnCompactionBegin(info, candidates, nowUs);
      plan := core.hotT2;
      chosen := Choose();
    }

    /**
      Listener::Begin. `mine` is the prepop job of the thread. In prepop mode the chosen ranges go to
      that job and the map stays as it is. An unsuspended Leaper chooses exactly the ranges scored hot
      in its own second step range, whatever other jobs are on the stack.
     */
    method Begin(job: JobId, info: LeaperCore.CompactionInfo, nowUs: nat, mine: RocksWarm.PrepopJob)
      returns (ghost plan: seq<RangeSpan>)
      requires core.Valid() && core.clock <= nowUs
      modifies this, mine, core, core.predictor, core.cache
      ensures core.Valid()
      ensures var s := Step(core.opt.jobs, numRanges, old(State()), Section.Begin(job, info.isFlush, plan));
        && core.State() == s.core
        && (!prepop ==> pendingByJob == s.pending && warmed == old(warmed))
        && (prepop ==>
              && pendingByJob == old(pendingByJob) && warmed == old(warmed) + |s.pending[job]|
              && mine.Valid() && mine.active && mine.budgetLeft == mine.blockBudget
              && forall r: RangeId :: r in mine.hot <==> RangeBlock(r) in s.pending[job])
      ensures var o := core.opt;
        var s := Step(o.jobs, numRanges, old(State()), Section.Begin(job, info.isFlush, plan));
        o.jobs.policy.Learned? && o.jobs.phase2 && !o.dryRun && !core.ssadSuspended ==>
          forall r: RangeId :: RangeBlock(r) in s.pending[job] <==>
            r < numRanges && core.HotAfter(info, RangeBlocks(numRanges), nowUs, r)
    {
      ghost var before := core.State();
      var chosen;
      chosen, plan := PredictAndChoose(info, nowUs);
      HotIfLearned(info, nowUs, before, plan);
      core.PhasesOfMeaning(info, RangeBlocks(numRanges), nowUs);
      if prepop {
        var ids := seq(|chosen|, i requires 0 <= i < |chosen| => chosen[i].first);
        ChosenAreRangeBlocks(core.opt.jobs, Jobs.Begin(core.opt.jobs, before, info.isFlush, plan), 0, numRanges);
        forall r: RangeId ensures r in ids <==> RangeBlock(r) in chosen { FirstsOfRangeBlocks(chosen, ids, r); }
        mine.Start(ids);
        warmed := warmed + |chosen|;
        return;
      }
      pendingByJob := pendingByJob[job := chosen];
    }

    lemma HotIfLearned(info: LeaperCore.CompactionInfo, nowUs: nat, before: Jobs.Core, plan: seq<RangeSpan>)
      requires core.Valid() && before.health.suspended == core.ssadSuspended
      requires core.opt.jobs.policy.Learned? && !core.opt.dryRun && !core.ssadSuspended ==>
        PlansFor(plan, core.PhasesOf(info, RangeBlocks(numRanges), nowUs).1)
      ensures var begun := Jobs.Begin(core.opt.jobs, before, info.isFlush, plan);
        var chosen := AskFrom(core.opt.jobs, begun, 0, numRanges).1;
        core.opt.jobs.policy.Learned? && core.opt.jobs.phase2 && !core.opt.dryRun && !core.ssadSuspended ==>
          forall r: RangeId :: RangeBlock(r) in chosen <==>
            r < numRanges && r in core.PhasesOf(info, RangeBlocks(numRanges), nowUs).1
    {
      if core.opt.jobs.policy.Learned? && core.opt.jobs.phase2 && !core.opt.dryRun && !core.ssadSuspended {
        var hot := core.PhasesOf(info, RangeBlocks(numRanges), nowUs).1;
        forall r: RangeId { ChosenAreHot(core.opt.jobs, numRanges, before, info.isFlush, plan, hot, r); }
      }
    }

    /** The first section of Listener::End: the job's list, if it has one, leaves the map. */
    method TakePending(job: JobId) returns (chosen: seq<BlockRef>)
      modifies this`pendingByJob
      ensures var s := Step(core.opt.jobs, numRanges, old(State()), Take(job));
        pendingByJob == s.pending && chosen == s.warmed[job]
    {
      chosen := [];
      if job in pendingByJob {
        chosen := pendingByJob[job];
        pendingByJob := pendingByJob - {job};
      }
      assert pendingByJob == old(pendingByJob) - {job};
    }

    /** The last section of Listener::End. */
    method PopCore(job: JobId)
      requires core.ValidJobs()
      modifies core`hotT2, core`prefetchedBytes, core`budgetBytes, core`curIsFlush, core`ctxStack
      ensures core.ValidJobs() && core.State() == Step(core.opt.jobs, numRanges, old(State()), Pop(job)).core
    {
      core.OnCompactionEnd();
    }
  }
}
