/**
  The LevelDB adapter. A block can be warmed only once its file has been finished, so accepted blocks
  wait in a list; a flush that lands inside a compaction, even inside one of its output files, puts
  the compaction's list and current file aside and gives them back.
 */
module LevelDb {
  import opened Types
  import Jobs
  import LeaperCore

  /** The blocks handed over for warming when a file finishes. */
  datatype Batch = Batch(file: nat, blocks: seq<BlockRef>)

  datatype Saved = Saved(pending: seq<BlockRef>, current: nat)

  datatype Adapter = Adapter(
    core: Jobs.Core, pending: seq<BlockRef>, current: nat, nested: seq<Saved>, handed: seq<Batch>)

  datatype Callback =
    | Begin(isFlush: bool, plan: seq<RangeSpan>)
    | FileStart(file: nat)
    | OutBlock(block: BlockRef)
    | FileFinished(file: nat)
    | End
    | Health(miss: real)

  function OfFile(blocks: seq<BlockRef>, file: nat): seq<BlockRef> {
    if blocks == [] then []
    else (if blocks[0].file == file then [blocks[0]] else []) + OfFile(blocks[1..], file)
  }

  function NotOfFile(blocks: seq<BlockRef>, file: nat): seq<BlockRef> {
    if blocks == [] then []
    else (if blocks[0].file != file then [blocks[0]] else []) + NotOfFile(blocks[1..], file)
  }

  function Hand(handed: seq<Batch>, file: nat, blocks: seq<BlockRef>): seq<Batch> {
    if blocks == [] then handed else handed + [Batch(file, blocks)]
  }

  function Step(o: Jobs.Options, a: Adapter, e: Callback): Adapter {
    match e
    case Begin(isFlush, plan) =>
      a.(nested := a.nested + [Saved(a.pending, a.current)], pending := [], current := 0,
         core := Jobs.Begin(o, a.core, isFlush, plan))
    case FileStart(file) => a.(current := file)
    case OutBlock(block) =>
      var b := block.(file := a.current);
      a.(core := Jobs.Ask(o, a.core, b), pending := a.pending + if Jobs.Accepts(o, a.core, b) then [b] else [])
    case FileFinished(file) =>
      a.(pending := NotOfFile(a.pending, file), handed := Hand(a.handed, file, OfFile(a.pending, file)))
    case End =>
      var a' := a.(core := Jobs.End(a.core));
      if a.nested == [] then a'
      else
        var outer := a.nested[|a.nested| - 1];
        a'.(pending := outer.pending, current := outer.current, nested := a.nested[..|a.nested| - 1])
    case Health(miss) => a.(core := Jobs.Report(o, a.core, miss))
  }

  function Exec(o: Jobs.Options, a: Adapter, run: seq<Callback>): Adapter
    decreases |run|
  {
    if run == [] then a else Exec(o, Step(o, a, run[0]), run[1..])
  }

  lemma {:induction false} ExecConcat(o: Jobs.Options, a: Adapter, x: seq<Callback>, y: seq<Callback>)
    ensures Exec(o, a, x + y) == Exec(o, Exec(o, a, x), y)
    decreases |x|
  {
    if x == [] {
      assert x + y == y;
    } else {
      assert (x + y)[1..] == x[1..] + y;
      ExecConcat(o, Step(o, a, x[0]), x[1..], y);
    }
  }

  lemma ExecFirst(o: Jobs.Options, a: Adapter, e: Callback, rest: seq<Callback>)
    ensures Exec(o, a, [e] + rest) == Exec(o, Step(o, a, e), rest)
  {
    assert ([e] + rest)[1..] == rest;
  }

  /** In any run of callbacks, matched or not, adapter and core keep stacks of the same depth. */
  lemma {:induction false} SameDepth(o: Jobs.Options, a: Adapter, run: seq<Callback>)
    requires |a.nested| == |a.core.stack|
    ensures |Exec(o, a, run).nested| == |Exec(o, a, run).core.stack|
    decreases |run|
  {
    if run != [] { SameDepth(o, Step(o, a, run[0]), run[1..]); }
  }

  // ----- what the engine does, as a tree ----------------------------------------------------

  datatype Job = Job(isFlush: bool, plan: seq<RangeSpan>, outputs: Outputs)

  /** A job writes output files one after the other; flushes may run between them. */
  datatype Outputs =
    | NoMore
    | Output(file: nat, content: Content, finished: bool, rest: Outputs)
    | Between(job: Job, rest: Outputs)
    | ReportThen(miss: real, rest: Outputs)

  /** Inside one output file: its blocks, flushes that land in the middle, health reports. */
  datatype Content =
    | NoMoreBlocks
    | Block(block: BlockRef, rest': Content)
    | Inside(job: Job, rest': Content)
    | ReportIn(miss: real, rest': Content)

  function JobCalls(job: Job): seq<Callback>
    decreases job
  {
    [Begin(job.isFlush, job.plan)] + OutputCalls(job.outputs) + [End]
  }

  function OutputCalls(outputs: Outputs): seq<Callback>
    decreases outputs
  {
    match outputs
    case NoMore => []
    case Output(file, content, finished, rest) =>
      var last := if finished then [FileFinished(file)] else [];
      [FileStart(file)] + (ContentCalls(content) + (last + OutputCalls(rest)))
    case Between(job, rest) => JobCalls(job) + OutputCalls(rest)
    case ReportThen(miss, rest) => [Health(miss)] + OutputCalls(rest)
  }

  function ContentCalls(content: Content): seq<Callback>
    decreases content
  {
    match content
    case NoMoreBlocks => []
    case Block(block, rest) => [OutBlock(block)] + ContentCalls(rest)
    case Inside(job, rest) => JobCalls(job) + ContentCalls(rest)
    case ReportIn(miss, rest) => [Health(miss)] + ContentCalls(rest)
  }

  // ----- what should be handed over -------------------------------------------------------------

  /** core: the core's state afterwards; accepted: blocks of the file itself; batches: by nested jobs. */
  datatype Written = Written(core: Jobs.Core, accepted: seq<BlockRef>, batches: seq<Batch>)

  /** The blocks of one file the core accepts, and the batches of jobs nested in it. */
  function WriteContent(o: Jobs.Options, s: Jobs.Core, file: nat, content: Content): Written
    decreases content
  {
    match content
    case NoMoreBlocks => Written(s, [], [])
    case Block(block, rest) =>
      var b := block.(file := file);
      var w := WriteContent(o, Jobs.Ask(o, s, b), file, rest);
      w.(accepted := (if Jobs.Accepts(o, s, b) then [b] else []) + w.accepted)
    case Inside(job, rest) =>
      var j := WriteJob(o, s, job);
      var w := WriteContent(o, j.core, file, rest);
      w.(batches := j.batches + w.batches)
    case ReportIn(miss, rest) => WriteContent(o, Jobs.Report(o, s, miss), file, rest)
  }

  /** One batch per finished file, holding exactly its accepted blocks; `accepted` are the leftovers. */
  function WriteOutputs(o: Jobs.Options, s: Jobs.Core, outputs: Outputs): Written
    decreases outputs
  {
    match outputs
    case NoMore => Written(s, [], [])
    case Output(file, content, finished, rest) =>
      var w := WriteContent(o, s, file, content);
      var r := WriteOutputs(o, w.core, rest);
      if finished then Written(r.core, r.accepted, Hand(w.batches, file, w.accepted) + r.batches)
      else Written(r.core, w.accepted + r.accepted, w.batches + r.batches)
    case Between(job, rest) =>
      var j := WriteJob(o, s, job);
      var r := WriteOutputs(o, j.core, rest);
      r.(batches := j.batches + r.batches)
    case ReportThen(miss, rest) => WriteOutputs(o, Jobs.Report(o, s, miss), rest)
  }

  function WriteJob(o: Jobs.Options, s: Jobs.Core, job: Job): Written
    decreases job
  {
    var w := WriteOutputs(o, Jobs.Begin(o, s, job.isFlush, job.plan), job.outputs);
    Written(Jobs.End(w.core), w.accepted, w.batches)
  }

  // ----- fresh file numbers -----------------------------------------------------------------

  function FilesOf(outputs: Outputs): set<nat> {
    match outputs
    case NoMore => {}
    case Output(file, _, _, rest) => {file} + FilesOf(rest)
    case Between(_, rest) => FilesOf(rest)
    case ReportThen(_, rest) => FilesOf(rest)
  }

  /** No job writes two files of the same number. */
  predicate FreshJob(job: Job)
    decreases job
  {
    FreshOutputs(job.outputs)
  }

  predicate FreshOutputs(outputs: Outputs)
    decreases outputs
  {
    match outputs
    case NoMore => true
    case Output(file, content, _, rest) => file !in FilesOf(rest) && FreshContent(content) && FreshOutputs(rest)
    case Between(job, rest) => FreshJob(job) && FreshOutputs(rest)
    case ReportThen(_, rest) => FreshOutputs(rest)
  }

  predicate FreshContent(content: Content)
    decreases content
  {
    match content
    case NoMoreBlocks => true
    case Block(_, rest) => FreshContent(rest)
    case Inside(job, rest) => FreshJob(job) && FreshContent(rest)
    case ReportIn(_, rest) => FreshContent(rest)
  }

  // ----- exactly once -----------------------------------------------------------------------

  lemma {:induction false} SplitByFile(old': seq<BlockRef>, own: seq<BlockRef>, file: nat)
    requires NoneWaits(old', {file}) && AllOfFile(own, file)
    ensures OfFile(old' + own, file) == own && NotOfFile(old' + own, file) == old'
    decreases |old'|, |own|
  {
    if old' != [] {
      assert (old' + own)[1..] == old'[1..] + own;
      SplitByFile(old'[1..], own, file);
    } else if own != [] {
      assert old' + own == own;
      assert [] + own[1..] == own[1..];
      SplitByFile([], own[1..], file);
    }
  }

  predicate AllOfFile(blocks: seq<BlockRef>, file: nat) {
    forall i :: 0 <= i < |blocks| ==> blocks[i].file == file
  }

  lemma {:induction false} AcceptedOfFile(o: Jobs.Options, s: Jobs.Core, file: nat, content: Content)
    ensures AllOfFile(WriteContent(o, s, file, content).accepted, file)
    decreases content
  {
    match content
    case NoMoreBlocks =>
    case Block(block, rest) =>
      var b := block.(file := file);
      AcceptedOfFile(o, Jobs.Ask(o, s, b), file, rest);
      var more := WriteContent(o, Jobs.Ask(o, s, b), file, rest).accepted;
      assert WriteContent(o, s, file, content).accepted == (if Jobs.Accepts(o, s, b) then [b] else []) + more;
    case Inside(job, rest) =>
      var j := WriteJob(o, s, job);
      AcceptedOfFile(o, j.core, file, rest);
      assert WriteContent(o, s, file, content).accepted == WriteContent(o, j.core, file, rest).accepted;
    case ReportIn(miss, rest) =>
      AcceptedOfFile(o, Jobs.Report(o, s, miss), file, rest);
      assert WriteContent(o, s, file, content) == WriteContent(o, Jobs.Report(o, s, miss), file, rest);
  }

  /** Writing a file adds its accepted blocks to the waiting list, across the flushes inside it. */
  lemma {:induction false} ContentExec(o: Jobs.Options, a: Adapter, content: Content)
    requires FreshContent(content)
    ensures var w := WriteContent(o, a.core, a.current, content);
      Exec(o, a, ContentCalls(content)) ==
        a.(core := w.core, pending := a.pending + w.accepted, handed := a.handed + w.batches)
    decreases content, 0
  {
    match content
    case NoMoreBlocks =>
    case Block(block, rest) =>
      ExecFirst(o, a, OutBlock(block), ContentCalls(rest));
      ContentExec(o, Step(o, a, OutBlock(block)), rest);
    case Inside(job, rest) =>
      ExecConcat(o, a, JobCalls(job), ContentCalls(rest));
      JobExec(o, a, job);
      ContentExec(o, Exec(o, a, JobCalls(job)), rest);
    case ReportIn(miss, rest) =>
      ExecFirst(o, a, Health(miss), ContentCalls(rest));
      ContentExec(o, Step(o, a, Health(miss)), rest);
  }

  function LastFile(outputs: Outputs, current: nat): nat {
    match outputs
    case NoMore => current
    case Output(file, _, _, rest) => LastFile(rest, file)
    case Between(_, rest) => LastFile(rest, current)
    case ReportThen(_, rest) => LastFile(rest, current)
  }

  predicate NoneWaits(pending: seq<BlockRef>, files: set<nat>) {
    forall i :: 0 <= i < |pending| ==> pending[i].file !in files
  }

  function FileCalls(file: nat, content: Content, finished: bool): seq<Callback> {
    [FileStart(file)] + (ContentCalls(content) + if finished then [FileFinished(file)] else [])
  }

  lemma FileExec(o: Jobs.Options, a: Adapter, file: nat, content: Content, finished: bool)
    requires FreshContent(content) && NoneWaits(a.pending, {file})
    ensures Exec(o, a, FileCalls(file, content, finished)) ==
      WroteFile(a, WriteContent(o, a.core, file, content), file, finished)
    decreases content, 1
  {
    var tail := if finished then [FileFinished(file)] else [];
    var a1 := Step(o, a, FileStart(file));
    ExecFirst(o, a, FileStart(file), ContentCalls(content) + tail);
    ExecConcat(o, a1, ContentCalls(content), tail);
    ContentExec(o, a1, content);
    if finished {
      var w := WriteContent(o, a.core, file, content);
      AcceptedOfFile(o, a.core, file, content);
      SplitByFile(a.pending, w.accepted, file);
      ExecFirst(o, Exec(o, a1, ContentCalls(content)), FileFinished(file), []);
      assert [FileFinished(file)] + [] == [FileFinished(file)];
    }
  }

  lemma {:induction false} OutputsExec(o: Jobs.Options, a: Adapter, outputs: Outputs)
    requires FreshOutputs(outputs) && NoneWaits(a.pending, FilesOf(outputs))
    ensures Exec(o, a, OutputCalls(outputs)) == Wrote(a, WriteOutputs(o, a.core, outputs), LastFile(outputs, a.current))
    decreases outputs, 2
  {
    match outputs
    case NoMore =>
    case Output(file, content, finished, rest) =>
      OneFileMore(o, a, outputs);
    case Between(job, rest) =>
      ExecConcat(o, a, JobCalls(job), OutputCalls(rest));
      JobExec(o, a, job);
      OutputsExec(o, Exec(o, a, JobCalls(job)), rest);
    case ReportThen(miss, rest) =>
      ExecFirst(o, a, Health(miss), OutputCalls(rest));
      OutputsExec(o, Step(o, a, Health(miss)), rest);
  }

  /** The concatenations of OutputsExec's first case. */
  lemma Regroup(a: Adapter, w: Written, r: Written, file: nat)
    ensures (a.pending + w.accepted) + r.accepted == a.pending + (w.accepted + r.accepted)
    ensures (a.handed + Hand(w.batches, file, w.accepted)) + r.batches ==
      a.handed + (Hand(w.batches, file, w.accepted) + r.batches)
    ensures (a.handed + w.batches) + r.batches == a.handed + (w.batches + r.batches)
  {
  }

  /** After one file, the blocks that wait are of no later file. */
  lemma StillNoneWaits(o: Jobs.Options, a: Adapter, outputs: Outputs)
    requires outputs.Output? && FreshOutputs(outputs) && NoneWaits(a.pending, FilesOf(outputs))
    ensures var a1 := Exec(o, a, FileCalls(outputs.file, outputs.content, outputs.finished));
      && NoneWaits(a1.pending, FilesOf(outputs.rest)) && FreshOutputs(outputs.rest)
      && a1 == WroteFile(a, WriteContent(o, a.core, outputs.file, outputs.content), outputs.file, outputs.finished)
    decreases outputs, 0
  {
    FileExec(o, a, outputs.file, outputs.content, outputs.finished);
    AcceptedOfFile(o, a.core, outputs.file, outputs.content);
  }

  lemma {:induction false} OneFileMore(o: Jobs.Options, a: Adapter, outputs: Outputs)
    requires outputs.Output? && FreshOutputs(outputs) && NoneWaits(a.pending, FilesOf(outputs))
    ensures Exec(o, a, OutputCalls(outputs)) == Wrote(a, WriteOutputs(o, a.core, outputs), LastFile(outputs, a.current))
    decreases outputs, 1
  {
    var calls := FileCalls(outputs.file, outputs.content, outputs.finished);
    var a1 := Exec(o, a, calls);
    OneFileFirst(o, a, outputs, calls);
    StillNoneWaits(o, a, outputs);
    OutputsExec(o, a1, outputs.rest);
    FileThenRest(o, a, outputs, a1);
  }

  lemma OneFileFirst(o: Jobs.Options, a: Adapter, outputs: Outputs, calls: seq<Callback>)
    requires outputs.Output? && calls == FileCalls(outputs.file, outputs.content, outputs.finished)
    ensures Exec(o, a, OutputCalls(outputs)) == Exec(o, Exec(o, a, calls), OutputCalls(outputs.rest))
  {
    var content, rest := ContentCalls(outputs.content), OutputCalls(outputs.rest);
    var last := if outputs.finished then [FileFinished(outputs.file)] else [];
    var first := [FileStart(outputs.file)];
    assert first + (content + (last + rest)) == (first + (content + last)) + rest;
    ExecConcat(o, a, calls, rest);
  }

  /** The adapter after outputs that write `w`. */
  function Wrote(a: Adapter, w: Written, current: nat): Adapter {
    a.(core := w.core, pending := a.pending + w.accepted, current := current, handed := a.handed + w.batches)
  }

  /** The adapter after one file. */
  function WroteFile(a: Adapter, w: Written, file: nat, finished: bool): Adapter {
    a.(core := w.core, current := file,
       pending := if finished then a.pending else a.pending + w.accepted,
       handed := a.handed + if finished then Hand(w.batches, file, w.accepted) else w.batches)
  }

  lemma FileThenRest(o: Jobs.Options, a: Adapter, outputs: Outputs, a1: Adapter)
    requires outputs.Output?
    requires a1 == WroteFile(a, WriteContent(o, a.core, outputs.file, outputs.content), outputs.file, outputs.finished)
    ensures Wrote(a1, WriteOutputs(o, a1.core, outputs.rest), LastFile(outputs.rest, a1.current)) ==
      Wrote(a, WriteOutputs(o, a.core, outputs), LastFile(outputs, a.current))
  {
    var w, r := WriteContent(o, a.core, outputs.file, outputs.content), WriteOutputs(o, a1.core, outputs.rest);
    Regroup(a, w, r, outputs.file);
  }

  /**
    Exactly-once warming. A whole job, with any jobs nested between or inside its files, leaves the
    adapter's waiting list, current file and stack as it found them and hands over exactly one batch
    per finished file that had accepted blocks, holding just those; the rest is dropped at its end.
   */
  lemma {:induction false} JobExec(o: Jobs.Options, a: Adapter, job: Job)
    requires FreshJob(job)
    ensures var w := WriteJob(o, a.core, job);
      Exec(o, a, JobCalls(job)) == a.(core := w.core, handed := a.handed + w.batches)
    decreases job
  {
    var calls := OutputCalls(job.outputs);
    var begin := Begin(job.isFlush, job.plan);
    var a1 := Step(o, a, begin);
    assert JobCalls(job) == [begin] + (calls + [End]);
    ExecFirst(o, a, begin, calls + [End]);
    ExecConcat(o, a1, calls, [End]);
    OutputsExec(o, a1, job.outputs);
    ExecFirst(o, Exec(o, a1, calls), End, []);
    assert [End] + [] == [End];
  }

  // ----- conservation -----------------------------------------------------------------------

  function TotalBlocks(batches: seq<Batch>): nat {
    if batches == [] then 0 else |batches[0].blocks| + TotalBlocks(batches[1..])
  }

  lemma {:induction false} TotalConcat(x: seq<Batch>, y: seq<Batch>)
    ensures TotalBlocks(x + y) == TotalBlocks(x) + TotalBlocks(y)
  {
    if x == [] {
      assert x + y == y;
    } else {
      assert (x + y)[1..] == x[1..] + y;
      TotalConcat(x[1..], y);
    }
  }

  lemma TotalHand(x: seq<Batch>, file: nat, blocks: seq<BlockRef>)
    ensures TotalBlocks(Hand(x, file, blocks)) == TotalBlocks(x) + |blocks|
  {
    TotalConcat(x, [Batch(file, blocks)]);
    assert [Batch(file, blocks)][1..] == [];
  }

  /** Accepted blocks that are dropped: those of unfinished files, at any depth. */
  function DroppedInContent(o: Jobs.Options, s: Jobs.Core, file: nat, content: Content): nat
    decreases content
  {
    match content
    case NoMoreBlocks => 0
    case Block(block, rest) => DroppedInContent(o, Jobs.Ask(o, s, block.(file := file)), file, rest)
    case Inside(job, rest) => DroppedInJob(o, s, job) + DroppedInContent(o, WriteJob(o, s, job).core, file, rest)
    case ReportIn(miss, rest) => DroppedInContent(o, Jobs.Report(o, s, miss), file, rest)
  }

  function DroppedInOutputs(o: Jobs.Options, s: Jobs.Core, outputs: Outputs): nat
    decreases outputs
  {
    match outputs
    case NoMore => 0
    case Output(file, content, finished, rest) =>
      var w := WriteContent(o, s, file, content);
      DroppedInContent(o, s, file, content) + (if finished then 0 else |w.accepted|) + DroppedInOutputs(o, w.core, rest)
    case Between(job, rest) => DroppedInJob(o, s, job) + DroppedInOutputs(o, WriteJob(o, s, job).core, rest)
    case ReportThen(miss, rest) => DroppedInOutputs(o, Jobs.Report(o, s, miss), rest)
  }

  function DroppedInJob(o: Jobs.Options, s: Jobs.Core, job: Job): nat
    decreases job
  {
    DroppedInOutputs(o, Jobs.Begin(o, s, job.isFlush, job.plan), job.outputs)
  }

  /** Every block the core counts as prefetched is handed over or dropped, and no other. */
  lemma {:induction false} JobConservation(o: Jobs.Options, s: Jobs.Core, job: Job)
    ensures var w := WriteJob(o, s, job);
      w.core.prefetched == s.prefetched + TotalBlocks(w.batches) + DroppedInJob(o, s, job)
    decreases job
  {
    OutputsConservation(o, Jobs.Begin(o, s, job.isFlush, job.plan), job.outputs);
  }

  lemma {:induction false} OutputsConservation(o: Jobs.Options, s: Jobs.Core, outputs: Outputs)
    ensures var w := WriteOutputs(o, s, outputs);
      w.core.prefetched == s.prefetched + TotalBlocks(w.batches) + DroppedInOutputs(o, s, outputs)
    decreases outputs
  {
    match outputs
    case NoMore =>
    case Output(file, content, finished, rest) =>
      var w := WriteContent(o, s, file, content);
      ContentConservation(o, s, file, content);
      OutputsConservation(o, w.core, rest);
      TotalHand(w.batches, file, w.accepted);
      TotalConcat(Hand(w.batches, file, w.accepted), WriteOutputs(o, w.core, rest).batches);
      TotalConcat(w.batches, WriteOutputs(o, w.core, rest).batches);
    case Between(job, rest) =>
      var j := WriteJob(o, s, job);
      JobConservation(o, s, job);
      OutputsConservation(o, j.core, rest);
      TotalConcat(j.batches, WriteOutputs(o, j.core, rest).batches);
    case ReportThen(miss, rest) => OutputsConservation(o, Jobs.Report(o, s, miss), rest);
  }

  lemma {:induction false} ContentConservation(o: Jobs.Options, s: Jobs.Core, file: nat, content: Content)
    ensures var w := WriteContent(o, s, file, content);
      w.core.prefetched == s.prefetched + |w.accepted| + TotalBlocks(w.batches) + DroppedInContent(o, s, file, content)
    decreases content
  {
    match content
    case NoMoreBlocks =>
    case Block(block, rest) => ContentConservation(o, Jobs.Ask(o, s, block.(file := file)), file, rest);
    case Inside(job, rest) =>
      var j := WriteJob(o, s, job);
      JobConservation(o, s, job);
      ContentConservation(o, j.core, file, rest);
      TotalConcat(j.batches, WriteContent(o, j.core, file, rest).batches);
    case ReportIn(miss, rest) => ContentConservation(o, Jobs.Report(o, s, miss), file, rest);
  }

  // ----- the warm queue ---------------------------------------------------------------------

  /** Asynchronous warming: batches wait in warm_queue_; one thread takes and warms them. */
  datatype Queue = Queue(
    enqueued: seq<Batch>, waiting: seq<Batch>, working: seq<Batch>, warmed: seq<Batch>, stopped: bool)

  const EMPTY_QUEUE := Queue([], [], [], [], false)

  datatype QueueEvent = Enqueue(batch: Batch) | TakeNext | FinishOne | Shutdown

  /** Each event is one critical section of WarmLoop, Shutdown or OnOutputFileFinished. */
  function QueueStep(q: Queue, e: QueueEvent): Queue {
    match e
    case Enqueue(batch) => q.(enqueued := q.enqueued + [batch], waiting := q.waiting + [batch])
    case TakeNext =>
      if q.stopped || q.waiting == [] || q.working != [] then q
      else q.(working := [q.waiting[0]], waiting := q.waiting[1..])
    case FinishOne => q.(warmed := q.warmed + q.working, working := [])
    case Shutdown => q.(stopped := true, waiting := [])
  }

  function QueueRun(events: seq<QueueEvent>): Queue {
    if events == [] then EMPTY_QUEUE else QueueStep(QueueRun(events[..|events| - 1]), events[|events| - 1])
  }

  /**
    However the threads interleave, batches are warmed at most once and in the order they were handed
    over; until a shutdown none is lost, so an idle thread with an empty queue has warmed them all.
   */
  lemma {:induction false} QueueIsFifo(events: seq<QueueEvent>)
    ensures var q := QueueRun(events);
      && q.warmed + q.working <= q.enqueued
      && (!q.stopped ==> q.warmed + q.working + q.waiting == q.enqueued)
      && |q.working| <= 1
  {
    if events != [] {
      QueueIsFifo(events[..|events| - 1]);
      var q, e := QueueRun(events[..|events| - 1]), events[|events| - 1];
      if e.TakeNext? && !q.stopped && q.waiting != [] && q.working == [] {
        assert q.waiting == [q.waiting[0]] + q.waiting[1..];
        assert q.enqueued == (q.warmed + [q.waiting[0]]) + q.waiting[1..];
      }
      if e.FinishOne? {
        assert (q.warmed + q.working) + [] == q.warmed + q.working;
      }
    }
  }

  // ----- the adapter ------------------------------------------------------------------------

  const NO_SIZES: map<nat, nat> := map[]

  /** leveldb::LeaperBlockInfo, with internal keys. */
  datatype BlockInfo = BlockInfo(file: nat, offset: nat, size: nat, smallest: seq<int>, largest: seq<int>)

  /** The user key and the 8-byte tag of an internal key; a shorter key has no tag. */
  predicate IsInternal(key: seq<int>, user: seq<int>, tag: seq<int>) {
    key == user + tag && |tag| == if |key| >= 8 then 8 else 0
  }

  /** RangeOfInternalKey: strip the 8-byte tag, map, clamp to the key space. */
  function RangeOf(key: seq<int>, mapKey: seq<int> -> RangeId, maxRangeId: RangeId): (r: RangeId)
    ensures r <= maxRangeId
    ensures forall user, tag :: IsInternal(key, user, tag) ==> r == Min(mapKey(user), maxRangeId)
  {
    var user := if |key| >= 8 then key[..|key| - 8] else key;
    assert forall u, tag :: IsInternal(key, u, tag) ==> |u| == |user| && u == key[..|u|] == user;
    var r := mapKey(user);
    if r < maxRangeId then r else maxRangeId
  }

  /** The reference built for a block: the clamped ranges of its two user keys, in order, and its place and size. */
  function BlockOf(info: BlockInfo, mapKey: seq<int> -> RangeId, maxRangeId: RangeId): (b: BlockRef)
    ensures b.first <= b.last <= maxRangeId && b.size == info.size && b.offset == info.offset && b.file == info.file
    ensures forall small, large, tag, tag' ::
      IsInternal(info.smallest, small, tag) && IsInternal(info.largest, large, tag') ==>
        {b.first, b.last} == {Min(mapKey(small), maxRangeId), Min(mapKey(large), maxRangeId)}
  {
    var lo, hi := RangeOf(info.smallest, mapKey, maxRangeId), RangeOf(info.largest, mapKey, maxRangeId);
    if hi < lo then BlockRef(info.file, info.offset, info.size, hi, lo)
    else BlockRef(info.file, info.offset, info.size, lo, hi)
  }

  /** The references of a job's input blocks. */
  function BlocksOf(inputs: seq<BlockInfo>, mapKey: seq<int> -> RangeId, maxRangeId: RangeId): (blocks: seq<BlockRef>)
    ensures |blocks| == |inputs|
    ensures forall i :: 0 <= i < |inputs| ==> blocks[i] == BlockOf(inputs[i], mapKey, maxRangeId)
  {
    seq(|inputs|, i requires 0 <= i < |inputs| => BlockOf(inputs[i], mapKey, maxRangeId))
  }

  /** How many of the blocks are cached: what a compaction is about to invalidate. */
  function NumCached(blocks: seq<BlockRef>, resident: set<BlockRef>): (n: nat)
    ensures n == |LeaperCore.CachedOf(blocks, resident)| <= |blocks|
  {
    if blocks == [] then 0
    else NumCached(blocks[..|blocks| - 1], resident) + if blocks[|blocks| - 1] in resident then 1 else 0
  }

  method CountCached(blocks: seq<BlockRef>, resident: set<BlockRef>) returns (cached: nat)
    ensures cached == NumCached(blocks, resident)
  {
    cached := 0;
    for i := 0 to |blocks|
      invariant cached == NumCached(blocks[..i], resident)
    {
      assert blocks[..i + 1][..i] == blocks[..i];
      if blocks[i] in resident { cached := cached + 1; }
    }
    assert blocks[..|blocks|] == blocks;
  }

  /** The loop that builds the references. */
  method BuildBlocks(inputs: seq<BlockInfo>, mapKey: seq<int> -> RangeId, maxRangeId: RangeId)
    returns (blocks: seq<BlockRef>)
    ensures blocks == BlocksOf(inputs, mapKey, maxRangeId)
  {
    blocks := [];
    for i := 0 to |inputs|
      invariant |blocks| == i && forall k :: 0 <= k < i ==> blocks[k] == BlockOf(inputs[k], mapKey, maxRangeId)
    {
      blocks := blocks + [BlockOf(inputs[i], mapKey, maxRangeId)];
    }
  }

  lemma NextOfFile(pending: seq<BlockRef>, i: nat, file: nat, warm: seq<BlockRef>, rest: seq<BlockRef>)
    requires i < |pending|
    ensures var own := pending[i].file == file;
      && warm + OfFile(pending[i..], file) ==
           (if own then warm + [pending[i]] else warm) + OfFile(pending[i + 1..], file)
      && rest + NotOfFile(pending[i..], file) ==
           (if own then rest else rest + [pending[i]]) + NotOfFile(pending[i + 1..], file)
  {
    assert pending[i..][1..] == pending[i + 1..];
    var later, others := OfFile(pending[i + 1..], file), NotOfFile(pending[i + 1..], file);
    assert warm + ([pending[i]] + later) == (warm + [pending[i]]) + later;
    assert rest + ([pending[i]] + others) == (rest + [pending[i]]) + others;
  }

  /** The loop that collects a finished file's blocks. */
  method CollectFile(pending: seq<BlockRef>, file: nat) returns (warm: seq<BlockRef>)
    ensures warm == OfFile(pending, file)
  {
    warm := [];
    for i := 0 to |pending|
      invariant warm + OfFile(pending[i..], file) == OfFile(pending, file)
    {
      NextOfFile(pending, i, file, warm, []);
      if pending[i].file == file { warm := warm + [pending[i]]; }
    }
  }

  /** std::remove_if and erase. */
  method RemoveFile(pending: seq<BlockRef>, file: nat) returns (rest: seq<BlockRef>)
    ensures rest == NotOfFile(pending, file)
  {
    rest := [];
    for i := 0 to |pending|
      invariant rest + NotOfFile(pending[i..], file) == NotOfFile(pending, file)
    {
      NextOfFile(pending, i, file, [], rest);
      if pending[i].file != file { rest := rest + [pending[i]]; }
    }
  }

  class LevelDbAdapter {
    const core: LeaperCore.LeaperImpl
    const maxRangeId: RangeId
    var pendingWarm: seq<BlockRef>
    var currentOutput: nat
    var nested: seq<Saved>
    var handed: seq<Batch>
    var fileSizes: map<nat, nat>
    var invalidated: nat
    var compactionsSeen: nat

    ghost function State(): Adapter
      reads this`pendingWarm, this`currentOutput, this`nested, this`handed, core
    {
      Adapter(core.State(), pendingWarm, currentOutput, nested, handed)
    }

    constructor (core: LeaperCore.LeaperImpl, maxRangeId: RangeId)
      ensures this.core == core && this.maxRangeId == maxRangeId && State() == Adapter(core.State(), [], 0, [], [])
      ensures fileSizes == NO_SIZES && invalidated == compactionsSeen == 0
    {
      this.core, this.maxRangeId := core, maxRangeId;
      pendingWarm, currentOutput, nested, handed, fileSizes := [], 0, [], [], NO_SIZES;
      invalidated, compactionsSeen := 0, 0;
    }

    /**
      OnCompactionBegin. The references are built from the inputs, the cached ones of a compaction are
      counted as invalidated, before the core evicts any, and the core plans from the references: the
      plan is what LeaperImpl.Planned says of them.
     */
    method OnCompactionBegin(isFlush: bool, inputs: seq<BlockInfo>, mapKey: seq<int> -> RangeId, nowUs: nat)
      returns (ghost plan: seq<RangeSpan>, ghost hot1: seq<RangeId>, ghost hot2: seq<RangeId>,
               ghost evictions: seq<BlockRef>)
      requires core.Valid() && core.clock <= nowUs
      modifies this`pendingWarm, this`currentOutput, this`nested, this`invalidated, this`compactionsSeen
      modifies core, core.predictor, core.cache
      ensures core.Valid() && State() == Step(core.opt.jobs, old(State()), Begin(isFlush, plan))
      ensures var blocks := BlocksOf(inputs, mapKey, maxRangeId);
        && plan == core.hotT2
        && core.Planned(LeaperCore.CompactionInfo(|blocks|, isFlush), blocks, nowUs, old(core.cache.resident),
                        hot1, hot2, evictions)
        && core.cache.evicted == old(core.cache.evicted) + evictions
        && invalidated == old(invalidated) + (if isFlush then 0 else NumCached(blocks, old(core.cache.resident)))
        && compactionsSeen == old(compactionsSeen) + (if isFlush then 0 else 1)
    {
      var blocks := BuildBlocks(inputs, mapKey, maxRangeId);
      if !isFlush { RecordInvalidation(blocks); }
      plan, hot1, hot2, evictions := StartJob(isFlush, blocks, nowUs);
    }

    /** Both stacks take the job. */
    method StartJob(isFlush: bool, blocks: seq<BlockRef>, nowUs: nat)
      returns (ghost plan: seq<RangeSpan>, ghost hot1: seq<RangeId>, ghost hot2: seq<RangeId>,
               ghost evictions: seq<BlockRef>)
      requires core.Valid() && core.clock <= nowUs
      modifies this`pendingWarm, this`currentOutput, this`nested, core, core.predictor, core.cache
      ensures core.Valid() && State() == Step(core.opt.jobs, old(State()), Begin(isFlush, plan))
      ensures plan == core.hotT2 && core.cache.evicted == old(core.cache.evicted) + evictions
      ensures core.Planned(LeaperCore.CompactionInfo(|blocks|, isFlush), blocks, nowUs, old(core.cache.resident),
                           hot1, hot2, evictions)
    {
      PutAside();
      hot1, hot2, evictions := core.OnCompactionBegin(LeaperCore.CompactionInfo(|blocks|, isFlush), blocks, nowUs);
      plan := core.hotT2;
    }

    /** The enclosing job's list and file are kept for its return. */
    method PutAside()
      modifies this`pendingWarm, this`currentOutput, this`nested
      ensures nested == old(nested) + [Saved(old(pendingWarm), old(currentOutput))]
      ensures pendingWarm == [] && currentOutput == 0
    {
      nested := nested + [Saved(pendingWarm, currentOutput)];
      pendingWarm := [];
      currentOutput := 0;
    }

    method RecordInvalidation(blocks: seq<BlockRef>)
      modifies this`invalidated, this`compactionsSeen
      ensures invalidated == old(invalidated) + NumCached(blocks, core.cache.resident)
      ensures compactionsSeen == old(compactionsSeen) + 1
    {
      var cached := CountCached(blocks, core.cache.resident);
      invalidated, compactionsSeen := invalidated + cached, compactionsSeen + 1;
    }

    method OnOutputFileStart(file: nat)
      modifies this`currentOutput
      ensures State() == Step(core.opt.jobs, old(State()), FileStart(file))
    {
      currentOutput := file;
    }

    method OnOutputBlock(info: BlockInfo, mapKey: seq<int> -> RangeId)
      requires core.ValidJobs()
      modifies this`pendingWarm, core`prefetchedBytes, core`blocksPrefetched, core`refusedBudget
      ensures State() == Step(core.opt.jobs, old(State()), OutBlock(BlockOf(info, mapKey, maxRangeId)))
    {
      var r := BlockOf(info, mapKey, maxRangeId).(file := currentOutput);
      var yes := core.ShouldPrefetch(r);
      if !yes { return; }
      pendingWarm := pendingWarm + [r];
    }

    /** OnOutputFileFinished: collect the file's blocks, then drop them from the list. */
    method OnOutputFileFinished(file: nat, fileSize: nat)
      modifies this`pendingWarm, this`handed, this`fileSizes
      ensures State() == Step(core.opt.jobs, old(State()), FileFinished(file))
      ensures fileSizes == old(fileSizes)[file := fileSize]
    {
      fileSizes := fileSizes[file := fileSize];
      var warm := CollectFile(pendingWarm, file);
      pendingWarm := RemoveFile(pendingWarm, file);
      if warm == [] { return; }
      handed := handed + [Batch(file, warm)];
    }

    method OnCompactionEnd()
      requires core.ValidJobs()
      modifies this`pendingWarm, this`currentOutput, this`nested
      modifies core`hotT2, core`prefetchedBytes, core`budgetBytes, core`curIsFlush, core`ctxStack
      ensures core.ValidJobs() && State() == Step(core.opt.jobs, old(State()), End)
    {
      core.OnCompactionEnd();
      if nested == [] { return; }
      pendingWarm := nested[|nested| - 1].pending;
      currentOutput := nested[|nested| - 1].current;
      nested := nested[..|nested| - 1];
    }
  }
}
