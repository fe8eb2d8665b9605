/** Flow control of file tasks (src/task.c): the queue stays bounded, each task is sent completely before the
    next one starts, and exactly which steps leave the tasks stalled. */
module FlowControl {
  import opened Common
  import opened Packets
  import opened Sender
  import opened SendHistory
  import opened Transport

  /** Number of file packets waiting in the queue. */
  function FileCount(queue: seq<Queued>): nat {
    if queue == [] then 0
    else FileCount(queue[..|queue| - 1]) + if queue[|queue| - 1].packet.meta.command == FILE then 1 else 0
  }

  lemma {:induction false} FileCountAppend(a: seq<Queued>, b: seq<Queued>)
    ensures FileCount(a + b) == FileCount(a) + FileCount(b)
  {
    if b == [] {
      assert a + b == a;
    } else {
      assert (a + b)[..|a + b| - 1] == a + b[..|b| - 1];
      FileCountAppend(a, b[..|b| - 1]);
    }
  }

  lemma {:induction false} FileCountBound(queue: seq<Queued>)
    ensures FileCount(queue) <= |queue|
    ensures (forall i :: 0 <= i < |queue| ==> queue[i].packet.meta.command != FILE) ==> FileCount(queue) == 0
  {
    if queue != [] {
      FileCountBound(queue[..|queue| - 1]);
    }
  }

  lemma FileCountRemove(queue: seq<Queued>, i: nat)
    requires i < |queue|
    ensures FileCount(queue[..i] + queue[i + 1..]) <= FileCount(queue)
  {
    assert queue == queue[..i] + queue[i..];
    assert queue[i..] == [queue[i]] + queue[i + 1..];
    FileCountAppend(queue[..i], queue[i..]);
    FileCountAppend([queue[i]], queue[i + 1..]);
    FileCountAppend(queue[..i], queue[i + 1..]);
  }

  lemma {:induction false} FileCountSame(queue: seq<Queued>, queue': seq<Queued>)
    requires Same(queue, queue')
    ensures FileCount(queue) == FileCount(queue')
  {
    if queue != [] {
      var n := |queue| - 1;
      FileCountSame(queue[..n], queue'[..n]);
      assert queue[n].packet == queue'[n].packet;
    }
  }

  // ----- Invariant

  /** The send limit plus one part's worth of packets; a negative limit lets nothing through. */
  function Bound(cfg: Config): nat {
    if cfg.sendQueue < 0 then 0 else cfg.sendQueue + NumChunks(cfg.taskBuffer)
  }

  ghost predicate Pending(tasks: seq<Task>, idx: nat) {
    exists i :: 0 <= i < |tasks| && tasks[i].idx == idx
  }

  /** A task that is neither pending nor cancelled has sent all its parts. */
  ghost predicate Finished(cfg: Config, tasks: seq<Task>, log: seq<TaskLog>, cancelled: set<nat>)
    requires cfg.Valid()
  {
    forall t :: 0 <= t < |log| && !Pending(tasks, t + 1) && t + 1 !in cancelled ==>
      |log[t].gidxs| == FileParts(|log[t].file|, cfg.taskBuffer)
  }

  /** Nothing is sent for a task while an earlier one is pending. */
  ghost predicate InOrder(tasks: seq<Task>, log: seq<TaskLog>) {
    forall i, t :: 0 <= i < |tasks| && tasks[i].idx <= t < |log| ==> log[t].gidxs == []
  }

  ghost predicate FlowInv(cfg: Config, s: Sender.State, h: History, cancelled: set<nat>)
    requires cfg.Valid()
  {
    && FileCount(s.queue) <= Bound(cfg)
    && Finished(cfg, s.tasks, h.log, cancelled)
    && InOrder(s.tasks, h.log)
  }

  lemma ChunksMonotone(m: nat, n: nat)
    requires m <= n
    ensures NumChunks(m) <= NumChunks(n)
  {
  }

  lemma PartPushed(cfg: Config, queue: seq<Queued>, g: Group)
    requires cfg.Valid() && |queue| <= cfg.sendQueue
    requires g.buffer != [] && |g.buffer| <= cfg.taskBuffer
    ensures var queue' := queue + Fresh(g.Packets()); queue' != [] && FileCount(queue') <= Bound(cfg)
  {
    FileCountAppend(queue, Fresh(g.Packets()));
    FileCountBound(queue);
    FileCountBound(Fresh(g.Packets()));
    ChunksMonotone(|g.buffer|, cfg.taskBuffer);
  }

  lemma AdvanceFinishes(cfg: Config, tidx: nat, tasks: seq<Task>, log: seq<TaskLog>, cancelled: set<nat>, gidx: nat)
    requires cfg.Valid() && TasksOk(cfg, tidx, tasks, log) && tasks != [] && TaskOk(cfg, log, tasks[0])
    requires Finished(cfg, tasks, log, cancelled) && InOrder(tasks, log)
    requires tasks[0].iter * cfg.taskBuffer < |tasks[0].file|
    ensures var e := log[tasks[0].idx - 1];
            var log' := log[tasks[0].idx - 1 := e.(gidxs := e.gidxs + [gidx])];
            var tasks' := Advance(tasks, cfg.taskBuffer);
            Finished(cfg, tasks', log', cancelled) && InOrder(tasks', log')
  {
    var head := tasks[0];
    var e := log[head.idx - 1];
    var log' := log[head.idx - 1 := e.(gidxs := e.gidxs + [gidx])];
    var tasks' := Advance(tasks, cfg.taskBuffer);
    PartStartsInside(|head.file|, cfg.taskBuffer, head.iter);
    PartStartsInside(|head.file|, cfg.taskBuffer, head.iter + 1);
    forall t | 0 <= t < |log'| && !Pending(tasks', t + 1) && t + 1 !in cancelled
      ensures |log'[t].gidxs| == FileParts(|log'[t].file|, cfg.taskBuffer)
    {
      if t != head.idx - 1 {
        StillPending(tasks, cfg.taskBuffer, t + 1);
      } else {
        HeadPending(tasks, cfg.taskBuffer);
      }
    }
    forall i, t | 0 <= i < |tasks'| && tasks'[i].idx <= t < |log'| ensures log'[t].gidxs == [] {
      AdvanceIdx(tasks, cfg.taskBuffer, i);
      assert head.idx <= tasks'[i].idx;
    }
  }

  lemma AdvanceIdx(tasks: seq<Task>, maxread: nat, i: nat)
    requires tasks != [] && i < |Advance(tasks, maxread)|
    ensures var tasks' := Advance(tasks, maxread);
            || (i < |tasks| && tasks'[i].idx == tasks[i].idx)
            || (i + 1 < |tasks| && tasks'[i].idx == tasks[i + 1].idx)
  {
  }

  /** Tasks other than the first stay pending when the first advances. */
  lemma StillPending(tasks: seq<Task>, maxread: nat, idx: nat)
    requires tasks != [] && tasks[0].idx != idx
    ensures Pending(tasks, idx) ==> Pending(Advance(tasks, maxread), idx)
  {
    var tasks' := Advance(tasks, maxread);
    if Pending(tasks, idx) {
      var i :| 0 <= i < |tasks| && tasks[i].idx == idx;
      assert tasks'[if |tasks'| == |tasks| then i else i - 1].idx == idx;
    }
  }

  lemma HeadPending(tasks: seq<Task>, maxread: nat)
    requires tasks != []
    ensures (tasks[0].iter + 1) * maxread < |tasks[0].file| ==> Pending(Advance(tasks, maxread), tasks[0].idx)
  {
    if (tasks[0].iter + 1) * maxread < |tasks[0].file| {
      assert Advance(tasks, maxread)[0].idx == tasks[0].idx;
    }
  }

  lemma PendingAfterAppend(tasks: seq<Task>, t: Task, idx: nat)
    ensures Pending(tasks + [t], idx) <==> Pending(tasks, idx) || t.idx == idx
  {
    assert (tasks + [t])[|tasks|] == t;
    if Pending(tasks, idx) {
      var i :| 0 <= i < |tasks| && tasks[i].idx == idx;
      assert (tasks + [t])[i].idx == idx;
    }
  }

  lemma PendingAfterRemoval(tasks: seq<Task>, k: nat, idx: nat)
    requires k < |tasks| && tasks[k].idx != idx
    ensures Pending(tasks, idx) ==> Pending(tasks[..k] + tasks[k + 1..], idx)
  {
    if Pending(tasks, idx) {
      var i :| 0 <= i < |tasks| && tasks[i].idx == idx;
      assert (tasks[..k] + tasks[k + 1..])[if i < k then i else i - 1] == tasks[i];
    }
  }

  /** What sending the next part changes. */
  lemma ResumeShape(cfg: Config, s: Sender.State, h: History)
    requires cfg.Valid() && TasksOk(cfg, s.tidx, s.tasks, h.log) && s.tasks != []
    requires TaskOk(cfg, h.log, s.tasks[0]) && s.tasks[0].iter * cfg.taskBuffer < |s.tasks[0].file|
    ensures var ((s', g), t) := (Resume(cfg, s), s.tasks[0]);
            var e := h.log[t.idx - 1];
            && g.Some? && g.value.buffer != [] && |g.value.buffer| <= cfg.taskBuffer
            && s'.queue == s.queue + Fresh(g.value.Packets())
            && s'.tasks == Advance(s.tasks, cfg.taskBuffer)
            && Record(h, g).log == h.log[t.idx - 1 := e.(gidxs := e.gidxs + [g.value.gidx])]
  {
    ResumeSends(cfg, s, h);
  }

  /** Reading a part from the end of the file on fails, and nothing changes. */
  lemma ResumeFails(cfg: Config, s: Sender.State)
    requires cfg.Valid() && s.tasks != [] && s.tasks[0].iter * cfg.taskBuffer >= |s.tasks[0].file|
    ensures Resume(cfg, s) == (s, None)
  {
  }

  lemma UpdateFlow(cfg: Config, s: Sender.State, h: History, cancelled: set<nat>)
    requires cfg.Valid() && TasksOk(cfg, s.tidx, s.tasks, h.log) && FlowInv(cfg, s, h, cancelled)
    ensures var (s', g) := Update(cfg, s); FlowInv(cfg, s', Record(h, g), cancelled)
  {
    if |s.queue| <= cfg.sendQueue && s.tasks != [] {
      var t := s.tasks[0];
      assert TaskOk(cfg, h.log, t);
      if t.iter * cfg.taskBuffer < |t.file| {
        ResumeFlow(cfg, s, h, cancelled);
      } else {
        ResumeFails(cfg, s);
      }
    }
  }

  lemma ResumeFlow(cfg: Config, s: Sender.State, h: History, cancelled: set<nat>)
    requires cfg.Valid() && TasksOk(cfg, s.tidx, s.tasks, h.log) && FlowInv(cfg, s, h, cancelled)
    requires |s.queue| <= cfg.sendQueue && s.tasks != [] && TaskOk(cfg, h.log, s.tasks[0])
    requires s.tasks[0].iter * cfg.taskBuffer < |s.tasks[0].file|
    ensures var (s', g) := Resume(cfg, s); FlowInv(cfg, s', Record(h, g), cancelled)
  {
    ResumeShape(cfg, s, h);
    var g := Resume(cfg, s).1.value;
    PartPushed(cfg, s.queue, g);
    AdvanceFinishes(cfg, s.tidx, s.tasks, h.log, cancelled, g.gidx);
  }

  lemma AckFlow(cfg: Config, s: Sender.State, h: History, cancelled: set<nat>, tidx: nat, pidx: nat)
    requires cfg.Valid() && TasksOk(cfg, s.tidx, s.tasks, h.log) && FlowInv(cfg, s, h, cancelled)
    ensures var (s', g) := Ack(cfg, s, tidx, pidx); FlowInv(cfg, s', Record(h, g), cancelled)
  {
    var i := FindQueued(s.queue, tidx, pidx);
    if i < |s.queue| {
      FileCountRemove(s.queue, i);
      UpdateFlow(cfg, s.(queue := s.queue[..i] + s.queue[i + 1..]), h, cancelled);
    }
  }

  lemma AddTaskFlow(cfg: Config, s: Sender.State, h: History, cancelled: set<nat>,
                    name: string, dst: Address, file: seq<byte>)
    requires cfg.Valid() && TasksOk(cfg, s.tidx, s.tasks, h.log) && LogOk(cfg, h) && FilesLogged(h)
    requires FlowInv(cfg, s, h, cancelled)
    ensures FlowInv(cfg, AddTask(cfg, s, name, dst, file).0, RecordTask(cfg, s, h, name, dst, file), cancelled)
  {
    if !HasTask(s, name, dst) {
      var e := TaskLog(file, dst, []);
      var t := Task(s.tidx + 1, name, dst, FileParts(|file|, cfg.taskBuffer), file, 0);
      var s1, h1 := s.(tidx := s.tidx + 1, tasks := s.tasks + [t]), h.(log := h.log + [e]);
      SendHistory.TaskAdded(cfg, s.tidx, s.tasks, h, t, e);
      FinishedAfterAdding(cfg, s.tidx, s.tasks, h.log, cancelled, t, e);
      UpdateFlow(cfg, s1, h1, cancelled);
    }
  }

  /** A new task is pending and nothing has been sent for it. */
  lemma FinishedAfterAdding(cfg: Config, tidx: nat, tasks: seq<Task>, log: seq<TaskLog>, cancelled: set<nat>,
                            t: Task, e: TaskLog)
    requires cfg.Valid() && TasksOk(cfg, tidx, tasks, log)
    requires Finished(cfg, tasks, log, cancelled) && InOrder(tasks, log)
    requires t.idx == tidx + 1 && e.gidxs == []
    ensures Finished(cfg, tasks + [t], log + [e], cancelled) && InOrder(tasks + [t], log + [e])
  {
    forall k | 0 <= k < |log + [e]| && !Pending(tasks + [t], k + 1) && k + 1 !in cancelled
      ensures |(log + [e])[k].gidxs| == FileParts(|(log + [e])[k].file|, cfg.taskBuffer)
    {
      PendingAfterAppend(tasks, t, k + 1);
    }
  }

  lemma CancelFlow(cfg: Config, s: Sender.State, h: History, cancelled: set<nat>, idx: nat)
    requires cfg.Valid() && FlowInv(cfg, s, h, cancelled)
    ensures FlowInv(cfg, Cancel(s, idx), h,
                    if FindTask(s.tasks, idx) < |s.tasks| then cancelled + {idx} else cancelled)
  {
    var k := FindTask(s.tasks, idx);
    if k < |s.tasks| {
      var tasks' := Cancel(s, idx).tasks;
      forall t | 0 <= t < |h.log| && !Pending(tasks', t + 1) && t + 1 !in cancelled + {idx}
        ensures |h.log[t].gidxs| == FileParts(|h.log[t].file|, cfg.taskBuffer)
      {
        PendingAfterRemoval(s.tasks, k, t + 1);
      }
    }
  }

  lemma MessageFlow(cfg: Config, s: Sender.State, h: History, cancelled: set<nat>, meta: Meta, buffer: seq<byte>)
    requires cfg.Valid() && FlowInv(cfg, s, h, cancelled) && meta.command != FILE
    ensures var (s', g) := Send(s, meta, buffer); FlowInv(cfg, s', Record(h, g), cancelled)
  {
    if buffer != [] {
      var g := NextGroup(s, meta, buffer);
      FileCountAppend(s.queue, Fresh(g.Packets()));
      FileCountBound(Fresh(g.Packets()));
    }
  }

  // ----- Runs

  ghost predicate SystemFlow(cfg: Config, s: System)
    requires cfg.Valid()
  {
    FlowInv(cfg, s.snd, s.h, s.cancelled)
  }

  lemma CountedFlow(cfg: Config, s: System, i: nat)
    requires cfg.Valid() && SystemFlow(cfg, s) && i < |s.snd.queue|
    ensures SystemFlow(cfg, Counted(s, i))
  {
    FileCountSame(s.snd.queue, Counted(s, i).snd.queue);
  }

  lemma StepFlow(cfg: Config, dst: Address, s: System, e: Event, s': System)
    requires cfg.Valid() && Step(cfg, dst, s, e, s') && SysInv(cfg, s) && SystemFlow(cfg, s)
    ensures SystemFlow(cfg, s')
  {
    match e
    case TaskAdded(name, d, file) => AddTaskFlow(cfg, s.snd, s.h, s.cancelled, name, d, file);
    case TaskCancelled(idx) => CancelFlow(cfg, s.snd, s.h, s.cancelled, idx);
    case MessageSent(meta, buffer) => MessageFlow(cfg, s.snd, s.h, s.cancelled, meta, buffer);
    case InstantCleaned => UpdateFlow(cfg, s.snd, s.h, s.cancelled);
    case Visited(i, suspended) =>
      VisitShape(cfg, dst, s, i, suspended);
      CountedFlow(cfg, s, i);
      var p, s1 := s.snd.queue[i].packet, Counted(s, i);
      AckFlow(cfg, s1.snd, s1.h, s1.cancelled, p.meta.tidx, p.pidx);
    case AckArrived(tidx, pidx) => AckFlow(cfg, s.snd, s.h, s.cancelled, tidx, pidx);
    case PacketArrived(p, c) =>
  }

  lemma InitFlow(cfg: Config)
    requires cfg.Valid()
    ensures SystemFlow(cfg, Init())
  {
  }

  lemma RunStepFlow(cfg: Config, dst: Address, es: seq<Event>, ss: seq<System>, n: nat)
    requires cfg.Valid() && Run(cfg, dst, es, ss) && n < |es| && SystemFlow(cfg, ss[n])
    ensures SystemFlow(cfg, ss[n + 1])
  {
    RunKeeps(cfg, dst, es, ss, n);
    assert StepAt(cfg, dst, es, ss, n);
    StepFlow(cfg, dst, ss[n], es[n], ss[n + 1]);
  }

  lemma {:induction false} RunFlow(cfg: Config, dst: Address, es: seq<Event>, ss: seq<System>, n: nat)
    requires cfg.Valid() && Run(cfg, dst, es, ss) && n < |ss|
    ensures SystemFlow(cfg, ss[n])
  {
    if n == 0 {
      InitFlow(cfg);
    } else {
      RunFlow(cfg, dst, es, ss, n - 1);
      RunStepFlow(cfg, dst, es, ss, n - 1);
    }
  }

  /** In every run the file packets waiting number at most the send limit plus one part's worth. */
  lemma QueueIsBounded(cfg: Config, dst: Address, es: seq<Event>, ss: seq<System>, n: nat)
    requires cfg.Valid() && Run(cfg, dst, es, ss) && n < |ss|
    ensures FileCount(ss[n].snd.queue)
         <= if cfg.sendQueue < 0 then 0 else cfg.sendQueue + NumChunks(cfg.taskBuffer)
  {
    RunFlow(cfg, dst, es, ss, n);
  }

  /** Once a later task has sent anything, an earlier one that was not cancelled has sent all its parts. */
  lemma TasksAreSentInTurn(cfg: Config, dst: Address, es: seq<Event>, ss: seq<System>, n: nat, t: nat, u: nat)
    requires cfg.Valid() && Run(cfg, dst, es, ss) && n < |ss|
    requires 1 <= t < u <= |ss[n].h.log|
    requires ss[n].h.log[u - 1].gidxs != [] && t !in ss[n].cancelled
    ensures |ss[n].h.log[t - 1].gidxs| == FileParts(|ss[n].h.log[t - 1].file|, cfg.taskBuffer)
  {
    RunFlow(cfg, dst, es, ss, n);
    assert Finished(cfg, ss[n].snd.tasks, ss[n].h.log, ss[n].cancelled);
    assert !Pending(ss[n].snd.tasks, t - 1 + 1);
  }

  // ----- Stalls

  /** Tasks are pending, but no packet waits whose removal would resume them. */
  predicate Stalled(s: Sender.State) {
    s.tasks != [] && s.queue == []
  }

  /** A task at the head of the list that an update cannot start. */
  predicate Blocked(cfg: Config, file: seq<byte>) {
    file == [] || cfg.sendQueue < 0
  }

  /** The first task, if any, has not been started or has parts left. */
  predicate HeadUnfinished(cfg: Config, tasks: seq<Task>) {
    tasks != [] ==> tasks[0].iter == 0 || tasks[0].iter * cfg.taskBuffer < |tasks[0].file|
  }

  lemma TasksUnfinished(cfg: Config, tidx: nat, tasks: seq<Task>, log: seq<TaskLog>)
    requires cfg.Valid() && TasksOk(cfg, tidx, tasks, log)
    ensures HeadUnfinished(cfg, tasks)
  {
    assert tasks != [] ==> TaskOk(cfg, log, tasks[0]);
  }

  /** With nothing waiting, an update leaves the tasks stalled exactly when the first one is blocked. */
  lemma UpdateStalls(cfg: Config, s: Sender.State)
    requires cfg.Valid() && s.tasks != [] && HeadUnfinished(cfg, s.tasks)
    ensures Stalled(Update(cfg, s).0) <==> s.queue == [] && Blocked(cfg, s.tasks[0].file)
  {
    var t := s.tasks[0];
    if |s.queue| <= cfg.sendQueue {
      var part := FilePart(t.file, t.iter * cfg.taskBuffer, cfg.taskBuffer);
      if t.file != [] {
        assert t.iter * cfg.taskBuffer < |t.file|;
        var g := NextGroup(s, Meta(FILE, t.idx, t.parts, cfg.self, t.dst), part.value);
        assert |Fresh(g.Packets())| > 0;
      }
    }
  }

  /** What can be read off the sender before an event to tell whether it leaves the tasks stalled. */
  ghost predicate LeavesStalled(cfg: Config, s: Sender.State, e: Event)
    requires cfg.Valid() && (e.Visited? ==> e.i < |s.queue|)
  {
    match e
    case TaskAdded(name, d, file) =>
      s.queue == [] && (HasTask(s, name, d) || Blocked(cfg, if s.tasks == [] then file else s.tasks[0].file))
    case TaskCancelled(idx) =>
      s.queue == [] && exists k :: 0 <= k < |s.tasks| && s.tasks[k].idx != idx
    case MessageSent(meta, buffer) =>
      Stalled(s) && (buffer == [] || meta.command == ACK)
    case InstantCleaned =>
      Stalled(s) && Blocked(cfg, s.tasks[0].file)
    case Visited(i, _) =>
      && |s.queue| == 1 && Attempt(cfg, s.queue[i].attempt) == Expired
      && s.tasks != [] && Blocked(cfg, s.tasks[0].file)
    case AckArrived(tidx, pidx) =>
      || Stalled(s)
      || (|s.queue| == 1 && FindQueued(s.queue, tidx, pidx) == 0 && s.tasks != [] && Blocked(cfg, s.tasks[0].file))
    case PacketArrived(_, _) =>
      Stalled(s)
  }

  lemma AddStalls(cfg: Config, s: Sender.State, name: string, dst: Address, file: seq<byte>)
    requires cfg.Valid() && HeadUnfinished(cfg, s.tasks)
    ensures Stalled(AddTask(cfg, s, name, dst, file).0)
       <==> s.queue == [] && (HasTask(s, name, dst) || Blocked(cfg, if s.tasks == [] then file else s.tasks[0].file))
  {
    if !HasTask(s, name, dst) {
      var t := Task(s.tidx + 1, name, dst, FileParts(|file|, cfg.taskBuffer), file, 0);
      UpdateStalls(cfg, s.(tidx := s.tidx + 1, tasks := s.tasks + [t]));
    }
  }

  lemma CancelStalls(cfg: Config, s: Sender.State, log: seq<TaskLog>, idx: nat)
    requires cfg.Valid() && TasksOk(cfg, s.tidx, s.tasks, log)
    ensures Stalled(Cancel(s, idx)) <==> s.queue == [] && exists k :: 0 <= k < |s.tasks| && s.tasks[k].idx != idx
  {
    var i, tasks' := FindTask(s.tasks, idx), Cancel(s, idx).tasks;
    if i < |s.tasks| && tasks' != [] {
      assert s.tasks[if i == 0 then 1 else 0].idx != idx;
    } else if i == |s.tasks| && tasks' != [] {
      assert s.tasks[0].idx != idx;
    }
  }

  lemma AckStalls(cfg: Config, s: Sender.State, tidx: nat, pidx: nat)
    requires cfg.Valid() && HeadUnfinished(cfg, s.tasks)
    ensures Stalled(Ack(cfg, s, tidx, pidx).0)
       <==> || Stalled(s)
            || (&& |s.queue| == 1 && FindQueued(s.queue, tidx, pidx) == 0
                && s.tasks != [] && Blocked(cfg, s.tasks[0].file))
  {
    var i := FindQueued(s.queue, tidx, pidx);
    if i < |s.queue| && s.tasks != [] {
      UpdateStalls(cfg, s.(queue := s.queue[..i] + s.queue[i + 1..]));
    }
  }

  /** For every reachable state and every event: exactly when the event leaves the tasks stalled. */
  lemma StallsExactly(cfg: Config, dst: Address, s: System, e: Event, s': System)
    requires cfg.Valid() && SysInv(cfg, s) && Step(cfg, dst, s, e, s')
    ensures Stalled(s'.snd) <==> LeavesStalled(cfg, s.snd, e)
  {
    TasksUnfinished(cfg, s.snd.tidx, s.snd.tasks, s.h.log);
    match e
    case TaskAdded(name, d, file) => AddStalls(cfg, s.snd, name, d, file);
    case TaskCancelled(idx) => CancelStalls(cfg, s.snd, s.h.log, idx);
    case MessageSent(meta, buffer) =>
      if buffer != [] {
        assert |Fresh(NextGroup(s.snd, meta, buffer).Packets())| > 0;
      }
    case InstantCleaned =>
      if s.snd.tasks != [] {
        UpdateStalls(cfg, s.snd);
      }
    case Visited(i, suspended) =>
      VisitShape(cfg, dst, s, i, suspended);
      var p, s1 := s.snd.queue[i].packet, Counted(s, i);
      AckStalls(cfg, s1.snd, p.meta.tidx, p.pidx);
      assert |s1.snd.queue| == 1 ==> s1.snd.queue[0].packet == p;
    case AckArrived(tidx, pidx) => AckStalls(cfg, s.snd, tidx, pidx);
    case PacketArrived(p, c) =>
  }

  /** The same for the states of a run. */
  lemma RunStallsExactly(cfg: Config, dst: Address, es: seq<Event>, ss: seq<System>, n: nat)
    requires cfg.Valid() && Run(cfg, dst, es, ss) && n < |es|
    ensures es[n].Visited? ==> es[n].i < |ss[n].snd.queue|
    ensures Stalled(ss[n + 1].snd) <==> LeavesStalled(cfg, ss[n].snd, es[n])
  {
    RunKeeps(cfg, dst, es, ss, n);
    assert StepAt(cfg, dst, es, ss, n);
    StallsExactly(cfg, dst, ss[n], es[n], ss[n + 1]);
  }

  /** Every file queued during the run is non-empty. */
  ghost predicate NonEmptyFiles(es: seq<Event>) {
    forall i :: 0 <= i < |es| && es[i].TaskAdded? ==> es[i].file != []
  }

  ghost predicate NonEmpty(tasks: seq<Task>) {
    forall i :: 0 <= i < |tasks| ==> tasks[i].file != []
  }

  lemma UpdateNonEmpty(cfg: Config, s: Sender.State)
    requires cfg.Valid() && NonEmpty(s.tasks)
    ensures NonEmpty(Update(cfg, s).0.tasks)
  {
  }

  lemma StepNonEmpty(cfg: Config, dst: Address, s: System, e: Event, s': System)
    requires cfg.Valid() && Step(cfg, dst, s, e, s') && NonEmpty(s.snd.tasks)
    requires e.TaskAdded? ==> e.file != []
    ensures NonEmpty(s'.snd.tasks)
  {
    match e
    case TaskAdded(name, d, file) =>
      var t := Task(s.snd.tidx + 1, name, d, FileParts(|file|, cfg.taskBuffer), file, 0);
      UpdateNonEmpty(cfg, s.snd.(tidx := s.snd.tidx + 1, tasks := s.snd.tasks + [t]));
    case InstantCleaned => UpdateNonEmpty(cfg, s.snd);
    case Visited(i, suspended) =>
      VisitShape(cfg, dst, s, i, suspended);
      var p, s1 := s.snd.queue[i].packet, Counted(s, i);
      AckNonEmpty(cfg, s1.snd, p.meta.tidx, p.pidx);
    case AckArrived(tidx, pidx) => AckNonEmpty(cfg, s.snd, tidx, pidx);
    case _ =>
  }

  lemma AckNonEmpty(cfg: Config, s: Sender.State, tidx: nat, pidx: nat)
    requires cfg.Valid() && NonEmpty(s.tasks)
    ensures NonEmpty(Ack(cfg, s, tidx, pidx).0.tasks)
  {
    var i := FindQueued(s.queue, tidx, pidx);
    if i < |s.queue| {
      UpdateNonEmpty(cfg, s.(queue := s.queue[..i] + s.queue[i + 1..]));
    }
  }

  /** A stall needs an empty file or a negative limit: without them, while a task is pending some packet is
      waiting, whose removal will resume the tasks. */
  lemma {:induction false} TasksDoNotStall(cfg: Config, dst: Address, es: seq<Event>, ss: seq<System>, n: nat)
    requires cfg.Valid() && cfg.sendQueue >= 0
    requires Run(cfg, dst, es, ss) && NonEmptyFiles(es) && n < |ss|
    ensures NonEmpty(ss[n].snd.tasks)
    ensures ss[n].snd.tasks != [] ==> ss[n].snd.queue != []
  {
    if n > 0 {
      TasksDoNotStall(cfg, dst, es, ss, n - 1);
      assert StepAt(cfg, dst, es, ss, n - 1);
      StepNonEmpty(cfg, dst, ss[n - 1], es[n - 1], ss[n]);
      RunStallsExactly(cfg, dst, es, ss, n - 1);
    }
  }

  /** A run that ends stalled although the only pending file is not empty: an empty file is queued, another
      one after it, and the first is cancelled, which does not resume the tasks. */
  lemma CancelLeavesStalled(cfg: Config, dst: Address, a: string, b: string) returns (es: seq<Event>, ss: seq<System>)
    requires cfg.Valid() && cfg.sendQueue >= 0 && a != b
    ensures Run(cfg, dst, es, ss) && |es| == 3
    ensures Stalled(ss[3].snd) && |ss[3].snd.tasks| == 1 && ss[3].snd.tasks[0].file == [0]
  {
    var e1, e2, e3 := TaskAdded(a, dst, []), TaskAdded(b, dst, [0]), TaskCancelled(1);
    var t1, t2 := Task(1, a, dst, 0, [], 0), Task(2, b, dst, 1, [0], 0);
    var l1, l2 := TaskLog([], dst, []), TaskLog([0], dst, []);
    OneByte(cfg);
    var s0 := Init();
    var s1 := s0.(snd := Sender.State(0, 0, 1, [t1], [], {}), h := History([], [l1]));
    var s2 := s0.(snd := Sender.State(0, 0, 2, [t1, t2], [], {}), h := History([], [l1, l2]));
    AddBehindEmpty(cfg, dst, s0, t1);
    AddBehindEmpty(cfg, dst, s1, t2);
    assert [t1, t2][..0] + [t1, t2][1..] == [t2];
    var s3 := Next(cfg, dst, s2, e3);
    es, ss := [e1, e2, e3], [s0, s1, s2, s3];
    assert StepAt(cfg, dst, es, ss, 0) && StepAt(cfg, dst, es, ss, 1) && StepAt(cfg, dst, es, ss, 2);
  }

  lemma OneByte(cfg: Config)
    requires cfg.Valid()
    ensures FileParts(0, cfg.taskBuffer) == 0 && FileParts(1, cfg.taskBuffer) == 1
  {
    PartStartsInside(1, cfg.taskBuffer, 0);
    PartStartsInside(1, cfg.taskBuffer, 1);
  }

  /** With nothing waiting, a task is added without effect when the first one, old or new, has an empty file. */
  lemma AddBehindEmpty(cfg: Config, dst: Address, s: System, t: Task)
    requires cfg.Valid() && s.snd.queue == [] && !HasTask(s.snd, t.name, t.dst)
    requires t.idx == s.snd.tidx + 1 && t.parts == FileParts(|t.file|, cfg.taskBuffer) && t.iter == 0
    requires (s.snd.tasks + [t])[0].file == []
    ensures Next(cfg, dst, s, TaskAdded(t.name, t.dst, t.file))
         == s.(snd := s.snd.(tidx := t.idx, tasks := s.snd.tasks + [t]),
               h := s.h.(log := s.h.log + [TaskLog(t.file, t.dst, [])]))
  {
    var snd1 := s.snd.(tidx := t.idx, tasks := s.snd.tasks + [t]);
    assert Update(cfg, snd1) == (snd1, None);
  }
}
