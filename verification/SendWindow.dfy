/** How fast files are sent: exactly which events send the next part of a file, and that the queue stays filled to its
    limit as long as there is something to send (src/task.c, src/net.c). */
module SendWindow {
  import opened Common
  import opened Packets
  import opened Sender
  import opened SendHistory
  import opened Transport
  import opened FlowControl
  import opened TaskList

  /** Number of parts sent so far of task `t`. */
  function PartsSent(log: seq<TaskLog>, t: nat): nat {
    if 1 <= t <= |log| then |log[t - 1].gidxs| else 0
  }

  /** With this many packets waiting there is room for a part, and the first task has one that can be read. */
  predicate Room(cfg: Config, waiting: int, tasks: seq<Task>) {
    waiting <= cfg.sendQueue && tasks != [] && tasks[0].file != []
  }

  lemma FreshPackets(g: Group)
    requires g.buffer != []
    ensures |Fresh(g.Packets())| > 0
  {
  }

  lemma HeadHasPart(cfg: Config, tasks: seq<Task>)
    requires cfg.Valid() && HeadUnfinished(cfg, tasks) && tasks != [] && tasks[0].file != []
    ensures tasks[0].iter * cfg.taskBuffer < |tasks[0].file|
  {
  }

  lemma UpdateSends(cfg: Config, s: Sender.State, h: History, t: nat)
    requires cfg.Valid() && TasksOk(cfg, s.tidx, s.tasks, h.log)
    ensures var (s', g) := Update(cfg, s);
            var room := Room(cfg, |s.queue|, s.tasks);
            && PartsSent(Record(h, g).log, t)
               == PartsSent(h.log, t) + (if room && s.tasks[0].idx == t then 1 else 0)
            && (if room then |s'.queue| > |s.queue| else s'.queue == s.queue)
  {
    if |s.queue| <= cfg.sendQueue && s.tasks != [] {
      TasksUnfinished(cfg, s.tidx, s.tasks, h.log);
      assert TaskOk(cfg, h.log, s.tasks[0]);
      if s.tasks[0].file != [] {
        HeadHasPart(cfg, s.tasks);
        ResumeShape(cfg, s, h);
        FreshPackets(Resume(cfg, s).1.value);
      } else {
        ResumeFails(cfg, s);
      }
    }
  }

  lemma RemoveSends(cfg: Config, s: Sender.State, h: History, i: nat, t: nat)
    requires cfg.Valid() && TasksOk(cfg, s.tidx, s.tasks, h.log) && i < |s.queue|
    ensures var (s', g) := Remove(cfg, s, i);
            var room := Room(cfg, |s.queue| - 1, s.tasks);
            && PartsSent(Record(h, g).log, t)
               == PartsSent(h.log, t) + (if room && s.tasks[0].idx == t then 1 else 0)
            && (if room then |s'.queue| >= |s.queue| else |s'.queue| == |s.queue| - 1)
  {
    UpdateSends(cfg, s.(queue := Without(s.queue, i)), h, t);
  }

  // ----- Events

  ghost predicate Waits(queue: seq<Queued>, tidx: nat, pidx: nat) {
    exists i :: 0 <= i < |queue| && queue[i].packet.meta.tidx == tidx && queue[i].packet.pidx == pidx
  }

  /** A packet leaves the queue: it waits and is acknowledged, or it has used up its attempts. */
  ghost predicate Removes(cfg: Config, s: System, e: Event) {
    match e
    case AckArrived(tidx, pidx) => Waits(s.snd.queue, tidx, pidx)
    case Visited(i, _) => i < |s.snd.queue| && s.snd.queue[i].attempt >= cfg.sendRetry
    case _ => false
  }

  /** How many packets wait once one has left. */
  ghost function Left(cfg: Config, s: System, e: Event): int {
    |s.snd.queue| - if Removes(cfg, s, e) then 1 else 0
  }

  /** The event lets the tasks go on. */
  ghost predicate Resumes(cfg: Config, s: System, e: Event) {
    Removes(cfg, s, e) || e.InstantCleaned? || Accepts(s, e)
  }

  /** Task `t` is the first one, perhaps queued by this event, and its file is not empty. */
  predicate IsFirst(s: System, e: Event, t: nat) {
    if s.snd.tasks != [] then s.snd.tasks[0].idx == t && s.snd.tasks[0].file != []
    else e.TaskAdded? && t == |s.h.log| + 1 && e.file != []
  }

  ghost predicate SendsPart(cfg: Config, s: System, e: Event, t: nat) {
    Resumes(cfg, s, e) && Left(cfg, s, e) <= cfg.sendQueue && IsFirst(s, e, t)
  }

  /** The event sends a part of task `t` exactly if it should, and the queue does not shrink when it does. */
  ghost predicate AsDue(cfg: Config, s: System, e: Event, s': System, t: nat) {
    && PartsSent(s'.h.log, t) == PartsSent(s.h.log, t) + (if SendsPart(cfg, s, e, t) then 1 else 0)
    && |s'.snd.queue| >= Left(cfg, s, e) + (if SendsPart(cfg, s, e, t) then 1 else 0)
  }

  lemma AddSends(cfg: Config, dst: Address, s: System, name: string, d: Address, file: seq<byte>, t: nat)
    requires cfg.Valid() && TasksOk(cfg, s.snd.tidx, s.snd.tasks, s.h.log)
    requires LogOk(cfg, s.h) && FilesLogged(s.h)
    ensures var e := TaskAdded(name, d, file); AsDue(cfg, s, e, Next(cfg, dst, s, e), t)
  {
    AcceptedIfNew(s, name, d, file);
    if !HasTask(s.snd, name, d) {
      var entry := TaskLog(file, d, []);
      var task := Task(s.snd.tidx + 1, name, d, FileParts(|file|, cfg.taskBuffer), file, 0);
      SendHistory.TaskAdded(cfg, s.snd.tidx, s.snd.tasks, s.h, task, entry);
      var s1 := s.snd.(tidx := s.snd.tidx + 1, tasks := s.snd.tasks + [task]);
      UpdateSends(cfg, s1, s.h.(log := s.h.log + [entry]), t);
      assert s1.tasks[0] == if s.snd.tasks == [] then task else s.snd.tasks[0];
    }
  }

  lemma AckSends(cfg: Config, dst: Address, s: System, tidx: nat, pidx: nat, t: nat)
    requires cfg.Valid() && TasksOk(cfg, s.snd.tidx, s.snd.tasks, s.h.log)
    requires Enabled(cfg, dst, s, AckArrived(tidx, pidx))
    ensures var e := AckArrived(tidx, pidx); AsDue(cfg, s, e, Next(cfg, dst, s, e), t)
  {
    AckShape(cfg, dst, s, tidx, pidx);
    var i := FindQueued(s.snd.queue, tidx, pidx);
    if i < |s.snd.queue| {
      assert Waits(s.snd.queue, tidx, pidx);
      RemoveSends(cfg, s.snd, s.h, i, t);
    }
  }

  lemma VisitSends(cfg: Config, dst: Address, s: System, i: nat, suspended: bool, t: nat)
    requires cfg.Valid() && TasksOk(cfg, s.snd.tidx, s.snd.tasks, s.h.log) && i < |s.snd.queue|
    ensures var e := Visited(i, suspended); AsDue(cfg, s, e, Next(cfg, dst, s, e), t)
  {
    VisitShape(cfg, dst, s, i, suspended);
    if s.snd.queue[i].attempt >= cfg.sendRetry {
      var p, s1 := s.snd.queue[i].packet, Counted(s, i);
      var k := FindQueued(s1.snd.queue, p.meta.tidx, p.pidx);
      assert s1.snd.queue[i].packet == p;
      RemoveSends(cfg, s1.snd, s1.h, k, t);
    }
  }

  lemma StepSends(cfg: Config, dst: Address, s: System, e: Event, s': System, t: nat)
    requires cfg.Valid() && SysInv(cfg, s) && Step(cfg, dst, s, e, s')
    ensures AsDue(cfg, s, e, s', t)
  {
    match e
    case TaskAdded(name, d, file) => AddSends(cfg, dst, s, name, d, file, t);
    case AckArrived(tidx, pidx) => AckSends(cfg, dst, s, tidx, pidx, t);
    case Visited(i, suspended) => VisitSends(cfg, dst, s, i, suspended, t);
    case InstantCleaned => UpdateSends(cfg, s.snd, s.h, t);
    case _ =>
  }

  lemma RunStepSends(cfg: Config, dst: Address, es: seq<Event>, ss: seq<System>, n: nat, t: nat)
    requires cfg.Valid() && Run(cfg, dst, es, ss) && n < |es|
    ensures AsDue(cfg, ss[n], es[n], ss[n + 1], t)
  {
    RunKeeps(cfg, dst, es, ss, n);
    assert StepAt(cfg, dst, es, ss, n);
    StepSends(cfg, dst, ss[n], es[n], ss[n + 1], t);
  }

  // ----- Main results

  /** In every run an event sends the next part of a file exactly if it lets the tasks go on, there is room in the
      queue by then, and the file is the first one pending and not empty. */
  lemma PartSentExactly(cfg: Config, dst: Address, es: seq<Event>, ss: seq<System>, n: nat, t: nat)
    requires cfg.Valid() && Run(cfg, dst, es, ss) && n < |es|
    ensures PartsSent(ss[n + 1].h.log, t)
         == PartsSent(ss[n].h.log, t) + if SendsPart(cfg, ss[n], es[n], t) then 1 else 0
  {
    RunStepSends(cfg, dst, es, ss, n, t);
  }

  /** There is something to send in the states from `j` up to, but not including, `n`. */
  ghost predicate Busy(ss: seq<System>, j: nat, n: nat)
    requires n <= |ss|
  {
    forall k :: j <= k < n ==> ss[k].snd.tasks != [] && ss[k].snd.tasks[0].file != []
  }

  lemma StaysFull(cfg: Config, s: System, e: Event, s': System)
    requires s.snd.tasks != [] && s.snd.tasks[0].file != [] && |s.snd.queue| > cfg.sendQueue
    requires AsDue(cfg, s, e, s', s.snd.tasks[0].idx)
    ensures |s'.snd.queue| > cfg.sendQueue
  {
  }

  /** In every run, once more packets wait than the limit, this stays so as long as there is something to send. */
  lemma {:induction false} QueueStaysFull(cfg: Config, dst: Address, es: seq<Event>, ss: seq<System>, j: nat, n: nat)
    requires cfg.Valid() && Run(cfg, dst, es, ss) && j <= n < |ss| && Busy(ss, j, n)
    requires |ss[j].snd.queue| > cfg.sendQueue
    ensures |ss[n].snd.queue| > cfg.sendQueue
    decreases n
  {
    if j < n {
      QueueStaysFull(cfg, dst, es, ss, j, n - 1);
      assert ss[n - 1].snd.tasks != [];
      RunStepSends(cfg, dst, es, ss, n - 1, ss[n - 1].snd.tasks[0].idx);
      StaysFull(cfg, ss[n - 1], es[n - 1], ss[n]);
    }
  }
}
