/** Which files become tasks, and when a task is pending: the task list of the sender against the commands given
    (src/task.c). */
module TaskList {
  import opened Common
  import opened Packets
  import opened Sender
  import opened SendHistory
  import opened Transport
  import opened FlowControl

  // ----- The commands that were accepted

  /** The file is to be queued, and no pending task has both its name and its address. */
  predicate Accepts(s: System, e: Event) {
    && e.TaskAdded?
    && forall i :: 0 <= i < |s.snd.tasks| ==> !Same(s.snd.tasks[i], e.name, e.dst)
  }

  predicate Same(t: Task, name: string, dst: Address) {
    t.name == name && t.dst.host == dst.host && t.dst.port == dst.port
  }

  /** The commands accepted among the first `n` events of a run, in order. */
  function Accepted(es: seq<Event>, ss: seq<System>, n: nat): (acc: seq<Event>)
    requires n <= |es| < |ss|
    ensures forall k :: 0 <= k < |acc| ==> acc[k].TaskAdded?
  {
    if n == 0 then []
    else Accepted(es, ss, n - 1) + if Accepts(ss[n - 1], es[n - 1]) then [es[n - 1]] else []
  }

  // ----- The register

  /** The task stems from the command with its index. */
  ghost predicate From(t: Task, acc: seq<Event>) {
    1 <= t.idx <= |acc| && acc[t.idx - 1] == TaskAdded(t.name, t.dst, t.file)
  }

  ghost predicate AllFrom(tasks: seq<Task>, acc: seq<Event>) {
    forall i :: 0 <= i < |tasks| ==> From(tasks[i], acc)
  }

  /** The log has one entry for every command, with its file and its address. */
  ghost predicate Logged(log: seq<TaskLog>, acc: seq<Event>) {
    |log| == |acc| && forall k :: 0 <= k < |log| ==> EntryFrom(log[k], acc[k])
  }

  ghost predicate EntryFrom(e: TaskLog, a: Event) {
    a.TaskAdded? && e.file == a.file && e.dst == a.dst
  }

  ghost predicate Register(s: System, acc: seq<Event>) {
    s.snd.tidx == |acc| && AllFrom(s.snd.tasks, acc) && Logged(s.h.log, acc)
  }

  lemma UpdateKeepsRegister(cfg: Config, s: Sender.State, h: History, acc: seq<Event>)
    requires cfg.Valid() && AllFrom(s.tasks, acc) && Logged(h.log, acc)
    ensures var (s', g) := Update(cfg, s);
            s'.tidx == s.tidx && AllFrom(s'.tasks, acc) && Logged(Record(h, g).log, acc)
  {
    RecordKeepsFiles(h, Update(cfg, s).1, acc);
    if s.tasks != [] {
      AdvanceKeeps(s.tasks, cfg.taskBuffer, acc);
    }
  }

  lemma AdvanceKeeps(tasks: seq<Task>, maxread: nat, acc: seq<Event>)
    requires tasks != [] && AllFrom(tasks, acc)
    ensures AllFrom(Advance(tasks, maxread), acc)
  {
    assert From(tasks[0], acc);
  }

  lemma RecordKeepsFiles(h: History, g: Option<Group>, acc: seq<Event>)
    requires Logged(h.log, acc)
    ensures Logged(Record(h, g).log, acc)
  {
    if g.Some? {
      var t, log := g.value.meta.tidx, Record(h, g).log;
      forall k | 0 <= k < |log| ensures EntryFrom(log[k], acc[k]) {
        assert EntryFrom(h.log[k], acc[k]);
      }
    }
  }

  lemma AckKeepsRegister(cfg: Config, s: Sender.State, h: History, acc: seq<Event>, tidx: nat, pidx: nat)
    requires cfg.Valid() && AllFrom(s.tasks, acc) && Logged(h.log, acc)
    ensures var (s', g) := Ack(cfg, s, tidx, pidx);
            s'.tidx == s.tidx && AllFrom(s'.tasks, acc) && Logged(Record(h, g).log, acc)
  {
    var i := FindQueued(s.queue, tidx, pidx);
    if i < |s.queue| {
      UpdateKeepsRegister(cfg, s.(queue := Without(s.queue, i)), h, acc);
    }
  }

  lemma AddKeepsRegister(cfg: Config, dst: Address, s: System, acc: seq<Event>, name: string, d: Address,
                         file: seq<byte>)
    requires cfg.Valid() && Register(s, acc)
    ensures var e := TaskAdded(name, d, file);
            Register(Next(cfg, dst, s, e), if Accepts(s, e) then acc + [e] else acc)
  {
    var e := TaskAdded(name, d, file);
    AcceptedIfNew(s, name, d, file);
    if Accepts(s, e) {
      var t := Task(s.snd.tidx + 1, name, d, FileParts(|file|, cfg.taskBuffer), file, 0);
      var snd, acc' := s.snd.(tidx := s.snd.tidx + 1, tasks := s.snd.tasks + [t]), acc + [e];
      var h := s.h.(log := s.h.log + [TaskLog(file, d, [])]);
      forall i | 0 <= i < |snd.tasks| ensures From(snd.tasks[i], acc') {
        assert i < |s.snd.tasks| ==> From(s.snd.tasks[i], acc);
      }
      forall k | 0 <= k < |h.log| ensures EntryFrom(h.log[k], acc'[k]) {
        assert k < |acc| ==> EntryFrom(s.h.log[k], acc[k]);
      }
      UpdateKeepsRegister(cfg, snd, h, acc');
    }
  }

  /** The code's own test says the same. */
  lemma AcceptedIfNew(s: System, name: string, d: Address, file: seq<byte>)
    ensures Accepts(s, TaskAdded(name, d, file)) <==> !HasTask(s.snd, name, d)
  {
    if HasTask(s.snd, name, d) {
      var i :| 0 <= i < |s.snd.tasks| && s.snd.tasks[i].name == name && s.snd.tasks[i].dst == d;
      assert Same(s.snd.tasks[i], name, d);
    } else {
      forall i | 0 <= i < |s.snd.tasks| ensures !Same(s.snd.tasks[i], name, d) {
      }
    }
  }

  lemma CancelKeepsRegister(s: Sender.State, acc: seq<Event>, idx: nat)
    requires AllFrom(s.tasks, acc)
    ensures AllFrom(Cancel(s, idx).tasks, acc)
  {
    var tasks' := Cancel(s, idx).tasks;
    var k := FindTask(s.tasks, idx);
    forall i | 0 <= i < |tasks'| ensures From(tasks'[i], acc) {
      assert tasks'[i] == s.tasks[if i < k then i else i + 1];
    }
  }

  lemma StepKeepsRegister(cfg: Config, dst: Address, s: System, e: Event, s': System, acc: seq<Event>)
    requires cfg.Valid() && Step(cfg, dst, s, e, s') && Register(s, acc)
    ensures Register(s', acc + if Accepts(s, e) then [e] else [])
  {
    if !Accepts(s, e) {
      assert acc + [] == acc;
    }
    match e
    case TaskAdded(name, d, file) => AddKeepsRegister(cfg, dst, s, acc, name, d, file);
    case TaskCancelled(idx) => CancelKeepsRegister(s.snd, acc, idx);
    case MessageSent(meta, buffer) => RecordKeepsFiles(s.h, Send(s.snd, meta, buffer).1, acc);
    case InstantCleaned => UpdateKeepsRegister(cfg, s.snd, s.h, acc);
    case Visited(i, suspended) =>
      VisitShape(cfg, dst, s, i, suspended);
      var p, s1 := s.snd.queue[i].packet, Counted(s, i);
      AckKeepsRegister(cfg, s1.snd, s1.h, acc, p.meta.tidx, p.pidx);
    case AckArrived(tidx, pidx) => AckKeepsRegister(cfg, s.snd, s.h, acc, tidx, pidx);
    case PacketArrived(p, c) =>
  }

  /** In every run the tasks, pending or not, are the commands accepted: the log has exactly one entry for each, in
      order and with its file and address, and pending tasks bear its name. */
  lemma {:induction false} TasksAreAcceptedCommands(cfg: Config, dst: Address, es: seq<Event>, ss: seq<System>, n: nat)
    requires cfg.Valid() && Run(cfg, dst, es, ss) && n <= |es|
    ensures Register(ss[n], Accepted(es, ss, n))
  {
    if n > 0 {
      TasksAreAcceptedCommands(cfg, dst, es, ss, n - 1);
      assert StepAt(cfg, dst, es, ss, n - 1);
      StepKeepsRegister(cfg, dst, ss[n - 1], es[n - 1], ss[n], Accepted(es, ss, n - 1));
    }
  }

  // ----- When a task is pending

  /** Cancelled tasks are not pending, and a task with an empty file stays until it is cancelled. */
  ghost predicate Standing(s: Sender.State, log: seq<TaskLog>, cancelled: set<nat>) {
    && (forall t :: t in cancelled ==> 1 <= t <= s.tidx && !Pending(s.tasks, t))
    && (forall t :: Awaits(log, cancelled, t) ==> Pending(s.tasks, t))
  }

  /** Task `t` has an empty file and was not cancelled. */
  ghost predicate Awaits(log: seq<TaskLog>, cancelled: set<nat>, t: nat) {
    1 <= t <= |log| && log[t - 1].file == [] && t !in cancelled
  }

  /** Sending a part takes no task off the list but one whose file is not empty, and adds none. */
  lemma UpdateStanding(cfg: Config, s: Sender.State, h: History, cancelled: set<nat>)
    requires cfg.Valid() && TasksOk(cfg, s.tidx, s.tasks, h.log) && Standing(s, h.log, cancelled)
    ensures var (s', g) := Update(cfg, s); Standing(s', Record(h, g).log, cancelled)
  {
    var (s', g) := Update(cfg, s);
    forall t | Pending(s'.tasks, t) ensures Pending(s.tasks, t) {
      var i :| 0 <= i < |s'.tasks| && s'.tasks[i].idx == t;
      assert s'.tasks[i].idx == s.tasks[i].idx || (i + 1 < |s.tasks| && s'.tasks[i] == s.tasks[i + 1]);
    }
    RecordSameFiles(h, g);
    forall t | Awaits(Record(h, g).log, cancelled, t) ensures Pending(s'.tasks, t) {
      assert Awaits(h.log, cancelled, t);
      var i :| 0 <= i < |s.tasks| && s.tasks[i].idx == t;
      EmptyStays(cfg, s, h, i);
    }
  }

  lemma EmptyStays(cfg: Config, s: Sender.State, h: History, i: nat)
    requires cfg.Valid() && TasksOk(cfg, s.tidx, s.tasks, h.log) && i < |s.tasks|
    requires h.log[s.tasks[i].idx - 1].file == []
    ensures Pending(Update(cfg, s).0.tasks, s.tasks[i].idx)
  {
    var tasks' := Update(cfg, s).0.tasks;
    assert TaskOk(cfg, h.log, s.tasks[i]);
    if |tasks'| == |s.tasks| {
      assert tasks'[i].idx == s.tasks[i].idx;
    } else {
      assert i > 0 && tasks'[i - 1] == s.tasks[i];
    }
  }

  lemma RecordSameFiles(h: History, g: Option<Group>)
    ensures |Record(h, g).log| == |h.log|
    ensures forall t :: 0 <= t < |h.log| ==> Record(h, g).log[t].file == h.log[t].file
  {
  }

  lemma AckStanding(cfg: Config, s: Sender.State, h: History, cancelled: set<nat>, tidx: nat, pidx: nat)
    requires cfg.Valid() && TasksOk(cfg, s.tidx, s.tasks, h.log) && Standing(s, h.log, cancelled)
    ensures var (s', g) := Ack(cfg, s, tidx, pidx); Standing(s', Record(h, g).log, cancelled)
  {
    var i := FindQueued(s.queue, tidx, pidx);
    if i < |s.queue| {
      UpdateStanding(cfg, s.(queue := Without(s.queue, i)), h, cancelled);
    }
  }

  lemma CancelStanding(cfg: Config, s: Sender.State, h: History, cancelled: set<nat>, idx: nat)
    requires cfg.Valid() && TasksOk(cfg, s.tidx, s.tasks, h.log) && Standing(s, h.log, cancelled)
    ensures Standing(Cancel(s, idx), h.log, if Pending(s.tasks, idx) then cancelled + {idx} else cancelled)
  {
    var k, tasks' := FindTask(s.tasks, idx), Cancel(s, idx).tasks;
    if k < |s.tasks| {
      var cancelled' := cancelled + {idx};
      assert TaskOk(cfg, h.log, s.tasks[k]) && Pending(s.tasks, idx);
      PendingAfterCancel(s.tasks, k);
      forall t | Awaits(h.log, cancelled', t) ensures Pending(tasks', t) {
        assert Awaits(h.log, cancelled, t);
      }
    }
  }

  lemma PendingAfterCancel(tasks: seq<Task>, k: nat)
    requires k < |tasks| && forall i, j :: 0 <= i < j < |tasks| ==> tasks[i].idx < tasks[j].idx
    ensures forall t :: Pending(tasks[..k] + tasks[k + 1..], t) <==> Pending(tasks, t) && t != tasks[k].idx
  {
    var tasks' := tasks[..k] + tasks[k + 1..];
    forall t | Pending(tasks', t) ensures Pending(tasks, t) && t != tasks[k].idx {
      var i :| 0 <= i < |tasks'| && tasks'[i].idx == t;
      assert tasks'[i] == tasks[if i < k then i else i + 1];
    }
    forall t | Pending(tasks, t) && t != tasks[k].idx ensures Pending(tasks', t) {
      var i :| 0 <= i < |tasks| && tasks[i].idx == t;
      assert tasks'[if i < k then i else i - 1] == tasks[i];
    }
  }

  lemma AddStanding(cfg: Config, s: Sender.State, h: History, cancelled: set<nat>, name: string, d: Address,
                    file: seq<byte>)
    requires cfg.Valid() && SendHistory.Inv(cfg, s, h) && Standing(s, h.log, cancelled)
    ensures Standing(AddTask(cfg, s, name, d, file).0, RecordTask(cfg, s, h, name, d, file).log, cancelled)
  {
    if !HasTask(s, name, d) {
      var t := Task(s.tidx + 1, name, d, FileParts(|file|, cfg.taskBuffer), file, 0);
      var s1, h1 := s.(tidx := s.tidx + 1, tasks := s.tasks + [t]), h.(log := h.log + [TaskLog(file, d, [])]);
      SendHistory.TaskAdded(cfg, s.tidx, s.tasks, h, t, TaskLog(file, d, []));
      NewStanding(s, h, cancelled, t);
      UpdateStanding(cfg, s1, h1, cancelled);
    }
  }

  lemma NewStanding(s: Sender.State, h: History, cancelled: set<nat>, t: Task)
    requires Standing(s, h.log, cancelled) && s.tidx == |h.log| && t.idx == s.tidx + 1
    ensures Standing(s.(tidx := t.idx, tasks := s.tasks + [t]), h.log + [TaskLog(t.file, t.dst, [])], cancelled)
  {
    var log := h.log + [TaskLog(t.file, t.dst, [])];
    PendingAfterAdding(s.tasks, t);
    forall u: nat | Awaits(log, cancelled, u) ensures Pending(s.tasks + [t], u) {
      assert u <= |h.log| ==> Awaits(h.log, cancelled, u);
    }
  }

  lemma PendingAfterAdding(tasks: seq<Task>, t: Task)
    ensures forall u :: Pending(tasks + [t], u) <==> Pending(tasks, u) || u == t.idx
  {
    var tasks' := tasks + [t];
    assert tasks'[|tasks|] == t;
    forall u | Pending(tasks, u) ensures Pending(tasks', u) {
      var i :| 0 <= i < |tasks| && tasks[i].idx == u;
      assert tasks'[i].idx == u;
    }
  }

  lemma StepStanding(cfg: Config, dst: Address, s: System, e: Event, s': System)
    requires cfg.Valid() && Step(cfg, dst, s, e, s') && SendHistory.Inv(cfg, s.snd, s.h)
    requires Standing(s.snd, s.h.log, s.cancelled)
    ensures Standing(s'.snd, s'.h.log, s'.cancelled)
  {
    match e
    case TaskAdded(name, d, file) => AddStanding(cfg, s.snd, s.h, s.cancelled, name, d, file);
    case TaskCancelled(idx) => CancelStanding(cfg, s.snd, s.h, s.cancelled, idx);
    case MessageSent(meta, buffer) => RecordSameFiles(s.h, Send(s.snd, meta, buffer).1);
    case InstantCleaned => UpdateStanding(cfg, s.snd, s.h, s.cancelled);
    case Visited(i, suspended) =>
      VisitShape(cfg, dst, s, i, suspended);
      var p, s1 := s.snd.queue[i].packet, Counted(s, i);
      AckStanding(cfg, s1.snd, s1.h, s1.cancelled, p.meta.tidx, p.pidx);
    case AckArrived(tidx, pidx) => AckStanding(cfg, s.snd, s.h, s.cancelled, tidx, pidx);
    case PacketArrived(p, c) =>
  }

  lemma {:induction false} RunStanding(cfg: Config, dst: Address, es: seq<Event>, ss: seq<System>, n: nat)
    requires cfg.Valid() && Run(cfg, dst, es, ss) && n <= |es|
    ensures Standing(ss[n].snd, ss[n].h.log, ss[n].cancelled)
  {
    if n > 0 {
      RunStanding(cfg, dst, es, ss, n - 1);
      RunSenderOk(cfg, dst, es, ss, n - 1);
      assert StepAt(cfg, dst, es, ss, n - 1);
      StepStanding(cfg, dst, ss[n - 1], es[n - 1], ss[n]);
    }
  }

  lemma RunSenderOk(cfg: Config, dst: Address, es: seq<Event>, ss: seq<System>, n: nat)
    requires cfg.Valid() && Run(cfg, dst, es, ss) && n < |ss|
    ensures SendHistory.Inv(cfg, ss[n].snd, ss[n].h)
  {
    RunKeeps(cfg, dst, es, ss, n);
  }

  /** Parts of task `t` are still to be sent, or its file has none, and it was not cancelled. */
  ghost predicate Open(cfg: Config, s: System, t: nat)
    requires cfg.Valid() && 1 <= t <= |s.h.log|
  {
    var e := s.h.log[t - 1];
    t !in s.cancelled && (e.file == [] || |e.gidxs| < FileParts(|e.file|, cfg.taskBuffer))
  }

  /** In every run a task is pending exactly while it is open. */
  lemma PendingExactly(cfg: Config, dst: Address, es: seq<Event>, ss: seq<System>, n: nat, t: nat)
    requires cfg.Valid() && Run(cfg, dst, es, ss) && n <= |es| && 1 <= t <= |ss[n].h.log|
    ensures Pending(ss[n].snd.tasks, t) <==> Open(cfg, ss[n], t)
  {
    RunStanding(cfg, dst, es, ss, n);
    RunKeeps(cfg, dst, es, ss, n);
    RunFlow(cfg, dst, es, ss, n);
    PendingIsOpen(cfg, ss[n], t);
  }

  lemma PendingIsOpen(cfg: Config, s: System, t: nat)
    requires cfg.Valid() && TasksOk(cfg, s.snd.tidx, s.snd.tasks, s.h.log) && 1 <= t <= |s.h.log|
    requires Finished(cfg, s.snd.tasks, s.h.log, s.cancelled) && Standing(s.snd, s.h.log, s.cancelled)
    ensures Pending(s.snd.tasks, t) <==> Open(cfg, s, t)
  {
    var e := s.h.log[t - 1];
    assert Awaits(s.h.log, s.cancelled, t) ==> Pending(s.snd.tasks, t);
    if Pending(s.snd.tasks, t) {
      var i :| 0 <= i < |s.snd.tasks| && s.snd.tasks[i].idx == t;
      assert TaskOk(cfg, s.h.log, s.snd.tasks[i]);
      PartStartsInside(|e.file|, cfg.taskBuffer, |e.gidxs|);
    } else {
      assert !Pending(s.snd.tasks, t - 1 + 1);
    }
  }

  // ----- Main results

  /** An earlier command, accepted and still open, asks for the same name and address. */
  ghost predicate Duplicate(cfg: Config, s: System, acc: seq<Event>, e: Event)
    requires cfg.Valid() && |acc| == |s.h.log| && e.TaskAdded?
  {
    exists k ::
      0 <= k < |acc| && acc[k].TaskAdded? && acc[k].name == e.name && acc[k].dst == e.dst && Open(cfg, s, k + 1)
  }

  /** In every run a file is queued exactly if no earlier command for the same name and address is still open. Then
      the log gets one more entry, with this file and this address; otherwise nothing changes. */
  lemma AcceptedExactly(cfg: Config, dst: Address, es: seq<Event>, ss: seq<System>, n: nat)
    requires cfg.Valid() && Run(cfg, dst, es, ss) && n < |es| && es[n].TaskAdded?
    ensures |Accepted(es, ss, n)| == |ss[n].h.log|
    ensures var e, log, log' := es[n], ss[n].h.log, ss[n + 1].h.log;
            if Duplicate(cfg, ss[n], Accepted(es, ss, n), e) then ss[n + 1] == ss[n]
            else |log'| == |log| + 1 && log'[|log|].file == e.file && log'[|log|].dst == e.dst
  {
    var acc, e := Accepted(es, ss, n), es[n];
    TasksAreAcceptedCommands(cfg, dst, es, ss, n);
    TasksAreAcceptedCommands(cfg, dst, es, ss, n + 1);
    assert StepAt(cfg, dst, es, ss, n);
    AcceptedIfNew(ss[n], e.name, e.dst, e.file);
    DuplicateIsPending(cfg, dst, es, ss, n);
    if Accepts(ss[n], e) {
      assert EntryFrom(ss[n + 1].h.log[|acc|], (acc + [e])[|acc|]);
    }
  }

  lemma DuplicateIsPending(cfg: Config, dst: Address, es: seq<Event>, ss: seq<System>, n: nat)
    requires cfg.Valid() && Run(cfg, dst, es, ss) && n < |es| && es[n].TaskAdded?
    requires Register(ss[n], Accepted(es, ss, n))
    ensures Duplicate(cfg, ss[n], Accepted(es, ss, n), es[n]) <==> !Accepts(ss[n], es[n])
  {
    var s, acc, e := ss[n], Accepted(es, ss, n), es[n];
    if !Accepts(s, e) {
      var i :| 0 <= i < |s.snd.tasks| && Same(s.snd.tasks[i], e.name, e.dst);
      SameIsDuplicate(s, acc, e, i);
      PendingExactly(cfg, dst, es, ss, n, s.snd.tasks[i].idx);
    } else if Duplicate(cfg, s, acc, e) {
      var k :| 0 <= k < |acc| && acc[k].name == e.name && acc[k].dst == e.dst && Open(cfg, s, k + 1);
      PendingExactly(cfg, dst, es, ss, n, k + 1);
      DuplicateIsSame(s, acc, e, k);
    }
  }

  lemma SameIsDuplicate(s: System, acc: seq<Event>, e: Event, i: nat)
    requires Register(s, acc) && e.TaskAdded? && i < |s.snd.tasks| && Same(s.snd.tasks[i], e.name, e.dst)
    ensures var k := s.snd.tasks[i].idx - 1;
            && 0 <= k < |acc| && acc[k].TaskAdded? && acc[k].name == e.name && acc[k].dst == e.dst
            && Pending(s.snd.tasks, k + 1)
  {
    assert From(s.snd.tasks[i], acc);
  }

  lemma DuplicateIsSame(s: System, acc: seq<Event>, e: Event, k: nat)
    requires Register(s, acc) && e.TaskAdded? && k < |acc| && acc[k].TaskAdded?
    requires acc[k].name == e.name && acc[k].dst == e.dst && Pending(s.snd.tasks, k + 1)
    ensures !Accepts(s, e)
  {
    var i :| 0 <= i < |s.snd.tasks| && s.snd.tasks[i].idx == k + 1;
    assert From(s.snd.tasks[i], acc);
    assert Same(s.snd.tasks[i], e.name, e.dst);
  }

  /** In every run a cancelled task sends nothing any more. */
  lemma CancelledSendsNothing(cfg: Config, dst: Address, es: seq<Event>, ss: seq<System>, n: nat, t: nat)
    requires cfg.Valid() && Run(cfg, dst, es, ss) && n < |es| && t in ss[n].cancelled
    ensures 1 <= t <= |ss[n].h.log| <= |ss[n + 1].h.log|
    ensures t in ss[n + 1].cancelled && !Pending(ss[n + 1].snd.tasks, t)
    ensures ss[n + 1].h.log[t - 1] == ss[n].h.log[t - 1]
  {
    RunStanding(cfg, dst, es, ss, n);
    RunKeeps(cfg, dst, es, ss, n);
    RunStanding(cfg, dst, es, ss, n + 1);
    assert StepAt(cfg, dst, es, ss, n);
    CancelledStays(cfg, dst, ss[n], es[n], ss[n + 1], t);
    OthersSendNothing(cfg, dst, ss[n], es[n], ss[n + 1], t);
  }

  lemma CancelledStays(cfg: Config, dst: Address, s: System, e: Event, s': System, t: nat)
    requires cfg.Valid() && Step(cfg, dst, s, e, s') && t in s.cancelled
    ensures t in s'.cancelled
  {
  }

  lemma UpdateSendsFirst(cfg: Config, s: Sender.State, h: History, t: nat)
    requires cfg.Valid() && 1 <= t <= |h.log| && !Pending(s.tasks, t)
    ensures var g := Update(cfg, s).1; |Record(h, g).log| == |h.log| && Record(h, g).log[t - 1] == h.log[t - 1]
  {
    if s.tasks != [] {
      assert s.tasks[0].idx != t;
    }
  }

  lemma AckSendsFirst(cfg: Config, s: Sender.State, h: History, tidx: nat, pidx: nat, t: nat)
    requires cfg.Valid() && 1 <= t <= |h.log| && !Pending(s.tasks, t)
    ensures var g := Ack(cfg, s, tidx, pidx).1; |Record(h, g).log| == |h.log| && Record(h, g).log[t - 1] == h.log[t - 1]
  {
    var i := FindQueued(s.queue, tidx, pidx);
    if i < |s.queue| {
      UpdateSendsFirst(cfg, s.(queue := Without(s.queue, i)), h, t);
    }
  }

  /** No step sends a part of a task that is not pending. */
  lemma OthersSendNothing(cfg: Config, dst: Address, s: System, e: Event, s': System, t: nat)
    requires cfg.Valid() && Step(cfg, dst, s, e, s') && SendHistory.Inv(cfg, s.snd, s.h)
    requires 1 <= t <= |s.h.log| && !Pending(s.snd.tasks, t)
    ensures t <= |s'.h.log| && |s.h.log| <= |s'.h.log| && s'.h.log[t - 1] == s.h.log[t - 1]
  {
    match e
    case TaskAdded(name, d, file) =>
      if !HasTask(s.snd, name, d) {
        var u := Task(s.snd.tidx + 1, name, d, FileParts(|file|, cfg.taskBuffer), file, 0);
        PendingAfterAdding(s.snd.tasks, u);
        UpdateSendsFirst(cfg, s.snd.(tidx := s.snd.tidx + 1, tasks := s.snd.tasks + [u]),
                         s.h.(log := s.h.log + [TaskLog(file, d, [])]), t);
      }
    case InstantCleaned => UpdateSendsFirst(cfg, s.snd, s.h, t);
    case Visited(i, suspended) =>
      VisitShape(cfg, dst, s, i, suspended);
      var p, s1 := s.snd.queue[i].packet, Counted(s, i);
      AckSendsFirst(cfg, s1.snd, s1.h, p.meta.tidx, p.pidx, t);
    case AckArrived(tidx, pidx) => AckSendsFirst(cfg, s.snd, s.h, tidx, pidx, t);
    case _ =>
  }

  /** A run that ends with one file logged for two peers, both tasks pending. */
  lemma OneFileForTwoPeers(cfg: Config, dst: Address, a: Address, b: Address, first: string, name: string,
                           file: seq<byte>)
    returns (es: seq<Event>, ss: seq<System>)
    requires cfg.Valid() && a != b && first != name && FileParts(|file|, cfg.taskBuffer) < INT_LIMIT
    ensures Run(cfg, dst, es, ss) && |es| == 3
    ensures es == [TaskAdded(first, a, []), TaskAdded(name, a, file), TaskAdded(name, b, file)]
    ensures var log := ss[3].h.log;
            && |log| == 3 && log[1] == TaskLog(file, a, []) && log[2] == TaskLog(file, b, [])
            && Pending(ss[3].snd.tasks, 2) && Pending(ss[3].snd.tasks, 3)
  {
    var parts := FileParts(|file|, cfg.taskBuffer);
    var t1, t2, t3 := Task(1, first, a, 0, [], 0), Task(2, name, a, parts, file, 0), Task(3, name, b, parts, file, 0);
    var l1, l2, l3 := TaskLog([], a, []), TaskLog(file, a, []), TaskLog(file, b, []);
    OneByte(cfg);
    var s0 := Init();
    var s1 := s0.(snd := Sender.State(0, 0, 1, [t1], [], {}), h := History([], [l1]));
    var s2 := s0.(snd := Sender.State(0, 0, 2, [t1, t2], [], {}), h := History([], [l1, l2]));
    var s3 := s0.(snd := Sender.State(0, 0, 3, [t1, t2, t3], [], {}), h := History([], [l1, l2, l3]));
    AddBehindEmpty(cfg, dst, s0, t1);
    AddBehindEmpty(cfg, dst, s1, t2);
    AddBehindEmpty(cfg, dst, s2, t3);
    es, ss := [TaskAdded(first, a, []), TaskAdded(name, a, file), TaskAdded(name, b, file)], [s0, s1, s2, s3];
    assert StepAt(cfg, dst, es, ss, 0) && StepAt(cfg, dst, es, ss, 1) && StepAt(cfg, dst, es, ss, 2);
    assert s3.snd.tasks[1].idx == 2 && s3.snd.tasks[2].idx == 3;
  }
}
