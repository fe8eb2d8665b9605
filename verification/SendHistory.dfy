/** What the sender has sent: a record of all groups and of the groups of every task, and the invariant
    that ties the sender's state to it. */
module SendHistory {
  import opened Common
  import opened Packets
  import opened Sender

  /** A file ever queued for sending, with the indices of the groups its parts were sent as. */
  datatype TaskLog = TaskLog(file: seq<byte>, dst: Address, gidxs: seq<nat>)

  /** Groups in the order of sending, and task `t` at position `t - 1`. */
  datatype History = History(groups: seq<Group>, log: seq<TaskLog>)

  function Record(h: History, g: Option<Group>): History {
    if g.None? then h else
    var t := g.value.meta.tidx;
    History(h.groups + [g.value],
            if g.value.meta.command == FILE && 1 <= t <= |h.log|
            then h.log[t - 1 := h.log[t - 1].(gidxs := h.log[t - 1].gidxs + [g.value.gidx])]
            else h.log)
  }

  // ----- Arithmetic of parts

  lemma MulMonotone(a: nat, b: nat, c: nat)
    requires a <= b
    ensures a * c <= b * c
  {
  }

  /** A part index is below the number of parts exactly when the part starts inside the file. */
  lemma PartStartsInside(size: nat, maxread: nat, i: nat)
    requires maxread > 0
    ensures i * maxread < size <==> i < FileParts(size, maxread)
  {
    var q, r := size / maxread, size % maxread;
    assert size == q * maxread + r;
    if i < q {
      MulMonotone(i + 1, q, maxread);
    } else if i > q {
      MulMonotone(q + 1, i, maxread);
    }
  }

  /** The first `k` parts of a file, one after the other, are its beginning. */
  lemma {:induction false} PartsConcat(file: seq<byte>, maxread: nat, parts: seq<seq<byte>>)
    requires maxread > 0 && |parts| <= FileParts(|file|, maxread)
    requires forall i :: 0 <= i < |parts| ==> PartAt(file, maxread, parts, i)
    ensures Concat(parts) == file[..Min(|parts| * maxread, |file|)]
  {
    if parts != [] {
      var k := |parts| - 1;
      var before := parts[..k];
      forall i | 0 <= i < k ensures PartAt(file, maxread, before, i) {
        assert PartAt(file, maxread, parts, i);
      }
      PartsConcat(file, maxread, before);
      PartStartsInside(|file|, maxread, k);
      assert PartAt(file, maxread, parts, k) && |parts| * maxread == k * maxread + maxread;
      NextPart(file, k * maxread, maxread, parts);
    } else {
      assert 0 * maxread == 0;
    }
  }

  /** `parts[i]` is what is read at the `i`-th multiple of `maxread`. */
  ghost predicate PartAt(file: seq<byte>, maxread: nat, parts: seq<seq<byte>>, i: nat)
    requires i < |parts|
  {
    FilePart(file, i * maxread, maxread) == Some(parts[i])
  }

  lemma NextPart(file: seq<byte>, offset: nat, maxread: nat, parts: seq<seq<byte>>)
    requires parts != [] && Concat(parts[..|parts| - 1]) == file[..Min(offset, |file|)]
    requires FilePart(file, offset, maxread) == Some(parts[|parts| - 1])
    ensures Concat(parts) == file[..Min(offset + maxread, |file|)]
  {
    SliceAppend(file, offset, Min(offset + maxread, |file|));
  }

  lemma SliceAppend(file: seq<byte>, i: nat, j: nat)
    requires i <= j <= |file|
    ensures file[..i] + file[i..j] == file[..j]
  {
  }

  /** All parts of a file make up the file. */
  lemma AllPartsConcat(file: seq<byte>, maxread: nat, parts: seq<seq<byte>>)
    requires maxread > 0
    requires |parts| == FileParts(|file|, maxread)
    requires forall i :: 0 <= i < |parts| ==> PartAt(file, maxread, parts, i)
    ensures Concat(parts) == file
  {
    PartsConcat(file, maxread, parts);
    PartStartsInside(|file|, maxread, |parts|);
  }

  // ----- Invariant

  /** No counter has passed 2^31. */
  ghost predicate InRange(cfg: Config, h: History)
    requires cfg.Valid()
  {
    && |h.groups| <= INT_LIMIT
    && |h.log| < INT_LIMIT
    && (forall k :: 0 <= k < |h.groups| ==> h.groups[k].pidx + h.groups[k].Count() <= INT_LIMIT)
    && (forall t :: 0 <= t < |h.log| ==> FileParts(|h.log[t].file|, cfg.taskBuffer) < INT_LIMIT)
  }

  /** Group indices number the groups, and packet indices run on from group to group. */
  ghost predicate GroupsOk(pidx: nat, gidx: nat, groups: seq<Group>) {
    && gidx == |groups|
    && (forall k :: 0 <= k < |groups| ==>
          && groups[k].gidx == k && groups[k].buffer != [] && |groups[k].buffer| < INT_LIMIT
          && groups[k].pidx + groups[k].Count() <= pidx)
    && (forall j, k :: 0 <= j < k < |groups| ==> groups[j].pidx + groups[j].Count() <= groups[k].pidx)
  }

  /** The group logged for part `i` of the task is a file group that holds this part. */
  ghost predicate PartLogged(cfg: Config, groups: seq<Group>, e: TaskLog, idx: nat, i: nat)
    requires cfg.Valid() && i < |e.gidxs|
  {
    && e.gidxs[i] < |groups|
    && groups[e.gidxs[i]].meta == Meta(FILE, idx, FileParts(|e.file|, cfg.taskBuffer), cfg.self, e.dst)
    && FilePart(e.file, i * cfg.taskBuffer, cfg.taskBuffer) == Some(groups[e.gidxs[i]].buffer)
  }

  /** The groups logged for task `idx` are its first parts, in order. */
  ghost predicate EntryOk(cfg: Config, groups: seq<Group>, e: TaskLog, idx: nat)
    requires cfg.Valid()
  {
    && |e.gidxs| <= FileParts(|e.file|, cfg.taskBuffer)
    && StrictlyIncreasing(e.gidxs)
    && forall i :: 0 <= i < |e.gidxs| ==> PartLogged(cfg, groups, e, idx, i)
  }

  ghost predicate LogOk(cfg: Config, h: History)
    requires cfg.Valid()
  {
    forall t :: 0 <= t < |h.log| ==> EntryOk(cfg, h.groups, h.log[t], t + 1)
  }

  /** Every file group is logged with its task. */
  ghost predicate FilesLogged(h: History) {
    forall k :: 0 <= k < |h.groups| && h.groups[k].meta.command == FILE ==>
      1 <= h.groups[k].meta.tidx <= |h.log| && k in h.log[h.groups[k].meta.tidx - 1].gidxs
  }

  ghost predicate TaskOk(cfg: Config, log: seq<TaskLog>, t: Task)
    requires cfg.Valid()
  {
    && 1 <= t.idx <= |log|
    && log[t.idx - 1].file == t.file && log[t.idx - 1].dst == t.dst
    && |log[t.idx - 1].gidxs| == t.iter
    && t.parts == FileParts(|t.file|, cfg.taskBuffer)
    && (t.iter * cfg.taskBuffer < |t.file| || t.iter == 0)
  }

  /** Pending tasks are in the order of their indices, and only the first may have been started. */
  ghost predicate TasksOk(cfg: Config, tidx: nat, tasks: seq<Task>, log: seq<TaskLog>)
    requires cfg.Valid()
  {
    && tidx == |log|
    && (forall i :: 0 <= i < |tasks| ==> TaskOk(cfg, log, tasks[i]))
    && (forall i :: 0 < i < |tasks| ==> tasks[i].iter == 0)
    && (forall i, j :: 0 <= i < j < |tasks| ==> tasks[i].idx < tasks[j].idx)
  }

  ghost predicate SentPacket(groups: seq<Group>, p: Packet) {
    p.gidx < |groups| && groups[p.gidx].Has(p)
  }

  ghost predicate QueueOk(queue: seq<Queued>, groups: seq<Group>) {
    forall i :: 0 <= i < |queue| ==>
      SentPacket(groups, queue[i].packet) && queue[i].packet.meta.command != ACK
  }

  ghost predicate Inv(cfg: Config, s: State, h: History)
    requires cfg.Valid()
  {
    && GroupsOk(s.pidx, s.gidx, h.groups)
    && LogOk(cfg, h)
    && FilesLogged(h)
    && TasksOk(cfg, s.tidx, s.tasks, h.log)
    && QueueOk(s.queue, h.groups)
  }

  /** A packet index identifies a packet among all packets sent. */
  lemma PidxIdentifies(pidx: nat, gidx: nat, groups: seq<Group>, p: Packet, q: Packet)
    requires GroupsOk(pidx, gidx, groups)
    requires forall k :: 0 <= k < |groups| ==> groups[k].pidx + groups[k].Count() <= INT_LIMIT
    requires SentPacket(groups, p) && SentPacket(groups, q) && p.pidx == q.pidx
    ensures p == q
  {
    PidxInGroup(groups[p.gidx], p);
    PidxInGroup(groups[q.gidx], q);
  }

  lemma PidxInGroup(g: Group, p: Packet)
    requires g.Has(p) && g.pidx + g.Count() <= INT_LIMIT
    ensures p.pidx == g.pidx + p.offset / UDP_PACKET_PAYLOAD
    ensures g.pidx <= p.pidx < g.pidx + g.Count()
  {
  }

  // ----- The operations keep the invariant

  lemma SentPacketsKept(groups: seq<Group>, g: Group, p: Packet)
    requires SentPacket(groups, p)
    ensures SentPacket(groups + [g], p)
  {
  }

  lemma EntryKept(cfg: Config, groups: seq<Group>, g: Group, e: TaskLog, idx: nat)
    requires cfg.Valid() && EntryOk(cfg, groups, e, idx)
    ensures EntryOk(cfg, groups + [g], e, idx)
  {
    forall i | 0 <= i < |e.gidxs| ensures PartLogged(cfg, groups + [g], e, idx, i) {
      assert PartLogged(cfg, groups, e, idx, i);
    }
  }

  lemma GroupsGrow(groups: seq<Group>, g: Group)
    requires GroupsOk(g.pidx, g.gidx, groups)
    requires g.buffer != [] && |g.buffer| < INT_LIMIT
    ensures GroupsOk(g.pidx + g.Count(), g.gidx + 1, groups + [g])
  {
  }

  lemma QueueGrows(queue: seq<Queued>, groups: seq<Group>, g: Group)
    requires QueueOk(queue, groups) && g.gidx == |groups| && g.meta.command != ACK
    ensures QueueOk(queue + Fresh(g.Packets()), groups + [g])
  {
    var queue' := queue + Fresh(g.Packets());
    QueueStays(queue, groups, g);
    forall i | |queue| <= i < |queue'|
      ensures SentPacket(groups + [g], queue'[i].packet) && queue'[i].packet.meta.command != ACK
    {
      var p := queue'[i].packet;
      assert p == g.Packets()[i - |queue|];
      GroupPacketsAreInGroup(g.meta, g.buffer, g.pidx, g.gidx, p);
    }
  }

  lemma QueueStays(queue: seq<Queued>, groups: seq<Group>, g: Group)
    requires QueueOk(queue, groups)
    ensures QueueOk(queue, groups + [g])
  {
    forall i | 0 <= i < |queue| ensures SentPacket(groups + [g], queue[i].packet) {
      SentPacketsKept(groups, g, queue[i].packet);
    }
  }

  /** While the counters are in range they do not wrap around. */
  lemma SendInRange(s: State, meta: Meta, buffer: seq<byte>)
    requires buffer != [] && s.gidx < INT_LIMIT && s.pidx + NumChunks(|buffer|) <= INT_LIMIT
    ensures var g := NextGroup(s, meta, buffer);
            Send(s, meta, buffer) == (
              s.(pidx := s.pidx + g.Count(), gidx := s.gidx + 1,
                 queue := if meta.command == ACK then s.queue else s.queue + Fresh(g.Packets())),
              Some(g))
  {
  }

  lemma GroupAdded(s: State, groups: seq<Group>, meta: Meta, buffer: seq<byte>)
    requires GroupsOk(s.pidx, s.gidx, groups) && QueueOk(s.queue, groups)
    requires buffer != [] && |buffer| < INT_LIMIT
    requires s.gidx < INT_LIMIT && s.pidx + NumChunks(|buffer|) <= INT_LIMIT
    ensures var (s', g) := Send(s, meta, buffer);
            && g == Some(NextGroup(s, meta, buffer))
            && GroupsOk(s'.pidx, s'.gidx, groups + [g.value])
            && QueueOk(s'.queue, groups + [g.value])
  {
    var g := NextGroup(s, meta, buffer);
    SendInRange(s, meta, buffer);
    GroupsGrow(groups, g);
    if meta.command != ACK {
      QueueGrows(s.queue, groups, g);
    } else {
      QueueStays(s.queue, groups, g);
    }
  }

  /** Sending a message or an acknowledgement. */
  lemma SendKeeps(cfg: Config, s: State, h: History, meta: Meta, buffer: seq<byte>)
    requires cfg.Valid() && Inv(cfg, s, h) && |buffer| < INT_LIMIT && meta.command != FILE
    requires InRange(cfg, Record(h, Send(s, meta, buffer).1))
    ensures var (s', g) := Send(s, meta, buffer); Inv(cfg, s', Record(h, g))
  {
    if buffer != [] {
      var g := NextGroup(s, meta, buffer);
      LastInRange(cfg, h, g);
      GroupAdded(s, h.groups, meta, buffer);
      LogStays(cfg, h, g);
    }
  }

  lemma LastInRange(cfg: Config, h: History, g: Group)
    requires cfg.Valid() && InRange(cfg, Record(h, Some(g)))
    ensures |h.groups| < INT_LIMIT && g.pidx + g.Count() <= INT_LIMIT
  {
    var h' := Record(h, Some(g));
    assert h'.groups[|h.groups|] == g;
  }

  lemma LogStays(cfg: Config, h: History, g: Group)
    requires cfg.Valid() && LogOk(cfg, h) && FilesLogged(h) && g.meta.command != FILE
    ensures LogOk(cfg, Record(h, Some(g))) && FilesLogged(Record(h, Some(g)))
  {
    forall t | 0 <= t < |h.log| ensures EntryOk(cfg, h.groups + [g], h.log[t], t + 1) {
      EntryKept(cfg, h.groups, g, h.log[t], t + 1);
    }
  }

  /** The record of a task grows by the part just sent. */
  lemma EntryGrows(cfg: Config, groups: seq<Group>, e: TaskLog, idx: nat, g: Group)
    requires cfg.Valid() && EntryOk(cfg, groups, e, idx)
    requires g.gidx == |groups|
    requires |e.gidxs| * cfg.taskBuffer < |e.file|
    requires g.meta == Meta(FILE, idx, FileParts(|e.file|, cfg.taskBuffer), cfg.self, e.dst)
    requires FilePart(e.file, |e.gidxs| * cfg.taskBuffer, cfg.taskBuffer) == Some(g.buffer)
    ensures EntryOk(cfg, groups + [g], e.(gidxs := e.gidxs + [g.gidx]), idx)
  {
    var e' := e.(gidxs := e.gidxs + [g.gidx]);
    PartStartsInside(|e.file|, cfg.taskBuffer, |e.gidxs|);
    forall i | 0 <= i < |e.gidxs| ensures PartLogged(cfg, groups + [g], e', idx, i) && e.gidxs[i] < g.gidx {
      assert PartLogged(cfg, groups, e, idx, i);
    }
    assert PartLogged(cfg, groups + [g], e', idx, |e.gidxs|);
  }

  /** What `Resume` sends, in terms of the log. */
  lemma ResumeSends(cfg: Config, s: State, h: History)
    requires cfg.Valid() && TasksOk(cfg, s.tidx, s.tasks, h.log) && Resume(cfg, s).1.Some?
    ensures s.tasks != [] && TaskOk(cfg, h.log, s.tasks[0])
    ensures var (g, t) := (Resume(cfg, s).1.value, s.tasks[0]);
            var e := h.log[t.idx - 1];
            && g == NextGroup(s, Meta(FILE, t.idx, FileParts(|e.file|, cfg.taskBuffer), cfg.self, e.dst), g.buffer)
            && |e.gidxs| * cfg.taskBuffer < |e.file|
            && FilePart(e.file, |e.gidxs| * cfg.taskBuffer, cfg.taskBuffer) == Some(g.buffer)
            && g.buffer != [] && |g.buffer| < INT_LIMIT
            && Resume(cfg, s).0 == Send(s, g.meta, g.buffer).0.(tasks := Advance(s.tasks, cfg.taskBuffer))
            && Record(h, Some(g)).log == h.log[t.idx - 1 := e.(gidxs := e.gidxs + [g.gidx])]
  {
  }

  lemma ResumeKeeps(cfg: Config, s: State, h: History)
    requires cfg.Valid() && Inv(cfg, s, h)
    requires InRange(cfg, Record(h, Resume(cfg, s).1))
    ensures var (s', g) := Resume(cfg, s); Inv(cfg, s', Record(h, g))
  {
    if Resume(cfg, s).1.Some? {
      ResumeKeepsGroups(cfg, s, h);
      ResumeKeepsTasks(cfg, s, h);
    } else {
      ResumeNothing(cfg, s);
    }
  }

  lemma ResumeNothing(cfg: Config, s: State)
    requires cfg.Valid() && Resume(cfg, s).1.None?
    ensures Resume(cfg, s).0 == s
  {
  }

  lemma ResumeKeepsGroups(cfg: Config, s: State, h: History)
    requires cfg.Valid() && Inv(cfg, s, h) && Resume(cfg, s).1.Some?
    requires InRange(cfg, Record(h, Resume(cfg, s).1))
    ensures var (s', g) := Resume(cfg, s);
            GroupsOk(s'.pidx, s'.gidx, Record(h, g).groups) && QueueOk(s'.queue, Record(h, g).groups)
  {
    var g := Resume(cfg, s).1.value;
    ResumeSends(cfg, s, h);
    LastInRange(cfg, h, g);
    GroupAdded(s, h.groups, g.meta, g.buffer);
  }

  lemma ResumeKeepsTasks(cfg: Config, s: State, h: History)
    requires cfg.Valid() && Inv(cfg, s, h) && Resume(cfg, s).1.Some?
    ensures var (s', g) := Resume(cfg, s);
            LogOk(cfg, Record(h, g)) && FilesLogged(Record(h, g)) && TasksOk(cfg, s'.tidx, s'.tasks, Record(h, g).log)
  {
    var g := Resume(cfg, s).1.value;
    ResumeSends(cfg, s, h);
    LogGrows(cfg, h, s.tasks[0].idx, g);
    TasksAdvance(cfg, s.tidx, s.tasks, h.log, g.gidx);
  }

  lemma TasksAdvance(cfg: Config, tidx: nat, tasks: seq<Task>, log: seq<TaskLog>, gidx: nat)
    requires cfg.Valid() && TasksOk(cfg, tidx, tasks, log) && tasks != []
    requires TaskOk(cfg, log, tasks[0])
    ensures var e := log[tasks[0].idx - 1];
            TasksOk(cfg, tidx, Advance(tasks, cfg.taskBuffer),
                    log[tasks[0].idx - 1 := e.(gidxs := e.gidxs + [gidx])])
  {
    var t := tasks[0];
    var e := log[t.idx - 1];
    var log' := log[t.idx - 1 := e.(gidxs := e.gidxs + [gidx])];
    forall i | 0 < i < |tasks| ensures TaskOk(cfg, log', tasks[i]) {
      assert TaskOk(cfg, log, tasks[i]);
      assert tasks[0].idx < tasks[i].idx;
    }
  }

  lemma LogGrows(cfg: Config, h: History, idx: nat, g: Group)
    requires cfg.Valid() && LogOk(cfg, h) && FilesLogged(h)
    requires 1 <= idx <= |h.log| && g.gidx == |h.groups|
    requires var e := h.log[idx - 1];
             && |e.gidxs| * cfg.taskBuffer < |e.file|
             && g.meta == Meta(FILE, idx, FileParts(|e.file|, cfg.taskBuffer), cfg.self, e.dst)
             && FilePart(e.file, |e.gidxs| * cfg.taskBuffer, cfg.taskBuffer) == Some(g.buffer)
    ensures LogOk(cfg, Record(h, Some(g))) && FilesLogged(Record(h, Some(g)))
  {
    var h' := Record(h, Some(g));
    forall i | 0 <= i < |h.log| ensures EntryOk(cfg, h'.groups, h'.log[i], i + 1) {
      assert EntryOk(cfg, h.groups, h.log[i], i + 1);
      if i == idx - 1 {
        EntryGrows(cfg, h.groups, h.log[i], idx, g);
      } else {
        EntryKept(cfg, h.groups, g, h.log[i], i + 1);
      }
    }
    FilesStayLogged(h, idx, g);
  }

  lemma FilesStayLogged(h: History, idx: nat, g: Group)
    requires FilesLogged(h) && 1 <= idx <= |h.log| && g.gidx == |h.groups|
    requires g.meta.command == FILE && g.meta.tidx == idx
    ensures FilesLogged(Record(h, Some(g)))
  {
    var h' := Record(h, Some(g));
    assert h'.log[idx - 1].gidxs[|h.log[idx - 1].gidxs|] == |h.groups|;
    forall k | 0 <= k < |h.groups| && h'.groups[k].meta.command == FILE
      ensures 1 <= h'.groups[k].meta.tidx <= |h'.log| && k in h'.log[h'.groups[k].meta.tidx - 1].gidxs
    {
      assert h'.groups[k] == h.groups[k];
      assert k in h.log[h.groups[k].meta.tidx - 1].gidxs;
    }
  }

  lemma UpdateKeeps(cfg: Config, s: State, h: History)
    requires cfg.Valid() && Inv(cfg, s, h)
    requires InRange(cfg, Record(h, Update(cfg, s).1))
    ensures var (s', g) := Update(cfg, s); Inv(cfg, s', Record(h, g))
  {
    if |s.queue| <= cfg.sendQueue && s.tasks != [] {
      ResumeKeeps(cfg, s, h);
    }
  }

  /** The history after `AddTask`. */
  function RecordTask(cfg: Config, s: State, h: History, name: string, dst: Address, file: seq<byte>): History
    requires cfg.Valid()
  {
    if HasTask(s, name, dst) then h
    else Record(h.(log := h.log + [TaskLog(file, dst, [])]), AddTask(cfg, s, name, dst, file).1)
  }

  lemma TaskAdded(cfg: Config, tidx: nat, tasks: seq<Task>, h: History, t: Task, e: TaskLog)
    requires cfg.Valid() && TasksOk(cfg, tidx, tasks, h.log) && LogOk(cfg, h) && FilesLogged(h)
    requires e == TaskLog(t.file, t.dst, [])
    requires t.idx == tidx + 1 && t.parts == FileParts(|t.file|, cfg.taskBuffer) && t.iter == 0
    ensures var h1 := h.(log := h.log + [e]);
            TasksOk(cfg, tidx + 1, tasks + [t], h1.log) && LogOk(cfg, h1) && FilesLogged(h1)
  {
    var h1 := h.(log := h.log + [e]);
    assert EntryOk(cfg, h.groups, e, |h1.log|);
    forall i | 0 <= i < |tasks| ensures TaskOk(cfg, h1.log, tasks[i]) {
      assert TaskOk(cfg, h.log, tasks[i]);
    }
    forall i | 0 <= i < |tasks| ensures tasks[i].idx < t.idx {
      assert TaskOk(cfg, h.log, tasks[i]);
    }
  }

  lemma AddTaskKeeps(cfg: Config, s: State, h: History, name: string, dst: Address, file: seq<byte>)
    requires cfg.Valid() && Inv(cfg, s, h)
    requires InRange(cfg, RecordTask(cfg, s, h, name, dst, file))
    ensures Inv(cfg, AddTask(cfg, s, name, dst, file).0, RecordTask(cfg, s, h, name, dst, file))
  {
    if !HasTask(s, name, dst) {
      var e := TaskLog(file, dst, []);
      var h1 := h.(log := h.log + [e]);
      var t := Task(s.tidx + 1, name, dst, FileParts(|file|, cfg.taskBuffer), file, 0);
      var s1 := s.(tidx := s.tidx + 1, tasks := s.tasks + [t]);
      TaskAdded(cfg, s.tidx, s.tasks, h, t, e);
      UpdateKeeps(cfg, s1, h1);
    }
  }

  lemma CancelKeeps(cfg: Config, s: State, h: History, idx: nat)
    requires cfg.Valid() && Inv(cfg, s, h)
    ensures Inv(cfg, Cancel(s, idx), h)
  {
  }

  lemma RemoveKeeps(cfg: Config, s: State, h: History, i: nat)
    requires cfg.Valid() && Inv(cfg, s, h) && i < |s.queue|
    requires InRange(cfg, Record(h, Remove(cfg, s, i).1))
    ensures Inv(cfg, Remove(cfg, s, i).0, Record(h, Remove(cfg, s, i).1))
  {
    UpdateKeeps(cfg, s.(queue := s.queue[..i] + s.queue[i + 1..]), h);
  }
}
