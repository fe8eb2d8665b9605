/** The sending side: file tasks (src/task.c), the send queue (src/data.c) and its retransmission and
    acknowledgement (src/net.c). */
module Sender {
  import opened Common
  import opened Packets

  /** The settings of src/config.c that the sender uses. */
  datatype Config = Config(taskBuffer: nat, sendQueue: int, sendRetry: nat, table: seq<bool>, self: Address) {
    predicate Valid() {
      && 0 < taskBuffer < INT_LIMIT
      && sendRetry >= 2 && |table| == sendRetry
      && self.host < UINT_MOD && self.port < 0x1_0000
    }
  }

  /** A file being sent; `iter` parts have been sent so far. */
  datatype Task = Task(idx: nat, name: string, dst: Address, parts: nat, file: seq<byte>, iter: nat)

  /** A packet waiting for its acknowledgement (`struct nb_s`). */
  datatype Queued = Queued(packet: Packet, attempt: nat)

  /** One call of `payload.send`: what was chunked under which group index. */
  datatype Group = Group(gidx: nat, pidx: nat, meta: Meta, buffer: seq<byte>) {
    function Packets(): seq<Packet> { GroupPackets(meta, buffer, pidx, gidx) }
    function Count(): nat { NumChunks(|buffer|) }
    ghost predicate Has(p: Packet) { InGroup(p, meta, buffer, pidx, gidx) }
  }

  /** `stale` are the keys, task and packet index, that the queue's index still holds although their packets
      have left the queue: cleaning up the packet failed before its key was removed. */
  datatype State = State(
    pidx: nat, gidx: nat, tidx: nat, tasks: seq<Task>, queue: seq<Queued>, stale: set<(nat, nat)>)

  // ----- File parts (src/os.c)

  function FileParts(size: nat, maxread: nat): nat
    requires maxread > 0
  {
    size / maxread + if size % maxread != 0 then 1 else 0
  }

  /** Reads at most `maxread` bytes from `offset` on; fails at or past the end of the file. */
  function FilePart(file: seq<byte>, offset: nat, maxread: nat): Option<seq<byte>> {
    if offset >= |file| then None else Some(file[offset..Min(offset + maxread, |file|)])
  }

  // ----- The operations as functions of the sender's state

  function Fresh(ps: seq<Packet>): seq<Queued> {
    seq(|ps|, i requires 0 <= i < |ps| => Queued(ps[i], 0))
  }

  /** The group that sending `buffer` now would create. */
  function NextGroup(s: State, meta: Meta, buffer: seq<byte>): Group {
    Group(s.gidx, s.pidx, meta, buffer)
  }

  /** Sends a group: acknowledgements leave at once, everything else is queued until acknowledged.
      An empty buffer is refused. */
  function Send(s: State, meta: Meta, buffer: seq<byte>): (State, Option<Group>) {
    if buffer == [] then (s, None) else
    var g := NextGroup(s, meta, buffer);
    (s.(pidx := (s.pidx + g.Count()) % UINT_MOD,
        gidx := (s.gidx + 1) % UINT_MOD,
        queue := if meta.command == ACK then s.queue else s.queue + Fresh(g.Packets())),
     Some(g))
  }

  /** The task list after a part of its first task was sent. */
  function Advance(tasks: seq<Task>, maxread: nat): seq<Task>
    requires tasks != []
  {
    var t := tasks[0].(iter := tasks[0].iter + 1);
    if t.iter * maxread >= |t.file| then tasks[1..] else tasks[0 := t]
  }

  /** Sends the next part of the first task, and drops the task after its last part. */
  function Resume(cfg: Config, s: State): (State, Option<Group>)
    requires cfg.Valid()
  {
    if s.tasks == [] then (s, None) else
    var t := s.tasks[0];
    var part := FilePart(t.file, t.iter * cfg.taskBuffer, cfg.taskBuffer);
    if part.None? then (s, None) else
    var (s1, g) := Send(s, Meta(FILE, t.idx, t.parts, cfg.self, t.dst), part.value);
    (s1.(tasks := Advance(s.tasks, cfg.taskBuffer)), g)
  }

  function Update(cfg: Config, s: State): (State, Option<Group>)
    requires cfg.Valid()
  {
    if |s.queue| <= cfg.sendQueue && s.tasks != [] then Resume(cfg, s) else (s, None)
  }

  predicate HasTask(s: State, name: string, dst: Address) {
    exists i :: 0 <= i < |s.tasks| && s.tasks[i].name == name && s.tasks[i].dst == dst
  }

  /** Queues a file for `dst`, unless a task for the same file and peer is pending. */
  function AddTask(cfg: Config, s: State, name: string, dst: Address, file: seq<byte>): (State, Option<Group>)
    requires cfg.Valid()
  {
    if HasTask(s, name, dst) then (s, None) else
    var t := Task(s.tidx + 1, name, dst, FileParts(|file|, cfg.taskBuffer), file, 0);
    Update(cfg, s.(tidx := s.tidx + 1, tasks := s.tasks + [t]))
  }

  function FindTask(tasks: seq<Task>, idx: nat): (i: nat)
    ensures i <= |tasks|
    ensures i < |tasks| ==> tasks[i].idx == idx
    ensures forall k :: 0 <= k < i ==> tasks[k].idx != idx
  {
    if tasks == [] || tasks[0].idx == idx then 0 else 1 + FindTask(tasks[1..], idx)
  }

  function Cancel(s: State, idx: nat): State {
    var i := FindTask(s.tasks, idx);
    if i == |s.tasks| then s else s.(tasks := s.tasks[..i] + s.tasks[i + 1..])
  }

  /** Position in the queue of the packet with this key; `|queue|` if there is none. */
  function FindQueued(queue: seq<Queued>, tidx: nat, pidx: nat): (i: nat)
    ensures i <= |queue|
    ensures i < |queue| ==> queue[i].packet.meta.tidx == tidx && queue[i].packet.pidx == pidx
    ensures forall k :: 0 <= k < i ==> !(queue[k].packet.meta.tidx == tidx && queue[k].packet.pidx == pidx)
  {
    if queue == [] || (queue[0].packet.meta.tidx == tidx && queue[0].packet.pidx == pidx) then 0
    else 1 + FindQueued(queue[1..], tidx, pidx)
  }

  /** Resuming the tasks fails: the next part of the first one cannot be read. */
  predicate UpdateFails(cfg: Config, s: State) {
    && |s.queue| <= cfg.sendQueue && s.tasks != []
    && FilePart(s.tasks[0].file, s.tasks[0].iter * cfg.taskBuffer, cfg.taskBuffer).None?
  }

  function KeyAt(queue: seq<Queued>, i: nat): (nat, nat)
    requires i < |queue|
  {
    (queue[i].packet.meta.tidx, queue[i].packet.pidx)
  }

  function Without(queue: seq<Queued>, i: nat): seq<Queued>
    requires i < |queue|
  {
    queue[..i] + queue[i + 1..]
  }

  /** The stale keys after the packet at position `i` has been taken off. */
  function StaleAfter(cfg: Config, s: State, i: nat): set<(nat, nat)>
    requires i < |s.queue|
  {
    if UpdateFails(cfg, s.(queue := Without(s.queue, i))) then s.stale + {KeyAt(s.queue, i)} else s.stale
  }

  /** Takes the packet at position `i` off the queue; cleaning it up resumes the tasks, and if that fails its
      key stays behind. */
  function Remove(cfg: Config, s: State, i: nat): (State, Option<Group>)
    requires cfg.Valid() && i < |s.queue|
  {
    var (s1, g) := Update(cfg, s.(queue := Without(s.queue, i)));
    (s1.(stale := StaleAfter(cfg, s, i)), g)
  }

  function Ack(cfg: Config, s: State, tidx: nat, pidx: nat): (State, Option<Group>)
    requires cfg.Valid()
  {
    var i := FindQueued(s.queue, tidx, pidx);
    if i == |s.queue| then (s, None) else Remove(cfg, s, i)
  }

  datatype Verdict = SendNow | Skip | Expired

  /** What `attempts` decides for a packet that has been visited `attempt` times before. */
  function Attempt(cfg: Config, attempt: nat): Verdict
    requires cfg.Valid()
  {
    if attempt + 1 > cfg.sendRetry then Expired
    else if cfg.table[attempt % cfg.sendRetry] then SendNow
    else Skip
  }

  /** The dispatch pass reaches queue position `i`. */
  function Visit(cfg: Config, s: State, i: nat): (State, Option<Group>, Verdict)
    requires cfg.Valid() && i < |s.queue|
  {
    var q := s.queue[i];
    var v := Attempt(cfg, q.attempt);
    if v == Expired then
      var counted := s.(queue := s.queue[i := q.(attempt := q.attempt + 1)]);
      var (s1, g) := Ack(cfg, counted, q.packet.meta.tidx, q.packet.pidx);
      (s1, g, v)
    else (s.(queue := s.queue[i := q.(attempt := q.attempt + 1)]), None, v)
  }

  // ----- The code

  /** The sender's part of `struct peer_s`. */
  class Peer {
    const cfg: Config
    const counters: SendBuffer
    var tidx: nat
    var tasks: seq<Task>
    var queue: seq<Queued>
    var stale: set<(nat, nat)>

    ghost predicate Valid()
      reads this, counters
    {
      cfg.Valid() && counters.pidx < UINT_MOD && counters.gidx < UINT_MOD
    }

    ghost function View(): State
      reads this, counters
    {
      State(counters.pidx, counters.gidx, tidx, tasks, queue, stale)
    }

    constructor (cfg: Config)
      requires cfg.Valid()
      ensures Valid() && this.cfg == cfg && View() == State(0, 0, 0, [], [], {}) && fresh(counters)
    {
      this.cfg := cfg;
      counters := new SendBuffer();
      tidx, tasks, queue, stale := 0, [], [], {};
    }

    /** `data_send`: serialises the buffer and submits every packet. */
    method Transfer(meta: Meta, buffer: seq<byte>) returns (ok: bool, ghost g: Option<Group>)
      requires Valid() && |buffer| < INT_LIMIT
      modifies this`queue, counters
      ensures Valid()
      ensures (View(), g) == Send(old(View()), meta, buffer)
      ensures ok == g.Some?
    {
      ghost var before := View();
      var r := counters.SerializeInit(meta, buffer);
      if r.None? {
        return false, None;
      }
      var packets := r.value;
      ghost var queue0 := queue;
      for i := 0 to |packets|
        invariant queue == queue0 + if meta.command == ACK then [] else Fresh(packets[..i])
        invariant counters.pidx == (before.pidx + |packets|) % UINT_MOD
        invariant counters.gidx == (before.gidx + 1) % UINT_MOD
      {
        if meta.command != ACK {
          assert Fresh(packets[..i + 1]) == Fresh(packets[..i]) + [Queued(packets[i], 0)];
          queue := queue + [Queued(packets[i], 0)];
        }
      }
      assert packets[..|packets|] == packets;
      ok, g := true, Some(NextGroup(before, meta, buffer));
    }

    method ResumeTasks() returns (ok: bool, ghost g: Option<Group>)
      requires Valid()
      modifies this, counters
      ensures Valid()
      ensures (View(), g) == Resume(cfg, old(View()))
      ensures ok <==> old(tasks) == [] || g.Some?
    {
      if tasks == [] {
        return true, None;
      }
      var t := tasks[0];
      var part := FilePart(t.file, t.iter * cfg.taskBuffer, cfg.taskBuffer);
      if part.None? {
        return false, None;
      }
      ok, g := Transfer(Meta(FILE, t.idx, t.parts, cfg.self, t.dst), part.value);
      t := t.(iter := t.iter + 1);
      if t.iter * cfg.taskBuffer >= |t.file| {
        tasks := tasks[1..];
      } else {
        tasks := tasks[0 := t];
      }
    }

    method UpdateTasks() returns (ok: bool, ghost g: Option<Group>)
      requires Valid()
      modifies this, counters
      ensures Valid()
      ensures (View(), g) == Update(cfg, old(View()))
      ensures ok <==> !UpdateFails(cfg, old(View()))
    {
      if |queue| <= cfg.sendQueue && tasks != [] {
        ok, g := ResumeTasks();
      } else {
        ok, g := true, None;
      }
    }

    method Add(name: string, dst: Address, file: seq<byte>) returns (ghost g: Option<Group>)
      requires Valid()
      modifies this, counters
      ensures Valid()
      ensures (View(), g) == AddTask(cfg, old(View()), name, dst, file)
    {
      for i := 0 to |tasks|
        invariant forall k :: 0 <= k < i ==> !(tasks[k].name == name && tasks[k].dst == dst)
      {
        if tasks[i].name == name && tasks[i].dst == dst {
          return None;
        }
      }
      tidx := tidx + 1;
      tasks := tasks + [Task(tidx, name, dst, FileParts(|file|, cfg.taskBuffer), file, 0)];
      var ok;
      ok, g := UpdateTasks();
    }

    method CancelTask(idx: nat) returns (cancelled: bool)
      requires Valid()
      modifies this`tasks
      ensures Valid()
      ensures View() == Cancel(old(View()), idx)
      ensures cancelled <==> exists i :: 0 <= i < |old(tasks)| && old(tasks)[i].idx == idx
    {
      var i := 0;
      while i < |tasks| && tasks[i].idx != idx
        invariant i <= |tasks|
        invariant forall k :: 0 <= k < i ==> tasks[k].idx != idx
      {
        i := i + 1;
      }
      cancelled := i < |tasks|;
      if cancelled {
        tasks := tasks[..i] + tasks[i + 1..];
      }
    }

    /** The key must not be a stale one: the index would lead to a packet that is no longer in the list. */
    method Acknowledge(tidx: nat, pidx: nat) returns (ok: bool, ghost g: Option<Group>)
      requires Valid() && (tidx, pidx) !in stale
      modifies this, counters
      ensures Valid()
      ensures (View(), g) == Ack(cfg, old(View()), tidx, pidx)
      ensures ok <==> (tidx, pidx) !in stale
    {
      var i := 0;
      while i < |queue| && !(queue[i].packet.meta.tidx == tidx && queue[i].packet.pidx == pidx)
        invariant i <= |queue|
        invariant forall k :: 0 <= k < i ==> !(queue[k].packet.meta.tidx == tidx && queue[k].packet.pidx == pidx)
      {
        i := i + 1;
      }
      if i == |queue| {
        return true, None;
      }
      queue := queue[..i] + queue[i + 1..];
      ok, g := UpdateTasks();
      if !ok {
        stale := stale + {(tidx, pidx)};
      }
    }

    method Attempts(i: nat) returns (ok: bool, v: Verdict, ghost g: Option<Group>)
      requires Valid() && i < |queue| && KeyAt(queue, i) !in stale
      modifies this, counters
      ensures Valid()
      ensures (View(), g, v) == Visit(cfg, old(View()), i)
      ensures ok <==> stale == old(stale)
    {
      var q := queue[i];
      ok := true;
      v := if cfg.table[q.attempt % cfg.sendRetry] then SendNow else Skip;
      g := None;
      queue := queue[i := q.(attempt := q.attempt + 1)];
      if q.attempt + 1 > cfg.sendRetry {
        v := Expired;
        ok, g := Acknowledge(q.packet.meta.tidx, q.packet.pidx);
      }
    }
  }
}
