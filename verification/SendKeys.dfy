/**
 * The keys of the send queue: waiting packets stay in the order of sending, and no two of them, waiting or
 * just being added, share the key under which the queue's index finds them.
 */
module SendKeys {
  import opened Common
  import opened Packets
  import opened Sender
  import opened SendHistory
  import opened HashTable
  import opened ReceiverProofs
  import opened Transport

  /** The four bytes of a C `int`, as little-endian machines store it, read as signed characters. */
  function IntBytes(v: nat): (key: Key)
    requires v < UINT_MOD
    ensures |key| == 4
  {
    [Signed(v % 256), Signed(v / 256 % 256), Signed(v / 256 / 256 % 256), Signed(v / 256 / 256 / 256)]
  }

  function Signed(b: byte): schar {
    if b < 128 then b else b - 256
  }

  function UniqueKey(pidx: nat, tidx: nat): Key
    requires pidx < UINT_MOD && tidx < UINT_MOD
  {
    IntBytes(pidx) + IntBytes(tidx)
  }

  lemma IntBytesInjective(v: nat, w: nat)
    requires v < UINT_MOD && w < UINT_MOD && IntBytes(v) == IntBytes(w)
    ensures v == w
  {
    var a, b := IntBytes(v), IntBytes(w);
    assert a[0] == b[0] && a[1] == b[1] && a[2] == b[2] && a[3] == b[3];
    SignedInjective(v / 256 / 256 / 256, w / 256 / 256 / 256);
    SignedInjective(v / 256 / 256 % 256, w / 256 / 256 % 256);
    SignedInjective(v / 256 % 256, w / 256 % 256);
    SignedInjective(v % 256, w % 256);
  }

  lemma SignedInjective(b: byte, c: byte)
    ensures Signed(b) == Signed(c) ==> b == c
  {
  }

  /** Two keys are equal only for the same packet and task index. */
  lemma UniqueKeyIdentifies(pidx: nat, tidx: nat, pidx': nat, tidx': nat)
    requires pidx < UINT_MOD && tidx < UINT_MOD && pidx' < UINT_MOD && tidx' < UINT_MOD
    ensures UniqueKey(pidx, tidx) == UniqueKey(pidx', tidx') <==> pidx == pidx' && tidx == tidx'
  {
    var a, b := UniqueKey(pidx, tidx), UniqueKey(pidx', tidx');
    if a == b {
      assert IntBytes(pidx) == a[..4] == b[..4] == IntBytes(pidx');
      assert IntBytes(tidx) == a[4..] == b[4..] == IntBytes(tidx');
      IntBytesInjective(pidx, pidx');
      IntBytesInjective(tidx, tidx');
    }
  }

  // ----- The order of the queue

  /** Packet indices increase along the queue and are below the next one to be drawn. */
  ghost predicate Ordered(queue: seq<Queued>, pidx: nat) {
    && (forall i, j :: 0 <= i < j < |queue| ==> queue[i].packet.pidx < queue[j].packet.pidx)
    && (forall i :: 0 <= i < |queue| ==> queue[i].packet.pidx < pidx)
  }

  lemma GroupOrdered(queue: seq<Queued>, g: Group)
    requires Ordered(queue, g.pidx) && g.pidx + g.Count() <= INT_LIMIT
    ensures Ordered(queue + Fresh(g.Packets()), g.pidx + g.Count())
    ensures Ordered(queue, g.pidx + g.Count())
  {
    assert forall i :: 0 <= i < g.Count() ==> g.Packets()[i].pidx == g.pidx + i;
  }

  lemma SendOrdered(s: Sender.State, meta: Meta, buffer: seq<byte>)
    requires Ordered(s.queue, s.pidx)
    requires buffer != [] ==> s.pidx + NumChunks(|buffer|) <= INT_LIMIT
    ensures var s' := Send(s, meta, buffer).0; Ordered(s'.queue, s'.pidx)
  {
    if buffer != [] {
      GroupOrdered(s.queue, NextGroup(s, meta, buffer));
    }
  }

  lemma UpdateOrdered(cfg: Config, s: Sender.State)
    requires cfg.Valid() && Ordered(s.queue, s.pidx)
    requires var g := Update(cfg, s).1; g.Some? ==> g.value.pidx + g.value.Count() <= INT_LIMIT
    ensures var s' := Update(cfg, s).0; Ordered(s'.queue, s'.pidx)
  {
    if |s.queue| <= cfg.sendQueue && s.tasks != [] {
      var t := s.tasks[0];
      var part := FilePart(t.file, t.iter * cfg.taskBuffer, cfg.taskBuffer);
      if part.Some? {
        SendOrdered(s, Meta(FILE, t.idx, t.parts, cfg.self, t.dst), part.value);
      }
    }
  }

  lemma RecordedInRange(cfg: Config, h: History, g: Option<Group>)
    requires cfg.Valid() && InRange(cfg, Record(h, g))
    ensures g.Some? ==> g.value.pidx + g.value.Count() <= INT_LIMIT
  {
    if g.Some? {
      LastInRange(cfg, h, g.value);
    }
  }

  lemma AckOrdered(cfg: Config, s: Sender.State, tidx: nat, pidx: nat)
    requires cfg.Valid() && Ordered(s.queue, s.pidx)
    requires var g := Ack(cfg, s, tidx, pidx).1; g.Some? ==> g.value.pidx + g.value.Count() <= INT_LIMIT
    ensures var s' := Ack(cfg, s, tidx, pidx).0; Ordered(s'.queue, s'.pidx)
  {
    var i := FindQueued(s.queue, tidx, pidx);
    if i < |s.queue| {
      WithoutOrdered(s.queue, s.pidx, i);
      UpdateOrdered(cfg, s.(queue := Without(s.queue, i)));
    }
  }

  lemma WithoutOrdered(queue: seq<Queued>, pidx: nat, i: nat)
    requires Ordered(queue, pidx) && i < |queue|
    ensures Ordered(Without(queue, i), pidx)
  {
    var queue' := Without(queue, i);
    assert forall k :: 0 <= k < |queue'| ==> queue'[k] == queue[if k < i then k else k + 1];
  }

  lemma AddOrdered(cfg: Config, dst: Address, s: System, name: string, d: Address, file: seq<byte>)
    requires cfg.Valid() && Ordered(s.snd.queue, s.snd.pidx)
    requires var s' := Next(cfg, dst, s, TaskAdded(name, d, file)); InRange(cfg, s'.h)
    ensures var s' := Next(cfg, dst, s, TaskAdded(name, d, file)); Ordered(s'.snd.queue, s'.snd.pidx)
  {
    if !HasTask(s.snd, name, d) {
      var t := Task(s.snd.tidx + 1, name, d, FileParts(|file|, cfg.taskBuffer), file, 0);
      var snd1 := s.snd.(tidx := s.snd.tidx + 1, tasks := s.snd.tasks + [t]);
      RecordedInRange(cfg, s.h.(log := s.h.log + [TaskLog(file, d, [])]), Update(cfg, snd1).1);
      UpdateOrdered(cfg, snd1);
    }
  }

  lemma VisitOrdered(cfg: Config, dst: Address, s: System, i: nat, suspended: bool)
    requires cfg.Valid() && Ordered(s.snd.queue, s.snd.pidx) && i < |s.snd.queue|
    requires var s' := Next(cfg, dst, s, Visited(i, suspended)); InRange(cfg, s'.h)
    ensures var s' := Next(cfg, dst, s, Visited(i, suspended)); Ordered(s'.snd.queue, s'.snd.pidx)
  {
    VisitShape(cfg, dst, s, i, suspended);
    var p, s1 := s.snd.queue[i].packet, Counted(s, i);
    assert Ordered(s1.snd.queue, s1.snd.pidx);
    if Attempt(cfg, s.snd.queue[i].attempt) == Expired {
      RecordedInRange(cfg, s.h, Ack(cfg, s1.snd, p.meta.tidx, p.pidx).1);
      AckOrdered(cfg, s1.snd, p.meta.tidx, p.pidx);
    }
  }

  lemma StepOrdered(cfg: Config, dst: Address, s: System, e: Event, s': System)
    requires cfg.Valid() && Step(cfg, dst, s, e, s') && InRange(cfg, s'.h)
    requires Ordered(s.snd.queue, s.snd.pidx)
    ensures Ordered(s'.snd.queue, s'.snd.pidx)
  {
    match e
    case TaskAdded(name, d, file) =>
      AddOrdered(cfg, dst, s, name, d, file);
    case TaskCancelled(idx) =>
    case MessageSent(meta, buffer) =>
      RecordedInRange(cfg, s.h, Send(s.snd, meta, buffer).1);
      SendOrdered(s.snd, meta, buffer);
    case InstantCleaned =>
      RecordedInRange(cfg, s.h, Update(cfg, s.snd).1);
      UpdateOrdered(cfg, s.snd);
    case Visited(i, suspended) =>
      VisitOrdered(cfg, dst, s, i, suspended);
    case AckArrived(tidx, pidx) =>
      RecordedInRange(cfg, s.h, Ack(cfg, s.snd, tidx, pidx).1);
      AckOrdered(cfg, s.snd, tidx, pidx);
    case PacketArrived(p, c) =>
  }

  /** In every run the waiting packets are in the order in which they were cut. */
  lemma {:induction false} QueueInSendOrder(cfg: Config, dst: Address, es: seq<Event>, ss: seq<System>, n: nat)
    requires cfg.Valid() && Run(cfg, dst, es, ss) && n < |ss|
    ensures Ordered(ss[n].snd.queue, ss[n].snd.pidx)
  {
    if n > 0 {
      QueueInSendOrder(cfg, dst, es, ss, n - 1);
      assert StepAt(cfg, dst, es, ss, n - 1) && InRange(cfg, ss[n].h);
      StepOrdered(cfg, dst, ss[n - 1], es[n - 1], ss[n]);
    }
  }

  // ----- Distinct keys

  function KeyOf(p: Packet): Key
    requires p.pidx < UINT_MOD && p.meta.tidx < UINT_MOD
  {
    UniqueKey(p.pidx, p.meta.tidx)
  }

  /** No two waiting packets have the same key. */
  lemma WaitingKeysDiffer(cfg: Config, dst: Address, es: seq<Event>, ss: seq<System>, n: nat, i: nat, j: nat)
    requires cfg.Valid() && Run(cfg, dst, es, ss) && n < |ss| && i < j < |ss[n].snd.queue|
    requires forall k :: 0 <= k < |ss[n].snd.queue| ==> ss[n].snd.queue[k].packet.meta.tidx < UINT_MOD
    ensures var p, q := ss[n].snd.queue[i].packet, ss[n].snd.queue[j].packet;
            p.pidx < UINT_MOD && q.pidx < UINT_MOD && KeyOf(p) != KeyOf(q)
  {
    RunKeeps(cfg, dst, es, ss, n);
    QueueInSendOrder(cfg, dst, es, ss, n);
    var p, q := ss[n].snd.queue[i].packet, ss[n].snd.queue[j].packet;
    assert SentPacket(ss[n].h.groups, p) && SentPacket(ss[n].h.groups, q);
    UniqueKeyIdentifies(p.pidx, p.meta.tidx, q.pidx, q.meta.tidx);
  }

  /** A packet of a group sent by a step has a key that no waiting packet has. */
  lemma NewKeysAreFresh(cfg: Config, dst: Address, es: seq<Event>, ss: seq<System>, n: nat, p: Packet, i: nat)
    requires cfg.Valid() && Run(cfg, dst, es, ss) && n < |es|
    requires |ss[n].h.groups| <= p.gidx && SentPacket(ss[n + 1].h.groups, p)
    requires i < |ss[n].snd.queue|
    requires p.meta.tidx < UINT_MOD && ss[n].snd.queue[i].packet.meta.tidx < UINT_MOD
    ensures var q := ss[n].snd.queue[i].packet;
            p.pidx < UINT_MOD && q.pidx < UINT_MOD && KeyOf(p) != KeyOf(q)
  {
    RunKeeps(cfg, dst, es, ss, n);
    RunKeeps(cfg, dst, es, ss, n + 1);
    HistoryExtends(cfg, dst, es, ss, n);
    assert InRange(cfg, ss[n + 1].h);
    var q, groups := ss[n].snd.queue[i].packet, ss[n + 1].h.groups;
    assert SentPacket(ss[n].h.groups, q);
    ExtendedGroup(ss[n].h, ss[n + 1].h, q.gidx);
    PidxInGroup(groups[q.gidx], q);
    PidxInGroup(groups[p.gidx], p);
    UniqueKeyIdentifies(p.pidx, p.meta.tidx, q.pidx, q.meta.tidx);
  }

  lemma HistoryExtends(cfg: Config, dst: Address, es: seq<Event>, ss: seq<System>, n: nat)
    requires cfg.Valid() && Run(cfg, dst, es, ss) && n < |es|
    ensures Extends(ss[n].h, ss[n + 1].h)
  {
    assert StepAt(cfg, dst, es, ss, n);
    StepExtends(cfg, dst, ss[n], es[n], ss[n + 1]);
  }

  lemma StepExtends(cfg: Config, dst: Address, s: System, e: Event, s': System)
    requires cfg.Valid() && Step(cfg, dst, s, e, s')
    ensures Extends(s.h, s'.h)
  {
    match e
    case TaskAdded(name, d, file) =>
      if !HasTask(s.snd, name, d) {
        RecordExtends(s.h.(log := s.h.log + [TaskLog(file, d, [])]), AddTask(cfg, s.snd, name, d, file).1);
      }
    case TaskCancelled(idx) =>
    case MessageSent(meta, buffer) => RecordExtends(s.h, Send(s.snd, meta, buffer).1);
    case InstantCleaned => RecordExtends(s.h, Update(cfg, s.snd).1);
    case Visited(i, suspended) => RecordExtends(s.h, Visit(cfg, s.snd, i).1);
    case AckArrived(tidx, pidx) => RecordExtends(s.h, Ack(cfg, s.snd, tidx, pidx).1);
    case PacketArrived(p, c) =>
  }
}
