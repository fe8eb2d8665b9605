/** One sender and one receiver joined by a network that loses, repeats and reorders packets. */
module Transport {
  import opened Common
  import opened Packets
  import opened Receiver
  import opened ReceiverProofs
  import opened Sender
  import opened SendHistory

  /** The whole system. `net` holds every packet ever put on the wire and `acks` every acknowledgement
      key: an element may be delivered any number of times, at any time, or never. `acked` and `expired`
      record how packets left the send queue, and `cancelled` which tasks were withdrawn. */
  datatype System = System(
    snd: Sender.State, h: History,
    net: set<Packet>, acks: set<(nat, nat)>,
    rcv: Receiver.State,
    acked: set<Packet>, expired: set<Packet>, cancelled: set<nat>)

  datatype Event =
    | TaskAdded(name: string, dst: Address, file: seq<byte>)
    | TaskCancelled(idx: nat)
    | MessageSent(meta: Meta, buffer: seq<byte>)
    | InstantCleaned
    | Visited(i: nat, suspended: bool)
    | AckArrived(tidx: nat, pidx: nat)
    | PacketArrived(packet: Packet, chance: Chance)

  function Init(): System {
    System(Sender.State(0, 0, 0, [], [], {}), History([], []), {}, {},
           Receiver.State([], map[], {}, [], []), {}, {}, {})
  }

  /** `dst` is the receiver's address; packets for other peers never reach it. An acknowledgement that names a
      stale key is not part of a run: it would unlink once more a packet that is not in the list, with what
      was next to it when it left, and what happens to the list then is outside this model. */
  ghost predicate Enabled(cfg: Config, dst: Address, s: System, e: Event) {
    match e
    case TaskAdded(_, _, _) => true
    case TaskCancelled(_) => true
    case MessageSent(meta, buffer) => meta.command != FILE && |buffer| < INT_LIMIT
    case InstantCleaned => true
    case Visited(i, _) => i < |s.snd.queue|
    case AckArrived(tidx, pidx) => (tidx, pidx) in s.acks && (tidx, pidx) !in s.snd.stale
    case PacketArrived(p, c) =>
      p in s.net && p.meta.dst == dst && PartOf(p).InRange() && Listed(c.entries, s.rcv.dir, p)
  }

  function PacketSet(g: Group): set<Packet> {
    set p | p in g.Packets()
  }

  /** The sender moves to `r.0`, having sent the group `r.1`. */
  function Sent(s: System, r: (Sender.State, Option<Group>)): System {
    s.(snd := r.0, h := Record(s.h, r.1))
  }

  ghost function Next(cfg: Config, dst: Address, s: System, e: Event): System
    requires cfg.Valid() && Enabled(cfg, dst, s, e)
  {
    match e
    case TaskAdded(name, d, file) =>
      s.(snd := AddTask(cfg, s.snd, name, d, file).0, h := RecordTask(cfg, s.snd, s.h, name, d, file))
    case TaskCancelled(idx) =>
      s.(snd := Cancel(s.snd, idx),
         cancelled := if FindTask(s.snd.tasks, idx) < |s.snd.tasks| then s.cancelled + {idx} else s.cancelled)
    case MessageSent(meta, buffer) =>
      var r := Send(s.snd, meta, buffer);
      // Acknowledgements go out at once; everything else waits in the queue for a dispatch pass.
      Sent(s, r).(net := if r.1.Some? && meta.command == ACK then s.net + PacketSet(r.1.value) else s.net)
    case InstantCleaned =>
      Sent(s, Update(cfg, s.snd))
    case Visited(i, suspended) =>
      var p := s.snd.queue[i].packet;
      var (snd, g, v) := Visit(cfg, s.snd, i);
      Sent(s, (snd, g)).(
        net := if v == SendNow && !suspended then s.net + {p} else s.net,
        expired := if v == Expired then s.expired + {p} else s.expired)
    case AckArrived(tidx, pidx) =>
      var i := FindQueued(s.snd.queue, tidx, pidx);
      Sent(s, Ack(cfg, s.snd, tidx, pidx)).(
        acked := if i < |s.snd.queue| then s.acked + {s.snd.queue[i].packet} else s.acked)
    case PacketArrived(p, c) =>
      s.(rcv := Receive(s.rcv, p, c),
         acks := if p.meta.command == ACK then s.acks else s.acks + {(p.meta.tidx, p.pidx)})
  }

  ghost predicate Step(cfg: Config, dst: Address, s: System, e: Event, s': System)
    requires cfg.Valid()
  {
    Enabled(cfg, dst, s, e) && s' == Next(cfg, dst, s, e)
  }

  /** Event `i` leads from state `i` to the next one. */
  ghost predicate StepAt(cfg: Config, dst: Address, es: seq<Event>, ss: seq<System>, i: nat)
    requires cfg.Valid() && i < |es| && i + 1 < |ss|
  {
    Step(cfg, dst, ss[i], es[i], ss[i + 1])
  }

  /** The states reached by a run, with all indices below 2^31 throughout. */
  ghost predicate Run(cfg: Config, dst: Address, es: seq<Event>, ss: seq<System>)
    requires cfg.Valid()
  {
    && |ss| == |es| + 1
    && ss[0] == Init()
    && (forall i {:trigger InRange(cfg, ss[i].h)} :: 0 <= i < |ss| ==> InRange(cfg, ss[i].h))
    && (forall i :: 0 <= i < |es| ==> StepAt(cfg, dst, es, ss, i))
  }

  // ----- Invariant

  ghost predicate NetOk(net: set<Packet>, groups: seq<Group>) {
    forall p :: p in net ==> SentPacket(groups, p)
  }

  /** Whoever is acknowledged has been taken in. */
  ghost predicate AcksOk(acks: set<(nat, nat)>, passed: set<Packet>) {
    forall a :: a in acks ==> exists p :: p in passed && p.meta.tidx == a.0 && p.pidx == a.1
  }

  ghost predicate Waiting(queue: seq<Queued>, p: Packet) {
    exists i :: 0 <= i < |queue| && queue[i].packet == p
  }

  /** Every packet sent, other than acknowledgements, is waiting, acknowledged or given up. */
  ghost predicate Conserved(queue: seq<Queued>, groups: seq<Group>, acked: set<Packet>, expired: set<Packet>) {
    forall p :: SentPacket(groups, p) && p.meta.command != ACK ==>
      Waiting(queue, p) || p in acked || p in expired
  }

  ghost predicate SysInv(cfg: Config, s: System)
    requires cfg.Valid()
  {
    && Inv(cfg, s.snd, s.h)
    && RecvInv(cfg, s.rcv, s.h)
    && NetOk(s.net, s.h.groups)
    && AcksOk(s.acks, s.rcv.passed)
    && s.acked <= s.rcv.passed
    && Conserved(s.snd.queue, s.h.groups, s.acked, s.expired)
  }

  lemma InRangeGroups(cfg: Config, s: Sender.State, h: History)
    requires cfg.Valid() && Inv(cfg, s, h) && InRange(cfg, h)
    ensures GroupsInRange(h.groups)
  {
  }

  lemma RecordExtends(h: History, g: Option<Group>)
    ensures Extends(h, Record(h, g))
  {
  }

  lemma NetGrows(net: set<Packet>, h: History, h': History)
    requires NetOk(net, h.groups) && Extends(h, h')
    ensures NetOk(net, h'.groups)
  {
    forall p | p in net ensures SentPacket(h'.groups, p) {
      ExtendedGroup(h, h', p.gidx);
    }
  }

  /** The sender takes a step that sends at most one group: what the other components rely on is kept. */
  lemma SenderStep(cfg: Config, s: System, r: (Sender.State, Option<Group>))
    requires cfg.Valid() && SysInv(cfg, s) && Inv(cfg, r.0, Record(s.h, r.1))
    ensures RecvInv(cfg, s.rcv, Record(s.h, r.1)) && NetOk(s.net, Record(s.h, r.1).groups)
  {
    RecordExtends(s.h, r.1);
    HistoryGrows(cfg, s.rcv, s.h, Record(s.h, r.1));
    NetGrows(s.net, s.h, Record(s.h, r.1));
  }

  // ----- Conservation of packets

  ghost predicate Same(queue: seq<Queued>, queue': seq<Queued>) {
    |queue| == |queue'| && forall i :: 0 <= i < |queue| ==> queue[i].packet == queue'[i].packet
  }

  /** What the queue and the history become when the group `g` is sent. */
  ghost predicate Pushed(queue: seq<Queued>, queue': seq<Queued>, g: Option<Group>) {
    queue' == if g.None? || g.value.meta.command == ACK then queue else queue + Fresh(g.value.Packets())
  }

  lemma UpdatePushes(cfg: Config, s: Sender.State)
    requires cfg.Valid()
    ensures var (s', g) := Update(cfg, s); Pushed(s.queue, s'.queue, g)
    ensures Update(cfg, s).1.Some? ==> Update(cfg, s).1.value.gidx == s.gidx
  {
  }

  lemma PushConserves(queue: seq<Queued>, queue': seq<Queued>, h: History, g: Option<Group>,
                      acked: set<Packet>, expired: set<Packet>)
    requires Conserved(queue, h.groups, acked, expired)
    requires Pushed(queue, queue', g)
    requires g.Some? ==> g.value.gidx == |h.groups|
    ensures Conserved(queue', Record(h, g).groups, acked, expired)
  {
    var groups' := Record(h, g).groups;
    forall p | SentPacket(groups', p) && p.meta.command != ACK
      ensures Waiting(queue', p) || p in acked || p in expired
    {
      if p.gidx < |h.groups| {
        assert SentPacket(h.groups, p);
        if Waiting(queue, p) {
          var i :| 0 <= i < |queue| && queue[i].packet == p;
          assert queue'[i].packet == p;
        }
      } else {
        var v := g.value;
        GroupPacketsAreInGroup(v.meta, v.buffer, v.pidx, v.gidx, p);
        var i :| 0 <= i < |v.Packets()| && v.Packets()[i] == p;
        assert queue'[|queue| + i].packet == p;
      }
    }
  }

  /** The packet at position `i` leaves the queue and is recorded. */
  lemma RemovalConserves(queue: seq<Queued>, groups: seq<Group>, acked: set<Packet>, expired: set<Packet>,
                         i: nat, acked': set<Packet>, expired': set<Packet>)
    requires Conserved(queue, groups, acked, expired) && i < |queue|
    requires acked <= acked' && expired <= expired'
    requires queue[i].packet in acked' || queue[i].packet in expired'
    ensures Conserved(queue[..i] + queue[i + 1..], groups, acked', expired')
  {
    var queue' := queue[..i] + queue[i + 1..];
    forall p | SentPacket(groups, p) && p.meta.command != ACK
      ensures Waiting(queue', p) || p in acked' || p in expired'
    {
      if Waiting(queue, p) && p != queue[i].packet {
        var k :| 0 <= k < |queue| && queue[k].packet == p;
        assert queue'[if k < i then k else k - 1] == queue[k];
      }
    }
  }

  lemma SameConserves(queue: seq<Queued>, queue': seq<Queued>, groups: seq<Group>,
                      acked: set<Packet>, expired: set<Packet>)
    requires Conserved(queue, groups, acked, expired) && Same(queue, queue')
    ensures Conserved(queue', groups, acked, expired)
  {
    forall p | Waiting(queue, p) ensures Waiting(queue', p) {
      var i :| 0 <= i < |queue| && queue[i].packet == p;
      assert queue'[i].packet == p;
    }
  }

  /** Within range, the key of a packet finds that packet in the queue. */
  lemma KeyFinds(cfg: Config, s: Sender.State, h: History, p: Packet)
    requires cfg.Valid() && Inv(cfg, s, h) && InRange(cfg, h) && SentPacket(h.groups, p)
    ensures var i := FindQueued(s.queue, p.meta.tidx, p.pidx);
            i < |s.queue| ==> s.queue[i].packet == p
  {
    var i := FindQueued(s.queue, p.meta.tidx, p.pidx);
    if i < |s.queue| {
      PidxIdentifies(s.pidx, s.gidx, h.groups, p, s.queue[i].packet);
    }
  }

  // ----- Every event keeps the invariant

  lemma RemoveStep(cfg: Config, s: System, i: nat, acked: set<Packet>, expired: set<Packet>)
    requires cfg.Valid() && SysInv(cfg, s) && i < |s.snd.queue|
    requires InRange(cfg, Record(s.h, Remove(cfg, s.snd, i).1))
    requires s.acked <= acked <= s.rcv.passed && s.expired <= expired
    requires s.snd.queue[i].packet in acked || s.snd.queue[i].packet in expired
    ensures SysInv(cfg, Sent(s, Remove(cfg, s.snd, i)).(acked := acked, expired := expired))
  {
    var queue := s.snd.queue[..i] + s.snd.queue[i + 1..];
    RemoveKeeps(cfg, s.snd, s.h, i);
    SenderStep(cfg, s, Remove(cfg, s.snd, i));
    RemovalConserves(s.snd.queue, s.h.groups, s.acked, s.expired, i, acked, expired);
    UpdatePushes(cfg, s.snd.(queue := queue));
    PushConserves(queue, Remove(cfg, s.snd, i).0.queue, s.h, Remove(cfg, s.snd, i).1, acked, expired);
  }

  lemma AckShape(cfg: Config, dst: Address, s: System, tidx: nat, pidx: nat)
    requires cfg.Valid() && Enabled(cfg, dst, s, AckArrived(tidx, pidx))
    ensures var i := FindQueued(s.snd.queue, tidx, pidx);
            Next(cfg, dst, s, AckArrived(tidx, pidx)) ==
              if i == |s.snd.queue| then s
              else Sent(s, Remove(cfg, s.snd, i)).(acked := s.acked + {s.snd.queue[i].packet}, expired := s.expired)
  {
  }

  /** The packet an acknowledgement removes is one the receiver has taken in. */
  lemma AckMatches(cfg: Config, s: System, tidx: nat, pidx: nat)
    requires cfg.Valid() && SysInv(cfg, s) && InRange(cfg, s.h) && (tidx, pidx) in s.acks
    ensures var i := FindQueued(s.snd.queue, tidx, pidx);
            i < |s.snd.queue| ==> s.snd.queue[i].packet in s.rcv.passed
  {
    var a := (tidx, pidx);
    var p :| p in s.rcv.passed && p.meta.tidx == a.0 && p.pidx == a.1;
    assert SentPacket(s.h.groups, p);
    KeyFinds(cfg, s.snd, s.h, p);
  }

  lemma AckStep(cfg: Config, dst: Address, s: System, tidx: nat, pidx: nat)
    requires cfg.Valid() && SysInv(cfg, s) && InRange(cfg, s.h) && Enabled(cfg, dst, s, AckArrived(tidx, pidx))
    requires InRange(cfg, Next(cfg, dst, s, AckArrived(tidx, pidx)).h)
    ensures SysInv(cfg, Next(cfg, dst, s, AckArrived(tidx, pidx)))
  {
    AckShape(cfg, dst, s, tidx, pidx);
    var i := FindQueued(s.snd.queue, tidx, pidx);
    if i < |s.snd.queue| {
      AckMatches(cfg, s, tidx, pidx);
      RemoveStep(cfg, s, i, s.acked + {s.snd.queue[i].packet}, s.expired);
    }
  }

  /** Counting an attempt changes no packet in the queue. */
  lemma AttemptCounted(cfg: Config, s: System, i: nat)
    requires cfg.Valid() && SysInv(cfg, s) && i < |s.snd.queue|
    ensures SysInv(cfg, Counted(s, i))
  {
    var queue := Counted(s, i).snd.queue;
    assert Same(s.snd.queue, queue);
    SameConserves(s.snd.queue, queue, s.h.groups, s.acked, s.expired);
  }

  /** The attempts of the packet at position `i` are used up. */
  lemma ExpiryStep(cfg: Config, s: System, i: nat)
    requires cfg.Valid() && SysInv(cfg, s) && InRange(cfg, s.h) && i < |s.snd.queue|
    requires var p := s.snd.queue[i].packet; InRange(cfg, Record(s.h, Ack(cfg, s.snd, p.meta.tidx, p.pidx).1))
    ensures var p := s.snd.queue[i].packet;
            SysInv(cfg, Sent(s, Ack(cfg, s.snd, p.meta.tidx, p.pidx)).(expired := s.expired + {p}))
  {
    var p := s.snd.queue[i].packet;
    assert SentPacket(s.h.groups, p);
    KeyFinds(cfg, s.snd, s.h, p);
    var k := FindQueued(s.snd.queue, p.meta.tidx, p.pidx);
    assert k <= i;
    RemoveStep(cfg, s, k, s.acked, s.expired + {p});
  }

  /** The system after an attempt on the packet at position `i` has been counted. */
  function Counted(s: System, i: nat): System
    requires i < |s.snd.queue|
  {
    var q := s.snd.queue[i];
    s.(snd := s.snd.(queue := s.snd.queue[i := q.(attempt := q.attempt + 1)]))
  }

  lemma VisitShape(cfg: Config, dst: Address, s: System, i: nat, suspended: bool)
    requires cfg.Valid() && i < |s.snd.queue|
    ensures var p, s1 := s.snd.queue[i].packet, Counted(s, i);
            Next(cfg, dst, s, Visited(i, suspended)) ==
              match Attempt(cfg, s.snd.queue[i].attempt)
              case Expired => Sent(s1, Ack(cfg, s1.snd, p.meta.tidx, p.pidx)).(expired := s.expired + {p})
              case SendNow => s1.(net := if suspended then s.net else s.net + {p})
              case Skip => s1
  {
  }

  lemma VisitStep(cfg: Config, dst: Address, s: System, i: nat, suspended: bool)
    requires cfg.Valid() && SysInv(cfg, s) && InRange(cfg, s.h) && i < |s.snd.queue|
    requires InRange(cfg, Next(cfg, dst, s, Visited(i, suspended)).h)
    ensures SysInv(cfg, Next(cfg, dst, s, Visited(i, suspended)))
  {
    VisitShape(cfg, dst, s, i, suspended);
    AttemptCounted(cfg, s, i);
    if Attempt(cfg, s.snd.queue[i].attempt) == Expired {
      ExpiryStep(cfg, Counted(s, i), i);
    } else {
      assert SentPacket(s.h.groups, s.snd.queue[i].packet);
    }
  }

  lemma MessageStep(cfg: Config, dst: Address, s: System, meta: Meta, buffer: seq<byte>)
    requires cfg.Valid() && SysInv(cfg, s) && meta.command != FILE && |buffer| < INT_LIMIT
    requires InRange(cfg, Next(cfg, dst, s, MessageSent(meta, buffer)).h)
    ensures SysInv(cfg, Next(cfg, dst, s, MessageSent(meta, buffer)))
  {
    var r := Send(s.snd, meta, buffer);
    SendKeeps(cfg, s.snd, s.h, meta, buffer);
    SenderStep(cfg, s, r);
    PushConserves(s.snd.queue, r.0.queue, s.h, r.1, s.acked, s.expired);
    if r.1.Some? {
      var g := r.1.value;
      forall p | p in PacketSet(g) ensures SentPacket(s.h.groups + [g], p) {
        GroupPacketsAreInGroup(meta, buffer, g.pidx, g.gidx, p);
      }
    }
  }

  lemma TaskStep(cfg: Config, dst: Address, s: System, name: string, d: Address, file: seq<byte>)
    requires cfg.Valid() && SysInv(cfg, s)
    requires InRange(cfg, Next(cfg, dst, s, TaskAdded(name, d, file)).h)
    ensures SysInv(cfg, Next(cfg, dst, s, TaskAdded(name, d, file)))
  {
    var h' := RecordTask(cfg, s.snd, s.h, name, d, file);
    AddTaskKeeps(cfg, s.snd, s.h, name, d, file);
    TaskExtends(cfg, s.snd, s.h, name, d, file);
    HistoryGrows(cfg, s.rcv, s.h, h');
    NetGrows(s.net, s.h, h');
    TaskConserves(cfg, s.snd, s.h, name, d, file, s.acked, s.expired);
  }

  lemma TaskExtends(cfg: Config, s: Sender.State, h: History, name: string, dst: Address, file: seq<byte>)
    requires cfg.Valid()
    ensures Extends(h, RecordTask(cfg, s, h, name, dst, file))
  {
    if !HasTask(s, name, dst) {
      RecordExtends(h.(log := h.log + [TaskLog(file, dst, [])]), AddTask(cfg, s, name, dst, file).1);
    }
  }

  lemma TaskConserves(cfg: Config, s: Sender.State, h: History, name: string, dst: Address, file: seq<byte>,
                      acked: set<Packet>, expired: set<Packet>)
    requires cfg.Valid() && s.gidx == |h.groups| && Conserved(s.queue, h.groups, acked, expired)
    ensures Conserved(AddTask(cfg, s, name, dst, file).0.queue, RecordTask(cfg, s, h, name, dst, file).groups,
                      acked, expired)
  {
    if !HasTask(s, name, dst) {
      var t := Task(s.tidx + 1, name, dst, FileParts(|file|, cfg.taskBuffer), file, 0);
      var s1 := s.(tidx := s.tidx + 1, tasks := s.tasks + [t]);
      UpdatePushes(cfg, s1);
      PushConserves(s.queue, Update(cfg, s1).0.queue, h.(log := h.log + [TaskLog(file, dst, [])]), Update(cfg, s1).1,
                    acked, expired);
    }
  }

  lemma ArrivalStep(cfg: Config, dst: Address, s: System, p: Packet, c: Chance)
    requires cfg.Valid() && SysInv(cfg, s) && InRange(cfg, s.h)
    requires Enabled(cfg, dst, s, PacketArrived(p, c))
    ensures SysInv(cfg, Next(cfg, dst, s, PacketArrived(p, c)))
  {
    InRangeGroups(cfg, s.snd, s.h);
    ReceiveKeeps(cfg, s.rcv, s.h, p, c);
    var passed := Receive(s.rcv, p, c).passed;
    assert passed == s.rcv.passed + {p};
    forall a | a in Next(cfg, dst, s, PacketArrived(p, c)).acks
      ensures exists q :: q in passed && q.meta.tidx == a.0 && q.pidx == a.1
    {
      if a in s.acks {
        var q :| q in s.rcv.passed && q.meta.tidx == a.0 && q.pidx == a.1;
        assert q in passed;
      } else {
        assert p in passed;
      }
    }
  }

  lemma StepKeeps(cfg: Config, dst: Address, s: System, e: Event, s': System)
    requires cfg.Valid() && Step(cfg, dst, s, e, s')
    requires SysInv(cfg, s) && InRange(cfg, s.h) && InRange(cfg, s'.h)
    ensures SysInv(cfg, s')
  {
    match e
    case TaskAdded(name, d, file) => TaskStep(cfg, dst, s, name, d, file);
    case TaskCancelled(idx) => CancelKeeps(cfg, s.snd, s.h, idx);
    case MessageSent(meta, buffer) => MessageStep(cfg, dst, s, meta, buffer);
    case InstantCleaned =>
      var r := Update(cfg, s.snd);
      UpdateKeeps(cfg, s.snd, s.h);
      SenderStep(cfg, s, r);
      UpdatePushes(cfg, s.snd);
      PushConserves(s.snd.queue, r.0.queue, s.h, r.1, s.acked, s.expired);
    case Visited(i, suspended) => VisitStep(cfg, dst, s, i, suspended);
    case AckArrived(tidx, pidx) => AckStep(cfg, dst, s, tidx, pidx);
    case PacketArrived(p, c) => ArrivalStep(cfg, dst, s, p, c);
  }

  /** A run goes on with any step that keeps the indices in range. */
  lemma RunExtends(cfg: Config, dst: Address, es: seq<Event>, ss: seq<System>, e: Event, s: System)
    requires cfg.Valid() && Run(cfg, dst, es, ss) && Step(cfg, dst, ss[|es|], e, s) && InRange(cfg, s.h)
    ensures Run(cfg, dst, es + [e], ss + [s])
  {
    var es', ss' := es + [e], ss + [s];
    forall i | 0 <= i < |es'| ensures StepAt(cfg, dst, es', ss', i) {
      assert i < |es| ==> StepAt(cfg, dst, es, ss, i);
    }
  }

  lemma NextKeeps(cfg: Config, dst: Address, es: seq<Event>, ss: seq<System>, n: nat)
    requires cfg.Valid() && Run(cfg, dst, es, ss) && n < |es| && SysInv(cfg, ss[n])
    ensures SysInv(cfg, ss[n + 1])
  {
    assert StepAt(cfg, dst, es, ss, n) && InRange(cfg, ss[n + 1].h);
    StepKeeps(cfg, dst, ss[n], es[n], ss[n + 1]);
  }

  /** The invariant holds throughout every run. */
  lemma {:induction false} RunKeeps(cfg: Config, dst: Address, es: seq<Event>, ss: seq<System>, n: nat)
    requires cfg.Valid() && Run(cfg, dst, es, ss) && n < |ss|
    ensures SysInv(cfg, ss[n])
  {
    if n == 0 {
      InitKeeps(cfg);
    } else {
      RunKeeps(cfg, dst, es, ss, n - 1);
      NextKeeps(cfg, dst, es, ss, n - 1);
    }
  }

  lemma InitKeeps(cfg: Config)
    requires cfg.Valid()
    ensures SysInv(cfg, Init())
  {
  }

  // ----- Main results

  /** End to end: every file that is ever completed is the file the sender queued for that task. */
  lemma CompletedFilesAreSentFiles(cfg: Config, dst: Address, es: seq<Event>, ss: seq<System>, n: nat, i: nat)
    requires cfg.Valid() && Run(cfg, dst, es, ss) && n < |ss| && i < |ss[n].rcv.completed|
    ensures var c, log := ss[n].rcv.completed[i], ss[n].h.log;
            1 <= c.tidx <= |log| && c.content == log[c.tidx - 1].file
  {
    RunKeeps(cfg, dst, es, ss, n);
  }

  /** Every group handed to a read callback, first or repeated, holds exactly the bytes sent. */
  lemma DeliveriesAreCorrect(cfg: Config, dst: Address, es: seq<Event>, ss: seq<System>, n: nat, i: nat)
    requires cfg.Valid() && Run(cfg, dst, es, ss) && n < |ss| && i < |ss[n].rcv.delivered|
    ensures var d, groups := ss[n].rcv.delivered[i], ss[n].h.groups;
            d.gidx < |groups| && d.data == groups[d.gidx].buffer
  {
    RunKeeps(cfg, dst, es, ss, n);
  }

  /** An acknowledgement in flight, or already used, is for a packet the receiver has taken in. */
  lemma AcksAreTruthful(cfg: Config, dst: Address, es: seq<Event>, ss: seq<System>, n: nat)
    requires cfg.Valid() && Run(cfg, dst, es, ss) && n < |ss|
    ensures AcksOk(ss[n].acks, ss[n].rcv.passed) && ss[n].acked <= ss[n].rcv.passed
  {
    RunKeeps(cfg, dst, es, ss, n);
  }

  /** A group none of whose packets is still queued or was given up has been delivered at least once. */
  lemma AcknowledgedGroupsAreDelivered(cfg: Config, dst: Address, es: seq<Event>, ss: seq<System>, n: nat, k: nat)
    requires cfg.Valid() && Run(cfg, dst, es, ss) && n < |ss|
    requires k < |ss[n].h.groups| && ss[n].h.groups[k].meta.command != ACK
    requires forall p :: ss[n].h.groups[k].Has(p) ==> !Waiting(ss[n].snd.queue, p) && p !in ss[n].expired
    ensures Delivered(ss[n].rcv.delivered, k)
  {
    var s := ss[n];
    RunKeeps(cfg, dst, es, ss, n);
    InRangeGroups(cfg, s.snd, s.h);
    forall p | s.h.groups[k].Has(p) ensures p in s.rcv.passed {
      assert SentPacket(s.h.groups, p);
    }
    AllPassedDelivered(s.rcv, s.h.groups, k);
  }
}
