/**
 * Keys left behind in the index of the send queue. Taking a packet off the queue resumes the tasks
 * (src/net.c); when that fails, the removal ends before the packet's key leaves the index (src/tcp/src/list.c).
 */
module StaleKeys {
  import opened Common
  import opened Packets
  import opened PartNames
  import opened Receiver
  import opened Sender
  import opened SendHistory
  import opened SendKeys
  import opened Transport
  import opened FlowControl
  import opened Retransmission

  // ----- Exactly when a key is left behind

  /** With one packet less the queue is within the limit, and the first file is empty. */
  predicate CleanUpFails(cfg: Config, s: Sender.State) {
    |s.queue| - 1 <= cfg.sendQueue && s.tasks != [] && s.tasks[0].file == []
  }

  /** What can be read off the sender before an event to tell whether it leaves the key behind. */
  ghost predicate LeavesBehind(cfg: Config, s: Sender.State, e: Event, key: (nat, nat))
    requires cfg.Valid() && (e.Visited? ==> e.i < |s.queue|)
  {
    match e
    case AckArrived(tidx, pidx) =>
      key == (tidx, pidx) && FindQueued(s.queue, tidx, pidx) < |s.queue| && CleanUpFails(cfg, s)
    case Visited(i, _) =>
      key == KeyAt(s.queue, i) && Attempt(cfg, s.queue[i].attempt) == Expired && CleanUpFails(cfg, s)
    case _ => false
  }

  /** An unfinished task fails to be resumed exactly when its file is empty. */
  lemma FailsWhenEmpty(cfg: Config, s: Sender.State, i: nat)
    requires cfg.Valid() && HeadUnfinished(cfg, s.tasks) && i < |s.queue|
    ensures UpdateFails(cfg, s.(queue := Without(s.queue, i))) <==> CleanUpFails(cfg, s)
  {
  }

  lemma AckLeavesBehind(cfg: Config, s: Sender.State, tidx: nat, pidx: nat, key: (nat, nat))
    requires cfg.Valid() && HeadUnfinished(cfg, s.tasks)
    ensures key in Ack(cfg, s, tidx, pidx).0.stale
       <==> key in s.stale || LeavesBehind(cfg, s, AckArrived(tidx, pidx), key)
  {
    var i := FindQueued(s.queue, tidx, pidx);
    if i < |s.queue| {
      FailsWhenEmpty(cfg, s, i);
    }
  }

  /** For every state with the joint invariant and every event: exactly when the event leaves a key behind. */
  lemma StaleExactly(cfg: Config, dst: Address, s: System, e: Event, s': System, key: (nat, nat))
    requires cfg.Valid() && SysInv(cfg, s) && Step(cfg, dst, s, e, s')
    ensures key in s'.snd.stale <==> key in s.snd.stale || LeavesBehind(cfg, s.snd, e, key)
  {
    TasksUnfinished(cfg, s.snd.tidx, s.snd.tasks, s.h.log);
    match e
    case TaskAdded(name, d, file) => AddKeepsStale(cfg, s.snd, name, d, file);
    case InstantCleaned => UpdateKeepsStale(cfg, s.snd);
    case Visited(i, suspended) => VisitLeavesBehind(cfg, dst, s, i, suspended, key);
    case AckArrived(tidx, pidx) => AckLeavesBehind(cfg, s.snd, tidx, pidx, key);
    case _ =>
  }

  lemma UpdateKeepsStale(cfg: Config, s: Sender.State)
    requires cfg.Valid()
    ensures Update(cfg, s).0.stale == s.stale
  {
  }

  lemma AddKeepsStale(cfg: Config, s: Sender.State, name: string, dst: Address, file: seq<byte>)
    requires cfg.Valid()
    ensures AddTask(cfg, s, name, dst, file).0.stale == s.stale
  {
    var t := Task(s.tidx + 1, name, dst, FileParts(|file|, cfg.taskBuffer), file, 0);
    UpdateKeepsStale(cfg, s.(tidx := s.tidx + 1, tasks := s.tasks + [t]));
  }

  lemma VisitLeavesBehind(cfg: Config, dst: Address, s: System, i: nat, suspended: bool, key: (nat, nat))
    requires cfg.Valid() && HeadUnfinished(cfg, s.snd.tasks) && i < |s.snd.queue|
    ensures key in Next(cfg, dst, s, Visited(i, suspended)).snd.stale
       <==> key in s.snd.stale || LeavesBehind(cfg, s.snd, Visited(i, suspended), key)
  {
    VisitShape(cfg, dst, s, i, suspended);
    var p, s1 := s.snd.queue[i].packet, Counted(s, i).snd;
    AckLeavesBehind(cfg, s1, p.meta.tidx, p.pidx, key);
    assert s1.queue[i].packet == p;
    assert FindQueued(s1.queue, p.meta.tidx, p.pidx) <= i;
  }

  // ----- Runs without stale keys

  lemma {:induction false} RunNonEmpty(cfg: Config, dst: Address, es: seq<Event>, ss: seq<System>, n: nat)
    requires cfg.Valid() && Run(cfg, dst, es, ss) && NonEmptyFiles(es) && n < |ss|
    ensures NonEmpty(ss[n].snd.tasks)
  {
    if n > 0 {
      RunNonEmpty(cfg, dst, es, ss, n - 1);
      assert StepAt(cfg, dst, es, ss, n - 1);
      StepNonEmpty(cfg, dst, ss[n - 1], es[n - 1], ss[n]);
    }
  }

  /** In every run without empty files, or with a negative limit, no key is left behind. */
  lemma {:induction false} NoStaleKeys(cfg: Config, dst: Address, es: seq<Event>, ss: seq<System>, n: nat)
    requires cfg.Valid() && Run(cfg, dst, es, ss) && n < |ss|
    requires NonEmptyFiles(es) || cfg.sendQueue < 0
    ensures ss[n].snd.stale == {}
  {
    if n > 0 {
      NoStaleKeys(cfg, dst, es, ss, n - 1);
      NothingLeftBehind(cfg, dst, es, ss, n - 1);
    }
  }

  lemma NothingLeftBehind(cfg: Config, dst: Address, es: seq<Event>, ss: seq<System>, n: nat)
    requires cfg.Valid() && Run(cfg, dst, es, ss) && n < |es| && ss[n].snd.stale == {}
    requires NonEmptyFiles(es) || cfg.sendQueue < 0
    ensures ss[n + 1].snd.stale == {}
  {
    RunKeeps(cfg, dst, es, ss, n);
    assert StepAt(cfg, dst, es, ss, n);
    if NonEmptyFiles(es) {
      RunNonEmpty(cfg, dst, es, ss, n);
    }
    var stale := ss[n + 1].snd.stale;
    forall key | key in stale ensures false {
      StaleExactly(cfg, dst, ss[n], es[n], ss[n + 1], key);
    }
  }

  /** So in these runs every acknowledgement in flight may arrive, at any time and any number of times. */
  lemma EveryAckMayArrive(cfg: Config, dst: Address, es: seq<Event>, ss: seq<System>, n: nat, tidx: nat, pidx: nat)
    requires cfg.Valid() && Run(cfg, dst, es, ss) && n < |ss|
    requires NonEmptyFiles(es) || cfg.sendQueue < 0
    ensures Enabled(cfg, dst, ss[n], AckArrived(tidx, pidx)) <==> (tidx, pidx) in ss[n].acks
  {
    NoStaleKeys(cfg, dst, es, ss, n);
  }

  // ----- Stale keys and waiting packets

  /** The key belongs to a packet that was sent and no longer waits. */
  ghost predicate Gone(s: System, key: (nat, nat)) {
    exists p :: SentPacket(s.h.groups, p) && key == (p.meta.tidx, p.pidx) && !Waiting(s.snd.queue, p)
  }

  lemma RemovedIsGone(cfg: Config, dst: Address, es: seq<Event>, ss: seq<System>, n: nat, key: (nat, nat))
    requires cfg.Valid() && Run(cfg, dst, es, ss) && n < |es|
    requires es[n].Visited? ==> es[n].i < |ss[n].snd.queue|
    requires LeavesBehind(cfg, ss[n].snd, es[n], key)
    ensures Gone(ss[n + 1], key)
  {
    var s := ss[n].snd;
    if es[n].Visited? {
      var p := s.queue[es[n].i].packet;
      VisitedStaySent(cfg, dst, es, ss, n, p);
      ExpiryLeaves(cfg, dst, es, ss, n);
    } else {
      var p := s.queue[FindQueued(s.queue, key.0, key.1)].packet;
      WaitingStaySent(cfg, dst, es, ss, n, FindQueued(s.queue, key.0, key.1));
      AckLeaves(cfg, dst, es, ss, n);
    }
  }

  lemma WaitingStaySent(cfg: Config, dst: Address, es: seq<Event>, ss: seq<System>, n: nat, i: nat)
    requires cfg.Valid() && Run(cfg, dst, es, ss) && n < |es| && i < |ss[n].snd.queue|
    ensures SentPacket(ss[n + 1].h.groups, ss[n].snd.queue[i].packet)
  {
    RunKeeps(cfg, dst, es, ss, n);
    SentStays(cfg, dst, es, ss, n, ss[n].snd.queue[i].packet);
  }

  lemma AckLeaves(cfg: Config, dst: Address, es: seq<Event>, ss: seq<System>, n: nat)
    requires cfg.Valid() && Run(cfg, dst, es, ss) && n < |es| && es[n].AckArrived?
    requires FindQueued(ss[n].snd.queue, es[n].tidx, es[n].pidx) < |ss[n].snd.queue|
    ensures var s := ss[n].snd;
            !Waiting(ss[n + 1].snd.queue, s.queue[FindQueued(s.queue, es[n].tidx, es[n].pidx)].packet)
  {
    var s, queue := ss[n].snd, ss[n + 1].snd.queue;
    var i := FindQueued(s.queue, es[n].tidx, es[n].pidx);
    RunKeeps(cfg, dst, es, ss, n);
    QueueInSendOrder(cfg, dst, es, ss, n);
    assert StepAt(cfg, dst, es, ss, n) && SentPacket(ss[n].h.groups, s.queue[i].packet);
    forall k | 0 <= k < |queue| ensures queue[k].packet != s.queue[i].packet {
      ExpiryCame(cfg, s, ss[n].h.groups, i, k);
    }
  }

  lemma {:induction false} StaleAreGone(cfg: Config, dst: Address, es: seq<Event>, ss: seq<System>, n: nat,
                                        key: (nat, nat))
    requires cfg.Valid() && Run(cfg, dst, es, ss) && n < |ss| && key in ss[n].snd.stale
    ensures Gone(ss[n], key)
  {
    if n > 0 {
      WhereStaleCame(cfg, dst, es, ss, n - 1, key);
      if key in ss[n - 1].snd.stale {
        StaleAreGone(cfg, dst, es, ss, n - 1, key);
        GoneStays(cfg, dst, es, ss, n - 1, key);
      } else {
        RemovedIsGone(cfg, dst, es, ss, n - 1, key);
      }
    }
  }

  lemma WhereStaleCame(cfg: Config, dst: Address, es: seq<Event>, ss: seq<System>, n: nat, key: (nat, nat))
    requires cfg.Valid() && Run(cfg, dst, es, ss) && n < |es| && key in ss[n + 1].snd.stale
    ensures es[n].Visited? ==> es[n].i < |ss[n].snd.queue|
    ensures key in ss[n].snd.stale || LeavesBehind(cfg, ss[n].snd, es[n], key)
  {
    RunKeeps(cfg, dst, es, ss, n);
    assert StepAt(cfg, dst, es, ss, n);
    StaleExactly(cfg, dst, ss[n], es[n], ss[n + 1], key);
  }

  lemma GoneStays(cfg: Config, dst: Address, es: seq<Event>, ss: seq<System>, n: nat, key: (nat, nat))
    requires cfg.Valid() && Run(cfg, dst, es, ss) && n < |es| && Gone(ss[n], key)
    ensures Gone(ss[n + 1], key)
  {
    var p :| SentPacket(ss[n].h.groups, p) && key == (p.meta.tidx, p.pidx) && !Waiting(ss[n].snd.queue, p);
    SentStays(cfg, dst, es, ss, n, p);
    NeverWaitsAgain(cfg, dst, es, ss, n, p);
  }

  /** In every run, no packet that waits has a stale key, so that its own removal finds it and nothing else. */
  lemma WaitingKeysAreNotStale(cfg: Config, dst: Address, es: seq<Event>, ss: seq<System>, n: nat, i: nat)
    requires cfg.Valid() && Run(cfg, dst, es, ss) && n < |ss| && i < |ss[n].snd.queue|
    ensures KeyAt(ss[n].snd.queue, i) !in ss[n].snd.stale
  {
    var s, q := ss[n], ss[n].snd.queue[i].packet;
    if KeyAt(s.snd.queue, i) in s.snd.stale {
      StaleAreGone(cfg, dst, es, ss, n, KeyAt(s.snd.queue, i));
      var p :| SentPacket(s.h.groups, p) && KeyAt(s.snd.queue, i) == (p.meta.tidx, p.pidx) && !Waiting(s.snd.queue, p);
      SamePacket(cfg, dst, es, ss, n, p, i);
      assert false;
    }
  }

  /** In every run, no packet that a step sends has a stale key, so that adding it overwrites no entry. */
  lemma NewKeysAreNotStale(cfg: Config, dst: Address, es: seq<Event>, ss: seq<System>, n: nat, p: Packet)
    requires cfg.Valid() && Run(cfg, dst, es, ss) && n < |es|
    requires |ss[n].h.groups| <= p.gidx && SentPacket(ss[n + 1].h.groups, p)
    ensures (p.meta.tidx, p.pidx) !in ss[n].snd.stale
  {
    var s, s' := ss[n], ss[n + 1];
    if (p.meta.tidx, p.pidx) in s.snd.stale {
      StaleAreGone(cfg, dst, es, ss, n, (p.meta.tidx, p.pidx));
      var q :| SentPacket(s.h.groups, q) && (p.meta.tidx, p.pidx) == (q.meta.tidx, q.pidx) && !Waiting(s.snd.queue, q);
      SentStays(cfg, dst, es, ss, n, q);
      RunKeeps(cfg, dst, es, ss, n + 1);
      assert InRange(cfg, s'.h);
      PidxIdentifies(s'.snd.pidx, s'.snd.gidx, s'.h.groups, p, q);
      assert false;
    }
  }

  lemma SamePacket(cfg: Config, dst: Address, es: seq<Event>, ss: seq<System>, n: nat, p: Packet, i: nat)
    requires cfg.Valid() && Run(cfg, dst, es, ss) && n < |ss| && i < |ss[n].snd.queue|
    requires SentPacket(ss[n].h.groups, p) && p.pidx == ss[n].snd.queue[i].packet.pidx
    ensures p == ss[n].snd.queue[i].packet
  {
    RunKeeps(cfg, dst, es, ss, n);
    assert InRange(cfg, ss[n].h);
    PidxIdentifies(ss[n].snd.pidx, ss[n].snd.gidx, ss[n].h.groups, p, ss[n].snd.queue[i].packet);
  }

  // ----- A run that leaves a key behind

  /** A message of one byte, alone in its group. */
  function Message(cfg: Config, dst: Address): Group {
    Group(0, 0, Meta(MESSAGE, 0, 0, cfg.self, dst), [0])
  }

  function MessagePacket(cfg: Config, dst: Address): Packet {
    PacketAt(Message(cfg, dst).meta, [0], 0, 0, 0)
  }

  /** The message waits, after `attempt` visits. */
  function MessageQueued(cfg: Config, dst: Address, attempt: nat): System {
    Init().(snd := Sender.State(1, 1, 0, [], [Queued(MessagePacket(cfg, dst), attempt)], {}),
            h := History([Message(cfg, dst)], []))
  }

  /** And an empty file is the only task. */
  function EmptyTask(s: System, dst: Address, name: string): System {
    s.(snd := s.snd.(tidx := 1, tasks := [Task(1, name, dst, 0, [], 0)]), h := s.h.(log := [TaskLog([], dst, [])]))
  }

  lemma SendMessage(cfg: Config, dst: Address)
    requires cfg.Valid()
    ensures Step(cfg, dst, Init(), MessageSent(Message(cfg, dst).meta, [0]), MessageQueued(cfg, dst, 0))
  {
    var ps := Message(cfg, dst).Packets();
    assert ps == [MessagePacket(cfg, dst)];
    assert Fresh(ps) == [Queued(MessagePacket(cfg, dst), 0)];
  }

  lemma AddEmptyTask(cfg: Config, dst: Address, name: string)
    requires cfg.Valid()
    ensures var s := MessageQueued(cfg, dst, 0);
            Step(cfg, dst, s, TaskAdded(name, dst, []), EmptyTask(s, dst, name))
  {
    OneByte(cfg);
    var s := MessageQueued(cfg, dst, 0);
    assert Update(cfg, EmptyTask(s, dst, name).snd) == (EmptyTask(s, dst, name).snd, None);
  }

  lemma SendOnce(cfg: Config, dst: Address, name: string)
    requires cfg.Valid() && cfg.table[0]
    ensures Step(cfg, dst, EmptyTask(MessageQueued(cfg, dst, 0), dst, name), Visited(0, false),
                 EmptyTask(MessageQueued(cfg, dst, 1), dst, name).(net := {MessagePacket(cfg, dst)}))
  {
    VisitShape(cfg, dst, EmptyTask(MessageQueued(cfg, dst, 0), dst, name), 0, false);
  }

  lemma Arrive(cfg: Config, dst: Address, name: string) returns (c: Chance, rcv: Receiver.State)
    requires cfg.Valid()
    ensures var s := EmptyTask(MessageQueued(cfg, dst, 1), dst, name).(net := {MessagePacket(cfg, dst)});
            Step(cfg, dst, s, PacketArrived(MessagePacket(cfg, dst), c), s.(rcv := rcv, acks := {(0, 0)}))
  {
    var p := MessagePacket(cfg, dst);
    assert PartOf(p).InRange();
    c := Chance(x => 0, true, [PartName(PartOf(p))]);
    rcv := Receive(Init().rcv, p, c);
  }

  lemma AcknowledgeMessage(cfg: Config, dst: Address, s: System)
    requires cfg.Valid() && cfg.sendQueue >= 0 && |s.snd.queue| == 1 && KeyAt(s.snd.queue, 0) == (0, 0)
    requires s.acks == {(0, 0)} && s.snd.stale == {} && |s.snd.tasks| == 1 && s.snd.tasks[0].file == []
    ensures var s' := Next(cfg, dst, s, AckArrived(0, 0));
            && s'.snd == s.snd.(queue := [], stale := {(0, 0)})
            && s'.h == s.h && s'.acks == s.acks
  {
    assert Without(s.snd.queue, 0) == [];
    var s1 := s.snd.(queue := []);
    assert UpdateFails(cfg, s1) && Update(cfg, s1) == (s1, None);
  }

  /** The message and the empty file are queued. */
  lemma FirstSteps(cfg: Config, dst: Address, name: string) returns (es: seq<Event>, ss: seq<System>)
    requires cfg.Valid()
    ensures Run(cfg, dst, es, ss) && |es| == 2 && ss[2] == EmptyTask(MessageQueued(cfg, dst, 0), dst, name)
  {
    var s1 := MessageQueued(cfg, dst, 0);
    MessageInRange(cfg, dst, Init().h);
    MessageInRange(cfg, dst, s1.h);
    MessageInRange(cfg, dst, EmptyTask(s1, dst, name).h);
    SendMessage(cfg, dst);
    RunExtends(cfg, dst, [], [Init()], MessageSent(Message(cfg, dst).meta, [0]), s1);
    es, ss := [] + [MessageSent(Message(cfg, dst).meta, [0])], [Init()] + [s1];
    AddEmptyTask(cfg, dst, name);
    RunExtends(cfg, dst, es, ss, TaskAdded(name, dst, []), EmptyTask(s1, dst, name));
    es, ss := es + [TaskAdded(name, dst, [])], ss + [EmptyTask(s1, dst, name)];
  }

  /** The message is sent, and arrives. */
  lemma NextSteps(cfg: Config, dst: Address, name: string) returns (es: seq<Event>, ss: seq<System>)
    requires cfg.Valid() && cfg.table[0]
    ensures Run(cfg, dst, es, ss) && |es| == 4
    ensures ss[4].snd == EmptyTask(MessageQueued(cfg, dst, 1), dst, name).snd && ss[4].acks == {(0, 0)}
    ensures ss[4].h == EmptyTask(MessageQueued(cfg, dst, 1), dst, name).h
  {
    var p := MessagePacket(cfg, dst);
    var s3 := EmptyTask(MessageQueued(cfg, dst, 1), dst, name).(net := {p});
    MessageInRange(cfg, dst, s3.h);
    es, ss := FirstSteps(cfg, dst, name);
    SendOnce(cfg, dst, name);
    RunExtends(cfg, dst, es, ss, Visited(0, false), s3);
    es, ss := es + [Visited(0, false)], ss + [s3];
    var c, rcv := Arrive(cfg, dst, name);
    var s4 := s3.(rcv := rcv, acks := {(0, 0)});
    RunExtends(cfg, dst, es, ss, PacketArrived(p, c), s4);
    es, ss := es + [PacketArrived(p, c)], ss + [s4];
  }

  /** A message is acknowledged while an empty file is the first task: its key stays in the index, and its
      acknowledgement may still arrive again. */
  lemma KeyLeftBehind(cfg: Config, dst: Address, name: string) returns (es: seq<Event>, ss: seq<System>)
    requires cfg.Valid() && cfg.sendQueue >= 0 && cfg.table[0]
    ensures Run(cfg, dst, es, ss) && |es| == 5
    ensures ss[5].snd.stale == {(0, 0)} && ss[5].snd.queue == [] && (0, 0) in ss[5].acks
  {
    es, ss := NextSteps(cfg, dst, name);
    var s5 := Next(cfg, dst, ss[4], AckArrived(0, 0));
    AcknowledgeMessage(cfg, dst, ss[4]);
    MessageInRange(cfg, dst, s5.h);
    RunExtends(cfg, dst, es, ss, AckArrived(0, 0), s5);
    es, ss := es + [AckArrived(0, 0)], ss + [s5];
  }

  lemma MessageInRange(cfg: Config, dst: Address, h: History)
    requires cfg.Valid() && h.groups in {[], [Message(cfg, dst)]} && h.log in {[], [TaskLog([], dst, [])]}
    ensures InRange(cfg, h)
  {
    OneByte(cfg);
  }
}
