/** What goes over the network in a run: exactly the packets selected by dispatch passes that were not suspended and
    the acknowledgements, and back exactly one acknowledgement for every packet that arrives (src/net.c). */
module Wire {
  import opened Common
  import opened Packets
  import opened Sender
  import opened SendHistory
  import opened Transport

  /** The packets that an event puts on the wire. */
  ghost predicate Sends(cfg: Config, s: System, e: Event, p: Packet)
    requires cfg.Valid()
  {
    match e
    case Visited(i, suspended) =>
      && i < |s.snd.queue| && p == s.snd.queue[i].packet
      && s.snd.queue[i].attempt < cfg.sendRetry && cfg.table[s.snd.queue[i].attempt] && !suspended
    case MessageSent(meta, buffer) =>
      && meta.command == ACK && buffer != []
      && InGroup(p, meta, buffer, s.snd.pidx, s.snd.gidx)
    case _ => false
  }

  /** One of the first `n` events put the packet on the wire. */
  ghost predicate WasSent(cfg: Config, es: seq<Event>, ss: seq<System>, n: nat, p: Packet)
    requires cfg.Valid() && n <= |es| < |ss|
  {
    exists k :: 0 <= k < n && Sends(cfg, ss[k], es[k], p)
  }

  /** A packet with this key, not itself an acknowledgement, arrived among the first `n` events. */
  ghost predicate WasReceived(es: seq<Event>, n: nat, key: (nat, nat))
    requires n <= |es|
  {
    exists k :: 0 <= k < n && Receives(es[k], key)
  }

  ghost predicate Receives(e: Event, key: (nat, nat)) {
    e.PacketArrived? && e.packet.meta.command != ACK && key == (e.packet.meta.tidx, e.packet.pidx)
  }

  lemma VisitPuts(cfg: Config, dst: Address, s: System, i: nat, suspended: bool, p: Packet)
    requires cfg.Valid() && i < |s.snd.queue|
    ensures var e := Visited(i, suspended);
            p in Next(cfg, dst, s, e).net <==> p in s.net || Sends(cfg, s, e, p)
  {
    VisitShape(cfg, dst, s, i, suspended);
  }

  lemma MessagePuts(cfg: Config, dst: Address, s: System, meta: Meta, buffer: seq<byte>, p: Packet)
    requires cfg.Valid() && Enabled(cfg, dst, s, MessageSent(meta, buffer))
    ensures var e := MessageSent(meta, buffer);
            p in Next(cfg, dst, s, e).net <==> p in s.net || Sends(cfg, s, e, p)
  {
    GroupPacketsAreInGroup(meta, buffer, s.snd.pidx, s.snd.gidx, p);
  }

  lemma StepSends(cfg: Config, dst: Address, s: System, e: Event, s': System, p: Packet)
    requires cfg.Valid() && Step(cfg, dst, s, e, s')
    ensures p in s'.net <==> p in s.net || Sends(cfg, s, e, p)
  {
    match e
    case Visited(i, suspended) => VisitPuts(cfg, dst, s, i, suspended, p);
    case MessageSent(meta, buffer) => MessagePuts(cfg, dst, s, meta, buffer, p);
    case _ =>
  }

  /** In every run the packets that may arrive are exactly those put on the wire. */
  lemma {:induction false} NetExactly(cfg: Config, dst: Address, es: seq<Event>, ss: seq<System>, n: nat, p: Packet)
    requires cfg.Valid() && Run(cfg, dst, es, ss) && n <= |es|
    ensures p in ss[n].net <==> WasSent(cfg, es, ss, n, p)
  {
    if n > 0 {
      NetExactly(cfg, dst, es, ss, n - 1, p);
      assert StepAt(cfg, dst, es, ss, n - 1);
      StepSends(cfg, dst, ss[n - 1], es[n - 1], ss[n], p);
    }
  }

  lemma StepReceives(cfg: Config, dst: Address, s: System, e: Event, s': System, key: (nat, nat))
    requires cfg.Valid() && Step(cfg, dst, s, e, s')
    ensures key in s'.acks <==> key in s.acks || Receives(e, key)
  {
  }

  /** In every run the acknowledgements that may arrive are exactly those of packets received. */
  lemma {:induction false} AcksExactly(cfg: Config, dst: Address, es: seq<Event>, ss: seq<System>, n: nat,
                                       key: (nat, nat))
    requires cfg.Valid() && Run(cfg, dst, es, ss) && n <= |es|
    ensures key in ss[n].acks <==> WasReceived(es, n, key)
  {
    if n > 0 {
      AcksExactly(cfg, dst, es, ss, n - 1, key);
      assert StepAt(cfg, dst, es, ss, n - 1);
      StepReceives(cfg, dst, ss[n - 1], es[n - 1], ss[n], key);
    }
  }

  /** In every run an acknowledgement takes its packet off the queue, and no other. */
  lemma AckTakesExactly(cfg: Config, dst: Address, es: seq<Event>, ss: seq<System>, n: nat, p: Packet)
    requires cfg.Valid() && Run(cfg, dst, es, ss) && n < |es| && es[n].AckArrived?
    ensures p in ss[n + 1].acked <==>
      p in ss[n].acked || exists i :: 0 <= i < |ss[n].snd.queue| && ss[n].snd.queue[i].packet == p
                                      && p.meta.tidx == es[n].tidx && p.pidx == es[n].pidx
  {
    var s, e := ss[n], es[n];
    assert StepAt(cfg, dst, es, ss, n);
    RunKeeps(cfg, dst, es, ss, n);
    assert InRange(cfg, s.h);
    var i := FindQueued(s.snd.queue, e.tidx, e.pidx);
    forall j | 0 <= j < |s.snd.queue| && KeyAt(s.snd.queue, j) == (e.tidx, e.pidx)
      ensures i < |s.snd.queue| && s.snd.queue[j].packet == s.snd.queue[i].packet
    {
      assert s.snd.queue[j].packet.pidx == e.pidx;
      PidxIdentifies(s.snd.pidx, s.snd.gidx, s.h.groups, s.snd.queue[j].packet, s.snd.queue[i].packet);
    }
  }
}
