/** Exactly when a group is delivered, the first time and again: whenever all its packets have been collected since
    its last successful read (src/payload/payload.c). */
module Redelivery {
  import opened Common
  import opened Packets
  import opened Reassembly
  import opened PartNames
  import opened Receiver
  import opened ReceiverProofs
  import opened Sender
  import opened SendHistory
  import opened Transport

  // ----- What the caches hold of a group

  /** The cache of a group. */
  function CacheOf(cs: seq<Cache>, g: nat): (i: nat)
    ensures i <= |cs|
    ensures i < |cs| ==> cs[i].group == g
    ensures forall k :: 0 <= k < i ==> cs[k].group != g
  {
    if cs == [] || cs[0].group == g then 0 else 1 + CacheOf(cs[1..], g)
  }

  function Elements(s: seq<nat>): (xs: set<nat>)
    ensures forall x :: x in xs <==> x in s
  {
    if s == [] then {} else Elements(s[..|s| - 1]) + {s[|s| - 1]}
  }

  lemma {:induction false} ElementsCount(s: seq<nat>)
    requires Distinct(s)
    ensures |Elements(s)| == |s|
  {
    if s != [] {
      ElementsCount(s[..|s| - 1]);
    }
  }

  /** The packet indices held of a group. */
  function Gathered(cs: seq<Cache>, g: nat): set<nat> {
    var i := CacheOf(cs, g);
    if i < |cs| then Elements(cs[i].received) else {}
  }

  /** No two caches are for the same group. */
  ghost predicate Apart(cs: seq<Cache>) {
    forall i, j :: 0 <= i < j < |cs| ==> cs[i].group != cs[j].group
  }

  lemma CacheOfIs(cs: seq<Cache>, g: nat, i: nat)
    requires Apart(cs) && i < |cs| && cs[i].group == g
    ensures CacheOf(cs, g) == i
  {
  }

  lemma NoCacheOf(cs: seq<Cache>, g: nat)
    requires forall i :: 0 <= i < |cs| ==> cs[i].group != g
    ensures CacheOf(cs, g) == |cs|
  {
  }

  lemma GatheredAt(cs: seq<Cache>, groups: seq<Group>, i: nat)
    requires CachesOk(cs, groups) && i < |cs|
    ensures Gathered(cs, cs[i].group) == Elements(cs[i].received)
    ensures |Gathered(cs, cs[i].group)| == |cs[i].received|
  {
    assert CacheOk(cs[i], groups);
    CacheOfIs(cs, cs[i].group, i);
    ElementsCount(cs[i].received);
  }

  /** The group's cache is the one found by its number, the address being the same for all its packets. */
  lemma FoundByGroup(cs: seq<Cache>, groups: seq<Group>, p: Packet)
    requires CachesOk(cs, groups) && SentPacket(groups, p) && GroupsInRange(groups)
    ensures FindCache(cs, p.gidx, p.meta.dst) == CacheOf(cs, p.gidx)
  {
    var i := CacheOf(cs, p.gidx);
    if i < |cs| {
      assert CacheOk(cs[i], groups);
    }
  }

  lemma OpenedGathers(cs: seq<Cache>, groups: seq<Group>, p: Packet, g: nat)
    requires CachesOk(cs, groups) && SentPacket(groups, p) && GroupsInRange(groups)
    ensures Gathered(Opened(cs, p), g) == Gathered(cs, g)
  {
    var cs1, i := Opened(cs, p), CacheOf(cs, g);
    FoundByGroup(cs, groups, p);
    OpenedOk(cs, groups, p);
    if i < |cs| {
      assert cs1[i] == cs[i];
      CacheOfIs(cs1, g, i);
    } else if g == p.gidx {
      CacheOfIs(cs1, g, |cs|);
    } else {
      NoCacheOf(cs1, g);
    }
  }

  lemma ReplacedGathers(cs: seq<Cache>, i: nat, c: Cache, g: nat)
    requires i < |cs| && c.group == cs[i].group && Apart(cs)
    ensures Gathered(cs[i := c], g) == if g == c.group then Elements(c.received) else Gathered(cs, g)
  {
    var cs', k := cs[i := c], CacheOf(cs, g);
    if g == c.group {
      CacheOfIs(cs', g, i);
    } else if k < |cs| {
      CacheOfIs(cs', g, k);
    } else {
      NoCacheOf(cs', g);
    }
  }

  lemma RemovedGathers(cs: seq<Cache>, i: nat, g: nat)
    requires i < |cs| && Apart(cs)
    ensures Gathered(RemoveAt(cs, i), g) == if g == cs[i].group then {} else Gathered(cs, g)
  {
    var cs', k := RemoveAt(cs, i), CacheOf(cs, g);
    assert forall j :: 0 <= j < |cs'| ==> cs'[j] == cs[if j < i then j else j + 1];
    if g == cs[i].group || k == |cs| {
      NoCacheOf(cs', g);
    } else {
      CacheOfIs(cs', g, if k < i then k else k - 1);
    }
  }

  /** One packet is gathered, and its group is available exactly if it was the last one missing. */
  lemma RecvGathers(cs: seq<Cache>, groups: seq<Group>, p: Packet, junk: Junk, g: nat)
    requires CachesOk(cs, groups) && SentPacket(groups, p) && GroupsInRange(groups)
    ensures var (cs', available) := Recv(cs, p, junk);
            && Gathered(cs', g) == Gathered(cs, g) + (if g == p.gidx then {p.pidx} else {})
            && (available.Some? <==>
                p.pidx !in Gathered(cs, p.gidx) && |Gathered(cs, p.gidx)| + 1 == groups[p.gidx].Count())
  {
    var i, cs1 := FindCache(cs, p.gidx, p.meta.dst), Opened(cs, p);
    OpenedAt(cs, groups, p);
    RecvIs(cs, p, junk);
    OpenedGathers(cs, groups, p, g);
    OpenedGathers(cs, groups, p, p.gidx);
    FilledGathers(cs1, p, i, junk, g, groups[p.gidx].Count());
  }

  lemma OpenedAt(cs: seq<Cache>, groups: seq<Group>, p: Packet)
    requires CachesOk(cs, groups) && SentPacket(groups, p) && GroupsInRange(groups)
    ensures var i, cs1 := FindCache(cs, p.gidx, p.meta.dst), Opened(cs, p);
            && Apart(cs1) && i < |cs1| && cs1[i].group == p.gidx
            && Distinct(cs1[i].received) && cs1[i].total == groups[p.gidx].Count()
  {
    OpenedOk(cs, groups, p);
    FoundByGroup(cs, groups, p);
    assert CacheOk(Opened(cs, p)[FindCache(cs, p.gidx, p.meta.dst)], groups);
  }

  /** A packet is put into the cache at place `i` of an opened list. */
  function Filled(cs: seq<Cache>, i: nat, p: Packet, junk: Junk): (seq<Cache>, Option<nat>)
    requires i < |cs|
  {
    var c := cs[i];
    if p.pidx in c.received then (cs, None) else
    var c1 := c.(all := c.all + [p], received := c.received + [p.pidx]);
    if |c1.received| != c1.total then (cs[i := c1], None)
    else (cs[i := c1.(all := [], data := Assemble(c1.all, c1.data, junk))], Some(i))
  }

  lemma RecvIs(cs: seq<Cache>, p: Packet, junk: Junk)
    ensures Recv(cs, p, junk) == Filled(Opened(cs, p), FindCache(cs, p.gidx, p.meta.dst), p, junk)
  {
  }

  lemma FilledGathers(cs: seq<Cache>, p: Packet, i: nat, junk: Junk, g: nat, count: nat)
    requires Apart(cs) && i < |cs| && cs[i].group == p.gidx && Distinct(cs[i].received) && cs[i].total == count
    ensures var (cs', available) := Filled(cs, i, p, junk);
            && Gathered(cs', g) == Gathered(cs, g) + (if g == p.gidx then {p.pidx} else {})
            && (available.Some? <==> p.pidx !in Gathered(cs, p.gidx) && |Gathered(cs, p.gidx)| + 1 == count)
  {
    CacheOfIs(cs, p.gidx, i);
    ElementsCount(cs[i].received);
    if p.pidx in cs[i].received {
      assert Gathered(cs, p.gidx) + {p.pidx} == Gathered(cs, p.gidx);
    } else {
      GrownGathers(cs, p, i, junk, g);
    }
  }

  lemma GrownGathers(cs: seq<Cache>, p: Packet, i: nat, junk: Junk, g: nat)
    requires Apart(cs) && i < |cs| && cs[i].group == p.gidx
    ensures var c1 := cs[i].(all := cs[i].all + [p], received := cs[i].received + [p.pidx]);
            && Gathered(cs[i := c1], g) == Gathered(cs, g) + (if g == p.gidx then {p.pidx} else {})
            && Gathered(cs[i := c1.(all := [], data := Assemble(c1.all, c1.data, junk))], g)
            == Gathered(cs, g) + (if g == p.gidx then {p.pidx} else {})
  {
    var c := cs[i];
    var c1 := c.(all := c.all + [p], received := c.received + [p.pidx]);
    CacheOfIs(cs, p.gidx, i);
    ReplacedGathers(cs, i, c1, g);
    ReplacedGathers(cs, i, c1.(all := [], data := Assemble(c1.all, c1.data, junk)), g);
    assert Elements(c1.received) == Elements(c.received) + {p.pidx};
  }

  // ----- What has been collected of a group, from the arrivals alone

  /** The arrival completes the collection of its group. */
  ghost predicate Completes(collected: set<nat>, p: Packet, count: nat) {
    p.pidx !in collected && |collected| + 1 == count
  }

  /** What an event makes of the packet indices collected of group `g`: an arrival adds its own, and if it completes
      the group and the read succeeds, the collection starts again. */
  ghost function Collect(before: set<nat>, groups: seq<Group>, e: Event, g: nat): set<nat> {
    if !e.PacketArrived? || e.packet.gidx != g || g >= |groups| then before
    else if Completes(before, e.packet, groups[g].Count()) && e.chance.readOk then {}
    else before + {e.packet.pidx}
  }

  /** The packet indices collected of group `g` by the first `n` events. */
  ghost function Collected(es: seq<Event>, ss: seq<System>, n: nat, g: nat): set<nat>
    requires n <= |es| < |ss|
  {
    if n == 0 then {} else Collect(Collected(es, ss, n - 1, g), ss[n - 1].h.groups, es[n - 1], g)
  }

  /** What is held of group `g` after the arrival of `p`. */
  lemma ReceiveHolds(r: Receiver.State, groups: seq<Group>, p: Packet, c: Chance, g: nat)
    requires CachesOk(r.cache, groups) && SentPacket(groups, p) && GroupsInRange(groups) && PartOf(p).InRange()
    ensures var done := Completes(Gathered(r.cache, p.gidx), p, groups[p.gidx].Count());
            Gathered(Receive(r, p, c).cache, g) ==
              if g != p.gidx then Gathered(r.cache, g)
              else if done && c.readOk then {} else Gathered(r.cache, g) + {p.pidx}
  {
    var (cs, available) := Recv(r.cache, p, c.junk);
    RecvGathers(r.cache, groups, p, c.junk, g);
    ReceiveShape(r, p, c);
    if available.Some? {
      RecvDeliversBuffer(r.cache, groups, p, c.junk);
      RemovedGathers(cs, available.value, g);
    }
  }

  lemma ReceiveGathers(r: Receiver.State, groups: seq<Group>, p: Packet, c: Chance, g: nat)
    requires CachesOk(r.cache, groups) && SentPacket(groups, p) && GroupsInRange(groups) && PartOf(p).InRange()
    ensures var (r', done) := (Receive(r, p, c), Completes(Gathered(r.cache, p.gidx), p, groups[p.gidx].Count()));
            && Gathered(r'.cache, g) == (if g != p.gidx then Gathered(r.cache, g)
                                         else if done && c.readOk then {} else Gathered(r.cache, g) + {p.pidx})
            && r'.delivered == r.delivered + if done then [Delivery(p.gidx, groups[p.gidx].buffer)] else []
  {
    ReceiveHolds(r, groups, p, c, g);
    RecvGathers(r.cache, groups, p, c.junk, g);
    RecvDeliversBuffer(r.cache, groups, p, c.junk);
    ReceiveShape(r, p, c);
  }

  /** Caches and deliveries after an arrival. */
  lemma ReceiveShape(r: Receiver.State, p: Packet, c: Chance)
    requires PartOf(p).InRange()
    ensures var ((cs, available), r') := (Recv(r.cache, p, c.junk), Receive(r, p, c));
            && r'.cache == (if available.Some? && c.readOk then RemoveAt(cs, available.value) else cs)
            && r'.delivered
               == r.delivered + if available.Some? then [Delivery(p.gidx, cs[available.value].data)] else []
  {
    assert r.delivered + [] == r.delivered;
  }

  lemma RunReceiverOk(cfg: Config, dst: Address, es: seq<Event>, ss: seq<System>, n: nat)
    requires cfg.Valid() && Run(cfg, dst, es, ss) && n < |ss|
    ensures CachesOk(ss[n].rcv.cache, ss[n].h.groups) && GroupsInRange(ss[n].h.groups)
    ensures NetOk(ss[n].net, ss[n].h.groups)
  {
    RunKeeps(cfg, dst, es, ss, n);
    assert InRange(cfg, ss[n].h);
    InRangeGroups(cfg, ss[n].snd, ss[n].h);
  }

  lemma StepCollects(cfg: Config, dst: Address, s: System, e: Event, s': System, g: nat)
    requires cfg.Valid() && Step(cfg, dst, s, e, s')
    requires CachesOk(s.rcv.cache, s.h.groups) && GroupsInRange(s.h.groups) && NetOk(s.net, s.h.groups)
    ensures Gathered(s'.rcv.cache, g) == Collect(Gathered(s.rcv.cache, g), s.h.groups, e, g)
  {
    if e.PacketArrived? {
      ReceiveGathers(s.rcv, s.h.groups, e.packet, e.chance, g);
    }
  }

  lemma RunCollects(cfg: Config, dst: Address, es: seq<Event>, ss: seq<System>, n: nat, g: nat)
    requires cfg.Valid() && Run(cfg, dst, es, ss) && n < |es|
    ensures Gathered(ss[n + 1].rcv.cache, g) == Collect(Gathered(ss[n].rcv.cache, g), ss[n].h.groups, es[n], g)
  {
    RunReceiverOk(cfg, dst, es, ss, n);
    assert StepAt(cfg, dst, es, ss, n);
    StepCollects(cfg, dst, ss[n], es[n], ss[n + 1], g);
  }

  /** In every run the caches hold of each group exactly what has been collected of it. */
  lemma {:induction false} CachesHoldCollected(cfg: Config, dst: Address, es: seq<Event>, ss: seq<System>, n: nat,
                                               g: nat)
    requires cfg.Valid() && Run(cfg, dst, es, ss) && n <= |es|
    ensures Gathered(ss[n].rcv.cache, g) == Collected(es, ss, n, g)
  {
    if n > 0 {
      CachesHoldCollected(cfg, dst, es, ss, n - 1, g);
      RunCollects(cfg, dst, es, ss, n - 1, g);
    }
  }

  /** In every run: an arrival delivers its group, with the bytes sent, exactly if it completes the collection of it
      since the last successful read; no other event delivers anything. */
  lemma DeliveredExactly(cfg: Config, dst: Address, es: seq<Event>, ss: seq<System>, n: nat)
    requires cfg.Valid() && Run(cfg, dst, es, ss) && n < |es|
    ensures es[n].PacketArrived? ==> es[n].packet.gidx < |ss[n].h.groups|
    ensures ss[n + 1].rcv.delivered == ss[n].rcv.delivered +
      if es[n].PacketArrived? && Completes(Collected(es, ss, n, es[n].packet.gidx), es[n].packet,
                                           ss[n].h.groups[es[n].packet.gidx].Count())
      then [Delivery(es[n].packet.gidx, ss[n].h.groups[es[n].packet.gidx].buffer)] else []
  {
    assert StepAt(cfg, dst, es, ss, n);
    if es[n].PacketArrived? {
      var p := es[n].packet;
      RunReceiverOk(cfg, dst, es, ss, n);
      CachesHoldCollected(cfg, dst, es, ss, n, p.gidx);
      ReceiveGathers(ss[n].rcv, ss[n].h.groups, p, es[n].chance, p.gidx);
    } else {
      assert ss[n].rcv.delivered + [] == ss[n].rcv.delivered;
    }
  }

  /** The group is complete and its read has failed: everything of it has been collected. */
  ghost predicate Stuck(collected: set<nat>, g: Group) {
    forall p :: g.Has(p) ==> p.pidx in collected
  }

  /** In every run, when an arrival completes a group and its read fails, everything of the group stays collected. */
  lemma FailedReadLeavesAll(cfg: Config, dst: Address, es: seq<Event>, ss: seq<System>, n: nat)
    requires cfg.Valid() && Run(cfg, dst, es, ss) && n < |es| && es[n].PacketArrived? && !es[n].chance.readOk
    ensures es[n].packet.gidx < |ss[n].h.groups|
    ensures var p := es[n].packet;
            Completes(Collected(es, ss, n, p.gidx), p, ss[n].h.groups[p.gidx].Count()) ==>
              Stuck(Collected(es, ss, n + 1, p.gidx), ss[n].h.groups[p.gidx])
  {
    var p, r := es[n].packet, ss[n].rcv;
    assert StepAt(cfg, dst, es, ss, n);
    RunReceiverOk(cfg, dst, es, ss, n);
    CachesHoldCollected(cfg, dst, es, ss, n, p.gidx);
    CachesHoldCollected(cfg, dst, es, ss, n + 1, p.gidx);
    if Completes(Gathered(r.cache, p.gidx), p, ss[n].h.groups[p.gidx].Count()) {
      FullCacheStays(r, ss[n].h.groups, p, es[n].chance);
    }
  }

  lemma FullCacheStays(r: Receiver.State, groups: seq<Group>, p: Packet, c: Chance)
    requires CachesOk(r.cache, groups) && SentPacket(groups, p) && GroupsInRange(groups) && PartOf(p).InRange()
    requires Completes(Gathered(r.cache, p.gidx), p, groups[p.gidx].Count()) && !c.readOk
    ensures Stuck(Gathered(Receive(r, p, c).cache, p.gidx), groups[p.gidx])
  {
    var (cs, available) := Recv(r.cache, p, c.junk);
    RecvGathers(r.cache, groups, p, c.junk, p.gidx);
    RecvDeliversBuffer(r.cache, groups, p, c.junk);
    var i := available.value;
    GatheredAt(cs, groups, i);
    ReceiveShape(r, p, c);
    assert CacheOk(cs[i], groups);
    forall q | groups[p.gidx].Has(q) ensures q.pidx in Gathered(cs, p.gidx) {
      FullCacheHasAll(cs[i], groups, q);
    }
  }

  /** In every run a group whose read failed is never delivered again. */
  lemma FailedReadIsFinal(cfg: Config, dst: Address, es: seq<Event>, ss: seq<System>, n: nat, g: nat)
    requires cfg.Valid() && Run(cfg, dst, es, ss) && n < |es| && g < |ss[n].h.groups|
    requires Stuck(Collected(es, ss, n, g), ss[n].h.groups[g])
    ensures Collected(es, ss, n + 1, g) == Collected(es, ss, n, g)
    ensures es[n].PacketArrived? && es[n].packet.gidx == g ==> ss[n + 1].rcv.delivered == ss[n].rcv.delivered
  {
    DeliveredExactly(cfg, dst, es, ss, n);
    assert StepAt(cfg, dst, es, ss, n);
    RunReceiverOk(cfg, dst, es, ss, n);
    if es[n].PacketArrived? && es[n].packet.gidx == g {
      assert SentPacket(ss[n].h.groups, es[n].packet);
    }
  }
}
