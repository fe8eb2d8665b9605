/** How often packets are sent in whole runs: the schedule of the send table, seen from the packet. */
module Retransmission {
  import opened Common
  import opened Packets
  import opened ReceiverProofs
  import opened Sender
  import opened SendHistory
  import opened SendKeys
  import opened Transport
  import opened Schedule

  /** Event `j` is a visit of the dispatch pass to the packet `p`. */
  ghost predicate VisitsPacket(es: seq<Event>, ss: seq<System>, j: nat, p: Packet)
    requires j < |es| && j < |ss|
  {
    es[j].Visited? && es[j].i < |ss[j].snd.queue| && ss[j].snd.queue[es[j].i].packet == p
  }

  /** Number of visits to `p` among the first `n` events. */
  ghost function Tries(es: seq<Event>, ss: seq<System>, n: nat, p: Packet): nat
    requires n <= |es| && n <= |ss|
  {
    if n == 0 then 0 else Tries(es, ss, n - 1, p) + if VisitsPacket(es, ss, n - 1, p) then 1 else 0
  }

  /** Number of these visits that selected the packet for sending. */
  ghost function Selections(cfg: Config, es: seq<Event>, ss: seq<System>, n: nat, p: Packet): nat
    requires cfg.Valid() && n <= |es| && n <= |ss|
  {
    if n == 0 then 0
    else
      Selections(cfg, es, ss, n - 1, p) +
      if VisitsPacket(es, ss, n - 1, p) && Attempt(cfg, ss[n - 1].snd.queue[es[n - 1].i].attempt) == SendNow
      then 1 else 0
  }

  // ----- Where the entries of the queue come from

  /** The entry was in `base`, or is a new one for a packet that had not been sent before. */
  ghost predicate Came(base: seq<Queued>, groups: seq<Group>, q: Queued) {
    q in base || (q.attempt == 0 && !SentPacket(groups, q.packet))
  }

  ghost predicate AllCame(base: seq<Queued>, groups: seq<Group>, queue: seq<Queued>) {
    forall k :: 0 <= k < |queue| ==> Came(base, groups, queue[k])
  }

  lemma SendCame(s: Sender.State, groups: seq<Group>, meta: Meta, buffer: seq<byte>)
    requires s.gidx == |groups|
    ensures AllCame(s.queue, groups, Send(s, meta, buffer).0.queue)
  {
    if buffer != [] {
      var ps := NextGroup(s, meta, buffer).Packets();
      assert forall i :: 0 <= i < |ps| ==> ps[i].gidx == |groups|;
    }
  }

  lemma UpdateCame(cfg: Config, s: Sender.State, groups: seq<Group>)
    requires cfg.Valid() && s.gidx == |groups|
    ensures AllCame(s.queue, groups, Update(cfg, s).0.queue)
  {
    if |s.queue| <= cfg.sendQueue && s.tasks != [] {
      var t := s.tasks[0];
      var part := FilePart(t.file, t.iter * cfg.taskBuffer, cfg.taskBuffer);
      if part.Some? {
        SendCame(s, groups, Meta(FILE, t.idx, t.parts, cfg.self, t.dst), part.value);
      }
    }
  }

  lemma CameFromFewer(few: seq<Queued>, base: seq<Queued>, groups: seq<Group>, queue: seq<Queued>)
    requires AllCame(few, groups, queue) && forall q :: q in few ==> q in base
    ensures AllCame(base, groups, queue)
  {
  }

  lemma AckCame(cfg: Config, s: Sender.State, groups: seq<Group>, tidx: nat, pidx: nat)
    requires cfg.Valid() && s.gidx == |groups|
    ensures AllCame(s.queue, groups, Ack(cfg, s, tidx, pidx).0.queue)
  {
    var i := FindQueued(s.queue, tidx, pidx);
    if i < |s.queue| {
      var few := s.queue[..i] + s.queue[i + 1..];
      UpdateCame(cfg, s.(queue := few), groups);
      CameFromFewer(few, s.queue, groups, Ack(cfg, s, tidx, pidx).0.queue);
    }
  }

  /** A step that visits no packet leaves attempts as they are. */
  lemma OtherStepCame(cfg: Config, dst: Address, s: System, e: Event, s': System)
    requires cfg.Valid() && Step(cfg, dst, s, e, s') && s.snd.gidx == |s.h.groups| && !e.Visited?
    ensures AllCame(s.snd.queue, s.h.groups, s'.snd.queue)
  {
    match e
    case TaskAdded(name, d, file) =>
      if !HasTask(s.snd, name, d) {
        var t := Task(s.snd.tidx + 1, name, d, FileParts(|file|, cfg.taskBuffer), file, 0);
        UpdateCame(cfg, s.snd.(tidx := s.snd.tidx + 1, tasks := s.snd.tasks + [t]), s.h.groups);
      }
    case MessageSent(meta, buffer) => SendCame(s.snd, s.h.groups, meta, buffer);
    case InstantCleaned => UpdateCame(cfg, s.snd, s.h.groups);
    case AckArrived(tidx, pidx) => AckCame(cfg, s.snd, s.h.groups, tidx, pidx);
    case _ =>
  }

  /** When the attempts of a packet are used up, exactly this packet leaves the queue. */
  lemma ExpiryCame(cfg: Config, s: Sender.State, groups: seq<Group>, i: nat, k: nat)
    requires cfg.Valid() && s.gidx == |groups| && i < |s.queue| && Ordered(s.queue, s.pidx)
    requires SentPacket(groups, s.queue[i].packet)
    requires var p := s.queue[i].packet; k < |Ack(cfg, s, p.meta.tidx, p.pidx).0.queue|
    ensures var p := s.queue[i].packet;
            var q := Ack(cfg, s, p.meta.tidx, p.pidx).0.queue[k];
            q.packet != p && Came(s.queue, groups, q)
  {
    var p := s.queue[i].packet;
    assert FindQueued(s.queue, p.meta.tidx, p.pidx) == i;
    var few := s.queue[..i] + s.queue[i + 1..];
    UpdateCame(cfg, s.(queue := few), groups);
    var q := Ack(cfg, s, p.meta.tidx, p.pidx).0.queue[k];
    assert Came(few, groups, q);
    if q in few {
      var j :| 0 <= j < |few| && few[j] == q;
      assert q == s.queue[if j < i then j else j + 1];
    }
  }

  // ----- The counts

  /** What the visits so far say about a waiting packet. */
  ghost predicate Counts(cfg: Config, es: seq<Event>, ss: seq<System>, n: nat, q: Queued)
    requires cfg.Valid() && n <= |es| && n <= |ss|
  {
    && q.attempt <= cfg.sendRetry
    && Tries(es, ss, n, q.packet) == q.attempt
    && Selections(cfg, es, ss, n, q.packet) == Sends(cfg, q.attempt)
  }

  /** What they say about a packet that was given up. */
  ghost predicate GivenUp(cfg: Config, es: seq<Event>, ss: seq<System>, n: nat, p: Packet)
    requires cfg.Valid() && n <= |es| && n < |ss|
  {
    && SentPacket(ss[n].h.groups, p) && !Waiting(ss[n].snd.queue, p)
    && Tries(es, ss, n, p) == cfg.sendRetry + 1
    && Selections(cfg, es, ss, n, p) == Sends(cfg, cfg.sendRetry + 1)
  }

  ghost predicate AllCounts(cfg: Config, es: seq<Event>, ss: seq<System>, n: nat)
    requires cfg.Valid() && n <= |es| && n < |ss|
  {
    && (forall k :: 0 <= k < |ss[n].snd.queue| ==> Counts(cfg, es, ss, n, ss[n].snd.queue[k]))
    && (forall p :: p in ss[n].expired ==> GivenUp(cfg, es, ss, n, p))
  }

  lemma StillUnsent(h: History, h': History, p: Packet)
    requires Extends(h, h') && !SentPacket(h'.groups, p)
    ensures !SentPacket(h.groups, p)
  {
    if SentPacket(h.groups, p) {
      ExtendedGroup(h, h', p.gidx);
    }
  }

  /** A packet not sent before has not been visited. */
  lemma {:induction false} UnsentUnvisited(cfg: Config, dst: Address, es: seq<Event>, ss: seq<System>, n: nat,
                                           p: Packet)
    requires cfg.Valid() && Run(cfg, dst, es, ss) && n <= |es| && !SentPacket(ss[n].h.groups, p)
    ensures Tries(es, ss, n, p) == 0 && Selections(cfg, es, ss, n, p) == 0
  {
    if n > 0 {
      UnsentBefore(cfg, dst, es, ss, n - 1, p);
      UnsentUnvisited(cfg, dst, es, ss, n - 1, p);
      UnvisitedStep(cfg, es, ss, n - 1, p);
    }
  }

  lemma UnvisitedStep(cfg: Config, es: seq<Event>, ss: seq<System>, n: nat, p: Packet)
    requires cfg.Valid() && n < |es| && n < |ss| && !VisitsPacket(es, ss, n, p)
    ensures n + 1 <= |ss| && Tries(es, ss, n + 1, p) == Tries(es, ss, n, p)
    ensures Selections(cfg, es, ss, n + 1, p) == Selections(cfg, es, ss, n, p)
  {
  }

  lemma UnsentBefore(cfg: Config, dst: Address, es: seq<Event>, ss: seq<System>, n: nat, p: Packet)
    requires cfg.Valid() && Run(cfg, dst, es, ss) && n < |es| && !SentPacket(ss[n + 1].h.groups, p)
    ensures !SentPacket(ss[n].h.groups, p) && !VisitsPacket(es, ss, n, p)
  {
    VisitedWereSent(cfg, dst, es, ss, n, p);
    HistoryExtends(cfg, dst, es, ss, n);
    StillUnsent(ss[n].h, ss[n + 1].h, p);
  }

  lemma VisitedWereSent(cfg: Config, dst: Address, es: seq<Event>, ss: seq<System>, n: nat, p: Packet)
    requires cfg.Valid() && Run(cfg, dst, es, ss) && n < |es|
    ensures VisitsPacket(es, ss, n, p) ==> SentPacket(ss[n].h.groups, p)
  {
    RunKeeps(cfg, dst, es, ss, n);
  }

  /** Two entries of an ordered queue hold different packets. */
  lemma PacketsDiffer(queue: seq<Queued>, pidx: nat, i: nat, k: nat)
    requires Ordered(queue, pidx) && i < |queue| && k < |queue|
    ensures i != k ==> queue[i].packet != queue[k].packet
  {
    if i < k {
      assert queue[i].packet.pidx < queue[k].packet.pidx;
    } else if k < i {
      assert queue[k].packet.pidx < queue[i].packet.pidx;
    }
  }

  /** An entry that was there before the step, for a packet the step does not visit, or a new entry. */
  lemma EntryCounts(cfg: Config, dst: Address, es: seq<Event>, ss: seq<System>, n: nat, q: Queued)
    requires cfg.Valid() && Run(cfg, dst, es, ss) && n < |es| && AllCounts(cfg, es, ss, n)
    requires !VisitsPacket(es, ss, n, q.packet) && Came(ss[n].snd.queue, ss[n].h.groups, q)
    ensures Counts(cfg, es, ss, n + 1, q)
  {
    if q in ss[n].snd.queue {
      var k :| 0 <= k < |ss[n].snd.queue| && ss[n].snd.queue[k] == q;
      assert Counts(cfg, es, ss, n, ss[n].snd.queue[k]);
    } else {
      UnsentUnvisited(cfg, dst, es, ss, n, q.packet);
    }
  }

  /** The entry that the step visits, counted once more. */
  lemma VisitedCounts(cfg: Config, es: seq<Event>, ss: seq<System>, n: nat)
    requires cfg.Valid() && n < |es| && n < |ss| && AllCounts(cfg, es, ss, n)
    requires es[n].Visited? && es[n].i < |ss[n].snd.queue|
    ensures var q := ss[n].snd.queue[es[n].i];
            && q.attempt <= cfg.sendRetry
            && Tries(es, ss, n + 1, q.packet) == q.attempt + 1
            && Selections(cfg, es, ss, n + 1, q.packet) == Sends(cfg, q.attempt + 1)
  {
    var q := ss[n].snd.queue[es[n].i];
    assert Counts(cfg, es, ss, n, q);
  }

  /** The queue after a visit: entries of the queue before, the visited one counted, new ones; and not the
      visited packet if its attempts are used up. */
  lemma VisitCame(cfg: Config, dst: Address, s: System, i: nat, suspended: bool, k: nat)
    requires cfg.Valid() && i < |s.snd.queue| && s.snd.gidx == |s.h.groups| && Ordered(s.snd.queue, s.snd.pidx)
    requires SentPacket(s.h.groups, s.snd.queue[i].packet)
    requires k < |Next(cfg, dst, s, Visited(i, suspended)).snd.queue|
    ensures var (q, v) := (Next(cfg, dst, s, Visited(i, suspended)).snd.queue[k], s.snd.queue[i]);
            if q.packet == v.packet then v.attempt < cfg.sendRetry && q == Queued(v.packet, v.attempt + 1)
            else Came(s.snd.queue, s.h.groups, q)
  {
    VisitShape(cfg, dst, s, i, suspended);
    var s1, v := Counted(s, i).snd, s.snd.queue[i];
    var q := Next(cfg, dst, s, Visited(i, suspended)).snd.queue[k];
    assert Ordered(s1.queue, s1.pidx);
    if Attempt(cfg, v.attempt) == Expired {
      ExpiryCame(cfg, s1, s.h.groups, i, k);
    }
    if q in s1.queue && q.packet != v.packet {
      var j :| 0 <= j < |s1.queue| && s1.queue[j] == q;
      assert q == s.snd.queue[j];
    } else if q in s1.queue {
      var j :| 0 <= j < |s1.queue| && s1.queue[j] == q;
      PacketsDiffer(s1.queue, s1.pidx, i, j);
    }
  }

  lemma QueueStepCounts(cfg: Config, dst: Address, es: seq<Event>, ss: seq<System>, n: nat, k: nat)
    requires cfg.Valid() && Run(cfg, dst, es, ss) && n < |es| && AllCounts(cfg, es, ss, n)
    requires k < |ss[n + 1].snd.queue|
    ensures Counts(cfg, es, ss, n + 1, ss[n + 1].snd.queue[k])
  {
    var s, e, q := ss[n], es[n], ss[n + 1].snd.queue[k];
    RunKeeps(cfg, dst, es, ss, n);
    QueueInSendOrder(cfg, dst, es, ss, n);
    assert StepAt(cfg, dst, es, ss, n);
    if e.Visited? {
      assert SentPacket(s.h.groups, s.snd.queue[e.i].packet);
      VisitCame(cfg, dst, s, e.i, e.suspended, k);
      VisitedCounts(cfg, es, ss, n);
      if q.packet != s.snd.queue[e.i].packet {
        EntryCounts(cfg, dst, es, ss, n, q);
      }
    } else {
      OtherStepCame(cfg, dst, s, e, ss[n + 1]);
      assert Came(s.snd.queue, s.h.groups, q);
      EntryCounts(cfg, dst, es, ss, n, q);
    }
  }

  lemma GivenUpStays(cfg: Config, dst: Address, es: seq<Event>, ss: seq<System>, n: nat, p: Packet)
    requires cfg.Valid() && Run(cfg, dst, es, ss) && n < |es| && GivenUp(cfg, es, ss, n, p)
    ensures GivenUp(cfg, es, ss, n + 1, p)
  {
    SentStays(cfg, dst, es, ss, n, p);
    NeverWaitsAgain(cfg, dst, es, ss, n, p);
  }

  lemma SentStays(cfg: Config, dst: Address, es: seq<Event>, ss: seq<System>, n: nat, p: Packet)
    requires cfg.Valid() && Run(cfg, dst, es, ss) && n < |es| && SentPacket(ss[n].h.groups, p)
    ensures SentPacket(ss[n + 1].h.groups, p)
  {
    HistoryExtends(cfg, dst, es, ss, n);
    ExtendedGroup(ss[n].h, ss[n + 1].h, p.gidx);
  }

  /** A packet that has left the queue does not come back. */
  lemma NeverWaitsAgain(cfg: Config, dst: Address, es: seq<Event>, ss: seq<System>, n: nat, p: Packet)
    requires cfg.Valid() && Run(cfg, dst, es, ss) && n < |es|
    requires SentPacket(ss[n].h.groups, p) && !Waiting(ss[n].snd.queue, p)
    ensures !Waiting(ss[n + 1].snd.queue, p)
  {
    var s, e, queue := ss[n], es[n], ss[n + 1].snd.queue;
    RunKeeps(cfg, dst, es, ss, n);
    QueueInSendOrder(cfg, dst, es, ss, n);
    assert StepAt(cfg, dst, es, ss, n);
    forall k | 0 <= k < |queue| ensures queue[k].packet != p {
      if e.Visited? {
        assert SentPacket(s.h.groups, s.snd.queue[e.i].packet);
        VisitCame(cfg, dst, s, e.i, e.suspended, k);
      } else {
        OtherStepCame(cfg, dst, s, e, ss[n + 1]);
        assert Came(s.snd.queue, s.h.groups, queue[k]);
      }
    }
  }

  /** The visit that uses up the attempts of a packet. */
  lemma ExpiryCounts(cfg: Config, dst: Address, es: seq<Event>, ss: seq<System>, n: nat)
    requires cfg.Valid() && Run(cfg, dst, es, ss) && n < |es| && AllCounts(cfg, es, ss, n)
    requires es[n].Visited? && es[n].i < |ss[n].snd.queue|
    requires Attempt(cfg, ss[n].snd.queue[es[n].i].attempt) == Expired
    ensures GivenUp(cfg, es, ss, n + 1, ss[n].snd.queue[es[n].i].packet)
  {
    var p := ss[n].snd.queue[es[n].i].packet;
    VisitedStaySent(cfg, dst, es, ss, n, p);
    VisitedCounts(cfg, es, ss, n);
    ExpiryLeaves(cfg, dst, es, ss, n);
  }

  lemma VisitedStaySent(cfg: Config, dst: Address, es: seq<Event>, ss: seq<System>, n: nat, p: Packet)
    requires cfg.Valid() && Run(cfg, dst, es, ss) && n < |es| && VisitsPacket(es, ss, n, p)
    ensures SentPacket(ss[n + 1].h.groups, p)
  {
    VisitedWereSent(cfg, dst, es, ss, n, p);
    SentStays(cfg, dst, es, ss, n, p);
  }

  lemma ExpiryLeaves(cfg: Config, dst: Address, es: seq<Event>, ss: seq<System>, n: nat)
    requires cfg.Valid() && Run(cfg, dst, es, ss) && n < |es|
    requires es[n].Visited? && es[n].i < |ss[n].snd.queue|
    requires Attempt(cfg, ss[n].snd.queue[es[n].i].attempt) == Expired
    ensures !Waiting(ss[n + 1].snd.queue, ss[n].snd.queue[es[n].i].packet)
  {
    var s, e := ss[n], es[n];
    var p := s.snd.queue[e.i].packet;
    RunKeeps(cfg, dst, es, ss, n);
    QueueInSendOrder(cfg, dst, es, ss, n);
    assert StepAt(cfg, dst, es, ss, n) && SentPacket(s.h.groups, p);
    var queue := ss[n + 1].snd.queue;
    forall k | 0 <= k < |queue| ensures queue[k].packet != p {
      VisitCame(cfg, dst, s, e.i, e.suspended, k);
    }
  }

  lemma ExpiredStepCounts(cfg: Config, dst: Address, es: seq<Event>, ss: seq<System>, n: nat, p: Packet)
    requires cfg.Valid() && Run(cfg, dst, es, ss) && n < |es| && AllCounts(cfg, es, ss, n) && p in ss[n + 1].expired
    ensures GivenUp(cfg, es, ss, n + 1, p)
  {
    assert StepAt(cfg, dst, es, ss, n);
    if p in ss[n].expired {
      GivenUpStays(cfg, dst, es, ss, n, p);
    } else {
      NewlyExpired(cfg, dst, ss[n], es[n], ss[n + 1], p);
      ExpiryCounts(cfg, dst, es, ss, n);
    }
  }

  lemma NewlyExpired(cfg: Config, dst: Address, s: System, e: Event, s': System, p: Packet)
    requires cfg.Valid() && Step(cfg, dst, s, e, s') && p in s'.expired && p !in s.expired
    ensures e.Visited? && e.i < |s.snd.queue| && s.snd.queue[e.i].packet == p
    ensures Attempt(cfg, s.snd.queue[e.i].attempt) == Expired
  {
    if e.Visited? {
      VisitShape(cfg, dst, s, e.i, e.suspended);
    }
  }

  lemma {:induction false} RunCounts(cfg: Config, dst: Address, es: seq<Event>, ss: seq<System>, n: nat)
    requires cfg.Valid() && Run(cfg, dst, es, ss) && n <= |es|
    ensures AllCounts(cfg, es, ss, n)
  {
    if n > 0 {
      RunCounts(cfg, dst, es, ss, n - 1);
      forall k | 0 <= k < |ss[n].snd.queue| ensures Counts(cfg, es, ss, n, ss[n].snd.queue[k]) {
        QueueStepCounts(cfg, dst, es, ss, n - 1, k);
      }
      forall p | p in ss[n].expired ensures GivenUp(cfg, es, ss, n, p) {
        ExpiredStepCounts(cfg, dst, es, ss, n - 1, p);
      }
    }
  }

  // ----- Main results

  /** In every run, a packet that was given up has been visited once more than the limit, was selected for
      sending once and once again for every power of the factor below the limit, and never waits again. */
  lemma GivenUpPackets(cfg: Config, dst: Address, es: seq<Event>, ss: seq<System>, n: nat, p: Packet, f: nat)
    requires TableFor(cfg, f) && Run(cfg, dst, es, ss) && n <= |es| && p in ss[n].expired
    ensures Tries(es, ss, n, p) == cfg.sendRetry + 1
    ensures Selections(cfg, es, ss, n, p) == 1 + |Exponents(f, cfg.sendRetry)|
    ensures !Waiting(ss[n].snd.queue, p)
  {
    RunCounts(cfg, dst, es, ss, n);
    assert GivenUp(cfg, es, ss, n, p);
    UnacknowledgedPacket(cfg, f);
  }

  /** In every run, a packet that waits has been visited at most as often as the limit, and was selected once
      at its first visit and once again for every power of the factor below the number of visits. */
  lemma WaitingPackets(cfg: Config, dst: Address, es: seq<Event>, ss: seq<System>, n: nat, k: nat, f: nat)
    requires TableFor(cfg, f) && Run(cfg, dst, es, ss) && n <= |es| && k < |ss[n].snd.queue|
    ensures var (p, a) := (ss[n].snd.queue[k].packet, ss[n].snd.queue[k].attempt);
            && Tries(es, ss, n, p) == a <= cfg.sendRetry
            && Selections(cfg, es, ss, n, p) == if a == 0 then 0 else 1 + |Exponents(f, a)|
  {
    RunCounts(cfg, dst, es, ss, n);
    assert Counts(cfg, es, ss, n, ss[n].snd.queue[k]);
    if ss[n].snd.queue[k].attempt > 0 {
      SendsSoFar(cfg, f, ss[n].snd.queue[k].attempt);
    }
  }
}
