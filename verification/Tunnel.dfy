/** In-order delivery of tunnelled TCP data: a bounded queue that puts arriving buffers back into order
    (src/packet.c) and feeds the socket's slot list. */
module Tunnel {
  import opened Common
  import opened LinkedList
  import opened RingBuffer

  /** `struct tcpbuffer_s`. */
  datatype Entry = Entry(buf: seq<byte>, tidx: nat, dispatched: bool)

  /** One connection; `last` is the task index dispatched last, 0 before the first. */
  datatype Client = Client(queue: seq<Entry>, last: nat, ring: Ring)

  predicate Due(e: Entry, last: nat) {
    !e.dispatched && (last == 0 || last + 1 == e.tidx)
  }

  function FirstDue(q: seq<Entry>, last: nat): (i: nat)
    ensures i <= |q|
    ensures i < |q| ==> Due(q[i], last)
    ensures forall k :: 0 <= k < i ==> !Due(q[k], last)
  {
    if q == [] || Due(q[0], last) then 0 else 1 + FirstDue(q[1..], last)
  }

  function Undispatched(q: seq<Entry>): nat {
    if q == [] then 0 else (if q[0].dispatched then 0 else 1) + Undispatched(q[1..])
  }

  function Mark(q: seq<Entry>, i: nat): seq<Entry>
    requires i < |q|
  {
    q[i := q[i].(dispatched := true)]
  }

  lemma {:induction false} MarkReduces(q: seq<Entry>, i: nat)
    requires i < |q| && !q[i].dispatched
    ensures Undispatched(Mark(q, i)) < Undispatched(q)
  {
    if i > 0 {
      assert Mark(q, i)[1..] == Mark(q[1..], i - 1);
      MarkReduces(q[1..], i - 1);
    } else {
      assert Mark(q, i)[1..] == q[1..];
    }
  }

  /** `tcpdispatch`: the queue and last index afterwards, and the buffers handed on, in order. */
  function Dispatch(q: seq<Entry>, last: nat): (seq<Entry>, nat, seq<seq<byte>>)
    decreases Undispatched(q)
  {
    var i := FirstDue(q, last);
    if i == |q| then (q, last, []) else
    MarkReduces(q, i);
    var (q', last', out) := Dispatch(Mark(q, i), q[i].tidx);
    (q', last', [q[i].buf] + out)
  }

  lemma DispatchOne(q: seq<Entry>, last: nat, r: Ring, i: nat)
    requires i < |q| && FirstDue(q, last) == i
    ensures var (q1, last1, out1) := Dispatch(Mark(q, i), q[i].tidx);
            var (q', last', out) := Dispatch(q, last);
            q' == q1 && last' == last1 && AppendAll(r, out) == AppendAll(Append(r, q[i].buf), out1)
  {
    var out1 := Dispatch(Mark(q, i), q[i].tidx).2;
    assert ([q[i].buf] + out1)[1..] == out1;
  }

  function AppendAll(r: Ring, bufs: seq<seq<byte>>): Ring
    decreases |bufs|
  {
    if bufs == [] then r else AppendAll(Append(r, bufs[0]), bufs[1..])
  }

  /** `queue_add`: newest first, at most `QUEUE_SIZE` entries. */
  function Enqueue(q: seq<Entry>, e: Entry): seq<Entry> {
    [e] + if |q| >= QUEUE_SIZE then q[..|q| - 1] else q
  }

  /** `tcpsent`: an entry with this index is in the queue. */
  predicate Known(q: seq<Entry>, tidx: nat) {
    exists i :: 0 <= i < |q| && q[i].tidx == tidx
  }

  function Arrive(c: Client, tidx: nat, buf: seq<byte>): Client {
    if Known(c.queue, tidx) then c else
    var (q, last, out) := Dispatch(Enqueue(c.queue, Entry(buf, tidx, false)), c.last);
    Client(q, last, AppendAll(c.ring, out))
  }

  // ----- Order

  /** What the sender put into the buffer of each task index. */
  type Content = nat -> seq<byte>

  /** The contents of `n` consecutive buffers from index `t` on. */
  function Stream(content: Content, t: nat, n: nat): seq<byte> {
    if n == 0 then [] else Stream(content, t, n - 1) + content(t + n - 1)
  }

  lemma {:induction false} StreamJoin(content: Content, t: nat, m: nat, n: nat)
    ensures Stream(content, t, m + n) == Stream(content, t, m) + Stream(content, t + m, n)
  {
    if n == 0 {
      assert Stream(content, t, m) + [] == Stream(content, t, m);
    } else {
      StreamJoin(content, t, m, n - 1);
    }
  }

  lemma StreamOne(content: Content, t: nat)
    ensures Stream(content, t, 1) == content(t)
  {
    assert Stream(content, t, 0) + content(t) == content(t);
  }

  /** Entries hold what was sent under their index. */
  ghost predicate Genuine(q: seq<Entry>, content: Content) {
    forall i :: 0 <= i < |q| ==> q[i].tidx >= 1 && q[i].buf == content(q[i].tidx)
  }

  /** Dispatched entries lie in the range from `from` to `last`. */
  ghost predicate DispatchedWithin(q: seq<Entry>, from: nat, last: nat) {
    forall i :: 0 <= i < |q| && q[i].dispatched ==> from <= q[i].tidx <= last
  }

  ghost predicate SameEntries(q: seq<Entry>, q': seq<Entry>) {
    |q| == |q'| && forall i :: 0 <= i < |q| ==> q[i].tidx == q'[i].tidx && q[i].buf == q'[i].buf
  }

  /** The buffers `out` handed on continue the stream after `last`, and nothing due is left. */
  ghost predicate Dispatched(q: seq<Entry>, last: nat, content: Content, from: nat,
                             q': seq<Entry>, last': nat, out: seq<seq<byte>>) {
    && last' >= last
    && Concat(out) == Stream(content, last + 1, last' - last)
    && SameEntries(q, q') && Genuine(q', content)
    && DispatchedWithin(q', from, last')
    && FirstDue(q', last') == |q'|
    && (forall t :: last < t <= last' ==> Known(q, t))
  }

  /** Dispatching goes on from index to index, hands on exactly the buffers passed, in order, and stops
      only when the next index is not in the queue. */
  lemma {:induction false} DispatchInOrder(q: seq<Entry>, last: nat, content: Content, from: nat)
    requires Genuine(q, content) && last > 0 && from <= last && DispatchedWithin(q, from, last)
    ensures var (q', last', out) := Dispatch(q, last); Dispatched(q, last, content, from, q', last', out)
    decreases Undispatched(q)
  {
    var i := FirstDue(q, last);
    if i < |q| {
      MarkReduces(q, i);
      DispatchInOrder(Mark(q, i), q[i].tidx, content, from);
      var (q', last', out) := Dispatch(Mark(q, i), q[i].tidx);
      DispatchedFirst(q, last, content, from, i, q', last', out);
    }
  }

  /** The entry at position `i` is handed on first, and then `out`. */
  lemma DispatchedFirst(q: seq<Entry>, last: nat, content: Content, from: nat, i: nat,
                        q': seq<Entry>, last': nat, out: seq<seq<byte>>)
    requires i < |q| && Genuine(q, content) && q[i].tidx == last + 1
    requires Dispatched(Mark(q, i), q[i].tidx, content, from, q', last', out)
    ensures Dispatched(q, last, content, from, q', last', [q[i].buf] + out)
  {
    var next := q[i].tidx;
    ConcatCons(q[i].buf, out);
    StreamOne(content, next);
    StreamJoin(content, next, 1, last' - next);
    forall t | last < t <= last' ensures Known(q, t) {
      if t > next {
        KnownAfterMark(q, i, t);
      }
    }
  }

  lemma KnownAfterMark(q: seq<Entry>, i: nat, tidx: nat)
    requires i < |q| && Known(Mark(q, i), tidx)
    ensures Known(q, tidx)
  {
    var k :| 0 <= k < |q| && Mark(q, i)[k].tidx == tidx;
    assert q[k].tidx == tidx;
  }

  lemma {:induction false} AppendAllPending(r: Ring, bufs: seq<seq<byte>>)
    requires r.Ok()
    ensures AppendAll(r, bufs).Ok() && AppendAll(r, bufs).Pending() == r.Pending() + Concat(bufs)
    decreases |bufs|
  {
    if bufs != [] {
      AppendPending(r, bufs[0]);
      AppendAllPending(Append(r, bufs[0]), bufs[1..]);
      assert bufs == [bufs[0]] + bufs[1..];
      ConcatCons(bufs[0], bufs[1..]);
    }
  }

  // ----- Runs

  /** A buffer arrives under its index, or the socket takes `k` of the bytes offered. */
  datatype Event = Arrival(tidx: nat) | Write(k: nat)

  /** The connection and the bytes the socket has taken. */
  datatype System = System(client: Client, written: seq<byte>)

  function Init(): System {
    System(Client([], 0, Ring([], 0)), [])
  }

  predicate Enabled(s: System, e: Event) {
    match e
    case Arrival(tidx) => tidx >= 1
    case Write(k) => s.client.ring.Ok() && s.client.ring.slots != [] && 1 <= k <= |Offered(s.client.ring)|
  }

  function Next(content: Content, s: System, e: Event): System
    requires Enabled(s, e)
  {
    match e
    case Arrival(tidx) => s.(client := Arrive(s.client, tidx, content(tidx)))
    case Write(k) =>
      var ring := s.client.ring;
      System(s.client.(ring := Skip(ring, k)), s.written + Offered(ring)[..k])
  }

  ghost predicate Step(content: Content, s: System, e: Event, s': System) {
    Enabled(s, e) && s' == Next(content, s, e)
  }

  /** Event `i` leads from state `i` to the next one. */
  ghost predicate StepAt(content: Content, es: seq<Event>, ss: seq<System>, i: nat)
    requires i < |es| && i + 1 < |ss|
  {
    Step(content, ss[i], es[i], ss[i + 1])
  }

  ghost predicate Run(content: Content, es: seq<Event>, ss: seq<System>) {
    && |ss| == |es| + 1 && ss[0] == Init()
    && forall i :: 0 <= i < |es| ==> StepAt(content, es, ss, i)
  }

  /** Index of the first arrival among the first `n` events, 0 if there is none. */
  function FirstArrival(es: seq<Event>, n: nat): nat
    requires n <= |es|
  {
    if n == 0 then 0
    else if FirstArrival(es, n - 1) != 0 then FirstArrival(es, n - 1)
    else if es[n - 1].Arrival? then es[n - 1].tidx else 0
  }

  /** The queue of a connection on which `first` arrived first and everything up to `last` was handed on. */
  ghost predicate QueueOk(q: seq<Entry>, content: Content, first: nat, last: nat) {
    && |q| <= QUEUE_SIZE && Genuine(q, content) && DispatchedWithin(q, first, last)
    && FirstDue(q, last) == |q|
  }

  /** What was written and what is pending make up the stream from `first` to `last`. */
  ghost predicate StreamOk(content: Content, first: nat, last: nat, written: seq<byte>, ring: Ring) {
    ring.Ok() && first <= last && written + ring.Pending() == Stream(content, first, last - first + 1)
  }

  /** Nothing has arrived yet (`first` is 0), or the queue and the stream are as they should be. */
  ghost predicate Inv(content: Content, first: nat, s: System) {
    && (first == 0 ==> s == Init())
    && (first > 0 ==>
          && QueueOk(s.client.queue, content, first, s.client.last)
          && StreamOk(content, first, s.client.last, s.written, s.client.ring))
  }

  lemma FirstArrivalKeeps(content: Content, s: System, tidx: nat)
    requires Inv(content, 0, s) && tidx >= 1
    ensures Inv(content, tidx, Next(content, s, Arrival(tidx)))
    ensures Next(content, s, Arrival(tidx)).client.last == tidx
  {
    var e := Entry(content(tidx), tidx, false);
    var q := [e] + [];
    assert Enqueue([], e) == q;
    assert FirstDue(q, 0) == 0;
    MarkReduces(q, 0);
    DispatchInOrder(Mark(q, 0), tidx, content, tidx);
    var (q', last', out) := Dispatch(Mark(q, 0), tidx);
    assert last' == tidx;
    ConcatCons(e.buf, out);
    AppendAllPending(Ring([], 0), [e.buf] + out);
    StreamOne(content, tidx);
  }

  lemma EnqueueKeeps(q: seq<Entry>, e: Entry, content: Content, from: nat, last: nat)
    requires Genuine(q, content) && DispatchedWithin(q, from, last) && |q| <= QUEUE_SIZE
    requires e.tidx >= 1 && e.buf == content(e.tidx) && !e.dispatched
    ensures Genuine(Enqueue(q, e), content) && DispatchedWithin(Enqueue(q, e), from, last)
    ensures |Enqueue(q, e)| <= QUEUE_SIZE
  {
  }

  lemma LaterArrivalKeeps(content: Content, first: nat, s: System, tidx: nat)
    requires Inv(content, first, s) && first > 0 && tidx >= 1
    ensures Inv(content, first, Next(content, s, Arrival(tidx)))
  {
    var c := s.client;
    if !Known(c.queue, tidx) {
      ArrivalGoesOn(content, first, c, s.written, tidx);
    }
  }

  lemma ArrivalGoesOn(content: Content, first: nat, c: Client, written: seq<byte>, tidx: nat)
    requires QueueOk(c.queue, content, first, c.last) && StreamOk(content, first, c.last, written, c.ring)
    requires 0 < first && tidx >= 1 && !Known(c.queue, tidx)
    ensures var c' := Arrive(c, tidx, content(tidx));
            QueueOk(c'.queue, content, first, c'.last) && StreamOk(content, first, c'.last, written, c'.ring)
  {
    QueueGoesOn(c.queue, content, first, c.last, tidx);
    var (q', last', out) := Dispatch(Enqueue(c.queue, Entry(content(tidx), tidx, false)), c.last);
    StreamGoesOn(content, first, c.last, last', written, c.ring, out);
  }

  lemma QueueGoesOn(q: seq<Entry>, content: Content, first: nat, last: nat, tidx: nat)
    requires QueueOk(q, content, first, last) && 0 < first <= last && tidx >= 1
    ensures var (q', last', out) := Dispatch(Enqueue(q, Entry(content(tidx), tidx, false)), last);
            && QueueOk(q', content, first, last') && last <= last'
            && Concat(out) == Stream(content, last + 1, last' - last)
  {
    var e := Entry(content(tidx), tidx, false);
    EnqueueKeeps(q, e, content, first, last);
    DispatchInOrder(Enqueue(q, e), last, content, first);
  }

  lemma StreamGoesOn(content: Content, first: nat, last: nat, last': nat, written: seq<byte>, ring: Ring,
                     out: seq<seq<byte>>)
    requires StreamOk(content, first, last, written, ring) && last <= last'
    requires Concat(out) == Stream(content, last + 1, last' - last)
    ensures StreamOk(content, first, last', written, AppendAll(ring, out))
  {
    AppendAllPending(ring, out);
    StreamJoin(content, first, last - first + 1, last' - last);
    Associative(written, ring.Pending(), Concat(out));
  }

  lemma WriteKeeps(content: Content, first: nat, s: System, k: nat)
    requires Inv(content, first, s) && Enabled(s, Write(k))
    ensures Inv(content, first, Next(content, s, Write(k)))
  {
    var ring := s.client.ring;
    SkipPending(ring, k);
    var a, b, c := s.written, Offered(ring)[..k], Skip(ring, k).Pending();
    Associative(a, b, c);
  }

  lemma {:induction false} RunKeeps(content: Content, es: seq<Event>, ss: seq<System>, n: nat)
    requires Run(content, es, ss) && n < |ss|
    ensures Inv(content, FirstArrival(es, n), ss[n])
  {
    if n > 0 {
      RunKeeps(content, es, ss, n - 1);
      var s, e, first := ss[n - 1], es[n - 1], FirstArrival(es, n - 1);
      assert StepAt(content, es, ss, n - 1);
      if e.Write? {
        WriteKeeps(content, first, s, e.k);
      } else if first == 0 {
        FirstArrivalKeeps(content, s, e.tidx);
      } else {
        LaterArrivalKeeps(content, first, s, e.tidx);
      }
    }
  }

  // ----- Main results

  /** Order: for every arrival sequence and every pattern of partial writes, the bytes written are a
      prefix of the contents of the first buffer that arrived, the next index, and so on, each once. */
  lemma WrittenInOrder(content: Content, es: seq<Event>, ss: seq<System>, n: nat)
    requires Run(content, es, ss) && n < |ss|
    ensures var first, s := FirstArrival(es, n), ss[n];
            if first == 0 then s.written == []
            else first <= s.client.last && s.written <= Stream(content, first, s.client.last - first + 1)
    ensures |ss[n].client.queue| <= QUEUE_SIZE
  {
    RunKeeps(content, es, ss, n);
    if FirstArrival(es, n) > 0 {
      WrittenIsPrefix(content, FirstArrival(es, n), ss[n].client.last, ss[n].written, ss[n].client.ring);
    }
  }

  lemma WrittenIsPrefix(content: Content, first: nat, last: nat, written: seq<byte>, ring: Ring)
    requires StreamOk(content, first, last, written, ring)
    ensures first <= last && written <= Stream(content, first, last - first + 1)
  {
  }

  /** The queue never holds the buffer that is due next. */
  lemma NothingDueWaits(content: Content, es: seq<Event>, ss: seq<System>, n: nat)
    requires Run(content, es, ss) && n < |ss| && FirstArrival(es, n) > 0
    ensures !exists i :: 0 <= i < |ss[n].client.queue|
              && !ss[n].client.queue[i].dispatched && ss[n].client.queue[i].tidx == ss[n].client.last + 1
  {
    RunKeeps(content, es, ss, n);
    var c := ss[n].client;
    NextNotHeld(c.queue, content, FirstArrival(es, n), c.last);
  }

  // ----- Completeness

  /** The indices that arrive in the first `n` events. */
  function Arrived(es: seq<Event>, n: nat): set<nat>
    requires n <= |es|
  {
    if n == 0 then {} else Arrived(es, n - 1) + if es[n - 1].Arrival? then {es[n - 1].tidx} else {}
  }

  lemma {:induction false} ArrivedGrows(es: seq<Event>, i: nat, n: nat)
    requires i <= n <= |es|
    ensures Arrived(es, i) <= Arrived(es, n)
    decreases n
  {
    if i < n {
      ArrivedGrows(es, i, n - 1);
    }
  }

  /** The queue holds exactly one entry for every index that has arrived: nothing was pushed out. */
  ghost predicate HoldsAll(q: seq<Entry>, last: nat, arrived: set<nat>) {
    && (forall t :: t in arrived ==> Known(q, t))
    && (forall i :: 0 <= i < |q| ==> q[i].tidx in arrived)
    && (forall i, j :: 0 <= i < j < |q| ==> q[i].tidx != q[j].tidx)
    && (last > 0 ==> last in arrived)
  }

  lemma SizeBelow(q: seq<Entry>, all: set<nat>, t: nat)
    requires forall i, j :: 0 <= i < j < |q| ==> q[i].tidx != q[j].tidx
    requires forall i :: 0 <= i < |q| ==> q[i].tidx in all && q[i].tidx != t
    requires t in all
    ensures |q| < |all|
  {
    var idxs: seq<nat> := seq(|q|, i requires 0 <= i < |q| => q[i].tidx);
    assert Distinct(idxs);
    DistinctCardinality(idxs);
    var image := set x | x in idxs;
    assert |all - {t}| == |all| - 1;
    SubsetSize(image, all - {t});
  }

  lemma {:induction false} DispatchKeepsEntries(q: seq<Entry>, last: nat)
    ensures SameEntries(q, Dispatch(q, last).0)
    ensures Dispatch(q, last).1 == last || Known(q, Dispatch(q, last).1)
    decreases Undispatched(q)
  {
    var i := FirstDue(q, last);
    if i < |q| {
      MarkReduces(q, i);
      DispatchKeepsEntries(Mark(q, i), q[i].tidx);
      var last' := Dispatch(Mark(q, i), q[i].tidx).1;
      if last' != q[i].tidx {
        KnownAfterMark(q, i, last');
      }
    }
  }

  lemma HoldsAllAfterArrival(c: Client, arrived: set<nat>, all: set<nat>, tidx: nat, buf: seq<byte>)
    requires HoldsAll(c.queue, c.last, arrived) && arrived <= all && tidx in all && |all| <= QUEUE_SIZE
    ensures var c' := Arrive(c, tidx, buf); HoldsAll(c'.queue, c'.last, arrived + {tidx})
  {
    if !Known(c.queue, tidx) {
      var e := Entry(buf, tidx, false);
      SizeBelow(c.queue, all, tidx);
      var q := Enqueue(c.queue, e);
      assert q == [e] + c.queue;
      HoldsAllAfterEnqueue(c.queue, c.last, arrived, e);
      DispatchKeepsEntries(q, c.last);
      var q', last' := Dispatch(q, c.last).0, Dispatch(q, c.last).1;
      forall t | t in arrived + {tidx} ensures Known(q', t) {
        var k :| 0 <= k < |q| && q[k].tidx == t;
        assert q'[k].tidx == t;
      }
    }
  }

  lemma HoldsAllAfterEnqueue(q: seq<Entry>, last: nat, arrived: set<nat>, e: Entry)
    requires HoldsAll(q, last, arrived) && !Known(q, e.tidx)
    ensures HoldsAll([e] + q, last, arrived + {e.tidx})
  {
    var q' := [e] + q;
    forall t | t in arrived + {e.tidx} ensures Known(q', t) {
      if t == e.tidx {
        assert q'[0].tidx == t;
      } else {
        var k :| 0 <= k < |q| && q[k].tidx == t;
        assert q'[k + 1].tidx == t;
      }
    }
  }

  lemma {:induction false} RunHoldsAll(content: Content, es: seq<Event>, ss: seq<System>, n: nat)
    requires Run(content, es, ss) && n < |ss|
    requires |Arrived(es, |es|)| <= QUEUE_SIZE
    ensures HoldsAll(ss[n].client.queue, ss[n].client.last, Arrived(es, n))
  {
    if n > 0 {
      RunHoldsAll(content, es, ss, n - 1);
        var s, e := ss[n - 1], es[n - 1];
      assert StepAt(content, es, ss, n - 1);
      if e.Arrival? {
        ArrivedGrows(es, n - 1, |es|);
        ArrivedGrows(es, n, |es|);
        HoldsAllAfterArrival(s.client, Arrived(es, n - 1), Arrived(es, |es|), e.tidx, content(e.tidx));
      }
    }
  }

  /** Completeness: if the indices that arrive, in any order, with any repetitions and between any writes,
      are at most 100 consecutive ones of which the first arrives first, all of them are handed on. */
  lemma ConsecutiveArrivalsAreDelivered(content: Content, es: seq<Event>, ss: seq<System>, first: nat, m: nat)
    requires Run(content, es, ss)
    requires 1 <= m <= QUEUE_SIZE && Arrived(es, |es|) == Range(first, m) && FirstArrival(es, |es|) == first
    ensures var s := ss[|es|];
            && s.client.last == first + m - 1 && s.client.ring.Ok()
            && s.written + s.client.ring.Pending() == Stream(content, first, m)
  {
    RunKeeps(content, es, ss, |es|);
    RunHoldsAll(content, es, ss, |es|);
    assert first in Arrived(es, |es|);
    FirstArrivalPositive(content, es, ss, |es|);
    AllHandedOn(content, first, ss[|es|], m);
  }

  lemma AllHandedOn(content: Content, first: nat, s: System, m: nat)
    requires Inv(content, first, s) && first > 0
    requires HoldsAll(s.client.queue, s.client.last, Range(first, m))
    ensures s.client.last == first + m - 1 && s.client.ring.Ok()
    ensures s.written + s.client.ring.Pending() == Stream(content, first, m)
  {
    NextNotHeld(s.client.queue, content, first, s.client.last);
    assert s.client.last + 1 !in Range(first, m);
  }

  lemma NextNotHeld(q: seq<Entry>, content: Content, first: nat, last: nat)
    requires QueueOk(q, content, first, last)
    ensures !Known(q, last + 1)
  {
    assert forall i :: 0 <= i < |q| ==> !Due(q[i], last);
  }

  lemma {:induction false} FirstArrivalPositive(content: Content, es: seq<Event>, ss: seq<System>, n: nat)
    requires Run(content, es, ss) && n <= |es| && Arrived(es, n) != {}
    ensures FirstArrival(es, n) > 0
  {
    if n > 0 {
        if Arrived(es, n - 1) != {} {
        FirstArrivalPositive(content, es, ss, n - 1);
      } else {
        assert StepAt(content, es, ss, n - 1);
      }
    }
  }

  // ----- Runs of any length

  /** How many buffers arrive in events `i` up to `j`. */
  function Arrivals(es: seq<Event>, i: nat, j: nat): nat
    requires i <= j <= |es|
    decreases j - i
  {
    if i == j then 0 else Arrivals(es, i, j - 1) + if es[j - 1].Arrival? then 1 else 0
  }

  /** Event `i` is the first arrival of index `t`. */
  ghost predicate FirstAt(es: seq<Event>, i: nat, t: nat) {
    i < |es| && es[i] == Arrival(t) && t !in Arrived(es, i)
  }

  lemma {:induction false} FindFirst(es: seq<Event>, n: nat, t: nat) returns (i: nat)
    requires n <= |es| && t in Arrived(es, n)
    ensures i < n && FirstAt(es, i, t)
  {
    if t in Arrived(es, n - 1) {
      i := FindFirst(es, n - 1, t);
    } else {
      i := n - 1;
    }
  }

  /** Index `t` is among the first `k + 1` entries of the queue. */
  ghost predicate Among(q: seq<Entry>, t: nat, k: nat) {
    exists p :: 0 <= p < |q| && p <= k && q[p].tidx == t
  }

  /** An arrival pushes every entry back by one place at most, and the new one is in front. */
  lemma ArrivalShifts(c: Client, tidx: nat, buf: seq<byte>, t: nat, k: nat)
    requires |c.queue| <= QUEUE_SIZE && k < QUEUE_SIZE
    ensures t == tidx && !Known(c.queue, tidx) ==> Among(Arrive(c, tidx, buf).queue, t, k)
    ensures k > 0 && Among(c.queue, t, k - 1) ==> Among(Arrive(c, tidx, buf).queue, t, k)
  {
    if !Known(c.queue, tidx) {
      var q := Enqueue(c.queue, Entry(buf, tidx, false));
      DispatchKeepsEntries(q, c.last);
      var q' := Dispatch(q, c.last).0;
      if t == tidx {
        assert q'[0].tidx == t;
      } else if k > 0 && Among(c.queue, t, k - 1) {
        var p :| 0 <= p < |c.queue| && p <= k - 1 && c.queue[p].tidx == t;
        assert q[p + 1] == c.queue[p] && q'[p + 1].tidx == t;
      }
    }
  }

  lemma QueueWithin(content: Content, es: seq<Event>, ss: seq<System>, n: nat)
    requires Run(content, es, ss) && n < |ss|
    ensures |ss[n].client.queue| <= QUEUE_SIZE
  {
    RunKeeps(content, es, ss, n);
  }

  /** Only what has arrived is queued. */
  lemma {:induction false} QueuedArrived(content: Content, es: seq<Event>, ss: seq<System>, n: nat, t: nat)
    requires Run(content, es, ss) && n < |ss| && Known(ss[n].client.queue, t)
    ensures t in Arrived(es, n)
  {
    if n > 0 {
      var c, e := ss[n - 1].client, es[n - 1];
        assert StepAt(content, es, ss, n - 1);
      if e.Arrival? && !Known(c.queue, e.tidx) {
        QueuedBefore(c, e.tidx, content(e.tidx), t);
      }
      if t !in Arrived(es, n) {
        QueuedArrived(content, es, ss, n - 1, t);
      }
    }
  }

  lemma QueuedBefore(c: Client, tidx: nat, buf: seq<byte>, t: nat)
    requires !Known(c.queue, tidx) && Known(Arrive(c, tidx, buf).queue, t)
    ensures t == tidx || Known(c.queue, t)
  {
    var q := Enqueue(c.queue, Entry(buf, tidx, false));
    DispatchKeepsEntries(q, c.last);
    var q' := Dispatch(q, c.last).0;
    var k :| 0 <= k < |q'| && q'[k].tidx == t;
    assert q[k].tidx == t;
    if k > 0 {
      assert q[k] == c.queue[k - 1];
    }
  }

  /** A buffer stays in the queue until 100 others have arrived after it. */
  lemma {:induction false} StaysQueued(content: Content, es: seq<Event>, ss: seq<System>, i: nat, n: nat, t: nat)
    requires Run(content, es, ss) && i < n < |ss| && FirstAt(es, i, t) && Arrivals(es, i + 1, n) < QUEUE_SIZE
    ensures Among(ss[n].client.queue, t, Arrivals(es, i + 1, n))
    decreases n
  {
    var c, e, k := ss[n - 1].client, es[n - 1], Arrivals(es, i + 1, n);
    assert StepAt(content, es, ss, n - 1);
    QueueWithin(content, es, ss, n - 1);
    if i == n - 1 {
      if Known(c.queue, t) {
        QueuedArrived(content, es, ss, i, t);
      }
      ArrivalShifts(c, t, content(t), t, 0);
    } else {
      StaysQueued(content, es, ss, i, n - 1, t);
      if e.Arrival? {
        ArrivalShifts(c, e.tidx, content(e.tidx), t, k);
      }
    }
  }

  /** No buffer waits for an earlier index so long that 100 arrivals, that of the earlier index included, come
      after it. */
  ghost predicate Within(es: seq<Event>) {
    forall i, j :: Waits(es, i, j) ==> Arrivals(es, i + 1, j + 1) < QUEUE_SIZE
  }

  /** The buffer of event `i` has to wait for that of event `j`: both come for the first time, and the later
      one has the smaller index. */
  ghost predicate Waits(es: seq<Event>, i: int, j: int) {
    && 0 <= i < j < |es| && es[i].Arrival? && es[j].Arrival? && es[j].tidx < es[i].tidx
    && FirstAt(es, i, es[i].tidx) && FirstAt(es, j, es[j].tidx)
  }

  lemma EnqueuedKnown(q: seq<Entry>, e: Entry, t: nat)
    requires Known(Enqueue(q, e), t)
    ensures t == e.tidx || Known(q, t)
  {
    var q' := Enqueue(q, e);
    var k :| 0 <= k < |q'| && q'[k].tidx == t;
    if k > 0 {
      assert q'[k] == q[k - 1];
    }
  }

  /** Every index passed by an arrival is queued then, and was queued before or is the one that arrives. */
  lemma PassedAreKnown(c: Client, content: Content, first: nat, tidx: nat)
    requires QueueOk(c.queue, content, first, c.last) && 0 < first <= c.last && tidx >= 1 && !Known(c.queue, tidx)
    ensures var c' := Arrive(c, tidx, content(tidx));
            && c.last <= c'.last
            && forall t :: c.last < t <= c'.last ==> (t == tidx || Known(c.queue, t)) && Known(c'.queue, t)
  {
    var b, c' := Entry(content(tidx), tidx, false), Arrive(c, tidx, content(tidx));
    var q := Enqueue(c.queue, b);
    EnqueueKeeps(c.queue, b, content, first, c.last);
    DispatchInOrder(q, c.last, content, first);
    forall t | c.last < t <= c'.last ensures (t == tidx || Known(c.queue, t)) && Known(c'.queue, t) {
      EnqueuedKnown(c.queue, b, t);
      var k :| 0 <= k < |q| && q[k].tidx == t;
      assert c'.queue[k].tidx == t;
    }
  }

  /** What one event after the first arrival does to the last index: it does not go back, and every index it
      passes is the one that arrives or is queued. */
  lemma LastGrows(content: Content, es: seq<Event>, ss: seq<System>, n: nat)
    requires Run(content, es, ss) && n < |es| && FirstArrival(es, n) > 0
    ensures var c, c' := ss[n].client, ss[n + 1].client;
            && c.last <= c'.last
            && forall t :: c.last < t <= c'.last ==>
                 es[n].Arrival? && (t == es[n].tidx || Known(c.queue, t)) && Known(c'.queue, t)
  {
    RunKeeps(content, es, ss, n);
    assert StepAt(content, es, ss, n);
    var c, e := ss[n].client, es[n];
    if e.Arrival? && !Known(c.queue, e.tidx) {
      PassedAreKnown(c, content, FirstArrival(es, n), e.tidx);
    }
  }

  /** Everything handed on has arrived. */
  lemma {:induction false} HandedOnArrived(content: Content, es: seq<Event>, ss: seq<System>, n: nat, t: nat)
    requires Run(content, es, ss) && n <= |es| && 0 < FirstArrival(es, n) <= t <= ss[n].client.last
    ensures t in Arrived(es, n)
  {
    assert StepAt(content, es, ss, n - 1);
    if FirstArrival(es, n - 1) == 0 {
      RunKeeps(content, es, ss, n - 1);
      FirstArrivalKeeps(content, ss[n - 1], es[n - 1].tidx);
    } else if t <= ss[n - 1].client.last {
      HandedOnArrived(content, es, ss, n - 1, t);
    } else {
      LastGrows(content, es, ss, n - 1);
      if t != es[n - 1].tidx {
        QueuedArrived(content, es, ss, n - 1, t);
      }
    }
  }

  /** In runs that keep within the queue's reach, the index after the last one handed on has not arrived. */
  lemma {:induction false} NextHasNotArrived(content: Content, es: seq<Event>, ss: seq<System>, n: nat)
    requires Run(content, es, ss) && Within(es) && n <= |es| && FirstArrival(es, n) > 0
    ensures ss[n].client.last + 1 !in Arrived(es, n)
  {
    var c := ss[n].client;
    RunKeeps(content, es, ss, n);
    NextNotHeld(c.queue, content, FirstArrival(es, n), c.last);
    if FirstArrival(es, n - 1) > 0 {
      NextHasNotArrived(content, es, ss, n - 1);
    }
    ArrivedIsHeld(content, es, ss, n);
  }

  lemma ArrivedIsHeld(content: Content, es: seq<Event>, ss: seq<System>, n: nat)
    requires Run(content, es, ss) && Within(es) && 0 < n <= |es| && FirstArrival(es, n) > 0
    requires FirstArrival(es, n - 1) > 0 ==> ss[n - 1].client.last + 1 !in Arrived(es, n - 1)
    ensures var v := ss[n].client.last + 1; v in Arrived(es, n) ==> Known(ss[n].client.queue, v)
  {
    var v, u := ss[n].client.last + 1, ss[n - 1].client.last + 1;
    if v in Arrived(es, n) {
      var i := FindFirst(es, n, v);
      if i < n - 1 {
        EarlierArrived(es, i, n - 1, v);
        FirstArrivalPositive(content, es, ss, n - 1);
        LastGrows(content, es, ss, n - 1);
        assert u < v && Known(ss[n].client.queue, u);
        if u != es[n - 1].tidx {
          QueuedArrived(content, es, ss, n - 1, u);
        }
        assert FirstAt(es, n - 1, u) && Waits(es, i, n - 1);
      }
      StaysQueued(content, es, ss, i, n, v);
    }
  }

  lemma EarlierArrived(es: seq<Event>, i: nat, n: nat, t: nat)
    requires i < n <= |es| && es[i] == Arrival(t)
    ensures t in Arrived(es, n)
  {
    ArrivedGrows(es, i + 1, n);
  }

  /** Completeness for runs of any length: if the indices that arrive are consecutive ones of which the first
      arrives first, and no buffer waits for an earlier one longer than the queue reaches, all are handed on. */
  lemma LongRunsAreDelivered(content: Content, es: seq<Event>, ss: seq<System>, first: nat, m: nat)
    requires Run(content, es, ss) && Within(es)
    requires m >= 1 && Arrived(es, |es|) == Range(first, m) && FirstArrival(es, |es|) == first
    ensures var s := ss[|es|];
            && s.client.last == first + m - 1 && s.client.ring.Ok()
            && s.written + s.client.ring.Pending() == Stream(content, first, m)
  {
    var s := ss[|es|];
    RunKeeps(content, es, ss, |es|);
    assert first in Range(first, m);
    FirstArrivalPositive(content, es, ss, |es|);
    HandedOnArrived(content, es, ss, |es|, s.client.last);
    NextHasNotArrived(content, es, ss, |es|);
    LastOfRange(content, first, m, s);
  }

  lemma LastOfRange(content: Content, first: nat, m: nat, s: System)
    requires StreamOk(content, first, s.client.last, s.written, s.client.ring)
    requires s.client.last in Range(first, m) && s.client.last + 1 !in Range(first, m)
    ensures s.client.last == first + m - 1 && s.written + s.client.ring.Pending() == Stream(content, first, m)
  {
  }

  /** In particular if the buffers arrive in order, however many they are. */
  lemma InOrderArrivalsAreDelivered(content: Content, es: seq<Event>, ss: seq<System>, first: nat, m: nat)
    requires Run(content, es, ss)
    requires forall i, j :: 0 <= i < j < |es| && es[i].Arrival? && es[j].Arrival? ==> es[i].tidx <= es[j].tidx
    requires m >= 1 && Arrived(es, |es|) == Range(first, m) && FirstArrival(es, |es|) == first
    ensures ss[|es|].client.last == first + m - 1
    ensures ss[|es|].client.ring.Ok() && ss[|es|].written + ss[|es|].client.ring.Pending() == Stream(content, first, m)
  {
    LongRunsAreDelivered(content, es, ss, first, m);
  }

  // ----- And exactly these runs, when nothing arrives twice

  ghost predicate EachOnce(es: seq<Event>) {
    forall i :: 0 <= i < |es| ==> !Repeats(es, i)
  }

  /** The buffer of event `i` has arrived before. */
  ghost predicate Repeats(es: seq<Event>, i: nat)
    requires i < |es|
  {
    es[i].Arrival? && es[i].tidx in Arrived(es, i)
  }

  /** Index `t` is the entry at place `k` and no other; from place 100 on, it is none. */
  ghost predicate Only(q: seq<Entry>, t: nat, k: nat) {
    && (k < QUEUE_SIZE ==> k < |q|)
    && forall p :: 0 <= p < |q| ==> (q[p].tidx == t <==> p == k)
  }

  lemma ArrivalShiftsOnly(c: Client, tidx: nat, buf: seq<byte>, t: nat, k: nat)
    requires |c.queue| <= QUEUE_SIZE && !Known(c.queue, tidx)
    ensures t == tidx ==> Only(Arrive(c, tidx, buf).queue, t, 0)
    ensures t != tidx && Only(c.queue, t, k) ==> Only(Arrive(c, tidx, buf).queue, t, k + 1)
  {
    var q := Enqueue(c.queue, Entry(buf, tidx, false));
    DispatchKeepsEntries(q, c.last);
    var q' := Dispatch(q, c.last).0;
    assert forall p :: 0 < p < |q'| ==> q'[p].tidx == c.queue[p - 1].tidx;
    assert q'[0].tidx == tidx;
  }

  lemma ArrivesOnce(content: Content, es: seq<Event>, ss: seq<System>, n: nat)
    requires Run(content, es, ss) && EachOnce(es) && n < |es| && es[n].Arrival?
    ensures !Known(ss[n].client.queue, es[n].tidx)
  {
    assert !Repeats(es, n);
    if Known(ss[n].client.queue, es[n].tidx) {
      QueuedArrived(content, es, ss, n, es[n].tidx);
    }
  }

  lemma OtherIndex(es: seq<Event>, i: nat, j: nat)
    requires EachOnce(es) && i <= j < |es| && es[i].Arrival? && es[j].Arrival?
    ensures i < j ==> es[i].tidx != es[j].tidx
  {
    assert !Repeats(es, j);
    if i < j {
      EarlierArrived(es, i, j, es[i].tidx);
    }
  }

  /** The place of a buffer in the queue is the number of arrivals after it; from 100 on it is gone. */
  lemma {:induction false} PlaceInQueue(content: Content, es: seq<Event>, ss: seq<System>, i: nat, n: nat)
    requires Run(content, es, ss) && EachOnce(es) && i < n < |ss| && es[i].Arrival?
    ensures Only(ss[n].client.queue, es[i].tidx, Arrivals(es, i + 1, n))
    decreases n
  {
    var c, e := ss[n - 1].client, es[n - 1];
    assert StepAt(content, es, ss, n - 1);
    QueueWithin(content, es, ss, n - 1);
    if i < n - 1 {
      PlaceInQueue(content, es, ss, i, n - 1);
    }
    if e.Arrival? {
      ArrivesOnce(content, es, ss, n - 1);
      OtherIndex(es, i, n - 1);
      ArrivalShiftsOnly(c, e.tidx, content(e.tidx), es[i].tidx, if i < n - 1 then Arrivals(es, i + 1, n - 1) else 0);
    }
  }

  lemma {:induction false} ArrivalsGrow(es: seq<Event>, i: nat, j: nat, n: nat)
    requires i <= j <= n <= |es|
    ensures Arrivals(es, i, j) <= Arrivals(es, i, n)
    decreases n
  {
    if j < n {
      ArrivalsGrow(es, i, j, n - 1);
    }
  }

  lemma {:induction false} FirstStays(es: seq<Event>, j: nat, n: nat)
    requires j <= n <= |es| && FirstArrival(es, j) > 0
    ensures FirstArrival(es, n) == FirstArrival(es, j)
    decreases n
  {
    if j < n {
      FirstStays(es, j, n - 1);
    }
  }

  /** A buffer that 100 arrivals pushed out while an earlier index was missing is never handed on. */
  lemma {:induction false} PushedOutIsLost(content: Content, es: seq<Event>, ss: seq<System>, i: nat, j: nat, n: nat)
    requires Run(content, es, ss) && EachOnce(es) && i < j < n <= |es| && FirstArrival(es, j) > 0
    requires es[i].Arrival? && es[j].Arrival? && FirstArrival(es, j) <= es[j].tidx < es[i].tidx
    requires Arrivals(es, i + 1, j + 1) >= QUEUE_SIZE
    ensures ss[n].client.last < es[i].tidx
    decreases n
  {
    if n - 1 > j {
      PushedOutIsLost(content, es, ss, i, j, n - 1);
    } else {
      NotHandedOnYet(content, es, ss, j, es[j].tidx);
    }
    FirstStays(es, j, n - 1);
    ArrivalsGrow(es, i + 1, j + 1, n);
    StaysLost(content, es, ss, i, n);
  }

  lemma NotHandedOnYet(content: Content, es: seq<Event>, ss: seq<System>, n: nat, u: nat)
    requires Run(content, es, ss) && EachOnce(es) && n < |es| && 0 < FirstArrival(es, n) <= u && es[n] == Arrival(u)
    ensures ss[n].client.last < u
  {
    assert !Repeats(es, n);
    if ss[n].client.last >= u {
      HandedOnArrived(content, es, ss, n, u);
    }
  }

  lemma StaysLost(content: Content, es: seq<Event>, ss: seq<System>, i: nat, n: nat)
    requires Run(content, es, ss) && EachOnce(es) && i < n < |ss| && es[i].Arrival? && FirstArrival(es, n - 1) > 0
    requires ss[n - 1].client.last < es[i].tidx && Arrivals(es, i + 1, n) >= QUEUE_SIZE
    ensures ss[n].client.last < es[i].tidx
  {
    QueueWithin(content, es, ss, n);
    LastGrows(content, es, ss, n - 1);
    PlaceInQueue(content, es, ss, i, n);
    assert !Known(ss[n].client.queue, es[i].tidx);
  }

  lemma LostExceedsReach(content: Content, es: seq<Event>, ss: seq<System>, first: nat, i: nat, j: nat)
    requires Run(content, es, ss) && EachOnce(es) && i < j < |es| && FirstArrival(es, |es|) == first
    requires es[i].Arrival? && es[j].Arrival? && first <= es[j].tidx < es[i].tidx
    requires Arrivals(es, i + 1, j + 1) >= QUEUE_SIZE
    ensures ss[|es|].client.last < es[i].tidx
  {
    EarlierArrived(es, i, j, es[i].tidx);
    FirstArrivalPositive(content, es, ss, j);
    FirstStays(es, j, |es|);
    PushedOutIsLost(content, es, ss, i, j, |es|);
  }

  /** If nothing arrives twice, all are handed on exactly if no buffer waits longer than the queue reaches. */
  lemma DeliveredExactlyWithin(content: Content, es: seq<Event>, ss: seq<System>, first: nat, m: nat)
    requires Run(content, es, ss) && EachOnce(es)
    requires m >= 1 && Arrived(es, |es|) == Range(first, m) && FirstArrival(es, |es|) == first
    ensures ss[|es|].client.last == first + m - 1 <==> Within(es)
  {
    if Within(es) {
      LongRunsAreDelivered(content, es, ss, first, m);
    } else {
      var i, j :| Waits(es, i, j) && Arrivals(es, i + 1, j + 1) >= QUEUE_SIZE;
      EarlierArrived(es, j, |es|, es[j].tidx);
      EarlierArrived(es, i, |es|, es[i].tidx);
      LostExceedsReach(content, es, ss, first, i, j);
    }
  }

  // ----- The code

  class Connection {
    var packets: seq<Entry>
    var tidx: nat
    const rb: Buffer

    ghost predicate Valid()
      reads this, rb, rb.slots
    {
      rb.Valid()
    }

    ghost function View(): Client
      reads this, rb, rb.slots
      requires Valid()
    {
      Client(packets, tidx, rb.View())
    }

    constructor ()
      ensures Valid() && View() == Client([], 0, Ring([], 0)) && fresh(rb) && fresh(rb.slots)
    {
      packets, tidx := [], 0;
      rb := new Buffer();
    }

    method TcpSent(t: nat) returns (sent: bool)
      ensures sent == Known(packets, t)
    {
      for i := 0 to |packets|
        invariant forall k :: 0 <= k < i ==> packets[k].tidx != t
      {
        if packets[i].tidx == t {
          return true;
        }
      }
      return false;
    }

    method FindDue() returns (i: nat)
      ensures i == FirstDue(packets, tidx)
    {
      i := 0;
      while i < |packets| && !Due(packets[i], tidx)
        invariant i <= |packets|
        invariant forall k :: 0 <= k < i ==> !Due(packets[k], tidx)
      {
        i := i + 1;
      }
    }

    /** Marks the entry at position `i` as dispatched and hands it to the socket's slot list. */
    method HandOn(i: nat)
      requires Valid() && i < |packets|
      modifies this, rb, rb.slots
      ensures Valid()
      ensures packets == Mark(old(packets), i) && tidx == old(packets[i].tidx)
      ensures rb.View() == Append(old(rb.View()), old(packets[i].buf))
      ensures forall s :: s in rb.slots ==> s in old(rb.slots) || fresh(s)
    {
      tidx := packets[i].tidx;
      packets := packets[i := packets[i].(dispatched := true)];
      rb.SendAppend(packets[i].buf);
    }

    /** Looks for the entry that is due, hands it on and starts over. */
    method TcpDispatch()
      requires Valid()
      modifies this, rb, rb.slots
      ensures Valid()
      ensures packets == Dispatch(old(packets), old(tidx)).0
      ensures tidx == Dispatch(old(packets), old(tidx)).1
      ensures rb.View() == AppendAll(old(rb.View()), Dispatch(old(packets), old(tidx)).2)
      ensures forall s :: s in rb.slots ==> s in old(rb.slots) || fresh(s)
      decreases Undispatched(packets)
    {
      var i := FindDue();
      if i < |packets| {
        MarkReduces(packets, i);
        DispatchOne(packets, tidx, rb.View(), i);
        ghost var slots := rb.slots;
        HandOn(i);
        assert forall k :: 0 <= k < |rb.slots| ==> rb.slots[k] in slots || fresh(rb.slots[k]);
        TcpDispatch();
      }
    }

    /** A buffer arrives; one whose index is already in the queue is dropped. */
    method TcpSend(buf: seq<byte>, t: nat)
      requires Valid()
      modifies this, rb, rb.slots
      ensures Valid() && View() == Arrive(old(View()), t, buf)
    {
      var sent := TcpSent(t);
      if sent {
        return;
      }
      ghost var q := Enqueue(packets, Entry(buf, t, false));
      if |packets| >= QUEUE_SIZE {
        packets := packets[..|packets| - 1];
      }
      packets := [Entry(buf, t, false)] + packets;
      assert packets == q;
      TcpDispatch();
    }

    /** The socket becomes writable and takes `k` of the bytes offered to it. */
    method AsyncWrite(k: nat) returns (bytes: seq<byte>)
      requires Valid() && k <= |Offered(rb.View())|
      modifies this, rb, rb.slots
      ensures Valid()
      ensures bytes == Offered(old(rb.View()))[..k]
      ensures View() == if k == 0 then old(View()) else old(View()).(ring := Skip(old(rb.View()), k))
    {
      var next := rb.SendNext();
      bytes := next[..k];
      if k > 0 {
        rb.SendSkip(k);
      }
    }
  }
}
