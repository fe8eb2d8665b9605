/** When what a tunnel handed on gets written to the socket: the writer goes on from slot to slot until it comes to an
    empty one, where it stops for good (src/tcp/src/ringbuffer.c, `async_write` in src/tcp/src/async_client.c). */
module Draining {
  import opened Common
  import opened RingBuffer
  import opened Tunnel

  // ----- Slots and buffers

  lemma {:induction false} AppendAllSlots(r: Ring, bufs: seq<seq<byte>>)
    ensures AppendAll(r, bufs) == Ring(r.slots + bufs, r.sent)
    decreases |bufs|
  {
    if bufs == [] {
      EmptyRight(r.slots);
    } else {
      AppendAllSlots(Append(r, bufs[0]), bufs[1..]);
      assert bufs == [bufs[0]] + bufs[1..];
      Associative(r.slots, [bufs[0]], bufs[1..]);
    }
  }

  /** Each is the buffer of its index, from `t` on. */
  ghost predicate Buffers(bufs: seq<seq<byte>>, content: Content, t: nat) {
    forall i :: 0 <= i < |bufs| ==> bufs[i] == content(t + i)
  }

  lemma {:induction false} DispatchBuffers(q: seq<Entry>, last: nat, content: Content)
    requires Genuine(q, content) && last > 0
    ensures var (_, last', out) := Dispatch(q, last);
            last' == last + |out| && Buffers(out, content, last + 1)
    decreases Undispatched(q)
  {
    var i := FirstDue(q, last);
    if i < |q| {
      MarkReduces(q, i);
      DispatchBuffers(Mark(q, i), q[i].tidx, content);
    }
  }

  // ----- The invariant

  function Taken(r: Ring): seq<byte>
    requires r.Ok()
  {
    if r.slots == [] then [] else r.slots[0][..r.sent]
  }

  /** The next slot has something to offer, unless it is empty. */
  predicate Ready(r: Ring) {
    r.Ok() && (r.slots != [] && r.slots[0] != [] ==> r.sent < |r.slots[0]|)
  }

  /** No buffer from `a` up to, but not including, `b` is empty. */
  ghost predicate NoneEmpty(content: Content, a: nat, b: nat) {
    forall t :: a <= t < b ==> content(t) != []
  }

  /** The first `u` buffers handed on are written and none of them is empty; the slots hold the others. */
  ghost predicate Front(content: Content, first: nat, last: nat, r: Ring, written: seq<byte>, u: nat) {
    && last + 1 == first + u + |r.slots| && Buffers(r.slots, content, first + u) && Ready(r)
    && NoneEmpty(content, first, first + u) && written == Stream(content, first, u) + Taken(r)
  }

  /** How many buffers are written completely. */
  function Gone(first: nat, s: System): int {
    s.client.last + 1 - first - |s.client.ring.slots|
  }

  ghost predicate FrontOk(content: Content, first: nat, s: System) {
    Gone(first, s) >= 0 && Front(content, first, s.client.last, s.client.ring, s.written, Gone(first, s))
  }

  lemma BuffersJoin(a: seq<seq<byte>>, b: seq<seq<byte>>, content: Content, t: nat)
    requires Buffers(a, content, t) && Buffers(b, content, t + |a|)
    ensures Buffers(a + b, content, t)
  {
    forall i | 0 <= i < |a + b| ensures (a + b)[i] == content(t + i) {
      if i >= |a| {
        assert b[i - |a|] == content(t + |a| + (i - |a|));
      }
    }
  }

  lemma FirstArrivalFront(content: Content, s: System, tidx: nat)
    requires Inv(content, 0, s) && tidx >= 1
    ensures FrontOk(content, tidx, Next(content, s, Arrival(tidx)))
  {
    var e := Entry(content(tidx), tidx, false);
    var q := [e] + [];
    assert Enqueue([], e) == q;
    assert FirstDue(q, 0) == 0;
    MarkReduces(q, 0);
    DispatchBuffers(Mark(q, 0), tidx, content);
    var out := Dispatch(Mark(q, 0), tidx).2;
    assert Dispatch(q, 0).2 == [e.buf] + out;
    BuffersJoin([e.buf], out, content, tidx);
    AppendAllSlots(Ring([], 0), [e.buf] + out);
    EmptyLeft([e.buf] + out);
    assert Gone(tidx, Next(content, s, Arrival(tidx))) == 0;
  }

  /** An arrival appends slots to the ring, and the last index goes up by their number. */
  lemma ArrivalAppends(c: Client, content: Content, tidx: nat) returns (out: seq<seq<byte>>)
    requires Genuine(c.queue, content) && c.last > 0 && tidx >= 1
    ensures var c' := Arrive(c, tidx, content(tidx));
            c'.last == c.last + |out| && c'.ring == AppendAll(c.ring, out) && Buffers(out, content, c.last + 1)
  {
    if Known(c.queue, tidx) {
      out := [];
    } else {
      var q := Enqueue(c.queue, Entry(content(tidx), tidx, false));
      assert Genuine(q, content);
      DispatchBuffers(q, c.last, content);
      out := Dispatch(q, c.last).2;
    }
  }

  lemma LaterArrivalFront(content: Content, first: nat, s: System, tidx: nat)
    requires Genuine(s.client.queue, content) && s.client.last > 0 && tidx >= 1 && FrontOk(content, first, s)
    ensures FrontOk(content, first, Next(content, s, Arrival(tidx)))
  {
    var c := s.client;
    var out := ArrivalAppends(c, content, tidx);
    MoreSlots(content, first, c.last, c.ring, s.written, Gone(first, s), out);
  }

  lemma MoreSlots(content: Content, first: nat, last: nat, r: Ring, written: seq<byte>, u: nat, out: seq<seq<byte>>)
    requires Front(content, first, last, r, written, u) && Buffers(out, content, last + 1)
    ensures Front(content, first, last + |out|, AppendAll(r, out), written, u)
    ensures |AppendAll(r, out).slots| == |r.slots| + |out|
  {
    AppendAllSlots(r, out);
    BuffersJoin(r.slots, out, content, first + u);
    if r.slots == [] {
      EmptyLeft(out);
      if out != [] {
        assert out[0][..0] == [];
      }
    } else {
      assert (r.slots + out)[0] == r.slots[0];
    }
  }

  lemma WriteFront(content: Content, first: nat, s: System, k: nat)
    requires FrontOk(content, first, s) && Enabled(s, Write(k))
    ensures FrontOk(content, first, Next(content, s, Write(k)))
    ensures k == |Offered(s.client.ring)| ==> Gone(first, Next(content, s, Write(k))) == Gone(first, s) + 1
  {
    var r, u := s.client.ring, Gone(first, s);
    var slot := r.slots[0];
    assert slot == content(first + u + 0);
    Associative(Stream(content, first, u), slot[..r.sent], slot[r.sent..][..k]);
    assert slot[..r.sent] + slot[r.sent..][..k] == slot[..r.sent + k];
    if r.sent + k == |slot| {
      assert slot[..|slot|] == slot;
      EmptyRight(Stream(content, first, u + 1));
      DropFirst(r.slots, content, first + u);
    }
  }

  lemma DropFirst(bufs: seq<seq<byte>>, content: Content, t: nat)
    requires bufs != [] && Buffers(bufs, content, t)
    ensures Buffers(bufs[1..], content, t + 1)
  {
    forall i | 0 <= i < |bufs[1..]| ensures bufs[1..][i] == content(t + 1 + i) {
      assert bufs[i + 1] == content(t + (i + 1));
    }
  }

  lemma {:induction false} RunFront(content: Content, es: seq<Event>, ss: seq<System>, n: nat)
    requires Run(content, es, ss) && n < |ss| && FirstArrival(es, n) > 0
    ensures FrontOk(content, FirstArrival(es, n), ss[n])
  {
    RunKeeps(content, es, ss, n - 1);
    var s, e, first := ss[n - 1], es[n - 1], FirstArrival(es, n - 1);
    assert StepAt(content, es, ss, n - 1);
    if first == 0 {
      FirstArrivalFront(content, s, e.tidx);
    } else {
      RunFront(content, es, ss, n - 1);
      if e.Write? {
        WriteFront(content, first, s, e.k);
      } else {
        LaterArrivalFront(content, first, s, e.tidx);
      }
    }
  }

  // ----- Main results

  lemma {:induction false} StreamPrefix(content: Content, t: nat, m: nat, n: nat)
    requires m <= n
    ensures Stream(content, t, m) <= Stream(content, t, n)
  {
    StreamJoin(content, t, m, n - m);
  }

  /** The buffer `t` was handed on, nothing up to it is empty, and it is not written completely. */
  ghost predicate Writable(content: Content, first: nat, s: System, t: nat) {
    && first <= t <= s.client.last && NoneEmpty(content, first, t + 1)
    && |s.written| < |Stream(content, first, t - first + 1)|
  }

  /** In every run the socket is offered something exactly if a buffer handed on, with no empty one up to it, is not
      yet written. */
  lemma OfferedExactly(content: Content, es: seq<Event>, ss: seq<System>, n: nat)
    requires Run(content, es, ss) && n < |ss| && FirstArrival(es, n) > 0
    ensures (exists k :: Enabled(ss[n], Write(k)))
       <==> exists t: nat :: Writable(content, FirstArrival(es, n), ss[n], t)
  {
    RunFront(content, es, ss, n);
    var s, first := ss[n], FirstArrival(es, n);
    var u, r := Gone(first, s), s.client.ring;
    if k :| Enabled(s, Write(k)) {
      assert r.slots[0] == content(first + u + 0);
      assert Writable(content, first, s, first + u);
    }
    if t: nat :| Writable(content, first, s, t) {
      if u >= t - first + 1 {
        StreamPrefix(content, first, t - first + 1, u);
        assert false;
      }
      assert r.slots[0] == content(first + u + 0);
      assert Enabled(s, Write(1));
    }
  }

  lemma StopsAtEmpty(content: Content, first: nat, last: nat, r: Ring, written: seq<byte>, u: nat, t: nat)
    requires Front(content, first, last, r, written, u) && first <= t <= last && content(t) == []
    ensures written <= Stream(content, first, t - first)
  {
    assert first + u <= t;
    assert r.slots[0] == content(first + u + 0);
    if first + u == t {
      EmptyRight(Stream(content, first, u));
    } else {
      StreamPrefix(content, first, u + 1, t - first);
      assert r.slots[0][..r.sent] <= r.slots[0];
    }
  }

  /** In every run nothing behind an empty buffer is written, once that was handed on. */
  lemma NothingPassesAnEmptyBuffer(content: Content, es: seq<Event>, ss: seq<System>, n: nat, t: nat)
    requires Run(content, es, ss) && n < |ss| && 0 < FirstArrival(es, n) <= t <= ss[n].client.last
    requires content(t) == []
    ensures ss[n].written <= Stream(content, FirstArrival(es, n), t - FirstArrival(es, n))
  {
    var s, first := ss[n], FirstArrival(es, n);
    RunFront(content, es, ss, n);
    StopsAtEmpty(content, first, s.client.last, s.client.ring, s.written, Gone(first, s), t);
  }

  /** The run goes on in this way. */
  ghost predicate GoesOn(content: Content, es: seq<Event>, ss: seq<System>, es': seq<Event>, ss': seq<System>) {
    Run(content, es', ss') && es <= es' && ss <= ss'
  }

  lemma Extend(content: Content, es: seq<Event>, ss: seq<System>, e: Event)
    requires Run(content, es, ss) && Enabled(ss[|es|], e)
    ensures GoesOn(content, es, ss, es + [e], ss + [Next(content, ss[|es|], e)])
  {
    var es', ss' := es + [e], ss + [Next(content, ss[|es|], e)];
    forall i | 0 <= i < |es'| ensures StepAt(content, es', ss', i) {
      if i < |es| {
        assert StepAt(content, es, ss, i);
      }
    }
  }

  lemma {:induction false} FirstArrivalOf(es: seq<Event>, es': seq<Event>, n: nat)
    requires es <= es' && n <= |es|
    ensures FirstArrival(es', n) == FirstArrival(es, n)
  {
    if n > 0 {
      FirstArrivalOf(es, es', n - 1);
    }
  }

  /** Writing all that is offered, again and again, writes the first `m` buffers. */
  lemma {:induction false} WriteUpTo(content: Content, es: seq<Event>, ss: seq<System>, first: nat, m: nat)
      returns (es': seq<Event>, ss': seq<System>)
    requires Run(content, es, ss) && FirstArrival(es, |es|) == first > 0
    requires first + m <= ss[|es|].client.last + 1 && NoneEmpty(content, first, first + m)
    ensures GoesOn(content, es, ss, es', ss') && Stream(content, first, m) <= ss'[|es'|].written
    decreases m - Gone(first, ss[|es|])
  {
    var s := ss[|es|];
    RunFront(content, es, ss, |es|);
    var u, r := Gone(first, s), s.client.ring;
    if u >= m {
      es', ss' := es, ss;
      StreamPrefix(content, first, m, u);
    } else {
      assert r.slots[0] == content(first + u + 0);
      var e := Write(|Offered(r)|);
      assert Enabled(s, e);
      Extend(content, es, ss, e);
      WriteFront(content, first, s, e.k);
      FirstArrivalOf(es, es + [e], |es|);
      es', ss' := WriteUpTo(content, es + [e], ss + [Next(content, s, e)], first, m);
    }
  }

  /** Among the first `m` buffers is an empty one and, after it, one that is not. */
  ghost predicate Blocked(content: Content, first: nat, m: nat) {
    exists e, f :: first <= e < f < first + m && content(e) == [] && content(f) != []
  }

  /** The run can go on so that these bytes are written. */
  ghost predicate CanBeWritten(content: Content, es: seq<Event>, ss: seq<System>, bytes: seq<byte>) {
    exists es': seq<Event>, ss': seq<System> :: GoesOn(content, es, ss, es', ss') && bytes <= ss'[|es'|].written
  }

  lemma {:induction false} EmptyTail(content: Content, t: nat, m: nat, n: nat)
    requires m <= n && forall i :: t + m <= i < t + n ==> content(i) == []
    ensures Stream(content, t, n) == Stream(content, t, m)
    decreases n
  {
    if m < n {
      EmptyTail(content, t, m, n - 1);
      EmptyRight(Stream(content, t, m));
    }
  }

  /** How many buffers there are before the first empty one, `m` if there is none. */
  ghost function Leading(content: Content, first: nat, m: nat): (n: nat)
    ensures n <= m && NoneEmpty(content, first, first + n) && (n < m ==> content(first + n) == [])
  {
    if m == 0 then 0 else
    var n := Leading(content, first, m - 1);
    if n < m - 1 || content(first + m - 1) == [] then n else m
  }

  lemma UnblockedIsWritten(content: Content, es: seq<Event>, ss: seq<System>, m: nat)
    requires Run(content, es, ss) && FirstArrival(es, |es|) > 0
    requires FirstArrival(es, |es|) + m <= ss[|es|].client.last + 1 && !Blocked(content, FirstArrival(es, |es|), m)
    ensures CanBeWritten(content, es, ss, Stream(content, FirstArrival(es, |es|), m))
  {
    var first := FirstArrival(es, |es|);
    var n := Leading(content, first, m);
    EmptyTail(content, first, n, m);
    var es', ss' := WriteUpTo(content, es, ss, first, n);
  }

  lemma {:induction false} LastStays(content: Content, es: seq<Event>, ss: seq<System>, j: nat, n: nat)
    requires Run(content, es, ss) && j <= n < |ss| && FirstArrival(es, j) > 0
    ensures ss[j].client.last <= ss[n].client.last
    decreases n
  {
    if j < n {
      LastStays(content, es, ss, j, n - 1);
      FirstStays(es, j, n - 1);
      LastGrows(content, es, ss, n - 1);
    }
  }

  lemma GoesOnFrom(content: Content, es: seq<Event>, ss: seq<System>, es': seq<Event>, ss': seq<System>)
    requires Run(content, es, ss) && FirstArrival(es, |es|) > 0 && GoesOn(content, es, ss, es', ss')
    ensures FirstArrival(es', |es'|) == FirstArrival(es, |es|)
    ensures ss[|es|].client.last <= ss'[|es'|].client.last
  {
    FirstArrivalOf(es, es', |es|);
    FirstStays(es', |es|, |es'|);
    LastStays(content, es', ss', |es|, |es'|);
  }

  lemma BlockedIsNotWritten(content: Content, es: seq<Event>, ss: seq<System>, m: nat,
                            es': seq<Event>, ss': seq<System>, e: nat, f: nat)
    requires Run(content, es, ss) && 0 < FirstArrival(es, |es|) <= e < f < FirstArrival(es, |es|) + m
    requires FirstArrival(es, |es|) + m <= ss[|es|].client.last + 1 && content(e) == [] && content(f) != []
    requires GoesOn(content, es, ss, es', ss')
    ensures |ss'[|es'|].written| < |Stream(content, FirstArrival(es, |es|), m)|
  {
    var first := FirstArrival(es, |es|);
    GoesOnFrom(content, es, ss, es', ss');
    NothingPassesAnEmptyBuffer(content, es', ss', |es'|, e);
    Longer(content, first, e - first, f - first, m);
  }

  lemma Longer(content: Content, t: nat, i: nat, j: nat, m: nat)
    requires i <= j < m && content(t + j) != []
    ensures |Stream(content, t, i)| < |Stream(content, t, m)|
  {
    StreamPrefix(content, t, i, j);
    StreamPrefix(content, t, j + 1, m);
    assert |Stream(content, t, j + 1)| == |Stream(content, t, j)| + |content(t + j)|;
  }

  /** In every run, of the buffers handed on the first `m` can all be written exactly if no empty one among them comes
      before one that is not. */
  lemma WrittenExactlyUnblocked(content: Content, es: seq<Event>, ss: seq<System>, m: nat)
    requires Run(content, es, ss) && FirstArrival(es, |es|) > 0
    requires FirstArrival(es, |es|) + m <= ss[|es|].client.last + 1
    ensures CanBeWritten(content, es, ss, Stream(content, FirstArrival(es, |es|), m))
       <==> !Blocked(content, FirstArrival(es, |es|), m)
  {
    var first := FirstArrival(es, |es|);
    if !Blocked(content, first, m) {
      UnblockedIsWritten(content, es, ss, m);
    } else {
      var e, f :| first <= e < f < first + m && content(e) == [] && content(f) != [];
      forall es': seq<Event>, ss': seq<System> | GoesOn(content, es, ss, es', ss')
        ensures |ss'[|es'|].written| < |Stream(content, first, m)|
      {
        BlockedIsNotWritten(content, es, ss, m, es', ss', e, f);
      }
    }
  }
}
