/** The slot list from which a socket is fed (src/tcp/src/ringbuffer.c, `async_write` in
    src/tcp/src/async_client.c). */
module RingBuffer {
  import opened Common

  /** The buffers waiting to be written, and how much of the first one has been. */
  datatype Ring = Ring(slots: seq<seq<byte>>, sent: nat) {

    predicate Ok() { if slots == [] then sent == 0 else sent <= |slots[0]| }

    /** The bytes still to be written. */
    function Pending(): seq<byte>
      requires Ok()
    {
      if slots == [] then [] else slots[0][sent..] + Concat(slots[1..])
    }
  }

  function Append(r: Ring, buf: seq<byte>): Ring {
    r.(slots := r.slots + [buf])
  }

  /** The bytes offered to the socket: the rest of the first slot. */
  function Offered(r: Ring): seq<byte>
    requires r.Ok()
  {
    if r.slots == [] then [] else r.slots[0][r.sent..]
  }

  /** `k` of the offered bytes were written; a slot written completely is dropped. */
  function Skip(r: Ring, k: nat): Ring
    requires r.Ok() && r.slots != [] && k <= |Offered(r)|
  {
    if r.sent + k == |r.slots[0]| then Ring(r.slots[1..], 0) else r.(sent := r.sent + k)
  }

  lemma AppendPending(r: Ring, buf: seq<byte>)
    requires r.Ok()
    ensures Append(r, buf).Ok() && Append(r, buf).Pending() == r.Pending() + buf
  {
    if r.slots == [] {
      assert (r.slots + [buf])[1..] == [];
    } else {
      var rest := r.slots[1..];
      assert (r.slots + [buf])[1..] == rest + [buf];
      assert (rest + [buf])[..|rest|] == rest;
    }
  }

  /** What is offered comes next, and skipping it takes exactly that much off the front. */
  lemma SkipPending(r: Ring, k: nat)
    requires r.Ok() && r.slots != [] && k <= |Offered(r)|
    ensures Skip(r, k).Ok() && r.Pending() == Offered(r)[..k] + Skip(r, k).Pending()
  {
    if r.sent + k == |r.slots[0]| {
      WholeSlice(Offered(r));
      FreshPending(r.slots[1..]);
    } else {
      SplitTail(r.slots[0], r.sent, k, Concat(r.slots[1..]));
    }
  }

  lemma WholeSlice(s: seq<byte>)
    ensures s[..|s|] == s
  {
  }

  lemma SplitTail(s: seq<byte>, i: nat, k: nat, c: seq<byte>)
    requires i + k <= |s|
    ensures s[i..] + c == s[i..][..k] + (s[i + k..] + c)
  {
    var tail := s[i..];
    assert tail[k..] == s[i + k..];
    Split(tail, k);
    Associative(tail[..k], tail[k..], c);
  }

  lemma FreshPending(slots: seq<seq<byte>>)
    ensures Ring(slots, 0).Pending() == Concat(slots)
  {
    if slots != [] {
      assert slots == [slots[0]] + slots[1..];
      ConcatCons(slots[0], slots[1..]);
    }
  }

  // ----- The code

  class Slot {
    const buf: seq<byte>
    var sent: nat
    var next: Slot?

    constructor (buf: seq<byte>)
      ensures this.buf == buf && sent == 0 && next == null
    {
      this.buf := buf;
      sent, next := 0, null;
    }
  }

  class Buffer {
    var send: Slot?
    var tail: Slot?
    ghost var slots: seq<Slot>

    ghost predicate Valid()
      reads this, slots
    {
      && (forall i, j :: 0 <= i < j < |slots| ==> slots[i] != slots[j])
      && (slots == [] ==> send == null && tail == null)
      && (slots != [] ==>
            && send == slots[0] && slots[0].sent <= |slots[0].buf|
            && tail == slots[|slots| - 1] && slots[|slots| - 1].next == null)
      && (forall i {:trigger slots[i].next} :: 0 <= i < |slots| - 1 ==> slots[i].next == slots[i + 1])
      && (forall i :: 0 < i < |slots| ==> slots[i].sent == 0)
    }

    ghost function View(): (r: Ring)
      reads this, slots
      requires Valid()
      ensures r.Ok() && |r.slots| == |slots|
      ensures forall i :: 0 <= i < |slots| ==> r.slots[i] == slots[i].buf
    {
      Ring(seq(|slots|, i requires 0 <= i < |slots| reads this => slots[i].buf),
           if slots == [] then 0 else slots[0].sent)
    }

    constructor ()
      ensures Valid() && View() == Ring([], 0) && slots == []
    {
      send, tail, slots := null, null, [];
    }

    method SendNext() returns (bytes: seq<byte>)
      requires Valid()
      ensures bytes == Offered(View())
    {
      if send == null {
        return [];
      }
      bytes := send.buf[send.sent..];
    }

    method SendSkip(k: nat)
      requires Valid() && slots != [] && k <= |Offered(View())|
      modifies this, slots
      ensures Valid() && View() == Skip(old(View()), k)
      ensures forall s :: s in slots ==> s in old(slots)
    {
      send.sent := send.sent + k;
      if send.sent == |send.buf| {
        send := send.next;
        slots := slots[1..];
        if send == null {
          tail := null;
        }
      }
    }

    method SendAppend(buf: seq<byte>)
      requires Valid()
      modifies this, slots
      ensures Valid() && View() == Append(old(View()), buf)
      ensures forall s :: s in slots ==> s in old(slots) || fresh(s)
    {
      var slot := new Slot(buf);
      if send == null && tail == null {
        send, tail := slot, slot;
      } else {
        tail.next := slot;
        tail := slot;
      }
      slots := slots + [slot];
    }
  }
}
