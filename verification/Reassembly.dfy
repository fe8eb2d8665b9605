/** Group reassembly at the receiver (src/payload/payload.c). */
module Reassembly {
  import opened Common
  import opened Packets

  /** `struct cache_s`: the packets of one group received so far. */
  datatype Cache = Cache(
    group: nat, dst: Address, total: nat, all: seq<Packet>, received: seq<nat>, data: seq<byte>)

  /** What `realloc` leaves in memory it has just handed out, by byte position. */
  type Junk = nat -> byte

  function Grow(data: seq<byte>, n: nat, junk: Junk): (r: seq<byte>)
    ensures |r| == if |data| < n then n else |data|
  {
    if |data| < n then data + seq(n - |data|, i requires 0 <= i => junk(|data| + i)) else data
  }

  /** Copies the payload to its offset, enlarging the buffer when it is too short. */
  function Place(data: seq<byte>, p: Packet, junk: Junk): seq<byte> {
    var d := Grow(data, p.End(), junk);
    d[..p.offset] + p.payload + d[p.End()..]
  }

  function Assemble(ps: seq<Packet>, data: seq<byte>, junk: Junk): seq<byte> {
    if ps == [] then data else Place(Assemble(ps[..|ps| - 1], data, junk), ps[|ps| - 1], junk)
  }

  function FindCache(cs: seq<Cache>, group: nat, dst: Address): (i: nat)
    ensures i <= |cs|
    ensures i < |cs| ==> cs[i].group == group && cs[i].dst == dst
    ensures forall k :: 0 <= k < i ==> !(cs[k].group == group && cs[k].dst == dst)
  {
    if cs == [] then 0
    else if cs[0].group == group && cs[0].dst == dst then 0
    else 1 + FindCache(cs[1..], group, dst)
  }

  /** The cache list after looking up, or else creating, the cache that `p` belongs to. */
  function Opened(cs: seq<Cache>, p: Packet): seq<Cache> {
    if FindCache(cs, p.gidx, p.meta.dst) < |cs| then cs
    else cs + [Cache(p.gidx, p.meta.dst, p.chunks, [], [], [])]
  }

  /** The cache list after packet `p`, and the position of the cache it completed, if any. */
  function Recv(cs: seq<Cache>, p: Packet, junk: Junk): (r: (seq<Cache>, Option<nat>))
    ensures r.1.Some? ==> r.1.value < |r.0|
  {
    var i := FindCache(cs, p.gidx, p.meta.dst);
    var cs1 := Opened(cs, p);
    var c := cs1[i];
    if p.pidx in c.received then (cs1, None) else
    var c1 := c.(all := c.all + [p], received := c.received + [p.pidx]);
    if |c1.received| != c1.total then (cs1[i := c1], None)
    else (cs1[i := c1.(all := [], data := Assemble(c1.all, c1.data, junk))], Some(i))
  }

  // ----- Every completed group holds exactly the bytes that were sent

  /** The range of `q` is inside `data`, which agrees with `buffer` there. */
  ghost predicate Agrees(data: seq<byte>, q: Packet, buffer: seq<byte>) {
    q.End() <= |data| <= |buffer| && data[q.offset..q.End()] == buffer[q.offset..q.End()]
  }

  /** The ranges of all packets in `ps` are inside `data`, which agrees with `buffer` there. */
  ghost predicate Covered(data: seq<byte>, ps: seq<Packet>, buffer: seq<byte>) {
    |data| <= |buffer| && forall i :: 0 <= i < |ps| ==> Agrees(data, ps[i], buffer)
  }

  lemma PlaceAgrees(data: seq<byte>, p: Packet, q: Packet, buffer: seq<byte>, junk: Junk)
    requires SliceOf(p, buffer) && Agrees(data, q, buffer)
    ensures Agrees(Place(data, p, junk), q, buffer)
  {
    var d := Place(data, p, junk);
    forall x | q.offset <= x < q.End() ensures d[x] == buffer[x] {
      assert data[x] == data[q.offset..q.End()][x - q.offset];
      assert buffer[x] == buffer[q.offset..q.End()][x - q.offset];
      if p.offset <= x < p.End() {
        assert d[x] == p.payload[x - p.offset];
      } else {
        assert d[x] == Grow(data, p.End(), junk)[x];
      }
    }
  }

  lemma PlacedAgrees(data: seq<byte>, p: Packet, buffer: seq<byte>, junk: Junk)
    requires SliceOf(p, buffer) && |data| <= |buffer|
    ensures Agrees(Place(data, p, junk), p, buffer)
  {
    assert Place(data, p, junk)[p.offset..p.End()] == p.payload;
  }

  lemma {:induction false} AssembleCovers(ps: seq<Packet>, buffer: seq<byte>, junk: Junk)
    requires forall i :: 0 <= i < |ps| ==> SliceOf(ps[i], buffer)
    ensures Covered(Assemble(ps, [], junk), ps, buffer)
  {
    if ps != [] {
      var n := |ps| - 1;
      AssembleCovers(ps[..n], buffer, junk);
      PlaceCovers(Assemble(ps[..n], [], junk), ps, buffer, junk);
    }
  }

  lemma PlaceCovers(data: seq<byte>, ps: seq<Packet>, buffer: seq<byte>, junk: Junk)
    requires ps != [] && SliceOf(ps[|ps| - 1], buffer) && Covered(data, ps[..|ps| - 1], buffer)
    ensures Covered(Place(data, ps[|ps| - 1], junk), ps, buffer)
  {
    var p, before := ps[|ps| - 1], ps[..|ps| - 1];
    PlacedAgrees(data, p, buffer, junk);
    forall i | 0 <= i < |before| ensures Agrees(Place(data, p, junk), ps[i], buffer) {
      assert before[i] == ps[i] && Agrees(data, before[i], buffer);
      PlaceAgrees(data, p, ps[i], buffer, junk);
    }
  }

  /** Any arrangement of as many distinct packets of a group as it has chunks assembles to its buffer,
      whatever the fresh memory contained. */
  lemma AssembleWhole(ps: seq<Packet>, junk: Junk, meta: Meta, buffer: seq<byte>, pidx: nat, gidx: nat)
    requires |buffer| < INT_LIMIT
    requires forall k :: 0 <= k < |ps| ==> InGroup(ps[k], meta, buffer, pidx, gidx)
    requires forall i, j :: 0 <= i < j < |ps| ==> ps[i].pidx != ps[j].pidx
    requires |ps| == NumChunks(|buffer|)
    ensures Assemble(ps, [], junk) == buffer
  {
    var order: seq<nat> := seq(|ps|, k requires 0 <= k < |ps| => ps[k].offset / UDP_PACKET_PAYLOAD);
    AllPositions(ps, order, meta, buffer, pidx, gidx);
    AssembleCovers(ps, buffer, junk);
    var data := Assemble(ps, [], junk);
    forall x: nat | x < |buffer| ensures SameAt(data, buffer, x) {
      ChunksCover(meta, buffer, pidx, gidx, x);
      assert x / UDP_PACKET_PAYLOAD in order;
      var k :| 0 <= k < |order| && order[k] == x / UDP_PACKET_PAYLOAD;
      CoveredByte(data, ps, buffer, k, x);
    }
    SameBytes(data, buffer);
  }

  ghost predicate SameAt(a: seq<byte>, b: seq<byte>, x: nat) {
    x < |a| && x < |b| && a[x] == b[x]
  }

  lemma SameBytes(a: seq<byte>, b: seq<byte>)
    requires |a| <= |b|
    requires forall x: nat :: x < |b| ==> SameAt(a, b, x)
    ensures a == b
  {
    if b != [] {
      assert SameAt(a, b, |b| - 1);
    }
    forall x | 0 <= x < |b| ensures a[x] == b[x] {
      assert SameAt(a, b, x);
    }
  }

  lemma AllPositions(ps: seq<Packet>, order: seq<nat>, meta: Meta, buffer: seq<byte>, pidx: nat, gidx: nat)
    requires |ps| == |order| == NumChunks(|buffer|)
    requires forall k :: 0 <= k < |ps| ==>
      InGroup(ps[k], meta, buffer, pidx, gidx) && order[k] == ps[k].offset / UDP_PACKET_PAYLOAD
    requires forall i, j :: 0 <= i < j < |ps| ==> ps[i].pidx != ps[j].pidx
    ensures forall k: nat :: k < NumChunks(|buffer|) ==> k in order
    ensures forall i :: 0 <= i < |ps| ==> SliceOf(ps[i], buffer)
  {
    forall i, j | 0 <= i < j < |order| ensures order[i] != order[j] {
      assert ps[i].pidx != ps[j].pidx;
    }
    Pigeonhole(order, NumChunks(|buffer|));
  }

  lemma CoveredByte(data: seq<byte>, ps: seq<Packet>, buffer: seq<byte>, k: nat, x: nat)
    requires Covered(data, ps, buffer) && k < |ps|
    requires ps[k].offset <= x < ps[k].End()
    ensures x < |data| && data[x] == buffer[x]
  {
    var p := ps[k];
    assert Agrees(data, p, buffer);
    assert data[x] == data[p.offset..p.End()][x - p.offset];
    assert buffer[x] == buffer[p.offset..p.End()][x - p.offset];
  }

  // ----- The code

  /** `struct recv_buffer_s`. */
  class RecvBuffer {
    var cache: seq<Cache>

    constructor ()
      ensures cache == []
    {
      cache := [];
    }

    method FindOrAdd(p: Packet) returns (i: nat)
      modifies this
      ensures cache == Opened(old(cache), p)
      ensures i == FindCache(old(cache), p.gidx, p.meta.dst) && i < |cache|
    {
      i := 0;
      while i < |cache| && !(cache[i].group == p.gidx && cache[i].dst == p.meta.dst)
        invariant i <= |cache|
        invariant forall k :: 0 <= k < i ==> !(cache[k].group == p.gidx && cache[k].dst == p.meta.dst)
      {
        i := i + 1;
      }
      if i == |cache| {
        cache := cache + [Cache(p.gidx, p.meta.dst, p.chunks, [], [], [])];
      }
    }

    method IsReceived(c: Cache, pidx: nat) returns (known: bool)
      ensures known <==> pidx in c.received
    {
      for k := 0 to |c.received|
        invariant pidx !in c.received[..k]
      {
        if c.received[k] == pidx {
          return true;
        }
      }
      return false;
    }

    method AssembleAll(c: Cache, junk: Junk) returns (data: seq<byte>)
      ensures data == Assemble(c.all, c.data, junk)
    {
      data := c.data;
      for k := 0 to |c.all|
        invariant data == Assemble(c.all[..k], c.data, junk)
      {
        assert c.all[..k + 1][..k] == c.all[..k];
        data := Place(data, c.all[k], junk);
      }
      assert c.all[..|c.all|] == c.all;
    }

    /** Stores a packet; the result is the position of the cache that became complete. */
    method PacketRecv(p: Packet, junk: Junk) returns (available: Option<nat>)
      modifies this
      ensures (cache, available) == Recv(old(cache), p, junk)
    {
      var i := FindOrAdd(p);
      ghost var base := Opened(old(cache), p);
      var c := cache[i];
      var known := IsReceived(c, p.pidx);
      if known {
        return None;
      }
      c := c.(all := c.all + [p], received := c.received + [p.pidx]);
      cache := cache[i := c];
      if |c.received| != c.total {
        return None;
      }
      var data := AssembleAll(c, junk);
      c := c.(all := [], data := data);
      cache := cache[i := c];
      assert cache == base[i := c];
      available := Some(i);
    }
  }
}
