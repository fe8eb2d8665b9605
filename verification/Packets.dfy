/** Cutting a message into UDP packets (src/packet.c). */
module Packets {
  import opened Common

  /** 534 bytes minus the 136 bytes of `struct header_s` and the 64 of the hex digest. */
  const UDP_PACKET_PAYLOAD: nat := 334

  datatype Command = ACK | FILE | MESSAGE

  datatype Address = Address(host: nat, port: nat)

  /** The header fields that all packets of one group share. */
  datatype Meta = Meta(command: Command, tidx: nat, parts: nat, src: Address, dst: Address)

  datatype Packet = Packet(
    pidx: nat, gidx: nat, offset: nat, chunks: nat, meta: Meta, payload: seq<byte>)
  {
    function End(): nat { offset + |payload| }
  }

  function NumChunks(n: nat): nat {
    n / UDP_PACKET_PAYLOAD + if n % UDP_PACKET_PAYLOAD > 0 then 1 else 0
  }

  /** The `i`-th packet of a group: the bytes of `buffer` from `i * UDP_PACKET_PAYLOAD` on. */
  function PacketAt(meta: Meta, buffer: seq<byte>, pidx: nat, gidx: nat, i: nat): Packet
    requires i < NumChunks(|buffer|)
  {
    var offset := i * UDP_PACKET_PAYLOAD;
    Packet((pidx + i) % UINT_MOD, gidx, offset, NumChunks(|buffer|), meta,
           buffer[offset..Min(offset + UDP_PACKET_PAYLOAD, |buffer|)])
  }

  function GroupPackets(meta: Meta, buffer: seq<byte>, pidx: nat, gidx: nat): (ps: seq<Packet>)
    ensures |ps| == NumChunks(|buffer|)
  {
    seq(NumChunks(|buffer|), i requires 0 <= i < NumChunks(|buffer|) => PacketAt(meta, buffer, pidx, gidx, i))
  }

  /** `p` is one of the packets of the group. */
  ghost predicate InGroup(p: Packet, meta: Meta, buffer: seq<byte>, pidx: nat, gidx: nat) {
    var i := p.offset / UDP_PACKET_PAYLOAD;
    i < NumChunks(|buffer|) && p == PacketAt(meta, buffer, pidx, gidx, i)
  }

  /** `p` carries the bytes that `buffer` holds at the packet's offset. */
  ghost predicate SliceOf(p: Packet, buffer: seq<byte>) {
    p.End() <= |buffer| && p.payload == buffer[p.offset..p.End()]
  }

  /** Every byte position of `buffer` lies in one packet, and that packet holds the byte. */
  lemma ChunksCover(meta: Meta, buffer: seq<byte>, pidx: nat, gidx: nat, x: nat)
    requires x < |buffer|
    ensures var i := x / UDP_PACKET_PAYLOAD;
            i < NumChunks(|buffer|) &&
            var p := PacketAt(meta, buffer, pidx, gidx, i);
            p.offset <= x < p.End() && p.payload[x - p.offset] == buffer[x]
  {
  }

  /** The packets of one group occupy disjoint, non-empty ranges of the buffer and bear distinct indices,
      also when the packet counter wraps around inside the group. */
  lemma ChunksDisjoint(meta: Meta, buffer: seq<byte>, pidx: nat, gidx: nat, i: nat, j: nat)
    requires |buffer| < INT_LIMIT
    requires i < j < NumChunks(|buffer|)
    ensures var p, q := PacketAt(meta, buffer, pidx, gidx, i), PacketAt(meta, buffer, pidx, gidx, j);
            && p.offset < p.End() <= q.offset < q.End()
            && p.pidx != q.pidx
            && SliceOf(p, buffer) && SliceOf(q, buffer)
  {
  }

  lemma GroupPacketsAreInGroup(meta: Meta, buffer: seq<byte>, pidx: nat, gidx: nat, p: Packet)
    ensures p in GroupPackets(meta, buffer, pidx, gidx) <==> InGroup(p, meta, buffer, pidx, gidx)
  {
    var ps := GroupPackets(meta, buffer, pidx, gidx);
    if p in ps {
      var i :| 0 <= i < |ps| && ps[i] == p;
      assert p.offset / UDP_PACKET_PAYLOAD == i;
    }
    if InGroup(p, meta, buffer, pidx, gidx) {
      assert ps[p.offset / UDP_PACKET_PAYLOAD] == p;
    }
  }

  /** The index counters of `struct send_buffer_s`. */
  class SendBuffer {
    var pidx: nat
    var gidx: nat

    constructor ()
      ensures pidx == 0 && gidx == 0
    {
      pidx, gidx := 0, 0;
    }

    /** Cuts `buffer` into packets, drawing one packet index for each. */
    method Chunk(meta: Meta, buffer: seq<byte>, group: nat) returns (packets: seq<Packet>)
      requires |buffer| < INT_LIMIT && pidx < UINT_MOD
      modifies this`pidx
      ensures packets == GroupPackets(meta, buffer, old(pidx), group)
      ensures pidx == (old(pidx) + |packets|) % UINT_MOD
    {
      var chunks := |buffer| / UDP_PACKET_PAYLOAD;
      var remaining := |buffer| % UDP_PACKET_PAYLOAD;
      if remaining > 0 {
        chunks := chunks + 1;
      }
      packets := [];
      for i := 0 to chunks
        invariant |packets| == i
        invariant pidx == (old(pidx) + i) % UINT_MOD
        invariant forall k :: 0 <= k < i ==> packets[k] == PacketAt(meta, buffer, old(pidx), group, k)
      {
        var rm := if i + 1 == chunks && remaining > 0 then remaining else UDP_PACKET_PAYLOAD;
        var offset := i * UDP_PACKET_PAYLOAD;
        packets := packets + [Packet(pidx, group, offset, chunks, meta, buffer[offset..offset + rm])];
        pidx := (pidx + 1) % UINT_MOD;
      }
    }

    /** Draws a group index and chunks the buffer; an empty buffer is refused. */
    method SerializeInit(meta: Meta, buffer: seq<byte>) returns (r: Option<seq<Packet>>)
      requires |buffer| < INT_LIMIT && pidx < UINT_MOD && gidx < UINT_MOD
      modifies this
      ensures buffer == [] ==> r == None && pidx == old(pidx) && gidx == old(gidx)
      ensures buffer != [] ==>
        && r == Some(GroupPackets(meta, buffer, old(pidx), old(gidx)))
        && pidx == (old(pidx) + NumChunks(|buffer|)) % UINT_MOD
        && gidx == (old(gidx) + 1) % UINT_MOD
    {
      if |buffer| < 1 {
        return None;
      }
      var group := gidx;
      gidx := (gidx + 1) % UINT_MOD;
      var packets := Chunk(meta, buffer, group);
      r := Some(packets);
    }
  }
}
