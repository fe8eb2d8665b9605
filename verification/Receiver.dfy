/** The receiving side of a file transfer: reassembly, acknowledgement, storing and joining of parts
    (`payload_recv` in src/payload/payload.c). */
module Receiver {
  import opened Common
  import opened Packets
  import opened Reassembly
  import opened PartNames
  import opened PartFiles

  /** A group handed to the read callback of its command. */
  datatype Delivery = Delivery(gidx: nat, data: seq<byte>)

  /** A file completed by `filejoin`: its task index and its content. */
  datatype Completion = Completion(tidx: nat, content: seq<byte>)

  /** The receiver, with a record of the packets it has taken in, the groups it has delivered and the
      files it has completed. */
  datatype State = State(
    cache: seq<Cache>, dir: Dir,
    passed: set<Packet>, delivered: seq<Delivery>, completed: seq<Completion>)

  /** Circumstances of an arrival that the code does not control: contents of fresh memory, whether the
      read callback succeeds, and the order in which the directory is listed. */
  datatype Chance = Chance(junk: Junk, readOk: bool, entries: seq<string>)

  function PartOf(p: Packet): Part {
    Part(p.meta.src.host, p.meta.src.port, p.meta.tidx, p.gidx, p.pidx, p.meta.parts)
  }

  function RemoveAt<T>(s: seq<T>, i: nat): seq<T>
    requires i < |s|
  {
    s[..i] + s[i + 1..]
  }

  function Complete(done: seq<Completion>, tidx: nat, j: Joined): seq<Completion> {
    if j.Finalized? then done + [Completion(tidx, j.content)] else done
  }

  /** The read callback gets a complete group: files are stored and joined, other commands leave the
      directory alone. */
  function Read(r: State, p: Packet, data: seq<byte>, entries: seq<string>): State
    requires PartOf(p).InRange()
  {
    var (dir, joined) :=
      if p.meta.command == FILE then FileRead(r.dir, PartOf(p), data, entries) else (r.dir, Incomplete);
    r.(dir := dir,
       delivered := r.delivered + [Delivery(p.gidx, data)],
       completed := Complete(r.completed, p.meta.tidx, joined))
  }

  /** One packet arrives. */
  function Receive(r: State, p: Packet, c: Chance): State
    requires PartOf(p).InRange()
  {
    var (cache, available) := Recv(r.cache, p, c.junk);
    var r1 := r.(cache := cache, passed := r.passed + {p});
    if available.None? then r1 else
    var i := available.value;
    Read(r1, p, cache[i].data, c.entries).(cache := if c.readOk then RemoveAt(cache, i) else cache)
  }

  // ----- The code

  class Peer {
    const rb: RecvBuffer
    const parts: PartsDir
    ghost var passed: set<Packet>
    ghost var delivered: seq<Delivery>
    ghost var completed: seq<Completion>

    ghost function View(): State
      reads this, rb, parts
    {
      State(rb.cache, parts.files, passed, delivered, completed)
    }

    constructor ()
      ensures View() == State([], map[], {}, [], []) && fresh(rb) && fresh(parts)
    {
      rb := new RecvBuffer();
      parts := new PartsDir();
      passed, delivered, completed := {}, [], [];
    }

    /** Takes in a packet; `ack` is the key of the packet the reply acknowledges. */
    method PayloadRecv(p: Packet, junk: Junk, readOk: bool, before: seq<string>, after: seq<string>)
      returns (ack: Option<(nat, nat)>)
      requires PartOf(p).InRange()
      requires Enumerates(before, parts.files.Keys)
      requires Enumerates(after, parts.files.Keys + {PartName(PartOf(p))})
      modifies this, rb, parts
      ensures View() == Receive(old(View()), p, Chance(junk, readOk, after))
      ensures ack == if p.meta.command == ACK then None else Some((p.meta.tidx, p.pidx))
    {
      var available := rb.PacketRecv(p, junk);
      passed := passed + {p};
      ack := if p.meta.command == ACK then None else Some((p.meta.tidx, p.pidx));
      if available.None? {
        return;
      }
      var i := available.value;
      var data := rb.cache[i].data;
      var joined := Incomplete;
      if p.meta.command == FILE {
        joined := parts.Read(PartOf(p), data, before, after);
      }
      delivered := delivered + [Delivery(p.gidx, data)];
      completed := Complete(completed, p.meta.tidx, joined);
      if readOk {
        rb.cache := rb.cache[..i] + rb.cache[i + 1..];
      }
    }
  }
}
