/** Transactions and blocks (src/transaction.c, src/transaction/file_add.c, src/block.c). */
module Blocks {
  import opened Common

  type Hash = string

  datatype Chunk = Chunk(size: nat, part: nat, tag: string, timeiter: string, content: Hash, chunk: Hash)

  /** The digests the code computes, each over a fixed arrangement of fields, the mining target, and what
      an uninitialised digest buffer happens to hold. Nothing is assumed about them. */
  datatype Params = Params(
    blockHash: (Hash, Hash, nat) -> Hash,
    linkHash: (Hash, Hash) -> Hash,
    transactionHash: (int, string, nat, Hash) -> Hash,
    metaHash: (string, nat, string, string) -> Hash,
    chunkHash: (Hash, Chunk) -> Hash,
    fileHash: (Hash, Hash, Hash) -> Hash,
    target: nat,
    stale: Hash)

  const BASE_ROOT_HASH: Hash := "aaaaaaaa" + "aaaaaaaa" + "aaaaaaaa" + "aaaaaaaa"
                              + "aaaaaaaa" + "aaaaaaaa" + "aaaaaaaa" + "aaaaaaaa"

  const VERSION: int := 1
  const TFILE_ADD: nat := 1

  datatype File = File(
    name: string, size: nat, description: string, tags: string, metaHash: Hash,
    chunks: seq<Chunk>, chunksHash: Hash, pubkeyhash: Hash, hash: Hash)

  datatype Transaction = Transaction(
    version: int, timestamp: string, kind: nat, hash: Hash, prev: Hash, current: Hash, add: File)

  datatype Block = Block(prev: Hash, transactions: Hash, nonce: nat, pow: Hash, txs: seq<Transaction>)

  // ----- Transactions

  /** The digest chained over the chunks; a file without chunks leaves the buffer as it was. */
  function HashChunks(P: Params, chunks: seq<Chunk>, buffer: Hash): Hash {
    if chunks == [] then buffer else ChunkFold(P, chunks)
  }

  function ChunkFold(P: Params, chunks: seq<Chunk>): Hash {
    if chunks == [] then "" else P.chunkHash(ChunkFold(P, chunks[..|chunks| - 1]), chunks[|chunks| - 1])
  }

  method ComputeHashChunks(P: Params, chunks: seq<Chunk>, buffer: Hash) returns (h: Hash)
    ensures h == HashChunks(P, chunks, buffer)
  {
    var prev := "";
    h := buffer;
    for i := 0 to |chunks|
      invariant prev == ChunkFold(P, chunks[..i])
      invariant h == HashChunks(P, chunks[..i], buffer)
    {
      assert chunks[..i + 1][..i] == chunks[..i];
      h := P.chunkHash(prev, chunks[i]);
      prev := h;
    }
    assert chunks[..|chunks|] == chunks;
  }

  function HashMeta(P: Params, f: File): Hash {
    P.metaHash(f.name, f.size, f.description, f.tags)
  }

  /** `transaction.init` for a file to be added: the name is the digest of the chunks. */
  function InitTransaction(P: Params, timestamp: string, size: nat, chunks: seq<Chunk>,
                           description: string, tags: string, pubkeyhash: Hash): Transaction {
    var chunksHash := HashChunks(P, chunks, "");
    var f0 := File(chunksHash, size, description, tags, "", chunks, chunksHash, pubkeyhash, "");
    var f1 := f0.(metaHash := HashMeta(P, f0));
    var f := f1.(hash := P.fileHash(f1.metaHash, f1.chunksHash, f1.pubkeyhash));
    Transaction(VERSION, timestamp, TFILE_ADD, P.transactionHash(VERSION, timestamp, TFILE_ADD, f.hash), "", "", f)
  }

  /** `transaction.validate` succeeds and finds the transaction valid. */
  predicate ValidTransaction(P: Params, t: Transaction) {
    && t.kind == TFILE_ADD
    && t.add.metaHash == HashMeta(P, t.add)
    && t.add.chunksHash == HashChunks(P, t.add.chunks, P.stale)
    && t.add.hash == P.fileHash(t.add.metaHash, t.add.chunksHash, t.add.pubkeyhash)
    && t.hash == P.transactionHash(t.version, t.timestamp, t.kind, t.add.hash)
  }

  /** A transaction made by `init` for a file with at least one chunk passes `validate`, also after it has
      been placed in a block. */
  lemma InitIsValid(P: Params, timestamp: string, size: nat, chunks: seq<Chunk>,
                    description: string, tags: string, pubkeyhash: Hash, prev: Hash, current: Hash)
    requires chunks != []
    ensures ValidTransaction(P, InitTransaction(P, timestamp, size, chunks, description, tags, pubkeyhash)
                                .(prev := prev, current := current))
  {
  }

  // ----- Blocks

  /** The first `target` characters of the proof of work are zeros. */
  predicate MeetsTarget(pow: Hash, target: nat) {
    target <= |pow| && forall i :: 0 <= i < target ==> pow[i] == '0'
  }

  /** Every transaction is valid and linked to the one before, the first one to `prev`. */
  predicate Linked(P: Params, prev: Hash, txs: seq<Transaction>)
    decreases |txs|
  {
    txs == [] ||
    (&& ValidTransaction(P, txs[0])
     && txs[0].prev == prev
     && txs[0].current == P.linkHash(prev, txs[0].hash)
     && Linked(P, txs[0].current, txs[1..]))
  }

  predicate ValidBlock(P: Params, b: Block) {
    && MeetsTarget(b.pow, P.target)
    && b.pow == P.blockHash(b.transactions, b.prev, b.nonce)
    && |b.txs| <= 1
    && Linked(P, b.prev, b.txs)
  }

  method ValidateBlock(P: Params, b: Block) returns (valid: bool)
    ensures valid == ValidBlock(P, b)
  {
    if !MeetsTarget(b.pow, P.target) || b.pow != P.blockHash(b.transactions, b.prev, b.nonce) || |b.txs| > 1 {
      return false;
    }
    var prev := b.prev;
    for i := 0 to |b.txs|
      invariant Linked(P, b.prev, b.txs) <==> Linked(P, prev, b.txs[i..])
    {
      var t := b.txs[i];
      if !ValidTransaction(P, t) || t.prev != prev || t.current != P.linkHash(prev, t.hash) {
        return false;
      }
      assert b.txs[i..][1..] == b.txs[i + 1..];
      prev := t.current;
    }
    return true;
  }

  /** The transactions as `transactions_lock` leaves them, and the digest at the end of the chain. */
  function Lock(P: Params, prev: Hash, txs: seq<Transaction>): (seq<Transaction>, Hash)
    decreases |txs|
  {
    if txs == [] then ([], prev) else
    var t := txs[0].(prev := prev, current := P.linkHash(prev, txs[0].hash));
    var (rest, last) := Lock(P, t.current, txs[1..]);
    ([t] + rest, last)
  }

  method LockTransactions(P: Params, prev: Hash, txs: seq<Transaction>) returns (locked: seq<Transaction>, last: Hash)
    ensures (locked, last) == Lock(P, prev, txs)
  {
    locked, last := [], prev;
    assert txs[0..] == txs && locked + Lock(P, prev, txs).0 == Lock(P, prev, txs).0;
    for i := 0 to |txs|
      invariant Lock(P, prev, txs) == (locked + Lock(P, last, txs[i..]).0, Lock(P, last, txs[i..]).1)
    {
      var t := txs[i].(prev := last, current := P.linkHash(last, txs[i].hash));
      assert txs[i..][1..] == txs[i + 1..];
      assert locked + ([t] + Lock(P, t.current, txs[i + 1..]).0) == locked + [t] + Lock(P, t.current, txs[i + 1..]).0;
      locked := locked + [t];
      last := t.current;
    }
    assert locked + [] == locked;
  }

  /** Locking valid transactions links them, and keeps their number and content. */
  lemma {:induction false} LockLinks(P: Params, prev: Hash, txs: seq<Transaction>)
    requires forall i :: 0 <= i < |txs| ==> ValidTransaction(P, txs[i])
    ensures var (locked, last) := Lock(P, prev, txs);
            && Linked(P, prev, locked)
            && |locked| == |txs|
            && (forall i :: 0 <= i < |txs| ==> locked[i].add == txs[i].add && locked[i].hash == txs[i].hash)
            && last == (if txs == [] then prev else locked[|txs| - 1].current)
    decreases |txs|
  {
    if txs != [] {
      var t := txs[0].(prev := prev, current := P.linkHash(prev, txs[0].hash));
      LockLinks(P, t.current, txs[1..]);
      var (rest, last) := Lock(P, t.current, txs[1..]);
      assert ([t] + rest)[1..] == rest;
    }
  }

  datatype Winner = NONE | DST | SRC

  /** `block.compare`: fails when the predecessors differ. */
  function CompareBlocks(dst: Block, src: Block): Option<(bool, Winner)> {
    if dst.prev != src.prev then None
    else Some((SameBlock(dst, src), Heavier(dst, src)))
  }

  /** Two blocks agree in their transaction digest and proof of work. */
  predicate SameBlock(a: Block, b: Block) {
    a.transactions == b.transactions && a.pow == b.pow
  }

  function Heavier(dst: Block, src: Block): Winner {
    if |dst.txs| >= |src.txs| then DST else SRC
  }
}
