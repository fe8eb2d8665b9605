/** What validation is for: hashes of valid transactions, blocks and chains determine their content, unless a digest
    takes the same value twice (src/transaction.c, src/transaction/file_add.c, src/block.c, src/root.c). */
module Integrity {
  import opened Blocks
  import opened Chain
  import opened Mining

  // ----- Digests that take the same value at different arguments

  ghost predicate BlockCollision(P: Params) {
    exists t, p, n, t', p', n' ::
      P.blockHash(t, p, n) == P.blockHash(t', p', n') && !(t == t' && p == p' && n == n')
  }

  ghost predicate LinkCollision(P: Params) {
    exists p, h, p', h' :: P.linkHash(p, h) == P.linkHash(p', h') && !(p == p' && h == h')
  }

  ghost predicate TransactionCollision(P: Params) {
    exists v, s, k, h, v', s', k', h' ::
      P.transactionHash(v, s, k, h) == P.transactionHash(v', s', k', h') && !(v == v' && s == s' && k == k' && h == h')
  }

  ghost predicate MetaCollision(P: Params) {
    exists n, s, d, t, n', s', d', t' ::
      P.metaHash(n, s, d, t) == P.metaHash(n', s', d', t') && !(n == n' && s == s' && d == d' && t == t')
  }

  ghost predicate FileCollision(P: Params) {
    exists m, c, k, m', c', k' :: P.fileHash(m, c, k) == P.fileHash(m', c', k') && !(m == m' && c == c' && k == k')
  }

  /** Two different steps of the digest over the chunks have the same value, or one has the value it starts from. */
  ghost predicate ChunkCollision(P: Params) {
    || (exists h, c, h', c' :: P.chunkHash(h, c) == P.chunkHash(h', c') && !(h == h' && c == c'))
    || (exists h, c :: P.chunkHash(h, c) == "")
  }

  ghost predicate ContentCollision(P: Params) {
    TransactionCollision(P) || MetaCollision(P) || FileCollision(P) || ChunkCollision(P)
  }

  // ----- Transactions

  /** The digest over the chunks determines the chunks and their order. */
  lemma {:induction false} SameChunks(P: Params, a: seq<Chunk>, b: seq<Chunk>)
    requires ChunkFold(P, a) == ChunkFold(P, b)
    ensures a == b || ChunkCollision(P)
  {
    if a != [] && b != [] {
      var k, l := |a| - 1, |b| - 1;
      var h, h' := ChunkFold(P, a[..k]), ChunkFold(P, b[..l]);
      assert P.chunkHash(h, a[k]) == P.chunkHash(h', b[l]);
      if h == h' && a[k] == b[l] {
        SameChunks(P, a[..k], b[..l]);
        assert a == a[..k] + [a[k]] && b == b[..l] + [b[l]];
      }
    } else if a != [] {
      assert P.chunkHash(ChunkFold(P, a[..|a| - 1]), a[|a| - 1]) == "";
    } else if b != [] {
      assert P.chunkHash(ChunkFold(P, b[..|b| - 1]), b[|b| - 1]) == "";
    }
  }

  /** Two files, with chunks, whose digests are right and equal are the same file. */
  lemma SameFile(P: Params, t: Transaction, u: Transaction)
    requires ValidTransaction(P, t) && ValidTransaction(P, u) && t.add.chunks != [] && u.add.chunks != []
    requires t.add.hash == u.add.hash
    ensures t.add == u.add || ContentCollision(P)
  {
    var f, g := t.add, u.add;
    assert P.fileHash(f.metaHash, f.chunksHash, f.pubkeyhash) == P.fileHash(g.metaHash, g.chunksHash, g.pubkeyhash);
    if f.metaHash == g.metaHash && f.chunksHash == g.chunksHash && f.pubkeyhash == g.pubkeyhash {
      assert P.metaHash(f.name, f.size, f.description, f.tags) == P.metaHash(g.name, g.size, g.description, g.tags);
      SameChunks(P, f.chunks, g.chunks);
    }
  }

  /** The hash of a valid transaction with chunks determines version, time stamp, kind and the whole file. */
  lemma HashDeterminesTransaction(P: Params, t: Transaction, u: Transaction)
    requires ValidTransaction(P, t) && ValidTransaction(P, u) && t.add.chunks != [] && u.add.chunks != []
    requires t.hash == u.hash
    ensures || (t.version == u.version && t.timestamp == u.timestamp && t.kind == u.kind && t.add == u.add)
            || ContentCollision(P)
  {
    assert P.transactionHash(t.version, t.timestamp, t.kind, t.add.hash)
        == P.transactionHash(u.version, u.timestamp, u.kind, u.add.hash);
    if t.add.hash == u.add.hash {
      SameFile(P, t, u);
    }
  }

  /** A transaction made by `init` carries what it was made from, and its name stands for the chunks. */
  lemma InitNamesChunks(P: Params, e: Event, f: Event)
    requires e.AddNew? && f.AddNew? && e.chunks != [] && f.chunks != []
    ensures var t := InitTransaction(P, e.timestamp, e.size, e.chunks, e.description, e.tags, e.key);
            var u := InitTransaction(P, f.timestamp, f.size, f.chunks, f.description, f.tags, f.key);
            && t.timestamp == e.timestamp && t.add.size == e.size && t.add.chunks == e.chunks
            && t.add.description == e.description && t.add.tags == e.tags && t.add.pubkeyhash == e.key
            && (t.add.name == u.add.name ==> e.chunks == f.chunks || ChunkCollision(P))
            && (e.chunks == f.chunks ==> t.add.name == u.add.name)
  {
    if ChunkFold(P, e.chunks) == ChunkFold(P, f.chunks) {
      SameChunks(P, e.chunks, f.chunks);
    }
  }

  // ----- Blocks

  /** What the proof of work is computed from. */
  ghost predicate SameHeader(a: Block, b: Block) {
    a.transactions == b.transactions && a.prev == b.prev && a.nonce == b.nonce && a.pow == b.pow
  }

  /** The proof of work of a valid block determines its header, and with it the predecessor its transaction names. */
  lemma PowDeterminesHeader(P: Params, a: Block, b: Block)
    requires ValidBlock(P, a) && ValidBlock(P, b) && a.pow == b.pow
    ensures || (&& SameHeader(a, b)
                && (a.txs != [] && b.txs != [] ==> a.txs[0].prev == b.txs[0].prev))
            || BlockCollision(P)
  {
    assert P.blockHash(a.transactions, a.prev, a.nonce) == P.blockHash(b.transactions, b.prev, b.nonce);
  }

  /** The link digest of its transaction determines the predecessor of a valid block and the transaction's hash. */
  lemma LinkDeterminesTransaction(P: Params, a: Block, b: Block)
    requires ValidBlock(P, a) && ValidBlock(P, b) && a.txs != [] && b.txs != []
    requires a.txs[0].current == b.txs[0].current
    ensures (a.prev == b.prev && a.txs[0].hash == b.txs[0].hash) || LinkCollision(P)
  {
    assert P.linkHash(a.prev, a.txs[0].hash) == P.linkHash(b.prev, b.txs[0].hash);
  }

  /** The proof of work of a block mined here determines the whole block, if its file has chunks. */
  lemma PowDeterminesMinedBlock(P: Params, a: Block, b: Block)
    requires MinedBlock(P, a) && MinedBlock(P, b) && a.pow == b.pow
    requires a.txs[0].add.chunks != [] && b.txs[0].add.chunks != []
    ensures a == b || BlockCollision(P) || LinkCollision(P) || ContentCollision(P)
  {
    PowDeterminesHeader(P, a, b);
    if SameHeader(a, b) {
      LinkDeterminesTransaction(P, a, b);
      if a.txs[0].hash == b.txs[0].hash {
        HashDeterminesTransaction(P, a.txs[0], b.txs[0]);
        assert a.txs == [a.txs[0]] && b.txs == [b.txs[0]];
      }
    }
  }

  // ----- Chains

  /** A block that the target admits has the hash from which chains start. */
  ghost predicate BaseIsReached(P: Params) {
    MeetsTarget(BASE_ROOT_HASH, P.target) && exists t, p, n :: P.blockHash(t, p, n) == BASE_ROOT_HASH
  }

  lemma TargetExcludesBase(P: Params)
    requires P.target > 0
    ensures !BaseIsReached(P)
  {
    assert BASE_ROOT_HASH[0] == 'a';
  }

  /** The hash of a valid chain determines its length and all its headers. */
  lemma {:induction false} TipDeterminesChain(P: Params, a: seq<Block>, b: seq<Block>)
    requires ValidChain(P, a) && ValidChain(P, b) && Tip(a) == Tip(b)
    ensures || (|a| == |b| && forall i :: 0 <= i < |a| ==> SameHeader(a[i], b[i]))
            || BlockCollision(P) || BaseIsReached(P)
    decreases |a|
  {
    if a != [] && b != [] {
      var k, l := |a| - 1, |b| - 1;
      LastBlock(P, a);
      LastBlock(P, b);
      PowDeterminesHeader(P, a[k], b[l]);
      if !BlockCollision(P) {
        TipDeterminesChain(P, a[..k], b[..l]);
      }
    } else if a != [] {
      LastBlock(P, a);
    } else if b != [] {
      LastBlock(P, b);
    }
  }

  lemma LastBlock(P: Params, a: seq<Block>)
    requires ValidChain(P, a) && a != []
    ensures var k := |a| - 1;
            && ValidChain(P, a[..k]) && ValidBlock(P, a[k]) && Tip(a) == a[k].pow && a[k].prev == Tip(a[..k])
            && P.blockHash(a[k].transactions, a[k].prev, a[k].nonce) == a[k].pow
  {
    var k := |a| - 1;
    assert ValidAt(P, a, k);
    forall i | 0 <= i < k ensures ValidAt(P, a[..k], i) {
      assert ValidAt(P, a, i);
    }
  }

  function Transactions(blocks: seq<Block>): nat {
    if blocks == [] then 0 else Transactions(blocks[..|blocks| - 1]) + |blocks[|blocks| - 1].txs|
  }

  /** Every transaction of a valid chain adds a file. */
  lemma OnlyFilesAreAdded(P: Params, a: seq<Block>, i: nat, k: nat)
    requires ValidChain(P, a) && i < |a| && k < |a[i].txs|
    ensures a[i].txs[k].kind == 1 && ValidTransaction(P, a[i].txs[k])
  {
    assert ValidAt(P, a, i);
  }

  /** A valid chain has at most one transaction for every block. */
  lemma {:induction false} AtMostOnePerBlock(P: Params, a: seq<Block>)
    requires ValidChain(P, a)
    ensures Transactions(a) <= |a|
  {
    if a != [] {
      LastBlock(P, a);
      AtMostOnePerBlock(P, a[..|a| - 1]);
    }
  }
}
