/** Chains of blocks: validation, comparison and merging (src/root.c). */
module Chain {
  import opened Common
  import opened Blocks

  // ----- Validity

  /** The hash that a block at position `n` must refer to. */
  function Before(blocks: seq<Block>, n: nat): Hash
    requires n <= |blocks|
  {
    if n == 0 then BASE_ROOT_HASH else blocks[n - 1].pow
  }

  function Tip(blocks: seq<Block>): Hash {
    Before(blocks, |blocks|)
  }

  /** The chain starts at the base hash, each block refers to the one before, and all are valid. */
  ghost predicate ValidChain(P: Params, blocks: seq<Block>) {
    forall i :: 0 <= i < |blocks| ==> ValidAt(P, blocks, i)
  }

  /** The block at position `i` is valid and refers to the one before. */
  ghost predicate ValidAt(P: Params, blocks: seq<Block>, i: nat)
    requires i < |blocks|
  {
    blocks[i].prev == Before(blocks, i) && ValidBlock(P, blocks[i])
  }

  /** What comparison looks at: transaction digest and proof of work of every block. */
  function Hashes(blocks: seq<Block>): seq<(Hash, Hash)> {
    seq(|blocks|, i requires 0 <= i < |blocks| => (blocks[i].transactions, blocks[i].pow))
  }

  lemma ValidAppend(P: Params, blocks: seq<Block>, b: Block)
    requires ValidChain(P, blocks) && b.prev == Tip(blocks) && ValidBlock(P, b)
    ensures ValidChain(P, blocks + [b])
  {
    var all := blocks + [b];
    forall i | 0 <= i < |all| ensures ValidAt(P, all, i) {
      assert i < |blocks| ==> ValidAt(P, blocks, i);
    }
  }

  /** Splicing the rest of a valid chain onto a valid one that agrees with it so far. */
  lemma ValidSplice(P: Params, a: seq<Block>, b: seq<Block>)
    requires ValidChain(P, a) && ValidChain(P, b) && |a| <= |b|
    requires Tip(a) == Before(b, |a|)
    ensures ValidChain(P, a + b[|a|..])
  {
    var all := a + b[|a|..];
    forall i | 0 <= i < |all| ensures ValidAt(P, all, i) {
      if i < |a| {
        assert ValidAt(P, a, i);
      } else {
        assert ValidAt(P, b, i);
      }
    }
  }

  // ----- Comparison

  /** Length of the common beginning. */
  function Shared(l: seq<Block>, r: seq<Block>): (n: nat)
    ensures n <= |l| && n <= |r|
    ensures forall i :: 0 <= i < n ==> SameBlock(l[i], r[i])
    ensures n < |l| && n < |r| ==> !SameBlock(l[n], r[n])
  {
    if l == [] || r == [] || !SameBlock(l[0], r[0]) then 0 else 1 + Shared(l[1..], r[1..])
  }

  datatype Diff = Diff(equal: bool, winner: Winner, blockidx: nat)

  /** The comparison of two valid chains, from their common beginning. */
  function Difference(l: seq<Block>, r: seq<Block>): Diff {
    var n := Shared(l, r);
    if n < |l| && n < |r| then Diff(false, Heavier(l[n], r[n]), n + 1)
    else if |l| != |r| then Diff(false, if |l| > |r| then DST else SRC, n)
    else Diff(true, if n == 0 then NONE else Heavier(l[n - 1], r[n - 1]), n)
  }

  lemma SharedIs(l: seq<Block>, r: seq<Block>, n: nat)
    requires n <= |l| && n <= |r|
    requires forall i :: 0 <= i < n ==> SameBlock(l[i], r[i])
    requires n < |l| && n < |r| ==> !SameBlock(l[n], r[n])
    ensures Shared(l, r) == n
  {
    var c := Shared(l, r);
    assert c < |l| && c < |r| ==> !SameBlock(l[c], r[c]);
  }

  lemma SharedHashes(l: seq<Block>, r: seq<Block>)
    ensures Hashes(l)[..Shared(l, r)] == Hashes(r)[..Shared(l, r)]
    ensures Shared(l, r) == |l| <==> Hashes(l) <= Hashes(r)
    ensures Shared(l, r) == |r| <==> Hashes(r) <= Hashes(l)
    ensures Hashes(l) == Hashes(r) <==> Shared(l, r) == |l| == |r|
  {
    var n := Shared(l, r);
    assert forall i :: 0 <= i < n ==> SameBlock(l[i], r[i]) && Hashes(l)[i] == Hashes(r)[i];
    if n < |l| && n < |r| {
      assert Hashes(l)[n] != Hashes(r)[n];
    }
  }

  /** Comparing two blocks fails exactly if their predecessors differ; otherwise it tells equal digests and the side
      with more transactions, the first on a tie. */
  lemma BlocksCompare(dst: Block, src: Block)
    ensures CompareBlocks(dst, src) ==
      if dst.prev != src.prev then None
      else Some((dst.transactions == src.transactions && dst.pow == src.pow, MoreTransactions(dst, src)))
  {
  }

  /** Agreement up to `n` makes the predecessors at `n` agree. */
  lemma SamePredecessor(P: Params, l: seq<Block>, r: seq<Block>, n: nat)
    requires ValidChain(P, l) && ValidChain(P, r) && n < |l| && n < |r|
    requires n > 0 ==> SameBlock(l[n - 1], r[n - 1])
    ensures l[n].prev == r[n].prev
  {
    assert ValidAt(P, l, n) && ValidAt(P, r, n);
  }

  /** The side whose block has more transactions; on a tie the first. */
  function MoreTransactions(a: Block, b: Block): Winner {
    if |b.txs| > |a.txs| then SRC else DST
  }

  /** Comparing two chains reports equality exactly for equal hash sequences, the shorter length for a
      proper prefix, and one past the first difference otherwise. */
  lemma DifferenceMeans(l: seq<Block>, r: seq<Block>)
    ensures var d := Difference(l, r);
            && (d.equal <==> Hashes(l) == Hashes(r))
            && (Hashes(l) <= Hashes(r) && |l| < |r| ==> d.blockidx == |l| && d.winner == SRC)
            && (Hashes(r) <= Hashes(l) && |r| < |l| ==> d.blockidx == |r| && d.winner == DST)
            && (!(Hashes(l) <= Hashes(r)) && !(Hashes(r) <= Hashes(l)) ==>
                  && 0 < d.blockidx <= |l| && d.blockidx <= |r|
                  && Hashes(l)[..d.blockidx - 1] == Hashes(r)[..d.blockidx - 1]
                  && Hashes(l)[d.blockidx - 1] != Hashes(r)[d.blockidx - 1]
                  && d.winner == MoreTransactions(l[d.blockidx - 1], r[d.blockidx - 1]))
            && (d.equal ==> d.winner == if l == [] then NONE else MoreTransactions(l[|l| - 1], r[|l| - 1]))
  {
    SharedHashes(l, r);
  }

  // ----- Merging

  datatype Merge = NOT_NEEDED | POSSIBLE | IMPOSSIBLE

  function CanMerge(dst: seq<Block>, src: seq<Block>): Merge {
    var d := Difference(dst, src);
    if d.equal then NOT_NEEDED
    else if d.winner == SRC && d.blockidx == |dst| then POSSIBLE
    else if d.winner == DST && d.blockidx == |src| then POSSIBLE
    else IMPOSSIBLE
  }

  /** Return code, the `merged` flag and both chains after `merge`. */
  datatype Outcome = Outcome(ok: bool, merged: bool, dst: seq<Block>, src: seq<Block>)

  /** `merge` on two valid chains. */
  function Merged(dst: seq<Block>, src: seq<Block>): Outcome {
    var n := Shared(dst, src);
    if n == |dst| then Outcome(true, true, dst + src[n..], src)
    else if n == |src| then Outcome(true, true, dst, src + dst[n..])
    else if Heavier(dst[n], src[n]) == SRC && n + 1 == |dst| then Outcome(false, false, dst + src[n + 1..], src)
    else if Heavier(dst[n], src[n]) == DST && n + 1 == |src| then Outcome(false, false, dst, src + dst[n + 1..])
    else Outcome(true, false, dst, src)
  }

  function Longer(a: seq<Block>, b: seq<Block>): seq<(Hash, Hash)> {
    if |a| >= |b| then Hashes(a) else Hashes(b)
  }

  /** Merging two valid chains succeeds exactly when one is a prefix of the other in hashes; then both
      hold the longer hash sequence and both are valid. */
  lemma MergeJoinsPrefixes(P: Params, dst: seq<Block>, src: seq<Block>)
    requires ValidChain(P, dst) && ValidChain(P, src)
    ensures var o := Merged(dst, src);
            && (o.merged <==> Hashes(dst) <= Hashes(src) || Hashes(src) <= Hashes(dst))
            && (o.merged ==>
                  && o.ok
                  && Hashes(o.dst) == Longer(dst, src) && Hashes(o.src) == Longer(dst, src)
                  && ValidChain(P, o.dst) && ValidChain(P, o.src)
                  && dst <= o.dst && src <= o.src)
  {
    SharedHashes(dst, src);
    var n := Shared(dst, src);
    if n == |dst| {
      SpliceExtends(P, dst, src);
    } else if n == |src| {
      SpliceExtends(P, src, dst);
      assert Shared(src, dst) == n by { SharedIs(src, dst, n); }
    }
  }

  lemma SpliceExtends(P: Params, a: seq<Block>, b: seq<Block>)
    requires ValidChain(P, a) && ValidChain(P, b) && Hashes(a) <= Hashes(b)
    ensures ValidChain(P, a + b[|a|..]) && Hashes(a + b[|a|..]) == Hashes(b)
  {
    var all := a + b[|a|..];
    if a != [] {
      assert Hashes(a)[|a| - 1] == Hashes(b)[|a| - 1];
    }
    ValidSplice(P, a, b);
    forall i | 0 <= i < |b| ensures Hashes(all)[i] == Hashes(b)[i] {
      if i < |a| {
        assert Hashes(a)[i] == Hashes(b)[i];
      }
    }
  }

  /** Exactly when a merge fails and yet changes `dst`: the chains fork at the last block of `dst`, which has
      fewer transactions than its rival, and `src` goes on after the fork. */
  lemma UnmergedChangesDst(dst: seq<Block>, src: seq<Block>)
    ensures var n, o := Shared(dst, src), Merged(dst, src);
            !o.merged && o.dst != dst <==> n + 1 == |dst| && n + 1 < |src| && |dst[n].txs| < |src[n].txs|
  {
    var n := Shared(dst, src);
    if n < |dst| && n < |src| {
      if n + 1 < |src| {
        assert |dst + src[n + 1..]| > |dst|;
      } else {
        assert dst + src[n + 1..] == dst;
      }
    }
  }

  /** Exactly when a failing merge changes `src`: the fork is at its last block, which has no more transactions
      than its rival, and `dst` goes on after the fork. */
  lemma UnmergedChangesSrc(dst: seq<Block>, src: seq<Block>)
    ensures var n, o := Shared(dst, src), Merged(dst, src);
            !o.merged && o.src != src <==> n + 1 == |src| && n + 1 < |dst| && |dst[n].txs| >= |src[n].txs|
  {
    var n := Shared(dst, src);
    if n < |dst| && n < |src| {
      if n + 1 < |dst| {
        assert |src + dst[n + 1..]| > |src|;
      } else {
        assert src + dst[n + 1..] == src;
      }
    }
  }

  /** Exactly when a merge returns an error: the chains fork at the last block of the one whose block there loses.
      A fork elsewhere is no error, and nothing is merged. */
  lemma MergeFailsExactly(dst: seq<Block>, src: seq<Block>)
    ensures var n, o := Shared(dst, src), Merged(dst, src);
            && (!o.ok <==>
                  && n < |dst| && n < |src|
                  && (if |src[n].txs| > |dst[n].txs| then n + 1 == |dst| else n + 1 == |src|))
            && (!o.ok ==> !o.merged)
  {
  }

  /** Two valid chains on which this happens; the destination is no longer a valid chain afterwards. */
  lemma FailedMergeSpoilsDst() returns (P: Params, dst: seq<Block>, src: seq<Block>)
    ensures ValidChain(P, dst) && ValidChain(P, src)
    ensures var o := Merged(dst, src); !o.merged && o.dst != dst && !ValidChain(P, o.dst)
  {
    P := Params((digest, prev, nonce) => "0" + digest, (prev, hash) => "l", (version, time, kind, hash) => "t",
                (name, size, description, tags) => "m", (prev, chunk) => "k", (meta, chunks, key) => "f", 1, "s");
    var file := File("", 0, "", "", "m", [], "s", "", "f");
    var t := Transaction(VERSION, "", TFILE_ADD, "t", BASE_ROOT_HASH, "l", file);
    var a := Block(BASE_ROOT_HASH, "a", 0, "0a", []);
    var b := Block(BASE_ROOT_HASH, "b", 0, "0b", [t]);
    var c := Block("0b", "c", 0, "0c", []);
    assert "0" + "a" == "0a" && "0" + "b" == "0b" && "0" + "c" == "0c";
    assert ValidTransaction(P, t);
    assert b.txs[1..] == [];
    assert ValidBlock(P, a) && ValidBlock(P, b) && ValidBlock(P, c);
    dst, src := [a], [b, c];
    assert ValidAt(P, src, 0) && ValidAt(P, src, 1) && ValidAt(P, dst, 0);
    SharedIs(dst, src, 0);
    var d := Merged(dst, src).dst;
    assert d == [a, c];
    assert "0a"[1] != "0b"[1];
    assert !ValidAt(P, d, 1);
  }

  /** If every block carries one transaction, an unmerged result leaves `dst` as it was. */
  lemma UnmergedKeepsDst(dst: seq<Block>, src: seq<Block>)
    requires forall i :: 0 <= i < |dst| ==> |dst[i].txs| == 1
    requires forall i :: 0 <= i < |src| ==> |src[i].txs| == 1
    ensures Merged(dst, src).merged || Merged(dst, src).dst == dst
  {
    UnmergedChangesDst(dst, src);
  }

  // ----- The code

  method ValidateChain(P: Params, blocks: seq<Block>) returns (valid: bool)
    ensures valid <==> ValidChain(P, blocks)
  {
    var prev := BASE_ROOT_HASH;
    for i := 0 to |blocks|
      invariant prev == Before(blocks, i)
      invariant forall k :: 0 <= k < i ==> ValidAt(P, blocks, k)
    {
      if blocks[i].prev != prev {
        assert !ValidAt(P, blocks, i);
        return false;
      }
      var ok := ValidateBlock(P, blocks[i]);
      if !ok {
        assert !ValidAt(P, blocks, i);
        return false;
      }
      prev := blocks[i].pow;
    }
    return true;
  }

  class Root {
    var hash: Hash
    var blocks: seq<Block>
    var pubkeyhash: Hash

    constructor ()
      ensures blocks == [] && hash == BASE_ROOT_HASH && Consistent()
    {
      hash, blocks, pubkeyhash := BASE_ROOT_HASH, [], "";
    }

    /** The stored hash is the proof of work of the last block. */
    ghost predicate Consistent()
      reads this
    {
      hash == Tip(blocks)
    }

    method BlocksAdd(b: Block)
      modifies this`hash, this`blocks
      ensures blocks == old(blocks) + [b] && Consistent()
    {
      blocks := blocks + [b];
      hash := b.pow;
    }

    method Validate(P: Params) returns (valid: bool)
      ensures valid <==> ValidChain(P, blocks)
    {
      valid := ValidateChain(P, blocks);
    }

    /** Fails exactly when one of the chains is invalid. */
    method Compare(P: Params, remote: Root) returns (diff: Option<Diff>)
      ensures diff == if ValidChain(P, blocks) && ValidChain(P, remote.blocks)
                      then Some(Difference(blocks, remote.blocks)) else None
    {
      var valid := Validate(P);
      if !valid {
        return None;
      }
      valid := remote.Validate(P);
      if !valid {
        return None;
      }
      var winner, equal, i := NONE, true, 0;
      while i < |blocks| && i < |remote.blocks| && equal
        invariant i <= |blocks| && i <= |remote.blocks|
        invariant forall k :: 0 <= k < i - 1 ==> SameBlock(blocks[k], remote.blocks[k])
        invariant i == 0 ==> equal && winner == NONE
        invariant i > 0 ==> equal == SameBlock(blocks[i - 1], remote.blocks[i - 1])
        invariant i > 0 ==> winner == Heavier(blocks[i - 1], remote.blocks[i - 1])
        decreases |blocks| - i
      {
        SamePredecessor(P, blocks, remote.blocks, i);
        var c := CompareBlocks(blocks[i], remote.blocks[i]);
        if c.None? {
          return None;
        }
        equal, winner := c.value.0, c.value.1;
        i := i + 1;
      }
      SharedIs(blocks, remote.blocks, if equal then i else i - 1);
      if equal && |blocks| != |remote.blocks| {
        equal := false;
        winner := if |blocks| > |remote.blocks| then DST else SRC;
      }
      diff := Some(Diff(equal, winner, i));
    }

    /** The merge verdict together with the comparison it rests on. */
    method Mergeable(P: Params, src: Root) returns (r: Option<(Merge, Diff)>)
      ensures r == if ValidChain(P, blocks) && ValidChain(P, src.blocks)
                   then Some((CanMerge(blocks, src.blocks), Difference(blocks, src.blocks))) else None
    {
      var diff := Compare(P, src);
      if diff.None? {
        return None;
      }
      var d := diff.value;
      if d.equal {
        return Some((NOT_NEEDED, d));
      }
      if (d.winner == SRC && d.blockidx == |blocks|) || (d.winner == DST && d.blockidx == |src.blocks|) {
        return Some((POSSIBLE, d));
      }
      return Some((IMPOSSIBLE, d));
    }

    /** Appends the blocks of `from` from position `start` on. */
    method AppendFrom(from: Root, start: nat)
      requires from != this && start <= |from.blocks|
      modifies this`hash, this`blocks
      ensures blocks == old(blocks) + from.blocks[start..]
      ensures old(Consistent()) ==> Consistent()
    {
      ghost var before := blocks;
      for i := start to |from.blocks|
        invariant blocks == before + from.blocks[start..i]
        invariant old(Consistent()) ==> Consistent()
      {
        BlocksAdd(from.blocks[i]);
        assert from.blocks[start..i + 1] == from.blocks[start..i] + [from.blocks[i]];
      }
    }

    /** Merges `src` into this chain, or this chain into a shorter `src`. */
    method MergeWith(P: Params, src: Root) returns (ok: bool, merged: bool)
      requires src != this && Consistent() && src.Consistent()
      modifies this`hash, this`blocks, src`hash, src`blocks
      ensures Consistent() && src.Consistent()
      ensures Outcome(ok, merged, blocks, src.blocks)
           == if ValidChain(P, old(blocks)) && ValidChain(P, old(src.blocks))
              then Merged(old(blocks), old(src.blocks))
              else Outcome(false, false, old(blocks), old(src.blocks))
    {
      ghost var a, b := blocks, src.blocks;
      var r := Mergeable(P, src);
      if r.None? {
        return false, false;
      }
      var (verdict, d) := r.value;
      MergeShape(P, a, b);
      MergeConfirmed(P, a, b);
      if verdict == IMPOSSIBLE {
        return true, false;
      }
      if verdict == POSSIBLE {
        if d.winner == SRC && d.blockidx == |blocks| {
          AppendFrom(src, d.blockidx);
        } else {
          src.AppendFrom(this, d.blockidx);
        }
      }
      assert (blocks, src.blocks) == (Merged(a, b).dst, Merged(a, b).src);
      var diff := Compare(P, src);
      merged := diff.Some? && diff.value.equal;
      ok := merged;
    }
  }

  /** How the code's cases relate to `Merged`. */
  lemma MergeShape(P: Params, dst: seq<Block>, src: seq<Block>)
    requires ValidChain(P, dst) && ValidChain(P, src)
    ensures var o, d := Merged(dst, src), Difference(dst, src);
            match CanMerge(dst, src)
            case NOT_NEEDED => o == Outcome(true, true, dst, src)
            case IMPOSSIBLE => o == Outcome(true, false, dst, src)
            case POSSIBLE =>
              if d.winner == SRC && d.blockidx == |dst|
              then d.blockidx <= |src| && o == Outcome(o.merged, o.merged, dst + src[d.blockidx..], src)
              else d.blockidx <= |dst| && o == Outcome(o.merged, o.merged, dst, src + dst[d.blockidx..])
  {
    var n := Shared(dst, src);
    if n == |dst| {
      assert n == |src| ==> dst + src[n..] == dst;
    }
  }

  /** The comparison after the blocks have been copied confirms exactly the merges that succeeded. */
  lemma MergeConfirmed(P: Params, dst: seq<Block>, src: seq<Block>)
    requires ValidChain(P, dst) && ValidChain(P, src)
    ensures var o := Merged(dst, src);
            o.merged <==> ValidChain(P, o.dst) && ValidChain(P, o.src) && Difference(o.dst, o.src).equal
  {
    var n, o := Shared(dst, src), Merged(dst, src);
    MergeJoinsPrefixes(P, dst, src);
    DifferenceMeans(o.dst, o.src);
    if n < |dst| && n < |src| {
      assert Hashes(o.dst)[n] != Hashes(o.src)[n];
    }
  }
}
