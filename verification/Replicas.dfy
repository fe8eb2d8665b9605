/** Copies of other owners' chains: receiving a chain (`dfile` in src/mpeer.c) into the group of roots
    (src/group.c). */
module Replicas {
  import opened Blocks
  import opened Chain

  /** The copy held of one owner's chain. */
  datatype Copy = Copy(owner: Hash, blocks: seq<Block>)

  function Find(g: seq<Copy>, owner: Hash): (i: nat)
    ensures i <= |g|
    ensures i < |g| ==> g[i].owner == owner
    ensures forall k :: 0 <= k < i ==> g[k].owner != owner
  {
    if g == [] || g[0].owner == owner then 0 else 1 + Find(g[1..], owner)
  }

  /** A chain arrives from its owner: an invalid one is ignored, a first one is imported, any other is
      merged into the copy. */
  ghost function Deliver(P: Params, g: seq<Copy>, c: Copy): seq<Copy> {
    if !ValidChain(P, c.blocks) then g else
    var i := Find(g, c.owner);
    if i == |g| then g + [c]
    else if ValidChain(P, g[i].blocks) then g[i := Copy(c.owner, Merged(g[i].blocks, c.blocks).dst)]
    else g
  }

  ghost function After(P: Params, cs: seq<Copy>): seq<Copy> {
    if cs == [] then [] else Deliver(P, After(P, cs[..|cs| - 1]), cs[|cs| - 1])
  }

  ghost predicate OnePerOwner(g: seq<Copy>) {
    forall i, j :: 0 <= i < j < |g| ==> g[i].owner != g[j].owner
  }

  ghost predicate AllValid(P: Params, g: seq<Copy>) {
    forall i :: 0 <= i < |g| ==> ValidChain(P, g[i].blocks)
  }

  // ----- Whatever arrives

  /** Whatever chains arrive in whatever order, the group holds at most one root for each owner. */
  lemma {:induction false} AtMostOneRootPerOwner(P: Params, cs: seq<Copy>)
    ensures OnePerOwner(After(P, cs))
  {
    if cs != [] {
      AtMostOneRootPerOwner(P, cs[..|cs| - 1]);
    }
  }

  /** No delivery takes a block away from any copy. */
  lemma DeliveryOnlyAppends(P: Params, g: seq<Copy>, c: Copy, i: nat)
    requires i < |g|
    ensures i < |Deliver(P, g, c)|
    ensures Deliver(P, g, c)[i].owner == g[i].owner
    ensures g[i].blocks <= Deliver(P, g, c)[i].blocks
  {
  }

  /** Exactly when a delivery changes a copy: it is the owner's, both chains are valid, and the chain received goes
      on where the copy ends, or forks off at its last block with more transactions there and goes on after it. */
  lemma DeliveryChangesExactly(P: Params, g: seq<Copy>, c: Copy, i: nat)
    requires i < |g| && OnePerOwner(g)
    ensures var b, n := g[i].blocks, Shared(g[i].blocks, c.blocks);
            Deliver(P, g, c)[i].blocks != b <==>
              && g[i].owner == c.owner && ValidChain(P, c.blocks) && ValidChain(P, b) && |b| < |c.blocks|
              && (|b| == n || (|b| == n + 1 && |c.blocks[n].txs| > |b[n].txs|))
    ensures |Deliver(P, g, c)| ==
      |g| + if ValidChain(P, c.blocks) && (forall k :: 0 <= k < |g| ==> g[k].owner != c.owner) then 1 else 0
  {
    var b, n, o := g[i].blocks, Shared(g[i].blocks, c.blocks), Merged(g[i].blocks, c.blocks);
    UnmergedChangesDst(b, c.blocks);
    if n == |b| {
      assert |o.dst| == |c.blocks|;
      if |b| == |c.blocks| {
        assert o.dst == b;
      }
    }
  }

  /** Every block of every copy is valid, whether or not the copy is a valid chain. */
  ghost predicate BlocksValid(P: Params, g: seq<Copy>) {
    forall i, j :: 0 <= i < |g| && 0 <= j < |g[i].blocks| ==> ValidBlock(P, g[i].blocks[j])
  }

  lemma MergeKeepsBlocks(P: Params, dst: seq<Block>, src: seq<Block>, j: nat)
    requires ValidChain(P, src) && forall k :: 0 <= k < |dst| ==> ValidBlock(P, dst[k])
    requires j < |Merged(dst, src).dst|
    ensures ValidBlock(P, Merged(dst, src).dst[j])
  {
    if j >= |dst| {
      var n := Shared(dst, src);
      var k := if n == |dst| then j else j + n + 1 - |dst|;
      assert Merged(dst, src).dst[j] == src[k];
      assert ValidAt(P, src, k);
    }
  }

  lemma DeliveryKeepsBlocks(P: Params, g: seq<Copy>, c: Copy)
    requires BlocksValid(P, g)
    ensures BlocksValid(P, Deliver(P, g, c))
  {
    var g', k := Deliver(P, g, c), Find(g, c.owner);
    if ValidChain(P, c.blocks) {
      forall i, j | 0 <= i < |g'| && 0 <= j < |g'[i].blocks| ensures ValidBlock(P, g'[i].blocks[j]) {
        if i == |g| {
          assert ValidAt(P, c.blocks, j);
        } else if i == k && ValidChain(P, g[i].blocks) {
          MergeKeepsBlocks(P, g[i].blocks, c.blocks, j);
        }
      }
    }
  }

  /** Whatever chains arrive, every transaction in the group is valid, even in a copy that a failed merge has
      left invalid as a chain. */
  lemma {:induction false} GroupTransactionsAreValid(P: Params, cs: seq<Copy>)
    ensures var g := After(P, cs);
            && BlocksValid(P, g)
            && forall i, j, k :: 0 <= i < |g| && 0 <= j < |g[i].blocks| && 0 <= k < |g[i].blocks[j].txs| ==>
                 ValidTransaction(P, g[i].blocks[j].txs[k])
  {
    if cs != [] {
      var n := |cs| - 1;
      GroupTransactionsAreValid(P, cs[..n]);
      DeliveryKeepsBlocks(P, After(P, cs[..n]), cs[n]);
    }
    TransactionsInGroup(P, After(P, cs));
  }

  lemma TransactionsInGroup(P: Params, g: seq<Copy>)
    requires BlocksValid(P, g)
    ensures forall i, j, k :: 0 <= i < |g| && 0 <= j < |g[i].blocks| && 0 <= k < |g[i].blocks[j].txs| ==>
              ValidTransaction(P, g[i].blocks[j].txs[k])
  {
    forall i, j, k | 0 <= i < |g| && 0 <= j < |g[i].blocks| && 0 <= k < |g[i].blocks[j].txs|
      ensures ValidTransaction(P, g[i].blocks[j].txs[k])
    {
      assert ValidBlock(P, g[i].blocks[j]) && k == 0;
    }
  }

  ghost predicate SingleTransactions(blocks: seq<Block>) {
    forall i :: 0 <= i < |blocks| ==> |blocks[i].txs| == 1
  }

  ghost predicate AllSingle(g: seq<Copy>) {
    forall i :: 0 <= i < |g| ==> SingleTransactions(g[i].blocks)
  }

  /** If all blocks carry one transaction, as mined blocks do, every copy stays valid for ever, even when
      owners send chains that fork. */
  lemma {:induction false} CopiesStayValid(P: Params, cs: seq<Copy>)
    requires AllSingle(cs)
    ensures AllValid(P, After(P, cs)) && AllSingle(After(P, cs))
  {
    if cs != [] {
      var n := |cs| - 1;
      var g, c := After(P, cs[..n]), cs[n];
      CopiesStayValid(P, cs[..n]);
      var i := Find(g, c.owner);
      if ValidChain(P, c.blocks) && i < |g| {
        assert ValidChain(P, g[i].blocks) && SingleTransactions(g[i].blocks);
        MergeKeepsValid(P, g[i].blocks, c.blocks);
      }
    }
  }

  lemma MergeKeepsValid(P: Params, dst: seq<Block>, src: seq<Block>)
    requires ValidChain(P, dst) && ValidChain(P, src)
    requires SingleTransactions(dst) && SingleTransactions(src)
    ensures ValidChain(P, Merged(dst, src).dst) && SingleTransactions(Merged(dst, src).dst)
  {
    MergeJoinsPrefixes(P, dst, src);
    UnmergedKeepsDst(dst, src);
  }

  // ----- Snapshots of append-only chains

  /** Every valid chain that arrives is a beginning of its owner's chain, which has hashes `full(owner)`. */
  ghost predicate Snapshots(P: Params, cs: seq<Copy>, full: Hash -> seq<(Hash, Hash)>) {
    forall i :: 0 <= i < |cs| && ValidChain(P, cs[i].blocks) ==> Hashes(cs[i].blocks) <= full(cs[i].owner)
  }

  /** Length of the longest valid snapshot of `owner` so far, -1 if there has been none. */
  ghost function Longest(P: Params, cs: seq<Copy>, owner: Hash): int {
    if cs == [] then -1 else
    var rest, c := Longest(P, cs[..|cs| - 1], owner), cs[|cs| - 1];
    if c.owner == owner && ValidChain(P, c.blocks) && |c.blocks| > rest then |c.blocks| else rest
  }

  lemma {:induction false} LongestIsAttained(P: Params, cs: seq<Copy>, owner: Hash, full: Hash -> seq<(Hash, Hash)>)
    requires Snapshots(P, cs, full)
    ensures Longest(P, cs, owner) <= |full(owner)|
    ensures forall i :: 0 <= i < |cs| && cs[i].owner == owner && ValidChain(P, cs[i].blocks) ==>
              |cs[i].blocks| <= Longest(P, cs, owner)
    ensures Longest(P, cs, owner) >= 0 ==>
              exists i :: 0 <= i < |cs| && cs[i].owner == owner && ValidChain(P, cs[i].blocks)
                       && |cs[i].blocks| == Longest(P, cs, owner)
  {
    if cs != [] {
      var n := |cs| - 1;
      LongestIsAttained(P, cs[..n], owner, full);
      if Longest(P, cs, owner) == Longest(P, cs[..n], owner) >= 0 {
        var i :| 0 <= i < n && cs[..n][i].owner == owner && ValidChain(P, cs[..n][i].blocks)
              && |cs[..n][i].blocks| == Longest(P, cs, owner);
        assert cs[i] == cs[..n][i];
      }
    }
  }

  /** The copy at position `i` is what the longest snapshot of its owner says. */
  ghost predicate Current(P: Params, g: seq<Copy>, i: nat, cs: seq<Copy>, full: Hash -> seq<(Hash, Hash)>)
    requires i < |g|
  {
    && ValidChain(P, g[i].blocks)
    && 0 <= Longest(P, cs, g[i].owner) <= |full(g[i].owner)|
    && Hashes(g[i].blocks) == full(g[i].owner)[..Longest(P, cs, g[i].owner)]
  }

  /** Convergence: for every order and repetition in which snapshots arrive, the group holds a root for
      exactly the owners heard of; it is valid and has the hashes of the longest snapshot so far. */
  lemma {:induction false} ReplicasConverge(P: Params, cs: seq<Copy>, full: Hash -> seq<(Hash, Hash)>)
    requires Snapshots(P, cs, full)
    ensures var g := After(P, cs);
            && (forall i :: 0 <= i < |g| ==> Current(P, g, i, cs, full))
            && (forall owner :: Longest(P, cs, owner) >= 0 <==> Find(g, owner) < |g|)
  {
    if cs != [] {
      var n := |cs| - 1;
      var old', c := cs[..n], cs[n];
      var g0 := After(P, old');
      ReplicasConverge(P, old', full);
      AtMostOneRootPerOwner(P, old');
      var g := Deliver(P, g0, c);
      forall i | 0 <= i < |g| ensures Current(P, g, i, cs, full) {
        CopyConverges(P, cs, full, g0, i);
      }
      forall owner ensures Longest(P, cs, owner) >= 0 <==> Find(g, owner) < |g| {
        FindAfterDelivery(P, g0, c, owner);
      }
    }
  }

  lemma FindAfterDelivery(P: Params, g: seq<Copy>, c: Copy, owner: Hash)
    ensures var g' := Deliver(P, g, c);
            Find(g', owner) < |g'| <==> Find(g, owner) < |g| || (owner == c.owner && ValidChain(P, c.blocks))
  {
    var g' := Deliver(P, g, c);
    var i, i' := Find(g, owner), Find(g', owner);
    if i < |g| {
      assert g'[i].owner == owner;
    }
    if i' < |g'| && i' < |g| {
      assert g[i'].owner == owner;
    }
    if owner == c.owner && ValidChain(P, c.blocks) && i == |g| {
      assert g'[|g|] == c;
    }
  }

  lemma CopyConverges(P: Params, cs: seq<Copy>, full: Hash -> seq<(Hash, Hash)>, g0: seq<Copy>, i: nat)
    requires cs != [] && Snapshots(P, cs, full)
    requires OnePerOwnerAndCurrent(P, cs[..|cs| - 1], full, g0)
    requires i < |Deliver(P, g0, cs[|cs| - 1])|
    ensures Current(P, Deliver(P, g0, cs[|cs| - 1]), i, cs, full)
  {
    var n := |cs| - 1;
    var c := cs[n];
    var g := Deliver(P, g0, c);
    if i == |g0| {
      assert Longest(P, cs[..n], c.owner) < 0;
      PrefixHashes(c.blocks, full(c.owner));
    } else {
      assert Current(P, g0, i, cs[..n], full);
      var owner := g0[i].owner;
      if ValidChain(P, c.blocks) && c.owner == owner && i == Find(g0, owner) {
        PrefixHashes(c.blocks, full(owner));
        MergedHashes(P, g0[i].blocks, c.blocks, full(owner));
      }
    }
  }

  /** What the induction hypothesis says about the group before the last delivery. */
  ghost predicate OnePerOwnerAndCurrent(P: Params, cs: seq<Copy>, full: Hash -> seq<(Hash, Hash)>, g: seq<Copy>) {
    && (forall i :: 0 <= i < |g| ==> Current(P, g, i, cs, full))
    && (forall owner :: Longest(P, cs, owner) >= 0 <==> Find(g, owner) < |g|)
    && OnePerOwner(g)
  }

  lemma PrefixHashes(blocks: seq<Block>, full: seq<(Hash, Hash)>)
    requires Hashes(blocks) <= full
    ensures |blocks| <= |full| && Hashes(blocks) == full[..|blocks|]
  {
  }

  /** Merging two beginnings of one chain leaves the longer one. */
  lemma MergedHashes(P: Params, dst: seq<Block>, src: seq<Block>, full: seq<(Hash, Hash)>)
    requires ValidChain(P, dst) && ValidChain(P, src)
    requires Hashes(dst) <= full && Hashes(src) <= full
    ensures var d := Merged(dst, src).dst;
            && ValidChain(P, d)
            && Hashes(d) == full[..if |dst| >= |src| then |dst| else |src|]
  {
    if |dst| <= |src| {
      assert Hashes(dst) <= Hashes(src);
    } else {
      assert Hashes(src) <= Hashes(dst);
    }
    MergeJoinsPrefixes(P, dst, src);
  }

  // ----- The code

  /** `struct group_s`. */
  class Group {
    var roots: seq<Root>

    ghost predicate Valid()
      reads this, roots
    {
      && (forall i, j :: 0 <= i < j < |roots| ==> roots[i] != roots[j])
      && (forall i :: 0 <= i < |roots| ==> roots[i].Consistent())
    }

    ghost function View(): (g: seq<Copy>)
      reads this, roots
      ensures |g| == |roots|
      ensures forall i :: 0 <= i < |roots| ==> g[i] == Copy(roots[i].pubkeyhash, roots[i].blocks)
    {
      seq(|roots|, i requires 0 <= i < |roots| reads this, roots => Copy(roots[i].pubkeyhash, roots[i].blocks))
    }

    constructor ()
      ensures Valid() && View() == []
    {
      roots := [];
    }

    method FindRoot(owner: Hash) returns (i: nat)
      requires Valid()
      ensures i == Find(View(), owner)
    {
      i := 0;
      while i < |roots| && roots[i].pubkeyhash != owner
        invariant i <= |roots|
        invariant forall k :: 0 <= k < i ==> roots[k].pubkeyhash != owner
      {
        i := i + 1;
      }
    }

    /** Merges `src` into the root at position `i`. */
    method MergeAt(P: Params, i: nat, src: Root) returns (ok: bool)
      requires Valid() && src !in roots && src.Consistent() && i < |roots|
      requires ValidChain(P, src.blocks)
      modifies roots, src
      ensures Valid()
      ensures View() == old(View())[i := Copy(old(roots[i].pubkeyhash),
                          if ValidChain(P, old(roots[i].blocks))
                          then Merged(old(roots[i].blocks), old(src.blocks)).dst else old(roots[i].blocks))]
    {
      var root := roots[i];
      var merged;
      ok, merged := root.MergeWith(P, src);
      assert forall k :: 0 <= k < |roots| && k != i ==> roots[k] != root;
    }

    method AddRoot(owner: Hash, src: Root)
      requires Valid() && src !in roots && src.Consistent()
      modifies this, src`pubkeyhash
      ensures Valid() && View() == old(View()) + [Copy(owner, src.blocks)]
    {
      ghost var before := View();
      src.pubkeyhash := owner;
      roots := roots + [src];
      assert View()[..|before|] == before;
    }

    /** A chain `src`, just loaded from a received file, is imported or merged. */
    method Receive(P: Params, owner: Hash, src: Root) returns (ok: bool)
      requires Valid() && src !in roots && src.Consistent()
      modifies this, roots, src
      ensures Valid()
      ensures View() == Deliver(P, old(View()), Copy(owner, old(src.blocks)))
    {
      var valid := src.Validate(P);
      if !valid {
        return false;
      }
      var i := FindRoot(owner);
      if i < |roots| {
        ok := MergeAt(P, i, src);
      } else {
        AddRoot(owner, src);
        ok := true;
      }
    }
  }
}
