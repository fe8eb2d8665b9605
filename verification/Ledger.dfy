/** What becomes of the transactions: the ones that commands bring in end, in order, as blocks of the local chain,
    unless the mining thread fails while it holds one (src/distfs.c). */
module Ledger {
  import opened Common
  import opened Blocks
  import opened Chain
  import opened Replicas
  import opened Mining

  /** A transaction without its place in a block. */
  function Bare(t: Transaction): Transaction {
    t.(prev := "", current := "")
  }

  /** The transaction of a list that has at most one. */
  function Single(ts: seq<Transaction>): seq<Transaction> {
    if ts == [] then [] else [Bare(ts[0])]
  }

  // ----- What events bring in and take away

  /** The transaction that an event of the main thread brings in. */
  function BroughtBy(P: Params, s: State, e: Event): seq<Transaction>
    requires Enabled(P, s, e)
  {
    match e
    case AddNew(timestamp, size, chunks, description, tags, key) =>
      [Bare(InitTransaction(P, timestamp, size, chunks, description, tags, key))]
    case AddShared(i, j, k) => [Bare(s.remote[i].blocks[j].txs[k])]
    case _ => []
  }

  /** What a mining thread has taken out of the list and not yet put into the chain. */
  function HeldBy(w: Miner): seq<Transaction> {
    match w
    case Cleaned(_, txs) => Single(txs)
    case Trying(_, txs, _, _) => Single(txs)
    case Found(b) => Single(b.txs)
    case _ => []
  }

  function Held(s: State): seq<Transaction> {
    if s.miners == [] then [] else HeldBy(s.miners[0])
  }

  /** The event is the failure of a mining thread that holds a transaction. */
  predicate Takes(s: State, e: Event) {
    e.Fail? && At(s, e.m) && HeldBy(s.miners[e.m]) != []
  }

  /** All transactions brought in by the first `n` events of a run, in order. */
  function Brought(P: Params, es: seq<Event>, ss: seq<State>, n: nat): seq<Transaction>
    requires n <= |es| < |ss| && forall i :: 0 <= i < |es| ==> Enabled(P, ss[i], es[i])
  {
    if n == 0 then [] else Brought(P, es, ss, n - 1) + BroughtBy(P, ss[n - 1], es[n - 1])
  }

  /** For each of them, whether a failing thread took it away: always the last one brought in. */
  function Taken(P: Params, es: seq<Event>, ss: seq<State>, n: nat): (taken: seq<bool>)
    requires n <= |es| < |ss| && forall i :: 0 <= i < |es| ==> Enabled(P, ss[i], es[i])
    ensures |taken| == |Brought(P, es, ss, n)|
  {
    if n == 0 then [] else
    var taken := Taken(P, es, ss, n - 1);
    if Takes(ss[n - 1], es[n - 1]) && taken != [] then taken[|taken| - 1 := true]
    else taken + seq(|BroughtBy(P, ss[n - 1], es[n - 1])|, _ => false)
  }

  /** Those that were not taken away. */
  function Left(ts: seq<Transaction>, taken: seq<bool>): seq<Transaction>
    requires |taken| == |ts|
  {
    if ts == [] then [] else
    var k := |ts| - 1;
    Left(ts[..k], taken[..k]) + if taken[k] then [] else [ts[k]]
  }

  /** The transactions in the blocks after the first `loaded`. */
  function InBlocks(local: seq<Block>, loaded: nat): seq<Transaction>
    decreases |local|
  {
    if |local| <= loaded then [] else
    var k := |local| - 1;
    InBlocks(local[..k], loaded) + Single(local[k].txs)
  }

  lemma LeftGrows(ts: seq<Transaction>, taken: seq<bool>, t: Transaction)
    requires |taken| == |ts|
    ensures Left(ts + [t], taken + [false]) == Left(ts, taken) + [t]
  {
    assert (ts + [t])[..|ts|] == ts && (taken + [false])[..|ts|] == taken;
  }

  lemma LeftShrinks(ts: seq<Transaction>, taken: seq<bool>)
    requires |taken| == |ts| && ts != [] && !taken[|ts| - 1]
    ensures Left(ts, taken) == Left(ts, taken[|ts| - 1 := true]) + [ts[|ts| - 1]]
  {
    var k := |ts| - 1;
    assert taken[k := true][..k] == taken[..k];
  }

  lemma BlockAdded(local: seq<Block>, loaded: nat, b: Block)
    requires loaded <= |local|
    ensures InBlocks(local + [b], loaded) == InBlocks(local, loaded) + Single(b.txs)
  {
    assert (local + [b])[..|local|] == local;
  }

  // ----- The books

  /** On its way: held by the mining thread, or else in the list. */
  function UnderWay(s: State): seq<Transaction> {
    if Held(s) != [] then Held(s) else Single(s.pending)
  }

  /** A thread that has copied the list works on what is still in it; once it holds something, the list is empty. */
  ghost predicate HandOver(s: State) {
    s.miners != [] ==>
      && (s.miners[0].Copied? ==> s.pending == s.miners[0].txs)
      && (HeldBy(s.miners[0]) != [] ==> s.pending == [])
  }

  /** Everything brought in and not taken away is in the added blocks or on its way, in this order. */
  ghost predicate Books(loaded: nat, s: State, brought: seq<Transaction>, taken: seq<bool>) {
    && |taken| == |brought| && loaded <= |s.local|
    && HandOver(s)
    && Left(brought, taken) == InBlocks(s.local, loaded) + UnderWay(s)
    && (UnderWay(s) != [] ==> taken != [] && !taken[|taken| - 1])
  }

  /** How many transactions a thread works on. */
  predicate OneEach(w: Miner) {
    match w
    case Copied(_, txs) => |txs| == 1
    case Cleaned(_, txs) => |txs| == 1
    case Trying(_, txs, _, _) => |txs| == 1
    case Found(b) => |b.txs| == 1
    case _ => true
  }

  /** At most one thread and one transaction in the list, and no command between its checks and its effect while a
      thread lives. */
  ghost predicate Tidy(s: State) {
    && |s.miners| <= 1 && |s.pending| <= 1
    && (s.miners != [] ==> s.mining && s.command != Spawning && s.command != Unlocked && OneEach(s.miners[0]))
    && (s.command == Spawning ==> s.mining)
    && (s.command == Unlocked ==> !s.mining && s.pending == [])
  }

  lemma InvTidy(P: Params, loaded: nat, s: State)
    requires Mining.Inv(P, loaded, s)
    ensures Tidy(s)
  {
    assert s.miners != [] ==> MinerOk(P, s, s.miners[0]);
  }

  lemma RunTidy(P: Params, es: seq<Event>, ss: seq<State>, n: nat)
    requires Run(P, es, ss) && n < |ss|
    ensures Tidy(ss[n])
  {
    Mining.RunKeeps(P, es, ss, n);
    InvTidy(P, |ss[0].local|, ss[n]);
  }

  ghost predicate Same(s: State, s': State) {
    s'.local == s.local && UnderWay(s') == UnderWay(s) && HandOver(s')
  }

  /** Steps that neither bring in nor take away nor append leave everything where it is. */
  lemma OthersKeep(P: Params, s: State, e: Event)
    requires Tidy(s) && Enabled(P, s, e) && HandOver(s)
    requires !e.AddNew? && !e.AddShared? && !e.Append? && !Takes(s, e)
    ensures Same(s, Next(P, s, e))
  {
    if e.Prepare? || e.CopyPending? || e.CleanPending? || e.LockBlock? || e.Try? {
      WorkKeeps(P, s, e);
    }
  }

  /** The thread goes from one state to the next, with the same transaction. */
  lemma WorkKeeps(P: Params, s: State, e: Event)
    requires Tidy(s) && Enabled(P, s, e) && HandOver(s)
    requires e.Prepare? || e.CopyPending? || e.CleanPending? || e.LockBlock? || e.Try?
    ensures Same(s, Next(P, s, e))
  {
    if e.LockBlock? {
      LockKeepsBare(P, s.miners[0].prev, s.miners[0].txs);
    }
  }

  lemma LockKeepsBare(P: Params, prev: Hash, txs: seq<Transaction>)
    requires |txs| == 1
    ensures Single(Lock(P, prev, txs).0) == Single(txs)
  {
  }

  lemma BringKeeps(P: Params, loaded: nat, s: State, e: Event, brought: seq<Transaction>, taken: seq<bool>)
    requires Tidy(s) && Enabled(P, s, e) && (e.AddNew? || e.AddShared?)
    requires Books(loaded, s, brought, taken)
    ensures Books(loaded, Next(P, s, e), brought + BroughtBy(P, s, e), taken + [false])
  {
    var s', t := Next(P, s, e), BroughtBy(P, s, e)[0];
    assert UnderWay(s) == [] && UnderWay(s') == [t];
    LeftGrows(brought, taken, t);
    EmptyRight(InBlocks(s.local, loaded));
  }

  lemma AppendKeepsBooks(P: Params, loaded: nat, s: State, m: nat, brought: seq<Transaction>, taken: seq<bool>)
    requires Tidy(s) && Enabled(P, s, Append(m)) && Books(loaded, s, brought, taken)
    ensures Books(loaded, Next(P, s, Append(m)), brought, taken)
  {
    AppendMoves(P, loaded, s, m);
    EmptyRight(InBlocks(Next(P, s, Append(m)).local, loaded));
  }

  /** What was on its way is in the new block. */
  lemma AppendMoves(P: Params, loaded: nat, s: State, m: nat)
    requires Tidy(s) && Enabled(P, s, Append(m)) && HandOver(s) && loaded <= |s.local|
    ensures var s' := Next(P, s, Append(m));
            && HandOver(s') && UnderWay(s') == []
            && InBlocks(s'.local, loaded) == InBlocks(s.local, loaded) + UnderWay(s)
  {
    AppendShape(P, s, m);
    BlockAdded(s.local, loaded, s.miners[0].block);
  }

  lemma AppendShape(P: Params, s: State, m: nat)
    requires Tidy(s) && Enabled(P, s, Append(m))
    ensures var s' := Next(P, s, Append(m));
            && |s.miners| == 1 && s.miners[0].Found? && |s.miners[0].block.txs| == 1
            && s'.miners == [Appended] && s'.pending == s.pending && s'.local == s.local + [s.miners[0].block]
  {
  }

  /** A failing thread takes away exactly the transaction brought in last. */
  lemma TakeKeeps(P: Params, loaded: nat, s: State, e: Event, brought: seq<Transaction>, taken: seq<bool>)
    requires Tidy(s) && Enabled(P, s, e) && Takes(s, e) && Books(loaded, s, brought, taken)
    ensures taken != [] && Books(loaded, Next(P, s, e), brought, taken[|taken| - 1 := true])
    ensures Held(s) == [brought[|brought| - 1]]
  {
    var s', k := Next(P, s, e), |brought| - 1;
    assert |Held(s)| == 1 && UnderWay(s) == Held(s) && UnderWay(s') == [];
    LeftShrinks(brought, taken);
    EmptyRight(InBlocks(s.local, loaded));
    LastMoved(InBlocks(s.local, loaded), Held(s)[0], Left(brought, taken[k := true]), brought[k]);
  }

  lemma LastMoved(a: seq<Transaction>, x: Transaction, b: seq<Transaction>, y: Transaction)
    requires a + [x] == b + [y]
    ensures a == b && x == y
  {
    assert (a + [x])[..|a|] == a && (b + [y])[..|b|] == b;
    assert (a + [x])[|a|] == x && (b + [y])[|b|] == y;
  }

  // ----- Main results

  lemma {:induction false} RunKeepsBooks(P: Params, es: seq<Event>, ss: seq<State>, n: nat)
    requires Run(P, es, ss) && n <= |es|
    ensures Books(|ss[0].local|, ss[n], Brought(P, es, ss, n), Taken(P, es, ss, n))
  {
    if n == 0 {
      assert UnderWay(ss[0]) == [];
    } else {
      RunKeepsBooks(P, es, ss, n - 1);
      RunTidy(P, es, ss, n - 1);
      assert ss[n] == Next(P, ss[n - 1], es[n - 1]);
      StepKeepsBooks(P, |ss[0].local|, ss[n - 1], es[n - 1], Brought(P, es, ss, n - 1), Taken(P, es, ss, n - 1));
    }
  }

  lemma StepKeepsBooks(P: Params, loaded: nat, s: State, e: Event, brought: seq<Transaction>, taken: seq<bool>)
    requires Tidy(s) && Enabled(P, s, e) && Books(loaded, s, brought, taken)
    ensures Takes(s, e) ==> taken != []
    ensures var taken' := if Takes(s, e) then taken[|taken| - 1 := true]
                          else taken + seq(|BroughtBy(P, s, e)|, _ => false);
            Books(loaded, Next(P, s, e), brought + BroughtBy(P, s, e), taken')
  {
    if e.AddNew? || e.AddShared? {
      BringKeeps(P, loaded, s, e, brought, taken);
      assert seq(1, _ => false) == [false];
    } else {
      EmptyRight(brought);
      assert taken + seq(0, _ => false) == taken;
      if e.Append? {
        AppendKeepsBooks(P, loaded, s, e.m, brought, taken);
      } else if Takes(s, e) {
        TakeKeeps(P, loaded, s, e, brought, taken);
      } else {
        OthersKeep(P, s, e);
      }
    }
  }

  /** In every run, whatever the interleaving: the transactions brought in, less those that a failing thread held,
      are those of the blocks added to the local chain, in order, followed by the one on its way, if any. */
  lemma EveryTransactionIsAccountedFor(P: Params, es: seq<Event>, ss: seq<State>, n: nat)
    requires Run(P, es, ss) && n <= |es|
    ensures Left(Brought(P, es, ss, n), Taken(P, es, ss, n)) == InBlocks(ss[n].local, |ss[0].local|) + UnderWay(ss[n])
    ensures |ss[n].pending| <= 1 && (Held(ss[n]) != [] ==> ss[n].pending == [])
  {
    RunKeepsBooks(P, es, ss, n);
    RunTidy(P, es, ss, n);
  }

  /** In every run: a failing thread that holds a transaction holds the one brought in last, and it had not been
      taken away. */
  lemma FailureTakesTheLast(P: Params, es: seq<Event>, ss: seq<State>, n: nat)
    requires Run(P, es, ss) && n < |es| && Takes(ss[n], es[n])
    ensures var taken, brought := Taken(P, es, ss, n), Brought(P, es, ss, n);
            && taken != [] && !taken[|taken| - 1] && Taken(P, es, ss, n + 1) == taken[|taken| - 1 := true]
            && Held(ss[n]) == [brought[|brought| - 1]]
  {
    RunKeepsBooks(P, es, ss, n);
    RunTidy(P, es, ss, n);
    HeldIsLast(P, |ss[0].local|, ss[n], es[n], Brought(P, es, ss, n), Taken(P, es, ss, n));
  }

  lemma HeldIsLast(P: Params, loaded: nat, s: State, e: Event, brought: seq<Transaction>, taken: seq<bool>)
    requires Tidy(s) && Enabled(P, s, e) && Takes(s, e) && Books(loaded, s, brought, taken)
    ensures taken != [] && !taken[|taken| - 1] && Held(s) == [brought[|brought| - 1]]
  {
    TakeKeeps(P, loaded, s, e, brought, taken);
    assert UnderWay(s) == Held(s);
  }

  /** How many of the first `n` events append a block. */
  function Appends(es: seq<Event>, n: nat): nat
    requires n <= |es|
  {
    if n == 0 then 0 else Appends(es, n - 1) + if es[n - 1].Append? then 1 else 0
  }

  /** In every run the local chain has grown by one block for every time a thread appended one. */
  lemma {:induction false} ChainGrowsByAppends(P: Params, es: seq<Event>, ss: seq<State>, n: nat)
    requires Run(P, es, ss) && n <= |es|
    ensures |ss[n].local| == |ss[0].local| + Appends(es, n)
  {
    if n > 0 {
      ChainGrowsByAppends(P, es, ss, n - 1);
      assert ss[n] == Next(P, ss[n - 1], es[n - 1]);
    }
  }

  /** The creation of a thread failed among the first `n` events. */
  predicate SpawnFailed(es: seq<Event>, n: nat)
    requires n <= |es|
  {
    n > 0 && (es[n - 1].SpawnFails? || SpawnFailed(es, n - 1))
  }

  /** In every run the mining state is set exactly while a thread is being created or lives, and for good once the
      creation of one has failed. */
  lemma {:induction false} MiningStateExactly(P: Params, es: seq<Event>, ss: seq<State>, n: nat)
    requires Run(P, es, ss) && n <= |es|
    ensures ss[n].mining <==> ss[n].command == Spawning || ss[n].miners != [] || SpawnFailed(es, n)
    ensures SpawnFailed(es, n) ==> ss[n].command != Spawning && ss[n].miners == []
  {
    if n > 0 {
      MiningStateExactly(P, es, ss, n - 1);
      RunTidy(P, es, ss, n - 1);
      MiningStateStep(P, ss[n - 1], es[n - 1], SpawnFailed(es, n - 1));
    }
  }

  /** The mining state is set for a reason. */
  ghost predicate Justified(s: State, failed: bool) {
    && (s.mining <==> s.command == Spawning || s.miners != [] || failed)
    && (failed ==> s.command != Spawning && s.miners == [])
  }

  lemma MiningStateStep(P: Params, s: State, e: Event, failed: bool)
    requires Tidy(s) && Enabled(P, s, e) && Justified(s, failed)
    ensures Justified(Next(P, s, e), failed || e.SpawnFails?)
  {
  }

  /** A thread has finished since the last time the chain was advertised, or there was something to advertise from
      the start. */
  predicate Unadvertised(es: seq<Event>, start: bool, n: nat)
    requires n <= |es|
  {
    if n == 0 then start else es[n - 1].Finish? || (!es[n - 1].Advertise? && Unadvertised(es, start, n - 1))
  }

  lemma {:induction false} NewBlockExactly(P: Params, es: seq<Event>, ss: seq<State>, n: nat)
    requires Run(P, es, ss) && n <= |es|
    ensures ss[n].newblock <==> Unadvertised(es, ss[0].newblock, n)
  {
    if n > 0 {
      NewBlockExactly(P, es, ss, n - 1);
      assert ss[n] == Next(P, ss[n - 1], es[n - 1]);
    }
  }

  /** The chains received in the first `n` events, in order. */
  function Received(es: seq<Event>, n: nat): seq<Copy>
    requires n <= |es|
  {
    if n == 0 then [] else Received(es, n - 1) + if es[n - 1].Receive? then [es[n - 1].copy] else []
  }

  ghost function DeliverAll(P: Params, g: seq<Copy>, cs: seq<Copy>): seq<Copy> {
    if cs == [] then g else Deliver(P, DeliverAll(P, g, cs[..|cs| - 1]), cs[|cs| - 1])
  }

  /** In every run the copies of other chains are the loaded ones with the chains received delivered to them in
      order, whatever the threads do meanwhile. */
  lemma {:induction false} CopiesAreDeliveries(P: Params, es: seq<Event>, ss: seq<State>, n: nat)
    requires Run(P, es, ss) && n <= |es|
    ensures ss[n].remote == DeliverAll(P, ss[0].remote, Received(es, n))
  {
    if n > 0 {
      var cs, e := Received(es, n - 1), es[n - 1];
      CopiesAreDeliveries(P, es, ss, n - 1);
      assert ss[n] == Next(P, ss[n - 1], e);
      if e.Receive? {
        assert (cs + [e.copy])[..|cs|] == cs;
      } else {
        assert cs + [] == cs;
      }
    }
  }

  // ----- Commands that go through

  /** The events lead from `s` to `s'`. */
  ghost predicate Leads(P: Params, s: State, es: seq<Event>, s': State)
    decreases |es|
  {
    if es == [] then s' == s else Enabled(P, s, es[0]) && Leads(P, Next(P, s, es[0]), es[1..], s')
  }

  lemma {:induction false} LeadsOn(P: Params, s: State, es: seq<Event>, t: State, fs: seq<Event>, u: State)
    requires Leads(P, s, es, t) && Leads(P, t, fs, u)
    ensures Leads(P, s, es + fs, u)
    decreases |es|
  {
    if es == [] {
      assert es + fs == fs;
    } else {
      LeadsOn(P, Next(P, s, es[0]), es[1..], t, fs, u);
      assert (es + fs)[1..] == es[1..] + fs;
    }
  }

  lemma LeadsBy(P: Params, s: State, es: seq<Event>, t: State, e: Event, u: State)
    requires Leads(P, s, es, t) && Enabled(P, t, e) && Next(P, t, e) == u
    ensures Leads(P, s, es + [e], u)
  {
    assert [e][1..] == [];
    LeadsOn(P, s, es, t, [e], u);
  }

  /** No command and no thread is under way, and nothing is in the list. */
  ghost predicate Quiet(s: State) {
    s.command == Idle && s.miners == [] && !s.mining && s.pending == [] && s.hash == Tip(s.local)
  }

  /** The block that mining transaction `t` after `prev` gives with this nonce. */
  function BlockOf(P: Params, prev: Hash, t: Transaction, nonce: nat): Block {
    var digest := P.linkHash(prev, t.hash);
    Block(prev, digest, nonce, P.blockHash(digest, prev, nonce), [t.(prev := prev, current := digest)])
  }

  /** The transaction is brought in and a thread created. */
  lemma CommandsGoThrough(P: Params, s: State, e: Event, t: Transaction)
    requires Quiet(s) && e.AddNew? && e.chunks != []
    requires t == InitTransaction(P, e.timestamp, e.size, e.chunks, e.description, e.tags, e.key)
    ensures Leads(P, s, [CheckSize, CheckLock, e, StartMining, Spawn],
                  s.(pending := [t], mining := true, miners := [Started]))
  {
    var s1, s2 := s.(command := SizeChecked), s.(command := Unlocked);
    var s3 := s.(pending := [t]);
    var s4 := s3.(command := Spawning, mining := true);
    LeadsBy(P, s, [], s, CheckSize, s1);
    LeadsBy(P, s, [] + [CheckSize], s1, CheckLock, s2);
    LeadsBy(P, s, [] + [CheckSize] + [CheckLock], s2, e, s3);
    LeadsBy(P, s, [] + [CheckSize] + [CheckLock] + [e], s3, StartMining, s4);
    LeadsBy(P, s, [] + [CheckSize] + [CheckLock] + [e] + [StartMining], s4, Spawn,
            s3.(mining := true, miners := [Started]));
    assert [] + [CheckSize] + [CheckLock] + [e] + [StartMining] + [Spawn]
        == [CheckSize, CheckLock, e, StartMining, Spawn];
  }

  /** The thread takes the transaction over and links it. */
  lemma ThreadPrepares(P: Params, s: State, t: Transaction)
    requires Quiet(s)
    ensures var b := BlockOf(P, Tip(s.local), t, 0);
            Leads(P, s.(pending := [t], mining := true, miners := [Started]),
                  [Prepare(0), CopyPending(0), CleanPending(0), LockBlock(0)],
                  s.(mining := true, miners := [Trying(b.prev, b.txs, b.transactions, 0)]))
  {
    var prev, m := Tip(s.local), s.(pending := [t], mining := true);
    var s0, s1, s2 := m.(miners := [Started]), m.(miners := [Prepared(prev)]), m.(miners := [Copied(prev, [t])]);
    var s3 := s.(mining := true, miners := [Cleaned(prev, [t])]);
    var b := BlockOf(P, prev, t, 0);
    LeadsBy(P, s0, [], s0, Prepare(0), s1);
    LeadsBy(P, s0, [] + [Prepare(0)], s1, CopyPending(0), s2);
    LeadsBy(P, s0, [] + [Prepare(0)] + [CopyPending(0)], s2, CleanPending(0), s3);
    LockIs(P, prev, t);
    LeadsBy(P, s0, [] + [Prepare(0)] + [CopyPending(0)] + [CleanPending(0)], s3, LockBlock(0),
            s3.(miners := [Trying(prev, b.txs, b.transactions, 0)]));
    assert [] + [Prepare(0)] + [CopyPending(0)] + [CleanPending(0)] + [LockBlock(0)]
        == [Prepare(0), CopyPending(0), CleanPending(0), LockBlock(0)];
  }

  lemma LockIs(P: Params, prev: Hash, t: Transaction)
    ensures var b := BlockOf(P, prev, t, 0); Lock(P, prev, [t]) == (b.txs, b.transactions)
  {
    var b := BlockOf(P, prev, t, 0);
    assert [t][1..] == [] && Lock(P, b.transactions, []) == ([], b.transactions);
    assert b.txs + [] == b.txs;
  }

  function Tries(n: nat): seq<Event> {
    if n == 0 then [] else Tries(n - 1) + [Try(0)]
  }

  /** Nonces are tried one after the other, and the first that meets the target is taken. */
  lemma {:induction false} NoncesAreTried(P: Params, s: State, w: Miner, n: nat)
    requires w.Trying? && w.nonce == 0 && s.miners == [w] && NoneBelow(P, w.digest, w.prev, n)
    ensures Leads(P, s, Tries(n), s.(miners := [w.(nonce := n)]))
  {
    if n == 0 {
      assert w.(nonce := 0) == w;
    } else {
      NoncesAreTried(P, s, w, n - 1);
      var t, u := s.(miners := [w.(nonce := n - 1)]), s.(miners := [w.(nonce := n)]);
      assert !MeetsTarget(P.blockHash(w.digest, w.prev, n - 1), P.target);
      LeadsBy(P, s, Tries(n - 1), t, Try(0), u);
    }
  }

  /** The block found is appended, and the thread ends. */
  lemma ThreadFinishes(P: Params, s: State, w: Miner, b: Block)
    requires w.Trying? && s.miners == [w] && b == Block(w.prev, w.digest, w.nonce, b.pow, w.txs)
    requires b.pow == P.blockHash(w.digest, w.prev, w.nonce) && MeetsTarget(b.pow, P.target)
    ensures Leads(P, s, [Try(0), Append(0), Finish(0)],
                  s.(miners := [], mining := false, newblock := true, local := s.local + [b], hash := b.pow))
  {
    var s1 := s.(miners := [Found(b)]);
    var s2 := s.(miners := [Appended], local := s.local + [b], hash := b.pow);
    LeadsBy(P, s, [], s, Try(0), s1);
    LeadsBy(P, s, [] + [Try(0)], s1, Append(0), s2);
    assert [Appended][..0] + [Appended][1..] == [];
    LeadsBy(P, s, [] + [Try(0)] + [Append(0)], s2, Finish(0), s2.(miners := [], mining := false, newblock := true));
    assert [] + [Try(0)] + [Append(0)] + [Finish(0)] == [Try(0), Append(0), Finish(0)];
  }

  /** From every quiet state, with any chain: adding a file and mining lead to a chain with one block more, which
      holds the new transaction and the smallest nonce that meets the target, and to a quiet state again. */
  lemma MiningGoesThrough(P: Params, s: State, e: Event, nonce: nat) returns (es: seq<Event>)
    requires Quiet(s) && e.AddNew? && e.chunks != []
    requires var t := InitTransaction(P, e.timestamp, e.size, e.chunks, e.description, e.tags, e.key);
             var b := BlockOf(P, Tip(s.local), t, nonce);
             MeetsTarget(b.pow, P.target) && NoneBelow(P, b.transactions, b.prev, nonce)
    ensures var t := InitTransaction(P, e.timestamp, e.size, e.chunks, e.description, e.tags, e.key);
            var b := BlockOf(P, Tip(s.local), t, nonce);
            && Leads(P, s, es, s.(newblock := true, local := s.local + [b], hash := b.pow))
            && Quiet(s.(newblock := true, local := s.local + [b], hash := b.pow))
  {
    var t := InitTransaction(P, e.timestamp, e.size, e.chunks, e.description, e.tags, e.key);
    var b := BlockOf(P, Tip(s.local), t, nonce);
    var w := Trying(b.prev, b.txs, b.transactions, 0);
    var s1, s2 := s.(pending := [t], mining := true, miners := [Started]), s.(mining := true, miners := [w]);
    var s3 := s.(mining := true, miners := [w.(nonce := nonce)]);
    var s4 := s.(newblock := true, local := s.local + [b], hash := b.pow);
    CommandsGoThrough(P, s, e, t);
    ThreadPrepares(P, s, t);
    es := [CheckSize, CheckLock, e, StartMining, Spawn] + [Prepare(0), CopyPending(0), CleanPending(0), LockBlock(0)];
    LeadsOn(P, s, [CheckSize, CheckLock, e, StartMining, Spawn], s1,
            [Prepare(0), CopyPending(0), CleanPending(0), LockBlock(0)], s2);
    NoncesAreTried(P, s2, w, nonce);
    LeadsOn(P, s, es, s2, Tries(nonce), s3);
    ThreadFinishes(P, s3, w.(nonce := nonce), b);
    LeadsOn(P, s, es + Tries(nonce), s3, [Try(0), Append(0), Finish(0)], s4);
    es := es + Tries(nonce) + [Try(0), Append(0), Finish(0)];
  }
}
