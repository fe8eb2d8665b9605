/** The local chain: commands on the main thread beside a mining thread (src/distfs.c, `mine` in src/block.c).
    Every call that touches shared state is one step, and steps of the two threads interleave freely. */
module Mining {
  import opened Blocks
  import opened Chain
  import opened Replicas

  /** Where the main thread is inside a command. */
  datatype Command =
    | Idle
    | SizeChecked    // saw an empty transaction list
    | Unlocked       // and then saw that no mining was under way
    | Spawning       // has set the mining state and is about to create the thread

  /** Where a mining thread is. */
  datatype Miner =
    | Started
    | Prepared(prev: Hash)
    | Copied(prev: Hash, txs: seq<Transaction>)
    | Cleaned(prev: Hash, txs: seq<Transaction>)
    | Trying(prev: Hash, txs: seq<Transaction>, digest: Hash, nonce: nat)
    | Found(block: Block)
    | Appended

  datatype State = State(
    command: Command, miners: seq<Miner>, mining: bool, newblock: bool,
    pending: seq<Transaction>, local: seq<Block>, hash: Hash, remote: seq<Copy>)

  datatype Event =
    // main thread
    | CheckSize                     // first step of adding or sharing a transaction
    | CheckLock
    | AddNew(timestamp: string, size: nat, chunks: seq<Chunk>, description: string, tags: string, key: Hash)
    | AddShared(i: nat, j: nat, k: nat)  // transaction `k` in block `j` of remote copy `i` is shared
    | Receive(copy: Copy)           // a chain arrives from its owner
    | GiveUp                        // the command fails after its checks
    | StartMining
    | Spawn
    | SpawnFails
    | Advertise
    // mining thread `m`
    | Prepare(m: nat)
    | CopyPending(m: nat)
    | CleanPending(m: nat)
    | LockBlock(m: nat)
    | Try(m: nat)
    | Append(m: nat)
    | Finish(m: nat)
    | Fail(m: nat)

  predicate At(s: State, m: nat) { m < |s.miners| }

  predicate Enabled(P: Params, s: State, e: Event) {
    match e
    case CheckSize => s.command == Idle
    case CheckLock => s.command == SizeChecked
    case AddNew(_, _, chunks, _, _, _) => s.command == Unlocked && chunks != []
    case AddShared(i, j, k) =>
      && s.command == Unlocked
      && i < |s.remote| && j < |s.remote[i].blocks| && k < |s.remote[i].blocks[j].txs|
    case Receive(_) => s.command == Idle
    case GiveUp => s.command == Unlocked
    case StartMining => s.command == Idle
    case Spawn => s.command == Spawning
    case SpawnFails => s.command == Spawning
    case Advertise => s.command == Idle
    case Prepare(m) => At(s, m) && s.miners[m].Started?
    case CopyPending(m) => At(s, m) && s.miners[m].Prepared?
    case CleanPending(m) => At(s, m) && s.miners[m].Copied?
    case LockBlock(m) => At(s, m) && s.miners[m].Cleaned?
    case Try(m) => At(s, m) && s.miners[m].Trying?
    case Append(m) => At(s, m) && s.miners[m].Found?
    case Finish(m) => At(s, m) && s.miners[m].Appended?
    case Fail(m) => At(s, m)
  }

  function Step(s: State, m: nat, to: Miner): State
    requires At(s, m)
  {
    s.(miners := s.miners[m := to])
  }

  function Exit(s: State, m: nat): State
    requires At(s, m)
  {
    s.(miners := s.miners[..m] + s.miners[m + 1..], mining := false)
  }

  /** One nonce is tried. */
  function TryNonce(P: Params, w: Miner): Miner
    requires w.Trying?
  {
    var pow := P.blockHash(w.digest, w.prev, w.nonce);
    if MeetsTarget(pow, P.target) then Found(Block(w.prev, w.digest, w.nonce, pow, w.txs))
    else w.(nonce := w.nonce + 1)
  }

  ghost function Next(P: Params, s: State, e: Event): State
    requires Enabled(P, s, e)
  {
    match e
    case CheckSize => s.(command := if |s.pending| > 0 then Idle else SizeChecked)
    case CheckLock => s.(command := if s.mining then Idle else Unlocked)
    case AddNew(timestamp, size, chunks, description, tags, key) =>
      s.(command := Idle,
         pending := s.pending + [InitTransaction(P, timestamp, size, chunks, description, tags, key)])
    case AddShared(i, j, k) => s.(command := Idle, pending := s.pending + [s.remote[i].blocks[j].txs[k]])
    case Receive(copy) => s.(remote := Deliver(P, s.remote, copy))
    case GiveUp => s.(command := Idle)
    case StartMining =>
      if s.mining || |s.pending| < 1 then s else s.(command := Spawning, mining := true)
    case Spawn => s.(command := Idle, miners := s.miners + [Started])
    case SpawnFails => s.(command := Idle)
    case Advertise => s.(newblock := false)
    case Prepare(m) => Step(s, m, Prepared(if s.local == [] then BASE_ROOT_HASH else s.hash))
    case CopyPending(m) => Step(s, m, Copied(s.miners[m].prev, s.pending))
    case CleanPending(m) => Step(s, m, Cleaned(s.miners[m].prev, s.miners[m].txs)).(pending := [])
    case LockBlock(m) =>
      var (txs, digest) := Lock(P, s.miners[m].prev, s.miners[m].txs);
      Step(s, m, Trying(s.miners[m].prev, txs, digest, 0))
    case Try(m) => Step(s, m, TryNonce(P, s.miners[m]))
    case Append(m) =>
      var b := s.miners[m].block;
      Step(s, m, Appended).(local := s.local + [b], hash := b.pow)
    case Finish(m) => Exit(s, m).(newblock := true)
    case Fail(m) => Exit(s, m)
  }

  // ----- Invariant

  /** No nonce below `n` would do. */
  ghost predicate NoneBelow(P: Params, digest: Hash, prev: Hash, n: nat) {
    forall k: nat :: k < n ==> !MeetsTarget(P.blockHash(digest, prev, k), P.target)
  }

  /** A block as mined here: exactly one transaction, which is valid and whose link digest the block
      commits to, and the first nonce that meets the target. */
  ghost predicate MinedBlock(P: Params, b: Block) {
    && |b.txs| == 1
    && ValidTransaction(P, b.txs[0])
    && b.transactions == b.txs[0].current == P.linkHash(b.prev, b.txs[0].hash)
    && ValidBlock(P, b)
    && NoneBelow(P, b.transactions, b.prev, b.nonce)
  }

  /** The miner works on one valid transaction and on the tip of the local chain. */
  ghost predicate MinerOk(P: Params, s: State, w: Miner) {
    match w
    case Started => |s.pending| == 1
    case Prepared(prev) => prev == Tip(s.local) && |s.pending| == 1
    case Copied(prev, txs) => prev == Tip(s.local) && |txs| == 1 && ValidTransaction(P, txs[0])
    case Cleaned(prev, txs) => prev == Tip(s.local) && |txs| == 1 && ValidTransaction(P, txs[0])
    case Trying(prev, txs, digest, nonce) =>
      && prev == Tip(s.local) && |txs| == 1 && ValidTransaction(P, txs[0]) && Linked(P, prev, txs)
      && digest == txs[0].current && NoneBelow(P, digest, prev, nonce)
    case Found(b) => b.prev == Tip(s.local) && MinedBlock(P, b)
    case Appended => true
  }

  /** `loaded` is the number of blocks the chain had when the program started. */
  ghost predicate Inv(P: Params, loaded: nat, s: State) {
    && |s.miners| <= 1
    && (s.miners != [] ==> s.mining && s.command != Spawning && s.command != Unlocked && MinerOk(P, s, s.miners[0]))
    && (s.command == Spawning ==> s.mining && |s.pending| == 1)
    && (s.command == Unlocked ==> !s.mining)
    && (s.command == SizeChecked || s.command == Unlocked ==> s.pending == [])
    && |s.pending| <= 1 && (s.pending != [] ==> ValidTransaction(P, s.pending[0]))
    && BlocksValid(P, s.remote)
    && s.hash == Tip(s.local)
    && ValidChain(P, s.local)
    && loaded <= |s.local|
    && (forall i :: loaded <= i < |s.local| ==> MinedBlock(P, s.local[i]))
  }

  /** The program starts with its own chain and copies of others, each loaded and validated. */
  ghost predicate Init(P: Params, s: State) {
    && s.command == Idle && s.miners == [] && !s.mining && s.pending == []
    && ValidChain(P, s.local) && s.hash == Tip(s.local) && AllValid(P, s.remote)
  }

  lemma InitKeeps(P: Params, s: State)
    requires Init(P, s)
    ensures Inv(P, |s.local|, s)
  {
    forall i, j | 0 <= i < |s.remote| && 0 <= j < |s.remote[i].blocks| ensures ValidBlock(P, s.remote[i].blocks[j]) {
      assert ValidAt(P, s.remote[i].blocks, j);
    }
  }

  lemma LockOne(P: Params, prev: Hash, txs: seq<Transaction>)
    requires |txs| == 1 && ValidTransaction(P, txs[0])
    ensures var (locked, digest) := Lock(P, prev, txs);
            |locked| == 1 && ValidTransaction(P, locked[0]) && Linked(P, prev, locked) && digest == locked[0].current
  {
    LockLinks(P, prev, txs);
  }

  lemma TryKeeps(P: Params, s: State, w: Miner)
    requires w.Trying? && MinerOk(P, s, w)
    ensures MinerOk(P, s, TryNonce(P, w))
  {
  }

  lemma MinerStepKeeps(P: Params, loaded: nat, s: State, e: Event)
    requires Inv(P, loaded, s) && Enabled(P, s, e)
    requires e.Prepare? || e.CopyPending? || e.CleanPending? || e.LockBlock? || e.Try?
    ensures Inv(P, loaded, Next(P, s, e))
  {
    var w := s.miners[0];
    assert MinerOk(P, s, w);
    match e
    case LockBlock(m) => LockOne(P, w.prev, w.txs);
    case Try(m) => TryKeeps(P, s, w);
    case _ =>
  }

  lemma AppendKeeps(P: Params, loaded: nat, s: State, m: nat)
    requires Inv(P, loaded, s) && Enabled(P, s, Append(m))
    ensures Inv(P, loaded, Next(P, s, Append(m)))
  {
    var b := s.miners[0].block;
    assert MinerOk(P, s, s.miners[0]);
    ValidAppend(P, s.local, b);
  }

  lemma StepKeeps(P: Params, loaded: nat, s: State, e: Event)
    requires Inv(P, loaded, s) && Enabled(P, s, e)
    ensures Inv(P, loaded, Next(P, s, e))
  {
    if e.Prepare? || e.CopyPending? || e.CleanPending? || e.LockBlock? || e.Try? {
      MinerStepKeeps(P, loaded, s, e);
    } else if e.Append? {
      AppendKeeps(P, loaded, s, e.m);
    } else if e.AddNew? {
      InitIsValid(P, e.timestamp, e.size, e.chunks, e.description, e.tags, e.key, "", "");
    } else if e.AddShared? {
      TransactionsInGroup(P, s.remote);
    } else if e.Receive? {
      DeliveryKeepsBlocks(P, s.remote, e.copy);
    }
  }

  ghost predicate Run(P: Params, es: seq<Event>, ss: seq<State>) {
    && |ss| == |es| + 1 && Init(P, ss[0])
    && forall i :: 0 <= i < |es| ==> Enabled(P, ss[i], es[i]) && ss[i + 1] == Next(P, ss[i], es[i])
  }

  lemma {:induction false} RunKeeps(P: Params, es: seq<Event>, ss: seq<State>, n: nat)
    requires Run(P, es, ss) && n < |ss|
    ensures Inv(P, |ss[0].local|, ss[n])
  {
    if n == 0 {
      InitKeeps(P, ss[0]);
    } else {
      RunKeeps(P, es, ss, n - 1);
      StepKeeps(P, |ss[0].local|, ss[n - 1], es[n - 1]);
    }
  }

  // ----- Main results

  /** Whatever the interleaving: a live miner implies the mining state, at most one miner is live and at
      most one transaction is pending. */
  lemma OneMinerOnePending(P: Params, es: seq<Event>, ss: seq<State>, n: nat)
    requires Run(P, es, ss) && n < |ss|
    ensures |ss[n].miners| <= 1 && (ss[n].miners != [] ==> ss[n].mining) && |ss[n].pending| <= 1
  {
    RunKeeps(P, es, ss, n);
  }

  /** Whatever the interleaving: `root.validate` accepts the local chain, it never loses a block, and every
      block added carries exactly one transaction that `transaction.validate` accepts. */
  lemma LocalChainIsSafe(P: Params, es: seq<Event>, ss: seq<State>, n: nat)
    requires Run(P, es, ss) && n < |ss|
    ensures ValidChain(P, ss[n].local) && ss[n].hash == Tip(ss[n].local)
    ensures ss[0].local <= ss[n].local
    ensures forall i :: |ss[0].local| <= i < |ss[n].local| ==> MinedBlock(P, ss[n].local[i])
  {
    RunKeeps(P, es, ss, n);
    ChainGrows(P, es, ss, n);
  }

  lemma {:induction false} ChainGrows(P: Params, es: seq<Event>, ss: seq<State>, n: nat)
    requires Run(P, es, ss) && n < |ss|
    ensures ss[0].local <= ss[n].local
  {
    if n > 0 {
      ChainGrows(P, es, ss, n - 1);
      assert ss[n] == Next(P, ss[n - 1], es[n - 1]);
    }
  }
}
