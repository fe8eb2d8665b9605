/** The list of download jobs against the commands given, and what the states of chunks mean (src/job.c). */
module JobHistory {
  import opened Common
  import opened Jobs

  // ----- Which jobs there are

  /** The file was asked for and not given up since. */
  predicate Wanted(es: seq<Event>, name: string) {
    es != [] &&
    var (front, e) := (es[..|es| - 1], es[|es| - 1]);
    match e
    case Add(n, _) => n == name || Wanted(front, name)
    case Remove(n) => n != name && Wanted(front, name)
    case _ => Wanted(front, name)
  }

  /** The chunks named when the file was asked for while it was not yet wanted. */
  function Asked(es: seq<Event>, name: string): seq<string> {
    if es == [] then [] else
    var (front, e) := (es[..|es| - 1], es[|es| - 1]);
    if e.Add? && e.name == name && !Wanted(front, name) then e.hashes else Asked(front, name)
  }

  ghost predicate Named(jobs: seq<Data>, name: string) {
    exists k :: 0 <= k < |jobs| && jobs[k].name == name
  }

  function HashesOf(j: Data): (hs: seq<string>)
    ensures |hs| == |j.chunks| && forall i :: 0 <= i < |hs| ==> hs[i] == j.chunks[i].hash
  {
    seq(|j.chunks|, i requires 0 <= i < |j.chunks| => j.chunks[i].hash)
  }

  /** The jobs are those of the wanted files, with the chunks asked for. */
  ghost predicate Matches(jobs: seq<Data>, es: seq<Event>) {
    && (forall name :: Named(jobs, name) <==> Wanted(es, name))
    && (forall k :: 0 <= k < |jobs| ==> HashesOf(jobs[k]) == Asked(es, jobs[k].name))
  }

  ghost predicate Alike(j: Data, k: Data) {
    j.name == k.name && HashesOf(j) == HashesOf(k)
  }

  lemma EvolvesAlike(j: Data, k: Data)
    requires Evolves(j, k)
    ensures Alike(j, k)
  {
  }

  /** Resuming and recording change neither names nor hashes. */
  lemma OthersMatch(s: State, e: Event, es: seq<Event>)
    requires Inv(s) && Matches(s.jobs, es) && (e.Resume? || e.Update?)
    ensures Matches(Next(s, e).jobs, es + [e])
  {
    var jobs := Next(s, e).jobs;
    assert (es + [e])[..|es|] == es;
    forall k | 0 <= k < |jobs| ensures Alike(s.jobs[k], jobs[k]) {
      OriginEvolves(s, e, k);
      EvolvesAlike(s.jobs[k], jobs[k]);
    }
    forall name ensures Named(jobs, name) <==> Named(s.jobs, name) {
      if Named(jobs, name) {
        var k :| 0 <= k < |jobs| && jobs[k].name == name;
        assert s.jobs[k].name == name;
      }
      if Named(s.jobs, name) {
        var k :| 0 <= k < |s.jobs| && s.jobs[k].name == name;
        assert jobs[k].name == name;
      }
    }
  }

  lemma AddMatches(s: State, name: string, hashes: seq<string>, es: seq<Event>)
    requires Matches(s.jobs, es)
    ensures Matches(Next(s, Add(name, hashes)).jobs, es + [Add(name, hashes)])
  {
    var e, jobs := Add(name, hashes), Next(s, Add(name, hashes)).jobs;
    assert (es + [e])[..|es|] == es;
    NamedIsFound(s.jobs, name);
    if !Named(s.jobs, name) {
      var j := Created(s.next, name, hashes);
      assert HashesOf(j) == hashes;
      assert jobs[|s.jobs|] == j;
      forall n | Named(s.jobs, n) ensures Named(jobs, n) {
        var k :| 0 <= k < |s.jobs| && s.jobs[k].name == n;
        assert jobs[k].name == n;
      }
    }
  }

  lemma NamedIsFound(jobs: seq<Data>, name: string)
    ensures Named(jobs, name) <==> JobNamed(jobs, name) < |jobs|
  {
    var k := JobNamed(jobs, name);
    assert k < |jobs| ==> jobs[k].name == name;
  }

  lemma RemoveMatches(s: State, name: string, es: seq<Event>)
    requires Inv(s) && Matches(s.jobs, es)
    ensures Matches(Next(s, Remove(name)).jobs, es + [Remove(name)])
  {
    var e, k, jobs := Remove(name), JobNamed(s.jobs, name), Next(s, Remove(name)).jobs;
    RemovedUnwanted(es, name);
    NamedIsFound(s.jobs, name);
    if k < |s.jobs| {
      NamedAfterRemoval(s.jobs, k);
      forall l | 0 <= l < |jobs| ensures HashesOf(jobs[l]) == Asked(es + [e], jobs[l].name) {
        assert jobs[l] == s.jobs[if l < k then l else l + 1];
      }
    }
  }

  lemma RemovedUnwanted(es: seq<Event>, name: string)
    ensures forall n :: Wanted(es + [Remove(name)], n) <==> Wanted(es, n) && n != name
    ensures forall n :: Asked(es + [Remove(name)], n) == Asked(es, n)
  {
    assert (es + [Remove(name)])[..|es|] == es;
  }

  lemma NamedAfterRemoval(jobs: seq<Data>, k: nat)
    requires k < |jobs| && forall i, j :: 0 <= i < j < |jobs| ==> jobs[i].name != jobs[j].name
    ensures forall n :: Named(jobs[..k] + jobs[k + 1..], n) <==> Named(jobs, n) && n != jobs[k].name
  {
    var jobs' := jobs[..k] + jobs[k + 1..];
    forall n | Named(jobs', n) ensures Named(jobs, n) && n != jobs[k].name {
      var l :| 0 <= l < |jobs'| && jobs'[l].name == n;
      assert jobs'[l] == jobs[if l < k then l else l + 1];
    }
    forall n | Named(jobs, n) && n != jobs[k].name ensures Named(jobs', n) {
      var l :| 0 <= l < |jobs| && jobs[l].name == n;
      assert jobs'[if l < k then l else l - 1] == jobs[l];
    }
  }

  /** After every sequence of operations there is a job for a file exactly if it was asked for and not given up since,
      and its chunks are those named when it was asked for. */
  lemma {:induction false} JobsMatch(es: seq<Event>)
    ensures Matches(After(es).jobs, es)
  {
    if es != [] {
      var front, e := es[..|es| - 1], es[|es| - 1];
      JobsMatch(front);
      RunKeeps(front);
      assert es == front + [e];
      match e
      case Add(name, hashes) => AddMatches(After(front), name, hashes, front);
      case Remove(name) => RemoveMatches(After(front), name, front);
      case _ => OthersMatch(After(front), e, front);
    }
  }

  // ----- What arriving chunks do

  /** The jobs before and after differ in at most the chunk at place `i` of job `k`. */
  ghost predicate ElsewhereSame(jobs: seq<Data>, jobs': seq<Data>, k: nat, i: nat) {
    && |jobs'| == |jobs|
    && forall l :: 0 <= l < |jobs| ==>
         |jobs'[l].chunks| == |jobs[l].chunks|
         && forall m :: 0 <= m < |jobs[l].chunks| && !(l == k && m == i) ==> jobs'[l].chunks[m] == jobs[l].chunks[m]
  }

  /** A chunk that arrives is done afterwards in the first job that has it, at its first place, and no other chunk
      of any job changes; if no job has it, nothing does. */
  lemma ArrivalMarksExactly(s: State, hash: string, k: nat, i: nat)
    requires k < |s.jobs| && i < |s.jobs[k].chunks| && s.jobs[k].chunks[i].hash == hash
    requires forall m :: 0 <= m < i ==> s.jobs[k].chunks[m].hash != hash
    requires forall l, m :: 0 <= l < k && 0 <= m < |s.jobs[l].chunks| ==> s.jobs[l].chunks[m].hash != hash
    ensures var jobs := Next(s, Update(hash)).jobs;
            ElsewhereSame(s.jobs, jobs, k, i) && jobs[k].chunks[i] == s.jobs[k].chunks[i].(state := DONE)
  {
    var k', i' := JobWith(s.jobs, hash), ChunkIndex(s.jobs[k].chunks, hash);
    assert i' == i && k' <= k;
  }

  lemma UnknownChunkChangesNothing(s: State, hash: string)
    requires forall l, m :: 0 <= l < |s.jobs| && 0 <= m < |s.jobs[l].chunks| ==> s.jobs[l].chunks[m].hash != hash
    ensures Next(s, Update(hash)) == s
  {
    assert JobWith(s.jobs, hash) == |s.jobs|;
  }

  // ----- What a round of resuming does

  /** The chunk has never been started, or it has been idle for more than ten seconds and its peer is gone. */
  predicate Starts(c: Chunk, now: real, a: Answer) {
    c.state == NONE || (c.state != DONE && c.updated < now - 10.0 && a.reachable == Some(false))
  }

  /** How a round that goes through leaves a chunk: done if it is on disk, otherwise received from the peer that has
      it, or not found if no peer was ever known. */
  ghost predicate Handled(c: Chunk, c': Chunk, now: real, a: Answer) {
    && c'.hash == c.hash
    && (!Starts(c, now, a) ==> c' == c)
    && (Starts(c, now, a) ==>
          && (c'.host, c'.port) == (if a.holder.At? then (a.holder.host, a.holder.port) else (c.host, c.port))
          && (c'.state == DONE <==> a.present)
          && (c'.state == NOTFOUND <==> !a.present && c'.host == 0 && c'.port == 0)
          && (c'.state == RECEIVING ==> a.clock == Some(c'.updated))
          && c'.state != NONE)
  }

  /** A peer for the chunk is known, from the answer or from before. */
  predicate PeerKnown(c: Chunk, a: Answer) {
    var (host, port) := if a.holder.At? then (a.holder.host, a.holder.port) else (c.host, c.port);
    host != 0 || port != 0
  }

  /** Exactly when handling a chunk fails, and how it is left then: not touched if the lookup fails or the peer of an
      idle chunk cannot be determined, with its new peer but in its old state if the list of tasks cannot be written,
      and being received if only the request could not be sent. */
  lemma ChunkFailsExactly(j: Data, i: nat, now: real, a: Answer)
    requires i < |j.chunks|
    ensures var (c, (k, ok)) := (j.chunks[i], ResumeChunk(j, i, now, a));
            var idle := c.state != NONE && c.state != DONE && c.updated < now - 10.0;
            && (!ok <==>
                  || (idle && a.reachable.None?)
                  || (Starts(c, now, a) && a.holder.LookupFails?)
                  || (Starts(c, now, a) && !a.present && PeerKnown(c, a) && !(a.dumped && a.clock.Some? && a.sent)))
            && |k.chunks| == |j.chunks|
            && (!ok && (!Starts(c, now, a) || a.holder.LookupFails?) ==> k == j)
            && (!ok && Starts(c, now, a) && !a.holder.LookupFails? ==>
                  k.chunks[i].state == if a.dumped then RECEIVING else c.state)
  {
  }

  lemma ChunkIsHandled(j: Data, i: nat, now: real, a: Answer)
    requires i < |j.chunks| && ResumeChunk(j, i, now, a).1
    ensures var k := ResumeChunk(j, i, now, a).0;
            && |k.chunks| == |j.chunks| && Handled(j.chunks[i], k.chunks[i], now, a)
            && forall m :: 0 <= m < |j.chunks| && m != i ==> k.chunks[m] == j.chunks[m]
  {
    if Starts(j.chunks[i], now, a) {
      StartHandles(j, i, a);
    }
  }

  lemma StartHandles(j: Data, i: nat, a: Answer)
    requires i < |j.chunks| && Start(j, i, a).1
    ensures var c, k := j.chunks[i], Start(j, i, a).0;
            && |k.chunks| == |j.chunks| && k.chunks[i].hash == c.hash
            && (k.chunks[i].host, k.chunks[i].port)
               == (if a.holder.At? then (a.holder.host, a.holder.port) else (c.host, c.port))
            && (k.chunks[i].state == DONE <==> a.present)
            && (k.chunks[i].state == NOTFOUND <==> !a.present && k.chunks[i].host == 0 && k.chunks[i].port == 0)
            && (k.chunks[i].state == RECEIVING ==> a.clock == Some(k.chunks[i].updated))
            && k.chunks[i].state != NONE
            && forall m :: 0 <= m < |j.chunks| && m != i ==> k.chunks[m] == j.chunks[m]
  {
  }

  lemma {:induction false} LoopHandles(j: Data, i: nat, now: real, answers: nat -> Answer)
    requires i <= |j.chunks| && ResumeFrom(j, i, now, answers).1
    ensures var k := ResumeFrom(j, i, now, answers).0;
            && |k.chunks| == |j.chunks|
            && (forall m :: 0 <= m < i ==> k.chunks[m] == j.chunks[m])
            && (forall m :: i <= m < |j.chunks| ==> Handled(j.chunks[m], k.chunks[m], now, answers(m)))
    decreases |j.chunks| - i
  {
    if i < |j.chunks| {
      ChunkIsHandled(j, i, now, answers(i));
      LoopHandles(ResumeChunk(j, i, now, answers(i)).0, i + 1, now, answers);
    }
  }

  /** A round that goes through handles every chunk of the job by its own answer, and leaves none waiting. */
  lemma RoundHandlesAll(j: Data, now: real, answers: nat -> Answer)
    requires ResumeFrom(j, 0, now, answers).1
    ensures var k := ResumeFrom(j, 0, now, answers).0;
            && |k.chunks| == |j.chunks|
            && forall m :: 0 <= m < |j.chunks| ==>
                 Handled(j.chunks[m], k.chunks[m], now, answers(m)) && k.chunks[m].state != NONE
  {
    LoopHandles(j, 0, now, answers);
  }

  /** The rounds of the first `n` jobs all go through. */
  ghost predicate AllGoThrough(jobs: seq<Data>, n: nat, now: real, answers: nat -> nat -> Answer)
    requires n <= |jobs|
  {
    forall l :: 0 <= l < n ==> ResumeFrom(jobs[l], 0, now, answers(l)).1
  }

  /** Every job gets its own round if the rounds of all jobs before it go through, and is left alone otherwise. */
  lemma {:induction false} RoundsUpToFailure(jobs: seq<Data>, k: nat, now: real, answers: nat -> nat -> Answer, l: nat)
    requires k <= l < |jobs|
    ensures var r := ResumeJobs(jobs, k, now, answers);
            && (forall m :: 0 <= m < k ==> r[m] == jobs[m])
            && r[l] == if (forall m :: k <= m < l ==> ResumeFrom(jobs[m], 0, now, answers(m)).1)
                       then ResumeFrom(jobs[l], 0, now, answers(l)).0 else jobs[l]
    decreases |jobs| - k
  {
    var (j, ok) := ResumeFrom(jobs[k], 0, now, answers(k));
    if ok && k < l {
      RoundsUpToFailure(jobs[k := j], k + 1, now, answers, l);
    } else if ok && k + 1 < |jobs| {
      RoundsUpToFailure(jobs[k := j], k + 1, now, answers, k + 1);
    }
  }

  /** The resume timer: every job gets its round as long as the rounds before it go through. */
  lemma TimerResumesJobs(s: State, now: real, answers: nat -> nat -> Answer, l: nat)
    requires l < |s.jobs|
    ensures var jobs := Next(s, Resume(now, answers)).jobs;
            && |jobs| == |s.jobs|
            && jobs[l] == if AllGoThrough(s.jobs, l, now, answers)
                          then ResumeFrom(s.jobs[l], 0, now, answers(l)).0 else s.jobs[l]
  {
    RoundsUpToFailure(s.jobs, 0, now, answers, l);
  }

  // ----- Chunks being received have a peer

  ghost predicate HavePeers(j: Data) {
    forall i :: 0 <= i < |j.chunks| && j.chunks[i].state == RECEIVING ==> j.chunks[i].host != 0 || j.chunks[i].port != 0
  }

  lemma {:induction false} ResumeKeepsPeers(j: Data, i: nat, now: real, answers: nat -> Answer)
    requires i <= |j.chunks| && HavePeers(j)
    ensures HavePeers(ResumeFrom(j, i, now, answers).0)
    decreases |j.chunks| - i
  {
    if i < |j.chunks| {
      var (k, ok) := ResumeChunk(j, i, now, answers(i));
      assert HavePeers(k);
      if ok {
        ResumeKeepsPeers(k, i + 1, now, answers);
      }
    }
  }

  ghost predicate AllHavePeers(jobs: seq<Data>) {
    forall l :: 0 <= l < |jobs| ==> HavePeers(jobs[l])
  }

  lemma {:induction false} ResumeJobsKeepsPeers(jobs: seq<Data>, k: nat, now: real, answers: nat -> nat -> Answer)
    requires k <= |jobs| && AllHavePeers(jobs)
    ensures AllHavePeers(ResumeJobs(jobs, k, now, answers))
    decreases |jobs| - k
  {
    if k < |jobs| {
      ResumeKeepsPeers(jobs[k], 0, now, answers(k));
      var (j, ok) := ResumeFrom(jobs[k], 0, now, answers(k));
      assert AllHavePeers(jobs[k := j]);
      if ok {
        ResumeJobsKeepsPeers(jobs[k := j], k + 1, now, answers);
      }
    }
  }

  lemma StepKeepsPeers(s: State, e: Event)
    requires AllHavePeers(s.jobs)
    ensures AllHavePeers(Next(s, e).jobs)
  {
    match e
    case Resume(now, answers) => ResumeJobsKeepsPeers(s.jobs, 0, now, answers);
    case Update(hash) =>
      if JobWith(s.jobs, hash) < |s.jobs| {
        assert HavePeers(s.jobs[JobWith(s.jobs, hash)]);
      }
    case _ =>
  }

  /** After every sequence of operations, a chunk being received has a peer from which it is received. */
  lemma {:induction false} ReceivingHasPeer(es: seq<Event>)
    ensures AllHavePeers(After(es).jobs)
  {
    if es != [] {
      ReceivingHasPeer(es[..|es| - 1]);
      StepKeepsPeers(After(es[..|es| - 1]), es[|es| - 1]);
    }
  }
}
