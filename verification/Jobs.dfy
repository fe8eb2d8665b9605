/**
 * Download jobs (src/job.c): one job per wanted file, a state per chunk, and four counters that are
 * adjusted with every change of state.
 */
module Jobs {
  import opened Common

  const MAX_IDLE: real := 10.0

  datatype ChunkState = NONE | NOTFOUND | RECEIVING | DONE

  datatype Chunk = Chunk(hash: string, state: ChunkState, updated: real, host: int, port: nat)

  /** The fields of a job; `id` stands for its address. */
  datatype Data = Data(id: nat, name: string, chunks: seq<Chunk>, none: int, notfound: int, receiving: int, done: int)

  /** What the surroundings answer while a chunk is started: the last three only when asked. */
  datatype Answer = Answer(reachable: Option<bool>, holder: Holder, present: bool,
                           dumped: bool, clock: Option<real>, sent: bool)

  datatype Holder = LookupFails | Nobody | At(host: int, port: nat)

  // ----- One job

  function Adjust(j: Data, s: ChunkState, d: int): Data {
    match s
    case NONE => j.(none := j.none + d)
    case NOTFOUND => j.(notfound := j.notfound + d)
    case RECEIVING => j.(receiving := j.receiving + d)
    case DONE => j.(done := j.done + d)
  }

  function SetState(j: Data, i: nat, s: ChunkState): Data
    requires i < |j.chunks|
  {
    var k := Adjust(j, j.chunks[i].state, -1);
    Adjust(k.(chunks := k.chunks[i := k.chunks[i].(state := s)]), s, 1)
  }

  function Located(c: Chunk, h: Holder): Chunk {
    if h.At? then c.(host := h.host, port := h.port) else c
  }

  function Start(j: Data, i: nat, a: Answer): (Data, bool)
    requires i < |j.chunks|
  {
    if a.holder.LookupFails? then (j, false)
    else
      var c := Located(j.chunks[i], a.holder);
      var k := j.(chunks := j.chunks[i := c]);
      if a.present then (SetState(k, i, DONE), true)
      else if c.host == 0 && c.port == 0 then (SetState(k, i, NOTFOUND), true)
      else if !a.dumped then (k, false)
      else
        var l := SetState(k, i, RECEIVING);
        if a.clock.None? then (l, false)
        else (l.(chunks := l.chunks[i := l.chunks[i].(updated := a.clock.value)]), a.sent)
  }

  function ResumeChunk(j: Data, i: nat, now: real, a: Answer): (Data, bool)
    requires i < |j.chunks|
  {
    match j.chunks[i].state
    case NONE => Start(j, i, a)
    case DONE => (j, true)
    case _ =>
      if now - MAX_IDLE <= j.chunks[i].updated then (j, true)
      else if a.reachable.None? then (j, false)
      else if a.reachable.value then (j, true)
      else Start(j, i, a)
  }

  /** The resume loop from chunk `i` on; it stops at the first failure. */
  function ResumeFrom(j: Data, i: nat, now: real, answers: nat -> Answer): (Data, bool)
    requires i <= |j.chunks|
    decreases |j.chunks| - i
  {
    if i == |j.chunks| then (j, true)
    else
      var (k, ok) := ResumeChunk(j, i, now, answers(i));
      if ok then ResumeFrom(k, i + 1, now, answers) else (k, false)
  }

  function Created(id: nat, name: string, hashes: seq<string>): Data {
    Data(id, name, seq(|hashes|, i requires 0 <= i < |hashes| => Chunk(hashes[i], NONE, 0.0, 0, 0)), |hashes|, 0, 0, 0)
  }

  // ----- The counters

  function Count(chunks: seq<Chunk>, s: ChunkState): nat {
    if chunks == [] then 0
    else Count(chunks[..|chunks| - 1], s) + if chunks[|chunks| - 1].state == s then 1 else 0
  }

  ghost predicate Consistent(j: Data) {
    && j.none == Count(j.chunks, NONE)
    && j.notfound == Count(j.chunks, NOTFOUND)
    && j.receiving == Count(j.chunks, RECEIVING)
    && j.done == Count(j.chunks, DONE)
  }

  /** Same job, same chunks, and finished chunks stay finished. */
  ghost predicate Evolves(j: Data, k: Data) {
    && k.id == j.id && k.name == j.name && |k.chunks| == |j.chunks|
    && forall i :: 0 <= i < |j.chunks| ==>
         k.chunks[i].hash == j.chunks[i].hash && (j.chunks[i].state == DONE ==> k.chunks[i].state == DONE)
  }

  ghost predicate Complete(j: Data) {
    forall i :: 0 <= i < |j.chunks| ==> j.chunks[i].state == DONE
  }

  lemma {:induction false} CountUpdate(chunks: seq<Chunk>, i: nat, c: Chunk, s: ChunkState)
    requires i < |chunks|
    ensures Count(chunks[i := c], s)
         == Count(chunks, s) - (if chunks[i].state == s then 1 else 0) + if c.state == s then 1 else 0
  {
    var n := |chunks| - 1;
    if i == n {
      assert chunks[i := c][..n] == chunks[..n];
    } else {
      assert chunks[i := c][..n] == chunks[..n][i := c];
      CountUpdate(chunks[..n], i, c, s);
    }
  }

  lemma {:induction false} CountsSum(chunks: seq<Chunk>)
    ensures Count(chunks, NONE) + Count(chunks, NOTFOUND) + Count(chunks, RECEIVING) + Count(chunks, DONE) == |chunks|
  {
    if chunks != [] {
      CountsSum(chunks[..|chunks| - 1]);
    }
  }

  lemma {:induction false} CountAll(chunks: seq<Chunk>)
    ensures Count(chunks, DONE) <= |chunks|
    ensures Count(chunks, DONE) == |chunks| <==> forall i :: 0 <= i < |chunks| ==> chunks[i].state == DONE
  {
    if chunks != [] {
      CountAll(chunks[..|chunks| - 1]);
    }
  }

  lemma {:induction false} CountNew(chunks: seq<Chunk>, s: ChunkState)
    requires forall i :: 0 <= i < |chunks| ==> chunks[i].state == NONE
    ensures Count(chunks, s) == if s == NONE then |chunks| else 0
  {
    if chunks != [] {
      CountNew(chunks[..|chunks| - 1], s);
    }
  }

  lemma CreatedConsistent(id: nat, name: string, hashes: seq<string>)
    ensures Consistent(Created(id, name, hashes))
  {
    var chunks := Created(id, name, hashes).chunks;
    CountNew(chunks, NONE);
    CountNew(chunks, NOTFOUND);
    CountNew(chunks, RECEIVING);
    CountNew(chunks, DONE);
  }

  /** A chunk may change in everything but its state without a word to the counters. */
  lemma ReplaceKeeps(j: Data, i: nat, c: Chunk)
    requires i < |j.chunks| && Consistent(j) && c.state == j.chunks[i].state && c.hash == j.chunks[i].hash
    ensures var k := j.(chunks := j.chunks[i := c]); Consistent(k) && Evolves(j, k)
  {
    CountUpdate(j.chunks, i, c, NONE);
    CountUpdate(j.chunks, i, c, NOTFOUND);
    CountUpdate(j.chunks, i, c, RECEIVING);
    CountUpdate(j.chunks, i, c, DONE);
  }

  lemma SetStateKeeps(j: Data, i: nat, s: ChunkState)
    requires i < |j.chunks| && Consistent(j) && (j.chunks[i].state == DONE ==> s == DONE)
    ensures Consistent(SetState(j, i, s)) && Evolves(j, SetState(j, i, s))
  {
    var c := j.chunks[i].(state := s);
    CountUpdate(j.chunks, i, c, NONE);
    CountUpdate(j.chunks, i, c, NOTFOUND);
    CountUpdate(j.chunks, i, c, RECEIVING);
    CountUpdate(j.chunks, i, c, DONE);
  }

  lemma StartKeeps(j: Data, i: nat, a: Answer)
    requires i < |j.chunks| && Consistent(j) && j.chunks[i].state != DONE
    ensures var k := Start(j, i, a).0; Consistent(k) && Evolves(j, k)
  {
    if !a.holder.LookupFails? {
      var c := Located(j.chunks[i], a.holder);
      var k := j.(chunks := j.chunks[i := c]);
      ReplaceKeeps(j, i, c);
      SetStateKeeps(k, i, DONE);
      SetStateKeeps(k, i, NOTFOUND);
      SetStateKeeps(k, i, RECEIVING);
      var l := SetState(k, i, RECEIVING);
      if a.clock.Some? {
        ReplaceKeeps(l, i, l.chunks[i].(updated := a.clock.value));
      }
    }
  }

  lemma {:induction false} ResumeKeeps(j: Data, i: nat, now: real, answers: nat -> Answer)
    requires i <= |j.chunks| && Consistent(j)
    ensures var k := ResumeFrom(j, i, now, answers).0; Consistent(k) && Evolves(j, k)
    decreases |j.chunks| - i
  {
    if i < |j.chunks| {
      var (k, ok) := ResumeChunk(j, i, now, answers(i));
      if j.chunks[i].state != DONE {
        StartKeeps(j, i, answers(i));
      }
      if ok {
        ResumeKeeps(k, i + 1, now, answers);
      }
    }
  }

  // ----- The list of jobs

  /** `reported` holds the jobs for which the done callback has been called. */
  datatype State = State(jobs: seq<Data>, next: nat, reported: set<nat>)

  datatype Event =
    | Add(name: string, hashes: seq<string>)
    | Resume(now: real, answers: nat -> nat -> Answer)
    | Update(hash: string)
    | Remove(name: string)

  function ChunkIndex(chunks: seq<Chunk>, hash: string): (i: nat)
    ensures i <= |chunks| && (i < |chunks| ==> chunks[i].hash == hash)
    ensures forall k :: 0 <= k < i ==> chunks[k].hash != hash
  {
    if chunks == [] || chunks[0].hash == hash then 0 else 1 + ChunkIndex(chunks[1..], hash)
  }

  /** The first job with a chunk of this hash. */
  function JobWith(jobs: seq<Data>, hash: string): (k: nat)
    ensures k <= |jobs| && (k < |jobs| ==> ChunkIndex(jobs[k].chunks, hash) < |jobs[k].chunks|)
    ensures forall l :: 0 <= l < k ==> ChunkIndex(jobs[l].chunks, hash) == |jobs[l].chunks|
  {
    if jobs == [] || ChunkIndex(jobs[0].chunks, hash) < |jobs[0].chunks| then 0 else 1 + JobWith(jobs[1..], hash)
  }

  function JobNamed(jobs: seq<Data>, name: string): (k: nat)
    ensures k <= |jobs| && (k < |jobs| ==> jobs[k].name == name)
    ensures forall l :: 0 <= l < k ==> jobs[l].name != name
  {
    if jobs == [] || jobs[0].name == name then 0 else 1 + JobNamed(jobs[1..], name)
  }

  /** The jobs are resumed in order up to the first failure. */
  function ResumeJobs(jobs: seq<Data>, k: nat, now: real, answers: nat -> nat -> Answer): (r: seq<Data>)
    requires k <= |jobs|
    ensures |r| == |jobs|
    decreases |jobs| - k
  {
    if k == |jobs| then jobs
    else
      var (j, ok) := ResumeFrom(jobs[k], 0, now, answers(k));
      if ok then ResumeJobs(jobs[k := j], k + 1, now, answers) else jobs[k := j]
  }

  /** The job that an arrived chunk belongs to, with the chunk recorded. */
  function Recorded(jobs: seq<Data>, hash: string): Data
    requires JobWith(jobs, hash) < |jobs|
  {
    var j := jobs[JobWith(jobs, hash)];
    SetState(j, ChunkIndex(j.chunks, hash), DONE)
  }

  /** The job whose done callback is called when a chunk arrives. */
  function Reports(jobs: seq<Data>, hash: string): Option<nat> {
    if JobWith(jobs, hash) == |jobs| then None
    else
      var j := Recorded(jobs, hash);
      if j.done == |j.chunks| then Some(j.id) else None
  }

  function Next(s: State, e: Event): State {
    match e
    case Add(name, hashes) =>
      if JobNamed(s.jobs, name) < |s.jobs| then s
      else s.(jobs := s.jobs + [Created(s.next, name, hashes)], next := s.next + 1)
    case Resume(now, answers) => s.(jobs := ResumeJobs(s.jobs, 0, now, answers))
    case Update(hash) =>
      var k := JobWith(s.jobs, hash);
      if k == |s.jobs| then s
      else
        var r := Reports(s.jobs, hash);
        s.(jobs := s.jobs[k := Recorded(s.jobs, hash)],
           reported := if r.Some? then s.reported + {r.value} else s.reported)
    case Remove(name) =>
      var k := JobNamed(s.jobs, name);
      if k == |s.jobs| then s else s.(jobs := s.jobs[..k] + s.jobs[k + 1..])
  }

  ghost predicate Good(j: Data, next: nat, reported: set<nat>) {
    Consistent(j) && j.id < next && (j.id in reported ==> Complete(j))
  }

  ghost predicate Inv(s: State) {
    && (forall k :: 0 <= k < |s.jobs| ==> Good(s.jobs[k], s.next, s.reported))
    && (forall k, l :: 0 <= k < l < |s.jobs| ==> s.jobs[k].id != s.jobs[l].id && s.jobs[k].name != s.jobs[l].name)
    && (forall id :: id in s.reported ==> id < s.next)
  }

  lemma {:induction false} ResumeJobsKeeps(jobs: seq<Data>, k: nat, now: real, answers: nat -> nat -> Answer)
    requires k <= |jobs| && forall l :: 0 <= l < |jobs| ==> Consistent(jobs[l])
    ensures var r := ResumeJobs(jobs, k, now, answers);
            forall l :: 0 <= l < |jobs| ==> Consistent(r[l]) && Evolves(jobs[l], r[l])
    decreases |jobs| - k
  {
    if k < |jobs| {
      var (j, ok) := ResumeFrom(jobs[k], 0, now, answers(k));
      ResumeKeeps(jobs[k], 0, now, answers(k));
      var jobs' := jobs[k := j];
      if ok {
        ResumeJobsKeeps(jobs', k + 1, now, answers);
        var r := ResumeJobs(jobs', k + 1, now, answers);
        forall l | 0 <= l < |jobs| ensures Consistent(r[l]) && Evolves(jobs[l], r[l]) {
          assert Evolves(jobs[l], jobs'[l]) && Evolves(jobs'[l], r[l]);
          EvolvesTransitive(jobs[l], jobs'[l], r[l]);
        }
      }
    }
  }

  /** A chunk's arrival calls the done callback exactly when it is the last one missing, or none was missing. */
  lemma CallbackWhenComplete(jobs: seq<Data>, hash: string)
    requires JobWith(jobs, hash) < |jobs| && Consistent(jobs[JobWith(jobs, hash)])
    ensures var j := jobs[JobWith(jobs, hash)];
            && Consistent(Recorded(jobs, hash)) && Evolves(j, Recorded(jobs, hash))
            && (Reports(jobs, hash).Some? <==> Complete(Recorded(jobs, hash)))
            && (Reports(jobs, hash) == Some(j.id) <==>
                forall i :: 0 <= i < |j.chunks| && i != ChunkIndex(j.chunks, hash) ==> j.chunks[i].state == DONE)
  {
    var j, k := jobs[JobWith(jobs, hash)], Recorded(jobs, hash);
    SetStateKeeps(j, ChunkIndex(j.chunks, hash), DONE);
    CountAll(k.chunks);
    assert forall i :: 0 <= i < |j.chunks| && i != ChunkIndex(j.chunks, hash) ==> k.chunks[i] == j.chunks[i];
  }

  /** Jobs that go on in place keep the invariant. */
  lemma GoingOnKeeps(s: State, jobs: seq<Data>, reported: set<nat>)
    requires Inv(s) && |jobs| == |s.jobs| && forall k :: 0 <= k < |jobs| ==> Evolves(s.jobs[k], jobs[k])
    requires forall k :: 0 <= k < |jobs| ==> Good(jobs[k], s.next, reported)
    requires forall id :: id in reported ==> id < s.next
    ensures Inv(s.(jobs := jobs, reported := reported))
  {
  }

  lemma ResumeStepKeeps(s: State, now: real, answers: nat -> nat -> Answer)
    requires Inv(s)
    ensures Inv(Next(s, Resume(now, answers)))
  {
    var jobs := ResumeJobs(s.jobs, 0, now, answers);
    assert forall k :: 0 <= k < |s.jobs| ==> Good(s.jobs[k], s.next, s.reported);
    ResumeJobsKeeps(s.jobs, 0, now, answers);
    forall k | 0 <= k < |jobs| ensures Good(jobs[k], s.next, s.reported) {
      assert Evolves(s.jobs[k], jobs[k]);
    }
    GoingOnKeeps(s, jobs, s.reported);
  }

  lemma UpdateStepKeeps(s: State, hash: string)
    requires Inv(s)
    ensures Inv(Next(s, Update(hash)))
  {
    var k, t := JobWith(s.jobs, hash), Next(s, Update(hash));
    if k < |s.jobs| {
      assert Good(s.jobs[k], s.next, s.reported);
      CallbackWhenComplete(s.jobs, hash);
      forall l | 0 <= l < |t.jobs|
        ensures Good(t.jobs[l], t.next, t.reported) && Evolves(s.jobs[l], t.jobs[l])
      {
        assert Good(s.jobs[l], s.next, s.reported);
        assert l != k ==> t.jobs[l] == s.jobs[l];
      }
      GoingOnKeeps(s, t.jobs, t.reported);
    }
  }

  lemma AddStepKeeps(s: State, name: string, hashes: seq<string>)
    requires Inv(s)
    ensures Inv(Next(s, Add(name, hashes)))
  {
    var t := Next(s, Add(name, hashes));
    CreatedConsistent(s.next, name, hashes);
    forall k | 0 <= k < |t.jobs| ensures Good(t.jobs[k], t.next, t.reported) {
      assert k < |s.jobs| ==> Good(s.jobs[k], s.next, s.reported);
    }
  }

  lemma RemoveStepKeeps(s: State, name: string)
    requires Inv(s)
    ensures Inv(Next(s, Remove(name)))
  {
    var k, t := JobNamed(s.jobs, name), Next(s, Remove(name));
    if k < |s.jobs| {
      assert forall l :: 0 <= l < |t.jobs| ==> t.jobs[l] == s.jobs[if l < k then l else l + 1];
    }
  }

  lemma StepKeeps(s: State, e: Event)
    requires Inv(s)
    ensures Inv(Next(s, e))
  {
    match e
    case Add(name, hashes) => AddStepKeeps(s, name, hashes);
    case Resume(now, answers) => ResumeStepKeeps(s, now, answers);
    case Update(hash) => UpdateStepKeeps(s, hash);
    case Remove(name) => RemoveStepKeeps(s, name);
  }

  /** Where a job of the next state comes from: the job of the same address, or nowhere. */
  function Origin(s: State, e: Event, l: nat): nat {
    if e.Remove? && l >= JobNamed(s.jobs, e.name) then l + 1 else l
  }

  lemma OriginEvolves(s: State, e: Event, l: nat)
    requires Inv(s) && l < |Next(s, e).jobs| && Origin(s, e, l) < |s.jobs|
    ensures Evolves(s.jobs[Origin(s, e, l)], Next(s, e).jobs[l])
  {
    match e
    case Add(name, hashes) =>
    case Resume(now, answers) =>
      assert forall k :: 0 <= k < |s.jobs| ==> Good(s.jobs[k], s.next, s.reported);
      ResumeJobsKeeps(s.jobs, 0, now, answers);
    case Update(hash) =>
      if JobWith(s.jobs, hash) < |s.jobs| {
        assert Good(s.jobs[JobWith(s.jobs, hash)], s.next, s.reported);
        CallbackWhenComplete(s.jobs, hash);
      }
    case Remove(name) =>
  }

  function After(es: seq<Event>): State {
    if es == [] then State([], 0, {}) else Next(After(es[..|es| - 1]), es[|es| - 1])
  }

  lemma {:induction false} RunKeeps(es: seq<Event>)
    ensures Inv(After(es))
  {
    if es != [] {
      RunKeeps(es[..|es| - 1]);
      StepKeeps(After(es[..|es| - 1]), es[|es| - 1]);
    }
  }

  lemma {:induction false} AddressesGrow(es: seq<Event>, m: nat)
    requires m <= |es|
    ensures After(es[..m]).next <= After(es).next
  {
    if m == |es| {
      assert es[..m] == es;
    } else {
      assert es[..|es| - 1][..m] == es[..m];
      AddressesGrow(es[..|es| - 1], m);
    }
  }

  lemma EvolvesTransitive(i: Data, j: Data, k: Data)
    requires Evolves(i, j) && Evolves(j, k)
    ensures Evolves(i, k)
  {
  }

  /** Over any stretch of a run, a finished chunk of a job stays finished. */
  lemma {:induction false} DoneIsNeverLeft(es: seq<Event>, m: nat, k: nat, l: nat)
    requires m <= |es| && k < |After(es[..m]).jobs| && l < |After(es).jobs|
    requires After(es[..m]).jobs[k].id == After(es).jobs[l].id
    ensures Evolves(After(es[..m]).jobs[k], After(es).jobs[l])
    decreases |es|
  {
    RunKeeps(es);
    if m == |es| {
      assert es[..m] == es;
      SameJob(After(es), k, l);
    } else {
      var front, e := es[..|es| - 1], es[|es| - 1];
      assert front[..m] == es[..m];
      var j, s := After(es[..m]).jobs[k], After(front);
      RunKeeps(front);
      OldAddress(es[..m], k);
      AddressesGrow(front, m);
      OldJob(s, e, l, j.id);
      DoneIsNeverLeft(front, m, k, Origin(s, e, l));
      EvolvesTransitive(j, s.jobs[Origin(s, e, l)], After(es).jobs[l]);
    }
  }

  lemma SameJob(s: State, k: nat, l: nat)
    requires Inv(s) && k < |s.jobs| && l < |s.jobs| && s.jobs[k].id == s.jobs[l].id
    ensures Evolves(s.jobs[k], s.jobs[l])
  {
  }

  lemma OldAddress(es: seq<Event>, k: nat)
    requires k < |After(es).jobs|
    ensures After(es).jobs[k].id < After(es).next
  {
    RunKeeps(es);
    assert Good(After(es).jobs[k], After(es).next, After(es).reported);
  }

  /** A job with an address that was in use before the step is not a new one. */
  lemma OldJob(s: State, e: Event, l: nat, id: nat)
    requires Inv(s) && l < |Next(s, e).jobs| && Next(s, e).jobs[l].id == id < s.next
    ensures var o := Origin(s, e, l);
            o < |s.jobs| && s.jobs[o].id == id && Evolves(s.jobs[o], Next(s, e).jobs[l])
  {
    if Origin(s, e, l) < |s.jobs| {
      OriginEvolves(s, e, l);
    }
  }

  /** In every reachable state the counters are the numbers of chunks per state and add up to all chunks. */
  lemma CountersAreExact(es: seq<Event>, k: nat)
    requires k < |After(es).jobs|
    ensures var j := After(es).jobs[k];
            Consistent(j) && j.none + j.notfound + j.receiving + j.done == |j.chunks|
  {
    RunKeeps(es);
    assert Good(After(es).jobs[k], After(es).next, After(es).reported);
    CountsSum(After(es).jobs[k].chunks);
  }

  /** A job that has been reported is, and stays, complete. */
  lemma ReportedAreComplete(es: seq<Event>, k: nat)
    requires k < |After(es).jobs| && After(es).jobs[k].id in After(es).reported
    ensures Complete(After(es).jobs[k])
  {
    RunKeeps(es);
    assert Good(After(es).jobs[k], After(es).next, After(es).reported);
  }

  lemma CompleteWhenCreated(id: nat, name: string, hashes: seq<string>)
    ensures Complete(Created(id, name, hashes)) <==> hashes == []
  {
    if hashes != [] {
      assert Created(id, name, hashes).chunks[0].state == NONE;
    }
  }

  /** A step after which a job is complete that was not complete before reports it exactly when it is the
      arrival of a chunk; the other such steps are the resume timer finding chunks on disk, and adding a job
      for a file without chunks. */
  lemma CompletionIsReported(s: State, e: Event, l: nat)
    requires Inv(s) && l < |Next(s, e).jobs| && Complete(Next(s, e).jobs[l])
    requires forall k :: 0 <= k < |s.jobs| && s.jobs[k].id == Next(s, e).jobs[l].id ==> !Complete(s.jobs[k])
    ensures Next(s, e).jobs[l].id in Next(s, e).reported <==> e.Update?
    ensures !e.Remove? && (e.Add? ==> e.hashes == [])
  {
    var o := Origin(s, e, l);
    if o < |s.jobs| {
      OriginEvolves(s, e, l);
      assert Good(s.jobs[o], s.next, s.reported);
    }
    if e.Update? && JobWith(s.jobs, e.hash) < |s.jobs| {
      assert Good(s.jobs[JobWith(s.jobs, e.hash)], s.next, s.reported);
      CallbackWhenComplete(s.jobs, e.hash);
    } else if e.Add? {
      CompleteWhenCreated(s.next, e.name, e.hashes);
    }
  }

  /** So a job whose last chunk is found on disk by the resume timer is never reported by that step. */
  lemma SilentCompletion(name: string, hash: string)
    ensures var found := Answer(None, Nobody, true, true, None, true);
            var es := [Add(name, [hash]), Resume(0.0, k => i => found)];
            |After(es).jobs| == 1 && Complete(After(es).jobs[0]) && After(es).reported == {}
  {
    var found := Answer(None, Nobody, true, true, None, true);
    var answers: nat -> nat -> Answer := k => i => found;
    var es := [Add(name, [hash]), Resume(0.0, answers)];
    assert es[..1] == [Add(name, [hash])] && es[..1][..0] == [];
    assert After([]) == State([], 0, {});
    var j := Created(0, name, [hash]);
    assert After(es[..1]).jobs == [j];
    var r := ResumeJobs([j], 0, 0.0, answers);
    var k := SetState(j, 0, DONE);
    assert j.chunks[0 := j.chunks[0]] == j.chunks;
    assert ResumeChunk(j, 0, 0.0, answers(0)(0)) == (k, true);
    assert ResumeFrom(k, 1, 0.0, answers(0)) == (k, true);
    assert ResumeFrom(j, 0, 0.0, answers(0)) == (k, true);
    assert [j][0 := k] == [k];
    assert ResumeJobs([k], 1, 0.0, answers) == [k];
    assert r == [k];
  }

  // ----- The jobs as they are changed in place

  class Job {
    const id: nat
    const name: string
    var chunks: seq<Chunk>
    var none: int
    var notfound: int
    var receiving: int
    var done: int

    ghost function View(): Data
      reads this
    {
      Data(id, name, chunks, none, notfound, receiving, done)
    }

    constructor (id: nat, name: string, hashes: seq<string>)
      ensures View() == Created(id, name, hashes)
    {
      this.id := id;
      this.name := name;
      chunks := [];
      none, notfound, receiving, done := 0, 0, 0, 0;
      new;
      for i := 0 to |hashes|
        invariant View() == Created(id, name, hashes[..i])
      {
        chunks := chunks + [Chunk(hashes[i], NONE, 0.0, 0, 0)];
        none := none + 1;
        assert chunks == Created(id, name, hashes[..i + 1]).chunks;
      }
      assert hashes[..|hashes|] == hashes;
    }

    method Counter(i: nat, d: int)
      requires i < |chunks|
      modifies this
      ensures View() == Adjust(old(View()), old(chunks[i].state), d)
    {
      match chunks[i].state
      case NONE => none := none + d;
      case NOTFOUND => notfound := notfound + d;
      case RECEIVING => receiving := receiving + d;
      case DONE => done := done + d;
    }

    method EnterState(i: nat, s: ChunkState)
      requires i < |chunks|
      modifies this
      ensures View() == SetState(old(View()), i, s)
    {
      Counter(i, -1);
      chunks := chunks[i := chunks[i].(state := s)];
      Counter(i, 1);
    }

    method StartChunk(i: nat, a: Answer) returns (ok: bool)
      requires i < |chunks|
      modifies this
      ensures (View(), ok) == Start(old(View()), i, a)
    {
      match a.holder {
        case LookupFails => return false;
        case Nobody =>
        case At(host, port) =>
          chunks := chunks[i := chunks[i].(host := host, port := port)];
      }
      assert chunks == old(chunks)[i := Located(old(chunks[i]), a.holder)];
      if a.present {
        EnterState(i, DONE);
        return true;
      }
      if chunks[i].host == 0 && chunks[i].port == 0 {
        EnterState(i, NOTFOUND);
        return true;
      }
      if !a.dumped {
        return false;
      }
      EnterState(i, RECEIVING);
      if a.clock.None? {
        return false;
      }
      chunks := chunks[i := chunks[i].(updated := a.clock.value)];
      ok := a.sent;
    }

    method VisitChunk(i: nat, now: real, a: Answer) returns (ok: bool)
      requires i < |chunks|
      modifies this
      ensures (View(), ok) == ResumeChunk(old(View()), i, now, a)
    {
      ok := true;
      match chunks[i].state
      case NONE =>
        ok := StartChunk(i, a);
      case DONE =>
      case _ =>
        if now - MAX_IDLE > chunks[i].updated {
          match a.reachable
          case None => ok := false;
          case Some(true) =>
          case Some(false) => ok := StartChunk(i, a);
        }
    }

    method ResumeChunks(now: real, answers: nat -> Answer) returns (ok: bool)
      modifies this
      ensures (View(), ok) == ResumeFrom(old(View()), 0, now, answers)
    {
      var i := 0;
      while i < |chunks|
        invariant 0 <= i <= |chunks|
        invariant ResumeFrom(View(), i, now, answers) == ResumeFrom(old(View()), 0, now, answers)
        decreases |chunks| - i
      {
        ok := VisitChunk(i, now, answers(i));
        if !ok {
          return;
        }
        i := i + 1;
      }
      ok := true;
    }
  }

  class JobList {
    var jobs: seq<Job>
    var next: nat
    ghost var state: State

    ghost predicate Valid()
      reads this, jobs
    {
      && |state.jobs| == |jobs| && state.next == next
      && (forall k :: 0 <= k < |jobs| ==> jobs[k].View() == state.jobs[k])
      && (forall k, l :: 0 <= k < l < |jobs| ==> jobs[k] != jobs[l])
    }

    constructor ()
      ensures Valid() && state == State([], 0, {})
    {
      jobs := [];
      next := 0;
      state := State([], 0, {});
    }

    method IndexNamed(name: string) returns (k: nat)
      requires Valid()
      ensures k == JobNamed(state.jobs, name)
    {
      k := 0;
      while k < |jobs| && jobs[k].name != name
        invariant k <= |jobs| && forall l :: 0 <= l < k ==> state.jobs[l].name != name
      {
        k := k + 1;
      }
    }

    /** `finished` says whether the file is there already, and `known` are the chunks of the file in the remote
        group, if some chain there has it. */
    method AddJob(name: string, finished: bool, known: Option<seq<string>>) returns (found: bool, added: bool)
      requires Valid()
      modifies this
      ensures Valid()
      ensures state == if finished || known.None? then old(state) else Next(old(state), Add(name, known.value))
      ensures !finished ==>
        && (added <==> JobNamed(state.jobs, name) < |state.jobs|)
        && (found <==> known.Some? || JobNamed(old(state.jobs), name) < |old(state.jobs)|)
      ensures forall j :: j in jobs ==> j in old(jobs) || fresh(j)
    {
      found, added := false, false;
      if finished {
        return;
      }
      var k := IndexNamed(name);
      if k < |jobs| {
        return true, true;
      }
      if known.None? {
        return;
      }
      var j := new Job(next, name, known.value);
      jobs := jobs + [j];
      state := Next(state, Add(name, known.value));
      next := next + 1;
      assert state.jobs[k].name == name;
      return true, true;
    }

    method RemoveJob(name: string) returns (removed: bool)
      requires Valid()
      modifies this
      ensures Valid() && state == Next(old(state), Remove(name))
      ensures removed <==> JobNamed(old(state.jobs), name) < |old(state.jobs)|
      ensures forall j :: j in jobs ==> j in old(jobs)
    {
      var k := IndexNamed(name);
      removed := k < |jobs|;
      if removed {
        jobs := jobs[..k] + jobs[k + 1..];
        state := Next(state, Remove(name));
      }
    }

    method ResumeJobList(now: real, answers: nat -> nat -> Answer)
      requires Valid()
      modifies this, jobs
      ensures Valid() && state == Next(old(state), Resume(now, answers)) && jobs == old(jobs)
    {
      ghost var goal := ResumeJobs(state.jobs, 0, now, answers);
      var k, ok := 0, true;
      while k < |jobs| && ok
        invariant Valid() && jobs == old(jobs) && k <= |jobs|
        invariant state == old(state).(jobs := state.jobs)
        invariant goal == if ok then ResumeJobs(state.jobs, k, now, answers) else state.jobs
      {
        ok := jobs[k].ResumeChunks(now, answers(k));
        state := state.(jobs := state.jobs[k := jobs[k].View()]);
        k := k + 1;
      }
    }

    /** `unwanted` says that no job has the chunk, so that its file is deleted and its sender recorded. */
    method UpdateJob(hash: string) returns (callback: Option<nat>, unwanted: bool)
      requires Valid()
      modifies this, jobs
      ensures Valid() && state == Next(old(state), Update(hash)) && jobs == old(jobs)
      ensures callback == Reports(old(state.jobs), hash)
      ensures unwanted <==> forall k :: 0 <= k < |jobs| ==> forall i :: 0 <= i < |old(state.jobs)[k].chunks| ==>
                              old(state.jobs)[k].chunks[i].hash != hash
    {
      callback, unwanted := None, true;
      var k, i := FindChunk(hash);
      if k < |jobs| {
        unwanted := false;
        state := Next(state, Update(hash));
        jobs[k].EnterState(i, DONE);
        if jobs[k].done == |jobs[k].chunks| {
          callback := Some(jobs[k].id);
        }
      }
    }

    /** The first job with the chunk, and the chunk's place in it. */
    method FindChunk(hash: string) returns (k: nat, i: nat)
      requires Valid()
      ensures k == JobWith(state.jobs, hash) && (k < |jobs| ==> i == ChunkIndex(state.jobs[k].chunks, hash))
    {
      k, i := 0, 0;
      while k < |jobs|
        invariant k <= |jobs|
        invariant forall l :: 0 <= l < k ==> ChunkIndex(state.jobs[l].chunks, hash) == |state.jobs[l].chunks|
      {
        i := IndexOfChunk(jobs[k], hash);
        if i < |jobs[k].chunks| {
          break;
        }
        k := k + 1;
      }
    }

    method IndexOfChunk(j: Job, hash: string) returns (i: nat)
      ensures i == ChunkIndex(j.chunks, hash)
    {
      i := 0;
      while i < |j.chunks| && j.chunks[i].hash != hash
        invariant i <= |j.chunks| && forall l :: 0 <= l < i ==> j.chunks[l].hash != hash
      {
        i := i + 1;
      }
    }
  }
}
