/** From acknowledgement to the finished file: a task whose packets have all been acknowledged has been joined
    at the receiver. */
module FinishedFiles {
  import opened Common
  import opened Packets
  import opened PartNames
  import opened PartFiles
  import opened Reassembly
  import opened Receiver
  import opened ReceiverProofs
  import opened Sender
  import opened SendHistory
  import opened Transport
  import opened FlowControl

  /** A part that came from group `k` is in the directory. */
  ghost predicate Stored(dir: Dir, k: nat) {
    exists n :: n in dir && GroupIn(n) == k
  }

  ghost predicate Completed(cs: seq<Completion>, t: nat) {
    exists i :: 0 <= i < |cs| && cs[i].tidx == t
  }

  /** The file has parts, and each of them can be read back. */
  predicate Fits(cfg: Config, e: TaskLog) {
    e.file != [] && Min(cfg.taskBuffer, |e.file|) <= MAX_FILE_SIZE
  }

  /** The parts of the file and the file itself can be read back, as all files up to 1 GiB can that are not empty. */
  predicate Joinable(cfg: Config, e: TaskLog) {
    Fits(cfg, e) && Readable(|e.file|)
  }

  /** The file of task `t` has been completed, or cannot be. */
  ghost predicate Settled(cfg: Config, cs: seq<Completion>, log: seq<TaskLog>, t: nat)
    requires 1 <= t <= |log|
  {
    Completed(cs, t) || !Joinable(cfg, log[t - 1])
  }

  /** Some part of the task is not in the directory. */
  ghost predicate Missing(cfg: Config, dir: Dir, e: TaskLog)
    requires cfg.Valid()
  {
    exists i: nat :: i < FileParts(|e.file|, cfg.taskBuffer) && NotStored(dir, e, i)
  }

  /** Part `i` of the task has not been sent or is not in the directory. */
  ghost predicate NotStored(dir: Dir, e: TaskLog, i: nat) {
    i < |e.gidxs| ==> !Stored(dir, e.gidxs[i])
  }

  /** The history is in order, and the directory and the groups agree with it. */
  ghost predicate Ready(cfg: Config, dir: Dir, h: History) {
    cfg.Valid() && LogOk(cfg, h) && FilesLogged(h) && GroupsInRange(h.groups) && DirOk(cfg, dir, h.groups)
  }

  /** What has been delivered of a task is stored until the task is settled. */
  ghost predicate DeliveredKept(cfg: Config, dir: Dir, ds: seq<Delivery>, cs: seq<Completion>, h: History)
    requires FilesLogged(h)
  {
    forall k :: 0 <= k < |h.groups| && h.groups[k].meta.command == FILE && Delivered(ds, k) ==>
      Settled(cfg, cs, h.log, h.groups[k].meta.tidx) || Stored(dir, k)
  }

  /** No task has all its parts lying in the directory, provided they can be read: the last one to arrive
      joins them. */
  ghost predicate NoneWhole(cfg: Config, dir: Dir, h: History)
    requires cfg.Valid()
  {
    forall t :: 0 <= t < |h.log| && Fits(cfg, h.log[t]) ==> Missing(cfg, dir, h.log[t])
  }

  /** Only files that can be read back have been completed. */
  ghost predicate CompletedFit(cfg: Config, cs: seq<Completion>, log: seq<TaskLog>) {
    forall i :: 0 <= i < |cs| ==> 1 <= cs[i].tidx <= |log| && Joinable(cfg, log[cs[i].tidx - 1])
  }

  ghost predicate Kept(cfg: Config, dir: Dir, ds: seq<Delivery>, cs: seq<Completion>, h: History)
    requires cfg.Valid() && FilesLogged(h)
  {
    DeliveredKept(cfg, dir, ds, cs, h) && NoneWhole(cfg, dir, h) && CompletedFit(cfg, cs, h.log)
  }

  // ----- Joining

  lemma TaskOfGroup(cfg: Config, dir: Dir, h: History, n: string)
    requires Ready(cfg, dir, h) && n in dir
    ensures GroupIn(n) < |h.groups| && h.groups[GroupIn(n)].meta.command == FILE
    ensures PartOfTask(dir, n, h.groups[GroupIn(n)].meta.tidx)
  {
    assert NameOk(cfg, n, dir[n], h.groups);
  }

  /** The names that joining selects for task `t` are exactly the stored parts of that task. */
  lemma SelectedExactly(cfg: Config, h: History, dir: Dir, entries: seq<string>, t: nat)
    requires Ready(cfg, dir, h) && Enumerates(entries, dir.Keys)
    ensures forall n :: n in SortNames(Matching(entries, [cfg.self.host, cfg.self.port, t])) <==> PartOfTask(dir, n, t)
  {
    var task := [cfg.self.host, cfg.self.port, t];
    MatchingSelects(entries, task);
    SortDistinct(Matching(entries, task));
    forall n | n in dir ensures ScanTask(n) == Some(task) <==> PartOfTask(dir, n, t) {
      assert NameOk(cfg, n, dir[n], h.groups);
      ScanPartName(ScanPart(n).value);
      assert Some(task).value[2] == t;
    }
  }

  ghost function PartsOfTask(dir: Dir, t: nat): set<string> {
    set n | n in dir && PartOfTask(dir, n, t)
  }

  lemma SelectedSet(cfg: Config, h: History, dir: Dir, entries: seq<string>, t: nat)
    requires Ready(cfg, dir, h) && Enumerates(entries, dir.Keys)
    ensures (set n | n in SortNames(Matching(entries, [cfg.self.host, cfg.self.port, t]))) == PartsOfTask(dir, t)
  {
    SelectedExactly(cfg, h, dir, entries, t);
  }

  /** If all parts of a task are stored, joining selects as many names as the task has parts. */
  lemma WholeIsSelected(cfg: Config, h: History, dir: Dir, files: seq<string>, t: nat)
    requires Ready(cfg, dir, h) && 1 <= t <= |h.log|
    requires forall n :: n in files <==> PartOfTask(dir, n, t)
    requires forall i, j :: 0 <= i < j < |files| ==> StrLess(files[i], files[j])
    requires !Missing(cfg, dir, h.log[t - 1])
    ensures |files| == FileParts(|h.log[t - 1].file|, cfg.taskBuffer)
  {
    var e, gs := h.log[t - 1], GroupsIn(files);
    assert EntryOk(cfg, h.groups, e, t);
    assert |e.gidxs| < FileParts(|e.file|, cfg.taskBuffer) ==> NotStored(dir, e, |e.gidxs|);
    forall i, j | 0 <= i < j < |gs| ensures gs[i] < gs[j] {
      NamesInSendOrder(cfg, dir, h.groups, files[i], files[j], t);
    }
    forall i | 0 <= i < |gs| ensures gs[i] in e.gidxs {
      GroupOfName(cfg, h, dir, files[i], t);
    }
    forall i | 0 <= i < |e.gidxs| ensures e.gidxs[i] in gs {
      assert !NotStored(dir, e, i);
      var n :| n in dir && GroupIn(n) == e.gidxs[i];
      TaskOfGroup(cfg, dir, h, n);
      LoggedPart(cfg, h.groups, e, t, i);
      assert n in files;
      var j :| 0 <= j < |files| && files[j] == n;
      assert gs[j] == e.gidxs[i];
    }
    if |gs| <= |e.gidxs| {
      IncreasingInclusion(e.gidxs, gs);
    } else {
      IncreasingInclusion(gs, e.gidxs);
    }
  }

  /** What joining does to the directory and to task `t`. */
  ghost predicate Outcome(cfg: Config, dir: Dir, e: TaskLog, t: nat, dir': Dir, joined: Joined)
    requires cfg.Valid()
  {
    if joined.Incomplete? then dir' == dir && Missing(cfg, dir, e)
    else if !Fits(cfg, e) then dir' == dir && joined == Failed
    else dir' == dir - PartsOfTask(dir, t) && joined == if Readable(|e.file|) then Finalized(e.file) else Failed
  }

  /** Joining after a part of task `t` was stored: nothing happens while parts are missing or if the first cannot
      be read; otherwise the stored parts of the task are removed, and the file is completed if it can be read. */
  lemma JoinSettles(cfg: Config, h: History, dir: Dir, t: nat, entries: seq<string>)
    requires Ready(cfg, dir, h) && Enumerates(entries, dir.Keys) && 1 <= t <= |h.log| && h.log[t - 1].file != []
    ensures var (dir', joined) := JoinTask(cfg, h.log[t - 1], t, dir, entries);
            Outcome(cfg, dir, h.log[t - 1], t, dir', joined)
  {
    var found := Matching(entries, [cfg.self.host, cfg.self.port, t]);
    SelectedParts(cfg, h, dir, entries, t);
    SelectedSet(cfg, h, dir, entries, t);
    if |found| == FileParts(|h.log[t - 1].file|, cfg.taskBuffer) {
      JoinWhole(cfg, h, dir, t, found);
    } else if !Missing(cfg, dir, h.log[t - 1]) {
      SelectedExactly(cfg, h, dir, entries, t);
      WholeIsSelected(cfg, h, dir, SortNames(found), t);
      assert false;
    }
  }

  lemma JoinWhole(cfg: Config, h: History, dir: Dir, t: nat, found: seq<string>)
    requires Ready(cfg, dir, h) && 1 <= t <= |h.log| && h.log[t - 1].file != []
    requires |SortNames(found)| == |found| == FileParts(|h.log[t - 1].file|, cfg.taskBuffer)
    requires Selected(dir, SortNames(found), t) && (set n | n in SortNames(found)) == PartsOfTask(dir, t)
    ensures var (dir', joined) := JoinParts(dir, found, |found|);
            !joined.Incomplete? && Outcome(cfg, dir, h.log[t - 1], t, dir', joined)
  {
    var files := SortNames(found);
    SortedAreDistinct(files);
    JoinedIsFile(cfg, h, dir, files, t);
    AllOrNoneLead(cfg, h, dir, files, t);
    JoinPartsOutcome(dir, found, files);
    var (dir', joined) := JoinParts(dir, found, |found|);
    WholeOutcome(cfg, dir, h.log[t - 1], t, dir', joined, files);
  }

  lemma WholeOutcome(cfg: Config, dir: Dir, e: TaskLog, t: nat, dir': Dir, joined: Joined, files: seq<string>)
    requires cfg.Valid() && files != [] && (set n | n in files) == PartsOfTask(dir, t)
    requires var k := if Fits(cfg, e) then |files| else 0;
             && dir' == dir - (set n | n in files[..k])
             && joined == if k < |files| || !Readable(|e.file|) then Failed else Finalized(e.file)
    ensures !joined.Incomplete? && Outcome(cfg, dir, e, t, dir', joined)
  {
    if Fits(cfg, e) {
      assert files[..|files|] == files;
    } else {
      assert dir - (set n | n in files[..0]) == dir;
    }
  }

  lemma PartSize(file: seq<byte>, offset: nat, maxread: nat)
    requires maxread > 0 && FilePart(file, offset, maxread).Some?
    ensures var size := |FilePart(file, offset, maxread).value|;
            0 < size <= Min(maxread, |file|) && (offset == 0 ==> size == Min(maxread, |file|))
  {
  }

  /** The sizes of the stored parts of a task. */
  lemma PartSizes(cfg: Config, groups: seq<Group>, e: TaskLog, t: nat, contents: seq<seq<byte>>)
    requires cfg.Valid() && EntryOk(cfg, groups, e, t) && |contents| == |e.gidxs|
    requires forall i :: 0 <= i < |contents| ==> e.gidxs[i] < |groups| && contents[i] == groups[e.gidxs[i]].buffer
    ensures forall i :: 0 <= i < |contents| ==> 0 < |contents[i]| <= Min(cfg.taskBuffer, |e.file|)
    ensures contents != [] ==> |contents[0]| == Min(cfg.taskBuffer, |e.file|)
  {
    forall i | 0 <= i < |contents|
      ensures 0 < |contents[i]| <= Min(cfg.taskBuffer, |e.file|)
      ensures i == 0 ==> |contents[i]| == Min(cfg.taskBuffer, |e.file|)
    {
      LoggedPart(cfg, groups, e, t, i);
      PartSize(e.file, i * cfg.taskBuffer, cfg.taskBuffer);
    }
  }

  /** All parts of a task can be read, or its first cannot. */
  lemma AllOrNoneLead(cfg: Config, h: History, dir: Dir, files: seq<string>, t: nat)
    requires Ready(cfg, dir, h) && 1 <= t <= |h.log| && h.log[t - 1].file != []
    requires |files| == FileParts(|h.log[t - 1].file|, cfg.taskBuffer)
    requires Selected(dir, files, t)
    ensures Leading(dir, files) == if Fits(cfg, h.log[t - 1]) then |files| else 0
    ensures files != []
  {
    var e := h.log[t - 1];
    InSendOrder(cfg, h, dir, files, t);
    PartStartsInside(|e.file|, cfg.taskBuffer, 0);
    var contents := Contents(dir, files);
    PartSizes(cfg, h.groups, e, t, contents);
    forall i | 0 <= i < |files| ensures 0 < |dir[files[i]]| <= Min(cfg.taskBuffer, |e.file|) {
      assert contents[i] == dir[files[i]];
    }
    assert contents[0] == dir[files[0]];
    AllOrNone(dir, files, Min(cfg.taskBuffer, |e.file|));
  }

  // ----- Reading a delivered part

  /** Which groups of tasks other than `t` are stored is the same in both directories. */
  ghost predicate SameElsewhere(groups: seq<Group>, dir: Dir, dir': Dir, t: nat) {
    forall k :: 0 <= k < |groups| && groups[k].meta.tidx != t ==> (Stored(dir, k) <==> Stored(dir', k))
  }

  /** How a directory may change when group `k` of task `t` is read. */
  ghost predicate Changed(cfg: Config, h: History, dir: Dir, dir': Dir, k: nat, t: nat, settled: bool)
    requires cfg.Valid() && 1 <= t <= |h.log|
  {
    && SameElsewhere(h.groups, dir, dir', t)
    && (Fits(cfg, h.log[t - 1]) ==> Missing(cfg, dir', h.log[t - 1]))
    && (!settled ==> Stored(dir', k) && forall j :: Stored(dir, j) ==> Stored(dir', j))
  }

  lemma ChangeKeepsDelivered(cfg: Config, h: History, dir: Dir, dir': Dir, k: nat, t: nat, d: Delivery,
                             ds: seq<Delivery>, cs: seq<Completion>, cs': seq<Completion>)
    requires cfg.Valid() && FilesLogged(h) && DeliveredKept(cfg, dir, ds, cs, h)
    requires k < |h.groups| && h.groups[k].meta.tidx == t && 1 <= t <= |h.log| && d.gidx == k
    requires Changed(cfg, h, dir, dir', k, t, Settled(cfg, cs', h.log, t))
    requires forall u :: Completed(cs, u) ==> Completed(cs', u)
    ensures DeliveredKept(cfg, dir', ds + [d], cs', h)
  {
    forall j | 0 <= j < |h.groups| && h.groups[j].meta.command == FILE && Delivered(ds + [d], j)
      ensures Settled(cfg, cs', h.log, h.groups[j].meta.tidx) || Stored(dir', j)
    {
      if j != k {
        DeliveredBefore(ds, d, j);
      }
    }
  }

  lemma ChangeKeepsMissing(cfg: Config, h: History, dir: Dir, dir': Dir, k: nat, t: nat, settled: bool)
    requires cfg.Valid() && LogOk(cfg, h) && NoneWhole(cfg, dir, h) && 1 <= t <= |h.log|
    requires Changed(cfg, h, dir, dir', k, t, settled)
    ensures NoneWhole(cfg, dir', h)
  {
    forall u | 0 <= u < |h.log| && Fits(cfg, h.log[u]) ensures Missing(cfg, dir', h.log[u]) {
      if u + 1 != t {
        OthersMissing(cfg, h, dir, dir', t, u + 1);
      }
    }
  }

  lemma OthersMissing(cfg: Config, h: History, dir: Dir, dir': Dir, t: nat, u: nat)
    requires cfg.Valid() && LogOk(cfg, h) && SameElsewhere(h.groups, dir, dir', t) && 1 <= u <= |h.log| && u != t
    requires Missing(cfg, dir, h.log[u - 1])
    ensures Missing(cfg, dir', h.log[u - 1])
  {
    var e := h.log[u - 1];
    assert EntryOk(cfg, h.groups, e, u);
    var i: nat :| i < FileParts(|e.file|, cfg.taskBuffer) && NotStored(dir, e, i);
    if i < |e.gidxs| {
      LoggedPart(cfg, h.groups, e, u, i);
    }
    assert NotStored(dir', e, i);
  }

  lemma DeliveredBefore(ds: seq<Delivery>, d: Delivery, j: nat)
    requires Delivered(ds + [d], j) && d.gidx != j
    ensures Delivered(ds, j)
  {
    var i :| 0 <= i < |ds + [d]| && (ds + [d])[i].gidx == j;
    assert ds[i].gidx == j;
  }

  lemma NothingStored(cfg: Config, h: History, dir: Dir, t: nat)
    requires Ready(cfg, dir, h) && 1 <= t <= |h.log| && h.log[t - 1].file != []
    requires forall n :: !PartOfTask(dir, n, t)
    ensures Missing(cfg, dir, h.log[t - 1])
  {
    var e := h.log[t - 1];
    assert EntryOk(cfg, h.groups, e, t);
    PartStartsInside(|e.file|, cfg.taskBuffer, 0);
    forall n | n in dir && |e.gidxs| > 0 ensures GroupIn(n) != e.gidxs[0] {
      TaskOfGroup(cfg, dir, h, n);
      LoggedPart(cfg, h.groups, e, t, 0);
    }
    assert NotStored(dir, e, 0);
  }

  /** `partexists` finds a part only if one of this very group is stored. */
  lemma ExistingIsStored(cfg: Config, h: History, dir: Dir, p: Packet)
    requires Ready(cfg, dir, h) && PartOf(p).InRange() && PartExists(dir, PartPrefix(PartOf(p)))
    ensures Stored(dir, p.gidx)
  {
    var n :| n in dir && PartPrefix(PartOf(p)) <= n;
    assert NameOk(cfg, n, dir[n], h.groups);
    PartPrefixMatches(PartOf(p), ScanPart(n).value);
    assert GroupIn(n) == p.gidx;
  }

  /** A file group has a non-empty file behind it. */
  lemma FileBehind(cfg: Config, h: History, k: nat)
    requires cfg.Valid() && LogOk(cfg, h) && FilesLogged(h) && k < |h.groups| && h.groups[k].meta.command == FILE
    ensures 1 <= h.groups[k].meta.tidx <= |h.log| && h.log[h.groups[k].meta.tidx - 1].file != []
  {
    var t := h.groups[k].meta.tidx;
    var e := h.log[t - 1];
    assert EntryOk(cfg, h.groups, e, t);
    assert k in e.gidxs;
    if e.file == [] {
      PartStartsInside(0, cfg.taskBuffer, 0);
      assert false;
    }
  }

  lemma StoreChanges(cfg: Config, h: History, dir: Dir, name: string, data: seq<byte>, k: nat)
    requires Ready(cfg, dir[name := data], h) && k < |h.groups| && k != GroupIn(name)
    ensures Stored(dir, k) <==> Stored(dir[name := data], k)
  {
    var dir1 := dir[name := data];
    if Stored(dir1, k) {
      var n :| n in dir1 && GroupIn(n) == k;
      assert n in dir;
    }
    if Stored(dir, k) {
      var n :| n in dir && GroupIn(n) == k;
      assert n in dir1;
    }
  }

  lemma RemovalChanges(cfg: Config, h: History, dir: Dir, t: nat, k: nat)
    requires Ready(cfg, dir, h) && k < |h.groups| && h.groups[k].meta.tidx != t
    ensures Stored(dir, k) <==> Stored(dir - PartsOfTask(dir, t), k)
  {
    if Stored(dir, k) {
      var n :| n in dir && GroupIn(n) == k;
      TaskOfGroup(cfg, dir, h, n);
      assert n in dir - PartsOfTask(dir, t);
    }
    if Stored(dir - PartsOfTask(dir, t), k) {
      var n :| n in dir - PartsOfTask(dir, t) && GroupIn(n) == k;
      assert n in dir;
    }
  }

  /** The part is stored, and parts of its task are still missing or cannot be read. */
  lemma StoredChanges(cfg: Config, h: History, dir: Dir, name: string, data: seq<byte>, t: nat)
    requires Ready(cfg, dir[name := data], h) && 1 <= t <= |h.log|
    requires PartOfTask(dir[name := data], name, t)
    requires Fits(cfg, h.log[t - 1]) ==> Missing(cfg, dir[name := data], h.log[t - 1])
    ensures Changed(cfg, h, dir, dir[name := data], GroupIn(name), t, false)
  {
    var dir1 := dir[name := data];
    TaskOfGroup(cfg, dir1, h, name);
    assert Stored(dir1, GroupIn(name));
    forall k | 0 <= k < |h.groups| && h.groups[k].meta.tidx != t ensures Stored(dir, k) <==> Stored(dir1, k) {
      StoreChanges(cfg, h, dir, name, data, k);
    }
    forall j | Stored(dir, j) ensures Stored(dir1, j) {
      var n :| n in dir && GroupIn(n) == j;
      assert n in dir1;
    }
  }

  /** The part is stored, and all parts of its task are removed again by joining. */
  lemma JoinedChanges(cfg: Config, h: History, dir: Dir, name: string, data: seq<byte>, t: nat)
    requires Ready(cfg, dir[name := data], h) && 1 <= t <= |h.log| && h.log[t - 1].file != []
    requires PartOfTask(dir[name := data], name, t)
    ensures Changed(cfg, h, dir, dir[name := data] - PartsOfTask(dir[name := data], t), GroupIn(name), t, true)
  {
    var dir1 := dir[name := data];
    var dir' := dir1 - PartsOfTask(dir1, t);
    TaskOfGroup(cfg, dir1, h, name);
    forall k | 0 <= k < |h.groups| && h.groups[k].meta.tidx != t ensures Stored(dir, k) <==> Stored(dir', k) {
      StoreChanges(cfg, h, dir, name, data, k);
      RemovalChanges(cfg, h, dir1, t, k);
    }
    DirShrinks(cfg, dir1, h.groups, PartsOfTask(dir1, t));
    NothingStored(cfg, h, dir', t);
  }

  /** Reading a delivered file group, in terms of the directory before and after. */
  lemma ReadChanges(cfg: Config, h: History, dir: Dir, p: Packet, entries: seq<string>)
    requires Ready(cfg, dir, h) && NoneWhole(cfg, dir, h)
    requires SentPacket(h.groups, p) && p.meta.command == FILE && PartOf(p).InRange() && Listed(entries, dir, p)
    ensures 1 <= p.meta.tidx <= |h.log|
    ensures var (dir', joined) := FileRead(dir, PartOf(p), h.groups[p.gidx].buffer, entries);
            && Changed(cfg, h, dir, dir', p.gidx, p.meta.tidx,
                       joined.Finalized? || !Joinable(cfg, h.log[p.meta.tidx - 1]))
            && (joined.Finalized? ==> Joinable(cfg, h.log[p.meta.tidx - 1]))
  {
    FileBehind(cfg, h, p.gidx);
    if PartExists(dir, PartPrefix(PartOf(p))) {
      ExistingIsStored(cfg, h, dir, p);
    } else {
      ReadIsJoin(cfg, h, dir, p, entries);
      var name, data := PartName(PartOf(p)), h.groups[p.gidx].buffer;
      NewPartStored(cfg, h, dir, p, entries, name, dir[name := data]);
      JoinChanges(cfg, h, dir, name, data, p.meta.tidx, entries);
    }
  }

  lemma NewPartStored(cfg: Config, h: History, dir: Dir, p: Packet, entries: seq<string>, name: string, dir1: Dir)
    requires Ready(cfg, dir, h)
    requires SentPacket(h.groups, p) && p.meta.command == FILE && PartOf(p).InRange() && Listed(entries, dir, p)
    requires !PartExists(dir, PartPrefix(PartOf(p))) && name == PartName(PartOf(p))
    requires dir1 == dir[name := h.groups[p.gidx].buffer]
    ensures Ready(cfg, dir1, h) && Enumerates(entries, dir1.Keys)
    ensures PartOfTask(dir1, name, p.meta.tidx) && GroupIn(name) == p.gidx
  {
    FileMeta(cfg, h, p.gidx);
    StoredOk(cfg, h, dir, p, entries, name, dir1);
  }

  lemma JoinChanges(cfg: Config, h: History, dir: Dir, name: string, data: seq<byte>, t: nat, entries: seq<string>)
    requires Ready(cfg, dir[name := data], h) && Enumerates(entries, dir[name := data].Keys)
    requires PartOfTask(dir[name := data], name, t) && 1 <= t <= |h.log| && h.log[t - 1].file != []
    ensures var (dir', joined) := JoinTask(cfg, h.log[t - 1], t, dir[name := data], entries);
            && Changed(cfg, h, dir, dir', GroupIn(name), t, joined.Finalized? || !Joinable(cfg, h.log[t - 1]))
            && (joined.Finalized? ==> Joinable(cfg, h.log[t - 1]))
  {
    var (dir', joined) := JoinTask(cfg, h.log[t - 1], t, dir[name := data], entries);
    JoinSettles(cfg, h, dir[name := data], t, entries);
    OutcomeChanges(cfg, h, dir, name, data, t, dir', joined);
  }

  lemma OutcomeChanges(cfg: Config, h: History, dir: Dir, name: string, data: seq<byte>, t: nat,
                       dir': Dir, joined: Joined)
    requires Ready(cfg, dir[name := data], h) && PartOfTask(dir[name := data], name, t)
    requires 1 <= t <= |h.log| && h.log[t - 1].file != []
    requires Outcome(cfg, dir[name := data], h.log[t - 1], t, dir', joined)
    ensures Changed(cfg, h, dir, dir', GroupIn(name), t, joined.Finalized? || !Joinable(cfg, h.log[t - 1]))
    ensures joined.Finalized? ==> Joinable(cfg, h.log[t - 1])
  {
    if joined.Incomplete? || !Fits(cfg, h.log[t - 1]) {
      StoredChanges(cfg, h, dir, name, data, t);
    } else {
      JoinedChanges(cfg, h, dir, name, data, t);
    }
  }

  lemma CompletedGrows(cs: seq<Completion>, t: nat, j: Joined)
    ensures forall u :: Completed(cs, u) ==> Completed(Complete(cs, t, j), u)
    ensures j.Finalized? ==> Completed(Complete(cs, t, j), t)
  {
    var cs' := Complete(cs, t, j);
    forall u | Completed(cs, u) ensures Completed(cs', u) {
      var i :| 0 <= i < |cs| && cs[i].tidx == u;
      assert cs'[i].tidx == u;
    }
    if j.Finalized? {
      assert cs'[|cs|].tidx == t;
    }
  }

  lemma CompletedStayFit(cfg: Config, cs: seq<Completion>, log: seq<TaskLog>, t: nat, j: Joined)
    requires CompletedFit(cfg, cs, log) && 1 <= t <= |log| && (j.Finalized? ==> Joinable(cfg, log[t - 1]))
    ensures CompletedFit(cfg, Complete(cs, t, j), log)
  {
  }

  lemma ReadFileKept(cfg: Config, dir: Dir, ds: seq<Delivery>, cs: seq<Completion>, h: History, p: Packet,
                     entries: seq<string>)
    requires Ready(cfg, dir, h) && Kept(cfg, dir, ds, cs, h)
    requires SentPacket(h.groups, p) && p.meta.command == FILE && PartOf(p).InRange() && Listed(entries, dir, p)
    ensures var (dir', joined) := FileRead(dir, PartOf(p), h.groups[p.gidx].buffer, entries);
            Kept(cfg, dir', ds + [Delivery(p.gidx, h.groups[p.gidx].buffer)], Complete(cs, p.meta.tidx, joined), h)
  {
    var data, t := h.groups[p.gidx].buffer, p.meta.tidx;
    var (dir', joined) := FileRead(dir, PartOf(p), data, entries);
    var cs' := Complete(cs, t, joined);
    ReadChanges(cfg, h, dir, p, entries);
    CompletedGrows(cs, t, joined);
    CompletedStayFit(cfg, cs, h.log, t, joined);
    assert Changed(cfg, h, dir, dir', p.gidx, t, Settled(cfg, cs', h.log, t));
    ChangeKeepsDelivered(cfg, h, dir, dir', p.gidx, t, Delivery(p.gidx, data), ds, cs, cs');
    ChangeKeepsMissing(cfg, h, dir, dir', p.gidx, t, Settled(cfg, cs', h.log, t));
  }

  lemma ReadKept(cfg: Config, r: Receiver.State, h: History, p: Packet, entries: seq<string>)
    requires Ready(cfg, r.dir, h) && Kept(cfg, r.dir, r.delivered, r.completed, h)
    requires SentPacket(h.groups, p) && PartOf(p).InRange() && Listed(entries, r.dir, p)
    ensures var r' := Read(r, p, h.groups[p.gidx].buffer, entries);
            Kept(cfg, r'.dir, r'.delivered, r'.completed, h)
  {
    var d := Delivery(p.gidx, h.groups[p.gidx].buffer);
    if p.meta.command == FILE {
      ReadFileKept(cfg, r.dir, r.delivered, r.completed, h, p, entries);
    } else {
      forall j | Delivered(r.delivered + [d], j) && j != p.gidx ensures Delivered(r.delivered, j) {
        DeliveredBefore(r.delivered, d, j);
      }
    }
  }

  lemma ReceiveKept(cfg: Config, r: Receiver.State, h: History, p: Packet, c: Chance)
    requires Ready(cfg, r.dir, h) && RecvInv(cfg, r, h) && Kept(cfg, r.dir, r.delivered, r.completed, h)
    requires SentPacket(h.groups, p) && PartOf(p).InRange() && Listed(c.entries, r.dir, p)
    ensures var r' := Receive(r, p, c); Kept(cfg, r'.dir, r'.delivered, r'.completed, h)
  {
    var (cache, available) := Recv(r.cache, p, c.junk);
    RecvDeliversBuffer(r.cache, h.groups, p, c.junk);
    if available.Some? {
      ReadKept(cfg, r.(cache := cache, passed := r.passed + {p}), h, p, c.entries);
    }
  }

  // ----- What the sender adds

  /** The history goes on: what is logged stays, and what is new are new groups. */
  ghost predicate Grows(h: History, h': History) {
    && |h.groups| <= |h'.groups| && h.groups == h'.groups[..|h.groups|] && |h.log| <= |h'.log|
    && (forall t :: 0 <= t < |h.log| ==> h.log[t].file == h'.log[t].file && h.log[t].gidxs <= h'.log[t].gidxs)
    && (forall t, i :: 0 <= t < |h'.log| && 0 <= i < |h'.log[t].gidxs| && (t < |h.log| ==> i >= |h.log[t].gidxs|) ==>
          h'.log[t].gidxs[i] >= |h.groups|)
  }

  lemma RecordGrows(h: History, g: Option<Group>)
    requires g.Some? ==> g.value.gidx == |h.groups|
    ensures Grows(h, Record(h, g))
  {
  }

  lemma NewGroupsNotStored(cfg: Config, h: History, dir: Dir, k: nat)
    requires Ready(cfg, dir, h) && k >= |h.groups|
    ensures !Stored(dir, k)
  {
    forall n | n in dir ensures GroupIn(n) < |h.groups| {
      TaskOfGroup(cfg, dir, h, n);
    }
  }

  lemma GrowthKeepsMissing(cfg: Config, dir: Dir, h: History, h': History, t: nat)
    requires Ready(cfg, dir, h) && NoneWhole(cfg, dir, h) && Grows(h, h')
    requires t < |h'.log| && Fits(cfg, h'.log[t])
    ensures Missing(cfg, dir, h'.log[t])
  {
    var e' := h'.log[t];
    PartStartsInside(|e'.file|, cfg.taskBuffer, 0);
    var i: nat := 0;
    if t < |h.log| {
      i :| i < FileParts(|e'.file|, cfg.taskBuffer) && NotStored(dir, h.log[t], i);
    }
    if i < |e'.gidxs| && (t < |h.log| ==> i >= |h.log[t].gidxs|) {
      NewGroupsNotStored(cfg, h, dir, e'.gidxs[i]);
    }
    assert NotStored(dir, e', i);
  }

  lemma GrowthKept(cfg: Config, r: Receiver.State, h: History, h': History)
    requires Ready(cfg, r.dir, h) && Kept(cfg, r.dir, r.delivered, r.completed, h) && FilesLogged(h')
    requires DeliveredOk(r.delivered, h.groups) && Grows(h, h')
    ensures Kept(cfg, r.dir, r.delivered, r.completed, h')
  {
    forall t | 0 <= t < |h'.log| && Fits(cfg, h'.log[t]) ensures Missing(cfg, r.dir, h'.log[t]) {
      GrowthKeepsMissing(cfg, r.dir, h, h', t);
    }
    forall k | 0 <= k < |h'.groups| && h'.groups[k].meta.command == FILE && Delivered(r.delivered, k)
      ensures Settled(cfg, r.completed, h'.log, h'.groups[k].meta.tidx) || Stored(r.dir, k)
    {
      assert k < |h.groups| && h.groups[k] == h'.groups[k];
    }
  }

  // ----- Runs

  lemma StepGrows(cfg: Config, dst: Address, s: System, e: Event, s': System)
    requires cfg.Valid() && Step(cfg, dst, s, e, s') && SysInv(cfg, s')
    ensures Grows(s.h, s'.h)
  {
    match e
    case TaskAdded(name, d, file) =>
      if !HasTask(s.snd, name, d) {
        NewestGroup(cfg, s', s.h.(log := s.h.log + [TaskLog(file, d, [])]), AddTask(cfg, s.snd, name, d, file).1);
      }
    case TaskCancelled(idx) =>
    case MessageSent(meta, buffer) => NewestGroup(cfg, s', s.h, Send(s.snd, meta, buffer).1);
    case InstantCleaned => NewestGroup(cfg, s', s.h, Update(cfg, s.snd).1);
    case Visited(i, suspended) => NewestGroup(cfg, s', s.h, Visit(cfg, s.snd, i).1);
    case AckArrived(tidx, pidx) => NewestGroup(cfg, s', s.h, Ack(cfg, s.snd, tidx, pidx).1);
    case PacketArrived(p, c) =>
  }

  lemma NewestGroup(cfg: Config, s': System, h: History, g: Option<Group>)
    requires cfg.Valid() && SysInv(cfg, s') && s'.h == Record(h, g)
    ensures g.Some? ==> g.value.gidx == |h.groups|
    ensures Grows(h, s'.h)
  {
    if g.Some? {
      assert s'.h.groups[|h.groups|] == g.value;
    }
    RecordGrows(h, g);
  }

  ghost predicate SystemKept(cfg: Config, s: System)
    requires cfg.Valid() && FilesLogged(s.h)
  {
    Kept(cfg, s.rcv.dir, s.rcv.delivered, s.rcv.completed, s.h)
  }

  lemma StepKept(cfg: Config, dst: Address, s: System, e: Event, s': System)
    requires cfg.Valid() && Step(cfg, dst, s, e, s') && InRange(cfg, s.h)
    requires SysInv(cfg, s) && SysInv(cfg, s') && SystemKept(cfg, s)
    ensures SystemKept(cfg, s')
  {
    InRangeGroups(cfg, s.snd, s.h);
    assert Ready(cfg, s.rcv.dir, s.h);
    if e.PacketArrived? {
      ReceiveKept(cfg, s.rcv, s.h, e.packet, e.chance);
    } else {
      StepGrows(cfg, dst, s, e, s');
      assert s'.rcv == s.rcv;
      GrowthKept(cfg, s.rcv, s.h, s'.h);
    }
  }

  lemma {:induction false} RunKept(cfg: Config, dst: Address, es: seq<Event>, ss: seq<System>, n: nat)
    requires cfg.Valid() && Run(cfg, dst, es, ss) && n < |ss|
    ensures FilesLogged(ss[n].h) && SystemKept(cfg, ss[n])
  {
    if n == 0 {
      InitKept(cfg);
    } else {
      RunKept(cfg, dst, es, ss, n - 1);
      RunStepKept(cfg, dst, es, ss, n - 1);
    }
  }

  lemma InitKept(cfg: Config)
    requires cfg.Valid()
    ensures FilesLogged(Init().h) && SystemKept(cfg, Init())
  {
  }

  lemma RunStepKept(cfg: Config, dst: Address, es: seq<Event>, ss: seq<System>, n: nat)
    requires cfg.Valid() && Run(cfg, dst, es, ss) && n < |es|
    requires FilesLogged(ss[n].h) && SystemKept(cfg, ss[n])
    ensures FilesLogged(ss[n + 1].h) && SystemKept(cfg, ss[n + 1])
  {
    RunKeeps(cfg, dst, es, ss, n);
    RunKeeps(cfg, dst, es, ss, n + 1);
    assert StepAt(cfg, dst, es, ss, n);
    StepKept(cfg, dst, ss[n], es[n], ss[n + 1]);
  }

  // ----- Main results

  /** The file of task `t` has been completed, with exactly the sender's content. */
  ghost predicate CompletedAsSent(s: System, t: nat)
    requires 1 <= t <= |s.h.log|
  {
    exists i :: 0 <= i < |s.rcv.completed| && s.rcv.completed[i] == Completion(t, s.h.log[t - 1].file)
  }

  /** In every run: when all parts of a file have been sent and delivered, the receiver has completed it exactly
      if it can be read back. */
  lemma DeliveredFilesAreCompleted(cfg: Config, dst: Address, es: seq<Event>, ss: seq<System>, n: nat, t: nat)
    requires cfg.Valid() && Run(cfg, dst, es, ss) && n < |ss| && 1 <= t <= |ss[n].h.log|
    requires var e := ss[n].h.log[t - 1];
             && |e.gidxs| == FileParts(|e.file|, cfg.taskBuffer)
             && forall i :: 0 <= i < |e.gidxs| ==> Delivered(ss[n].rcv.delivered, e.gidxs[i])
    ensures CompletedAsSent(ss[n], t) <==> Joinable(cfg, ss[n].h.log[t - 1])
  {
    RunKept(cfg, dst, es, ss, n);
    if Joinable(cfg, ss[n].h.log[t - 1]) {
      RunLogOk(cfg, dst, es, ss, n);
      WholeIsCompleted(cfg, ss[n].rcv.dir, ss[n].rcv.delivered, ss[n].rcv.completed, ss[n].h, t);
      CompletedIsAsSent(cfg, dst, es, ss, n, t);
    }
  }

  lemma RunLogOk(cfg: Config, dst: Address, es: seq<Event>, ss: seq<System>, n: nat)
    requires cfg.Valid() && Run(cfg, dst, es, ss) && n < |ss|
    ensures LogOk(cfg, ss[n].h)
  {
    RunKeeps(cfg, dst, es, ss, n);
  }

  lemma CompletedIsAsSent(cfg: Config, dst: Address, es: seq<Event>, ss: seq<System>, n: nat, t: nat)
    requires cfg.Valid() && Run(cfg, dst, es, ss) && n < |ss| && 1 <= t <= |ss[n].h.log|
    requires Completed(ss[n].rcv.completed, t)
    ensures CompletedAsSent(ss[n], t)
  {
    var cs := ss[n].rcv.completed;
    var c :| 0 <= c < |cs| && cs[c].tidx == t;
    CompletedFilesAreSentFiles(cfg, dst, es, ss, n, c);
  }

  /** Some part is not stored although it was delivered, so the file must have been joined. */
  lemma WholeIsCompleted(cfg: Config, dir: Dir, ds: seq<Delivery>, cs: seq<Completion>, h: History, t: nat)
    requires cfg.Valid() && LogOk(cfg, h) && FilesLogged(h) && Kept(cfg, dir, ds, cs, h) && 1 <= t <= |h.log|
    requires var e := h.log[t - 1];
             && Joinable(cfg, e) && |e.gidxs| == FileParts(|e.file|, cfg.taskBuffer)
             && forall i :: 0 <= i < |e.gidxs| ==> Delivered(ds, e.gidxs[i])
    ensures Completed(cs, t)
  {
    var e := h.log[t - 1];
    assert EntryOk(cfg, h.groups, e, t) && Missing(cfg, dir, e);
    var i: nat :| i < FileParts(|e.file|, cfg.taskBuffer) && NotStored(dir, e, i);
    LoggedPart(cfg, h.groups, e, t, i);
  }

  /** In every run: a task that is no longer pending and was not cancelled, and none of whose packets is still
      waiting or was given up, has its file completed at the receiver exactly if it can be read back. */
  lemma FinishedTasksAreCompleted(cfg: Config, dst: Address, es: seq<Event>, ss: seq<System>, n: nat, t: nat)
    requires cfg.Valid() && Run(cfg, dst, es, ss) && n < |ss| && 1 <= t <= |ss[n].h.log|
    requires !Pending(ss[n].snd.tasks, t) && t !in ss[n].cancelled
    requires forall p :: SentPacket(ss[n].h.groups, p) && p.meta.command == FILE && p.meta.tidx == t ==>
               !Waiting(ss[n].snd.queue, p) && p !in ss[n].expired
    ensures CompletedAsSent(ss[n], t) <==> Joinable(cfg, ss[n].h.log[t - 1])
  {
    var s, e := ss[n], ss[n].h.log[t - 1];
    RunKeeps(cfg, dst, es, ss, n);
    RunFlow(cfg, dst, es, ss, n);
    assert !Pending(s.snd.tasks, t - 1 + 1);
    assert EntryOk(cfg, s.h.groups, e, t);
    forall i | 0 <= i < |e.gidxs| ensures Delivered(s.rcv.delivered, e.gidxs[i]) {
      LoggedPart(cfg, s.h.groups, e, t, i);
      forall p | s.h.groups[e.gidxs[i]].Has(p) ensures !Waiting(s.snd.queue, p) && p !in s.expired {
        assert s.h.groups[e.gidxs[i]].gidx == e.gidxs[i];
        assert SentPacket(s.h.groups, p);
      }
      AcknowledgedGroupsAreDelivered(cfg, dst, es, ss, n, e.gidxs[i]);
    }
    DeliveredFilesAreCompleted(cfg, dst, es, ss, n, t);
  }
}
