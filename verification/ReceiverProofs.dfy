/** What the receiver keeps, relative to the groups the sender has sent. */
module ReceiverProofs {
  import opened Common
  import opened Packets
  import opened Reassembly
  import opened PartNames
  import opened PartFiles
  import opened Receiver
  import opened Sender
  import opened SendHistory

  // ----- Reassembly caches

  /** A cache holds distinct packets of one sent group. */
  ghost predicate CacheOk(c: Cache, groups: seq<Group>) {
    && c.group < |groups|
    && var g := groups[c.group];
    && c.dst == g.meta.dst && c.total == g.Count()
    && Distinct(c.received) && |c.received| <= c.total
    && (forall i :: 0 <= i < |c.received| ==> g.pidx <= c.received[i] < g.pidx + g.Count())
    && (|c.received| < c.total ==> c.data == [] && Parallel(c, g))
  }

  ghost predicate Parallel(c: Cache, g: Group) {
    && |c.all| == |c.received|
    && forall i :: 0 <= i < |c.all| ==> g.Has(c.all[i]) && c.all[i].pidx == c.received[i]
  }

  ghost predicate CachesOk(cs: seq<Cache>, groups: seq<Group>) {
    && (forall i :: 0 <= i < |cs| ==> CacheOk(cs[i], groups))
    && (forall i, j :: 0 <= i < j < |cs| ==> cs[i].group != cs[j].group)
  }

  ghost predicate GroupsInRange(groups: seq<Group>) {
    forall k :: 0 <= k < |groups| ==>
      groups[k].gidx == k && groups[k].buffer != [] && |groups[k].buffer| < INT_LIMIT &&
      groups[k].pidx + groups[k].Count() <= INT_LIMIT
  }

  /** A cache as large as its group holds every packet of it. */
  lemma FullCacheHasAll(c: Cache, groups: seq<Group>, p: Packet)
    requires CacheOk(c, groups) && GroupsInRange(groups)
    requires groups[c.group].Has(p) && |c.received| == c.total
    ensures p.pidx in c.received
  {
    var g := groups[c.group];
    PidxInGroup(g, p);
    var shifted: seq<nat> := seq(|c.received|, i requires 0 <= i < |c.received| => c.received[i] - g.pidx);
    Pigeonhole(shifted, g.Count());
    assert p.pidx - g.pidx in shifted;
  }

  /** A cache that holds every packet of its group is as large as the group. */
  lemma HoldingAllIsFull(c: Cache, groups: seq<Group>)
    requires CacheOk(c, groups) && GroupsInRange(groups)
    requires forall p :: groups[c.group].Has(p) ==> p.pidx in c.received
    ensures |c.received| == c.total
  {
    var g := groups[c.group];
    var image := set x | x in c.received;
    DistinctCardinality(c.received);
    forall x | x in Range(g.pidx, g.Count()) ensures x in image {
      PacketWithPidx(g, x);
    }
    SubsetSize(Range(g.pidx, g.Count()), image);
  }

  lemma PacketWithPidx(g: Group, x: nat)
    requires g.pidx <= x < g.pidx + g.Count() <= INT_LIMIT
    ensures exists p :: g.Has(p) && p.pidx == x
  {
    var p := PacketAt(g.meta, g.buffer, g.pidx, g.gidx, x - g.pidx);
    assert p.offset / UDP_PACKET_PAYLOAD == x - g.pidx;
    assert g.Has(p);
  }

  lemma OpenedOk(cs: seq<Cache>, groups: seq<Group>, p: Packet)
    requires CachesOk(cs, groups) && SentPacket(groups, p) && GroupsInRange(groups)
    ensures CachesOk(Opened(cs, p), groups)
    ensures var i := FindCache(cs, p.gidx, p.meta.dst);
            i < |Opened(cs, p)| && Opened(cs, p)[i].group == p.gidx
  {
    var i := FindCache(cs, p.gidx, p.meta.dst);
    if i == |cs| {
      forall k | 0 <= k < |cs| ensures cs[k].group != p.gidx {
        assert CacheOk(cs[k], groups);
      }
      var g := groups[p.gidx];
      var c := Cache(p.gidx, p.meta.dst, p.chunks, [], [], []);
      assert CacheOk(c, groups);
    }
  }

  /** A cache takes in one more packet of its group and stays admissible; when it becomes complete its
      data are the bytes the sender cut up. */
  lemma CacheGrows(c: Cache, groups: seq<Group>, p: Packet, junk: Junk)
    requires CacheOk(c, groups) && GroupsInRange(groups)
    requires c.group == p.gidx && SentPacket(groups, p) && p.pidx !in c.received
    ensures |c.received| < c.total
    ensures var c1 := c.(all := c.all + [p], received := c.received + [p.pidx]);
            if |c1.received| != c1.total then CacheOk(c1, groups)
            else && CacheOk(c1.(all := [], data := Assemble(c1.all, c1.data, junk)), groups)
                 && Assemble(c1.all, c1.data, junk) == groups[p.gidx].buffer
  {
    var g := groups[p.gidx];
    if |c.received| == c.total {
      FullCacheHasAll(c, groups, p);
    }
    PidxInGroup(g, p);
    var c1 := c.(all := c.all + [p], received := c.received + [p.pidx]);
    assert Distinct(c1.received);
    assert Parallel(c1, g);
    if |c1.received| == c1.total {
      ParallelAssembles(c1, g, junk);
    }
  }

  lemma ParallelAssembles(c: Cache, g: Group, junk: Junk)
    requires Parallel(c, g) && Distinct(c.received) && |c.received| == g.Count() && |g.buffer| < INT_LIMIT
    ensures Assemble(c.all, [], junk) == g.buffer
  {
    forall i, j | 0 <= i < j < |c.all| ensures c.all[i].pidx != c.all[j].pidx {
      assert c.received[i] != c.received[j];
    }
    AssembleWhole(c.all, junk, g.meta, g.buffer, g.pidx, g.gidx);
  }

  lemma CacheReplaced(cs: seq<Cache>, groups: seq<Group>, i: nat, c: Cache)
    requires CachesOk(cs, groups) && i < |cs| && CacheOk(c, groups) && c.group == cs[i].group
    ensures CachesOk(cs[i := c], groups)
  {
  }

  /** Reassembly: the caches stay admissible, and every group that becomes available carries exactly the
      buffer that was chunked, for every arrival order, repetition and junk. */
  lemma RecvDeliversBuffer(cs: seq<Cache>, groups: seq<Group>, p: Packet, junk: Junk)
    requires CachesOk(cs, groups) && SentPacket(groups, p) && GroupsInRange(groups)
    ensures var (cs', available) := Recv(cs, p, junk);
            && CachesOk(cs', groups)
            && (available.Some? ==>
                  && cs'[available.value].group == p.gidx
                  && cs'[available.value].data == groups[p.gidx].buffer)
  {
    OpenedOk(cs, groups, p);
    var i := FindCache(cs, p.gidx, p.meta.dst);
    var cs1 := Opened(cs, p);
    var c := cs1[i];
    assert CacheOk(c, groups);
    if p.pidx !in c.received {
      CacheGrows(c, groups, p, junk);
      var c1 := c.(all := c.all + [p], received := c.received + [p.pidx]);
      if |c1.received| != c1.total {
        CacheReplaced(cs1, groups, i, c1);
      } else {
        CacheReplaced(cs1, groups, i, c1.(all := [], data := Assemble(c1.all, c1.data, junk)));
      }
    }
  }

  // ----- Nothing taken in is forgotten before delivery

  ghost predicate Holds(cs: seq<Cache>, p: Packet) {
    exists i :: 0 <= i < |cs| && cs[i].group == p.gidx && p.pidx in cs[i].received
  }

  ghost predicate Delivered(ds: seq<Delivery>, g: nat) {
    exists i :: 0 <= i < |ds| && ds[i].gidx == g
  }

  /** Complete caches belong to delivered groups. */
  ghost predicate CompleteDelivered(cs: seq<Cache>, ds: seq<Delivery>) {
    forall i :: 0 <= i < |cs| && |cs[i].received| == cs[i].total ==> Delivered(ds, cs[i].group)
  }

  /** A packet taken in is still held, or its group has been delivered. */
  ghost predicate PassedOk(r: Receiver.State, groups: seq<Group>) {
    forall p :: p in r.passed ==>
      SentPacket(groups, p) && (Delivered(r.delivered, p.gidx) || Holds(r.cache, p))
  }

  lemma RecvHolds(cs: seq<Cache>, p: Packet, junk: Junk, q: Packet)
    requires q == p || Holds(cs, q)
    ensures Holds(Recv(cs, p, junk).0, q)
  {
    var i := FindCache(cs, p.gidx, p.meta.dst);
    var cs' := Recv(cs, p, junk).0;
    if q == p {
      assert cs'[i].group == p.gidx && p.pidx in cs'[i].received;
    } else {
      var k :| 0 <= k < |cs| && cs[k].group == q.gidx && q.pidx in cs[k].received;
      assert cs'[k].group == q.gidx && q.pidx in cs'[k].received;
    }
  }

  lemma RecvCompletes(cs: seq<Cache>, groups: seq<Group>, p: Packet, junk: Junk, ds: seq<Delivery>)
    requires CachesOk(cs, groups) && SentPacket(groups, p) && GroupsInRange(groups)
    requires CompleteDelivered(cs, ds)
    ensures var (cs', available) := Recv(cs, p, junk);
            forall i :: 0 <= i < |cs'| && |cs'[i].received| == cs'[i].total ==>
              Delivered(ds, cs'[i].group) || available == Some(i)
  {
    OpenedOk(cs, groups, p);
    assert p.chunks > 0;
  }

  /** An undelivered group whose packets have all been taken in cannot exist. */
  lemma AllPassedDelivered(r: Receiver.State, groups: seq<Group>, k: nat)
    requires CachesOk(r.cache, groups) && GroupsInRange(groups)
    requires CompleteDelivered(r.cache, r.delivered) && PassedOk(r, groups)
    requires k < |groups|
    requires forall p :: groups[k].Has(p) ==> p in r.passed
    ensures Delivered(r.delivered, k)
  {
    if !Delivered(r.delivered, k) {
      var g := groups[k];
      var p := PacketAt(g.meta, g.buffer, g.pidx, g.gidx, 0);
      assert g.Has(p);
      assert Holds(r.cache, p);
      var i :| 0 <= i < |r.cache| && r.cache[i].group == p.gidx && p.pidx in r.cache[i].received;
      forall q | g.Has(q) ensures q.pidx in r.cache[i].received {
        assert q in r.passed && Holds(r.cache, q);
      }
      HoldingAllIsFull(r.cache[i], groups);
      assert false;
    }
  }

  // ----- The parts directory

  /** A stored part bears the name and the content of the file group it came from. */
  ghost predicate NameOk(cfg: Config, n: string, content: seq<byte>, groups: seq<Group>) {
    && ScanPart(n).Some?
    && var f := ScanPart(n).value;
    && f.InRange() && n == PartName(f)
    && f.host == cfg.self.host && f.port == cfg.self.port
    && f.gidx < |groups|
    && var g := groups[f.gidx];
    && g.meta.command == FILE && g.meta.tidx == f.tidx && g.meta.parts == f.parts
    && content == g.buffer
  }

  /** Two stored parts came from the same group. */
  ghost predicate Clash(dir: Dir, m: string, n: string) {
    m in dir && n in dir && m != n && GroupIn(m) == GroupIn(n)
  }

  ghost predicate DirOk(cfg: Config, dir: Dir, groups: seq<Group>) {
    && (forall n {:trigger NameOk(cfg, n, dir[n], groups)} :: n in dir ==> NameOk(cfg, n, dir[n], groups))
    && (forall m, n :: !Clash(dir, m, n))
  }

  /** Storing a part for which `partexists` found none keeps the directory admissible. */
  lemma StoreKeeps(cfg: Config, dir: Dir, groups: seq<Group>, p: Part, data: seq<byte>)
    requires DirOk(cfg, dir, groups) && p.InRange()
    requires !PartExists(dir, PartPrefix(p))
    requires NameOk(cfg, PartName(p), data, groups)
    ensures DirOk(cfg, dir[PartName(p) := data], groups)
  {
    var name, dir1 := PartName(p), dir[PartName(p) := data];
    ScanPartName(p);
    forall n | n in dir ensures NameOk(cfg, n, dir1[n], groups) && GroupIn(n) != GroupIn(name) {
      assert NameOk(cfg, n, dir[n], groups);
      PartPrefixMatches(p, ScanPart(n).value);
    }
    forall m, n ensures !Clash(dir1, m, n) {
      assert !Clash(dir, m, n);
    }
  }

  lemma PartNameOk(cfg: Config, groups: seq<Group>, p: Packet)
    requires SentPacket(groups, p) && GroupsInRange(groups) && PartOf(p).InRange()
    requires p.meta.command == FILE && p.meta.src == cfg.self
    ensures NameOk(cfg, PartName(PartOf(p)), groups[p.gidx].buffer, groups)
  {
    ScanPartName(PartOf(p));
  }

  /** The group index in a part's name. */
  ghost function GroupIn(n: string): nat {
    if ScanPart(n).Some? then ScanPart(n).value.gidx else 0
  }

  ghost function GroupsIn(files: seq<string>): (gs: seq<nat>)
    ensures |gs| == |files| && forall i :: 0 <= i < |files| ==> gs[i] == GroupIn(files[i])
  {
    seq(|files|, i requires 0 <= i < |files| => GroupIn(files[i]))
  }

  /** A stored part of this task. */
  ghost predicate PartOfTask(dir: Dir, n: string, tidx: nat) {
    n in dir && ScanPart(n).Some? && ScanPart(n).value.tidx == tidx
  }

  lemma NamesInSendOrder(cfg: Config, dir: Dir, groups: seq<Group>, m: string, n: string, tidx: nat)
    requires DirOk(cfg, dir, groups)
    requires PartOfTask(dir, m, tidx) && PartOfTask(dir, n, tidx) && StrLess(m, n)
    ensures GroupIn(m) < GroupIn(n)
  {
    assert NameOk(cfg, m, dir[m], groups) && NameOk(cfg, n, dir[n], groups) && !Clash(dir, m, n);
    StrLessTotal(m, m);
    PartNameSendOrder(ScanPart(m).value, ScanPart(n).value);
  }

  lemma GroupOfName(cfg: Config, h: History, dir: Dir, n: string, tidx: nat)
    requires cfg.Valid() && DirOk(cfg, dir, h.groups) && FilesLogged(h) && PartOfTask(dir, n, tidx)
    ensures 1 <= tidx <= |h.log|
    ensures GroupIn(n) in h.log[tidx - 1].gidxs
    ensures GroupIn(n) < |h.groups| && dir[n] == h.groups[GroupIn(n)].buffer
  {
    assert NameOk(cfg, n, dir[n], h.groups);
  }

  /** As many of a task's groups as it has parts, in increasing order, hold the parts in order. */
  lemma GroupsMakeFile(cfg: Config, groups: seq<Group>, e: TaskLog, tidx: nat, contents: seq<seq<byte>>)
    requires cfg.Valid() && EntryOk(cfg, groups, e, tidx)
    requires |e.gidxs| == |contents| == FileParts(|e.file|, cfg.taskBuffer)
    requires forall i :: 0 <= i < |e.gidxs| ==> e.gidxs[i] < |groups| && contents[i] == groups[e.gidxs[i]].buffer
    ensures Concat(contents) == e.file
  {
    forall i | 0 <= i < |contents| ensures PartAt(e.file, cfg.taskBuffer, contents, i) {
      LoggedPart(cfg, groups, e, tidx, i);
    }
    AllPartsConcat(e.file, cfg.taskBuffer, contents);
  }

  lemma LoggedInOrder(cfg: Config, groups: seq<Group>, e: TaskLog, tidx: nat, gs: seq<nat>)
    requires cfg.Valid() && EntryOk(cfg, groups, e, tidx)
    requires |gs| == FileParts(|e.file|, cfg.taskBuffer) && StrictlyIncreasing(gs)
    requires forall i :: 0 <= i < |gs| ==> gs[i] in e.gidxs
    ensures gs == e.gidxs
  {
    IncreasingInclusion(gs, e.gidxs);
  }

  lemma LoggedPart(cfg: Config, groups: seq<Group>, e: TaskLog, tidx: nat, i: nat)
    requires cfg.Valid() && EntryOk(cfg, groups, e, tidx) && i < |e.gidxs|
    ensures e.gidxs[i] < |groups|
    ensures groups[e.gidxs[i]].meta == Meta(FILE, tidx, FileParts(|e.file|, cfg.taskBuffer), cfg.self, e.dst)
    ensures FilePart(e.file, i * cfg.taskBuffer, cfg.taskBuffer) == Some(groups[e.gidxs[i]].buffer)
  {
    assert PartLogged(cfg, groups, e, tidx, i);
  }

  /** As many stored parts of a task as it has parts are all of them, and sorted by name they are in
      the order of sending. */
  lemma InSendOrder(cfg: Config, h: History, dir: Dir, files: seq<string>, tidx: nat)
    requires cfg.Valid() && DirOk(cfg, dir, h.groups) && LogOk(cfg, h) && FilesLogged(h)
    requires 1 <= tidx <= |h.log|
    requires |files| == FileParts(|h.log[tidx - 1].file|, cfg.taskBuffer)
    requires forall i :: 0 <= i < |files| ==> files[i] in dir && PartOfTask(dir, files[i], tidx)
    requires forall i, j :: 0 <= i < j < |files| ==> StrLess(files[i], files[j])
    ensures var (e, gs) := (h.log[tidx - 1], GroupsIn(files));
            && EntryOk(cfg, h.groups, e, tidx) && gs == e.gidxs
            && forall i :: 0 <= i < |gs| ==> gs[i] < |h.groups| && dir[files[i]] == h.groups[gs[i]].buffer
  {
    var e, gs := h.log[tidx - 1], GroupsIn(files);
    forall i, j | 0 <= i < j < |gs| ensures gs[i] < gs[j] {
      NamesInSendOrder(cfg, dir, h.groups, files[i], files[j], tidx);
    }
    forall i | 0 <= i < |gs|
      ensures gs[i] in e.gidxs && gs[i] < |h.groups| && dir[files[i]] == h.groups[gs[i]].buffer
    {
      GroupOfName(cfg, h, dir, files[i], tidx);
    }
    assert EntryOk(cfg, h.groups, e, tidx);
    LoggedInOrder(cfg, h.groups, e, tidx, gs);
  }

  /** Their contents make up the file. */
  lemma JoinedIsFile(cfg: Config, h: History, dir: Dir, files: seq<string>, tidx: nat)
    requires cfg.Valid() && DirOk(cfg, dir, h.groups) && LogOk(cfg, h) && FilesLogged(h)
    requires 1 <= tidx <= |h.log|
    requires |files| == FileParts(|h.log[tidx - 1].file|, cfg.taskBuffer)
    requires forall i :: 0 <= i < |files| ==> files[i] in dir && PartOfTask(dir, files[i], tidx)
    requires forall i, j :: 0 <= i < j < |files| ==> StrLess(files[i], files[j])
    ensures Concat(Contents(dir, files)) == h.log[tidx - 1].file
  {
    InSendOrder(cfg, h, dir, files, tidx);
    GroupsMakeFile(cfg, h.groups, h.log[tidx - 1], tidx, Contents(dir, files));
  }

  lemma DirShrinks(cfg: Config, dir: Dir, groups: seq<Group>, names: set<string>)
    requires DirOk(cfg, dir, groups)
    ensures DirOk(cfg, dir - names, groups)
  {
    var dir' := dir - names;
    forall n | n in dir' ensures NameOk(cfg, n, dir'[n], groups) {
      assert NameOk(cfg, n, dir[n], groups);
    }
    forall m, n ensures !Clash(dir', m, n) {
      assert !Clash(dir, m, n);
    }
  }

  /** The header of a file group, according to the log. */
  lemma FileMeta(cfg: Config, h: History, k: nat)
    requires cfg.Valid() && LogOk(cfg, h) && FilesLogged(h)
    requires k < |h.groups| && h.groups[k].meta.command == FILE
    ensures var m := h.groups[k].meta;
            && 1 <= m.tidx <= |h.log|
            && m.src == cfg.self
            && m.parts == FileParts(|h.log[m.tidx - 1].file|, cfg.taskBuffer)
  {
    var t := h.groups[k].meta.tidx;
    var e := h.log[t - 1];
    assert EntryOk(cfg, h.groups, h.log[t - 1], t - 1 + 1);
    var i :| 0 <= i < |e.gidxs| && e.gidxs[i] == k;
    LoggedPart(cfg, h.groups, e, t, i);
  }

  /** These names are in order and those of stored parts of the task. */
  ghost predicate Selected(dir: Dir, files: seq<string>, tidx: nat) {
    && (forall i, j :: 0 <= i < j < |files| ==> StrLess(files[i], files[j]))
    && (forall i :: 0 <= i < |files| ==> files[i] in dir && PartOfTask(dir, files[i], tidx))
  }

  /** The names `filejoin` selects, sorted. */
  lemma SelectedParts(cfg: Config, h: History, dir: Dir, entries: seq<string>, tidx: nat)
    requires DirOk(cfg, dir, h.groups) && GroupsInRange(h.groups)
    requires Enumerates(entries, dir.Keys)
    ensures var found := Matching(entries, [cfg.self.host, cfg.self.port, tidx]);
            |SortNames(found)| == |found| && Selected(dir, SortNames(found), tidx)
  {
    var task := [cfg.self.host, cfg.self.port, tidx];
    var found := Matching(entries, task);
    MatchingSelects(entries, task);
    SortDistinct(found);
    var files := SortNames(found);
    forall i | 0 <= i < |files|
      ensures files[i] in dir && ScanPart(files[i]).Some? && ScanPart(files[i]).value.tidx == tidx
    {
      var n := files[i];
      assert n in found && n in entries;
      assert NameOk(cfg, n, dir[n], h.groups);
      ScanPartName(ScanPart(n).value);
      assert Some(task).value[2] == tidx;
    }
  }

  /** Joining what is found for task `tidx`. */
  function JoinTask(cfg: Config, e: TaskLog, tidx: nat, dir: Dir, entries: seq<string>): (Dir, Joined)
    requires cfg.Valid()
  {
    JoinParts(dir, Matching(entries, [cfg.self.host, cfg.self.port, tidx]), FileParts(|e.file|, cfg.taskBuffer))
  }

  /** Joining: the directory stays admissible, and a file is completed only with the sender's content. */
  lemma JoinKeeps(cfg: Config, h: History, dir: Dir, tidx: nat, entries: seq<string>)
    requires cfg.Valid() && LogOk(cfg, h) && FilesLogged(h) && GroupsInRange(h.groups)
    requires DirOk(cfg, dir, h.groups) && Enumerates(entries, dir.Keys) && 1 <= tidx <= |h.log|
    ensures var (dir', joined) := JoinTask(cfg, h.log[tidx - 1], tidx, dir, entries);
            && DirOk(cfg, dir', h.groups)
            && (joined.Finalized? ==> joined.content == h.log[tidx - 1].file)
  {
    SelectedParts(cfg, h, dir, entries, tidx);
    SelectedJoinKeeps(cfg, h, dir, tidx, Matching(entries, [cfg.self.host, cfg.self.port, tidx]));
  }

  lemma SelectedJoinKeeps(cfg: Config, h: History, dir: Dir, tidx: nat, found: seq<string>)
    requires cfg.Valid() && LogOk(cfg, h) && FilesLogged(h) && DirOk(cfg, dir, h.groups) && 1 <= tidx <= |h.log|
    requires |SortNames(found)| == |found| && Selected(dir, SortNames(found), tidx)
    ensures var e := h.log[tidx - 1];
            var (dir', joined) := JoinParts(dir, found, FileParts(|e.file|, cfg.taskBuffer));
            DirOk(cfg, dir', h.groups) && (joined.Finalized? ==> joined.content == e.file)
  {
    var files := SortNames(found);
    if |found| == FileParts(|h.log[tidx - 1].file|, cfg.taskBuffer) {
      SortedAreDistinct(files);
      JoinPartsOutcome(dir, found, files);
      JoinedIsFile(cfg, h, dir, files, tidx);
      DirShrinks(cfg, dir, h.groups, set n | n in files[..Leading(dir, files)]);
    }
  }

  lemma SortedAreDistinct(files: seq<string>)
    requires forall i, j :: 0 <= i < j < |files| ==> StrLess(files[i], files[j])
    ensures Distinct(files)
  {
    forall i, j | 0 <= i < j < |files| ensures files[i] != files[j] {
      assert StrLess(files[i], files[j]);
      StrLessTotal(files[i], files[j]);
    }
  }

  /** `entries` lists the directory as it is once the part of `p` has been written. */
  ghost predicate Listed(entries: seq<string>, dir: Dir, p: Packet)
    requires PartOf(p).InRange()
  {
    Enumerates(entries, dir.Keys + {PartName(PartOf(p))})
  }

  /** `file_read` on a delivered file group. */
  lemma ReadKeeps(cfg: Config, h: History, dir: Dir, p: Packet, entries: seq<string>)
    requires cfg.Valid() && LogOk(cfg, h) && FilesLogged(h) && GroupsInRange(h.groups)
    requires DirOk(cfg, dir, h.groups)
    requires SentPacket(h.groups, p) && p.meta.command == FILE && PartOf(p).InRange()
    requires Listed(entries, dir, p)
    ensures var (dir', joined) := FileRead(dir, PartOf(p), h.groups[p.gidx].buffer, entries);
            && DirOk(cfg, dir', h.groups)
            && 1 <= p.meta.tidx <= |h.log|
            && (joined.Finalized? ==> joined.content == h.log[p.meta.tidx - 1].file)
  {
    FileMeta(cfg, h, p.gidx);
    if !PartExists(dir, PartPrefix(PartOf(p))) {
      ReadIsJoin(cfg, h, dir, p, entries);
      var name, data := PartName(PartOf(p)), h.groups[p.gidx].buffer;
      StoredOk(cfg, h, dir, p, entries, name, dir[name := data]);
      JoinKeeps(cfg, h, dir[name := data], p.meta.tidx, entries);
    }
  }

  /** Reading a file group that is not stored yet joins its task. */
  lemma ReadIsJoin(cfg: Config, h: History, dir: Dir, p: Packet, entries: seq<string>)
    requires cfg.Valid() && LogOk(cfg, h) && FilesLogged(h)
    requires SentPacket(h.groups, p) && p.meta.command == FILE && PartOf(p).InRange()
    requires !PartExists(dir, PartPrefix(PartOf(p)))
    ensures var (t, data) := (p.meta.tidx, h.groups[p.gidx].buffer);
            && 1 <= t <= |h.log|
            && FileRead(dir, PartOf(p), data, entries)
            == JoinTask(cfg, h.log[t - 1], t, dir[PartName(PartOf(p)) := data], entries)
  {
    FileMeta(cfg, h, p.gidx);
    FileReadJoins(dir, PartOf(p), h.groups[p.gidx].buffer, entries);
  }

  lemma StoredOk(cfg: Config, h: History, dir: Dir, p: Packet, entries: seq<string>, name: string, dir1: Dir)
    requires DirOk(cfg, dir, h.groups) && GroupsInRange(h.groups)
    requires SentPacket(h.groups, p) && p.meta.command == FILE && p.meta.src == cfg.self && PartOf(p).InRange()
    requires Listed(entries, dir, p) && !PartExists(dir, PartPrefix(PartOf(p)))
    requires name == PartName(PartOf(p)) && dir1 == dir[name := h.groups[p.gidx].buffer]
    ensures DirOk(cfg, dir1, h.groups) && Enumerates(entries, dir1.Keys)
    ensures ScanPart(name) == Some(PartOf(p))
  {
    PartNameOk(cfg, h.groups, p);
    StoreKeeps(cfg, dir, h.groups, PartOf(p), h.groups[p.gidx].buffer);
    ScanPartName(PartOf(p));
    assert dir1.Keys == dir.Keys + {name};
  }

  // ----- The receiver's invariant

  ghost predicate DeliveredOk(ds: seq<Delivery>, groups: seq<Group>) {
    forall i :: 0 <= i < |ds| ==> ds[i].gidx < |groups| && ds[i].data == groups[ds[i].gidx].buffer
  }

  ghost predicate CompletedOk(cs: seq<Completion>, log: seq<TaskLog>) {
    forall i :: 0 <= i < |cs| ==> 1 <= cs[i].tidx <= |log| && cs[i].content == log[cs[i].tidx - 1].file
  }

  ghost predicate RecvInv(cfg: Config, r: Receiver.State, h: History) {
    && CachesOk(r.cache, h.groups)
    && CompleteDelivered(r.cache, r.delivered)
    && PassedOk(r, h.groups)
    && DirOk(cfg, r.dir, h.groups)
    && DeliveredOk(r.delivered, h.groups)
    && CompletedOk(r.completed, h.log)
  }

  lemma CacheRemoved(cs: seq<Cache>, groups: seq<Group>, i: nat)
    requires CachesOk(cs, groups) && i < |cs|
    ensures CachesOk(RemoveAt(cs, i), groups)
  {
  }

  lemma HoldsAfterRemoval(cs: seq<Cache>, i: nat, q: Packet)
    requires Holds(cs, q) && i < |cs| && cs[i].group != q.gidx
    ensures Holds(RemoveAt(cs, i), q)
  {
    var k :| 0 <= k < |cs| && cs[k].group == q.gidx && q.pidx in cs[k].received;
    var cs' := RemoveAt(cs, i);
    assert cs'[if k < i then k else k - 1] == cs[k];
  }

  lemma DeliveredGrows(ds: seq<Delivery>, d: Delivery, g: nat)
    requires g == d.gidx || Delivered(ds, g)
    ensures Delivered(ds + [d], g)
  {
    if g == d.gidx {
      assert (ds + [d])[|ds|].gidx == g;
    } else {
      var i :| 0 <= i < |ds| && ds[i].gidx == g;
      assert (ds + [d])[i].gidx == g;
    }
  }

  lemma PassedKept(r: Receiver.State, h: History, p: Packet, c: Chance)
    requires CachesOk(r.cache, h.groups) && GroupsInRange(h.groups) && PassedOk(r, h.groups)
    requires SentPacket(h.groups, p) && PartOf(p).InRange()
    ensures PassedOk(Receive(r, p, c), h.groups)
  {
    var r' := Receive(r, p, c);
    var (cache, available) := Recv(r.cache, p, c.junk);
    RecvDeliversBuffer(r.cache, h.groups, p, c.junk);
    forall q | q in r'.passed
      ensures SentPacket(h.groups, q) && (Delivered(r'.delivered, q.gidx) || Holds(r'.cache, q))
    {
      if available.None? {
        if q == p || !Delivered(r.delivered, q.gidx) {
          RecvHolds(r.cache, p, c.junk, q);
        }
      } else {
        var d := Delivery(p.gidx, cache[available.value].data);
        if q.gidx == p.gidx || Delivered(r.delivered, q.gidx) {
          DeliveredGrows(r.delivered, d, q.gidx);
        } else {
          RecvHolds(r.cache, p, c.junk, q);
          if c.readOk {
            HoldsAfterRemoval(cache, available.value, q);
          }
        }
      }
    }
  }

  lemma CompletionsKept(r: Receiver.State, h: History, p: Packet, c: Chance)
    requires CachesOk(r.cache, h.groups) && GroupsInRange(h.groups) && CompleteDelivered(r.cache, r.delivered)
    requires SentPacket(h.groups, p) && PartOf(p).InRange()
    ensures CompleteDelivered(Receive(r, p, c).cache, Receive(r, p, c).delivered)
  {
    var (cache, available) := Recv(r.cache, p, c.junk);
    RecvDeliversBuffer(r.cache, h.groups, p, c.junk);
    RecvCompletes(r.cache, h.groups, p, c.junk, r.delivered);
    if available.Some? {
      DeliveryCompletes(cache, r.delivered, available.value, Delivery(p.gidx, cache[available.value].data), c.readOk);
    }
  }

  /** The cache at position `i` is delivered, and removed if the read callback succeeds. */
  lemma DeliveryCompletes(cs: seq<Cache>, ds: seq<Delivery>, i: nat, d: Delivery, readOk: bool)
    requires i < |cs| && cs[i].group == d.gidx
    requires forall k :: 0 <= k < |cs| && |cs[k].received| == cs[k].total ==> Delivered(ds, cs[k].group) || k == i
    ensures CompleteDelivered(if readOk then RemoveAt(cs, i) else cs, ds + [d])
  {
    var cs' := if readOk then RemoveAt(cs, i) else cs;
    forall k | 0 <= k < |cs'| && |cs'[k].received| == cs'[k].total ensures Delivered(ds + [d], cs'[k].group) {
      assert cs'[k] == cs[if readOk && k >= i then k + 1 else k];
      DeliveredGrows(ds, d, cs'[k].group);
    }
  }

  lemma ReadStateKept(cfg: Config, r: Receiver.State, h: History, p: Packet, entries: seq<string>)
    requires cfg.Valid() && LogOk(cfg, h) && FilesLogged(h) && GroupsInRange(h.groups)
    requires DirOk(cfg, r.dir, h.groups)
    requires DeliveredOk(r.delivered, h.groups) && CompletedOk(r.completed, h.log)
    requires SentPacket(h.groups, p) && PartOf(p).InRange() && Listed(entries, r.dir, p)
    ensures var r' := Read(r, p, h.groups[p.gidx].buffer, entries);
            DirOk(cfg, r'.dir, h.groups) && DeliveredOk(r'.delivered, h.groups) && CompletedOk(r'.completed, h.log)
  {
    if p.meta.command == FILE {
      ReadKeeps(cfg, h, r.dir, p, entries);
    }
  }

  lemma StoreKept(cfg: Config, r: Receiver.State, h: History, p: Packet, c: Chance)
    requires cfg.Valid() && LogOk(cfg, h) && FilesLogged(h) && GroupsInRange(h.groups)
    requires CachesOk(r.cache, h.groups) && DirOk(cfg, r.dir, h.groups)
    requires DeliveredOk(r.delivered, h.groups) && CompletedOk(r.completed, h.log)
    requires SentPacket(h.groups, p) && PartOf(p).InRange() && Listed(c.entries, r.dir, p)
    ensures var r' := Receive(r, p, c);
            && CachesOk(r'.cache, h.groups) && DirOk(cfg, r'.dir, h.groups)
            && DeliveredOk(r'.delivered, h.groups) && CompletedOk(r'.completed, h.log)
  {
    var (cache, available) := Recv(r.cache, p, c.junk);
    RecvDeliversBuffer(r.cache, h.groups, p, c.junk);
    if available.Some? {
      CacheRemoved(cache, h.groups, available.value);
      ReadStateKept(cfg, r.(cache := cache, passed := r.passed + {p}), h, p, c.entries);
    }
  }

  /** Every arrival of a sent packet keeps the receiver's invariant, whatever chance decides. */
  lemma ReceiveKeeps(cfg: Config, r: Receiver.State, h: History, p: Packet, c: Chance)
    requires cfg.Valid() && LogOk(cfg, h) && FilesLogged(h) && GroupsInRange(h.groups)
    requires RecvInv(cfg, r, h)
    requires SentPacket(h.groups, p) && PartOf(p).InRange()
    requires Listed(c.entries, r.dir, p)
    ensures RecvInv(cfg, Receive(r, p, c), h)
  {
    StoreKept(cfg, r, h, p, c);
    PassedKept(r, h, p, c);
    CompletionsKept(r, h, p, c);
  }

  // ----- The sender going on does not disturb the receiver

  ghost predicate Extends(h: History, h': History) {
    && |h.groups| <= |h'.groups| && h.groups == h'.groups[..|h.groups|]
    && |h.log| <= |h'.log| && forall t :: 0 <= t < |h.log| ==> h.log[t].file == h'.log[t].file
  }

  lemma ExtendedGroup(h: History, h': History, k: nat)
    requires Extends(h, h') && k < |h.groups|
    ensures k < |h'.groups| && h'.groups[k] == h.groups[k]
  {
  }

  lemma HistoryGrows(cfg: Config, r: Receiver.State, h: History, h': History)
    requires RecvInv(cfg, r, h) && Extends(h, h')
    ensures RecvInv(cfg, r, h')
  {
    forall i | 0 <= i < |r.cache| ensures CacheOk(r.cache[i], h'.groups) {
      assert CacheOk(r.cache[i], h.groups);
      ExtendedGroup(h, h', r.cache[i].group);
    }
    forall p | p in r.passed ensures SentPacket(h'.groups, p) {
      assert SentPacket(h.groups, p);
      ExtendedGroup(h, h', p.gidx);
    }
    forall n | n in r.dir ensures NameOk(cfg, n, r.dir[n], h'.groups) {
      assert NameOk(cfg, n, r.dir[n], h.groups);
      ExtendedGroup(h, h', ScanPart(n).value.gidx);
    }
    forall i | 0 <= i < |r.delivered|
      ensures r.delivered[i].gidx < |h'.groups| && r.delivered[i].data == h'.groups[r.delivered[i].gidx].buffer
    {
      ExtendedGroup(h, h', r.delivered[i].gidx);
    }
  }
}
