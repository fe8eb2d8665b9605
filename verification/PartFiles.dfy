/** Storing received parts and joining them into the transferred file
    (src/payload/file.c, src/os.c and the sort in src/tcp/src/list.c). */
module PartFiles {
  import opened Common
  import opened PartNames

  /** The parts directory: file names and contents. */
  type Dir = map<string, seq<byte>>

  /** Largest file that can be read back, 1 GiB. */
  const MAX_FILE_SIZE: nat := 1024 * 1024 * 1024

  /** A file of this size can be read back (`eioie_fread`): the code keeps the size in an `int`, and fails on a
      negative one, on 0 and above the limit. What is lost for a part of 4 GiB or more cannot happen, since
      a part is written from a buffer whose length is an `int` as well. */
  predicate Readable(size: nat) {
    0 < size % UINT_MOD <= MAX_FILE_SIZE
  }

  /** What joining did: parts are missing, something failed, or the file is complete. */
  datatype Joined = Incomplete | Failed | Finalized(content: seq<byte>)

  // ----- Sorting names

  predicate StrLeq(s: string, t: string) {
    s == t || StrLess(s, t)
  }

  ghost predicate Sorted(s: seq<string>) {
    forall i, j :: 0 <= i < j < |s| ==> StrLeq(s[i], s[j])
  }

  function Insert(n: string, s: seq<string>): seq<string> {
    if s == [] || StrLeq(n, s[0]) then [n] + s else [s[0]] + Insert(n, s[1..])
  }

  function SortNames(s: seq<string>): seq<string> {
    if s == [] then [] else Insert(s[0], SortNames(s[1..]))
  }

  lemma {:induction false} InsertKeepsOrder(n: string, s: seq<string>)
    requires Sorted(s)
    ensures Sorted(Insert(n, s))
    ensures multiset(Insert(n, s)) == multiset{n} + multiset(s)
  {
    if s == [] {
    } else if StrLeq(n, s[0]) {
      forall j | 0 <= j < |s| ensures StrLeq(n, s[j]) {
        if j > 0 && n != s[0] && s[0] != s[j] {
          assert StrLeq(s[0], s[j]);
          StrLessTransitive(n, s[0], s[j]);
        }
      }
    } else {
      var r := Insert(n, s[1..]);
      InsertKeepsOrder(n, s[1..]);
      StrLessTotal(n, s[0]);
      assert s == [s[0]] + s[1..];
      forall x | x in r ensures StrLeq(s[0], x) {
        assert x in multiset(r);
        if x != n {
          assert x in multiset(s[1..]);
        }
      }
    }
  }

  lemma {:induction false} SortNamesSorts(s: seq<string>)
    ensures Sorted(SortNames(s))
    ensures multiset(SortNames(s)) == multiset(s)
  {
    if s != [] {
      SortNamesSorts(s[1..]);
      InsertKeepsOrder(s[0], SortNames(s[1..]));
      assert s == [s[0]] + s[1..];
    }
  }

  /** Sorting distinct names gives the same names in strictly increasing order. */
  lemma SortDistinct(s: seq<string>)
    requires Distinct(s)
    ensures var t := SortNames(s);
            && |t| == |s|
            && (forall x :: x in t <==> x in s)
            && (forall i, j :: 0 <= i < j < |t| ==> StrLess(t[i], t[j]))
  {
    var t := SortNames(s);
    SortNamesSorts(s);
    assert |multiset(t)| == |multiset(s)|;
    forall x ensures x in t <==> x in s {
      assert x in t <==> x in multiset(t);
      assert x in s <==> x in multiset(s);
    }
    forall i, j | 0 <= i < j < |t| ensures StrLess(t[i], t[j]) {
      assert StrLeq(t[i], t[j]);
      if t[i] == t[j] {
        TwiceInMultiset(t, i, j);
        OnceInMultiset(s, t[i]);
        assert false;
      }
    }
  }

  lemma TwiceInMultiset(t: seq<string>, i: nat, j: nat)
    requires i < j < |t| && t[i] == t[j]
    ensures multiset(t)[t[i]] >= 2
  {
    assert t == t[..j] + [t[j]] + t[j + 1..];
    assert t[..j][i] == t[j];
    assert t[i] in multiset(t[..j]);
  }

  lemma {:induction false} OnceInMultiset(s: seq<string>, x: string)
    requires Distinct(s)
    ensures multiset(s)[x] <= 1
  {
    if s != [] {
      var front := s[..|s| - 1];
      OnceInMultiset(front, x);
      assert s == front + [s[|s| - 1]];
      if x == s[|s| - 1] {
        assert x !in front;
        assert x !in multiset(front);
      }
    }
  }

  // ----- The operations as functions of the directory

  ghost predicate Enumerates(entries: seq<string>, names: set<string>) {
    Distinct(entries) && forall n :: n in entries <==> n in names
  }

  /** The entries of the same sender address and task. */
  function Matching(entries: seq<string>, task: seq<nat>): seq<string> {
    if entries == [] then []
    else
      var front, last := Matching(entries[..|entries| - 1], task), entries[|entries| - 1];
      if ScanTask(last) == Some(task) then front + [last] else front
  }

  /** Appends the files to `acc` one by one, deleting each; one that is missing or cannot be read stops it. */
  function Collect(dir: Dir, files: seq<string>, acc: seq<byte>): (Dir, Option<seq<byte>>) {
    if files == [] then (dir, Some(acc))
    else if files[0] !in dir || !Readable(|dir[files[0]]|) then (dir, None)
    else Collect(dir - {files[0]}, files[1..], acc + dir[files[0]])
  }

  /** The parts found for a task are joined once there are as many as announced. */
  function JoinParts(dir: Dir, found: seq<string>, parts: nat): (Dir, Joined) {
    if |found| != parts then (dir, Incomplete) else
    var (rest, content) := Collect(dir, SortNames(found), []);
    if content.None? || !Readable(|content.value|) then (rest, Failed) else (rest, Finalized(content.value))
  }

  function FileJoin(dir: Dir, name: string, entries: seq<string>): (Dir, Joined) {
    match ScanPart(name)
    case None => (dir, Failed)
    case Some(p) => JoinParts(dir, Matching(entries, [p.host, p.port, p.tidx]), p.parts)
  }

  predicate PartExists(dir: Dir, prefix: string) {
    exists n :: n in dir && prefix <= n
  }

  /** A delivered part is stored unless one of the same task and group is there already; then it is
      tried whether the file is complete. */
  function FileRead(dir: Dir, p: Part, data: seq<byte>, entries: seq<string>): (Dir, Joined)
    requires p.InRange()
  {
    if PartExists(dir, PartPrefix(p)) then (dir, Incomplete)
    else FileJoin(dir[PartName(p) := data], PartName(p), entries)
  }

  lemma {:induction false} MatchingSelects(entries: seq<string>, task: seq<nat>)
    requires Distinct(entries)
    ensures Distinct(Matching(entries, task))
    ensures forall n :: n in Matching(entries, task) <==> n in entries && ScanTask(n) == Some(task)
  {
    if entries != [] {
      MatchingSelects(entries[..|entries| - 1], task);
    }
  }

  function Contents(dir: Dir, files: seq<string>): seq<seq<byte>>
    requires forall i :: 0 <= i < |files| ==> files[i] in dir
  {
    seq(|files|, i requires 0 <= i < |files| => dir[files[i]])
  }

  /** How many files can be read before the first that cannot. */
  function Leading(dir: Dir, files: seq<string>): (k: nat)
    ensures k <= |files|
  {
    if files == [] || files[0] !in dir || !Readable(|dir[files[0]]|) then 0 else 1 + Leading(dir, files[1..])
  }

  /** Collecting files that are all present removes exactly those before the first that cannot be read, and
      yields the contents of all in the given order unless there is such a one. */
  lemma {:induction false} CollectAll(dir: Dir, files: seq<string>, acc: seq<byte>)
    requires Distinct(files) && forall i :: 0 <= i < |files| ==> files[i] in dir
    ensures var ((dir', content), k) := (Collect(dir, files, acc), Leading(dir, files));
            && dir' == dir - (set n | n in files[..k])
            && content == if k < |files| then None else Some(acc + Concat(Contents(dir, files)))
  {
    var k := Leading(dir, files);
    if k == 0 {
      assert dir - (set n | n in files[..k]) == dir;
      assert acc + Concat([]) == acc;
    } else {
      var dir1, rest, first := dir - {files[0]}, files[1..], dir[files[0]];
      SameLeading(dir, dir1, rest);
      CollectAll(dir1, rest, acc + first);
      assert Contents(dir, files) == [first] + Contents(dir1, rest);
      ConcatCons(first, Contents(dir1, rest));
      var left := rest[..k - 1];
      assert files[..k] == [files[0]] + left;
      assert dir1 - (set n | n in left) == dir - (set n | n in files[..k]);
      Associative(acc, first, Concat(Contents(dir1, rest)));
    }
  }

  lemma {:induction false} SameLeading(dir: Dir, dir': Dir, files: seq<string>)
    requires forall i :: 0 <= i < |files| ==> files[i] in dir && files[i] in dir' && dir[files[i]] == dir'[files[i]]
    ensures Leading(dir, files) == Leading(dir', files)
  {
    if files != [] {
      SameLeading(dir, dir', files[1..]);
    }
  }

  lemma {:induction false} AllLead(dir: Dir, files: seq<string>)
    requires forall i :: 0 <= i < |files| ==> files[i] in dir && Readable(|dir[files[i]]|)
    ensures Leading(dir, files) == |files|
  {
    if files != [] {
      AllLead(dir, files[1..]);
    }
  }

  /** The size exceeds `k` times 4 GiB, by 1 GiB at most. */
  predicate Exceeds(size: nat, k: nat) {
    k * UINT_MOD < size <= k * UINT_MOD + MAX_FILE_SIZE
  }

  /** Since the size is kept in 32 bits, the files that can be read back are those of at most 1 GiB over a multiple
      of 4 GiB. */
  lemma ReadableExactly(size: nat)
    ensures Readable(size) <==> exists k: nat :: Exceeds(size, k)
  {
    if Readable(size) {
      assert Exceeds(size, size / UINT_MOD);
    }
    forall k: nat | Exceeds(size, k) ensures Readable(size) {
      assert size == k * UINT_MOD + (size - k * UINT_MOD);
      assert size % UINT_MOD == size - k * UINT_MOD;
    }
  }

  /** Below 4 GiB, size and limit decide. */
  lemma ReadableBelow(size: nat)
    requires size < UINT_MOD
    ensures Readable(size) <==> 0 < size <= MAX_FILE_SIZE
  {
  }

  /** If no file is larger than the first, all can be read or the first cannot. */
  lemma AllOrNone(dir: Dir, files: seq<string>, size: nat)
    requires files != [] && size < UINT_MOD
    requires forall i :: 0 <= i < |files| ==> files[i] in dir && 0 < |dir[files[i]]| <= size
    requires |dir[files[0]]| == size
    ensures Leading(dir, files) == if size <= MAX_FILE_SIZE then |files| else 0
  {
    ReadableBelow(size);
    if size <= MAX_FILE_SIZE {
      forall i | 0 <= i < |files| ensures Readable(|dir[files[i]]|) {
        ReadableBelow(|dir[files[i]]|);
      }
      AllLead(dir, files);
    }
  }

  /** When the parts found are all there, joining removes those before the first that cannot be read. If all can,
      it yields their contents in name order, unless the whole cannot be read back. */
  lemma JoinPartsOutcome(dir: Dir, found: seq<string>, files: seq<string>)
    requires files == SortNames(found) && Distinct(files) && forall i :: 0 <= i < |files| ==> files[i] in dir
    ensures var ((dir', joined), k) := (JoinParts(dir, found, |found|), Leading(dir, files));
            && dir' == dir - (set n | n in files[..k])
            && var content := Concat(Contents(dir, files));
            joined == if k < |files| || !Readable(|content|) then Failed else Finalized(content)
  {
    CollectAll(dir, files, []);
    EmptyLeft(Concat(Contents(dir, files)));
  }

  /** A part that is not there yet is stored, and the task it belongs to is joined. */
  lemma FileReadJoins(dir: Dir, p: Part, data: seq<byte>, entries: seq<string>)
    requires p.InRange() && !PartExists(dir, PartPrefix(p))
    ensures FileRead(dir, p, data, entries)
         == JoinParts(dir[PartName(p) := data], Matching(entries, [p.host, p.port, p.tidx]), p.parts)
  {
    ScanPartName(p);
  }

  // ----- The code

  class PartsDir {
    var files: Dir

    constructor ()
      ensures files == map[]
    {
      files := map[];
    }

    method Exists(prefix: string, entries: seq<string>) returns (found: bool)
      requires Enumerates(entries, files.Keys)
      ensures found == PartExists(files, prefix)
    {
      for k := 0 to |entries|
        invariant forall i :: 0 <= i < k ==> !(prefix <= entries[i])
      {
        if |entries[k]| >= |prefix| && entries[k][..|prefix|] == prefix {
          assert entries[k] in files;
          return true;
        }
      }
      return false;
    }

    method Finalize(names: seq<string>) returns (r: Joined)
      modifies this
      ensures var (rest, content) := Collect(old(files), SortNames(names), []);
              && files == rest
              && r == if content.None? || !Readable(|content.value|) then Failed else Finalized(content.value)
    {
      var sorted := SortNames(names);
      var content: seq<byte> := [];
      for i := 0 to |sorted|
        invariant Collect(old(files), sorted, []) == Collect(files, sorted[i..], content)
      {
        if sorted[i] !in files || !Readable(|files[sorted[i]]|) {
          return Failed;
        }
        content := content + files[sorted[i]];
        files := files - {sorted[i]};
        assert sorted[i..][1..] == sorted[i + 1..];
      }
      if !Readable(|content|) {
        return Failed;
      }
      return Finalized(content);
    }

    method Join(name: string, entries: seq<string>) returns (r: Joined)
      requires Enumerates(entries, files.Keys)
      modifies this
      ensures (files, r) == FileJoin(old(files), name, entries)
    {
      var scanned := ScanPart(name);
      if scanned.None? {
        return Failed;
      }
      var p := scanned.value;
      var names: seq<string> := [];
      for k := 0 to |entries|
        invariant names == Matching(entries[..k], [p.host, p.port, p.tidx])
      {
        assert entries[..k + 1][..k] == entries[..k];
        if ScanTask(entries[k]) == Some([p.host, p.port, p.tidx]) {
          names := names + [entries[k]];
        }
      }
      assert entries[..|entries|] == entries;
      if |names| != p.parts {
        return Incomplete;
      }
      r := Finalize(names);
    }

    /** `before` and `after` are the directory listings at the two scans. */
    method Read(p: Part, data: seq<byte>, before: seq<string>, after: seq<string>) returns (r: Joined)
      requires p.InRange()
      requires Enumerates(before, files.Keys)
      requires Enumerates(after, files.Keys + {PartName(p)})
      modifies this
      ensures (files, r) == FileRead(old(files), p, data, after)
    {
      var present := Exists(PartPrefix(p), before);
      if present {
        return Incomplete;
      }
      files := files[PartName(p) := data];
      r := Join(PartName(p), after);
    }
  }
}
