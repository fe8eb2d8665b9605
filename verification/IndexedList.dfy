/** The send queue: a linked list whose nodes are also found through a hash table
    (the single-column use of src/tcp/src/list.c made by src/peer.c). */
module IndexedList {
  import opened Common
  import opened HashTable
  import opened LinkedList

  /** The index leads from the key of this node to the node. */
  ghost predicate Indexed<T(!new)>(n: Node<T>, index: imap<Key, Node<T>>, keyOf: T -> Key) {
    keyOf(n.data) in index && index[keyOf(n.data)] == n
  }

  /** The index leads from this key to one of the nodes, which has the key. */
  ghost predicate Listed<T(!new)>(nodes: seq<Node<T>>, index: imap<Key, Node<T>>, keyOf: T -> Key, k: Key) {
    k in index ==> index[k] in nodes && keyOf(index[k].data) == k
  }

  /** The index maps exactly the keys of the nodes to these nodes. */
  ghost predicate Agree<T(!new)>(nodes: seq<Node<T>>, index: imap<Key, Node<T>>, keyOf: T -> Key) {
    && (forall i {:trigger Indexed(nodes[i], index, keyOf)} :: 0 <= i < |nodes| ==> Indexed(nodes[i], index, keyOf))
    && (forall k :: Listed(nodes, index, keyOf, k))
  }

  ghost predicate KeyIn<T(!new)>(nodes: seq<Node<T>>, key: Key, keyOf: T -> Key) {
    exists i :: 0 <= i < |nodes| && keyOf(nodes[i].data) == key
  }

  /** A node with a new key is appended to the list and entered into the index. The keys in `stale` are
      in the index although their nodes are no longer in the list. */
  lemma AgreeAfterAdd<T(!new)>(nodes: seq<Node<T>>, index: imap<Key, Node<T>>, stale: set<Key>, keyOf: T -> Key,
                               n: Node<T>)
    requires Agree(nodes, index - stale, keyOf) && keyOf(n.data) !in stale && !KeyIn(nodes, keyOf(n.data), keyOf)
    ensures Agree(nodes + [n], index[keyOf(n.data) := n] - stale, keyOf)
  {
    var nodes', index' := nodes + [n], index[keyOf(n.data) := n] - stale;
    forall i | 0 <= i < |nodes'| ensures Indexed(nodes'[i], index', keyOf) {
      if i < |nodes| {
        assert Indexed(nodes[i], index - stale, keyOf) && keyOf(nodes[i].data) != keyOf(n.data);
      }
    }
    forall k ensures Listed(nodes', index', keyOf, k) {
      assert nodes'[|nodes|] == n && Listed(nodes, index - stale, keyOf, k);
    }
  }

  lemma AgreeAfterUnlink<T(!new)>(nodes: seq<Node<T>>, index: imap<Key, Node<T>>, keyOf: T -> Key, i: nat)
    requires Agree(nodes, index, keyOf) && i < |nodes|
    requires forall j, k :: 0 <= j < k < |nodes| ==> nodes[j] != nodes[k]
    ensures Agree(nodes[..i] + nodes[i + 1..], index - {keyOf(nodes[i].data)}, keyOf)
  {
    var key := keyOf(nodes[i].data);
    var nodes', index' := nodes[..i] + nodes[i + 1..], index - {key};
    forall j | 0 <= j < |nodes'| ensures Indexed(nodes'[j], index', keyOf) {
      var k := if j < i then j else j + 1;
      assert nodes'[j] == nodes[k] && nodes[k] != nodes[i];
      assert Indexed(nodes[k], index, keyOf) && Indexed(nodes[i], index, keyOf);
    }
    forall k ensures Listed(nodes', index', keyOf, k) {
      assert Listed(nodes, index, keyOf, k);
      if k in index' {
        var j :| 0 <= j < |nodes| && nodes[j] == index[k];
        assert nodes'[if j < i then j else j - 1] == nodes[j];
      }
    }
  }

  /** Keys identify positions. */
  lemma SameKeySamePosition<T(!new)>(nodes: seq<Node<T>>, index: imap<Key, Node<T>>, keyOf: T -> Key, i: nat, j: nat)
    requires Agree(nodes, index, keyOf) && i < |nodes| && j < |nodes|
    requires forall j, k :: 0 <= j < k < |nodes| ==> nodes[j] != nodes[k]
    requires keyOf(nodes[i].data) == keyOf(nodes[j].data)
    ensures i == j
  {
    assert Indexed(nodes[i], index, keyOf) && Indexed(nodes[j], index, keyOf);
  }

  /** A key that is not stale is in the index exactly when a node has it. */
  lemma FoundExactly<T(!new)>(nodes: seq<Node<T>>, index: imap<Key, Node<T>>, stale: set<Key>, keyOf: T -> Key,
                              key: Key)
    requires Agree(nodes, index - stale, keyOf) && key !in stale
    ensures key in index <==> KeyIn(nodes, key, keyOf)
    ensures key in index ==> index[key] in nodes && keyOf(index[key].data) == key
  {
    assert Listed(nodes, index - stale, keyOf, key);
    assert key in index <==> key in index - stale;
    if KeyIn(nodes, key, keyOf) {
      var i :| 0 <= i < |nodes| && keyOf(nodes[i].data) == key;
      assert Indexed(nodes[i], index - stale, keyOf);
    }
  }

  /** Taking `key` out of the index, or counting it among the stale keys. */
  lemma ForgetKey<T(!new)>(nodes: seq<Node<T>>, index: imap<Key, Node<T>>, stale: set<Key>, keyOf: T -> Key, key: Key)
    ensures Agree(nodes, index - (stale + {key}), keyOf) == Agree(nodes, index - {key} - stale, keyOf)
         == Agree(nodes, index - stale - {key}, keyOf)
  {
    assert index - (stale + {key}) == index - {key} - stale == index - stale - {key};
  }

  /** A key that is not stale leads to a node that has left the list. */
  lemma LeftBehind<T(!new)>(nodes: seq<Node<T>>, index: imap<Key, Node<T>>, stale: set<Key>, keyOf: T -> Key, key: Key)
    requires key in index && key !in stale && index[key] !in nodes
    ensures !Agree(nodes, index - stale, keyOf)
  {
    assert key in index - stale && !Listed(nodes, index - stale, keyOf, key);
  }

  datatype Code = Continue | Stop | Fail

  /** What a map callback does when it is called: it may remove the element it was called for, whose clean-up
      may fail, may append elements, and says whether to go on. */
  datatype Action<T> = Action(remove: bool, cleanOk: bool, appends: seq<T>, code: Code) {
    /** The key of the removed element stays in the table. */
    predicate Fails() {
      remove && !cleanOk
    }

    /** What the callback returns: a failed removal ends it. */
    function Result(): Code {
      if Fails() then Fail else code
    }
  }

  function ActionAt<T>(script: seq<Action<T>>, k: nat): Action<T> {
    if k < |script| then script[k] else Action(false, true, [], Continue)
  }

  /** How many elements would be appended from the `k`-th call on. */
  function Total<T>(script: seq<Action<T>>, k: nat): nat
    decreases |script| - k
  {
    if k >= |script| then 0 else |script[k].appends| + Total(script, k + 1)
  }

  /** Everything that would be appended from the `k`-th call on. */
  function Appends<T>(script: seq<Action<T>>, k: nat): seq<T>
    decreases |script| - k
  {
    if k >= |script| then [] else script[k].appends + Appends(script, k + 1)
  }

  /** Of the nodes visited, those that were not removed. */
  function Survivors<T>(visited: seq<Node<T>>, script: seq<Action<T>>): seq<Node<T>> {
    if visited == [] then [] else
    var n := |visited| - 1;
    var before := Survivors(visited[..n], script);
    if ActionAt(script, n).remove then before else before + [visited[n]]
  }

  /** The list while a map is under way: survivors among the nodes visited, then the rest. */
  ghost predicate Progress<T>(nodes: seq<Node<T>>, visited: seq<Node<T>>, rest: seq<Node<T>>, script: seq<Action<T>>) {
    nodes == Survivors(visited, script) + rest
  }

  /** A node in the middle is taken out or passed, and others are appended. */
  lemma StepOver<T>(before: seq<Node<T>>, rest: seq<Node<T>>, ns: seq<Node<T>>)
    requires rest != []
    ensures var nodes, i := before + rest, |before|;
            && nodes[..i] + nodes[i + 1..] + ns == before + (rest[1..] + ns)
            && nodes + ns == before + [rest[0]] + (rest[1..] + ns)
  {
    var tail := rest[1..];
    Split(rest, 1);
    assert (before + rest)[..|before|] == before && (before + rest)[|before| + 1..] == tail;
    Associative(before, tail, ns);
    Associative(before, [rest[0]], tail);
    Associative(before + [rest[0]], tail, ns);
  }

  /** The callback for `rest[0]` has removed it or not and has appended `ns`. */
  lemma ProgressStep<T>(nodes: seq<Node<T>>, visited: seq<Node<T>>, rest: seq<Node<T>>, script: seq<Action<T>>,
                        ns: seq<Node<T>>)
    requires Progress(nodes, visited, rest, script) && rest != []
    ensures var i := |Survivors(visited, script)|;
            var nodes' := (if ActionAt(script, |visited|).remove then nodes[..i] + nodes[i + 1..] else nodes) + ns;
            Progress(nodes', visited + [rest[0]], rest[1..] + ns, script)
  {
    var before := Survivors(visited, script);
    SurvivorsStep(visited, script, rest[0]);
    StepOver(before, rest, ns);
  }

  /** Where the next node to visit is, and what follows it. */
  lemma NextPosition<T>(nodes: seq<Node<T>>, visited: seq<Node<T>>, rest: seq<Node<T>>, script: seq<Action<T>>)
    requires Progress(nodes, visited, rest, script) && rest != []
    ensures var i := |Survivors(visited, script)|;
            && |nodes| == i + |rest| && nodes[i] == rest[0]
            && (|rest| > 1 ==> nodes[i + 1] == rest[1])
  {}

  /** After a removal and additions every node is an earlier or an added one. */
  lemma OldOrNew<T>(nodes: seq<Node<T>>, remove: bool, i: nat, ns: seq<Node<T>>)
    requires i < |nodes|
    ensures forall n :: n in (if remove then nodes[..i] + nodes[i + 1..] else nodes) + ns ==> n in nodes || n in ns
  {}

  lemma AppendsStep<T>(script: seq<Action<T>>, k: nat)
    ensures Appends(script, k) == ActionAt(script, k).appends + Appends(script, k + 1)
    ensures Total(script, k) == |ActionAt(script, k).appends| + Total(script, k + 1)
  {}

  lemma SurvivorsStep<T>(visited: seq<Node<T>>, script: seq<Action<T>>, n: Node<T>)
    ensures Survivors(visited + [n], script)
         == if ActionAt(script, |visited|).remove then Survivors(visited, script) else Survivors(visited, script) + [n]
  {
    assert (visited + [n])[..|visited|] == visited;
  }

  /** What the first `k` calls append. */
  function Appended<T>(script: seq<Action<T>>, k: nat): seq<T> {
    if k == 0 then [] else Appended(script, k - 1) + ActionAt(script, k - 1).appends
  }

  /** The nodes `ns` hold `xs`. */
  ghost predicate Holds<T>(ns: seq<Node<T>>, xs: seq<T>) {
    |ns| == |xs| && forall j :: 0 <= j < |ns| ==> ns[j].data == xs[j]
  }

  lemma HoldsNext<T>(ns: seq<Node<T>>, xs: seq<T>, n: Node<T>)
    requires |ns| < |xs| && Holds(ns, xs[..|ns|]) && n.data == xs[|ns|]
    ensures Holds(ns + [n], xs[..|ns| + 1])
  {}

  /** `all` is `start` followed by nodes that hold `xs`. */
  ghost predicate Extended<T>(start: seq<Node<T>>, all: seq<Node<T>>, xs: seq<T>) {
    && start <= all && |all| == |start| + |xs|
    && forall j :: 0 <= j < |xs| ==> all[|start| + j].data == xs[j]
  }

  ghost predicate Continued<T>(script: seq<Action<T>>, k: nat) {
    forall j :: 0 <= j < k ==> ActionAt(script, j).Result() == Continue
  }

  /** The last of `k` calls returned `code`, the others `Continue`. */
  ghost predicate Ended<T>(script: seq<Action<T>>, k: nat, code: Code) {
    if code == Continue then Continued(script, k)
    else k > 0 && ActionAt(script, k - 1).Result() == code && Continued(script, k - 1)
  }

  /** A map that started on `start` has called back for `visited`; unless it was told to end, it goes on with `li`. */
  ghost predicate Underway<T>(start: seq<Node<T>>, visited: seq<Node<T>>, rest: seq<Node<T>>, script: seq<Action<T>>,
                              li: Node?<T>, code: Code)
  {
    && Extended(start, visited + rest, Appended(script, |visited|))
    && Ended(script, |visited|, code)
    && (code == Continue ==> if li == null then |start| <= |visited| else rest != [] && li == rest[0])
  }

  lemma UnderwayStep<T>(start: seq<Node<T>>, visited: seq<Node<T>>, rest: seq<Node<T>>, script: seq<Action<T>>,
                        ns: seq<Node<T>>, next: Node?<T>)
    requires rest != [] && Underway(start, visited, rest, script, rest[0], Continue)
    requires Holds(ns, ActionAt(script, |visited|).appends)
    requires next == if |rest| > 1 then rest[1] else null
    ensures Underway(start, visited + [rest[0]], rest[1..] + ns, script, next, ActionAt(script, |visited|).Result())
  {
    var all, all', xs := visited + rest, visited + [rest[0]] + (rest[1..] + ns), Appended(script, |visited|);
    assert all' == all + ns;
    forall j | 0 <= j < |xs| ensures all'[|start| + j].data == xs[j] {
      assert all'[|start| + j] == all[|start| + j];
    }
  }

  lemma MapStarts<T>(start: seq<Node<T>>, script: seq<Action<T>>)
    ensures Progress(start, [], start, script)
    ensures Underway(start, [], start, script, if start == [] then null else start[0], Continue)
  {
    EmptyLeft(start);
  }

  ghost predicate FreshFor<T(!new)>(nodes: seq<Node<T>>, xs: seq<T>, keyOf: T -> Key) {
    && (forall i :: 0 <= i < |xs| ==> !KeyIn(nodes, keyOf(xs[i]), keyOf))
    && (forall i, j :: 0 <= i < j < |xs| ==> keyOf(xs[i]) != keyOf(xs[j]))
  }

  lemma FirstFresh<T(!new)>(nodes: seq<Node<T>>, xs: seq<T>, ys: seq<T>, keyOf: T -> Key)
    requires FreshFor(nodes, xs + ys, keyOf)
    ensures FreshFor(nodes, xs, keyOf)
  {
    var all := xs + ys;
    assert forall i :: 0 <= i < |xs| ==> all[i] == xs[i];
  }

  /** After the first of the new elements have been appended, the others are still new. */
  lemma StillFresh<T(!new)>(nodes: seq<Node<T>>, nodes': seq<Node<T>>, ns: seq<Node<T>>, xs: seq<T>, ys: seq<T>,
                            keyOf: T -> Key)
    requires FreshFor(nodes, xs + ys, keyOf)
    requires Holds(ns, xs)
    requires forall n :: n in nodes' ==> n in nodes || n in ns
    ensures FreshFor(nodes', ys, keyOf)
  {
    var all := xs + ys;
    forall i | 0 <= i < |ys| ensures !KeyIn(nodes', keyOf(ys[i]), keyOf) {
      assert all[|xs| + i] == ys[i];
      forall m | 0 <= m < |nodes'| ensures keyOf(nodes'[m].data) != keyOf(ys[i]) {
        if nodes'[m] in ns {
          var j :| 0 <= j < |ns| && ns[j] == nodes'[m];
          assert all[j] == xs[j];
        } else {
          var j :| 0 <= j < |nodes| && nodes[j] == nodes'[m];
        }
      }
    }
    forall i, j | 0 <= i < j < |ys| ensures keyOf(ys[i]) != keyOf(ys[j]) {
      assert all[|xs| + i] == ys[i] && all[|xs| + j] == ys[j];
    }
  }

  /** The next of the new elements is still new once those before it have been appended as `ns`. */
  lemma NextFresh<T(!new)>(nodes: seq<Node<T>>, ns: seq<Node<T>>, xs: seq<T>, keyOf: T -> Key)
    requires FreshFor(nodes, xs, keyOf) && |ns| < |xs| && Holds(ns, xs[..|ns|])
    ensures !KeyIn(nodes + ns, keyOf(xs[|ns|]), keyOf)
  {
    var all, key := nodes + ns, keyOf(xs[|ns|]);
    forall i | 0 <= i < |all| ensures keyOf(all[i].data) != key {
      if i < |nodes| {
        assert all[i] == nodes[i];
      } else {
        assert all[i] == ns[i - |nodes|] && ns[i - |nodes|].data == xs[..|ns|][i - |nodes|];
      }
    }
  }

  /** The entries under these keys have not changed. */
  ghost predicate Kept<T>(before: imap<Key, Node<T>>, after: imap<Key, Node<T>>, keys: set<Key>) {
    forall k :: k in keys && k in before ==> k in after && after[k] == before[k]
  }

  /** None of the elements has one of these keys. */
  ghost predicate Avoids<T(!new)>(xs: seq<T>, keys: set<Key>, keyOf: T -> Key) {
    forall i :: 0 <= i < |xs| ==> keyOf(xs[i]) !in keys
  }

  lemma AvoidsParts<T(!new)>(xs: seq<T>, ys: seq<T>, keys: set<Key>, keyOf: T -> Key)
    requires Avoids(xs + ys, keys, keyOf)
    ensures Avoids(xs, keys, keyOf) && Avoids(ys, keys, keyOf)
  {
    var all := xs + ys;
    assert forall i :: 0 <= i < |xs| ==> all[i] == xs[i];
    assert forall i :: 0 <= i < |ys| ==> all[|xs| + i] == ys[i];
  }

  /** Elements that are new to a list stay so when a node is taken out, and do not have its key. */
  lemma FreshAfterUnlink<T(!new)>(nodes: seq<Node<T>>, i: nat, xs: seq<T>, keys: set<Key>, keyOf: T -> Key)
    requires i < |nodes| && FreshFor(nodes, xs, keyOf) && Avoids(xs, keys, keyOf)
    ensures FreshFor(nodes[..i] + nodes[i + 1..], xs, keyOf) && Avoids(xs, keys + {keyOf(nodes[i].data)}, keyOf)
  {
    var nodes' := nodes[..i] + nodes[i + 1..];
    forall j | 0 <= j < |xs| ensures !KeyIn(nodes', keyOf(xs[j]), keyOf) && keyOf(xs[j]) != keyOf(nodes[i].data) {
      forall m | 0 <= m < |nodes'| ensures keyOf(nodes'[m].data) != keyOf(xs[j]) {
        assert nodes'[m] == nodes[if m < i then m else m + 1];
      }
    }
  }

  /** The stale keys once the callback has been called for the nodes `visited`. */
  function StaleAfterMap<T(!new)>(stale: set<Key>, visited: seq<Node<T>>, script: seq<Action<T>>, keyOf: T -> Key)
    : set<Key>
  {
    var n := |visited| - 1;
    if n >= 0 && ActionAt(script, n).Fails() then stale + {keyOf(visited[n].data)} else stale
  }

  class SendQueue<T(==, !new)> {
    const list: List<T>
    const index: Table<Node<T>>
    const keyOf: T -> Key

    /** List and table are well formed and describe the same elements, but for these keys of the table. */
    ghost predicate CoherentBut(stale: set<Key>)
      reads this, list, list.nodes, index, index.buckets
    {
      list.Valid() && index.Valid() && Agree(list.nodes, index.contents - stale, keyOf)
    }

    /** The elements can be added: their keys differ from each other and from all keys present. */
    ghost predicate FreshKeys(xs: seq<T>)
      reads list
    {
      FreshFor(list.nodes, xs, keyOf)
    }

    constructor (keyOf: T -> Key)
      ensures CoherentBut({}) && list.nodes == [] && this.keyOf == keyOf
      ensures fresh(list) && fresh(index) && fresh(index.buckets)
    {
      this.keyOf := keyOf;
      list := new List();
      index := new Table();
    }

    /** Appends an element and enters it into the table. */
    method ColumnAdd(x: T, ghost stale: set<Key>) returns (n: Node<T>)
      requires CoherentBut(stale) && keyOf(x) !in stale && !KeyIn(list.nodes, keyOf(x), keyOf)
      modifies list, list.nodes, index, index.buckets
      ensures CoherentBut(stale)
      ensures fresh(n) && n.data == x && list.nodes == old(list.nodes) + [n]
      ensures index.contents == old(index.contents)[keyOf(x) := n]
    {
      ghost var nodes, before := list.nodes, index.contents;
      n := list.Add(x);
      index.Add(keyOf(x), n);
      AgreeAfterAdd(nodes, before, stale, keyOf, n);
    }

    /** Appends the next of several elements; those before it were appended to `nodes` as `ns`. */
    method AddNext(xs: seq<T>, ghost nodes: seq<Node<T>>, ghost ns: seq<Node<T>>, ghost stale: set<Key>, j: nat)
      returns (n: Node<T>)
      requires CoherentBut(stale) && FreshFor(nodes, xs, keyOf) && Avoids(xs, stale, keyOf)
      requires j == |ns| < |xs| && list.nodes == nodes + ns && Holds(ns, xs[..j])
      modifies list, list.nodes, index, index.buckets
      ensures CoherentBut(stale) && Kept(old(index.contents), index.contents, stale)
      ensures list.nodes == nodes + (ns + [n]) && Holds(ns + [n], xs[..j + 1]) && fresh(n)
    {
      NextFresh(nodes, ns, xs, keyOf);
      n := ColumnAdd(xs[j], stale);
      HoldsNext(ns, xs, n);
      Associative(nodes, ns, [n]);
    }

    /** Appends several elements with fresh keys. */
    method AddAll(xs: seq<T>, ghost stale: set<Key>) returns (ghost ns: seq<Node<T>>)
      requires CoherentBut(stale) && FreshKeys(xs) && Avoids(xs, stale, keyOf)
      modifies list, list.nodes, index, index.buckets
      ensures CoherentBut(stale) && Kept(old(index.contents), index.contents, stale)
      ensures list.nodes == old(list.nodes) + ns && Holds(ns, xs)
      ensures forall n :: n in ns ==> fresh(n)
    {
      ns := [];
      ghost var nodes, before := list.nodes, index.contents;
      for j := 0 to |xs|
        invariant CoherentBut(stale) && Kept(before, index.contents, stale)
        invariant list.nodes == nodes + ns && |ns| == j && Holds(ns, xs[..j])
        invariant forall n :: n in ns ==> fresh(n)
      {
        assert forall i :: 0 <= i < |list.nodes| ==> list.nodes[i] in nodes || list.nodes[i] in ns;
        var n := AddNext(xs, nodes, ns, stale, j);
        ns := ns + [n];
      }
      assert xs[..|xs|] == xs;
    }

    /** Unlinks the node `n` and runs the callback that cleans it up, which appends `xs` to this very
        list: in between, the key of `n` is still in the table. */
    method DelItem(n: Node<T>, xs: seq<T>, cleanOk: bool, ghost i: nat, ghost stale: set<Key>)
      returns (ok: bool, ghost ns: seq<Node<T>>)
      requires CoherentBut(stale) && FreshKeys(xs) && Avoids(xs, stale, keyOf)
      requires i < |list.nodes| && list.nodes[i] == n
      modifies list, list.nodes, index, index.buckets
      ensures CoherentBut(stale + {keyOf(n.data)}) && ok == cleanOk
      ensures list.nodes == old(list.nodes)[..i] + old(list.nodes)[i + 1..] + ns
      ensures (forall m :: m in ns ==> fresh(m)) && Holds(ns, xs)
      ensures keyOf(n.data) in index.contents && index.contents[keyOf(n.data)] == n
      ensures n.prev == old(n.prev) && n.next == old(n.next)
    {
      ghost var key := keyOf(n.data);
      assert Indexed(list.nodes[i], index.contents - stale, keyOf);
      AgreeAfterUnlink(list.nodes, index.contents - stale, keyOf, i);
      FreshAfterUnlink(list.nodes, i, xs, stale, keyOf);
      list.Unlink(n, i);
      ForgetKey(list.nodes, index.contents, stale, keyOf, key);
      ns := AddAll(xs, stale + {key});
      ok := cleanOk;
    }

    /** The node with this key, by the table, and its position in the list. */
    method Locate(key: Key, ghost stale: set<Key>) returns (item: Option<Node<T>>, ghost i: nat)
      requires CoherentBut(stale) && key !in stale
      ensures item.Some? <==> KeyIn(list.nodes, key, keyOf)
      ensures item.Some? ==> i < |list.nodes| && list.nodes[i] == item.value && keyOf(item.value.data) == key
    {
      item := index.Find(key);
      FoundExactly(list.nodes, index.contents, stale, keyOf, key);
      i := 0;
      if item.Some? {
        i :| 0 <= i < |list.nodes| && list.nodes[i] == item.value;
      }
    }

    /** Takes a stale key out of the table. */
    method Forget(key: Key, ghost stale: set<Key>)
      requires CoherentBut(stale + {key})
      modifies index, index.buckets
      ensures CoherentBut(stale)
    {
      ForgetKey(list.nodes, index.contents, stale, keyOf, key);
      var removed := index.Remove(key);
    }

    /** Removes the element with this key; `xs` is what its clean-up callback appends meanwhile. If that
        fails, the key stays in the table and joins the stale ones. */
    method ColumnDel(key: Key, xs: seq<T>, cleanOk: bool, ghost stale: set<Key>)
      returns (ok: bool, found: bool, ghost i: nat, ghost ns: seq<Node<T>>)
      requires CoherentBut(stale) && FreshKeys(xs) && key !in stale && Avoids(xs, stale, keyOf)
      modifies list, list.nodes, index, index.buckets
      ensures found == KeyIn(old(list.nodes), key, keyOf) && ok == (!found || cleanOk)
      ensures CoherentBut(stale) <==> ok
      ensures !ok ==> CoherentBut(stale + {key}) && key in index.contents
      ensures !found ==> list.nodes == old(list.nodes)
      ensures found ==>
        && i < |old(list.nodes)| && keyOf(old(list.nodes)[i].data) == key
        && list.nodes == old(list.nodes)[..i] + old(list.nodes)[i + 1..] + ns
        && (forall n :: n in ns ==> fresh(n)) && Holds(ns, xs)
      ensures !ok ==>
        var n := old(list.nodes)[i];
        index.contents[key] == n && n.prev == old(list.nodes[i].prev) && n.next == old(list.nodes[i].next)
    {
      var item;
      item, i := Locate(key, stale);
      ok, found, ns := true, item.Some?, [];
      if found {
        ok, ns := DelItem(item.value, xs, cleanOk, i, stale);
        if !ok {
          LeftBehind(list.nodes, index.contents, stale, keyOf, key);
          return;
        }
        Forget(key, stale);
      }
    }

    method ColumnFind(key: Key, ghost stale: set<Key>) returns (x: Option<T>)
      requires CoherentBut(stale) && key !in stale
      ensures x.Some? <==> exists n :: n in list.nodes && keyOf(n.data) == key
      ensures x.Some? ==> exists n :: n in list.nodes && keyOf(n.data) == key && x == Some(n.data)
    {
      var item := index.Find(key);
      FoundExactly(list.nodes, index.contents, stale, keyOf, key);
      x := if item.None? then None else Some(item.value.data);
    }

    /** Removes once more an element whose first removal failed when it was alone in the list: list and table
        lose every element that was appended since. */
    method RemoveAgain(key: Key, ghost stale: set<Key>)
      requires CoherentBut(stale) && key in stale && key in index.contents
      requires index.contents[key].prev == null && index.contents[key].next == null
      modifies list, index, index.buckets
      ensures list.head == null && list.tail == null && list.size == |list.nodes| - 1
      ensures list.nodes == old(list.nodes) && index.contents == old(index.contents) - {key}
    {
      var item := index.Find(key);
      list.Detach(item.value);
      var removed := index.Remove(key);
    }

    /** The only element is removed while its clean-up fails. */
    method AddAndFail(x: T)
      requires CoherentBut({}) && list.nodes == []
      modifies list, index, index.buckets
      ensures CoherentBut({} + {keyOf(x)}) && list.nodes == [] && keyOf(x) in index.contents
      ensures var n := index.contents[keyOf(x)]; fresh(n) && n.prev == null && n.next == null
    {
      var n := ColumnAdd(x, {});
      assert list.nodes[0] == n;
      var ok, found;
      ghost var i, ns;
      ok, found, i, ns := ColumnDel(keyOf(x), [], false, {});
    }

    /** One call of the map callback for the node at position `i`. */
    method Callback(n: Node<T>, a: Action<T>, ghost i: nat, ghost stale: set<Key>)
      returns (code: Code, ghost ns: seq<Node<T>>)
      requires CoherentBut(stale) && FreshKeys(a.appends) && Avoids(a.appends, stale, keyOf)
      requires i < |list.nodes| && list.nodes[i] == n
      modifies list, list.nodes, index, index.buckets
      ensures CoherentBut(if a.Fails() then stale + {keyOf(n.data)} else stale) && code == a.Result()
      ensures list.nodes == (if a.remove then old(list.nodes)[..i] + old(list.nodes)[i + 1..] else old(list.nodes)) + ns
      ensures (forall m :: m in ns ==> fresh(m)) && Holds(ns, a.appends)
    {
      ghost var nodes, before := list.nodes, index.contents - stale;
      assert Indexed(nodes[i], before, keyOf);
      code := a.code;
      if a.remove {
        var ok, found;
        ghost var k;
        ok, found, k, ns := ColumnDel(keyOf(n.data), a.appends, a.cleanOk, stale);
        SameKeySamePosition(nodes, before, keyOf, i, k);
        if !ok {
          code := Fail;
        }
      } else {
        ns := AddAll(a.appends, stale);
      }
    }

    /** One round of `map`: the successor is read before the callback runs for node `rest[0]`. */
    method Visit(op: Node<T>, script: seq<Action<T>>, k: nat, ghost visited: seq<Node<T>>, ghost rest: seq<Node<T>>,
                 ghost stale: set<Key>)
      returns (next: Node?<T>, code: Code, ghost ns: seq<Node<T>>)
      requires CoherentBut(stale) && FreshKeys(Appends(script, k)) && Avoids(Appends(script, k), stale, keyOf)
      requires Progress(list.nodes, visited, rest, script) && rest != [] && op == rest[0] && k == |visited|
      modifies list, list.nodes, index, index.buckets
      ensures CoherentBut(StaleAfterMap(stale, visited + [op], script, keyOf)) && code == ActionAt(script, k).Result()
      ensures FreshKeys(Appends(script, k + 1)) && Avoids(Appends(script, k + 1), stale, keyOf)
      ensures Progress(list.nodes, visited + [op], rest[1..] + ns, script)
      ensures next == if |rest| > 1 then rest[1] else null
      ensures (forall n :: n in ns ==> fresh(n)) && Holds(ns, ActionAt(script, k).appends)
      ensures forall n :: n in list.nodes ==> n in old(list.nodes) || n in ns
    {
      ghost var nodes, i := list.nodes, |Survivors(visited, script)|;
      NextPosition(nodes, visited, rest, script);
      next := op.next;
      var a := ActionAt(script, k);
      AppendsStep(script, k);
      FirstFresh(nodes, a.appends, Appends(script, k + 1), keyOf);
      AvoidsParts(a.appends, Appends(script, k + 1), stale, keyOf);
      code, ns := Callback(op, a, i, stale);
      OldOrNew(nodes, a.remove, i, ns);
      ProgressStep(nodes, visited, rest, script, ns);
      StillFresh(nodes, list.nodes, ns, a.appends, Appends(script, k + 1), keyOf);
    }

    /** The same for a map that started on `start`, with the next node to visit. */
    method Round(li: Node<T>, script: seq<Action<T>>, k: nat, ghost start: seq<Node<T>>,
                 ghost visited: seq<Node<T>>, ghost rest: seq<Node<T>>, ghost stale: set<Key>)
      returns (next: Node?<T>, code: Code,
               ghost visited': seq<Node<T>>, ghost rest': seq<Node<T>>, ghost now: set<Key>)
      requires CoherentBut(stale) && FreshKeys(Appends(script, k)) && Avoids(Appends(script, k), stale, keyOf)
      requires Progress(list.nodes, visited, rest, script) && Underway(start, visited, rest, script, li, Continue)
      requires k == |visited|
      modifies list, list.nodes, index, index.buckets
      ensures |visited'| == k + 1 && CoherentBut(now)
      ensures now == StaleAfterMap(stale, visited', script, keyOf) && (code == Continue ==> now == stale)
      ensures FreshKeys(Appends(script, k + 1)) && Avoids(Appends(script, k + 1), stale, keyOf)
      ensures Progress(list.nodes, visited', rest', script)
      ensures Underway(start, visited', rest', script, next, code)
      ensures |rest'| + Total(script, k + 1) < |rest| + Total(script, k)
      ensures forall n :: n in list.nodes ==> n in old(list.nodes) || fresh(n)
    {
      ghost var ns;
      next, code, ns := Visit(li, script, k, visited, rest, stale);
      AppendsStep(script, k);
      UnderwayStep(start, visited, rest, script, ns, next);
      visited', rest' := visited + [rest[0]], rest[1..] + ns;
      now := StaleAfterMap(stale, visited', script, keyOf);
    }

    /** `list.map` with a callback that follows `script`. The callback was called for the nodes `visited`,
        once each and in this order; `visited + rest` are the nodes that were in the list at the start,
        followed by those appended meanwhile. */
    method Map(script: seq<Action<T>>, ghost stale: set<Key>)
      returns (code: Code, ghost visited: seq<Node<T>>, ghost rest: seq<Node<T>>)
      requires CoherentBut(stale) && FreshKeys(Appends(script, 0)) && Avoids(Appends(script, 0), stale, keyOf)
      modifies list, list.nodes, index, index.buckets
      ensures CoherentBut(StaleAfterMap(stale, visited, script, keyOf))
      ensures Extended(old(list.nodes), visited + rest, Appended(script, |visited|))
      ensures Progress(list.nodes, visited, rest, script)
      ensures Ended(script, |visited|, code) && (code == Continue ==> |old(list.nodes)| <= |visited|)
    {
      var li, k := list.head, 0;
      ghost var start := list.nodes;
      code, visited, rest := Continue, [], start;
      ghost var now := stale;
      MapStarts(start, script);
      while li != null && code == Continue
        invariant k == |visited| && CoherentBut(now)
        invariant forall n :: n in list.nodes ==> n in start || fresh(n)
        invariant now == StaleAfterMap(stale, visited, script, keyOf) && (code == Continue ==> now == stale)
        invariant FreshKeys(Appends(script, k)) && Avoids(Appends(script, k), stale, keyOf)
        invariant Progress(list.nodes, visited, rest, script)
        invariant Underway(start, visited, rest, script, li, code)
        decreases |rest| + Total(script, k)
      {
        assert forall i :: 0 <= i < |list.nodes| ==> list.nodes[i] in start || fresh(list.nodes[i]);
        li, code, visited, rest, now := Round(li, script, k, start, visited, rest, now);
        k := k + 1;
      }
    }
  }

  /** An element is removed while its clean-up fails, another one is appended, and the first is removed again:
      the second is still in the table, but no longer in the list. */
  method LostNode<T(==, !new)>(x: T, y: T, keyOf: T -> Key) returns (q: SendQueue<T>, n: Node<T>)
    requires keyOf(x) != keyOf(y)
    ensures n.data == y && keyOf(y) in q.index.contents && q.index.contents[keyOf(y)] == n
    ensures q.list.nodes == [n] && q.list.head == null && q.list.tail == null
  {
    q := new SendQueue(keyOf);
    q.AddAndFail(x);
    n := q.ColumnAdd(y, {} + {keyOf(x)});
    q.RemoveAgain(keyOf(x), {} + {keyOf(x)});
  }
}
