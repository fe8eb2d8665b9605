/** The chained hash table (src/tcp/src/hashtable.c). */
module HashTable {
  import opened Common

  type schar = c: int | -128 <= c < 128

  type Key = seq<schar>

  const HT_SIZE: nat := 4096

  datatype Entry<V> = Entry(key: Key, value: V)

  function Abs(c: int): nat {
    if c < 0 then -c else c
  }

  function AbsSum(key: Key): nat {
    if key == [] then 0 else AbsSum(key[..|key| - 1]) + Abs(key[|key| - 1])
  }

  /** The bucket of a key: the sum of the absolute values of its characters. */
  function BucketOf(key: Key): (b: nat)
    ensures b < HT_SIZE
  {
    AbsSum(key) % HT_SIZE
  }

  method HtKey(key: Key) returns (b: nat)
    ensures b == BucketOf(key)
  {
    b := 0;
    for i := 0 to |key|
      invariant b == AbsSum(key[..i])
    {
      assert key[..i + 1][..i] == key[..i];
      b := b + Abs(key[i]);
    }
    assert key[..|key|] == key;
    b := b % HT_SIZE;
  }

  lemma {:induction false} AbsSumConcat(a: Key, b: Key)
    ensures AbsSum(a + b) == AbsSum(a) + AbsSum(b)
  {
    if b == [] {
      assert a + b == a;
    } else {
      assert (a + b)[..|a + b| - 1] == a + b[..|b| - 1];
      AbsSumConcat(a, b[..|b| - 1]);
    }
  }

  /** A single character lies in the bucket of its absolute value, and the buckets of keys put together add up:
      this leaves only one bucket for every key. */
  lemma BucketsAddUp(c: schar, a: Key, b: Key)
    ensures BucketOf([]) == 0 && (BucketOf([c]) == c || BucketOf([c]) + c == 0)
    ensures BucketOf(a + b) == (BucketOf(a) + BucketOf(b)) % 4096
  {
    AbsSumConcat(a, b);
    SumOfRemainders(AbsSum(a), AbsSum(b));
    assert [c][..0] == [];
  }

  lemma SumOfRemainders(m: nat, n: nat)
    ensures (m + n) % 4096 == (m % 4096 + n % 4096) % 4096
  {
  }

  // ----- One bucket

  /** Position of the first entry with this key. */
  function Position<V>(chain: seq<Entry<V>>, key: Key): (i: nat)
    ensures i <= |chain|
    ensures i < |chain| ==> chain[i].key == key
    ensures forall k :: 0 <= k < i ==> chain[k].key != key
  {
    if chain == [] || chain[0].key == key then 0 else 1 + Position(chain[1..], key)
  }

  function Assoc<V>(chain: seq<Entry<V>>, key: Key): Option<V> {
    var i := Position(chain, key);
    if i < |chain| then Some(chain[i].value) else None
  }

  ghost predicate DistinctKeys<V>(chain: seq<Entry<V>>) {
    forall i, j :: 0 <= i < j < |chain| ==> chain[i].key != chain[j].key
  }

  lemma AssocAt<V>(chain: seq<Entry<V>>, i: nat)
    requires DistinctKeys(chain) && i < |chain|
    ensures Assoc(chain, chain[i].key) == Some(chain[i].value)
  {
  }

  /** The entry at position `i` gets another value. */
  lemma AssocUpdate<V>(chain: seq<Entry<V>>, i: nat, v: V, key: Key)
    requires DistinctKeys(chain) && i < |chain|
    ensures var chain' := chain[i := Entry(chain[i].key, v)];
            DistinctKeys(chain') && Assoc(chain', key) == if key == chain[i].key then Some(v) else Assoc(chain, key)
  {
    var chain' := chain[i := Entry(chain[i].key, v)];
    var p := Position(chain, key);
    if p < |chain| {
      assert chain'[p].key == key;
      AssocAt(chain', p);
    } else {
      assert forall k :: 0 <= k < |chain| ==> chain'[k].key == chain[k].key;
    }
  }

  lemma AssocPush<V>(chain: seq<Entry<V>>, e: Entry<V>, key: Key)
    requires DistinctKeys(chain) && Position(chain, e.key) == |chain|
    ensures DistinctKeys([e] + chain)
    ensures Assoc([e] + chain, key) == if key == e.key then Some(e.value) else Assoc(chain, key)
  {
    var pushed := [e] + chain;
    assert pushed[1..] == chain && pushed[0] == e;
    assert Position(pushed, key) == if key == e.key then 0 else 1 + Position(chain, key);
  }

  lemma AssocRemove<V>(chain: seq<Entry<V>>, i: nat, key: Key)
    requires DistinctKeys(chain) && i < |chain|
    ensures var chain' := chain[..i] + chain[i + 1..];
            DistinctKeys(chain') && Assoc(chain', key) == if key == chain[i].key then None else Assoc(chain, key)
  {
    var chain' := chain[..i] + chain[i + 1..];
    var p := Position(chain, key);
    if key != chain[i].key && p < |chain| {
      var p' := if p < i then p else p - 1;
      assert chain'[p'] == chain[p];
      AssocAt(chain', p');
    } else {
      assert forall q :: 0 <= q < |chain'| ==> chain'[q] == chain[if q < i then q else q + 1];
    }
  }

  // ----- The table

  class Table<V> {
    const buckets: array<seq<Entry<V>>>
    var items: int
    ghost var contents: imap<Key, V>

    ghost predicate Valid()
      reads this, buckets
    {
      && buckets.Length == HT_SIZE
      && (forall b :: 0 <= b < HT_SIZE ==> DistinctKeys(buckets[b]))
      && (forall k {:trigger Get(k)} :: Get(k) == if k in contents then Some(contents[k]) else None)
    }

    /** The value stored under `key`. */
    ghost function Get(key: Key): Option<V>
      reads this, buckets
      requires buckets.Length == HT_SIZE
    {
      Assoc(buckets[BucketOf(key)], key)
    }

    constructor ()
      ensures Valid() && fresh(buckets) && items == 0
      ensures contents == imap[]
    {
      buckets := new seq<Entry<V>>[HT_SIZE](_ => []);
      items := 0;
      contents := imap[];
    }

    /** Stores `value` under `key`, replacing an earlier value; the item counter grows either way. */
    method Add(key: Key, value: V)
      requires Valid()
      modifies this, buckets
      ensures Valid() && items == old(items) + 1
      ensures contents == old(contents)[key := value]
    {
      var b := HtKey(key);
      var chain := buckets[b];
      items := items + 1;
      var i := 0;
      while i < |chain| && chain[i].key != key
        invariant i <= |chain|
        invariant forall k :: 0 <= k < i ==> chain[k].key != key
      {
        i := i + 1;
      }
      if i < |chain| {
        AssocUpdate(chain, i, value, key);
        buckets[b] := chain[i := Entry(chain[i].key, value)];
        contents := contents[key := value];
        forall k | k != key ensures Get(k) == old(Get(k)) {
          AssocUpdate(chain, i, value, k);
        }
      } else {
        AssocPush(chain, Entry(key, value), key);
        buckets[b] := [Entry(key, value)] + chain;
        contents := contents[key := value];
        forall k | k != key ensures Get(k) == old(Get(k)) {
          AssocPush(chain, Entry(key, value), k);
        }
      }
    }

    /** Removes the entry for `key`, if there is one. */
    method Remove(key: Key) returns (ok: bool)
      requires Valid()
      modifies this, buckets
      ensures Valid() && ok == (key in old(contents))
      ensures items == if ok then old(items) - 1 else old(items)
      ensures contents == old(contents) - {key}
    {
      var b := HtKey(key);
      var chain := buckets[b];
      var i := 0;
      while i < |chain| && chain[i].key != key
        invariant i <= |chain|
        invariant forall k :: 0 <= k < i ==> chain[k].key != key
      {
        i := i + 1;
      }
      ok := i < |chain|;
      assert Get(key).Some? <==> ok;
      if ok {
        AssocRemove(chain, i, key);
        buckets[b] := chain[..i] + chain[i + 1..];
        contents := contents - {key};
        items := items - 1;
        forall k | k != key ensures Get(k) == old(Get(k)) {
          AssocRemove(chain, i, k);
        }
      }
    }

    method Find(key: Key) returns (v: Option<V>)
      requires Valid()
      ensures v == if key in contents then Some(contents[key]) else None
    {
      var b := HtKey(key);
      var chain := buckets[b];
      assert Get(key) == Assoc(chain, key);
      for i := 0 to |chain|
        invariant forall k :: 0 <= k < i ==> chain[k].key != key
      {
        if chain[i].key == key {
          return Some(chain[i].value);
        }
      }
      return None;
    }
  }
}
