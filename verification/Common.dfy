/** Types and counting facts shared by the models of the individual components. */
module Common {

  type byte = b: int | 0 <= b < 256

  datatype Option<+T> = None | Some(value: T)

  /** The modulus of the C type `unsigned int`. */
  const UINT_MOD: nat := 0x1_0000_0000

  /** One past the largest value of the C type `int`. */
  const INT_LIMIT: nat := 0x8000_0000

  ghost predicate Distinct<T(!new)>(s: seq<T>) {
    forall i, j :: 0 <= i < j < |s| ==> s[i] != s[j]
  }

  predicate StrictlyIncreasing(s: seq<int>) {
    forall i, j :: 0 <= i < j < |s| ==> s[i] < s[j]
  }

  function Min(a: int, b: int): int {
    if a < b then a else b
  }

  lemma EmptyLeft<T>(s: seq<T>)
    ensures [] + s == s
  {
  }

  lemma EmptyRight<T>(s: seq<T>)
    ensures s + [] == s
  {
  }

  lemma Associative<T>(a: seq<T>, b: seq<T>, c: seq<T>)
    ensures a + (b + c) == (a + b) + c
  {
  }

  lemma Split<T>(s: seq<T>, k: nat)
    requires k <= |s|
    ensures s[..k] + s[k..] == s
  {
  }

  /** Concatenation of a sequence of byte strings. */
  function Concat(parts: seq<seq<byte>>): seq<byte> {
    if parts == [] then [] else Concat(parts[..|parts| - 1]) + parts[|parts| - 1]
  }

  lemma {:induction false} ConcatCons(x: seq<byte>, xs: seq<seq<byte>>)
    ensures Concat([x] + xs) == x + Concat(xs)
  {
    var all := [x] + xs;
    if xs == [] {
      assert all[..0] == [];
    } else {
      var n := |xs| - 1;
      assert all[..|all| - 1] == [x] + xs[..n];
      ConcatCons(x, xs[..n]);
    }
  }

  /** A sequence without repetitions has as many elements as positions. */
  lemma {:induction false} DistinctCardinality<T(!new)>(s: seq<T>)
    requires Distinct(s)
    ensures |set x | x in s| == |s|
  {
    if s == [] {
      assert (set x | x in s) == {};
    } else {
      var front, last := s[..|s| - 1], s[|s| - 1];
      DistinctCardinality(front);
      assert (set x | x in s) == (set x | x in front) + {last};
    }
  }

  /** The `n` naturals from `base` on. */
  ghost function Range(base: nat, n: nat): (r: set<nat>)
    ensures forall k: nat :: k in r <==> base <= k < base + n
    ensures |r| == n
  {
    if n == 0 then {} else Range(base, n - 1) + {base + (n - 1)}
  }

  /** Pigeonhole: `n` distinct naturals below `n` are all the naturals below `n`. */
  lemma Pigeonhole(s: seq<nat>, n: nat)
    requires Distinct(s) && |s| == n
    requires forall i :: 0 <= i < |s| ==> s[i] < n
    ensures forall k: nat :: k < n ==> k in s
  {
    DistinctCardinality(s);
    var image := set x | x in s;
    SubsetOfSameSize(image, Range(0, n));
    forall k: nat | k < n ensures k in s {
      assert k in image;
    }
  }

  lemma {:induction false} SubsetSize<T(!new)>(a: set<T>, b: set<T>)
    requires a <= b
    ensures |a| <= |b|
  {
    if a != {} {
      var x :| x in a;
      SubsetSize(a - {x}, b - {x});
    }
  }

  lemma SubsetOfSameSize<T(!new)>(a: set<T>, b: set<T>)
    requires a <= b && |a| == |b|
    ensures a == b
  {
    if x :| x in b && x !in a {
      SubsetSize(a, b - {x});
    }
  }

  /** A strictly increasing sequence that fits into another one no longer than itself is that sequence. */
  lemma {:induction false} IncreasingInclusion(s: seq<int>, t: seq<int>)
    requires StrictlyIncreasing(s) && StrictlyIncreasing(t)
    requires |t| <= |s|
    requires forall i :: 0 <= i < |s| ==> s[i] in t
    ensures s == t
  {
    if s != [] {
      var last := |s| - 1;
      var k :| 0 <= k < |t| && t[k] == s[last];
      forall i | 0 <= i < last ensures s[..last][i] in t[..k] {
        SmallerIsEarlier(t, s[i], k);
      }
      IncreasingInclusion(s[..last], t[..k]);
      assert s == s[..last] + [s[last]];
      assert t == t[..k] + [t[k]];
    }
  }

  lemma SmallerIsEarlier(t: seq<int>, x: int, k: nat)
    requires StrictlyIncreasing(t) && k < |t| && x in t && x < t[k]
    ensures x in t[..k]
  {
    var b :| 0 <= b < |t| && t[b] == x;
    assert t[..k][b] == x;
  }
}
