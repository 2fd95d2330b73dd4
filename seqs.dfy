/**
 * The ways the application reaches into a collection, stated over a
 * sequence of documents in natural (insertion) order: `findOne` returns the
 * first document whose key matches, `deleteOne` removes that document, and
 * `find` / `deleteMany` keep or drop every document satisfying a filter.
 */
module Seqs {
  import opened Wrappers

  /** No two documents share a key (an `_id`, a `sessionId`, a `userName`). */
  ghost predicate DistinctKeys<T, K>(s: seq<T>, key: T -> K) {
    forall i, j :: 0 <= i < j < |s| ==> key(s[i]) != key(s[j])
  }

  /** `findOne({ key: k })`: the index of the first document whose key is `k`. */
  function FindFirst<T, K(==)>(s: seq<T>, key: T -> K, k: K): (r: Option<nat>)
    ensures r.Some? ==> r.value < |s| && key(s[r.value]) == k
    ensures r.Some? ==> forall j :: 0 <= j < r.value ==> key(s[j]) != k
    ensures r.None? <==> forall x :: x in s ==> key(x) != k
    ensures DistinctKeys(s, key) ==> forall j :: 0 <= j < |s| && key(s[j]) == k ==> r == Some(j)
  {
    if s == [] then None
    else if key(s[0]) == k then Some(0)
    else
      match FindFirst(s[1..], key, k)
      case None => None
      case Some(i) => Some(i + 1)
  }

  /** `deleteOne({ key: k })`: drop the first document whose key is `k`, keep the rest in order. */
  function RemoveFirst<T, K(==)>(s: seq<T>, key: T -> K, k: K): (r: seq<T>)
    ensures FindFirst(s, key, k).None? ==> r == s
    ensures FindFirst(s, key, k).Some? ==>
              var i := FindFirst(s, key, k).value;
              |r| == |s| - 1 && multiset(r) == multiset(s) - multiset{s[i]}
  {
    match FindFirst(s, key, k)
    case None => s
    case Some(i) =>
      assert s == s[..i] + [s[i]] + s[i + 1..];
      s[..i] + s[i + 1..]
  }

  /** With distinct keys, `deleteOne` removes every document with that key and nothing else. */
  lemma RemoveFirstDistinct<T, K>(s: seq<T>, key: T -> K, k: K)
    requires DistinctKeys(s, key)
    ensures DistinctKeys(RemoveFirst(s, key, k), key)
    ensures forall x :: x in RemoveFirst(s, key, k) <==> x in s && key(x) != k
    ensures |RemoveFirst(s, key, k)| == if exists x :: x in s && key(x) == k then |s| - 1 else |s|
  {
  }

  /** `find(filter)` / the survivors of `deleteMany(filter)`: the documents satisfying `p`, in order. */
  function Filter<T(!new)>(s: seq<T>, p: T -> bool): (r: seq<T>)
    ensures |r| <= |s|
    ensures forall x :: multiset(r)[x] == if p(x) then multiset(s)[x] else 0
    ensures forall x :: x in r <==> x in s && p(x)
  {
    if s == [] then []
    else
      assert s == [s[0]] + s[1..];
      (if p(s[0]) then [s[0]] else []) + Filter(s[1..], p)
  }

  /** Filtering keeps distinct keys distinct. */
  lemma {:induction false} FilterDistinct<T(!new), K>(s: seq<T>, p: T -> bool, key: T -> K)
    ensures DistinctKeys(s, key) ==> DistinctKeys(Filter(s, p), key)
  {
    if s != [] && DistinctKeys(s, key) {
      FilterDistinct(s[1..], p, key);
      var rest := Filter(s[1..], p);
      if p(s[0]) {
        var r := [s[0]] + rest;
        forall a, b | 0 <= a < b < |r|
          ensures key(r[a]) != key(r[b])
        {
          if a == 0 {
            assert r[b] in s[1..];
            var j :| 0 <= j < |s[1..]| && s[1..][j] == r[b];
            assert s[j + 1] == r[b];
          } else {
            assert r[a] == rest[a - 1] && r[b] == rest[b - 1];
          }
        }
      }
    }
  }

  /** Concatenation of a sequence of sequences. */
  function Flatten<T>(ss: seq<seq<T>>): seq<T> {
    if ss == [] then [] else Flatten(ss[..|ss| - 1]) + ss[|ss| - 1]
  }
}
