/**
 * g_ptr_array_sort and bsearch over arrays whose elements are ordered by a
 * string key with strcmp, as the sort and search comparators of extension
 * points, extensions and configs do.
 */
module Sorting {
  import opened Wrappers
  import opened Str

  /** No element is strcmp-greater than an element after it. */
  predicate SortedBy<T>(s: seq<T>, key: T -> string)
  {
    forall i, j :: 0 <= i < j < |s| ==> !Less(key(s[j]), key(s[i]))
  }

  function Insert<T>(x: T, s: seq<T>, key: T -> string): (r: seq<T>)
    requires SortedBy(s, key)
    ensures SortedBy(r, key)
    ensures multiset(r) == multiset(s) + multiset{x}
  {
    if s == [] then [x]
    else if !Less(key(s[0]), key(x)) then
      forall j | 0 < j < |s| ensures !Less(key(s[j]), key(x)) {
        if Less(key(s[j]), key(x)) {
          LessTotal(key(s[0]), key(x));
          if key(s[0]) != key(x) { LessTransitive(key(s[j]), key(x), key(s[0])); }
        }
      }
      [x] + s
    else
      var t := Insert(x, s[1..], key);
      assert multiset(s) == multiset{s[0]} + multiset(s[1..]) by { assert s == [s[0]] + s[1..]; }
      forall j | 0 <= j < |t| ensures !Less(key(t[j]), key(s[0])) {
        assert t[j] in multiset(t);
        if t[j] != x {
          var k :| 0 < k < |s| && s[k] == t[j];
        }
        LessAsymmetric(key(s[0]), key(x));
      }
      [s[0]] + t
  }

  /** The array sorted by key: ordered, and a permutation of its input. */
  function Sort<T>(s: seq<T>, key: T -> string): (r: seq<T>)
    ensures SortedBy(r, key)
    ensures multiset(r) == multiset(s)
  {
    if s == [] then []
    else
      assert s == [s[0]] + s[1..];
      Insert(s[0], Sort(s[1..], key), key)
  }

  /** bsearch over s[lo..hi]: the index of some element whose key is k. */
  function Search<T>(s: seq<T>, key: T -> string, k: string, lo: nat, hi: nat): (r: Option<nat>)
    requires lo <= hi <= |s| && SortedBy(s, key)
    ensures r.Some? ==> lo <= r.value < hi && key(s[r.value]) == k
    ensures r.None? ==> forall i :: lo <= i < hi ==> key(s[i]) != k
    decreases hi - lo
  {
    if lo == hi then None
    else
      var mid := (lo + hi) / 2;
      if key(s[mid]) == k then Some(mid)
      else if Less(k, key(s[mid])) then Search(s, key, k, lo, mid)
      else
        assert Less(key(s[mid]), k) by { LessTotal(k, key(s[mid])); }
        Search(s, key, k, mid + 1, hi)
  }

  /** bsearch over a whole sorted array: an element with key k, if there is one. */
  function Find<T>(s: seq<T>, key: T -> string, k: string): (r: Option<T>)
    requires SortedBy(s, key)
    ensures r.Some? ==> r.value in s && key(r.value) == k
    ensures r.None? <==> forall x :: x in s ==> key(x) != k
  {
    match Search(s, key, k, 0, |s|)
    case None => None
    case Some(i) => Some(s[i])
  }

  /** Sorting keeps exactly the elements that carry a given key. */
  lemma SortKeepsKeys<T>(s: seq<T>, key: T -> string, k: string)
    ensures (exists x :: x in Sort(s, key) && key(x) == k) <==> (exists x :: x in s && key(x) == k)
  {
    var r := Sort(s, key);
    forall x | x in r ensures x in s { assert x in multiset(r); }
    forall x | x in s ensures x in r { assert x in multiset(s); }
  }

  /** Keys in strictly ascending strcmp order, as a tree traversal visits them. */
  predicate StrictlyIncreasing(ks: seq<string>)
  {
    forall i, j :: 0 <= i < j < |ks| ==> Less(ks[i], ks[j])
  }

  /** The strcmp-least string of a non-empty set. */
  ghost function Min(keys: set<string>): (m: string)
    requires keys != {}
    ensures m in keys && forall x :: x in keys ==> !Less(x, m)
    decreases |keys|
  {
    var a :| a in keys;
    if keys - {a} == {} then
      assert keys == {a};
      LessIrreflexive(a);
      a
    else
      var m := Min(keys - {a});
      if Less(a, m) then
        forall x | x in keys ensures !Less(x, a) {
          if x != a && Less(x, a) { LessTransitive(x, a, m); }
          LessIrreflexive(a);
        }
        a
      else
        LessTotal(a, m);
        LessIrreflexive(m);
        m
  }

  /** A set of keys listed in ascending order: the order of an in-order walk of a string-keyed tree. */
  ghost function InOrder(keys: set<string>): (r: seq<string>)
    ensures |r| == |keys|
    decreases |keys|
  {
    if keys == {} then [] else [Min(keys)] + InOrder(keys - {Min(keys)})
  }

  /** The listing holds exactly the given keys. */
  lemma {:induction false} InOrderMembers(keys: set<string>)
    ensures forall k :: k in InOrder(keys) <==> k in keys
    decreases |keys|
  {
    if keys != {} {
      InOrderMembers(keys - {Min(keys)});
    }
  }

  /** The listing is strictly ascending. */
  lemma {:induction false} InOrderIncreasing(keys: set<string>)
    ensures StrictlyIncreasing(InOrder(keys))
    decreases |keys|
  {
    if keys != {} {
      var m := Min(keys);
      var rest := InOrder(keys - {m});
      InOrderIncreasing(keys - {m});
      InOrderMembers(keys - {m});
      forall k | k in rest ensures Less(m, k) {
        LessTotal(m, k);
      }
      assert InOrder(keys) == [m] + rest;
    }
  }

  /** The least element is the only element no other one precedes. */
  lemma MinUnique(keys: set<string>, k: string)
    requires k in keys && forall x :: x in keys ==> !Less(x, k)
    ensures k == Min(keys)
  {
    LessTotal(k, Min(keys));
  }

  lemma InOrderUnfold(keys: set<string>)
    requires keys != {}
    ensures InOrder(keys) == [Min(keys)] + InOrder(keys - {Min(keys)})
  {
  }

  /** The least key still to be listed. */
  method PickMin(rest: set<string>) returns (k: string)
    requires rest != {}
    ensures k == Min(rest)
  {
    ghost var least := Min(rest);
    assert least in rest && forall x :: x in rest ==> !Less(x, least);
    k :| k in rest && forall x :: x in rest ==> !Less(x, k);
    MinUnique(rest, k);
  }

  /** Listing the keys in order, one minimum at a time. */
  method SortedKeys(keys: set<string>) returns (ks: seq<string>)
    ensures ks == InOrder(keys)
  {
    var rest := keys;
    ks := [];
    while rest != {}
      invariant ks + InOrder(rest) == InOrder(keys)
      decreases |rest|
    {
      var k := PickMin(rest);
      InOrderUnfold(rest);
      var tail := InOrder(rest - {k});
      assert ks + InOrder(rest) == (ks + [k]) + tail;
      ks, rest := ks + [k], rest - {k};
    }
  }

  /** No element occurs twice. */
  predicate Distinct<T(==)>(s: seq<T>)
  {
    forall i, j :: 0 <= i < j < |s| ==> s[i] != s[j]
  }

  /** A sequence has no repeated element exactly when no element is counted twice. */
  lemma {:induction false} DistinctMultiplicity<T>(s: seq<T>)
    ensures Distinct(s) <==> forall x :: multiset(s)[x] <= 1
  {
    if |s| > 0 {
      var t := s[1..];
      DistinctMultiplicity(t);
      assert s == [s[0]] + t;
      assert multiset(s) == multiset{s[0]} + multiset(t);
      if Distinct(s) {
        forall i | 0 <= i < |t| ensures t[i] != s[0] {
          assert s[i + 1] == t[i];
        }
        assert s[0] !in multiset(t);
        forall i, j | 0 <= i < j < |t| ensures t[i] != t[j] {
          assert s[i + 1] == t[i] && s[j + 1] == t[j];
        }
      } else {
        var i, j :| 0 <= i < j < |s| && s[i] == s[j];
        if i == 0 {
          assert t[j - 1] == s[0];
          assert multiset(t)[s[0]] >= 1;
          assert multiset(s)[s[0]] >= 2;
        } else {
          assert t[i - 1] == t[j - 1];
          assert !Distinct(t);
          var x :| multiset(t)[x] > 1;
          assert multiset(s)[x] > 1;
        }
      }
    }
  }

  /** A permutation of a sequence without repeats has none either. */
  lemma PermutationKeepsDistinct<T>(a: seq<T>, b: seq<T>)
    requires multiset(a) == multiset(b) && Distinct(a)
    ensures Distinct(b)
  {
    DistinctMultiplicity(a);
    DistinctMultiplicity(b);
  }
}
