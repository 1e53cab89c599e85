/** The LINQ operators the analysis and the archive index are built from:
    GroupBy with Count (groups in order of first appearance), Distinct,
    the stable OrderByDescending / OrderBy, Where and Take. */
module Grouping {

  predicate NoDuplicates<K(==)>(s: seq<K>)
  {
    forall i, j :: 0 <= i < j < |s| ==> s[i] != s[j]
  }

  /** The position of the first occurrence of `x`. */
  function FirstIndex<K(==)>(s: seq<K>, x: K): (i: nat)
    requires x in s
    ensures i < |s| && s[i] == x && x !in s[..i]
  {
    if s[0] == x then 0 else 1 + FirstIndex(s[1..], x)
  }

  /** The distinct keys of `s`, each once, in order of first appearance. */
  lemma DistinctOfOne<K>(s: seq<K>)
    requires |s| == 1
    ensures Distinct(s) == s
  {
    assert s[..0] == [];
  }

  function Distinct<K(==)>(s: seq<K>): (d: seq<K>)
    ensures NoDuplicates(d)
    ensures forall i :: 0 <= i < |d| ==> d[i] in s
    ensures forall i :: 0 <= i < |s| ==> s[i] in d
  {
    if s == [] then []
    else
      var init, last := s[..|s| - 1], s[|s| - 1];
      assert s == init + [last];
      var d := Distinct(init);
      if last in d then d else d + [last]
  }

  lemma {:induction false} FirstIndexOfPrefix<K>(p: seq<K>, q: seq<K>, x: K)
    requires x in p
    ensures FirstIndex(p + q, x) == FirstIndex(p, x)
  {
    if p[0] != x {
      assert (p + q)[1..] == p[1..] + q;
      FirstIndexOfPrefix(p[1..], q, x);
    }
  }

  /** Distinct keeps the order in which keys are first seen. */
  lemma {:induction false} DistinctFirstSeen<K>(s: seq<K>)
    ensures forall i, j :: 0 <= i < j < |Distinct(s)| ==>
      FirstIndex(s, Distinct(s)[i]) < FirstIndex(s, Distinct(s)[j])
  {
    if s != [] {
      var init, last := s[..|s| - 1], s[|s| - 1];
      assert s == init + [last];
      DistinctFirstSeen(init);
      var d := Distinct(init);
      forall x | x in init
        ensures FirstIndex(s, x) == FirstIndex(init, x) < |init|
      {
        FirstIndexOfPrefix(init, [last], x);
      }
      if last !in d {
        assert FirstIndex(s, last) == |init| by {
          assert last !in init;
          assert s[..|init|] == init;
        }
      }
    }
  }

  /** How many times `x` occurs in `s`. */
  function Occurrences<K(==)>(s: seq<K>, x: K): nat
  {
    multiset(s)[x]
  }

  /** One (key, count) pair per key in `keys`, counting in `s`. */
  function CountEach<K(==)>(keys: seq<K>, s: seq<K>): (groups: seq<(K, nat)>)
    ensures |groups| == |keys|
    ensures forall i :: 0 <= i < |keys| ==> groups[i] == (keys[i], Occurrences(s, keys[i]))
  {
    if keys == [] then [] else [(keys[0], Occurrences(s, keys[0]))] + CountEach(keys[1..], s)
  }

  /** GroupBy(key).Select(g => (g.Key, g.Count())) over the keys of the
      elements. */
  function GroupCounts<K(==)>(s: seq<K>): seq<(K, nat)>
  {
    CountEach(Distinct(s), s)
  }

  function SumCounts<K>(groups: seq<(K, nat)>): nat
  {
    if groups == [] then 0 else groups[0].1 + SumCounts(groups[1..])
  }

  lemma {:induction false} CountEachAppend<K>(keys: seq<K>, s: seq<K>, x: K)
    requires NoDuplicates(keys)
    ensures SumCounts(CountEach(keys, s + [x])) == SumCounts(CountEach(keys, s)) + (if x in keys then 1 else 0)
  {
    if keys != [] {
      assert multiset(s + [x]) == multiset(s) + multiset{x};
      CountEachAppend(keys[1..], s, x);
      assert x in keys <==> x == keys[0] || x in keys[1..];
      assert x == keys[0] ==> x !in keys[1..];
    }
  }

  lemma {:induction false} CountEachCovers<K>(keys: seq<K>, s: seq<K>)
    requires NoDuplicates(keys) && forall i :: 0 <= i < |s| ==> s[i] in keys
    ensures SumCounts(CountEach(keys, s)) == |s|
  {
    if s == [] {
      CountEachEmpty(keys);
    } else {
      var init, last := s[..|s| - 1], s[|s| - 1];
      assert s == init + [last];
      CountEachCovers(keys, init);
      CountEachAppend(keys, init, last);
    }
  }

  lemma {:induction false} CountEachEmpty<K>(keys: seq<K>)
    ensures SumCounts(CountEach(keys, [])) == 0
  {
    if keys != [] {
      CountEachEmpty(keys[1..]);
    }
  }

  /** The groups partition the input: their counts add up to its length. */
  lemma GroupCountsSum<K>(s: seq<K>)
    ensures SumCounts(GroupCounts(s)) == |s|
  {
    CountEachCovers(Distinct(s), s);
  }

  // Stable ordering by a numeric key.

  predicate SortedDescending<T>(s: seq<T>, key: T -> real)
  {
    forall i, j :: 0 <= i < j < |s| ==> key(s[i]) >= key(s[j])
  }

  /** `x` goes before the first element whose key is not greater than its
      own, so that it precedes the equal-keyed elements after it. */
  function Insert<T>(x: T, s: seq<T>, key: T -> real): (r: seq<T>)
    ensures |r| == |s| + 1
    ensures multiset(r) == multiset(s) + multiset{x}
  {
    if s == [] || key(s[0]) <= key(x) then [x] + s
    else
      assert s == [s[0]] + s[1..];
      [s[0]] + Insert(x, s[1..], key)
  }

  /** OrderByDescending(key): a stable sort. */
  function SortDescending<T>(s: seq<T>, key: T -> real): (r: seq<T>)
    ensures |r| == |s|
    ensures multiset(r) == multiset(s)
  {
    if s == [] then []
    else
      assert s == [s[0]] + s[1..];
      Insert(s[0], SortDescending(s[1..], key), key)
  }

  /** OrderBy(key): a stable sort, in the other direction. */
  function SortAscending<T>(s: seq<T>, key: T -> real): seq<T>
  {
    SortDescending(s, Negated(key))
  }

  function Negated<T>(key: T -> real): T -> real
  {
    x => -key(x)
  }

  /** The elements of `s` whose key is `v`, in order. */
  function WithKey<T>(s: seq<T>, key: T -> real, v: real): seq<T>
  {
    if s == [] then []
    else if key(s[0]) == v then [s[0]] + WithKey(s[1..], key, v)
    else WithKey(s[1..], key, v)
  }

  lemma {:induction false} InsertBounded<T>(x: T, s: seq<T>, key: T -> real, b: real)
    requires key(x) <= b && forall i :: 0 <= i < |s| ==> key(s[i]) <= b
    ensures forall i :: 0 <= i < |Insert(x, s, key)| ==> key(Insert(x, s, key)[i]) <= b
  {
    if s != [] && key(s[0]) > key(x) {
      InsertBounded(x, s[1..], key, b);
    }
  }

  lemma {:induction false} InsertSorted<T>(x: T, s: seq<T>, key: T -> real)
    requires SortedDescending(s, key)
    ensures SortedDescending(Insert(x, s, key), key)
  {
    if s != [] && key(s[0]) > key(x) {
      InsertSorted(x, s[1..], key);
      InsertBounded(x, s[1..], key, key(s[0]));
    }
  }

  lemma {:induction false} SortDescendingSorted<T>(s: seq<T>, key: T -> real)
    ensures SortedDescending(SortDescending(s, key), key)
  {
    if s != [] {
      SortDescendingSorted(s[1..], key);
      InsertSorted(s[0], SortDescending(s[1..], key), key);
    }
  }

  lemma {:induction false} InsertWithKey<T>(x: T, s: seq<T>, key: T -> real, v: real)
    ensures WithKey(Insert(x, s, key), key, v)
      == if key(x) == v then [x] + WithKey(s, key, v) else WithKey(s, key, v)
  {
    if s != [] && key(s[0]) > key(x) {
      InsertWithKey(x, s[1..], key, v);
    }
  }

  /** Stability: elements with equal keys keep their input order. */
  lemma {:induction false} SortDescendingStable<T>(s: seq<T>, key: T -> real, v: real)
    ensures WithKey(SortDescending(s, key), key, v) == WithKey(s, key, v)
  {
    if s != [] {
      SortDescendingStable(s[1..], key, v);
      InsertWithKey(s[0], SortDescending(s[1..], key), key, v);
    }
  }

  /** Every prefix of a descending sequence is descending. */
  lemma TakeSorted<T>(s: seq<T>, key: T -> real, n: nat)
    requires SortedDescending(s, key)
    ensures SortedDescending(Take(s, n), key)
  {
  }

  /** Only elements whose key does not exceed the n-th key are cut off by
      Take(n) after a descending sort. */
  lemma {:induction false} TakeKeepsLarger<T>(s: seq<T>, key: T -> real, n: nat, x: T)
    requires SortedDescending(s, key) && n < |s| && 0 < n
    requires x in s && key(x) > key(s[n - 1])
    ensures x in Take(s, n)
  {
    var k :| 0 <= k < |s| && s[k] == x;
    assert k < n;
    assert Take(s, n)[k] == x;
  }

  lemma {:induction false} SumCountsInsert<K>(x: (K, nat), s: seq<(K, nat)>, key: ((K, nat)) -> real)
    ensures SumCounts(Insert(x, s, key)) == x.1 + SumCounts(s)
  {
    if s != [] && key(s[0]) > key(x) {
      SumCountsInsert(x, s[1..], key);
      assert ([s[0]] + Insert(x, s[1..], key))[1..] == Insert(x, s[1..], key);
    } else {
      assert ([x] + s)[1..] == s;
    }
  }

  /** Reordering groups does not change the total they account for. */
  lemma {:induction false} SumCountsSorted<K>(s: seq<(K, nat)>, key: ((K, nat)) -> real)
    ensures SumCounts(SortDescending(s, key)) == SumCounts(s)
  {
    if s != [] {
      SumCountsSorted(s[1..], key);
      SumCountsInsert(s[0], SortDescending(s[1..], key), key);
    }
  }

  /** OrderBy sorts ascending. */
  lemma SortAscendingSorted<T>(s: seq<T>, key: T -> real)
    ensures forall i, j :: 0 <= i < j < |SortAscending(s, key)| ==>
      key(SortAscending(s, key)[i]) <= key(SortAscending(s, key)[j])
  {
    SortDescendingSorted(s, Negated(key));
  }

  lemma SumCountsAscending<K>(s: seq<(K, nat)>, key: ((K, nat)) -> real)
    ensures SumCounts(SortAscending(s, key)) == SumCounts(s)
  {
    SumCountsSorted(s, Negated(key));
  }

  /** Every group carries the number of times its key occurs in `s`. */
  ghost predicate Tallied<K>(groups: seq<(K, nat)>, s: seq<K>)
  {
    forall i :: 0 <= i < |groups| ==> groups[i].1 == Occurrences(s, groups[i].0)
  }

  lemma {:induction false} MultiplicityAtMostOne<T>(s: seq<T>, x: T)
    requires NoDuplicates(s)
    ensures multiset(s)[x] <= 1
  {
    if s != [] {
      assert s == [s[0]] + s[1..];
      MultiplicityAtMostOne(s[1..], x);
      if s[0] == x {
        assert x !in s[1..];
      }
    }
  }

  /** A reordering of a sequence without repetitions has none either. */
  lemma {:induction false} PermutationNoDuplicates<T>(a: seq<T>, b: seq<T>)
    requires multiset(a) == multiset(b) && NoDuplicates(b)
    ensures NoDuplicates(a)
  {
    forall i, j | 0 <= i < j < |a|
      ensures a[i] != a[j]
    {
      if a[i] == a[j] {
        assert a == a[..j] + a[j..];
        assert a[i] in multiset(a[..j]);
        assert a[j] in multiset(a[j..]);
        assert multiset(a)[a[i]] >= 2;
        MultiplicityAtMostOne(b, a[i]);
        assert false;
      }
    }
  }

  lemma {:induction false} PermutationTallied<K>(a: seq<(K, nat)>, b: seq<(K, nat)>, s: seq<K>)
    requires multiset(a) == multiset(b) && Tallied(b, s)
    ensures Tallied(a, s)
  {
    forall i | 0 <= i < |a|
      ensures a[i].1 == Occurrences(s, a[i].0)
    {
      assert a[i] in multiset(b);
      var j :| 0 <= j < |b| && b[j] == a[i];
    }
  }

  /** The order of groups given by an order on their keys. */
  function ByKey<K>(order: K -> real): ((K, nat)) -> real
  {
    (g: (K, nat)) => order(g.0)
  }

  lemma {:induction false} TalliedAscending<K>(r: seq<(K, nat)>, s: seq<K>, order: K -> real)
    requires forall a, b :: order(a) == order(b) ==> a == b
    requires NoDuplicates(r) && Tallied(r, s)
    requires forall i, j :: 0 <= i < j < |r| ==> order(r[i].0) <= order(r[j].0)
    ensures forall i, j :: 0 <= i < j < |r| ==> order(r[i].0) < order(r[j].0)
  {
    forall i, j | 0 <= i < j < |r|
      ensures order(r[i].0) < order(r[j].0)
    {
      if order(r[i].0) == order(r[j].0) {
        assert false;
      }
    }
  }

  /** GroupBy(..).OrderBy(g => g.Key): when the order tells keys apart, each
      key appears once and the keys strictly ascend. */
  lemma GroupsStrictlyAscending<K>(s: seq<K>, order: K -> real)
    requires forall a, b :: order(a) == order(b) ==> a == b
    ensures forall i, j :: 0 <= i < j < |SortAscending(GroupCounts(s), ByKey(order))| ==>
      order(SortAscending(GroupCounts(s), ByKey(order))[i].0) < order(SortAscending(GroupCounts(s), ByKey(order))[j].0)
  {
    var g := GroupCounts(s);
    var r := SortAscending(g, ByKey(order));
    SortAscendingSorted(g, ByKey(order));
    assert NoDuplicates(g) by {
      var d := Distinct(s);
      assert forall i :: 0 <= i < |g| ==> g[i].0 == d[i];
    }
    PermutationNoDuplicates(r, g);
    PermutationTallied(r, g, s);
    TalliedAscending(r, s, order);
  }

  /** Every key listed by a sorted grouping occurs in the input. */
  lemma SortedGroupKeysOccur<K>(s: seq<K>, key: ((K, nat)) -> real)
    ensures forall i :: 0 <= i < |SortAscending(GroupCounts(s), key)| ==> SortAscending(GroupCounts(s), key)[i].0 in s
  {
    var g := GroupCounts(s);
    var r := SortAscending(g, key);
    forall i | 0 <= i < |r|
      ensures r[i].0 in s
    {
      assert r[i] in multiset(g);
      var k :| 0 <= k < |g| && g[k] == r[i];
      assert g[k].0 == Distinct(s)[k];
    }
  }

  /** Take(n) */
  function Take<T>(s: seq<T>, n: nat): (r: seq<T>)
    ensures |r| <= n && r <= s
    ensures |s| <= n ==> r == s
  {
    if |s| <= n then s else s[..n]
  }

  /** Where(keep) */
  function Where<T>(s: seq<T>, keep: T -> bool): (r: seq<T>)
    ensures |r| <= |s|
    ensures forall i :: 0 <= i < |r| ==> r[i] in s && keep(r[i])
    ensures forall i :: 0 <= i < |s| && keep(s[i]) ==> s[i] in r
  {
    if s == [] then []
    else
      assert s == [s[0]] + s[1..];
      if keep(s[0]) then [s[0]] + Where(s[1..], keep) else Where(s[1..], keep)
  }
}
