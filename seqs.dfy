/**
 * The two array operations the views lean on: `Array.prototype.filter` and a stable
 * `Array.prototype.sort` by an integer key (`(a, b) => a.order - b.order`), on a copy,
 * `indexOf`, and the distinct values of `[...new Set(s)]`.
 */
module Seqs {

  /** `s.filter(p)`: the elements satisfying p, in their original order. */
  function Filter<T(!new)>(s: seq<T>, p: T -> bool): (r: seq<T>)
    ensures |r| <= |s|
    ensures forall x :: x in r <==> x in s && p(x)
    ensures forall k :: 0 <= k < |r| ==> p(r[k])
    decreases |s|
  {
    if s == [] then []
    else if p(s[|s| - 1]) then Filter(s[..|s| - 1], p) + [s[|s| - 1]]
    else Filter(s[..|s| - 1], p)
  }

  /** Filtering keeps every element satisfying p as often as it occurs, and no other. */
  lemma {:induction false} FilterMultiset<T(!new)>(s: seq<T>, p: T -> bool)
    ensures forall x :: multiset(Filter(s, p))[x] == if p(x) then multiset(s)[x] else 0
    decreases |s|
  {
    if s != [] {
      var init, last := s[..|s| - 1], s[|s| - 1];
      FilterMultiset(init, p);
      assert s == init + [last];
      assert multiset(s) == multiset(init) + multiset{last};
    }
  }

  /** Filtering a concatenation filters each part in turn: the kept elements stay in
      their original order. */
  lemma {:induction false} FilterAppend<T(!new)>(s: seq<T>, t: seq<T>, p: T -> bool)
    ensures Filter(s + t, p) == Filter(s, p) + Filter(t, p)
    decreases |t|
  {
    if t == [] {
      assert s + t == s;
    } else {
      var init, last := t[..|t| - 1], t[|t| - 1];
      var tail := if p(last) then [last] else [];
      calc {
        Filter(s + t, p);
        { assert (s + t)[..|s + t| - 1] == s + init && (s + t)[|s + t| - 1] == last; }
        Filter(s + init, p) + tail;
        { FilterAppend(s, init, p); }
        Filter(s, p) + Filter(init, p) + tail;
        Filter(s, p) + (Filter(init, p) + tail);
        Filter(s, p) + Filter(t, p);
      }
    }
  }

  /** Filtering keeps nothing when no element satisfies p. */
  lemma {:induction false} FilterNone<T(!new)>(s: seq<T>, p: T -> bool)
    requires forall k :: 0 <= k < |s| ==> !p(s[k])
    ensures Filter(s, p) == []
    decreases |s|
  {
    if s != [] {
      var init := s[..|s| - 1];
      assert forall k :: 0 <= k < |init| ==> init[k] == s[k];
      FilterNone(init, p);
    }
  }

  /** When no two positions both satisfy p, the filter keeps at most one element. */
  lemma {:induction false} FilterAtMostOne<T(!new)>(s: seq<T>, p: T -> bool)
    requires forall i, j :: 0 <= i < j < |s| && p(s[i]) ==> !p(s[j])
    ensures |Filter(s, p)| <= 1
    decreases |s|
  {
    if s != [] {
      var init := s[..|s| - 1];
      assert forall i, j :: 0 <= i < j < |init| ==> init[i] == s[i] && init[j] == s[j];
      FilterAtMostOne(init, p);
      if p(s[|s| - 1]) {
        forall k | 0 <= k < |init| ensures !p(init[k]) {
          assert init[k] == s[k];
        }
        FilterNone(init, p);
      }
    }
  }

  /** Filtering a sequence with a head: the head is kept in front exactly when it
      satisfies p. */
  lemma FilterCons<T(!new)>(x: T, s: seq<T>, p: T -> bool)
    ensures Filter([x] + s, p) == (if p(x) then [x] else []) + Filter(s, p)
  {
    FilterAppend([x], s, p);
    assert [x][..0] == [];
  }

  /** The elements of s are in ascending key order. */
  predicate SortedBy<T>(s: seq<T>, key: T -> int) {
    forall i, j :: 0 <= i < j < |s| ==> key(s[i]) <= key(s[j])
  }

  /** Inserts x before the first element whose key is not smaller than x's. */
  function Insert<T(!new)>(x: T, s: seq<T>, key: T -> int): (r: seq<T>)
    ensures multiset(r) == multiset(s) + multiset{x}
    ensures |r| == |s| + 1
  {
    if s == [] || key(x) <= key(s[0]) then [x] + s
    else
      assert s == [s[0]] + s[1..];
      [s[0]] + Insert(x, s[1..], key)
  }

  /** A lower bound on the keys of x and of s bounds the keys of the result. */
  lemma {:induction false} InsertLowerBound<T(!new)>(x: T, s: seq<T>, key: T -> int, lo: int)
    requires lo <= key(x)
    requires forall k :: 0 <= k < |s| ==> lo <= key(s[k])
    ensures forall k :: 0 <= k < |Insert(x, s, key)| ==> lo <= key(Insert(x, s, key)[k])
  {
    if s != [] && key(x) > key(s[0]) {
      InsertLowerBound(x, s[1..], key, lo);
    }
  }

  /** Inserting into a sorted sequence keeps it sorted. */
  lemma {:induction false} InsertSorted<T(!new)>(x: T, s: seq<T>, key: T -> int)
    requires SortedBy(s, key)
    ensures SortedBy(Insert(x, s, key), key)
  {
    if s != [] && key(x) > key(s[0]) {
      InsertSorted(x, s[1..], key);
      InsertLowerBound(x, s[1..], key, key(s[0]));
      ConsSorted(s[0], Insert(x, s[1..], key), key);
    }
  }

  /** A sorted sequence stays sorted behind a head whose key bounds all of it. */
  lemma ConsSorted<T>(x: T, s: seq<T>, key: T -> int)
    requires SortedBy(s, key)
    requires forall k :: 0 <= k < |s| ==> key(x) <= key(s[k])
    ensures SortedBy([x] + s, key)
  {
    var r := [x] + s;
    forall i, j | 0 <= i < j < |r| ensures key(r[i]) <= key(r[j]) {
      assert r[j] == s[j - 1];
      if i > 0 {
        assert r[i] == s[i - 1];
      }
    }
  }

  /** The sort by key; `SortByStable` shows that equal keys keep their relative order. */
  function SortBy<T(!new)>(s: seq<T>, key: T -> int): (r: seq<T>)
    ensures multiset(r) == multiset(s)
    ensures |r| == |s|
    ensures SortedBy(r, key)
  {
    if s == [] then []
    else
      var rest := SortBy(s[1..], key);
      InsertIntoSorted(s, rest, key);
      Insert(s[0], rest, key)
  }

  /** Inserting the head of s into a sorted permutation of its tail sorts s. */
  lemma InsertIntoSorted<T(!new)>(s: seq<T>, rest: seq<T>, key: T -> int)
    requires s != [] && multiset(rest) == multiset(s[1..]) && SortedBy(rest, key)
    ensures multiset(Insert(s[0], rest, key)) == multiset(s)
    ensures SortedBy(Insert(s[0], rest, key), key)
  {
    InsertSorted(s[0], rest, key);
    assert s == [s[0]] + s[1..];
  }

  /** Inserting x keeps the elements of any one key class in their order, with x in
      front of its class. */
  lemma {:induction false} InsertKeyClass<T(!new)>(x: T, s: seq<T>, key: T -> int, p: T -> bool, v: int)
    requires forall y :: p(y) <==> key(y) == v
    ensures Filter(Insert(x, s, key), p) == (if p(x) then [x] else []) + Filter(s, p)
  {
    if s == [] || key(x) <= key(s[0]) {
      FilterCons(x, s, p);
    } else {
      var tail := s[1..];
      assert s == [s[0]] + tail;
      InsertKeyClass(x, tail, key, p, v);
      FilterCons(s[0], Insert(x, tail, key), p);
      FilterCons(s[0], tail, p);
    }
  }

  /** The sort is stable: within each key class, the elements come out in their input
      order. */
  lemma {:induction false} SortByStable<T(!new)>(s: seq<T>, key: T -> int, p: T -> bool, v: int)
    requires forall y :: p(y) <==> key(y) == v
    ensures Filter(SortBy(s, key), p) == Filter(s, p)
  {
    if s != [] {
      var rest := SortBy(s[1..], key);
      var head := if p(s[0]) then [s[0]] else [];
      calc {
        Filter(SortBy(s, key), p);
        Filter(Insert(s[0], rest, key), p);
        { InsertKeyClass(s[0], rest, key, p, v); }
        head + Filter(rest, p);
        { SortByStable(s[1..], key, p, v); }
        head + Filter(s[1..], p);
        { FilterCons(s[0], s[1..], p); assert s == [s[0]] + s[1..]; }
        Filter(s, p);
      }
    }
  }

  /** Sorting a sequence that is already in key order returns it unchanged. */
  lemma {:induction false} SortSortedIsIdentity<T(!new)>(s: seq<T>, key: T -> int)
    requires SortedBy(s, key)
    ensures SortBy(s, key) == s
  {
    if s != [] {
      SortSortedIsIdentity(s[1..], key);
      assert s == [s[0]] + s[1..];
    }
  }

  /** `s.map(f)`. */
  function Map<T, U>(s: seq<T>, f: T -> U): (r: seq<U>)
    ensures |r| == |s| && forall k :: 0 <= k < |s| ==> r[k] == f(s[k])
  {
    if s == [] then [] else [f(s[0])] + Map(s[1..], f)
  }

  /** Inserting the image of x among the images of s, by a key that agrees with `key` on
      images, is inserting x into s and mapping afterwards. */
  lemma {:induction false} InsertMap<T(!new), U(!new)>(x: T, s: seq<T>, f: T -> U, key: T -> int, key': U -> int)
    requires forall y :: key'(f(y)) == key(y)
    ensures Insert(f(x), Map(s, f), key') == Map(Insert(x, s, key), f)
  {
    if s != [] && key(x) > key(s[0]) {
      InsertMap(x, s[1..], f, key, key');
      var m := Map(s, f);
      assert m[0] == f(s[0]) && m[1..] == Map(s[1..], f);
      assert Map([s[0]] + Insert(x, s[1..], key), f) == [f(s[0])] + Map(Insert(x, s[1..], key), f);
    } else {
      assert Map([x] + s, f) == [f(x)] + Map(s, f);
    }
  }

  /** Sorting commutes with a map that preserves the sort key. */
  lemma {:induction false} SortByMap<T(!new), U(!new)>(s: seq<T>, f: T -> U, key: T -> int, key': U -> int)
    requires forall y :: key'(f(y)) == key(y)
    ensures SortBy(Map(s, f), key') == Map(SortBy(s, key), f)
  {
    if s != [] {
      SortByMap(s[1..], f, key, key');
      var m := Map(s, f);
      assert m[0] == f(s[0]) && m[1..] == Map(s[1..], f);
      InsertMap(s[0], SortBy(s[1..], key), f, key, key');
    }
  }

  /** `s.indexOf(x)`: the first position of x in s, or -1 when x does not occur. */
  function IndexOf<T(==)>(s: seq<T>, x: T): (i: int)
    ensures i == -1 <==> x !in s
    ensures 0 <= i ==> i < |s| && s[i] == x && x !in s[..i]
    ensures -1 <= i
  {
    if s == [] then -1
    else if s[0] == x then 0
    else
      var j := IndexOf(s[1..], x);
      if j == -1 then -1
      else
        assert s[..j + 1] == [s[0]] + s[1..][..j];
        j + 1
  }

  /** A value that occurs in a prefix is first found at the same place in the whole. */
  lemma {:induction false} IndexOfPrefix<T>(s: seq<T>, n: int, x: T)
    requires 0 <= n <= |s| && x in s[..n]
    ensures IndexOf(s, x) == IndexOf(s[..n], x)
  {
    assert s[..n][0] == s[0];
    if s[0] != x {
      assert s[..n][1..] == s[1..][..n - 1];
      IndexOfPrefix(s[1..], n - 1, x);
    }
  }

  /** No value occurs twice in s. */
  predicate NoDuplicates<T(==)>(s: seq<T>) {
    forall i, j :: 0 <= i < j < |s| ==> s[i] != s[j]
  }

  /** The position after i in a cycle of k positions. */
  function CyclicSucc(i: int, k: int): int {
    if i + 1 == k then 0 else i + 1
  }

  /** The successor is `(i + 1) % k`, for every i from -1 (not found) to k - 1. */
  lemma CyclicSuccIsMod(i: int, k: int)
    requires 0 < k && -1 <= i < k
    ensures CyclicSucc(i, k) == (i + 1) % k
  {
    if i + 1 == k {
      assert (i + 1) % k == (0 + 1 * k) % k;
    }
  }

  /** `keys[(keys.indexOf(x) + 1) % keys.length]`: the key after x in the cycle of keys, and
      the first key for a value that is not a key. */
  function NextKey<T(==)>(keys: seq<T>, x: T): (next: T)
    requires keys != []
    ensures next in keys
    ensures x !in keys ==> next == keys[0]
  {
    keys[CyclicSucc(IndexOf(keys, x), |keys|)]
  }

  /** Among distinct keys, the key at j is followed by the key at the next position. */
  lemma NextKeyStep<T>(keys: seq<T>, j: int)
    requires NoDuplicates(keys) && 0 <= j < |keys|
    ensures NextKey(keys, keys[j]) == keys[CyclicSucc(j, |keys|)]
  {
  }

  /** n steps of NextKey from x. */
  function Advance<T(==)>(keys: seq<T>, x: T, n: nat): T
    requires keys != []
    decreases n
  {
    if n == 0 then x else Advance(keys, NextKey(keys, x), n - 1)
  }

  /** n successor steps from position j. */
  function AdvanceIndex(j: int, k: int, n: nat): int
    decreases n
  {
    if n == 0 then j else AdvanceIndex(CyclicSucc(j, k), k, n - 1)
  }

  /** From the key at j, n steps of NextKey reach the key n positions further round. */
  lemma {:induction false} AdvanceAlongCycle<T>(keys: seq<T>, j: int, n: nat)
    requires NoDuplicates(keys) && 0 <= j < |keys|
    ensures 0 <= AdvanceIndex(j, |keys|, n) < |keys|
    ensures Advance(keys, keys[j], n) == keys[AdvanceIndex(j, |keys|, n)]
    decreases n
  {
    if n > 0 {
      NextKeyStep(keys, j);
      AdvanceAlongCycle(keys, CyclicSucc(j, |keys|), n - 1);
    }
  }

  /** `[...new Set(s)]`: each value of s once, in order of first appearance. */
  function Distinct<T(==,!new)>(s: seq<T>): (r: seq<T>)
    ensures forall x :: x in r <==> x in s
    ensures forall i, j :: 0 <= i < j < |r| ==> r[i] != r[j]
    decreases |s|
  {
    if s == [] then []
    else
      var d := Distinct(s[..|s| - 1]);
      if s[|s| - 1] in d then d else d + [s[|s| - 1]]
  }

  /** The distinct values come in the order of their first occurrence in s. */
  lemma {:induction false} DistinctInFirstAppearanceOrder<T(!new)>(s: seq<T>)
    ensures forall i, j :: 0 <= i < j < |Distinct(s)| ==> IndexOf(s, Distinct(s)[i]) < IndexOf(s, Distinct(s)[j])
    decreases |s|
  {
    if s != [] {
      var n := |s| - 1;
      var p := s[..n];
      var d := Distinct(p);
      DistinctInFirstAppearanceOrder(p);
      var r := Distinct(s);
      forall i | 0 <= i < |d| ensures IndexOf(s, d[i]) == IndexOf(p, d[i]) {
        IndexOfPrefix(s, n, d[i]);
      }
      if s[n] !in d {
        assert s[n] !in p;
        assert IndexOf(s, s[n]) == n;
        forall i, j | 0 <= i < j < |r| ensures IndexOf(s, r[i]) < IndexOf(s, r[j]) {
          assert r[i] == d[i] && d[i] in p;
          if j < |d| {
            assert r[j] == d[j];
            assert IndexOf(p, d[i]) < IndexOf(p, d[j]);
          } else {
            assert r[j] == s[n];
            assert IndexOf(p, d[i]) < n;
          }
        }
      }
    }
  }
}
