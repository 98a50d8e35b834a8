/**
 * The Kotlin collection operations the core leans on, stated once:
 * `filter`, `distinctBy` and the stable `sortedBy`, together with the
 * orders the sorts use (String.compareTo and Comparable on enums and ints,
 * all expressed as lexicographic comparison of integer keys).
 */
module Collections {

  // ---------------------------------------------------------------------------
  // Lexicographic order on integer keys
  // ---------------------------------------------------------------------------

  /**
   * `a` sorts no later than `b`: the first difference decides, and a proper
   * prefix sorts first. This is how String.compareTo orders two strings by
   * their char codes; a one-element key compares a single number.
   */
  predicate LexLe(a: seq<int>, b: seq<int>)
    decreases |a|
  {
    |a| == 0 || (|b| > 0 && (a[0] < b[0] || (a[0] == b[0] && LexLe(a[1..], b[1..]))))
  }

  lemma {:induction false} LexLeReflexive(a: seq<int>)
    ensures LexLe(a, a)
    decreases |a|
  {
    if |a| > 0 {
      LexLeReflexive(a[1..]);
    }
  }

  lemma {:induction false} LexLeTotal(a: seq<int>, b: seq<int>)
    ensures LexLe(a, b) || LexLe(b, a)
    decreases |a|
  {
    if |a| > 0 && |b| > 0 && a[0] == b[0] {
      LexLeTotal(a[1..], b[1..]);
    }
  }

  lemma {:induction false} LexLeTransitive(a: seq<int>, b: seq<int>, c: seq<int>)
    requires LexLe(a, b) && LexLe(b, c)
    ensures LexLe(a, c)
    decreases |a|
  {
    if |a| > 0 && a[0] == b[0] && b[0] == c[0] {
      LexLeTransitive(a[1..], b[1..], c[1..]);
    }
  }

  lemma {:induction false} LexLeAntisymmetric(a: seq<int>, b: seq<int>)
    requires LexLe(a, b) && LexLe(b, a)
    ensures a == b
    decreases |a|
  {
    if |a| > 0 {
      LexLeAntisymmetric(a[1..], b[1..]);
      assert a == [a[0]] + a[1..] && b == [b[0]] + b[1..];
    }
  }

  // ---------------------------------------------------------------------------
  // filter
  // ---------------------------------------------------------------------------

  /** `a` can be obtained from `b` by deleting elements, keeping the order. */
  predicate IsSubsequence<T(==)>(a: seq<T>, b: seq<T>)
    decreases |b|
  {
    |a| == 0 || (|b| > 0 && ((a[0] == b[0] && IsSubsequence(a[1..], b[1..])) || IsSubsequence(a, b[1..])))
  }

  lemma {:induction false} SubsequenceReflexive<T>(a: seq<T>)
    ensures IsSubsequence(a, a)
    decreases |a|
  {
    if |a| > 0 {
      SubsequenceReflexive(a[1..]);
    }
  }

  lemma {:induction false} SubsequenceTransitive<T>(a: seq<T>, b: seq<T>, c: seq<T>)
    requires IsSubsequence(a, b) && IsSubsequence(b, c)
    ensures IsSubsequence(a, c)
    decreases |c|
  {
    if |a| > 0 {
      if b[0] == c[0] && IsSubsequence(b[1..], c[1..]) {
        if a[0] == b[0] && IsSubsequence(a[1..], b[1..]) {
          SubsequenceTransitive(a[1..], b[1..], c[1..]);
        } else {
          SubsequenceTransitive(a, b[1..], c[1..]);
        }
      } else {
        SubsequenceTransitive(a, b, c[1..]);
      }
    }
  }

  lemma {:induction false} SubsequenceOfTail<T>(a: seq<T>, b: seq<T>)
    requires |b| > 0 && IsSubsequence(a, b[1..])
    ensures IsSubsequence(a, b)
  {
  }

  lemma {:induction false} SubsequenceMembers<T>(a: seq<T>, b: seq<T>)
    requires IsSubsequence(a, b)
    ensures forall x :: x in a ==> x in b
    ensures |a| <= |b|
    decreases |b|
  {
    if |a| > 0 {
      if a[0] == b[0] && IsSubsequence(a[1..], b[1..]) {
        SubsequenceMembers(a[1..], b[1..]);
        assert forall x :: x in a ==> x == a[0] || x in a[1..];
      } else {
        SubsequenceMembers(a, b[1..]);
      }
    }
  }

  /** Kotlin's `filter`: the elements satisfying `p`, in their original order. */
  function Filter<T>(s: seq<T>, p: T -> bool): (r: seq<T>)
    ensures |r| <= |s|
    ensures forall i :: 0 <= i < |r| ==> r[i] in s && p(r[i])
    ensures forall i :: 0 <= i < |s| && p(s[i]) ==> s[i] in r
  {
    if s == [] then []
    else if p(s[0]) then [s[0]] + Filter(s[1..], p)
    else Filter(s[1..], p)
  }

  lemma {:induction false} FilterIsSubsequence<T>(s: seq<T>, p: T -> bool)
    ensures IsSubsequence(Filter(s, p), s)
  {
    if s != [] {
      FilterIsSubsequence(s[1..], p);
      if !p(s[0]) {
        SubsequenceOfTail(Filter(s, p), s);
      }
    }
  }

  /** `filter` keeps every element satisfying `p` as often as it occurs, and no other. */
  lemma {:induction false} FilterMultiset<T>(s: seq<T>, p: T -> bool)
    ensures forall x :: multiset(Filter(s, p))[x] == if p(x) then multiset(s)[x] else 0
  {
    if s != [] {
      FilterMultiset(s[1..], p);
      assert s == [s[0]] + s[1..];
      assert multiset(s) == multiset{s[0]} + multiset(s[1..]);
      if p(s[0]) {
        assert multiset(Filter(s, p)) == multiset{s[0]} + multiset(Filter(s[1..], p));
      }
    }
  }

  /** Concatenation is associative. */
  lemma AppendAssoc<T>(a: seq<T>, b: seq<T>, c: seq<T>)
    ensures a + (b + c) == a + b + c
  {
  }

  lemma {:induction false} FilterAppend<T>(a: seq<T>, b: seq<T>, p: T -> bool)
    ensures Filter(a + b, p) == Filter(a, p) + Filter(b, p)
  {
    if a != [] {
      assert (a + b)[0] == a[0];
      assert (a + b)[1..] == a[1..] + b;
      FilterAppend(a[1..], b, p);
      if p(a[0]) {
        assert Filter(a + b, p) == [a[0]] + Filter(a[1..] + b, p);
        assert Filter(a, p) == [a[0]] + Filter(a[1..], p);
      } else {
        assert Filter(a + b, p) == Filter(a[1..] + b, p);
      }
    } else {
      assert a + b == b;
    }
  }

  /** Filtering with a predicate every element satisfies changes nothing. */
  lemma {:induction false} FilterAll<T>(s: seq<T>, p: T -> bool)
    requires forall x :: x in s ==> p(x)
    ensures Filter(s, p) == s
  {
    if s != [] {
      FilterAll(s[1..], p);
    }
  }

  // ---------------------------------------------------------------------------
  // distinctBy
  // ---------------------------------------------------------------------------

  function Keys<T, K>(s: seq<T>, key: T -> K): set<K>
  {
    set i | 0 <= i < |s| :: key(s[i])
  }

  lemma KeysCons<T, K>(s: seq<T>, key: T -> K)
    requires s != []
    ensures Keys(s, key) == {key(s[0])} + Keys(s[1..], key)
  {
    forall k | k in Keys(s, key) ensures k in {key(s[0])} + Keys(s[1..], key) {
      var i :| 0 <= i < |s| && key(s[i]) == k;
      if i > 0 { assert s[1..][i - 1] == s[i]; }
    }
    forall k | k in Keys(s[1..], key) ensures k in Keys(s, key) {
      var i :| 0 <= i < |s[1..]| && key(s[1..][i]) == k;
      assert s[i + 1] == s[1..][i];
    }
  }

  lemma KeysAppend<T, K>(a: seq<T>, b: seq<T>, key: T -> K)
    ensures Keys(a + b, key) == Keys(a, key) + Keys(b, key)
  {
    forall k | k in Keys(a + b, key) ensures k in Keys(a, key) + Keys(b, key) {
      var i :| 0 <= i < |a + b| && key((a + b)[i]) == k;
      if i < |a| {
        assert (a + b)[i] == a[i];
      } else {
        assert (a + b)[i] == b[i - |a|];
      }
    }
    forall k | k in Keys(a, key) + Keys(b, key) ensures k in Keys(a + b, key) {
      if k in Keys(a, key) {
        var i :| 0 <= i < |a| && key(a[i]) == k;
        assert (a + b)[i] == a[i];
      } else {
        var i :| 0 <= i < |b| && key(b[i]) == k;
        assert (a + b)[|a| + i] == b[i];
      }
    }
  }

  /** No two elements of `s` share a key. */
  predicate DistinctKeys<T, K(==)>(s: seq<T>, key: T -> K)
  {
    forall i, j :: 0 <= i < j < |s| ==> key(s[i]) != key(s[j])
  }

  /**
   * The loop of Kotlin's `distinctBy` started with `seen` already in its
   * hash set: walk `s`, keep an element when its key is new, and record the key.
   */
  function DistinctByFrom<T, K(==)>(s: seq<T>, key: T -> K, seen: set<K>): (r: seq<T>)
    ensures DistinctKeys(r, key)
    ensures forall i :: 0 <= i < |r| ==> r[i] in s && key(r[i]) !in seen
    ensures Keys(r, key) == Keys(s, key) - seen
  {
    if s == [] then []
    else if key(s[0]) in seen then
      var r := DistinctByFrom(s[1..], key, seen);
      KeysCons(s, key);
      r
    else
      var rest := DistinctByFrom(s[1..], key, seen + {key(s[0])});
      var r := [s[0]] + rest;
      KeysCons(s, key);
      KeysCons(r, key);
      assert r[1..] == rest;
      assert forall j :: 0 < j < |r| ==> r[j] == rest[j - 1];
      r
  }

  /** Kotlin's `distinctBy`: the first element of every key, in their original order. */
  function DistinctBy<T, K(==)>(s: seq<T>, key: T -> K): (r: seq<T>)
    ensures DistinctKeys(r, key)
    ensures forall i :: 0 <= i < |r| ==> r[i] in s
    ensures Keys(r, key) == Keys(s, key)
  {
    DistinctByFrom(s, key, {})
  }

  /**
   * A reference definition of "the first occurrence of every key", built
   * from the back: the last element survives exactly when no earlier element
   * has its key.
   */
  function FirstOccurrences<T, K(==)>(s: seq<T>, key: T -> K): seq<T>
    decreases |s|
  {
    if s == [] then []
    else
      var init := s[..|s| - 1];
      FirstOccurrences(init, key) + (if key(s[|s| - 1]) in Keys(init, key) then [] else [s[|s| - 1]])
  }

  lemma {:induction false} DistinctByFromSnoc<T, K>(s: seq<T>, x: T, key: T -> K, seen: set<K>)
    ensures DistinctByFrom(s + [x], key, seen)
         == DistinctByFrom(s, key, seen) + (if key(x) in seen + Keys(s, key) then [] else [x])
    decreases |s|
  {
    if s == [] {
      assert [x][1..] == [];
    } else {
      assert (s + [x])[0] == s[0] && (s + [x])[1..] == s[1..] + [x];
      KeysCons(s, key);
      if key(s[0]) in seen {
        DistinctByFromSnoc(s[1..], x, key, seen);
        assert seen + Keys(s[1..], key) == seen + Keys(s, key);
      } else {
        var seen' := seen + {key(s[0])};
        DistinctByFromSnoc(s[1..], x, key, seen');
        assert seen' + Keys(s[1..], key) == seen + Keys(s, key);
        var t := if key(x) in seen + Keys(s, key) then [] else [x];
        AppendAssoc([s[0]], DistinctByFrom(s[1..], key, seen'), t);
      }
    }
  }

  /** `distinctBy` agrees with the reference definition on every input. */
  lemma {:induction false} DistinctByIsFirstOccurrences<T, K>(s: seq<T>, key: T -> K)
    ensures DistinctBy(s, key) == FirstOccurrences(s, key)
    decreases |s|
  {
    if s != [] {
      var init := s[..|s| - 1];
      assert s == init + [s[|s| - 1]];
      DistinctByIsFirstOccurrences(init, key);
      DistinctByFromSnoc(init, s[|s| - 1], key, {});
    }
  }

  lemma {:induction false} DistinctByFromIsSubsequence<T, K>(s: seq<T>, key: T -> K, seen: set<K>)
    ensures IsSubsequence(DistinctByFrom(s, key, seen), s)
  {
    if s != [] {
      if key(s[0]) in seen {
        DistinctByFromIsSubsequence(s[1..], key, seen);
        SubsequenceOfTail(DistinctByFrom(s, key, seen), s);
      } else {
        DistinctByFromIsSubsequence(s[1..], key, seen + {key(s[0])});
      }
    }
  }

  /** A list whose keys are already distinct, and clear of `seen`, comes back unchanged. */
  lemma {:induction false} DistinctByFromKeepsDistinct<T, K>(s: seq<T>, key: T -> K, seen: set<K>)
    requires DistinctKeys(s, key)
    requires forall i :: 0 <= i < |s| ==> key(s[i]) !in seen
    ensures DistinctByFrom(s, key, seen) == s
  {
    if s != [] {
      assert forall i :: 0 <= i < |s[1..]| ==> key(s[1..][i]) != key(s[0]) by {
        forall i | 0 <= i < |s[1..]| ensures key(s[1..][i]) != key(s[0]) {
          assert s[1..][i] == s[i + 1];
        }
      }
      DistinctByFromKeepsDistinct(s[1..], key, seen + {key(s[0])});
    }
  }

  /**
   * Appending and de-duplicating keeps a duplicate-free prefix as it is and
   * adds the new keys of `b`, each by its first occurrence.
   */
  lemma {:induction false} DistinctByAppend<T, K>(a: seq<T>, b: seq<T>, key: T -> K, seen: set<K>)
    ensures DistinctByFrom(a + b, key, seen)
         == DistinctByFrom(a, key, seen) + DistinctByFrom(b, key, seen + Keys(a, key))
  {
    if a == [] {
      assert a + b == b;
      assert Keys(a, key) == {};
      assert seen + Keys(a, key) == seen;
    } else {
      assert (a + b)[1..] == a[1..] + b;
      KeysCons(a, key);
      if key(a[0]) in seen {
        DistinctByAppend(a[1..], b, key, seen);
        assert seen + Keys(a[1..], key) == seen + Keys(a, key);
      } else {
        DistinctByAppend(a[1..], b, key, seen + {key(a[0])});
        assert seen + {key(a[0])} + Keys(a[1..], key) == seen + Keys(a, key);
      }
    }
  }

  // ---------------------------------------------------------------------------
  // sortedBy (stable)
  // ---------------------------------------------------------------------------

  predicate SortedBy<T>(s: seq<T>, key: T -> seq<int>)
  {
    forall i, j :: 0 <= i < j < |s| ==> LexLe(key(s[i]), key(s[j]))
  }

  /**
   * Inserts `x` in front of the first element whose key is not below its
   * own, so that `x` precedes every element with an equal key.
   */
  function InsertBy<T>(x: T, t: seq<T>, key: T -> seq<int>): (r: seq<T>)
    ensures multiset(r) == multiset(t) + multiset{x}
    ensures |r| == |t| + 1
    ensures SortedBy(t, key) ==> SortedBy(r, key)
  {
    if t == [] then [x]
    else if LexLe(key(x), key(t[0])) then
      var r := [x] + t;
      assert SortedBy(t, key) ==> SortedBy(r, key) by {
        if SortedBy(t, key) {
          forall j | 0 < j < |r| ensures LexLe(key(x), key(r[j])) {
            if j > 1 { LexLeTransitive(key(x), key(t[0]), key(t[j - 1])); }
          }
        }
      }
      r
    else
      var rest := InsertBy(x, t[1..], key);
      assert t == [t[0]] + t[1..];
      assert SortedBy(t, key) ==> SortedBy([t[0]] + rest, key) by {
        if SortedBy(t, key) { InsertAfterHeadSorted(x, t, rest, key); }
      }
      [t[0]] + rest
  }

  /** When `x` belongs after the head of a sorted `t`, the head followed by the sorted insertion into the tail is sorted. */
  lemma InsertAfterHeadSorted<T>(x: T, t: seq<T>, rest: seq<T>, key: T -> seq<int>)
    requires t != [] && !LexLe(key(x), key(t[0])) && SortedBy(t, key)
    requires multiset(rest) == multiset(t[1..]) + multiset{x} && SortedBy(rest, key)
    ensures SortedBy([t[0]] + rest, key)
  {
    var r := [t[0]] + rest;
    LexLeTotal(key(x), key(t[0]));
    forall j | 0 < j < |r| ensures LexLe(key(t[0]), key(r[j])) {
      assert r[j] in multiset(rest);
      if r[j] != x {
        assert r[j] in multiset(t[1..]);
        var k :| 0 <= k < |t[1..]| && t[1..][k] == r[j];
        assert t[k + 1] == r[j];
      }
    }
  }

  /** Kotlin's `sortedBy`: a permutation of `s`, sorted by `key`. */
  function SortBy<T>(s: seq<T>, key: T -> seq<int>): (r: seq<T>)
    ensures multiset(r) == multiset(s)
    ensures |r| == |s|
    ensures SortedBy(r, key)
  {
    if s == [] then []
    else
      assert s == [s[0]] + s[1..];
      InsertBy(s[0], SortBy(s[1..], key), key)
  }

  /** The elements of `s` whose key is `k`, in order. */
  function WithKey<T>(s: seq<T>, key: T -> seq<int>, k: seq<int>): seq<T>
  {
    Filter(s, KeyIs(key, k))
  }

  /** The test "carries key `k`". */
  function KeyIs<T>(key: T -> seq<int>, k: seq<int>): T -> bool {
    y => key(y) == k
  }

  lemma {:induction false} InsertByWithKey<T>(x: T, t: seq<T>, key: T -> seq<int>, k: seq<int>)
    ensures WithKey(InsertBy(x, t, key), key, k)
         == (if key(x) == k then [x] else []) + WithKey(t, key, k)
  {
    var p := KeyIs(key, k);
    var xs := if key(x) == k then [x] else [];
    assert Filter([x], p) == xs;
    if t == [] {
      assert WithKey(InsertBy(x, t, key), key, k) == xs;
    } else if LexLe(key(x), key(t[0])) {
      assert InsertBy(x, t, key) == [x] + t;
      FilterAppend([x], t, p);
    } else {
      var rest := InsertBy(x, t[1..], key);
      var h := Filter([t[0]], p);
      var f := Filter(t[1..], p);
      LexLeReflexive(key(x));
      assert xs == [] || h == [];
      calc {
        WithKey(InsertBy(x, t, key), key, k);
        { assert InsertBy(x, t, key) == [t[0]] + rest; }
        Filter([t[0]] + rest, p);
        { FilterAppend([t[0]], rest, p); }
        h + Filter(rest, p);
        { InsertByWithKey(x, t[1..], key, k); }
        h + (xs + f);
        { SwapEmpty(h, xs, f); }
        xs + (h + f);
        { FilterAppend([t[0]], t[1..], p); assert t == [t[0]] + t[1..]; }
        xs + WithKey(t, key, k);
      }
    }
  }

  /** One of two lists being empty, their order in front of a third does not matter. */
  lemma SwapEmpty<T>(a: seq<T>, b: seq<T>, c: seq<T>)
    requires a == [] || b == []
    ensures a + (b + c) == b + (a + c)
  {
    if a == [] {
      assert a + (b + c) == b + c;
    } else {
      assert b + (a + c) == a + c;
    }
  }

  /**
   * Stability: for every key, the elements carrying it appear in the sorted
   * result in exactly the order they had in the input.
   */
  lemma {:induction false} SortByStable<T>(s: seq<T>, key: T -> seq<int>, k: seq<int>)
    ensures WithKey(SortBy(s, key), key, k) == WithKey(s, key, k)
  {
    if s != [] {
      SortByStable(s[1..], key, k);
      InsertByWithKey(s[0], SortBy(s[1..], key), key, k);
      assert s == [s[0]] + s[1..];
      FilterAppend([s[0]], s[1..], KeyIs(key, k));
    }
  }

  /** Sorting a list that is already sorted gives it back unchanged. */
  lemma {:induction false} SortBySorted<T>(s: seq<T>, key: T -> seq<int>)
    requires SortedBy(s, key)
    ensures SortBy(s, key) == s
  {
    if s != [] {
      assert SortedBy(s[1..], key);
      SortBySorted(s[1..], key);
      if |s| > 1 {
        assert LexLe(key(s[0]), key(s[1]));
      }
    }
  }
}
