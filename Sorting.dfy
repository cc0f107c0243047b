/**
 * Stable sorting by a key, as Kotlin's `sortedBy` and `sortedByDescending` do it.
 *
 * `SortBy(s, key, le)` is an insertion sort: it inserts each element in front of the
 * first element whose key it does not exceed, so elements with equal keys keep their
 * relative order. The lemmas show that the result is a permutation, is ordered by `le`
 * on the keys, keeps every class of equal keys in its original order, and is the only
 * sequence with those properties; so it agrees with any other stable sort.
 */
module Sorting {

  /** `le` is a total order on keys (reflexivity follows from totality). */
  ghost predicate TotalOrder<K(!new)>(le: (K, K) -> bool) {
    && (forall a, b :: le(a, b) && le(b, a) ==> a == b)
    && (forall a, b, c :: le(a, b) && le(b, c) ==> le(a, c))
    && (forall a, b :: le(a, b) || le(b, a))
  }

  /** The keys of `s` are non-decreasing under `le`. */
  ghost predicate Sorted<T, K>(s: seq<T>, key: T -> K, le: (K, K) -> bool) {
    forall i, j :: 0 <= i < j < |s| ==> le(key(s[i]), key(s[j]))
  }

  /** No two positions of `s` carry the same key. */
  ghost predicate KeysDistinct<T, K>(s: seq<T>, key: T -> K) {
    forall i, j :: 0 <= i < j < |s| ==> key(s[i]) != key(s[j])
  }

  /** The elements of `s` whose key is `k`, in their order in `s`. */
  function WithKey<T, K(==)>(s: seq<T>, key: T -> K, k: K): seq<T> {
    if s == [] then []
    else (if key(s[0]) == k then [s[0]] else []) + WithKey(s[1..], key, k)
  }

  /**
   * Every class of equal keys appears in `t` in the same order as in `s`:
   * `t` is a stable rearrangement of `s`.
   */
  ghost predicate SameKeyClasses<T, K(!new)>(t: seq<T>, s: seq<T>, key: T -> K) {
    forall k :: WithKey(t, key, k) == WithKey(s, key, k)
  }

  /** Inserts `x` in front of the first element whose key `x`'s key does not exceed. */
  function Insert<T, K>(x: T, s: seq<T>, key: T -> K, le: (K, K) -> bool): (r: seq<T>)
    ensures multiset(r) == multiset(s) + multiset{x}
  {
    if s == [] then [x]
    else if le(key(x), key(s[0])) then [x] + s
    else
      assert s == [s[0]] + s[1..];
      [s[0]] + Insert(x, s[1..], key, le)
  }

  /** Stable sort of `s` by `key`, in the order `le`. */
  function SortBy<T, K>(s: seq<T>, key: T -> K, le: (K, K) -> bool): (r: seq<T>)
    ensures multiset(r) == multiset(s)
  {
    if s == [] then []
    else
      assert s == [s[0]] + s[1..];
      Insert(s[0], SortBy(s[1..], key, le), key, le)
  }

  lemma {:induction false} WithKeyMember<T, K>(s: seq<T>, key: T -> K, k: K, x: T)
    requires x in WithKey(s, key, k)
    ensures x in s && key(x) == k
  {
    if s != [] {
      if x != s[0] || key(s[0]) != k {
        WithKeyMember(s[1..], key, k, x);
      }
    }
  }

  lemma {:induction false} InsertSorted<T, K(!new)>(x: T, s: seq<T>, key: T -> K, le: (K, K) -> bool)
    requires TotalOrder(le)
    requires Sorted(s, key, le)
    ensures Sorted(Insert(x, s, key, le), key, le)
  {
    if s != [] && !le(key(x), key(s[0])) {
      var tail := s[1..];
      assert Sorted(tail, key, le) by {
        forall i, j | 0 <= i < j < |tail| ensures le(key(tail[i]), key(tail[j])) {
          assert tail[i] == s[i + 1] && tail[j] == s[j + 1];
        }
      }
      InsertSorted(x, tail, key, le);
      var rest := Insert(x, tail, key, le);
      forall j | 0 <= j < |rest| ensures le(key(s[0]), key(rest[j])) {
        assert rest[j] in multiset(rest);
        if rest[j] != x {
          assert rest[j] in multiset(tail);
          var m :| 0 <= m < |tail| && tail[m] == rest[j];
          assert tail[m] == s[m + 1];
        }
      }
      var r := [s[0]] + rest;
      forall i, j | 0 <= i < j < |r| ensures le(key(r[i]), key(r[j])) {
        if i > 0 {
          assert r[i] == rest[i - 1] && r[j] == rest[j - 1];
        } else {
          assert r[j] == rest[j - 1];
        }
      }
    }
  }

  /** The result of `SortBy` is ordered by `le` on the keys. */
  lemma {:induction false} SortBySorted<T, K(!new)>(s: seq<T>, key: T -> K, le: (K, K) -> bool)
    requires TotalOrder(le)
    ensures Sorted(SortBy(s, key, le), key, le)
  {
    if s != [] {
      SortBySorted(s[1..], key, le);
      InsertSorted(s[0], SortBy(s[1..], key, le), key, le);
    }
  }

  lemma {:induction false} InsertWithKey<T, K(!new)>(x: T, s: seq<T>, key: T -> K, le: (K, K) -> bool, k: K)
    requires TotalOrder(le)
    ensures WithKey(Insert(x, s, key, le), key, k)
            == (if key(x) == k then [x] else []) + WithKey(s, key, k)
  {
    var wx := if key(x) == k then [x] else [];
    if s == [] {
      assert WithKey([x], key, k) == wx + WithKey([], key, k);
    } else if le(key(x), key(s[0])) {
      var r := [x] + s;
      assert r[0] == x && r[1..] == s;
    } else {
      var w0 := if key(s[0]) == k then [s[0]] else [];
      var r := [s[0]] + Insert(x, s[1..], key, le);
      assert r[0] == s[0] && r[1..] == Insert(x, s[1..], key, le);
      InsertWithKey(x, s[1..], key, le, k);
      assert le(key(x), key(x));
      assert w0 == [] || wx == [];
      calc {
        WithKey(r, key, k);
        w0 + WithKey(Insert(x, s[1..], key, le), key, k);
        w0 + (wx + WithKey(s[1..], key, k));
        wx + (w0 + WithKey(s[1..], key, k));
      }
    }
  }

  /** Stability: every class of equal keys keeps its original order. */
  lemma {:induction false} SortByStable<T, K(!new)>(s: seq<T>, key: T -> K, le: (K, K) -> bool, k: K)
    requires TotalOrder(le)
    ensures WithKey(SortBy(s, key, le), key, k) == WithKey(s, key, k)
  {
    if s != [] {
      assert le(key(s[0]), key(s[0]));
      SortByStable(s[1..], key, le, k);
      InsertWithKey(s[0], SortBy(s[1..], key, le), key, le, k);
    }
  }

  lemma SortByStableClasses<T, K(!new)>(s: seq<T>, key: T -> K, le: (K, K) -> bool)
    requires TotalOrder(le)
    ensures SameKeyClasses(SortBy(s, key, le), s, key)
  {
    forall k ensures WithKey(SortBy(s, key, le), key, k) == WithKey(s, key, k) {
      SortByStable(s, key, le, k);
    }
  }

  /** A sequence that is already ordered is left as it is. */
  lemma {:induction false} SortedFixpoint<T, K>(s: seq<T>, key: T -> K, le: (K, K) -> bool)
    requires Sorted(s, key, le)
    ensures SortBy(s, key, le) == s
  {
    if s != [] {
      var tail := s[1..];
      assert Sorted(tail, key, le) by {
        forall i, j | 0 <= i < j < |tail| ensures le(key(tail[i]), key(tail[j])) {
          assert tail[i] == s[i + 1] && tail[j] == s[j + 1];
        }
      }
      SortedFixpoint(tail, key, le);
      if tail != [] {
        assert tail[0] == s[1];
      }
      assert [s[0]] + tail == s;
    }
  }

  /** Sorting twice gives the same order as sorting once. */
  lemma SortByIdempotent<T, K(!new)>(s: seq<T>, key: T -> K, le: (K, K) -> bool)
    requires TotalOrder(le)
    ensures SortBy(SortBy(s, key, le), key, le) == SortBy(s, key, le)
  {
    SortBySorted(s, key, le);
    SortedFixpoint(SortBy(s, key, le), key, le);
  }

  lemma WithKeyHead<T, K>(s: seq<T>, key: T -> K)
    requires s != []
    ensures WithKey(s, key, key(s[0])) == [s[0]] + WithKey(s[1..], key, key(s[0]))
  {
  }

  /** Two ordered sequences with the same classes of equal keys are equal. */
  lemma {:induction false} SortedSameClassesEqual<T, K(!new)>(u: seq<T>, v: seq<T>, key: T -> K, le: (K, K) -> bool)
    requires TotalOrder(le)
    requires Sorted(u, key, le) && Sorted(v, key, le)
    requires SameKeyClasses(u, v, key)
    ensures u == v
  {
    if u == [] && v != [] {
      WithKeyHead(v, key);
      assert false;
    } else if u != [] && v == [] {
      WithKeyHead(u, key);
      assert false;
    } else if u != [] && v != [] {
      var ku, kv := key(u[0]), key(v[0]);
      WithKeyHead(u, key);
      WithKeyHead(v, key);
      // some element of u has key kv, so ku comes no later than kv; and symmetrically
      assert v[0] in WithKey(u, key, kv);
      WithKeyMember(u, key, kv, v[0]);
      var m :| 0 <= m < |u| && u[m] == v[0];
      assert le(ku, kv) by {
        if m > 0 { } else { assert le(ku, ku); }
      }
      assert u[0] in WithKey(v, key, ku);
      WithKeyMember(v, key, ku, u[0]);
      var n :| 0 <= n < |v| && v[n] == u[0];
      assert le(kv, ku) by {
        if n > 0 { } else { assert le(kv, kv); }
      }
      assert ku == kv;
      assert WithKey(u, key, ku) == WithKey(v, key, ku);
      assert u[0] == WithKey(u, key, ku)[0] == WithKey(v, key, kv)[0] == v[0];
      var u', v' := u[1..], v[1..];
      forall k ensures WithKey(u', key, k) == WithKey(v', key, k) {
        assert WithKey(u, key, k) == WithKey(v, key, k);
        var w := if key(u[0]) == k then [u[0]] else [];
        assert WithKey(u, key, k) == w + WithKey(u', key, k);
        assert WithKey(v, key, k) == w + WithKey(v', key, k);
        assert (w + WithKey(u', key, k))[|w|..] == WithKey(u', key, k);
        assert (w + WithKey(v', key, k))[|w|..] == WithKey(v', key, k);
      }
      assert Sorted(u', key, le) by {
        forall i, j | 0 <= i < j < |u'| ensures le(key(u'[i]), key(u'[j])) {
          assert u'[i] == u[i + 1] && u'[j] == u[j + 1];
        }
      }
      assert Sorted(v', key, le) by {
        forall i, j | 0 <= i < j < |v'| ensures le(key(v'[i]), key(v'[j])) {
          assert v'[i] == v[i + 1] && v'[j] == v[j + 1];
        }
      }
      SortedSameClassesEqual(u', v', key, le);
      assert u == [u[0]] + u' && v == [v[0]] + v';
    }
  }

  /**
   * Uniqueness: an ordered sequence with the same classes of equal keys as `s`
   * (that is, any stable sort of `s`) is `SortBy(s)`.
   */
  lemma SortByUnique<T, K(!new)>(s: seq<T>, t: seq<T>, key: T -> K, le: (K, K) -> bool)
    requires TotalOrder(le)
    requires Sorted(t, key, le)
    requires SameKeyClasses(t, s, key)
    ensures t == SortBy(s, key, le)
  {
    SortBySorted(s, key, le);
    SortByStableClasses(s, key, le);
    SortedSameClassesEqual(t, SortBy(s, key, le), key, le);
  }

  lemma {:induction false} WithKeyCount<T, K>(s: seq<T>, key: T -> K, k: K, x: T)
    ensures multiset(WithKey(s, key, k))[x] == if key(x) == k then multiset(s)[x] else 0
  {
    if s != [] {
      WithKeyCount(s[1..], key, k, x);
      assert s == [s[0]] + s[1..];
    }
  }

  lemma {:induction false} WithKeyEmpty<T, K>(s: seq<T>, key: T -> K, k: K)
    requires forall i :: 0 <= i < |s| ==> key(s[i]) != k
    ensures WithKey(s, key, k) == []
  {
    if s != [] {
      WithKeyEmpty(s[1..], key, k);
    }
  }

  lemma {:induction false} WithKeyAtMostOne<T, K>(s: seq<T>, key: T -> K, k: K)
    requires KeysDistinct(s, key)
    ensures |WithKey(s, key, k)| <= 1
  {
    if s != [] {
      var tail := s[1..];
      assert KeysDistinct(tail, key) by {
        forall i, j | 0 <= i < j < |tail| ensures key(tail[i]) != key(tail[j]) {
          assert tail[i] == s[i + 1] && tail[j] == s[j + 1];
        }
      }
      WithKeyAtMostOne(tail, key, k);
      if key(s[0]) == k {
        forall i | 0 <= i < |tail| ensures key(tail[i]) != k {
          assert tail[i] == s[i + 1];
        }
        WithKeyEmpty(tail, key, k);
      }
    }
  }

  /**
   * When the keys of `s` are pairwise distinct, every permutation of `s` has the
   * same classes of equal keys, so its sort does not depend on its prior order.
   */
  lemma SortByIgnoresOrderWhenKeysDistinct<T(!new), K(!new)>(s: seq<T>, t: seq<T>, key: T -> K, le: (K, K) -> bool)
    requires TotalOrder(le)
    requires KeysDistinct(s, key)
    requires multiset(t) == multiset(s)
    ensures SortBy(t, key, le) == SortBy(s, key, le)
  {
    forall k ensures WithKey(t, key, k) == WithKey(s, key, k) {
      var a, b := WithKey(t, key, k), WithKey(s, key, k);
      forall x ensures multiset(a)[x] == multiset(b)[x] {
        WithKeyCount(t, key, k, x);
        WithKeyCount(s, key, k, x);
        assert multiset(t)[x] == multiset(s)[x];
      }
      assert multiset(a) == multiset(b);
      WithKeyAtMostOne(s, key, k);
      assert |a| == |multiset(a)|;
      if |a| == 1 {
        assert a[0] in multiset(b);
        assert a == [a[0]] && b == [b[0]];
      }
    }
    SortBySorted(t, key, le);
    SortByStableClasses(t, key, le);
    SortByUnique(s, SortBy(t, key, le), key, le);
  }
}
