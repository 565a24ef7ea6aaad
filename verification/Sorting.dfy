/** lodash.orderby with the order "desc": a stable sort on a numeric key. */
module Sorting {
  import opened Collections

  ghost predicate Descending<T(!new)>(s: seq<T>, key: T -> real) {
    forall i, j :: 0 <= i < j < |s| ==> key(s[i]) >= key(s[j])
  }

  /** The elements of key k, in their order. */
  ghost function WithKey<T(!new)>(s: seq<T>, key: T -> real, k: real): seq<T> {
    if s == [] then []
    else (if key(s[0]) == k then [s[0]] else []) + WithKey(s[1..], key, k)
  }

  function Insert<T(!new)>(x: T, s: seq<T>, key: T -> real): (r: seq<T>)
    requires Descending(s, key)
    ensures Descending(r, key)
    ensures forall y :: y in r <==> y == x || y in s
  {
    if s == [] || key(s[0]) <= key(x) then [x] + s
    else
      var rest := Insert(x, s[1..], key);
      assert forall y :: y in rest ==> key(y) <= key(s[0]);
      [s[0]] + rest
  }

  lemma {:induction false} InsertMultiset<T(!new)>(x: T, s: seq<T>, key: T -> real)
    requires Descending(s, key)
    ensures multiset(Insert(x, s, key)) == multiset{x} + multiset(s)
  {
    if s == [] || key(s[0]) <= key(x) {
    } else {
      InsertMultiset(x, s[1..], key);
      assert s == [s[0]] + s[1..];
    }
  }

  /** Equal keys keep their order: an element goes in front of those that came after it. */
  function OrderByDesc<T(!new)>(s: seq<T>, key: T -> real): (r: seq<T>)
    ensures Descending(r, key)
    ensures multiset(r) == multiset(s)
    ensures |r| == |s|
  {
    if s == [] then []
    else
      assert s == [s[0]] + s[1..];
      InsertMultiset(s[0], OrderByDesc(s[1..], key), key);
      var r := Insert(s[0], OrderByDesc(s[1..], key), key);
      assert |multiset(r)| == |multiset(s)|;
      r
  }

  lemma {:induction false} InsertStable<T(!new)>(x: T, s: seq<T>, key: T -> real, k: real)
    requires Descending(s, key)
    ensures WithKey(Insert(x, s, key), key, k) == (if key(x) == k then [x] else []) + WithKey(s, key, k)
  {
    hide WithKey;
    if s == [] || key(s[0]) <= key(x) {
      WithKeyFirst(x, s, key, k);
    } else {
      var rest := Insert(x, s[1..], key);
      InsertStable(x, s[1..], key, k);
      WithKeyFirst(s[0], rest, key, k);
      WithKeyFirst(s[0], s[1..], key, k);
      assert s == [s[0]] + s[1..];
    }
  }

  lemma WithKeyFirst<T(!new)>(x: T, s: seq<T>, key: T -> real, k: real)
    ensures WithKey([x] + s, key, k) == (if key(x) == k then [x] else []) + WithKey(s, key, k)
  {
    assert ([x] + s)[1..] == s;
  }

  lemma {:induction false} OrderByDescStable<T(!new)>(s: seq<T>, key: T -> real, k: real)
    ensures WithKey(OrderByDesc(s, key), key, k) == WithKey(s, key, k)
  {
    if s != [] {
      OrderByDescStable(s[1..], key, k);
      InsertStable(s[0], OrderByDesc(s[1..], key), key, k);
    }
  }

  lemma WithKeyMember<T(!new)>(s: seq<T>, key: T -> real, k: real, x: T)
    ensures x in WithKey(s, key, k) <==> x in s && key(x) == k
  {
  }

  /** A stable descending arrangement is unique, so it is the one OrderByDesc returns. */
  lemma {:induction false} StableOrderUnique<T(!new)>(a: seq<T>, b: seq<T>, key: T -> real)
    requires Descending(a, key) && Descending(b, key)
    requires forall k :: WithKey(a, key, k) == WithKey(b, key, k)
    ensures a == b
  {
    if a == [] || b == [] {
      if a != [] { WithKeyMember(b, key, key(a[0]), a[0]); WithKeyMember(a, key, key(a[0]), a[0]); }
      if b != [] { WithKeyMember(b, key, key(b[0]), b[0]); WithKeyMember(a, key, key(b[0]), b[0]); }
    } else {
      WithKeyMember(b, key, key(a[0]), a[0]);
      WithKeyMember(a, key, key(a[0]), a[0]);
      WithKeyMember(b, key, key(b[0]), b[0]);
      WithKeyMember(a, key, key(b[0]), b[0]);
      var k := key(a[0]);
      assert key(b[0]) == k;
      assert WithKey(a, key, k)[0] == a[0] && WithKey(b, key, k)[0] == b[0];
      forall k' ensures WithKey(a[1..], key, k') == WithKey(b[1..], key, k') {
        assert WithKey(a, key, k') == WithKey(b, key, k');
        assert WithKey(a[1..], key, k') == if k' == k then WithKey(a, key, k')[1..] else WithKey(a, key, k');
        assert WithKey(b[1..], key, k') == if k' == k then WithKey(b, key, k')[1..] else WithKey(b, key, k');
      }
      StableOrderUnique(a[1..], b[1..], key);
    }
  }

  lemma SortedIsFixed<T(!new)>(s: seq<T>, key: T -> real)
    requires Descending(s, key)
    ensures OrderByDesc(s, key) == s
  {
    forall k ensures WithKey(OrderByDesc(s, key), key, k) == WithKey(s, key, k) {
      OrderByDescStable(s, key, k);
    }
    StableOrderUnique(OrderByDesc(s, key), s, key);
  }
}
