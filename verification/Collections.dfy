/** Sequence operations of JavaScript and lodash that several services use. */
module Collections {

  datatype Option<+T> = None | Some(value: T)

  function Max(a: int, b: int): int { if a > b then a else b }

  function Abs(x: int): nat { if x < 0 then -x else x }

  function Min(a: int, b: int): int { if a < b then a else b }

  /** Array.prototype.filter: the kept elements in their order. */
  function Filter<T(!new)>(s: seq<T>, p: T -> bool): (r: seq<T>)
    ensures forall x :: x in r <==> x in s && p(x)
    ensures |r| <= |s|
    ensures multiset(r) <= multiset(s)
  {
    if s == [] then []
    else
      assert s == [s[0]] + s[1..];
      (if p(s[0]) then [s[0]] else []) + Filter(s[1..], p)
  }

  /** How many elements satisfy p. */
  function CountIf<T(!new)>(s: seq<T>, p: T -> bool): (n: nat)
    ensures n <= |s|
  {
    if s == [] then 0 else (if p(s[0]) then 1 else 0) + CountIf(s[1..], p)
  }

  lemma CountIfAppend<T(!new)>(s: seq<T>, x: T, p: T -> bool)
    ensures CountIf(s + [x], p) == CountIf(s, p) + if p(x) then 1 else 0
  {
    if s == [] {
      assert (s + [x])[1..] == [];
    } else {
      assert (s + [x])[1..] == s[1..] + [x];
      CountIfAppend(s[1..], x, p);
    }
  }

  /** The sum of a quantity over the elements. */
  function SumOf<T(!new)>(s: seq<T>, f: T -> real): real {
    if s == [] then 0.0 else SumOf(s[..|s| - 1], f) + f(s[|s| - 1])
  }

  lemma FilterConcat<T(!new)>(a: seq<T>, b: seq<T>, p: T -> bool)
    ensures Filter(a + b, p) == Filter(a, p) + Filter(b, p)
  {
    if a == [] {
      assert a + b == b;
    } else {
      assert (a + b)[1..] == a[1..] + b;
      FilterConcat(a[1..], b, p);
    }
  }

  lemma FilterCounts<T(!new)>(s: seq<T>, p: T -> bool, x: T)
    ensures multiset(Filter(s, p))[x] == if p(x) then multiset(s)[x] else 0
  {
    if s != [] {
      assert s == [s[0]] + s[1..];
      FilterCounts(s[1..], p, x);
    }
  }

  lemma FilterAll<T(!new)>(s: seq<T>, p: T -> bool)
    requires forall x :: x in s ==> p(x)
    ensures Filter(s, p) == s
  {
    if s != [] {
      FilterAll(s[1..], p);
    }
  }

  lemma FilterHead<T(!new)>(s: seq<T>, p: T -> bool)
    requires s != []
    ensures Filter(s, p) == if p(s[0]) then [s[0]] + Filter(s[1..], p) else Filter(s[1..], p)
  {
    assert [] + Filter(s[1..], p) == Filter(s[1..], p);
  }

  lemma FilterEmpty<T(!new)>(p: T -> bool)
    ensures Filter([], p) == []
  {
  }

  lemma {:induction false} FilterFilter<T(!new)>(s: seq<T>, p: T -> bool, q: T -> bool, both: T -> bool)
    requires forall x :: both(x) <==> p(x) && q(x)
    ensures Filter(Filter(s, p), q) == Filter(s, both)
  {
    hide Filter;
    FilterEmpty(p);
    FilterEmpty(q);
    FilterEmpty(both);
    if s != [] {
      FilterFilter(s[1..], p, q, both);
      FilterHead(s, p);
      FilterHead(s, both);
      var rest := Filter(s[1..], p);
      if p(s[0]) {
        FilterConcat([s[0]], rest, q);
        FilterSingle(s[0], q);
        assert [] + Filter(rest, q) == Filter(rest, q);
      }
    }
  }

  lemma {:induction false} FilterNone<T(!new)>(s: seq<T>, p: T -> bool)
    requires forall k :: 0 <= k < |s| ==> !p(s[k])
    ensures Filter(s, p) == []
  {
    if s != [] {
      FilterNone(s[1..], p);
    }
  }

  lemma {:induction false} FilterSame<T(!new)>(s: seq<T>, p: T -> bool, q: T -> bool)
    requires forall x :: p(x) <==> q(x)
    ensures Filter(s, p) == Filter(s, q)
  {
    if s != [] {
      FilterSame(s[1..], p, q);
    }
  }

  lemma FilterSingle<T(!new)>(x: T, p: T -> bool)
    ensures Filter([x], p) == if p(x) then [x] else []
  {
    assert [x][1..] == [];
  }

  /** Array.prototype.find as an index: the first element that satisfies p. */
  function Find<T(!new)>(s: seq<T>, p: T -> bool): (r: Option<nat>)
    ensures r.Some? ==> r.value < |s| && p(s[r.value]) && forall i | 0 <= i < r.value :: !p(s[i])
    ensures r.None? ==> forall i | 0 <= i < |s| :: !p(s[i])
  {
    if s == [] then None
    else if p(s[0]) then Some(0)
    else
      var rest := Find(s[1..], p);
      if rest.None? then None else Some(rest.value + 1)
  }

  lemma Assoc<T>(a: seq<T>, b: seq<T>, c: seq<T>)
    ensures a + (b + c) == a + b + c
  {
  }

  lemma SplitAt<T>(s: seq<T>, i: nat)
    requires i < |s|
    ensures s == s[..i] + ([s[i]] + s[i + 1..])
  {
  }

  /** splice(i, 1) */
  function RemoveAt<T(!new)>(s: seq<T>, i: nat): (r: seq<T>)
    requires i < |s|
    ensures multiset(s) == multiset(r) + multiset{s[i]}
    ensures |r| == |s| - 1
  {
    assert s == s[..i] + [s[i]] + s[i + 1..];
    s[..i] + s[i + 1..]
  }

  /** How many elements carry the name a. */
  function Count<T(!new)>(s: seq<T>, name: T -> string, a: string): (n: nat)
    ensures n <= |s|
  {
    if s == [] then 0
    else Count(s[1..], name, a) + if name(s[0]) == a then 1 else 0
  }

  lemma CountPositive<T(!new)>(s: seq<T>, name: T -> string, a: string)
    ensures Count(s, name, a) > 0 <==> exists x :: x in s && name(x) == a
  {
    if s != [] {
      CountPositive(s[1..], name, a);
      assert s == [s[0]] + s[1..];
    }
  }

  lemma CountConcat<T(!new)>(s: seq<T>, t: seq<T>, name: T -> string, a: string)
    ensures Count(s + t, name, a) == Count(s, name, a) + Count(t, name, a)
  {
    if s == [] {
      assert s + t == t;
    } else {
      assert (s + t)[1..] == s[1..] + t;
      CountConcat(s[1..], t, name, a);
    }
  }

  lemma {:induction false} CountRemoveAt<T(!new)>(s: seq<T>, i: nat, name: T -> string, a: string)
    requires i < |s|
    ensures Count(RemoveAt(s, i), name, a) == Count(s, name, a) - if name(s[i]) == a then 1 else 0
  {
    assert [s[i]][1..] == [];
    assert Count([s[i]], name, a) == if name(s[i]) == a then 1 else 0;
    hide Count;
    CountConcat(s[..i], s[i + 1..], name, a);
    CountConcat([s[i]], s[i + 1..], name, a);
    CountConcat(s[..i], [s[i]] + s[i + 1..], name, a);
    SplitAt(s, i);
  }

  lemma CountFilter<T(!new)>(s: seq<T>, p: T -> bool, name: T -> string, a: string)
    ensures (forall x :: x in s && name(x) == a ==> p(x)) ==> Count(Filter(s, p), name, a) == Count(s, name, a)
    ensures (forall x :: x in s && name(x) == a ==> !p(x)) ==> Count(Filter(s, p), name, a) == 0
  {
    if s != [] {
      CountFilter(s[1..], p, name, a);
      CountConcat(if p(s[0]) then [s[0]] else [], Filter(s[1..], p), name, a);
      assert [s[0]][1..] == [];
    }
  }

  lemma CountNone<T(!new)>(s: seq<T>, name: T -> string, a: string)
    requires forall x :: x in s ==> name(x) != a
    ensures Count(s, name, a) == 0
  {
  }

  lemma CountSame<T(!new)>(s: seq<T>, name: T -> string, a: string)
    requires forall x :: x in s ==> name(x) == a
    ensures Count(s, name, a) == |s|
  {
  }

  ghost predicate Distinct<T>(s: seq<T>) {
    forall i, j :: 0 <= i < j < |s| ==> s[i] != s[j]
  }

  lemma DistinctByMultiset<T(!new)>(s: seq<T>)
    requires forall x :: multiset(s)[x] <= 1
    ensures Distinct(s)
  {
    forall i, j | 0 <= i < j < |s| ensures s[i] != s[j] {
      assert s == s[..i] + [s[i]] + s[i + 1..j] + [s[j]] + s[j + 1..];
      assert s[i] == s[j] ==> multiset(s)[s[i]] >= 2;
    }
  }

  lemma DistinctMultiset<T(!new)>(s: seq<T>)
    requires Distinct(s)
    ensures forall x :: multiset(s)[x] <= 1
  {
    if s != [] {
      assert s == [s[0]] + s[1..];
      DistinctMultiset(s[1..]);
      assert s[0] !in s[1..];
    }
  }

  /** Grow an insertion-ordered set by the elements of s. */
  function AddAll<T(==, !new)>(acc: seq<T>, s: seq<T>): (r: seq<T>)
    ensures forall x :: x in r <==> x in acc || x in s
    ensures |acc| <= |r| && r[..|acc|] == acc
  {
    if s == [] then acc
    else
      assert s == s[..|s| - 1] + [s[|s| - 1]];
      var r := AddAll(acc, s[..|s| - 1]);
      if s[|s| - 1] in r then r else r + [s[|s| - 1]]
  }

  lemma {:induction false} AddAllDistinct<T(!new)>(acc: seq<T>, s: seq<T>)
    requires Distinct(acc)
    ensures Distinct(AddAll(acc, s))
  {
    if s != [] {
      AddAllDistinct(acc, s[..|s| - 1]);
    }
  }

  /** No two elements carry the same name. */
  ghost predicate DistinctBy<T(!new)>(s: seq<T>, name: T -> string) {
    forall i, j :: 0 <= i < j < |s| ==> name(s[i]) != name(s[j])
  }

  lemma OneByName<T(!new)>(s: seq<T>, name: T -> string, a: T, b: T)
    requires DistinctBy(s, name) && a in s && b in s && name(a) == name(b)
    ensures a == b
  {
    var i :| 0 <= i < |s| && s[i] == a;
    var j :| 0 <= j < |s| && s[j] == b;
    assert !(i < j) && !(j < i);
  }
}
