/** Generic sequence operations behind the pages' array code: `filter`, the
    membership toggles built from `filter` and spread, de-duplication through a
    `Set`, `flatMap`, and `Array.prototype.sort` with a numeric comparator. */
module Lists {

  /** `s.filter(f)`. */
  function Filter<T(!new)>(s: seq<T>, f: T -> bool): (r: seq<T>)
    ensures |r| <= |s|
    ensures forall x :: x in r <==> x in s && f(x)
    decreases |s|
  {
    if s == [] then [] else (if f(s[0]) then [s[0]] else []) + Filter(s[1..], f)
  }

  /** `a` is `b` with some elements deleted and the rest kept in their original order. */
  predicate IsSubsequence<T(==,!new)>(a: seq<T>, b: seq<T>)
    decreases |b|
  {
    if a == [] then true
    else if b == [] then false
    else if a[0] == b[0] then IsSubsequence(a[1..], b[1..])
    else IsSubsequence(a, b[1..])
  }

  lemma {:induction false} SubsequenceLength<T(!new)>(a: seq<T>, b: seq<T>)
    requires IsSubsequence(a, b)
    ensures |a| <= |b|
    decreases |b|
  {
    if a != [] {
      if a[0] == b[0] {
        SubsequenceLength(a[1..], b[1..]);
      } else {
        SubsequenceLength(a, b[1..]);
      }
    }
  }

  lemma {:induction false} SubsequenceMembers<T(!new)>(a: seq<T>, b: seq<T>, x: T)
    requires IsSubsequence(a, b) && x in a
    ensures x in b
    decreases |b|
  {
    if a[0] == b[0] {
      if x != a[0] {
        SubsequenceMembers(a[1..], b[1..], x);
      }
    } else {
      SubsequenceMembers(a, b[1..], x);
    }
  }

  /** A filter keeps the surviving elements in their original order. */
  lemma {:induction false} FilterIsSubsequence<T(!new)>(s: seq<T>, f: T -> bool)
    ensures IsSubsequence(Filter(s, f), s)
    decreases |s|
  {
    if s != [] {
      var rest := Filter(s[1..], f);
      FilterIsSubsequence(s[1..], f);
      if f(s[0]) {
        assert Filter(s, f) == [s[0]] + rest;
        assert ([s[0]] + rest)[1..] == rest;
      } else {
        assert Filter(s, f) == rest;
        if rest != [] {
          assert rest[0] in rest;
          assert rest[0] != s[0];
        }
      }
    }
  }

  /** Filtering by a stronger condition gives a subsequence of filtering by a weaker one. */
  lemma {:induction false} FilterMonotone<T(!new)>(s: seq<T>, strong: T -> bool, weak: T -> bool)
    requires forall x :: strong(x) ==> weak(x)
    ensures IsSubsequence(Filter(s, strong), Filter(s, weak))
    decreases |s|
  {
    if s != [] {
      var a, b := Filter(s[1..], strong), Filter(s[1..], weak);
      FilterMonotone(s[1..], strong, weak);
      if strong(s[0]) {
        assert Filter(s, strong) == [s[0]] + a && Filter(s, weak) == [s[0]] + b;
        assert ([s[0]] + a)[1..] == a && ([s[0]] + b)[1..] == b;
      } else if weak(s[0]) {
        assert Filter(s, strong) == a && Filter(s, weak) == [s[0]] + b;
        if a != [] {
          assert a[0] in a;
          assert a[0] != s[0];
          assert ([s[0]] + b)[1..] == b;
        }
      } else {
        assert Filter(s, strong) == a && Filter(s, weak) == b;
      }
    }
  }

  /** A filter keeps every copy of an element that passes and no copy of one that fails. */
  lemma {:induction false} FilterCount<T(!new)>(s: seq<T>, f: T -> bool, x: T)
    ensures multiset(Filter(s, f))[x] == if f(x) then multiset(s)[x] else 0
    decreases |s|
  {
    if s != [] {
      FilterCount(s[1..], f, x);
      assert s == [s[0]] + s[1..];
    }
  }

  /** Two complementary filters split a sequence into two parts that add up to all of it. */
  lemma {:induction false} FilterPartition<T(!new)>(s: seq<T>, f: T -> bool, g: T -> bool)
    requires forall x :: g(x) == !f(x)
    ensures multiset(Filter(s, f)) + multiset(Filter(s, g)) == multiset(s)
    ensures forall x :: !(x in Filter(s, f) && x in Filter(s, g))
    decreases |s|
  {
    if s != [] {
      FilterPartition(s[1..], f, g);
      assert s == [s[0]] + s[1..];
    }
  }

  lemma {:induction false} FilterKeepsAll<T(!new)>(s: seq<T>, f: T -> bool)
    requires forall x :: x in s ==> f(x)
    ensures Filter(s, f) == s
    decreases |s|
  {
    if s != [] {
      FilterKeepsAll(s[1..], f);
      assert [s[0]] + s[1..] == s;
    }
  }

  /** `s.filter(y => y !== x)`. */
  function RemoveAll<T(==,!new)>(s: seq<T>, x: T): (r: seq<T>)
    ensures x !in r
    ensures IsSubsequence(r, s)
    ensures forall y :: y != x ==> multiset(r)[y] == multiset(s)[y]
    decreases |s|
  {
    if s == [] then []
    else
      var rest := RemoveAll(s[1..], x);
      assert s == [s[0]] + s[1..];
      if s[0] == x then
        assert rest != [] ==> rest[0] in rest;
        rest
      else
        assert ([s[0]] + rest)[1..] == rest;
        [s[0]] + rest
  }

  lemma {:induction false} RemoveAllAbsent<T(!new)>(s: seq<T>, x: T)
    requires x !in s
    ensures RemoveAll(s, x) == s
    decreases |s|
  {
    if s != [] {
      RemoveAllAbsent(s[1..], x);
      assert [s[0]] + s[1..] == s;
    }
  }

  lemma {:induction false} RemoveAllAppend<T(!new)>(s: seq<T>, t: seq<T>, x: T)
    ensures RemoveAll(s + t, x) == RemoveAll(s, x) + RemoveAll(t, x)
    decreases |s|
  {
    if s != [] {
      assert (s + t)[1..] == s[1..] + t;
      RemoveAllAppend(s[1..], t, x);
    } else {
      assert s + t == t;
    }
  }

  /** The membership flip behind `toggleTopic` and `toggleTag`: a present value loses
      every occurrence, an absent one is appended. */
  function Toggle<T(==,!new)>(s: seq<T>, x: T): (r: seq<T>)
    ensures x in r <==> x !in s
    ensures forall y | y != x :: y in r <==> y in s
    ensures x in s ==> IsSubsequence(r, s)
    ensures x in s ==> forall y :: y != x ==> multiset(r)[y] == multiset(s)[y]
    ensures x !in s ==> r == s + [x]
  {
    if x in s then RemoveAllKeepsOthers(s, x); RemoveAll(s, x) else s + [x]
  }

  /** Removing `x` keeps every other value that was there. */
  lemma RemoveAllKeepsOthers<T(!new)>(s: seq<T>, x: T)
    ensures forall y | y != x :: y in RemoveAll(s, x) <==> y in s
  {
    var r := RemoveAll(s, x);
    forall y | y != x
      ensures y in r <==> y in s
    {
      assert multiset(r)[y] == multiset(s)[y];
      assert y in r <==> multiset(r)[y] > 0;
      assert y in s <==> multiset(s)[y] > 0;
    }
  }

  /** Toggling an absent value twice gives the original sequence back. */
  lemma ToggleTwice<T(!new)>(s: seq<T>, x: T)
    requires x !in s
    ensures Toggle(Toggle(s, x), x) == s
  {
    RemoveAllAppend(s, [x], x);
    RemoveAllAbsent(s, x);
    assert RemoveAll([x], x) == [];
  }

  /** `ss.flatMap(s => s)`. */
  function Flatten<T(!new)>(ss: seq<seq<T>>): (r: seq<T>)
    ensures forall x :: x in r <==> exists k | 0 <= k < |ss| :: x in ss[k]
    decreases |ss|
  {
    if ss == [] then []
    else
      var rest := Flatten(ss[1..]);
      assert forall x, k | 0 <= k < |ss| - 1 :: x in ss[1..][k] <==> x in ss[k + 1];
      ss[0] + rest
  }

  /** The position of the first occurrence of `x` in `s`. */
  function FirstIndex<T(==,!new)>(s: seq<T>, x: T): (i: nat)
    requires x in s
    ensures i < |s| && s[i] == x
    ensures forall j | 0 <= j < i :: s[j] != x
  {
    if s[0] == x then 0 else 1 + FirstIndex(s[1..], x)
  }

  /** `Array.from(new Set(s))`: each distinct value once, in order of first occurrence. */
  function Distinct<T(==,!new)>(s: seq<T>): (r: seq<T>)
    ensures forall x :: x in r <==> x in s
    ensures forall i, j | 0 <= i < j < |r| :: r[i] != r[j]
    decreases |s|
  {
    if s == [] then []
    else
      var init := s[..|s| - 1];
      var d := Distinct(init);
      assert forall x :: x in s <==> x in init || x == s[|s| - 1];
      if s[|s| - 1] in d then d else d + [s[|s| - 1]]
  }

  lemma FirstIndexInPrefix<T(!new)>(s: seq<T>, x: T)
    requires s != [] && x in s[..|s| - 1]
    ensures FirstIndex(s, x) == FirstIndex(s[..|s| - 1], x)
  {
    var i, k := FirstIndex(s, x), FirstIndex(s[..|s| - 1], x);
    assert s[k] == x;
    assert s[..|s| - 1][i] == x || i >= |s| - 1;
  }

  /** All the distinct values, pairwise, come in the order of their first occurrences. */
  lemma DistinctOrdered<T(!new)>(s: seq<T>)
    ensures forall i, j | 0 <= i < j < |Distinct(s)| ::
      FirstIndex(s, Distinct(s)[i]) < FirstIndex(s, Distinct(s)[j])
  {
    forall i, j | 0 <= i < j < |Distinct(s)|
      ensures FirstIndex(s, Distinct(s)[i]) < FirstIndex(s, Distinct(s)[j])
    {
      DistinctFirstOccurrenceOrder(s, i, j);
    }
  }

  /** The distinct values come in the order of their first occurrences. */
  lemma {:induction false} DistinctFirstOccurrenceOrder<T(!new)>(s: seq<T>, i: nat, j: nat)
    requires i < j < |Distinct(s)|
    ensures FirstIndex(s, Distinct(s)[i]) < FirstIndex(s, Distinct(s)[j])
    decreases |s|
  {
    var init := s[..|s| - 1];
    var d := Distinct(init);
    var r := Distinct(s);
    assert r[i] in r && r[j] in r;
    if j < |d| {
      assert r[i] == d[i] && r[j] == d[j];
      assert d[i] in d && d[j] in d;
      DistinctFirstOccurrenceOrder(init, i, j);
      FirstIndexInPrefix(s, d[i]);
      FirstIndexInPrefix(s, d[j]);
    } else {
      assert r[j] == s[|s| - 1] && r[j] !in init;
      assert r[i] == d[i] && d[i] in d;
      FirstIndexInPrefix(s, d[i]);
      assert FirstIndex(s, r[j]) == |s| - 1;
    }
  }

  predicate SortedByKey<T(!new)>(s: seq<T>, key: T -> int) {
    forall i, j | 0 <= i < j < |s| :: key(s[i]) <= key(s[j])
  }

  /** Every element of `t` has a key of at least `lo` when `t` is a permutation of such a `u`. */
  lemma KeyLowerBound<T(!new)>(lo: int, t: seq<T>, u: seq<T>, key: T -> int)
    requires multiset(t) == multiset(u)
    requires forall k | 0 <= k < |u| :: lo <= key(u[k])
    ensures forall k | 0 <= k < |t| :: lo <= key(t[k])
  {
    forall k | 0 <= k < |t|
      ensures lo <= key(t[k])
    {
      assert t[k] in multiset(u);
      var m :| 0 <= m < |u| && u[m] == t[k];
    }
  }

  function InsertByKey<T(!new)>(x: T, s: seq<T>, key: T -> int): (r: seq<T>)
    requires SortedByKey(s, key)
    ensures SortedByKey(r, key)
    ensures multiset(r) == multiset(s) + multiset{x}
    decreases |s|
  {
    if s == [] || key(x) <= key(s[0]) then
      SortedCons(x, s, key);
      [x] + s
    else
      var rest := InsertByKey(x, s[1..], key);
      InsertedBound(x, s, rest, key);
      SortedCons(s[0], rest, key);
      assert multiset(s) == multiset{s[0]} + multiset(s[1..]) by {
        assert s == [s[0]] + s[1..];
      }
      [s[0]] + rest
  }

  /** A head no larger than anything after it keeps a sorted list sorted. */
  lemma SortedCons<T(!new)>(h: T, s: seq<T>, key: T -> int)
    requires SortedByKey(s, key)
    requires s != [] ==> key(h) <= key(s[0])
    ensures SortedByKey([h] + s, key)
  {
    var r := [h] + s;
    forall i, j | 0 <= i < j < |r|
      ensures key(r[i]) <= key(r[j])
    {
      if i == 0 {
        assert r[j] == s[j - 1] && key(s[0]) <= key(s[j - 1]);
      } else {
        assert r[i] == s[i - 1] && r[j] == s[j - 1];
      }
    }
  }

  /** After the head of a sorted list, `x` inserted into the tail: everything in the
      result is at least the head's key. */
  lemma InsertedBound<T(!new)>(x: T, s: seq<T>, rest: seq<T>, key: T -> int)
    requires SortedByKey(s, key) && s != [] && key(s[0]) < key(x)
    requires multiset(rest) == multiset(s[1..]) + multiset{x}
    ensures rest != [] ==> key(s[0]) <= key(rest[0])
  {
    var u := s[1..] + [x];
    assert forall k | 0 <= k < |u| :: key(s[0]) <= key(u[k]) by {
      assert forall k | 0 <= k < |s| - 1 :: u[k] == s[k + 1];
    }
    KeyLowerBound(key(s[0]), rest, u, key);
  }

  /** `Array.prototype.sort` with the comparator `(a, b) => key(a) - key(b)`, modelled as
      an insertion sort; only the order of keys and the permutation are promised. */
  function SortByKey<T(!new)>(s: seq<T>, key: T -> int): (r: seq<T>)
    ensures SortedByKey(r, key)
    ensures multiset(r) == multiset(s)
    decreases |s|
  {
    if s == [] then []
    else
      assert s == [s[0]] + s[1..];
      InsertByKey(s[0], SortByKey(s[1..], key), key)
  }
}
