// What `WHERE` and `ORDER BY` do to a table: filtering keeps the rows a
// condition accepts, in table order; ordering returns the same rows sorted by
// a total preorder (SQLite leaves the order of ties unspecified, so only
// "sorted, and the same rows" is promised).

module Ordering {

  /** A total preorder: any two elements compare, and comparison chains. */
  ghost predicate TotalPreorder<T(!new)>(le: (T, T) -> bool)
  {
    && (forall a, b :: le(a, b) || le(b, a))
    && (forall a, b, c :: le(a, b) && le(b, c) ==> le(a, c))
  }

  /** Compare by a key. */
  function ByKey<T(!new), K(!new)>(key: T -> K, le: (K, K) -> bool): (T, T) -> bool
  {
    (a: T, b: T) => le(key(a), key(b))
  }

  /** The reverse order, as `DESC` asks. */
  function Descending<T(!new)>(le: (T, T) -> bool): (T, T) -> bool
  {
    (a: T, b: T) => le(b, a)
  }

  /** Order by `first`, and break its ties by `second`, as `ORDER BY x, y` does. */
  function ThenBy<T(!new)>(first: (T, T) -> bool, second: (T, T) -> bool): (T, T) -> bool
  {
    (a: T, b: T) => first(a, b) && (!first(b, a) || second(a, b))
  }

  lemma ByKeyTotal<T(!new), K(!new)>(key: T -> K, le: (K, K) -> bool)
    requires TotalPreorder(le)
    ensures TotalPreorder(ByKey(key, le))
  {
    var o := ByKey(key, le);
    forall a, b, c | o(a, b) && o(b, c) ensures o(a, c) {
      assert le(key(a), key(b)) && le(key(b), key(c));
    }
  }

  lemma DescendingTotal<T(!new)>(le: (T, T) -> bool)
    requires TotalPreorder(le)
    ensures TotalPreorder(Descending(le))
  {
    var o := Descending(le);
    forall a, b, c | o(a, b) && o(b, c) ensures o(a, c) {
      assert le(c, b) && le(b, a);
    }
  }

  lemma ThenByTotal<T(!new)>(first: (T, T) -> bool, second: (T, T) -> bool)
    requires TotalPreorder(first) && TotalPreorder(second)
    ensures TotalPreorder(ThenBy(first, second))
  {
    var o := ThenBy(first, second);
    forall a, b ensures o(a, b) || o(b, a) {
      assert first(a, b) || first(b, a);
      assert second(a, b) || second(b, a);
    }
    forall a, b, c | o(a, b) && o(b, c) ensures o(a, c) {
      assert first(a, b) && first(b, c);
      if first(c, a) {
        assert first(b, a) && first(c, b);
        assert second(a, b) && second(b, c);
      }
    }
  }

  /** Every earlier element is at most every later one. */
  predicate Sorted<T(!new)>(s: seq<T>, le: (T, T) -> bool)
  {
    forall i, j :: 0 <= i < j < |s| ==> le(s[i], s[j])
  }

  function Insert<T(!new)>(x: T, s: seq<T>, le: (T, T) -> bool): (r: seq<T>)
    requires TotalPreorder(le) && Sorted(s, le)
    ensures multiset(r) == multiset(s) + multiset{x}
    ensures Sorted(r, le)
  {
    if s == [] then [x]
    else if le(x, s[0]) then [x] + s
    else
      var tail := Insert(x, s[1..], le);
      assert s == [s[0]] + s[1..];
      assert le(s[0], x);
      forall k | 0 <= k < |tail| ensures le(s[0], tail[k]) {
        assert tail[k] in multiset(tail);
        if tail[k] != x {
          assert tail[k] in multiset(s[1..]);
          var j :| 0 <= j < |s[1..]| && s[1..][j] == tail[k];
          assert le(s[0], s[j + 1]);
        }
      }
      [s[0]] + tail
  }

  /** `ORDER BY`: the same rows, sorted. Insertion sort picks one order for the ties. */
  function SortBy<T(!new)>(s: seq<T>, le: (T, T) -> bool): (r: seq<T>)
    requires TotalPreorder(le)
    ensures multiset(r) == multiset(s)
    ensures Sorted(r, le)
  {
    if s == [] then []
    else
      assert s == [s[0]] + s[1..];
      Insert(s[0], SortBy(s[1..], le), le)
  }

  /** `WHERE`: the rows the condition accepts, in table order. */
  function Filter<T(!new)>(s: seq<T>, p: T -> bool): (r: seq<T>)
    ensures forall x :: multiset(r)[x] == if p(x) then multiset(s)[x] else 0
    ensures forall k :: 0 <= k < |r| ==> p(r[k]) && r[k] in s
    ensures |r| <= |s|
  {
    if s == [] then []
    else
      assert s == [s[0]] + s[1..];
      if p(s[0]) then [s[0]] + Filter(s[1..], p) else Filter(s[1..], p)
  }

  lemma FilterKeeps<T(!new)>(s: seq<T>, p: T -> bool, x: T)
    requires x in s && p(x)
    ensures x in Filter(s, p)
  {
    assert multiset(Filter(s, p))[x] == multiset(s)[x] > 0;
  }

  lemma {:induction false} FilterAppend<T(!new)>(s: seq<T>, t: seq<T>, p: T -> bool)
    ensures Filter(s + t, p) == Filter(s, p) + Filter(t, p)
  {
    if s == [] {
      assert s + t == t;
    } else {
      assert (s + t)[0] == s[0] && (s + t)[1..] == s[1..] + t;
      FilterAppend(s[1..], t, p);
    }
  }

  lemma FilterNone<T(!new)>(s: seq<T>, p: T -> bool)
    requires forall k :: 0 <= k < |s| ==> !p(s[k])
    ensures Filter(s, p) == []
  {
    if s != [] {
      FilterNone(s[1..], p);
    }
  }

  lemma FilterAll<T(!new)>(s: seq<T>, p: T -> bool)
    requires forall k :: 0 <= k < |s| ==> p(s[k])
    ensures Filter(s, p) == s
  {
    if s != [] {
      FilterAll(s[1..], p);
      assert s == [s[0]] + s[1..];
    }
  }

  /** Two sequences with the same elements, counted with multiplicity, have the same members. */
  lemma SameMembers<T>(a: seq<T>, b: seq<T>)
    requires multiset(a) == multiset(b)
    ensures |a| == |b| && forall x :: x in a <==> x in b
  {
    assert |multiset(a)| == |multiset(b)|;
    forall x ensures x in a <==> x in b {
      assert x in a <==> x in multiset(a);
      assert x in b <==> x in multiset(b);
    }
  }

  /** `COUNT(*) ... WHERE`. */
  function Count<T(!new)>(s: seq<T>, p: T -> bool): (n: nat)
    ensures n == |Filter(s, p)|
  {
    if s == [] then 0 else (if p(s[0]) then 1 else 0) + Count(s[1..], p)
  }

  /** A weaker condition counts at least as many rows. */
  lemma {:induction false} CountMonotone<T(!new)>(s: seq<T>, p: T -> bool, q: T -> bool)
    requires forall x :: p(x) ==> q(x)
    ensures Count(s, p) <= Count(s, q)
  {
    if s != [] {
      CountMonotone(s[1..], p, q);
    }
  }

  /** `SELECT <columns>`: each row turned into its projection, in order. */
  function Project<T, U>(s: seq<T>, f: T -> U): (r: seq<U>)
    ensures |r| == |s|
    ensures forall k :: 0 <= k < |s| ==> r[k] == f(s[k])
  {
    seq(|s|, k requires 0 <= k < |s| => f(s[k]))
  }

  /** The projection of the rows a condition accepts holds exactly the projections
      of the accepted rows. */
  lemma ProjectFilter<T(!new), U>(s: seq<T>, p: T -> bool, f: T -> U)
    ensures forall v :: v in Project(Filter(s, p), f) <==> exists x :: x in s && p(x) && v == f(x)
  {
    var rows := Filter(s, p);
    var r := Project(rows, f);
    forall v | v in r ensures exists x :: x in s && p(x) && v == f(x) {
      var k :| 0 <= k < |r| && r[k] == v;
      assert rows[k] in s && p(rows[k]);
    }
    forall x | x in s && p(x) ensures f(x) in r {
      FilterKeeps(s, p, x);
      var k :| 0 <= k < |rows| && rows[k] == x;
      assert r[k] == f(x);
    }
  }
}
