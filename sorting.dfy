/**
 * ORDER BY as a function: an insertion sort over a total preorder `geq`,
 * where `geq(a, b)` means "a may come before b".  The database leaves the order
 * of ties open; the sort fixes one, and its contract promises only what ORDER BY does:
 * a permutation of the input in which no element precedes one it must follow.
 */
module Sorting {
  import opened Base

  ghost predicate TotalPreorder<T(!new)>(geq: (T, T) -> bool)
  {
    && (forall a, b :: geq(a, b) || geq(b, a))
    && (forall a, b, c :: geq(a, b) && geq(b, c) ==> geq(a, c))
  }

  predicate Ordered<T>(s: seq<T>, geq: (T, T) -> bool)
  {
    forall i, j :: 0 <= i < j < |s| ==> geq(s[i], s[j])
  }

  /** Putting in front of an ordered sequence an element that may precede all of it keeps it ordered. */
  lemma PrependOrdered<T>(y: T, r: seq<T>, geq: (T, T) -> bool)
    requires Ordered(r, geq)
    requires forall z :: z in r ==> geq(y, z)
    ensures Ordered([y] + r, geq)
  {
    forall i, j | 0 <= i < j < |[y] + r| ensures geq(([y] + r)[i], ([y] + r)[j]) {
      if i == 0 {
        assert ([y] + r)[j] == r[j - 1];
        assert r[j - 1] in r;
      } else {
        assert ([y] + r)[i] == r[i - 1] && ([y] + r)[j] == r[j - 1];
      }
    }
  }

  /** The head of an ordered sequence may precede every element of its tail. */
  lemma HeadFirst<T>(s: seq<T>, geq: (T, T) -> bool)
    requires s != [] && Ordered(s, geq)
    ensures forall z :: z in s[1..] ==> geq(s[0], z)
  {
    forall z | z in s[1..] ensures geq(s[0], z) {
      var k :| 0 <= k < |s[1..]| && s[1..][k] == z;
      assert s[k + 1] == z;
    }
  }

  /** Keeping only some elements of an ordered sequence leaves it ordered. */
  lemma {:induction false} FilterOrdered<T(!new)>(s: seq<T>, p: T -> bool, geq: (T, T) -> bool)
    requires Ordered(s, geq)
    ensures Ordered(Filter(s, p), geq)
  {
    if s != [] {
      var rest := Filter(s[1..], p);
      assert Ordered(s[1..], geq) by {
        forall i, j | 0 <= i < j < |s[1..]| ensures geq(s[1..][i], s[1..][j]) {
          assert s[1..][i] == s[i + 1] && s[1..][j] == s[j + 1];
        }
      }
      FilterOrdered(s[1..], p, geq);
      if p(s[0]) {
        HeadFirst(s, geq);
        PrependOrdered(s[0], rest, geq);
      }
    }
  }

  function Insert<T(!new)>(x: T, s: seq<T>, geq: (T, T) -> bool): (r: seq<T>)
    requires TotalPreorder(geq)
    requires Ordered(s, geq)
    ensures multiset(r) == multiset(s) + multiset{x}
    ensures Ordered(r, geq)
  {
    if s == [] then [x]
    else if geq(x, s[0]) then
      HeadFirst(s, geq);
      PrependOrdered(x, s, geq);
      [x] + s
    else
      var rest := Insert(x, s[1..], geq);
      HeadFirst(s, geq);
      assert s == [s[0]] + s[1..];
      assert forall z :: z in rest ==> z in multiset(rest);
      PrependOrdered(s[0], rest, geq);
      [s[0]] + rest
  }

  /** `s` rearranged so that it is ordered by `geq`. */
  function Sort<T(!new)>(s: seq<T>, geq: (T, T) -> bool): (r: seq<T>)
    requires TotalPreorder(geq)
    ensures multiset(r) == multiset(s)
    ensures Ordered(r, geq)
  {
    if s == [] then []
    else
      assert s == [s[0]] + s[1..];
      Insert(s[0], Sort(s[1..], geq), geq)
  }

  /** In an ordered sequence, each of the first k elements may precede each of the rest. */
  lemma {:induction false} PrefixFirst<T>(s: seq<T>, k: nat, geq: (T, T) -> bool)
    requires k <= |s| && Ordered(s, geq)
    ensures Ordered(s[..k], geq)
    ensures multiset(s[..k]) <= multiset(s)
    ensures forall a, b :: a in s[..k] && b in multiset(s) - multiset(s[..k]) ==> geq(a, b)
  {
    assert s == s[..k] + s[k..];
    assert multiset(s) - multiset(s[..k]) == multiset(s[k..]);
    forall a, b | a in s[..k] && b in multiset(s[k..]) ensures geq(a, b) {
      var i :| 0 <= i < k && s[..k][i] == a;
      var j :| 0 <= j < |s[k..]| && s[k..][j] == b;
      assert s[i] == a && s[k + j] == b;
    }
  }
}
