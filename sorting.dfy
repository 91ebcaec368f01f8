/**
 * `Array.prototype.sort` with a comparator. The JavaScript sort is stable, so for a comparator that
 * is a total preorder its result is fully determined: it is the stable insertion sort below.
 * `le(a, b)` holds when the comparator does not order `b` strictly before `a`.
 */
module Sorting {

  ghost predicate TotalPreorder<T(!new)>(le: (T, T) -> bool) {
    && (forall a, b :: le(a, b) || le(b, a))
    && (forall a, b, c :: le(a, b) && le(b, c) ==> le(a, c))
  }

  ghost predicate SortedBy<T>(s: seq<T>, le: (T, T) -> bool) {
    forall i, j :: 0 <= i < j < |s| ==> le(s[i], s[j])
  }

  /** Puts `x` before the first element it may precede; equal elements that follow `x` stay after it. */
  function Insert<T>(x: T, s: seq<T>, le: (T, T) -> bool): (r: seq<T>)
    ensures |r| == |s| + 1
    ensures multiset(r) == multiset(s) + multiset{x}
  {
    if s == [] || le(x, s[0]) then [x] + s
    else
      assert s == [s[0]] + s[1..];
      [s[0]] + Insert(x, s[1..], le)
  }

  /** `le` is a total preorder on the elements of `dom`. */
  ghost predicate TotalPreorderOn<T>(le: (T, T) -> bool, dom: seq<T>) {
    && (forall a, b :: a in dom && b in dom ==> le(a, b) || le(b, a))
    && (forall a, b, c :: a in dom && b in dom && c in dom && le(a, b) && le(b, c) ==> le(a, c))
  }

  lemma {:induction false} InsertSorted<T>(x: T, s: seq<T>, le: (T, T) -> bool, dom: seq<T>)
    requires TotalPreorderOn(le, dom) && x in dom && (forall y :: y in s ==> y in dom)
    requires SortedBy(s, le)
    ensures SortedBy(Insert(x, s, le), le)
  {
    if s != [] && !le(x, s[0]) {
      InsertSorted(x, s[1..], le, dom);
      var r := Insert(x, s, le);
      var t := Insert(x, s[1..], le);
      assert r == [s[0]] + t;
      forall j | 1 <= j < |r| ensures le(s[0], r[j]) {
        assert r[j] in multiset(t);
        assert r[j] == x || r[j] in multiset(s[1..]);
        if r[j] != x {
          var k :| 0 <= k < |s[1..]| && s[1..][k] == r[j];
          assert s[k + 1] == r[j];
        }
      }
    }
  }

  /** The stable sort of `s` under `le`: a permutation of `s`, ordered by `le`. */
  function SortBy<T>(s: seq<T>, le: (T, T) -> bool): (r: seq<T>)
    ensures |r| == |s|
    ensures multiset(r) == multiset(s)
  {
    if s == [] then []
    else
      assert s == [s[0]] + s[1..];
      Insert(s[0], SortBy(s[1..], le), le)
  }

  lemma {:induction false} SortBySortedIn<T>(s: seq<T>, le: (T, T) -> bool, dom: seq<T>)
    requires TotalPreorderOn(le, dom) && (forall y :: y in s ==> y in dom)
    ensures SortedBy(SortBy(s, le), le)
  {
    if s != [] {
      SortBySortedIn(s[1..], le, dom);
      var t := SortBy(s[1..], le);
      forall y | y in t
        ensures y in dom
      {
        assert y in multiset(t);
      }
      InsertSorted(s[0], t, le, dom);
    }
  }

  /** A comparator that is a total preorder on the elements being sorted yields a sorted result. */
  lemma SortBySortedOn<T>(s: seq<T>, le: (T, T) -> bool)
    requires TotalPreorderOn(le, s)
    ensures SortedBy(SortBy(s, le), le)
  {
    SortBySortedIn(s, le, s);
  }

  lemma SortBySorted<T(!new)>(s: seq<T>, le: (T, T) -> bool)
    requires TotalPreorder(le)
    ensures SortedBy(SortBy(s, le), le)
  {
    SortBySortedIn(s, le, s);
  }

  /** In a sorted sequence each element of a prefix may precede each element after the prefix. */
  lemma SortedSplit<T>(s: seq<T>, k: nat, le: (T, T) -> bool)
    requires SortedBy(s, le) && k <= |s|
    ensures SortedBy(s[..k], le)
    ensures forall x, y :: x in s[k..] && y in s[..k] ==> le(y, x)
  {
    forall x, y | x in s[k..] && y in s[..k]
      ensures le(y, x)
    {
      var a :| 0 <= a < |s[k..]| && s[k..][a] == x;
      var b :| 0 <= b < k && s[..k][b] == y;
      assert s[b] == y && s[k + a] == x;
    }
  }
}
