/** What qsort and std::sort do to an array prefix, for elements compared by an integer rank. */
module Sorting {
  import opened Common

  ghost predicate Ordered<T>(s: seq<T>, rank: T -> int) {
    forall i, j | 0 <= i < j < |s| :: rank(s[i]) <= rank(s[j])
  }

  ghost predicate StrictlyOrdered<T>(s: seq<T>, rank: T -> int) {
    forall i, j | 0 <= i < j < |s| :: rank(s[i]) < rank(s[j])
  }

  function Insert<T>(x: T, s: seq<T>, rank: T -> int): (r: seq<T>) {
    if s == [] || rank(x) <= rank(s[0]) then [x] + s else [s[0]] + Insert(x, s[1..], rank)
  }

  function Sort<T>(s: seq<T>, rank: T -> int): (r: seq<T>)
    ensures |r| == |s|
  {
    if s == [] then []
    else
      var r := Insert(s[0], Sort(s[1..], rank), rank);
      InsertPermutes(s[0], Sort(s[1..], rank), rank);
      r
  }

  lemma {:induction false} InsertPermutes<T>(x: T, s: seq<T>, rank: T -> int)
    ensures |Insert(x, s, rank)| == |s| + 1
    ensures multiset(Insert(x, s, rank)) == multiset{x} + multiset(s)
  {
    if !(s == [] || rank(x) <= rank(s[0])) {
      InsertPermutes(x, s[1..], rank);
      assert s == [s[0]] + s[1..];
    }
  }

  lemma {:induction false} InsertOrders<T>(x: T, s: seq<T>, rank: T -> int)
    requires Ordered(s, rank)
    ensures Ordered(Insert(x, s, rank), rank)
    ensures forall y | y in Insert(x, s, rank) :: y == x || y in s
  {
    if !(s == [] || rank(x) <= rank(s[0])) {
      InsertOrders(x, s[1..], rank);
      var r := Insert(x, s[1..], rank);
      forall j | 0 <= j < |r|
        ensures rank(s[0]) <= rank(r[j])
      {
        assert r[j] in r;
      }
    }
  }

  lemma {:induction false} SortPermutes<T>(s: seq<T>, rank: T -> int)
    ensures multiset(Sort(s, rank)) == multiset(s)
  {
    if s != [] {
      SortPermutes(s[1..], rank);
      InsertPermutes(s[0], Sort(s[1..], rank), rank);
      assert s == [s[0]] + s[1..];
    }
  }

  lemma {:induction false} SortOrders<T>(s: seq<T>, rank: T -> int)
    ensures Ordered(Sort(s, rank), rank)
  {
    if s != [] {
      SortOrders(s[1..], rank);
      InsertOrders(s[0], Sort(s[1..], rank), rank);
    }
  }

  /** Sorting orders and only permutes. */
  lemma SortSorts<T>(s: seq<T>, rank: T -> int)
    ensures Ordered(Sort(s, rank), rank)
    ensures multiset(Sort(s, rank)) == multiset(s)
    ensures Elements(Sort(s, rank)) == Elements(s)
  {
    hide Sort, Ordered;
    SortOrders(s, rank);
    SortPermutes(s, rank);
    SameMultisetSameElements(Sort(s, rank), s);
  }

  lemma SameMultisetSameElements<T>(s: seq<T>, t: seq<T>)
    requires multiset(s) == multiset(t)
    ensures Elements(s) == Elements(t)
  {
    forall x
      ensures x in s <==> x in t
    {
      assert x in s <==> x in multiset(s);
      assert x in t <==> x in multiset(t);
    }
  }

  /** Sorts the first `n` elements of an array. */
  method SortPrefix<T>(a: array<T>, n: nat, rank: T -> int)
    requires n <= a.Length
    modifies a
    ensures a[..n] == Sort(old(a[..n]), rank) && a[n..] == old(a[n..])
  {
    var sorted := Sort(a[..n], rank);
    for i := 0 to n
      invariant forall k | 0 <= k < i :: a[k] == sorted[k]
      invariant forall k | n <= k < a.Length :: a[k] == old(a[k])
    {
      a[i] := sorted[i];
    }
  }

  /** A strictly ordered sequence is determined by its set of elements. */
  lemma {:induction false} StrictlyOrderedUnique<T>(s: seq<T>, t: seq<T>, rank: T -> int)
    requires StrictlyOrdered(s, rank) && StrictlyOrdered(t, rank) && Elements(s) == Elements(t)
    ensures s == t
  {
    if s == [] {
      assert Elements(s) == {};
      NoElements(t);
    } else {
      assert s[0] in Elements(t);
      assert t != [] && t[0] in Elements(s);
      var i :| 0 <= i < |t| && t[i] == s[0];
      var j :| 0 <= j < |s| && s[j] == t[0];
      assert rank(s[0]) <= rank(s[j]) && rank(t[0]) <= rank(t[i]);
      assert s[0] == t[0];
      TailElements(s, rank);
      TailElements(t, rank);
      StrictlyOrderedUnique(s[1..], t[1..], rank);
      assert s == [s[0]] + s[1..] && t == [t[0]] + t[1..];
    }
  }

  lemma TailElements<T>(s: seq<T>, rank: T -> int)
    requires s != [] && StrictlyOrdered(s, rank)
    ensures Elements(s[1..]) == Elements(s) - {s[0]}
  {
    assert s == [s[0]] + s[1..];
    forall x
      ensures x in s[1..] <==> x in s && x != s[0]
    {
      if x in s[1..] {
        var i :| 0 <= i < |s[1..]| && s[1..][i] == x;
        assert rank(s[0]) < rank(s[i + 1]);
      }
    }
  }
}
