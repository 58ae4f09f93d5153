/** Vocabulary shared by every component: machine-sized value types, Option and
    the capacity cut that fixed arrays impose. */
module Common {

  datatype Option<+T> = None | Some(value: T)

  /** uint8_t */
  type Byte = x: int | 0 <= x < 0x100

  /** tiny_erd_t is a uint16_t. */
  type Erd = x: int | 0 <= x < 0x1_0000

  function Min(a: int, b: int): int {
    if a <= b then a else b
  }

  /** What is left of `s` when only `capacity` slots exist. */
  function Cut<T>(s: seq<T>, capacity: nat): (r: seq<T>) {
    if |s| <= capacity then s else s[..capacity]
  }

  /** The elements of a sequence as a set. */
  ghost function Elements<T>(s: seq<T>): set<T> {
    set x | x in s
  }

  lemma NoElements<T>(s: seq<T>)
    ensures s != [] ==> Elements(s) != {}
  {
    if s != [] { assert s[0] in Elements(s); }
  }

  lemma ElementsOfAppend<T>(s: seq<T>, t: seq<T>)
    ensures Elements(s + t) == Elements(s) + Elements(t)
  {
    assert forall x :: x in s + t <==> x in s || x in t;
  }
}

/** Order-preserving duplicate removal into a list of bounded capacity: the rule behind the
    polling list, the feature-bit ERD list and the additions to the ERD registry. */
module Dedup {
  import opened Common

  ghost predicate Distinct<T>(s: seq<T>) {
    forall i, j | 0 <= i < j < |s| :: s[i] != s[j]
  }

  /** `s` with every repeated element dropped, first occurrences kept in place. */
  function Unique<T(==)>(s: seq<T>): (u: seq<T>) {
    if s == [] then []
    else
      var u := Unique(s[..|s| - 1]);
      if s[|s| - 1] in u then u else u + [s[|s| - 1]]
  }

  /** One bounded insertion, as the scanning loops of the source perform it. */
  function AddUnique<T(==)>(list: seq<T>, x: T, capacity: nat): seq<T> {
    if x in list || |list| >= capacity then list else list + [x]
  }

  function AddAllUnique<T(==)>(list: seq<T>, xs: seq<T>, capacity: nat): seq<T>
    decreases |xs|
  {
    if xs == [] then list
    else AddAllUnique(AddUnique(list, xs[0], capacity), xs[1..], capacity)
  }

  /** Position of the first occurrence of `x`. */
  function FirstIndex<T(==)>(s: seq<T>, x: T): (i: nat)
    requires x in s
    ensures i < |s| && s[i] == x && x !in s[..i]
  {
    if s[0] == x then 0 else 1 + FirstIndex(s[1..], x)
  }

  /** Unique keeps exactly the elements of `s`, each once, in order of first occurrence. */
  lemma {:induction false} UniqueIsOrderedDedup<T>(s: seq<T>)
    ensures Distinct(Unique(s))
    ensures forall x :: x in Unique(s) <==> x in s
    ensures forall i, j | 0 <= i < j < |Unique(s)| ::
              FirstIndex(s, Unique(s)[i]) < FirstIndex(s, Unique(s)[j])
  {
    if s != [] {
      var front, last := s[..|s| - 1], s[|s| - 1];
      UniqueIsOrderedDedup(front);
      assert s == front + [last];
      forall x | x in front
        ensures FirstIndex(s, x) == FirstIndex(front, x)
      {
        FirstIndexOfPrefix(front, [last], x);
      }
    }
  }

  lemma {:induction false} FirstIndexOfPrefix<T>(s: seq<T>, t: seq<T>, x: T)
    requires x in s
    ensures FirstIndex(s + t, x) == FirstIndex(s, x)
  {
    if s[0] != x {
      assert (s + t)[1..] == s[1..] + t;
      FirstIndexOfPrefix(s[1..], t, x);
    }
  }

  lemma {:induction false} AddAllUniqueAppend<T>(list: seq<T>, xs: seq<T>, ys: seq<T>, capacity: nat)
    ensures AddAllUnique(list, xs + ys, capacity)
         == AddAllUnique(AddAllUnique(list, xs, capacity), ys, capacity)
    decreases |xs|
  {
    if xs == [] {
      assert xs + ys == ys;
    } else {
      assert (xs + ys)[0] == xs[0] && (xs + ys)[1..] == xs[1..] + ys;
      AddAllUniqueAppend(AddUnique(list, xs[0], capacity), xs[1..], ys, capacity);
    }
  }

  /** Inserting one at a time into a bounded list yields the capacity cut of the full dedup. */
  lemma {:induction false} AddAllUniqueIsCutUnique<T>(xs: seq<T>, capacity: nat)
    ensures AddAllUnique([], xs, capacity) == Cut(Unique(xs), capacity)
    decreases |xs|
  {
    if xs != [] {
      var front, last := xs[..|xs| - 1], xs[|xs| - 1];
      assert xs == front + [last];
      AddAllUniqueIsCutUnique(front, capacity);
      AddAllUniqueAppend([], front, [last], capacity);
      var list := AddAllUnique([], front, capacity);
      assert AddAllUnique(list, [last], capacity) == AddUnique(list, last, capacity) by {
        assert [last][1..] == [];
      }
    }
  }
}
