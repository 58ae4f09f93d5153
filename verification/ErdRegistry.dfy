/** The registry of valid ERDs: a sorted array, possibly with repetitions, that filters publications
    once it has been loaded. */
module ErdRegistries {
  import opened Common
  import opened Dedup
  import opened Sorting

  const MAX_VALID: nat := 645

  function ErdRank(e: Erd): int { e }

  lemma AroundInOrder(s: seq<Erd>, i: nat)
    requires Ordered(s, ErdRank) && i < |s|
    ensures forall k | 0 <= k < i :: s[k] <= s[i]
    ensures forall k | i < k < |s| :: s[i] <= s[k]
  {
    assert forall k | 0 <= k < i :: ErdRank(s[k]) <= ErdRank(s[i]);
    assert forall k | i < k < |s| :: ErdRank(s[i]) <= ErdRank(s[k]);
  }

  /** The additions in input order: each ERD that is neither in `base` nor earlier in the input. */
  function Additions(erds: seq<Erd>, base: seq<Erd>): (r: seq<Erd>) {
    if erds == [] then []
    else
      var front, e := erds[..|erds| - 1], erds[|erds| - 1];
      if e in base || e in front then Additions(front, base) else Additions(front, base) + [e]
  }

  /** Nothing is missing and nothing repeated in the additions. */
  lemma {:induction false} AdditionsAre(erds: seq<Erd>, base: seq<Erd>)
    ensures Elements(Additions(erds, base)) == Elements(erds) - Elements(base)
    ensures Distinct(Additions(erds, base))
  {
    if erds != [] {
      var front, e := erds[..|erds| - 1], erds[|erds| - 1];
      assert erds == front + [e];
      AdditionsAre(front, base);
      ElementsOfAppend(front, [e]);
      ElementsOfAppend(Additions(front, base), [e]);
      if e !in front && e !in base {
        assert e !in Elements(Additions(front, base));
        assert e !in Additions(front, base);
      }
    }
  }

  /** `erds` without those in `base`, in order. */
  function Without(erds: seq<Erd>, base: seq<Erd>): (r: seq<Erd>) {
    if erds == [] then []
    else Without(erds[..|erds| - 1], base) + if erds[|erds| - 1] in base then [] else [erds[|erds| - 1]]
  }

  lemma {:induction false} InWithout(erds: seq<Erd>, base: seq<Erd>, e: Erd)
    ensures e in Without(erds, base) <==> e in erds && e !in base
  {
    if erds != [] {
      InWithout(erds[..|erds| - 1], base, e);
      assert erds == erds[..|erds| - 1] + [erds[|erds| - 1]];
    }
  }

  lemma UniqueOneMore(s: seq<Erd>, e: Erd)
    ensures Unique(s + [e]) == if e in s then Unique(s) else Unique(s) + [e]
  {
    assert (s + [e])[..|s|] == s;
    UniqueIsOrderedDedup(s);
  }

  /** The additions are taken in the order of the input, each where it first occurs. */
  lemma {:induction false} AdditionsInOrder(erds: seq<Erd>, base: seq<Erd>)
    ensures Additions(erds, base) == Unique(Without(erds, base))
  {
    if erds != [] {
      hide Unique;
      var front, e := erds[..|erds| - 1], erds[|erds| - 1];
      AdditionsInOrder(front, base);
      InWithout(front, base, e);
      UniqueOneMore(Without(front, base), e);
      assert Without(front, base) + [] == Without(front, base);
    } else {
      assert Unique<Erd>([]) == [];
    }
  }

  class ErdRegistry {
    const validErds: array<Erd>
    var count: nat
    var ready: bool

    ghost predicate Valid()
      reads this, validErds
    {
      validErds.Length == MAX_VALID && count <= MAX_VALID && Ordered(validErds[..count], ErdRank)
    }

    ghost function Loaded(): set<Erd>
      requires Valid()
      reads this, validErds
    {
      Elements(validErds[..count])
    }

    constructor ()
      ensures Valid() && !ready && Loaded() == {} && fresh(validErds)
    {
      validErds := new Erd[MAX_VALID];
      count, ready := 0, false;
    }

    /** Loads the array, up to its capacity, and switches the filter on; an empty input changes nothing. */
    method SetValidErds(erds: seq<Erd>)
      requires Valid()
      modifies this, validErds
      ensures Valid()
      ensures erds == [] ==> ready == old(ready) && Loaded() == old(Loaded())
      ensures erds != [] ==> ready && Loaded() == Elements(Cut(erds, MAX_VALID)) && count == |Cut(erds, MAX_VALID)|
    {
      if erds == [] {
        return;
      }
      var n := if |erds| > MAX_VALID then MAX_VALID else |erds|;
      for i := 0 to n
        invariant validErds[..i] == erds[..i]
      {
        validErds[i] := erds[i];
      }
      count := n;
      SortSorts(validErds[..n], ErdRank);
      SortPrefix(validErds, n, ErdRank);
      ready := true;
    }

    /** Adds what is new until the array is full; does nothing before the registry is loaded. */
    method AddValidErds(erds: seq<Erd>)
      requires Valid()
      modifies this, validErds
      ensures Valid() && ready == old(ready)
      ensures !ready || erds == [] ==> Loaded() == old(Loaded()) && count == old(count)
      ensures ready ==>
                var added := Cut(Additions(erds, old(validErds[..count])), MAX_VALID - old(count));
                Loaded() == old(Loaded()) + Elements(added) && count == old(count) + |added|
    {
      if !ready || erds == [] {
        return;
      }
      ghost var base := validErds[..count];
      AppendNew(erds);
      ghost var added := Cut(Additions(erds, base), MAX_VALID - |base|);
      ElementsOfAppend(base, added);
      SortSorts(validErds[..count], ErdRank);
      SortPrefix(validErds, count, ErdRank);
    }

    method Append(erd: Erd)
      requires validErds.Length == MAX_VALID && count < MAX_VALID
      modifies this`count, validErds
      ensures validErds[..old(count)] == old(validErds[..count]) && count == old(count) + 1
      ensures validErds[..count] == old(validErds[..count]) + [erd]
    {
      validErds[count] := erd;
      count := count + 1;
    }

    /** Appends the additions unsorted; only the sorted part in front of them is searched by halving. */
    method AppendNew(erds: seq<Erd>)
      requires Valid()
      modifies this`count, validErds
      ensures validErds.Length == MAX_VALID && count <= MAX_VALID
      ensures validErds[..count] ==
              old(validErds[..count]) + Cut(Additions(erds, old(validErds[..count])), MAX_VALID - old(count))
    {
      hide Additions, Ordered;
      ghost var base := validErds[..count];
      var baseCount := count;
      var i := 0;
      AdditionsOfNone(base);
      while i < |erds|
        invariant i <= |erds| && |base| == baseCount <= count <= MAX_VALID
        invariant validErds[..count] == base + Additions(erds[..i], base)
      {
        assert validErds[..baseCount] == base;
        AdditionsNext(erds, base, i);
        var known := BinarySearch(baseCount, erds[i]);
        if !known {
          var dup := OccursBefore(erds, i);
          if !dup {
            if count >= MAX_VALID {
              assert erds[..|erds|] == erds;
              AdditionsGrow(erds, base, i, |erds|);
              return;
            }
            Append(erds[i]);
          }
        }
        i := i + 1;
      }
      assert erds[..|erds|] == erds;
    }

    static method OccursBefore(erds: seq<Erd>, i: nat) returns (dup: bool)
      requires i < |erds|
      ensures dup <==> erds[i] in erds[..i]
    {
      for k := 0 to i
        invariant erds[i] !in erds[..k]
      {
        if erds[k] == erds[i] {
          return true;
        }
      }
      return false;
    }

    /** std::binary_search over the first `n` elements. */
    method BinarySearch(n: nat, erd: Erd) returns (found: bool)
      requires n <= validErds.Length && Ordered(validErds[..n], ErdRank)
      ensures found == (erd in validErds[..n])
    {
      hide Ordered;
      ghost var s := validErds[..n];
      var lo, hi := 0, n;
      while lo < hi
        invariant lo <= hi <= n
        invariant forall k | 0 <= k < lo :: s[k] < erd
        invariant forall k | hi <= k < n :: erd <= s[k]
      {
        var mid := lo + (hi - lo) / 2;
        AroundInOrder(s, mid);
        if validErds[mid] < erd {
          lo := mid + 1;
        } else {
          hi := mid;
        }
      }
      found := lo < n && validErds[lo] == erd;
      if lo < n { AroundInOrder(s, lo); }
    }

    /** Everything passes until the registry is loaded; then exactly what was loaded. */
    method IsValid(erd: Erd) returns (valid: bool)
      requires Valid()
      ensures valid <==> !ready || erd in Loaded()
    {
      if !ready {
        return true;
      }
      valid := BinarySearch(count, erd);
    }
  }

  lemma AdditionsOfNone(base: seq<Erd>)
    ensures Additions([], base) == []
  {
  }

  lemma AdditionsNext(erds: seq<Erd>, base: seq<Erd>, i: nat)
    requires i < |erds|
    ensures Additions(erds[..i + 1], base)
         == Additions(erds[..i], base) + if erds[i] in base || erds[i] in erds[..i] then [] else [erds[i]]
  {
    assert erds[..i + 1][..i] == erds[..i];
  }

  /** Later input only appends. */
  lemma {:induction false} AdditionsGrow(erds: seq<Erd>, base: seq<Erd>, i: nat, j: nat)
    requires i <= j <= |erds|
    ensures Additions(erds[..i], base) <= Additions(erds[..j], base)
  {
    if i < j {
      assert erds[..j][..j - 1] == erds[..j - 1];
      AdditionsGrow(erds, base, i, j - 1);
    }
  }

  /** While everything fits, a load followed by an addition accepts exactly the union. */
  lemma FitsMeansUnion(loaded: seq<Erd>, erds: seq<Erd>)
    requires |loaded| + |Additions(erds, loaded)| <= MAX_VALID
    ensures Elements(loaded) + Elements(Cut(Additions(erds, loaded), MAX_VALID - |loaded|)) == Elements(loaded) + Elements(erds)
  {
    AdditionsAre(erds, loaded);
  }
}
