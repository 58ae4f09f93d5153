/** The fixed-capacity ERD set: a strictly sorted array searched by halving, with shifting inserts. */
module ErdSets {
  import opened Common
  import opened Sorting

  const SET_CAPACITY: nat := 659

  ghost predicate Increasing(s: seq<Erd>) {
    forall i, j | 0 <= i < j < |s| :: s[i] < s[j]
  }

  lemma InsertedElements(s: seq<Erd>, i: nat, e: Erd)
    requires i <= |s|
    ensures Elements(s[..i] + [e] + s[i..]) == Elements(s) + {e}
  {
    assert s == s[..i] + s[i..];
    ElementsOfAppend(s[..i] + [e], s[i..]);
    ElementsOfAppend(s[..i], [e]);
    ElementsOfAppend(s[..i], s[i..]);
  }

  lemma InsertedInOrder(s: seq<Erd>, i: nat, e: Erd)
    requires i <= |s| && Increasing(s)
    requires (forall k | 0 <= k < i :: s[k] < e) && (forall k | i <= k < |s| :: e < s[k])
    ensures Increasing(s[..i] + [e] + s[i..])
  {
  }

  lemma FrontIsIncreasing(s: seq<Erd>)
    requires Increasing(s) && s != []
    ensures Increasing(s[..|s| - 1]) && s[|s| - 1] !in s[..|s| - 1]
  {
  }

  /** The counter of the array is the size of the set. */
  lemma {:induction false} SizeOfIncreasing(s: seq<Erd>)
    requires Increasing(s)
    ensures |Elements(s)| == |s|
  {
    if s != [] {
      var front, last := s[..|s| - 1], s[|s| - 1];
      FrontIsIncreasing(s);
      hide Increasing;
      SizeOfIncreasing(front);
      WithLast(front, last);
      assert s == front + [last];
      hide Elements;
    }
  }

  lemma WithLast(front: seq<Erd>, last: Erd)
    requires last !in front
    ensures |Elements(front + [last])| == |Elements(front)| + 1
  {
    assert Elements(front + [last]) == Elements(front) + {last};
  }

  class ErdSet {
    const data: array<Erd>
    var count: nat

    ghost predicate Valid()
      reads this, data
    {
      data.Length == SET_CAPACITY && count <= SET_CAPACITY && Increasing(data[..count])
    }

    /** The set this array stands for. */
    ghost function Contents(): set<Erd>
      requires Valid()
      reads this, data
    {
      Elements(data[..count])
    }

    constructor ()
      ensures Valid() && Contents() == {} && fresh(data)
    {
      data := new Erd[SET_CAPACITY];
      count := 0;
    }

    /** Where `erd` is, or where it belongs. */
    method Search(erd: Erd) returns (found: bool, lo: nat)
      requires Valid()
      ensures lo <= count && found == (erd in Contents())
      ensures forall k | 0 <= k < lo :: data[k] < erd
      ensures forall k | lo <= k < count :: if found then erd <= data[k] else erd < data[k]
    {
      lo := 0;
      var hi := count;
      while lo < hi
        invariant lo <= hi <= count
        invariant forall k | 0 <= k < lo :: data[k] < erd
        invariant forall k | hi <= k < count :: erd < data[k]
      {
        var mid := lo + (hi - lo) / 2;
        assert forall k | 0 <= k < mid :: data[..count][k] < data[..count][mid];
        assert forall k | mid < k < count :: data[..count][mid] < data[..count][k];
        if data[mid] < erd {
          lo := mid + 1;
        } else if data[mid] > erd {
          hi := mid;
        } else {
          assert data[..count][mid] == erd;
          return true, mid;
        }
      }
      return false, lo;
    }

    method Contains(erd: Erd) returns (found: bool)
      requires Valid()
      ensures found == (erd in Contents())
    {
      var lo;
      found, lo := Search(erd);
    }

    /** Moves everything from `lo` on up by one. */
    method ShiftUp(lo: nat)
      requires lo <= count < data.Length
      modifies data
      ensures data[..lo] == old(data[..lo]) && data[lo + 1..count + 1] == old(data[lo..count])
    {
      ghost var before := data[..];
      var i := count;
      while i > lo
        invariant lo <= i <= count
        invariant data[..i] == before[..i] && data[i + 1..count + 1] == before[i..count]
      {
        data[i] := data[i - 1];
        assert data[i] == before[..i][i - 1] && before[i - 1..count] == [before[i - 1]] + before[i..count];
        assert data[i..count + 1] == [data[i]] + data[i + 1..count + 1];
        assert data[..i - 1] == before[..i][..i - 1];
        i := i - 1;
      }
    }

    /** Puts `erd` at index `lo`. */
    method InsertAt(lo: nat, erd: Erd)
      requires lo <= count < data.Length
      modifies this`count, data
      ensures count == old(count) + 1
      ensures data[..count] == old(data[..lo]) + [erd] + old(data[lo..count])
    {
      ShiftUp(lo);
      data[lo] := erd;
      count := count + 1;
      assert data[..count] == data[..lo] + [erd] + data[lo + 1..count];
    }

    /** True exactly when the element is new and there is room; then, and only then, it is added. */
    method Add(erd: Erd) returns (added: bool)
      requires Valid()
      modifies this, data
      ensures Valid()
      ensures added == (erd !in old(Contents()) && old(count) < SET_CAPACITY)
      ensures Contents() == if added then old(Contents()) + {erd} else old(Contents())
      ensures count == old(count) + if added then 1 else 0
    {
      var found, lo := Search(erd);
      if found {
        return false;
      }
      if count >= SET_CAPACITY {
        return false;
      }
      ghost var before := data[..count];
      InsertedElements(before, lo, erd);
      InsertedInOrder(before, lo, erd);
      assert before[..lo] == data[..lo] && before[lo..] == data[lo..count];
      hide Increasing, Elements;
      InsertAt(lo, erd);
      return true;
    }

    method Clear()
      requires Valid()
      modifies this
      ensures Valid() && Contents() == {}
    {
      count := 0;
    }
  }

  /** The array prefix is a function of the set alone: no insertion history shows in it. */
  lemma LayoutIsCanonical(s: seq<Erd>, t: seq<Erd>)
    requires Increasing(s) && Increasing(t) && Elements(s) == Elements(t)
    ensures s == t
  {
    StrictlyOrderedUnique(s, t, (e: Erd) => e);
  }
}
