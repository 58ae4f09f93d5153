/** The list of ERDs to probe: concatenated sources cut at capacity, sorted and compacted in place. */
module PollLists {
  import opened Common
  import opened Sorting
  import opened PollSpec

  datatype BridgeMode = SubscribeMode | PollMode | AutoMode

  /** The generated tables. A type without ERDs of its own has an empty group. */
  datatype Tables = Tables(common: seq<Erd>, energy: seq<Erd>, features: seq<Erd>, groups: seq<seq<Erd>>)

  datatype Request = Request(
    mode: BridgeMode,
    subscriptionActive: bool,
    apiParsing: bool,
    featureErds: seq<Erd>,
    custom: seq<Target>,
    applianceType: Byte)

  /** Lexicographic order on (ERD, address), as the comparison function has it. */
  function Rank(t: Target): int {
    0x100 * t.erd + t.board
  }

  lemma RankInjective(t: Target, u: Target)
    requires t != u
    ensures Rank(t) != Rank(u)
  {
  }

  lemma RankIsLexicographic(t: Target, u: Target)
    ensures Rank(t) < Rank(u) <==> t.erd < u.erd || (t.erd == u.erd && t.board < u.board)
  {
  }

  function OnDefault(erds: seq<Erd>): (r: seq<Target>)
    ensures |r| == |erds| && forall i | 0 <= i < |r| :: r[i] == Target(erds[i], DEFAULT_ADDRESS)
  {
    if erds == [] then [] else OnDefault(erds[..|erds| - 1]) + [Target(erds[|erds| - 1], DEFAULT_ADDRESS)]
  }

  predicate Subscribing(c: Request) {
    c.mode == SubscribeMode || (c.mode == AutoMode && c.subscriptionActive)
  }

  /** The ERDs of the appliance's own type. */
  function TypeErds(t: Tables, applianceType: Byte): seq<Erd> {
    if applianceType < |t.groups| then t.groups[applianceType] else []
  }

  /** All generated groups that concern the appliance, and the custom ERDs. */
  function FullSources(t: Tables, c: Request): seq<Target> {
    OnDefault(t.common) + OnDefault(t.energy) + OnDefault(t.features) + OnDefault(TypeErds(t, c.applianceType)) + c.custom
  }

  /** Everything the list is built from, uncut and in order. */
  function Sources(t: Tables, c: Request): seq<Target> {
    if Subscribing(c) then c.custom
    else if c.apiParsing then OnDefault(c.featureErds) + c.custom
    else FullSources(t, c)
  }

  lemma ShortIsOrdered(s: seq<Target>)
    requires |s| <= 1
    ensures StrictlyOrdered(s, Rank)
  {
  }

  lemma OneLonger(before: seq<Target>, added: seq<Target>, i: nat)
    requires i < |added|
    ensures before + added[..i] + [added[i]] == before + added[..i + 1]
  {
  }

  class PollListBuilder {
    const erds: array<Target>
    var count: nat

    ghost predicate Valid()
      reads this
    {
      erds.Length == LIST_CAPACITY && count <= LIST_CAPACITY
    }

    ghost function Listed(): seq<Target>
      requires Valid()
      reads this, erds
    {
      erds[..count]
    }

    constructor ()
      ensures Valid() && Listed() == [] && fresh(erds)
    {
      erds := new Target[LIST_CAPACITY](_ => Target(0, 0));
      count := 0;
    }

    method Put(i: nat, t: Target)
      requires i < erds.Length
      modifies erds
      ensures erds[..i + 1] == old(erds[..i]) + [t]
    {
      erds[i] := t;
    }

    method AppendStandardErds(list: seq<Erd>)
      requires Valid()
      modifies this, erds
      ensures Valid() && Listed() == old(Listed()) + Cut(OnDefault(list), LIST_CAPACITY - old(count))
    {
      var n := if |list| > LIST_CAPACITY - count then LIST_CAPACITY - count else |list|;
      for i := 0 to n
        invariant Valid() && count == old(count)
        invariant erds[..count + i] == old(Listed()) + OnDefault(list)[..i]
      {
        Put(count + i, Target(list[i], DEFAULT_ADDRESS));
        OneLonger(old(Listed()), OnDefault(list), i);
      }
      count := count + n;
    }

    method AppendCustomErds(list: seq<Target>)
      requires Valid()
      modifies this, erds
      ensures Valid() && Listed() == old(Listed()) + Cut(list, LIST_CAPACITY - old(count))
    {
      var n := if |list| > LIST_CAPACITY - count then LIST_CAPACITY - count else |list|;
      for i := 0 to n
        invariant Valid() && count == old(count)
        invariant erds[..count + i] == old(Listed()) + list[..i]
      {
        Put(count + i, list[i]);
        OneLonger(old(Listed()), list, i);
      }
      count := count + n;
    }

    /** Moves the entry at `read` down to `write`. */
    method MoveDown(write: nat, read: nat)
      requires write <= read < erds.Length
      modifies erds
      ensures erds[..write + 1] == old(erds[..write]) + [old(erds[read])]
      ensures forall k | write < k < erds.Length :: erds[k] == old(erds[k])
    {
      erds[write] := erds[read];
    }

    /** The first `read` entries of `sorted` are compacted into the first `write`, the others are where they were. */
    ghost predicate Compacted(sorted: seq<Target>, write: nat, read: nat)
      reads erds
    {
      && 0 < write <= read <= |sorted| <= erds.Length
      && erds[..write] == Compact(sorted[..read]) && erds[write - 1] == sorted[read - 1]
      && forall k | read <= k < |sorted| :: erds[k] == sorted[k]
    }

    /** One turn of the loop: a repeated entry is skipped, a new one moved down. */
    method CompactStep(ghost sorted: seq<Target>, write: nat, read: nat) returns (next: nat)
      requires Compacted(sorted, write, read) && read < |sorted|
      modifies erds
      ensures Compacted(sorted, next, read + 1)
    {
      hide Compact;
      CompactNext(sorted, read);
      next := write;
      if erds[read].erd != erds[write - 1].erd || erds[read].board != erds[write - 1].board {
        MoveDown(write, read);
        next := write + 1;
      }
    }

    /** Keeps the first of every run of equal entries, moving the kept ones down. */
    method CompactInPlace()
      requires Valid() && count > 0
      modifies this, erds
      ensures Valid() && Listed() == Compact(old(Listed()))
    {
      hide Compact;
      ghost var sorted := erds[..count];
      var write, read := 1, 1;
      CompactOne(sorted);
      while read < count
        invariant Valid() && count == |sorted| && Compacted(sorted, write, read)
      {
        write := CompactStep(sorted, write, read);
        read := read + 1;
      }
      assert sorted[..read] == sorted;
      count := write;
    }

    /** Sorts, then compacts. */
    method Deduplicate()
      requires Valid()
      modifies this, erds
      ensures Valid() && count <= old(count)
      ensures StrictlyOrdered(Listed(), Rank) && Elements(Listed()) == Elements(old(Listed()))
    {
      hide Sort, Ordered, StrictlyOrdered, Elements, Compact, Rank;
      if count <= 1 {
        ShortIsOrdered(erds[..count]);
        return;
      }
      SortSorts(erds[..count], Rank);
      SortPrefix(erds, count, Rank);
      CompactOrders(erds[..count]);
      CompactElements(erds[..count]);
      CompactInPlace();
    }

    /** Feature-bit ERDs, then the custom ones. */
    method AppendFeatures(c: Request)
      requires Valid() && count == 0
      modifies this, erds
      ensures Valid() && Listed() == Cut(OnDefault(c.featureErds) + c.custom, LIST_CAPACITY)
    {
      hide OnDefault, Cut;
      AppendStandardErds(c.featureErds);
      FirstFits(OnDefault(c.featureErds));
      AppendCustomErds(c.custom);
      CutTwice(OnDefault(c.featureErds), c.custom);
    }

    /** The groups every appliance has, in order. */
    method AppendGroups(t: Tables)
      requires Valid() && count == 0
      modifies this, erds
      ensures Valid()
      ensures Listed() == Cut(OnDefault(t.common) + OnDefault(t.energy) + OnDefault(t.features), LIST_CAPACITY)
    {
      hide OnDefault, Cut;
      AppendStandardErds(t.common);
      FirstFits(OnDefault(t.common));
      AppendStandardErds(t.energy);
      CutTwice(OnDefault(t.common), OnDefault(t.energy));
      AppendStandardErds(t.features);
      CutTwice(OnDefault(t.common) + OnDefault(t.energy), OnDefault(t.features));
    }

    /** All groups, that of the appliance's type among them, then the custom ERDs. */
    method AppendEverything(t: Tables, c: Request)
      requires Valid() && count == 0
      modifies this, erds
      ensures Valid() && Listed() == Cut(FullSources(t, c), LIST_CAPACITY)
    {
      hide OnDefault, Cut;
      ghost var before := OnDefault(t.common) + OnDefault(t.energy) + OnDefault(t.features);
      AppendGroups(t);
      if c.applianceType < |t.groups| {
        AppendStandardErds(t.groups[c.applianceType]);
        CutTwice(before, OnDefault(TypeErds(t, c.applianceType)));
      } else {
        NoTypeErds(t, c.applianceType);
        assert before + [] == before;
      }
      AppendCustomErds(c.custom);
      CutTwice(before + OnDefault(TypeErds(t, c.applianceType)), c.custom);
    }

    /** build_erd_poll_list. Outside subscribe mode the list is strictly increasing in (ERD, address) and has
        exactly the elements of the sources as far as they fit; in subscribe mode it is the custom list, cut. */
    method Build(t: Tables, c: Request)
      requires Valid() && count == 0
      modifies this, erds
      ensures Valid()
      ensures Subscribing(c) ==> Listed() == Cut(Sources(t, c), LIST_CAPACITY)
      ensures !Subscribing(c) ==>
                && StrictlyOrdered(Listed(), Rank)
                && Elements(Listed()) == Elements(Cut(Sources(t, c), LIST_CAPACITY))
    {
      hide StrictlyOrdered, OnDefault, Cut, Elements, Rank, FullSources;
      if Subscribing(c) {
        FirstFits(c.custom);
        AppendCustomErds(c.custom);
        return;
      }
      if c.apiParsing {
        AppendFeatures(c);
      } else {
        AppendEverything(t, c);
      }
      Deduplicate();
    }
  }

  lemma NoTypeErds(t: Tables, applianceType: Byte)
    requires applianceType >= |t.groups|
    ensures OnDefault(TypeErds(t, applianceType)) == []
  {
  }

  lemma FirstFits(b: seq<Target>)
    ensures [] + Cut(b, LIST_CAPACITY - 0) == Cut(b, LIST_CAPACITY)
  {
  }

  /** Appending what still fits to a list cut at capacity cuts the concatenation. */
  lemma CutTwice(a: seq<Target>, b: seq<Target>)
    ensures |Cut(a, LIST_CAPACITY)| <= LIST_CAPACITY
    ensures Cut(a, LIST_CAPACITY) + Cut(b, LIST_CAPACITY - |Cut(a, LIST_CAPACITY)|) == Cut(a + b, LIST_CAPACITY)
  {
  }

  /** A sorted list with only the first of every run of equal entries kept. */
  function Compact(s: seq<Target>): (r: seq<Target>)
    ensures |r| <= |s| && (s != [] ==> r != [] && r[|r| - 1] == s[|s| - 1])
  {
    if |s| <= 1 then s
    else if s[|s| - 1] == s[|s| - 2] then Compact(s[..|s| - 1])
    else Compact(s[..|s| - 1]) + [s[|s| - 1]]
  }

  lemma CompactOne(s: seq<Target>)
    requires s != []
    ensures Compact(s[..1]) == s[..1]
  {
  }

  lemma CompactNext(s: seq<Target>, i: nat)
    requires 0 < i < |s|
    ensures Compact(s[..i + 1]) == Compact(s[..i]) + if s[i] == s[i - 1] then [] else [s[i]]
  {
    assert s[..i + 1][..i] == s[..i];
  }

  /** Compacting loses no element. */
  lemma {:induction false} CompactElements(s: seq<Target>)
    ensures Elements(Compact(s)) == Elements(s)
  {
    if |s| > 1 {
      var front, last := s[..|s| - 1], s[|s| - 1];
      CompactElements(front);
      assert s == front + [last];
      ElementsOfAppend(front, [last]);
      ElementsOfAppend(Compact(front), [last]);
      if last == s[|s| - 2] {
        assert front[|front| - 1] == last;
        assert last in Elements(front);
      }
    }
  }

  /** Compacting a sorted list makes it strictly increasing. */
  lemma {:induction false} CompactOrders(s: seq<Target>)
    requires Ordered(s, Rank)
    ensures StrictlyOrdered(Compact(s), Rank)
  {
    if |s| > 1 {
      var front, last := s[..|s| - 1], s[|s| - 1];
      OrderedFront(s);
      hide Ordered, Rank;
      CompactOrders(front);
      if last != s[|s| - 2] {
        RankInjective(s[|s| - 2], last);
        AppendLarger(Compact(front), last);
      }
    }
  }

  lemma OrderedFront(s: seq<Target>)
    requires Ordered(s, Rank) && |s| > 1
    ensures Ordered(s[..|s| - 1], Rank) && Rank(s[|s| - 2]) <= Rank(s[|s| - 1])
  {
  }

  lemma AppendLarger(r: seq<Target>, t: Target)
    requires StrictlyOrdered(r, Rank) && r != [] && Rank(r[|r| - 1]) < Rank(t)
    ensures StrictlyOrdered(r + [t], Rank)
  {
    forall i | 0 <= i < |r|
      ensures Rank(r[i]) < Rank(t)
    {
      assert i < |r| - 1 ==> Rank(r[i]) < Rank(r[|r| - 1]);
    }
  }

  /** What Build promises outside subscribe mode leaves no freedom: there is one such list. */
  lemma BuiltListIsDetermined(l: seq<Target>, m: seq<Target>)
    requires StrictlyOrdered(l, Rank) && StrictlyOrdered(m, Rank) && Elements(l) == Elements(m)
    ensures l == m
  {
    StrictlyOrderedUnique(l, m, Rank);
  }

  // ---------------------------------------------------------------- what the list is built from

  /** Generated ERDs carry the default address. */
  ghost predicate Generated(t: Target, erds: seq<Erd>) {
    t.board == 0xFF && t.erd in erds
  }

  /** Exactly what is eligible for the list: the custom ERDs in every mode; outside subscribe mode with API parsing
      those the feature bits select, and without it the common, energy and feature ERDs and those of the type. */
  lemma SourcesAre(t: Tables, c: Request, x: Target)
    ensures x in Sources(t, c) <==>
              || x in c.custom
              || (&& (c.mode == PollMode || (c.mode == AutoMode && !c.subscriptionActive))
                  && if c.apiParsing then Generated(x, c.featureErds)
                     else || Generated(x, t.common) || Generated(x, t.energy) || Generated(x, t.features)
                          || (c.applianceType < |t.groups| && Generated(x, t.groups[c.applianceType])))
  {
    hide OnDefault;
    InGenerated(c.featureErds, x);
    InGenerated(t.common, x);
    InGenerated(t.energy, x);
    InGenerated(t.features, x);
    InGenerated(TypeErds(t, c.applianceType), x);
  }

  lemma InGenerated(erds: seq<Erd>, x: Target)
    ensures x in OnDefault(erds) <==> Generated(x, erds)
  {
    var r := OnDefault(erds);
    if x in r {
      var i: nat :| i < |r| && r[i] == x;
      assert erds[i] == x.erd;
    }
    if Generated(x, erds) {
      var i: nat :| i < |erds| && erds[i] == x.erd;
      assert r[i] == x;
    }
  }

  /** What does not fit is custom first: with API parsing a custom ERD never takes the place of a selected one. */
  lemma SelectedComeFirst(t: Tables, c: Request, i: nat)
    requires !Subscribing(c) && c.apiParsing && i < |c.featureErds| && i < LIST_CAPACITY
    ensures Target(c.featureErds[i], DEFAULT_ADDRESS) in Cut(Sources(t, c), LIST_CAPACITY)
  {
    assert Sources(t, c)[i] == Target(c.featureErds[i], DEFAULT_ADDRESS);
    assert Cut(Sources(t, c), LIST_CAPACITY)[i] == Sources(t, c)[i];
  }

  /** And without it custom ERDs come after the generated ones. */
  lemma GroupsComeFirst(t: Tables, c: Request, x: Target)
    requires !Subscribing(c) && !c.apiParsing && x !in c.custom && x in Sources(t, c)
    requires |t.common| + |t.energy| + |t.features| + |TypeErds(t, c.applianceType)| <= LIST_CAPACITY
    ensures x in Cut(Sources(t, c), LIST_CAPACITY)
  {
    var all, groups := Sources(t, c), OnDefault(t.common) + OnDefault(t.energy) + OnDefault(t.features)
                                      + OnDefault(TypeErds(t, c.applianceType));
    assert all == groups + c.custom;
    var i: nat :| i < |groups| && groups[i] == x;
    assert Cut(all, LIST_CAPACITY)[i] == all[i] == x;
  }
}
