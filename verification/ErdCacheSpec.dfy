/** The ERD cache as a value: what its entry table and arena mean, the effect of each lock hold,
    and the proof that the whole structure is a map from (ERD, board address) to bytes. */
module ErdCacheSpec {
  import opened Common

  const CAPACITY: nat := 300
  const MAX_DATA_SIZE: nat := 248
  const ARENA_SIZE: nat := 4096

  datatype Key = Key(erd: Erd, board: Byte)

  datatype Entry = Entry(key: Key, offset: nat, size: nat, dirty: bool, cooldown: Byte, valid: bool)

  datatype Cache = Cache(entries: seq<Entry>, arena: seq<Byte>, used: nat, maxCooldown: Byte)

  // ---------------------------------------------------------------- scans

  /** Number of slots in use: the first free slot at or after `from`, as insertion looks for it. */
  function FirstFree(entries: seq<Entry>, from: nat): (i: nat)
    requires from <= |entries|
    ensures from <= i <= |entries|
    ensures forall j | from <= j < i :: entries[j].valid
    ensures i < |entries| ==> !entries[i].valid
    decreases |entries| - from
  {
    if from == |entries| || !entries[from].valid then from else FirstFree(entries, from + 1)
  }

  function Filled(c: Cache): nat {
    FirstFree(c.entries, 0)
  }

  function Find(entries: seq<Entry>, from: nat, key: Key): (i: nat)
    requires from <= |entries|
    ensures from <= i <= |entries|
    ensures forall j | from <= j < i :: !(entries[j].valid && entries[j].key == key)
    ensures i < |entries| ==> entries[i].valid && entries[i].key == key
    decreases |entries| - from
  {
    if from == |entries| || (entries[from].valid && entries[from].key == key) then from
    else Find(entries, from + 1, key)
  }

  /** Entry `e` may be handed to the publisher now. */
  predicate Eligible(e: Entry, maxCooldown: Byte) {
    e.valid && e.dirty && (maxCooldown == 0 || e.cooldown == 0)
  }

  function NextEligible(entries: seq<Entry>, from: nat, maxCooldown: Byte): (i: nat)
    requires from <= |entries|
    ensures from <= i <= |entries|
    ensures forall j | from <= j < i :: !Eligible(entries[j], maxCooldown)
    ensures i < |entries| ==> Eligible(entries[i], maxCooldown)
    decreases |entries| - from
  {
    if from == |entries| || Eligible(entries[from], maxCooldown) then from
    else NextEligible(entries, from + 1, maxCooldown)
  }

  // ---------------------------------------------------------------- meaning

  /** Bytes taken by the first `n` entries. */
  function Total(entries: seq<Entry>, n: nat): nat
    requires n <= |entries|
  {
    if n == 0 then 0 else Total(entries, n - 1) + entries[n - 1].size
  }

  function Slice(arena: seq<Byte>, e: Entry): (bytes: seq<Byte>) {
    if e.offset + e.size <= |arena| then arena[e.offset..e.offset + e.size] else []
  }

  /** The bindings contributed by the first `n` slots. */
  function ContentsUpTo(entries: seq<Entry>, arena: seq<Byte>, n: nat): map<Key, seq<Byte>>
    requires n <= |entries|
  {
    if n == 0 then map[]
    else ContentsUpTo(entries, arena, n - 1)[entries[n - 1].key := Slice(arena, entries[n - 1])]
  }

  /** The map the cache stands for. */
  function Contents(c: Cache): map<Key, seq<Byte>> {
    ContentsUpTo(c.entries, c.arena, Filled(c))
  }

  // ---------------------------------------------------------------- invariant

  ghost predicate KeysDiffer(entries: seq<Entry>, n: nat)
    requires n <= |entries|
  {
    forall i, j | 0 <= i < j < n :: entries[i].key != entries[j].key
  }

  /** Past the slots in use the table is untouched: in particular the slots in use are a prefix. */
  ghost predicate RestFree(entries: seq<Entry>, n: nat)
    requires n <= |entries|
  {
    forall i | n <= i < |entries| :: !entries[i].valid && !entries[i].dirty && entries[i].cooldown == 0
  }

  ghost predicate SizesOk(entries: seq<Entry>, n: nat)
    requires n <= |entries|
  {
    forall i | 0 <= i < n :: entries[i].size <= MAX_DATA_SIZE
  }

  ghost predicate TiledAt(entries: seq<Entry>, i: nat)
    requires i < |entries|
  {
    entries[i].offset == Total(entries, i)
  }

  /** The slices of the first `n` entries tile [0, used) in slot order, without gap or overlap. */
  ghost predicate Tiled(entries: seq<Entry>, n: nat, used: nat)
    requires n <= |entries|
  {
    used == Total(entries, n) && forall i: nat | i < n :: TiledAt(entries, i)
  }

  ghost predicate WellFormed(c: Cache) {
    && |c.entries| == CAPACITY
    && |c.arena| == ARENA_SIZE
    && c.used <= ARENA_SIZE
    && KeysDiffer(c.entries, Filled(c))
    && RestFree(c.entries, Filled(c))
    && SizesOk(c.entries, Filled(c))
    && Tiled(c.entries, Filled(c), c.used)
  }

  lemma {:induction false} TotalMonotone(entries: seq<Entry>, i: nat, j: nat)
    requires i <= j <= |entries|
    ensures Total(entries, i) <= Total(entries, j)
  {
    if i < j { TotalMonotone(entries, i, j - 1); }
  }

  /** Two slots never share a byte, and no slot reaches past the bump pointer. */
  lemma SlicesDisjoint(entries: seq<Entry>, n: nat, used: nat, i: nat, j: nat)
    requires n <= |entries| && Tiled(entries, n, used) && i < n && j < n && i != j
    ensures || entries[i].offset + entries[i].size <= entries[j].offset
            || entries[j].offset + entries[j].size <= entries[i].offset
  {
    assert TiledAt(entries, i) && TiledAt(entries, j);
    if i < j { TotalMonotone(entries, i + 1, j); } else { TotalMonotone(entries, j + 1, i); }
  }

  lemma SliceFits(entries: seq<Entry>, n: nat, used: nat, i: nat)
    requires n <= |entries| && Tiled(entries, n, used) && i < n
    ensures entries[i].offset + entries[i].size <= used
  {
    assert TiledAt(entries, i);
    TotalMonotone(entries, i + 1, n);
  }

  lemma {:induction false} TotalBySizes(e: seq<Entry>, f: seq<Entry>, n: nat)
    requires n <= |e| && n <= |f|
    requires forall i | 0 <= i < n :: e[i].size == f[i].size
    ensures Total(e, n) == Total(f, n)
  {
    if n > 0 { TotalBySizes(e, f, n - 1); }
  }

  lemma {:induction false} FirstFreeIs(entries: seq<Entry>, from: nat, n: nat)
    requires from <= n <= |entries|
    requires forall i | from <= i < n :: entries[i].valid
    requires n < |entries| ==> !entries[n].valid
    ensures FirstFree(entries, from) == n
    decreases n - from
  {
    if from < n { FirstFreeIs(entries, from + 1, n); }
  }

  /** Each slot in use contributes its own bytes under its own key. */
  lemma {:induction false} ContentsHas(entries: seq<Entry>, arena: seq<Byte>, n: nat, i: nat)
    requires i < n <= |entries| && KeysDiffer(entries, n)
    ensures entries[i].key in ContentsUpTo(entries, arena, n)
    ensures ContentsUpTo(entries, arena, n)[entries[i].key] == Slice(arena, entries[i])
  {
    if i < n - 1 { ContentsHas(entries, arena, n - 1, i); }
  }

  /** The map has no other keys. */
  lemma {:induction false} SlotOf(entries: seq<Entry>, arena: seq<Byte>, n: nat, key: Key) returns (i: nat)
    requires n <= |entries| && key in ContentsUpTo(entries, arena, n)
    ensures i < n && entries[i].key == key
  {
    if entries[n - 1].key == key { i := n - 1; } else { i := SlotOf(entries, arena, n - 1, key); }
  }

  lemma LastKeyIsNew(entries: seq<Entry>, arena: seq<Byte>, n: nat)
    requires 0 < n <= |entries| && KeysDiffer(entries, n)
    ensures entries[n - 1].key !in ContentsUpTo(entries, arena, n - 1)
  {
    if entries[n - 1].key in ContentsUpTo(entries, arena, n - 1) {
      var i := SlotOf(entries, arena, n - 1, entries[n - 1].key);
    }
  }

  /** Keys are unique: one binding per slot in use. */
  lemma {:induction false} ContentsSize(entries: seq<Entry>, arena: seq<Byte>, n: nat)
    requires n <= |entries| && KeysDiffer(entries, n)
    ensures |ContentsUpTo(entries, arena, n)| == n
  {
    if n > 0 {
      ContentsSize(entries, arena, n - 1);
      var before := ContentsUpTo(entries, arena, n - 1);
      LastKeyIsNew(entries, arena, n);
      assert ContentsUpTo(entries, arena, n).Keys == before.Keys + {entries[n - 1].key};
    }
  }

  lemma FindAgrees(c: Cache, key: Key)
    requires WellFormed(c)
    ensures key in Contents(c) <==> Find(c.entries, 0, key) < |c.entries|
    ensures key in Contents(c) ==>
              && Find(c.entries, 0, key) < Filled(c)
              && Contents(c)[key] == Slice(c.arena, c.entries[Find(c.entries, 0, key)])
  {
    var i, n := Find(c.entries, 0, key), Filled(c);
    if i < |c.entries| {
      ContentsHas(c.entries, c.arena, n, i);
    } else if key in Contents(c) {
      var j := SlotOf(c.entries, c.arena, n, key);
    }
  }

  /** What the scan finds lies within the arena. */
  lemma SlotFits(c: Cache, key: Key)
    requires WellFormed(c)
    ensures |c.entries| == CAPACITY && |c.arena| == ARENA_SIZE && c.used <= ARENA_SIZE
    ensures var i := Find(c.entries, 0, key);
            i < CAPACITY ==> c.entries[i].offset + c.entries[i].size <= ARENA_SIZE
  {
    FindAgrees(c, key);
    var i := Find(c.entries, 0, key);
    if i < CAPACITY { SliceFits(c.entries, Filled(c), c.used, i); }
  }

  /** A slot in use: where it is, what it holds and how long that is. */
  lemma InUse(c: Cache, slot: nat)
    requires WellFormed(c) && slot < CAPACITY && c.entries[slot].valid
    ensures slot < Filled(c) && c.entries[slot].offset + c.entries[slot].size <= |c.arena|
    ensures c.entries[slot].key in Contents(c) && Contents(c)[c.entries[slot].key] == Slice(c.arena, c.entries[slot])
    ensures |Slice(c.arena, c.entries[slot])| <= MAX_DATA_SIZE
  {
    ContentsHas(c.entries, c.arena, Filled(c), slot);
    SliceFits(c.entries, Filled(c), c.used, slot);
  }

  // ---------------------------------------------------------------- lock holds

  const FREE_ENTRY := Entry(Key(0, 0), 0, 0, false, 0, false)

  const EMPTY := Cache(seq(CAPACITY, _ => FREE_ENTRY), seq(ARENA_SIZE, _ => 0), 0, 0)

  function Overwrite(arena: seq<Byte>, offset: nat, data: seq<Byte>): (r: seq<Byte>)
    requires offset + |data| <= |arena|
    ensures |r| == |arena|
  {
    arena[..offset] + data + arena[offset + |data|..]
  }

  function Store(c: Cache, i: nat, data: seq<Byte>): Cache
    requires i < |c.entries| && c.entries[i].offset + |data| <= |c.arena|
  {
    c.(entries := c.entries[i := c.entries[i].(dirty := true)],
       arena := Overwrite(c.arena, c.entries[i].offset, data))
  }

  function Insert(c: Cache, slot: nat, key: Key, data: seq<Byte>): Cache
    requires slot < |c.entries| && c.used + |data| <= |c.arena|
  {
    Cache(c.entries[slot := Entry(key, c.used, |data|, true, c.entries[slot].cooldown, true)],
          Overwrite(c.arena, c.used, data), c.used + |data|, c.maxCooldown)
  }

  /** One call of the cache's update operation: the new cache and the reported flag. */
  function Update(c: Cache, key: Key, data: seq<Byte>): (Cache, bool) {
    var i := Find(c.entries, 0, key);
    if |data| > MAX_DATA_SIZE then (c, false)
    else if i < |c.entries| then
      var e := c.entries[i];
      if |data| != e.size || e.offset + e.size > |c.arena| || Slice(c.arena, e) == data then (c, false)
      else (Store(c, i, data), true)
    else if Filled(c) == |c.entries| || c.used + |data| > |c.arena| then (c, false)
    else (Insert(c, Filled(c), key, data), true)
  }

  /** The new cache, the new scan cursor, and the slot handed out (the table length if none). */
  function Snapshot(c: Cache, cursor: nat): (Cache, nat, nat)
    requires cursor <= |c.entries|
  {
    var i := NextEligible(c.entries, cursor, c.maxCooldown);
    if i < |c.entries| then (c.(entries := c.entries[i := c.entries[i].(dirty := false)]), i + 1, i)
    else (c, 0, i)
  }

  function MarkPublished(c: Cache, slot: nat): Cache
    requires slot < |c.entries|
  {
    if c.maxCooldown == 0 then c
    else c.(entries := c.entries[slot := c.entries[slot].(cooldown := c.maxCooldown)])
  }

  function MarkUnpublished(c: Cache, slot: nat): Cache
    requires slot < |c.entries|
  {
    c.(entries := c.entries[slot := c.entries[slot].(dirty := true)])
  }

  function Touched(e: Entry): Entry {
    if e.valid then e.(dirty := true, cooldown := 0) else e
  }

  function TouchAll(entries: seq<Entry>): (r: seq<Entry>)
    ensures |r| == |entries| && forall i | 0 <= i < |r| :: r[i] == Touched(entries[i])
  {
    if entries == [] then [] else [Touched(entries[0])] + TouchAll(entries[1..])
  }

  function MarkAllUpdated(c: Cache): Cache {
    c.(entries := TouchAll(c.entries))
  }

  function Ticked(e: Entry): Entry {
    if e.valid && e.dirty && e.cooldown > 0 then e.(cooldown := e.cooldown - 1) else e
  }

  function TickAll(entries: seq<Entry>): (r: seq<Entry>)
    ensures |r| == |entries| && forall i | 0 <= i < |r| :: r[i] == Ticked(entries[i])
  {
    if entries == [] then [] else [Ticked(entries[0])] + TickAll(entries[1..])
  }

  function TickCooldowns(c: Cache): Cache {
    if c.maxCooldown == 0 then c else c.(entries := TickAll(c.entries))
  }

  function SetThrottle(c: Cache, rate: Byte): Cache {
    c.(maxCooldown := rate)
  }

  // ---------------------------------------------------------------- bookkeeping keeps the map

  /** The part of an entry that locates its data. */
  function Place(e: Entry): (Key, nat, nat, bool) {
    (e.key, e.offset, e.size, e.valid)
  }

  ghost predicate SameLayout(c: Cache, d: Cache) {
    && |c.entries| == |d.entries| && c.arena == d.arena && c.used == d.used
    && forall i | 0 <= i < |c.entries| :: Place(c.entries[i]) == Place(d.entries[i])
  }

  lemma {:induction false} ContentsByPlace(e: seq<Entry>, f: seq<Entry>, arena: seq<Byte>, n: nat)
    requires n <= |e| && n <= |f|
    requires forall i | 0 <= i < n :: Place(e[i]) == Place(f[i])
    ensures ContentsUpTo(e, arena, n) == ContentsUpTo(f, arena, n)
  {
    if n > 0 { ContentsByPlace(e, f, arena, n - 1); }
  }

  /** Changing only dirty flags and cooldowns of slots in use never disturbs the stored data. */
  lemma SameLayoutSameContents(c: Cache, d: Cache)
    requires WellFormed(c) && SameLayout(c, d) && RestFree(d.entries, Filled(c))
    ensures WellFormed(d) && Filled(d) == Filled(c) && Contents(d) == Contents(c)
  {
    var n := Filled(c);
    FirstFreeIs(d.entries, 0, n);
    ContentsByPlace(c.entries, d.entries, c.arena, n);
    TotalBySizes(c.entries, d.entries, n);
    forall i: nat | i < n
      ensures TiledAt(d.entries, i)
    {
      TotalBySizes(c.entries, d.entries, i);
      assert TiledAt(c.entries, i);
    }
  }

  /** A table with every slot free stands for the empty map. */
  lemma AllFreeIsEmpty(c: Cache)
    requires |c.entries| == CAPACITY && |c.arena| == ARENA_SIZE && c.used == 0 && RestFree(c.entries, 0)
    ensures WellFormed(c) && Filled(c) == 0 && Contents(c) == map[]
  {
    FirstFreeIs(c.entries, 0, 0);
  }

  /** The publisher's marks leave the map, and so every stored byte, alone. */
  lemma MarksKeepMap(c: Cache, slot: nat)
    requires WellFormed(c) && slot < Filled(c)
    ensures SameLayout(c, MarkPublished(c, slot)) && WellFormed(MarkPublished(c, slot))
    ensures Filled(MarkPublished(c, slot)) == Filled(c) && Contents(MarkPublished(c, slot)) == Contents(c)
    ensures SameLayout(c, MarkUnpublished(c, slot)) && WellFormed(MarkUnpublished(c, slot))
    ensures Filled(MarkUnpublished(c, slot)) == Filled(c) && Contents(MarkUnpublished(c, slot)) == Contents(c)
  {
    SameLayoutSameContents(c, MarkPublished(c, slot));
    SameLayoutSameContents(c, MarkUnpublished(c, slot));
  }

  lemma SnapshotKeepsMap(c: Cache, cursor: nat)
    requires WellFormed(c) && cursor <= CAPACITY
    ensures var d := Snapshot(c, cursor).0;
            SameLayout(c, d) && WellFormed(d) && Filled(d) == Filled(c) && Contents(d) == Contents(c)
  {
    SameLayoutSameContents(c, Snapshot(c, cursor).0);
  }

  lemma SweepsKeepMap(c: Cache)
    requires WellFormed(c)
    ensures var d := MarkAllUpdated(c);
            SameLayout(c, d) && WellFormed(d) && Filled(d) == Filled(c) && Contents(d) == Contents(c)
    ensures var d := TickCooldowns(c);
            SameLayout(c, d) && WellFormed(d) && Filled(d) == Filled(c) && Contents(d) == Contents(c)
  {
    SameLayoutSameContents(c, MarkAllUpdated(c));
    SameLayoutSameContents(c, TickCooldowns(c));
  }

  lemma RateKeepsMap(c: Cache, rate: Byte)
    requires WellFormed(c)
    ensures var d := SetThrottle(c, rate);
            SameLayout(c, d) && WellFormed(d) && Filled(d) == Filled(c) && Contents(d) == Contents(c)
  {
    SameLayoutSameContents(c, SetThrottle(c, rate));
  }

  // ---------------------------------------------------------------- updates act on the map

  /** Bytes held by a map. */
  ghost function Volume(m: map<Key, seq<Byte>>): nat
    decreases |m|
  {
    if m == map[] then 0
    else
      var key :| key in m;
      |m[key]| + Volume(m - {key})
  }

  /** Volume does not depend on the order in which keys are taken out. */
  lemma {:induction false} VolumeWithout(m: map<Key, seq<Byte>>, key: Key)
    requires key in m
    ensures Volume(m) == |m[key]| + Volume(m - {key})
    decreases |m|
  {
    var first :| first in m && Volume(m) == |m[first]| + Volume(m - {first});
    if first != key {
      VolumeWithout(m - {first}, key);
      VolumeWithout(m - {key}, first);
      assert m - {first} - {key} == m - {key} - {first};
    }
  }

  lemma VolumeOfNew(m: map<Key, seq<Byte>>, key: Key, data: seq<Byte>)
    requires key !in m
    ensures Volume(m[key := data]) == Volume(m) + |data|
  {
    VolumeWithout(m[key := data], key);
    assert m[key := data] - {key} == m;
  }

  /** Exactly when an update is stored, said of the map alone: the size limit, the size fixed at registration, and
      for a new key the two capacities. */
  ghost predicate Stores(m: map<Key, seq<Byte>>, key: Key, data: seq<Byte>) {
    && |data| <= MAX_DATA_SIZE
    && if key in m then |data| == |m[key]|
       else |m| < CAPACITY && Volume(m) + |data| <= ARENA_SIZE
  }

  /** An update as an operation on maps. */
  ghost function MapUpdate(m: map<Key, seq<Byte>>, key: Key, data: seq<Byte>): map<Key, seq<Byte>> {
    if Stores(m, key, data) then m[key := data] else m
  }

  lemma {:induction false} VolumeUpTo(entries: seq<Entry>, arena: seq<Byte>, n: nat)
    requires n <= |entries| && KeysDiffer(entries, n)
    requires forall i | 0 <= i < n :: entries[i].offset + entries[i].size <= |arena|
    ensures Volume(ContentsUpTo(entries, arena, n)) == Total(entries, n)
  {
    if n > 0 {
      VolumeUpTo(entries, arena, n - 1);
      var before := ContentsUpTo(entries, arena, n - 1);
      LastKeyIsNew(entries, arena, n);
      hide Volume, KeysDiffer;
      VolumeOfNew(before, entries[n - 1].key, Slice(arena, entries[n - 1]));
    }
  }

  /** The bump pointer is the volume of the map. */
  lemma UsedIsVolume(c: Cache)
    requires WellFormed(c)
    ensures c.used == Volume(Contents(c))
  {
    forall i | 0 <= i < Filled(c)
      ensures c.entries[i].offset + c.entries[i].size <= |c.arena|
    {
      SliceFits(c.entries, Filled(c), c.used, i);
    }
    VolumeUpTo(c.entries, c.arena, Filled(c));
  }

  /** Nothing stored is larger than the limit. */
  lemma StoredSize(c: Cache, key: Key)
    requires WellFormed(c) && key in Contents(c)
    ensures |Contents(c)[key]| <= MAX_DATA_SIZE
  {
    FindAgrees(c, key);
  }

  /** Writing into one slice leaves every disjoint slice as it was. */
  lemma OverwriteSlices(arena: seq<Byte>, offset: nat, data: seq<Byte>, e: Entry)
    requires offset + |data| <= |arena|
    ensures e.offset == offset && e.size == |data| ==> Slice(Overwrite(arena, offset, data), e) == data
    ensures e.offset + e.size <= offset || offset + |data| <= e.offset
            ==> Slice(Overwrite(arena, offset, data), e) == Slice(arena, e)
  {
    var after := Overwrite(arena, offset, data);
    if e.offset + e.size <= |arena| {
      if e.offset + e.size <= offset || offset + |data| <= e.offset {
        assert Slice(after, e) == Slice(arena, e);
      }
    }
  }

  lemma {:induction false} ContentsByPlaceAndSlice(e: seq<Entry>, a: seq<Byte>, f: seq<Entry>, b: seq<Byte>, n: nat)
    requires n <= |e| && n <= |f|
    requires forall i | 0 <= i < n :: e[i].key == f[i].key && Slice(a, e[i]) == Slice(b, f[i])
    ensures ContentsUpTo(e, a, n) == ContentsUpTo(f, b, n)
  {
    if n > 0 { ContentsByPlaceAndSlice(e, a, f, b, n - 1); }
  }

  lemma InsertKeepsSlices(c: Cache, key: Key, data: seq<Byte>, i: nat)
    requires WellFormed(c) && Filled(c) < CAPACITY && c.used + |data| <= ARENA_SIZE && i < Filled(c)
    ensures var d := Insert(c, Filled(c), key, data);
            d.entries[i] == c.entries[i] && Slice(d.arena, d.entries[i]) == Slice(c.arena, c.entries[i])
  {
    SliceFits(c.entries, Filled(c), c.used, i);
    OverwriteSlices(c.arena, c.used, data, c.entries[i]);
  }

  lemma InsertKeepsTiling(c: Cache, key: Key, data: seq<Byte>)
    requires WellFormed(c) && Filled(c) < CAPACITY && c.used + |data| <= ARENA_SIZE
    ensures var d := Insert(c, Filled(c), key, data);
            Filled(d) == Filled(c) + 1 && Tiled(d.entries, Filled(c) + 1, d.used)
  {
    var n, d := Filled(c), Insert(c, Filled(c), key, data);
    FirstFreeIs(d.entries, 0, n + 1);
    TotalBySizes(c.entries, d.entries, n);
    forall i: nat | i < n + 1
      ensures TiledAt(d.entries, i)
    {
      TotalBySizes(c.entries, d.entries, i);
      assert i < n ==> TiledAt(c.entries, i);
    }
  }

  lemma InsertAddsBinding(c: Cache, key: Key, data: seq<Byte>)
    requires WellFormed(c) && Filled(c) < CAPACITY && c.used + |data| <= ARENA_SIZE
    requires |data| <= MAX_DATA_SIZE && key !in Contents(c)
    ensures var d := Insert(c, Filled(c), key, data);
            WellFormed(d) && Filled(d) == Filled(c) + 1 && Contents(d) == Contents(c)[key := data]
  {
    var n, d := Filled(c), Insert(c, Filled(c), key, data);
    InsertKeepsTiling(c, key, data);
    forall i | 0 <= i < n
      ensures d.entries[i] == c.entries[i] && c.entries[i].key != key
      ensures Slice(d.arena, d.entries[i]) == Slice(c.arena, c.entries[i])
    {
      InsertKeepsSlices(c, key, data, i);
      ContentsHas(c.entries, c.arena, n, i);
    }
    OverwriteSlices(c.arena, c.used, data, d.entries[n]);
    ContentsByPlaceAndSlice(c.entries, c.arena, d.entries, d.arena, n);
  }

  lemma StoreKeepsSlices(c: Cache, i: nat, data: seq<Byte>, j: nat)
    requires WellFormed(c) && i < Filled(c) && |data| == c.entries[i].size && j < Filled(c)
    ensures c.entries[i].offset + |data| <= |c.arena|
    ensures var d := Store(c, i, data);
            && Place(d.entries[j]) == Place(c.entries[j])
            && Slice(d.arena, d.entries[j]) == if j == i then data else Slice(c.arena, c.entries[j])
  {
    SliceFits(c.entries, Filled(c), c.used, i);
    if j != i { SlicesDisjoint(c.entries, Filled(c), c.used, i, j); }
    OverwriteSlices(c.arena, c.entries[i].offset, data, c.entries[j]);
  }

  lemma StoreChangesBinding(c: Cache, i: nat, data: seq<Byte>)
    requires WellFormed(c) && i < Filled(c) && |data| == c.entries[i].size
    ensures c.entries[i].offset + |data| <= |c.arena|
    ensures var d := Store(c, i, data);
            WellFormed(d) && Filled(d) == Filled(c) && Contents(d) == Contents(c)[c.entries[i].key := data]
  {
    StoreKeepsSlices(c, i, data, i);
    var d := Store(c, i, data);
    SameLayoutSameContents(c, d.(arena := c.arena));
    forall j | 0 <= j < Filled(c)
      ensures Place(d.entries[j]) == Place(c.entries[j])
      ensures Slice(d.arena, d.entries[j]) == if j == i then data else Slice(c.arena, c.entries[j])
    {
      StoreKeepsSlices(c, i, data, j);
    }
    StoredContents(c.entries, c.arena, d.entries, d.arena, i, data, Filled(c));
  }

  lemma {:induction false} StoredContents(e: seq<Entry>, a: seq<Byte>, f: seq<Entry>, b: seq<Byte>,
                                          i: nat, data: seq<Byte>, n: nat)
    requires n <= |e| && n <= |f| && i < |e| && KeysDiffer(e, n)
    requires forall j | 0 <= j < n :: f[j].key == e[j].key
                                   && Slice(b, f[j]) == if j == i then data else Slice(a, e[j])
    ensures ContentsUpTo(f, b, n)
         == if i < n then ContentsUpTo(e, a, n)[e[i].key := data] else ContentsUpTo(e, a, n)
  {
    hide Slice;
    if n > 0 {
      StoredContents(e, a, f, b, i, data, n - 1);
      var before := ContentsUpTo(e, a, n - 1);
      assert ContentsUpTo(f, b, n) == ContentsUpTo(f, b, n - 1)[e[n - 1].key := Slice(b, f[n - 1])];
      if i < n - 1 {
        SwapBindings(before, e[i].key, data, e[n - 1].key, Slice(a, e[n - 1]));
      } else if i == n - 1 {
        RebindTwice(before, e[i].key, Slice(a, e[i]), data);
      }
    }
  }

  lemma SwapBindings<K, V>(m: map<K, V>, k: K, v: V, l: K, w: V)
    requires k != l
    ensures m[k := v][l := w] == m[l := w][k := v]
  {
  }

  lemma RebindTwice<K, V>(m: map<K, V>, k: K, v: V, w: V)
    ensures m[k := v][k := w] == m[k := w]
  {
  }

  /** The cache's central law: an update changes the map at its own key only and exactly when it
      is stored, and the reported flag says whether the map changed. */
  lemma UpdateRefinesMap(c: Cache, key: Key, data: seq<Byte>)
    requires WellFormed(c)
    ensures var (d, changed) := Update(c, key, data);
            && WellFormed(d)
            && Contents(d) == MapUpdate(Contents(c), key, data)
            && (changed <==> Contents(d) != Contents(c))
  {
    var i := Find(c.entries, 0, key);
    FindAgrees(c, key);
    ContentsSize(c.entries, c.arena, Filled(c));
    UsedIsVolume(c);
    hide Volume;
    if |data| <= MAX_DATA_SIZE {
      if i < CAPACITY {
        SliceFits(c.entries, Filled(c), c.used, i);
        if |data| == c.entries[i].size {
          if Slice(c.arena, c.entries[i]) == data {
            assert Contents(c)[key := data] == Contents(c);
          } else {
            StoreChangesBinding(c, i, data);
          }
        }
      } else if Filled(c) < CAPACITY && c.used + |data| <= ARENA_SIZE {
        InsertAddsBinding(c, key, data);
      }
    }
  }

  /** An update turns dirty exactly the entry whose bytes it changed, and moves no slot. */
  lemma UpdateBySlot(c: Cache, key: Key, data: seq<Byte>)
    requires WellFormed(c)
    ensures var d := Update(c, key, data).0;
            && WellFormed(d) && Filled(c) <= Filled(d) && d.maxCooldown == c.maxCooldown
            && (forall i | 0 <= i < Filled(c) ::
                  && Place(d.entries[i]) == Place(c.entries[i])
                  && d.entries[i].cooldown == c.entries[i].cooldown
                  && (d.entries[i].dirty <==> c.entries[i].dirty || Slice(d.arena, d.entries[i]) != Slice(c.arena, c.entries[i])))
            && (forall i | Filled(c) <= i < Filled(d) :: Eligible(d.entries[i], d.maxCooldown) && d.entries[i].key == key)
  {
    UpdateRefinesMap(c, key, data);
    var d := Update(c, key, data).0;
    var i := Find(c.entries, 0, key);
    FindAgrees(c, key);
    if d != c {
      forall j | 0 <= j < Filled(c)
        ensures Place(d.entries[j]) == Place(c.entries[j]) && d.entries[j].cooldown == c.entries[j].cooldown
        ensures d.entries[j].dirty <==> c.entries[j].dirty || Slice(d.arena, d.entries[j]) != Slice(c.arena, c.entries[j])
      {
        if i < CAPACITY {
          SliceFits(c.entries, Filled(c), c.used, i);
          StoreKeepsSlices(c, i, data, j);
        } else {
          InsertKeepsSlices(c, key, data, j);
        }
      }
      if i < CAPACITY {
        StoreChangesBinding(c, i, data);
      } else {
        InsertAddsBinding(c, key, data);
      }
    }
  }
}
