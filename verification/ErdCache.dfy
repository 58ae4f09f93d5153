/** The ERD cache as the firmware runs it: a fixed entry table and a fixed arena, both updated in
    place. Every method is one lock hold. */
module ErdCaches {
  import opened Common
  import opened ErdCacheSpec

  class ErdCache {
    const entries: array<Entry>
    const arena: array<Byte>
    var used: nat
    var maxCooldown: Byte

    ghost function State(): Cache
      reads this, entries, arena
    {
      Cache(entries[..], arena[..], used, maxCooldown)
    }

    ghost predicate Valid()
      reads this, entries, arena
    {
      WellFormed(State())
    }

    constructor ()
      ensures fresh(entries) && fresh(arena)
      ensures State() == EMPTY && Valid() && Contents(State()) == map[]
    {
      entries := new Entry[CAPACITY](_ => FREE_ENTRY);
      arena := new Byte[ARENA_SIZE](_ => 0);
      used, maxCooldown := 0, 0;
      new;
      assert entries[..] == EMPTY.entries;
      assert arena[..] == EMPTY.arena;
      AllFreeIsEmpty(State());
    }

    /** Re-initialisation frees every slot. The size field of a free slot keeps its old value. */
    method Reset()
      requires Valid()
      modifies this, entries, arena
      ensures Valid() && Contents(State()) == map[] && used == 0 && maxCooldown == 0
      ensures RestFree(entries[..], 0) && forall k | 0 <= k < ARENA_SIZE :: arena[k] == 0
    {
      for i := 0 to CAPACITY
        invariant forall k | 0 <= k < i :: entries[k] == FREE_ENTRY.(size := entries[k].size)
      {
        entries[i] := FREE_ENTRY.(size := entries[i].size);
      }
      used := 0;
      for i := 0 to ARENA_SIZE
        invariant used == 0 && RestFree(entries[..], 0) && forall k | 0 <= k < i :: arena[k] == 0
      {
        arena[i] := 0;
      }
      maxCooldown := 0;
      AllFreeIsEmpty(State());
    }

    method FindSlot(key: Key) returns (i: nat)
      requires Valid()
      ensures i == Find(entries[..], 0, key)
      ensures i < CAPACITY <==> key in Contents(State())
    {
      i := 0;
      while i < CAPACITY && !(entries[i].valid && entries[i].key == key)
        invariant i <= CAPACITY
        invariant Find(entries[..], 0, key) == Find(entries[..], i, key)
      {
        i := i + 1;
      }
      FindAgrees(State(), key);
    }

    method FindFree() returns (i: nat)
      requires entries.Length == CAPACITY
      ensures i == FirstFree(entries[..], 0)
    {
      i := 0;
      while i < CAPACITY && entries[i].valid
        invariant i <= CAPACITY
        invariant FirstFree(entries[..], 0) == FirstFree(entries[..], i)
      {
        i := i + 1;
      }
    }

    method CopyIn(offset: nat, data: seq<Byte>)
      requires offset + |data| <= arena.Length
      modifies arena
      ensures arena[..] == Overwrite(old(arena[..]), offset, data)
    {
      for i := 0 to |data|
        invariant forall k | 0 <= k < i :: arena[offset + k] == data[k]
        invariant forall k | 0 <= k < offset || offset + i <= k < arena.Length :: arena[k] == old(arena[k])
      {
        arena[offset + i] := data[i];
      }
      assert arena[offset..offset + |data|] == data;
      assert arena[..] == arena[..offset] + arena[offset..offset + |data|] + arena[offset + |data|..];
    }

    /** memcmp of a stored slice with `data`, which has the same length. */
    method Differs(offset: nat, data: seq<Byte>) returns (differs: bool)
      requires offset + |data| <= arena.Length
      ensures differs <==> arena[offset..offset + |data|] != data
    {
      for i := 0 to |data|
        invariant forall k | 0 <= k < i :: arena[offset + k] == data[k]
      {
        if arena[offset + i] != data[i] {
          assert arena[offset..offset + |data|][i] != data[i];
          return true;
        }
      }
      return false;
    }

    /** Overwrites the bytes of an entry with others of the same length, and marks it, if they differ. */
    method StoreAt(i: nat, data: seq<Byte>) returns (changed: bool)
      requires i < entries.Length && entries[i].size == |data| && entries[i].offset + |data| <= arena.Length
      modifies entries, arena
      ensures changed <==> Slice(old(arena[..]), old(entries[i])) != data
      ensures State() == if changed then Store(old(State()), i, data) else old(State())
    {
      changed := Differs(entries[i].offset, data);
      if !changed {
        return false;
      }
      CopyIn(entries[i].offset, data);
      entries[i] := entries[i].(dirty := changed);
    }

    method InsertAt(slot: nat, key: Key, data: seq<Byte>)
      requires slot < entries.Length && used + |data| <= arena.Length
      modifies this`used, entries, arena
      ensures State() == Insert(old(State()), slot, key, data)
    {
      CopyIn(used, data);
      entries[slot] := Entry(key, used, |data|, true, entries[slot].cooldown, true);
      used := used + |data|;
    }

    method UpdateEntry(key: Key, data: seq<Byte>) returns (changed: bool)
      requires Valid()
      modifies this, entries, arena
      ensures Valid()
      ensures (State(), changed) == Update(old(State()), key, data)
      ensures Contents(State()) == MapUpdate(old(Contents(State())), key, data)
      ensures changed <==> Contents(State()) != old(Contents(State()))
    {
      UpdateRefinesMap(State(), key, data);
      SlotFits(State(), key);
      hide WellFormed, MapUpdate, Contents, Find, FirstFree, Slice, Store, Insert;
      if |data| > MAX_DATA_SIZE {
        return false;
      }
      var i := FindSlot(key);
      if i < CAPACITY {
        if |data| != entries[i].size {
          return false;
        }
        changed := StoreAt(i, data);
        return changed;
      }
      var slot := FindFree();
      if slot == CAPACITY {
        return false;
      }
      if used + |data| > ARENA_SIZE {
        return false;
      }
      InsertAt(slot, key, data);
      return true;
    }

    /** Hands out the next eligible entry at or after `cursor` and copies its bytes in the same hold. */
    method SnapshotNextUpdated(cursor: nat) returns (next: nat, slot: nat, data: seq<Byte>)
      requires Valid() && cursor <= CAPACITY
      modifies entries
      ensures Valid() && Contents(State()) == old(Contents(State()))
      ensures (State(), next, slot) == Snapshot(old(State()), cursor)
      ensures slot < CAPACITY ==>
                && entries[slot].valid && entries[slot].key in Contents(State())
                && data == Contents(State())[entries[slot].key]
      ensures slot == CAPACITY ==> data == []
    {
      hide KeysDiffer, Tiled, SizesOk, RestFree, FirstFree, Contents;
      SnapshotKeepsMap(State(), cursor);
      slot := cursor;
      while slot < CAPACITY
        invariant cursor <= slot <= CAPACITY
        invariant NextEligible(entries[..], cursor, maxCooldown) == NextEligible(entries[..], slot, maxCooldown)
        invariant entries[..] == old(entries[..])
      {
        var e := entries[slot];
        if e.valid && e.dirty && !(maxCooldown > 0 && e.cooldown > 0) {
          InUse(State(), slot);
          entries[slot] := e.(dirty := false);
          data := arena[e.offset..e.offset + e.size];
          return slot + 1, slot, data;
        }
        slot := slot + 1;
      }
      return 0, CAPACITY, [];
    }

    method MarkEach()
      modifies entries
      ensures entries[..] == TouchAll(old(entries[..]))
    {
      for i := 0 to entries.Length
        invariant forall k | 0 <= k < i :: entries[k] == Touched(old(entries[k]))
        invariant forall k | i <= k < entries.Length :: entries[k] == old(entries[k])
      {
        if entries[i].valid {
          entries[i] := entries[i].(dirty := true, cooldown := 0);
        }
      }
      assert entries[..] == TouchAll(old(entries[..]));
    }

    method MarkAll()
      requires Valid()
      modifies entries
      ensures Valid() && State() == MarkAllUpdated(old(State()))
      ensures Contents(State()) == old(Contents(State()))
    {
      SweepsKeepMap(State());
      hide WellFormed, FirstFree, SameLayout, Contents, TouchAll;
      MarkEach();
    }

    /** `slot` was handed out by a snapshot, so it is in use: entries are never removed. */
    method MarkEntryPublished(slot: nat)
      requires Valid() && slot < Filled(State())
      modifies entries
      ensures Valid() && State() == MarkPublished(old(State()), slot)
      ensures Contents(State()) == old(Contents(State()))
    {
      hide WellFormed;
      MarksKeepMap(State(), slot);
      if maxCooldown > 0 {
        entries[slot] := entries[slot].(cooldown := maxCooldown);
      }
    }

    method MarkEntryUnpublished(slot: nat)
      requires Valid() && slot < Filled(State())
      modifies entries
      ensures Valid() && State() == MarkUnpublished(old(State()), slot)
      ensures Contents(State()) == old(Contents(State()))
    {
      hide WellFormed;
      MarksKeepMap(State(), slot);
      entries[slot] := entries[slot].(dirty := true);
    }

    method TickEach()
      modifies entries
      ensures entries[..] == TickAll(old(entries[..]))
    {
      for i := 0 to entries.Length
        invariant forall k | 0 <= k < i :: entries[k] == Ticked(old(entries[k]))
        invariant forall k | i <= k < entries.Length :: entries[k] == old(entries[k])
      {
        if entries[i].valid && entries[i].dirty && entries[i].cooldown > 0 {
          entries[i] := entries[i].(cooldown := entries[i].cooldown - 1);
        }
      }
      assert entries[..] == TickAll(old(entries[..]));
    }

    method Tick()
      requires Valid()
      modifies entries
      ensures Valid() && State() == TickCooldowns(old(State()))
      ensures Contents(State()) == old(Contents(State()))
    {
      SweepsKeepMap(State());
      hide WellFormed, FirstFree, SameLayout, Contents, TickAll;
      if maxCooldown == 0 {
        return;
      }
      TickEach();
    }

    method Count() returns (count: nat)
      requires Valid()
      ensures count == |Contents(State())|
    {
      ghost var n := Filled(State());
      count := 0;
      for i := 0 to CAPACITY
        invariant count == Min(i, n)
      {
        if entries[i].valid {
          count := count + 1;
        }
      }
      ContentsSize(entries[..], arena[..], n);
    }

    method SetThrottleRate(rate: Byte)
      requires Valid()
      modifies this`maxCooldown
      ensures Valid() && State() == SetThrottle(old(State()), rate)
      ensures Contents(State()) == old(Contents(State()))
    {
      maxCooldown := rate;
    }
  }
}
