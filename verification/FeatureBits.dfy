/** The feature-bit manager: it reads eleven feature ERDs one after the other and then turns the descriptor
    tables they select from into a list of valid ERDs, a few descriptors per timer tick. */
module FeatureBits {
  import opened Common
  import opened Dedup

  const MAX_ERDS: nat := 645
  const COMMON_PER_TICK: nat := 4
  const APPLIANCE_SLOTS: nat := 10
  const SLOT_SIZE: nat := 8
  const WORD: nat := 32

  const COMMON_FEATURE_API: Erd := 0x0092

  /** The ERDs read, in order: the common one and the ten appliance ones. */
  const FEATURE_ERDS: seq<Erd> :=
    [COMMON_FEATURE_API, 0x0093, 0x0094, 0x0095, 0x0096, 0x0097, 0x0109, 0x010A, 0x010B, 0x010C, 0x010D]

  /** ERDs valid whatever the feature bits say: model, serial number, appliance type and the feature ERDs. */
  const MANDATORY: seq<Erd> := [0x0001, 0x0002, 0x0008] + FEATURE_ERDS

  /** A uint32_t mask. */
  type Mask = x: int | 0 <= x < 0x1_0000_0000

  datatype CommonDescriptor = CommonDescriptor(mask: Mask, erds: seq<Erd>)

  datatype ApplianceDescriptor = ApplianceDescriptor(featureType: nat, version: nat, mask: Mask, erds: seq<Erd>)

  /** The generated tables and the bytes read into the eleven slots (an unread slot is empty). */
  datatype Input = Input(common: seq<CommonDescriptor>, appliance: seq<ApplianceDescriptor>, slots: seq<seq<Byte>>)

  // ---------------------------------------------------------------- one batch pass

  /** Big-endian value of a byte string. */
  function BigEndian(bytes: seq<Byte>): nat {
    if bytes == [] then 0 else 0x100 * BigEndian(bytes[..|bytes| - 1]) + bytes[|bytes| - 1]
  }

  /** a & b on words of `width` bits. */
  function And(a: nat, b: nat, width: nat): nat
    decreases width
  {
    if width == 0 then 0 else 2 * And(a / 2, b / 2, width - 1) + (if a % 2 == 1 && b % 2 == 1 then 1 else 0)
  }

  /** What an appliance feature ERD says: big-endian type, version and feature bitmap. */
  datatype Feature = Feature(featureType: nat, version: nat, bitmap: nat)

  function FeatureOf(slot: seq<Byte>): Feature
    requires |slot| == SLOT_SIZE
  {
    Feature(BigEndian(slot[0..2]), BigEndian(slot[2..4]), BigEndian(slot[4..8]))
  }

  function CommonErds(d: CommonDescriptor, bits: nat): seq<Erd> {
    if And(bits, d.mask, WORD) != 0 then d.erds else []
  }

  /** ERDs selected by the common descriptors lo..hi. */
  function FromCommon(i: Input, lo: nat, hi: nat): seq<Erd>
    requires |i.slots| == 11 && lo <= hi <= |i.common|
    decreases hi
  {
    if lo == hi || i.slots[0] == [] then []
    else FromCommon(i, lo, hi - 1) + CommonErds(i.common[hi - 1], BigEndian(i.slots[0]))
  }

  function ApplianceErds(d: ApplianceDescriptor, slot: seq<Byte>): seq<Erd>
    requires |slot| == SLOT_SIZE
  {
    var f := FeatureOf(slot);
    if d.featureType == f.featureType && d.version == f.version && And(f.bitmap, d.mask, WORD) != 0 then d.erds else []
  }

  function FromDescriptors(ds: seq<ApplianceDescriptor>, slot: seq<Byte>): seq<Erd>
    requires |slot| == SLOT_SIZE
  {
    if ds == [] then [] else FromDescriptors(ds[..|ds| - 1], slot) + ApplianceErds(ds[|ds| - 1], slot)
  }

  /** ERDs selected by one appliance feature ERD; a short or all-zero one selects nothing. */
  function Slot(i: Input, k: nat): seq<Erd>
    requires |i.slots| == 11 && k < APPLIANCE_SLOTS
  {
    var slot := i.slots[k + 1];
    if |slot| != SLOT_SIZE || FeatureOf(slot) == Feature(0, 0, 0) then [] else FromDescriptors(i.appliance, slot)
  }

  function Slots(i: Input, n: nat): seq<Erd>
    requires |i.slots| == 11 && n <= APPLIANCE_SLOTS
  {
    if n == 0 then [] else Slots(i, n - 1) + Slot(i, n - 1)
  }

  /** Everything selected, in order and with repetitions. */
  function Selected(i: Input): seq<Erd>
    requires |i.slots| == 11
  {
    FromCommon(i, 0, |i.common|) + Slots(i, APPLIANCE_SLOTS) + MANDATORY
  }

  // ---------------------------------------------------------------- the incremental pass

  datatype Parse = Parse(commonIndex: nat, commonDone: bool, slotIndex: nat, valid: seq<Erd>, complete: bool)

  function Tick(i: Input, p: Parse): Parse
    requires |i.slots| == 11 && p.commonIndex <= |i.common|
  {
    var valid := if p.slotIndex == 0 && !p.commonDone && p.commonIndex == 0 then [] else p.valid;
    if !p.commonDone then
      var end := Min(p.commonIndex + COMMON_PER_TICK, |i.common|);
      p.(valid := AddAllUnique(valid, FromCommon(i, p.commonIndex, end), MAX_ERDS),
         commonIndex := end, commonDone := end == |i.common|)
    else if p.slotIndex < APPLIANCE_SLOTS then
      p.(valid := AddAllUnique(valid, Slot(i, p.slotIndex), MAX_ERDS), slotIndex := p.slotIndex + 1)
    else
      p.(valid := AddAllUnique(valid, MANDATORY, MAX_ERDS), complete := true)
  }

  /** Ticks spent on `n` common descriptors: four a tick, and one tick when there are none. */
  function CommonTicks(n: nat): nat {
    if n == 0 then 1 else (n + COMMON_PER_TICK - 1) / COMMON_PER_TICK
  }

  function After(i: Input, p: Parse, n: nat): (q: Parse)
    requires |i.slots| == 11 && p.commonIndex <= |i.common|
    ensures q.commonIndex <= |i.common|
  {
    if n == 0 then p else Tick(i, After(i, p, n - 1))
  }

  lemma {:induction false} CommonSplit(i: Input, a: nat, b: nat, c: nat)
    requires |i.slots| == 11 && a <= b <= c <= |i.common|
    ensures FromCommon(i, a, b) + FromCommon(i, b, c) == FromCommon(i, a, c)
    decreases c
  {
    hide BigEndian, CommonErds;
    if b < c && i.slots[0] != [] {
      CommonSplit(i, a, b, c - 1);
    }
  }

  /** The last descriptors are reached in the last of the ticks, not before. */
  lemma TicksCount(n: nat, common: nat)
    requires 0 < n <= CommonTicks(common)
    ensures n < CommonTicks(common) ==> COMMON_PER_TICK * n < common
    ensures n == CommonTicks(common) ==> COMMON_PER_TICK * n >= common
  {
  }

  lemma AfterNext(i: Input, p: Parse, n: nat)
    requires |i.slots| == 11 && p.commonIndex <= |i.common|
    ensures After(i, p, 0) == p && (n > 0 ==> After(i, p, n) == Tick(i, After(i, p, n - 1)))
  {
    hide Tick;
  }

  /** A tick of the common phase; the first one starts from an empty list. */
  lemma CommonTick(i: Input, p: Parse)
    requires |i.slots| == 11 && p.commonIndex <= |i.common| && !p.commonDone && p.slotIndex == 0
    ensures var q, end := Tick(i, p), Min(p.commonIndex + COMMON_PER_TICK, |i.common|);
            && q.valid == AddAllUnique(if p.commonIndex == 0 then [] else p.valid, FromCommon(i, p.commonIndex, end), MAX_ERDS)
            && q.commonIndex == end && q.commonDone == (end == |i.common|)
            && q.slotIndex == p.slotIndex && q.complete == p.complete
  {
    hide AddAllUnique, FromCommon;
  }

  /** During the common phase the list is the bounded dedup of what the descriptors seen so far select. */
  lemma {:induction false} AfterCommon(i: Input, p: Parse, n: nat)
    requires |i.slots| == 11 && p.commonIndex == 0 && !p.commonDone && p.slotIndex == 0 && !p.complete
    requires 0 < n <= CommonTicks(|i.common|)
    ensures var q := After(i, p, n);
            && q.commonIndex == Min(COMMON_PER_TICK * n, |i.common|)
            && q.valid == AddAllUnique([], FromCommon(i, 0, q.commonIndex), MAX_ERDS)
            && (q.commonDone <==> n == CommonTicks(|i.common|)) && q.slotIndex == 0 && !q.complete
  {
    hide AddAllUnique, FromCommon, CommonTicks, After, Tick;
    TicksCount(n, |i.common|);
    AfterNext(i, p, n);
    if n == 1 {
      AfterNext(i, p, 0);
      CommonTick(i, p);
    } else {
      TicksCount(n - 1, |i.common|);
      AfterCommon(i, p, n - 1);
      var r := After(i, p, n - 1);
      CommonTick(i, r);
      var end := Min(r.commonIndex + COMMON_PER_TICK, |i.common|);
      CommonSplit(i, 0, r.commonIndex, end);
      AddAllUniqueAppend([], FromCommon(i, 0, r.commonIndex), FromCommon(i, r.commonIndex, end), MAX_ERDS);
    }
  }

  /** Then the appliance slots follow, one a tick. */
  lemma {:induction false} AfterSlots(i: Input, p: Parse, k: nat)
    requires |i.slots| == 11 && p.commonIndex == 0 && !p.commonDone && p.slotIndex == 0 && !p.complete
    requires k <= APPLIANCE_SLOTS
    ensures var q := After(i, p, CommonTicks(|i.common|) + k);
            && q.commonDone && q.slotIndex == k && !q.complete
            && q.valid == AddAllUnique([], FromCommon(i, 0, |i.common|) + Slots(i, k), MAX_ERDS)
  {
    hide AddAllUnique, FromCommon, Slot;
    if k == 0 {
      AfterCommon(i, p, CommonTicks(|i.common|));
      assert FromCommon(i, 0, |i.common|) + [] == FromCommon(i, 0, |i.common|);
    } else {
      hide CommonTicks;
      AfterSlots(i, p, k - 1);
      var before := FromCommon(i, 0, |i.common|) + Slots(i, k - 1);
      AddAllUniqueAppend([], before, Slot(i, k - 1), MAX_ERDS);
      assert before + Slot(i, k - 1) == FromCommon(i, 0, |i.common|) + Slots(i, k);
      assert After(i, p, CommonTicks(|i.common|) + k) == Tick(i, After(i, p, CommonTicks(|i.common|) + (k - 1)));
    }
  }

  /** Four descriptors a tick, rounded up, and one tick when there are none. */
  lemma CommonTicksAre(n: nat)
    ensures CommonTicks(n) == if n == 0 then 1 else (n + 3) / 4
  {
  }

  /** Incremental parsing is one batch pass. From any list whatever, it completes in exactly ceil(N / 4) + 11
      ticks for N > 0 common descriptors (12 for none), and then holds the ordered dedup of everything
      selected, cut at capacity. */
  lemma ParsingIsOneBatch(i: Input, p: Parse, n: nat)
    requires |i.slots| == 11 && p.commonIndex == 0 && !p.commonDone && p.slotIndex == 0 && !p.complete
    requires n <= CommonTicks(|i.common|) + 11
    ensures After(i, p, n).complete <==> n == CommonTicks(|i.common|) + 11
    ensures n == CommonTicks(|i.common|) + 11 ==> After(i, p, n).valid == Cut(Unique(Selected(i)), MAX_ERDS)
  {
    hide AddAllUnique, FromCommon, Slot, Slots, CommonTicks, Unique;
    var c := CommonTicks(|i.common|);
    if n == c + 11 {
      AfterSlots(i, p, APPLIANCE_SLOTS);
      assert After(i, p, n) == Tick(i, After(i, p, c + APPLIANCE_SLOTS));
      AddAllUniqueAppend([], FromCommon(i, 0, |i.common|) + Slots(i, APPLIANCE_SLOTS), MANDATORY, MAX_ERDS);
      AddAllUniqueIsCutUnique(Selected(i), MAX_ERDS);
    } else if n >= c {
      AfterSlots(i, p, n - c);
    } else if n > 0 {
      AfterCommon(i, p, n);
    }
  }

  /** A mandatory ERD is always valid unless the list is full. */
  lemma MandatoryIsValid(i: Input, e: Erd)
    requires |i.slots| == 11 && e in MANDATORY
    ensures var valid := Cut(Unique(Selected(i)), MAX_ERDS);
            e in valid || |valid| == 645
  {
    UniqueIsOrderedDedup(Selected(i));
    assert e in Selected(i);
  }

  // ---------------------------------------------------------------- what the bytes say

  /** `n` in `width` big-endian bytes. */
  function ToBytes(n: nat, width: nat): (bytes: seq<Byte>)
    ensures |bytes| == width
    decreases width
  {
    if width == 0 then [] else ToBytes(n / 0x100, width - 1) + [n % 0x100]
  }

  function Pow256(width: nat): nat {
    if width == 0 then 1 else 0x100 * Pow256(width - 1)
  }

  lemma NoBytes()
    ensures ToBytes(0, 0) == [] && BigEndian([]) == 0 && Pow256(0) == 1
  {
  }

  lemma OneMoreByte(high: nat, low: Byte, width: nat)
    ensures ToBytes(0x100 * high + low, width + 1) == ToBytes(high, width) + [low]
    ensures Pow256(width + 1) == 0x100 * Pow256(width)
  {
    assert (0x100 * high + low) / 0x100 == high && (0x100 * high + low) % 0x100 == low;
  }

  lemma BigEndianAppend(bytes: seq<Byte>, low: Byte)
    ensures BigEndian(bytes + [low]) == 0x100 * BigEndian(bytes) + low
  {
    assert (bytes + [low])[..|bytes|] == bytes;
  }

  lemma HighAndLow(n: nat, m: nat) returns (high: nat, low: Byte)
    requires n < 0x100 * m
    ensures high < m && n == 0x100 * high + low
  {
    high, low := n / 0x100, n % 0x100;
  }

  lemma StaysBelow(high: nat, low: Byte, m: nat)
    requires high < m
    ensures 0x100 * high + low < 0x100 * m
  {
  }

  /** Reading big-endian bytes gives the number they were written from. */
  lemma {:induction false} BigEndianReads(n: nat, width: nat)
    requires n < Pow256(width)
    ensures BigEndian(ToBytes(n, width)) == n
    decreases width
  {
    hide *;
    NoBytes();
    if width > 0 {
      OneMoreByte(0, 0, width - 1);
      var high, low := HighAndLow(n, Pow256(width - 1));
      OneMoreByte(high, low, width - 1);
      BigEndianReads(high, width - 1);
      BigEndianAppend(ToBytes(high, width - 1), low);
    }
  }

  /** Every byte string is the writing of the number read from it. */
  lemma {:induction false} BigEndianSpells(bytes: seq<Byte>)
    ensures BigEndian(bytes) < Pow256(|bytes|) && ToBytes(BigEndian(bytes), |bytes|) == bytes
  {
    hide *;
    NoBytes();
    if bytes != [] {
      var front, low := bytes[..|bytes| - 1], bytes[|bytes| - 1];
      assert bytes == front + [low];
      BigEndianSpells(front);
      BigEndianAppend(front, low);
      OneMoreByte(BigEndian(front), low, |front|);
      StaysBelow(BigEndian(front), low, Pow256(|front|));
    }
  }

  predicate FeatureOk(f: Feature) {
    f.featureType < 0x1_0000 && f.version < 0x1_0000 && f.bitmap < 0x1_0000_0000
  }

  /** The eight bytes of a feature ERD. */
  function Encoded(f: Feature): (slot: seq<Byte>)
    ensures |slot| == SLOT_SIZE
  {
    ToBytes(f.featureType, 2) + ToBytes(f.version, 2) + ToBytes(f.bitmap, 4)
  }

  lemma Widths()
    ensures Pow256(2) == 0x1_0000 && Pow256(4) == 0x1_0000_0000
  {
    assert Pow256(0) == 1 && Pow256(1) == 0x100 && Pow256(3) == 0x100_0000;
  }

  /** The fields read from a slot are the ones it was written from. */
  lemma FeatureReads(f: Feature)
    requires FeatureOk(f)
    ensures FeatureOf(Encoded(f)) == f
  {
    hide BigEndian, ToBytes;
    var slot := Encoded(f);
    assert slot[0..2] == ToBytes(f.featureType, 2) && slot[2..4] == ToBytes(f.version, 2);
    assert slot[4..8] == ToBytes(f.bitmap, 4);
    Widths();
    BigEndianReads(f.featureType, 2);
    BigEndianReads(f.version, 2);
    BigEndianReads(f.bitmap, 4);
  }

  /** Every slot of eight bytes is written from some fields. */
  lemma FeatureSpells(slot: seq<Byte>)
    requires |slot| == SLOT_SIZE
    ensures FeatureOk(FeatureOf(slot)) && Encoded(FeatureOf(slot)) == slot
  {
    hide BigEndian, ToBytes;
    Widths();
    BigEndianSpells(slot[0..2]);
    BigEndianSpells(slot[2..4]);
    BigEndianSpells(slot[4..8]);
    assert slot == slot[0..2] + slot[2..4] + slot[4..8];
  }

  // ---------------------------------------------------------------- which ERDs are valid

  /** Bit `j` of `n`. */
  predicate Bit(n: nat, j: nat)
    decreases j
  {
    if j == 0 then n % 2 == 1 else Bit(n / 2, j - 1)
  }

  /** A bit below 32 is set in both. */
  ghost predicate Share(n: nat, m: nat) {
    exists j: nat :: j < 32 && Bit(n, j) && Bit(m, j)
  }

  lemma {:induction false} AndHasBit(a: nat, b: nat, width: nat) returns (j: nat)
    requires And(a, b, width) != 0
    ensures j < width && Bit(a, j) && Bit(b, j)
    decreases width
  {
    if a % 2 == 1 && b % 2 == 1 {
      j := 0;
    } else {
      var k := AndHasBit(a / 2, b / 2, width - 1);
      j := k + 1;
    }
  }

  lemma {:induction false} BitInAnd(a: nat, b: nat, width: nat, j: nat)
    requires j < width && Bit(a, j) && Bit(b, j)
    ensures And(a, b, width) != 0
    decreases width
  {
    if j > 0 { BitInAnd(a / 2, b / 2, width - 1, j - 1); }
  }

  /** Masking leaves something exactly if a bit is shared. */
  lemma ShareIsAnd(n: nat, m: nat)
    ensures And(n, m, WORD) != 0 <==> Share(n, m)
  {
    hide And, Bit;
    if And(n, m, WORD) != 0 {
      var j := AndHasBit(n, m, WORD);
    }
    if Share(n, m) {
      var j: nat :| j < 32 && Bit(n, j) && Bit(m, j);
      BitInAnd(n, m, WORD, j);
    }
  }

  lemma {:induction false} NoBit(j: nat)
    ensures !Bit(0, j)
    decreases j
  {
    if j > 0 { NoBit(j - 1); }
  }

  lemma NothingShared(m: nat)
    ensures !Share(0, m)
  {
    forall j: nat ensures !Bit(0, j) { NoBit(j); }
  }

  /** The answer to the common feature ERD sets a bit of a common descriptor that names `e`. */
  ghost predicate CommonNames(i: Input, e: Erd)
    requires |i.slots| == 11
  {
    exists n: nat, c: nat ::
      && i.slots[0] == ToBytes(n, |i.slots[0]|) && n < Pow256(|i.slots[0]|) && i.slots[0] != []
      && c < |i.common| && Share(n, i.common[c].mask) && e in i.common[c].erds
  }

  /** The answer to an appliance feature ERD carries the type and version of a descriptor that names `e`, and a bit of
      its mask. */
  ghost predicate ApplianceNames(i: Input, e: Erd)
    requires |i.slots| == 11
  {
    exists f: Feature, s: seq<Byte>, d: nat ::
      && s in i.slots[1..] && s == Encoded(f) && FeatureOk(f)
      && d < |i.appliance| && i.appliance[d].featureType == f.featureType && i.appliance[d].version == f.version
      && Share(f.bitmap, i.appliance[d].mask) && e in i.appliance[d].erds
  }

  /** Model number, serial number, appliance type and the feature ERDs. */
  predicate Mandatory(e: Erd) {
    e == 0x0001 || e == 0x0002 || e == 0x0008 || 0x0092 <= e <= 0x0097 || 0x0109 <= e <= 0x010D
  }

  lemma MandatoryAre(e: Erd)
    ensures e in MANDATORY <==> Mandatory(e)
  {
    assert MANDATORY == [0x0001, 0x0002, 0x0008, 0x0092, 0x0093, 0x0094, 0x0095, 0x0096, 0x0097,
                         0x0109, 0x010A, 0x010B, 0x010C, 0x010D];
  }

  lemma {:induction false} InCommon(i: Input, n: nat, e: Erd)
    requires |i.slots| == 11 && n <= |i.common|
    ensures e in FromCommon(i, 0, n) <==>
              i.slots[0] != [] && exists c: nat :: c < n && e in CommonErds(i.common[c], BigEndian(i.slots[0]))
  {
    hide CommonErds, BigEndian;
    if n > 0 && i.slots[0] != [] {
      InCommon(i, n - 1, e);
      assert e in CommonErds(i.common[n - 1], BigEndian(i.slots[0])) ==> e in FromCommon(i, 0, n);
    }
  }

  lemma {:induction false} InDescriptors(ds: seq<ApplianceDescriptor>, slot: seq<Byte>, e: Erd)
    requires |slot| == SLOT_SIZE
    ensures e in FromDescriptors(ds, slot) <==> exists d: nat :: d < |ds| && e in ApplianceErds(ds[d], slot)
  {
    hide ApplianceErds;
    if ds != [] {
      var front := ds[..|ds| - 1];
      InDescriptors(front, slot, e);
      if e in FromDescriptors(front, slot) {
        var d: nat :| d < |front| && e in ApplianceErds(front[d], slot);
        assert front[d] == ds[d];
      }
      forall d: nat | d < |ds| - 1 && e in ApplianceErds(ds[d], slot)
        ensures e in FromDescriptors(front, slot)
      {
        assert front[d] == ds[d];
      }
    }
  }

  lemma {:induction false} InSlots(i: Input, n: nat, e: Erd)
    requires |i.slots| == 11 && n <= APPLIANCE_SLOTS
    ensures e in Slots(i, n) <==> exists k: nat :: k < n && e in Slot(i, k)
  {
    hide Slot;
    if n > 0 { InSlots(i, n - 1, e); }
  }

  lemma CommonExactly(i: Input, e: Erd)
    requires |i.slots| == 11
    ensures e in FromCommon(i, 0, |i.common|) <==> CommonNames(i, e)
  {
    hide BigEndian, ToBytes, Pow256, FromCommon, Share, And;
    forall n: nat, m: nat
      ensures And(n, m, WORD) != 0 <==> Share(n, m)
    {
      ShareIsAnd(n, m);
    }
    var bytes := i.slots[0];
    InCommon(i, |i.common|, e);
    BigEndianSpells(bytes);
    if CommonNames(i, e) {
      var n: nat, c: nat :|
        && bytes == ToBytes(n, |bytes|) && n < Pow256(|bytes|) && bytes != []
        && c < |i.common| && Share(n, i.common[c].mask) && e in i.common[c].erds;
      BigEndianReads(n, |bytes|);
      assert e in CommonErds(i.common[c], BigEndian(bytes));
    }
    if e in FromCommon(i, 0, |i.common|) {
      var n := BigEndian(bytes);
      var c: nat :| c < |i.common| && e in CommonErds(i.common[c], n);
      assert bytes == ToBytes(n, |bytes|) && Share(n, i.common[c].mask) && e in i.common[c].erds;
    }
  }

  /** A descriptor selected by a slot of eight bytes; an all-zero one sets no bit, so skipping it leaves nothing out. */
  lemma InApplianceErds(d: ApplianceDescriptor, slot: seq<Byte>, e: Erd)
    requires |slot| == SLOT_SIZE
    ensures var f := FeatureOf(slot);
            && (e in ApplianceErds(d, slot) <==>
                  && d.featureType == f.featureType && d.version == f.version
                  && Share(f.bitmap, d.mask) && e in d.erds)
            && (f == Feature(0, 0, 0) ==> ApplianceErds(d, slot) == [])
  {
    hide FeatureOf, And, Share;
    ShareIsAnd(FeatureOf(slot).bitmap, d.mask);
    NothingShared(d.mask);
  }

  lemma SlotExactly(i: Input, k: nat, e: Erd)
    requires |i.slots| == 11 && k < APPLIANCE_SLOTS
    ensures var slot := i.slots[k + 1];
            e in Slot(i, k) <==>
              |slot| == SLOT_SIZE && exists d: nat :: d < |i.appliance| && e in ApplianceErds(i.appliance[d], slot)
  {
    hide FeatureOf, ApplianceErds, FromDescriptors;
    var slot := i.slots[k + 1];
    if |slot| == SLOT_SIZE {
      InDescriptors(i.appliance, slot, e);
      forall d: nat | d < |i.appliance|
        ensures FeatureOf(slot) == Feature(0, 0, 0) ==> e !in ApplianceErds(i.appliance[d], slot)
      {
        InApplianceErds(i.appliance[d], slot, e);
      }
    }
  }

  lemma ApplianceExactly(i: Input, e: Erd)
    requires |i.slots| == 11
    ensures e in Slots(i, APPLIANCE_SLOTS) <==> ApplianceNames(i, e)
  {
    hide FeatureOf, ApplianceErds, Slots, Slot, Encoded, FeatureOk;
    InSlots(i, APPLIANCE_SLOTS, e);
    if e in Slots(i, APPLIANCE_SLOTS) {
      var k: nat :| k < APPLIANCE_SLOTS && e in Slot(i, k);
      SlotExactly(i, k, e);
      var s := i.slots[k + 1];
      var d: nat :| d < |i.appliance| && e in ApplianceErds(i.appliance[d], s);
      InApplianceErds(i.appliance[d], s, e);
      FeatureSpells(s);
      assert s == i.slots[1..][k];
      assert s in i.slots[1..] && s == Encoded(FeatureOf(s)) && FeatureOk(FeatureOf(s));
    }
    if ApplianceNames(i, e) {
      var f: Feature, s: seq<Byte>, d: nat :|
        && s in i.slots[1..] && s == Encoded(f) && FeatureOk(f)
        && d < |i.appliance| && i.appliance[d].featureType == f.featureType && i.appliance[d].version == f.version
        && Share(f.bitmap, i.appliance[d].mask) && e in i.appliance[d].erds;
      var k: nat :| k < 10 && i.slots[1..][k] == s;
      FeatureReads(f);
      InApplianceErds(i.appliance[d], s, e);
      SlotExactly(i, k, e);
    }
  }

  /** Exactly which ERDs come out valid, in terms of the fields the appliance encoded: the mandatory ones, those of the
      common descriptors with a bit set, and those of the appliance descriptors of a reported type and version with a
      bit set; and, unless the list is full, all of those. */
  lemma ValidExactly(i: Input, p: Parse, e: Erd)
    requires |i.slots| == 11 && p.commonIndex == 0 && !p.commonDone && p.slotIndex == 0 && !p.complete
    ensures var valid, named := After(i, p, CommonTicks(|i.common|) + 11).valid,
                                Mandatory(e) || CommonNames(i, e) || ApplianceNames(i, e);
            (e in valid ==> named) && (named ==> e in valid || |valid| == 645)
  {
    hide After, CommonTicks, CommonNames, ApplianceNames, Selected, Unique, Distinct;
    ParsingIsOneBatch(i, p, CommonTicks(|i.common|) + 11);
    CommonExactly(i, e);
    ApplianceExactly(i, e);
    InSelected(i, e);
    MandatoryAre(e);
    hide Mandatory;
    UniqueIsOrderedDedup(Selected(i));
  }

  lemma InSelected(i: Input, e: Erd)
    requires |i.slots| == 11
    ensures e in Selected(i) <==> e in MANDATORY || e in FromCommon(i, 0, |i.common|) || e in Slots(i, APPLIANCE_SLOTS)
  {
    hide FromCommon, Slots;
  }
}
