/** The feature-bit manager as the firmware runs it: events drive the read sequence, timer ticks the parse. */
module FeatureBitManagers {
  import opened Common
  import opened Dedup
  import opened FeatureBits

  datatype Stage = Reading | Parsing | Failed | Complete

  /** A read of an ERD at a board. */
  datatype Read = Read(host: Byte, erd: Erd)

  /** Client activity. */
  datatype Activity = ReadCompleted(erd: Erd, data: Option<seq<Byte>>) | ReadFailed(erd: Erd) | OtherActivity

  class FeatureBitManager {
    const common: seq<CommonDescriptor>
    const appliance: seq<ApplianceDescriptor>
    var host: Byte
    var stage: Stage
    var readingIndex: nat
    var readQueued: bool
    var slots: seq<seq<Byte>>
    var retryArmed: bool
    var parseArmed: bool
    var commonIndex: nat
    var commonDone: bool
    var slotIndex: nat
    var valid: seq<Erd>

    /** The manager's read the current client owes an answer for, if any. */
    ghost var owed: Option<Read>

    /** What became of the reads finished so far: the data stored, or None for an ERD that was skipped. */
    ghost var outcomes: seq<Option<seq<Byte>>>

    ghost function Source(): Input
      reads this
    {
      Input(common, appliance, slots)
    }

    ghost function Progress(): Parse
      reads this
    {
      Parse(commonIndex, commonDone, slotIndex, valid, stage == Complete)
    }

    /** Each slot holds the first eight bytes of its answer, or nothing if its ERD was skipped. */
    ghost predicate SlotsOk()
      reads this
    {
      && |slots| == 11 && |outcomes| == readingIndex <= 11
      && (forall k | 0 <= k < 11 ::
            slots[k] == if k < readingIndex && outcomes[k].Some? then Cut(outcomes[k].value, SLOT_SIZE) else [])
    }

    ghost predicate Valid()
      reads this
    {
      && SlotsOk() && commonIndex <= |common|
      && (stage == Reading ==> readingIndex < 11)
      && (stage == Parsing ==> parseArmed && readingIndex == 11)
      && (stage == Reading ==> commonIndex == 0 && !commonDone && slotIndex == 0)
      && (owed.Some? ==> readQueued)
    }

    /** The answer owed is the one the manager waits for. */
    ghost predicate Awaited()
      requires stage == Reading ==> readingIndex < 11
      reads this
    {
      stage == Reading && owed == Some(Read(host, FEATURE_ERDS[readingIndex]))
    }

    /** In the reading stage something will happen: the awaited answer is owed or the retry timer runs. */
    ghost predicate Live()
      requires stage == Reading ==> readingIndex < 11
      reads this
    {
      stage == Reading ==> Awaited() || retryArmed
    }

    constructor (common: seq<CommonDescriptor>, appliance: seq<ApplianceDescriptor>, host: Byte)
      ensures Valid() && stage == Reading && readingIndex == 0 && !readQueued && owed == None
    {
      this.common, this.appliance, this.host := common, appliance, host;
      stage, readingIndex, readQueued := Reading, 0, false;
      slots := EmptySlots(11);
      retryArmed, parseArmed, commonIndex, commonDone, slotIndex, valid := false, false, 0, false, 0, [];
      owed, outcomes := None, [];
    }

    /** Starts over, for a board that may be another one, with the same client, which still owes what it owed, or with
        another one, which owes nothing. The queued flag is not reset. */
    method Init(ghost sameClient: bool, address: Byte)
      requires owed.Some? ==> readQueued
      modifies this
      ensures Valid() && stage == Reading && readingIndex == 0 && !retryArmed && valid == [] && outcomes == []
      ensures host == address && readQueued == old(readQueued)
      ensures owed == if sameClient then old(owed) else None
    {
      host := address;
      ClearProgress();
      owed := if sameClient then owed else None;
    }

    /** Both timers stop, and the sequence, the parse and the data read are set back. */
    method ClearProgress()
      modifies this`retryArmed, this`parseArmed, this`stage, this`readingIndex, this`slotIndex, this`commonIndex,
               this`commonDone, this`valid, this`slots, this`outcomes
      ensures !retryArmed && !parseArmed && stage == Reading && readingIndex == 0 && valid == [] && outcomes == []
      ensures slotIndex == 0 && commonIndex == 0 && !commonDone && SlotsOk()
    {
      hide EmptySlots;
      retryArmed, parseArmed := false, false;
      stage, readingIndex, slotIndex, commonIndex, commonDone := Reading, 0, 0, 0, false;
      valid, outcomes := [], [];
      slots := EmptySlots(11);
    }

    /** Queues the first read unless one is (believed to be) queued. */
    method Start()
      requires Valid()
      modifies this
      ensures Valid() && stage == old(stage) && readingIndex == old(readingIndex) && host == old(host)
      ensures old(stage == Reading && readingIndex == 0 && !readQueued) ==> Live()
      ensures !old(stage == Reading && readingIndex == 0 && !readQueued) ==> owed == old(owed) && retryArmed == old(retryArmed)
    {
      if stage != Reading || readingIndex != 0 || readQueued {
        return;
      }
      QueueErdRead();
    }

    /** Re-initialising and starting makes the manager live exactly if no read was queued before, or if the client is
        the same and owes the first feature ERD of the very board asked now. With a flag left set by any other
        interrupted read the first read is not queued. */
    method Restart(ghost sameClient: bool, address: Byte)
      requires Valid()
      modifies this
      ensures Valid() && stage == Reading && host == address
      ensures Live() <==> !old(readQueued) || (sameClient && old(owed) == Some(Read(address, COMMON_FEATURE_API)))
    {
      Init(sameClient, address);
      Start();
    }

    method QueueErdRead()
      requires Valid() && stage == Reading && !readQueued
      modifies this`readQueued, this`owed, this`retryArmed
      ensures Valid() && Live() && readQueued == Awaited() == owed.Some?
      ensures retryArmed == (old(retryArmed) || !readQueued)
    {
      var accepted: bool := *;
      if accepted {
        readQueued, owed := true, Some(Read(host, FEATURE_ERDS[readingIndex]));
      } else {
        retryArmed := true;
      }
    }

    /** The retry timer fires once. */
    method QueueRetry()
      requires Valid() && retryArmed
      modifies this`readQueued, this`owed, this`retryArmed
      ensures Valid() && (old(Awaited() || !readQueued) ==> Live())
      ensures old(stage != Reading || readQueued) ==> !retryArmed && owed == old(owed) && readQueued == old(readQueued)
      ensures !old(stage != Reading || readQueued) ==> readQueued == Awaited() == owed.Some? && retryArmed == !readQueued
    {
      retryArmed := false;
      if stage != Reading || readQueued {
        return;
      }
      QueueErdRead();
    }

    /** The event answers the read being waited for. */
    ghost predicate Accepts(address: Byte, a: Activity)
      reads this
    {
      && address == host && stage == Reading && readQueued && readingIndex < 11
      && (a.ReadCompleted? || a.ReadFailed?) && a.erd == FEATURE_ERDS[readingIndex]
    }

    /** The event is the answer owed: the client then owes nothing any more. */
    ghost predicate Pays(address: Byte, a: Activity)
      reads this
    {
      (a.ReadCompleted? || a.ReadFailed?) && owed == Some(Read(address, a.erd))
    }

    /** Only the answer waited for advances the sequence. It is stored, or skipped if it brings no data; skipping
        the common feature ERD gives up, and the eleventh answer starts the parse. */
    method OnActivity(address: Byte, a: Activity)
      requires Valid()
      modifies this
      ensures Valid() && (old(Live()) ==> Live()) && valid == old(valid) && host == old(host)
      ensures old(address != host || stage != Reading || (readQueued && !Accepts(address, a))) ==>
                && owed == (if old(Pays(address, a)) then None else old(owed)) && readingIndex == old(readingIndex)
                && stage == old(stage) && readQueued == old(readQueued) && slots == old(slots)
                && retryArmed == old(retryArmed) && parseArmed == old(parseArmed)
                && commonIndex == old(commonIndex) && commonDone == old(commonDone) && slotIndex == old(slotIndex)
      ensures !old(Accepts(address, a)) ==> outcomes == old(outcomes) && stage == old(stage)
      ensures old(Accepts(address, a)) ==>
                var got := if a.ReadCompleted? then a.data else None;
                && stage == (if got.None? && old(readingIndex) == 0 then Failed
                             else if old(readingIndex) == 10 then Parsing else Reading)
                && (stage != Failed ==> outcomes == old(outcomes) + [got])
    {
      if Pays(address, a) {
        owed := None;
      }
      if address != host {
        return;
      }
      if stage != Reading {
        return;
      }
      if !readQueued {
        QueueErdRead();
        return;
      }
      if a.ReadCompleted? && a.erd == FEATURE_ERDS[readingIndex] {
        if a.data.None? {
          SkipToNextErd();
        } else {
          HandleReadCompleted(a.data.value);
        }
      } else if a.ReadFailed? && a.erd == FEATURE_ERDS[readingIndex] {
        SkipToNextErd();
      }
    }

    method HandleReadCompleted(data: seq<Byte>)
      requires Valid() && stage == Reading
      modifies this
      ensures valid == old(valid) && host == old(host)
      ensures Valid() && Live() && outcomes == old(outcomes) + [Some(data)]
      ensures stage == if old(readingIndex) == 10 then Parsing else Reading
    {
      readQueued, owed := false, None;
      var copied := if |data| <= SLOT_SIZE then data else data[..SLOT_SIZE];
      slots := slots[readingIndex := copied];
      Advance(Some(data));
    }

    method SkipToNextErd()
      requires Valid() && stage == Reading
      modifies this
      ensures valid == old(valid) && host == old(host)
      ensures Valid() && Live()
      ensures stage == (if old(readingIndex) == 0 then Failed else if old(readingIndex) == 10 then Parsing else Reading)
      ensures stage != Failed ==> outcomes == old(outcomes) + [None]
    {
      readQueued, owed := false, None;
      if FEATURE_ERDS[readingIndex] == COMMON_FEATURE_API {
        stage := Failed;
        return;
      }
      Advance(None);
    }

    method Advance(ghost outcome: Option<seq<Byte>>)
      requires |slots| == 11 && |outcomes| == readingIndex < 11 && stage == Reading && !readQueued && owed == None
      requires commonIndex == 0 && !commonDone && slotIndex == 0
      requires forall k | 0 <= k < 11 && k != readingIndex ::
                 slots[k] == if k < readingIndex && outcomes[k].Some? then Cut(outcomes[k].value, SLOT_SIZE) else []
      requires slots[readingIndex] == if outcome.Some? then Cut(outcome.value, SLOT_SIZE) else []
      modifies this
      ensures valid == old(valid) && host == old(host)
      ensures Valid() && Live() && outcomes == old(outcomes) + [outcome]
      ensures stage == if old(readingIndex) == 10 then Parsing else Reading
    {
      outcomes := outcomes + [outcome];
      readingIndex := readingIndex + 1;
      if readingIndex >= 11 {
        stage := Parsing;
        parseArmed := true;
        return;
      }
      QueueErdRead();
    }

    // ---------------------------------------------------------------- parsing

    method AddValidErd(erd: Erd)
      modifies this`valid
      ensures valid == AddUnique(old(valid), erd, MAX_ERDS)
    {
      for k := 0 to |valid|
        invariant valid == old(valid) && erd !in valid[..k]
      {
        if valid[k] == erd {
          return;
        }
      }
      if |valid| >= MAX_ERDS {
        return;
      }
      valid := valid + [erd];
    }

    method AddValidErds(erds: seq<Erd>)
      modifies this`valid
      ensures valid == AddAllUnique(old(valid), erds, MAX_ERDS)
    {
      for k := 0 to |erds|
        invariant valid == AddAllUnique(old(valid), erds[..k], MAX_ERDS)
      {
        AddValidErd(erds[k]);
        assert erds[..k + 1] == erds[..k] + [erds[k]];
        AddAllUniqueAppend(old(valid), erds[..k], [erds[k]], MAX_ERDS);
        AddJustOne(AddAllUnique(old(valid), erds[..k], MAX_ERDS), erds[k]);
      }
      assert erds[..|erds|] == erds;
    }

    method AddCommonDescriptor(d: CommonDescriptor, bits: nat)
      modifies this`valid
      ensures valid == AddAllUnique(old(valid), CommonErds(d, bits), MAX_ERDS)
    {
      hide AddAllUnique;
      AddNothing(valid);
      if And(bits, d.mask, WORD) != 0 {
        AddValidErds(d.erds);
      }
    }

    method AddApplianceDescriptor(d: ApplianceDescriptor, slot: seq<Byte>)
      requires |slot| == SLOT_SIZE
      modifies this`valid
      ensures valid == AddAllUnique(old(valid), ApplianceErds(d, slot), MAX_ERDS)
    {
      hide AddAllUnique, And, BigEndian;
      AddNothing(valid);
      FieldsAre(slot);
      if d.featureType == Short(slot[0], slot[1]) && d.version == Short(slot[2], slot[3]) {
        if And(Long(slot[4], slot[5], slot[6], slot[7]), d.mask, WORD) != 0 {
          AddValidErds(d.erds);
        }
      }
    }

    /** read_be64 */
    static method ReadBigEndian(buf: seq<Byte>) returns (bits: nat)
      ensures bits == BigEndian(buf)
    {
      bits := 0;
      for i := 0 to |buf|
        invariant bits == BigEndian(buf[..i])
      {
        bits := 0x100 * bits + buf[i];
        BigEndianAppend(buf[..i], buf[i]);
        assert buf[..i + 1] == buf[..i] + [buf[i]];
      }
      assert buf[..|buf|] == buf;
    }

    /** The common descriptors of one tick. */
    method AddCommon(lo: nat, hi: nat)
      requires |slots| == 11 && lo <= hi <= |common|
      modifies this`valid
      ensures valid == AddAllUnique(old(valid), FromCommon(Source(), lo, hi), MAX_ERDS)
    {
      hide AddAllUnique, FromCommon, CommonErds, BigEndian;
      ghost var source, before := Source(), valid;
      AddNothing(valid);
      FromCommonNone(source, lo);
      if slots[0] == [] {
        FromCommonUnread(source, lo, hi);
        return;
      }
      var bits := ReadBigEndian(slots[0]);
      for k := lo to hi
        invariant valid == AddAllUnique(before, FromCommon(source, lo, k), MAX_ERDS)
      {
        FromCommonNext(source, lo, k);
        AddAllUniqueAppend(before, FromCommon(source, lo, k), CommonErds(common[k], bits), MAX_ERDS);
        AddCommonDescriptor(common[k], bits);
      }
    }

    /** The descriptors one appliance feature ERD selects. */
    method AddSlot(k: nat)
      requires |slots| == 11 && k < APPLIANCE_SLOTS
      modifies this`valid
      ensures valid == AddAllUnique(old(valid), Slot(Source(), k), MAX_ERDS)
    {
      hide AddAllUnique, FromDescriptors, FeatureOf, ApplianceErds;
      ghost var before := valid;
      var slot := slots[k + 1];
      AddNothing(valid);
      if |slot| != SLOT_SIZE {
        return;
      }
      FieldsAre(slot);
      if Short(slot[0], slot[1]) == 0 && Short(slot[2], slot[3]) == 0 && Long(slot[4], slot[5], slot[6], slot[7]) == 0 {
        return;
      }
      FromDescriptorsNone(appliance, slot);
      for d := 0 to |appliance|
        invariant valid == AddAllUnique(before, FromDescriptors(appliance[..d], slot), MAX_ERDS)
      {
        FromDescriptorsNext(appliance, slot, d);
        AddAllUniqueAppend(before, FromDescriptors(appliance[..d], slot), ApplianceErds(appliance[d], slot), MAX_ERDS);
        AddApplianceDescriptor(appliance[d], slot);
      }
      assert appliance[..|appliance|] == appliance;
    }

    /** One firing of the parse timer. */
    method ParseNextStep()
      requires Valid() && stage == Parsing
      modifies this
      ensures Valid() && slots == old(slots)
      ensures Progress() == Tick(old(Source()), old(Progress()))
      ensures stage == (if Progress().complete then Complete else Parsing)
    {
      hide FromCommon, Slot, AddAllUnique;
      if slotIndex == 0 && !commonDone && commonIndex == 0 {
        valid := [];
      }
      if !commonDone {
        var start := commonIndex;
        var end := if start + COMMON_PER_TICK > |common| then |common| else start + COMMON_PER_TICK;
        AddCommon(start, end);
        commonIndex := end;
        if commonIndex >= |common| {
          commonDone := true;
        }
        return;
      }
      if slotIndex < APPLIANCE_SLOTS {
        AddSlot(slotIndex);
        slotIndex := slotIndex + 1;
        return;
      }
      AddValidErds(MANDATORY);
      parseArmed := false;
      stage := Complete;
    }

    /** All firings of the parse timer: they take the exact number of ticks and leave the batch result. */
    method ParseAll() returns (ticks: nat)
      requires Valid() && stage == Parsing && commonIndex == 0 && !commonDone && slotIndex == 0
      modifies this
      ensures Valid() && stage == Complete && ticks == CommonTicks(|common|) + 11
      ensures valid == Cut(Unique(Selected(old(Source()))), MAX_ERDS)
    {
      hide Tick, Selected, Unique, CommonTicks;
      ghost var source, start := Source(), Progress();
      ticks := 0;
      while stage == Parsing
        invariant Valid() && (stage == Parsing || stage == Complete) && slots == old(slots)
        invariant ticks <= CommonTicks(|common|) + 11
        invariant Progress() == After(source, start, ticks)
        invariant stage == Complete <==> Progress().complete
        decreases CommonTicks(|common|) + 11 - ticks
      {
        ParsingIsOneBatch(source, start, ticks);
        ParseNextStep();
        ticks := ticks + 1;
        ParsingIsOneBatch(source, start, ticks);
      }
      ParsingIsOneBatch(source, start, ticks);
    }
  }

  function EmptySlots(n: nat): (slots: seq<seq<Byte>>)
    ensures |slots| == n && forall k | 0 <= k < n :: slots[k] == []
  {
    if n == 0 then [] else EmptySlots(n - 1) + [[]]
  }

  /** (a << 8) | b */
  function Short(a: int, b: int): int {
    0x100 * a + b
  }

  /** (a << 24) | (b << 16) | (c << 8) | d */
  function Long(a: int, b: int, c: int, d: int): int {
    0x100_0000 * a + 0x1_0000 * b + 0x100 * c + d
  }

  lemma BigEndianTwo(a: Byte, b: Byte)
    ensures BigEndian([a, b]) == Short(a, b)
  {
    BigEndianAppend([], a);
    BigEndianAppend([a], b);
    assert [] + [a] == [a] && [a] + [b] == [a, b];
  }

  /** The shifts of the parser read the fields of a slot. */
  lemma FieldsAre(slot: seq<Byte>)
    requires |slot| == SLOT_SIZE
    ensures FeatureOf(slot)
         == Feature(Short(slot[0], slot[1]), Short(slot[2], slot[3]), Long(slot[4], slot[5], slot[6], slot[7]))
  {
    BigEndianTwo(slot[0], slot[1]);
    BigEndianTwo(slot[2], slot[3]);
    BigEndianTwo(slot[4], slot[5]);
    BigEndianAppend([slot[4], slot[5]], slot[6]);
    BigEndianAppend([slot[4], slot[5], slot[6]], slot[7]);
    hide BigEndian;
    assert slot[0..2] == [slot[0], slot[1]] && slot[2..4] == [slot[2], slot[3]];
    assert [slot[4], slot[5]] + [slot[6]] == [slot[4], slot[5], slot[6]];
    assert slot[4..8] == [slot[4], slot[5], slot[6]] + [slot[7]];
  }

  lemma AddNothing(list: seq<Erd>)
    ensures AddAllUnique(list, [], MAX_ERDS) == list
  {
  }

  lemma FromCommonNone(i: Input, lo: nat)
    requires |i.slots| == 11 && lo <= |i.common|
    ensures FromCommon(i, lo, lo) == []
  {
  }

  lemma FromCommonUnread(i: Input, lo: nat, hi: nat)
    requires |i.slots| == 11 && lo <= hi <= |i.common| && i.slots[0] == []
    ensures FromCommon(i, lo, hi) == []
  {
  }

  lemma FromCommonNext(i: Input, lo: nat, k: nat)
    requires |i.slots| == 11 && lo <= k < |i.common| && i.slots[0] != []
    ensures FromCommon(i, lo, k + 1) == FromCommon(i, lo, k) + CommonErds(i.common[k], BigEndian(i.slots[0]))
  {
  }

  lemma FromDescriptorsNone(ds: seq<ApplianceDescriptor>, slot: seq<Byte>)
    requires |slot| == SLOT_SIZE
    ensures FromDescriptors(ds[..0], slot) == []
  {
  }

  lemma FromDescriptorsNext(ds: seq<ApplianceDescriptor>, slot: seq<Byte>, d: nat)
    requires |slot| == SLOT_SIZE && d < |ds|
    ensures FromDescriptors(ds[..d + 1], slot) == FromDescriptors(ds[..d], slot) + ApplianceErds(ds[d], slot)
  {
    assert ds[..d + 1][..d] == ds[..d];
  }

  lemma AddJustOne(list: seq<Erd>, erd: Erd)
    ensures AddAllUnique(list, [erd], MAX_ERDS) == AddUnique(list, erd, MAX_ERDS)
  {
    assert [erd][1..] == [];
  }
}
