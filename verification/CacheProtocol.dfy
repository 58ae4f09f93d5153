/** The cache shared by its two users: the main loop, which stores readings and ticks the throttle,
    and the publisher task, which takes a snapshot, publishes it without the lock, and then settles
    the entry. Every event below is one lock hold (or the publish itself), so a sequence of events is
    an arbitrary interleaving of the two. An event the publisher is not ready for does nothing. */
module CacheProtocol {
  import opened Common
  import opened ErdCacheSpec
  import opened ErdTopic

  datatype Config = Config(deviceId: string, primary: Byte)

  /** Where the publisher task stands between lock holds. */
  datatype Phase = Idle | Holding(slot: nat, key: Key, data: seq<Byte>) | Accepted(slot: nat) | Dropped(slot: nat)

  /** `broker` holds the last payload the MQTT client accepted on each topic. */
  datatype System = System(cache: Cache, cursor: nat, phase: Phase, broker: map<string, string>)

  datatype Event =
    | MainUpdate(key: Key, data: seq<Byte>)
    | MainTick
    | MainMarkAll
    | MainSetRate(rate: Byte)
    | MainResetCursor
    | TakeSnapshot
    | TryPublish(accepted: bool)
    | Settle

  /** The cache stores physical addresses; the primary board's maps to the sentinel of the grammar. */
  function TopicFor(cfg: Config, key: Key): string {
    Printed(cfg.deviceId, Topic(if key.board == cfg.primary then PRIMARY else key.board, key.erd, Value))
  }

  predicate Fits(cfg: Config, key: Key) {
    |TopicFor(cfg, key)| < BUFFER_SIZE
  }

  /** The payload: two lowercase hex digits a byte. */
  function HexBytes(data: seq<Byte>): (s: string)
    ensures |s| == 2 * |data|
  {
    if data == [] then "" else HexBytes(data[..|data| - 1]) + Hex(data[|data| - 1], 2)
  }

  /** What a payload means: the bytes, each as two lowercase hex digits. */
  ghost predicate Carries(payload: string, data: seq<Byte>) {
    && |payload| == 2 * |data| && Lowered(payload) == payload
    && forall i | 0 <= i < |data| :: HexValue(payload[2 * i..2 * i + 2]) == Some(data[i])
  }

  lemma {:induction false} LoweredTogether(s: string, u: string)
    ensures Lowered(s + u) == Lowered(s) + Lowered(u)
  {
    if u == "" {
      assert s + u == s;
    } else {
      var front, last := u[..|u| - 1], u[|u| - 1];
      LoweredTogether(s, front);
      assert u == front + [last] && s + u == (s + front) + [last];
      LoweredAppend(s + front, last);
      LoweredAppend(front, last);
    }
  }

  lemma TwoDigits(b: Byte)
    ensures HexValue(Hex(b, 2)) == Some(b) && Lowered(Hex(b, 2)) == Hex(b, 2)
  {
    FieldRanges();
    HexReads(b, 2);
    HexReprints(Hex(b, 2));
  }

  lemma CarriesOneMore(front: string, data: seq<Byte>, b: Byte)
    requires Carries(front, data)
    ensures Carries(front + Hex(b, 2), data + [b])
  {
    hide Hex, HexValue, Lowered;
    TwoDigits(b);
    LoweredTogether(front, Hex(b, 2));
    var payload := front + Hex(b, 2);
    forall i | 0 <= i < |data| + 1
      ensures HexValue(payload[2 * i..2 * i + 2]) == Some((data + [b])[i])
    {
      if i < |data| {
        assert payload[2 * i..2 * i + 2] == front[2 * i..2 * i + 2];
      } else {
        assert payload[2 * i..2 * i + 2] == Hex(b, 2);
      }
    }
  }

  /** What is published for `data` means `data`. */
  lemma {:induction false} HexBytesCarries(data: seq<Byte>)
    ensures Carries(HexBytes(data), data)
  {
    hide Carries, Hex;
    if data == [] {
      NothingCarried();
    } else {
      var front, last := data[..|data| - 1], data[|data| - 1];
      HexBytesCarries(front);
      CarriesOneMore(HexBytes(front), front, last);
      assert data == front + [last];
    }
  }

  lemma NothingCarried()
    ensures Carries("", [])
  {
  }

  /** A payload means one byte string at most. */
  lemma CarriesOne(payload: string, data: seq<Byte>, other: seq<Byte>)
    requires Carries(payload, data) && Carries(payload, other)
    ensures data == other
  {
    forall i | 0 <= i < |data|
      ensures data[i] == other[i]
    {
      assert HexValue(payload[2 * i..2 * i + 2]) == Some(data[i]) == Some(other[i]);
    }
  }

  /** The topic a board's value of an ERD is published on: the legacy form for the primary board, the form with the
      board's own address for every other. */
  ghost predicate Names(cfg: Config, topic: string, key: Key) {
    exists t: Topic :: Spells(topic, cfg.deviceId, t) && t.op == Value && t.erd == key.erd
                       && t.board == if key.board == cfg.primary then PRIMARY else key.board
  }

  lemma TopicNames(cfg: Config, key: Key)
    ensures Names(cfg, TopicFor(cfg, key), key)
  {
    hide Spells, Printed;
    var t := Topic(if key.board == cfg.primary then PRIMARY else key.board, key.erd, Value);
    PrintedSpells(cfg.deviceId, t);
    assert Spells(TopicFor(cfg, key), cfg.deviceId, t);
  }

  /** Reading a published topic back as the write path does, where the legacy form stands for the primary board,
      gives the key it was published for. */
  lemma TopicReadsBack(cfg: Config, key: Key, t: Topic)
    requires key.board != PRIMARY && Spells(TopicFor(cfg, key), cfg.deviceId, t)
    ensures t.op == Value && Key(t.erd, if t.board == PRIMARY then cfg.primary else t.board) == key
  {
    RoundTrip(cfg.deviceId, Topic(if key.board == cfg.primary then PRIMARY else key.board, key.erd, Value), t);
  }

  const INITIAL := System(EMPTY, 0, Idle, map[])

  ghost predicate Sound(s: System) {
    && WellFormed(s.cache) && |s.cache.entries| == CAPACITY && s.cursor <= CAPACITY
    && (!s.phase.Idle? ==> s.phase.slot < Filled(s.cache))
  }

  function Step(cfg: Config, s: System, e: Event): System
    requires Sound(s)
  {
    match e
    case MainUpdate(key, data) => s.(cache := Update(s.cache, key, data).0)
    case MainTick => s.(cache := TickCooldowns(s.cache))
    case MainMarkAll => s.(cache := MarkAllUpdated(s.cache))
    case MainSetRate(rate) => s.(cache := SetThrottle(s.cache, rate))
    case MainResetCursor => s.(cursor := 0)
    case TakeSnapshot =>
      if !s.phase.Idle? then s
      else
        var (cache, cursor, slot) := Snapshot(s.cache, s.cursor);
        var entry := if slot < CAPACITY then Holding(slot, cache.entries[slot].key, Slice(cache.arena, cache.entries[slot])) else Idle;
        s.(cache := cache, cursor := cursor, phase := entry)
    case TryPublish(accepted) =>
      if !s.phase.Holding? then s
      else if !Fits(cfg, s.phase.key) then s.(phase := Idle)
      else if accepted then
        s.(phase := Accepted(s.phase.slot), broker := s.broker[TopicFor(cfg, s.phase.key) := HexBytes(s.phase.data)])
      else s.(phase := Dropped(s.phase.slot))
    case Settle =>
      if s.phase.Accepted? then s.(cache := MarkPublished(s.cache, s.phase.slot), phase := Idle)
      else if s.phase.Dropped? then s.(cache := MarkUnpublished(s.cache, s.phase.slot), phase := Idle)
      else s
  }

  /** The cache stays well formed, frees no slot and moves none. */
  ghost predicate Kept(c: Cache, d: Cache) {
    && WellFormed(d) && Filled(c) <= Filled(d)
    && (forall i | 0 <= i < Filled(c) :: Place(d.entries[i]) == Place(c.entries[i]))
  }

  lemma SameLayoutIsKept(c: Cache, d: Cache)
    requires SameLayout(c, d) && WellFormed(d) && Filled(d) == Filled(c)
    ensures Kept(c, d)
  {
    hide WellFormed, FirstFree, Place;
  }

  lemma UpdateIsKept(c: Cache, key: Key, data: seq<Byte>)
    requires WellFormed(c)
    ensures Kept(c, Update(c, key, data).0)
  {
    UpdateBySlot(c, key, data);
    hide WellFormed, FirstFree, Update;
  }

  /** What is handed out is in use. */
  lemma SnapshotIsKept(c: Cache, cursor: nat)
    requires WellFormed(c) && cursor <= CAPACITY
    ensures var (d, next, slot) := Snapshot(c, cursor);
            Kept(c, d) && next <= CAPACITY && slot <= CAPACITY && (slot < CAPACITY ==> slot < Filled(d))
  {
    SnapshotKeepsMap(c, cursor);
    SameLayoutIsKept(c, Snapshot(c, cursor).0);
    hide KeysDiffer, Tiled, SizesOk, Kept;
  }

  lemma BookkeepingIsKept(c: Cache, rate: Byte)
    requires WellFormed(c)
    ensures Kept(c, c) && Kept(c, TickCooldowns(c)) && Kept(c, MarkAllUpdated(c)) && Kept(c, SetThrottle(c, rate))
  {
    SweepsKeepMap(c);
    RateKeepsMap(c, rate);
    hide WellFormed, Kept, TickCooldowns, MarkAllUpdated, SetThrottle;
    SameLayoutIsKept(c, c);
    SameLayoutIsKept(c, TickCooldowns(c));
    SameLayoutIsKept(c, MarkAllUpdated(c));
    SameLayoutIsKept(c, SetThrottle(c, rate));
  }

  lemma MarksAreKept(c: Cache, slot: nat)
    requires WellFormed(c) && slot < Filled(c)
    ensures Kept(c, MarkPublished(c, slot)) && Kept(c, MarkUnpublished(c, slot))
  {
    MarksKeepMap(c, slot);
    hide WellFormed, Kept, MarkPublished, MarkUnpublished;
    SameLayoutIsKept(c, MarkPublished(c, slot));
    SameLayoutIsKept(c, MarkUnpublished(c, slot));
  }

  lemma KeptIsSound(c: Cache, d: Cache)
    requires Kept(c, d)
    ensures |d.entries| == CAPACITY && WellFormed(d) && Filled(c) <= Filled(d)
    ensures forall i | 0 <= i < Filled(c) :: Place(d.entries[i]) == Place(c.entries[i])
  {
  }

  lemma StepIsKept(cfg: Config, s: System, e: Event)
    requires Sound(s)
    ensures var t := Step(cfg, s, e);
            Kept(s.cache, t.cache) && t.cursor <= CAPACITY && (!t.phase.Idle? ==> t.phase.slot < Filled(t.cache))
  {
    hide WellFormed, FirstFree, Filled, Kept, Place, Slice, Update, Snapshot, MarkPublished, MarkUnpublished,
      TickCooldowns, MarkAllUpdated, SetThrottle, TopicFor, Fits;
    match e
    case MainUpdate(key, data) => UpdateIsKept(s.cache, key, data); KeptInUse(s);
    case MainTick => BookkeepingIsKept(s.cache, 0); KeptInUse(s);
    case MainMarkAll => BookkeepingIsKept(s.cache, 0); KeptInUse(s);
    case MainSetRate(rate) => BookkeepingIsKept(s.cache, rate); KeptInUse(s);
    case MainResetCursor => BookkeepingIsKept(s.cache, 0);
    case TakeSnapshot => SnapshotIsKept(s.cache, s.cursor); BookkeepingIsKept(s.cache, 0);
    case TryPublish(_) => BookkeepingIsKept(s.cache, 0);
    case Settle =>
      BookkeepingIsKept(s.cache, 0);
      if !s.phase.Idle? { MarksAreKept(s.cache, s.phase.slot); }
  }

  /** A slot in flight stays in use. */
  lemma KeptInUse(s: System)
    requires Sound(s)
    ensures forall d: Cache | Kept(s.cache, d) :: !s.phase.Idle? ==> s.phase.slot < Filled(d)
  {
    hide WellFormed, FirstFree, Filled, Place;
  }

  /** What one event does to the slots, whatever the event. */
  lemma StepKeepsSound(cfg: Config, s: System, e: Event)
    requires Sound(s)
    ensures Sound(Step(cfg, s, e))
    ensures Filled(s.cache) <= Filled(Step(cfg, s, e).cache)
    ensures forall i | 0 <= i < Filled(s.cache) ::
              Place(Step(cfg, s, e).cache.entries[i]) == Place(s.cache.entries[i])
  {
    StepIsKept(cfg, s, e);
    hide Step, WellFormed, Filled, Place, Kept;
    KeptIsSound(s.cache, Step(cfg, s, e).cache);
  }

  ghost function Run(cfg: Config, s: System, es: seq<Event>): (t: System)
    requires Sound(s)
    ensures Sound(t)
    decreases |es|
  {
    if es == [] then s
    else
      StepKeepsSound(cfg, s, es[0]);
      Run(cfg, Step(cfg, s, es[0]), es[1..])
  }

  lemma InitialSound()
    ensures Sound(INITIAL)
  {
    AllFreeIsEmpty(EMPTY);
  }

  // ---------------------------------------------------------------- no lost update

  /** Boards report physical addresses, never the broadcast address. */
  ghost predicate Physical(es: seq<Event>) {
    forall i | 0 <= i < |es| :: es[i].MainUpdate? ==> es[i].key.board != PRIMARY
  }

  ghost predicate InFlight(s: System, i: nat) {
    !s.phase.Idle? && s.phase.slot == i
  }

  /** The broker's payload for slot `i` means the bytes now in the arena. */
  ghost predicate Current(cfg: Config, s: System, i: nat)
    requires i < |s.cache.entries|
  {
    var topic := TopicFor(cfg, s.cache.entries[i].key);
    topic in s.broker && Carries(s.broker[topic], Slice(s.cache.arena, s.cache.entries[i]))
  }

  /** No update is lost: whatever is neither marked for publishing nor in flight is current at the broker. */
  ghost predicate NoLostUpdate(cfg: Config, s: System)
    requires Sound(s)
  {
    forall i | 0 <= i < Filled(s.cache) :: s.cache.entries[i].dirty || InFlight(s, i) || Current(cfg, s, i)
  }

  ghost predicate Inductive(cfg: Config, s: System) {
    && Sound(s)
    && (forall i | 0 <= i < Filled(s.cache) :: s.cache.entries[i].key.board != PRIMARY)
    && NoLostUpdate(cfg, s)
    && (s.phase.Holding? ==>
          && s.phase.key == s.cache.entries[s.phase.slot].key
          && (s.cache.entries[s.phase.slot].dirty || s.phase.data == Slice(s.cache.arena, s.cache.entries[s.phase.slot])))
    && (s.phase.Accepted? ==> s.cache.entries[s.phase.slot].dirty || Current(cfg, s, s.phase.slot))
  }

  /** Physical boards never share a topic. */
  lemma TopicsDiffer(cfg: Config, k: Key, l: Key)
    requires k.board != PRIMARY && l.board != PRIMARY && TopicFor(cfg, k) == TopicFor(cfg, l)
    ensures k == l
  {
    var bk := if k.board == cfg.primary then PRIMARY else k.board;
    var bl := if l.board == cfg.primary then PRIMARY else l.board;
    PrintedInjective(cfg.deviceId, Topic(bk, k.erd, Value), Topic(bl, l.erd, Value));
  }

  /** The longest value topic of the device fits the publisher's buffer. */
  predicate AllFit(cfg: Config) {
    |cfg.deviceId| + 35 < BUFFER_SIZE
  }

  lemma FitsAll(cfg: Config, key: Key)
    requires AllFit(cfg)
    ensures Fits(cfg, key)
  {
    PrintedLength(cfg.deviceId, Topic(if key.board == cfg.primary then PRIMARY else key.board, key.erd, Value));
  }

  lemma SlotsAgree(c: Cache, d: Cache)
    requires SameLayout(c, d)
    ensures forall i | 0 <= i < |c.entries| ::
              d.entries[i].key == c.entries[i].key && Slice(d.arena, d.entries[i]) == Slice(c.arena, c.entries[i])
  {
    assert forall i | 0 <= i < |c.entries| :: Place(c.entries[i]) == Place(d.entries[i]);
  }

  /** Events that change nothing but dirty flags upwards and cooldowns. */
  lemma BookkeepingKeepsInductive(cfg: Config, s: System, t: System)
    requires Inductive(cfg, s) && Sound(t) && SameLayout(s.cache, t.cache) && Filled(t.cache) == Filled(s.cache)
    requires t.broker == s.broker && t.phase == s.phase
    requires forall i | 0 <= i < Filled(s.cache) :: s.cache.entries[i].dirty ==> t.cache.entries[i].dirty
    ensures Inductive(cfg, t)
  {
    SlotsAgree(s.cache, t.cache);
  }

  lemma UpdateKeepsInductive(cfg: Config, s: System, key: Key, data: seq<Byte>)
    requires Inductive(cfg, s) && key.board != PRIMARY
    ensures Inductive(cfg, Step(cfg, s, MainUpdate(key, data)))
  {
    UpdateBySlot(s.cache, key, data);
    var t := Step(cfg, s, MainUpdate(key, data));
    forall i | 0 <= i < Filled(s.cache)
      ensures t.cache.entries[i].key == s.cache.entries[i].key
      ensures t.cache.entries[i].dirty
              || (Slice(t.cache.arena, t.cache.entries[i]) == Slice(s.cache.arena, s.cache.entries[i]) && !s.cache.entries[i].dirty)
    {
      assert Place(s.cache.entries[i]) == Place(t.cache.entries[i]);
    }
  }

  lemma SnapshotKeepsInductive(cfg: Config, s: System)
    requires Inductive(cfg, s) && s.phase.Idle?
    ensures Inductive(cfg, Step(cfg, s, TakeSnapshot))
  {
    hide WellFormed, FirstFree, NextEligible;
    StepKeepsSound(cfg, s, TakeSnapshot);
    SnapshotKeepsMap(s.cache, s.cursor);
    SlotsAgree(s.cache, Step(cfg, s, TakeSnapshot).cache);
  }

  lemma PublishKeepsInductive(cfg: Config, s: System, accepted: bool)
    requires Inductive(cfg, s) && AllFit(cfg) && s.phase.Holding?
    ensures Inductive(cfg, Step(cfg, s, TryPublish(accepted)))
  {
    hide RestFree, SizesOk, Tiled, Slice, FirstFree, TopicFor, Fits, Carries, HexBytes;
    HexBytesCarries(s.phase.data);
    FitsAll(cfg, s.phase.key);
    var t := Step(cfg, s, TryPublish(accepted));
    forall i | 0 <= i < Filled(s.cache) && i != s.phase.slot && Current(cfg, s, i)
      ensures Current(cfg, t, i)
    {
      if TopicFor(cfg, s.cache.entries[i].key) == TopicFor(cfg, s.phase.key) {
        TopicsDiffer(cfg, s.cache.entries[i].key, s.phase.key);
      }
    }
  }

  lemma SettleKeepsInductive(cfg: Config, s: System)
    requires Inductive(cfg, s) && (s.phase.Accepted? || s.phase.Dropped?)
    ensures Inductive(cfg, Step(cfg, s, Settle))
  {
    hide WellFormed, FirstFree, TopicFor, Slice, SameLayout;
    MarksKeepMap(s.cache, s.phase.slot);
    var t := Step(cfg, s, Settle);
    SlotsAgree(s.cache, t.cache);
  }

  lemma MainKeepsInductive(cfg: Config, s: System, e: Event)
    requires Inductive(cfg, s) && (e.MainTick? || e.MainMarkAll? || e.MainSetRate? || e.MainResetCursor?)
    ensures Inductive(cfg, Step(cfg, s, e))
  {
    hide WellFormed, FirstFree, Slice;
    StepKeepsSound(cfg, s, e);
    SweepsKeepMap(s.cache);
    BookkeepingKeepsInductive(cfg, s, Step(cfg, s, e));
  }

  lemma StepKeepsInductive(cfg: Config, s: System, e: Event)
    requires Inductive(cfg, s) && AllFit(cfg) && (e.MainUpdate? ==> e.key.board != PRIMARY)
    ensures Inductive(cfg, Step(cfg, s, e))
  {
    hide Inductive, WellFormed, FirstFree, Filled, AllFit, Fits, TopicFor, HexBytes, Slice, Snapshot, MarkPublished,
      MarkUnpublished, Update, TickCooldowns, MarkAllUpdated, SetThrottle;
    match e
    case MainUpdate(key, data) => UpdateKeepsInductive(cfg, s, key, data);
    case TakeSnapshot => if s.phase.Idle? { SnapshotKeepsInductive(cfg, s); }
    case TryPublish(accepted) => if s.phase.Holding? { PublishKeepsInductive(cfg, s, accepted); }
    case Settle => if s.phase.Accepted? || s.phase.Dropped? { SettleKeepsInductive(cfg, s); }
    case _ => MainKeepsInductive(cfg, s, e);
  }

  lemma {:induction false} RunKeepsInductive(cfg: Config, s: System, es: seq<Event>)
    requires Inductive(cfg, s) && AllFit(cfg) && Physical(es)
    ensures Inductive(cfg, Run(cfg, s, es))
    decreases |es|
  {
    if es != [] {
      assert es[0] == es[0..][0];
      StepKeepsInductive(cfg, s, es[0]);
      RunKeepsInductive(cfg, Step(cfg, s, es[0]), es[1..]);
    }
  }

  lemma InitialInductive(cfg: Config)
    ensures Inductive(cfg, INITIAL)
  {
    InitialSound();
    AllFreeIsEmpty(EMPTY);
  }

  /** The broker holds `data` for `key`: on the topic that names the key, a payload that means the bytes. */
  ghost predicate Holds(cfg: Config, broker: map<string, string>, key: Key, data: seq<Byte>) {
    var topic := TopicFor(cfg, key);
    Names(cfg, topic, key) && topic in broker && Carries(broker[topic], data)
  }

  /** Once nothing is marked and the publisher is idle, the broker holds exactly the cache's contents. */
  lemma QuiescentBrokerIsCurrent(cfg: Config, s: System, es: seq<Event>, key: Key)
    requires Inductive(cfg, s) && AllFit(cfg) && Physical(es)
    requires var t := Run(cfg, s, es);
             t.phase.Idle? && (forall i | 0 <= i < |t.cache.entries| :: !t.cache.entries[i].dirty) && key in Contents(t.cache)
    ensures var t := Run(cfg, s, es); Holds(cfg, t.broker, key, Contents(t.cache)[key])
  {
    TopicNames(cfg, key);
    RunKeepsInductive(cfg, s, es);
    var t := Run(cfg, s, es);
    var i := SlotOf(t.cache.entries, t.cache.arena, Filled(t.cache), key);
    ContentsHas(t.cache.entries, t.cache.arena, Filled(t.cache), i);
  }

  // ---------------------------------------------------------------- the failing family

  lemma FirstUpdate(key: Key, data: seq<Byte>)
    requires |data| <= MAX_DATA_SIZE
    ensures var c := Update(EMPTY, key, data).0;
            && |c.entries| == CAPACITY && c.entries[0].key == key && c.entries[0].dirty
            && Filled(c) == 1 && NextEligible(c.entries, 0, c.maxCooldown) == 0
  {
    AllFreeIsEmpty(EMPTY);
    FindAgrees(EMPTY, key);
    InsertAddsBinding(EMPTY, key, data);
  }

  lemma RunFirst(cfg: Config, s: System, e: Event, es: seq<Event>)
    requires Sound(s)
    ensures Sound(Step(cfg, s, e)) && Run(cfg, s, [e] + es) == Run(cfg, Step(cfg, s, e), es)
  {
    StepKeepsSound(cfg, s, e);
    hide Sound, Step;
    assert ([e] + es)[0] == e && ([e] + es)[1..] == es;
  }

  lemma RunNone(cfg: Config, s: System)
    requires Sound(s)
    ensures Run(cfg, s, []) == s
  {
    hide Sound;
  }

  /** The snapshot of slot 0 clears its flag. */
  lemma HoldsFirst(cfg: Config, s: System)
    requires Sound(s) && s.phase.Idle? && s.cursor == 0 && Filled(s.cache) > 0
    requires NextEligible(s.cache.entries, 0, s.cache.maxCooldown) == 0
    ensures var t := Step(cfg, s, TakeSnapshot);
            && Sound(t) && t.phase.Holding? && t.phase.slot == 0 && t.phase.key == s.cache.entries[0].key
            && Filled(t.cache) > 0 && !t.cache.entries[0].dirty && t.broker == s.broker
  {
    StepKeepsSound(cfg, s, TakeSnapshot);
    hide WellFormed, FirstFree, NextEligible, Slice;
  }

  /** The publish finds no topic and leaves the flag cleared. */
  lemma UnprintableIsDropped(cfg: Config, s: System)
    requires Sound(s) && s.phase.Holding? && s.phase.slot == 0 && !Fits(cfg, s.phase.key)
    requires Filled(s.cache) > 0 && !s.cache.entries[0].dirty && s.broker == map[]
    ensures Sound(Step(cfg, s, TryPublish(true))) && !NoLostUpdate(cfg, Step(cfg, s, TryPublish(true)))
  {
    hide WellFormed, FirstFree, Slice, TopicFor, Fits;
    StepKeepsSound(cfg, s, TryPublish(true));
    var t := Step(cfg, s, TryPublish(true));
    assert !t.cache.entries[0].dirty && !InFlight(t, 0) && !Current(cfg, t, 0);
  }

  /** Every board but the primary one has topics of the longest kind. */
  lemma LongestTopic(cfg: Config, key: Key)
    requires !AllFit(cfg) && key.board != cfg.primary && key.board != PRIMARY
    ensures !Fits(cfg, key)
  {
    PrintedLength(cfg.deviceId, Topic(key.board, key.erd, Value));
  }

  lemma StoresFirst(cfg: Config, key: Key)
    ensures Sound(INITIAL)
    ensures var a := Step(cfg, INITIAL, MainUpdate(key, [7]));
            && a.phase.Idle? && a.cursor == 0 && a.broker == map[] && Filled(a.cache) > 0
            && |a.cache.entries| == CAPACITY && a.cache.entries[0].key == key
            && NextEligible(a.cache.entries, 0, a.cache.maxCooldown) == 0
  {
    InitialSound();
    FirstUpdate(key, [7]);
    hide WellFormed, FirstFree, NextEligible, Update;
  }

  lemma TooLongLosesUpdate(cfg: Config) returns (es: seq<Event>)
    requires !AllFit(cfg)
    ensures Sound(INITIAL) && Physical(es) && !NoLostUpdate(cfg, Run(cfg, INITIAL, es))
  {
    hide WellFormed, FirstFree, Filled, NextEligible, TopicFor, Fits, NoLostUpdate, AllFit, Step, Run;
    var key := Key(1, if cfg.primary == 0 then 1 else 0);
    var update := MainUpdate(key, [7]);
    es := [update] + ([TakeSnapshot] + ([TryPublish(true)] + []));
    LongestTopic(cfg, key);
    StoresFirst(cfg, key);
    var a := Step(cfg, INITIAL, update);
    RunFirst(cfg, INITIAL, update, [TakeSnapshot] + ([TryPublish(true)] + []));
    HoldsFirst(cfg, a);
    var b := Step(cfg, a, TakeSnapshot);
    RunFirst(cfg, a, TakeSnapshot, [TryPublish(true)] + []);
    UnprintableIsDropped(cfg, b);
    RunFirst(cfg, b, TryPublish(true), []);
    RunNone(cfg, Step(cfg, b, TryPublish(true)));
  }

  /** In every interleaving no update is lost, and this holds exactly when the device id leaves room
      for the longest topic. */
  lemma NoUpdateIsEverLost(cfg: Config)
    ensures Sound(INITIAL)
    ensures AllFit(cfg) <==> forall es: seq<Event> | Physical(es) :: NoLostUpdate(cfg, Run(cfg, INITIAL, es))
  {
    InitialInductive(cfg);
    if AllFit(cfg) {
      forall es: seq<Event> | Physical(es)
        ensures NoLostUpdate(cfg, Run(cfg, INITIAL, es))
      {
        RunKeepsInductive(cfg, INITIAL, es);
      }
    } else {
      var es := TooLongLosesUpdate(cfg);
    }
  }

  // ---------------------------------------------------------------- throttle

  function Ticks(es: seq<Event>): nat {
    if es == [] then 0 else (if es[0].MainTick? then 1 else 0) + Ticks(es[1..])
  }

  /** No full republish, and the throttle rate never goes below `floor`. */
  ghost predicate Throttled(es: seq<Event>, floor: nat) {
    forall i | 0 <= i < |es| :: !es[i].MainMarkAll? && (es[i].MainSetRate? ==> es[i].rate >= floor)
  }

  /** Slot `i` was accepted by the broker and still waits to be settled, or its cooldown is at least `k`. */
  ghost predicate Cooling(s: System, i: nat, k: nat)
    requires Sound(s) && i < Filled(s.cache)
  {
    s.phase == Accepted(i) || (!InFlight(s, i) && s.cache.entries[i].cooldown >= k)
  }

  lemma CoolingStep(cfg: Config, s: System, e: Event, i: nat, k: nat, floor: nat)
    requires Sound(s) && i < Filled(s.cache) && Throttled([e], floor) && Cooling(s, i, k)
    requires 0 < k <= floor <= s.cache.maxCooldown
    ensures var t := Step(cfg, s, e);
            && Sound(t) && i < Filled(t.cache) && floor <= t.cache.maxCooldown
            && Cooling(t, i, if e.MainTick? then k - 1 else k)
  {
    hide WellFormed, FirstFree, Slice, Find, Update;
    StepKeepsSound(cfg, s, e);
    assert [e][0] == e;
    if e.MainUpdate? { UpdateBySlot(s.cache, e.key, e.data); }
  }

  lemma {:induction false} CoolingLasts(cfg: Config, s: System, es: seq<Event>, i: nat, k: nat, floor: nat)
    requires Sound(s) && i < Filled(s.cache) && Throttled(es, floor) && Cooling(s, i, k)
    requires k <= floor <= s.cache.maxCooldown
    requires Run(cfg, s, es).phase.Holding? && Run(cfg, s, es).phase.slot == i
    ensures k <= Ticks(es)
    decreases |es|
  {
    if es != [] && k > 0 {
      assert [es[0]][0] == es[0];
      CoolingStep(cfg, s, es[0], i, k, floor);
      CoolingLasts(cfg, Step(cfg, s, es[0]), es[1..], i, if es[0].MainTick? then k - 1 else k, floor);
    }
  }

  /** Between an accepted publish of a slot and the moment the next one of that slot is about to go
      out lie at least `floor` ticks, whatever updates, ticks and failed publishes come between. */
  lemma ThrottleHolds(cfg: Config, s: System, es: seq<Event>, i: nat, floor: nat)
    requires Sound(s) && s.phase == Accepted(i)
    requires floor <= s.cache.maxCooldown && Throttled(es, floor)
    requires Run(cfg, s, es).phase.Holding? && Run(cfg, s, es).phase.slot == i
    ensures floor <= Ticks(es)
  {
    CoolingLasts(cfg, s, es, i, floor, floor);
  }

  // ---------------------------------------------------------------- fairness

  /** Every scan in `es` finds slot `i` eligible and yet hands out something else or nothing. */
  ghost predicate Overlooked(cfg: Config, s: System, es: seq<Event>, i: nat)
    requires Sound(s) && i < CAPACITY
    decreases |es|
  {
    es == [] ||
    (StepKeepsSound(cfg, s, es[0]);
     && !es[0].MainResetCursor?
     && (es[0].TakeSnapshot? && s.phase.Idle? ==>
           && Eligible(s.cache.entries[i], s.cache.maxCooldown)
           && NextEligible(s.cache.entries, s.cursor, s.cache.maxCooldown) != i)
     && Overlooked(cfg, Step(cfg, s, es[0]), es[1..], i))
  }

  function Scans(cfg: Config, s: System, es: seq<Event>): nat
    requires Sound(s)
    decreases |es|
  {
    if es == [] then 0
    else
      StepKeepsSound(cfg, s, es[0]);
      (if es[0].TakeSnapshot? && s.phase.Idle? then 1 else 0) + Scans(cfg, Step(cfg, s, es[0]), es[1..])
  }

  /** Scans left before the cursor must reach slot `i`. */
  function Distance(cursor: nat, i: nat): nat
    requires cursor <= CAPACITY
  {
    if cursor <= i then i - cursor else CAPACITY - cursor + 1 + i
  }

  /** Only a scan moves the cursor, to behind the slot it hands out or back to the start. */
  lemma CursorMoves(cfg: Config, s: System, e: Event)
    requires Sound(s) && !e.MainResetCursor?
    ensures Step(cfg, s, e).cursor ==
            if e.TakeSnapshot? && s.phase.Idle? then
              var i := NextEligible(s.cache.entries, s.cursor, s.cache.maxCooldown);
              if i < CAPACITY then i + 1 else 0
            else s.cursor
  {
    hide WellFormed, NextEligible, Slice, Update, MarkPublished, MarkUnpublished, TopicFor, Fits;
  }

  lemma {:induction false} OverlookedAtMost(cfg: Config, s: System, es: seq<Event>, i: nat)
    requires Sound(s) && i < CAPACITY && Overlooked(cfg, s, es, i)
    ensures Scans(cfg, s, es) <= Distance(s.cursor, i)
    decreases |es|
  {
    if es != [] {
      hide WellFormed, Step, NextEligible, Eligible;
      StepKeepsSound(cfg, s, es[0]);
      CursorMoves(cfg, s, es[0]);
      if es[0].TakeSnapshot? && s.phase.Idle? { PassesBy(s, i); }
      OverlookedAtMost(cfg, Step(cfg, s, es[0]), es[1..], i);
    }
  }

  /** A scan that does not hand out an eligible slot began behind it or stopped before it. */
  lemma PassesBy(s: System, i: nat)
    requires Sound(s) && i < CAPACITY && Eligible(s.cache.entries[i], s.cache.maxCooldown)
    requires NextEligible(s.cache.entries, s.cursor, s.cache.maxCooldown) != i
    ensures s.cursor <= i ==> NextEligible(s.cache.entries, s.cursor, s.cache.maxCooldown) < i
    ensures s.cursor <= NextEligible(s.cache.entries, s.cursor, s.cache.maxCooldown) <= CAPACITY
  {
    hide WellFormed;
  }

  /** Fair scan: of any CAPACITY + 1 scans that find slot `i` eligible, one hands it out. */
  lemma ScanIsFair(cfg: Config, s: System, es: seq<Event>, i: nat)
    requires Sound(s) && i < CAPACITY && Scans(cfg, s, es) > CAPACITY
    ensures !Overlooked(cfg, s, es, i)
  {
    if Overlooked(cfg, s, es, i) { OverlookedAtMost(cfg, s, es, i); }
  }

  /** After the cursor is reset the next scan hands out the first slot of all that may go out. */
  lemma ResetStartsOver(cfg: Config, s: System)
    requires Sound(s) && s.phase.Idle?
    ensures Sound(Step(cfg, s, MainResetCursor))
    ensures var t := Step(cfg, Step(cfg, s, MainResetCursor), TakeSnapshot);
            && |s.cache.entries| == CAPACITY
            && (t.phase.Holding? ==>
                  && t.phase.slot < CAPACITY && Eligible(s.cache.entries[t.phase.slot], s.cache.maxCooldown)
                  && forall i | 0 <= i < t.phase.slot :: !Eligible(s.cache.entries[i], s.cache.maxCooldown))
            && (!t.phase.Holding? ==> forall i | 0 <= i < CAPACITY :: !Eligible(s.cache.entries[i], s.cache.maxCooldown))
  {
    StepKeepsSound(cfg, s, MainResetCursor);
    TakeEffect(cfg, Step(cfg, s, MainResetCursor));
    hide WellFormed, FirstFree, NextEligible, Slice, Eligible;
  }

  // ---------------------------------------------------------------- draining

  function Round(): seq<Event> {
    [TakeSnapshot, TryPublish(true), Settle]
  }

  function Rounds(n: nat): seq<Event> {
    if n == 0 then [] else Round() + Rounds(n - 1)
  }

  function DirtyCount(entries: seq<Entry>): nat {
    if entries == [] then 0 else DirtyCount(entries[..|entries| - 1]) + (if entries[|entries| - 1].dirty then 1 else 0)
  }

  lemma {:induction false} CleaningOne(entries: seq<Entry>, i: nat, e: Entry)
    requires i < |entries| && entries[i].dirty && !e.dirty
    ensures DirtyCount(entries) > 0 && DirtyCount(entries[i := e]) == DirtyCount(entries) - 1
  {
    var n := |entries| - 1;
    if i < n {
      CleaningOne(entries[..n], i, e);
      assert entries[i := e][..n] == entries[..n][i := e];
    } else {
      assert entries[i := e][..n] == entries[..n];
    }
  }

  lemma {:induction false} NoneDirty(entries: seq<Entry>)
    ensures DirtyCount(entries) == 0 <==> forall i | 0 <= i < |entries| :: !entries[i].dirty
  {
    if entries != [] {
      NoneDirty(entries[..|entries| - 1]);
      assert forall i | 0 <= i < |entries| - 1 :: entries[..|entries| - 1][i] == entries[i];
    }
  }

  /** The publisher is idle and no marked entry is held back by the throttle. */
  ghost predicate Ready(s: System) {
    && s.phase.Idle?
    && forall i | 0 <= i < |s.cache.entries| ::
         s.cache.entries[i].dirty ==> Eligible(s.cache.entries[i], s.cache.maxCooldown)
  }

  ghost predicate DirtyBelow(entries: seq<Entry>, cursor: nat)
    requires cursor <= |entries|
  {
    exists i | 0 <= i < cursor :: entries[i].dirty
  }

  /** Successful rounds still needed, as a bound. */
  ghost function Backlog(s: System): nat
    requires Sound(s)
  {
    DirtyCount(s.cache.entries) + if DirtyBelow(s.cache.entries, s.cursor) then 1 else 0
  }

  lemma {:induction false} RunAppend(cfg: Config, s: System, es: seq<Event>, fs: seq<Event>)
    requires Sound(s)
    ensures Run(cfg, s, es + fs) == Run(cfg, Run(cfg, s, es), fs)
    decreases |es|
  {
    if es == [] {
      assert es + fs == fs;
    } else {
      StepKeepsSound(cfg, s, es[0]);
      assert (es + fs)[0] == es[0] && (es + fs)[1..] == es[1..] + fs;
      RunAppend(cfg, Step(cfg, s, es[0]), es[1..], fs);
    }
  }

  lemma TakeEffect(cfg: Config, s: System)
    requires Sound(s) && s.phase.Idle?
    ensures var a, i := Step(cfg, s, TakeSnapshot), NextEligible(s.cache.entries, s.cursor, s.cache.maxCooldown);
            && (i < CAPACITY ==>
                  && a.phase.Holding? && a.phase.slot == i && a.cursor == i + 1
                  && a.cache == s.cache.(entries := s.cache.entries[i := s.cache.entries[i].(dirty := false)]))
            && (i == CAPACITY ==> a == s.(cursor := 0))
  {
    hide WellFormed, FirstFree, NextEligible, Slice;
  }

  lemma PublishEffect(cfg: Config, a: System)
    requires Sound(a) && AllFit(cfg) && (a.phase.Holding? || a.phase.Idle?)
    ensures var b := Step(cfg, a, TryPublish(true));
            b.cache == a.cache && b.cursor == a.cursor && b.phase == if a.phase.Holding? then Accepted(a.phase.slot) else Idle
  {
    hide WellFormed, FirstFree, TopicFor, Fits, HexBytes;
    if a.phase.Holding? { FitsAll(cfg, a.phase.key); }
  }

  lemma SettleEffect(cfg: Config, b: System)
    requires Sound(b) && |b.cache.entries| == CAPACITY && (b.phase.Accepted? || b.phase.Idle?)
    ensures var t := Step(cfg, b, Settle);
            && t.phase.Idle? && t.cursor == b.cursor && t.cache.maxCooldown == b.cache.maxCooldown
            && (b.phase.Idle? ==> t == b)
            && (b.phase.Accepted? && b.phase.slot < CAPACITY ==>
                  exists cooldown: Byte :: t.cache.entries
                    == b.cache.entries[b.phase.slot := b.cache.entries[b.phase.slot].(cooldown := cooldown)])
  {
    hide WellFormed, FirstFree;
    if b.phase.Accepted? && b.phase.slot < CAPACITY && b.cache.maxCooldown == 0 {
      var e := b.cache.entries[b.phase.slot];
      assert e.(cooldown := e.cooldown) == e;
      assert b.cache.entries == b.cache.entries[b.phase.slot := e.(cooldown := e.cooldown)];
    }
  }

  lemma RoundIsThree(cfg: Config, s: System)
    requires Sound(s)
    ensures Sound(Step(cfg, s, TakeSnapshot)) && Sound(Step(cfg, Step(cfg, s, TakeSnapshot), TryPublish(true)))
    ensures Run(cfg, s, Round()) == Step(cfg, Step(cfg, Step(cfg, s, TakeSnapshot), TryPublish(true)), Settle)
  {
    hide Sound, Step;
    assert Round() == [TakeSnapshot] + ([TryPublish(true)] + ([Settle] + []));
    RunFirst(cfg, s, TakeSnapshot, [TryPublish(true)] + ([Settle] + []));
    var a := Step(cfg, s, TakeSnapshot);
    RunFirst(cfg, a, TryPublish(true), [Settle] + []);
    RunFirst(cfg, Step(cfg, a, TryPublish(true)), Settle, []);
  }

  /** A round with a working broker cleans the slot the scan finds, or brings the cursor back to the start. */
  lemma RoundEffect(cfg: Config, s: System)
    requires Sound(s) && s.phase.Idle? && AllFit(cfg)
    ensures var t, i := Run(cfg, s, Round()), NextEligible(s.cache.entries, s.cursor, s.cache.maxCooldown);
            && t.phase.Idle? && t.cache.maxCooldown == s.cache.maxCooldown && |t.cache.entries| == CAPACITY
            && (i < CAPACITY ==>
                  && !t.cache.entries[i].dirty && t.cursor == i + 1
                  && t.cache.entries == s.cache.entries[i := t.cache.entries[i]])
            && (i == CAPACITY ==> t.cache.entries == s.cache.entries && t.cursor == 0)
  {
    hide WellFormed, FirstFree, Filled, Run, Round, Step, NextEligible, AllFit;
    RoundIsThree(cfg, s);
    TakeEffect(cfg, s);
    var a := Step(cfg, s, TakeSnapshot);
    PublishEffect(cfg, a);
    SettleEffect(cfg, Step(cfg, a, TryPublish(true)));
  }

  lemma RoundShrinksBacklog(cfg: Config, s: System)
    requires Sound(s) && Ready(s) && AllFit(cfg)
    ensures var t := Run(cfg, s, Round());
            Ready(t) && (Backlog(s) > 0 ==> Backlog(t) < Backlog(s)) && (Backlog(s) == 0 ==> Backlog(t) == 0)
  {
    RoundEffect(cfg, s);
    var t, i := Run(cfg, s, Round()), NextEligible(s.cache.entries, s.cursor, s.cache.maxCooldown);
    if i < CAPACITY {
      CleaningOne(s.cache.entries, i, t.cache.entries[i]);
    } else {
      NoneDirty(s.cache.entries);
    }
    hide WellFormed, FirstFree, Run, Round, DirtyCount;
  }

  lemma RoundsUnfold(n: nat)
    requires n > 0
    ensures Rounds(n) == Round() + Rounds(n - 1)
  {
  }

  lemma NoBacklog(cfg: Config, s: System)
    requires Sound(s) && Ready(s)
    ensures Run(cfg, s, Rounds(0)) == s && s.phase.Idle?
    ensures Backlog(s) >= DirtyCount(s.cache.entries)
  {
    hide Sound, DirtyBelow, DirtyCount;
  }

  lemma {:induction false} RoundsDrain(cfg: Config, s: System, n: nat)
    requires Sound(s) && Ready(s) && AllFit(cfg) && n >= Backlog(s)
    ensures var t := Run(cfg, s, Rounds(n)); t.phase.Idle? && DirtyCount(t.cache.entries) == 0
    decreases n
  {
    hide *;
    if n == 0 {
      NoBacklog(cfg, s);
    } else {
      RoundsUnfold(n);
      RunAppend(cfg, s, Round(), Rounds(n - 1));
      RoundShrinksBacklog(cfg, s);
      RoundsDrain(cfg, Run(cfg, s, Round()), n - 1);
    }
  }

  predicate IsPublisherEvent(e: Event) {
    e.TakeSnapshot? || e.TryPublish? || e.Settle?
  }

  ghost predicate PublisherOnly(es: seq<Event>) {
    forall i | 0 <= i < |es| :: IsPublisherEvent(es[i])
  }

  lemma {:induction false} RoundsArePublisherOnly(n: nat)
    ensures PublisherOnly(Rounds(n))
  {
    if n > 0 { RoundsArePublisherOnly(n - 1); }
  }

  lemma PublisherStepKeepsContents(cfg: Config, s: System, e: Event)
    requires Sound(s) && IsPublisherEvent(e)
    ensures Contents(Step(cfg, s, e).cache) == Contents(s.cache)
  {
    hide WellFormed, FirstFree, Filled, Contents, Snapshot, MarkPublished, MarkUnpublished, SameLayout, Fits, TopicFor,
      HexBytes, Slice;
    match e
    case TakeSnapshot => SnapshotKeepsMap(s.cache, s.cursor);
    case Settle => if !s.phase.Idle? { MarksKeepMap(s.cache, s.phase.slot); }
    case TryPublish(_) =>
  }

  /** The publisher task never changes what is stored. */
  lemma {:induction false} PublisherKeepsContents(cfg: Config, s: System, es: seq<Event>)
    requires Sound(s) && PublisherOnly(es)
    ensures Contents(Run(cfg, s, es).cache) == Contents(s.cache)
    decreases |es|
  {
    if es != [] {
      hide WellFormed, Snapshot, MarkPublished, MarkUnpublished;
      StepKeepsSound(cfg, s, es[0]);
      assert IsPublisherEvent(es[0]);
      PublisherStepKeepsContents(cfg, s, es[0]);
      PublisherKeepsContents(cfg, Step(cfg, s, es[0]), es[1..]);
    }
  }

  /** The broker catches up: left alone with a working broker, the publisher needs one round per marked
      entry and at most one more, after which the broker holds exactly the cache's contents. */
  lemma BrokerCatchesUp(cfg: Config, s: System, n: nat, key: Key)
    requires Inductive(cfg, s) && Ready(s) && AllFit(cfg)
    requires n > DirtyCount(s.cache.entries) && key in Contents(s.cache)
    ensures Holds(cfg, Run(cfg, s, Rounds(n)).broker, key, Contents(s.cache)[key])
  {
    RoundsDrain(cfg, s, n);
    RoundsArePublisherOnly(n);
    assert Physical(Rounds(n)) by {
      assert forall i | 0 <= i < |Rounds(n)| :: IsPublisherEvent(Rounds(n)[i]);
    }
    PublisherKeepsContents(cfg, s, Rounds(n));
    NoneDirty(Run(cfg, s, Rounds(n)).cache.entries);
    QuiescentBrokerIsCurrent(cfg, s, Rounds(n), key);
  }
}
