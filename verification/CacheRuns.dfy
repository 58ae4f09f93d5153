/** Whole runs of the shared cache: what every key holds after any interleaving, and what the broker ends up with. */
module CacheRuns {
  import opened Common
  import opened ErdCacheSpec
  import opened ErdTopic
  import opened CacheProtocol

  /** Both buffers the firmware keeps a device id in have this size, with the NUL. */
  const DEVICE_ID_SIZE: nat := 92

  /** With an id from such a buffer every topic fits, so in no interleaving an update is lost. */
  lemma BufferedIdsLoseNothing(cfg: Config, es: seq<Event>)
    requires |cfg.deviceId| < DEVICE_ID_SIZE && Physical(es)
    ensures Sound(INITIAL) && NoLostUpdate(cfg, Run(cfg, INITIAL, es))
  {
    InitialInductive(cfg);
    RunKeepsInductive(cfg, INITIAL, es);
  }

  // ---------------------------------------------------------------- the map over a run

  ghost function MapStep(m: map<Key, seq<Byte>>, e: Event): map<Key, seq<Byte>> {
    if e.MainUpdate? then MapUpdate(m, e.key, e.data) else m
  }

  /** The run as the map sees it: its updates, one after the other. */
  ghost function MapRun(m: map<Key, seq<Byte>>, es: seq<Event>): map<Key, seq<Byte>>
    decreases |es|
  {
    if es == [] then m else MapRun(MapStep(m, es[0]), es[1..])
  }

  lemma StepRefinesMap(cfg: Config, s: System, e: Event)
    requires Sound(s)
    ensures Contents(Step(cfg, s, e).cache) == MapStep(Contents(s.cache), e)
  {
    hide Snapshot, MarkPublished, MarkUnpublished, Update, MarkAllUpdated, TickCooldowns, MapUpdate;
    match e
    case MainUpdate(key, data) => UpdateRefinesMap(s.cache, key, data);
    case MainTick => SweepsKeepMap(s.cache);
    case MainMarkAll => SweepsKeepMap(s.cache);
    case MainSetRate(_) =>
    case MainResetCursor =>
    case TakeSnapshot => SnapshotKeepsMap(s.cache, s.cursor);
    case TryPublish(_) =>
    case Settle => if !s.phase.Idle? { MarksKeepMap(s.cache, s.phase.slot); }
  }

  /** The cache refines the map over every run: whatever is interleaved, its contents are those of a map to which
      the same updates were applied. */
  lemma {:induction false} RunRefinesMap(cfg: Config, s: System, es: seq<Event>)
    requires Sound(s)
    ensures Contents(Run(cfg, s, es).cache) == MapRun(Contents(s.cache), es)
    decreases |es|
  {
    hide Contents, MapStep, Step, Sound;
    if es != [] {
      StepKeepsSound(cfg, s, es[0]);
      StepRefinesMap(cfg, s, es[0]);
      RunRefinesMap(cfg, Step(cfg, s, es[0]), es[1..]);
    }
  }

  /** In no run an entry is freed, moved or resized, or changes its key. */
  lemma {:induction false} RunMovesNothing(cfg: Config, s: System, es: seq<Event>)
    requires Sound(s)
    ensures var t := Run(cfg, s, es);
            && Filled(s.cache) <= Filled(t.cache)
            && (forall i | 0 <= i < Filled(s.cache) :: Place(t.cache.entries[i]) == Place(s.cache.entries[i]))
    decreases |es|
  {
    if es != [] {
      hide WellFormed, Step, Place, Filled;
      StepKeepsSound(cfg, s, es[0]);
      RunMovesNothing(cfg, Step(cfg, s, es[0]), es[1..]);
    }
  }

  // ---------------------------------------------------------------- what a key holds

  /** An update of `key` of the size it was registered with. */
  predicate Fitting(e: Event, key: Key, size: nat) {
    e.MainUpdate? && e.key == key && |e.data| == size
  }

  /** The value of `key` after a run that finds it holding `held`. */
  function Latest(es: seq<Event>, key: Key, held: seq<Byte>): (value: seq<Byte>)
    ensures |value| == |held|
    decreases |es|
  {
    if es == [] then held
    else Latest(es[1..], key, if Fitting(es[0], key, |held|) then es[0].data else held)
  }

  ghost predicate NoneFits(es: seq<Event>, key: Key, size: nat) {
    forall i | 0 <= i < |es| :: !Fitting(es[i], key, size)
  }

  /** Latest is the last fitting update, or the old value if there is none. */
  lemma {:induction false} LatestIsLast(es: seq<Event>, key: Key, held: seq<Byte>, i: nat)
    requires i < |es| && Fitting(es[i], key, |held|) && NoneFits(es[i + 1..], key, |held|)
    ensures Latest(es, key, held) == es[i].data
    decreases |es|
  {
    if i == 0 {
      LatestIsOld(es[1..], key, es[0].data);
    } else {
      assert es[1..][i - 1] == es[i] && es[1..][i..] == es[i + 1..];
      LatestIsLast(es[1..], key, if Fitting(es[0], key, |held|) then es[0].data else held, i - 1);
    }
  }

  lemma {:induction false} LatestIsOld(es: seq<Event>, key: Key, held: seq<Byte>)
    requires NoneFits(es, key, |held|)
    ensures Latest(es, key, held) == held
    decreases |es|
  {
    if es != [] {
      assert forall j | 0 <= j < |es[1..]| :: es[1..][j] == es[j + 1];
      LatestIsOld(es[1..], key, held);
    }
  }

  /** A key once registered stays, and holds its last fitting update. */
  lemma {:induction false} RegisteredKeyHolds(m: map<Key, seq<Byte>>, es: seq<Event>, key: Key)
    requires key in m && |m[key]| <= MAX_DATA_SIZE
    ensures key in MapRun(m, es) && MapRun(m, es)[key] == Latest(es, key, m[key])
    decreases |es|
  {
    hide Volume;
    if es != [] { RegisteredKeyHolds(MapStep(m, es[0]), es[1..], key); }
  }

  /** The same of the cache: after any run of both sides a stored key holds the last update of its size. */
  lemma StoredKeyHolds(cfg: Config, s: System, es: seq<Event>, key: Key)
    requires Sound(s) && key in Contents(s.cache)
    ensures var after := Contents(Run(cfg, s, es).cache);
            key in after && after[key] == Latest(es, key, Contents(s.cache)[key])
  {
    StoredSize(s.cache, key);
    RunRefinesMap(cfg, s, es);
    RegisteredKeyHolds(Contents(s.cache), es, key);
  }

  /** The event registers `key`. */
  ghost predicate Registers(m: map<Key, seq<Byte>>, e: Event, key: Key) {
    e.MainUpdate? && e.key == key && Stores(m, key, e.data)
  }

  /** Index of the event that registers `key`, the length of the run if none does. */
  ghost function Registration(m: map<Key, seq<Byte>>, es: seq<Event>, key: Key): (i: nat)
    ensures i <= |es|
    decreases |es|
  {
    if es == [] || Registers(m, es[0], key) then 0 else 1 + Registration(MapStep(m, es[0]), es[1..], key)
  }

  /** None of the first `i` events registers `key` when its turn comes. */
  ghost predicate NoneRegisters(m: map<Key, seq<Byte>>, es: seq<Event>, key: Key, i: nat)
    requires i <= |es|
  {
    forall j | 0 <= j < i :: !Registers(MapRun(m, es[..j]), es[j], key)
  }

  /** A key not yet registered is bound after a run exactly if one of its updates found room when it came: the
      first that did, from which on it holds its last fitting update. */
  lemma {:induction false} NewKeyHolds(m: map<Key, seq<Byte>>, es: seq<Event>, key: Key)
    requires key !in m
    ensures var i := Registration(m, es, key);
            && (key in MapRun(m, es) <==> i < |es|)
            && NoneRegisters(m, es, key, i)
            && (i < |es| ==>
                  && Registers(MapRun(m, es[..i]), es[i], key)
                  && MapRun(m, es)[key] == Latest(es[i + 1..], key, es[i].data))
    decreases |es|
  {
    if es != [] {
      hide Volume;
      if Registers(m, es[0], key) {
        assert es[..0] == [];
        RegisteredKeyHolds(MapStep(m, es[0]), es[1..], key);
      } else {
        NotYetBound(m, es[0], key);
        hide MapStep, Stores, Registers, NoneRegisters;
        var n, tail := MapStep(m, es[0]), es[1..];
        NewKeyHolds(n, tail, key);
        var i := Registration(n, tail, key);
        NoneRegistersBefore(m, es, key, i);
        if i < |tail| {
          PrefixOfTail(m, es, i);
          assert es[i + 2..] == tail[i + 1..];
        }
      }
    }
  }

  lemma NotYetBound(m: map<Key, seq<Byte>>, e: Event, key: Key)
    requires key !in m && !Registers(m, e, key)
    ensures key !in MapStep(m, e)
  {
    hide Volume;
  }

  lemma PrefixOfTail(m: map<Key, seq<Byte>>, es: seq<Event>, j: nat)
    requires es != [] && j < |es[1..]|
    ensures MapRun(MapStep(m, es[0]), es[1..][..j]) == MapRun(m, es[..j + 1]) && es[1..][j] == es[j + 1]
  {
    hide MapStep;
    assert es[..j + 1][0] == es[0] && es[..j + 1][1..] == es[1..][..j];
  }

  lemma NoneRegistersBefore(m: map<Key, seq<Byte>>, es: seq<Event>, key: Key, i: nat)
    requires es != [] && i < |es| && !Registers(m, es[0], key) && NoneRegisters(MapStep(m, es[0]), es[1..], key, i)
    ensures NoneRegisters(m, es, key, i + 1)
  {
    hide MapStep, Stores, Registers;
    assert es[..0] == [];
    forall j | 0 <= j < i + 1
      ensures !Registers(MapRun(m, es[..j]), es[j], key)
    {
      if j > 0 { PrefixOfTail(m, es, j - 1); }
    }
  }

  // ---------------------------------------------------------------- letting the publisher finish

  /** `n` ticks of the throttle. */
  function Waiting(n: nat): (es: seq<Event>)
    ensures |es| == n && forall i | 0 <= i < n :: es[i] == MainTick
  {
    if n == 0 then [] else [MainTick] + Waiting(n - 1)
  }

  /** The publish in flight, if any, comes to its end, and the longest cooldown passes. */
  function Settling(): seq<Event> {
    [TryPublish(true), Settle] + Waiting(255)
  }

  /** The publisher is idle, and if the throttle is on no marked entry cools for more than `k` ticks. */
  ghost predicate CoolsWithin(s: System, k: nat) {
    && s.phase.Idle?
    && (s.cache.maxCooldown > 0 ==>
          forall i | 0 <= i < |s.cache.entries| :: s.cache.entries[i].dirty ==> s.cache.entries[i].cooldown <= k)
  }

  lemma TickCools(cfg: Config, s: System, k: nat)
    requires Sound(s) && CoolsWithin(s, k) && k > 0
    ensures Sound(Step(cfg, s, MainTick)) && CoolsWithin(Step(cfg, s, MainTick), k - 1)
  {
    StepKeepsSound(cfg, s, MainTick);
    MarkedAreValid(s.cache);
    hide WellFormed;
  }

  lemma MarkedAreValid(c: Cache)
    requires WellFormed(c)
    ensures forall i | 0 <= i < |c.entries| :: c.entries[i].dirty ==> c.entries[i].valid
  {
    assert forall i | 0 <= i < Filled(c) :: c.entries[i].valid;
  }

  lemma {:induction false} WaitingCools(cfg: Config, s: System, k: nat)
    requires Sound(s) && CoolsWithin(s, k)
    ensures CoolsWithin(Run(cfg, s, Waiting(k)), 0)
    decreases k
  {
    hide Sound, CoolsWithin, Step;
    if k > 0 {
      TickCools(cfg, s, k);
      assert Waiting(k)[0] == MainTick && Waiting(k)[1..] == Waiting(k - 1);
      WaitingCools(cfg, Step(cfg, s, MainTick), k - 1);
    }
  }

  lemma CooledIsReady(s: System)
    requires Sound(s) && CoolsWithin(s, 0)
    ensures Ready(s)
  {
    MarkedAreValid(s.cache);
    hide WellFormed;
  }

  lemma NothingIsHeld(cfg: Config, s: System)
    requires Sound(s)
    ensures !Step(cfg, s, TryPublish(true)).phase.Holding?
  {
    hide Sound, Fits, TopicFor, HexBytes;
  }

  lemma NothingIsUnsettled(cfg: Config, s: System)
    requires Sound(s) && !s.phase.Holding?
    ensures CoolsWithin(Step(cfg, s, Settle), 255)
  {
    hide Sound, MarkPublished, MarkUnpublished;
  }

  /** Whatever the publisher is doing, one publish and one settlement leave it idle. */
  lemma FlightEnds(cfg: Config, s: System)
    requires Sound(s)
    ensures CoolsWithin(Run(cfg, s, [TryPublish(true), Settle]), 255)
  {
    hide *;
    assert [TryPublish(true), Settle] == [TryPublish(true)] + ([Settle] + []);
    var a := Step(cfg, s, TryPublish(true));
    RunFirst(cfg, s, TryPublish(true), [Settle] + []);
    RunFirst(cfg, a, Settle, []);
    RunNone(cfg, Step(cfg, a, Settle));
    NothingIsHeld(cfg, s);
    NothingIsUnsettled(cfg, a);
  }

  /** From any state at all, settling makes the publisher ready. */
  lemma SettlingMakesReady(cfg: Config, s: System)
    requires Sound(s)
    ensures Ready(Run(cfg, s, Settling()))
  {
    FlightEnds(cfg, s);
    var a := Run(cfg, s, [TryPublish(true), Settle]);
    hide *;
    RunAppend(cfg, s, [TryPublish(true), Settle], Waiting(255));
    WaitingCools(cfg, a, 255);
    SettlingIs();
    CooledIsReady(Run(cfg, s, Settling()));
  }

  lemma SettlingIs()
    ensures Settling() == [TryPublish(true), Settle] + Waiting(255)
    ensures Physical(Settling()) && NoUpdate(Settling())
  {
    hide Waiting;
  }

  ghost predicate NoUpdate(es: seq<Event>) {
    forall i | 0 <= i < |es| :: !es[i].MainUpdate?
  }

  lemma {:induction false} WithoutUpdates(m: map<Key, seq<Byte>>, es: seq<Event>)
    requires NoUpdate(es)
    ensures MapRun(m, es) == m
    decreases |es|
  {
    if es != [] {
      assert !es[0].MainUpdate?;
      WithoutUpdates(m, es[1..]);
    }
  }

  lemma {:induction false} DirtyAtMost(entries: seq<Entry>)
    ensures DirtyCount(entries) <= |entries|
  {
    if entries != [] { DirtyAtMost(entries[..|entries| - 1]); }
  }

  // ---------------------------------------------------------------- end to end

  /** The broker catches up from every state that the two sides can reach, entries cooling and a publish in flight
      included: left alone with a working broker, after the longest cooldown and one round more than there are slots
      it holds the hex form of everything stored. */
  lemma BrokerSettles(cfg: Config, s: System, key: Key)
    requires Inductive(cfg, s) && AllFit(cfg) && key in Contents(s.cache)
    ensures Holds(cfg, Run(cfg, s, Settling() + Rounds(CAPACITY + 1)).broker, key, Contents(s.cache)[key])
  {
    var u := Run(cfg, s, Settling());
    SettlingIs();
    RunKeepsInductive(cfg, s, Settling());
    RunRefinesMap(cfg, s, Settling());
    WithoutUpdates(Contents(s.cache), Settling());
    SettlingMakesReady(cfg, s);
    SlotCount(cfg, u);
    hide *;
    BrokerCatchesUp(cfg, u, CAPACITY + 1, key);
    RunAppend(cfg, s, Settling(), Rounds(CAPACITY + 1));
  }

  lemma SlotCount(cfg: Config, s: System)
    requires Sound(s)
    ensures DirtyCount(s.cache.entries) <= CAPACITY
  {
    DirtyAtMost(s.cache.entries);
  }

  /** After any interleaving whatever, left alone with a working broker, the publisher brings the broker to hold, for
      every key, the value a plain map would hold after the same updates. */
  lemma BrokerHoldsTheMap(cfg: Config, s: System, es: seq<Event>, key: Key)
    requires Inductive(cfg, s) && AllFit(cfg) && Physical(es)
    requires key in MapRun(Contents(s.cache), es)
    ensures Holds(cfg, Run(cfg, s, es + (Settling() + Rounds(CAPACITY + 1))).broker, key,
                  MapRun(Contents(s.cache), es)[key])
  {
    RunKeepsInductive(cfg, s, es);
    RunRefinesMap(cfg, s, es);
    hide *;
    assert Sound(s) by { InductiveIsSound(cfg, s); }
    BrokerSettles(cfg, Run(cfg, s, es), key);
    RunAppend(cfg, s, es, Settling() + Rounds(CAPACITY + 1));
  }

  lemma InductiveIsSound(cfg: Config, s: System)
    requires Inductive(cfg, s)
    ensures Sound(s)
  {
  }

  /** From start-up: whatever is interleaved, the broker ends up with the hex form of the last accepted update of
      every key, which is the last one of the size of the update that registered it. */
  lemma BrokerHoldsLastUpdate(cfg: Config, es: seq<Event>, key: Key)
    requires AllFit(cfg) && Physical(es) && Registration(map[], es, key) < |es|
    ensures Sound(INITIAL)
    ensures var t, i := Run(cfg, INITIAL, es + (Settling() + Rounds(CAPACITY + 1))), Registration(map[], es, key);
            && es[i].MainUpdate?
            && Holds(cfg, t.broker, key, Latest(es[i + 1..], key, es[i].data))
  {
    InitialInductive(cfg);
    AllFreeIsEmpty(EMPTY);
    RegistrationHolds(es, key);
    hide *;
    BrokerHoldsTheMap(cfg, INITIAL, es, key);
  }

  lemma RegistrationHolds(es: seq<Event>, key: Key)
    requires Registration(map[], es, key) < |es|
    ensures var i := Registration(map[], es, key);
            && es[i].MainUpdate? && key in MapRun(map[], es)
            && MapRun(map[], es)[key] == Latest(es[i + 1..], key, es[i].data)
  {
    hide Stores, MapRun, Registration;
    NewKeyHolds(map[], es, key);
  }

  // ---------------------------------------------------------------- republishing everything

  /** Mark-all puts every stored value up for publishing at once, whatever was cooling. */
  lemma MarkAllMarks(cfg: Config, s: System)
    requires Sound(s)
    ensures var t := Step(cfg, s, MainMarkAll);
            && Sound(t) && Filled(t.cache) == Filled(s.cache) && Contents(t.cache) == Contents(s.cache)
            && forall i | 0 <= i < Filled(t.cache) :: Eligible(t.cache.entries[i], t.cache.maxCooldown)
  {
    StepKeepsSound(cfg, s, MainMarkAll);
    SweepsKeepMap(s.cache);
    hide WellFormed;
  }

  /** Whatever the broker has forgotten, after mark-all nothing counts as delivered any more. */
  lemma MarkAllIsInductive(cfg: Config, s: System, broker: map<string, string>)
    requires Inductive(cfg, s)
    ensures Sound(s.(broker := broker)) && Inductive(cfg, Step(cfg, s.(broker := broker), MainMarkAll))
  {
    var t := s.(broker := broker);
    MarkAllMarks(cfg, t);
    SweepsKeepMap(s.cache);
    SlotsAgree(s.cache, Step(cfg, t, MainMarkAll).cache);
    hide WellFormed, Carries, TopicFor, Slice, FirstFree;
  }

  lemma MarkAllMakesReady(cfg: Config, s: System)
    requires Sound(s) && s.phase.Idle?
    ensures Ready(Step(cfg, s, MainMarkAll))
  {
    MarkAllMarks(cfg, s);
    var t := Step(cfg, s, MainMarkAll);
    MarkedAreValid(t.cache);
    ValidAreFilled(t.cache);
    hide WellFormed, FirstFree;
  }

  lemma ValidAreFilled(c: Cache)
    requires WellFormed(c)
    ensures forall i | 0 <= i < |c.entries| && c.entries[i].valid :: i < Filled(c)
  {
  }

  /** A full republish restores the broker. Whatever it held or lost, from every state of the invariant, entries
      cooling and a publish in flight included: after mark-all and any interleaving after it the broker ends up with
      everything stored. */
  lemma RepublishRestores(cfg: Config, s: System, broker: map<string, string>, es: seq<Event>, key: Key)
    requires Inductive(cfg, s) && AllFit(cfg) && Physical(es) && key in MapRun(Contents(s.cache), es)
    ensures Sound(s.(broker := broker))
    ensures Holds(cfg,
                  Run(cfg, s.(broker := broker), [MainMarkAll] + (es + (Settling() + Rounds(CAPACITY + 1)))).broker,
                  key, MapRun(Contents(s.cache), es)[key])
  {
    var lost := s.(broker := broker);
    MarkAllIsInductive(cfg, s, broker);
    MarkAllMarks(cfg, lost);
    hide *;
    var rest := es + (Settling() + Rounds(CAPACITY + 1));
    RunFirst(cfg, lost, MainMarkAll, rest);
    BrokerHoldsTheMap(cfg, Step(cfg, lost, MainMarkAll), es, key);
  }

  /** What a reconnection after a long outage does to the cache and the scan. */
  function Reconnection(): seq<Event> {
    [MainMarkAll, MainResetCursor]
  }

  lemma CursorResetKeeps(cfg: Config, s: System)
    requires Inductive(cfg, s) && Ready(s)
    ensures var t := Step(cfg, s, MainResetCursor); Sound(t) && Inductive(cfg, t) && Ready(t) && t.cache == s.cache
  {
    StepKeepsSound(cfg, s, MainResetCursor);
    MainKeepsInductive(cfg, s, MainResetCursor);
    hide Inductive, WellFormed;
  }

  /** If the publisher is idle when the client reconnects nothing has to be waited for. */
  lemma IdleRepublishes(cfg: Config, s: System, broker: map<string, string>, key: Key)
    requires Inductive(cfg, s) && AllFit(cfg) && s.phase.Idle? && key in Contents(s.cache)
    ensures Sound(s.(broker := broker))
    ensures Holds(cfg, Run(cfg, s.(broker := broker), Reconnection() + Rounds(CAPACITY + 1)).broker, key,
                  Contents(s.cache)[key])
  {
    var lost := s.(broker := broker);
    MarkAllIsInductive(cfg, s, broker);
    MarkAllMarks(cfg, lost);
    MarkAllMakesReady(cfg, lost);
    var t := Step(cfg, lost, MainMarkAll);
    CursorResetKeeps(cfg, t);
    var u, rounds := Step(cfg, t, MainResetCursor), Rounds(CAPACITY + 1);
    SlotCount(cfg, u);
    hide *;
    assert Reconnection() + rounds == [MainMarkAll] + ([MainResetCursor] + rounds) by { ReconnectionIs(rounds); }
    RunFirst(cfg, lost, MainMarkAll, [MainResetCursor] + rounds);
    RunFirst(cfg, t, MainResetCursor, rounds);
    BrokerCatchesUp(cfg, u, CAPACITY + 1, key);
  }

  lemma ReconnectionIs(es: seq<Event>)
    ensures Reconnection() + es == [MainMarkAll] + ([MainResetCursor] + es)
  {
  }
}
