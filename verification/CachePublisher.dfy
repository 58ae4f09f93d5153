/** The publisher task's step as the firmware runs it, over the shared cache and the MQTT client. */
module CachePublisher {
  import opened Common
  import opened ErdCacheSpec
  import opened ErdCaches
  import opened ErdTopic
  import opened CacheProtocol
  import opened CacheRuns

  const HEX_BUFFER_SIZE: nat := 512

  /** A shorter outage is not followed by a full republish. */
  const REPUBLISH_AFTER_MS: nat := 60000

  /** The MQTT client: it accepts or drops a retained publish as it likes. */
  class MqttClient {
    var retained: map<string, string>

    method PublishRaw(topic: string, payload: string) returns (sent: bool)
      modifies this
      ensures retained == if sent then old(retained)[topic := payload] else old(retained)
    {
      sent := *;
      if sent {
        retained := retained[topic := payload];
      }
    }
  }

  lemma ThreeEvents(cfg: Config, s: System, accepted: bool)
    requires Sound(s)
    ensures Sound(Step(cfg, s, TakeSnapshot)) && Sound(Step(cfg, Step(cfg, s, TakeSnapshot), TryPublish(accepted)))
    ensures Run(cfg, s, [TakeSnapshot, TryPublish(accepted), Settle])
         == Step(cfg, Step(cfg, Step(cfg, s, TakeSnapshot), TryPublish(accepted)), Settle)
  {
    var three := [TakeSnapshot, TryPublish(accepted), Settle];
    assert three[1..] == [TryPublish(accepted), Settle] && three[1..][1..] == [Settle] && three[1..][1..][1..] == [];
    StepKeepsSound(cfg, s, TakeSnapshot);
    StepKeepsSound(cfg, Step(cfg, s, TakeSnapshot), TryPublish(accepted));
    var held := Step(cfg, Step(cfg, s, TakeSnapshot), TryPublish(accepted));
    assert Run(cfg, held, [Settle]) == Step(cfg, held, Settle);
  }

  /** The snapshot event, from what the lock hold returned. */
  lemma TakeIs(cfg: Config, s: System, c: Cache, next: nat, slot: nat, data: seq<Byte>)
    requires Sound(s) && s.phase.Idle? && (c, next, slot) == Snapshot(s.cache, s.cursor)
    requires slot < |c.entries| ==> data == Slice(c.arena, c.entries[slot])
    ensures |c.entries| == CAPACITY && next <= CAPACITY
    ensures slot == NextEligible(s.cache.entries, s.cursor, s.cache.maxCooldown)
    ensures Step(cfg, s, TakeSnapshot)
         == s.(cache := c, cursor := next, phase := if slot < CAPACITY then Holding(slot, c.entries[slot].key, data) else Idle)
  {
    hide WellFormed, FirstFree, Slice, NextEligible;
  }

  lemma ValidHolds(c: Cache)
    requires WellFormed(c)
    ensures |c.entries| == CAPACITY
  {
  }

  lemma ReconnectionRuns(cfg: Config, s: System)
    requires Sound(s)
    ensures Run(cfg, s, Reconnection()) == s.(cache := MarkAllUpdated(s.cache), cursor := 0)
  {
    hide MarkAllUpdated;
    StepKeepsSound(cfg, s, MainMarkAll);
    var t := Step(cfg, s, MainMarkAll);
    StepKeepsSound(cfg, t, MainResetCursor);
    assert Reconnection()[1..] == [MainResetCursor] && [MainResetCursor][1..] == [];
    hide Sound;
    assert Run(cfg, t, [MainResetCursor]) == Step(cfg, t, MainResetCursor);
  }

  class Publisher {
    const cache: ErdCache
    const client: MqttClient
    const config: Config
    const topicBuffer: array<char>
    const hexBuffer: array<char>
    var cursor: nat
    var connected: bool
    var paused: bool
    var missedLoops: nat
    var totalPublished: nat
    var firstRoundDone: bool
    var disconnectStart: nat

    ghost predicate Valid()
      reads this, cache, cache.entries, cache.arena
    {
      && cache.Valid() && cursor <= CAPACITY
      && topicBuffer.Length == BUFFER_SIZE && hexBuffer.Length == HEX_BUFFER_SIZE
      && topicBuffer != hexBuffer && '\0' !in config.deviceId
    }

    /** The protocol's view of the shared state, with this task in the given phase. */
    ghost function At(phase: Phase): System
      reads this, client, cache, cache.entries, cache.arena
    {
      System(cache.State(), cursor, phase, client.retained)
    }

    constructor (cache: ErdCache, client: MqttClient, config: Config)
      requires cache.Valid() && '\0' !in config.deviceId
      ensures Valid() && this.cache == cache && this.client == client && this.config == config
      ensures cursor == 0 && fresh(topicBuffer) && fresh(hexBuffer)
    {
      this.cache, this.client, this.config := cache, client, config;
      topicBuffer := new char[BUFFER_SIZE];
      hexBuffer := new char[HEX_BUFFER_SIZE];
      cursor, connected, paused, firstRoundDone := 0, false, false, false;
      missedLoops, totalPublished, disconnectStart := 0, 0, 0;
    }

    /** Two lowercase digits a byte, each write followed by a NUL the next one overwrites. */
    method FillHex(data: seq<Byte>)
      requires 2 * |data| < hexBuffer.Length
      modifies hexBuffer
      ensures hexBuffer[..2 * |data|] == HexBytes(data) && hexBuffer[2 * |data|] == '\0'
      ensures Carries(hexBuffer[..2 * |data|], data)
    {
      for i := 0 to |data|
        invariant hexBuffer[..2 * i] == HexBytes(data[..i])
      {
        assert data[..i + 1][..i] == data[..i];
        var digits := Hex(data[i], 2);
        hexBuffer[2 * i], hexBuffer[2 * i + 1], hexBuffer[2 * i + 2] := digits[0], digits[1], '\0';
        assert hexBuffer[..2 * i + 2] == hexBuffer[..2 * i] + digits;
      }
      hexBuffer[2 * |data|] := '\0';
      assert data[..|data|] == data;
      HexBytesCarries(data);
    }

    /** The lock hold that picks the next entry and copies its bytes. */
    method Take() returns (slot: nat, data: seq<Byte>)
      requires Valid()
      modifies this`cursor, cache.entries
      ensures Valid() && Sound(old(At(Idle)))
      ensures slot == NextEligible(old(cache.entries[..]), old(cursor), cache.maxCooldown)
      ensures slot < CAPACITY ==> slot < Filled(cache.State()) && |data| <= MAX_DATA_SIZE
      ensures Step(config, old(At(Idle)), TakeSnapshot)
           == At(if slot < CAPACITY then Holding(slot, cache.entries[slot].key, data) else Idle)
    {
      hide WellFormed, FirstFree, Contents, Slice, NextEligible;
      ghost var before := At(Idle);
      ValidHolds(cache.State());
      cursor, slot, data := cache.SnapshotNextUpdated(cursor);
      if slot < CAPACITY { InUse(cache.State(), slot); }
      TakeIs(config, before, cache.State(), cursor, slot, data);
    }

    /** The unlocked publish of a snapshot and the lock hold that settles it. */
    method PublishHeld(slot: nat, data: seq<Byte>) returns (published: bool)
      requires Valid() && slot < Filled(cache.State())
      requires |data| <= MAX_DATA_SIZE
      modifies client, cache.entries, topicBuffer, hexBuffer
      ensures Valid()
      ensures Sound(old(At(Holding(slot, cache.entries[slot].key, data))))
      ensures Sound(Step(config, old(At(Holding(slot, cache.entries[slot].key, data))), TryPublish(published)))
      ensures At(Idle) == Step(config, Step(config, old(At(Holding(slot, cache.entries[slot].key, data))),
                                            TryPublish(published)), Settle)
      ensures published ==> Fits(config, old(cache.entries[slot].key))
    {
      hide KeysDiffer, SizesOk, RestFree, Tiled, FirstFree, Printed, FirstNul, HexBytes, Contents;
      published := false;
      var key := cache.entries[slot].key;
      ghost var held := At(Holding(slot, key, data));
      var board := if key.board == config.primary then PRIMARY else key.board;
      var topicLen := Format(topicBuffer, config.deviceId, Topic(board, key.erd, Value));
      if topicLen >= 0 {
        FillHex(data);
        var sent := client.PublishRaw(topicBuffer[..topicLen], hexBuffer[..2 * |data|]);
        if sent {
          cache.MarkEntryPublished(slot);
          published := true;
        } else {
          cache.MarkEntryUnpublished(slot);
        }
      }
      StepKeepsSound(config, held, TryPublish(published));
    }

    /** An outage begins with the first disconnect after a connection. `now` is the clock. */
    method OnDisconnected(now: nat)
      modifies this`connected, this`disconnectStart
      ensures !connected
      ensures disconnectStart == if old(connected) || old(disconnectStart) == 0 then now else old(disconnectStart)
    {
      if connected || disconnectStart == 0 {
        disconnectStart := now;
      }
      connected := false;
    }

    /** After an outage of a minute or more everything is marked and the scan starts over; after a shorter one the
        scan goes on where it was. */
    method OnConnected(now: nat)
      requires Valid()
      modifies this`connected, this`firstRoundDone, this`cursor, cache.entries
      ensures Valid() && connected && !firstRoundDone && Sound(old(At(Idle)))
      ensures At(Idle) == if disconnectStart != 0 && (now - disconnectStart) % 0x1_0000_0000 >= REPUBLISH_AFTER_MS
                          then Run(config, old(At(Idle)), Reconnection()) else old(At(Idle))
    {
      hide WellFormed, FirstFree, Filled, MarkAllUpdated;
      ValidHolds(cache.State());
      connected, firstRoundDone := true, false;
      ghost var before := At(Idle);
      ReconnectionRuns(config, before);
      var duration := if disconnectStart != 0 then (now - disconnectStart) % 0x1_0000_0000 else 0;
      if disconnectStart != 0 && duration >= REPUBLISH_AFTER_MS {
        cache.MarkAll();
        cursor := 0;
      }
    }

    /** One wake of the task, when nothing else runs meanwhile, is the protocol's three publisher
        events in a row. Disconnected or paused, it only counts the missed loop. */
    method PublishOne() returns (published: bool)
      requires Valid()
      modifies this, client, cache.entries, topicBuffer, hexBuffer
      ensures Valid()
      ensures Sound(old(At(Idle)))
      ensures At(Idle) == if old(connected && !paused)
                           then Run(config, old(At(Idle)), [TakeSnapshot, TryPublish(published), Settle])
                           else old(At(Idle))
      ensures connected == old(connected) && paused == old(paused)
      ensures totalPublished == old(totalPublished) + (if published then 1 else 0)
      ensures missedLoops == old(missedLoops) + (if old(connected && !paused) then 0 else 1)
      ensures !old(connected && !paused) ==> !published
      ensures var held := Step(config, old(At(Idle)), TakeSnapshot).phase;
              published ==> held.Holding? && Fits(config, held.key)
      ensures firstRoundDone == (old(firstRoundDone)
                || (old(connected && !paused)
                    && NextEligible(old(cache.entries[..]), old(cursor), old(cache.maxCooldown)) == CAPACITY))
    {
      hide WellFormed, FirstFree, Filled, NextEligible, Fits, TopicFor, HexBytes, Slice;
      ValidHolds(cache.State());
      if !connected || paused {
        missedLoops := missedLoops + 1;
        return false;
      }
      ghost var s0 := At(Idle);
      published := false;
      var slot, data := Take();
      if slot < CAPACITY {
        published := PublishHeld(slot, data);
      }
      ThreeEvents(config, s0, published);
      if published {
        totalPublished := totalPublished + 1;
      } else if slot == CAPACITY && !firstRoundDone {
        firstRoundDone := true;
      }
    }
  }
}
