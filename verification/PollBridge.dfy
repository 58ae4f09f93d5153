/** The polling bridge as the firmware runs it: handlers of a state machine over one struct. The read client
    accepts or drops a read as it likes, and the clock may show anything. Each handler is proved to take
    exactly one step of the transition system, with the burst it happened to perform. */
module PollBridges {
  import opened Common
  import opened Dedup
  import opened PollSpec

  const YIELD_MS: nat := 50
  const SEND_BUDGET_MS: nat := 100

  class PollBridge {
    const config: Config
    var mode: Mode
    var list: seq<Target>
    var known: set<Erd>
    var index: nat
    var completed: nat
    var armed: bool
    var restart: bool
    var sending: bool
    var cycleFailed: bool
    var failures: Byte
    ghost var model: Bridge

    /** The reads the client has queued and not answered. */
    ghost var owed: multiset<Target>

    /** The struct's fields are those of the transition system's state; the rest of `model`, what the client
        owes and what happened so far, exists only there. */
    ghost predicate Valid()
      reads this
    {
      && mode == model.mode && list == model.list && known == model.known
      && index == model.index && completed == model.completed
      && armed == model.armed && restart == model.restart && sending == model.sending
      && cycleFailed == model.cycleFailed && failures == model.failures && owed == model.outstanding
    }

    /** millis() */
    method Now() returns (t: nat)
    {
      t := *;
    }

    /** Unsigned 32-bit difference of two clock readings. */
    function Elapsed(now: nat, start: nat): nat {
      (now - start) % 0x1_0000_0000
    }

    /** The client queues the read or drops it. */
    method ClientRead(target: Target) returns (queued: bool)
      modifies this`owed
      ensures owed == if queued then old(owed) + multiset{target} else old(owed)
    {
      queued := *;
      if queued {
        owed := owed + multiset{target};
      }
    }

    /** The client hands an answer over and owes it no longer. */
    ghost method Deliver(read: Target)
      modifies this`owed
      ensures owed == Without(old(owed), read)
    {
      owed := Without(owed, read);
    }

    method AddErdToPollingList(erd: Erd, board: Byte)
      modifies this`list, this`known
      ensures list == AddUnique(old(list), Target(erd, board), LIST_CAPACITY)
      ensures known == KnownWith(old(list), old(known), Target(erd, board))
    {
      var i := 0;
      while i < |list|
        invariant i <= |list| && Target(erd, board) !in list[..i]
      {
        if list[i] == Target(erd, board) {
          return;
        }
        i := i + 1;
      }
      if |list| < LIST_CAPACITY {
        list := list + [Target(erd, board)];
        known := Remember(known, erd);
      }
    }

    /** The fields a finished cycle updates when the next one has to wait for the timer. */
    twostate predicate OnlyFinished()
      reads this
    {
      && mode == old(mode) && list == old(list) && known == old(known) && index == old(index)
      && completed == old(completed) && restart == old(restart) && sending == old(sending) && model == old(model)
      && owed == old(owed)
      && armed && !cycleFailed && failures == Counted(old(failures), old(cycleFailed))
    }

    /** Finishes the cycle; `immediate` starts the next one at once. */
    method OnPollingCycleComplete(immediate: bool) returns (ghost burst: Burst)
      requires immediate ==> Valid()
      modifies this
      ensures !immediate ==> OnlyFinished()
      ensures immediate ==>
                && Valid() && LegalBurst(NextCycle(old(model)), burst)
                && model == SendBurst(config, NextCycle(old(model)), burst)
      decreases if immediate then 5 else 0
    {
      hide SendBurst, LegalBurst, Counted, NextCycle;
      burst := Burst([], true);
      failures := Counted(failures, cycleFailed);
      cycleFailed := false;
      if immediate {
        restart := false;
        index, completed := 0, 0;
        NextCycleFields(model);
        model := NextCycle(model);
        burst := SendAndArm();
      } else if !armed {
        armed := true;
      }
    }

    method SendNextPollReadRequest() returns (ghost queued: bool)
      requires Valid() && index < |list|
      modifies this
      ensures Valid() && model == SendOne(config, old(model), queued)
      decreases 1
    {
      hide SendOne, Request, Counted;
      var accepted := ClientRead(Request(config, list[index]));
      queued := accepted;
      SendOneFields(config, model, queued);
      model := SendOne(config, model, queued);
      index := index + 1;
      if !accepted {
        completed := completed + 1;
        if completed >= |list| {
          ghost var burst := OnPollingCycleComplete(false);
        }
      }
    }

    /** One batch: the clock is looked at after every tenth read. */
    method SendPollReadRequestsBounded(budget: nat) returns (ghost queued: seq<bool>)
      requires Valid() && index < |list|
      modifies this
      ensures Valid()
      ensures old(model).index + |queued| <= |old(model).list|
      ensures model == SendAll(config, old(model), queued)
      ensures 0 < |queued| && (|queued| % 10 == 0 || index == |list|)
      decreases 2
    {
      var start := Now();
      var count := 0;
      ghost var before := model;
      queued := [];
      while index < |list|
        invariant Valid() && count == |queued|
        invariant before.index + |queued| <= |before.list|
        invariant model == SendAll(config, before, queued)
        invariant index < |list| || count > 0
        decreases |list| - index
      {
        hide SendOne, SendAll;
        ghost var q := SendNextPollReadRequest();
        SendAllAppend(config, before, queued, [q]);
        SendAllOne(config, SendAll(config, before, queued), q);
        queued := queued + [q];
        count := count + 1;
        var now := Now();
        if count % 10 == 0 && Elapsed(now, start) >= budget {
          break;
        }
      }
    }

    method SetSending(value: bool)
      requires Valid()
      modifies this`sending, this`model
      ensures Valid() && model == old(model).(sending := value)
    {
      sending, model := value, model.(sending := value);
    }

    /** Sends until the list or the time budget is exhausted. */
    method SendCycleReads() returns (allSent: bool, ghost burst: Burst)
      requires Valid() && index <= |list|
      modifies this
      ensures Valid()
      ensures burst.finished == allSent && LegalBurst(old(model), burst)
      ensures model == SendAll(config, old(model), burst.queued).(sending := !allSent)
      decreases 3
    {
      hide SendAll, LegalBurst, Elapsed;
      ghost var before, queued: seq<bool> := model, [];
      SendAllNone(config, before);
      var start := Now();
      while index < |list|
        invariant Valid() && before.index + |queued| <= |before.list|
        invariant model == SendAll(config, before, queued)
        invariant |queued| % 10 == 0 || index == |list|
        decreases |list| - index
      {
        ghost var more := SendPollReadRequestsBounded(YIELD_MS);
        TensAdd(|queued|, |more|);
        SendAllAppend(config, before, queued, more);
        queued := queued + more;
        var now := Now();
        if Elapsed(now, start) >= SEND_BUDGET_MS {
          StoppedIsLegal(before, queued);
          SetSending(true);
          return false, Burst(queued, false);
        }
      }
      SentIsLegal(before, queued);
      SetSending(false);
      return true, Burst(queued, true);
    }

    /** One burst, and the timer armed after it. */
    method SendAndArm() returns (ghost burst: Burst)
      requires Valid() && index <= |list|
      modifies this
      ensures Valid() && LegalBurst(old(model), burst)
      ensures model == SendBurst(config, old(model), burst)
      decreases 4
    {
      hide SendAll, LegalBurst;
      var allSent;
      allSent, burst := SendCycleReads();
      armed, model := true, model.(armed := true);
    }

    // ---------------------------------------------------------------- probing

    /** Reads the next probe entry; false when none is left. */
    method SendNextReadRequest() returns (more: bool, ghost queued: bool)
      requires Valid()
      modifies this`index, this`model, this`owed
      ensures Valid()
      ensures more <==> old(model).index < |config.probeList|
      ensures model == if more then ProbeNext(config, old(model), queued) else old(model)
    {
      queued := true;
      more := index < |config.probeList|;
      if more {
        var accepted := ClientRead(Request(config, config.probeList[index]));
        queued := accepted;
        model := ProbeNext(config, model, queued);
        index := index + 1;
      }
    }

    method EnterPollingState()
      requires Valid()
      modifies this
      ensures Valid() && model == EnterPolling(old(model))
    {
      index, completed, restart := 0, 0, false;
      armed := true;
      mode := Polling;
      model := EnterPolling(model);
    }

    /** The list goes, and with it the ERD set if there was a list. */
    method ClearForProbing()
      requires Valid()
      modifies this`mode, this`index, this`known, this`list, this`model
      ensures Valid() && model == ForProbing(old(model))
    {
      mode, index := Probing, 0;
      if |list| > 0 {
        known, list := {}, [];
      }
      model := ForProbing(model);
    }

    method EnterProbeState() returns (ghost queued: bool)
      requires Valid()
      modifies this
      ensures Valid() && model == EnterProbing(config, old(model), queued)
    {
      hide ProbeNext, EnterPolling, EnterProbing;
      queued := true;
      ghost var before := model;
      ClearForProbing();
      forall q ensures EnterProbing(config, before, q) == ProbeNext(config, model, q) { ProbingBegins(config, before, q); }
      if |config.probeList| > 0 {
        var more;
        more, queued := SendNextReadRequest();
      } else {
        ProbeNextEnds(config, model, queued);
        EnterPollingState();
      }
    }

    constructor (config: Config)
      ensures Valid() && this.config == config
      ensures exists queued :: model == Initial(config, queued)
    {
      this.config := config;
      mode, list, known, index, completed := Probing, [], {}, 0, 0;
      armed, restart, sending, cycleFailed, failures, owed := false, false, false, false, 0, multiset{};
      model := Bridge(Probing, [], {}, 0, 0, false, false, false, false, 0, multiset{}, multiset{}, false, 0, 0, []);
      new;
      ghost var queued := EnterProbeState();
      assert model == Initial(config, queued);
    }

    // ---------------------------------------------------------------- events

    method OnProbeAnswer(ghost read: Target, erd: Erd, from: Byte, ok: bool) returns (ghost queued: bool)
      requires Valid() && mode == Probing && read in model.outstanding && erd == read.erd
      modifies this
      ensures Valid() && model == ProbingAnswer(config, old(model), read, from, ok, queued)
    {
      RecordProbe(read, erd, from, ok);
      hide EnterPolling, Recorded;
      var more;
      more, queued := SendNextReadRequest();
      if !more {
        EnterPollingState();
      }
    }

    method RecordProbe(ghost read: Target, erd: Erd, from: Byte, ok: bool)
      requires Valid() && erd == read.erd
      modifies this`list, this`known, this`model, this`owed
      ensures Valid() && model == Recorded(old(model), read, from, ok)
    {
      hide Remember, KnownWith, AddUnique, Recorded, Without;
      ghost var before := model;
      RecordedFields(before, read, from, ok);
      Deliver(read);
      if ok {
        AddErdToPollingList(erd, from);
      } else {
        known := Remember(known, erd);
      }
      model := Recorded(before, read, from, ok);
    }

    /** read_completed and read_failed while polling. */
    method OnPollAnswer(ghost read: Target, erd: Erd, from: Byte, ok: bool) returns (ghost burst: Burst)
      requires Valid() && mode == Polling && read in model.outstanding && erd == read.erd
      modifies this
      ensures Valid()
      ensures var t := Serve(old(model), read, from, ok);
              t.completed >= |t.list| && Immediate(t) ==> LegalBurst(NextCycle(t), burst)
      ensures model == PollingAnswer(config, old(model), read, from, ok, burst)
    {
      hide SendBurst, LegalBurst, Serve, NextCycle, Finish, Immediate;
      burst := Burst([], true);
      ServeAnswer(read, erd, from, ok);
      if completed >= |list| {
        burst := FinishAnsweredCycle();
        if !ok && failures >= 3 {
          mode, model := Failed, model.(mode := Failed);
        }
      }
    }

    /** The last answer of a cycle is in: the next one starts at once if the timer has fired meanwhile. */
    method FinishAnsweredCycle() returns (ghost burst: Burst)
      requires Valid()
      modifies this
      ensures Valid()
      ensures Immediate(old(model)) ==>
                LegalBurst(NextCycle(old(model)), burst) && model == SendBurst(config, NextCycle(old(model)), burst)
      ensures !Immediate(old(model)) ==> model == Finish(old(model))
    {
      hide SendBurst, LegalBurst, NextCycle;
      var immediate := restart || !armed;
      burst := OnPollingCycleComplete(immediate);
      if !immediate {
        model := Finish(model);
      }
    }

    method ServeAnswer(ghost read: Target, erd: Erd, from: Byte, ok: bool)
      requires Valid() && erd == read.erd
      modifies this
      ensures Valid() && model == Serve(old(model), read, from, ok)
    {
      hide KnownWith, AddUnique, Serve, Without;
      ghost var before := model;
      ServeFields(before, read, from, ok);
      Deliver(read);
      if ok {
        if erd !in known {
          AddErdToPollingList(erd, from);
        }
      } else {
        cycleFailed := true;
      }
      completed := completed + 1;
      model := Serve(before, read, from, ok);
    }

    /** Ignored while reads are owed, but for asking for a restart; otherwise sends on or begins a cycle. */
    method OnPollingTimer() returns (ghost burst: Burst)
      requires Valid() && armed && mode == Polling && index <= |list|
      modifies this
      ensures Valid()
      ensures (old(index) >= |old(list)| && old(completed) < |old(list)|) || LegalBurst(TimerStart(old(model)), burst)
      ensures model == PollingTimer(config, old(model), burst)
    {
      hide SendAll, LegalBurst;
      burst := Burst([], true);
      armed := false;
      if index >= |list| && completed < |list| {
        restart := true;
        model := model.(armed := false, restart := true);
        return;
      }
      model := TimerStart(model);
      if !sending {
        index, completed := 0, 0;
      }
      burst := SendAndArm();
    }

    method OnApplianceLost() returns (ghost queued: bool)
      requires Valid() && model.outstanding == multiset{}
      modifies this
      ensures Valid() && model == Step(config, old(model), ApplianceLost(queued))
    {
      if mode == Failed {
        failures := 0;
        model := model.(failures := 0, history := []);
      }
      queued := EnterProbeState();
    }
  }

  lemma StoppedIsLegal(s: Bridge, queued: seq<bool>)
    requires s.index + |queued| <= |s.list| && |queued| > 0 && (|queued| % 10 == 0 || s.index + |queued| == |s.list|)
    ensures LegalBurst(s, Burst(queued, false))
  {
  }

  lemma SentIsLegal(s: Bridge, queued: seq<bool>)
    requires s.index + |queued| == |s.list|
    ensures LegalBurst(s, Burst(queued, true))
  {
  }

  /** The fields of the struct after a read of the cycle. */
  lemma SendOneFields(cfg: Config, s: Bridge, queued: bool)
    requires s.index < |s.list|
    ensures var t, r := SendOne(cfg, s, queued), multiset{Request(cfg, s.list[s.index])};
            var ends := !queued && s.completed + 1 >= |s.list|;
            && t.mode == s.mode && t.list == s.list && t.known == s.known && t.index == s.index + 1
            && t.completed == s.completed + (if queued then 0 else 1)
            && t.restart == s.restart && t.sending == s.sending
            && t.armed == (s.armed || ends) && t.cycleFailed == (s.cycleFailed && !ends)
            && t.failures == (if ends then Counted(s.failures, s.cycleFailed) else s.failures)
            && t.outstanding == (if queued then s.outstanding + r else s.outstanding)
  {
    hide Request, Counted;
  }

  function Without(m: multiset<Target>, t: Target): multiset<Target> {
    m - multiset{t}
  }

  function ForProbing(s: Bridge): Bridge {
    s.(mode := Probing, index := 0, list := [], known := if |s.list| > 0 then {} else s.known)
  }

  lemma ProbingBegins(cfg: Config, s: Bridge, queued: bool)
    ensures EnterProbing(cfg, s, queued) == ProbeNext(cfg, ForProbing(s), queued)
  {
    hide ProbeNext;
  }

  lemma NextCycleFields(s: Bridge)
    ensures var t := NextCycle(s);
            && t.mode == s.mode && t.list == s.list && t.known == s.known && t.index == 0 && t.completed == 0
            && t.armed == s.armed && !t.restart && t.sending == s.sending && !t.cycleFailed
            && t.failures == Counted(s.failures, s.cycleFailed) && t.outstanding == s.outstanding
  {
    hide Counted;
  }

  lemma RecordedFields(s: Bridge, read: Target, from: Byte, ok: bool)
    ensures var t := Recorded(s, read, from, ok);
            && t.list == (if ok then AddUnique(s.list, Target(read.erd, from), LIST_CAPACITY) else s.list)
            && t.known == (if ok then KnownWith(s.list, s.known, Target(read.erd, from)) else Remember(s.known, read.erd))
            && t == s.(list := t.list, known := t.known, outstanding := Without(s.outstanding, read))
  {
    hide AddUnique, KnownWith, Remember;
  }

  /** The fields of the struct after an answer. */
  lemma ServeFields(s: Bridge, read: Target, from: Byte, ok: bool)
    ensures var t, joins := Serve(s, read, from, ok), ok && read.erd !in s.known;
            && t.list == (if joins then AddUnique(s.list, Target(read.erd, from), LIST_CAPACITY) else s.list)
            && t.known == (if joins then KnownWith(s.list, s.known, Target(read.erd, from)) else s.known)
            && t.completed == s.completed + 1 && t.cycleFailed == (s.cycleFailed || !ok)
            && t.mode == s.mode && t.index == s.index && t.armed == s.armed && t.restart == s.restart
            && t.sending == s.sending && t.failures == s.failures
            && t.outstanding == Without(s.outstanding, read)
  {
    hide AddUnique, KnownWith;
  }

  lemma {:induction false} TensAdd(a: nat, b: nat)
    ensures a % 10 == 0 && b % 10 == 0 ==> (a + b) % 10 == 0
  {
    if b >= 10 { TensAdd(a, b - 10); }
  }

  lemma ProbeNextEnds(cfg: Config, s: Bridge, queued: bool)
    requires s.index >= |cfg.probeList|
    ensures ProbeNext(cfg, s, queued) == EnterPolling(s)
  {
  }

  lemma SendAllNone(cfg: Config, s: Bridge)
    requires s.index <= |s.list|
    ensures SendAll(cfg, s, []) == s
  {
  }

  lemma SendAllOne(cfg: Config, s: Bridge, q: bool)
    requires s.index < |s.list|
    ensures SendAll(cfg, s, [q]) == SendOne(cfg, s, q)
  {
    assert [q][1..] == [];
  }

  lemma {:induction false} SendAllAppend(cfg: Config, s: Bridge, a: seq<bool>, b: seq<bool>)
    requires s.index + |a| + |b| <= |s.list|
    ensures SendAll(cfg, s, a + b) == SendAll(cfg, SendAll(cfg, s, a), b)
    decreases |a|
  {
    if a == [] {
      assert a + b == b;
    } else {
      assert (a + b)[0] == a[0] && (a + b)[1..] == a[1..] + b;
      SendAllAppend(cfg, SendOne(cfg, s, a[0]), a[1..], b);
    }
  }
}
