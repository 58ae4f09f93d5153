/** The publish throttle over whole runs: how long exactly an entry is held back. */
module CacheThrottle {
  import opened Common
  import opened ErdCacheSpec
  import opened CacheProtocol
  import opened CacheRuns

  /** The rate that was set last. */
  function LastRate(es: seq<Event>, rate: Byte): Byte
    decreases |es|
  {
    if es == [] then rate
    else if es[|es| - 1].MainSetRate? then es[|es| - 1].rate
    else LastRate(es[..|es| - 1], rate)
  }

  lemma {:induction false} LastRateAfter(e: Event, es: seq<Event>, rate: Byte)
    ensures LastRate([e] + es, rate) == LastRate(es, if e.MainSetRate? then e.rate else rate)
    decreases |es|
  {
    if es == [] {
      assert [e] + es == [e] && [e][..0] == [];
    } else {
      var front := es[..|es| - 1];
      assert ([e] + es)[..|es|] == [e] + front;
      LastRateAfter(e, front, rate);
    }
  }

  /** The throttle is at the rate last set, in every run. */
  lemma {:induction false} RateIsLastSet(cfg: Config, s: System, es: seq<Event>)
    requires Sound(s)
    ensures Run(cfg, s, es).cache.maxCooldown == LastRate(es, s.cache.maxCooldown)
    decreases |es|
  {
    if es != [] {
      StepKeepsSound(cfg, s, es[0]);
      StepRate(cfg, s, es[0]);
      hide Step, Sound;
      RateIsLastSet(cfg, Step(cfg, s, es[0]), es[1..]);
      assert es == [es[0]] + es[1..];
      LastRateAfter(es[0], es[1..], s.cache.maxCooldown);
    }
  }

  lemma StepRate(cfg: Config, s: System, e: Event)
    requires Sound(s)
    ensures Step(cfg, s, e).cache.maxCooldown == if e.MainSetRate? then e.rate else s.cache.maxCooldown
  {
    hide WellFormed, FirstFree, Slice, Find, NextEligible;
  }

  /** A tick counts for a slot if the throttle is on and the entry is marked. */
  predicate Counts(s: System, e: Event, i: nat)
    requires i < |s.cache.entries|
  {
    e.MainTick? && s.cache.maxCooldown > 0 && s.cache.entries[i].dirty
  }

  ghost function CountedTicks(cfg: Config, s: System, es: seq<Event>, i: nat): nat
    requires Sound(s) && i < CAPACITY
    decreases |es|
  {
    if es == [] then 0
    else
      StepKeepsSound(cfg, s, es[0]);
      (if Counts(s, es[0], i) then 1 else 0) + CountedTicks(cfg, Step(cfg, s, es[0]), es[1..], i)
  }

  /** No full republish, and no further accepted publish of the slot is settled. */
  ghost predicate Undisturbed(cfg: Config, s: System, es: seq<Event>, i: nat)
    requires Sound(s)
    decreases |es|
  {
    es == [] ||
    (StepKeepsSound(cfg, s, es[0]);
     && !es[0].MainMarkAll? && !(es[0].Settle? && s.phase == Accepted(i))
     && Undisturbed(cfg, Step(cfg, s, es[0]), es[1..], i))
  }

  lemma StepCools(cfg: Config, s: System, e: Event, i: nat)
    requires Sound(s) && i < Filled(s.cache) && !e.MainMarkAll? && !(e.Settle? && s.phase == Accepted(i))
    ensures |Step(cfg, s, e).cache.entries| == CAPACITY
    ensures var c := s.cache.entries[i].cooldown;
            Step(cfg, s, e).cache.entries[i].cooldown == if Counts(s, e, i) && c > 0 then c - 1 else c
  {
    if e.MainUpdate? { UpdateBySlot(s.cache, e.key, e.data); }
    InUseIsValid(s, i);
    hide WellFormed, FirstFree, Slice, Find, Update, NextEligible;
  }

  lemma InUseIsValid(s: System, i: nat)
    requires Sound(s) && i < Filled(s.cache)
    ensures |s.cache.entries| == CAPACITY && i < CAPACITY && s.cache.entries[i].valid
  {
  }

  /** The cooldown of a slot is what it was less the ticks that counted. */
  lemma {:induction false} CooldownIs(cfg: Config, s: System, es: seq<Event>, i: nat)
    requires Sound(s) && i < Filled(s.cache) && i < CAPACITY && Undisturbed(cfg, s, es, i)
    ensures var t, c, n := Run(cfg, s, es), s.cache.entries[i].cooldown, CountedTicks(cfg, s, es, i);
            |t.cache.entries| == CAPACITY && t.cache.entries[i].cooldown == if c > n then c - n else 0
    decreases |es|
  {
    hide Sound, Step, Filled, Counts;
    InUseIsValid(s, i);
    if es != [] {
      StepKeepsSound(cfg, s, es[0]);
      StepCools(cfg, s, es[0], i);
      CooldownIs(cfg, Step(cfg, s, es[0]), es[1..], i);
    }
  }

  /** The throttle exactly: after an accepted publish is settled at a positive rate, whatever is interleaved, an entry
      may go out again if and only if it is marked and as many ticks as the rate found it marked, or the throttle has
      been turned off. */
  lemma ThrottleExactly(cfg: Config, s: System, es: seq<Event>, i: nat)
    requires Sound(s) && s.phase == Accepted(i) && s.cache.maxCooldown > 0 && i < CAPACITY
    requires Sound(Step(cfg, s, Settle)) && Undisturbed(cfg, Step(cfg, s, Settle), es, i)
    ensures var u := Step(cfg, s, Settle);
            var t, n, rate := Run(cfg, u, es), CountedTicks(cfg, u, es, i), LastRate(es, s.cache.maxCooldown);
            && |t.cache.entries| == CAPACITY
            && (Eligible(t.cache.entries[i], t.cache.maxCooldown) <==>
                t.cache.entries[i].dirty && (n >= s.cache.maxCooldown || rate == 0))
  {
    var u := Step(cfg, s, Settle);
    StepKeepsSound(cfg, s, Settle);
    CooldownIs(cfg, u, es, i);
    RateIsLastSet(cfg, u, es);
    StepRate(cfg, s, Settle);
    SettleLoads(cfg, s, i);
    StillInUse(cfg, u, es, i);
  }

  lemma SettleLoads(cfg: Config, s: System, i: nat)
    requires Sound(s) && s.phase == Accepted(i) && s.cache.maxCooldown > 0
    ensures var u := Step(cfg, s, Settle);
            |u.cache.entries| == CAPACITY && i < CAPACITY && u.cache.entries[i].cooldown == s.cache.maxCooldown
  {
    InUseIsValid(s, i);
    hide WellFormed, FirstFree;
  }

  lemma StillInUse(cfg: Config, s: System, es: seq<Event>, i: nat)
    requires Sound(s) && i < Filled(s.cache) && i < CAPACITY
    ensures var t := Run(cfg, s, es); |t.cache.entries| == CAPACITY && t.cache.entries[i].valid
  {
    RunMovesNothing(cfg, s, es);
    InUseIsValid(Run(cfg, s, es), i);
  }
}
