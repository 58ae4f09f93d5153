/** A loss of the appliance in the middle of a cycle: when it makes the polling bridge give up without cause. */
module PollLosses {
  import opened Common
  import opened Dedup
  import opened PollSpec
  import opened PollTheorems
  import opened PollOutcomes

  /** A burst looks at the clock after every tenth read. */
  const BATCH: nat := 10

  // ---------------------------------------------------------------- short lists

  /** The list is no longer than a batch, so a burst never stops in the middle of it. */
  ghost predicate Short(cfg: Config, s: Bridge) {
    && |cfg.probeList| <= BATCH
    && (s.mode == Probing ==> |s.list| + |s.outstanding| <= s.index)
    && (s.mode != Probing ==> |s.list| <= BATCH)
    && (s.mode == Polling ==> s.index == 0 || s.index >= |s.list|)
  }

  lemma {:induction false} SendAllKeepsMode(cfg: Config, s: Bridge, queued: seq<bool>)
    requires s.index + |queued| <= |s.list|
    ensures SendAll(cfg, s, queued).mode == s.mode
    decreases |queued|
  {
    if queued != [] {
      hide SendOne, Request;
      SendOneIs(cfg, s, queued[0]);
      SendAllKeepsMode(cfg, SendOne(cfg, s, queued[0]), queued[1..]);
    }
  }

  lemma ShortBurst(cfg: Config, s: Bridge, b: Burst)
    requires LegalBurst(s, b) && |s.list| <= BATCH && (s.index == 0 || s.index >= |s.list|)
    ensures var t := SendBurst(cfg, s, b);
            t.mode == s.mode && t.list == s.list && t.index >= |s.list|
  {
    SendAllKeepsMode(cfg, s, b.queued);
    hide SendAll;
  }

  lemma ShortProbe(cfg: Config, s: Bridge, queued: bool)
    requires |cfg.probeList| <= BATCH && s.mode == Probing && s.index <= |cfg.probeList|
    requires |s.list| <= s.index && s.outstanding == multiset{}
    ensures Short(cfg, ProbeNext(cfg, s, queued))
  {
    hide Request;
    if s.index < |cfg.probeList| {
      var r := Request(cfg, cfg.probeList[s.index]);
      assert multiset{} + multiset{r} == multiset{r};
    }
  }

  lemma ShortAnswer(cfg: Config, s: Bridge, read: Target, from: Byte, ok: bool, b: Burst)
    requires Inv(cfg, s) && Short(cfg, s) && s.mode == Polling && Enabled(cfg, s, Answer(read, from, ok, b))
    ensures Short(cfg, Step(cfg, s, Answer(read, from, ok, b)))
  {
    hide Inv, Ledger, Knows, AddToList, SendBurst, LegalBurst, Serve, Immediate;
    InvPolling(cfg, s);
    ServeKeeps(cfg, s, read, from, ok);
    var t := Serve(s, read, from, ok);
    if t.completed >= |t.list| && Immediate(t) { ShortBurst(cfg, NextCycle(t), b); }
  }

  lemma ShortTimer(cfg: Config, s: Bridge, b: Burst)
    requires Short(cfg, s) && s.mode == Polling && Enabled(cfg, s, PollTimer(b))
    ensures Short(cfg, Step(cfg, s, PollTimer(b)))
  {
    if s.index < |s.list| || s.completed >= |s.list| {
      hide SendBurst, LegalBurst;
      ShortBurst(cfg, TimerStart(s), b);
    }
  }

  lemma ShortProbeAnswer(cfg: Config, s: Bridge, read: Target, from: Byte, ok: bool, queued: bool)
    requires Inv(cfg, s) && Short(cfg, s) && s.mode == Probing && read in s.outstanding
    ensures Short(cfg, ProbingAnswer(cfg, s, read, from, ok, queued))
  {
    OwesAtMostOne(s.outstanding, Request(cfg, cfg.probeList[s.index - 1]));
    assert s.outstanding == multiset{read} && s.outstanding - multiset{read} == multiset{};
    hide Request, Remember, Inv;
    var t := Recorded(s, read, from, ok);
    assert |t.list| <= |s.list| + 1;
    hide ProbeNext, Recorded;
    ShortProbe(cfg, t, queued);
  }

  lemma ShortStep(cfg: Config, s: Bridge, e: Event)
    requires Inv(cfg, s) && Short(cfg, s) && Enabled(cfg, s, e)
    ensures Short(cfg, Step(cfg, s, e))
  {
    hide PollingAnswer, PollingTimer, ProbingAnswer, Inv, ProbeNext;
    match e
    case Answer(read, from, ok, b) =>
      if s.mode == Polling {
        ShortAnswer(cfg, s, read, from, ok, b);
      } else if s.mode == Probing {
        ShortProbeAnswer(cfg, s, read, from, ok, b.queued[0]);
      }
    case PollTimer(b) => if s.mode == Polling { ShortTimer(cfg, s, b); }
    case ApplianceLost(queued) =>
      var t := if s.mode == Failed then s.(failures := 0, history := []) else s;
      ShortProbe(cfg, t.(mode := Probing, index := 0, list := [], known := if |t.list| > 0 then {} else t.known), queued);
  }

  /** Nothing is owed only before a cycle or after it, when no failed read is noted. */
  lemma ShortIsClean(cfg: Config, s: Bridge)
    requires Inv(cfg, s) && Honest(s) && Short(cfg, s) && s.outstanding == multiset{}
    ensures !s.cycleFailed
  {
    if s.mode == Polling { LedgerCounts(cfg, s); }
    hide Ledger, Trailing;
  }

  lemma {:induction false} ShortRunsAreClean(cfg: Config, s: Bridge, es: seq<Event>)
    requires Inv(cfg, s) && Honest(s) && Short(cfg, s) && Possible(cfg, s, es)
    ensures CleanLosses(cfg, s, es)
    decreases |es|
  {
    if es != [] {
      if es[0].ApplianceLost? { ShortIsClean(cfg, s); }
      hide Inv, Honest, Short, Step;
      StepKeepsInv(cfg, s, es[0]);
      StepIsHonest(cfg, s, es[0]);
      ShortStep(cfg, s, es[0]);
      ShortRunsAreClean(cfg, Step(cfg, s, es[0]), es[1..]);
    }
  }

  lemma InitialShort(cfg: Config, queued: bool)
    requires |cfg.probeList| <= BATCH
    ensures Short(cfg, Initial(cfg, queued))
  {
    var s := Bridge(Probing, [], {}, 0, 0, false, false, false, false, 0, multiset{}, multiset{}, false, 0, 0, []);
    ShortProbe(cfg, s, queued);
    hide ProbeNext;
    assert Initial(cfg, queued) == ProbeNext(cfg, s, queued);
  }

  // ---------------------------------------------------------------- sends that are mostly dropped

  function Dropping(n: nat): (queued: seq<bool>)
    ensures |queued| == n
  {
    if n == 0 then [] else [false] + Dropping(n - 1)
  }

  /** The fields that only a finished cycle or an answer changes. */
  ghost predicate Alike(s: Bridge, t: Bridge) {
    && t.mode == s.mode && t.list == s.list && t.armed == s.armed && t.restart == s.restart
    && t.cycleFailed == s.cycleFailed && t.failures == s.failures && t.failedNow == s.failedNow && t.history == s.history
  }

  lemma {:induction false} DropsCount(cfg: Config, s: Bridge, n: nat)
    requires s.index + n <= |s.list| && s.completed + n < |s.list|
    ensures var t := SendAll(cfg, s, Dropping(n));
            Alike(s, t) && t.index == s.index + n && t.completed == s.completed + n && t.outstanding == s.outstanding
    decreases n
  {
    if n > 0 {
      hide Request;
      assert Dropping(n)[1..] == Dropping(n - 1);
      DropsCount(cfg, SendOne(cfg, s, false), n - 1);
    }
  }

  /** A cycle whose every read is dropped finishes within the burst. */
  lemma {:induction false} DropsFinish(cfg: Config, s: Bridge, n: nat)
    requires n > 0 && s.index + n == |s.list| && s.completed + n == |s.list| && !s.failedNow
    ensures var t := SendAll(cfg, s, Dropping(n));
            && t.index == |s.list| == t.completed && t.outstanding == s.outstanding
            && t.mode == s.mode && t.list == s.list && t.restart == s.restart && t.armed && !t.cycleFailed
            && t.failures == Counted(s.failures, s.cycleFailed)
            && t.history == s.history + [false]
    decreases n
  {
    hide Request;
    assert Dropping(n)[1..] == Dropping(n - 1);
    if n > 1 {
      DropsFinish(cfg, SendOne(cfg, s, false), n - 1);
    }
  }

  lemma OneQueued(cfg: Config, s: Bridge, n: nat)
    requires s.index == 0 && s.completed == 0 && s.outstanding == multiset{} && n < |s.list|
    ensures var t := SendAll(cfg, s, [true] + Dropping(n));
            && Alike(s, t) && t.index == n + 1 && t.completed == n
            && t.outstanding == multiset{Request(cfg, s.list[0])}
  {
    var r := Request(cfg, s.list[0]);
    assert multiset{} + multiset{r} == multiset{r};
    hide Request;
    assert ([true] + Dropping(n))[1..] == Dropping(n);
    DropsCount(cfg, SendOne(cfg, s, true), n);
  }

  // ---------------------------------------------------------------- stations of the run

  /** Polling `list`, between cycles, with everything armed. */
  ghost predicate Between(s: Bridge, list: seq<Target>, failures: nat, history: seq<bool>) {
    && s.mode == Polling && s.list == list && s.index == s.completed == |list| && s.outstanding == multiset{}
    && s.armed && !s.restart && !s.sending && !s.cycleFailed && s.failures == failures && s.history == history
  }

  /** Polling `list`, no cycle begun yet. `noted` is a failure flag left over from before the probe phase. */
  ghost predicate Parked(s: Bridge, list: seq<Target>, noted: bool, failures: nat, history: seq<bool>) {
    && s.mode == Polling && s.list == list && s.index == s.completed == 0 && s.outstanding == multiset{}
    && s.armed && !s.restart && !s.failedNow && s.cycleFailed == noted && s.failures == failures && s.history == history
  }

  /** One read of a burst of `n + 1` is owed, the others were dropped. */
  ghost predicate Owing(cfg: Config, s: Bridge, list: seq<Target>, n: nat, failures: nat, history: seq<bool>) {
    && n < |list| && (n + 1 == |list| ==> !s.sending)
    && s.mode == Polling && s.list == list && s.index == n + 1 && s.completed == n
    && s.outstanding == multiset{Request(cfg, list[0])}
    && s.armed && !s.restart && !s.failedNow && !s.cycleFailed && s.failures == failures && s.history == history
  }

  function Sends(n: nat, finished: bool): Event {
    PollTimer(Burst([true] + Dropping(n), finished))
  }

  function Fails(cfg: Config, t: Target): Event {
    Answer(Request(cfg, t), 0, false, Burst([true], true))
  }

  lemma ParkedSends(cfg: Config, s: Bridge, list: seq<Target>)
    requires Parked(s, list, false, 0, []) && |list| > BATCH
    ensures Enabled(cfg, s, Sends(BATCH - 1, false))
    ensures Owing(cfg, Step(cfg, s, Sends(BATCH - 1, false)), list, BATCH - 1, 0, [])
  {
    hide SendAll, Request, Dropping;
    OneQueued(cfg, TimerStart(s), BATCH - 1);
  }

  lemma BetweenSends(cfg: Config, s: Bridge, list: seq<Target>, failures: nat, history: seq<bool>)
    requires Between(s, list, failures, history) && |list| > 0
    ensures Enabled(cfg, s, Sends(|list| - 1, true))
    ensures Owing(cfg, Step(cfg, s, Sends(|list| - 1, true)), list, |list| - 1, failures, history)
  {
    hide SendAll, Request, Dropping;
    OneQueued(cfg, TimerStart(s), |list| - 1);
  }

  lemma ParkedDropsAll(cfg: Config, s: Bridge, list: seq<Target>)
    requires Parked(s, list, true, 0, []) && |list| > 0
    ensures Enabled(cfg, s, PollTimer(Burst(Dropping(|list|), true)))
    ensures Between(Step(cfg, s, PollTimer(Burst(Dropping(|list|), true))), list, 1, [false])
  {
    hide SendAll, Request, Dropping;
    var t := TimerStart(s);
    DropsFinish(cfg, t, |list|);
    assert LegalBurst(t, Burst(Dropping(|list|), true));
    assert [] + [false] == [false];
  }

  lemma OwingFails(cfg: Config, s: Bridge, list: seq<Target>, n: nat, failures: nat, history: seq<bool>)
    requires Owing(cfg, s, list, n, failures, history) && failures < 3
    ensures Enabled(cfg, s, Fails(cfg, list[0]))
    ensures var t := Step(cfg, s, Fails(cfg, list[0]));
            && (n + 1 < |list| ==>
                  && t.mode == Polling && t.list == list && t.outstanding == multiset{}
                  && t.cycleFailed && t.failures == failures && t.history == history)
            && (n + 1 == |list| && failures < 2 ==> Between(t, list, failures + 1, history + [true]))
            && (n + 1 == |list| && failures == 2 ==> t.mode == Failed && t.history == history + [true])
  {
    var r := Request(cfg, list[0]);
    SwapOne(r, r);
    hide Request, SendBurst;
  }

  // ---------------------------------------------------------------- runs

  lemma {:induction false} RunAppend(cfg: Config, s: Bridge, a: seq<Event>, b: seq<Event>)
    requires Possible(cfg, s, a) && Possible(cfg, Run(cfg, s, a), b)
    ensures Possible(cfg, s, a + b) && Run(cfg, s, a + b) == Run(cfg, Run(cfg, s, a), b)
    decreases |a|
  {
    hide Step, Enabled;
    if a == [] {
      assert a + b == b;
    } else {
      assert (a + b)[0] == a[0] && (a + b)[1..] == a[1..] + b;
      RunAppend(cfg, Step(cfg, s, a[0]), a[1..], b);
    }
  }

  lemma RunOnwards(cfg: Config, s: Bridge, a: seq<Event>, e: Event)
    requires Possible(cfg, s, a) && Enabled(cfg, Run(cfg, s, a), e)
    ensures Possible(cfg, s, a + [e]) && Run(cfg, s, a + [e]) == Step(cfg, Run(cfg, s, a), e)
  {
    hide Step, Enabled, Possible, Run;
    RunOne(cfg, Run(cfg, s, a), e);
    RunAppend(cfg, s, a, [e]);
  }

  function ProbeEvents(cfg: Config, outcomes: seq<Outcome>, k: nat): seq<Event>
    requires k <= |outcomes| == |cfg.probeList|
  {
    if k == 0 then [] else ProbeEvents(cfg, outcomes, k - 1) + [ProbeEvent(cfg, outcomes, k - 1)]
  }

  lemma {:induction false} ProbeEventsRun(cfg: Config, s: Bridge, outcomes: seq<Outcome>, k: nat)
    requires k <= |outcomes| == |cfg.probeList| && |outcomes| > 0 && s.outstanding == multiset{}
    ensures Possible(cfg, EnterProbing(cfg, s, true), ProbeEvents(cfg, outcomes, k))
    ensures Run(cfg, EnterProbing(cfg, s, true), ProbeEvents(cfg, outcomes, k)) == ProbeRun(cfg, s, outcomes, k)
    decreases k
  {
    hide Step, Enabled, ProbeEvent, EnterProbing;
    if k > 0 {
      ProbeEventsRun(cfg, s, outcomes, k - 1);
      ProbeIsExact(cfg, s, outcomes, k - 1);
      RunOnwards(cfg, EnterProbing(cfg, s, true), ProbeEvents(cfg, outcomes, k - 1), ProbeEvent(cfg, outcomes, k - 1));
    }
  }

  /** What a probe phase leaves alone, the noted failure among it. */
  ghost predicate Kept(s: Bridge, r: Bridge) {
    r.cycleFailed == s.cycleFailed && r.failures == s.failures && r.history == s.history
  }

  lemma KeptByAnswer(cfg: Config, r: Bridge, read: Target, from: Byte, ok: bool)
    ensures Kept(r, ProbingAnswer(cfg, r, read, from, ok, true))
    ensures r.index == |cfg.probeList| ==>
              var t := ProbingAnswer(cfg, r, read, from, ok, true);
              t.index == 0 && t.completed == 0 && t.armed && !t.restart && !t.failedNow
  {
    hide Remember, Request;
  }

  /** `k` answers into a probe phase entered from `s`. */
  ghost predicate KeptTo(cfg: Config, s: Bridge, k: nat, r: Bridge) {
    && Kept(s, r)
    && (k == |cfg.probeList| ==> r.index == 0 && r.completed == 0 && r.armed && !r.restart && !r.failedNow)
  }

  lemma KeptAtEntry(cfg: Config, s: Bridge, outcomes: seq<Outcome>)
    requires |outcomes| == |cfg.probeList| > 0
    ensures KeptTo(cfg, s, 0, ProbeRun(cfg, s, outcomes, 0))
  {
    hide Request;
  }

  lemma KeptOnwards(cfg: Config, s: Bridge, outcomes: seq<Outcome>, k: nat)
    requires k < |outcomes| == |cfg.probeList| && s.outstanding == multiset{}
    requires KeptTo(cfg, s, k, ProbeRun(cfg, s, outcomes, k)) && ProbedTo(cfg, outcomes, k, ProbeRun(cfg, s, outcomes, k))
    ensures KeptTo(cfg, s, k + 1, ProbeRun(cfg, s, outcomes, k + 1))
  {
    hide Step, Enabled, ProbeEvent, ProbingAnswer, Request, ProbeRun, Found, AddAllUnique;
    var r := ProbeRun(cfg, s, outcomes, k);
    ProbeRunUnfold(cfg, s, outcomes, k + 1);
    ProbeStep(cfg, outcomes, k, r);
    KeptByAnswer(cfg, r, Request(cfg, cfg.probeList[k]), outcomes[k].from, outcomes[k].ok);
  }

  lemma {:induction false} ProbeKeeps(cfg: Config, s: Bridge, outcomes: seq<Outcome>, k: nat)
    requires k <= |outcomes| == |cfg.probeList| && |outcomes| > 0 && s.outstanding == multiset{}
    ensures KeptTo(cfg, s, k, ProbeRun(cfg, s, outcomes, k))
    decreases k
  {
    hide *;
    if k == 0 {
      KeptAtEntry(cfg, s, outcomes);
    } else {
      ProbeKeeps(cfg, s, outcomes, k - 1);
      ProbeRunIs(cfg, s, outcomes, k - 1);
      KeptOnwards(cfg, s, outcomes, k - 1);
    }
  }

  lemma ProbeParks(cfg: Config, s: Bridge, outcomes: seq<Outcome>)
    requires |outcomes| == |cfg.probeList| > 0 && s.outstanding == multiset{}
    ensures Parked(ProbeRun(cfg, s, outcomes, |outcomes|), Listed(cfg, outcomes), s.cycleFailed, s.failures, s.history)
  {
    hide Enabled, ProbeEvent, ProbeRun, Found, Unique, EnterProbing, AddAllUnique;
    ProbeRunIs(cfg, s, outcomes, |outcomes|);
    ProbeIsExact(cfg, s, outcomes, |outcomes|);
    ProbeKeeps(cfg, s, outcomes, |outcomes|);
  }

  /** The list these outcomes leave. */
  function Listed(cfg: Config, outcomes: seq<Outcome>): seq<Target>
    requires |outcomes| == |cfg.probeList|
  {
    Cut(Unique(Found(cfg, outcomes, |outcomes|)), LIST_CAPACITY)
  }

  // ---------------------------------------------------------------- giving up without cause

  lemma UpToTheLoss(cfg: Config, outcomes: seq<Outcome>) returns (es: seq<Event>)
    requires |outcomes| == |cfg.probeList| > 0 && |Listed(cfg, outcomes)| > BATCH
    ensures Possible(cfg, Initial(cfg, true), es)
    ensures var u := Run(cfg, Initial(cfg, true), es);
            u.mode == Polling && u.outstanding == multiset{} && u.cycleFailed && u.failures == 0 && u.history == []
  {
    var blank := Bridge(Probing, [], {}, 0, 0, false, false, false, false, 0, multiset{}, multiset{}, false, 0, 0, []);
    var list, start := Listed(cfg, outcomes), EnterProbing(cfg, blank, true);
    assert start == Initial(cfg, true);
    ProbeEventsRun(cfg, blank, outcomes, |outcomes|);
    ProbeParks(cfg, blank, outcomes);
    hide *;
    es := ProbeEvents(cfg, outcomes, |outcomes|);
    ParkedSends(cfg, Run(cfg, start, es), list);
    RunOnwards(cfg, start, es, Sends(BATCH - 1, false));
    es := es + [Sends(BATCH - 1, false)];
    OwingFails(cfg, Run(cfg, start, es), list, BATCH - 1, 0, []);
    RunOnwards(cfg, start, es, Fails(cfg, list[0]));
    es := es + [Fails(cfg, list[0])];
  }

  /** Two more cycles with a failed read each, after one without any that was counted all the same. */
  lemma AfterTheLoss(cfg: Config, s: Bridge, list: seq<Target>) returns (es: seq<Event>)
    requires Parked(s, list, true, 0, []) && |list| > BATCH
    ensures Possible(cfg, s, es)
    ensures Run(cfg, s, es).mode == Failed && Run(cfg, s, es).history == [false, true, true]
  {
    hide *;
    var all, sends, fails := PollTimer(Burst(Dropping(|list|), true)), Sends(|list| - 1, true), Fails(cfg, list[0]);
    ParkedDropsAll(cfg, s, list);
    RunOne(cfg, s, all);
    es := [all];
    BetweenSends(cfg, Run(cfg, s, es), list, 1, [false]);
    RunOnwards(cfg, s, es, sends);
    es := es + [sends];
    OwingFails(cfg, Run(cfg, s, es), list, |list| - 1, 1, [false]);
    RunOnwards(cfg, s, es, fails);
    es := es + [fails];
    assert [false] + [true] == [false, true];
    BetweenSends(cfg, Run(cfg, s, es), list, 2, [false, true]);
    RunOnwards(cfg, s, es, sends);
    es := es + [sends];
    OwingFails(cfg, Run(cfg, s, es), list, |list| - 1, 2, [false, true]);
    RunOnwards(cfg, s, es, fails);
    es := es + [fails];
    assert [false, true] + [true] == [false, true, true];
  }

  /** A list longer than one batch: ten reads go out, one of them fails, and the appliance is lost before the rest.
      The noted failure survives the new probe phase and is charged to the first cycle after it, in which no read
      fails; two failed cycles later the bridge gives up. */
  lemma LossIsMiscounted(cfg: Config, outcomes: seq<Outcome>) returns (es: seq<Event>)
    requires |outcomes| == |cfg.probeList| > 0 && |Listed(cfg, outcomes)| > BATCH
    ensures Possible(cfg, Initial(cfg, true), es)
    ensures var t := Run(cfg, Initial(cfg, true), es);
            t.mode == Failed && t.history == [false, true, true] && !FailedForCause(t)
  {
    var list, start := Listed(cfg, outcomes), Initial(cfg, true);
    var before := UpToTheLoss(cfg, outcomes);
    var u := Run(cfg, start, before);
    LossProbes(cfg, u);
    ProbeEventsRun(cfg, u, outcomes, |outcomes|);
    ProbeParks(cfg, u, outcomes);
    hide *;
    var after := AfterTheLoss(cfg, ProbeRun(cfg, u, outcomes, |outcomes|), list);
    RunOnwards(cfg, start, before, ApplianceLost(true));
    es := before + [ApplianceLost(true)];
    RunAppend(cfg, start, es, ProbeEvents(cfg, outcomes, |outcomes|));
    es := es + ProbeEvents(cfg, outcomes, |outcomes|);
    RunAppend(cfg, start, es, after);
    es := es + after;
    NotForCause(Run(cfg, start, es));
  }

  lemma LossProbes(cfg: Config, s: Bridge)
    requires s.mode == Polling && s.outstanding == multiset{}
    ensures Enabled(cfg, s, ApplianceLost(true)) && Step(cfg, s, ApplianceLost(true)) == EnterProbing(cfg, s, true)
  {
    hide EnterProbing;
  }

  lemma NotForCause(s: Bridge)
    requires s.mode == Failed && s.history == [false, true, true]
    ensures !FailedForCause(s)
  {
    assert !s.history[|s.history| - 3];
  }

  // ---------------------------------------------------------------- a probe that lists more than a batch

  /** The first eleven reads are answered, each from another board. */
  function Spread(n: nat): (outcomes: seq<Outcome>)
    ensures |outcomes| == n
    ensures forall i | 0 <= i < n :: outcomes[i] == if i <= BATCH then Outcome(i, true) else Outcome(0, false)
  {
    if n == 0 then [] else Spread(n - 1) + [if n - 1 <= BATCH then Outcome(n - 1, true) else Outcome(0, false)]
  }

  lemma {:induction false} SpreadFound(cfg: Config, k: nat)
    requires k <= |cfg.probeList|
    ensures var found := Found(cfg, Spread(|cfg.probeList|), k);
            && |found| == Min(k, BATCH + 1)
            && forall i | 0 <= i < |found| :: found[i].board == i
    decreases k
  {
    if k > 0 { SpreadFound(cfg, k - 1); }
  }

  lemma {:induction false} UniqueOfDistinct(s: seq<Target>)
    requires forall i | 0 <= i < |s| :: s[i].board == i
    ensures Unique(s) == s
  {
    if s != [] {
      var front, last := s[..|s| - 1], s[|s| - 1];
      UniqueOfDistinct(front);
      assert forall i | 0 <= i < |front| :: front[i].board == i;
      assert last !in front;
      assert s == front + [last];
    }
  }

  lemma SpreadIsLong(cfg: Config)
    requires |cfg.probeList| > BATCH
    ensures |Listed(cfg, Spread(|cfg.probeList|))| > BATCH
  {
    SpreadFound(cfg, |cfg.probeList|);
    UniqueOfDistinct(Found(cfg, Spread(|cfg.probeList|), |cfg.probeList|));
  }

  /** Exactly when the bridge never gives up without cause, losses of the appliance included: if the probe list fits
      one batch of reads. */
  lemma FailsForCauseExactly(cfg: Config)
    requires ConfigOk(cfg)
    ensures |cfg.probeList| <= BATCH <==>
              forall queued: bool, es: seq<Event> | Possible(cfg, Initial(cfg, queued), es) ::
                FailedForCause(Run(cfg, Initial(cfg, queued), es))
  {
    hide Possible, Run, Initial, FailedForCause, Listed;
    if |cfg.probeList| <= BATCH {
      forall queued: bool, es: seq<Event> | Possible(cfg, Initial(cfg, queued), es)
        ensures FailedForCause(Run(cfg, Initial(cfg, queued), es))
      {
        InitialInv(cfg, queued);
        InitialIsHonest(cfg, queued);
        InitialShort(cfg, queued);
        ShortRunsAreClean(cfg, Initial(cfg, queued), es);
        FailureNeedsThreeFailedCycles(cfg, queued, es);
      }
    } else {
      SpreadIsLong(cfg);
      var es := LossIsMiscounted(cfg, Spread(|cfg.probeList|));
    }
  }
}
