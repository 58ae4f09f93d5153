/** When the polling bridge gives up, and what its probe phase finds. */
module PollOutcomes {
  import opened Common
  import opened Dedup
  import opened PollSpec
  import opened PollTheorems

  // ---------------------------------------------------------------- failure

  /** Length of the run of failed cycles at the end of the history. */
  function Trailing(history: seq<bool>): nat {
    if history == [] || !history[|history| - 1] then 0 else 1 + Trailing(history[..|history| - 1])
  }

  /** The failure flag tells whether a read of the cycle being polled failed; between cycles it is clear. */
  ghost predicate FlagOk(s: Bridge) {
    if s.index == 0 then !s.cycleFailed && !s.failedNow
    else if s.completed >= |s.list| then !s.cycleFailed
    else s.cycleFailed == s.failedNow
  }

  /** The failure bookkeeping agrees with the recorded cycles. */
  ghost predicate Honest(s: Bridge) {
    && s.failures == Trailing(s.history) % 0x100
    && (s.mode == Polling ==> FlagOk(s))
    && (s.mode != Polling ==> !s.cycleFailed)
    && (s.mode == Failed ==> Trailing(s.history) >= 3)
  }

  lemma TrailingAppend(history: seq<bool>, failed: bool)
    ensures Trailing(history + [failed]) == if failed then 1 + Trailing(history) else 0
  {
    assert (history + [failed])[..|history|] == history;
  }

  lemma CountWraps(n: nat)
    ensures (n % 0x100 + 1) % 0x100 == (n + 1) % 0x100
  {
  }

  lemma CountedAppend(history: seq<bool>, failed: bool)
    ensures Counted(Trailing(history) % 0x100, failed) == Trailing(history + [failed]) % 0x100
  {
    hide Trailing;
    TrailingAppend(history, failed);
    CountWraps(Trailing(history));
  }

  lemma FinishIsHonest(s: Bridge)
    requires s.failures == Trailing(s.history) % 0x100 && s.cycleFailed == s.failedNow
    ensures var t := Finish(s);
            t.failures == Trailing(t.history) % 0x100 && !t.cycleFailed && t.history == s.history + [s.failedNow]
  {
    hide Trailing, Counted;
    CountedAppend(s.history, s.failedNow);
  }

  lemma BurstIsHonest(cfg: Config, s: Bridge, b: Burst)
    requires Ledger(cfg, s) && LegalBurst(s, b) && s.completed < |s.list| && s.mode == Polling
    requires s.failures == Trailing(s.history) % 0x100 && s.cycleFailed == s.failedNow
    ensures Honest(SendBurst(cfg, s, b)) && SendBurst(cfg, s, b).mode == Polling
    ensures !s.cycleFailed ==> !SendBurst(cfg, s, b).cycleFailed
  {
    hide Ledger, SendAll, Trailing, Counted;
    BurstInCycle(cfg, s, b.queued);
    CountedAppend(s.history, s.failedNow);
    LedgerCounts(cfg, SendAll(cfg, s, b.queued));
  }

  lemma RestartIsHonest(cfg: Config, t: Bridge, b: Burst)
    requires t.failures == Trailing(t.history) % 0x100 && t.cycleFailed == t.failedNow && t.mode == Polling
    requires |t.list| > 0 && t.outstanding == multiset{} && LegalBurst(NextCycle(t), b)
    ensures Honest(SendBurst(cfg, NextCycle(t), b)) && SendBurst(cfg, NextCycle(t), b).mode == Polling
    ensures !SendBurst(cfg, NextCycle(t), b).cycleFailed
  {
    hide Ledger, SendBurst;
    FinishIsHonest(t);
    StartKeepsLedger(cfg, Finish(t).(restart := false));
    BurstIsHonest(cfg, NextCycle(t), b);
  }

  lemma AnswerIsHonest(cfg: Config, s: Bridge, read: Target, from: Byte, ok: bool, b: Burst)
    requires Inv(cfg, s) && Honest(s) && s.mode == Polling && Enabled(cfg, s, Answer(read, from, ok, b))
    ensures Honest(Step(cfg, s, Answer(read, from, ok, b)))
  {
    hide Inv, Ledger, AddToList, Serve, SendBurst, LegalBurst, NextCycle, Immediate, Trailing, Alive, Cycles, Knows;
    InvPolling(cfg, s);
    ServeKeeps(cfg, s, read, from, ok);
    var t := Serve(s, read, from, ok);
    LedgerCounts(cfg, s);
    LedgerCounts(cfg, t);
    if t.completed >= |t.list| {
      if Immediate(t) { RestartIsHonest(cfg, t, b); } else { FinishIsHonest(t); }
    }
  }

  lemma TimerIsHonest(cfg: Config, s: Bridge, b: Burst)
    requires Inv(cfg, s) && Honest(s) && s.mode == Polling && Enabled(cfg, s, PollTimer(b))
    ensures Honest(Step(cfg, s, PollTimer(b)))
  {
    hide Ledger, Knows;
    LedgerCounts(cfg, s);
    if s.index < |s.list| || s.completed >= |s.list| {
      var t := TimerStart(s);
      if t.completed < |t.list| {
        hide SendBurst;
        if s.sending { LedgerFrame(cfg, s, t); } else { StartKeepsLedger(cfg, s.(armed := false)); }
        BurstIsHonest(cfg, t, b);
      } else {
        assert b.queued == [];
      }
    }
  }

  /** No loss of the appliance comes while a failed read is noted in a cycle that has not finished. */
  ghost predicate CleanLosses(cfg: Config, s: Bridge, es: seq<Event>)
    requires Possible(cfg, s, es)
    decreases |es|
  {
    es == [] || ((es[0].ApplianceLost? ==> !s.cycleFailed) && CleanLosses(cfg, Step(cfg, s, es[0]), es[1..]))
  }

  lemma {:induction false} RunIsHonest(cfg: Config, s: Bridge, es: seq<Event>)
    requires Inv(cfg, s) && Honest(s) && Possible(cfg, s, es) && CleanLosses(cfg, s, es)
    ensures Honest(Run(cfg, s, es))
    decreases |es|
  {
    if es != [] {
      hide Inv, Honest, Step, Enabled;
      StepKeepsInv(cfg, s, es[0]);
      StepIsHonest(cfg, s, es[0]);
      RunIsHonest(cfg, Step(cfg, s, es[0]), es[1..]);
    }
  }

  lemma ProbeIsHonest(cfg: Config, s: Bridge, read: Target, from: Byte, ok: bool, queued: bool)
    requires Honest(s) && s.mode == Probing
    ensures Honest(ProbingAnswer(cfg, s, read, from, ok, queued))
  {
    hide Trailing, Remember, Request;
  }

  lemma ProbingIsHonest(cfg: Config, s: Bridge, queued: bool)
    requires s.failures == Trailing(s.history) % 0x100 && !s.cycleFailed
    ensures Honest(EnterProbing(cfg, s, queued))
  {
    hide Trailing, Request;
  }

  lemma LossIsHonest(cfg: Config, s: Bridge, queued: bool)
    requires Honest(s) && !s.cycleFailed && s.outstanding == multiset{}
    ensures Honest(Step(cfg, s, ApplianceLost(queued)))
  {
    var t := if s.mode == Failed then s.(failures := 0, history := []) else s;
    ProbingIsHonest(cfg, t, queued);
    hide EnterProbing;
  }

  lemma StepIsHonest(cfg: Config, s: Bridge, e: Event)
    requires Inv(cfg, s) && Honest(s) && Enabled(cfg, s, e) && (e.ApplianceLost? ==> !s.cycleFailed)
    ensures Honest(Step(cfg, s, e))
  {
    hide PollingAnswer, PollingTimer, ProbingAnswer, Inv, Trailing;
    match e
    case Answer(read, from, ok, b) =>
      if s.mode == Polling {
        AnswerIsHonest(cfg, s, read, from, ok, b);
      } else if s.mode == Probing {
        ProbeIsHonest(cfg, s, read, from, ok, b.queued[0]);
      }
    case PollTimer(b) => if s.mode == Polling { TimerIsHonest(cfg, s, b); }
    case ApplianceLost(queued) => LossIsHonest(cfg, s, queued);
  }

  lemma InitialIsHonest(cfg: Config, queued: bool)
    ensures Honest(Initial(cfg, queued))
  {
    hide Request;
  }

  /** A failed bridge has just finished three cycles in a row that each contained a failed read. */
  ghost predicate FailedForCause(s: Bridge) {
    s.mode == Failed ==>
      |s.history| >= 3 && s.history[|s.history| - 1] && s.history[|s.history| - 2] && s.history[|s.history| - 3]
  }

  /** Failure is never premature: as long as no loss of the appliance comes while a failed read is noted in an
      unfinished cycle, the bridge has failed only if the last three cycles it finished each contained a failed
      read. */
  lemma FailureNeedsThreeFailedCycles(cfg: Config, queued: bool, es: seq<Event>)
    requires ConfigOk(cfg) && Possible(cfg, Initial(cfg, queued), es) && CleanLosses(cfg, Initial(cfg, queued), es)
    ensures FailedForCause(Run(cfg, Initial(cfg, queued), es))
  {
    hide Initial, Inv, FlagOk, Trailing;
    InitialInv(cfg, queued);
    InitialIsHonest(cfg, queued);
    RunIsHonest(cfg, Initial(cfg, queued), es);
    var s := Run(cfg, Initial(cfg, queued), es);
    if s.mode == Failed { LastThree(s.history); }
  }

  lemma LastThree(h: seq<bool>)
    requires Trailing(h) >= 3
    ensures |h| >= 3 && h[|h| - 1] && h[|h| - 2] && h[|h| - 3]
  {
    var g := h[..|h| - 1];
    var f := g[..|g| - 1];
    assert Trailing(g) >= 2 && g[|g| - 1] == h[|h| - 2];
    assert Trailing(f) >= 1 && f[|f| - 1] == h[|h| - 3];
  }

  function Drops(queued: seq<bool>): (d: nat)
    ensures d <= |queued|
    decreases |queued|
  {
    if queued == [] then 0 else (if queued[0] then 0 else 1) + Drops(queued[1..])
  }

  lemma {:induction false} BurstCompletes(cfg: Config, s: Bridge, queued: seq<bool>)
    requires s.index + |queued| <= |s.list|
    ensures SendAll(cfg, s, queued).completed == s.completed + Drops(queued)
    decreases |queued|
  {
    if queued != [] {
      hide SendOne, Request;
      SendOneIs(cfg, s, queued[0]);
      BurstCompletes(cfg, SendOne(cfg, s, queued[0]), queued[1..]);
    }
  }

  /** Exactly when an answer makes the bridge give up. Three failed cycles in a row are not enough: the
      cycle's last answer must itself be a failure, and a restart whose every read is dropped at once
      finishes another cycle and clears the count. */
  lemma GivesUpExactly(cfg: Config, s: Bridge, read: Target, from: Byte, ok: bool, b: Burst)
    requires Inv(cfg, s) && s.mode == Polling && Enabled(cfg, s, Answer(read, from, ok, b))
    ensures Step(cfg, s, Answer(read, from, ok, b)).mode == Failed <==>
              && !ok && s.completed + 1 == |s.list| && (s.failures + 1) % 0x100 >= 3
              && (Immediate(s) ==> Drops(b.queued) < |s.list|)
  {
    hide Ledger, AddToList, SendBurst, LegalBurst;
    ServeKeeps(cfg, s, read, from, ok);
    var t := Serve(s, read, from, ok);
    LedgerCounts(cfg, t);
    if t.completed >= |t.list| && Immediate(t) {
      StartKeepsLedger(cfg, Finish(t).(restart := false));
      RestartFailures(cfg, t, b);
    }
  }

  lemma RestartFailures(cfg: Config, t: Bridge, b: Burst)
    requires |t.list| > 0 && LegalBurst(NextCycle(t), b) && Ledger(cfg, NextCycle(t))
    ensures var u := SendBurst(cfg, NextCycle(t), b);
            && u.mode == t.mode
            && u.failures == if Drops(b.queued) < |t.list| then Finish(t).failures else 0
  {
    BurstInCycle(cfg, NextCycle(t), b.queued);
    BurstCompletes(cfg, NextCycle(t), b.queued);
    hide Ledger, SendAll;
  }

  lemma FailedStep(cfg: Config, s: Bridge, e: Event)
    requires s.mode == Failed && Enabled(cfg, s, e)
    ensures !e.ApplianceLost? ==>
              && Step(cfg, s, e) == s.(outstanding := Step(cfg, s, e).outstanding)
              && |Step(cfg, s, e).outstanding| == |s.outstanding| - (if e.Answer? then 1 else 0)
    ensures e.ApplianceLost? && |cfg.probeList| > 0 ==>
              var t := Step(cfg, s, e); t.mode == Probing && t.list == [] && t.failures == 0 && t.history == []
  {
    hide PollingAnswer, PollingTimer, ProbingAnswer, Serve, TimerStart, LegalBurst, NextCycle, Request;
  }

  function AnswerCount(es: seq<Event>): nat {
    if es == [] then 0 else (if es[0].Answer? then 1 else 0) + AnswerCount(es[1..])
  }

  /** Having given up the bridge asks for nothing more and changes nothing: it only takes the answers still owed. Once
      the client owes none, and no sooner, the loss of the appliance can be reported, and starts a new probe phase with
      an empty list and no failure counted. */
  lemma {:induction false} OnlyLossRecovers(cfg: Config, s: Bridge, es: seq<Event>, queued: bool)
    requires s.mode == Failed && Possible(cfg, s, es) && (forall e | e in es :: !e.ApplianceLost?)
    ensures var t := Run(cfg, s, es);
            && t == s.(outstanding := t.outstanding) && |t.outstanding| == |s.outstanding| - AnswerCount(es)
            && (Enabled(cfg, t, ApplianceLost(queued)) <==> AnswerCount(es) == |s.outstanding|)
            && (Enabled(cfg, t, ApplianceLost(queued)) && |cfg.probeList| > 0 ==>
                  var u := Step(cfg, t, ApplianceLost(queued));
                  u.mode == Probing && u.list == [] && u.failures == 0 && u.history == [])
    decreases |es|
  {
    if es != [] {
      FailedStep(cfg, s, es[0]);
      assert es[0] in es && forall e | e in es[1..] :: e in es;
      hide Step, Enabled;
      OnlyLossRecovers(cfg, Step(cfg, s, es[0]), es[1..], queued);
    } else if Enabled(cfg, s, ApplianceLost(queued)) {
      FailedStep(cfg, s, ApplianceLost(queued));
    }
  }

  // ---------------------------------------------------------------- probing

  /** An outcome of one probe read: who answered, and whether the ERD is supported. */
  datatype Outcome = Outcome(from: Byte, ok: bool)

  /** The entries the first `k` outcomes put on the polling list. */
  function Found(cfg: Config, outcomes: seq<Outcome>, k: nat): seq<Target>
    requires k <= |outcomes| == |cfg.probeList|
  {
    if k == 0 then []
    else if outcomes[k - 1].ok then Found(cfg, outcomes, k - 1) + [Target(cfg.probeList[k - 1].erd, outcomes[k - 1].from)]
    else Found(cfg, outcomes, k - 1)
  }

  function ProbeEvent(cfg: Config, outcomes: seq<Outcome>, k: nat): Event
    requires k < |outcomes| == |cfg.probeList|
  {
    Answer(Request(cfg, cfg.probeList[k]), outcomes[k].from, outcomes[k].ok, Burst([true], true))
  }

  /** A probe phase entered from `s`, in which every probe read is queued and the first `k` are answered. */
  function ProbeRun(cfg: Config, s: Bridge, outcomes: seq<Outcome>, k: nat): Bridge
    requires k <= |outcomes| == |cfg.probeList|
    decreases k
  {
    if k == 0 then EnterProbing(cfg, s, true)
    else
      var r := ProbeRun(cfg, s, outcomes, k - 1);
      if Enabled(cfg, r, ProbeEvent(cfg, outcomes, k - 1)) then Step(cfg, r, ProbeEvent(cfg, outcomes, k - 1)) else r
  }

  lemma AddAllOne<T>(xs: seq<T>, x: T, capacity: nat)
    ensures AddAllUnique([], xs + [x], capacity) == AddUnique(AddAllUnique([], xs, capacity), x, capacity)
  {
    AddAllUniqueAppend([], xs, [x], capacity);
    assert [x][1..] == [];
  }

  lemma SwapOne<T>(x: T, y: T)
    ensures multiset{x} - multiset{x} == multiset{} && multiset{} + multiset{y} == multiset{y}
  {
  }

  lemma ProbeAdvances(cfg: Config, s: Bridge)
    requires s.mode == Probing && s.outstanding == multiset{} && s.index <= |cfg.probeList|
    ensures var t := ProbeNext(cfg, s, true);
            && t.list == s.list
            && (s.index < |cfg.probeList| ==>
                  t.mode == Probing && t.index == s.index + 1
                  && t.outstanding == multiset{Request(cfg, cfg.probeList[s.index])})
            && (s.index == |cfg.probeList| ==> t.mode == Polling && t.outstanding == multiset{})
  {
    hide Request;
    if s.index < |cfg.probeList| {
      var next := Request(cfg, cfg.probeList[s.index]);
      SwapOne(next, next);
    }
  }

  lemma ProbeAnswered(cfg: Config, k: nat, r: Bridge, from: Byte, ok: bool)
    requires k < |cfg.probeList|
    requires r.mode == Probing && r.index == k + 1 && r.outstanding == multiset{Request(cfg, cfg.probeList[k])}
    ensures var s := ProbingAnswer(cfg, r, Request(cfg, cfg.probeList[k]), from, ok, true);
            && s.list == (if ok then AddUnique(r.list, Target(cfg.probeList[k].erd, from), LIST_CAPACITY) else r.list)
            && (k + 1 < |cfg.probeList| ==>
                  s.mode == Probing && s.index == k + 2 && s.outstanding == multiset{Request(cfg, cfg.probeList[k + 1])})
            && (k + 1 == |cfg.probeList| ==> s.mode == Polling && s.outstanding == multiset{})
  {
    hide Remember, Request, ProbeNext;
    var read := Request(cfg, cfg.probeList[k]);
    SwapOne(read, read);
    assert r.outstanding - multiset{read} == multiset{};
    var t := r.(outstanding := multiset{});
    ProbeAdvances(cfg, if ok then AddToList(t, Target(read.erd, from)) else t.(known := Remember(t.known, read.erd)));
  }

  lemma ProbeStep(cfg: Config, outcomes: seq<Outcome>, k: nat, r: Bridge)
    requires k < |outcomes| == |cfg.probeList|
    requires r.mode == Probing && r.index == k + 1 && r.outstanding == multiset{Request(cfg, cfg.probeList[k])}
    ensures Enabled(cfg, r, ProbeEvent(cfg, outcomes, k))
    ensures Step(cfg, r, ProbeEvent(cfg, outcomes, k))
         == ProbingAnswer(cfg, r, Request(cfg, cfg.probeList[k]), outcomes[k].from, outcomes[k].ok, true)
  {
    hide PollingAnswer, PollingTimer, Serve, NextCycle, LegalBurst, TimerStart, ProbingAnswer, Request;
  }

  lemma ProbeRunUnfold(cfg: Config, s: Bridge, outcomes: seq<Outcome>, k: nat)
    requires 0 < k <= |outcomes| == |cfg.probeList|
    ensures var r := ProbeRun(cfg, s, outcomes, k - 1);
            Enabled(cfg, r, ProbeEvent(cfg, outcomes, k - 1)) ==>
              ProbeRun(cfg, s, outcomes, k) == Step(cfg, r, ProbeEvent(cfg, outcomes, k - 1))
    ensures var got := Target(cfg.probeList[k - 1].erd, outcomes[k - 1].from);
            && Found(cfg, outcomes, k)
               == (if outcomes[k - 1].ok then Found(cfg, outcomes, k - 1) + [got] else Found(cfg, outcomes, k - 1))
  {
    hide Step, Enabled;
  }

  /** `k` answers are in, and the next read, if any, is out. */
  ghost predicate ProbedTo(cfg: Config, outcomes: seq<Outcome>, k: nat, r: Bridge)
    requires k <= |outcomes| == |cfg.probeList|
  {
    && r.list == AddAllUnique([], Found(cfg, outcomes, k), LIST_CAPACITY)
    && (k < |outcomes| ==>
          r.mode == Probing && r.index == k + 1 && r.outstanding == multiset{Request(cfg, cfg.probeList[k])})
    && (k == |outcomes| ==> r.mode == Polling && r.outstanding == multiset{})
  }

  lemma ProbeBegins(cfg: Config, s: Bridge, outcomes: seq<Outcome>)
    requires |outcomes| == |cfg.probeList| > 0 && s.outstanding == multiset{}
    ensures ProbedTo(cfg, outcomes, 0, ProbeRun(cfg, s, outcomes, 0))
  {
    hide Request, Step, Enabled, AddAllUnique;
    var first := Request(cfg, cfg.probeList[0]);
    SwapOne(first, first);
    AddAllUniqueIsCutUnique<Target>([], LIST_CAPACITY);
  }

  lemma ProbeGoesOn(cfg: Config, s: Bridge, outcomes: seq<Outcome>, k: nat)
    requires k < |outcomes| == |cfg.probeList| && ProbedTo(cfg, outcomes, k, ProbeRun(cfg, s, outcomes, k))
    ensures ProbedTo(cfg, outcomes, k + 1, ProbeRun(cfg, s, outcomes, k + 1))
  {
    hide Request, EnterProbing, ProbeEvent, ProbingAnswer, Enabled, Step, AddAllUnique, ProbeRun, Found;
    var r := ProbeRun(cfg, s, outcomes, k);
    ProbeRunUnfold(cfg, s, outcomes, k + 1);
    ProbeStep(cfg, outcomes, k, r);
    ProbeAnswered(cfg, k, r, outcomes[k].from, outcomes[k].ok);
    AddAllOne(Found(cfg, outcomes, k), Target(cfg.probeList[k].erd, outcomes[k].from), LIST_CAPACITY);
  }

  lemma {:induction false} ProbeRunIs(cfg: Config, s: Bridge, outcomes: seq<Outcome>, k: nat)
    requires |outcomes| == |cfg.probeList| > 0 && k <= |outcomes| && s.outstanding == multiset{}
    ensures ProbedTo(cfg, outcomes, k, ProbeRun(cfg, s, outcomes, k))
    decreases k
  {
    hide *;
    if k == 0 {
      ProbeBegins(cfg, s, outcomes);
    } else {
      ProbeRunIs(cfg, s, outcomes, k - 1);
      ProbeGoesOn(cfg, s, outcomes, k - 1);
    }
  }

  /** Probe exactness, for the first probe and for every probe after an appliance was lost: if every probe read is
      queued and answered, each answer is due when it comes; the bridge probes until the last one, which starts
      polling; and the list is then the ordered dedup of the answers that succeeded, cut at capacity. Nothing of
      an earlier list is left. */
  lemma ProbeIsExact(cfg: Config, s: Bridge, outcomes: seq<Outcome>, k: nat)
    requires |outcomes| == |cfg.probeList| > 0 && k <= |outcomes| && s.outstanding == multiset{}
    ensures var r := ProbeRun(cfg, s, outcomes, k);
            && (k < |outcomes| ==> Enabled(cfg, r, ProbeEvent(cfg, outcomes, k)))
            && r.mode == (if k < |outcomes| then Probing else Polling)
            && r.list == Cut(Unique(Found(cfg, outcomes, k)), LIST_CAPACITY)
  {
    ProbeRunIs(cfg, s, outcomes, k);
    hide Enabled, ProbeEvent, Request, ProbeRun, Found, Unique;
    if k < |outcomes| { ProbeStep(cfg, outcomes, k, ProbeRun(cfg, s, outcomes, k)); }
    AddAllUniqueIsCutUnique(Found(cfg, outcomes, k), LIST_CAPACITY);
  }

  /** Where probe phases begin: at initialisation, and whenever the appliance is lost. */
  lemma ProbesBegin(cfg: Config, s: Bridge)
    ensures exists t: Bridge :: t.outstanding == multiset{} && Initial(cfg, true) == EnterProbing(cfg, t, true)
    ensures Enabled(cfg, s, ApplianceLost(true)) ==>
              exists t: Bridge :: t.outstanding == multiset{} && Step(cfg, s, ApplianceLost(true)) == EnterProbing(cfg, t, true)
  {
    hide EnterProbing;
    var t := Bridge(Probing, [], {}, 0, 0, false, false, false, false, 0, multiset{}, multiset{}, false, 0, 0, []);
    assert Initial(cfg, true) == EnterProbing(cfg, t, true);
    if Enabled(cfg, s, ApplianceLost(true)) {
      var u := if s.mode == Failed then s.(failures := 0, history := []) else s;
      assert Step(cfg, s, ApplianceLost(true)) == EnterProbing(cfg, u, true);
    }
  }
}
