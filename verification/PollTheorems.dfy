/** What holds of the polling bridge in every run. */
module PollTheorems {
  import opened Common
  import opened Dedup
  import opened PollSpec

  /** The caller's probe array is no longer than the polling list. */
  ghost predicate ConfigOk(cfg: Config) {
    |cfg.probeList| <= LIST_CAPACITY
  }

  ghost function ProbeErds(cfg: Config): set<Erd> {
    set i | 0 <= i < |cfg.probeList| :: cfg.probeList[i].erd
  }

  // ---------------------------------------------------------------- the invariant

  /** The cycle ledger: the reads attempted so far, in list order, are exactly the outstanding and the served ones. */
  ghost predicate Ledger(cfg: Config, s: Bridge) {
    && s.index <= |s.list|
    && s.served + s.outstanding == Requests(cfg, s.list[..s.index])
    && |s.served| == s.completed
  }

  /** Polling goes on by itself: the timer will fire, or an owed answer will restart the cycle. */
  ghost predicate Alive(s: Bridge) {
    && (s.armed <==> !s.restart)
    && (s.restart ==> s.index == |s.list| && s.completed < |s.list|)
  }

  /** A cycle not being sent has been sent completely or not at all, and finishes once. */
  ghost predicate Cycles(s: Bridge) {
    && (!s.sending ==> s.index == 0 || s.index == |s.list|)
    && (|s.list| > 0 && s.index == 0 ==> s.started == 0 && s.finished == 0)
    && (|s.list| > 0 && s.index > 0 ==> s.started == s.finished + (if s.completed < |s.list| then 1 else 0))
  }

  /** Every listed ERD is known, so a poll answer never extends the list. */
  ghost predicate Knows(cfg: Config, s: Bridge) {
    && s.known <= ProbeErds(cfg)
    && (forall i | 0 <= i < |s.list| :: s.list[i].erd in s.known)
  }

  ghost predicate Inv(cfg: Config, s: Bridge) {
    && ConfigOk(cfg) && Knows(cfg, s)
    && (s.mode == Polling ==> Ledger(cfg, s) && Alive(s) && Cycles(s))
    && (s.mode == Probing ==>
          && 0 < s.index <= |cfg.probeList|
          && s.outstanding <= multiset{Request(cfg, cfg.probeList[s.index - 1])})
  }

  lemma {:induction false} SubsetSize<T>(a: set<T>, b: set<T>)
    requires a <= b
    ensures |a| <= |b|
  {
    if a != {} {
      var x :| x in a;
      SubsetSize(a - {x}, b - {x});
    }
  }

  lemma {:induction false} ErdCount(list: seq<Target>)
    ensures |(set i | 0 <= i < |list| :: list[i].erd)| <= |list|
  {
    if list != [] {
      var front := list[..|list| - 1];
      ErdCount(front);
      var before := set i | 0 <= i < |front| :: front[i].erd;
      assert (set i | 0 <= i < |list| :: list[i].erd) == before + {list[|list| - 1].erd};
    }
  }

  /** The ERD set never fills up: it holds only ERDs of the probe list. */
  lemma RememberNeverFull(cfg: Config, known: set<Erd>, erd: Erd)
    requires ConfigOk(cfg) && known <= ProbeErds(cfg) && erd in ProbeErds(cfg)
    ensures Remember(known, erd) == known + {erd} <= ProbeErds(cfg)
  {
    if erd !in known {
      SubsetSize(known + {erd}, ProbeErds(cfg));
      ErdCount(cfg.probeList);
    } else {
      assert known + {erd} == known;
    }
  }

  lemma AddKeepsKnows(cfg: Config, s: Bridge, t: Target)
    requires ConfigOk(cfg) && Knows(cfg, s) && t.erd in ProbeErds(cfg)
    ensures Knows(cfg, AddToList(s, t))
  {
    RememberNeverFull(cfg, s.known, t.erd);
  }

  // ---------------------------------------------------------------- bursts

  lemma RequestsNext(cfg: Config, list: seq<Target>, i: nat)
    requires i < |list|
    ensures Requests(cfg, list[..i + 1]) == Requests(cfg, list[..i]) + multiset{Request(cfg, list[i])}
  {
    assert list[..i + 1][..i] == list[..i];
  }

  /** Fields a burst never touches. */
  ghost predicate SameRest(s: Bridge, t: Bridge) {
    && t.mode == s.mode && t.list == s.list && t.known == s.known && t.restart == s.restart
    && t.sending == s.sending && t.failedNow == s.failedNow && t.started == s.started
  }

  /** From `s` to `t` part of a cycle passed; it finished, once, exactly if nothing is missing any more. */
  ghost predicate Advances(s: Bridge, t: Bridge) {
    && SameRest(s, t)
    && s.completed <= t.completed
    && (if t.completed < |s.list| then
          && t.finished == s.finished && t.history == s.history && t.armed == s.armed
          && t.cycleFailed == s.cycleFailed && t.failures == s.failures
        else
          && t.finished == s.finished + 1 && t.history == s.history + [s.failedNow] && t.armed
          && !t.cycleFailed && t.failures == Counted(s.failures, s.cycleFailed))
  }

  lemma OneMore<T>(a: multiset<T>, b: multiset<T>, x: T)
    ensures a + multiset{x} + b == a + b + multiset{x}
    ensures a + (b + multiset{x}) == a + b + multiset{x}
    ensures |a + multiset{x}| == |a| + 1
  {
  }

  lemma SendOneLedger(cfg: Config, s: Bridge, queued: bool)
    requires Ledger(cfg, s) && s.index < |s.list|
    ensures Ledger(cfg, SendOne(cfg, s, queued)) && SendOne(cfg, s, queued).index == s.index + 1
  {
    hide Requests, Request, Ledger;
    SendOneIs(cfg, s, queued);
    RequestsNext(cfg, s.list, s.index);
    OneMore(s.served, s.outstanding, Request(cfg, s.list[s.index]));
    LedgerOnwards(cfg, s, SendOne(cfg, s, queued), Request(cfg, s.list[s.index]));
  }

  lemma SendOneIs(cfg: Config, s: Bridge, queued: bool)
    requires s.index < |s.list|
    ensures var t, r := SendOne(cfg, s, queued), multiset{Request(cfg, s.list[s.index])};
            && t.index == s.index + 1 && t.list == s.list && t.mode == s.mode && t.started == s.started
            && (if queued then t.outstanding == s.outstanding + r && t.served == s.served && t.completed == s.completed
                else t.outstanding == s.outstanding && t.served == s.served + r && t.completed == s.completed + 1)
  {
    hide Request;
  }

  lemma LedgerOnwards(cfg: Config, s: Bridge, t: Bridge, r: Target)
    requires Ledger(cfg, s) && s.index < |s.list| && t.index == s.index + 1 && t.list == s.list
    requires t.served + t.outstanding == s.served + s.outstanding + multiset{r}
    requires Requests(cfg, s.list[..s.index + 1]) == Requests(cfg, s.list[..s.index]) + multiset{r}
    requires |t.served| - t.completed == |s.served| - s.completed
    ensures Ledger(cfg, t)
  {
    hide Requests;
  }

  lemma QueuedAdvances(s: Bridge, t: Bridge)
    requires s.completed < |s.list| && t == s.(index := s.index + 1, outstanding := t.outstanding)
    ensures Advances(s, t)
  {
  }

  lemma DroppedAdvances(s: Bridge, u: Bridge)
    requires s.completed < |s.list| && u == s.(index := s.index + 1, served := u.served, completed := s.completed + 1)
    ensures Advances(s, if u.completed >= |u.list| then Finish(u).(armed := true) else u)
  {
  }

  lemma SendOneAdvances(cfg: Config, s: Bridge, queued: bool)
    requires s.index < |s.list| && s.completed < |s.list|
    ensures Advances(s, SendOne(cfg, s, queued)) && SendOne(cfg, s, queued).list == s.list
  {
    hide Request, Finish, Advances;
    SendOneIs(cfg, s, queued);
    var r := multiset{Request(cfg, s.list[s.index])};
    QueuedAdvances(s, s.(index := s.index + 1, outstanding := s.outstanding + r));
    DroppedAdvances(s, s.(index := s.index + 1, served := s.served + r, completed := s.completed + 1));
  }

  lemma LedgerCounts(cfg: Config, s: Bridge)
    requires Ledger(cfg, s)
    ensures s.completed + |s.outstanding| == s.index <= |s.list|
    ensures s.completed == s.index ==> s.outstanding == multiset{}
  {
    assert |s.served + s.outstanding| == |s.served| + |s.outstanding|;
  }

  /** What a burst does within a cycle: the ledger is kept, and the cycle finishes, once, exactly when the
      last missing read is dropped. */
  lemma {:induction false} BurstInCycle(cfg: Config, s: Bridge, queued: seq<bool>)
    requires Ledger(cfg, s) && s.index + |queued| <= |s.list| && s.completed < |s.list|
    ensures Ledger(cfg, SendAll(cfg, s, queued)) && Advances(s, SendAll(cfg, s, queued))
    decreases |queued|
  {
    hide Ledger, SendOne, Advances;
    if queued == [] {
      NothingAdvances(s);
    } else {
      SendOneLedger(cfg, s, queued[0]);
      SendOneAdvances(cfg, s, queued[0]);
      var u := SendOne(cfg, s, queued[0]);
      if u.completed < |s.list| {
        BurstInCycle(cfg, u, queued[1..]);
        AdvancesThen(s, u, SendAll(cfg, u, queued[1..]));
      } else {
        LedgerCounts(cfg, u);
        assert queued[1..] == [];
      }
    }
  }

  lemma NothingAdvances(s: Bridge)
    requires s.completed < |s.list|
    ensures Advances(s, s)
  {
  }

  lemma AdvancesThen(s: Bridge, u: Bridge, t: Bridge)
    requires Advances(s, u) && Advances(u, t) && u.completed < |s.list|
    ensures Advances(s, t)
  {
  }

  /** A burst that begins or resumes an unfinished cycle leaves the bridge polling soundly. */
  lemma BurstKeeps(cfg: Config, s: Bridge, b: Burst)
    requires Ledger(cfg, s) && LegalBurst(s, b) && !s.restart
    requires s.completed < |s.list| && s.started == s.finished + 1
    ensures var t := SendBurst(cfg, s, b);
            && Ledger(cfg, t) && Alive(t) && Cycles(t) && t.mode == s.mode && t.list == s.list && t.known == s.known
            && Advances(s, t.(sending := s.sending, armed := if t.completed < |s.list| then s.armed else true))
  {
    BurstInCycle(cfg, s, b.queued);
  }

  // ---------------------------------------------------------------- every event keeps the invariant

  lemma {:induction false} RequestFromList(cfg: Config, list: seq<Target>, read: Target)
    requires read in Requests(cfg, list)
    ensures exists i | 0 <= i < |list| :: list[i].erd == read.erd
  {
    var n := |list| - 1;
    if read == Request(cfg, list[n]) {
      assert list[n].erd == read.erd;
    } else {
      RequestFromList(cfg, list[..n], read);
      var i :| 0 <= i < n && list[..n][i].erd == read.erd;
      assert list[i].erd == read.erd;
    }
  }

  /** Whatever is owed was asked for, so its ERD is known. */
  lemma OwedIsKnown(cfg: Config, s: Bridge, read: Target)
    requires Ledger(cfg, s) && Knows(cfg, s) && read in s.outstanding
    ensures read.erd in s.known
  {
    hide Requests;
    assert read in s.served + s.outstanding;
    RequestFromList(cfg, s.list[..s.index], read);
    var i :| 0 <= i < s.index && s.list[..s.index][i].erd == read.erd;
    assert s.list[i].erd in s.known;
  }

  lemma ServeKeepsLedger(cfg: Config, s: Bridge, t: Bridge, read: Target)
    requires Ledger(cfg, s) && read in s.outstanding
    requires t.list == s.list && t.index == s.index && t.completed == s.completed + 1
    requires t.outstanding == s.outstanding - multiset{read} && t.served == s.served + multiset{read}
    ensures Ledger(cfg, t) && t.completed <= t.index
  {
    hide Requests;
    var left := s.outstanding - multiset{read};
    assert s.outstanding == left + multiset{read};
    OneMore(s.served, left, read);
    LedgerCounts(cfg, t);
  }

  lemma ServeKeeps(cfg: Config, s: Bridge, read: Target, from: Byte, ok: bool)
    requires Ledger(cfg, s) && Knows(cfg, s) && read in s.outstanding
    ensures var t := Serve(s, read, from, ok);
            && read.erd in s.known && Ledger(cfg, t) && t.completed <= t.index
            && t == s.(outstanding := t.outstanding, served := t.served, completed := s.completed + 1,
                       cycleFailed := t.cycleFailed, failedNow := t.failedNow)
            && (if ok then t.cycleFailed == s.cycleFailed && t.failedNow == s.failedNow else t.cycleFailed && t.failedNow)
  {
    hide Ledger, Knows, AddToList;
    OwedIsKnown(cfg, s, read);
    ServeKeepsLedger(cfg, s, Serve(s, read, from, ok), read);
  }

  lemma StartKeepsLedger(cfg: Config, s: Bridge)
    requires s.outstanding == multiset{}
    ensures Ledger(cfg, StartCycle(s))
  {
  }

  /** An answer that does not finish the cycle. */
  lemma MidAnswerKeeps(cfg: Config, s: Bridge, t: Bridge)
    requires Inv(cfg, s) && s.mode == Polling && Ledger(cfg, t) && t.completed == s.completed + 1
    requires t == s.(outstanding := t.outstanding, served := t.served, completed := t.completed,
                     cycleFailed := t.cycleFailed, failedNow := t.failedNow)
    ensures t.completed < |t.list| ==> Inv(cfg, t)
    ensures t.completed >= |t.list| ==>
              && t.outstanding == multiset{} && t.index == |t.list| == t.completed && |t.list| > 0
              && t.started == t.finished + 1
  {
    LedgerCounts(cfg, t);
    LedgerCounts(cfg, s);
    hide Ledger;
  }

  lemma RestartKeeps(cfg: Config, t: Bridge, b: Burst)
    requires ConfigOk(cfg) && Knows(cfg, t) && t.outstanding == multiset{} && |t.list| > 0
    requires t.started == t.finished + 1 && LegalBurst(NextCycle(t), b) && t.mode == Polling
    ensures Inv(cfg, SendBurst(cfg, NextCycle(t), b))
  {
    StartKeepsLedger(cfg, Finish(t).(restart := false));
    BurstKeeps(cfg, NextCycle(t), b);
    hide Ledger, SendBurst;
  }

  lemma FinishKeeps(cfg: Config, t: Bridge)
    requires ConfigOk(cfg) && Knows(cfg, t) && Ledger(cfg, t) && t.mode == Polling && !Immediate(t)
    requires t.index == |t.list| == t.completed && |t.list| > 0 && t.started == t.finished + 1
    ensures Inv(cfg, Finish(t))
  {
    LedgerFrame(cfg, t, Finish(t));
    hide Ledger;
  }

  lemma GivingUpKeeps(cfg: Config, s: Bridge)
    requires Inv(cfg, s)
    ensures Inv(cfg, s.(mode := Failed))
  {
    hide Ledger, Alive, Cycles;
  }

  lemma InvPolling(cfg: Config, s: Bridge)
    requires Inv(cfg, s) && s.mode == Polling
    ensures ConfigOk(cfg) && Knows(cfg, s) && Ledger(cfg, s) && Alive(s) && Cycles(s)
  {
    hide Knows, Ledger, Alive, Cycles, ConfigOk;
  }

  lemma AnswerKeeps(cfg: Config, s: Bridge, read: Target, from: Byte, ok: bool, b: Burst)
    requires Inv(cfg, s) && s.mode == Polling && Enabled(cfg, s, Answer(read, from, ok, b))
    ensures Inv(cfg, Step(cfg, s, Answer(read, from, ok, b)))
  {
    hide Inv, Ledger, Alive, Cycles, AddToList, Serve, SendBurst, LegalBurst, NextCycle, Finish, Immediate;
    InvPolling(cfg, s);
    ServeKeeps(cfg, s, read, from, ok);
    var t := Serve(s, read, from, ok);
    MidAnswerKeeps(cfg, s, t);
    if t.completed >= |t.list| {
      var u := if Immediate(t) then SendBurst(cfg, NextCycle(t), b) else Finish(t);
      if Immediate(t) { RestartKeeps(cfg, t, b); } else { FinishKeeps(cfg, t); }
      GivingUpKeeps(cfg, u);
    }
  }

  lemma LedgerFrame(cfg: Config, s: Bridge, t: Bridge)
    requires Ledger(cfg, s) && t.list == s.list && t.index == s.index && t.completed == s.completed
    requires t.served == s.served && t.outstanding == s.outstanding
    ensures Ledger(cfg, t)
  {
  }

  /** The timer finds a cycle to resume, or begins one. */
  lemma TimerStartKeeps(cfg: Config, s: Bridge)
    requires Inv(cfg, s) && s.mode == Polling && (s.index < |s.list| || s.completed >= |s.list|)
    ensures var t := TimerStart(s);
            && Ledger(cfg, t) && !t.restart && t.mode == Polling && t.list == s.list && t.known == s.known
            && (t.completed < |t.list| ==> t.started == t.finished + 1)
            && (t.completed >= |t.list| ==> |t.list| == 0 || (t.index == |t.list| && s.sending))
  {
    hide Inv, Ledger, Knows;
    InvPolling(cfg, s);
    LedgerCounts(cfg, s);
    if s.sending {
      LedgerFrame(cfg, s, TimerStart(s));
    } else {
      StartKeepsLedger(cfg, s.(armed := false));
    }
  }

  /** A burst that finds nothing left to send only arms the timer. */
  lemma EmptyBurst(cfg: Config, s: Bridge, b: Burst)
    requires Inv(cfg, s) && s.mode == Polling && (s.index < |s.list| || s.completed >= |s.list|)
    requires LegalBurst(TimerStart(s), b) && TimerStart(s).completed >= |s.list|
    ensures b.queued == [] && b.finished
    ensures SendBurst(cfg, TimerStart(s), b) == TimerStart(s).(sending := false, armed := true)
    ensures Ledger(cfg, SendBurst(cfg, TimerStart(s), b))
  {
    TimerStartKeeps(cfg, s);
    assert b.queued == [];
    LedgerFrame(cfg, TimerStart(s), TimerStart(s).(sending := false, armed := true));
    hide Ledger;
  }

  lemma InvFromPolling(cfg: Config, s: Bridge, t: Bridge)
    requires Inv(cfg, s) && t.mode == Polling && t.list == s.list && t.known == s.known
    requires Ledger(cfg, t) && Alive(t) && Cycles(t)
    ensures Inv(cfg, t)
  {
    hide Ledger, Alive, Cycles, ConfigOk;
  }

  /** Reads are still owed and all are out: the timer leaves the restart to the answer. */
  lemma ParkingKeeps(cfg: Config, s: Bridge)
    requires Inv(cfg, s) && s.mode == Polling && s.index >= |s.list| && s.completed < |s.list|
    ensures Inv(cfg, s.(armed := false, restart := true))
  {
    LedgerFrame(cfg, s, s.(armed := false, restart := true));
    LedgerCounts(cfg, s);
    hide Ledger;
  }

  lemma EmptyBurstKeeps(cfg: Config, s: Bridge, b: Burst)
    requires Inv(cfg, s) && s.mode == Polling && (s.index < |s.list| || s.completed >= |s.list|)
    requires LegalBurst(TimerStart(s), b) && TimerStart(s).completed >= |s.list|
    ensures Inv(cfg, SendBurst(cfg, TimerStart(s), b))
  {
    hide Inv, Ledger, Knows, ConfigOk, SendBurst, LegalBurst;
    InvPolling(cfg, s);
    EmptyBurst(cfg, s, b);
    LedgerCounts(cfg, s);
    InvFromPolling(cfg, s, SendBurst(cfg, TimerStart(s), b));
  }

  lemma TimerKeeps(cfg: Config, s: Bridge, b: Burst)
    requires Inv(cfg, s) && s.mode == Polling && Enabled(cfg, s, PollTimer(b))
    ensures Inv(cfg, Step(cfg, s, PollTimer(b)))
  {
    hide Inv, Ledger, Alive, Cycles, Knows, LegalBurst, SendBurst, TimerStart, Advances;
    if s.index < |s.list| || s.completed >= |s.list| {
      TimerStartKeeps(cfg, s);
      var t := TimerStart(s);
      if t.completed < |t.list| {
        BurstKeeps(cfg, t, b);
        InvFromPolling(cfg, s, SendBurst(cfg, t, b));
      } else {
        EmptyBurstKeeps(cfg, s, b);
      }
    } else {
      ParkingKeeps(cfg, s);
    }
  }

  lemma ProbeKeeps(cfg: Config, s: Bridge, queued: bool)
    requires ConfigOk(cfg) && Knows(cfg, s) && s.outstanding == multiset{} && s.mode == Probing
    ensures Inv(cfg, ProbeNext(cfg, s, queued))
  {
    hide Ledger;
    if s.index < |cfg.probeList| {
      var r := Request(cfg, cfg.probeList[s.index]);
      assert multiset{} + multiset{r} == multiset{r};
    } else {
      EnterKeepsLedger(cfg, s);
    }
  }

  lemma EnterKeepsLedger(cfg: Config, s: Bridge)
    requires s.outstanding == multiset{}
    ensures Ledger(cfg, EnterPolling(s))
  {
  }

  lemma ProbeAnswerKeeps(cfg: Config, s: Bridge, read: Target, from: Byte, ok: bool, queued: bool)
    requires Inv(cfg, s) && s.mode == Probing && read in s.outstanding
    ensures Inv(cfg, ProbingAnswer(cfg, s, read, from, ok, queued))
  {
    hide Ledger, ProbeNext, Remember;
    assert s.outstanding == multiset{read} && s.outstanding - multiset{read} == multiset{};
    var t := s.(outstanding := multiset{});
    assert read.erd == cfg.probeList[s.index - 1].erd;
    AddKeepsKnows(cfg, t, Target(read.erd, from));
    RememberNeverFull(cfg, t.known, read.erd);
    ProbeKeeps(cfg, if ok then AddToList(t, Target(read.erd, from)) else t.(known := Remember(t.known, read.erd)), queued);
  }

  lemma StepKeepsInv(cfg: Config, s: Bridge, e: Event)
    requires Inv(cfg, s) && Enabled(cfg, s, e)
    ensures Inv(cfg, Step(cfg, s, e))
  {
    hide Ledger, ProbeNext, PollingAnswer, PollingTimer;
    match e
    case Answer(read, from, ok, b) =>
      if s.mode == Polling {
        AnswerKeeps(cfg, s, read, from, ok, b);
      } else if s.mode == Probing {
        ProbeAnswerKeeps(cfg, s, read, from, ok, b.queued[0]);
      }
    case PollTimer(b) => if s.mode == Polling { TimerKeeps(cfg, s, b); }
    case ApplianceLost(queued) =>
      var t := if s.mode == Failed then s.(failures := 0, history := []) else s;
      ProbeKeeps(cfg, t.(mode := Probing, index := 0, list := [], known := if |t.list| > 0 then {} else t.known), queued);
  }

  // ---------------------------------------------------------------- runs

  ghost predicate Possible(cfg: Config, s: Bridge, es: seq<Event>)
    decreases |es|
  {
    es == [] || (Enabled(cfg, s, es[0]) && Possible(cfg, Step(cfg, s, es[0]), es[1..]))
  }

  ghost function Run(cfg: Config, s: Bridge, es: seq<Event>): Bridge
    requires Possible(cfg, s, es)
    decreases |es|
  {
    if es == [] then s else Run(cfg, Step(cfg, s, es[0]), es[1..])
  }

  lemma RunOne(cfg: Config, s: Bridge, e: Event)
    requires Enabled(cfg, s, e)
    ensures Possible(cfg, s, [e]) && Run(cfg, s, [e]) == Step(cfg, s, e)
  {
    hide Enabled, Step;
    assert [e][1..] == [];
    assert Run(cfg, Step(cfg, s, e), []) == Step(cfg, s, e);
  }

  lemma InitialInv(cfg: Config, queued: bool)
    requires ConfigOk(cfg)
    ensures Inv(cfg, Initial(cfg, queued))
  {
  }

  lemma {:induction false} RunKeepsInv(cfg: Config, s: Bridge, es: seq<Event>)
    requires Inv(cfg, s) && Possible(cfg, s, es)
    ensures Inv(cfg, Run(cfg, s, es))
    decreases |es|
  {
    if es != [] {
      StepKeepsInv(cfg, s, es[0]);
      RunKeepsInv(cfg, Step(cfg, s, es[0]), es[1..]);
    }
  }

  // ---------------------------------------------------------------- conservation

  /** Between events, in every run: answers and drops counted plus reads owed are the reads attempted, and
      read for read they are the requests of the list entries attempted so far, each once. */
  lemma CycleIsConserved(cfg: Config, queued: bool, es: seq<Event>)
    requires ConfigOk(cfg) && Possible(cfg, Initial(cfg, queued), es)
    ensures var s := Run(cfg, Initial(cfg, queued), es);
            s.mode == Polling ==>
              && s.completed + |s.outstanding| == s.index <= |s.list|
              && s.served + s.outstanding == Requests(cfg, s.list[..s.index])
              && |s.served| == s.completed
  {
    InitialInv(cfg, queued);
    RunKeepsInv(cfg, Initial(cfg, queued), es);
    var s := Run(cfg, Initial(cfg, queued), es);
    if s.mode == Polling { LedgerCounts(cfg, s); }
  }

  /** Cycles never overlap. When an event begins a cycle, either none has run in this stay, or the one
      before has finished: the answer just in, if any, was the last one owed, and every list entry has
      been served exactly once. */
  lemma CyclesNeverOverlap(cfg: Config, s: Bridge, e: Event)
    requires Inv(cfg, s) && Enabled(cfg, s, e) && s.mode == Polling && |s.list| > 0
    ensures Step(cfg, s, e).started > s.started ==>
              match e
              case PollTimer(_) =>
                s.started > 0 ==> s.outstanding == multiset{} && s.served == Requests(cfg, s.list) && s.finished == s.started
              case Answer(read, _, _, _) =>
                && s.outstanding == multiset{read} && s.served + multiset{read} == Requests(cfg, s.list)
                && s.finished + 1 == s.started
              case ApplianceLost(_) => false
  {
    hide Requests, PollingTimer, PollingAnswer, Knows, Alive;
    if Step(cfg, s, e).started > s.started {
      match e
      case PollTimer(b) =>
        TimerStartsOnly(cfg, s, b);
        LedgerCounts(cfg, s);
        if s.index > 0 {
          assert s.list[..|s.list|] == s.list;
          assert s.served + multiset{} == s.served;
        }
      case Answer(read, from, ok, b) =>
        AnswerStartsOnly(cfg, s, read, from, ok, b);
      case ApplianceLost(_) =>
    }
  }

  lemma TimerStartsOnly(cfg: Config, s: Bridge, b: Burst)
    requires Inv(cfg, s) && s.mode == Polling && Enabled(cfg, s, PollTimer(b)) && |s.list| > 0
    requires Step(cfg, s, PollTimer(b)).started > s.started
    ensures s.index == 0 || (s.index == |s.list| && s.completed == |s.list|)
  {
    LedgerCounts(cfg, s);
    hide Ledger;
    if s.index < |s.list| || s.completed >= |s.list| {
      var t := TimerStart(s);
      if s.sending && s.index > 0 { StartedBySend(cfg, t, b.queued); }
    }
  }

  lemma {:induction false} StartedBySend(cfg: Config, s: Bridge, queued: seq<bool>)
    requires s.index + |queued| <= |s.list|
    ensures SendAll(cfg, s, queued).started == s.started
    decreases |queued|
  {
    if queued != [] {
      hide SendOne, Request;
      SendOneIs(cfg, s, queued[0]);
      StartedBySend(cfg, SendOne(cfg, s, queued[0]), queued[1..]);
    }
  }

  lemma AnswerStartsOnly(cfg: Config, s: Bridge, read: Target, from: Byte, ok: bool, b: Burst)
    requires Inv(cfg, s) && s.mode == Polling && Enabled(cfg, s, Answer(read, from, ok, b))
    requires Step(cfg, s, Answer(read, from, ok, b)).started > s.started
    ensures s.outstanding == multiset{read} && s.served + multiset{read} == Requests(cfg, s.list)
    ensures s.finished + 1 == s.started
  {
    hide AddToList, SendAll, Requests;
    ServeKeeps(cfg, s, read, from, ok);
    LedgerCounts(cfg, s);
    var t := Serve(s, read, from, ok);
    LedgerCounts(cfg, t);
    assert t.list[..|t.list|] == t.list;
    assert t.completed >= |t.list|;
    assert s.outstanding == t.outstanding + multiset{read} == multiset{read};
  }

  // ---------------------------------------------------------------- no stall

  /** In every run the polling loop stays alive: the timer is armed, or a restart waits for an answer that
      is owed; never both. */
  lemma NeverStalls(cfg: Config, queued: bool, es: seq<Event>)
    requires ConfigOk(cfg) && Possible(cfg, Initial(cfg, queued), es)
    ensures var s := Run(cfg, Initial(cfg, queued), es);
            s.mode == Polling ==>
              && (s.armed || (s.restart && |s.outstanding| > 0))
              && (s.restart ==> !s.armed)
  {
    InitialInv(cfg, queued);
    RunKeepsInv(cfg, Initial(cfg, queued), es);
    var s := Run(cfg, Initial(cfg, queued), es);
    if s.mode == Polling { LedgerCounts(cfg, s); }
  }

  /** Bound on the events until the next cycle finishes. */
  function Patience(s: Bridge): nat {
    var n := |s.list|;
    if s.index == 0 || s.completed >= n then 2 * n + 3 + (if s.sending then 1 else 0)
    else (n - s.completed) + (if s.index <= n then n - s.index else 0)
         + (if s.armed then 1 else 0) + (if s.sending then 1 else 0)
  }

  lemma BurstPatience(cfg: Config, s: Bridge, b: Burst)
    requires Ledger(cfg, s) && LegalBurst(s, b) && s.completed < |s.list| && !s.restart && s.started == s.finished + 1
    ensures var t := SendBurst(cfg, s, b);
            && t.index == s.index + |b.queued| && t.completed >= s.completed
            && (t.finished > s.finished <==> t.completed >= |s.list|)
            && t.finished >= s.finished && t.list == s.list && t.mode == s.mode
  {
    BurstInCycle(cfg, s, b.queued);
  }

  lemma StepPatience(cfg: Config, s: Bridge, e: Event)
    requires Inv(cfg, s) && Enabled(cfg, s, e) && s.mode == Polling && |s.list| > 0
    requires Step(cfg, s, e).mode == Polling && !e.ApplianceLost?
    ensures Step(cfg, s, e).list == s.list && Step(cfg, s, e).finished >= s.finished
    ensures Step(cfg, s, e).finished > s.finished || Patience(Step(cfg, s, e)) < Patience(s)
  {
    hide PollingAnswer, PollingTimer, Patience, Inv;
    match e
    case Answer(read, from, ok, b) => AnswerPatience(cfg, s, read, from, ok, b);
    case PollTimer(b) => TimerPatience(cfg, s, b);
  }

  /** One more read served brings the end of the cycle nearer. */
  lemma ServeShortens(s: Bridge, t: Bridge)
    requires s.completed < t.completed < |t.list| && t.list == s.list && t.index == s.index > 0
    requires t.armed == s.armed && t.sending == s.sending
    ensures Patience(t) < Patience(s)
  {
  }

  lemma RestartFinishes(cfg: Config, t: Bridge, b: Burst)
    requires t.outstanding == multiset{} && |t.list| > 0 && LegalBurst(NextCycle(t), b)
    ensures var u := SendBurst(cfg, NextCycle(t), b); u.list == t.list && u.finished > t.finished
  {
    StartKeepsLedger(cfg, Finish(t).(restart := false));
    BurstInCycle(cfg, NextCycle(t), b.queued);
    hide Ledger, SendAll;
  }

  lemma AnswerPatience(cfg: Config, s: Bridge, read: Target, from: Byte, ok: bool, b: Burst)
    requires Inv(cfg, s) && s.mode == Polling && Enabled(cfg, s, Answer(read, from, ok, b)) && |s.list| > 0
    ensures var t := Step(cfg, s, Answer(read, from, ok, b));
            t.list == s.list && t.finished >= s.finished && (t.finished > s.finished || Patience(t) < Patience(s))
  {
    hide Inv, Ledger, Knows, AddToList, Serve, SendBurst, LegalBurst, NextCycle, Immediate, Patience;
    InvPolling(cfg, s);
    ServeKeeps(cfg, s, read, from, ok);
    var t := Serve(s, read, from, ok);
    LedgerCounts(cfg, t);
    LedgerCounts(cfg, s);
    if t.completed < |t.list| {
      ServeShortens(s, t);
    } else if Immediate(t) {
      RestartFinishes(cfg, t, b);
    }
  }

  /** A burst that sends something brings the end of the cycle nearer. */
  lemma BurstShortens(s: Bridge, t: Bridge, u: Bridge)
    requires s.list == t.list == u.list && s.index <= |s.list|
    requires if t.index == 0 then s.index == 0 || s.completed >= |s.list|
             else t.index == s.index && t.completed == s.completed < |s.list| && s.sending && s.armed
    requires t.index < u.index <= |t.list| && t.completed <= u.completed < |t.list|
    ensures Patience(u) < Patience(s)
  {
  }

  lemma TimerStartIs(cfg: Config, s: Bridge)
    requires Cycles(s) && Alive(s) && s.armed && (s.index < |s.list| || s.completed >= |s.list|)
    ensures var t := TimerStart(s);
            && t.list == s.list && t.finished == s.finished
            && (if t.index == 0 then s.index == 0 || s.completed >= |s.list|
                else t.index == s.index && t.completed == s.completed && s.sending)
  {
  }

  lemma BurstSends(s: Bridge, b: Burst)
    requires LegalBurst(s, b) && s.index < |s.list|
    ensures |b.queued| > 0 && s.index + |b.queued| <= |s.list|
  {
  }

  lemma TimerPatience(cfg: Config, s: Bridge, b: Burst)
    requires Inv(cfg, s) && s.mode == Polling && Enabled(cfg, s, PollTimer(b)) && |s.list| > 0
    ensures var t := Step(cfg, s, PollTimer(b));
            t.list == s.list && t.finished >= s.finished && (t.finished > s.finished || Patience(t) < Patience(s))
  {
    hide Ledger, Knows, Cycles, LegalBurst, SendBurst, TimerStart;
    LedgerCounts(cfg, s);
    if s.index < |s.list| || s.completed >= |s.list| {
      TimerStartKeeps(cfg, s);
      TimerStartIs(cfg, s);
      var t := TimerStart(s);
      LedgerCounts(cfg, t);
      if t.completed < |t.list| {
        hide Patience;
        BurstPatience(cfg, t, b);
        BurstSends(t, b);
        var u := SendBurst(cfg, t, b);
        if u.completed < |u.list| { BurstShortens(s, t, u); }
      } else {
        EmptyBurst(cfg, s, b);
      }
    }
  }

  /** The bridge stays in Polling throughout and the appliance is not lost. */
  ghost predicate StaysPolling(cfg: Config, s: Bridge, es: seq<Event>)
    requires Possible(cfg, s, es)
    decreases |es|
  {
    && s.mode == Polling
    && (es == [] || (!es[0].ApplianceLost? && StaysPolling(cfg, Step(cfg, s, es[0]), es[1..])))
  }

  lemma {:induction false} PatienceRunsOut(cfg: Config, s: Bridge, es: seq<Event>)
    requires Inv(cfg, s) && Possible(cfg, s, es) && StaysPolling(cfg, s, es) && |s.list| > 0
    requires |es| > Patience(s)
    ensures Run(cfg, s, es).finished > s.finished
    decreases |es|
  {
    hide Inv, Patience, Step, Enabled;
    StepKeepsInv(cfg, s, es[0]);
    StepPatience(cfg, s, es[0]);
    var t := Step(cfg, s, es[0]);
    if t.finished > s.finished {
      FinishedGrows(cfg, t, es[1..]);
    } else {
      PatienceRunsOut(cfg, t, es[1..]);
    }
  }

  /** Every cycle finishes: a stay in Polling over n list entries sees a cycle finish within any 2n + 5
      events, so timers firing or answers arriving always bring it about. */
  lemma CyclesKeepFinishing(cfg: Config, s: Bridge, es: seq<Event>)
    requires Inv(cfg, s) && Possible(cfg, s, es) && StaysPolling(cfg, s, es) && |s.list| > 0
    requires |es| >= 2 * |s.list| + 5
    ensures Run(cfg, s, es).finished > s.finished
  {
    hide Inv, Patience;
    PatienceBound(cfg, s);
    PatienceRunsOut(cfg, s, es);
  }

  lemma {:induction false} FinishedGrows(cfg: Config, s: Bridge, es: seq<Event>)
    requires Inv(cfg, s) && Possible(cfg, s, es) && StaysPolling(cfg, s, es) && |s.list| > 0
    ensures Run(cfg, s, es).finished >= s.finished
    decreases |es|
  {
    if es != [] {
      StepKeepsInv(cfg, s, es[0]);
      StepPatience(cfg, s, es[0]);
      FinishedGrows(cfg, Step(cfg, s, es[0]), es[1..]);
    }
  }

  lemma PatienceBound(cfg: Config, s: Bridge)
    requires Inv(cfg, s) && s.mode == Polling && |s.list| > 0
    ensures Patience(s) <= 2 * |s.list| + 4
  {
    LedgerCounts(cfg, s);
  }

  // ---------------------------------------------------------------- a dropped probe read

  lemma ProbeOwes(cfg: Config, s: Bridge, queued: bool)
    requires s.outstanding == multiset{} && ProbeNext(cfg, s, queued).mode == Probing && s.mode == Probing
    ensures |ProbeNext(cfg, s, queued).outstanding| == if queued then 1 else 0
  {
    hide Request;
    var r := Request(cfg, cfg.probeList[s.index]);
    assert multiset{} + multiset{r} == multiset{r};
  }

  /** No event but a loss of the appliance moves a probe phase that is owed nothing. */
  lemma {:induction false} DroppedProbeWaits(cfg: Config, s: Bridge, es: seq<Event>)
    requires s.mode == Probing && s.outstanding == multiset{} && Possible(cfg, s, es)
    requires forall e | e in es :: !e.ApplianceLost?
    ensures Run(cfg, s, es) == s
    decreases |es|
  {
    if es != [] {
      hide PollingAnswer, PollingTimer, ProbingAnswer, Serve, TimerStart, LegalBurst, NextCycle;
      assert es[0] in es && forall e | e in es[1..] :: e in es;
      DroppedProbeWaits(cfg, s, es[1..]);
    }
  }

  lemma OwesAtMostOne(m: multiset<Target>, r: Target)
    requires m <= multiset{r}
    ensures |m| <= 1 && (|m| == 0 ==> m == multiset{})
  {
    if m != multiset{} {
      assert r in m;
      assert m == multiset{r};
    }
  }

  /** While probing, an answer that is owed is due, whatever it says. */
  lemma AnswerIsDue(cfg: Config, s: Bridge, e: Event)
    requires s.mode == Probing && e.Answer? && e.burst.queued != [] && e.read in s.outstanding
    ensures Enabled(cfg, s, e)
    ensures Step(cfg, s, e) == ProbingAnswer(cfg, s, e.read, e.from, e.ok, e.burst.queued[0])
  {
    hide PollingAnswer, PollingTimer, ProbingAnswer, Serve, TimerStart, LegalBurst, NextCycle, EnterProbing, Immediate;
  }

  lemma RecordedStays(s: Bridge, read: Target, from: Byte, ok: bool)
    ensures Recorded(s, read, from, ok).mode == s.mode && Recorded(s, read, from, ok).index == s.index
  {
    hide Remember, AddUnique, KnownWith;
  }

  lemma ProbeNextMoves(cfg: Config, s: Bridge, queued: bool)
    ensures var t := ProbeNext(cfg, s, queued); t.mode == Polling || (t.mode == s.mode && t.index == s.index + 1)
  {
    hide Request;
  }

  lemma AnswerMoves(cfg: Config, s: Bridge, e: Event)
    requires s.mode == Probing && e.Answer? && e.burst.queued != [] && e.read in s.outstanding
    ensures Enabled(cfg, s, e)
    ensures var t := Step(cfg, s, e); t.mode == Polling || (t.mode == Probing && t.index == s.index + 1)
  {
    hide Enabled, Step, Recorded, ProbeNext;
    AnswerIsDue(cfg, s, e);
    RecordedStays(s, e.read, e.from, e.ok);
    ProbeNextMoves(cfg, Recorded(s, e.read, e.from, e.ok), e.burst.queued[0]);
  }

  /** Some run without a loss of the appliance changes something. */
  ghost predicate Movable(cfg: Config, s: Bridge) {
    exists es: seq<Event> :: Possible(cfg, s, es) && (forall e | e in es :: !e.ApplianceLost?) && Run(cfg, s, es) != s
  }

  lemma OwedMoves(cfg: Config, s: Bridge, read: Target)
    requires s.mode == Probing && read in s.outstanding
    ensures Movable(cfg, s)
  {
    hide Step, Enabled, Run, Possible;
    var e := Answer(read, 0, false, Burst([true], true));
    AnswerMoves(cfg, s, e);
    RunOne(cfg, s, e);
    assert Run(cfg, s, [e]) != s;
    assert Possible(cfg, s, [e]) && (forall x | x in [e] :: !x.ApplianceLost?) && Run(cfg, s, [e]) != s;
  }

  /** The client's return value is ignored while probing. A probe phase goes on, or comes to its end, exactly if its
      current read was queued: then one answer is due, and whatever it is it takes the phase to its next read or to
      polling. If the read was dropped nothing is due, and nothing but a loss of the appliance ever moves it. */
  lemma ProbeMovesExactly(cfg: Config, s: Bridge)
    requires Inv(cfg, s) && s.mode == Probing
    ensures |s.outstanding| <= 1
    ensures |s.outstanding| == 1 <==> Movable(cfg, s)
    ensures forall e: Event | e.Answer? && Enabled(cfg, s, e) ::
              Step(cfg, s, e).mode == Polling || (Step(cfg, s, e).mode == Probing && Step(cfg, s, e).index == s.index + 1)
  {
    OwesAtMostOne(s.outstanding, Request(cfg, cfg.probeList[s.index - 1]));
    if |s.outstanding| == 1 {
      var read :| read in s.outstanding;
      OwedMoves(cfg, s, read);
    } else {
      UnowedWaits(cfg, s);
    }
    forall e: Event | e.Answer? && Enabled(cfg, s, e)
      ensures Step(cfg, s, e).mode == Polling || (Step(cfg, s, e).mode == Probing && Step(cfg, s, e).index == s.index + 1)
    {
      EnabledAnswer(cfg, s, e);
      AnswerMoves(cfg, s, e);
    }
    hide *;
  }

  lemma UnowedWaits(cfg: Config, s: Bridge)
    requires s.mode == Probing && s.outstanding == multiset{}
    ensures !Movable(cfg, s)
  {
    hide Step, Enabled;
    forall es: seq<Event> | Possible(cfg, s, es) && (forall e | e in es :: !e.ApplianceLost?)
      ensures Run(cfg, s, es) == s
    {
      DroppedProbeWaits(cfg, s, es);
    }
  }

  lemma EnabledAnswer(cfg: Config, s: Bridge, e: Event)
    requires s.mode == Probing && e.Answer? && Enabled(cfg, s, e)
    ensures e.read in s.outstanding && e.burst.queued != []
  {
  }

  // ---------------------------------------------------------------- which board a read goes to

  /** Every answer comes from the board that was asked. */
  ghost predicate Faithful(es: seq<Event>) {
    forall e | e in es :: e.Answer? ==> e.from == e.read.board
  }

  /** Only physical boards are listed and asked. */
  ghost predicate Addressed(s: Bridge) {
    && (forall t | t in s.list :: t.board != DEFAULT_ADDRESS)
    && (forall r | r in s.outstanding :: r.board != DEFAULT_ADDRESS)
  }

  lemma RequestIsAddressed(cfg: Config, t: Target)
    requires cfg.host != DEFAULT_ADDRESS
    ensures Request(cfg, t).board != DEFAULT_ADDRESS
    ensures t.board != DEFAULT_ADDRESS ==> Request(cfg, t) == t
    ensures t.board == DEFAULT_ADDRESS ==> Request(cfg, t).board == cfg.host
  {
  }

  lemma {:induction false} SendAllAddressed(cfg: Config, s: Bridge, queued: seq<bool>)
    requires cfg.host != DEFAULT_ADDRESS && Addressed(s) && s.index + |queued| <= |s.list|
    ensures Addressed(SendAll(cfg, s, queued))
    decreases |queued|
  {
    if queued != [] {
      hide SendOne, Request;
      SendOneIs(cfg, s, queued[0]);
      RequestIsAddressed(cfg, s.list[s.index]);
      SendAllAddressed(cfg, SendOne(cfg, s, queued[0]), queued[1..]);
    }
  }

  lemma ProbeAddressed(cfg: Config, s: Bridge, queued: bool)
    requires cfg.host != DEFAULT_ADDRESS && Addressed(s)
    ensures Addressed(ProbeNext(cfg, s, queued))
  {
    hide Request;
    if s.index < |cfg.probeList| { RequestIsAddressed(cfg, cfg.probeList[s.index]); }
  }

  lemma ServeAddressed(s: Bridge, read: Target, ok: bool)
    requires Addressed(s) && read in s.outstanding
    ensures Addressed(Serve(s, read, read.board, ok))
  {
    hide Remember, KnownWith;
  }

  lemma RecordedAddressed(s: Bridge, read: Target, ok: bool)
    requires Addressed(s) && read in s.outstanding
    ensures Addressed(Recorded(s, read, read.board, ok))
  {
    hide Remember, KnownWith;
  }

  lemma SameAddresses(s: Bridge, t: Bridge)
    requires Addressed(s) && t.list == s.list && t.outstanding <= s.outstanding
    ensures Addressed(t)
  {
  }

  lemma AnswerAddressed(cfg: Config, s: Bridge, e: Event)
    requires cfg.host != DEFAULT_ADDRESS && Addressed(s) && e.Answer? && Enabled(cfg, s, e) && e.from == e.read.board
    ensures Addressed(Step(cfg, s, e))
  {
    hide Addressed, SendBurst, LegalBurst, Serve, Recorded, ProbeNext, Immediate;
    if s.mode == Polling {
      var t := Serve(s, e.read, e.from, e.ok);
      ServeAddressed(s, e.read, e.ok);
      if t.completed >= |t.list| {
        var u := if Immediate(t) then SendBurst(cfg, NextCycle(t), e.burst) else Finish(t);
        if Immediate(t) {
          SameAddresses(t, NextCycle(t));
          SendBurstAddressed(cfg, NextCycle(t), e.burst);
        } else {
          SameAddresses(t, u);
        }
        SameAddresses(u, u.(mode := Failed));
      }
    } else if s.mode == Probing {
      RecordedAddressed(s, e.read, e.ok);
      ProbeAddressed(cfg, Recorded(s, e.read, e.from, e.ok), e.burst.queued[0]);
    } else {
      SameAddresses(s, s.(outstanding := s.outstanding - multiset{e.read}));
    }
  }

  lemma SendBurstAddressed(cfg: Config, s: Bridge, b: Burst)
    requires cfg.host != DEFAULT_ADDRESS && Addressed(s) && LegalBurst(s, b)
    ensures Addressed(SendBurst(cfg, s, b))
  {
    SendAllAddressed(cfg, s, b.queued);
    hide SendAll;
  }

  lemma StepAddressed(cfg: Config, s: Bridge, e: Event)
    requires cfg.host != DEFAULT_ADDRESS && Addressed(s) && Enabled(cfg, s, e) && (e.Answer? ==> e.from == e.read.board)
    ensures Addressed(Step(cfg, s, e))
  {
    hide Addressed, LegalBurst, PollingAnswer, ProbingAnswer, ProbeNext, SendBurst;
    match e
    case Answer(_, _, _, _) => AnswerAddressed(cfg, s, e);
    case PollTimer(b) =>
      if s.mode == Polling {
        if s.index >= |s.list| && s.completed < |s.list| {
          SameAddresses(s, s.(armed := false, restart := true));
        } else {
          SameAddresses(s, TimerStart(s));
          SendBurstAddressed(cfg, TimerStart(s), b);
        }
      }
    case ApplianceLost(queued) =>
      var t := if s.mode == Failed then s.(failures := 0, history := []) else s;
      var u := t.(mode := Probing, index := 0, list := [], known := if |t.list| > 0 then {} else t.known);
      NothingListed(s, u);
      ProbeAddressed(cfg, u, queued);
  }

  lemma NothingListed(s: Bridge, t: Bridge)
    requires Addressed(s) && t.list == [] && t.outstanding == s.outstanding
    ensures Addressed(t)
  {
  }

  lemma {:induction false} RunAddressed(cfg: Config, s: Bridge, es: seq<Event>)
    requires cfg.host != DEFAULT_ADDRESS && Addressed(s) && Possible(cfg, s, es) && Faithful(es)
    ensures Addressed(Run(cfg, s, es))
    decreases |es|
  {
    hide Addressed, Step, Enabled;
    if es != [] {
      assert es[0] in es && forall e | e in es[1..] :: e in es;
      StepAddressed(cfg, s, es[0]);
      RunAddressed(cfg, Step(cfg, s, es[0]), es[1..]);
    }
  }

  lemma {:induction false} RequestsAreEntries(cfg: Config, list: seq<Target>)
    requires forall t | t in list :: t.board != DEFAULT_ADDRESS
    ensures Requests(cfg, list) == multiset(list)
  {
    if list != [] {
      var front, last := list[..|list| - 1], list[|list| - 1];
      assert list == front + [last] && last in list;
      RequestsAreEntries(cfg, front);
    }
  }

  /** What is read and where. If the client delivers answers from the boards it asked, then in every run every read
      owed goes to a physical board: a probe read to the entry's own board, or to the host if it has none, and the
      reads of a cycle, answered and owed, are exactly the listed pairs of ERD and board attempted so far. */
  lemma ReadsGoToTheirBoards(cfg: Config, queued: bool, es: seq<Event>)
    requires ConfigOk(cfg) && cfg.host != DEFAULT_ADDRESS && Possible(cfg, Initial(cfg, queued), es) && Faithful(es)
    ensures var s := Run(cfg, Initial(cfg, queued), es);
            && (s.mode == Polling ==> s.index <= |s.list| && s.served + s.outstanding == multiset(s.list[..s.index]))
            && (s.mode == Probing ==>
                  && 0 < s.index <= |cfg.probeList|
                  && var asked := cfg.probeList[s.index - 1];
                     s.outstanding <= multiset{Target(asked.erd, if asked.board == DEFAULT_ADDRESS then cfg.host else asked.board)})
  {
    hide *;
    InitialInv(cfg, queued);
    InitialAddressed(cfg, queued);
    RunKeepsInv(cfg, Initial(cfg, queued), es);
    RunAddressed(cfg, Initial(cfg, queued), es);
    var s := Run(cfg, Initial(cfg, queued), es);
    if s.mode == Polling {
      CycleIsConserved(cfg, queued, es);
      ListedPrefix(s, s.index);
      RequestsAreEntries(cfg, s.list[..s.index]);
    } else if s.mode == Probing {
      ProbingAsks(cfg, s);
    }
  }

  lemma InitialAddressed(cfg: Config, queued: bool)
    requires cfg.host != DEFAULT_ADDRESS
    ensures Addressed(Initial(cfg, queued))
  {
    ProbeAddressed(cfg, Start(), queued);
    hide ProbeNext;
    assert Initial(cfg, queued) == ProbeNext(cfg, Start(), queued);
  }

  lemma ListedPrefix(s: Bridge, n: nat)
    requires Addressed(s) && n <= |s.list|
    ensures forall t | t in s.list[..n] :: t.board != DEFAULT_ADDRESS
  {
  }

  lemma ProbingAsks(cfg: Config, s: Bridge)
    requires Inv(cfg, s) && s.mode == Probing
    ensures 0 < s.index <= |cfg.probeList|
    ensures var asked := cfg.probeList[s.index - 1];
            s.outstanding <= multiset{Target(asked.erd, if asked.board == DEFAULT_ADDRESS then cfg.host else asked.board)}
  {
    var asked := cfg.probeList[s.index - 1];
    assert Request(cfg, asked) == Target(asked.erd, if asked.board == DEFAULT_ADDRESS then cfg.host else asked.board);
  }

  function Start(): Bridge {
    Bridge(Probing, [], {}, 0, 0, false, false, false, false, 0, multiset{}, multiset{}, false, 0, 0, [])
  }
}
