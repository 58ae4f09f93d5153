/** The subscription bridge: a five-state machine with a retention timer and a quiet timer, driven by client
    activity, timers and the passing of time. */
module SubscribeSpec {
  import opened Common

  const QUIET_PERIOD: nat := 2000
  const MAX_FAILURES: nat := 3
  const SET_CAPACITY: nat := 659

  datatype Mode = Subscribing | Subscribed | Steady | Failed

  /** The one timer shared by resubscription (once) and retention (periodic). */
  datatype Timer = Off | Once | Periodic

  /** What the bridge asks of the client: a subscription, taken or refused, or that the one it has be retained. */
  datatype Call = Subscribe(taken: bool) | Retain

  /** `quiet` is when the quiet timer is due. The rest records the run: the time, when a valid publication last
      brought an ERD that was not registered, when the bridge last entered subscribed, and the calls made. */
  datatype Sub = Sub(
    mode: Mode,
    failures: nat,
    erds: set<Erd>,
    timer: Timer,
    quiet: Option<nat>,
    now: nat,
    lastNew: nat,
    since: nat,
    calls: seq<Call>)

  /** Client activity for this host, timers and time. `sent` says whether the client takes the subscribe
      request the event may lead to. */
  datatype Event =
    | Publication(erd: Erd)
    | Confirmed
    | HostOnline(sent: bool)
    | SubscribeFailed(sent: bool)
    | TimerExpired(sent: bool)
    | QuietExpired
    | Elapse(ms: nat)

  /** The registry filter, None when no registry is set. */
  type Filter = Option<set<Erd>>

  predicate Passes(f: Filter, erd: Erd) {
    f.None? || erd in f.value
  }

  function EnterSubscribed(s: Sub): Sub {
    s.(mode := Subscribed, failures := 0, timer := Periodic, quiet := Some(s.now + QUIET_PERIOD), since := s.now)
  }

  function EnterSteady(s: Sub): Sub {
    s.(mode := Steady, quiet := None)
  }

  function EnterFailed(s: Sub): Sub {
    s.(mode := Failed, timer := Off, quiet := None)
  }

  /** A refused request is repeated when the timer expires. */
  function TrySubscribe(s: Sub, sent: bool): Sub {
    var t := s.(calls := s.calls + [Subscribe(sent)]);
    if sent then t else t.(timer := Once)
  }

  /** One more failure; the third gives up. */
  function CountFailure(s: Sub, sent: bool): Sub {
    var t := s.(failures := s.failures + 1);
    if t.failures >= MAX_FAILURES then EnterFailed(t) else TrySubscribe(t, sent)
  }

  function EnterSubscribing(s: Sub, sent: bool): Sub {
    CountFailure(s.(mode := Subscribing, timer := Off, quiet := None), sent)
  }

  function Initial(sent: bool): Sub {
    EnterSubscribing(Sub(Subscribing, 0, {}, Off, None, 0, 0, 0, []), sent)
  }

  function Register(s: Sub, erd: Erd): Sub {
    s.(erds := if |s.erds| < SET_CAPACITY then s.erds + {erd} else s.erds, lastNew := s.now)
  }

  /** A one-shot timer is off once it has fired. */
  function Fired(t: Timer): Timer {
    if t == Once then Off else t
  }

  predicate Enabled(s: Sub, e: Event) {
    && (e.TimerExpired? ==> s.timer != Off)
    && (e.QuietExpired? ==> s.quiet.Some? && s.now >= s.quiet.value)
  }

  function Step(f: Filter, s: Sub, e: Event): Sub
    requires Enabled(s, e)
  {
    match e
    case Publication(erd) =>
      if !Passes(f, erd) || erd in s.erds then s else EnterSubscribed(Register(s, erd))
    case Confirmed =>
      if s.mode == Subscribing then EnterSubscribed(s) else s
    case HostOnline(sent) =>
      if s.mode == Subscribing then EnterSubscribing(s.(erds := {}), sent)
      else if s.mode == Failed then s else EnterSubscribing(s, sent)
    case SubscribeFailed(sent) =>
      if s.mode == Subscribing then CountFailure(s, sent) else s
    case TimerExpired(sent) =>
      var t := s.(timer := Fired(s.timer));
      if s.mode == Subscribing then TrySubscribe(t, sent) else t.(calls := t.calls + [Retain])
    case QuietExpired =>
      if s.erds == {} then EnterFailed(s) else EnterSteady(s)
    case Elapse(ms) => s.(now := s.now + ms)
  }

  // ---------------------------------------------------------------- what holds in every run

  /** While subscribing, the last request was taken, or the timer will bring another one; and the timer never does so
      if no request was refused. */
  ghost predicate Asking(s: Sub) {
    && (s.mode == Subscribing ==>
          |s.calls| > 0 && s.calls[|s.calls| - 1].Subscribe? && (s.calls[|s.calls| - 1].taken || s.timer == Once))
    && (s.timer == Once ==> Subscribe(false) in s.calls)
  }

  ghost predicate Inv(s: Sub) {
    && (s.quiet.Some? <==> s.mode == Subscribed)
    && (s.timer == Periodic <==> s.mode == Subscribed || s.mode == Steady)
    && (s.timer == Once ==> s.mode == Subscribing)
    && s.failures <= MAX_FAILURES && (s.mode != Failed ==> s.failures < MAX_FAILURES)
    && (s.mode == Subscribing ==> s.failures >= 1)
    && (s.mode == Subscribed || s.mode == Steady ==> s.failures == 0)
    && s.lastNew <= s.now && (s.mode == Subscribed || s.mode == Steady ==> s.lastNew <= s.since)
    && (s.mode == Subscribed ==> s.quiet == Some(s.since + QUIET_PERIOD))
    && Asking(s)
    && (s.mode == Steady ==> s.erds != {} && s.lastNew + QUIET_PERIOD <= s.now)
  }

  ghost predicate Possible(f: Filter, s: Sub, es: seq<Event>)
    decreases |es|
  {
    es == [] || (Enabled(s, es[0]) && Possible(f, Step(f, s, es[0]), es[1..]))
  }

  ghost function Run(f: Filter, s: Sub, es: seq<Event>): Sub
    requires Possible(f, s, es)
    decreases |es|
  {
    if es == [] then s else Run(f, Step(f, s, es[0]), es[1..])
  }

  lemma TryKeepsAsking(s: Sub, sent: bool)
    requires Asking(s.(mode := Failed))
    ensures var t := TrySubscribe(s, sent); Asking(t) && t == s.(calls := t.calls, timer := if sent then s.timer else Once)
  {
  }

  lemma CountKeepsInv(s: Sub, sent: bool)
    requires Inv(s) && s.mode == Subscribing
    ensures Inv(CountFailure(s, sent))
  {
    TryKeepsAsking(s.(failures := s.failures + 1), sent);
    hide TrySubscribe;
  }

  lemma EntryKeepsInv(s: Sub, sent: bool)
    requires Inv(s) && s.mode != Failed
    ensures Inv(EnterSubscribing(s, sent))
  {
    var t := s.(mode := Subscribing, timer := Off, quiet := None, failures := s.failures + 1);
    TryKeepsAsking(t, sent);
    hide TrySubscribe;
  }

  lemma SubscribedKeepsInv(s: Sub, erd: Erd)
    requires Inv(s)
    ensures Inv(EnterSubscribed(s)) && Inv(EnterSubscribed(Register(s, erd)))
  {
  }

  lemma StepKeepsInv(f: Filter, s: Sub, e: Event)
    requires Inv(s) && Enabled(s, e)
    ensures Inv(Step(f, s, e))
  {
    hide CountFailure, EnterSubscribing, EnterSubscribed, Register, TrySubscribe, Passes;
    match e
    case Publication(erd) => SubscribedKeepsInv(s, erd);
    case Confirmed => SubscribedKeepsInv(s, 0);
    case HostOnline(sent) =>
      if s.mode != Failed {
        if s.mode == Subscribing { ForgettingKeepsInv(s); }
        hide Inv;
        EntryKeepsInv(if s.mode == Subscribing then s.(erds := {}) else s, sent);
      }
    case SubscribeFailed(sent) => if s.mode == Subscribing { CountKeepsInv(s, sent); }
    case TimerExpired(sent) =>
      if s.mode == Subscribing { TryKeepsAsking(s.(timer := Fired(s.timer)), sent); }
    case QuietExpired =>
    case Elapse(_) =>
  }

  lemma ForgettingKeepsInv(s: Sub)
    requires Inv(s) && s.mode == Subscribing
    ensures Inv(s.(erds := {}))
  {
    hide Asking;
    AskingIgnoresErds(s);
  }

  lemma AskingIgnoresErds(s: Sub)
    requires Asking(s)
    ensures Asking(s.(erds := {}))
  {
  }

  lemma InitialInv(sent: bool)
    ensures Inv(Initial(sent))
  {
  }

  lemma {:induction false} RunKeepsInv(f: Filter, s: Sub, es: seq<Event>)
    requires Inv(s) && Possible(f, s, es)
    ensures Inv(Run(f, s, es))
    decreases |es|
  {
    if es != [] {
      StepKeepsInv(f, s, es[0]);
      RunKeepsInv(f, Step(f, s, es[0]), es[1..]);
    }
  }

  /** In every run: the quiet timer runs exactly while subscribed, the retention timer exactly while subscribed or
      steady, and failures never exceed three; steady means that ERDs are registered and that none has been new
      for at least the quiet period. */
  lemma TimersAndQuietPeriod(f: Filter, sent: bool, es: seq<Event>)
    requires Possible(f, Initial(sent), es)
    ensures var s := Run(f, Initial(sent), es);
            && (s.quiet.Some? <==> s.mode == Subscribed)
            && (s.timer == Periodic <==> s.mode == Subscribed || s.mode == Steady)
            && s.failures <= MAX_FAILURES && (s.failures == MAX_FAILURES ==> s.mode == Failed)
            && (s.mode == Steady ==> s.erds != {} && s.lastNew + QUIET_PERIOD <= s.now)
  {
    InitialInv(sent);
    RunKeepsInv(f, Initial(sent), es);
  }

  /** No request is ever forgotten. In every run of a subscribing bridge the last request was taken by the client, or
      the timer runs, which it does only after a refusal; when it expires another request is made, and it runs again
      exactly if that one is refused too. */
  lemma RefusedIsRepeated(f: Filter, sent: bool, es: seq<Event>, again: bool)
    requires Possible(f, Initial(sent), es)
    ensures var s := Run(f, Initial(sent), es);
            && Asking(s)
            && (s.timer == Once ==>
                  && Enabled(s, TimerExpired(again))
                  && Step(f, s, TimerExpired(again)).calls == s.calls + [Subscribe(again)]
                  && Step(f, s, TimerExpired(again)).timer == if again then Off else Once)
  {
    InitialInv(sent);
    RunKeepsInv(f, Initial(sent), es);
  }

  function Retentions(calls: seq<Call>): nat {
    if calls == [] then 0 else Retentions(calls[..|calls| - 1]) + (if calls[|calls| - 1] == Retain then 1 else 0)
  }

  /** Expiries of the timer that find the bridge subscribed or steady. */
  ghost function Renewals(f: Filter, s: Sub, es: seq<Event>): nat
    requires Possible(f, s, es)
    decreases |es|
  {
    if es == [] then 0
    else (if es[0].TimerExpired? && (s.mode == Subscribed || s.mode == Steady) then 1 else 0)
         + Renewals(f, Step(f, s, es[0]), es[1..])
  }

  lemma RetentionsOneMore(calls: seq<Call>, c: Call)
    ensures Retentions(calls + [c]) == Retentions(calls) + if c == Retain then 1 else 0
  {
    assert (calls + [c])[..|calls|] == calls;
  }

  lemma StepRetains(f: Filter, s: Sub, e: Event)
    requires Inv(s) && Enabled(s, e)
    ensures Retentions(Step(f, s, e).calls)
         == Retentions(s.calls) + if e.TimerExpired? && (s.mode == Subscribed || s.mode == Steady) then 1 else 0
  {
    hide Retentions;
    forall c | c == Retain || c.Subscribe?
      ensures Retentions(s.calls + [c]) == Retentions(s.calls) + if c == Retain then 1 else 0
    {
      RetentionsOneMore(s.calls, c);
    }
  }

  /** A subscription is renewed with every period of the timer, subscribed or steady, and never otherwise. */
  lemma {:induction false} RenewsEveryPeriod(f: Filter, s: Sub, es: seq<Event>)
    requires Inv(s) && Possible(f, s, es)
    ensures Retentions(Run(f, s, es).calls) == Retentions(s.calls) + Renewals(f, s, es)
    ensures s.mode == Subscribed || s.mode == Steady ==> forall sent :: Enabled(s, TimerExpired(sent))
    decreases |es|
  {
    if es != [] {
      StepKeepsInv(f, s, es[0]);
      StepRetains(f, s, es[0]);
      hide Step, Retentions;
      RenewsEveryPeriod(f, Step(f, s, es[0]), es[1..]);
    }
  }

  /** The quiet timer is due a quiet period after the bridge entered subscribed, and its expiry decides by what has been
      registered alone: steady if anything, failed if nothing. */
  lemma QuietDecides(f: Filter, sent: bool, es: seq<Event>)
    requires Possible(f, Initial(sent), es)
    ensures var s := Run(f, Initial(sent), es);
            s.mode == Subscribed ==>
              && (Enabled(s, QuietExpired) <==> s.now >= s.since + QUIET_PERIOD)
              && (Enabled(s, QuietExpired) ==> Step(f, s, QuietExpired).mode == if s.erds == {} then Failed else Steady)
  {
    InitialInv(sent);
    RunKeepsInv(f, Initial(sent), es);
  }

  /** Steady is entered only by the quiet timer, a full quiet period after the last new ERD. */
  lemma SteadyOnlyAfterQuiet(f: Filter, s: Sub, e: Event)
    requires Inv(s) && Enabled(s, e) && s.mode != Steady && Step(f, s, e).mode == Steady
    ensures e == QuietExpired && s.mode == Subscribed && s.erds != {} && s.lastNew + QUIET_PERIOD <= s.now
  {
  }

  /** Subscribed is entered exactly by a confirmation while subscribing, or by the publication of an ERD that is let
      through and not registered. */
  lemma SubscribedIsEnteredExactly(f: Filter, s: Sub, e: Event)
    requires Inv(s) && Enabled(s, e) && s.mode != Subscribed
    ensures Step(f, s, e).mode == Subscribed <==>
              (e.Confirmed? && s.mode == Subscribing) || (e.Publication? && Passes(f, e.erd) && e.erd !in s.erds)
    ensures Step(f, s, e).mode == Subscribed ==> Step(f, s, e).failures == 0 && Step(f, s, e).since == s.now
  {
  }

  /** A host that came online again is asked again, by a bridge subscribed or steady at once, by one still subscribing
      unless it was the third trouble; a bridge that gave up does not ask. */
  lemma HostRestartAsks(f: Filter, s: Sub, sent: bool)
    requires Inv(s)
    ensures var t := Step(f, s, HostOnline(sent));
            if s.mode == Failed then t == s
            else if s.failures == 2 then t.mode == Failed && t.calls == s.calls
            else t.mode == Subscribing && t.calls == s.calls + [Subscribe(sent)] && t.failures == s.failures + 1
  {
  }

  /** The failed state is not terminal: it is left exactly on a valid publication of an unregistered ERD. */
  lemma FailedIsLeftExactly(f: Filter, s: Sub, e: Event)
    requires Inv(s) && Enabled(s, e) && s.mode == Failed
    ensures Step(f, s, e).mode != Failed <==> e.Publication? && Passes(f, e.erd) && e.erd !in s.erds
    ensures Step(f, s, e).mode != Failed ==> Step(f, s, e).mode == Subscribed
  {
  }

  /** A publication of an ERD that is let through and not registered. */
  predicate IsNew(f: Filter, erds: set<Erd>, e: Event) {
    e.Publication? && Passes(f, e.erd) && e.erd !in erds
  }

  ghost predicate StaysFailed(f: Filter, s: Sub, es: seq<Event>)
    requires Possible(f, s, es)
    decreases |es|
  {
    s.mode == Failed && (es == [] || StaysFailed(f, Step(f, s, es[0]), es[1..]))
  }

  /** Giving up lasts through a run exactly as long as nothing new is published. */
  lemma {:induction false} FailureLastsExactly(f: Filter, s: Sub, es: seq<Event>)
    requires Inv(s) && s.mode == Failed && Possible(f, s, es)
    ensures StaysFailed(f, s, es) <==> forall e | e in es :: !IsNew(f, s.erds, e)
    ensures StaysFailed(f, s, es) ==> Run(f, s, es).erds == s.erds
    decreases |es|
  {
    if es != [] {
      var t := Step(f, s, es[0]);
      FailedIsLeftExactly(f, s, es[0]);
      StepKeepsInv(f, s, es[0]);
      assert es[0] in es && (forall e :: e in es <==> e == es[0] || e in es[1..]);
      if t.mode == Failed {
        assert t.erds == s.erds;
        hide Step, Inv;
        FailureLastsExactly(f, t, es[1..]);
      }
    }
  }

  /** The appliance confirms nothing and publishes nothing that is let through. */
  ghost predicate Silent(f: Filter, es: seq<Event>) {
    forall e | e in es :: !e.Confirmed? && (e.Publication? ==> !Passes(f, e.erd))
  }

  /** Refused subscriptions and host restarts. */
  function Troubles(es: seq<Event>): nat {
    if es == [] then 0 else (if es[0].SubscribeFailed? || es[0].HostOnline? then 1 else 0) + Troubles(es[1..])
  }

  lemma {:induction false} FailedStays(f: Filter, s: Sub, es: seq<Event>)
    requires Inv(s) && s.mode == Failed && Possible(f, s, es) && Silent(f, es)
    ensures Run(f, s, es).mode == Failed
    decreases |es|
  {
    if es != [] {
      assert es[0] in es && forall e | e in es[1..] :: e in es;
      StepKeepsInv(f, s, es[0]);
      FailedStays(f, Step(f, s, es[0]), es[1..]);
    }
  }

  /** While the appliance is silent, subscribing gives up exactly with the third trouble, the entry to the state
      included; retries of requests the client did not take do not count. */
  lemma {:induction false} GivesUpAfterThree(f: Filter, s: Sub, es: seq<Event>)
    requires Inv(s) && s.mode == Subscribing && Possible(f, s, es) && Silent(f, es)
    ensures Run(f, s, es).mode == if s.failures + Troubles(es) >= 3 then Failed else Subscribing
    decreases |es|
  {
    if es != [] {
      assert es[0] in es && forall e | e in es[1..] :: e in es;
      StepKeepsInv(f, s, es[0]);
      var t := Step(f, s, es[0]);
      if t.mode == Failed {
        FailedStays(f, t, es[1..]);
      } else {
        GivesUpAfterThree(f, t, es[1..]);
      }
    }
  }

  /** Registered ERDs always pass the filter, if the filter was set from the start. */
  lemma {:induction false} RegisteredPass(f: Filter, s: Sub, es: seq<Event>)
    requires Possible(f, s, es) && (f.Some? ==> s.erds <= f.value)
    ensures f.Some? ==> Run(f, s, es).erds <= f.value
    decreases |es|
  {
    if es != [] { RegisteredPass(f, Step(f, s, es[0]), es[1..]); }
  }

  /** The ERDs the client reported in a run and the filter let through. */
  ghost function Published(f: Filter, es: seq<Event>): set<Erd> {
    set e | Publication(e) in es && (f.None? || e in f.value)
  }

  ghost function Brought(f: Filter, e: Event): set<Erd> {
    if e.Publication? && Passes(f, e.erd) then {e.erd} else {}
  }

  lemma PublishedFirst(f: Filter, es: seq<Event>)
    requires es != []
    ensures Published(f, es)
         == Brought(f, es[0]) + Published(f, es[1..])
  {
    assert forall e :: e in es <==> e == es[0] || e in es[1..];
  }

  /** One event registers what it publishes, as long as there is room, and forgets nothing but in a host restart. */
  lemma StepRegisters(f: Filter, s: Sub, e: Event)
    requires Enabled(s, e) && !e.HostOnline?
    requires e.Publication? && Passes(f, e.erd) && e.erd !in s.erds ==> |s.erds| < SET_CAPACITY
    ensures Step(f, s, e).erds == s.erds + Brought(f, e)
  {
  }

  lemma NothingPublished(f: Filter)
    ensures Published(f, []) == {}
  {
  }

  lemma RunUnfold(f: Filter, s: Sub, es: seq<Event>)
    requires Possible(f, s, es)
    ensures es == [] ==> Run(f, s, es) == s
    ensures es != [] ==>
              && Enabled(s, es[0]) && Possible(f, Step(f, s, es[0]), es[1..])
              && Run(f, s, es) == Run(f, Step(f, s, es[0]), es[1..])
  {
    hide Enabled, Step;
  }

  lemma UnionAgain(a: set<Erd>, b: set<Erd>, c: set<Erd>)
    ensures a + (b + c) == a + b + c
    ensures a + {} == a
  {
  }

  /** Between host restarts the bridge registers exactly what was published and let through, whatever states
      it passes, if that fits the set: giving up loses nothing. */
  lemma {:induction false} RegisteredAreThePublished(f: Filter, s: Sub, es: seq<Event>)
    requires Possible(f, s, es) && (forall e | e in es :: !e.HostOnline?)
    requires |s.erds + Published(f, es)| <= SET_CAPACITY
    ensures Run(f, s, es).erds == s.erds + Published(f, es)
    decreases |es|
  {
    hide *;
    RunUnfold(f, s, es);
    if es == [] {
      NothingPublished(f);
      UnionAgain(s.erds, {}, {});
    } else {
      assert es[0] in es && forall e | e in es[1..] :: e in es;
      PublishedFirst(f, es);
      FitsBefore(f, s, es);
      StepRegisters(f, s, es[0]);
      UnionAgain(s.erds, Brought(f, es[0]), Published(f, es[1..]));
      RegisteredAreThePublished(f, Step(f, s, es[0]), es[1..]);
    }
  }

  lemma FitsBefore(f: Filter, s: Sub, es: seq<Event>)
    requires es != [] && |s.erds + Published(f, es)| <= SET_CAPACITY
    ensures es[0].Publication? && Passes(f, es[0].erd) && es[0].erd !in s.erds ==> |s.erds| < SET_CAPACITY
  {
    if es[0].Publication? && Passes(f, es[0].erd) && es[0].erd !in s.erds {
      assert es[0] in es;
      assert es[0].erd in Published(f, es);
      SubsetSize(s.erds + {es[0].erd}, s.erds + Published(f, es));
    }
  }

  lemma {:induction false} SubsetSize(a: set<Erd>, b: set<Erd>)
    requires a <= b
    ensures |a| <= |b|
  {
    assert b == a + (b - a);
  }

  lemma {:induction false} RunAppend(f: Filter, s: Sub, a: seq<Event>, b: seq<Event>)
    requires Possible(f, s, a) && Possible(f, Run(f, s, a), b)
    ensures Possible(f, s, a + b) && Run(f, s, a + b) == Run(f, Run(f, s, a), b)
    decreases |a|
  {
    hide Step, Enabled;
    if a == [] {
      assert a + b == b;
    } else {
      assert (a + b)[0] == a[0] && (a + b)[1..] == a[1..] + b;
      RunAppend(f, Step(f, s, a[0]), a[1..], b);
    }
  }

  /** And across a host restart: what was registered before is forgotten exactly if the bridge was still
      subscribing; to what is left is added what is published afterwards. */
  lemma RegisteredSinceRestart(f: Filter, s: Sub, a: seq<Event>, sent: bool, b: seq<Event>)
    requires Possible(f, s, a) && Possible(f, Step(f, Run(f, s, a), HostOnline(sent)), b)
    requires forall e | e in b :: !e.HostOnline?
    requires var kept := if Run(f, s, a).mode == Subscribing then {} else Run(f, s, a).erds;
             |kept + Published(f, b)| <= SET_CAPACITY
    ensures Possible(f, s, a + ([HostOnline(sent)] + b))
    ensures var kept := if Run(f, s, a).mode == Subscribing then {} else Run(f, s, a).erds;
            Run(f, s, a + ([HostOnline(sent)] + b)).erds == kept + Published(f, b)
  {
    var u, es := Run(f, s, a), [HostOnline(sent)] + b;
    assert es[0] == HostOnline(sent) && es[1..] == b;
    assert Possible(f, u, es) && Run(f, u, es) == Run(f, Step(f, u, HostOnline(sent)), b);
    RunAppend(f, s, a, es);
    HostOnlineForgets(f, u, sent);
    hide Step, Enabled, Published;
    RegisteredAreThePublished(f, Step(f, u, HostOnline(sent)), b);
  }

  lemma HostOnlineForgets(f: Filter, s: Sub, sent: bool)
    ensures Step(f, s, HostOnline(sent)).erds == if s.mode == Subscribing then {} else s.erds
  {
  }
}
