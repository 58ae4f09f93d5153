/** The subscription bridge as the firmware runs it: state handlers over one struct that owns an ERD set and
    may point to a registry. Every signal is proved to take exactly one step of the transition system. */
module SubscribeBridges {
  import opened Common
  import opened ErdRegistries
  import opened ErdSets
  import opened SubscribeSpec

  class SubscribeBridge {
    const erdSet: ErdSet
    var registry: ErdRegistry?
    var mode: Mode
    var failures: nat
    var timer: Timer
    var quietDue: Option<nat>
    ghost var model: Sub

    /** What has been asked of the client. */
    ghost var calls: seq<Call>

    ghost predicate Valid()
      reads this, erdSet, erdSet.data, registry, if registry == null then {} else {registry.validErds}
    {
      && erdSet.Valid() && (registry != null ==> registry.Valid() && registry.validErds != erdSet.data)
      && mode == model.mode && failures == model.failures && timer == model.timer && quietDue == model.quiet
      && erdSet.Contents() == model.erds && calls == model.calls
    }

    /** What the registry lets through. */
    ghost function Admits(): Filter
      requires registry != null ==> registry.Valid()
      reads this, registry, if registry == null then {} else {registry.validErds}
    {
      if registry == null || !registry.ready then None else Some(registry.Loaded())
    }

    /** The client accepts the subscribe request or refuses it. */
    method ClientSubscribe() returns (sent: bool)
      modifies this`calls
      ensures calls == old(calls) + [Call.Subscribe(sent)]
    {
      sent := *;
      calls := calls + [Call.Subscribe(sent)];
    }

    /** The return value is ignored. */
    method ClientRetain()
      modifies this`calls
      ensures calls == old(calls) + [Retain]
    {
      calls := calls + [Retain];
    }

    /** Subscribes, or tries again after a delay. */
    method Subscribe() returns (ghost sent: bool)
      requires Valid()
      modifies this`timer, this`model, this`calls
      ensures Valid() && model == TrySubscribe(old(model), sent)
    {
      var accepted := ClientSubscribe();
      sent := accepted;
      if !accepted {
        timer := Once;
      }
      model := TrySubscribe(model, sent);
    }

    /** Exit from whatever state this is, then entry to subscribed. `now` is the clock. */
    method ToSubscribed(now: nat)
      requires Valid() && now == model.now
      modifies this`mode, this`failures, this`timer, this`quietDue, this`model
      ensures Valid() && model == EnterSubscribed(old(model))
    {
      Exit();
      mode, failures := Subscribed, 0;
      timer, quietDue := Periodic, Some(now + QUIET_PERIOD);
      model := EnterSubscribed(model);
    }

    /** The exit handlers: subscribing stops its timer, subscribed only the quiet timer. */
    method Exit()
      requires Valid()
      modifies this`timer, this`quietDue, this`model
      ensures Valid() && model == old(model).(timer := timer, quiet := quietDue)
      ensures timer == if mode == Subscribing then Off else old(timer)
      ensures quietDue == if mode == Subscribed then None else old(quietDue)
    {
      if mode == Subscribing {
        timer := Off;
      } else if mode == Subscribed {
        quietDue := None;
      }
      model := model.(timer := timer, quiet := quietDue);
    }

    method ToSteady()
      requires Valid() && mode == Subscribed
      modifies this`mode, this`timer, this`quietDue, this`model
      ensures Valid() && model == EnterSteady(old(model))
    {
      Exit();
      mode, quietDue := Steady, None;
      model := EnterSteady(model);
    }

    method ToFailed()
      requires Valid()
      modifies this`mode, this`timer, this`quietDue, this`model
      ensures Valid() && model == EnterFailed(old(model))
    {
      Exit();
      mode, timer, quietDue := Failed, Off, None;
      model := EnterFailed(model);
    }

    /** The tail of the subscribing handler: one more failure, then another request unless it was the third. */
    method Retry() returns (ghost sent: bool)
      requires Valid()
      modifies this`mode, this`failures, this`timer, this`quietDue, this`model, this`calls
      ensures Valid() && model == CountFailure(old(model), sent)
    {
      sent := true;
      failures := failures + 1;
      model := model.(failures := failures);
      if failures >= MAX_FAILURES {
        ToFailed();
      } else {
        sent := Subscribe();
      }
    }

    method ToSubscribing() returns (ghost sent: bool)
      requires Valid() && (mode == Subscribing || mode == Subscribed || mode == Steady)
      requires Inv(model)
      modifies this`mode, this`failures, this`timer, this`quietDue, this`model, this`calls
      ensures Valid() && model == EnterSubscribing(old(model), sent)
    {
      if mode != Subscribing {
        Exit();
      }
      timer, mode := Off, Subscribing;
      model := model.(mode := Subscribing, timer := Off, quiet := None);
      sent := Retry();
    }

    /** The registry pointer is cleared: a filter only works if it is set after this. */
    constructor ()
      ensures Valid() && Admits() == None && fresh(erdSet) && fresh(erdSet.data)
      ensures Inv(model) && exists sent :: model == Initial(sent)
    {
      erdSet := new ErdSet();
      registry := null;
      mode, failures, timer, quietDue := Subscribing, 0, Off, None;
      model := Sub(Subscribing, 0, {}, Off, None, 0, 0, 0, []);
      calls := [];
      new;
      ghost var sent := Retry();
      assert model == Initial(sent);
      InitialInv(sent);
    }

    /** From now on the bridge admits what the registry accepts; nothing registered before is looked at again. */
    method SetRegistry(r: ErdRegistry?)
      requires Valid() && (r != null ==> r.Valid() && r.validErds != erdSet.data)
      modifies this`registry
      ensures Valid() && model == old(model)
      ensures forall erd :: Passes(Admits(), erd) <==> r == null || !r.ready || erd in r.Loaded()
    {
      registry := r;
    }

    // ---------------------------------------------------------------- signals

    /** Adds an ERD not registered yet, if there is room. */
    method RegisterErd(erd: Erd)
      requires Valid() && erd !in erdSet.Contents()
      modifies this`model, erdSet, erdSet.data
      ensures Valid() && model == Register(old(model), erd) && model.now == old(model).now
    {
      SizeOfIncreasing(erdSet.data[..erdSet.count]);
      var added := erdSet.Add(erd);
      model := Register(model, erd);
    }

    method OnPublication(erd: Erd, now: nat)
      requires Valid() && Inv(model) && now == model.now
      modifies this`mode, this`failures, this`timer, this`quietDue, this`model, erdSet, erdSet.data
      ensures Valid() && Inv(model) && model == Step(Admits(), old(model), Publication(erd))
    {
      hide Inv, Register, EnterSubscribed;
      StepKeepsInv(Admits(), model, Publication(erd));
      if registry != null {
        var valid := registry.IsValid(erd);
        if !valid {
          return;
        }
      }
      var known := erdSet.Contains(erd);
      if !known {
        RegisterErd(erd);
        ToSubscribed(now);
      }
    }

    method OnConfirmed(now: nat)
      requires Valid() && Inv(model) && now == model.now
      modifies this`mode, this`failures, this`timer, this`quietDue, this`model
      ensures Valid() && Inv(model) && model == Step(Admits(), old(model), Confirmed)
    {
      StepKeepsInv(Admits(), model, Confirmed);
      if mode == Subscribing {
        ToSubscribed(now);
      }
    }

    method OnHostOnline() returns (ghost sent: bool)
      requires Valid() && Inv(model)
      modifies this`mode, this`failures, this`timer, this`quietDue, this`model, erdSet, this`calls
      ensures Valid() && Inv(model) && model == Step(Admits(), old(model), HostOnline(sent))
    {
      sent := true;
      if mode == Subscribing {
        erdSet.Clear();
        model := model.(erds := {});
        timer := Off;
        model := model.(timer := Off);
        sent := Retry();
      } else if mode == Subscribed || mode == Steady {
        sent := ToSubscribing();
      }
      StepKeepsInv(Admits(), old(model), HostOnline(sent));
    }

    method OnSubscribeFailed() returns (ghost sent: bool)
      requires Valid() && Inv(model)
      modifies this`mode, this`failures, this`timer, this`quietDue, this`model, this`calls
      ensures Valid() && Inv(model) && model == Step(Admits(), old(model), SubscribeFailed(sent))
    {
      sent := true;
      if mode == Subscribing {
        sent := Retry();
      }
      StepKeepsInv(Admits(), old(model), SubscribeFailed(sent));
    }

    /** While subscribing the timer repeats the request; otherwise it renews the subscription. */
    method OnTimerExpired() returns (ghost sent: bool)
      requires Valid() && Inv(model) && timer != Off
      modifies this`mode, this`failures, this`timer, this`quietDue, this`model, this`calls
      ensures Valid() && Inv(model) && model == Step(Admits(), old(model), TimerExpired(sent))
    {
      sent := true;
      timer := Fired(timer);
      model := model.(timer := timer);
      if mode == Subscribing {
        sent := Subscribe();
      } else {
        ClientRetain();
        model := model.(calls := calls);
      }
      StepKeepsInv(Admits(), old(model), TimerExpired(sent));
    }

    method OnQuietExpired()
      requires Valid() && Inv(model) && Enabled(model, QuietExpired)
      modifies this`mode, this`failures, this`timer, this`quietDue, this`model
      ensures Valid() && Inv(model) && model == Step(Admits(), old(model), QuietExpired)
    {
      StepKeepsInv(Admits(), model, QuietExpired);
      SizeOfIncreasing(erdSet.data[..erdSet.count]);
      if erdSet.count == 0 {
        ToFailed();
      } else {
        ToSteady();
      }
    }
  }
}
