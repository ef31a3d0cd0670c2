/** The application task and the NUS server as the objects they are: handlers that
    update fields, a timer that is started and stopped, and a bounded queue.  Every
    method is its step of `FunctionButton`, so the rules proved there hold of it. */
module AppTask {
  import opened Bytes
  import opened FunctionButton
  import opened Machine

  class Nus {
    var mIsEnabled: bool
    var mIsAdvertisingEnabled: bool
    ghost var serverStarts: nat
    ghost var advertisingStarts: nat

    constructor ()
      ensures !mIsEnabled && !mIsAdvertisingEnabled && serverStarts == 0 && advertisingStarts == 0
    {
      mIsEnabled, mIsAdvertisingEnabled, serverStarts, advertisingStarts := false, false, 0, 0;
    }

    method StartBLEAdvertising(startFails: bool)
      modifies this
      ensures mIsEnabled == old(mIsEnabled) && serverStarts == old(serverStarts)
      ensures var served := old(mIsEnabled || mIsAdvertisingEnabled);
              && advertisingStarts == old(advertisingStarts) + (if served then 1 else 0)
              && mIsAdvertisingEnabled == (old(mIsAdvertisingEnabled) || (served && !startFails))
    {
      if !mIsEnabled && !mIsAdvertisingEnabled {
        return;
      }
      advertisingStarts := advertisingStarts + 1;
      if !startFails {
        mIsAdvertisingEnabled := true;
      }
    }

    method StartServer(bleAdvertising: bool, startFails: bool)
      modifies this
      ensures mIsEnabled && serverStarts == old(serverStarts) + 1
      ensures var starts := !old(mIsEnabled) && !bleAdvertising;
              && advertisingStarts == old(advertisingStarts) + (if starts then 1 else 0)
              && mIsAdvertisingEnabled == (old(mIsAdvertisingEnabled) || (starts && !startFails))
    {
      serverStarts := serverStarts + 1;
      if !mIsEnabled {
        mIsEnabled := true;
        if !bleAdvertising {
          StartBLEAdvertising(startFails);
        }
      }
    }
  }

  class AppTask {
    var mFunction: int
    var mFunctionTimerActive: bool
    var sAppEventQueue: seq<Event>
    var sFunctionTimer: Option<nat> // the deadline, while armed
    var now: nat
    const nus: Nus

    ghost var updates: nat
    ghost var resets: nat
    ghost var expiries: nat
    ghost var lostExpiries: nat
    ghost var firstPush: Option<nat>

    ghost function S(): App
      reads this, nus
    {
      App(mFunction, mFunctionTimerActive, sAppEventQueue, sFunctionTimer, now,
          nus.mIsEnabled, nus.mIsAdvertisingEnabled,
          updates, resets, expiries, lostExpiries, firstPush, nus.serverStarts, nus.advertisingStarts)
    }

    constructor ()
      ensures S() == INIT && fresh(nus)
    {
      mFunction, mFunctionTimerActive := NONE_SELECTED, false;
      sAppEventQueue, sFunctionTimer, now := [], None, 0;
      updates, resets, expiries, lostExpiries, firstPush := 0, 0, 0, 0, None;
      nus := new Nus();
    }

    // k_msgq_put without waiting: a full queue drops the event.
    method PostEvent(e: Event)
      modifies this`sAppEventQueue
      ensures S() == FunctionButton.PostEvent(old(S()), e)
      ensures sAppEventQueue == old(sAppEventQueue) + if |old(sAppEventQueue)| < 10 then [e] else []
    {
      if |sAppEventQueue| < QUEUE_SIZE {
        sAppEventQueue := sAppEventQueue + [e];
      }
    }

    method CancelTimer()
      modifies this`sFunctionTimer, this`mFunctionTimerActive
      ensures S() == FunctionButton.CancelTimer(old(S()))
    {
      sFunctionTimer := None;
      mFunctionTimerActive := false;
    }

    method StartTimer(timeoutInMs: nat)
      modifies this`sFunctionTimer, this`mFunctionTimerActive
      ensures S() == FunctionButton.StartTimer(old(S()), timeoutInMs)
    {
      sFunctionTimer := Some(now + timeoutInMs);
      mFunctionTimerActive := true;
    }

    // Runs in the timer interrupt, when the one-shot timer has expired.
    method FunctionTimerTimeoutCallback()
      modifies this
      ensures S() == TimeoutCallback(old(S()))
    {
      sFunctionTimer := None;
      expiries := expiries + 1;
      lostExpiries := lostExpiries + if |sAppEventQueue| < QUEUE_SIZE then 0 else 1;
      mFunctionTimerActive := false;
      PostEvent(Timer);
    }

    method FunctionTimerEventHandler()
      modifies this
      ensures S() == TimerEventHandler(old(S()))
    {
      if mFunction == SOFTWARE_UPDATE {
        StartTimer(CANCEL_WINDOW_TIMEOUT);
        mFunction := FACTORY_RESET;
      } else if mFunction == FACTORY_RESET {
        mFunction := NONE_SELECTED;
        resets := resets + 1;
      }
    }

    method FunctionHandler(pushed: bool)
      modifies this
      ensures S() == FunctionButton.FunctionHandler(old(S()), pushed)
    {
      if pushed {
        firstPush := if firstPush.None? then Some(now) else firstPush;
        if !mFunctionTimerActive && mFunction == NONE_SELECTED {
          StartTimer(TRIGGER_TIMEOUT);
          mFunction := SOFTWARE_UPDATE;
        }
      } else {
        if mFunctionTimerActive && mFunction == SOFTWARE_UPDATE {
          CancelTimer();
          mFunction := NONE_SELECTED;
          updates := updates + 1;
        } else if mFunctionTimerActive && mFunction == FACTORY_RESET {
          CancelTimer();
          mFunction := NONE_SELECTED;
        }
      }
    }

    method StartBLENUSHandler(w: World)
      modifies this, nus
      ensures S() == FunctionButton.StartServer(old(S()).(selected := NONE_SELECTED), w)
      ensures mFunction == 0 && sFunctionTimer == old(sFunctionTimer) && nus.mIsEnabled
    {
      mFunction := NONE_SELECTED;
      nus.StartServer(w.bleAdvertising, w.startFails);
    }

    method OnBleDisconnect(bleAdvertising: bool, connections: nat)
      modifies this`sAppEventQueue
      ensures S() == FunctionButton.OnBleDisconnect(old(S()), bleAdvertising, connections)
      ensures var requests := !bleAdvertising && connections == 0 && |old(sAppEventQueue)| < 10;
              sAppEventQueue == old(sAppEventQueue) + if requests then [StartNusAdvertising] else []
    {
      if !bleAdvertising && connections == 0 {
        PostEvent(StartNusAdvertising);
      }
    }

    method NusChipEventHandler(e: ChipEvent, bleAdvertising: bool, connections: nat)
      modifies this`sAppEventQueue
      ensures S() == OnChipEvent(old(S()), e, bleAdvertising, connections)
      ensures var requests := && nus.mIsEnabled && |old(sAppEventQueue)| < 10
                              && ((e == AdvertisingStopped && connections == 0) ||
                                  (e == ConnectionClosed && !bleAdvertising));
              sAppEventQueue == old(sAppEventQueue) + if requests then [StartNusAdvertising] else []
    {
      if !nus.mIsEnabled {
        return;
      }
      match e
      case AdvertisingStopped =>
        if connections == 0 {
          PostEvent(StartNusAdvertising);
        }
      case ConnectionClosed =>
        if !bleAdvertising {
          PostEvent(StartNusAdvertising);
        }
      case OtherChipEvent =>
    }

    // One turn of the loop in StartApp.
    method DispatchEvent(w: World)
      requires sAppEventQueue != []
      modifies this, nus
      ensures S() == Do(old(S()), Dispatch(w))
    {
      var event := sAppEventQueue[0];
      sAppEventQueue := sAppEventQueue[1..];
      match event
      case Pushed => FunctionHandler(true);
      case Released => FunctionHandler(false);
      case Timer => FunctionTimerEventHandler();
      case NusButton => StartBLENUSHandler(w);
      case StartNusAdvertising => nus.StartBLEAdvertising(w.startFails);
      case Other =>
    }

    /** Any interleaving from a state that satisfies the invariants, each step taken if
        it is possible in its turn: the flag is the armed state, a pending reset has a
        timer or an expiry to come unless one was lost, and resets keep to their six
        seconds each. */
    method RunSteps(steps: seq<Step>)
      requires TimerInv(S()) && TimeInv(S()) && NusInv(S())
      modifies this, nus
      ensures S() == Run(Try, old(S()), Taken(Try, old(S()), steps))
      ensures TimerInv(S()) && TimeInv(S()) && NusInv(S())
      ensures mFunctionTimerActive <==> sFunctionTimer.Some?
      ensures mFunction == FACTORY_RESET && lostExpiries == 0 ==> sFunctionTimer.Some? || Timer in sAppEventQueue
      ensures resets > 0 ==> firstPush.Some? && firstPush.value + 6000 * resets <= now
      ensures nus.advertisingStarts > 0 ==> nus.mIsEnabled
    {
      hide Run, CanRun, Taken, Do;
      RunNothing(Try, S());
      TakenNone(Try, S());
      for i := 0 to |steps|
        invariant TimerInv(S()) && TimeInv(S()) && NusInv(S())
        invariant S() == Run(Try, old(S()), Taken(Try, old(S()), steps[..i]))
      {
        TakenThen(Try, old(S()), steps, i);
        if Possible(sAppEventQueue, sFunctionTimer, now, steps[i]) {
          StepKeepsTimerInv(S(), steps[i]);
          StepKeepsTimeInv(S(), steps[i]);
          StepKeepsNusInv(S(), steps[i]);
          TakeStep(steps[i]);
        }
      }
      assert steps[..|steps|] == steps;
    }

    method TakeStep(t: Step)
      requires CanHappen(S(), t)
      modifies this, nus
      ensures S() == Do(old(S()), t)
    {
      match t
      case Wait(ms) => now := now + ms;
      case Expire => FunctionTimerTimeoutCallback();
      case Post(e) => PostEvent(e);
      case BleDisconnect(adv, conns) => OnBleDisconnect(adv, conns);
      case Chip(e, adv, conns) => NusChipEventHandler(e, adv, conns);
      case Dispatch(w) => DispatchEvent(w);
    }
  }
}
