/** The event machine of the Matter light bulb's application task: button and
    timer interrupts post into a bounded queue that drops what does not fit, and
    one dispatcher runs the handlers.  Time is explicit, and every interleaving of
    waiting, expiry, posting and dispatching is a run. */
module FunctionButton {
  import opened Bytes
  import opened Machine

  // `SoftwareUpdate` has the value of `NoneSelected`, so it cannot be told apart from it;
  // `AdvertisingStart` is only ever selected on boards with two buttons.
  const NONE_SELECTED: int := 0
  const SOFTWARE_UPDATE: int := 0
  const FACTORY_RESET: int := 1

  const TRIGGER_TIMEOUT: nat := 3000
  const CANCEL_WINDOW_TIMEOUT: nat := 3000
  const QUEUE_SIZE: nat := 10

  datatype Event = Pushed | Released | Timer | NusButton | StartNusAdvertising | Other

  // What the connectivity manager and the Bluetooth stack answer during one handler.
  datatype World = World(bleAdvertising: bool, startFails: bool)

  datatype App = App(
    selected: int, timerActive: bool, queue: seq<Event>,
    deadline: Option<nat>, now: nat, // the kernel's one-shot timer, and its clock
    nusEnabled: bool, nusAdvertising: bool,
    // what an observer counts; no handler reads these
    updates: nat, resets: nat, expiries: nat, lostExpiries: nat, firstPush: Option<nat>,
    serverStarts: nat, nusStarts: nat)

  const INIT := App(NONE_SELECTED, false, [], None, 0, false, false, 0, 0, 0, 0, None, 0, 0)

  datatype ChipEvent = AdvertisingStopped | ConnectionClosed | OtherChipEvent

  datatype Step =
    | Wait(ms: nat)
    | Expire
    | Post(event: Event)
    | BleDisconnect(bleAdvertising: bool, connections: nat)
    | Chip(what: ChipEvent, bleAdvertising: bool, connections: nat)
    | Dispatch(world: World)

  // ---------------------------------------------------------------------------
  // The handlers
  // ---------------------------------------------------------------------------

  function PostEvent(s: App, e: Event): App {
    if |s.queue| < QUEUE_SIZE then s.(queue := s.queue + [e]) else s
  }

  function StartTimer(s: App, ms: nat): App {
    s.(deadline := Some(s.now + ms), timerActive := true)
  }

  function CancelTimer(s: App): App {
    s.(deadline := None, timerActive := false)
  }

  function TimeoutCallback(s: App): App {
    PostEvent(s.(deadline := None, timerActive := false, expiries := s.expiries + 1,
    lostExpiries := s.lostExpiries + if |s.queue| < QUEUE_SIZE then 0 else 1), Timer)
  }

  function FunctionHandler(s: App, pushed: bool): App {
    if pushed then
      var s1 := s.(firstPush := if s.firstPush.None? then Some(s.now) else s.firstPush);
      if !s.timerActive && s.selected == NONE_SELECTED then
        StartTimer(s1, TRIGGER_TIMEOUT).(selected := SOFTWARE_UPDATE)
      else s1
    else if s.timerActive && s.selected == SOFTWARE_UPDATE then
      CancelTimer(s).(selected := NONE_SELECTED, updates := s.updates + 1)
    else if s.timerActive && s.selected == FACTORY_RESET then
      CancelTimer(s).(selected := NONE_SELECTED)
    else s
  }

  function TimerEventHandler(s: App): App {
    if s.selected == SOFTWARE_UPDATE then
      StartTimer(s, CANCEL_WINDOW_TIMEOUT).(selected := FACTORY_RESET)
    else if s.selected == FACTORY_RESET then
      s.(selected := NONE_SELECTED, resets := s.resets + 1)
    else s
  }

  function StartBleAdvertising(s: App, w: World): App {
    if !s.nusEnabled && !s.nusAdvertising then s
    else s.(nusStarts := s.nusStarts + 1, nusAdvertising := s.nusAdvertising || !w.startFails)
  }

  function StartServer(s: App, w: World): App {
    var s1 := s.(serverStarts := s.serverStarts + 1);
    if s.nusEnabled then s1
    else if w.bleAdvertising then s1.(nusEnabled := true)
    else StartBleAdvertising(s1.(nusEnabled := true), w)
  }

  function Handle(s: App, e: Event, w: World): App {
    match e
    case Pushed => FunctionHandler(s, true)
    case Released => FunctionHandler(s, false)
    case Timer => TimerEventHandler(s)
    case NusButton => StartServer(s.(selected := NONE_SELECTED), w)
    case StartNusAdvertising => StartBleAdvertising(s, w)
    case Other => s
  }

  // The disconnect handler does not ask whether the server is enabled; the platform one does.
  function OnBleDisconnect(s: App, bleAdvertising: bool, connections: nat): App {
    if !bleAdvertising && connections == 0 then PostEvent(s, StartNusAdvertising) else s
  }

  function OnChipEvent(s: App, e: ChipEvent, bleAdvertising: bool, connections: nat): App {
    if !s.nusEnabled then s
    else match e
      case AdvertisingStopped => if connections == 0 then PostEvent(s, StartNusAdvertising) else s
      case ConnectionClosed => if !bleAdvertising then PostEvent(s, StartNusAdvertising) else s
      case OtherChipEvent => s
  }

  // What can happen depends on the queue, the timer and the clock.
  predicate Possible(queue: seq<Event>, deadline: Option<nat>, now: nat, t: Step) {
    match t
    case Expire => deadline.Some? && deadline.value <= now
    case Post(e) => e != Timer
    case Dispatch(_) => queue != []
    case _ => true
  }

  predicate CanHappen(s: App, t: Step) {
    Possible(s.queue, s.deadline, s.now, t)
  }

  function Do(s: App, t: Step): App
    requires CanHappen(s, t)
  {
    match t
    case Wait(ms) => s.(now := s.now + ms)
    case Expire => TimeoutCallback(s)
    case Post(e) => PostEvent(s, e)
    case BleDisconnect(adv, conns) => OnBleDisconnect(s, adv, conns)
    case Chip(e, adv, conns) => OnChipEvent(s, e, adv, conns)
    case Dispatch(w) => Handle(s.(queue := s.queue[1..]), s.queue[0], w)
  }

  // The machine as a step function, for `Machine`.
  function Try(s: App, t: Step): Option<App> {
    if CanHappen(s, t) then Some(Do(s, t)) else None
  }

  function Timers(queue: seq<Event>): nat {
    multiset(queue)[Timer]
  }

  // No handler posts an event, expires the timer or takes back what is counted.
  lemma HandlerCounts(s: App, e: Event, w: World)
    ensures var s' := Handle(s, e, w);
            s'.queue == s.queue && s'.expiries == s.expiries && s'.updates >= s.updates && s'.resets >= s.resets
  {
    match e
    case Pushed =>
    case Released =>
    case Timer =>
    case NusButton =>
    case StartNusAdvertising =>
    case Other =>
  }

  // Ten events may wait, in the order they came; what comes after is dropped.
  lemma TenMayWait(s: App, e: Event)
    ensures PostEvent(s, e) == s.(queue := s.queue + if |s.queue| < 10 then [e] else [])
  {
    assert s.queue + [] == s.queue;
  }

  // ---------------------------------------------------------------------------
  // The flag and the timer
  // ---------------------------------------------------------------------------

  /** `mFunctionTimerActive` is the kernel's armed state; and a pending factory
      reset has a timer to act on it, unless an expiry found the queue full. */
  predicate TimerInv(s: App) {
    && (s.timerActive <==> s.deadline.Some?)
    && |s.queue| <= QUEUE_SIZE
    && s.selected in {NONE_SELECTED, FACTORY_RESET}
    && (s.deadline.Some? ==> s.deadline.value <= s.now + TRIGGER_TIMEOUT)
    && (s.selected == FACTORY_RESET && s.lostExpiries == 0 ==> s.timerActive || Timers(s.queue) > 0)
  }

  lemma PopTimers(queue: seq<Event>)
    requires queue != []
    ensures Timers(queue) == Timers(queue[1..]) + if queue[0] == Timer then 1 else 0
  {
    assert queue == [queue[0]] + queue[1..];
  }

  lemma PushTimers(queue: seq<Event>, e: Event)
    ensures Timers(queue + [e]) == Timers(queue) + if e == Timer then 1 else 0
  {
  }

  lemma HandleKeepsTimerInv(s: App, w: World)
    requires TimerInv(s) && s.queue != []
    ensures TimerInv(Do(s, Dispatch(w)))
  {
    hide Timers;
    PopTimers(s.queue);
    match s.queue[0]
    case Pushed =>
    case Released =>
    case Timer =>
    case NusButton =>
    case StartNusAdvertising =>
    case Other =>
  }

  lemma StepKeepsTimerInv(s: App, t: Step)
    requires TimerInv(s) && CanHappen(s, t)
    ensures TimerInv(Do(s, t))
  {
    hide Timers, Handle;
    match t
    case Wait(_) =>
    case Expire => PushTimers(s.queue, Timer);
    case Post(e) => PushTimers(s.queue, e);
    case BleDisconnect(_, _) => PushTimers(s.queue, StartNusAdvertising);
    case Chip(_, _, _) => PushTimers(s.queue, StartNusAdvertising);
    case Dispatch(w) => HandleKeepsTimerInv(s, w);
  }

  lemma {:induction false} RunKeepsTimerInv(s: App, steps: seq<Step>)
    requires TimerInv(s) && CanRun(Try, s, steps)
    ensures TimerInv(Run(Try, s, steps))
    decreases |steps|
  {
    if steps != [] {
      StepKeepsTimerInv(s, steps[0]);
      RunKeepsTimerInv(Do(s, steps[0]), steps[1..]);
    }
  }

  // ---------------------------------------------------------------------------
  // A factory reset takes six seconds
  // ---------------------------------------------------------------------------

  // Expiries are three seconds apart, and every reset has used up two of them.
  predicate TimeInv(s: App) {
    && 2 * s.resets + (if s.selected == FACTORY_RESET then 1 else 0) + Timers(s.queue) <= s.expiries
    && match s.firstPush
       case None => s.expiries == 0 && s.deadline.None?
       case Some(t) =>
         && t + TRIGGER_TIMEOUT * s.expiries <= s.now
         && (s.deadline.Some? ==> t + TRIGGER_TIMEOUT * (s.expiries + 1) <= s.deadline.value)
  }

  lemma HandleKeepsTimeInv(s: App, w: World)
    requires TimeInv(s) && TimerInv(s) && s.queue != []
    ensures TimeInv(Do(s, Dispatch(w)))
  {
    hide Timers;
    PopTimers(s.queue);
    match s.queue[0]
    case Pushed =>
    case Released =>
    case Timer =>
    case NusButton =>
    case StartNusAdvertising =>
    case Other =>
  }

  lemma StepKeepsTimeInv(s: App, t: Step)
    requires TimeInv(s) && TimerInv(s) && CanHappen(s, t)
    ensures TimeInv(Do(s, t))
  {
    hide Timers, Handle;
    match t
    case Wait(_) =>
    case Expire => PushTimers(s.queue, Timer);
    case Post(e) => PushTimers(s.queue, e);
    case BleDisconnect(_, _) => PushTimers(s.queue, StartNusAdvertising);
    case Chip(_, _, _) => PushTimers(s.queue, StartNusAdvertising);
    case Dispatch(w) => HandleKeepsTimeInv(s, w);
  }

  lemma {:induction false} RunKeepsTimeInv(s: App, steps: seq<Step>)
    requires TimeInv(s) && TimerInv(s) && CanRun(Try, s, steps)
    ensures TimeInv(Run(Try, s, steps))
    decreases |steps|
  {
    if steps != [] {
      StepKeepsTimeInv(s, steps[0]);
      StepKeepsTimerInv(s, steps[0]);
      RunKeepsTimeInv(Do(s, steps[0]), steps[1..]);
    }
  }

  /** Whatever the queue delays, whatever is dropped and whenever the NUS button is
      used: n factory resets need 6000 n milliseconds from the first dispatched push. */
  lemma ResetsTakeTime(steps: seq<Step>)
    requires CanRun(Try, INIT, steps)
    ensures var s := Run(Try, INIT, steps);
            s.resets > 0 ==> s.firstPush.Some? && s.firstPush.value + 6000 * s.resets <= s.now
  {
    RunKeepsTimeInv(INIT, steps);
  }

  // ---------------------------------------------------------------------------
  // When the function button acts
  // ---------------------------------------------------------------------------

  /** A push acts only on a device with no timer running and nothing selected, and then
      starts three seconds; it selects nothing that could be told from that. */
  lemma PushActsExactlyWhen(s: App, w: World)
    requires s.queue != [] && s.queue[0] == Pushed
    ensures var s', acts := Do(s, Dispatch(w)), !s.timerActive && s.selected == 0;
            && s'.deadline == (if acts then Some(s.now + 3000) else s.deadline) && s'.selected == s.selected
            && (s'.timerActive <==> s.timerActive || acts) && s'.updates == s.updates && s'.resets == s.resets
  {
  }

  /** A release acts only while a timer runs: it stops it and clears the selection, and
      starts an update exactly if the trigger time was running, not the cancel window. */
  lemma ReleaseActsExactlyWhen(s: App, w: World)
    requires TimerInv(s) && s.queue != [] && s.queue[0] == Released
    ensures var s' := Do(s, Dispatch(w));
            && s'.deadline == None && !s'.timerActive && s'.resets == s.resets
            && s'.selected == (if s.timerActive then 0 else s.selected)
            && s'.updates == s.updates + if s.timerActive && s.selected == 0 then 1 else 0
  {
  }

  /** An expiry acts whenever it is handled, also late and also while a timer runs again:
      it opens a cancel window of three seconds, or ends it in a reset. */
  lemma ExpiryActs(s: App, w: World)
    requires TimerInv(s) && s.queue != [] && s.queue[0] == Timer
    ensures var s', opens := Do(s, Dispatch(w)), s.selected == 0;
            && s'.selected == (if opens then FACTORY_RESET else 0) && s'.updates == s.updates
            && s'.deadline == (if opens then Some(s.now + 3000) else s.deadline)
            && (s'.timerActive <==> s.timerActive || opens) && s'.resets == s.resets + if opens then 0 else 1
  {
  }

  // No event of these kinds is handled on the way; anything may be posted.
  predicate NoneHandled(s: App, steps: seq<Step>, kinds: set<Event>)
    requires CanRun(Try, s, steps)
    decreases |steps|
  {
    steps != [] ==>
      && (steps[0].Dispatch? ==> s.queue[0] !in kinds)
      && NoneHandled(Do(s, steps[0]), steps[1..], kinds)
  }

  predicate NoExpiry(steps: seq<Step>) {
    forall i | 0 <= i < |steps| :: !steps[i].Expire?
  }

  lemma StepKeepsDeadline(s: App, t: Step)
    requires s.timerActive && CanHappen(s, t) && !t.Expire?
    requires t.Dispatch? ==> s.queue[0] !in {Released, Timer}
    ensures Do(s, t).deadline == s.deadline && Do(s, t).timerActive
  {
  }

  // Pushing again, or anything else but a release, does not move the deadline of a running timer.
  lemma {:induction false} DeadlineStays(s: App, steps: seq<Step>)
    requires s.timerActive && CanRun(Try, s, steps) && NoExpiry(steps)
    requires NoneHandled(s, steps, {Released, Timer})
    ensures Run(Try, s, steps).deadline == s.deadline && Run(Try, s, steps).timerActive
    decreases |steps|
  {
    hide Do, CanHappen;
    if steps != [] {
      assert NoExpiry(steps[1..]) && !steps[0].Expire?;
      StepKeepsDeadline(s, steps[0]);
      DeadlineStays(Do(s, steps[0]), steps[1..]);
    }
  }

  // ---------------------------------------------------------------------------
  // A lost expiry
  // ---------------------------------------------------------------------------

  // A factory reset is selected and nothing is left that could carry it out.
  predicate Stuck(s: App) {
    s.selected == FACTORY_RESET && s.deadline.None? && !s.timerActive && Timer !in s.queue
  }

  predicate NoNusButton(steps: seq<Step>) {
    forall i | 0 <= i < |steps| :: steps[i] != Post(NusButton)
  }

  // Nothing but a lost expiry leads there.
  lemma StuckNeedsLostExpiry(steps: seq<Step>)
    requires CanRun(Try, INIT, steps) && Stuck(Run(Try, INIT, steps))
    ensures Run(Try, INIT, steps).lostExpiries > 0
  {
    RunKeepsTimerInv(INIT, steps);
  }

  // And exactly one step leads there: the cancel window runs out while the queue is
  // full of events none of which is an earlier expiry.
  lemma SticksExactlyWhen(s: App, t: Step)
    requires TimerInv(s) && !Stuck(s) && CanHappen(s, t)
    ensures Stuck(Do(s, t)) <==>
            t.Expire? && s.selected == FACTORY_RESET && |s.queue| == QUEUE_SIZE && Timer !in s.queue
  {
    if t.Dispatch? {
      assert s.queue == [s.queue[0]] + s.queue[1..];
    }
  }

  lemma StepKeepsStuck(s: App, t: Step)
    requires Stuck(s) && NusButton !in s.queue && t != Post(NusButton) && CanHappen(s, t)
    ensures var s' := Do(s, t);
            Stuck(s') && NusButton !in s'.queue && s'.resets == s.resets && s'.updates == s.updates
  {
  }

  /** From there the function button is dead: without the NUS button no sequence
      of events starts an update, schedules a reset or leaves the state. */
  lemma {:induction false} StuckForGood(s: App, steps: seq<Step>)
    requires Stuck(s) && NusButton !in s.queue && NoNusButton(steps) && CanRun(Try, s, steps)
    ensures var s' := Run(Try, s, steps); Stuck(s') && s'.resets == s.resets && s'.updates == s.updates
    decreases |steps|
  {
    hide Do, CanHappen, Stuck;
    if steps != [] {
      assert steps[0] != Post(NusButton);
      assert NoNusButton(steps[1..]);
      StepKeepsStuck(s, steps[0]);
      StuckForGood(Do(s, steps[0]), steps[1..]);
    }
  }

  // A press held past the trigger time, whose cancel window runs out on a full queue.
  const HELD_ON_FULL_QUEUE: seq<Step> := [
    Post(Pushed), Dispatch(QUIET), Wait(3000), Expire, Dispatch(QUIET),
    Post(Other), Post(Other), Post(Other), Post(Other), Post(Other),
    Post(Other), Post(Other), Post(Other), Post(Other), Post(Other),
    Wait(3000), Expire]

  const QUIET := World(false, false)

  // The timer runs, since a push at time zero.
  const HELD := INIT.(timerActive := true, deadline := Some(3000), firstPush := Some(0))

  // Any run that begins with a push.
  lemma BeginsWithPush(run: seq<Step>)
    requires |run| > 1 && run[0] == Post(Pushed) && run[1] == Dispatch(QUIET)
    ensures CanRun(Try, INIT, run[..2]) && Run(Try, INIT, run[..2]) == HELD
  {
    hide Run, CanRun;
    assert run[..0] == [];
    RunNothing(Try, INIT);
    RunTo(Try, INIT, run, 0);
    RunTo(Try, INIT, run, 1);
  }

  // Any run that goes on to hold the button until the cancel window is open.
  lemma HeldPastTrigger(run: seq<Step>)
    requires |run| > 4 && run[0] == Post(Pushed) && run[1] == Dispatch(QUIET)
    requires run[2] == Wait(3000) && run[3] == Expire && run[4] == Dispatch(QUIET)
    ensures CanRun(Try, INIT, run[..5])
    ensures Run(Try, INIT, run[..5]) ==
            HELD.(selected := FACTORY_RESET, deadline := Some(6000), now := 3000, expiries := 1)
  {
    hide Run, CanRun;
    BeginsWithPush(run);
    RunTo(Try, INIT, run, 2);
    RunTo(Try, INIT, run, 3);
    RunTo(Try, INIT, run, 4);
  }

  // Five events more.
  lemma HalfFilled()
    ensures CanRun(Try, INIT, HELD_ON_FULL_QUEUE[..10])
    ensures Run(Try, INIT, HELD_ON_FULL_QUEUE[..10]) ==
            HELD.(selected := FACTORY_RESET, deadline := Some(6000), now := 3000, expiries := 1,
            queue := [Other, Other, Other, Other, Other])
  {
    hide Run, CanRun, Handle;
    var l := HELD_ON_FULL_QUEUE;
    HeldPastTrigger(l);
    RunTo(Try, INIT, l, 5);
    RunTo(Try, INIT, l, 6);
    RunTo(Try, INIT, l, 7);
    RunTo(Try, INIT, l, 8);
    RunTo(Try, INIT, l, 9);
  }

  /** The run that gets stuck: the button is still held, and neither reset nor update follows. */
  lemma FullQueueSticks()
    ensures CanRun(Try, INIT, HELD_ON_FULL_QUEUE)
    ensures Stuck(Run(Try, INIT, HELD_ON_FULL_QUEUE)) && NusButton !in Run(Try, INIT, HELD_ON_FULL_QUEUE).queue
  {
    hide Run, CanRun;
    HalfFilled();
    var l := HELD_ON_FULL_QUEUE;
    RunTo(Try, INIT, l, 10);
    RunTo(Try, INIT, l, 11);
    RunTo(Try, INIT, l, 12);
    RunTo(Try, INIT, l, 13);
    RunTo(Try, INIT, l, 14);
    RunTo(Try, INIT, l, 15);
    RunTo(Try, INIT, l, 16);
    assert l[..17] == l;
  }

  // Steps that handle all that is queued.
  lemma DrainSteps(s: App) returns (steps: seq<Step>)
    requires TimerInv(s) && !Stuck(s)
    ensures CanRun(Try, s, steps) && NoNusButton(steps)
    ensures var s' := Run(Try, s, steps);
            TimerInv(s') && !Stuck(s') && s'.queue == [] && s'.updates >= s.updates && s'.resets >= s.resets
    decreases |s.queue|
  {
    hide Handle, TimerInv, Stuck;
    steps := [];
    if s.queue != [] {
      var t := Dispatch(QUIET);
      HandlerCounts(s.(queue := s.queue[1..]), s.queue[0], QUIET);
      StepKeepsTimerInv(s, t);
      SticksExactlyWhen(s, t);
      var later := DrainSteps(Do(s, t));
      steps := [t] + later;
      assert steps[1..] == later;
    }
  }

  // Steps in which the timer runs out and its event is handled.
  lemma ExpirySteps(s: App) returns (steps: seq<Step>)
    requires s.queue == [] && s.deadline.Some? && s.selected in {NONE_SELECTED, FACTORY_RESET}
    ensures CanRun(Try, s, steps) && NoNusButton(steps)
    ensures var s' := Run(Try, s, steps);
            && s'.queue == [] && s'.updates == s.updates
            && if s.selected == FACTORY_RESET then s'.resets == s.resets + 1
               else s'.resets == s.resets && s'.selected == FACTORY_RESET && s'.deadline.Some?
  {
    hide Run, CanRun;
    steps := [Wait(if s.now < s.deadline.value then s.deadline.value - s.now else 0), Expire, Dispatch(QUIET)];
    assert steps[..0] == [] && steps[..3] == steps;
    RunNothing(Try, s);
    RunTo(Try, s, steps, 0);
    RunTo(Try, s, steps, 1);
    RunTo(Try, s, steps, 2);
  }

  // Steps that push and release the button of an idle device.
  lemma PressSteps(s: App) returns (steps: seq<Step>)
    requires s.queue == [] && s.selected == NONE_SELECTED && !s.timerActive
    ensures CanRun(Try, s, steps) && NoNusButton(steps)
    ensures Run(Try, s, steps).updates == s.updates + 1 && Run(Try, s, steps).resets == s.resets
  {
    hide Run, CanRun;
    steps := [Post(Pushed), Dispatch(QUIET), Post(Released), Dispatch(QUIET)];
    assert steps[..0] == [] && steps[..4] == steps;
    RunNothing(Try, s);
    RunTo(Try, s, steps, 0);
    RunTo(Try, s, steps, 1);
    RunTo(Try, s, steps, 2);
    RunTo(Try, s, steps, 3);
  }

  // From any other state the function button still works, without the NUS button.
  lemma StillWorks(s: App) returns (steps: seq<Step>)
    requires TimerInv(s) && !Stuck(s)
    ensures CanRun(Try, s, steps) && NoNusButton(steps)
    ensures Run(Try, s, steps).updates + Run(Try, s, steps).resets > s.updates + s.resets
  {
    hide Run, CanRun;
    steps := DrainSteps(s);
    var s1 := Run(Try, s, steps);
    var more: seq<Step>;
    if s1.deadline.Some? {
      more := ExpirySteps(s1);
      if s1.selected == NONE_SELECTED {
        var s2 := Run(Try, s1, more);
        var last := ExpirySteps(s2);
        RunConcat(Try, s1, more, last);
        more := more + last;
      }
    } else {
      more := PressSteps(s1);
    }
    RunConcat(Try, s, steps, more);
    steps := steps + more;
  }

  /** That is what being stuck means: as long as the NUS button is not used, no run
      ever starts an update or schedules a reset. */
  lemma StuckMeansDead(s: App)
    requires TimerInv(s) && NusButton !in s.queue
    ensures Stuck(s) <==>
            forall steps | CanRun(Try, s, steps) && NoNusButton(steps) ::
              Run(Try, s, steps).updates == s.updates && Run(Try, s, steps).resets == s.resets
  {
    if Stuck(s) {
      forall steps | CanRun(Try, s, steps) && NoNusButton(steps)
        ensures Run(Try, s, steps).updates == s.updates && Run(Try, s, steps).resets == s.resets
      {
        StuckForGood(s, steps);
      }
    } else {
      var steps := StillWorks(s);
    }
  }

  /** The NUS button frees a stuck function button: handling it clears the selected
      function, leaves the timer and the counts as they are, and afterwards the function
      button works again. */
  lemma NusFreesButton(s: App, w: World)
    requires TimerInv(s) && s.queue != [] && s.queue[0] == NusButton
    ensures var s' := Do(s, Dispatch(w));
            && s'.selected == NONE_SELECTED && s'.deadline == s.deadline && s'.timerActive == s.timerActive
            && s'.updates == s.updates && s'.resets == s.resets && s'.queue == s.queue[1..] && !Stuck(s')
            && exists steps | CanRun(Try, s', steps) && NoNusButton(steps) ::
                 Run(Try, s', steps).updates + Run(Try, s', steps).resets > s'.updates + s'.resets
  {
    hide CanRun, Run, TimerInv;
    StepKeepsTimerInv(s, Dispatch(w));
    var steps := StillWorks(Do(s, Dispatch(w)));
  }

  // ---------------------------------------------------------------------------
  // After a release
  // ---------------------------------------------------------------------------

  // No timer, no expiry to be handled, and no push to be handled.
  predicate Disarmed(s: App) {
    s.deadline.None? && !s.timerActive && Timer !in s.queue && Pushed !in s.queue
  }

  predicate NoPush(steps: seq<Step>) {
    forall i | 0 <= i < |steps| :: steps[i] != Post(Pushed)
  }

  // Handling a release always leaves the timer stopped.
  lemma ReleaseStopsTimer(s: App, w: World)
    requires TimerInv(s) && s.queue != [] && s.queue[0] == Released
    ensures var s' := Do(s, Dispatch(w)); s'.deadline.None? && !s'.timerActive && s'.resets == s.resets
  {
  }

  lemma StepKeepsDisarmed(s: App, t: Step)
    requires Disarmed(s) && t != Post(Pushed) && CanHappen(s, t)
    ensures Disarmed(Do(s, t)) && Do(s, t).resets == s.resets
  {
  }

  /** With no expiry waiting in the queue, nothing that can happen before the next
      push arms the timer or schedules a reset; NUS events may come anywhere. */
  lemma {:induction false} NoResetUntilNextPush(s: App, steps: seq<Step>)
    requires Disarmed(s) && NoPush(steps) && CanRun(Try, s, steps)
    ensures Disarmed(Run(Try, s, steps)) && Run(Try, s, steps).resets == s.resets
    decreases |steps|
  {
    hide Do, CanHappen, Disarmed;
    if steps != [] {
      assert steps[0] != Post(Pushed);
      assert NoPush(steps[1..]);
      StepKeepsDisarmed(s, steps[0]);
      NoResetUntilNextPush(Do(s, steps[0]), steps[1..]);
    }
  }

  /** With the queue drained between inputs a release is final: no factory reset is
      scheduled before the next push, whatever else happens. */
  lemma DrainedReleaseIsFinal(s: App, w: World, steps: seq<Step>)
    requires TimerInv(s) && s.queue == [Released]
    requires NoPush(steps) && CanRun(Try, Do(s, Dispatch(w)), steps)
    ensures Run(Try, Do(s, Dispatch(w)), steps).resets == s.resets
  {
    ReleaseStopsTimer(s, w);
    NoResetUntilNextPush(Do(s, Dispatch(w)), steps);
  }

  predicate NoFunctionButton(queue: seq<Event>) {
    Pushed !in queue && Released !in queue
  }

  // The dispatcher works off what is queued.
  function Drain(s: App, w: World): App
    decreases |s.queue|
  {
    if s.queue == [] then s
    else
      var s1 := Do(s, Dispatch(w));
      assert |s1.queue| < |s.queue|;
      Drain(s1, w)
  }

  // Time passes with the queue drained at once: every expiry on its deadline, handled there.
  function Pass(s: App, ms: nat, w: World): App
    decreases ms, if s.deadline.Some? && s.deadline.value <= s.now then 1 else 0
  {
    if s.deadline.Some? && s.deadline.value <= s.now + ms && s.queue == [] then
      var gap := if s.now < s.deadline.value then s.deadline.value - s.now else 0;
      var s1 := Do(Do(Do(s, Wait(gap)), Expire), Dispatch(w));
      Pass(s1, ms - gap, w)
    else Do(s, Wait(ms))
  }

  // Something is under way that ends in a reset unless the button is used.
  predicate UnderWay(s: App) {
    s.deadline.Some? || Timer in s.queue
  }

  predicate NotOverdue(s: App) {
    s.deadline.Some? ==> s.now <= s.deadline.value
  }

  lemma HandlingKeepsUnderWay(s: App, w: World)
    requires TimerInv(s) && NoFunctionButton(s.queue) && s.queue != [] && NotOverdue(s)
    ensures var s' := Do(s, Dispatch(w));
            && TimerInv(s') && NoFunctionButton(s'.queue) && NotOverdue(s') && |s'.queue| < |s.queue|
            && s'.resets >= s.resets
            && (UnderWay(s) ==> s'.resets > s.resets || UnderWay(s'))
            && (!UnderWay(s) ==> s'.resets == s.resets && !UnderWay(s'))
  {
    hide Timers;
    HandleKeepsTimerInv(s, w);
    assert s.queue == [s.queue[0]] + s.queue[1..];
    match s.queue[0]
    case Timer =>
    case NusButton =>
    case StartNusAdvertising =>
    case Other =>
  }

  lemma {:induction false} DrainKeepsUnderWay(s: App, w: World)
    requires TimerInv(s) && NoFunctionButton(s.queue) && NotOverdue(s)
    ensures var s' := Drain(s, w);
            && TimerInv(s') && s'.queue == [] && NotOverdue(s') && s'.resets >= s.resets
            && (UnderWay(s) ==> s'.resets > s.resets || s'.deadline.Some?)
            && (!UnderWay(s) ==> s'.resets == s.resets && s'.deadline.None?)
    decreases |s.queue|
  {
    hide Do, TimerInv, NoFunctionButton, NotOverdue;
    if s.queue != [] {
      HandlingKeepsUnderWay(s, w);
      DrainKeepsUnderWay(Do(s, Dispatch(w)), w);
    }
  }

  // The one-shot timer runs out on its deadline and its event is handled at once.
  function AfterExpiry(s: App): App
    requires s.deadline.Some?
  {
    var t := s.(now := s.deadline.value, expiries := s.expiries + 1);
    if s.selected == FACTORY_RESET then
      t.(selected := NONE_SELECTED, timerActive := false, deadline := None, resets := s.resets + 1)
    else
      t.(selected := FACTORY_RESET, timerActive := true, deadline := Some(s.deadline.value + CANCEL_WINDOW_TIMEOUT))
  }

  lemma PassesExpiry(s: App, ms: nat, w: World)
    requires s.queue == [] && s.selected in {NONE_SELECTED, FACTORY_RESET}
    requires s.deadline.Some? && s.now <= s.deadline.value <= s.now + ms
    ensures Pass(s, ms, w) == Pass(AfterExpiry(s), ms - (s.deadline.value - s.now), w)
  {
    var s1 := Do(Do(s, Wait(s.deadline.value - s.now)), Expire);
    assert s1.queue == [Timer] && s1.queue[1..] == [];
    assert Do(s1, Dispatch(w)) == AfterExpiry(s);
  }

  lemma PassesQuietly(s: App, ms: nat, w: World)
    requires s.queue == [] && (s.deadline.Some? ==> s.now + ms < s.deadline.value)
    ensures Pass(s, ms, w) == s.(now := s.now + ms)
  {
  }

  // An armed timer left alone for six seconds resets exactly once, from either function.
  lemma ArmedTimerResets(s: App, w: World)
    requires TimerInv(s) && s.queue == [] && s.deadline.Some? && s.now <= s.deadline.value
    ensures Pass(s, 6000, w).resets == s.resets + 1
  {
    hide Pass, Do;
    var left := 6000 - (s.deadline.value - s.now);
    var s1 := AfterExpiry(s);
    PassesExpiry(s, 6000, w);
    if s1.deadline.Some? {
      PassesExpiry(s1, left, w);
      PassesQuietly(AfterExpiry(s1), left - 3000, w);
    } else {
      PassesQuietly(s1, left, w);
    }
  }

  /** Exactly when a release fails to prevent a reset.  Take the moment a release is
      handled, with no further press behind it but NUS events anywhere, and leave the
      function button alone: a factory reset is scheduled within six seconds iff an
      expiry was waiting behind the release. */
  lemma ResetFollowsReleaseExactlyWhen(s: App, w: World)
    requires TimerInv(s) && s.queue != [] && s.queue[0] == Released && NoFunctionButton(s.queue[1..])
    ensures Pass(Drain(Do(s, Dispatch(w)), w), 6000, w).resets > s.resets <==> Timer in s.queue[1..]
  {
    var s1 := Do(s, Dispatch(w));
    HandleKeepsTimerInv(s, w);
    DrainKeepsUnderWay(s1, w);
    var s2 := Drain(s1, w);
    if s2.deadline.Some? {
      ArmedTimerResets(s2, w);
    }
  }

  // The whole of a press of 2999 ms whose release is handled a millisecond late.
  const SHORT_PRESS_LATE_RELEASE: seq<Step> := [
    Post(Pushed), Dispatch(QUIET), Wait(2999), Post(Released), Wait(1), Expire,
    Dispatch(QUIET), Dispatch(QUIET),
    Wait(3000), Expire, Dispatch(QUIET)]

  // Its first half: the button is released in time, and the timer runs out.
  lemma ReleasedInTime()
    ensures CanRun(Try, INIT, SHORT_PRESS_LATE_RELEASE[..6])
    ensures Run(Try, INIT, SHORT_PRESS_LATE_RELEASE[..6]) ==
            INIT.(queue := [Released, Timer], now := 3000, expiries := 1, firstPush := Some(0))
  {
    hide Run, CanRun;
    var l := SHORT_PRESS_LATE_RELEASE;
    BeginsWithPush(l);
    RunTo(Try, INIT, l, 2);
    RunTo(Try, INIT, l, 3);
    RunTo(Try, INIT, l, 4);
    RunTo(Try, INIT, l, 5);
  }

  /** A concrete run: the button is held for less than the trigger time and then
      left alone, and the device resets instead of starting a software update. */
  lemma ShortPressCanReset()
    ensures CanRun(Try, INIT, SHORT_PRESS_LATE_RELEASE)
    ensures var s := Run(Try, INIT, SHORT_PRESS_LATE_RELEASE); s.resets == 1 && s.updates == 0
  {
    hide Run, CanRun;
    ReleasedInTime();
    var l := SHORT_PRESS_LATE_RELEASE;
    RunTo(Try, INIT, l, 6);
    RunTo(Try, INIT, l, 7);
    RunTo(Try, INIT, l, 8);
    RunTo(Try, INIT, l, 9);
    RunTo(Try, INIT, l, 10);
    assert l[..11] == l;
  }

  // ---------------------------------------------------------------------------
  // A press and its release, under any delay
  // ---------------------------------------------------------------------------

  // An update that is due is called off when the timer runs out, and becomes due again
  // when a NUS event is handled while the timer runs: it clears the selected function.
  function DueAfter(s: App, t: Step, due: bool): bool
    requires CanHappen(s, t)
  {
    match t
    case Expire => false
    case Dispatch(_) => due || (s.queue[0] == NusButton && s.timerActive)
    case _ => due
  }

  function StillDue(s: App, steps: seq<Step>, due: bool): bool
    requires CanRun(Try, s, steps)
    decreases |steps|
  {
    if steps == [] then due else StillDue(Do(s, steps[0]), steps[1..], DueAfter(s, steps[0], due))
  }

  // Between the handling of a push and of its release, with u updates started before.
  predicate Pressed(s: App, due: bool, u: nat) {
    && s.updates == u && (s.timerActive <==> s.deadline.Some?)
    && (due <==> s.timerActive && s.selected == NONE_SELECTED)
    && Timers(s.queue) + (if s.timerActive then 1 else 0) <= 1
  }

  lemma HandlingKeepsPressed(s: App, w: World, due: bool, u: nat)
    requires Pressed(s, due, u) && s.queue != [] && s.queue[0] !in {Pushed, Released}
    ensures Pressed(Do(s, Dispatch(w)), DueAfter(s, Dispatch(w), due), u)
  {
    hide Timers;
    PopTimers(s.queue);
  }

  lemma StepKeepsPressed(s: App, t: Step, due: bool, u: nat)
    requires Pressed(s, due, u) && CanHappen(s, t)
    requires t.Dispatch? ==> s.queue[0] !in {Pushed, Released}
    ensures Pressed(Do(s, t), DueAfter(s, t, due), u)
  {
    hide Timers, Handle;
    match t
    case Wait(_) =>
    case Expire => PushTimers(s.queue, Timer);
    case Post(e) => PushTimers(s.queue, e);
    case BleDisconnect(_, _) => PushTimers(s.queue, StartNusAdvertising);
    case Chip(_, _, _) => PushTimers(s.queue, StartNusAdvertising);
    case Dispatch(w) => HandlingKeepsPressed(s, w, due, u);
  }

  lemma {:induction false} RunKeepsPressed(s: App, steps: seq<Step>, due: bool, u: nat)
    requires Pressed(s, due, u) && CanRun(Try, s, steps) && NoneHandled(s, steps, {Pushed, Released})
    ensures Pressed(Run(Try, s, steps), StillDue(s, steps, due), u)
    decreases |steps|
  {
    hide Do, CanHappen, Pressed, DueAfter;
    if steps != [] {
      StepKeepsPressed(s, steps[0], due, u);
      RunKeepsPressed(Do(s, steps[0]), steps[1..], DueAfter(s, steps[0], due), u);
    }
  }

  /** Exactly when a press starts a software update, under any delay.  From the
      handling of a push on an idle device, through any run in which no further
      event of this button is handled, to the handling of the release: one update is
      started if the timer has not run out since the push, or not since a NUS event
      that was handled while it ran; and none otherwise. */
  lemma PressUpdatesExactlyWhen(s: App, w: World, steps: seq<Step>, w': World)
    requires s.selected == NONE_SELECTED && !s.timerActive && s.deadline.None? && Timers(s.queue) == 0
    requires s.queue != [] && s.queue[0] == Pushed
    requires var s1 := Do(s, Dispatch(w));
             && CanRun(Try, s1, steps) && NoneHandled(s1, steps, {Pushed, Released})
             && Run(Try, s1, steps).queue != [] && Run(Try, s1, steps).queue[0] == Released
    ensures var s1 := Do(s, Dispatch(w));
            Do(Run(Try, s1, steps), Dispatch(w')).updates == s.updates + if StillDue(s1, steps, true) then 1 else 0
  {
    PopTimers(s.queue);
    RunKeepsPressed(Do(s, Dispatch(w)), steps, true, s.updates);
  }

  lemma StepExpires(s: App, t: Step)
    requires CanHappen(s, t)
    ensures Do(s, t).expiries == s.expiries + if t.Expire? then 1 else 0
  {
    hide Handle;
    if t.Dispatch? {
      HandlerCounts(s.(queue := s.queue[1..]), s.queue[0], t.world);
    }
  }

  // With no NUS event handled on the way, an update is due as long as the timer has not run out.
  lemma {:induction false} DueWithoutNus(s: App, steps: seq<Step>, due: bool)
    requires CanRun(Try, s, steps) && NoneHandled(s, steps, {NusButton})
    ensures s.expiries <= Run(Try, s, steps).expiries
    ensures StillDue(s, steps, due) <==> due && Run(Try, s, steps).expiries == s.expiries
    decreases |steps|
  {
    hide Do, CanHappen;
    if steps != [] {
      StepExpires(s, steps[0]);
      DueWithoutNus(Do(s, steps[0]), steps[1..], DueAfter(s, steps[0], due));
    }
  }

  // The whole of a press of 3500 ms, with the NUS button pressed in the cancel window.
  const LONG_PRESS_WITH_NUS: seq<Step> := [
    Post(Pushed), Dispatch(QUIET), Wait(3000), Expire, Dispatch(QUIET),
    Post(NusButton), Dispatch(QUIET), Wait(500), Post(Released), Dispatch(QUIET)]

  /** A concrete run with the queue drained: held past the trigger time, and the
      device starts a software update all the same. */
  lemma LongPressCanUpdate()
    ensures CanRun(Try, INIT, LONG_PRESS_WITH_NUS)
    ensures var s := Run(Try, INIT, LONG_PRESS_WITH_NUS); s.updates == 1 && s.expiries == 1 && s.now == 3500
  {
    hide Run, CanRun;
    var l := LONG_PRESS_WITH_NUS;
    HeldPastTrigger(l);
    RunTo(Try, INIT, l, 5);
    RunTo(Try, INIT, l, 6);
    RunTo(Try, INIT, l, 7);
    RunTo(Try, INIT, l, 8);
    RunTo(Try, INIT, l, 9);
    assert l[..10] == l;
  }

  // ---------------------------------------------------------------------------
  // Drained between inputs: the duration rule
  // ---------------------------------------------------------------------------

  predicate Idle(s: App) {
    s.selected == NONE_SELECTED && !s.timerActive && s.deadline.None? && s.queue == []
  }

  function Input(s: App, e: Event, w: World): App
    requires e != Timer
  {
    Drain(Do(s, Post(e)), w)
  }

  // Left alone for `gap` milliseconds, then held for `held`.
  datatype Press = Press(gap: nat, held: nat)

  function Hold(s: App, p: Press, w: World): App {
    Input(Pass(Input(Pass(s, p.gap, w), Pushed, w), p.held, w), Released, w)
  }

  function Holds(s: App, presses: seq<Press>, w: World): App
    decreases |presses|
  {
    if presses == [] then s else Holds(Hold(s, presses[0], w), presses[1..], w)
  }

  // How the state looks after the button has been held for a while.
  lemma PassWhileHeld(s: App, ms: nat, w: World)
    requires s.selected == NONE_SELECTED && s.timerActive && s.queue == []
    requires s.deadline == Some(s.now + TRIGGER_TIMEOUT)
    ensures Pass(s, ms, w) ==
            if ms < 3000 then s.(now := s.now + ms)
            else if ms < 6000 then AfterExpiry(s).(now := s.now + ms)
            else AfterExpiry(AfterExpiry(s)).(now := s.now + ms)
  {
    hide Pass, Do;
    if ms < 3000 {
      PassesQuietly(s, ms, w);
    } else {
      var s1 := AfterExpiry(s);
      PassesExpiry(s, ms, w);
      if ms < 6000 {
        PassesQuietly(s1, ms - 3000, w);
      } else {
        PassesExpiry(s1, ms - 3000, w);
        PassesQuietly(AfterExpiry(s1), ms - 6000, w);
      }
    }
  }

  lemma InputIsHandled(s: App, e: Event, w: World)
    requires s.queue == [] && e in {Pushed, Released}
    ensures Input(s, e, w) == Handle(s, e, w)
  {
    var s1 := Do(s, Post(e));
    assert s1.queue == [e] && s1.queue[1..] == [] == s.queue;
    assert s1.(queue := s1.queue[1..]) == s;
    assert Drain(s1, w) == Drain(Handle(s, e, w), w);
  }

  /** One press, by its duration alone: a software update below three seconds,
      nothing from three to six, a factory reset from six on; and it always ends
      with the timer stopped and nothing selected. */
  lemma HoldRule(s: App, p: Press, w: World)
    requires Idle(s)
    ensures var s' := Hold(s, p, w);
            && Idle(s') && s'.now == s.now + p.gap + p.held
            && s'.updates == s.updates + (if p.held < 3000 then 1 else 0)
            && s'.resets == s.resets + (if p.held >= 6000 then 1 else 0)
  {
    var s1 := Do(s, Wait(p.gap));
    assert Pass(s, p.gap, w) == s1;
    InputIsHandled(s1, Pushed, w);
    var s2 := Handle(s1, Pushed, w);
    PassWhileHeld(s2, p.held, w);
    InputIsHandled(Pass(s2, p.held, w), Released, w);
  }

  function ShortPresses(presses: seq<Press>): nat {
    if presses == [] then 0 else (if presses[0].held < 3000 then 1 else 0) + ShortPresses(presses[1..])
  }

  function LongPresses(presses: seq<Press>): nat {
    if presses == [] then 0 else (if presses[0].held >= 6000 then 1 else 0) + LongPresses(presses[1..])
  }

  /** Every timed sequence of presses: as many updates as presses below three
      seconds, as many resets as presses of six seconds or more. */
  lemma {:induction false} DurationRule(s: App, presses: seq<Press>, w: World)
    requires Idle(s)
    ensures var s' := Holds(s, presses, w);
            && Idle(s')
            && s'.updates == s.updates + ShortPresses(presses)
            && s'.resets == s.resets + LongPresses(presses)
    decreases |presses|
  {
    if presses != [] {
      HoldRule(s, presses[0], w);
      DurationRule(Hold(s, presses[0], w), presses[1..], w);
    }
  }

  // ---------------------------------------------------------------------------
  // The NUS server, the queue's other client
  // ---------------------------------------------------------------------------

  predicate NusInv(s: App) {
    && (s.nusAdvertising || s.nusStarts > 0 ==> s.nusEnabled)
    && (s.nusEnabled <==> s.serverStarts > 0)
  }

  // The button's steps leave the server alone, and the server's leave the button alone.
  lemma HandlersAreSeparate(s: App, t: Step)
    requires CanHappen(s, t)
    ensures !(t.Dispatch? && s.queue[0] in {NusButton, StartNusAdvertising}) ==>
              && Do(s, t).nusEnabled == s.nusEnabled && Do(s, t).nusAdvertising == s.nusAdvertising
              && Do(s, t).nusStarts == s.nusStarts && Do(s, t).serverStarts == s.serverStarts
    ensures !t.Expire? && !(t.Dispatch? && s.queue[0] in {Pushed, Released, Timer, NusButton}) ==>
              && Do(s, t).selected == s.selected && Do(s, t).deadline == s.deadline
              && Do(s, t).timerActive == s.timerActive
              && Do(s, t).updates == s.updates && Do(s, t).resets == s.resets
  {
  }

  lemma StepKeepsNusInv(s: App, t: Step)
    requires NusInv(s) && CanHappen(s, t)
    ensures NusInv(Do(s, t))
  {
  }

  /** However restart requests are queued, NUS advertising is started only once
      StartServer has run, and the restart handler is without effect before. */
  lemma {:induction false} AdvertisesOnlyWhenStarted(s: App, steps: seq<Step>)
    requires NusInv(s) && CanRun(Try, s, steps)
    ensures NusInv(Run(Try, s, steps)) && (Run(Try, s, steps).nusStarts > 0 ==> Run(Try, s, steps).serverStarts > 0)
    decreases |steps|
  {
    if steps != [] {
      StepKeepsNusInv(s, steps[0]);
      AdvertisesOnlyWhenStarted(Do(s, steps[0]), steps[1..]);
    }
  }

  // A queued restart request is served exactly when the server has been started, in every reachable state.
  lemma RestartServedExactlyWhen(steps: seq<Step>, w: World)
    requires CanRun(Try, INIT, steps)
    ensures var s := Run(Try, INIT, steps);
            var s' := Handle(s, StartNusAdvertising, w);
            && (s'.nusStarts == s.nusStarts + 1 <==> s.serverStarts > 0)
            && (s.serverStarts == 0 ==> s' == s)
  {
    AdvertisesOnlyWhenStarted(INIT, steps);
  }

  lemma ButtonIgnoresQueue(s: App, queue: seq<Event>, pushed: bool)
    ensures FunctionHandler(s.(queue := queue), pushed) == FunctionHandler(s, pushed).(queue := queue)
  {
  }

  lemma ServerIgnoresQueue(s: App, queue: seq<Event>, w: World)
    ensures StartServer(s.(queue := queue), w) == StartServer(s, w).(queue := queue)
  {
  }

  // What the queue holds is no concern of any handler.
  lemma HandleIgnoresQueue(s: App, queue: seq<Event>, e: Event, w: World)
    ensures Handle(s.(queue := queue), e, w) == Handle(s, e, w).(queue := queue)
  {
    hide FunctionHandler, StartServer;
    match e
    case Pushed => ButtonIgnoresQueue(s, queue, true);
    case Released => ButtonIgnoresQueue(s, queue, false);
    case Timer =>
    case NusButton => ServerIgnoresQueue(s.(selected := NONE_SELECTED), queue, w);
    case StartNusAdvertising =>
    case Other =>
  }

  // An event queued behind the others is handled after them.
  lemma {:induction false} DrainThen(s: App, e: Event, w: World)
    ensures Drain(s.(queue := s.queue + [e]), w) == Handle(Drain(s, w), e, w)
    decreases |s.queue|
  {
    hide Handle;
    var s1 := s.(queue := s.queue + [e]);
    if s.queue == [] {
      assert s1.queue[1..] == [] && s1.(queue := []) == s;
      HandlerCounts(s, e, w);
      assert Do(s1, Dispatch(w)) == Handle(s, e, w);
    } else {
      var head, tail := s.queue[0], s.queue[1..];
      assert s1.queue[0] == head && s1.queue[1..] == tail + [e];
      HandleIgnoresQueue(s, tail, head, w);
      HandleIgnoresQueue(s, tail + [e], head, w);
      DrainThen(Do(s, Dispatch(w)), e, w);
    }
  }

  lemma {:induction false} DrainKeepsNusInv(s: App, w: World)
    requires NusInv(s)
    ensures NusInv(Drain(s, w)) && Drain(s, w).serverStarts >= s.serverStarts && Drain(s, w).queue == []
    decreases |s.queue|
  {
    hide NusInv;
    if s.queue != [] {
      StepKeepsNusInv(s, Dispatch(w));
      ServerStartsGrow(s, w);
      DrainKeepsNusInv(Do(s, Dispatch(w)), w);
    }
  }

  lemma ServerStartsGrow(s: App, w: World)
    requires s.queue != []
    ensures Do(s, Dispatch(w)).serverStarts >= s.serverStarts
  {
    match s.queue[0]
    case Pushed =>
    case Released =>
    case Timer =>
    case NusButton =>
    case StartNusAdvertising =>
    case Other =>
  }

  // A request behind whatever is queued leads to one more start exactly if the server then runs.
  lemma RequestIsServed(s: App, w: World)
    requires NusInv(s)
    ensures Drain(s.(queue := s.queue + [StartNusAdvertising]), w).nusStarts ==
            Drain(s, w).nusStarts + if Drain(s, w).serverStarts > 0 then 1 else 0
  {
    hide Drain;
    DrainThen(s, StartNusAdvertising, w);
    DrainKeepsNusInv(s, w);
  }

  /** From a disconnect to the advertising, through whatever is queued: one attempt more
      than without it, exactly if the platform is not advertising, no connection is left,
      the queue has room, and StartServer has run by the time the request is handled. */
  lemma DisconnectRestartsExactlyWhen(s: App, bleAdvertising: bool, connections: nat, w: World)
    requires NusInv(s)
    ensures var s' := Do(s, BleDisconnect(bleAdvertising, connections));
            var served := !bleAdvertising && connections == 0 && |s.queue| < 10 && Drain(s, w).serverStarts > 0;
            Drain(s', w).nusStarts == Drain(s, w).nusStarts + if served then 1 else 0
    ensures s.serverStarts > 0 ==> Drain(s, w).serverStarts > 0
  {
    hide Drain;
    RequestIsServed(s, w);
    DrainKeepsNusInv(s, w);
  }

  /** The same for the platform's events: only once StartServer has run, and then after
      advertising stopped with no connection left, or a connection closed without the
      platform advertising. */
  lemma ChipEventRestartsExactlyWhen(s: App, e: ChipEvent, bleAdvertising: bool, connections: nat, w: World)
    requires NusInv(s)
    ensures var s' := Do(s, Chip(e, bleAdvertising, connections));
            var served := && s.serverStarts > 0 && |s.queue| < 10
                          && ((e == AdvertisingStopped && connections == 0) ||
                              (e == ConnectionClosed && !bleAdvertising));
            Drain(s', w).nusStarts == Drain(s, w).nusStarts + if served then 1 else 0
  {
    hide Drain;
    RequestIsServed(s, w);
    DrainKeepsNusInv(s, w);
  }

  // The NUS button attempts to advertise only the first time, and only if the platform does not.
  lemma FirstStartAdvertisesExactlyWhen(s: App, w: World)
    requires NusInv(s)
    ensures var s', attempts := Handle(s, NusButton, w), s.serverStarts == 0 && !w.bleAdvertising;
            && s'.nusStarts == s.nusStarts + (if attempts then 1 else 0) && s'.serverStarts == s.serverStarts + 1
            && (s'.nusAdvertising <==> s.nusAdvertising || (attempts && !w.startFails))
  {
  }
}
