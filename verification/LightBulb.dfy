/** The Zigbee light bulb: two attributes, one PWM output, and an identify blink
    that schedules itself. */
module LightBulb {
  import opened Bytes
  import opened Machine

  const LED_PWM_PERIOD_US: nat := 20000

  newtype u16 = x: int | 0 <= x < 0x1_0000

  // `calls` counts scheduled callbacks of the toggle function, `alarms` its pending alarms.
  datatype Bulb = Bulb(onOff: byte, level: byte, pulse: nat, blink: int, calls: nat, alarms: nat)

  datatype Cluster = OnOff | LevelControl | OtherCluster

  datatype Event =
    | LevelSetValue(newValue: u16)
    | SetAttribute(cluster: Cluster, mainAttribute: bool, data8: byte, data16: u16)
    | IdentifyStart
    | IdentifyStop(cancelled: nat)
    | CallbackRuns
    | AlarmRuns

  // ZB_ZCL_SET_ATTRIBUTE copies the one byte it is pointed at: the low byte of a 16-bit level.
  function LowByte(v: u16): byte {
    (v as int % 256) as byte
  }

  // The parameter is eight bits wide.
  function WithBrightness(b: Bulb, level: byte): Bulb {
    b.(pulse := level as nat * LED_PWM_PERIOD_US / 255)
  }

  function LevelControlSetValue(b: Bulb, newLevel: u16): Bulb {
    WithBrightness(b.(level := LowByte(newLevel), onOff := if newLevel == 0 then 0 else 1), LowByte(newLevel))
  }

  function OnOffSetValue(b: Bulb, on: byte): Bulb {
    var b1 := b.(onOff := on);
    if on != 0 then LevelControlSetValue(b1, b.level as u16) else WithBrightness(b1, 0)
  }

  function ToggleIdentifyLed(b: Bulb): Bulb {
    WithBrightness(b.(blink := b.blink + 1, alarms := b.alarms + 1), if (b.blink + 1) % 2 != 0 then 255 else 0)
  }

  function StopIdentifying(b: Bulb, cancelled: nat): Bulb {
    var left := if cancelled <= b.alarms then b.alarms - cancelled else 0;
    WithBrightness(b.(alarms := left), if b.onOff != 0 then b.level else 0)
  }

  // Cancelling removes at least one pending alarm, if there is any.
  predicate CanHappen(b: Bulb, e: Event) {
    match e
    case IdentifyStop(k) => k <= b.alarms && (b.alarms > 0 ==> k > 0)
    case CallbackRuns => b.calls > 0
    case AlarmRuns => b.alarms > 0
    case _ => true
  }

  function Do(b: Bulb, e: Event): Bulb
    requires CanHappen(b, e)
  {
    match e
    case LevelSetValue(v) => LevelControlSetValue(b, v)
    case SetAttribute(OnOff, true, d, _) => OnOffSetValue(b, d)
    case SetAttribute(LevelControl, true, _, d) => LevelControlSetValue(b, d)
    case SetAttribute(_, _, _, _) => b
    case IdentifyStart => b.(calls := b.calls + 1)
    case IdentifyStop(k) => StopIdentifying(b, k)
    case CallbackRuns => ToggleIdentifyLed(b.(calls := b.calls - 1))
    case AlarmRuns => ToggleIdentifyLed(b.(alarms := b.alarms - 1))
  }

  // The machine as a step function, for `Machine`.
  function Try(b: Bulb, e: Event): Option<Bulb> {
    if CanHappen(b, e) then Some(Do(b, e)) else None
  }

  predicate Blinking(b: Bulb) {
    b.calls > 0 || b.alarms > 0
  }

  // What the attributes say the output should be, in microseconds.
  function Shown(b: Bulb): nat {
    if b.onOff != 0 then b.level as nat * 20000 / 255 else 0
  }

  predicate Agrees(b: Bulb) {
    !Blinking(b) ==> b.pulse == Shown(b)
  }

  // After main: the bulb is switched on at full level.
  const READY: Bulb := LevelControlSetValue(Bulb(1, 255, 0, 0, 0, 0), 255)

  lemma StepKeepsAgreement(b: Bulb, e: Event)
    requires Agrees(b) && CanHappen(b, e)
    ensures Agrees(Do(b, e))
  {
  }

  /** Every run: outside the identify blink the PWM pulse is the level's share of
      the period when on, and zero when off, for all 16-bit level writes. */
  lemma {:induction false} EveryRun(b: Bulb, events: seq<Event>)
    requires Agrees(b) && CanRun(Try, b, events)
    ensures var b' := Run(Try, b, events); !Blinking(b') ==> b'.pulse == Shown(b')
    decreases |events|
  {
    if events != [] {
      StepKeepsAgreement(b, events[0]);
      EveryRun(Do(b, events[0]), events[1..]);
    }
  }

  /** Off and on again, with any non-zero value: the pulse comes back, and the bulb
      counts as on again exactly when its level is not zero. */
  lemma OffThenOn(b: Bulb, on: byte)
    requires b.pulse == Shown(b) && b.onOff != 0 && on != 0
    ensures OnOffSetValue(b, 0).pulse == 0
    ensures var b' := OnOffSetValue(OnOffSetValue(b, 0), on);
            && b'.level == b.level && b'.pulse == b.pulse
            && (b'.onOff != 0 <==> b.level != 0)
  {
  }

  // A level write leaves the bulb on but dark exactly when only the cut-off high byte is set.
  lemma OnButDarkExactlyWhen(b: Bulb, v: u16)
    ensures var b' := LevelControlSetValue(b, v);
            b'.onOff != 0 && b'.pulse == 0 <==> v != 0 && v as int % 256 == 0
  {
    if v as int % 256 != 0 {
      assert LowByte(v) as nat * LED_PWM_PERIOD_US >= 20000;
    }
  }

  // What a controller sees: the level and whether the bulb is on.
  datatype Settings = Settings(level: nat, on: bool)

  function SettingsOf(b: Bulb): Settings {
    Settings(b.level as nat, b.onOff != 0)
  }

  /** What a command or write asks for: a level v gives v modulo 256, and is on iff v is
      not zero; an on/off write keeps the level, and is on iff it and the level are not
      zero; anything else changes neither. */
  function Asked(now: Settings, e: Event): Settings {
    match e
    case LevelSetValue(v) => Settings(v as nat % 256, v != 0)
    case SetAttribute(LevelControl, true, _, v) => Settings(v as nat % 256, v != 0)
    case SetAttribute(OnOff, true, d, _) => Settings(now.level, d != 0 && now.level != 0)
    case _ => now
  }

  // All that is asked, in order; identify commands, callbacks and alarms do not matter.
  function AskedBy(now: Settings, events: seq<Event>): Settings {
    if events == [] then now else Asked(AskedBy(now, events[..|events| - 1]), events[|events| - 1])
  }

  lemma StepObeys(b: Bulb, e: Event)
    requires CanHappen(b, e)
    ensures SettingsOf(Do(b, e)) == Asked(SettingsOf(b), e)
  {
  }

  /** Every run, and also one in which callbacks and stops that cannot happen are skipped:
      the attributes end as the writes ask, in order. */
  lemma {:induction false} WritesAreObeyed(b: Bulb, events: seq<Event>)
    ensures SettingsOf(Run(Try, b, Taken(Try, b, events))) == AskedBy(SettingsOf(b), events)
  {
    hide Do, CanHappen, Run, CanRun;
    if events == [] {
      RunNothing(Try, b);
      TakenNone(Try, b);
    } else {
      var n := |events| - 1;
      assert events[..n + 1] == events;
      WritesAreObeyed(b, events[..n]);
      TakenThen(Try, b, events, n);
      var b1 := Run(Try, b, Taken(Try, b, events[..n]));
      if CanHappen(b1, events[n]) {
        StepObeys(b1, events[n]);
      } else {
        OnlyOthersAreSkipped(b1, events[n]);
      }
    }
  }

  lemma OnlyOthersAreSkipped(b: Bulb, e: Event)
    requires !CanHappen(b, e)
    ensures Asked(SettingsOf(b), e) == SettingsOf(b)
  {
  }

  // The last write decides, whatever came before and whatever is no write after it.
  lemma {:induction false} LastWriteDecides(now: Settings, front: seq<Event>, w: Event, rest: seq<Event>)
    requires forall i | 0 <= i < |rest| :: !rest[i].LevelSetValue? && !rest[i].SetAttribute?
    ensures AskedBy(now, front + [w] + rest) == Asked(AskedBy(now, front), w)
    decreases |rest|
  {
    var events := front + [w] + rest;
    if rest == [] {
      assert events[..|events| - 1] == front;
    } else {
      assert events[..|events| - 1] == front + [w] + rest[..|rest| - 1];
      LastWriteDecides(now, front, w, rest[..|rest| - 1]);
    }
  }

  // Two toggles in a row show different outputs, full and none.
  lemma TogglesAlternate(b: Bulb)
    ensures var b1, b2 := ToggleIdentifyLed(b), ToggleIdentifyLed(ToggleIdentifyLed(b));
            b1.pulse != b2.pulse && b1.pulse in {0, 20000} && b2.pulse in {0, 20000}
  {
  }

  function Count(events: seq<Event>, counts: Event -> int): int {
    if events == [] then 0 else counts(events[0]) + Count(events[1..], counts)
  }

  // What an event adds to the scheduled callbacks, and to the number of toggles.
  function Calls(e: Event): int {
    if e.IdentifyStart? then 1 else if e.CallbackRuns? then -1 else 0
  }

  function Toggles(e: Event): int {
    if e.CallbackRuns? || e.AlarmRuns? then 1 else 0
  }

  // A toggle that runs leaves another pending in its place; only a stop takes any away.
  function Pending(e: Event): int {
    if e.IdentifyStart? then 1 else if e.IdentifyStop? then 0 - e.cancelled else 0
  }

  /** Every run: the blink counter counts the toggles, whatever is written or stopped in
      between, and what is scheduled is what was started and not cancelled. */
  lemma {:induction false} BlinkCounts(b: Bulb, events: seq<Event>)
    requires CanRun(Try, b, events)
    ensures var b' := Run(Try, b, events);
            && b'.blink == b.blink + Count(events, Toggles)
            && b'.calls == b.calls + Count(events, Calls)
            && b'.calls + b'.alarms == b.calls + b.alarms + Count(events, Pending)
    decreases |events|
  {
    if events != [] {
      BlinkCounts(Do(b, events[0]), events[1..]);
    }
  }

  predicate NoIdentify(events: seq<Event>) {
    forall i | 0 <= i < |events| :: !events[i].IdentifyStart? && !events[i].IdentifyStop?
  }

  predicate NoStop(events: seq<Event>) {
    forall i | 0 <= i < |events| :: !events[i].IdentifyStop?
  }

  // Once something is scheduled, only a stop can end the blink: the toggle reschedules itself.
  lemma {:induction false} BlinksUntilStopped(b: Bulb, events: seq<Event>)
    requires Blinking(b) && NoStop(events) && CanRun(Try, b, events)
    ensures Blinking(Run(Try, b, events))
    decreases |events|
  {
    if events != [] {
      assert !events[0].IdentifyStop?;
      BlinksUntilStopped(Do(b, events[0]), events[1..]);
    }
  }

  lemma {:induction false} StaysQuiet(b: Bulb, events: seq<Event>)
    requires !Blinking(b) && NoIdentify(events) && CanRun(Try, b, events)
    ensures !Blinking(Run(Try, b, events))
    decreases |events|
  {
    if events != [] {
      assert !events[0].IdentifyStart? && !events[0].IdentifyStop?;
      StaysQuiet(Do(b, events[0]), events[1..]);
    }
  }

  /** After identify has been stopped, and whatever follows without another identify
      command: the bulb is never seen blinking and always shows its attributes, if
      no toggle callback was scheduled and every alarm was cancelled at the stop;
      and it blinks in every later state otherwise. */
  lemma StopEndsBlinkExactlyWhen(b: Bulb, cancelled: nat, events: seq<Event>)
    requires Agrees(b) && CanHappen(b, IdentifyStop(cancelled)) && NoIdentify(events)
    requires CanRun(Try, Do(b, IdentifyStop(cancelled)), events)
    ensures var b' := Run(Try, Do(b, IdentifyStop(cancelled)), events);
            && (!Blinking(b') <==> b.calls == 0 && cancelled == b.alarms)
            && (b.calls == 0 && cancelled == b.alarms ==> b'.pulse == Shown(b'))
  {
    var b1 := Do(b, IdentifyStop(cancelled));
    StepKeepsAgreement(b, IdentifyStop(cancelled));
    EveryRun(b1, events);
    if Blinking(b1) {
      BlinksUntilStopped(b1, events);
    } else {
      StaysQuiet(b1, events);
    }
  }

  /** Started and stopped before the callback has run: identify is over, and the bulb
      blinks in every later state of every run until it is stopped again. */
  lemma QuickStopBlinksOn(b: Bulb, events: seq<Event>)
    requires !Blinking(b) && NoStop(events)
    requires CanRun(Try, Do(Do(b, IdentifyStart), IdentifyStop(0)), events)
    ensures Blinking(Run(Try, Do(Do(b, IdentifyStart), IdentifyStop(0)), events))
  {
    BlinksUntilStopped(Do(Do(b, IdentifyStart), IdentifyStop(0)), events);
  }

  class Device {
    var onOff: byte
    var currentLevel: byte
    var pwmPulse: nat
    var blinkStatus: int
    var scheduledCalls: nat
    var pendingAlarms: nat

    function B(): Bulb
      reads this
    {
      Bulb(onOff, currentLevel, pwmPulse, blinkStatus, scheduledCalls, pendingAlarms)
    }

    // Outside the identify blink the output is what the attributes say.
    ghost predicate Valid()
      reads this
    {
      Agrees(B())
    }

    // bulb_clusters_attr_init, and the first level write in main.
    constructor ()
      ensures B() == READY && Valid() && currentLevel == 255 && onOff == 1 && pwmPulse == 20000
      ensures scheduledCalls == pendingAlarms == 0
    {
      onOff, currentLevel, pwmPulse := 1, 255, 0;
      blinkStatus, scheduledCalls, pendingAlarms := 0, 0, 0;
      new;
      SetLevel(255);
    }

    method SetBrightness(level: byte)
      modifies this`pwmPulse
      ensures B() == WithBrightness(old(B()), level)
    {
      pwmPulse := level as nat * LED_PWM_PERIOD_US / 255;
    }

    /** The output shows the new attributes, also in the middle of a blink; the bulb
        is on iff the whole 16-bit value is not zero, at the level of its low byte. */
    method SetLevel(newLevel: u16)
      modifies this`currentLevel, this`onOff, this`pwmPulse
      ensures B() == LevelControlSetValue(old(B()), newLevel)
      ensures Valid() && pwmPulse == Shown(B())
      ensures (onOff != 0 <==> newLevel != 0) && currentLevel as int == newLevel as int % 256
    {
      currentLevel := LowByte(newLevel);
      if newLevel == 0 {
        onOff := 0;
      } else {
        onOff := 1;
      }
      SetBrightness(LowByte(newLevel));
    }

    // The output shows the attributes, the level is kept, and the bulb is on iff it
    // was switched on at a level that is not zero.
    method SetOnOff(on: byte)
      modifies this`currentLevel, this`onOff, this`pwmPulse
      ensures B() == OnOffSetValue(old(B()), on)
      ensures Valid() && pwmPulse == Shown(B())
      ensures currentLevel == old(currentLevel) && (onOff != 0 <==> on != 0 && currentLevel != 0)
    {
      onOff := on;
      if on != 0 {
        SetLevel(currentLevel as u16);
      } else {
        SetBrightness(0);
      }
    }

    // Full output and none in turn, always with a next toggle pending; what the
    // attributes say is untouched.
    method Toggle()
      modifies this`blinkStatus, this`pwmPulse, this`pendingAlarms
      ensures B() == ToggleIdentifyLed(old(B()))
      ensures Valid() && Blinking(B()) && Shown(B()) == old(Shown(B()))
      ensures pwmPulse == (if old(blinkStatus) % 2 == 0 then 20000 else 0) && blinkStatus == old(blinkStatus) + 1
    {
      blinkStatus := blinkStatus + 1;
      SetBrightness(if blinkStatus % 2 != 0 then 255 else 0);
      pendingAlarms := pendingAlarms + 1;
    }

    /** A start leaves output and attributes alone and blinks from then on; a stop
        restores the output, and ends the blink iff nothing was left scheduled. */
    method IdentifyCb(start: bool, cancelled: nat)
      requires !start ==> CanHappen(B(), IdentifyStop(cancelled))
      modifies this`scheduledCalls, this`pendingAlarms, this`pwmPulse
      ensures B() == Do(old(B()), if start then IdentifyStart else IdentifyStop(cancelled))
      ensures old(Valid()) ==> Valid() && blinkStatus == old(blinkStatus)
      ensures Shown(B()) == old(Shown(B())) && pwmPulse == (if start then old(pwmPulse) else Shown(B()))
      ensures Blinking(B()) <==> start || old(scheduledCalls) > 0 || cancelled < old(pendingAlarms)
    {
      if start {
        scheduledCalls := scheduledCalls + 1;
      } else {
        pendingAlarms := pendingAlarms - cancelled;
        if onOff != 0 {
          SetBrightness(currentLevel);
        } else {
          SetBrightness(0);
        }
      }
    }

    /** Every command and attribute write keeps output and attributes in agreement,
        and neither starts nor ends a blink; a write to another cluster or to another
        attribute of these two changes nothing. */
    method ZclDeviceCb(e: Event)
      requires e.LevelSetValue? || e.SetAttribute?
      modifies this`currentLevel, this`onOff, this`pwmPulse
      ensures B() == Do(old(B()), e)
      ensures old(Valid()) ==> Valid()
      ensures Blinking(B()) == old(Blinking(B()))
      ensures if e.SetAttribute? && (e.cluster == OtherCluster || !e.mainAttribute)
              then B() == old(B()) else pwmPulse == Shown(B())
      ensures SettingsOf(B()) == Asked(old(SettingsOf(B())), e)
    {
      match e
      case LevelSetValue(v) => SetLevel(v);
      case SetAttribute(cluster, mainAttribute, data8, data16) =>
        if cluster == OnOff {
          if mainAttribute {
            SetOnOff(data8);
          }
        } else if cluster == LevelControl {
          if mainAttribute {
            SetLevel(data16);
          }
        }
    }

    method TakeEvent(e: Event)
      requires CanHappen(B(), e)
      modifies this
      ensures B() == Do(old(B()), e)
    {
      match e
      case LevelSetValue(_) => ZclDeviceCb(e);
      case SetAttribute(_, _, _, _) => ZclDeviceCb(e);
      case IdentifyStart => IdentifyCb(true, 0);
      case IdentifyStop(k) => IdentifyCb(false, k);
      case CallbackRuns =>
        scheduledCalls := scheduledCalls - 1;
        Toggle();
      case AlarmRuns =>
        pendingAlarms := pendingAlarms - 1;
        Toggle();
    }

    /** The callbacks in any order, each event taken if it is possible in its turn:
        outside the blink the output ends at the level's share of the period when on,
        and at zero when off. */
    method Drive(events: seq<Event>)
      requires Valid()
      modifies this
      ensures B() == Run(Try, old(B()), Taken(Try, old(B()), events))
      ensures Valid() && SettingsOf(B()) == AskedBy(old(SettingsOf(B())), events)
      ensures scheduledCalls == 0 && pendingAlarms == 0 ==>
                pwmPulse == if onOff != 0 then currentLevel as nat * 20000 / 255 else 0
    {
      hide Do, CanHappen, Run, CanRun, Taken;
      ghost var b := B();
      RunNothing(Try, b);
      TakenNone(Try, b);
      for i := 0 to |events|
        invariant B() == Run(Try, b, Taken(Try, b, events[..i]))
      {
        TakenThen(Try, b, events, i);
        if CanHappen(B(), events[i]) {
          TakeEvent(events[i]);
        }
      }
      assert events[..|events|] == events;
      EveryRun(b, Taken(Try, b, events));
      WritesAreObeyed(b, events);
    }
  }
}
