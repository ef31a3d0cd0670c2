/** The ping sequence machine of the Wi-Fi TWT sample: one work item that sends an
    echo, a reply handler that compares no numbers, and a timeout work item on the
    same work queue.  Replies may be lost, malformed or late: any reply still on its
    way is delivered whenever the handler is registered. */
module Ping {
  import opened Bytes
  import opened Machine

  const WIRE: int := 0x1_0000 // the sequence field of an echo has 16 bits

  datatype Outcome = Sent | InitFails | SendFails

  datatype State = State(
    sequence: int, recvSeq: int,
    workPending: bool, timeoutPending: bool,
    waiting: bool,       // the work handler is inside k_sem_take
    registered: bool,    // the reply handler is registered
    network: seq<int>,   // numbers of the echoes whose reply may still arrive
    outstanding: nat,    // echoes neither answered nor timed out
    accepted: seq<int>)  // numbers of the replies accepted, in order

  const START := State(0, 0, false, false, false, false, [], 0, [])

  datatype Event =
    | Schedule
    | Work(outcome: Outcome)
    | WaitEnds
    | Reply(which: nat, wellFormed: bool)
    | Lost(which: nat)
    | Timeout

  predicate CanHappen(s: State, e: Event) {
    match e
    case Schedule => true
    case Work(_) => s.workPending && !s.waiting
    case WaitEnds => s.waiting
    case Reply(i, _) => s.registered && i < |s.network|
    case Lost(i) => i < |s.network|
    case Timeout => s.timeoutPending && !s.waiting
  }

  function Without(network: seq<int>, i: nat): seq<int>
    requires i < |network|
  {
    network[..i] + network[i + 1..]
  }

  // A send that fails leaves the handler registered.
  function PingWork(s: State, o: Outcome): State {
    var s1 := s.(workPending := false);
    if s.recvSeq < s.sequence then s1
    else match o
      case Sent =>
        s1.(sequence := s.sequence + 1, network := s.network + [(s.sequence + 1) % WIRE],
        outstanding := s.outstanding + 1, registered := true, waiting := true)
      case InitFails => s1.(sequence := s.recvSeq, workPending := true)
      case SendFails => s1.(sequence := s.recvSeq, workPending := true, registered := true)
  }

  function HandleReply(s: State, i: nat, wellFormed: bool): State
    requires i < |s.network|
  {
    var s1 := s.(timeoutPending := false, network := Without(s.network, i));
    if !wellFormed then s1
    else s1.(recvSeq := s.network[i], registered := false, outstanding := 0, accepted := s.accepted + [s.network[i]])
  }

  function ResponseTimeout(s: State): State {
    s.(timeoutPending := false, registered := false, outstanding := 0, sequence := s.recvSeq)
  }

  function Do(s: State, e: Event): State
    requires CanHappen(s, e)
  {
    match e
    case Schedule => s.(workPending := true)
    case Work(o) => PingWork(s, o)
    case WaitEnds => s.(waiting := false, timeoutPending := true)
    case Reply(i, ok) => HandleReply(s, i, ok)
    case Lost(i) => s.(network := Without(s.network, i))
    case Timeout => ResponseTimeout(s)
  }

  // The machine as a step function, for `Machine`.
  function Try(s: State, e: Event): Option<State> {
    if CanHappen(s, e) then Some(Do(s, e)) else None
  }

  // ---------------------------------------------------------------------------
  // The numbering
  // ---------------------------------------------------------------------------

  /** The k-th accepted reply carried number k (modulo the field), at most one echo
      is outstanding, and it is numbered one above the last number received; with
      none outstanding both counters agree, except right after the field wrapped. */
  predicate Inv(s: State) {
    && (forall i | 0 <= i < |s.accepted| :: s.accepted[i] == (i + 1) % WIRE)
    && s.recvSeq == |s.accepted| % WIRE
    && s.outstanding <= 1
    && (if s.outstanding == 1 then s.registered && s.sequence == s.recvSeq + 1
        else s.sequence == s.recvSeq || (s.sequence == WIRE && s.recvSeq == 0 && s.accepted != [] && !s.registered))
  }

  // The comparison the reply handler does not make: something is outstanding, and
  // an accepted reply carries its number.
  predicate Answers(s: State, e: Event)
    requires CanHappen(s, e)
  {
    e.Reply? && e.wellFormed ==> s.recvSeq < s.sequence && s.network[e.which] == s.sequence % WIRE
  }

  /** No event breaks the agreement of replies and counters except an accepted reply,
      and that exactly when it fails the comparison. */
  lemma StepKeepsInvExactlyWhen(s: State, e: Event)
    requires Inv(s) && CanHappen(s, e)
    ensures Inv(Do(s, e)) <==> Answers(s, e)
  {
    if e.Reply? && e.wellFormed {
      var s' := Do(s, e);
      assert s'.accepted[|s.accepted|] == s.network[e.which];
    }
  }

  predicate AlwaysInv(s: State, events: seq<Event>)
    requires CanRun(Try, s, events)
    decreases |events|
  {
    Inv(s) && (events != [] ==> AlwaysInv(Do(s, events[0]), events[1..]))
  }

  predicate AllAnswer(s: State, events: seq<Event>)
    requires CanRun(Try, s, events)
    decreases |events|
  {
    events != [] ==> Answers(s, events[0]) && AllAnswer(Do(s, events[0]), events[1..])
  }

  /** Every run, with late, lost and malformed replies: accepted replies, outstanding
      echo and both counters agree as in `Inv` all along exactly when every accepted
      reply answered the outstanding echo. */
  lemma {:induction false} NumberingHoldsExactlyWhen(s: State, events: seq<Event>)
    requires Inv(s) && CanRun(Try, s, events)
    ensures AlwaysInv(s, events) <==> AllAnswer(s, events)
    decreases |events|
  {
    if events != [] {
      hide Inv, Answers, Do, CanHappen;
      StepKeepsInvExactlyWhen(s, events[0]);
      if Inv(Do(s, events[0])) {
        NumberingHoldsExactlyWhen(Do(s, events[0]), events[1..]);
      }
    }
  }

  /** Every run in which replies answer the outstanding echo, however many sends
      fail, time out or are answered malformed: the k-th accepted reply carries
      number k modulo the field, at most one echo is outstanding, and until the
      field wraps `sequence` is `recv_seq` or one more. */
  lemma {:induction false} EveryRun(s: State, events: seq<Event>)
    requires Inv(s) && CanRun(Try, s, events) && AllAnswer(s, events)
    ensures var s' := Run(Try, s, events);
            && Inv(s')
            && (forall k | 1 <= k <= |s'.accepted| :: s'.accepted[k - 1] == k % 0x1_0000)
            && s'.outstanding <= 1
            && (|s'.accepted| < 0x1_0000 ==> s'.sequence == s'.recvSeq || s'.sequence == s'.recvSeq + 1)
    decreases |events|
  {
    if events != [] {
      StepKeepsInvExactlyWhen(s, events[0]);
      EveryRun(Do(s, events[0]), events[1..]);
    }
  }

  // ---------------------------------------------------------------------------
  // Sending and retrying
  // ---------------------------------------------------------------------------

  // Echoes that go out along a run.
  function Echoes(s: State, events: seq<Event>): nat
    requires CanRun(Try, s, events)
    decreases |events|
  {
    if events == [] then 0
    else
      var s1 := Do(s, events[0]);
      (if |s1.network| > |s.network| then 1 else 0) + Echoes(s1, events[1..])
  }

  /** What one run of the work item leaves: it is pending again exactly when the guard let
      it through and sending failed; exactly one echo goes out, and is waited for, when
      sending succeeded; and the reply handler is registered unless that failed. */
  lemma RetriesExactlyWhen(s: State, o: Outcome)
    requires CanHappen(s, Work(o))
    ensures var s', passes := Do(s, Work(o)), s.sequence <= s.recvSeq;
            && (s'.workPending <==> passes && o != Sent)
            && s'.network == s.network + (if passes && o == Sent then [(s.sequence + 1) % 0x1_0000] else [])
            && (s'.waiting <==> passes && o == Sent)
            && (s'.registered <==> s.registered || (passes && o != InitFails))
            && s'.sequence == (if !passes then s.sequence else if o == Sent then s.sequence + 1 else s.recvSeq)
            && s'.recvSeq == s.recvSeq && s'.accepted == s.accepted && s'.timeoutPending == s.timeoutPending
  {
    assert s.network + [] == s.network;
  }

  /** Every flag, over every event: a ping stays scheduled until the work item runs, a
      timeout until it runs or a reply comes, the handler stays registered until a reply
      is accepted or the timeout runs, and replies are on their way until they come or
      are lost. */
  lemma FlagsExactlyWhen(s: State, e: Event)
    requires CanHappen(s, e)
    ensures var s', passes := Do(s, e), e.Work? && s.sequence <= s.recvSeq;
            && (s'.workPending <==> e.Schedule? || (s.workPending && !e.Work?) || (passes && e.outcome != Sent))
            && (s'.timeoutPending <==> e.WaitEnds? || (s.timeoutPending && !e.Timeout? && !e.Reply?))
            && (s'.waiting <==> (s.waiting && !e.WaitEnds?) || (passes && e.outcome == Sent))
            && (s'.registered <==>
                  || (s.registered && !e.Timeout? && !(e.Reply? && e.wellFormed))
                  || (passes && e.outcome != InitFails))
            && |s'.network| == |s.network| + (if passes && e.outcome == Sent then 1 else 0)
                               - (if e.Reply? || e.Lost? then 1 else 0)
  {
  }

  predicate AllFail(events: seq<Event>) {
    forall i | 0 <= i < |events| :: events[i].Work? && events[i].outcome != Sent
  }

  /** However many attempts fail, the next one needs no new schedule, and the first that
      succeeds sends exactly one echo. */
  lemma {:induction false} RetriesUntilSent(s: State, fails: seq<Event>)
    requires CanHappen(s, Work(Sent)) && s.sequence <= s.recvSeq && AllFail(fails)
    ensures CanRun(Try, s, fails) && Echoes(s, fails) == 0
    ensures CanRun(Try, s, fails + [Work(Sent)]) && Echoes(s, fails + [Work(Sent)]) == 1
    decreases |fails|
  {
    if fails == [] {
      assert fails + [Work(Sent)] == [Work(Sent)] && [Work(Sent)][1..] == [];
    } else {
      var e := fails[0];
      RetriesExactlyWhen(s, e.outcome);
      assert (fails + [Work(Sent)])[0] == e && (fails + [Work(Sent)])[1..] == fails[1..] + [Work(Sent)];
      RetriesUntilSent(Do(s, e), fails[1..]);
    }
  }

  // ---------------------------------------------------------------------------
  // Two ways to stop for good
  // ---------------------------------------------------------------------------

  // The guard refuses to send, no timeout is to come, and no reply that may still be
  // accepted would lift the guard.
  predicate Wedged(s: State) {
    && s.recvSeq < s.sequence && !s.timeoutPending && !s.waiting
    && (s.registered ==> forall i | 0 <= i < |s.network| :: s.network[i] < s.sequence)
  }

  // Every reply on its way but this one has a number below `sequence`.
  predicate OthersStale(s: State, i: nat) {
    forall j | 0 <= j < |s.network| && j != i :: s.network[j] < s.sequence
  }

  lemma WithoutOne(network: seq<int>, i: nat, bound: int)
    requires i < |network|
    ensures (forall j | 0 <= j < |Without(network, i)| :: Without(network, i)[j] < bound) <==>
            (forall j | 0 <= j < |network| && j != i :: network[j] < bound)
  {
    var rest := Without(network, i);
    if forall j | 0 <= j < |rest| :: rest[j] < bound {
      forall j | 0 <= j < |network| && j != i ensures network[j] < bound {
        assert network[j] == rest[if j < i then j else j - 1];
      }
    }
  }

  /** Exactly three kinds of step wedge the machine, and only after the one-second
      wait: a reply with a number below `sequence` is accepted, and so cancels the very
      timeout that would have brought the counters together again; a malformed reply
      cancels it, with only such replies left; or the last other reply is lost. */
  lemma WedgesExactlyWhen(s: State, e: Event)
    requires !Wedged(s) && CanHappen(s, e)
    ensures Wedged(Do(s, e)) <==>
            && !s.waiting
            && match e
               case Reply(i, wellFormed) =>
                 if wellFormed then s.network[i] < s.sequence else s.recvSeq < s.sequence && OthersStale(s, i)
               case Lost(i) => s.recvSeq < s.sequence && !s.timeoutPending && OthersStale(s, i)
               case _ => false
  {
    match e
    case Reply(i, _) => WithoutOne(s.network, i, s.sequence);
    case Lost(i) => WithoutOne(s.network, i, s.sequence);
    case _ =>
  }

  lemma StepKeepsWedged(s: State, e: Event)
    requires Wedged(s) && CanHappen(s, e)
    ensures var s' := Do(s, e);
            && Wedged(s') && s'.sequence == s.sequence && |s'.network| <= |s.network|
            && (!s.registered || s.network == [] ==>
                  s'.accepted == s.accepted && (!s'.registered || s'.network == []))
  {
    match e
    case Reply(i, _) => WithoutOne(s.network, i, s.sequence);
    case Lost(i) => WithoutOne(s.network, i, s.sequence);
    case _ =>
  }

  // From there no echo ever goes out; and no reply is accepted, if none is awaited or on its way.
  lemma {:induction false} WedgedForGood(s: State, events: seq<Event>)
    requires Wedged(s) && CanRun(Try, s, events)
    ensures var s' := Run(Try, s, events);
            && Wedged(s') && Echoes(s, events) == 0
            && s'.sequence == s.sequence && |s'.network| <= |s.network|
            && (!s.registered || s.network == [] ==> s'.accepted == s.accepted)
    decreases |events|
  {
    hide Do, CanHappen, Wedged;
    if events != [] {
      StepKeepsWedged(s, events[0]);
      WedgedForGood(Do(s, events[0]), events[1..]);
    }
  }

  // A step before a run that sends.
  lemma EchoesAfter(s: State, e: Event, events: seq<Event>)
    requires CanHappen(s, e) && CanRun(Try, Do(s, e), events)
    ensures CanRun(Try, s, [e] + events) && Echoes(s, [e] + events) >= Echoes(Do(s, e), events)
  {
    hide Do, CanHappen;
    assert ([e] + events)[1..] == events;
  }

  lemma SendsAtOnce(s: State)
    requires s.sequence <= s.recvSeq && !s.waiting
    ensures CanRun(Try, s, [Schedule] + [Work(Sent)]) && Echoes(s, [Schedule] + [Work(Sent)]) > 0
  {
    var s1 := Do(s, Schedule);
    RunNothing(Try, Do(s1, Work(Sent)));
    assert [Work(Sent)][1..] == [];
    assert CanRun(Try, s1, [Work(Sent)]) && Echoes(s1, [Work(Sent)]) > 0;
    EchoesAfter(s, Schedule, [Work(Sent)]);
  }

  // Otherwise a few events suffice for the next echo.
  lemma SendsAgain(s: State) returns (events: seq<Event>)
    requires !Wedged(s)
    ensures CanRun(Try, s, events) && Echoes(s, events) > 0
  {
    hide CanRun, Echoes;
    events := [Schedule] + [Work(Sent)];
    if s.waiting {
      var s1 := Do(s, WaitEnds);
      SendsAtOnce(Do(s1, Timeout));
      EchoesAfter(s1, Timeout, events);
      EchoesAfter(s, WaitEnds, [Timeout] + events);
      events := [WaitEnds] + ([Timeout] + events);
    } else if s.sequence <= s.recvSeq {
      SendsAtOnce(s);
    } else {
      var e := Timeout;
      if !s.timeoutPending {
        var i :| 0 <= i < |s.network| && s.sequence <= s.network[i];
        e := Reply(i, true);
      }
      SendsAtOnce(Do(s, e));
      EchoesAfter(s, e, events);
      events := [e] + events;
    }
  }

  /** That is what being wedged means: whatever happens, no echo goes out again. */
  lemma WedgedMeansNoEcho(s: State)
    ensures Wedged(s) <==> forall events | CanRun(Try, s, events) :: Echoes(s, events) == 0
  {
    if Wedged(s) {
      forall events | CanRun(Try, s, events) ensures Echoes(s, events) == 0 {
        WedgedForGood(s, events);
      }
    } else {
      var events := SendsAgain(s);
    }
  }

  // An echo times out and is repeated; the reply to the first attempt comes in time,
  // the reply to the second only while the next number is outstanding.
  const LATE_REPLY: seq<Event> := [
    Schedule, Work(Sent), WaitEnds, Timeout,
    Schedule, Work(Sent), Reply(0, true), WaitEnds,
    Schedule, Work(Sent), WaitEnds, Reply(0, true)]

  // Up to the timeout: a reply is still on its way, and nothing waits for it.
  lemma LateReplyIsLate()
    ensures CanRun(Try, START, LATE_REPLY[..4])
    ensures Run(Try, START, LATE_REPLY[..4]) == START.(network := [1])
  {
    hide Run, CanRun;
    var l := LATE_REPLY;
    assert l[..0] == [];
    RunNothing(Try, START);
    RunTo(Try, START, l, 0);
    RunTo(Try, START, l, 1);
    RunTo(Try, START, l, 2);
    RunTo(Try, START, l, 3);
  }

  // Up to the end of the repeated ping: the first reply was taken, the other is still on its way.
  lemma LateReplyMovesOn()
    ensures CanRun(Try, START, LATE_REPLY[..8])
    ensures Run(Try, START, LATE_REPLY[..8]) == State(1, 1, false, true, false, false, [1], 0, [1])
  {
    hide Run, CanRun;
    var l := LATE_REPLY;
    LateReplyIsLate();
    RunTo(Try, START, l, 4);
    RunTo(Try, START, l, 5);
    RunTo(Try, START, l, 6);
    RunTo(Try, START, l, 7);
  }

  /** That run accepts number one twice, and the machine never sends again. */
  lemma LateReplyWedges()
    ensures CanRun(Try, START, LATE_REPLY)
    ensures Run(Try, START, LATE_REPLY).accepted == [1, 1] && Wedged(Run(Try, START, LATE_REPLY))
  {
    hide Run, CanRun;
    var l := LATE_REPLY;
    LateReplyMovesOn();
    RunTo(Try, START, l, 8);
    RunTo(Try, START, l, 9);
    RunTo(Try, START, l, 10);
    RunTo(Try, START, l, 11);
    assert l[..12] == l;
  }

  const ROUND: seq<Event> := [Schedule, Work(Sent), Reply(0, true), WaitEnds, Timeout]

  function Rounds(n: nat): seq<Event> {
    if n == 0 then [] else Rounds(n - 1) + ROUND
  }

  // Everything quiet after n answered pings.
  predicate Rested(s: State, n: nat) {
    s == State(n, n, false, false, false, false, [], 0, s.accepted)
  }

  lemma OneRound(s: State, n: nat)
    requires Rested(s, n) && n + 1 < WIRE
    ensures CanRun(Try, s, ROUND) && Rested(Run(Try, s, ROUND), n + 1)
  {
    hide Run, CanRun;
    var l := ROUND;
    assert l[..0] == [] && l[..5] == l;
    RunNothing(Try, s);
    RunTo(Try, s, l, 0);
    RunTo(Try, s, l, 1);
    RunTo(Try, s, l, 2);
    RunTo(Try, s, l, 3);
    RunTo(Try, s, l, 4);
  }

  lemma {:induction false} ManyRounds(n: nat)
    requires n < WIRE
    ensures CanRun(Try, START, Rounds(n)) && Rested(Run(Try, START, Rounds(n)), n)
  {
    if n > 0 {
      ManyRounds(n - 1);
      OneRound(Run(Try, START, Rounds(n - 1)), n - 1);
      RunConcat(Try, START, Rounds(n - 1), ROUND);
    }
  }

  const LAST_PING: seq<Event> := [Schedule, Work(Sent), WaitEnds, Reply(0, true)]

  /** Without any late reply: 65535 pings answered during the wait, and one answered
      after it, whose number has wrapped to zero. */
  lemma WrapWedges()
    ensures var run := Rounds(WIRE - 1) + LAST_PING;
            CanRun(Try, START, run) && Wedged(Run(Try, START, run))
  {
    hide Run, CanRun, Rounds;
    ManyRounds(WIRE - 1);
    var s, l := Run(Try, START, Rounds(WIRE - 1)), LAST_PING;
    assert l[..0] == [] && l[..4] == l;
    RunNothing(Try, s);
    RunTo(Try, s, l, 0);
    RunTo(Try, s, l, 1);
    RunTo(Try, s, l, 2);
    RunTo(Try, s, l, 3);
    RunConcat(Try, START, Rounds(WIRE - 1), l);
  }

  // An echo is outstanding and only a reply can change that.
  predicate HangsOnReply(s: State) {
    s.outstanding > 0 && !s.timeoutPending && !s.waiting
  }

  // A reply that is dropped as malformed has already cancelled the timeout.
  lemma HangsExactlyWhen(s: State, e: Event)
    requires !HangsOnReply(s) && CanHappen(s, e)
    ensures HangsOnReply(Do(s, e)) <==> e.Reply? && !e.wellFormed && !s.waiting && s.outstanding > 0
  {
  }

  lemma {:induction false} HangsUntilReply(s: State, events: seq<Event>)
    requires Inv(s) && HangsOnReply(s) && CanRun(Try, s, events) && forall i | 0 <= i < |events| :: !events[i].Reply?
    ensures var s' := Run(Try, s, events);
            HangsOnReply(s') && s'.sequence == s.sequence && s'.accepted == s.accepted
    decreases |events|
  {
    if events != [] {
      assert !events[0].Reply?;
      StepKeepsInvExactlyWhen(s, events[0]);
      HangsUntilReply(Do(s, events[0]), events[1..]);
    }
  }

  const MALFORMED_REPLY: seq<Event> := [Schedule, Work(Sent), WaitEnds, Reply(0, false)]

  /** One ping whose only reply comes malformed after the wait: nothing is on its way
      that could end the hang, so the machine is wedged as well. */
  lemma MalformedReplyHangs()
    ensures CanRun(Try, START, MALFORMED_REPLY)
    ensures var s := Run(Try, START, MALFORMED_REPLY); HangsOnReply(s) && s.network == [] && Wedged(s)
  {
    hide Run, CanRun;
    var l := MALFORMED_REPLY;
    assert l[..0] == [] && l[..4] == l;
    RunNothing(Try, START);
    RunTo(Try, START, l, 0);
    RunTo(Try, START, l, 1);
    RunTo(Try, START, l, 2);
    RunTo(Try, START, l, 3);
  }

  // ---------------------------------------------------------------------------
  // The handlers over the file's static variables
  // ---------------------------------------------------------------------------

  class Pinger {
    var sequence: int
    var recvSeq: int
    var pingWork: bool
    var pingResponseTimeout: bool
    var waiting: bool
    var registered: bool
    var network: seq<int>
    var outstanding: nat
    var accepted: seq<int>

    function S(): State
      reads this
    {
      State(sequence, recvSeq, pingWork, pingResponseTimeout, waiting, registered, network, outstanding, accepted)
    }

    ghost predicate Valid()
      reads this
    {
      Inv(S())
    }

    constructor ()
      ensures S() == START && Valid()
    {
      sequence, recvSeq, pingWork, pingResponseTimeout, waiting := 0, 0, false, false, false;
      registered, network, outstanding, accepted := false, [], 0, [];
    }

    method PingSchedule()
      modifies this`pingWork
      ensures S() == Do(old(S()), Schedule) && pingWork
    {
      pingWork := true;
    }

    /** Up to the point where the handler blocks on the semaphore.  From a valid
        state an echo goes out exactly when sending succeeds and the counters agree;
        it is then the only one outstanding, and carries the number after the last
        accepted one.  If nothing goes out the handler does not wait. */
    method PingWorkHandler(outcome: Outcome)
      requires CanHappen(S(), Work(outcome))
      modifies this
      ensures S() == Do(old(S()), Work(outcome))
      ensures old(Valid()) ==> Valid()
      ensures old(Valid()) ==>
                var goesOut := outcome.Sent? && old(sequence == recvSeq);
                && network == old(network) + (if goesOut then [(|accepted| + 1) % WIRE] else [])
                && (goesOut ==> old(outstanding) == 0 && outstanding == 1) && waiting == goesOut
      // a failed attempt is repeated without a new schedule
      ensures pingWork <==> old(sequence <= recvSeq) && !outcome.Sent?
    {
      StepKeepsInvIfValid(Work(outcome));
      pingWork := false;
      if recvSeq < sequence {
        return;
      }
      sequence := sequence + 1;
      if outcome.InitFails? {
        sequence := recvSeq;
        pingWork := true;
        return;
      }
      registered := true;
      if outcome.SendFails? {
        sequence := recvSeq;
        pingWork := true;
        return;
      }
      network := network + [sequence % WIRE];
      outstanding := outstanding + 1;
      waiting := true;
    }

    // The rest of the handler: whatever happened during the wait, the machine is now
    // neither wedged nor hanging, because the timeout is scheduled.
    method PingWorkHandlerResumes()
      requires CanHappen(S(), WaitEnds)
      modifies this`waiting, this`pingResponseTimeout
      ensures S() == Do(old(S()), WaitEnds)
      ensures old(Valid()) ==> Valid()
      ensures !Wedged(S()) && !HangsOnReply(S()) && CanHappen(S(), Timeout)
    {
      StepKeepsInvIfValid(WaitEnds);
      waiting := false;
      pingResponseTimeout := true;
    }

    /** An accepted reply is the next number, and the state stays valid, exactly when
        it answers the outstanding echo; a malformed one is never accepted. */
    method HandlePingReply(which: nat, wellFormed: bool)
      requires CanHappen(S(), Reply(which, wellFormed))
      modifies this
      ensures S() == Do(old(S()), Reply(which, wellFormed))
      ensures old(Valid()) ==> (Valid() <==> old(Answers(S(), Reply(which, wellFormed))))
      ensures old(Valid()) && wellFormed && Valid() ==> accepted == old(accepted) + [(|old(accepted)| + 1) % WIRE]
      ensures !wellFormed ==> accepted == old(accepted) && recvSeq == old(recvSeq)
      ensures !pingResponseTimeout && (wellFormed ==> !registered && outstanding == 0)
    {
      StepKeepsInvIfValid(Reply(which, wellFormed));
      pingResponseTimeout := false;
      var number := network[which];
      network := Without(network, which);
      if !wellFormed {
        return;
      }
      recvSeq := number;
      accepted := accepted + [number];
      registered := false;
      outstanding := 0;
    }

    // Nothing is outstanding any more, and the next run of the work item can send.
    method PingResponseTimeoutHandler()
      requires CanHappen(S(), Timeout)
      modifies this
      ensures S() == Do(old(S()), Timeout)
      ensures old(Valid()) ==> Valid()
      ensures accepted == old(accepted) && !registered && !pingResponseTimeout
      ensures outstanding == 0 && !(recvSeq < sequence) && !Wedged(S()) && !HangsOnReply(S())
    {
      StepKeepsInvIfValid(Timeout);
      pingResponseTimeout := false;
      registered := false;
      outstanding := 0;
      sequence := recvSeq;
    }

    lemma StepKeepsInvIfValid(e: Event)
      requires CanHappen(S(), e)
      ensures Valid() ==> (Inv(Do(S(), e)) <==> Answers(S(), e))
    {
      if Valid() {
        StepKeepsInvExactlyWhen(S(), e);
      }
    }

    method TakeEvent(e: Event)
      requires CanHappen(S(), e)
      modifies this
      ensures S() == Do(old(S()), e)
    {
      match e
      case Schedule => PingSchedule();
      case Work(o) => PingWorkHandler(o);
      case WaitEnds => PingWorkHandlerResumes();
      case Reply(i, ok) => HandlePingReply(i, ok);
      case Lost(i) => network := Without(network, i);
      case Timeout => PingResponseTimeoutHandler();
    }

    /** The handlers in any order, each event taken if it is possible in its turn.  If
        every accepted reply answered the outstanding echo, the k-th of them carried
        number k; and exactly then was the state valid all along. */
    method Drive(events: seq<Event>)
      requires Valid()
      modifies this
      ensures S() == Run(Try, old(S()), Taken(Try, old(S()), events))
      ensures AlwaysInv(old(S()), Taken(Try, old(S()), events)) <==> AllAnswer(old(S()), Taken(Try, old(S()), events))
      ensures AllAnswer(old(S()), Taken(Try, old(S()), events)) ==>
                && Valid() && outstanding <= 1
                && (forall k | 1 <= k <= |accepted| :: accepted[k - 1] == k % 0x1_0000)
                && (|accepted| < 0x1_0000 ==> sequence == recvSeq || sequence == recvSeq + 1)
    {
      hide Do, CanHappen, Run, CanRun, AllAnswer, AlwaysInv, Inv, Taken;
      ghost var s := S();
      RunNothing(Try, s);
      TakenNone(Try, s);
      for i := 0 to |events|
        invariant S() == Run(Try, s, Taken(Try, s, events[..i]))
      {
        TakenThen(Try, s, events, i);
        if CanHappen(S(), events[i]) {
          TakeEvent(events[i]);
        }
      }
      assert events[..|events|] == events;
      NumberingHoldsExactlyWhen(s, Taken(Try, s, events));
      if AllAnswer(s, Taken(Try, s, events)) {
        EveryRun(s, Taken(Try, s, events));
      }
    }
  }
}
