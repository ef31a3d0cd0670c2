/** What a run of the BLE-to-UART bridge is given, and which events come of it.
    Interrupts and threads are served when they can happen and skipped when they
    cannot; a write asks for one iteration of `bt_receive_cb` after the other, until
    an allocation is refused. */
module Schedule {
  import opened Bytes
  import opened BridgeState
  import Segmentation

  // What surrounds one iteration of a write: whether its k_malloc succeeds, then interrupts.
  datatype Turn = Turn(mem: bool, interrupts: seq<Event>)

  datatype Input = Interrupt(event: Event) | Write(data: seq<byte>, script: seq<Turn>)

  datatype Ask = Raise(event: Event) | Iteration(payload: seq<byte>, mem: bool)

  // Past the end of a script every allocation succeeds and nothing interrupts.
  function Now(script: seq<Turn>): Turn {
    if script == [] then Turn(true, []) else script[0]
  }

  function Later(script: seq<Turn>): seq<Turn> {
    if script == [] then [] else script[1..]
  }

  function Raised(events: seq<Event>): seq<Ask> {
    seq(|events|, i requires 0 <= i < |events| => Raise(events[i]))
  }

  function Iterations(segs: seq<seq<byte>>, script: seq<Turn>): seq<Ask> {
    if segs == [] then []
    else if !Now(script).mem then [Iteration(segs[0], false)]
    else [Iteration(segs[0], true)] + Raised(Now(script).interrupts) + Iterations(segs[1..], Later(script))
  }

  function Asks(input: Input, size: nat): seq<Ask>
    requires 2 <= size
  {
    match input
    case Interrupt(e) => [Raise(e)]
    case Write(data, script) => Iterations(Segmentation.Segments(data, 0, size), script)
  }

  function AllAsks(inputs: seq<Input>, size: nat): seq<Ask>
    requires 2 <= size
  {
    if inputs == [] then [] else AllAsks(inputs[..|inputs| - 1], size) + Asks(inputs[|inputs| - 1], size)
  }

  // What the iteration at `pos` is asked, and what is asked after it.
  lemma IterationsAdvance(data: seq<byte>, pos: nat, script: seq<Turn>, size: nat)
    requires pos < |data| && 2 <= size
    ensures var turn, next := Now(script), Segmentation.Next(|data|, pos, size);
            Iterations(Segmentation.Segments(data, pos, size), script) ==
            [Iteration(Segmentation.Segment(data, pos, size), turn.mem)] +
            if !turn.mem then []
            else Raised(turn.interrupts) + Iterations(Segmentation.Segments(data, next, size), Later(script))
  {
    var segs := Segmentation.Segments(data, pos, size);
    assert segs[0] == Segmentation.Segment(data, pos, size);
    assert segs[1..] == Segmentation.Segments(data, Segmentation.Next(|data|, pos, size), size);
  }

  lemma IterationsEnd(data: seq<byte>, script: seq<Turn>, size: nat)
    requires 2 <= size
    ensures Iterations(Segmentation.Segments(data, |data|, size), script) == []
  {
  }

  // ---------------------------------------------------------------------------
  // Which events serve what was asked
  // ---------------------------------------------------------------------------

  predicate CanServe(s: State, e: Event, size: nat) {
    CanHappen(s, e, size) && !e.Segment?
  }

  predicate IsIteration(e: Event, p: seq<byte>, mem: bool) {
    e.Segment? && e.payload == p && (e.grant.Block? <==> mem)
  }

  /** `trace` is a run from `s` that does what was asked, in order: each interrupt at
      its moment exactly if it can happen there, each iteration with its own payload. */
  predicate Serves(s: State, asks: seq<Ask>, trace: seq<Event>, size: nat)
    ensures Serves(s, asks, trace, size) ==> RunCanHappen(s, trace, size)
    decreases |asks|
  {
    && RunCanHappen(s, trace, size)
    && if asks == [] then trace == []
       else
         var before := asks[..|asks| - 1];
         match asks[|asks| - 1]
         case Raise(e) =>
           || (Serves(s, before, trace, size) && !CanServe(Run(s, trace, size), e, size))
           || (trace != [] && trace[|trace| - 1] == e && Serves(s, before, trace[..|trace| - 1], size)
               && CanServe(Run(s, trace[..|trace| - 1], size), e, size))
         case Iteration(p, mem) =>
           trace != [] && IsIteration(trace[|trace| - 1], p, mem) && Serves(s, before, trace[..|trace| - 1], size)
  }

  lemma {:induction false} RunConcat(s: State, t: seq<Event>, u: seq<Event>, size: nat)
    requires RunCanHappen(s, t, size) && RunCanHappen(Run(s, t, size), u, size)
    ensures RunCanHappen(s, t + u, size) && Run(s, t + u, size) == Run(Run(s, t, size), u, size)
    decreases |t|
  {
    hide Step, CanHappen;
    if t == [] {
      assert t + u == u;
    } else {
      assert (t + u)[0] == t[0] && (t + u)[1..] == t[1..] + u;
      RunConcat(Step(s, t[0], size), t[1..], u, size);
    }
  }

  lemma ServesNothing(s: State, size: nat)
    ensures Serves(s, [], [], size) && RunCanHappen(s, [], size) && Run(s, [], size) == s
  {
  }

  // One more iteration, and one more interrupt: served, or skipped.
  lemma ServesIteration(s: State, asks: seq<Ask>, trace: seq<Event>, e: Event, mem: bool, size: nat)
    requires Serves(s, asks, trace, size) && e.Segment? && (e.grant.Block? <==> mem)
    requires CanHappen(Run(s, trace, size), e, size)
    ensures Serves(s, asks + [Iteration(e.payload, mem)], trace + [e], size)
    ensures Run(s, trace + [e], size) == Step(Run(s, trace, size), e, size)
  {
    hide Step, CanHappen, Run, RunCanHappen;
    RunOne(Run(s, trace, size), e, size);
    RunConcat(s, trace, [e], size);
    assert (asks + [Iteration(e.payload, mem)])[..|asks|] == asks && (trace + [e])[..|trace|] == trace;
  }

  lemma ServesRaise(s: State, asks: seq<Ask>, trace: seq<Event>, e: Event, size: nat)
    requires Serves(s, asks, trace, size)
    ensures var now := Run(s, trace, size);
            if CanServe(now, e, size)
            then Serves(s, asks + [Raise(e)], trace + [e], size) && Run(s, trace + [e], size) == Step(now, e, size)
            else Serves(s, asks + [Raise(e)], trace, size)
  {
    hide Step, CanHappen, Run, RunCanHappen;
    assert (asks + [Raise(e)])[..|asks|] == asks && (trace + [e])[..|trace|] == trace;
    if CanServe(Run(s, trace, size), e, size) {
      RunOne(Run(s, trace, size), e, size);
      RunConcat(s, trace, [e], size);
    }
  }

  // Serving one thing and then another is serving both.
  lemma {:induction false} ServesConcat(s: State, a: seq<Ask>, t: seq<Event>, b: seq<Ask>, u: seq<Event>, size: nat)
    requires Serves(s, a, t, size) && Serves(Run(s, t, size), b, u, size)
    ensures Serves(s, a + b, t + u, size) && Run(s, t + u, size) == Run(Run(s, t, size), u, size)
    decreases |b|
  {
    hide Step, CanHappen, CanServe, Run, RunCanHappen;
    var m := Run(s, t, size);
    RunConcat(s, t, u, size);
    if b == [] {
      assert a + b == a && t + u == t;
    } else {
      var before := b[..|b| - 1];
      assert (a + b)[..|a + b| - 1] == a + before && (a + b)[|a + b| - 1] == b[|b| - 1];
      if Serves(m, before, u, size) {
        ServesConcat(s, a, t, before, u, size);
      }
      if u != [] && Serves(m, before, u[..|u| - 1], size) {
        ServesConcat(s, a, t, before, u[..|u| - 1], size);
        assert (t + u)[..|t + u| - 1] == t + u[..|u| - 1];
      }
    }
  }

  /** An event that is asked for after `before` has its moment in the trace, and happens
      there exactly if it can. */
  predicate RaisedInTurn(s: State, before: seq<Ask>, e: Event, trace: seq<Event>, size: nat) {
    exists k | 0 <= k <= |trace| :: Serves(s, before, trace[..k], size) && HappensAt(s, e, trace, k, size)
  }

  predicate HappensAt(s: State, e: Event, trace: seq<Event>, k: nat, size: nat)
    requires k <= |trace| && RunCanHappen(s, trace[..k], size)
  {
    CanServe(Run(s, trace[..k], size), e, size) ==> k < |trace| && trace[k] == e
  }

  // What serves a list of asks begins with what serves the first of them.
  lemma {:induction false} AskIsRaised(s: State, asks: seq<Ask>, trace: seq<Event>, i: nat, size: nat)
    requires Serves(s, asks, trace, size) && i < |asks| && asks[i].Raise?
    ensures RaisedInTurn(s, asks[..i], asks[i].event, trace, size)
    decreases |asks|
  {
    hide Step, CanHappen, CanServe, Run, RunCanHappen;
    var n := |asks| - 1;
    var before, e := asks[..n], asks[i].event;
    assert trace[..|trace|] == trace;
    if i == n {
      if Serves(s, before, trace, size) && !CanServe(Run(s, trace, size), e, size) {
        assert HappensAt(s, e, trace, |trace|, size);
      } else {
        assert HappensAt(s, e, trace, |trace| - 1, size);
      }
    } else {
      assert before[..i] == asks[..i];
      if Serves(s, before, trace, size) {
        AskIsRaised(s, before, trace, i, size);
      } else {
        var shorter := trace[..|trace| - 1];
        AskIsRaised(s, before, shorter, i, size);
        var k :| 0 <= k <= |shorter| && Serves(s, asks[..i], shorter[..k], size) && HappensAt(s, e, shorter, k, size);
        assert shorter[..k] == trace[..k];
        assert HappensAt(s, e, trace, k, size);
      }
    }
  }

  lemma {:induction false} AsksBefore(inputs: seq<Input>, i: nat, size: nat)
    requires i < |inputs| && 2 <= size
    ensures AllAsks(inputs[..i], size) + Asks(inputs[i], size) <= AllAsks(inputs, size)
    decreases |inputs|
  {
    hide Asks;
    var n := |inputs| - 1;
    if i < n {
      AsksBefore(inputs[..n], i, size);
      assert inputs[..n][..i] == inputs[..i];
    }
  }

  // Every interrupt that is given is raised after all that was given before it.
  lemma InterruptIsRaised(s: State, inputs: seq<Input>, trace: seq<Event>, i: nat, size: nat)
    requires 2 <= size && Serves(s, AllAsks(inputs, size), trace, size) && i < |inputs| && inputs[i].Interrupt?
    ensures RaisedInTurn(s, AllAsks(inputs[..i], size), inputs[i].event, trace, size)
  {
    hide AllAsks, Serves, RaisedInTurn;
    AsksBefore(inputs, i, size);
    var before, all := AllAsks(inputs[..i], size), AllAsks(inputs, size);
    assert all[..|before|] == before && all[|before|] == Raise(inputs[i].event);
    AskIsRaised(s, all, trace, |before|, size);
  }

  // What a write asks up to the interrupts of its j-th turn.
  lemma {:induction false} TurnIsAsked(segs: seq<seq<byte>>, script: seq<Turn>, j: nat)
    requires j < Leading(script, |segs|) && j < |script|
    ensures Iterations(segs[..j], script) + [Iteration(segs[j], true)] + Raised(script[j].interrupts)
         <= Iterations(segs, script)
  {
    if j > 0 {
      TurnIsAsked(segs[1..], script[1..], j - 1);
      assert segs[..j][1..] == segs[1..][..j - 1];
    }
  }

  lemma AskedAt(front: seq<Ask>, events: seq<Event>, asks: seq<Ask>, m: nat)
    requires front + Raised(events) <= asks && m < |events|
    ensures |front| + m < |asks| && asks[|front| + m] == Raise(events[m])
    ensures asks[..|front| + m] == front + Raised(events[..m])
  {
    var all := front + Raised(events);
    assert asks[..|all|] == all;
    assert asks[|front| + m] == all[|front| + m];
    assert all[..|front| + m] == front + Raised(events[..m]);
  }

  /** And so is every interrupt that comes between two iterations of a write: after the
      iterations so far, and the interrupts between and before it. */
  lemma TurnIsRaised(s: State, data: seq<byte>, script: seq<Turn>, trace: seq<Event>, j: nat, m: nat, size: nat)
    requires 2 <= size && Serves(s, Asks(Write(data, script), size), trace, size)
    requires j < |Passed(data, script, size)| && j < |script| && m < |script[j].interrupts|
    ensures var segs := Segmentation.Segments(data, 0, size);
            RaisedInTurn(s, Iterations(segs[..j], script) + [Iteration(segs[j], true)]
                            + Raised(script[j].interrupts[..m]), script[j].interrupts[m], trace, size)
  {
    hide RaisedInTurn, Serves, Iterations, Raised, Segmentation.Segments;
    var segs := Segmentation.Segments(data, 0, size);
    var front, asks := Iterations(segs[..j], script) + [Iteration(segs[j], true)], Iterations(segs, script);
    TurnIsAsked(segs, script, j);
    AskedAt(front, script[j].interrupts, asks, m);
    AskIsRaised(s, asks, trace, |front| + m, size);
  }

  // ---------------------------------------------------------------------------
  // The bytes such a run accepts
  // ---------------------------------------------------------------------------

  // How many of the first `most` turns come before a refused allocation.
  function Leading(script: seq<Turn>, most: nat): (n: nat)
    ensures n <= most
    ensures forall i | 0 <= i < n && i < |script| :: script[i].mem
    ensures n < most ==> n < |script| && !script[n].mem
  {
    if most == 0 || !Now(script).mem then 0 else 1 + Leading(Later(script), most - 1)
  }

  // The buffers of a write that are accepted: those before the first refused allocation.
  function Passed(data: seq<byte>, script: seq<Turn>, size: nat): seq<seq<byte>>
    requires 2 <= size
  {
    var segs := Segmentation.Segments(data, 0, size);
    segs[..Leading(script, |segs|)]
  }

  function BytesOf(input: Input, size: nat): seq<byte>
    requires 2 <= size
  {
    if input.Write? then Flatten(Passed(input.data, input.script, size)) else []
  }

  function InputBytes(inputs: seq<Input>, size: nat): seq<byte>
    requires 2 <= size
  {
    if inputs == [] then [] else InputBytes(inputs[..|inputs| - 1], size) + BytesOf(inputs[|inputs| - 1], size)
  }

  function AskedBytes(asks: seq<Ask>): seq<byte> {
    if asks == [] then []
    else AskedBytes(asks[..|asks| - 1]) + BytesAsked(asks[|asks| - 1])
  }

  function BytesAsked(ask: Ask): seq<byte> {
    if ask.Iteration? && ask.mem then ask.payload else []
  }

  lemma {:induction false} AcceptedInSnoc(trace: seq<Event>, e: Event)
    ensures AcceptedIn(trace + [e]) == AcceptedIn(trace) + AcceptedBy(e)
  {
    if trace == [] {
      assert trace + [e] == [e] && [e][1..] == [];
    } else {
      assert (trace + [e])[0] == trace[0] && (trace + [e])[1..] == trace[1..] + [e];
      AcceptedInSnoc(trace[1..], e);
      Regroup(AcceptedBy(trace[0]), AcceptedIn(trace[1..]), AcceptedBy(e));
    }
  }

  lemma AcceptedInNothing()
    ensures AcceptedIn([]) == []
  {
  }

  // Whatever serves a list of asks accepts exactly the bytes of its granted iterations.
  lemma {:induction false} ServedBytes(s: State, asks: seq<Ask>, trace: seq<Event>, size: nat)
    requires Serves(s, asks, trace, size)
    ensures AcceptedIn(trace) == AskedBytes(asks)
    decreases |asks|
  {
    hide Step, CanHappen, Run, RunCanHappen, AcceptedIn;
    AcceptedInNothing();
    if asks != [] {
      var before := asks[..|asks| - 1];
      if Serves(s, before, trace, size) {
        ServedBytes(s, before, trace, size);
      }
      if trace != [] && Serves(s, before, trace[..|trace| - 1], size) {
        ServedBytes(s, before, trace[..|trace| - 1], size);
        assert trace == trace[..|trace| - 1] + [trace[|trace| - 1]];
        AcceptedInSnoc(trace[..|trace| - 1], trace[|trace| - 1]);
      }
    }
  }

  lemma {:induction false} AskedConcat(a: seq<Ask>, b: seq<Ask>)
    ensures AskedBytes(a + b) == AskedBytes(a) + AskedBytes(b)
    decreases |b|
  {
    if b == [] {
      assert a + b == a;
    } else {
      var front, last := b[..|b| - 1], b[|b| - 1];
      assert (a + b)[..|a + b| - 1] == a + front && (a + b)[|a + b| - 1] == last;
      AskedConcat(a, front);
      Regroup(AskedBytes(a), AskedBytes(front), BytesAsked(last));
    }
  }

  lemma {:induction false} RaisedBytes(events: seq<Event>)
    ensures AskedBytes(Raised(events)) == []
  {
    if events != [] {
      RaisedBytes(events[..|events| - 1]);
      assert Raised(events)[..|events| - 1] == Raised(events[..|events| - 1]);
    }
  }

  lemma AskedNothing()
    ensures AskedBytes([]) == []
  {
  }

  // An iteration and its interrupts bring their payload, or nothing if refused.
  lemma TurnBytes(payload: seq<byte>, turn: Turn)
    ensures AskedBytes([Iteration(payload, turn.mem)]) == if turn.mem then payload else []
    ensures turn.mem ==> AskedBytes([Iteration(payload, true)] + Raised(turn.interrupts)) == payload
  {
    var first := Iteration(payload, turn.mem);
    assert [first][..0] == [];
    assert AskedBytes([first]) == AskedBytes([]) + BytesAsked(first);
    AskedConcat([first], Raised(turn.interrupts));
    RaisedBytes(turn.interrupts);
  }

  lemma {:induction false} IterationsBytes(segs: seq<seq<byte>>, script: seq<Turn>)
    ensures AskedBytes(Iterations(segs, script)) == Flatten(segs[..Leading(script, |segs|)])
  {
    hide AskedBytes, Raised;
    if segs != [] {
      var turn := Now(script);
      TurnBytes(segs[0], turn);
      if turn.mem {
        AskedConcat([Iteration(segs[0], true)] + Raised(turn.interrupts), Iterations(segs[1..], Later(script)));
        IterationsBytes(segs[1..], Later(script));
        var n := Leading(Later(script), |segs| - 1);
        assert segs[..1 + n][0] == segs[0] && segs[..1 + n][1..] == segs[1..][..n];
      }
    } else {
      AskedNothing();
    }
  }

  lemma {:induction false} AllAsksBytes(inputs: seq<Input>, size: nat)
    requires 2 <= size
    ensures AskedBytes(AllAsks(inputs, size)) == InputBytes(inputs, size)
  {
    if inputs != [] {
      var front, last := inputs[..|inputs| - 1], inputs[|inputs| - 1];
      AllAsksBytes(front, size);
      AskedConcat(AllAsks(front, size), Asks(last, size));
      match last
      case Interrupt(e) => assert [Raise(e)][..0] == [];
      case Write(data, script) => IterationsBytes(Segmentation.Segments(data, 0, size), script);
    }
  }

  // ---------------------------------------------------------------------------
  // What that means for each write
  // ---------------------------------------------------------------------------

  // The script refuses no allocation that a write of these buffers needs.
  predicate NoneRefused(data: seq<byte>, script: seq<Turn>, size: nat)
    requires 2 <= size
  {
    forall i | 0 <= i < |script| && i < |Segmentation.Segments(data, 0, size)| :: script[i].mem
  }

  /** One write: a prefix of it when an allocation it needs is refused, and then
      never the whole; otherwise the translated write. */
  lemma WriteArrivesExactlyWhen(data: seq<byte>, script: seq<Turn>, size: nat)
    requires 2 <= size
    ensures var bytes := BytesOf(Write(data, script), size);
            && (bytes == Segmentation.Translated(data) <==> NoneRefused(data, script, size))
            && (!NoneRefused(data, script, size) ==> bytes < data)
  {
    var segs := Segmentation.Segments(data, 0, size);
    var n := Leading(script, |segs|);
    Segmentation.SentMeans(data, size, n);
    if n < |segs| {
      assert !NoneRefused(data, script, size);
    }
  }

  predicate AllGranted(inputs: seq<Input>, size: nat)
    requires 2 <= size
  {
    forall i | 0 <= i < |inputs| && inputs[i].Write? :: NoneRefused(inputs[i].data, inputs[i].script, size)
  }

  function Writes(inputs: seq<Input>): seq<seq<byte>> {
    if inputs == [] then []
    else
      var last := inputs[|inputs| - 1];
      Writes(inputs[..|inputs| - 1]) + if last.Write? then [Segmentation.Translated(last.data)] else []
  }

  /** With no allocation refused the bytes of a run are its translated writes, in order. */
  lemma {:induction false} InputBytesAreWrites(inputs: seq<Input>, size: nat)
    requires 2 <= size && AllGranted(inputs, size)
    ensures InputBytes(inputs, size) == Flatten(Writes(inputs))
  {
    if inputs != [] {
      var front, last := inputs[..|inputs| - 1], inputs[|inputs| - 1];
      assert AllGranted(front, size);
      InputBytesAreWrites(front, size);
      if last.Write? {
        WriteArrivesExactlyWhen(last.data, last.script, size);
        FlattenSnoc(Writes(front), Segmentation.Translated(last.data));
      } else {
        assert Writes(front) + [] == Writes(front);
      }
    }
  }
}
