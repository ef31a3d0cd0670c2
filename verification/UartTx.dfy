/** The transmit direction of the BLE-to-UART bridge as its designer would
    describe it: one transfer at a time, a FIFO of payloads behind it, and
    transfers that may be interrupted and resumed.  No pointers, no heap.
    `UartBridge` proves that the pointer code is this machine. */
module UartTx {
  import opened Bytes

  datatype Transfer = Idle | Sending(payload: seq<byte>, sent: nat)

  datatype Tx = Tx(wire: seq<byte>, transfer: Transfer, fifo: seq<seq<byte>>)

  datatype TxEvent = Accept(payload: seq<byte>) | Done | Aborted(n: nat)

  const START := Tx([], Idle, [])

  // A waiting payload implies a running transfer, and nothing empty is ever sent.
  predicate WellFormed(t: Tx) {
    && (t.transfer.Sending? ==> t.transfer.sent < |t.transfer.payload|)
    && (t.transfer.Idle? ==> t.fifo == [])
    && (forall i | 0 <= i < |t.fifo| :: t.fifo[i] != [])
  }

  /** What the serial driver promises: completion and abort events only concern
      a running transfer, and an abort reports fewer bytes than were requested. */
  predicate Enabled(t: Tx, e: TxEvent) {
    match e
    case Accept(p) => p != []
    case Done => t.transfer.Sending?
    case Aborted(n) => t.transfer.Sending? && t.transfer.sent + n < |t.transfer.payload|
  }

  function Rest(t: Transfer): seq<byte> {
    if t.Sending? && t.sent <= |t.payload| then t.payload[t.sent..] else []
  }

  // All accepted bytes that are not on the wire yet, in order.
  function Pending(t: Tx): seq<byte> {
    Rest(t.transfer) + Flatten(t.fifo)
  }

  function Step(t: Tx, e: TxEvent): Tx
    requires Enabled(t, e)
  {
    match e
    case Accept(p) =>
      if t.transfer.Idle? then t.(transfer := Sending(p, 0)) else t.(fifo := t.fifo + [p])
    case Done =>
      var wire := t.wire + Rest(t.transfer);
      if t.fifo == [] then Tx(wire, Idle, []) else Tx(wire, Sending(t.fifo[0], 0), t.fifo[1..])
    case Aborted(n) =>
      var sent := t.transfer.sent;
      Tx(t.wire + t.transfer.payload[sent..sent + n], Sending(t.transfer.payload, sent + n), t.fifo)
  }

  predicate RunEnabled(t: Tx, events: seq<TxEvent>)
    decreases |events|
  {
    events != [] ==> Enabled(t, events[0]) && RunEnabled(Step(t, events[0]), events[1..])
  }

  function Run(t: Tx, events: seq<TxEvent>): Tx
    requires RunEnabled(t, events)
    decreases |events|
  {
    if events == [] then t else Run(Step(t, events[0]), events[1..])
  }

  function Accepted(events: seq<TxEvent>): seq<byte> {
    if events == [] then []
    else (if events[0].Accept? then events[0].payload else []) + Accepted(events[1..])
  }

  lemma StepKeepsWellFormed(t: Tx, e: TxEvent)
    requires WellFormed(t) && Enabled(t, e)
    ensures WellFormed(Step(t, e))
  {
  }

  lemma AcceptConserves(t: Tx, p: seq<byte>)
    requires WellFormed(t) && p != []
    ensures var t' := Step(t, Accept(p)); t'.wire + Pending(t') == t.wire + Pending(t) + p
  {
    if t.transfer.Idle? {
      assert Pending(t) == [] && Pending(Step(t, Accept(p))) == p;
    } else {
      FlattenSnoc(t.fifo, p);
      var rest, queued := Rest(t.transfer), Flatten(t.fifo);
      assert t.wire + (rest + (queued + p)) == t.wire + (rest + queued) + p;
    }
  }

  lemma DoneConserves(t: Tx)
    requires WellFormed(t) && t.transfer.Sending?
    ensures var t' := Step(t, Done); t'.wire + Pending(t') == t.wire + Pending(t)
  {
    var rest, queued := Rest(t.transfer), Flatten(t.fifo);
    assert Pending(Step(t, Done)) == queued;
    assert t.wire + rest + queued == t.wire + (rest + queued);
  }

  lemma AbortedConserves(t: Tx, n: nat)
    requires WellFormed(t) && Enabled(t, Aborted(n))
    ensures var t' := Step(t, Aborted(n)); t'.wire + Pending(t') == t.wire + Pending(t)
  {
    var p, s, queued := t.transfer.payload, t.transfer.sent, Flatten(t.fifo);
    assert p[s..] == p[s..s + n] + p[s + n..];
    assert t.wire + p[s..s + n] + (p[s + n..] + queued) == t.wire + (p[s..] + queued);
  }

  lemma StepConserves(t: Tx, e: TxEvent)
    requires WellFormed(t) && Enabled(t, e)
    ensures WellFormed(Step(t, e))
    ensures var t' := Step(t, e);
            t'.wire + Pending(t') == t.wire + Pending(t) + (if e.Accept? then e.payload else [])
  {
    StepKeepsWellFormed(t, e);
    assert t.wire + Pending(t) + [] == t.wire + Pending(t);
    match e
    case Accept(p) => AcceptConserves(t, p);
    case Done => DoneConserves(t);
    case Aborted(n) => AbortedConserves(t, n);
  }

  /** Every run: what is on the wire, then the unsent rest of the transfer, then
      the FIFO, is exactly what was accepted, in arrival order.  However often a
      transfer is aborted, no byte is repeated, skipped or reordered. */
  lemma {:induction false} RunConserves(t: Tx, events: seq<TxEvent>)
    requires WellFormed(t) && RunEnabled(t, events)
    ensures WellFormed(Run(t, events))
    ensures var t' := Run(t, events);
            t'.wire + Pending(t') == t.wire + Pending(t) + Accepted(events)
    decreases |events|
  {
    hide Step, Pending, WellFormed;
    if events == [] {
      assert t.wire + Pending(t) + [] == t.wire + Pending(t);
    } else {
      var e, t1, later := events[0], Step(t, events[0]), Accepted(events[1..]);
      StepConserves(t, e);
      RunConserves(t1, events[1..]);
      var first := if e.Accept? then e.payload else [];
      assert t.wire + Pending(t) + first + later == t.wire + Pending(t) + (first + later);
    }
  }

  // Whenever the driver has gone idle, everything accepted has been sent.
  lemma IdleMeansAllSent(events: seq<TxEvent>)
    requires RunEnabled(START, events) && Run(START, events).transfer.Idle?
    ensures Run(START, events).wire == Accepted(events)
  {
    RunConserves(START, events);
    var t := Run(START, events);
    assert t.wire + Pending(t) == t.wire;
    assert START.wire + Pending(START) + Accepted(events) == Accepted(events);
  }

  // ---------------------------------------------------------------------------
  // Progress
  // ---------------------------------------------------------------------------

  predicate DriverOnly(events: seq<TxEvent>) {
    forall i | 0 <= i < |events| :: !events[i].Accept?
  }

  function Completions(events: seq<TxEvent>): nat {
    if events == [] then 0 else (if events[0].Done? then 1 else 0) + Completions(events[1..])
  }

  // Transfers left to complete: the running one and those queued.
  function Outstanding(t: Tx): nat {
    if t.transfer.Idle? then 0 else |t.fifo| + 1
  }

  lemma {:induction false} NothingAccepted(events: seq<TxEvent>)
    requires DriverOnly(events)
    ensures Accepted(events) == []
  {
    if events != [] {
      assert DriverOnly(events[1..]) && !events[0].Accept?;
      NothingAccepted(events[1..]);
    }
  }

  lemma {:induction false} CompletionsCount(t: Tx, events: seq<TxEvent>)
    requires WellFormed(t) && DriverOnly(events) && RunEnabled(t, events)
    ensures Outstanding(Run(t, events)) + Completions(events) == Outstanding(t)
    decreases |events|
  {
    if events != [] {
      assert DriverOnly(events[1..]) && !events[0].Accept?;
      StepKeepsWellFormed(t, events[0]);
      CompletionsCount(Step(t, events[0]), events[1..]);
    }
  }

  /** Progress from any state, however many aborts are in between: without further
      writes the driver goes idle exactly with the last outstanding completion, and
      then everything that was pending is on the wire, in order. */
  lemma DrainsExactlyWhen(t: Tx, events: seq<TxEvent>)
    requires WellFormed(t) && DriverOnly(events) && RunEnabled(t, events)
    ensures var t' := Run(t, events);
            && (t'.transfer.Idle? <==> Completions(events) == Outstanding(t))
            && (t'.transfer.Idle? ==> t'.fifo == [] && t'.wire == t.wire + Pending(t))
  {
    CompletionsCount(t, events);
    RunConserves(t, events);
    NothingAccepted(events);
    var t' := Run(t, events);
    if t'.transfer.Idle? {
      assert t'.wire + Pending(t') == t'.wire && t.wire + Pending(t) + [] == t.wire + Pending(t);
    }
  }

  // And those completions can always come: nothing else is waited for.
  lemma {:induction false} CompletionsDrain(t: Tx, events: seq<TxEvent>)
    requires WellFormed(t) && |events| == Outstanding(t) && forall i | 0 <= i < |events| :: events[i].Done?
    ensures RunEnabled(t, events) && Run(t, events).transfer.Idle?
    decreases |events|
  {
    if events != [] {
      assert events[0].Done?;
      StepKeepsWellFormed(t, Done);
      CompletionsDrain(Step(t, Done), events[1..]);
    }
  }

  // ---------------------------------------------------------------------------
  // The window between a refused uart_tx and the k_fifo_put that follows it
  // ---------------------------------------------------------------------------

  // The second half of an iteration: the payload uart_tx refused is queued, unconditionally.
  function Put(t: Tx, p: seq<byte>): Tx {
    t.(fifo := t.fifo + [p])
  }

  predicate Stranded(t: Tx) {
    t.transfer.Idle? && t.fifo != []
  }

  /** Splitting an iteration open is harmless exactly as long as the interrupts
      in the window complete no more transfers than were queued before it. With
      one more completion the payload is queued on an idle driver and stays there. */
  lemma {:induction false} WindowIsHarmlessExactlyWhen(t: Tx, p: seq<byte>, window: seq<TxEvent>)
    requires WellFormed(t) && t.transfer.Sending? && p != []
    requires DriverOnly(window) && RunEnabled(t, window)
    ensures RunEnabled(Step(t, Accept(p)), window)
    ensures Completions(window) <= |t.fifo| + 1
    ensures Put(Run(t, window), p) == Run(Step(t, Accept(p)), window) <==> Completions(window) <= |t.fifo|
    ensures Stranded(Put(Run(t, window), p)) <==> Completions(window) == |t.fifo| + 1
    decreases |window|
  {
    if window != [] {
      var e, u := window[0], Step(t, window[0]);
      StepConserves(t, e);
      assert DriverOnly(window[1..]);
      if u.transfer.Sending? {
        assert Step(Step(t, Accept(p)), e) == Step(u, Accept(p)) by {
          if e.Done? {
            assert (t.fifo + [p])[1..] == t.fifo[1..] + [p];
          }
        }
        WindowIsHarmlessExactlyWhen(u, p, window[1..]);
      } else {
        NothingFollowsIdle(u, window[1..]);
      }
    }
  }

  lemma NothingFollowsIdle(t: Tx, events: seq<TxEvent>)
    requires t.transfer.Idle? && DriverOnly(events) && RunEnabled(t, events)
    ensures events == []
  {
  }

  /** A concrete reordering: TX_DONE arrives between the refused uart_tx of `b`
      and its k_fifo_put, so the later payload `c` overtakes `b` on the wire. */
  lemma StrandedPayloadIsOvertaken(a: byte, b: byte, c: byte)
    ensures var t0 := Step(START, Accept([a]));
            var t1 := Put(Step(t0, Done), [b]);
            var later := [Accept([c]), Done, Done];
            Stranded(t1) && RunEnabled(t1, later) && Run(t1, later).wire == [a, c, b]
  {
    var t1 := Put(Step(Step(START, Accept([a])), Done), [b]);
    var t2 := Step(t1, Accept([c]));
    var t3 := Step(t2, Done);
    assert t3 == Tx([a, c], Sending([b], 0), []);
    assert RunEnabled(t3, [Done]) && Run(t3, [Done]).wire == [a, c, b];
    assert [Accept([c]), Done, Done][1..] == [Done, Done] && [Done, Done][1..] == [Done];
    assert RunEnabled(t2, [Done, Done]) && Run(t2, [Done, Done]) == Run(t3, [Done]);
  }
}
