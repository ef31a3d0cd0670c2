/** Two UARTs cross-connected by two bridges, one ring per direction.  The
    callback installed on a device runs the bridge that reads from that device. */
module Passthrough {
  import opened Bytes
  import opened RingBuffer

  const RING_BUF_SIZE: nat := 1024

  /** What the hardware shows one callback: bytes waiting, if receive is ready,
      and room in the transmit FIFO of the destination, if transmit is ready.  It may
      also be ready and then have no byte, or take none. */
  datatype Irq = Irq(rx: Option<seq<byte>>, tx: Option<nat>)

  // ---------------------------------------------------------------------------
  // One direction, on values
  // ---------------------------------------------------------------------------

  // Bytes read from the source, bytes buffered, bytes given to the destination,
  // and whether the destination's transmit interrupt is enabled.
  datatype Flow = Flow(read: seq<byte>, queued: seq<byte>, given: seq<byte>, armed: bool)

  function Receive(f: Flow, bytes: seq<byte>): Flow {
    if bytes == [] then f else Flow(f.read + bytes, f.queued + bytes, f.given, true)
  }

  function Transmit(f: Flow, m: nat): Flow
    requires m <= |f.queued|
  {
    if m == 0 then f.(armed := false)
    else Flow(f.read, f.queued[m..], f.given + f.queued[..m], f.armed)
  }

  // Nothing lost, repeated or reordered.
  predicate Conserved(f: Flow) {
    f.given + f.queued == f.read
  }

  // Nothing buffered without an interrupt to come.
  predicate Armed(f: Flow) {
    f.queued != [] ==> f.armed
  }

  lemma ReceiveIsSound(f: Flow, bytes: seq<byte>)
    requires Conserved(f)
    ensures Conserved(Receive(f, bytes))
    ensures Armed(Receive(f, bytes)) <==> Armed(f) || bytes != []
  {
    Regroup(f.given, f.queued, bytes);
  }

  /** Handing on keeps the bytes in every case; what is buffered loses its interrupt
      exactly when the destination, though ready, takes nothing. */
  lemma LosesInterruptExactlyWhen(f: Flow, m: nat)
    requires Conserved(f) && m <= |f.queued|
    ensures Conserved(Transmit(f, m))
    ensures Armed(f) ==> (!Armed(Transmit(f, m)) <==> f.queued != [] && m == 0)
  {
    Regroup(f.given, f.queued[..m], f.queued[m..]);
    assert f.queued[..m] + f.queued[m..] == f.queued;
  }

  lemma ReceiveNothing(f: Flow)
    ensures Receive(f, []) == f
  {
  }

  // ---------------------------------------------------------------------------
  // One direction through its callbacks
  // ---------------------------------------------------------------------------

  // A flow, and where in its ring the oldest byte is: claims end at the wrap.
  datatype Direction = Direction(flow: Flow, head: nat)

  predicate Fits(d: Direction) {
    d.head < RING_BUF_SIZE && |d.flow.queued| <= RING_BUF_SIZE
  }

  // The waiting bytes that one claim holds.
  function TakenBytes(d: Direction, irq: Irq): seq<byte>
    requires Fits(d)
  {
    if irq.rx.None? then []
    else irq.rx.value[..Min(|irq.rx.value|, PutRoom(RING_BUF_SIZE, d.head, |d.flow.queued|))]
  }

  // What is buffered between the two halves of a callback.
  function Buffered(d: Direction, irq: Irq): seq<byte>
    requires Fits(d)
  {
    d.flow.queued + TakenBytes(d, irq)
  }

  function TransmitClaim(d: Direction, room: nat): Direction
    requires Fits(d)
  {
    var m := Min(room, GetRoom(RING_BUF_SIZE, d.head, |d.flow.queued|));
    Direction(Transmit(d.flow, m), Wrap(d.head + m, RING_BUF_SIZE))
  }

  // The waiting bytes that fit one claim are read; then, from everything buffered, the
  // bytes of one claim that the destination has room for are handed on.
  function Callback(d: Direction, irq: Irq): (d': Direction)
    requires Fits(d)
    ensures Fits(d')
  {
    ClaimsAreProductive(RING_BUF_SIZE, d.head, |d.flow.queued|);
    var d1 := d.(flow := Receive(d.flow, TakenBytes(d, irq)));
    if irq.tx.Some? then TransmitClaim(d1, irq.tx.value) else d1
  }

  /** One callback keeps the bytes, reads exactly what it takes and only adds to what
      was given.  It takes something whenever something waits and the ring is not full.
      Buffered bytes that had an interrupt lose it exactly when the ready destination
      has no room. */
  lemma CallbackIsSound(d: Direction, irq: Irq)
    requires Fits(d) && Conserved(d.flow)
    ensures var d' := Callback(d, irq);
            && Conserved(d'.flow)
            && d'.flow.read == d.flow.read + TakenBytes(d, irq) && d.flow.given <= d'.flow.given
            && (TakenBytes(d, irq) == [] <==> irq.rx.None? || irq.rx.value == [] || |d.flow.queued| == 1024)
            && (Armed(d.flow) ==> (!Armed(d'.flow) <==> irq.tx == Some(0) && Buffered(d, irq) != []))
  {
    hide Conserved, Armed, PutRoom, GetRoom;
    ClaimsAreProductive(RING_BUF_SIZE, d.head, |d.flow.queued|);
    ClaimsAreProductive(RING_BUF_SIZE, d.head, |Buffered(d, irq)|);
    ReceiveIsSound(d.flow, TakenBytes(d, irq));
    ReceiveNothing(d.flow);
    if irq.tx.Some? {
      var f := Receive(d.flow, TakenBytes(d, irq));
      LosesInterruptExactlyWhen(f, Min(irq.tx.value, GetRoom(RING_BUF_SIZE, d.head, |f.queued|)));
    }
  }

  /** How much is taken: nothing that does not wait; and all that waits, unless it stops
      short because the ring is full or its array has ended. */
  lemma TakesAllUnless(d: Direction, irq: Irq)
    requires Fits(d)
    ensures var taken, waiting := TakenBytes(d, irq), if irq.rx.Some? then irq.rx.value else [];
            && taken <= waiting && |d.flow.queued| + |taken| <= 1024
            && (taken == waiting || |d.flow.queued| + |taken| == 1024 || d.head + |d.flow.queued| + |taken| == 1024)
  {
  }

  // Bytes handed on by a callback.
  function Given(d: Direction, irq: Irq): nat
    requires Fits(d)
  {
    if |Callback(d, irq).flow.given| > |d.flow.given| then |Callback(d, irq).flow.given| - |d.flow.given| else 0
  }

  /** How much is handed on: nothing unless transmit is ready, never more than there is
      room for; and all the room is used, unless the ring is empty or its array has ended. */
  lemma GivesAllUnless(d: Direction, irq: Irq)
    requires Fits(d)
    ensures var d', n := Callback(d, irq), Given(d, irq);
            && d'.flow.given == d.flow.given + Buffered(d, irq)[..n] && d'.flow.queued == Buffered(d, irq)[n..]
            && match irq.tx
               case None => n == 0
               case Some(room) => n <= room && (n == room || d'.flow.queued == [] || d.head + n == 1024)
  {
    hide PutRoom;
    ClaimsAreProductive(RING_BUF_SIZE, d.head, |d.flow.queued|);
    ClaimsAreProductive(RING_BUF_SIZE, d.head, |Buffered(d, irq)|);
  }

  /** The transmit interrupt, also of an empty ring: after a callback it is enabled exactly
      if it was before or bytes were taken, and transmit was not ready or a byte was given. */
  lemma InterruptOnExactlyWhen(d: Direction, irq: Irq)
    requires Fits(d)
    ensures Callback(d, irq).flow.armed <==>
            (d.flow.armed || TakenBytes(d, irq) != []) && (irq.tx.None? || Given(d, irq) > 0)
  {
    hide PutRoom, GetRoom;
    ClaimsAreProductive(RING_BUF_SIZE, d.head, |d.flow.queued|);
    ClaimsAreProductive(RING_BUF_SIZE, d.head, |Buffered(d, irq)|);
  }

  // Two callbacks of a destination with room enough hand on everything, across the wrap.
  lemma TwoCallbacksDrain(d: Direction, room: nat, room': nat)
    requires Fits(d) && Conserved(d.flow) && |d.flow.queued| <= room && |d.flow.queued| <= room'
    ensures var d' := Callback(Callback(d, Irq(None, Some(room))), Irq(None, Some(room')));
            d'.flow.queued == [] && d'.flow.given == d'.flow.read == d.flow.read
  {
    TwoClaimsReachAll(RING_BUF_SIZE, d.head, |d.flow.queued|);
    CallbackIsSound(d, Irq(None, Some(room)));
    CallbackIsSound(Callback(d, Irq(None, Some(room))), Irq(None, Some(room')));
  }

  // Which device interrupted, and what its callback is shown.
  datatype Interrupt = Console(irq: Irq) | Other(irq: Irq)

  // A direction after all interrupts of its source, in order; those of the other device do not concern it.
  function Served(d: Direction, interrupts: seq<Interrupt>, console: bool): (d': Direction)
    requires Fits(d)
    ensures Fits(d')
  {
    if interrupts == [] then d
    else
      var before, last := Served(d, interrupts[..|interrupts| - 1], console), interrupts[|interrupts| - 1];
      if last.Console? == console then Callback(before, last.irq) else before
  }

  // The bytes that the callbacks take, each at its moment.
  function ReadIn(d: Direction, interrupts: seq<Interrupt>, console: bool): seq<byte>
    requires Fits(d)
  {
    if interrupts == [] then []
    else
      var front, last := interrupts[..|interrupts| - 1], interrupts[|interrupts| - 1];
      ReadIn(d, front, console) +
      if last.Console? == console then TakenBytes(Served(d, front, console), last.irq) else []
  }

  // Whether the interrupt is on after a run: switched on by bytes taken, and off whenever
  // transmit was ready and nothing was given.
  function InterruptOn(d: Direction, interrupts: seq<Interrupt>, console: bool): bool
    requires Fits(d)
  {
    if interrupts == [] then d.flow.armed
    else
      var front, last := interrupts[..|interrupts| - 1], interrupts[|interrupts| - 1];
      var before, on := Served(d, front, console), InterruptOn(d, front, console);
      if last.Console? != console then on
      else (on || TakenBytes(before, last.irq) != []) && (last.irq.tx.None? || Given(before, last.irq) > 0)
  }

  predicate NoneFilledInVain(interrupts: seq<Interrupt>) {
    forall i | 0 <= i < |interrupts| :: interrupts[i].irq.tx != Some(0)
  }

  /** Every run of a direction: given and buffered are what was read, read are exactly
      the bytes taken in turn, nothing given is taken back, and as long as no ready
      destination is without room, whatever is buffered has its interrupt. */
  lemma {:induction false} EveryRun(d: Direction, interrupts: seq<Interrupt>, console: bool)
    requires Fits(d) && Conserved(d.flow)
    ensures var d' := Served(d, interrupts, console);
            && Conserved(d'.flow)
            && d'.flow.read == d.flow.read + ReadIn(d, interrupts, console) && d.flow.given <= d'.flow.given
            && (Armed(d.flow) && NoneFilledInVain(interrupts) ==> Armed(d'.flow))
            && d'.flow.armed == InterruptOn(d, interrupts, console)
  {
    hide Given, Callback, Conserved, Armed, TakenBytes, Buffered;
    if interrupts != [] {
      var front, last := interrupts[..|interrupts| - 1], interrupts[|interrupts| - 1];
      EveryRun(d, front, console);
      assert NoneFilledInVain(interrupts) ==> NoneFilledInVain(front);
      if last.Console? == console {
        CallbackIsSound(Served(d, front, console), last.irq);
        InterruptOnExactlyWhen(Served(d, front, console), last.irq);
        Regroup(d.flow.read, ReadIn(d, front, console), TakenBytes(Served(d, front, console), last.irq));
      }
    }
  }

  class Uart {
    var txIrqEnabled: bool
    ghost var rxRead: seq<byte>  // every byte software took from the receive FIFO
    ghost var txGiven: seq<byte> // every byte software put into the transmit FIFO

    constructor ()
      ensures !txIrqEnabled && rxRead == [] && txGiven == []
    {
      txIrqEnabled, rxRead, txGiven := false, [], [];
    }

    // uart_fifo_read: as many waiting bytes as fit, stored at `off`.
    method FifoRead(waiting: seq<byte>, dst: array<byte>, off: nat, len: nat) returns (n: nat)
      requires off + len <= dst.Length
      modifies this`rxRead, dst
      ensures n == Min(|waiting|, len) && rxRead == old(rxRead) + waiting[..n]
      ensures dst[off..off + n] == waiting[..n]
      ensures forall i | 0 <= i < dst.Length && !(off <= i < off + n) :: dst[i] == old(dst[i])
    {
      n := if |waiting| < len then |waiting| else len;
      for k := 0 to n
        invariant rxRead == old(rxRead) && dst[off..off + k] == waiting[..k]
        invariant forall i | 0 <= i < dst.Length && !(off <= i < off + k) :: dst[i] == old(dst[i])
      {
        dst[off + k] := waiting[k];
      }
      rxRead := rxRead + waiting[..n];
    }

    // uart_fifo_fill: as many of the claimed bytes as the FIFO has room for.
    method FifoFill(room: nat, claimed: seq<byte>) returns (n: nat)
      modifies this`txGiven
      ensures n == Min(room, |claimed|) && txGiven == old(txGiven) + claimed[..n]
    {
      n := if room < |claimed| then room else |claimed|;
      txGiven := txGiven + claimed[..n];
    }
  }

  class UartBridge {
    const rxDev: Uart
    const txDev: Uart
    const ring: RingBuf

    constructor (rxDev: Uart, txDev: Uart, ring: RingBuf)
      ensures this.rxDev == rxDev && this.txDev == txDev && this.ring == ring
    {
      this.rxDev, this.txDev, this.ring := rxDev, txDev, ring;
    }

    ghost predicate Wired()
      reads ring
    {
      rxDev != txDev && ring.Valid() && ring.buffer.Length == RING_BUF_SIZE
    }

    ghost function F(): Flow
      requires ring.Valid()
      reads ring, ring.buffer, rxDev, txDev
    {
      Flow(rxDev.rxRead, ring.Contents(), txDev.txGiven, txDev.txIrqEnabled)
    }

    ghost predicate Valid()
      reads ring, ring.buffer, rxDev, txDev
    {
      Wired() && Conserved(F())
    }

    ghost function D(): Direction
      requires ring.Valid()
      reads ring, ring.buffer, rxDev, txDev
    {
      Direction(F(), ring.head)
    }

    // The receive half: one claim, one read, one finish.
    method ReceiveHalf(waiting: seq<byte>)
      requires Wired()
      modifies ring`count, ring.buffer, rxDev`rxRead, txDev`txIrqEnabled
      ensures Wired()
      ensures D() == old(D()).(flow := Receive(old(F()), TakenBytes(old(D()), Irq(Some(waiting), None))))
    {
      hide Window, Wrap, PutRoom, GetRoom, RingBuf.Contents;
      ClaimsAreProductive(ring.buffer.Length, ring.head, ring.count);
      ghost var taken := TakenBytes(D(), Irq(Some(waiting), None));
      var off, len := ring.PutClaim(RING_BUF_SIZE);
      if len > 0 {
        var bytes := rxDev.FifoRead(waiting, ring.buffer, off, len);
        ring.ContentsKept(bytes);
        assert waiting[..bytes] == taken;
        if bytes > 0 {
          ring.PutFinish(bytes);
          txDev.txIrqEnabled := true;
        }
      }
    }

    // The transmit half: one claim, one fill, one finish, or the interrupt switched off.
    method TransmitHalf(room: nat)
      requires Wired()
      modifies ring`head, ring`count, txDev`txGiven, txDev`txIrqEnabled
      ensures Wired() && D() == TransmitClaim(old(D()), room)
    {
      hide Window, PutRoom, GetRoom, RingBuf.Contents;
      ClaimsAreProductive(ring.buffer.Length, ring.head, ring.count);
      var off, len := ring.GetClaim(RING_BUF_SIZE);
      if len > 0 {
        var written := txDev.FifoFill(room, ring.buffer[off..off + len]);
        if written > 0 {
          ring.GetFinish(written);
        } else {
          txDev.txIrqEnabled := false;
        }
      } else {
        txDev.txIrqEnabled := false;
      }
    }

    /** One callback: its step of the direction.  Exactly the bytes taken are read, in
        order; what was given stays given; and buffered bytes that had an interrupt
        lose it exactly when the ready destination has no room. */
    method UartCb(irq: Irq)
      requires Valid()
      modifies ring`head, ring`count, ring.buffer, rxDev`rxRead, txDev`txGiven, txDev`txIrqEnabled
      ensures Valid() && D() == Callback(old(D()), irq)
      ensures rxDev.rxRead == old(rxDev.rxRead) + TakenBytes(old(D()), irq) && old(txDev.txGiven) <= txDev.txGiven
      ensures old(Armed(F())) ==> (!Armed(F()) <==> irq.tx == Some(0) && Buffered(old(D()), irq) != [])
      ensures txDev.txIrqEnabled <==>
              && (old(txDev.txIrqEnabled) || rxDev.rxRead != old(rxDev.rxRead))
              && (irq.tx.None? || txDev.txGiven != old(txDev.txGiven))
    {
      hide Conserved, Armed, Receive, TransmitClaim, RingBuf.Contents;
      CallbackIsSound(D(), irq);
      InterruptOnExactlyWhen(D(), irq);
      GivesAllUnless(D(), irq);
      ReceiveNothing(F());
      if irq.rx.Some? {
        ReceiveHalf(irq.rx.value);
      }
      if irq.tx.Some? {
        TransmitHalf(irq.tx.value);
      }
    }
  }

  class System {
    const console: Uart
    const other: Uart
    const c2o: UartBridge
    const o2c: UartBridge

    /** The wiring of the two static bridges: each device is the source of one bridge and the
        destination of the other, and no ring is shared. */
    ghost predicate Wired()
      reads c2o, o2c, c2o.ring, o2c.ring
    {
      && console != other
      && c2o.rxDev == o2c.txDev == console && c2o.txDev == o2c.rxDev == other
      && c2o.ring != o2c.ring && c2o.ring.buffer != o2c.ring.buffer
    }

    ghost predicate Valid()
      reads console, other, c2o, o2c, c2o.ring, o2c.ring, c2o.ring.buffer, o2c.ring.buffer
      reads c2o.rxDev, c2o.txDev, o2c.rxDev, o2c.txDev
    {
      Wired() && c2o.Valid() && o2c.Valid()
    }

    constructor ()
      ensures Valid() && fresh(console) && fresh(other)
      ensures AllArmed() && c2o.ring.Contents() == [] && o2c.ring.Contents() == []
      ensures console.rxRead == other.rxRead == []
    {
      var a := new Uart();
      var b := new Uart();
      var toOther := new RingBuf(RING_BUF_SIZE);
      var toConsole := new RingBuf(RING_BUF_SIZE);
      console, other := a, b;
      c2o := new UartBridge(a, b, toOther);
      o2c := new UartBridge(b, a, toConsole);
    }

    ghost predicate AllArmed()
      requires c2o.ring.Valid() && o2c.ring.Valid()
      reads c2o, o2c, c2o.ring, o2c.ring, c2o.ring.buffer, o2c.ring.buffer
      reads c2o.rxDev, c2o.txDev, o2c.rxDev, o2c.txDev
    {
      Armed(c2o.F()) && Armed(o2c.F())
    }

    /** Any interleaving of the two callbacks: each direction goes through exactly the
        callbacks of its source, whatever the other one does.  What was given to the
        destination, and then the ring, is what was read from the source, which grows
        by the bytes taken at each interrupt; no ring exceeds its size; and as long as
        no ready FIFO is without room, a non-empty ring has its interrupt enabled. */
    method Run(interrupts: seq<Interrupt>)
      requires Valid()
      modifies console, other, c2o.ring, o2c.ring, c2o.ring.buffer, o2c.ring.buffer
      ensures Valid()
      ensures c2o.D() == Served(old(c2o.D()), interrupts, true)
      ensures o2c.D() == Served(old(o2c.D()), interrupts, false)
      ensures console.rxRead == old(console.rxRead) + ReadIn(old(c2o.D()), interrupts, true)
      ensures other.rxRead == old(other.rxRead) + ReadIn(old(o2c.D()), interrupts, false)
      ensures old(other.txGiven) <= other.txGiven && old(console.txGiven) <= console.txGiven
      ensures other.txGiven + c2o.ring.Contents() == console.rxRead
      ensures console.txGiven + o2c.ring.Contents() == other.rxRead
      ensures |c2o.ring.Contents()| <= 1024 && |o2c.ring.Contents()| <= 1024
      ensures other.txIrqEnabled <==> InterruptOn(old(c2o.D()), interrupts, true)
      ensures console.txIrqEnabled <==> InterruptOn(old(o2c.D()), interrupts, false)
      ensures old(AllArmed()) && NoneFilledInVain(interrupts) ==> AllArmed()
    {
      hide Callback, RingBuf.Contents, ReadIn, InterruptOn;
      ghost var d, e := c2o.D(), o2c.D();
      for i := 0 to |interrupts|
        invariant Valid()
        invariant c2o.D() == Served(d, interrupts[..i], true) && o2c.D() == Served(e, interrupts[..i], false)
      {
        assert interrupts[..i + 1][..i] == interrupts[..i];
        match interrupts[i]
        case Console(irq) => c2o.UartCb(irq);
        case Other(irq) => o2c.UartCb(irq);
      }
      assert interrupts[..|interrupts|] == interrupts;
      EveryRun(d, interrupts, true);
      EveryRun(e, interrupts, false);
    }
  }
}
