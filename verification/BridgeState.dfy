/** The state of the Bluetooth-LE-to-UART bridge and what each event does to it:
    heap blocks that change owner on every event, two FIFOs of addresses, the
    static variables of the UART callback, and a serial driver that may raise any
    event its contract allows.  Blocks are a map from addresses, so that freeing,
    freeing twice and reusing an address are all visible.  `UartBridge` is the
    imperative code; here it is shown to implement `UartTx` and `UartRx`. */
module BridgeState {
  import opened Bytes
  import UartTx
  import UartRx

  type Addr = nat

  datatype UartData = UartData(data: seq<byte>, len: nat)

  type Heap = map<Addr, UartData>

  // A pointer into the `data` area of the block at `base`.
  datatype Ptr = Ptr(base: Addr, off: nat)

  datatype TxDriver = TxIdle | TxBusy(buf: Ptr, len: nat)

  // `Stopping` lists what is still to be released before the receiver is off.
  datatype RxDriver =
    | RxOff
    | Receiving(cur: Addr, next: Option<Addr>, filled: nat)
    | Stopping(last: Option<Addr>, next: Option<Addr>)

  // What k_malloc answers: nothing, or a block at any free address with any content.
  datatype Malloc = NoMemory | Block(addr: Addr, raw: UartData)

  datatype State = State(
    heap: Heap, fifoTx: seq<Addr>, fifoRx: seq<Addr>,
    currentBuf: Option<Addr>, abortedLen: nat, bufRelease: bool, abortedBuf: Option<Ptr>,
    workScheduled: bool,
    bleBuf: Option<Addr>, // taken by ble_write_thread and not freed yet
    txDriver: TxDriver, rxDriver: RxDriver,
    // the world: bytes accepted for the UART, sent on it, reported by it, and handed to Bluetooth
    accepted: seq<byte>, wire: seq<byte>, received: seq<byte>, notified: seq<seq<byte>>)

  datatype Event =
    | Segment(payload: seq<byte>, grant: Malloc) // one iteration of bt_receive_cb
    | TxDone
    | TxDoneEmpty
    | TxAborted(n: nat)
    | RxReady(report: seq<byte>)
    | RxBufRequest(grant: Malloc)
    | RxBufReleased
    | RxDisabled(grant: Malloc)
    | WorkTimeout(grant: Malloc)
    | BleTake
    | BleFree

  // ---------------------------------------------------------------------------
  // The driver's and the allocator's side of the contract
  // ---------------------------------------------------------------------------

  predicate FreshBlock(heap: Heap, g: Malloc, size: nat) {
    g.Block? ==> g.addr !in heap && |g.raw.data| == size
  }

  predicate CanHappen(s: State, e: Event, size: nat) {
    match e
    case Segment(p, g) => 0 < |p| <= size && FreshBlock(s.heap, g, size)
    case TxDone => s.txDriver.TxBusy?
    case TxDoneEmpty => true
    case TxAborted(n) => s.txDriver.TxBusy? && n < s.txDriver.len
    case RxReady(r) => s.rxDriver.Receiving? && r != [] && s.rxDriver.filled + |r| <= size
    case RxBufRequest(g) => s.rxDriver.Receiving? && s.rxDriver.next.None? && FreshBlock(s.heap, g, size)
    case RxBufReleased =>
      || (s.rxDriver.Receiving? && s.rxDriver.filled == size)
      || (s.rxDriver.Stopping? && (s.rxDriver.last.Some? || s.rxDriver.next.Some?))
    case RxDisabled(g) => s.rxDriver == Stopping(None, None) && FreshBlock(s.heap, g, size)
    case WorkTimeout(g) => s.workScheduled && FreshBlock(s.heap, g, size)
    case BleTake => s.bleBuf.None? && s.fifoRx != []
    case BleFree => s.bleBuf.Some?
  }

  // ---------------------------------------------------------------------------
  // What each event does
  // ---------------------------------------------------------------------------

  function Payload(heap: Heap, a: Addr): seq<byte> {
    if a in heap && heap[a].len <= |heap[a].data| then heap[a].data[..heap[a].len] else []
  }

  // The first |bytes| bytes of `d` from position `at` overwritten, and the length set to their end.
  function Fill(d: UartData, at: nat, bytes: seq<byte>): UartData {
    if at + |bytes| <= |d.data| then
      UartData(d.data[..at] + bytes + d.data[at + |bytes|..], at + |bytes|)
    else d
  }

  function OnSegment(s: State, p: seq<byte>, g: Malloc): State {
    match g
    case NoMemory => s
    case Block(a, raw) =>
      var s1 := s.(heap := s.heap[a := Fill(raw, 0, p)], accepted := s.accepted + p);
      if s.txDriver.TxIdle? then s1.(txDriver := TxBusy(Ptr(a, 0), |p|)) else s1.(fifoTx := s.fifoTx + [a])
  }

  // The driver puts n more bytes of its transfer on the wire and is then idle.
  function DriverSends(s: State, n: nat): State
    requires s.txDriver.TxBusy?
  {
    var b := s.txDriver.buf;
    var all := Payload(s.heap, b.base);
    s.(txDriver := TxIdle, wire := s.wire + (if b.off + n <= |all| then all[b.off..b.off + n] else []))
  }

  // UART_TX_DONE for the pointer `evt`: free the block, send the next.
  function HandleTxDone(s: State, evt: Ptr): State {
    var s1 :=
      if s.abortedBuf.Some?
      then s.(heap := s.heap - {s.abortedBuf.value.base}, abortedBuf := None, abortedLen := 0)
      else s.(heap := s.heap - {evt.base});
    if s.fifoTx == [] then s1
    else s1.(fifoTx := s.fifoTx[1..], txDriver := TxBusy(Ptr(s.fifoTx[0], 0), |Payload(s1.heap, s.fifoTx[0])|))
  }

  function OnTxDone(s: State): State
    requires s.txDriver.TxBusy?
  {
    HandleTxDone(DriverSends(s, s.txDriver.len), s.txDriver.buf)
  }

  // UART_TX_ABORTED for the pointer `evt` and n bytes: send the rest of the block.
  function HandleTxAborted(s: State, evt: Ptr, n: nat): State {
    var start := if s.abortedBuf.Some? then s.abortedBuf.value else evt;
    var len, length := s.abortedLen + n, |Payload(s.heap, start.base)|;
    s.(abortedBuf := Some(start), abortedLen := len,
    txDriver := TxBusy(Ptr(start.base, len), if len <= length then length - len else 0))
  }

  function OnTxAborted(s: State, n: nat): State
    requires s.txDriver.TxBusy?
  {
    HandleTxAborted(DriverSends(s, n), s.txDriver.buf, n)
  }

  // The driver stores received bytes in its buffer before it reports them.
  function DriverFills(s: State, r: seq<byte>): State
    requires s.rxDriver.Receiving?
  {
    var Receiving(cur, next, filled) := s.rxDriver;
    s.(heap := if cur in s.heap then s.heap[cur := Fill(s.heap[cur], filled, r)] else s.heap,
    received := s.received + r, rxDriver := Receiving(cur, next, filled + |r|))
  }

  // UART_RX_RDY for `buf`, whose length is already brought up to date.
  function HandleRxReady(s: State, buf: Addr, next: Option<Addr>, size: nat): State {
    var line := Payload(s.heap, buf);
    if |line| == size then
      s.(bufRelease := false, fifoRx := s.fifoRx + [buf])
    else if UartRx.EndsLine(line) then
      s.(fifoRx := s.fifoRx + [buf], currentBuf := Some(buf), bufRelease := true, rxDriver := Stopping(Some(buf), next))
    else s.(bufRelease := false)
  }

  function OnRxReady(s: State, r: seq<byte>, size: nat): State
    requires s.rxDriver.Receiving?
  {
    HandleRxReady(DriverFills(s, r), s.rxDriver.cur, s.rxDriver.next, size)
  }

  function OnRxBufRequest(s: State, g: Malloc): State
    requires s.rxDriver.Receiving?
  {
    match g
    case NoMemory => s
    case Block(a, raw) =>
      s.(heap := s.heap[a := raw.(len := 0)], rxDriver := Receiving(s.rxDriver.cur, Some(a), s.rxDriver.filled))
  }

  // The buffer the driver gives back next, and the driver afterwards.
  function ReleasedBuf(d: RxDriver): Option<Addr> {
    match d
    case RxOff => None
    case Receiving(cur, _, _) => Some(cur)
    case Stopping(last, next) => if last.Some? then last else next
  }

  function AfterRelease(d: RxDriver): RxDriver {
    match d
    case RxOff => d
    case Receiving(_, next, _) => if next.Some? then Receiving(next.value, None, 0) else Stopping(None, None)
    case Stopping(last, next) => if last.Some? then Stopping(None, next) else Stopping(None, None)
  }

  function OnRxBufReleased(s: State): State {
    var buf := ReleasedBuf(s.rxDriver);
    var s1 := s.(rxDriver := AfterRelease(s.rxDriver));
    if buf.Some? && s.bufRelease && s.currentBuf != buf
    then s1.(heap := s.heap - {buf.value}, bufRelease := false, currentBuf := None)
    else s1
  }

  // RX_DISABLED, and the retry work: allocate and switch the receiver on, or retry later.
  function Restart(s: State, g: Malloc): State {
    match g
    case NoMemory => s.(rxDriver := RxOff, workScheduled := true)
    case Block(a, raw) => s.(heap := s.heap[a := raw.(len := 0)], rxDriver := Receiving(a, None, 0))
  }

  function OnBleTake(s: State): State
    requires s.fifoRx != []
  {
    s.(bleBuf := Some(s.fifoRx[0]), fifoRx := s.fifoRx[1..], notified := s.notified + [Payload(s.heap, s.fifoRx[0])])
  }

  function OnBleFree(s: State): State
    requires s.bleBuf.Some?
  {
    s.(heap := s.heap - {s.bleBuf.value}, bleBuf := None)
  }

  function Step(s: State, e: Event, size: nat): State
    requires CanHappen(s, e, size)
  {
    match e
    case Segment(p, g) => OnSegment(s, p, g)
    case TxDone => OnTxDone(s)
    case TxDoneEmpty => s
    case TxAborted(n) => OnTxAborted(s, n)
    case RxReady(r) => OnRxReady(s, r, size)
    case RxBufRequest(g) => OnRxBufRequest(s, g)
    case RxBufReleased => OnRxBufReleased(s)
    case RxDisabled(g) => Restart(s, g)
    case WorkTimeout(g) => Restart(s.(workScheduled := false), g)
    case BleTake => OnBleTake(s)
    case BleFree => OnBleFree(s)
  }

  // ---------------------------------------------------------------------------
  // What holds in every reachable state
  // ---------------------------------------------------------------------------

  function Payloads(heap: Heap, queue: seq<Addr>): (r: seq<seq<byte>>)
    ensures |r| == |queue|
  {
    if queue == [] then [] else [Payload(heap, queue[0])] + Payloads(heap, queue[1..])
  }

  function TxView(s: State): UartTx.Tx {
    UartTx.Tx(s.wire,
              if s.txDriver.TxIdle? then UartTx.Idle
              else UartTx.Sending(Payload(s.heap, s.txDriver.buf.base), s.txDriver.buf.off),
              Payloads(s.heap, s.fifoTx))
  }

  // The content of the buffer being received into, until it is queued.
  function Partial(s: State, size: nat): seq<byte> {
    if s.rxDriver.Receiving? && s.rxDriver.filled < size then Payload(s.heap, s.rxDriver.cur) else []
  }

  function RxView(s: State, size: nat): UartRx.Rx {
    UartRx.Rx(s.notified + Payloads(s.heap, s.fifoRx), Partial(s, size))
  }

  function Is(o: Option<Addr>, a: Addr): nat {
    if o == Some(a) then 1 else 0
  }

  // A buffer that was queued is no longer the driver's, even while the driver still shows it.
  function RxDriverOwns(d: RxDriver, a: Addr, size: nat): nat {
    match d
    case RxOff => 0
    case Receiving(cur, next, filled) => (if cur == a && filled < size then 1 else 0) + Is(next, a)
    case Stopping(_, next) => Is(next, a)
  }

  function TxDriverOwns(d: TxDriver, a: Addr): nat {
    if d.TxBusy? && d.buf.base == a then 1 else 0
  }

  // How many parts of the bridge answer for the block at `a`.
  function Owners(s: State, a: Addr, size: nat): nat {
    TxDriverOwns(s.txDriver, a) + multiset(s.fifoTx)[a] + multiset(s.fifoRx)[a] + Is(s.bleBuf, a)
    + RxDriverOwns(s.rxDriver, a, size)
  }

  // Every allocated block has exactly one owner, and nothing that was freed has any.
  ghost predicate OneOwnerEach(s: State, size: nat) {
    forall a: Addr :: Owners(s, a, size) == if a in s.heap then 1 else 0
  }

  ghost predicate BlocksOk(heap: Heap, size: nat) {
    forall a | a in heap :: |heap[a].data| == size && heap[a].len <= size
  }

  // An aborted transfer is remembered by the start of its block and the bytes already sent.
  ghost predicate TxOk(s: State) {
    match s.txDriver
    case TxIdle => s.abortedBuf == None && s.abortedLen == 0
    case TxBusy(p, n) =>
      && p.base in s.heap && 0 < n && p.off + n == |Payload(s.heap, p.base)|
      && s.abortedLen == p.off
      && (if s.abortedBuf.None? then p.off == 0 else s.abortedBuf.value == Ptr(p.base, 0))
  }

  ghost predicate RxOk(s: State, size: nat) {
    match s.rxDriver
    case RxOff => true
    case Receiving(cur, next, filled) =>
      && filled <= size
      && (filled < size ==> cur in s.heap && s.heap[cur].len == filled)
      && (next.Some? ==> next.value in s.heap && s.heap[next.value].len == 0)
      && (filled > 0 ==> !s.bufRelease)
    case Stopping(last, next) =>
      && (last.Some? || next.Some? ==> s.bufRelease)
      && (last.Some? ==> s.currentBuf == last)
      && (next.Some? ==> s.currentBuf.Some? && s.currentBuf != next)
  }

  // The receiver is on, or on its way to Disabled, or else the retry is scheduled.
  predicate ReceiverNotLost(s: State) {
    s.rxDriver.RxOff? <==> s.workScheduled
  }

  // Sent, then in flight, then queued: exactly what was accepted, in order.
  ghost predicate TxConserves(s: State) {
    UartTx.WellFormed(TxView(s)) && s.wire + UartTx.Pending(TxView(s)) == s.accepted
  }

  // Handed over, then queued, then partial: exactly what was reported, in frames.
  ghost predicate RxConserves(s: State, size: nat) {
    UartRx.WellFormed(RxView(s, size), size) && UartRx.Total(RxView(s, size)) == s.received
  }

  ghost predicate Inv(s: State, size: nat) {
    && OneOwnerEach(s, size) && BlocksOk(s.heap, size)
    && TxOk(s) && RxOk(s, size) && ReceiverNotLost(s)
    && TxConserves(s) && RxConserves(s, size)
  }

  // ---------------------------------------------------------------------------
  // Blocks and queues
  // ---------------------------------------------------------------------------

  // Whoever owns the block at `a` is the only one to do so, and the block is allocated.
  lemma QueuedOnce(s: State, size: nat, a: Addr)
    requires OneOwnerEach(s, size)
    ensures a in s.fifoTx ==> a in s.heap
    ensures a in s.fifoRx ==> a in s.heap && a !in s.fifoTx
    ensures TxDriverOwns(s.txDriver, a) > 0 ==> a in s.heap && a !in s.fifoTx && a !in s.fifoRx
    ensures s.bleBuf == Some(a) ==>
              a in s.heap && a !in s.fifoTx && a !in s.fifoRx && TxDriverOwns(s.txDriver, a) == 0
    ensures RxDriverOwns(s.rxDriver, a, size) > 0 ==>
              && a in s.heap && a !in s.fifoTx && a !in s.fifoRx
              && TxDriverOwns(s.txDriver, a) == 0 && s.bleBuf != Some(a)
  {
    var n := Owners(s, a, size);
  }

  // A heap change that leaves the queued blocks alone leaves the queue's content alone.
  lemma {:induction false} PayloadsKept(before: Heap, after: Heap, queue: seq<Addr>)
    requires forall a | a in queue :: Payload(before, a) == Payload(after, a)
    ensures Payloads(before, queue) == Payloads(after, queue)
  {
    if queue != [] {
      PayloadsKept(before, after, queue[1..]);
    }
  }

  lemma RxViewKept(s: State, s': State, size: nat)
    requires s'.rxDriver == s.rxDriver && s'.fifoRx == s.fifoRx && s'.notified == s.notified
    requires forall a | a in s.fifoRx :: Payload(s.heap, a) == Payload(s'.heap, a)
    requires Partial(s, size) == Partial(s', size)
    ensures RxView(s', size) == RxView(s, size)
  {
    PayloadsKept(s.heap, s'.heap, s.fifoRx);
  }

  lemma TxViewKept(s: State, s': State)
    requires s'.txDriver == s.txDriver && s'.fifoTx == s.fifoTx && s'.wire == s.wire
    requires forall a | a in s.fifoTx :: Payload(s.heap, a) == Payload(s'.heap, a)
    requires s.txDriver.TxBusy? ==> Payload(s.heap, s.txDriver.buf.base) == Payload(s'.heap, s.txDriver.buf.base)
    ensures TxView(s') == TxView(s)
  {
    PayloadsKept(s.heap, s'.heap, s.fifoTx);
  }

  lemma {:induction false} PayloadsSnoc(heap: Heap, queue: seq<Addr>, a: Addr)
    ensures Payloads(heap, queue + [a]) == Payloads(heap, queue) + [Payload(heap, a)]
  {
    if queue == [] {
      assert queue + [a] == [a];
    } else {
      assert (queue + [a])[1..] == queue[1..] + [a];
      PayloadsSnoc(heap, queue[1..], a);
    }
  }

  lemma FillPayload(d: UartData, at: nat, bytes: seq<byte>)
    requires at + |bytes| <= |d.data|
    ensures Fill(d, at, bytes).len == at + |bytes| <= |Fill(d, at, bytes).data| == |d.data|
    ensures Fill(d, at, bytes).data[..at + |bytes|] == d.data[..at] + bytes
  {
  }

  lemma QueueSnoc(queue: seq<Addr>, x: Addr, a: Addr)
    ensures multiset(queue + [x])[a] == multiset(queue)[a] + if x == a then 1 else 0
  {
  }

  lemma QueueHead(queue: seq<Addr>)
    requires queue != []
    ensures multiset(queue) == multiset{queue[0]} + multiset(queue[1..])
  {
    assert queue == [queue[0]] + queue[1..];
  }

  // ---------------------------------------------------------------------------
  // Ownership is kept by every event
  // ---------------------------------------------------------------------------

  lemma OwnersAfterSegment(s: State, p: seq<byte>, g: Malloc, size: nat)
    requires OneOwnerEach(s, size) && FreshBlock(s.heap, g, size)
    ensures OneOwnerEach(OnSegment(s, p, g), size)
  {
    var s' := OnSegment(s, p, g);
    if g.Block? && s.txDriver.TxBusy? {
      assert multiset(s'.fifoTx) == multiset(s.fifoTx) + multiset{g.addr};
    }
    forall a: Addr ensures Owners(s', a, size) == if a in s'.heap then 1 else 0 {
      var n := Owners(s, a, size);
    }
  }

  // Exactly the block of the finished transfer is freed, also after aborts, and the
  // head of the FIFO becomes the driver's.
  lemma OwnersAfterTxDone(s: State, size: nat)
    requires OneOwnerEach(s, size) && TxOk(s) && s.txDriver.TxBusy?
    ensures OneOwnerEach(OnTxDone(s), size)
    ensures OnTxDone(s).heap == s.heap - {s.txDriver.buf.base}
    ensures forall a: Addr ::
              TxDriverOwns(OnTxDone(s).txDriver, a) == if s.fifoTx != [] && a == s.fifoTx[0] then 1 else 0
    ensures OnTxDone(s).fifoTx == if s.fifoTx == [] then [] else s.fifoTx[1..]
  {
    var s' := OnTxDone(s);
    if s.fifoTx != [] {
      QueueHead(s.fifoTx);
    }
    forall a: Addr ensures Owners(s', a, size) == if a in s'.heap then 1 else 0 {
      var n := Owners(s, a, size);
    }
  }

  lemma OwnersAfterTxAborted(s: State, n: nat, size: nat)
    requires OneOwnerEach(s, size) && TxOk(s) && s.txDriver.TxBusy?
    ensures OneOwnerEach(OnTxAborted(s, n), size)
  {
    var s' := OnTxAborted(s, n);
    forall a: Addr ensures Owners(s', a, size) == if a in s'.heap then 1 else 0 {
      var n := Owners(s, a, size);
    }
  }

  lemma FilledLength(s: State, r: seq<byte>, size: nat)
    requires BlocksOk(s.heap, size) && RxOk(s, size) && CanHappen(s, RxReady(r), size)
    ensures var heap := DriverFills(s, r).heap;
            && heap.Keys == s.heap.Keys
            && Payload(heap, s.rxDriver.cur) == Payload(s.heap, s.rxDriver.cur) + r
            && |Payload(heap, s.rxDriver.cur)| == s.rxDriver.filled + |r|
  {
    FillPayload(s.heap[s.rxDriver.cur], s.rxDriver.filled, r);
  }

  // Queueing hands the buffer from the driver to the FIFO; not queueing leaves it.
  lemma OwnerAfterQueueing(s: State, cur: Addr, next: Option<Addr>, filled: nat, size: nat, a: Addr)
    requires s.rxDriver == Receiving(cur, next, filled) && |Payload(s.heap, cur)| == filled <= size && 0 < size
    ensures Owners(HandleRxReady(s, cur, next, size), a, size) ==
            Owners(s.(rxDriver := Receiving(cur, next, 0)), a, size)
  {
    QueueSnoc(s.fifoRx, cur, a);
    var line := Payload(s.heap, cur);
    if |line| == size || UartRx.EndsLine(line) {
      assert RxDriverOwns(HandleRxReady(s, cur, next, size).rxDriver, a, size) == Is(next, a);
    }
  }

  lemma OwnersAfterQueueing(s: State, cur: Addr, next: Option<Addr>, filled: nat, size: nat)
    requires OneOwnerEach(s.(rxDriver := Receiving(cur, next, 0)), size) && 0 < size
    requires s.rxDriver == Receiving(cur, next, filled) && |Payload(s.heap, cur)| == filled <= size
    ensures OneOwnerEach(HandleRxReady(s, cur, next, size), size)
  {
    hide Owners;
    var s' := HandleRxReady(s, cur, next, size);
    forall a: Addr ensures Owners(s', a, size) == if a in s'.heap then 1 else 0 {
      OwnerAfterQueueing(s, cur, next, filled, size, a);
    }
  }

  lemma OneOwnerAfterRxReady(s: State, r: seq<byte>, size: nat)
    requires OneOwnerEach(s, size) && BlocksOk(s.heap, size) && RxOk(s, size) && CanHappen(s, RxReady(r), size)
    ensures OneOwnerEach(OnRxReady(s, r, size), size)
  {
    var Receiving(cur, next, filled) := s.rxDriver;
    var s1 := DriverFills(s, r);
    FilledLength(s, r, size);
    var s0 := s1.(rxDriver := Receiving(cur, next, 0));
    forall a: Addr ensures Owners(s0, a, size) == if a in s0.heap then 1 else 0 {
      var n := Owners(s, a, size);
    }
    OwnersAfterQueueing(s1, cur, next, filled + |r|, size);
  }

  // A full buffer or a finished line changes owner from the driver to the FIFO,
  // although the driver still shows it; anything else stays the driver's.
  lemma OwnersAfterRxReady(s: State, r: seq<byte>, size: nat)
    requires OneOwnerEach(s, size) && BlocksOk(s.heap, size) && RxOk(s, size) && CanHappen(s, RxReady(r), size)
    ensures OneOwnerEach(OnRxReady(s, r, size), size)
    ensures var cur, line, s' := s.rxDriver.cur, Partial(s, size) + r, OnRxReady(s, r, size);
            && s'.heap.Keys == s.heap.Keys && RxDriverOwns(s.rxDriver, cur, size) == 1
            && if |line| == size || UartRx.EndsLine(line)
               then s'.fifoRx == s.fifoRx + [cur] && RxDriverOwns(s'.rxDriver, cur, size) == 0
               else s'.fifoRx == s.fifoRx && RxDriverOwns(s'.rxDriver, cur, size) == 1
  {
    OneOwnerAfterRxReady(s, r, size);
    FilledLength(s, r, size);
    var n := Owners(s, s.rxDriver.cur, size);
  }

  lemma OwnersAfterRxBufRequest(s: State, g: Malloc, size: nat)
    requires OneOwnerEach(s, size) && CanHappen(s, RxBufRequest(g), size)
    ensures OneOwnerEach(OnRxBufRequest(s, g), size)
  {
    var s' := OnRxBufRequest(s, g);
    forall a: Addr ensures Owners(s', a, size) == if a in s'.heap then 1 else 0 {
      var n := Owners(s, a, size);
    }
  }

  // After a line, exactly the unused next buffer is freed; a released buffer that was queued never is.
  lemma OwnersAfterRxBufReleased(s: State, size: nat)
    requires OneOwnerEach(s, size) && RxOk(s, size) && 0 < size && CanHappen(s, RxBufReleased, size)
    ensures OneOwnerEach(OnRxBufReleased(s), size)
    ensures OnRxBufReleased(s).heap ==
            (if s.rxDriver.Stopping? && s.rxDriver.last.None? then s.heap - {s.rxDriver.next.value} else s.heap)
  {
    var s' := OnRxBufReleased(s);
    forall a: Addr ensures Owners(s', a, size) == if a in s'.heap then 1 else 0 {
      var n := Owners(s, a, size);
    }
  }

  lemma OwnersAfterRestart(s: State, g: Malloc, size: nat)
    requires OneOwnerEach(s, size) && 0 < size && FreshBlock(s.heap, g, size)
    requires s.rxDriver.RxOff? || s.rxDriver == Stopping(None, None)
    ensures OneOwnerEach(Restart(s, g), size)
  {
    var s' := Restart(s, g);
    forall a: Addr ensures Owners(s', a, size) == if a in s'.heap then 1 else 0 {
      var n := Owners(s, a, size);
    }
  }

  lemma OwnersAfterBleTake(s: State, size: nat)
    requires OneOwnerEach(s, size) && CanHappen(s, BleTake, size)
    ensures OneOwnerEach(OnBleTake(s), size)
  {
    var s' := OnBleTake(s);
    QueueHead(s.fifoRx);
    forall a: Addr ensures Owners(s', a, size) == if a in s'.heap then 1 else 0 {
      var n := Owners(s, a, size);
    }
  }

  lemma OwnersAfterBleFree(s: State, size: nat)
    requires OneOwnerEach(s, size) && CanHappen(s, BleFree, size)
    ensures OneOwnerEach(OnBleFree(s), size)
  {
    var s' := OnBleFree(s);
    forall a: Addr ensures Owners(s', a, size) == if a in s'.heap then 1 else 0 {
      var n := Owners(s, a, size);
    }
  }

  // ---------------------------------------------------------------------------
  // Every event is the corresponding step of the two machines on values
  // ---------------------------------------------------------------------------

  lemma TxViewAfterSegment(s: State, p: seq<byte>, g: Malloc, size: nat)
    requires OneOwnerEach(s, size) && TxOk(s) && CanHappen(s, Segment(p, g), size)
    ensures TxView(OnSegment(s, p, g)) ==
            if g.Block? then UartTx.Step(TxView(s), UartTx.Accept(p)) else TxView(s)
  {
    if g.Block? {
      var heap := s.heap[g.addr := Fill(g.raw, 0, p)];
      QueuedOnce(s, size, g.addr);
      FillPayload(g.raw, 0, p);
      assert Payload(heap, g.addr) == p by { assert g.raw.data[..0] + p == p; }
      PayloadsKept(s.heap, heap, s.fifoTx);
      PayloadsSnoc(heap, s.fifoTx, g.addr);
    }
  }

  lemma RxViewAfterSegment(s: State, p: seq<byte>, g: Malloc, size: nat)
    requires OneOwnerEach(s, size) && RxOk(s, size) && CanHappen(s, Segment(p, g), size)
    ensures RxView(OnSegment(s, p, g), size) == RxView(s, size)
  {
    if g.Block? {
      QueuedOnce(s, size, g.addr);
      RxViewKept(s, OnSegment(s, p, g), size);
    }
  }

  lemma TxViewAfterTxDone(s: State, size: nat)
    requires OneOwnerEach(s, size) && TxOk(s) && s.txDriver.TxBusy?
    ensures TxView(OnTxDone(s)) == UartTx.Step(TxView(s), UartTx.Done)
  {
    var b, s1, s' := s.txDriver.buf, DriverSends(s, s.txDriver.len), OnTxDone(s);
    var all := Payload(s.heap, b.base);
    assert all[b.off..b.off + s.txDriver.len] == all[b.off..];
    assert s1.wire == s.wire + UartTx.Rest(TxView(s).transfer);
    QueuedOnce(s, size, b.base);
    PayloadsKept(s.heap, s'.heap, s.fifoTx);
    if s.fifoTx != [] {
      assert Payloads(s'.heap, s'.fifoTx) == TxView(s).fifo[1..];
      assert Payload(s'.heap, s.fifoTx[0]) == TxView(s).fifo[0];
    }
  }

  lemma TxDoneOnlyFrees(s: State)
    requires TxOk(s) && s.txDriver.TxBusy?
    ensures var s' := OnTxDone(s);
            && s'.heap == s.heap - {s.txDriver.buf.base} && s'.fifoRx == s.fifoRx
            && s'.rxDriver == s.rxDriver && s'.notified == s.notified
  {
  }

  lemma RxViewAfterTxDone(s: State, size: nat)
    requires OneOwnerEach(s, size) && TxOk(s) && s.txDriver.TxBusy?
    ensures RxView(OnTxDone(s), size) == RxView(s, size)
  {
    hide OnTxDone;
    TxDoneOnlyFrees(s);
    QueuedOnce(s, size, s.txDriver.buf.base);
    if s.rxDriver.Receiving? {
      QueuedOnce(s, size, s.rxDriver.cur);
    }
    RxViewKept(s, OnTxDone(s), size);
  }

  lemma ViewsAfterTxAborted(s: State, n: nat, size: nat)
    requires TxOk(s) && CanHappen(s, TxAborted(n), size)
    ensures TxView(OnTxAborted(s, n)) == UartTx.Step(TxView(s), UartTx.Aborted(n))
    ensures RxView(OnTxAborted(s, n), size) == RxView(s, size)
  {
  }

  lemma TxViewAfterRxReady(s: State, r: seq<byte>, size: nat)
    requires OneOwnerEach(s, size) && RxOk(s, size) && CanHappen(s, RxReady(r), size)
    ensures TxView(OnRxReady(s, r, size)) == TxView(s)
  {
    QueuedOnce(s, size, s.rxDriver.cur);
    TxViewKept(s, OnRxReady(s, r, size));
  }

  lemma RxViewAfterRxReady(s: State, r: seq<byte>, size: nat)
    requires OneOwnerEach(s, size) && BlocksOk(s.heap, size) && RxOk(s, size) && CanHappen(s, RxReady(r), size)
    ensures UartRx.Fits(RxView(s, size), r, size)
    ensures RxView(OnRxReady(s, r, size), size) == UartRx.Receive(RxView(s, size), r, size)
  {
    hide Fill, UartRx.EndsLine, OneOwnerEach, Owners;
    var heap, cur := DriverFills(s, r).heap, s.rxDriver.cur;
    QueuedOnce(s, size, cur);
    FilledLength(s, r, size);
    PayloadsKept(s.heap, heap, s.fifoRx);
    PayloadsSnoc(heap, s.fifoRx, cur);
    var queued, line := Payloads(heap, s.fifoRx), Payload(heap, cur);
    assert s.notified + (queued + [line]) == s.notified + queued + [line];
  }

  lemma ViewsAfterRxBufRequest(s: State, g: Malloc, size: nat)
    requires OneOwnerEach(s, size) && TxOk(s) && RxOk(s, size) && CanHappen(s, RxBufRequest(g), size)
    ensures TxView(OnRxBufRequest(s, g)) == TxView(s)
    ensures RxView(OnRxBufRequest(s, g), size) == RxView(s, size)
  {
    if g.Block? {
      var s' := OnRxBufRequest(s, g);
      QueuedOnce(s, size, g.addr);
      TxViewKept(s, s');
      PayloadsKept(s.heap, s'.heap, s.fifoRx);
    }
  }

  lemma TxViewAfterRxBufReleased(s: State, size: nat)
    requires OneOwnerEach(s, size) && TxOk(s) && RxOk(s, size) && 0 < size && CanHappen(s, RxBufReleased, size)
    ensures TxView(OnRxBufReleased(s)) == TxView(s)
  {
    OwnersAfterRxBufReleased(s, size);
    if s.rxDriver.Stopping? && s.rxDriver.last.None? {
      QueuedOnce(s, size, s.rxDriver.next.value);
    }
    TxViewKept(s, OnRxBufReleased(s));
  }

  lemma RxViewAfterRxBufReleased(s: State, size: nat)
    requires OneOwnerEach(s, size) && RxOk(s, size) && 0 < size && CanHappen(s, RxBufReleased, size)
    ensures RxView(OnRxBufReleased(s), size) == RxView(s, size)
  {
    var s' := OnRxBufReleased(s);
    OwnersAfterRxBufReleased(s, size);
    if s.rxDriver.Stopping? && s.rxDriver.last.None? {
      QueuedOnce(s, size, s.rxDriver.next.value);
    }
    PayloadsKept(s.heap, s'.heap, s.fifoRx);
    assert Partial(s', size) == [] == Partial(s, size);
  }

  lemma ViewsAfterRestart(s: State, g: Malloc, size: nat)
    requires OneOwnerEach(s, size) && TxOk(s) && 0 < size && FreshBlock(s.heap, g, size)
    requires s.rxDriver.RxOff? || s.rxDriver == Stopping(None, None)
    ensures TxView(Restart(s, g)) == TxView(s)
    ensures RxView(Restart(s, g), size) == RxView(s, size)
  {
    var s' := Restart(s, g);
    if g.Block? {
      QueuedOnce(s, size, g.addr);
    }
    TxViewKept(s, s');
    PayloadsKept(s.heap, s'.heap, s.fifoRx);
    assert Partial(s', size) == [] == Partial(s, size);
  }

  lemma RxViewAfterBleTake(s: State, size: nat)
    requires CanHappen(s, BleTake, size)
    ensures RxView(OnBleTake(s), size) == RxView(s, size)
  {
    var first, rest := Payload(s.heap, s.fifoRx[0]), Payloads(s.heap, s.fifoRx[1..]);
    assert s.notified + ([first] + rest) == s.notified + [first] + rest;
  }

  lemma TxViewAfterBleFree(s: State, size: nat)
    requires OneOwnerEach(s, size) && CanHappen(s, BleFree, size)
    ensures TxView(OnBleFree(s)) == TxView(s)
  {
    QueuedOnce(s, size, s.bleBuf.value);
    TxViewKept(s, OnBleFree(s));
  }

  lemma RxViewAfterBleFree(s: State, size: nat)
    requires OneOwnerEach(s, size) && CanHappen(s, BleFree, size)
    ensures RxView(OnBleFree(s), size) == RxView(s, size)
  {
    QueuedOnce(s, size, s.bleBuf.value);
    RxViewKept(s, OnBleFree(s), size);
  }

  // ---------------------------------------------------------------------------
  // The handler's variables keep agreeing with the driver
  // ---------------------------------------------------------------------------

  ghost predicate AgreesWithDriver(s: State, size: nat) {
    BlocksOk(s.heap, size) && TxOk(s) && RxOk(s, size) && ReceiverNotLost(s)
  }

  lemma DriverAfterSegment(s: State, p: seq<byte>, g: Malloc, size: nat)
    requires AgreesWithDriver(s, size) && CanHappen(s, Segment(p, g), size)
    ensures AgreesWithDriver(OnSegment(s, p, g), size)
  {
    if g.Block? {
      FillPayload(g.raw, 0, p);
    }
  }

  // The buffer that is freed is not the one sent next.
  lemma TxDriverAfterTxDone(s: State, size: nat)
    requires OneOwnerEach(s, size) && BlocksOk(s.heap, size) && TxOk(s)
    requires UartTx.WellFormed(TxView(s)) && s.txDriver.TxBusy?
    ensures BlocksOk(OnTxDone(s).heap, size) && TxOk(OnTxDone(s))
  {
    QueuedOnce(s, size, s.txDriver.buf.base);
    if s.fifoTx != [] {
      QueuedOnce(s, size, s.fifoTx[0]);
      assert TxView(s).fifo[0] == Payload(s.heap, s.fifoTx[0]);
    }
  }

  lemma RxDriverAfterTxDone(s: State, size: nat)
    requires OneOwnerEach(s, size) && TxOk(s) && RxOk(s, size) && s.txDriver.TxBusy?
    ensures RxOk(OnTxDone(s), size)
  {
    QueuedOnce(s, size, s.txDriver.buf.base);
  }

  lemma DriverAfterTxAborted(s: State, n: nat, size: nat)
    requires AgreesWithDriver(s, size) && CanHappen(s, TxAborted(n), size)
    ensures AgreesWithDriver(OnTxAborted(s, n), size)
  {
  }

  lemma DriverAfterQueueing(s: State, cur: Addr, next: Option<Addr>, filled: nat, size: nat)
    requires BlocksOk(s.heap, size) && TxOk(s) && ReceiverNotLost(s)
    requires s.rxDriver == Receiving(cur, next, filled) && |Payload(s.heap, cur)| == filled <= size
    requires cur in s.heap && s.heap[cur].len == filled
    requires next.Some? ==> next.value in s.heap && s.heap[next.value].len == 0 && next != Some(cur)
    ensures AgreesWithDriver(HandleRxReady(s, cur, next, size), size)
  {
  }

  lemma DriverAfterRxReady(s: State, r: seq<byte>, size: nat)
    requires OneOwnerEach(s, size) && AgreesWithDriver(s, size) && CanHappen(s, RxReady(r), size)
    ensures AgreesWithDriver(OnRxReady(s, r, size), size)
  {
    var Receiving(cur, next, filled) := s.rxDriver;
    FillPayload(s.heap[cur], filled, r);
    FilledLength(s, r, size);
    QueuedOnce(s, size, cur);
    var n := Owners(s, cur, size);
    DriverAfterQueueing(DriverFills(s, r), cur, next, filled + |r|, size);
  }

  lemma DriverAfterRxBufRequest(s: State, g: Malloc, size: nat)
    requires AgreesWithDriver(s, size) && CanHappen(s, RxBufRequest(g), size)
    ensures AgreesWithDriver(OnRxBufRequest(s, g), size)
  {
  }

  lemma DriverAfterRxBufReleased(s: State, size: nat)
    requires OneOwnerEach(s, size) && AgreesWithDriver(s, size) && 0 < size && CanHappen(s, RxBufReleased, size)
    ensures AgreesWithDriver(OnRxBufReleased(s), size)
  {
    OwnersAfterRxBufReleased(s, size);
    if s.rxDriver.Stopping? && s.rxDriver.last.None? {
      QueuedOnce(s, size, s.rxDriver.next.value);
    }
  }

  lemma DriverAfterRestart(s: State, g: Malloc, size: nat)
    requires BlocksOk(s.heap, size) && TxOk(s) && 0 < size && !s.workScheduled && FreshBlock(s.heap, g, size)
    ensures AgreesWithDriver(Restart(s, g), size)
  {
  }

  lemma DriverAfterBleFree(s: State, size: nat)
    requires OneOwnerEach(s, size) && AgreesWithDriver(s, size) && CanHappen(s, BleFree, size)
    ensures AgreesWithDriver(OnBleFree(s), size)
  {
    QueuedOnce(s, size, s.bleBuf.value);
  }

  // ---------------------------------------------------------------------------
  // What the handlers answer the receiver
  // ---------------------------------------------------------------------------

  /** A report stops the receiver exactly when it ends a line in a buffer that is not
      full; otherwise reception goes on in the same buffer, or in the next one once the
      full buffer is given back.  `buf_release` is set exactly when it is stopped. */
  lemma StopsExactlyWhen(s: State, r: seq<byte>, size: nat)
    requires BlocksOk(s.heap, size) && RxOk(s, size) && CanHappen(s, RxReady(r), size)
    ensures var line, s' := Partial(s, size) + r, OnRxReady(s, r, size);
            && (s'.rxDriver.Stopping? <==> |line| < size && line[|line| - 1] in {10, 13})
            && s'.rxDriver == (if s'.rxDriver.Stopping? then Stopping(Some(s.rxDriver.cur), s.rxDriver.next)
                               else Receiving(s.rxDriver.cur, s.rxDriver.next, s.rxDriver.filled + |r|))
            && (s'.bufRelease <==> s'.rxDriver.Stopping?)
            && s'.currentBuf == if s'.rxDriver.Stopping? then Some(s.rxDriver.cur) else s.currentBuf
  {
    FilledLength(s, r, size);
  }

  /** A request for a next buffer is answered whenever there is memory: with an empty
      block that only the driver owns.  Without memory nothing changes. */
  lemma RequestIsAnswered(s: State, g: Malloc, size: nat)
    requires OneOwnerEach(s, size) && CanHappen(s, RxBufRequest(g), size)
    ensures var s' := OnRxBufRequest(s, g);
            && s'.rxDriver.Receiving? && s'.rxDriver.cur == s.rxDriver.cur && s'.rxDriver.filled == s.rxDriver.filled
            && (s'.rxDriver.next.Some? <==> g.Block?)
            && (g.Block? ==>
                  && s'.rxDriver.next == Some(g.addr) && s'.heap.Keys == s.heap.Keys + {g.addr}
                  && s'.heap[g.addr].len == 0 && Owners(s', g.addr, size) == 1)
            && (g.NoMemory? ==> s' == s)
  {
    OwnersAfterRxBufRequest(s, g, size);
    var n := Owners(OnRxBufRequest(s, g), if g.Block? then g.addr else 0, size);
  }

  /** When the receiver is off, or about to be, memory switches it on at once, in an empty
      block that only it owns; without memory, and only then, the retry is scheduled. */
  lemma RestartsExactlyWhen(s: State, g: Malloc, size: nat)
    requires OneOwnerEach(s, size) && 0 < size && FreshBlock(s.heap, g, size) && !s.workScheduled
    requires s.rxDriver.RxOff? || s.rxDriver == Stopping(None, None)
    ensures var s' := Restart(s, g);
            && (s'.rxDriver.Receiving? <==> g.Block?) && (s'.workScheduled <==> g.NoMemory?)
            && (g.Block? ==>
                  && s'.rxDriver == Receiving(g.addr, None, 0) && s'.heap.Keys == s.heap.Keys + {g.addr}
                  && s'.heap[g.addr].len == 0 && Owners(s', g.addr, size) == 1)
            && (g.NoMemory? ==> s'.rxDriver == RxOff && s'.heap == s.heap)
  {
    OwnersAfterRestart(s, g, size);
    var n := Owners(Restart(s, g), if g.Block? then g.addr else 0, size);
  }

  // The unused next buffer is freed once: the statics that asked for it are reset.
  lemma ReleaseResets(s: State, size: nat)
    requires RxOk(s, size) && 0 < size && CanHappen(s, RxBufReleased, size)
    ensures var s', frees := OnRxBufReleased(s), s.rxDriver.Stopping? && s.rxDriver.last.None?;
            && s'.bufRelease == (s.bufRelease && !frees)
            && s'.currentBuf == if frees then None else s.currentBuf
  {
  }

  // Only reports and releases change what is to be freed, only reports queue, and only the
  // Bluetooth thread takes a buffer.
  lemma ReceiverStaticsStay(s: State, e: Event, size: nat)
    requires CanHappen(s, e, size) && !e.RxReady?
    ensures var s' := Step(s, e, size);
            && (!e.RxBufReleased? ==> s'.bufRelease == s.bufRelease && s'.currentBuf == s.currentBuf)
            && s'.fifoRx == (if e.BleTake? then s.fifoRx[1..] else s.fifoRx)
            && s'.bleBuf == (if e.BleTake? then Some(s.fifoRx[0]) else if e.BleFree? then None else s.bleBuf)
  {
    hide Fill, Payload;
  }

  // Writes and transmit events leave the receiver's variables alone, and receive events
  // the transmitter's.
  lemma DirectionsAreSeparate(s: State, e: Event, size: nat)
    requires CanHappen(s, e, size)
    ensures var s' := Step(s, e, size);
            && (e.Segment? || e.TxDone? || e.TxAborted? ==>
                  && s'.rxDriver == s.rxDriver && s'.fifoRx == s.fifoRx && s'.bleBuf == s.bleBuf
                  && s'.bufRelease == s.bufRelease && s'.currentBuf == s.currentBuf
                  && s'.workScheduled == s.workScheduled && s'.notified == s.notified)
            && (!e.Segment? && !e.TxDone? && !e.TxAborted? ==>
                  && s'.txDriver == s.txDriver && s'.fifoTx == s.fifoTx && s'.wire == s.wire
                  && s'.abortedBuf == s.abortedBuf && s'.abortedLen == s.abortedLen)
  {
    hide Fill, Payload;
  }

  // ---------------------------------------------------------------------------
  // Every run
  // ---------------------------------------------------------------------------

  // What an event means to the transmit machine, if anything.
  function TxMeaning(e: Event): Option<UartTx.TxEvent> {
    match e
    case Segment(p, Block(_, _)) => Some(UartTx.Accept(p))
    case TxDone => Some(UartTx.Done)
    case TxAborted(n) => Some(UartTx.Aborted(n))
    case _ => None
  }

  lemma OwnersAfter(s: State, e: Event, size: nat)
    requires OneOwnerEach(s, size) && AgreesWithDriver(s, size) && 0 < size && CanHappen(s, e, size)
    ensures OneOwnerEach(Step(s, e, size), size)
  {
    match e
    case Segment(p, g) => OwnersAfterSegment(s, p, g, size);
    case TxDone => OwnersAfterTxDone(s, size);
    case TxDoneEmpty =>
    case TxAborted(n) => OwnersAfterTxAborted(s, n, size);
    case RxReady(r) => OwnersAfterRxReady(s, r, size);
    case RxBufRequest(g) => OwnersAfterRxBufRequest(s, g, size);
    case RxBufReleased => OwnersAfterRxBufReleased(s, size);
    case RxDisabled(g) => OwnersAfterRestart(s, g, size);
    case WorkTimeout(g) =>
      var s1 := s.(workScheduled := false);
      forall a: Addr ensures Owners(s1, a, size) == if a in s1.heap then 1 else 0 {
        var n := Owners(s, a, size);
      }
      OwnersAfterRestart(s1, g, size);
    case BleTake => OwnersAfterBleTake(s, size);
    case BleFree => OwnersAfterBleFree(s, size);
  }

  /** One event, seen by the two machines on values: exactly one step of the
      transmit machine, exactly one of the receive machine, or nothing. */
  lemma StepRefines(s: State, e: Event, size: nat)
    requires OneOwnerEach(s, size) && AgreesWithDriver(s, size) && 0 < size && CanHappen(s, e, size)
    ensures TxMeaning(e).Some? ==> UartTx.Enabled(TxView(s), TxMeaning(e).value)
    ensures TxView(Step(s, e, size)) ==
            if TxMeaning(e).Some? then UartTx.Step(TxView(s), TxMeaning(e).value) else TxView(s)
    ensures e.RxReady? ==> UartRx.Fits(RxView(s, size), e.report, size)
    ensures RxView(Step(s, e, size), size) ==
            if e.RxReady? then UartRx.Receive(RxView(s, size), e.report, size) else RxView(s, size)
  {
    match e
    case Segment(p, g) =>
      TxViewAfterSegment(s, p, g, size);
      RxViewAfterSegment(s, p, g, size);
    case TxDone =>
      TxViewAfterTxDone(s, size);
      RxViewAfterTxDone(s, size);
    case TxDoneEmpty =>
    case TxAborted(n) => ViewsAfterTxAborted(s, n, size);
    case RxReady(r) =>
      TxViewAfterRxReady(s, r, size);
      RxViewAfterRxReady(s, r, size);
    case RxBufRequest(g) => ViewsAfterRxBufRequest(s, g, size);
    case RxBufReleased =>
      TxViewAfterRxBufReleased(s, size);
      RxViewAfterRxBufReleased(s, size);
    case RxDisabled(g) => ViewsAfterRestart(s, g, size);
    case WorkTimeout(g) =>
      var s1 := s.(workScheduled := false);
      assert forall a: Addr :: Owners(s1, a, size) == Owners(s, a, size);
      ViewsAfterRestart(s1, g, size);
    case BleTake => RxViewAfterBleTake(s, size);
    case BleFree =>
      TxViewAfterBleFree(s, size);
      RxViewAfterBleFree(s, size);
  }

  lemma DriverAfter(s: State, e: Event, size: nat)
    requires OneOwnerEach(s, size) && AgreesWithDriver(s, size) && UartTx.WellFormed(TxView(s))
    requires 0 < size && CanHappen(s, e, size)
    ensures AgreesWithDriver(Step(s, e, size), size)
  {
    match e
    case Segment(p, g) => DriverAfterSegment(s, p, g, size);
    case TxDone =>
      TxDriverAfterTxDone(s, size);
      RxDriverAfterTxDone(s, size);
    case TxDoneEmpty =>
    case TxAborted(n) => DriverAfterTxAborted(s, n, size);
    case RxReady(r) => DriverAfterRxReady(s, r, size);
    case RxBufRequest(g) => DriverAfterRxBufRequest(s, g, size);
    case RxBufReleased => DriverAfterRxBufReleased(s, size);
    case RxDisabled(g) => DriverAfterRestart(s, g, size);
    case WorkTimeout(g) => DriverAfterRestart(s.(workScheduled := false), g, size);
    case BleTake =>
    case BleFree => DriverAfterBleFree(s, size);
  }

  // What an event adds to the accepted and to the reported bytes.
  function AcceptedBy(e: Event): seq<byte> {
    if e.Segment? && e.grant.Block? then e.payload else []
  }

  function ReportedBy(e: Event): seq<byte> {
    if e.RxReady? then e.report else []
  }

  lemma StepHistory(s: State, e: Event, size: nat)
    requires CanHappen(s, e, size)
    ensures Step(s, e, size).accepted == s.accepted + AcceptedBy(e)
    ensures Step(s, e, size).received == s.received + ReportedBy(e)
  {
    assert s.accepted + [] == s.accepted && s.received + [] == s.received;
    match e
    case Segment(p, g) =>
    case TxDone =>
    case TxAborted(n) =>
    case RxReady(r) => assert OnRxReady(s, r, size).received == DriverFills(s, r).received;
    case _ =>
  }

  lemma StepConserves(s: State, e: Event, size: nat)
    requires OneOwnerEach(s, size) && AgreesWithDriver(s, size) && 0 < size && CanHappen(s, e, size)
    requires TxConserves(s) && RxConserves(s, size)
    ensures TxConserves(Step(s, e, size)) && RxConserves(Step(s, e, size), size)
  {
    StepRefines(s, e, size);
    StepHistory(s, e, size);
    var meaning := TxMeaning(e);
    if meaning.Some? {
      UartTx.StepConserves(TxView(s), meaning.value);
    }
    if e.RxReady? {
      UartRx.ReceiveConserves(RxView(s, size), e.report, size);
    }
  }

  lemma StepKeepsInv(s: State, e: Event, size: nat)
    requires Inv(s, size) && 0 < size && CanHappen(s, e, size)
    ensures Inv(Step(s, e, size), size)
  {
    StepConserves(s, e, size);
    OwnersAfter(s, e, size);
    DriverAfter(s, e, size);
  }

  predicate RunCanHappen(s: State, events: seq<Event>, size: nat)
    decreases |events|
  {
    events != [] ==>
      && CanHappen(s, events[0], size)
      && RunCanHappen(Step(s, events[0], size), events[1..], size)
  }

  function Run(s: State, events: seq<Event>, size: nat): State
    requires RunCanHappen(s, events, size)
    decreases |events|
  {
    if events == [] then s else Run(Step(s, events[0], size), events[1..], size)
  }

  function AcceptedIn(events: seq<Event>): seq<byte> {
    if events == [] then [] else AcceptedBy(events[0]) + AcceptedIn(events[1..])
  }

  function ReportedIn(events: seq<Event>): seq<byte> {
    if events == [] then [] else ReportedBy(events[0]) + ReportedIn(events[1..])
  }

  lemma {:induction false} RunKeepsInv(s: State, events: seq<Event>, size: nat)
    requires Inv(s, size) && 0 < size && RunCanHappen(s, events, size)
    ensures Inv(Run(s, events, size), size)
    decreases |events|
  {
    if events != [] {
      StepKeepsInv(s, events[0], size);
      RunKeepsInv(Step(s, events[0], size), events[1..], size);
    }
  }

  lemma {:induction false} RunHistory(s: State, events: seq<Event>, size: nat)
    requires RunCanHappen(s, events, size)
    ensures Run(s, events, size).accepted == s.accepted + AcceptedIn(events)
    ensures Run(s, events, size).received == s.received + ReportedIn(events)
    decreases |events|
  {
    if events != [] {
      StepHistory(s, events[0], size);
      RunHistory(Step(s, events[0], size), events[1..], size);
      Regroup(s.accepted, AcceptedBy(events[0]), AcceptedIn(events[1..]));
      Regroup(s.received, ReportedBy(events[0]), ReportedIn(events[1..]));
    }
  }

  lemma RunOne(s: State, e: Event, size: nat)
    requires CanHappen(s, e, size)
    ensures RunCanHappen(s, [e], size) && Run(s, [e], size) == Step(s, e, size)
  {
    hide Step, CanHappen;
    assert [e][1..] == [];
  }

  lemma RunCons(s: State, e: Event, later: seq<Event>, size: nat)
    requires CanHappen(s, e, size) && RunCanHappen(Step(s, e, size), later, size)
    ensures RunCanHappen(s, [e] + later, size)
    ensures Run(s, [e] + later, size) == Run(Step(s, e, size), later, size)
  {
    hide Step, CanHappen;
    assert ([e] + later)[1..] == later;
  }

  /** A buffer that fills up ends reception exactly when the driver has no next one: it is
      queued and given back without being freed, and with a next one the receiver is
      never disabled. */
  lemma GoesOnExactlyWhen(s: State, r: seq<byte>, size: nat)
    requires BlocksOk(s.heap, size) && RxOk(s, size) && 0 < size && CanHappen(s, RxReady(r), size)
    requires s.rxDriver.filled + |r| == size
    ensures RunCanHappen(s, [RxReady(r)] + [RxBufReleased], size)
    ensures var s', next := Run(s, [RxReady(r)] + [RxBufReleased], size), s.rxDriver.next;
            && s'.rxDriver == (if next.Some? then Receiving(next.value, None, 0) else Stopping(None, None))
            && s'.heap.Keys == s.heap.Keys && !s'.bufRelease && s'.fifoRx == s.fifoRx + [s.rxDriver.cur]
  {
    hide Run, RunCanHappen;
    var s1 := OnRxReady(s, r, size);
    FilledLength(s, r, size);
    StopsExactlyWhen(s, r, size);
    RunOne(s1, RxBufReleased, size);
    RunCons(s, RxReady(r), [RxBufReleased], size);
  }

  /** A granted request keeps the receiver on when the buffer fills up: reception goes on
      in the granted block. */
  lemma GrantedRequestKeepsReceiving(s: State, g: Malloc, r: seq<byte>, size: nat)
    requires Inv(s, size) && 0 < size && CanHappen(s, RxBufRequest(g), size) && g.Block?
    requires r != [] && s.rxDriver.filled + |r| == size
    ensures var events := [RxBufRequest(g)] + ([RxReady(r)] + [RxBufReleased]);
            && RunCanHappen(s, events, size)
            && var s' := Run(s, events, size);
            && s'.rxDriver == Receiving(g.addr, None, 0) && g.addr in s'.heap && s'.heap[g.addr].len == 0
            && Owners(s', g.addr, size) == 1
  {
    hide Run, RunCanHappen, Inv, Owners;
    assert OneOwnerEach(s, size) && AgreesWithDriver(s, size) by { InvAgrees(s, size); }
    var s1 := OnRxBufRequest(s, g);
    RequestIsAnswered(s, g, size);
    StepKeepsInv(s, RxBufRequest(g), size);
    InvAgrees(s1, size);
    GoesOnExactlyWhen(s1, r, size);
    RunCons(s, RxBufRequest(g), [RxReady(r)] + [RxBufReleased], size);
    RunKeepsInv(s1, [RxReady(r)] + [RxBufReleased], size);
    InvAgrees(Run(s1, [RxReady(r)] + [RxBufReleased], size), size);
  }

  // The events from the last release after a line to the restart of the receiver.
  function RestartEvents(next: Option<Addr>, g: Malloc): seq<Event> {
    if next.Some? then [RxBufReleased] + [RxDisabled(g)] else [RxDisabled(g)]
  }

  lemma StoppedReceiverRestarts(s: State, g: Malloc, size: nat)
    requires Inv(s, size) && 0 < size && s.rxDriver.Stopping? && s.rxDriver.last.None?
    requires g.Block? && FreshBlock(s.heap, g, size)
    ensures var next := s.rxDriver.next;
            && RunCanHappen(s, RestartEvents(next, g), size)
            && var s' := Run(s, RestartEvents(next, g), size);
            && s'.rxDriver == Receiving(g.addr, None, 0) && !s'.workScheduled && s'.fifoRx == s.fifoRx
            && s'.heap.Keys == s.heap.Keys - (if next.Some? then {next.value} else {}) + {g.addr}
  {
    hide Run, RunCanHappen, Inv, Owners, OneOwnerEach;
    InvAgrees(s, size);
    if s.rxDriver.next.Some? {
      OwnersAfterRxBufReleased(s, size);
      var s1 := OnRxBufReleased(s);
      StepKeepsInv(s, RxBufReleased, size);
      InvAgrees(s1, size);
      RestartsExactlyWhen(s1, g, size);
      RunOne(s1, RxDisabled(g), size);
      RunCons(s, RxBufReleased, [RxDisabled(g)], size);
    } else {
      RestartsExactlyWhen(s, g, size);
      RunOne(s, RxDisabled(g), size);
    }
  }

  /** After a line that does not fill its buffer, and with memory, the receiver is on again
      in the granted block.  The line is queued, and an unused next buffer is freed. */
  lemma LineRestartsReceiver(s: State, r: seq<byte>, g: Malloc, size: nat)
    requires Inv(s, size) && 0 < size && CanHappen(s, RxReady(r), size)
    requires s.rxDriver.filled + |r| < size && r[|r| - 1] in {10, 13}
    requires g.Block? && FreshBlock(s.heap, g, size)
    ensures var next := s.rxDriver.next;
            var events := [RxReady(r)] + ([RxBufReleased] + RestartEvents(next, g));
            && RunCanHappen(s, events, size)
            && var s' := Run(s, events, size);
            && s'.rxDriver == Receiving(g.addr, None, 0) && !s'.workScheduled
            && s'.heap.Keys == s.heap.Keys - (if next.Some? then {next.value} else {}) + {g.addr}
            && s'.fifoRx == s.fifoRx + [s.rxDriver.cur]
  {
    hide Run, RunCanHappen, Inv, Owners, OneOwnerEach, OnRxReady, OnRxBufReleased, RestartEvents;
    InvAgrees(s, size);
    var next := s.rxDriver.next;
    var s1 := OnRxReady(s, r, size);
    LineStops(s, r, size);
    StepKeepsInv(s, RxReady(r), size);
    StepKeepsInv(s1, RxBufReleased, size);
    FirstRelease(s1, size);
    StoppedReceiverRestarts(OnRxBufReleased(s1), g, size);
    RunCons(s1, RxBufReleased, RestartEvents(next, g), size);
    RunCons(s, RxReady(r), [RxBufReleased] + RestartEvents(next, g), size);
  }

  lemma LineStops(s: State, r: seq<byte>, size: nat)
    requires Inv(s, size) && CanHappen(s, RxReady(r), size)
    requires s.rxDriver.filled + |r| < size && r[|r| - 1] in {10, 13}
    ensures var s' := OnRxReady(s, r, size);
            && s'.rxDriver == Stopping(Some(s.rxDriver.cur), s.rxDriver.next) && s'.heap.Keys == s.heap.Keys
            && s'.fifoRx == s.fifoRx + [s.rxDriver.cur]
  {
    hide OnRxReady, OneOwnerEach;
    StopsExactlyWhen(s, r, size);
    OwnersAfterRxReady(s, r, size);
  }

  // The buffer that was queued comes back first, and stays allocated.
  lemma FirstRelease(s: State, size: nat)
    requires Inv(s, size) && 0 < size && s.rxDriver.Stopping? && s.rxDriver.last.Some?
    ensures var s' := OnRxBufReleased(s);
            s'.rxDriver == Stopping(None, s.rxDriver.next) && s'.heap == s.heap && s'.fifoRx == s.fifoRx
  {
  }

  lemma InvAgrees(s: State, size: nat)
    requires Inv(s, size)
    ensures OneOwnerEach(s, size) && AgreesWithDriver(s, size) && ReceiverNotLost(s)
  {
  }

  // The image before uart_init, and after it has allocated a buffer and switched the receiver on.
  const UNSTARTED := State(map[], [], [], None, 0, false, None, false, None, TxIdle, RxOff, [], [], [], [])

  function Started(a: Addr, raw: UartData): State {
    Restart(UNSTARTED, Block(a, raw))
  }

  lemma UnstartedOwners(size: nat)
    ensures OneOwnerEach(UNSTARTED, size)
  {
    assert forall a: Addr :: Owners(UNSTARTED, a, size) == 0;
  }

  // A block that start-up allocated and then gave up on has no owner.
  lemma LeftBehind(a: Addr, heap: Heap, size: nat)
    requires a in heap
    ensures !OneOwnerEach(UNSTARTED.(heap := heap), size)
  {
    assert Owners(UNSTARTED.(heap := heap), a, size) == 0;
  }

  lemma StartedInv(a: Addr, raw: UartData, size: nat)
    requires 0 < size && |raw.data| == size
    ensures Inv(Started(a, raw), size)
  {
    var s := Started(a, raw);
    forall b: Addr ensures Owners(s, b, size) == if b in s.heap then 1 else 0 {
    }
    assert s.wire + UartTx.Pending(TxView(s)) == [];
  }

  /** The whole bridge, over every run from start-up and for any pattern of
      allocation failures.  Transmit: sent bytes, the rest of the transfer and the
      FIFO are exactly the accepted segments in order.  Receive: buffers handed to
      Bluetooth, queued buffers and the open one are exactly the reported bytes,
      cut into frames.  Every block has exactly one owner.  The receiver is never lost. */
  lemma EveryRun(a: Addr, raw: UartData, events: seq<Event>, size: nat)
    requires 0 < size && |raw.data| == size && RunCanHappen(Started(a, raw), events, size)
    ensures var s := Run(Started(a, raw), events, size);
            && s.wire + UartTx.Rest(TxView(s).transfer) + Flatten(Payloads(s.heap, s.fifoTx)) == AcceptedIn(events)
            && Flatten(s.notified + Payloads(s.heap, s.fifoRx)) + Partial(s, size) == ReportedIn(events)
            && (forall i | 0 <= i < |s.notified| ::
                  var f := s.notified[i]; 0 < |f| <= size && (|f| == size || f[|f| - 1] in {10, 13}))
            && (s.fifoTx != [] ==> s.txDriver.TxBusy?)
            && OneOwnerEach(s, size)
            && (s.rxDriver.RxOff? <==> s.workScheduled)
  {
    StartedInv(a, raw, size);
    RunKeepsInv(Started(a, raw), events, size);
    RunHistory(Started(a, raw), events, size);
    var s := Run(Started(a, raw), events, size);
    InvExplained(s, size);
    assert [] + AcceptedIn(events) == AcceptedIn(events) && [] + ReportedIn(events) == ReportedIn(events);
  }

  // The invariant, unfolded to what it says about queues, bytes and blocks.
  lemma InvExplained(s: State, size: nat)
    requires Inv(s, size)
    ensures OneOwnerEach(s, size) && ReceiverNotLost(s)
    ensures s.wire + UartTx.Rest(TxView(s).transfer) + Flatten(Payloads(s.heap, s.fifoTx)) == s.accepted
    ensures Flatten(s.notified + Payloads(s.heap, s.fifoRx)) + Partial(s, size) == s.received
    ensures forall i | 0 <= i < |s.notified| ::
              var f := s.notified[i]; 0 < |f| <= size && (|f| == size || f[|f| - 1] in {10, 13})
    ensures s.fifoTx != [] ==> s.txDriver.TxBusy?
  {
    var rest, queued := UartTx.Rest(TxView(s).transfer), Flatten(Payloads(s.heap, s.fifoTx));
    assert s.wire + (rest + queued) == s.wire + rest + queued;
    assert forall i | 0 <= i < |s.notified| :: RxView(s, size).frames[i] == s.notified[i];
  }
}
