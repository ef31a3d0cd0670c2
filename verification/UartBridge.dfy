/** The bridge's code, in its own form: fields updated step by step, buffers found
    again from pointers into them, and a loop that cuts up each write while
    interrupts arrive between its iterations.  Every method is proved to be its
    step of `BridgeState`, so the laws proved there hold of this code. */
module UartBridge {
  import opened Bytes
  import opened BridgeState
  import opened Schedule
  import UartTx
  import UartRx
  import Segmentation

  const ENXIO: int := 6
  const ENOMEM: int := 12

  lemma FromWork(s: State, g: Malloc, size: nat)
    requires CanHappen(s, WorkTimeout(g), size) && ReceiverNotLost(s)
    ensures s.rxDriver.RxOff? && FreshBlock(s.heap, g, size)
  {
  }

  // CONTAINER_OF finds the block again only from the start of its data.
  function ContainerOf(p: Ptr): Addr
    requires p.off == 0
  {
    p.base
  }

  ghost function AddressBound(used: set<Addr>): (b: nat)
    ensures forall a | a in used :: a < b
  {
    if used == {} then 0
    else
      var a :| a in used;
      var b := AddressBound(used - {a});
      assert used == used - {a} + {a};
      if b <= a then a + 1 else b
  }

  lemma LineOf(heap: Heap, a: Addr)
    requires a in heap && 0 < heap[a].len <= |heap[a].data|
    ensures |Payload(heap, a)| == heap[a].len
    ensures var last := heap[a].data[heap[a].len - 1];
            UartRx.EndsLine(Payload(heap, a)) <==> last == LF || last == CR
  {
  }

  lemma AnswerToLine(s: State, buf: Addr, next: Option<Addr>, size: nat)
    requires s.rxDriver.Receiving? && buf in s.heap && 0 < s.heap[buf].len <= |s.heap[buf].data|
    ensures var last, s' := s.heap[buf].data[s.heap[buf].len - 1], HandleRxReady(s, buf, next, size);
            && s'.heap == s.heap
            && (s'.rxDriver.Stopping? <==> s.heap[buf].len != size && (last == 10 || last == 13))
            && (!s'.rxDriver.Stopping? ==> s'.rxDriver == s.rxDriver) && (s'.bufRelease <==> s'.rxDriver.Stopping?)
  {
    hide Payload, UartRx.EndsLine;
    LineOf(s.heap, buf);
  }

  // Copying the data and then appending the line feed fills the block with the segment.
  lemma SegmentFills(raw: UartData, data: seq<byte>, pos: nat, size: nat)
    requires pos < |data| && 2 <= size == |raw.data|
    ensures var next := Segmentation.Next(|data|, pos, size);
            var copied := Fill(raw, 0, data[pos..next]);
            Fill(raw, 0, Segmentation.Segment(data, pos, size)) ==
            if next == |data| && data[|data| - 1] == CR then Fill(copied, copied.len, [LF]) else copied
    ensures var p := Segmentation.Segment(data, pos, size);
            0 < |p| <= size && Fill(raw, 0, p).len == |p| && |Fill(raw, 0, p).data| == size
  {
  }

  class Bridge {
    const size: nat // UART_BUF_SIZE

    var heap: Heap
    var fifoTx: seq<Addr>
    var fifoRx: seq<Addr>

    // static variables of uart_cb
    var currentBuf: Option<Addr>
    var abortedLen: nat
    var bufRelease: bool
    var abortedBuf: Option<Ptr>

    var workScheduled: bool
    var bleBuf: Option<Addr>

    var txDriver: TxDriver
    var rxDriver: RxDriver

    // the world
    var accepted: seq<byte>
    var wire: seq<byte>
    var received: seq<byte>
    var notified: seq<seq<byte>>

    function S(): State
      reads this
    {
      State(heap, fifoTx, fifoRx, currentBuf, abortedLen, bufRelease, abortedBuf, workScheduled,
            bleBuf, txDriver, rxDriver, accepted, wire, received, notified)
    }

    ghost predicate Valid()
      reads this
    {
      2 <= size <= 0xFFFF && Inv(S(), size)
    }

    // What the handlers touch is allocated; each follows from Valid() by `Safe`.

    // The next buffer to send is there, and is not the one about to be freed.
    ghost predicate QueueReady(freed: Addr)
      reads this
    {
      fifoTx != [] ==>
        && fifoTx[0] in heap && fifoTx[0] != freed
        && 0 < heap[fifoTx[0]].len <= |heap[fifoTx[0]].data|
    }

    ghost predicate LineReady()
      reads this
    {
      fifoRx != [] ==> fifoRx[0] in heap && heap[fifoRx[0]].len <= |heap[fifoRx[0]].data|
    }

    // A buffer given back by the driver is freed only when it is the unused next one.
    ghost predicate UnusedNextAllocated()
      reads this
    {
      && (rxDriver.Receiving? && rxDriver.filled == size ==> !bufRelease)
      && (rxDriver.Stopping? && rxDriver.last.Some? ==> currentBuf == rxDriver.last)
      && (rxDriver.Stopping? && rxDriver.last.None? && rxDriver.next.Some? ==> rxDriver.next.value in heap)
    }

    lemma Safe()
      requires Valid()
      ensures TxOk(S()) && RxOk(S(), size) && BlocksOk(heap, size) && ReceiverNotLost(S())
      ensures txDriver.TxBusy? ==> QueueReady(txDriver.buf.base)
      ensures LineReady() && UnusedNextAllocated()
      ensures bleBuf.Some? ==> bleBuf.value in heap
    {
      if fifoTx != [] && txDriver.TxBusy? {
        QueuedOnce(S(), size, txDriver.buf.base);
        QueuedOnce(S(), size, fifoTx[0]);
        assert TxView(S()).fifo[0] == Payload(heap, fifoTx[0]);
      }
      if fifoRx != [] {
        QueuedOnce(S(), size, fifoRx[0]);
      }
      if bleBuf.Some? {
        QueuedOnce(S(), size, bleBuf.value);
      }
      if rxDriver.Stopping? && rxDriver.next.Some? {
        QueuedOnce(S(), size, rxDriver.next.value);
      }
    }

    constructor (size: nat)
      requires 2 <= size <= 0xFFFF
      ensures S() == UNSTARTED && this.size == size
    {
      this.size := size;
      heap, fifoTx, fifoRx := map[], [], [];
      currentBuf, abortedLen, bufRelease, abortedBuf := None, 0, false, None;
      workScheduled, bleBuf := false, None;
      txDriver, rxDriver := TxIdle, RxOff;
      accepted, wire, received, notified := [], [], [], [];
    }

    // -------------------------------------------------------------------------
    // Kernel and driver calls, by contract
    // -------------------------------------------------------------------------

    // Any free address may be chosen, in particular one that was freed before.
    method ChooseBlock(mem: bool) returns (g: Malloc)
      ensures FreshBlock(heap, g, size) && (g.Block? <==> mem)
    {
      if !mem {
        return NoMemory;
      }
      var bound := AddressBoundOf(heap.Keys);
      return Block(bound, UartData(seq(size, _ => 0), 0));
    }

    static method AddressBoundOf(used: set<Addr>) returns (b: nat)
      ensures b !in used
    {
      ghost var limit := AddressBound(used);
      b := 0;
      while b in used
        invariant b <= limit
        decreases limit - b
      {
        b := b + 1;
      }
    }

    method KMalloc(g: Malloc) returns (buf: Option<Addr>)
      requires FreshBlock(heap, g, size)
      modifies this`heap
      ensures buf == (if g.Block? then Some(g.addr) else None)
      ensures heap == if g.Block? then old(heap)[g.addr := g.raw] else old(heap)
    {
      match g
      case NoMemory => return None;
      case Block(a, raw) =>
        heap := heap[a := raw];
        return Some(a);
    }

    // Freeing a block that is not allocated is ruled out at every call.
    method KFree(buf: Addr)
      requires buf in heap
      modifies this`heap
      ensures heap == old(heap) - {buf}
    {
      heap := heap - {buf};
    }

    // uart_tx fails exactly when a transfer is running.
    method UartTransmit(buf: Ptr, len: nat) returns (err: bool)
      requires buf.base in heap && 0 < len && buf.off + len <= |heap[buf.base].data|
      modifies this`txDriver
      ensures err == old(txDriver).TxBusy?
      ensures txDriver == if err then old(txDriver) else TxBusy(buf, len)
    {
      err := txDriver.TxBusy?;
      if !err {
        txDriver := TxBusy(buf, len);
      }
    }

    method UartRxEnable(buf: Addr)
      requires rxDriver.RxOff? && buf in heap
      modifies this`rxDriver
      ensures rxDriver == Receiving(buf, None, 0)
    {
      rxDriver := Receiving(buf, None, 0);
    }

    method UartRxDisable()
      requires rxDriver.Receiving?
      modifies this`rxDriver
      ensures rxDriver == Stopping(Some(old(rxDriver).cur), old(rxDriver).next)
    {
      rxDriver := Stopping(Some(rxDriver.cur), rxDriver.next);
    }

    // The driver puts n bytes of its transfer on the wire and is then idle.
    method DriverSends(n: nat)
      requires txDriver.TxBusy? && txDriver.buf.off + n <= |Payload(heap, txDriver.buf.base)|
      modifies this`wire, this`txDriver
      ensures S() == BridgeState.DriverSends(old(S()), n)
    {
      var b := txDriver.buf;
      wire := wire + Payload(heap, b.base)[b.off..b.off + n];
      txDriver := TxIdle;
    }

    // The driver stores received bytes in its buffer; `buf->len` follows in the handler.
    method DriverFills(report: seq<byte>)
      requires rxDriver.Receiving? && rxDriver.cur in heap
      modifies this`received, this`heap, this`rxDriver
      ensures received == old(received) + report
      ensures var Receiving(buf, next, filled) := old(rxDriver);
              && rxDriver == Receiving(buf, next, filled + |report|)
              && heap == old(heap)[buf := old(heap)[buf].(data := Fill(old(heap)[buf], filled, report).data)]
    {
      var buf, at := rxDriver.cur, rxDriver.filled;
      received := received + report;
      heap := heap[buf := heap[buf].(data := Fill(heap[buf], at, report).data)];
      rxDriver := Receiving(buf, rxDriver.next, at + |report|);
    }

    // -------------------------------------------------------------------------
    // uart_cb, case by case
    // -------------------------------------------------------------------------

    method OnTxDone(evtBuf: Ptr)
      requires txDriver.TxIdle? && evtBuf.base in heap
      requires if abortedBuf.None? then evtBuf.off == 0 else abortedBuf.value == Ptr(evtBuf.base, 0)
      requires QueueReady(evtBuf.base)
      modifies this`heap, this`fifoTx, this`abortedBuf, this`abortedLen, this`txDriver
      ensures S() == HandleTxDone(old(S()), evtBuf)
    {
      var buf: Addr;
      if abortedBuf.Some? {
        buf := ContainerOf(abortedBuf.value);
        abortedBuf := None;
        abortedLen := 0;
      } else {
        buf := ContainerOf(evtBuf);
      }
      KFree(buf);
      if fifoTx == [] {
        return;
      }
      buf := fifoTx[0];
      fifoTx := fifoTx[1..];
      var err := UartTransmit(Ptr(buf, 0), heap[buf].len);
    }

    method OnTxAborted(evtBuf: Ptr, n: nat)
      requires txDriver.TxIdle? && evtBuf.base in heap
      requires if abortedBuf.None? then evtBuf.off == 0 else abortedBuf.value == Ptr(evtBuf.base, 0)
      requires abortedLen + n < heap[evtBuf.base].len <= |heap[evtBuf.base].data|
      modifies this`abortedBuf, this`abortedLen, this`txDriver
      ensures S() == HandleTxAborted(old(S()), evtBuf, n)
    {
      if abortedBuf.None? {
        abortedBuf := Some(evtBuf);
      }
      abortedLen := abortedLen + n;
      var buf := ContainerOf(abortedBuf.value);
      var err := UartTransmit(Ptr(buf, abortedLen), heap[buf].len - abortedLen);
    }

    method OnRxReady(evtBuf: Addr, len: nat)
      requires rxDriver.Receiving? && evtBuf == rxDriver.cur && evtBuf in heap
      requires 0 < heap[evtBuf].len + len <= |heap[evtBuf].data|
      modifies this`heap, this`fifoRx, this`currentBuf, this`bufRelease, this`rxDriver
      ensures var mid := old(S()).(heap := old(heap)[evtBuf := old(heap)[evtBuf].(len := old(heap)[evtBuf].len + len)]);
              S() == HandleRxReady(mid, evtBuf, old(rxDriver).next, size)
      // only a finished line in a buffer that is not full stops the receiver
      ensures evtBuf in heap && 0 < heap[evtBuf].len <= |heap[evtBuf].data|
      ensures var line := heap[evtBuf].data[..heap[evtBuf].len];
              && (rxDriver.Stopping? <==> |line| != size && (line[|line| - 1] == 10 || line[|line| - 1] == 13))
              && (!rxDriver.Stopping? ==> rxDriver == old(rxDriver)) && (bufRelease <==> rxDriver.Stopping?)
    {
      hide HandleRxReady;
      heap := heap[evtBuf := heap[evtBuf].(len := heap[evtBuf].len + len)];
      AnswerToLine(S(), evtBuf, rxDriver.next, size);
      QueueIfComplete(evtBuf);
    }

    // A full buffer or a finished line goes to the FIFO; a finished line also stops the receiver.
    method QueueIfComplete(evtBuf: Addr)
      requires rxDriver.Receiving? && evtBuf == rxDriver.cur && evtBuf in heap
      requires 0 < heap[evtBuf].len <= |heap[evtBuf].data|
      modifies this`fifoRx, this`currentBuf, this`bufRelease, this`rxDriver
      ensures S() == HandleRxReady(old(S()), evtBuf, old(rxDriver).next, size)
    {
      hide Payload, UartRx.EndsLine;
      LineOf(heap, evtBuf);
      var last := heap[evtBuf].data[heap[evtBuf].len - 1];
      bufRelease := false;
      if heap[evtBuf].len == size {
        fifoRx := fifoRx + [evtBuf];
      } else if last == LF || last == CR {
        fifoRx := fifoRx + [evtBuf];
        currentBuf := Some(evtBuf);
        bufRelease := true;
        UartRxDisable();
      }
    }

    method OnRxDisabled(grant: Malloc)
      requires CanHappen(S(), RxDisabled(grant), size)
      modifies this`heap, this`rxDriver, this`workScheduled
      ensures S() == BridgeState.Restart(old(S()), grant)
      ensures rxDriver == if grant.Block? then Receiving(grant.addr, None, 0) else RxOff
      ensures workScheduled <==> old(workScheduled) || grant.NoMemory?
    {
      rxDriver := RxOff;
      var buf := KMalloc(grant);
      if buf.Some? {
        heap := heap[buf.value := heap[buf.value].(len := 0)];
      } else {
        workScheduled := true;
        return;
      }
      UartRxEnable(buf.value);
    }

    method OnRxBufRequest(grant: Malloc)
      requires CanHappen(S(), RxBufRequest(grant), size)
      modifies this`heap, this`rxDriver
      ensures S() == BridgeState.OnRxBufRequest(old(S()), grant)
      ensures if grant.NoMemory? then S() == old(S())
              else && rxDriver == Receiving(old(rxDriver).cur, Some(grant.addr), old(rxDriver).filled)
                   && grant.addr in heap && heap[grant.addr].len == 0
    {
      var buf := KMalloc(grant);
      if buf.Some? {
        heap := heap[buf.value := heap[buf.value].(len := 0)];
        rxDriver := Receiving(rxDriver.cur, buf, rxDriver.filled);
      }
    }

    method OnRxBufReleased()
      requires CanHappen(S(), RxBufReleased, size) && 0 < size && UnusedNextAllocated()
      modifies this`heap, this`rxDriver, this`bufRelease, this`currentBuf
      ensures S() == BridgeState.OnRxBufReleased(old(S()))
    {
      var buf := ReleasedBuf(rxDriver).value;
      rxDriver := AfterRelease(rxDriver);
      if bufRelease && currentBuf != Some(buf) {
        KFree(buf);
        bufRelease := false;
        currentBuf := None;
      }
    }

    // -------------------------------------------------------------------------
    // The work item, start-up and the Bluetooth thread
    // -------------------------------------------------------------------------

    method UartWorkHandler(grant: Malloc)
      requires CanHappen(S(), WorkTimeout(grant), size) && ReceiverNotLost(S())
      modifies this`heap, this`rxDriver, this`workScheduled
      ensures S() == BridgeState.Restart(old(S()).(workScheduled := false), grant)
      ensures rxDriver == if grant.Block? then Receiving(grant.addr, None, 0) else RxOff
      ensures workScheduled <==> grant.NoMemory?
    {
      hide CanHappen, ReceiverNotLost;
      FromWork(S(), grant, size);
      workScheduled := false;
      var buf := KMalloc(grant);
      if buf.Some? {
        heap := heap[buf.value := heap[buf.value].(len := 0)];
      } else {
        workScheduled := true;
        return;
      }
      UartRxEnable(buf.value);
    }

    // Zero exactly when the bridge is up and the receiver on.
    method UartInit(deviceFound: bool, grant: Malloc, callbackErr: int) returns (err: int)
      requires 2 <= size <= 0xFFFF && S() == UNSTARTED && FreshBlock(heap, grant, size)
      modifies this
      ensures err == if !deviceFound then -6 else if grant.NoMemory? then -12 else callbackErr
      ensures err == 0 ==> Valid() && S() == Started(grant.addr, grant.raw)
      ensures err != 0 ==> rxDriver.RxOff? && !workScheduled
      // exactly a failing uart_callback_set leaves a block behind that belongs to nobody
      ensures OneOwnerEach(S(), size) <==> !(deviceFound && grant.Block? && callbackErr != 0)
    {
      hide Inv, OneOwnerEach;
      UnstartedOwners(size);
      if !deviceFound {
        return -ENXIO;
      }
      var rx := KMalloc(grant);
      if rx.Some? {
        heap := heap[rx.value := heap[rx.value].(len := 0)];
      } else {
        return -ENOMEM;
      }
      if callbackErr != 0 {
        LeftBehind(grant.addr, heap, size);
        return callbackErr;
      }
      UartRxEnable(rx.value);
      assert heap == map[grant.addr := grant.raw.(len := 0)];
      StartedInv(grant.addr, grant.raw, size);
      InvExplained(S(), size);
      return 0;
    }

    method BleThreadTake()
      requires CanHappen(S(), BleTake, size) && LineReady()
      modifies this`fifoRx, this`bleBuf, this`notified
      ensures S() == BridgeState.OnBleTake(old(S()))
      ensures RxView(S(), size) == RxView(old(S()), size)
      ensures notified == old(notified) + [RxView(old(S()), size).frames[|old(notified)|]]
    {
      RxViewAfterBleTake(S(), size);
      var buf := fifoRx[0];
      fifoRx := fifoRx[1..];
      bleBuf := Some(buf);
      notified := notified + [heap[buf].data[..heap[buf].len]];
    }

    method BleThreadFree()
      requires CanHappen(S(), BleFree, size) && bleBuf.value in heap
      modifies this`heap, this`bleBuf
      ensures S() == BridgeState.OnBleFree(old(S()))
    {
      KFree(bleBuf.value);
      bleBuf := None;
    }

    // -------------------------------------------------------------------------
    // Interrupts and threads, in any order the contracts allow
    // -------------------------------------------------------------------------

    method RaiseTxDone()
      requires txDriver.TxBusy? && TxOk(S()) && QueueReady(txDriver.buf.base)
      modifies this
      ensures S() == BridgeState.OnTxDone(old(S()))
    {
      var evtBuf := txDriver.buf;
      DriverSends(txDriver.len);
      OnTxDone(evtBuf);
    }

    method RaiseTxAborted(n: nat)
      requires txDriver.TxBusy? && n < txDriver.len && TxOk(S()) && BlocksOk(heap, size)
      modifies this
      ensures S() == BridgeState.OnTxAborted(old(S()), n)
    {
      var evtBuf := txDriver.buf;
      DriverSends(n);
      OnTxAborted(evtBuf, n);
    }

    method RaiseRxReady(report: seq<byte>)
      requires rxDriver.Receiving? && report != [] && rxDriver.filled + |report| <= size
      requires BlocksOk(heap, size) && RxOk(S(), size)
      modifies this
      ensures S() == BridgeState.OnRxReady(old(S()), report, size)
    {
      var evtBuf := rxDriver.cur;
      FillPayload(heap[evtBuf], rxDriver.filled, report);
      DriverFills(report);
      assert heap[evtBuf := heap[evtBuf].(len := heap[evtBuf].len + |report|)]
          == BridgeState.DriverFills(old(S()), report).heap;
      OnRxReady(evtBuf, |report|);
    }

    method Dispatch(e: Event)
      requires Valid() && CanHappen(S(), e, size) && !e.Segment?
      modifies this
      ensures Valid() && S() == Step(old(S()), e, size)
    {
      hide Inv;
      Safe();
      StepKeepsInv(S(), e, size);
      match e
      case TxDone => RaiseTxDone();
      case TxDoneEmpty => // without data: nothing was completed
      case TxAborted(n) => RaiseTxAborted(n);
      case RxReady(report) => RaiseRxReady(report);
      case RxBufRequest(grant) => OnRxBufRequest(grant);
      case RxBufReleased => OnRxBufReleased();
      case RxDisabled(grant) => OnRxDisabled(grant);
      case WorkTimeout(grant) => UartWorkHandler(grant);
      case BleTake => BleThreadTake();
      case BleFree => BleThreadFree();
    }

    // Each event in turn, if it is possible then.
    method Interrupts(events: seq<Event>) returns (ghost trace: seq<Event>)
      requires Valid()
      modifies this
      ensures Valid() && Serves(old(S()), Raised(events), trace, size)
      ensures S() == BridgeState.Run(old(S()), trace, size)
    {
      hide Inv, Serves, BridgeState.Run, RunCanHappen, Step, CanHappen;
      trace := [];
      ServesNothing(S(), size);
      assert Raised(events[..0]) == [];
      for i := 0 to |events|
        invariant Valid() && Serves(old(S()), Raised(events[..i]), trace, size)
        invariant S() == BridgeState.Run(old(S()), trace, size)
      {
        var e := events[i];
        ServesRaise(old(S()), Raised(events[..i]), trace, e, size);
        assert Raised(events[..i + 1]) == Raised(events[..i]) + [Raise(e)];
        if CanServe(S(), e, size) {
          Dispatch(e);
          trace := trace + [e];
        }
      }
      assert events[..|events|] == events;
    }

    // The copying half of an iteration of bt_receive_cb.
    method FillSegment(data: seq<byte>, pos: nat, buf: Addr) returns (next: nat)
      requires pos < |data| <= 0xFFFF && 2 <= size && buf in heap && |heap[buf].data| == size
      modifies this`heap
      ensures next == Segmentation.Next(|data|, pos, size)
      ensures heap == old(heap)[buf := Fill(old(heap)[buf], 0, Segmentation.Segment(data, pos, size))]
    {
      SegmentFills(heap[buf], data, pos, size);
      var txDataSize := size - 1;
      var len := if |data| - pos > txDataSize then txDataSize else |data| - pos;
      var tx := Fill(heap[buf], 0, data[pos..pos + len]);
      next := pos + len;
      if next == |data| && data[|data| - 1] == CR {
        tx := Fill(tx, tx.len, [LF]);
      }
      heap := heap[buf := tx];
    }

    // The sending half: straight to the driver, or behind the running transfer.
    method SendOrQueue(tx: Addr)
      requires tx in heap && 0 < heap[tx].len <= |heap[tx].data|
      modifies this`txDriver, this`fifoTx
      ensures S() == if old(txDriver).TxIdle? then old(S()).(txDriver := TxBusy(Ptr(tx, 0), heap[tx].len))
                     else old(S()).(fifoTx := old(fifoTx) + [tx])
    {
      var err := UartTransmit(Ptr(tx, 0), heap[tx].len);
      if err {
        fifoTx := fifoTx + [tx];
      }
    }

    // One iteration of bt_receive_cb.
    method ForwardSegment(data: seq<byte>, pos: nat, g: Malloc) returns (next: nat)
      requires pos < |data| <= 0xFFFF && 2 <= size && FreshBlock(heap, g, size)
      modifies this
      ensures S() == OnSegment(old(S()), Segmentation.Segment(data, pos, size), g)
      ensures next == if g.Block? then Segmentation.Next(|data|, pos, size) else pos
    {
      hide Fill, Segmentation.Segment;
      next := pos;
      var tx := KMalloc(g);
      if tx.None? {
        return;
      }
      SegmentFills(g.raw, data, pos, size);
      next := FillSegment(data, pos, tx.value);
      assert heap == old(heap)[g.addr := Fill(g.raw, 0, Segmentation.Segment(data, pos, size))];
      accepted := accepted + Segmentation.Segment(data, pos, size);
      SendOrQueue(tx.value);
    }

    method Iterate(data: seq<byte>, pos: nat, mem: bool) returns (next: nat, ghost e: Event)
      requires Valid() && pos < |data| <= 0xFFFF
      modifies this
      ensures Valid() && IsIteration(e, Segmentation.Segment(data, pos, size), mem)
      ensures CanHappen(old(S()), e, size) && S() == Step(old(S()), e, size)
      ensures next == if mem then Segmentation.Next(|data|, pos, size) else pos
    {
      hide Inv;
      var g := ChooseBlock(mem);
      SegmentFills(UartData(seq(size, _ => 0), 0), data, pos, size);
      e := Segment(Segmentation.Segment(data, pos, size), g);
      StepKeepsInv(S(), e, size);
      next := ForwardSegment(data, pos, g);
    }

    /** A Bluetooth LE write, with interrupts between its iterations: a run that serves
        its iterations and those interrupts in order.  It accepts the translated write,
        or a proper prefix of the write exactly when a needed allocation is refused. */
    method BtReceiveCb(data: seq<byte>, script: seq<Turn>) returns (ghost trace: seq<Event>)
      requires Valid() && |data| <= 0xFFFF
      modifies this
      ensures Valid() && Serves(old(S()), Asks(Write(data, script), size), trace, size)
      ensures S() == BridgeState.Run(old(S()), trace, size)
      ensures accepted == old(accepted) + BytesOf(Write(data, script), size)
      ensures BytesOf(Write(data, script), size) == Segmentation.Translated(data) <==> NoneRefused(data, script, size)
      ensures !NoneRefused(data, script, size) ==> BytesOf(Write(data, script), size) < data
      ensures NoneRefused(data, script, size) ==>
                accepted == old(accepted) + (data + if data != [] && data[|data| - 1] == 13 then [10] else [])
    {
      hide Inv, Serves, BridgeState.Run, RunCanHappen, Iterations, AcceptedIn, ReportedIn, Segmentation.Translated;
      Segmentation.TranslatedBytes(data);
      WriteArrivesExactlyWhen(data, script, size);
      trace := ForwardWrite(data, script);
      IterationsBytes(Segmentation.Segments(data, 0, size), script);
      ServedBytes(old(S()), Asks(Write(data, script), size), trace, size);
      RunHistory(old(S()), trace, size);
    }

    method ForwardWrite(data: seq<byte>, script: seq<Turn>) returns (ghost trace: seq<Event>)
      requires Valid() && |data| <= 0xFFFF
      modifies this
      ensures Valid() && Serves(old(S()), Asks(Write(data, script), size), trace, size)
      ensures S() == BridgeState.Run(old(S()), trace, size)
    {
      hide Inv, Serves, BridgeState.Run, RunCanHappen, Step, CanHappen, Iterations, Raised, Segmentation.Segments,
        Segmentation.Segment, Segmentation.Next;
      trace := [];
      ServesNothing(S(), size);
      ghost var asks: seq<Ask> := [];
      var pos, later := 0, script;
      while pos != |data|
        invariant Valid() && pos <= |data|
        invariant Serves(old(S()), asks, trace, size) && S() == BridgeState.Run(old(S()), trace, size)
        invariant Asks(Write(data, script), size) == asks + Iterations(Segmentation.Segments(data, pos, size), later)
        decreases |data| - pos
      {
        var turn := Now(later);
        IterationsAdvance(data, pos, later, size);
        Segmentation.NextAdvances(|data|, pos, size);
        ghost var e;
        var next;
        next, e := Iterate(data, pos, turn.mem);
        ServesIteration(old(S()), asks, trace, e, turn.mem, size);
        trace, asks := trace + [e], asks + [Iteration(e.payload, turn.mem)];
        if !turn.mem {
          assert [Iteration(e.payload, false)] + [] == [Iteration(e.payload, false)];
          return;
        }
        ghost var served := Interrupts(turn.interrupts);
        ServesConcat(old(S()), asks, trace, Raised(turn.interrupts), served, size);
        trace, asks := trace + served, asks + Raised(turn.interrupts);
        pos, later := next, Later(later);
      }
      IterationsEnd(data, later, size);
      assert asks + [] == asks;
    }

    /** Any run of the bridge: writes, interrupts and threads in any order.  The code
        does what it is asked and nothing else; it accepts the buffers of each write, in
        order, up to the first refused allocation; and the laws of `BridgeState` hold
        of the bytes that went in. */
    method Run(inputs: seq<Input>) returns (ghost trace: seq<Event>)
      requires Valid() && forall i | 0 <= i < |inputs| && inputs[i].Write? :: |inputs[i].data| <= 0xFFFF
      modifies this
      ensures Valid() && Serves(old(S()), AllAsks(inputs, size), trace, size)
      ensures S() == BridgeState.Run(old(S()), trace, size)
      ensures accepted == old(accepted) + InputBytes(inputs, size)
      ensures received == old(received) + ReportedIn(trace)
      ensures wire + UartTx.Rest(TxView(S()).transfer) + Flatten(Payloads(heap, fifoTx)) == accepted
      ensures Flatten(notified + Payloads(heap, fifoRx)) + Partial(S(), size) == received
      ensures forall i | 0 <= i < |notified| ::
                var f := notified[i]; 0 < |f| <= size && (|f| == size || f[|f| - 1] in {10, 13})
      ensures forall i | 0 <= i < |inputs| && inputs[i].Interrupt? ::
                RaisedInTurn(old(S()), AllAsks(inputs[..i], size), inputs[i].event, trace, size)
      ensures fifoTx != [] ==> txDriver.TxBusy?
      ensures OneOwnerEach(S(), size)
      ensures rxDriver.RxOff? <==> workScheduled
    {
      hide Inv, Serves, BridgeState.Run, RunCanHappen, AllAsks, AcceptedIn, ReportedIn, RaisedInTurn, Flatten;
      trace := Serve(inputs);
      ServedBytes(old(S()), AllAsks(inputs, size), trace, size);
      AllAsksBytes(inputs, size);
      forall i | 0 <= i < |inputs| && inputs[i].Interrupt?
        ensures RaisedInTurn(old(S()), AllAsks(inputs[..i], size), inputs[i].event, trace, size)
      {
        InterruptIsRaised(old(S()), inputs, trace, i, size);
      }
      RunHistory(old(S()), trace, size);
      InvExplained(S(), size);
    }

    method Serve(inputs: seq<Input>) returns (ghost trace: seq<Event>)
      requires Valid() && forall i | 0 <= i < |inputs| && inputs[i].Write? :: |inputs[i].data| <= 0xFFFF
      modifies this
      ensures Valid() && Serves(old(S()), AllAsks(inputs, size), trace, size)
      ensures S() == BridgeState.Run(old(S()), trace, size)
    {
      hide Inv, Serves, BridgeState.Run, RunCanHappen, Step, CanHappen, Iterations, BytesOf, NoneRefused;
      trace := [];
      ServesNothing(S(), size);
      for i := 0 to |inputs|
        invariant Valid() && Serves(old(S()), AllAsks(inputs[..i], size), trace, size)
        invariant S() == BridgeState.Run(old(S()), trace, size)
      {
        assert inputs[..i + 1][..i] == inputs[..i];
        ghost var served: seq<Event>;
        match inputs[i] {
          case Interrupt(e) =>
            assert Raised([e]) == [Raise(e)];
            served := Interrupts([e]);
          case Write(data, script) => served := BtReceiveCb(data, script);
        }
        ServesConcat(old(S()), AllAsks(inputs[..i], size), trace, Asks(inputs[i], size), served, size);
        trace := trace + served;
      }
      assert inputs[..|inputs|] == inputs;
    }
  }
}
