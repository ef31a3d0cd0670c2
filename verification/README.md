# Verified models of the event-driven nRF Connect samples

The samples in this repository are mostly thin wrappers, but a few of them are real event machines.
This project models those machines in Dafny 4.11 and proves what they keep over every run.
`dafny verify dfyconfig.toml` checks everything.

## What is modelled

**BLE-to-UART bridge** (`Bytes`, `UartTx`, `UartRx`, `Segmentation`, `BridgeState`, `Schedule`, `UartBridge`).
`UartBridge.Bridge` is the imperative code: the heap, the two FIFOs, the static variables of `uart_cb`, pointers into
buffers and `CONTAINER_OF`, which finds a block again only from the start of its data.  The heap is a map from addresses,
so a block can be freed, freed twice or its address reused; `KFree` requires an allocated block at every call.
`BridgeState` has the same events as functions on a snapshot; every method of the class is proved equal to its function.
`UartTx` and `UartRx` describe the two directions without pointers, and every event is proved to be exactly one of their
steps (or none).  The laws are proved there once and carried over to all runs of the code.
The driver, the allocator and the Bluetooth thread are an environment that may do anything their contract allows, at any
moment: one `uart_cb` call is one step, and one pair of `uart_tx` and `k_fifo_put` is one step.
`UartTx` also splits that pair open and proves exactly when that matters.
`Schedule` says what a run is given, writes with the fate of each allocation, interrupts and threads, and which events
serve it; `UartBridge.Bridge.Run` is proved to do exactly that.

**Function button, one-shot timer and NUS server of the Matter bulb** (`FunctionButton`, `AppTask`).  A bounded queue that
drops, a timer interrupt that posts into it, a dispatcher, and an explicit millisecond clock.
`NoneSelected` and `SoftwareUpdate` are both zero, as in the source.  Two readings of time are covered: any interleaving with
any delay, and a queue that is drained between inputs.

**UART passthrough** (`RingBuffer`, `Passthrough`).  A ring over an array with claim and finish, proved to be a sequence
across the wrap, and two bridges that share two devices crosswise.

**Chunked sender** (`HexNumber`, `Chunked`).  The formatting loop into a fixed buffer, against a reader written from section
7.1 of RFC 9112.

**Ping sequence machine** (`Ping`), with replies that may be lost, malformed or late, and **Zigbee bulb** (`LightBulb`).

The runs of the button, ping and bulb machines are those of `Machine`, which works over any step function.

## Where the code does less than it promises

Each of these is a proved equivalence; for the states that the code cannot leave again, a run from start-up that reaches
them is proved too.

- A buffer queued after a refused `uart_tx` is stranded, and overtaken by the next write, exactly when the interrupts in
  between completed one transfer more than were queued (`UartTx.WindowIsHarmlessExactlyWhen`).
- With one-byte UART buffers the loop of a write never moves forward (`Segmentation.ProgressExactlyWhen`).
- Of all start-ups, exactly those that fail in `uart_callback_set` leave a block without an owner
  (`UartBridge.Bridge.UartInit`).
- The comment at `matter/light_bulb_ble_uart/src/app_task.cpp:446-451` promises a software update for a press below three
  seconds.  A press starts one exactly when the timer has not run out before the release is *handled*, or not since a NUS event
  that was handled while it ran (`FunctionButton.PressUpdatesExactlyWhen`): a press of 3500 ms can update
  (`FunctionButton.LongPressCanUpdate`), and one of 2999 ms whose release is handled late may go on to a factory reset with
  the button up (`FunctionButton.ShortPressCanReset`).  After a handled release a reset follows exactly when a timer event
  is still queued (`FunctionButton.ResetFollowsReleaseExactlyWhen`).
- A timer event lost to a full queue in the cancel window leaves the function button dead until the NUS button is used
  (`FunctionButton.StuckMeansDead`, `FunctionButton.NusFreesButton`), and nothing else does
  (`FunctionButton.SticksExactlyWhen`, with a run in `FunctionButton.FullQueueSticks`).
- Bytes in a passthrough ring lose their transmit interrupt exactly when the destination is ready and takes none
  (`Passthrough.LosesInterruptExactlyWhen`).
- The chunked message reads back exactly when no string is empty and a byte of the buffer is left over
  (`Chunked.ReadBackExactlyWhen`).
- The ping reply handler compares no numbers.  Accepted replies, the outstanding echo and the two counters agree exactly as
  long as every accepted reply answers the outstanding echo (`Ping.NumberingHoldsExactlyWhen`).  No echo ever goes out again
  exactly once the machine is wedged (`Ping.WedgedMeansNoEcho`), and `Ping.WedgesExactlyWhen` lists the steps that lead
  there: a late reply to a repeated echo (`Ping.LateReplyWedges`), a late reply after the number has wrapped
  (`Ping.WrapWedges`), or a malformed one that cancels the timeout (`Ping.MalformedReplyHangs`).  An outstanding echo hangs
  exactly when a malformed reply has cancelled its timeout (`Ping.HangsExactlyWhen`).
- Stopping identify leaves the bulb blinking, until it is stopped again, exactly when a toggle callback or an alarm is
  still scheduled (`LightBulb.StopEndsBlinkExactlyWhen`, `LightBulb.QuickStopBlinksOn`).

## Model

| member | source | states |
|---|---|---|
| BridgeState.EveryRun | bluetooth/peripheral_uart_set_tx/src/main.c:95-255 | From start-up, over every run and any pattern of allocation failures: sent bytes, rest of the transfer and TX FIFO are the accepted bytes in order; buffers given to Bluetooth, queued ones and the open one are the reported bytes, in frames; every block has exactly one owner; the receiver is never lost |
| BridgeState.StepRefines | bluetooth/peripheral_uart_set_tx/src/main.c:105-211 | Every event of the pointer code is exactly one enabled step of the pointer-free transmit machine, one step of the receive machine, or invisible to both |
| BridgeState.OwnersAfter | bluetooth/peripheral_uart_set_tx/src/main.c:123-192 | No event leaves a block without an owner, with two, or freed while something still refers to it, with address reuse allowed |
| BridgeState.OwnersAfterRxBufReleased | bluetooth/peripheral_uart_set_tx/src/main.c:182-192 | `buf_release` and `current_buf` make exactly the unused next buffer be freed, once, after a line ended; a released buffer that was queued never is |
| BridgeState.OwnersAfterTxDone | bluetooth/peripheral_uart_set_tx/src/main.c:106-134 | Completion frees exactly the block of the finished transfer, also after aborts; the head of the FIFO, if any, and nothing else becomes the driver's |
| BridgeState.OwnersAfterRxReady | bluetooth/peripheral_uart_set_tx/src/main.c:136-152 | A full buffer or a finished line, and only that, changes owner from the driver to the end of the FIFO, although the driver still shows it; no block is freed |
| BridgeState.TxDriverAfterTxDone | bluetooth/peripheral_uart_set_tx/src/main.c:113-132 | The buffer sent after a completion is allocated, non-empty, not the one just freed, and starts with no abort remembered |
| BridgeState.DriverAfterTxAborted | bluetooth/peripheral_uart_set_tx/src/main.c:194-207 | After an abort `aborted_buf` is the start of the block in flight and `aborted_len` the bytes sent, below its length |
| BridgeState.DriverAfterRestart | bluetooth/peripheral_uart_set_tx/src/main.c:154-168 | After RX_DISABLED and after a retry either the receiver is on with an empty buffer or the retry is scheduled |
| BridgeState.StopsExactlyWhen | bluetooth/peripheral_uart_set_tx/src/main.c:136-152 | A report stops the receiver iff it ends a line, in CR or LF, in a buffer that is not full; otherwise reception goes on unchanged; `buf_release` is set iff it was stopped |
| BridgeState.RequestIsAnswered | bluetooth/peripheral_uart_set_tx/src/main.c:170-180 | A request for a next buffer is answered iff there is memory: an empty block that only the driver owns; otherwise nothing changes |
| BridgeState.RestartsExactlyWhen | bluetooth/peripheral_uart_set_tx/src/main.c:154-168 | After RX_DISABLED or for the retry: with memory the receiver is on at once in an empty block of its own, without, and only then, the retry is scheduled |
| BridgeState.ReleaseResets | bluetooth/peripheral_uart_set_tx/src/main.c:182-192 | `buf_release` and `current_buf` are reset exactly with the one free after a line |
| BridgeState.GoesOnExactlyWhen | bluetooth/peripheral_uart_set_tx/src/main.c:136-192 | A buffer that fills up and is given back: queued, not freed, and the receiver goes on in the next buffer with no disable iff there is one |
| BridgeState.GrantedRequestKeepsReceiving | bluetooth/peripheral_uart_set_tx/src/main.c:136-192 | A granted request followed by a full buffer and its release leaves the receiver on, in the granted block |
| BridgeState.LineRestartsReceiver | bluetooth/peripheral_uart_set_tx/src/main.c:136-192 | From the end of a line through the releases to RX_DISABLED: the line is queued, an unused next buffer freed, and with memory the receiver is on again in the new block |
| BridgeState.ReceiverStaticsStay | bluetooth/peripheral_uart_set_tx/src/main.c:95-211 | Apart from reports, only a release changes `buf_release` and `current_buf`, only the Bluetooth thread takes from the FIFO, and only the oldest buffer |
| BridgeState.DirectionsAreSeparate | bluetooth/peripheral_uart_set_tx/src/main.c:95-211 | Transmit events touch none of the receiver's variables, receive events none of the transmitter's |
| BridgeState.RunKeepsInv | bluetooth/peripheral_uart_set_tx/src/main.c:95-255 | Ownership, agreement of the statics with the driver, and both conservation laws hold in every reachable state |
| UartTx.RunConserves | bluetooth/peripheral_uart_set_tx/src/main.c:106-134 | For every mix of writes, completions and aborts: wire, rest of the transfer and FIFO are the accepted payloads in arrival order |
| UartTx.IdleMeansAllSent | bluetooth/peripheral_uart_set_tx/src/main.c:125-128 | Whenever the driver is idle, everything accepted is on the wire |
| UartTx.DrainsExactlyWhen | bluetooth/peripheral_uart_set_tx/src/main.c:106-134 | Progress from every state, with any aborts in between: without further writes the driver goes idle exactly with the last outstanding completion, and then everything pending is on the wire in order |
| UartTx.CompletionsDrain | bluetooth/peripheral_uart_set_tx/src/main.c:125-134 | The outstanding completions can always come, one after the other, and end idle |
| UartTx.WindowIsHarmlessExactlyWhen | bluetooth/peripheral_uart_set_tx/src/main.c:458-461 | Interrupts between the refused `uart_tx` and the `k_fifo_put` give the atomic outcome iff they complete at most as many transfers as were queued; with one more, and only then, the payload is stranded |
| UartTx.StrandedPayloadIsOvertaken | bluetooth/peripheral_uart_set_tx/src/main.c:458-461 | A concrete run in which a stranded payload reaches the wire after a later one |
| UartRx.RunConserves | bluetooth/peripheral_uart_set_tx/src/main.c:136-152 | For every sequence of reports: frames and open buffer are the reported bytes, each frame is full or ends in CR or LF, the open buffer is neither |
| Segmentation.SegmentsConcatenate | bluetooth/peripheral_uart_set_tx/src/main.c:429-462 | The buffers of a write, concatenated, are the write with one LF added iff it ends in CR |
| Segmentation.SegmentsShape | bluetooth/peripheral_uart_set_tx/src/main.c:437-456 | Every buffer is non-empty and fits, all but the last hold one byte less than the size, and the added LF shares a buffer with the CR |
| Segmentation.CutShortIsPrefix | bluetooth/peripheral_uart_set_tx/src/main.c:430-435 | If allocation fails before the last buffer, what was accepted is a proper prefix of the write |
| Segmentation.SentMeans | bluetooth/peripheral_uart_set_tx/src/main.c:429-456 | All buffers of a write are the translated write; fewer are a proper prefix of the write without an added LF |
| Segmentation.TranslatedBytes | bluetooth/peripheral_uart_set_tx/src/main.c:451-456 | The translation in numbers: byte 10 is added iff the last byte is 13 |
| Segmentation.ProgressExactlyWhen | bluetooth/peripheral_uart_set_tx/src/main.c:429-448 | The loop moves forward from every position iff the buffer size is at least two |
| UartBridge.Bridge.OnTxDone | bluetooth/peripheral_uart_set_tx/src/main.c:106-134 | The completion handler's whole new state; only allocated blocks are freed and sent |
| UartBridge.Bridge.OnTxAborted | bluetooth/peripheral_uart_set_tx/src/main.c:194-207 | The abort handler's whole new state: the transfer continues at the first unsent byte |
| UartBridge.Bridge.OnRxReady | bluetooth/peripheral_uart_set_tx/src/main.c:136-152 | The receive handler's whole new state; only a line end, byte 10 or 13, in a buffer that is not full stops the receiver and sets `buf_release` |
| UartBridge.Bridge.OnRxDisabled | bluetooth/peripheral_uart_set_tx/src/main.c:154-168 | Receiver restarted in the granted block, or off with the retry scheduled, by the allocation alone |
| UartBridge.Bridge.OnRxBufRequest | bluetooth/peripheral_uart_set_tx/src/main.c:170-180 | The granted block, emptied, is the driver's next buffer; nothing changes without memory |
| UartBridge.Bridge.OnRxBufReleased | bluetooth/peripheral_uart_set_tx/src/main.c:182-192 | The release handler's whole new state |
| UartBridge.Bridge.UartWorkHandler | bluetooth/peripheral_uart_set_tx/src/main.c:214-228 | The retry's whole new state: receiver on in the granted block, or scheduled again, by the allocation alone |
| UartBridge.Bridge.UartInit | bluetooth/peripheral_uart_set_tx/src/main.c:230-255 | The error codes; on success the started state and all invariants; every block has an owner unless device and memory are there and `uart_callback_set` fails, and then one has none |
| UartBridge.Bridge.Dispatch | bluetooth/peripheral_uart_set_tx/src/main.c:95-228 | Any event the contracts allow keeps all invariants and is its step of the state machine; no precondition of a free or of a driver call is ever violated |
| UartBridge.Bridge.BtReceiveCb | bluetooth/peripheral_uart_set_tx/src/main.c:419-463 | With arbitrary interrupts between iterations: the call is a run that serves its iterations and those interrupts in order, and accepts the write with one LF added iff it ends in CR, or, exactly when a needed allocation is refused, a proper prefix of the write |
| UartBridge.Bridge.Run | bluetooth/peripheral_uart_set_tx/src/main.c:95-463 | Writes, interrupts and threads in any order: a run that serves exactly these inputs; accepted are the buffers of each write, in order, up to its first refused allocation; both conservation laws for these bytes and the reported ones, frames, one owner per block, no stranded FIFO, receiver not lost |
| UartBridge.Bridge.Interrupts | bluetooth/peripheral_uart_set_tx/src/main.c:95-228 | Of any list of events exactly those possible in their turn happen, in order |
| Schedule.InterruptIsRaised | bluetooth/peripheral_uart_set_tx/src/main.c:95-228 | In every run that serves its inputs, each given interrupt has its moment after all that was given before it, and happens there if it can |
| Schedule.TurnIsRaised | bluetooth/peripheral_uart_set_tx/src/main.c:429-462 | So has each interrupt between two iterations of a write, after the iterations so far |
| Schedule.ServesConcat | bluetooth/peripheral_uart_set_tx/src/main.c:419-463 | Doing one list of inputs and then another is doing both: runs compose |
| Schedule.ServedBytes | bluetooth/peripheral_uart_set_tx/src/main.c:429-461 | Whatever run serves a list of iterations and interrupts, it accepts exactly the payloads of the granted iterations, in order |
| Schedule.IterationsBytes | bluetooth/peripheral_uart_set_tx/src/main.c:429-435 | The iterations of a write bring the buffers before its first refused allocation |
| Schedule.WriteArrivesExactlyWhen | bluetooth/peripheral_uart_set_tx/src/main.c:429-456 | A write arrives translated and whole iff no allocation it needs is refused; otherwise a proper prefix of it does |
| Schedule.InputBytesAreWrites | bluetooth/peripheral_uart_set_tx/src/main.c:419-463 | With no allocation refused, the accepted bytes of a run are its translated writes in order |
| UartBridge.Bridge.BleThreadTake | bluetooth/peripheral_uart_set_tx/src/main.c:719-726 | The oldest queued buffer, with the content the receive machine framed, is what Bluetooth is given |
| UartBridge.Bridge.BleThreadFree | bluetooth/peripheral_uart_set_tx/src/main.c:728-729 | The buffer is freed once, after it was sent |
| FunctionButton.DurationRule | matter/light_bulb_ble_uart/src/app_task.cpp:441-478 | Queue drained: every timed sequence of presses gives as many updates as presses below 3000 ms and as many resets as presses from 6000 ms on, and ends idle |
| FunctionButton.HoldRule | matter/light_bulb_ble_uart/src/app_task.cpp:383-410 | One press by its duration: update, nothing, or reset; always ending with the timer stopped and nothing selected |
| FunctionButton.ResetsTakeTime | matter/light_bulb_ble_uart/src/app_task.cpp:369-410 | Any delay, any drops, any NUS events: n resets need 6000 n ms from the first dispatched push |
| FunctionButton.RunKeepsTimerInv | matter/light_bulb_ble_uart/src/app_task.cpp:593-603 | In every interleaving the flag is the armed state, and unless an expiry was lost a selected factory reset has its timer armed or a timer event queued |
| FunctionButton.TenMayWait | matter/light_bulb_ble_uart/src/app_task.cpp:631-636 | Ten events may wait, in order of arrival; later ones are dropped |
| FunctionButton.PushActsExactlyWhen | matter/light_bulb_ble_uart/src/app_task.cpp:452-456 | A push acts iff no timer runs and nothing is selected, and then starts 3000 ms |
| FunctionButton.ReleaseActsExactlyWhen | matter/light_bulb_ble_uart/src/app_task.cpp:457-477 | A release acts iff a timer runs: it stops it and clears the selection, and starts an update iff the trigger time was running |
| FunctionButton.ExpiryActs | matter/light_bulb_ble_uart/src/app_task.cpp:383-410 | A handled expiry acts also late or while a timer runs again: it opens a 3000 ms cancel window, or ends it in a reset |
| FunctionButton.DeadlineStays | matter/light_bulb_ble_uart/src/app_task.cpp:441-456 | Over any run without expiry and without a handled release or expiry event, pushing again included, the deadline of a running timer stays |
| FunctionButton.StuckNeedsLostExpiry | matter/light_bulb_ble_uart/src/app_task.cpp:631-636 | A factory reset with neither timer nor timer event only follows a lost expiry |
| FunctionButton.SticksExactlyWhen | matter/light_bulb_ble_uart/src/app_task.cpp:375-380 | The one step that leads there is the end of the cancel window while the queue is full and holds no earlier timer event |
| FunctionButton.FullQueueSticks | matter/light_bulb_ble_uart/src/app_task.cpp:375-400 | A concrete run from start-up that gets stuck: held past the trigger time, ten events queued, the cancel window runs out |
| FunctionButton.StuckForGood | matter/light_bulb_ble_uart/src/app_task.cpp:452-475 | From there, without the NUS button, no sequence of events updates, resets or leaves the state |
| FunctionButton.StuckMeansDead | matter/light_bulb_ble_uart/src/app_task.cpp:383-478 | Exactly the stuck states are those from which no run without the NUS button ever starts an update or schedules a reset |
| FunctionButton.NusFreesButton | matter/light_bulb_ble_uart/src/app_task.cpp:480-492 | Handling the NUS button clears the selection, leaves timer and counts alone, and afterwards some run without it updates or resets again, also from a stuck state |
| FunctionButton.NoResetUntilNextPush | matter/light_bulb_ble_uart/src/app_task.cpp:383-410 | Once the timer is stopped and no timer event is queued, nothing before the next push schedules a reset, NUS events anywhere |
| FunctionButton.DrainedReleaseIsFinal | matter/light_bulb_ble_uart/src/app_task.cpp:457-477 | Queue drained: no reset between a release and the next push |
| FunctionButton.ResetFollowsReleaseExactlyWhen | matter/light_bulb_ble_uart/src/app_task.cpp:457-477 | Undrained: a handled release left alone for six seconds, with NUS events anywhere behind it, is followed by a reset iff a timer event was queued behind it |
| FunctionButton.PressUpdatesExactlyWhen | matter/light_bulb_ble_uart/src/app_task.cpp:441-478 | Any delay, NUS and other events anywhere: from the handling of a push on an idle device to the handling of its release, one update is started if the timer has not run out since the push, or not since a NUS event handled while it ran; otherwise none |
| FunctionButton.DueWithoutNus | matter/light_bulb_ble_uart/src/app_task.cpp:441-478 | With no NUS event handled during the press, that is: iff the timer has not run out before the release is handled |
| FunctionButton.LongPressCanUpdate | matter/light_bulb_ble_uart/src/app_task.cpp:480-492 | A concrete run with a drained queue: held 3500 ms with the NUS button used in the cancel window, and an update is started |
| FunctionButton.ShortPressCanReset | matter/light_bulb_ble_uart/src/app_task.cpp:446-461 | A concrete run: held 2999 ms, released, handled late, and the device resets instead of updating |
| FunctionButton.AdvertisesOnlyWhenStarted | matter/light_bulb_ble_uart/src/bt_nus.cpp:49-97 | Every run with queued restart requests: NUS advertising is started only once StartServer has run |
| FunctionButton.RestartServedExactlyWhen | matter/light_bulb_ble_uart/src/bt_nus.cpp:67-70 | In every reachable state a queued restart request is served iff StartServer has run, and otherwise changes nothing |
| FunctionButton.DisconnectRestartsExactlyWhen | matter/light_bulb_ble_uart/src/bt_nus.cpp:104-116 | From a disconnect through whatever is queued: exactly one attempt to advertise more than without it, iff the platform is not advertising, no connection is left, fewer than ten events wait and StartServer has run by then; otherwise none |
| FunctionButton.ChipEventRestartsExactlyWhen | matter/light_bulb_ble_uart/src/bt_nus.cpp:125-150 | The same for platform events: iff StartServer has run and advertising stopped with no connection left, or a connection closed with the platform not advertising |
| FunctionButton.FirstStartAdvertisesExactlyWhen | matter/light_bulb_ble_uart/src/bt_nus.cpp:49-97 | The NUS button attempts to advertise iff it is the first time and the platform does not; the server counts as advertising once an attempt succeeded |
| FunctionButton.HandlersAreSeparate | matter/light_bulb_ble_uart/src/app_task.cpp:441-492 | No button or timer step touches the NUS server, and no restart, wait or post touches selection, timer and counts |
| AppTask.AppTask.FunctionHandler | matter/light_bulb_ble_uart/src/app_task.cpp:441-478 | The handler's whole new state |
| AppTask.AppTask.FunctionTimerEventHandler | matter/light_bulb_ble_uart/src/app_task.cpp:383-419 | The handler's whole new state |
| AppTask.AppTask.FunctionTimerTimeoutCallback | matter/light_bulb_ble_uart/src/app_task.cpp:369-381 | The flag is cleared and a timer event posted, or dropped and counted |
| AppTask.AppTask.StartBLENUSHandler | matter/light_bulb_ble_uart/src/app_task.cpp:480-492 | The selected function is cleared, the timer left as it is, and the server started |
| AppTask.AppTask.StartTimer | matter/light_bulb_ble_uart/src/app_task.cpp:599-603 | Timer armed for the time given, flag set |
| AppTask.AppTask.CancelTimer | matter/light_bulb_ble_uart/src/app_task.cpp:593-597 | Timer stopped, flag cleared |
| AppTask.AppTask.PostEvent | matter/light_bulb_ble_uart/src/app_task.cpp:631-636 | Queued behind the others, or dropped iff ten are waiting |
| AppTask.AppTask.DispatchEvent | matter/light_bulb_ble_uart/src/app_task.cpp:250-253 | The oldest event is taken and its own handler run |
| AppTask.AppTask.RunSteps | matter/light_bulb_ble_uart/src/app_task.cpp:248-255 | Any interleaving, exactly the possible steps taken in their turn: flag, pending reset, the six-second rule and the NUS rule are kept |
| AppTask.Nus.StartServer | matter/light_bulb_ble_uart/src/bt_nus.cpp:49-65 | Enabled afterwards; advertising attempted iff it was not enabled before and the platform is not advertising |
| AppTask.Nus.StartBLEAdvertising | matter/light_bulb_ble_uart/src/bt_nus.cpp:67-97 | Advertising attempted iff the server is enabled or already advertising |
| AppTask.AppTask.OnBleDisconnect | matter/light_bulb_ble_uart/src/bt_nus.cpp:104-116 | A restart request is queued iff the platform is not advertising, no connection is left and fewer than ten events wait; whether the server is enabled is not asked |
| AppTask.AppTask.NusChipEventHandler | matter/light_bulb_ble_uart/src/bt_nus.cpp:125-150 | A restart request is queued iff the server is enabled, the event and connections ask for it, and fewer than ten events wait |
| RingBuffer.WindowAfterPut | peripherals/uart_passthrough/passthrough/src/main.c:50-56 | Bytes written into a claim and finished are appended to the contents, in front of and behind the wrap |
| RingBuffer.WindowAfterGet | peripherals/uart_passthrough/passthrough/src/main.c:64-68 | A claim shows the oldest bytes, and finishing any part of it drops exactly those |
| RingBuffer.ClaimsAreProductive | peripherals/uart_passthrough/passthrough/src/main.c:50-73 | A put claim is empty iff the ring is full, a get claim iff it is empty |
| RingBuffer.TwoClaimsReachAll | peripherals/uart_passthrough/passthrough/src/main.c:50-68 | A claim ends at the end of the array, and a second one reaches all that is left, for putting and for getting |
| RingBuffer.RingBuf.PutFinish | peripherals/uart_passthrough/passthrough/src/main.c:56 | Contents grow by the bytes at the tail |
| RingBuffer.RingBuf.GetFinish | peripherals/uart_passthrough/passthrough/src/main.c:68 | Contents lose their first bytes |
| Passthrough.ReceiveIsSound | peripherals/uart_passthrough/passthrough/src/main.c:54-58 | Reading keeps given plus buffered equal to read; afterwards a non-empty ring has its transmit interrupt iff it had it before or a byte was read |
| Passthrough.LosesInterruptExactlyWhen | peripherals/uart_passthrough/passthrough/src/main.c:62-75 | Handing on any part of a claim keeps given plus buffered equal to read; buffered bytes lose their transmit interrupt iff the ready destination takes none |
| Passthrough.CallbackIsSound | peripherals/uart_passthrough/passthrough/src/main.c:38-76 | One callback keeps the bytes, reads exactly what it takes, takes something unless nothing waits or the ring is full, and takes back nothing given; buffered bytes lose their interrupt iff the ready destination has no room |
| Passthrough.TakesAllUnless | peripherals/uart_passthrough/passthrough/src/main.c:43-60 | All waiting bytes are taken, unless the ring of 1024 bytes is full or its array has ended |
| Passthrough.GivesAllUnless | peripherals/uart_passthrough/passthrough/src/main.c:62-75 | Exactly the oldest bytes are handed on, none unless transmit is ready, and as many as there is room for unless the ring is empty or its array has ended |
| Passthrough.InterruptOnExactlyWhen | peripherals/uart_passthrough/passthrough/src/main.c:54-75 | After a callback the transmit interrupt is enabled iff it was before or bytes were taken, and transmit was not ready or a byte was given; so that of an empty ring is switched off |
| Passthrough.TwoCallbacksDrain | peripherals/uart_passthrough/passthrough/src/main.c:62-75 | Two callbacks with room enough hand on everything that was read, across the wrap |
| Passthrough.EveryRun | peripherals/uart_passthrough/passthrough/src/main.c:38-76 | Every run of a direction: given plus buffered is read, read are exactly the bytes taken in turn, the interrupt is on exactly by the history of bytes taken and fills in vain, and never missing unless a ready destination had no room |
| Passthrough.UartBridge.UartCb | peripherals/uart_passthrough/passthrough/src/main.c:38-76 | One callback is its step of the direction: exactly the bytes taken are read, what was given stays given, when buffered bytes lose their interrupt, and when the interrupt is enabled at all |
| Passthrough.System.Run | peripherals/uart_passthrough/passthrough/src/main.c:24-93 | Both directions, any interleaving: each goes through exactly the callbacks of its source; read grows by the bytes taken at each interrupt; given plus ring is read, in order; no ring above 1024 bytes; each interrupt is on exactly by its own history, and on for a non-empty ring unless a ready FIFO had no room |
| HexNumber.PrintIsRead | wifi/socket_echo_client/src/main.c:210-213 | Printing and reading hexadecimal lengths are inverse on all naturals, without leading zeros |
| HexNumber.PrintsLowerCase | wifi/socket_echo_client/src/main.c:210-213 | Only the digits 0 to 9 and lower-case a to f are printed |
| Chunked.DecodeEncode | wifi/socket_echo_client/src/main.c:209-215 | For every list of strings: the reader gets those before the first empty one, and the rest is left over |
| Chunked.RoundTripExactlyWhen | wifi/socket_echo_client/src/main.c:209-215 | The message parses back to the same chunks with nothing left over iff no chunk is empty |
| Chunked.ClippedIsNotRead | wifi/socket_echo_client/src/main.c:215-217 | A message whose last byte was replaced by the terminator never reads back in full |
| Chunked.ReadBackExactlyWhen | wifi/socket_echo_client/src/main.c:207-217 | What a buffer the message does not overrun sends reads back iff no string is empty and the message is shorter than the buffer |
| Chunked.ExactFitIsClipped | wifi/socket_echo_client/src/main.c:207-217 | A buffer that is just filled sends the message with a zero byte in place of its last line feed; one byte more, and it is sent whole |
| Chunked.FormatChunks | wifi/socket_echo_client/src/main.c:209-214 | For any strings and any buffer: `pos` ends at the length of the formatted strings, which the buffer then holds if it has a byte to spare; the remaining size wraps around iff they are longer than the buffer |
| Chunked.SendTcpData | wifi/socket_echo_client/src/main.c:200-217 | For any strings and any buffer: the bytes handed to the socket and when they read back; the code leaves its buffer iff the message is longer |
| Chunked.SampleFits | wifi/socket_echo_client/src/main.c:202-207 | The sample's own message byte by byte: 37 of 64 bytes, and it reads back |
| Ping.EveryRun | wifi/twt_provisioning_demo/src/ping.c:36-167 | However many sends fail, time out or are answered malformed, as long as accepted replies answer the outstanding echo: the k-th accepted reply carries number k modulo 2^16, at most one echo is outstanding, and before the wrap `sequence` is `recv_seq` or one more |
| Ping.StepKeepsInvExactlyWhen | wifi/twt_provisioning_demo/src/ping.c:40-101 | No event breaks the agreement of accepted replies, outstanding echo and counters but an accepted reply, and that iff it fails the comparison with the outstanding number, which the handler does not make |
| Ping.NumberingHoldsExactlyWhen | wifi/twt_provisioning_demo/src/ping.c:36-167 | Every run with late, lost and malformed replies: accepted replies count up one by one, at most one echo is outstanding and both counters agree with them all along, iff every accepted reply answered the outstanding echo |
| Ping.RetriesExactlyWhen | wifi/twt_provisioning_demo/src/ping.c:111-167 | After the work item it is pending again iff the guard let it through and sending failed; one echo with the next number goes out and is waited for iff sending succeeded |
| Ping.RetriesUntilSent | wifi/twt_provisioning_demo/src/ping.c:163-166 | After any number of failed attempts the next needs no new schedule, and the first to succeed sends exactly one echo |
| Ping.FlagsExactlyWhen | wifi/twt_provisioning_demo/src/ping.c:36-172 | Over every event: when a ping is scheduled, a timeout due, the handler waiting or registered, and how many replies are on their way |
| Ping.WedgesExactlyWhen | wifi/twt_provisioning_demo/src/ping.c:48-113 | The machine becomes unable to send for good iff, after the wait, a well-formed reply numbered below `sequence` is accepted, or a malformed one cancels the timeout with only such replies left, or the last other reply is lost |
| Ping.WedgedForGood | wifi/twt_provisioning_demo/src/ping.c:113-116 | From there no echo goes out, whatever happens, and `sequence` stays |
| Ping.WedgedMeansNoEcho | wifi/twt_provisioning_demo/src/ping.c:103-167 | Exactly the wedged states are those from which no sequence of events ever sends an echo again |
| Ping.LateReplyWedges | wifi/twt_provisioning_demo/src/ping.c:68-109 | A concrete run of two pings, one repeated, in which number one is accepted twice and the machine never sends again |
| Ping.WrapWedges | wifi/twt_provisioning_demo/src/ping.c:113-161 | Without any late reply: after 65535 answered pings, an answer after the wait wedges the machine |
| Ping.HangsExactlyWhen | wifi/twt_provisioning_demo/src/ping.c:48-68 | An outstanding echo is left without timeout iff a malformed reply arrives after the wait |
| Ping.HangsUntilReply | wifi/twt_provisioning_demo/src/ping.c:103-116 | From there only a reply changes anything |
| Ping.MalformedReplyHangs | wifi/twt_provisioning_demo/src/ping.c:48-68 | A concrete run from start-up that hangs and is wedged: one ping whose only reply is malformed and late |
| Ping.Pinger.PingWorkHandler | wifi/twt_provisioning_demo/src/ping.c:111-167 | From a valid state an echo goes out iff sending succeeds and the counters agree; it is then the only one outstanding and carries the number after the last accepted one; the work item is pending again iff the attempt failed; the state stays valid |
| Ping.Pinger.PingWorkHandlerResumes | wifi/twt_provisioning_demo/src/ping.c:159-161 | Whatever happened during the wait, a timeout is now due: the machine neither is wedged nor hangs |
| Ping.Pinger.HandlePingReply | wifi/twt_provisioning_demo/src/ping.c:40-101 | The state stays valid iff an accepted reply answers the outstanding echo, and then it is the next number; a malformed reply is never accepted |
| Ping.Pinger.PingResponseTimeoutHandler | wifi/twt_provisioning_demo/src/ping.c:103-109 | Nothing is outstanding any more, and the next work item can send |
| Ping.Pinger.Drive | wifi/twt_provisioning_demo/src/ping.c:36-172 | The handlers in any order, exactly the possible events taken: valid all along iff every accepted reply answered the outstanding echo, and then the k-th of them carries number k |
| LightBulb.EveryRun | zigbee/light_bulb_dongle/src/main.c:293-391 | Outside the identify blink, over every mix of 16-bit level writes, on/off writes and identify: the pulse is level times 20000 over 255 when on and zero when off |
| LightBulb.OffThenOn | zigbee/light_bulb_dongle/src/main.c:337-355 | Off and on restores pulse and level, and the on state exactly when the level is not zero |
| LightBulb.OnButDarkExactlyWhen | zigbee/light_bulb_dongle/src/main.c:293-331 | A level write leaves the bulb on but dark iff the value is a non-zero multiple of 256 |
| LightBulb.WritesAreObeyed | zigbee/light_bulb_dongle/src/main.c:467-519 | Every run: level and on state end as the writes ask in order; a level v gives v modulo 256 and is on iff v is not zero, an on/off write keeps the level and is on iff it and the level are not zero, identify and the rest change neither |
| LightBulb.LastWriteDecides | zigbee/light_bulb_dongle/src/main.c:467-519 | Only the last write counts, whatever follows that is no write |
| LightBulb.TogglesAlternate | zigbee/light_bulb_dongle/src/main.c:361-367 | Two toggles in a row show different outputs, full and none |
| LightBulb.BlinkCounts | zigbee/light_bulb_dongle/src/main.c:361-391 | Every run: the blink counter counts the toggles, and what is scheduled is what was started and not cancelled |
| LightBulb.StopEndsBlinkExactlyWhen | zigbee/light_bulb_dongle/src/main.c:373-391 | After identify was stopped, in every run without another identify command: no blink is left iff at the stop no toggle callback or alarm stayed scheduled, and then the output always shows the attributes |
| LightBulb.QuickStopBlinksOn | zigbee/light_bulb_dongle/src/main.c:361-383 | Started and stopped before the callback has run, the bulb blinks in every later state of every run until it is stopped again |
| LightBulb.BlinksUntilStopped | zigbee/light_bulb_dongle/src/main.c:361-391 | From any blinking state no sequence of events without a stop ends the blink |
| LightBulb.Device.SetLevel | zigbee/light_bulb_dongle/src/main.c:293-331 | The output shows the new attributes, also during a blink; on iff the 16-bit value is not zero, at its low byte |
| LightBulb.Device.SetOnOff | zigbee/light_bulb_dongle/src/main.c:337-355 | The output shows the attributes, the level is kept, and the bulb is on iff it was switched on at a level that is not zero |
| LightBulb.Device.Toggle | zigbee/light_bulb_dongle/src/main.c:361-367 | Full output and none in turn, counted, always with a next toggle pending, attributes untouched |
| LightBulb.Device.IdentifyCb | zigbee/light_bulb_dongle/src/main.c:373-391 | A start leaves output and attributes alone and blinks from then on; a stop restores the output and ends the blink iff nothing was left scheduled |
| LightBulb.Device.ZclDeviceCb | zigbee/light_bulb_dongle/src/main.c:467-519 | Level and on state become what the command or write asks; output and attributes agree and the blink neither starts nor ends; other clusters and attributes change nothing |
| LightBulb.Device.Drive | zigbee/light_bulb_dongle/src/main.c:293-519 | The callbacks in any order, exactly the possible ones taken: level and on state end as all writes ask in order, and outside the blink the output is the level times 20000 over 255 when on and zero when off |

## Left out

- Driver, kernel, Bluetooth, ZBOSS, Matter and socket internals: foreign code, replaced by contracts. For the asynchronous UART: `uart_tx` fails exactly while a transfer runs, completions carry data, aborts report fewer bytes than requested, `uart_rx_enable` succeeds, and after `uart_rx_disable` come the releases and then Disabled, with no report in between. Receive errors are not part of this model.
- Finer interleavings inside one `uart_cb` call, one button handler or one timer callback: each is one step, except for the window of `UartTx.WindowIsHarmlessExactlyWhen`.
- UartBridge.Bridge.BtReceiveCb: the order of buffers under several concurrent Bluetooth receive threads is not modelled, because the stack has one.
- Chunked.SendTcpData: what the library writes once the remaining size has wrapped around is undefined; the model stops there with `Overrun`. Message lengths are those an `int` can hold.
- Chunked.Decode reads neither chunk extensions nor trailer fields, which the sender never produces.
- Passthrough.UartBridge.UartCb: a claim that is not finished, after a read or a fill of no bytes, counts as withdrawn, because the ring library is not shown in the repository. Draining is not claimed: a device's transmit interrupt runs the other bridge's callback.
- The ring library, the button library and the LED widgets are not part of this model; the ring is written from its use.
- Which physical button posts the NUS event: `app_task.cpp:359` tests the button's number where its mask seems meant, and the button library's constants are not shown. NUS events may come at any moment instead.
- Ping: resolving the address and what an echo holds beyond the sequence number are contract (`InitFails`, `SendFails`); a send that fails leaves the reply handler registered. A reply is delivered only while the handler is registered.
- The two-button branch of `app_task.cpp`: line 359 uses a constant that is not defined for it.
- Software update counts the branch that starts it; whether the server exists is a build option.
- The scenes callback of `zcl_device_cb`, failing PWM writes and the overflow of the blink counter: outside the bulb's own code, or contract.
- TX power, pairing, advertising data, Wi-Fi and Thread joining, the Zigbee coordinator, the multi sensor, shell, LEDs, logging and configuration: not part of these event machines.
