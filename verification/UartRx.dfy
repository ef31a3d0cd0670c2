/** The receive direction of the bridge as framing on values: the driver reports
    pieces of input; a frame is closed when the buffer is full or the report just
    taken ends a line. */
module UartRx {
  import opened Bytes

  // `frames` were handed to Bluetooth LE; `partial` is the content of the open buffer.
  datatype Rx = Rx(frames: seq<seq<byte>>, partial: seq<byte>)

  const START := Rx([], [])

  predicate EndsLine(s: seq<byte>) {
    s != [] && (s[|s| - 1] == LF || s[|s| - 1] == CR)
  }

  predicate IsFrame(s: seq<byte>, size: nat) {
    0 < |s| <= size && (|s| == size || EndsLine(s))
  }

  predicate WellFormed(r: Rx, size: nat) {
    && (forall i | 0 <= i < |r.frames| :: IsFrame(r.frames[i], size))
    && |r.partial| < size && !EndsLine(r.partial)
  }

  // The driver never reports more than the open buffer has room for.
  predicate Fits(r: Rx, report: seq<byte>, size: nat) {
    report != [] && |r.partial| + |report| <= size
  }

  function Receive(r: Rx, report: seq<byte>, size: nat): Rx {
    var line := r.partial + report;
    if |line| == size || EndsLine(line) then Rx(r.frames + [line], []) else Rx(r.frames, line)
  }

  function Total(r: Rx): seq<byte> {
    Flatten(r.frames) + r.partial
  }

  predicate RunFits(r: Rx, reports: seq<seq<byte>>, size: nat)
    decreases |reports|
  {
    reports != [] ==> Fits(r, reports[0], size) && RunFits(Receive(r, reports[0], size), reports[1..], size)
  }

  function Run(r: Rx, reports: seq<seq<byte>>, size: nat): Rx
    decreases |reports|
  {
    if reports == [] then r else Run(Receive(r, reports[0], size), reports[1..], size)
  }

  lemma ReceiveConserves(r: Rx, report: seq<byte>, size: nat)
    requires WellFormed(r, size) && Fits(r, report, size)
    ensures WellFormed(Receive(r, report, size), size)
    ensures Total(Receive(r, report, size)) == Total(r) + report
  {
    FlattenSnoc(r.frames, r.partial + report);
  }

  /** Every sequence of reports: the frames, concatenated, and then the open
      buffer are exactly the reported bytes; every frame is full or ends in CR or
      LF; and the open buffer is neither, so no frame is handed over late. */
  lemma {:induction false} RunConserves(r: Rx, reports: seq<seq<byte>>, size: nat)
    requires WellFormed(r, size) && RunFits(r, reports, size)
    ensures WellFormed(Run(r, reports, size), size)
    ensures Total(Run(r, reports, size)) == Total(r) + Flatten(reports)
    decreases |reports|
  {
    if reports != [] {
      ReceiveConserves(r, reports[0], size);
      RunConserves(Receive(r, reports[0], size), reports[1..], size);
    }
  }
}
