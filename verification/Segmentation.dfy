/** How one Bluetooth LE write is cut into UART buffers (`bt_receive_cb`). */
module Segmentation {
  import opened Bytes

  // Where the iteration that starts at `pos` stops reading: the last byte of the
  // buffer is kept for a line feed.
  function Next(length: nat, pos: nat, size: nat): nat
    requires pos <= length && 0 < size
  {
    if length - pos > size - 1 then pos + (size - 1) else length
  }

  predicate EndsInCR(data: seq<byte>) {
    data != [] && data[|data| - 1] == CR
  }

  // The buffer the iteration that starts at `pos` fills.
  function Segment(data: seq<byte>, pos: nat, size: nat): seq<byte>
    requires pos <= |data| && 0 < size
  {
    var next := Next(|data|, pos, size);
    data[pos..next] + (if next == |data| && EndsInCR(data) then [LF] else [])
  }

  function Segments(data: seq<byte>, pos: nat, size: nat): seq<seq<byte>>
    requires pos <= |data| && 2 <= size
    decreases |data| - pos
  {
    if pos == |data| then []
    else [Segment(data, pos, size)] + Segments(data, Next(|data|, pos, size), size)
  }

  // What a peer's write is meant to put on the UART.
  function Translated(data: seq<byte>): seq<byte> {
    if EndsInCR(data) then data + [LF] else data
  }

  // A line feed after a carriage return, in numbers.
  lemma TranslatedBytes(data: seq<byte>)
    ensures Translated(data) == data + if data != [] && data[|data| - 1] == 13 then [10] else []
  {
    assert data + [] == data;
  }

  // The loop moves forward from every position iff a buffer has room for a byte
  // besides the line feed; with one-byte buffers it would turn forever.
  lemma ProgressExactlyWhen(size: nat)
    requires 0 < size
    ensures (forall length: nat, pos: nat | pos < length :: pos < Next(length, pos, size)) <==> 2 <= size
  {
    if size == 1 {
      assert Next(1, 0, size) == 0;
    }
  }

  predicate EndsInCRLF(s: seq<byte>) {
    |s| >= 2 && s[|s| - 2] == CR && s[|s| - 1] == LF
  }

  lemma SegmentIsTranslatedSlice(data: seq<byte>, pos: nat, size: nat)
    requires pos < |data| && 2 <= size
    ensures var whole, next := Translated(data), Next(|data|, pos, size);
            whole[pos..] == Segment(data, pos, size) + if next == |data| then [] else whole[next..]
  {
    var whole, next := Translated(data), Next(|data|, pos, size);
    if next < |data| {
      assert whole[pos..] == whole[pos..next] + whole[next..];
      assert data[pos..next] == whole[pos..next];
    } else {
      assert whole[pos..] == Segment(data, pos, size);
    }
  }

  /** From any position: the buffers together are the rest of the translated write. */
  lemma {:induction false} SegmentsConcatenate(data: seq<byte>, pos: nat, size: nat)
    requires pos <= |data| && 2 <= size
    ensures Flatten(Segments(data, pos, size)) == if pos == |data| then [] else Translated(data)[pos..]
    decreases |data| - pos
  {
    if pos < |data| {
      SegmentsConcatenate(data, Next(|data|, pos, size), size);
      SegmentIsTranslatedSlice(data, pos, size);
    }
  }

  /** Every buffer is non-empty and fits; all but the last are as full as they may
      be; and an added line feed shares its buffer with the carriage return. */
  lemma {:induction false} SegmentsShape(data: seq<byte>, pos: nat, size: nat)
    requires pos <= |data| && 2 <= size
    ensures var segs := Segments(data, pos, size);
            && (forall i | 0 <= i < |segs| :: 0 < |segs[i]| <= size)
            && (forall i | 0 <= i < |segs| - 1 :: |segs[i]| == size - 1)
            && (segs != [] && EndsInCR(data) ==> EndsInCRLF(segs[|segs| - 1]))
    decreases |data| - pos
  {
    if pos < |data| {
      var next := Next(|data|, pos, size);
      SegmentsShape(data, next, size);
      assert next == |data| ==> Segments(data, next, size) == [];
    }
  }

  // When allocation fails before the last buffer, what went out is a proper prefix of the write itself.
  lemma {:induction false} CutShortIsPrefix(data: seq<byte>, pos: nat, size: nat, k: nat)
    requires pos <= |data| && 2 <= size && k < |Segments(data, pos, size)|
    ensures Flatten(Segments(data, pos, size)[..k]) < data[pos..]
    decreases k
  {
    if k > 0 {
      var next := Next(|data|, pos, size);
      var segs, tail := Segments(data, pos, size), Segments(data, next, size);
      CutShortIsPrefix(data, next, size, k - 1);
      assert segs[..k][0] == segs[0] && segs[..k][1..] == tail[..k - 1];
      assert data[pos..] == data[pos..next] + data[next..];
    }
  }

  /** What k buffers of a write amount to: all of them, the translated write; fewer,
      a proper prefix of the write itself, without any added line feed. */
  lemma SentMeans(data: seq<byte>, size: nat, k: nat)
    requires 2 <= size && k <= |Segments(data, 0, size)|
    ensures var segs := Segments(data, 0, size);
            if k == |segs| then Flatten(segs[..k]) == Translated(data) else Flatten(segs[..k]) < data
  {
    var segs := Segments(data, 0, size);
    if k == |segs| {
      SegmentsConcatenate(data, 0, size);
      assert segs[..k] == segs && Translated(data)[0..] == Translated(data);
    } else {
      CutShortIsPrefix(data, 0, size, k);
      assert data[0..] == data;
    }
  }

  lemma NextAdvances(length: nat, pos: nat, size: nat)
    requires pos < length && 2 <= size
    ensures pos < Next(length, pos, size) <= length
  {
  }
}
