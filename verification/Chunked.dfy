/** The chunked message `send_tcp_data` formats into a fixed buffer, against a
    reader written from section 7.1 of RFC 9112. */
module Chunked {
  import opened Bytes
  import opened HexNumber

  const CRLF: seq<byte> := [CR, LF]
  const LAST: seq<byte> := [48, CR, LF, CR, LF] // "0\r\n\r\n"
  const NUL: byte := 0

  // "%x\r\n%s\r\n"
  function EncodeChunk(c: seq<byte>): seq<byte> {
    Print(|c|) + CRLF + c + CRLF
  }

  function Encode(chunks: seq<seq<byte>>): seq<byte> {
    if chunks == [] then LAST else EncodeChunk(chunks[0]) + Encode(chunks[1..])
  }

  datatype Decoded = Malformed | Message(chunks: seq<seq<byte>>, rest: seq<byte>)

  predicate StartsWithCRLF(s: seq<byte>, at: nat) {
    at + 2 <= |s| && s[at..at + 2] == CRLF
  }

  /** A chunked body without extensions or trailers: chunks of a positive size and
      that many bytes, up to a chunk of size zero and an empty line. */
  function Decode(s: seq<byte>): Decoded
    decreases |s|
  {
    var d := DigitRun(s);
    if d == 0 || !StartsWithCRLF(s, d) then Malformed
    else
      var size, body := Value(s[..d]), s[d + 2..];
      if !StartsWithCRLF(body, size) then Malformed
      else if size == 0 then Message([], body[2..])
      else
        match Decode(body[size + 2..])
        case Malformed => Malformed
        case Message(chunks, rest) => Message([body[..size]] + chunks, rest)
  }

  lemma CutAtCRLF(a: seq<byte>, b: seq<byte>)
    ensures var s := a + (CRLF + b);
            s[..|a|] == a && StartsWithCRLF(s, |a|) && s[|a| + 2..] == b
  {
  }

  lemma ChunkIsDigitsAndBody(c: seq<byte>, tail: seq<byte>)
    ensures EncodeChunk(c) + tail == Print(|c|) + (CRLF + (c + (CRLF + tail)))
  {
    hide Print;
    var digits := Print(|c|);
    Regroup(digits + CRLF + c, CRLF, tail);
    Regroup(digits + CRLF, c, CRLF + tail);
    Regroup(digits, CRLF, c + (CRLF + tail));
  }

  // An encoded chunk taken apart the way the reader does it.
  lemma ChunkParts(c: seq<byte>, tail: seq<byte>)
    ensures var s, d, body := EncodeChunk(c) + tail, |Print(|c|)|, c + (CRLF + tail);
            && DigitRun(s) == d > 0 && AllDigits(s[..d]) && Value(s[..d]) == |c|
            && StartsWithCRLF(s, d) && s[d + 2..] == body
            && StartsWithCRLF(body, |c|) && body[..|c|] == c && body[|c| + 2..] == tail
  {
    var digits, body := Print(|c|), c + (CRLF + tail);
    PrintIsRead(|c|);
    ChunkIsDigitsAndBody(c, tail);
    CutAtCRLF(digits, body);
    CutAtCRLF(c, tail);
    assert (CRLF + body)[0] == CR;
    RunEndsAt(digits, CRLF + body);
  }

  lemma DecodeFirst(c: seq<byte>, tail: seq<byte>)
    ensures Decode(EncodeChunk(c) + tail) ==
            if c == [] then Message([], tail)
            else match Decode(tail)
              case Malformed => Malformed
              case Message(chunks, rest) => Message([c] + chunks, rest)
  {
    hide Print, Value, DigitRun, StartsWithCRLF, EncodeChunk;
    ChunkParts(c, tail);
  }

  lemma DecodeLast(tail: seq<byte>)
    ensures Decode(LAST + tail) == Message([], tail)
  {
    PrintIsRead(0);
    assert EncodeChunk([]) == LAST;
    DecodeFirst([], tail);
  }

  predicate NoneEmpty(chunks: seq<seq<byte>>) {
    forall i | 0 <= i < |chunks| :: chunks[i] != []
  }

  // The chunks before the first empty one, and those after it.
  function Visible(chunks: seq<seq<byte>>): seq<seq<byte>> {
    if chunks == [] || chunks[0] == [] then [] else [chunks[0]] + Visible(chunks[1..])
  }

  function Leftover(chunks: seq<seq<byte>>): seq<byte> {
    if chunks == [] then [] else if chunks[0] == [] then Encode(chunks[1..]) else Leftover(chunks[1..])
  }

  /** What a reader makes of the message, for every list of chunks: an empty chunk
      reads as the end, and what follows it is left over. */
  lemma {:induction false} DecodeEncode(chunks: seq<seq<byte>>, tail: seq<byte>)
    ensures Decode(Encode(chunks) + tail) == Message(Visible(chunks), Leftover(chunks) + tail)
  {
    if chunks == [] {
      DecodeLast(tail);
    } else {
      var later := Encode(chunks[1..]) + tail;
      assert Encode(chunks) + tail == EncodeChunk(chunks[0]) + later;
      DecodeFirst(chunks[0], later);
      DecodeEncode(chunks[1..], tail);
    }
  }

  lemma {:induction false} VisibleIsAllExactlyWhen(chunks: seq<seq<byte>>)
    ensures |Visible(chunks)| <= |chunks|
    ensures NoneEmpty(chunks) ==> Visible(chunks) == chunks && Leftover(chunks) == []
    ensures !NoneEmpty(chunks) ==> |Visible(chunks)| < |chunks|
  {
    if chunks != [] {
      VisibleIsAllExactlyWhen(chunks[1..]);
      assert NoneEmpty(chunks) <==> chunks[0] != [] && NoneEmpty(chunks[1..]) by {
        assert forall i | 1 <= i < |chunks| :: chunks[i] == chunks[1..][i - 1];
      }
    }
  }

  /** The round trip, with nothing left over, holds exactly when no chunk is empty. */
  lemma RoundTripExactlyWhen(chunks: seq<seq<byte>>)
    ensures Decode(Encode(chunks)) == Message(chunks, []) <==> NoneEmpty(chunks)
  {
    DecodeEncode(chunks, []);
    VisibleIsAllExactlyWhen(chunks);
    assert Encode(chunks) + [] == Encode(chunks);
  }

  // The message with its last byte replaced by the terminator of a full buffer.
  function Clipped(chunks: seq<seq<byte>>): seq<byte> {
    EncodeHasLast(chunks);
    Encode(chunks)[..|Encode(chunks)| - 1] + [NUL]
  }

  // A clipped message never reads back in full.
  lemma {:induction false} ClippedIsNotRead(chunks: seq<seq<byte>>)
    ensures var d := Decode(Clipped(chunks)); d.Message? ==> |d.chunks| < |chunks|
  {
    EncodeHasLast(chunks);
    if chunks == [] {
      var s := Clipped(chunks);
      assert s == [48] + [CR, LF, CR, NUL];
      RunEndsAt([48], [CR, LF, CR, NUL]);
      assert s[..1] == [48] && s[3..] == [CR, NUL] && Value([48]) == 0;
      assert !StartsWithCRLF([CR, NUL], 0) by { assert [CR, NUL][0..2][1] == NUL; }
    } else {
      EncodeHasLast(chunks[1..]);
      assert Clipped(chunks) == EncodeChunk(chunks[0]) + Clipped(chunks[1..]);
      DecodeFirst(chunks[0], Clipped(chunks[1..]));
      ClippedIsNotRead(chunks[1..]);
    }
  }

  // What a buffer the message does not overrun hands to the socket.
  function Formatted(chunks: seq<seq<byte>>, size: nat): seq<byte>
    requires |Encode(chunks)| <= size
  {
    if |Encode(chunks)| < size then Encode(chunks) else Clipped(chunks)
  }

  // A buffer that is just filled sends the message with a zero byte in place of its last line feed.
  lemma ExactFitIsClipped(chunks: seq<seq<byte>>)
    ensures var message, n := Encode(chunks), |Encode(chunks)|;
            && n > 0 && message[n - 1] == 10
            && Formatted(chunks, n) == message[..n - 1] + [0] && Formatted(chunks, n + 1) == message
  {
    EncodeHasLast(chunks);
  }

  /** A reader gets exactly the chunks back iff none is empty and a byte of the
      buffer is left over for the terminator. */
  lemma ReadBackExactlyWhen(chunks: seq<seq<byte>>, size: nat)
    requires |Encode(chunks)| <= size
    ensures Decode(Formatted(chunks, size)) == Message(chunks, []) <==> |Encode(chunks)| < size && NoneEmpty(chunks)
  {
    RoundTripExactlyWhen(chunks);
    ClippedIsNotRead(chunks);
  }

  // ---------------------------------------------------------------------------
  // The formatting loop
  // ---------------------------------------------------------------------------

  // snprintk into what is left of the buffer: as much of the text as fits together with
  // a terminating NUL, or nothing when no room is left; the result is the full length.
  method Snprintk(tmp: array<byte>, off: nat, text: seq<byte>) returns (n: nat)
    requires off <= tmp.Length
    modifies tmp
    ensures n == |text|
    ensures tmp[..off] == old(tmp[..off])
    ensures off < tmp.Length ==>
              var m := if |text| < tmp.Length - off then |text| else tmp.Length - off - 1;
              tmp[off..off + m] == text[..m] && tmp[off + m] == NUL
  {
    n := |text|;
    if off == tmp.Length {
      return;
    }
    var m := if |text| < tmp.Length - off then |text| else tmp.Length - off - 1;
    for k := 0 to m
      invariant tmp[..off] == old(tmp[..off]) && tmp[off..off + k] == text[..k]
    {
      tmp[off + k] := text[k];
    }
    tmp[off + m] := NUL;
  }

  lemma {:induction false} EncodeSplits(chunks: seq<seq<byte>>, i: nat)
    requires i <= |chunks|
    ensures Encode(chunks) == Written(chunks[..i]) + Encode(chunks[i..])
  {
    if i == 0 {
      assert chunks[0..] == chunks;
    } else {
      EncodeSplits(chunks[1..], i - 1);
      assert chunks[..i][0] == chunks[0] && chunks[..i][1..] == chunks[1..][..i - 1];
      assert chunks[1..][i - 1..] == chunks[i..];
    }
  }

  // What the loop has written after some chunks.
  function Written(chunks: seq<seq<byte>>): seq<byte> {
    if chunks == [] then [] else EncodeChunk(chunks[0]) + Written(chunks[1..])
  }

  lemma EncodeHasLast(chunks: seq<seq<byte>>)
    ensures |Encode(chunks)| >= |LAST|
  {
  }

  lemma WrittenSnoc(chunks: seq<seq<byte>>, i: nat)
    requires i < |chunks|
    ensures Written(chunks[..i + 1]) == Written(chunks[..i]) + EncodeChunk(chunks[i])
  {
    EncodeSplits(chunks, i);
    EncodeSplits(chunks, i + 1);
    var tail := Encode(chunks[i + 1..]);
    assert Encode(chunks[i..]) == EncodeChunk(chunks[i]) + tail by {
      assert chunks[i..][1..] == chunks[i + 1..];
    }
    assert Written(chunks[..i + 1]) + tail == (Written(chunks[..i]) + EncodeChunk(chunks[i])) + tail;
    var a, b := Written(chunks[..i + 1]), Written(chunks[..i]) + EncodeChunk(chunks[i]);
    assert a == (a + tail)[..|a|] && b == (b + tail)[..|b|];
  }

  lemma EncodeIsWritten(chunks: seq<seq<byte>>)
    ensures Encode(chunks) == Written(chunks) + LAST
  {
    EncodeSplits(chunks, |chunks|);
    assert chunks[..|chunks|] == chunks;
  }

  lemma WrittenGrows(chunks: seq<seq<byte>>, i: nat)
    requires i <= |chunks|
    ensures |Written(chunks[..i])| <= |Written(chunks)|
  {
    EncodeSplits(chunks, i);
    EncodeIsWritten(chunks);
    EncodeHasLast(chunks[i..]);
  }

  // Either the socket gets these bytes, or the code has gone past the end of its
  // buffer: a remaining size wraps around, or more bytes are sent than there are.
  datatype Outcome = Sent(bytes: seq<byte>) | Overrun

  /** The loop: every string formatted behind the ones before it, unless the size that
      is left over wraps around, exactly when together they are longer than the buffer. */
  method FormatChunks(content: seq<seq<byte>>, tmp: array<byte>) returns (pos: Option<nat>)
    modifies tmp
    ensures pos == if |Written(content)| <= tmp.Length then Some(|Written(content)|) else None
    ensures pos.Some? && pos.value < tmp.Length ==> tmp[..pos.value] == Written(content)
  {
    hide Encode, EncodeChunk;
    assert content[..|content|] == content;
    var at := 0;
    for i := 0 to |content|
      invariant at == |Written(content[..i])| <= tmp.Length
      invariant at < tmp.Length ==> tmp[..at] == Written(content[..i])
    {
      WrittenSnoc(content, i);
      WrittenGrows(content, i + 1);
      var n := Snprintk(tmp, at, EncodeChunk(content[i]));
      if at + n > tmp.Length {
        return None;
      }
      assert tmp[..at + n] == tmp[..at] + tmp[at..at + n];
      at := at + n;
    }
    return Some(at);
  }

  /** `send_tcp_data` for any strings and any buffer: what reaches the socket, and when
      it reads back.  With no byte to spare the terminator replaces the final line feed;
      with fewer, and only then, the code leaves its buffer. */
  method SendTcpData(content: seq<seq<byte>>, size: nat) returns (out: Outcome)
    requires |Encode(content)| < 0x8000_0000 && size < 0x8000_0000
    requires forall i | 0 <= i < |content| :: NUL !in content[i]
    ensures out == if |Encode(content)| <= size then Sent(Formatted(content, size)) else Overrun
    ensures out.Sent? && Decode(out.bytes) == Message(content, []) <==> |Encode(content)| < size && NoneEmpty(content)
  {
    hide Encode, Decode, NoneEmpty;
    if |Encode(content)| <= size {
      ReadBackExactlyWhen(content, size);
    }
    EncodeIsWritten(content);
    var tmp := new byte[size];
    var at := FormatChunks(content, tmp);
    if at.None? {
      return Overrun;
    }
    var pos := at.value;
    ghost var front := tmp[..pos];
    var n := Snprintk(tmp, pos, LAST);
    if pos + n > size {
      return Overrun;
    }
    out := Sent(tmp[..pos + n]);
    assert out.bytes == front + tmp[pos..pos + n];
    if pos + n == size {
      assert tmp[pos..pos + n] == LAST[..n - 1] + [NUL];
    } else {
      assert tmp[pos..pos + n] == LAST;
    }
  }

  const CONTENT: seq<seq<byte>> := [
    [102, 111, 111, 98, 97, 114],      // "foobar"
    [99, 104, 117, 110, 107, 101, 100], // "chunked"
    [108, 97, 115, 116]]               // "last"

  // The chunks of the sample, byte by byte: a size, the string, and line ends around it.
  lemma SampleChunks()
    ensures EncodeChunk(CONTENT[0]) == [54, 13, 10, 102, 111, 111, 98, 97, 114, 13, 10]
    ensures EncodeChunk(CONTENT[1]) == [55, 13, 10, 99, 104, 117, 110, 107, 101, 100, 13, 10]
    ensures EncodeChunk(CONTENT[2]) == [52, 13, 10, 108, 97, 115, 116, 13, 10]
    ensures Encode(CONTENT[3..]) == [48, 13, 10, 13, 10]
  {
  }

  // The sample's own message leaves 27 bytes of its 64-byte buffer unused.
  lemma SampleFits()
    ensures Encode(CONTENT) ==
            [54, 13, 10, 102, 111, 111, 98, 97, 114, 13, 10]            // 6 foobar
            + ([55, 13, 10, 99, 104, 117, 110, 107, 101, 100, 13, 10]   // 7 chunked
            + ([52, 13, 10, 108, 97, 115, 116, 13, 10]                  // 4 last
            + [48, 13, 10, 13, 10]))                                    // 0
    ensures |Encode(CONTENT)| == 37 < 64 && Decode(Encode(CONTENT)) == Message(CONTENT, [])
  {
    hide EncodeChunk, Decode;
    RoundTripExactlyWhen(CONTENT);
    SampleChunks();
    assert CONTENT[1..][1..] == CONTENT[2..] && CONTENT[2..][1..] == CONTENT[3..];
    assert Encode(CONTENT[2..]) == EncodeChunk(CONTENT[2]) + Encode(CONTENT[3..]);
    assert Encode(CONTENT[1..]) == EncodeChunk(CONTENT[1]) + Encode(CONTENT[2..]);
  }
}
