/** A byte ring over a fixed array with claim/finish access: a claim is one
    contiguous stretch, a finish may take less than was claimed. */
module RingBuffer {
  import opened Bytes

  function Wrap(i: nat, cap: nat): nat {
    if i < cap then i else i - cap
  }

  // The occupied bytes, oldest first.
  function Window(data: seq<byte>, head: nat, count: nat): (w: seq<byte>)
    requires head < |data| && count <= |data|
    ensures |w| == count && forall k | 0 <= k < count :: w[k] == data[Wrap(head + k, |data|)]
  {
    if head + count <= |data| then data[head..head + count]
    else data[head..] + data[..head + count - |data|]
  }

  function Min(a: nat, b: nat): nat {
    if a < b then a else b
  }

  // Free bytes from the tail to the end of the array, or to the head.
  function PutRoom(cap: nat, head: nat, count: nat): nat
    requires head < cap && count <= cap
  {
    Min(cap - count, cap - Wrap(head + count, cap))
  }

  // Occupied bytes from the head to the end of the array, or to the tail.
  function GetRoom(cap: nat, head: nat, count: nat): nat
    requires head < cap && count <= cap
  {
    Min(count, cap - head)
  }

  // A put claim is empty exactly on a full ring, a get claim exactly on an empty one.
  lemma ClaimsAreProductive(cap: nat, head: nat, count: nat)
    requires head < cap && count <= cap
    ensures PutRoom(cap, head, count) == 0 <==> count == cap
    ensures GetRoom(cap, head, count) == 0 <==> count == 0
    ensures PutRoom(cap, head, count) <= cap - count && GetRoom(cap, head, count) <= count
  {
  }

  // A claim ends at the end of the array, and a second one reaches the rest.
  lemma TwoClaimsReachAll(cap: nat, head: nat, count: nat)
    requires head < cap && count <= cap
    ensures var n := PutRoom(cap, head, count); n + PutRoom(cap, head, count + n) == cap - count
    ensures var n := GetRoom(cap, head, count); n + GetRoom(cap, Wrap(head + n, cap), count - n) == count
  {
  }

  // Writing into the claimed stretch does not touch the contents.
  lemma WindowKept(data: seq<byte>, data': seq<byte>, head: nat, count: nat, n: nat)
    requires |data'| == |data| && head < |data| && count <= |data| && n <= PutRoom(|data|, head, count)
    requires var tail := Wrap(head + count, |data|);
             forall i | 0 <= i < |data| && !(tail <= i < tail + n) :: data'[i] == data[i]
    ensures Window(data', head, count) == Window(data, head, count)
  {
    hide Window;
  }

  // Writing into the claimed stretch, in front or behind the wrap, appends.
  lemma WindowAfterPut(data: seq<byte>, data': seq<byte>, head: nat, count: nat, n: nat)
    requires |data'| == |data| && head < |data| && count <= |data| && n <= PutRoom(|data|, head, count)
    requires var tail := Wrap(head + count, |data|);
             forall i | 0 <= i < |data| && !(tail <= i < tail + n) :: data'[i] == data[i]
    ensures var tail := Wrap(head + count, |data|);
            Window(data', head, count + n) == Window(data, head, count) + data'[tail..tail + n]
  {
    hide Window;
    var tail := Wrap(head + count, |data|);
    var before, after := Window(data, head, count), Window(data', head, count + n);
    forall k | 0 <= k < count + n ensures after[k] == (before + data'[tail..tail + n])[k] {
    }
  }

  // Giving up the first bytes drops them, across the wrap.
  lemma WindowAfterGet(data: seq<byte>, head: nat, count: nat, n: nat)
    requires head < |data| && count <= |data| && n <= GetRoom(|data|, head, count)
    ensures Window(data, Wrap(head + n, |data|), count - n) == Window(data, head, count)[n..]
    ensures data[head..head + n] == Window(data, head, count)[..n]
  {
    hide Window;
    var before, after := Window(data, head, count), Window(data, Wrap(head + n, |data|), count - n);
    forall k | 0 <= k < count - n ensures after[k] == before[n..][k] {
    }
  }

  class RingBuf {
    const buffer: array<byte>
    var head: nat
    var count: nat

    ghost predicate Valid()
      reads this
    {
      head < buffer.Length && count <= buffer.Length
    }

    ghost function Contents(): (c: seq<byte>)
      requires Valid()
      reads this, buffer
      ensures |c| == count
    {
      Window(buffer[..], head, count)
    }

    constructor (cap: nat)
      requires 0 < cap
      ensures Valid() && fresh(buffer) && buffer.Length == cap && Contents() == []
    {
      buffer := new byte[cap];
      head, count := 0, 0;
    }

    method PutClaim(size: nat) returns (off: nat, len: nat)
      requires Valid()
      ensures off == Wrap(head + count, buffer.Length)
      ensures len == Min(size, PutRoom(buffer.Length, head, count)) && off + len <= buffer.Length
    {
      off := if head + count < buffer.Length then head + count else head + count - buffer.Length;
      var free := buffer.Length - count;
      var toEnd := buffer.Length - off;
      len := if free < toEnd then free else toEnd;
      len := if size < len then size else len;
    }

    // Filling claimed space leaves the contents as they are until the claim is finished.
    twostate lemma ContentsKept(n: nat)
      requires Valid() && head == old(head) && count == old(count)
      requires n <= PutRoom(buffer.Length, head, count)
      requires var tail := Wrap(head + count, buffer.Length);
               forall i | 0 <= i < buffer.Length && !(tail <= i < tail + n) :: buffer[i] == old(buffer[i])
      ensures old(Valid()) && Contents() == old(Contents())
    {
      WindowKept(old(buffer[..]), buffer[..], head, count, n);
    }

    // The n bytes written at the tail become part of the contents.
    method PutFinish(n: nat)
      requires Valid() && n <= PutRoom(buffer.Length, head, count)
      modifies this`count
      ensures Valid() && count == old(count) + n
      ensures var tail := Wrap(head + old(count), buffer.Length);
              Contents() == old(Contents()) + buffer[tail..tail + n]
    {
      WindowAfterPut(buffer[..], buffer[..], head, count, n);
      assert buffer[..][Wrap(head + count, buffer.Length)..Wrap(head + count, buffer.Length) + n]
          == buffer[Wrap(head + count, buffer.Length)..Wrap(head + count, buffer.Length) + n];
      count := count + n;
    }

    method GetClaim(size: nat) returns (off: nat, len: nat)
      requires Valid()
      ensures off == head
      ensures len == Min(size, GetRoom(buffer.Length, head, count)) && off + len <= buffer.Length
      ensures buffer[off..off + len] == Contents()[..len]
    {
      off := head;
      var toEnd := buffer.Length - head;
      len := if count < toEnd then count else toEnd;
      len := if size < len then size else len;
      WindowAfterGet(buffer[..], head, count, len);
      assert buffer[..][off..off + len] == buffer[off..off + len];
    }

    method GetFinish(n: nat)
      requires Valid() && n <= GetRoom(buffer.Length, head, count)
      modifies this`head, this`count
      ensures Valid() && count == old(count) - n && Contents() == old(Contents())[n..]
      ensures head == Wrap(old(head) + n, buffer.Length)
    {
      WindowAfterGet(buffer[..], head, count, n);
      head := if head + n < buffer.Length then head + n else head + n - buffer.Length;
      count := count - n;
    }
  }
}
