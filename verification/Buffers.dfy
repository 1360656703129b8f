/** Buffers that start out empty and are written over. */
module Buffers {
  import opened Bytes

  function Zeros(count: nat): (r: seq<byte>)
    ensures |r| == count
  {
    seq(count, _ => 0)
  }

  /** How far the next multiple of the alignment is. */
  function Gap(at: nat, alignment: nat): nat
    requires alignment > 0
  {
    (alignment - at % alignment) % alignment
  }

  /** `bytes` written over what stands at `at`. */
  function Put(buffer: seq<byte>, at: nat, bytes: seq<byte>): (r: seq<byte>)
    requires at + |bytes| <= |buffer|
    ensures |r| == |buffer|
  {
    buffer[..at] + bytes + buffer[at + |bytes|..]
  }

  lemma PutOver(before: seq<byte>, middle: seq<byte>, after: seq<byte>, bytes: seq<byte>)
    requires |bytes| == |middle|
    ensures Put(before + middle + after, |before|, bytes) == before + bytes + after
  {
    var buffer := before + middle + after;
    assert buffer[..|before|] == before;
    assert buffer[|before| + |bytes|..] == after;
  }

  lemma Grouping(a: seq<byte>, b: seq<byte>, c: seq<byte>)
    ensures (a + b) + c == a + (b + c)
  {
  }

  method CopyInto(buffer: array<byte>, at: nat, bytes: seq<byte>)
    requires at + |bytes| <= buffer.Length
    modifies buffer
    ensures buffer[..] == Put(old(buffer[..]), at, bytes)
  {
    for i := 0 to |bytes|
      invariant buffer[..at] == old(buffer[..at])
      invariant buffer[at..at + i] == bytes[..i]
      invariant buffer[at + i..] == old(buffer[at + i..])
    {
      buffer[at + i] := bytes[i];
    }
    assert buffer[..] == buffer[..at] + buffer[at..at + |bytes|] + buffer[at + |bytes|..];
  }

  lemma PutTouches(buffer: seq<byte>, at: nat, bytes: seq<byte>)
    requires at + |bytes| <= |buffer|
    ensures forall k :: at <= k < at + |bytes| ==> Put(buffer, at, bytes)[k] == bytes[k - at]
    ensures forall k :: 0 <= k < at || at + |bytes| <= k < |buffer| ==> Put(buffer, at, bytes)[k] == buffer[k]
  {
  }
}
