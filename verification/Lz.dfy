/** The overlapping copies every decoder shares. */
module Lz {
  import opened Wrappers
  import opened Bytes

  const MAX_UNPACKED := 0x4000_0000

  /** `count` more bytes, each repeating the one `offset` places back. */
  function Extend(out: seq<byte>, offset: nat, count: nat): (r: seq<byte>)
    requires 1 <= offset <= |out|
    ensures |r| == |out| + count
    decreases count
  {
    if count == 0 then out else Extend(out + [out[|out| - offset]], offset, count - 1)
  }

  /** The copy leaves what it found, and every byte it adds equals the one `offset` places back. */
  lemma {:induction false} ExtendIsPeriodic(out: seq<byte>, offset: nat, count: nat)
    requires 1 <= offset <= |out|
    ensures var r := Extend(out, offset, count);
            && r[..|out|] == out
            && forall k :: |out| <= k < |r| ==> r[k] == r[k - offset]
    decreases count
  {
    if count > 0 {
      var next := out + [out[|out| - offset]];
      var r := Extend(out, offset, count);
      ExtendIsPeriodic(next, offset, count - 1);
      assert r[..|out|] == r[..|next|][..|out|];
      assert r[|out|] == r[..|next|][|out|];
      assert r[|out| - offset] == r[..|next|][|out| - offset];
    }
  }

  lemma {:induction false} ExtendAddsUp(out: seq<byte>, offset: nat, first: nat, second: nat)
    requires 1 <= offset <= |out|
    ensures Extend(out, offset, first + second) == Extend(Extend(out, offset, first), offset, second)
    decreases first
  {
    if first > 0 {
      ExtendAddsUp(out + [out[|out| - offset]], offset, first - 1, second);
    }
  }

  /** The bounds `copy_match` checks before it copies. */
  function CopyMatch(out: seq<byte>, offset: nat, length: nat, size: nat): Option<seq<byte>> {
    if offset > |out| || offset == 0 || |out| + length > size then None
    else Some(Extend(out, offset, length))
  }

  /** Pushes one byte at a time, so a copy may run into the bytes it has just written. */
  method Push(output: seq<byte>, offset: nat, count: nat) returns (result: seq<byte>)
    requires 1 <= offset <= |output|
    ensures result == Extend(output, offset, count)
  {
    var from := |output| - offset;
    result := output;
    for index := from to from + count
      invariant |result| == |output| + (index - from)
      invariant Extend(result, offset, from + count - index) == Extend(output, offset, count)
    {
      result := result + [result[index]];
    }
  }

  method CopyMatchInto(output: seq<byte>, offset: nat, length: nat, size: nat) returns (result: Option<seq<byte>>)
    ensures result == CopyMatch(output, offset, length, size)
  {
    if offset > |output| || offset == 0 || |output| + length > size {
      return None;
    }
    var copied := Push(output, offset, length);
    return Some(copied);
  }
}
