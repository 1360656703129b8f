/**
  * The tag readers and the decoders on top of them as the source runs them: fields that change with
  * every bit, and loops that push onto the output. Every method is proved against the functions of
  * `Bitstream`, `Codes` and the stream modules.
  */
module TagReaders {
  import opened Wrappers
  import opened Bytes
  import opened Lz
  import opened Bitstream
  import opened Codes
  import Fibonacci
  import Aplib
  import Nrv
  import Ffce

  /** A method did what the function says: it failed with it, or has its value and its reader. */
  predicate Agrees<T(==)>(spec: Option<(Reader, T)>, r: Reader, result: Option<T>) {
    if spec.None? then result.None? else result == Some(spec.value.1) && r == spec.value.0
  }

  /** One of the source's two readers, told apart by `width`. */
  class TagReader {
    const data: seq<byte>
    const width: Width
    var next: nat
    var tag: byte
    var buffer: nat
    var left: nat

    function View(): Reader
      reads this
    {
      if width.Narrow? then ByteTags(next, tag) else WordTags(next, buffer, left)
    }

    constructor (data: seq<byte>, start: nat, width: Width)
      ensures this.data == data && this.width == width && View() == FreshReader(start, width)
    {
      this.data := data;
      this.width := width;
      next, tag, buffer, left := start, SENTINEL, 0, 0;
    }

    method Byte() returns (byte: Option<byte>)
      modifies this
      ensures Agrees(Bitstream.Byte(data, old(View())), View(), byte)
    {
      if next >= |data| {
        return None;
      }
      next := next + 1;
      return Some(data[next - 1]);
    }

    method Bit() returns (bit: Option<bit>)
      modifies this
      ensures Agrees(Bitstream.Bit(data, old(View())), View(), bit)
    {
      if width.Narrow? {
        var first: Bitstream.bit := tag / 128;
        tag := (tag as int) * 2 % 256;
        if tag == 0 {
          if next >= |data| {
            return None;
          }
          var byte: int := data[next];
          next := next + 1;
          first := byte / 128;
          tag := byte * 2 % 256 + 1;
        }
        return Some(first);
      }

      if left == 0 {
        if next + 4 > |data| {
          return None;
        }
        buffer := U32At(data, next);
        next := next + 4;
        left := WORD_BITS;
      }
      left := left - 1;
      return Some(HighBits(buffer, left) % 2);
    }

    method Number(count: nat) returns (value: Option<nat>)
      modifies this
      ensures Agrees(NumberFrom(data, old(View()), count, 0), View(), value)
    {
      hide Bitstream.Bit;
      var number: nat := 0;
      ghost var whole := NumberFrom(data, View(), count, 0);
      for done := 0 to count
        invariant NumberFrom(data, View(), count - done, number) == whole
      {
        var bit := Bit();
        if bit.None? || 2 * number + bit.value >= U32 {
          return None;
        }
        number := 2 * number + bit.value;
      }
      return Some(number);
    }

    method Gamma(stop: bit) returns (value: Option<nat>)
      modifies this
      ensures Agrees(Codes.Gamma(data, old(View()), stop), View(), value)
    {
      hide Bitstream.Bit;
      var number: nat := 1;
      ghost var whole := Codes.Gamma(data, View(), stop);
      while true
        invariant 1 <= number < U32 && GammaFrom(data, View(), number, stop) == whole
        decreases U32 - number
      {
        var bit := Bit();
        if bit.None? || 2 * number + bit.value >= U32 {
          return None;
        }
        number := 2 * number + bit.value;
        var flag := Bit();
        if flag.None? {
          return None;
        }
        if flag.value == stop {
          return Some(number);
        }
      }
    }

    method PairedGamma() returns (value: Option<nat>)
      modifies this
      ensures Agrees(Paired(data, old(View())), View(), value)
    {
      hide Bitstream.Bit;
      var number: nat := 1;
      ghost var whole := Paired(data, View());
      while true
        invariant 1 <= number < U32 && PairedFrom(data, View(), number) == whole
        decreases U32 - number
      {
        ghost var before := number;
        var bit := Bit();
        if bit.None? || 2 * number + bit.value >= U32 {
          return None;
        }
        number := 2 * number + bit.value;
        var flag := Bit();
        if flag.None? {
          return None;
        }
        if flag.value == 1 {
          return Some(number);
        }
        bit := Bit();
        if bit.None? || 2 * (number - 1) + bit.value >= U32 {
          return None;
        }
        number := 2 * (number - 1) + bit.value;
      }
    }

    method FibonacciCode() returns (value: Option<nat>)
      modifies this
      ensures Agrees(Fibonacci.Read(data, old(View())), View(), value)
    {
      hide Bitstream.Bit;
      var previous: nat, current: nat, number: nat := 0, 1, 1;
      ghost var whole := Fibonacci.Read(data, View());
      while true
        invariant current >= 1
        invariant Fibonacci.FibonacciFrom(data, View(), previous, current, number) == whole
        decreases 2 * U32 - previous - current
      {
        if previous + current >= U32 {
          return None;
        }
        previous, current := current, previous + current;
        var digit := Bit();
        if digit.None? {
          return None;
        }
        if digit.value == 0 {
          continue;
        }
        if number + current >= U32 || previous + current >= U32 {
          return None;
        }
        number := number + current;
        previous, current := current, previous + current;
        var end := Bit();
        if end.None? {
          return None;
        }
        if end.value == 1 {
          return Some(number);
        }
      }
    }
  }

  // ----- aPLib

  method AplibFar(r: TagReader, variant: Aplib.Variant, size: nat, h: Aplib.History) returns (next: Option<Aplib.Turn>)
    modifies r
    ensures Agrees(Aplib.DecodeFar(r.data, old(r.View()), variant, size, h), r.View(), next)
  {
    hide Codes.Gamma, Bitstream.Byte, CopyMatch;
    var high := r.Gamma(0);
    if high.None? {
      return None;
    }
    var offset, repeats := h.last, high.value == Aplib.REPEAT_OFFSET && Aplib.MayRepeat(variant, h);
    if !repeats {
      if high.value < Aplib.Bias(variant, h) {
        return None;
      }
      var low := r.Byte();
      if low.None? {
        return None;
      }
      offset := (high.value - Aplib.Bias(variant, h)) * 256 % U32 + low.value;
    }
    var length := r.Gamma(0);
    if length.None? {
      return None;
    }
    var copied := if repeats then length.value else (length.value + Aplib.Extra(offset)) % U32;
    var output := CopyMatchInto(h.output, offset, copied, size);
    return if output.None? then None else Some(Aplib.Going(Aplib.History(output.value, offset, false)));
  }

  method AplibShort(r: TagReader, size: nat, h: Aplib.History) returns (next: Option<Aplib.Turn>)
    modifies r
    ensures Agrees(Aplib.DecodeShort(r.data, old(r.View()), size, h), r.View(), next)
  {
    hide Bitstream.Byte, CopyMatch;
    var byte := r.Byte();
    if byte.None? {
      return None;
    }
    if byte.value / 2 == 0 {
      return Some(Aplib.Finished);
    }
    var output := CopyMatchInto(h.output, byte.value / 2, 2 + byte.value % 2, size);
    return if output.None? then None else Some(Aplib.Going(Aplib.History(output.value, byte.value / 2, false)));
  }

  method AplibTurn(r: TagReader, variant: Aplib.Variant, size: nat, h: Aplib.History) returns (next: Option<Aplib.Turn>)
    modifies r
    ensures Agrees(Aplib.DecodeTurn(r.data, old(r.View()), variant, size, h), r.View(), next)
  {
    hide Bitstream.Bit, Bitstream.Byte, Aplib.DecodeFar, Aplib.DecodeShort, NumberFrom;
    var first := r.Bit();
    if first.None? {
      return None;
    }
    if first.value == 0 {
      var byte := r.Byte();
      return if byte.None? then None else Some(Aplib.Going(Aplib.History(h.output + [byte.value], h.last, true)));
    }
    var second := r.Bit();
    if second.None? {
      return None;
    }
    if second.value == 0 {
      next := AplibFar(r, variant, size, h);
      return;
    }
    var third := r.Bit();
    if third.None? {
      return None;
    }
    if third.value == 0 {
      next := AplibShort(r, size, h);
      return;
    }
    var offset := r.Number(Aplib.NEAR_BITS);
    if offset.None? {
      return None;
    }
    var byte := Aplib.NearByte(h.output, offset.value);
    return if byte.None? then None else Some(Aplib.Going(Aplib.History(h.output + [byte.value], h.last, true)));
  }

  method AplibDecompress(r: TagReader, size: nat, variant: Aplib.Variant) returns (result: Option<seq<byte>>)
    modifies r
    ensures Agrees(Aplib.Decompress(r.data, old(r.View()), size, variant), r.View(), result)
  {
    hide Bitstream.Byte, Aplib.DecodeTurn;
    if size > MAX_UNPACKED {
      return None;
    }
    ghost var start := r.View();
    var first := r.Byte();
    if first.None? {
      return None;
    }
    var h := Aplib.History([first.value], 0, true);
    ghost var whole := Aplib.DecodeTurns(r.data, r.View(), variant, size, h);
    while true
      invariant Aplib.DecodeTurns(r.data, r.View(), variant, size, h) == whole
      decreases Left(r.data, r.View())
    {
      if |h.output| > size {
        return None;
      }
      Aplib.TurnAdvances(r.data, r.View(), variant, size, h);
      var next := AplibTurn(r, variant, size, h);
      if next.None? {
        return None;
      }
      if next.value.Finished? {
        return Some(h.output);
      }
      h := next.value.history;
    }
  }

  // ----- NRV

  method NrvOffset(r: TagReader, variant: Nrv.Variant, last: nat) returns (offset: Option<Nrv.Offset>)
    modifies r
    ensures Agrees(Nrv.DecodeOffset(r.data, old(r.View()), variant, last), r.View(), offset)
  {
    hide Codes.Gamma, Paired, Bitstream.Bit, Bitstream.Byte;
    var high;
    if variant.B? {
      high := r.Gamma(1);
    } else {
      high := r.PairedGamma();
    }
    if high.None? {
      return None;
    }
    if high.value == Nrv.REPEAT_OFFSET {
      if variant.B? {
        return Some(Nrv.Back(last, None));
      }
      var bit := r.Bit();
      return if bit.None? then None else Some(Nrv.Back(last, Some(bit.value)));
    }
    if high.value < Nrv.OFFSET_BIAS || (high.value - Nrv.OFFSET_BIAS) * 256 >= U32 {
      return None;
    }
    var low := r.Byte();
    if low.None? || (high.value - Nrv.OFFSET_BIAS) * 256 + low.value >= U32 {
      return None;
    }
    var value := (high.value - Nrv.OFFSET_BIAS) * 256 + low.value;
    if value == Nrv.END_MARKER {
      return Some(Nrv.EndMark);
    }
    if variant.B? {
      return Some(Nrv.Back(value + 1, None));
    }
    return Some(Nrv.Back(value / 2 + 1, Some(1 - value % 2)));
  }

  method NrvLength(r: TagReader, variant: Nrv.Variant, lengthBit: Option<bit>) returns (length: Option<nat>)
    modifies r
    ensures Agrees(Nrv.DecodeLength(r.data, old(r.View()), variant, lengthBit), r.View(), length)
  {
    hide Codes.Gamma, Bitstream.Bit;
    if variant.E? {
      if lengthBit == Some(1) {
        var bit := r.Bit();
        return if bit.None? then None else Some((bit.value as int) + 1);
      }
      var short := r.Bit();
      if short.None? {
        return None;
      }
      if short.value == 1 {
        var bit := r.Bit();
        return if bit.None? then None else Some((bit.value as int) + 3);
      }
      var rest := r.Gamma(1);
      return if rest.None? then None else Some(rest.value + 3);
    }

    var first := lengthBit;
    if first.None? {
      first := r.Bit();
      if first.None? {
        return None;
      }
    }
    var second := r.Bit();
    if second.None? {
      return None;
    }
    if (first.value as int) * 2 + second.value != 0 {
      return Some((first.value as int) * 2 + second.value);
    }
    var rest := r.Gamma(1);
    return if rest.None? then None else Some(rest.value + 2);
  }

  method NrvTurn(r: TagReader, variant: Nrv.Variant, size: nat, h: Nrv.History) returns (next: Option<Nrv.Turn>)
    modifies r
    ensures Agrees(Nrv.DecodeTurn(r.data, old(r.View()), variant, size, h), r.View(), next)
  {
    hide Bitstream.Bit, Bitstream.Byte, Nrv.DecodeOffset, Nrv.DecodeLength, CopyMatch;
    var literal := r.Bit();
    if literal.None? {
      return None;
    }
    if literal.value == 1 {
      if |h.output| >= size {
        return None;
      }
      var byte := r.Byte();
      return if byte.None? then None else Some(Nrv.Going(h.(output := h.output + [byte.value])));
    }

    var offset := NrvOffset(r, variant, h.last);
    if offset.None? {
      return None;
    }
    if offset.value.EndMark? {
      return Some(Nrv.Finished);
    }
    var length := NrvLength(r, variant, offset.value.lengthBit);
    if length.None? {
      return None;
    }
    var back := offset.value.offset;
    var output := CopyMatchInto(h.output, back, (length.value + Nrv.Far(variant, back) + 1) % U32, size);
    return if output.None? then None else Some(Nrv.Going(Nrv.History(output.value, back)));
  }

  method NrvDecompress(source: seq<byte>, size: nat, variant: Nrv.Variant) returns (result: Option<seq<byte>>)
    ensures match Nrv.Decompress(source, size, variant)
            case None => result.None?
            case Some(spec) => result == Some(spec.1)
  {
    hide Nrv.DecodeTurn;
    if size > MAX_UNPACKED {
      return None;
    }
    var r := new TagReader(source, 0, Wide);
    var h := Nrv.START;
    ghost var whole := Nrv.DecodeTurns(source, r.View(), variant, size, h);
    while true
      invariant r.data == source && fresh(r)
      invariant Nrv.DecodeTurns(source, r.View(), variant, size, h) == whole
      decreases Left(source, r.View())
    {
      Nrv.TurnAdvances(source, r.View(), variant, size, h);
      var next := NrvTurn(r, variant, size, h);
      if next.None? {
        return None;
      }
      if next.value.Finished? {
        return if |h.output| == size then Some(h.output) else None;
      }
      h := next.value.history;
    }
  }

  // ----- FFCE

  method FfceMatch(r: TagReader, size: nat, h: Ffce.History) returns (next: Option<Ffce.Turn>)
    modifies r
    ensures Agrees(Ffce.DecodeMatch(r.data, old(r.View()), size, h), r.View(), next)
  {
    hide Fibonacci.Read, Codes.Gamma, NumberFrom, CopyMatch;
    var code := r.FibonacciCode();
    if code.None? {
      return None;
    }
    var offset, repeats := h.last, code.value < h.floor;
    if !repeats {
      var high := code.value - h.floor;
      if high * 64 >= U32 {
        return None;
      }
      var low := r.Number(Ffce.LOW_OFFSET_BITS);
      if low.None? || high * 64 + low.value + 1 >= U32 {
        return None;
      }
      offset := high * 64 + low.value + 1;
    }
    var length := r.Gamma(0);
    if length.None? {
      return None;
    }
    var copied := if repeats then length.value else (length.value + Ffce.Extra(offset)) % U32;
    var output := CopyMatchInto(h.output, offset, copied, size);
    return if output.None? then None else Some(Ffce.Going(Ffce.History(output.value, offset, Ffce.FLOOR_AFTER_MATCH)));
  }

  method FfceTurn(r: TagReader, size: nat, h: Ffce.History) returns (next: Option<Ffce.Turn>)
    modifies r
    ensures Agrees(Ffce.DecodeTurn(r.data, old(r.View()), size, h), r.View(), next)
  {
    hide Bitstream.Bit, Bitstream.Byte, Ffce.DecodeMatch;
    var flag := r.Bit();
    if flag.None? {
      return None;
    }
    if flag.value == 0 {
      if |h.output| >= size {
        return None;
      }
      var byte := r.Byte();
      return if byte.None? then None
             else Some(Ffce.Going(Ffce.History(h.output + [byte.value], h.last, Ffce.FLOOR_AFTER_LITERAL)));
    }
    if |h.output| == size {
      return Some(Ffce.Finished);
    }
    next := FfceMatch(r, size, h);
  }

  method FfceDecompress(source: seq<byte>, size: nat) returns (result: Option<seq<byte>>)
    ensures result == Ffce.Decompress(source, size)
  {
    hide Bitstream.Byte, Ffce.DecodeTurn;
    if |source| < Ffce.HEADER || U32At(source, 0) != size {
      return None;
    }
    if size == 0 {
      return Some([]);
    }
    if size > MAX_UNPACKED {
      return None;
    }
    var r := new TagReader(source, Ffce.HEADER, Wide);
    var first := r.Byte();
    if first.None? {
      return None;
    }
    var h := Ffce.Start(first.value);
    ghost var whole := Ffce.DecodeTurns(source, r.View(), size, h);
    while true
      invariant r.data == source && fresh(r)
      invariant Ffce.DecodeTurns(source, r.View(), size, h) == whole
      decreases Left(source, r.View())
    {
      Ffce.TurnAdvances(source, r.View(), size, h);
      var next := FfceTurn(r, size, h);
      if next.None? {
        return None;
      }
      if next.value.Finished? {
        return Some(h.output);
      }
      h := next.value.history;
    }
  }
}
