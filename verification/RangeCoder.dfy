/**
  * The adaptive binary range coder behind LZMA.
  *
  * The decoder follows the source: a 32-bit range and code that take in one byte whenever the
  * range falls below 2^24. The encoder exists only as a specification. It keeps an exact integer
  * `low`, scaled by 256 at every shift, so it needs no carry logic.
  */
module RangeCoder {
  import opened Wrappers
  import opened Bytes

  const PROBABILITY_ONE := 2048
  const PROBABILITY_START := 1024
  const PROBABILITY_LEAST := 31
  const PROBABILITY_MOST := 2017
  const MOVE := 32
  const TOP := 0x100_0000
  const RANGE_FLOOR := 31 * 0x2000
  const READ_SLACK := 8

  /** Adaptation can neither reach certainty nor leave these bounds. */
  type Probability = p: nat | PROBABILITY_LEAST <= p <= PROBABILITY_MOST witness PROBABILITY_START

  datatype Coder = Coder(range: nat, code: nat, next: nat)

  /** What the decoder keeps between any two bits. */
  predicate Steady(c: Coder) {
    RANGE_FLOOR <= c.range < U32 && c.code < c.range
  }

  function Learn(p: Probability, bit: nat): Probability {
    if bit == 0 then p + (PROBABILITY_ONE - p) / MOVE else p - p / MOVE
  }

  function Bound(range: nat, p: Probability): nat {
    range / PROBABILITY_ONE * p
  }

  function Start(data: seq<byte>): Option<Coder> {
    if |data| < 5 || data[0] != 0 then None
    else Some(Coder(U32 - 1, Prefix(data, 4), 5))
  }

  function Normalize(data: seq<byte>, c: Coder): Option<Coder> {
    if c.range < TOP then
      if c.next > |data| + READ_SLACK then None
      else Some(Coder(c.range * 256, c.code * 256 % U32 + Padded(data, c.next), c.next + 1))
    else Some(c)
  }

  function DecodeBit(data: seq<byte>, coder: Coder, p: Probability): Option<(Coder, nat)> {
    var c :- Normalize(data, coder);
    var bound := Bound(c.range, p);
    BoundBelowRange(c.range, p);
    if c.code < bound then Some((c.(range := bound), 0))
    else Some((Coder(c.range - bound, c.code - bound, c.next), 1))
  }

  function DecodeEvenBit(data: seq<byte>, coder: Coder): Option<(Coder, nat)> {
    var c :- Normalize(data, coder);
    var half := c.range / 2;
    if c.code >= half then Some((Coder(half, c.code - half, c.next), 1))
    else Some((c.(range := half), 0))
  }

  /** `count` unmodelled bits, the first one highest, behind those already in `value`. */
  function DecodeDirect(data: seq<byte>, c: Coder, count: nat, value: nat): Option<(Coder, nat)>
    decreases count
  {
    if count == 0 then Some((c, value))
    else
      var (c', bit) :- DecodeEvenBit(data, c);
      DecodeDirect(data, c', count - 1, 2 * value + bit)
  }

  // ----- the invariant of any run

  lemma BoundBelowRange(range: nat, p: Probability)
    ensures Bound(range, p) + range / PROBABILITY_ONE * PROBABILITY_LEAST <= range
    ensures Bound(range, p) >= range / PROBABILITY_ONE * PROBABILITY_LEAST
  {
    var unit := range / PROBABILITY_ONE;
    assert unit * p <= unit * PROBABILITY_MOST;
    assert unit * p >= unit * PROBABILITY_LEAST;
  }

  /** A zero raises the probability by a 32nd of what is missing to 2048, a one lowers it by a 32nd; both round down. */
  lemma LearningMoves(p: Probability, bit: nat)
    ensures var learnt := Learn(p, bit);
      if bit == 0 then p <= learnt && 32 * (learnt - p) <= 2048 - p < 32 * (learnt - p) + 32
      else learnt <= p && 32 * (p - learnt) <= p < 32 * (p - learnt) + 32
  {
  }

  /** The bound is as many whole 2048ths of the range as the probability counts. */
  lemma BoundIsShare(range: nat, p: Probability, unit: nat)
    requires 2048 * unit <= range < 2048 * unit + 2048
    ensures Bound(range, p) == unit * p
  {
  }

  /** The code starts below the range exactly when its four bytes are not all ones. */
  lemma StartIsSteady(data: seq<byte>)
    requires Start(data).Some?
    ensures Steady(Start(data).value) <==> data[1..5] != [255, 255, 255, 255]
  {
    PrefixOfFour(data);
    if data[1..5] == [255, 255, 255, 255] {
      assert data[1] == data[1..5][0] && data[2] == data[1..5][1];
      assert data[3] == data[1..5][2] && data[4] == data[1..5][3];
    } else {
      assert !(data[1] == 255 && data[2] == 255 && data[3] == 255 && data[4] == 255);
    }
  }

  lemma PrefixOfFour(data: seq<byte>)
    requires |data| >= 5
    ensures Prefix(data, 4) == (((data[1] as int) * 256 + data[2]) * 256 + data[3]) * 256 + data[4]
  {
    assert Prefix(data, 1) == data[1];
    assert Prefix(data, 2) == Prefix(data, 1) * 256 + data[2];
    assert Prefix(data, 3) == Prefix(data, 2) * 256 + data[3];
  }

  /** One byte is always enough, and none of the code's bits are lost when it is shifted in. */
  lemma NormalizeRestores(data: seq<byte>, c: Coder)
    requires Steady(c) && Normalize(data, c).Some?
    ensures var n := Normalize(data, c).value;
            Steady(n) && n.range >= TOP && (n != c ==> n.code == c.code * 256 + Padded(data, c.next))
  {
  }

  lemma BitKeepsSteady(data: seq<byte>, c: Coder, p: Probability)
    requires Steady(c) && DecodeBit(data, c, p).Some?
    ensures Steady(DecodeBit(data, c, p).value.0)
    ensures var n := Normalize(data, c).value; 0 < Bound(n.range, p) < n.range
  {
    NormalizeRestores(data, c);
    BoundBelowRange(Normalize(data, c).value.range, p);
  }

  /** The code is the highest below an odd range; halving the range then forgets the odd one. */
  predicate OnOddTop(c: Coder) {
    c.range % 2 == 1 && c.code == c.range - 1
  }

  /** Unlike a modelled bit, an even one keeps the code below the range only away from an odd top. */
  lemma EvenBitKeepsSteadyIff(data: seq<byte>, c: Coder)
    requires Steady(c) && DecodeEvenBit(data, c).Some?
    ensures Steady(DecodeEvenBit(data, c).value.0) <==> !OnOddTop(Normalize(data, c).value)
  {
    NormalizeRestores(data, c);
  }

  /** What holds on every run over every stream, even a damaged one: both registers fit 32 bits
    * and one byte is always enough to bring the range back. */
  predicate Bounded(c: Coder) {
    RANGE_FLOOR <= c.range < U32 && c.code < U32
  }

  lemma StepKeepsBounded(data: seq<byte>, c: Coder, p: Probability)
    requires Bounded(c) && Normalize(data, c).Some?
    ensures TOP <= Normalize(data, c).value.range < U32
    ensures DecodeBit(data, c, p).Some? && Bounded(DecodeBit(data, c, p).value.0)
    ensures DecodeEvenBit(data, c).Some? && Bounded(DecodeEvenBit(data, c).value.0)
  {
    BoundBelowRange(Normalize(data, c).value.range, p);
  }

  datatype Step = Modelled(p: Probability) | Even

  function DecodeStep(data: seq<byte>, c: Coder, step: Step): Option<(Coder, nat)> {
    match step
    case Modelled(p) => DecodeBit(data, c, p)
    case Even => DecodeEvenBit(data, c)
  }

  /** Whatever is decoded, in whatever mix. */
  function DecodeSteps(data: seq<byte>, c: Coder, steps: seq<Step>): Option<(Coder, seq<nat>)>
    decreases |steps|
  {
    if steps == [] then Some((c, []))
    else
      var (c, bit) :- DecodeStep(data, c, steps[0]);
      var (c, bits) :- DecodeSteps(data, c, steps[1..]);
      Some((c, [bit] + bits))
  }

  /** The run came this far, and the byte that it needs next is past what may be read. */
  predicate Starved(data: seq<byte>, run: Option<(Coder, seq<nat>)>) {
    run.Some? && run.value.0.range < 0x100_0000 && run.value.0.next > |data| + 8
  }

  lemma NothingToRead(data: seq<byte>, c: Coder)
    ensures Normalize(data, c).None? <==> c.range < 0x100_0000 && c.next > |data| + 8
  {
  }

  /** A run keeps the bounds, and ends early only where the data does. */
  lemma {:induction false} RunsKeepBounded(data: seq<byte>, c: Coder, steps: seq<Step>)
    requires Bounded(c)
    ensures match DecodeSteps(data, c, steps)
      case Some(run) => Bounded(run.0) && |run.1| == |steps| && forall bit :: bit in run.1 ==> bit < 2
      case None => exists k: nat :: k < |steps| && Starved(data, DecodeSteps(data, c, steps[..k]))
    decreases |steps|
  {
    hide DecodeBit, DecodeEvenBit, Normalize;
    if steps != [] {
      StepIsRead(data, c, steps[0]);
      if Normalize(data, c).None? {
        NothingToRead(data, c);
        assert steps[..0] == [] && DecodeSteps(data, c, []) == Some((c, []));
      } else {
        var next := DecodeStep(data, c, steps[0]).value;
        RunsKeepBounded(data, next.0, steps[1..]);
        if DecodeSteps(data, next.0, steps[1..]).None? {
          var k: nat :| k < |steps[1..]| && Starved(data, DecodeSteps(data, next.0, steps[1..][..k]));
          assert steps[..k + 1][0] == steps[0] && steps[..k + 1][1..] == steps[1..][..k];
          assert DecodeSteps(data, c, steps[..k + 1]).value.0 == DecodeSteps(data, next.0, steps[1..][..k]).value.0;
        }
      }
    }
  }

  lemma StepIsRead(data: seq<byte>, c: Coder, step: Step)
    requires Bounded(c)
    ensures DecodeStep(data, c, step).Some? <==> Normalize(data, c).Some?
    ensures DecodeStep(data, c, step).Some? ==>
              Bounded(DecodeStep(data, c, step).value.0) && DecodeStep(data, c, step).value.1 < 2
  {
    if Normalize(data, c).Some? {
      StepKeepsBounded(data, c, if step.Modelled? then step.p else PROBABILITY_START);
    }
  }

  // ----- the encoder, as the specification of the stream

  /** [low, low + range) among the numbers of 4 + shifts bytes. */
  datatype Interval = Interval(low: nat, range: nat, shifts: nat) {
    predicate Sound() {
      RANGE_FLOOR <= range < U32 && low + range < U32 * Pow256(shifts)
    }
  }

  type Span = e: Interval | e.Sound() witness WHOLE

  const WHOLE := Interval(0, U32 - 1, 0)

  function Pow256(n: nat): (r: nat)
    ensures r >= 1
  {
    if n == 0 then 1 else 256 * Pow256(n - 1)
  }

  function Widen(e: Span): Span {
    if e.range < TOP then Interval(e.low * 256, e.range * 256, e.shifts + 1) else e
  }

  function EncodeBit(span: Span, p: Probability, bit: nat): Span {
    var e := Widen(span);
    BoundBelowRange(e.range, p);
    if bit == 0 then e.(range := Bound(e.range, p))
    else Interval(e.low + Bound(e.range, p), e.range - Bound(e.range, p), e.shifts)
  }

  function EncodeEvenBit(span: Span, bit: nat): Span {
    var e := Widen(span);
    if bit == 0 then e.(range := e.range / 2) else Interval(e.low + e.range / 2, e.range / 2, e.shifts)
  }

  function EncodeDirect(e: Span, count: nat, value: nat): Span
    decreases count
  {
    if count == 0 then e
    else EncodeDirect(EncodeEvenBit(e, TopBit(value, count - 1)), count - 1, BelowTop(value, count - 1))
  }

  /** The number the first `count` code bytes spell; they follow the leading zero byte. */
  function Prefix(data: seq<byte>, count: nat): nat {
    if count == 0 then 0 else Prefix(data, count - 1) * 256 + Padded(data, count)
  }

  /** The data picks a number of the interval, and the decoder may read that far. */
  predicate Picks(data: seq<byte>, e: Interval) {
    && |data| >= 5 && data[0] == 0
    && e.shifts <= |data| + READ_SLACK - 4
    && e.low <= Prefix(data, 4 + e.shifts) < e.low + e.range
  }

  /** The decoder's state once the encoder had reached `e`. */
  function CoderAt(data: seq<byte>, e: Interval): Coder
    requires Picks(data, e)
  {
    Coder(e.range, Prefix(data, 4 + e.shifts) - e.low, 5 + e.shifts)
  }

  lemma StartRoundTrip(data: seq<byte>)
    requires Picks(data, WHOLE)
    ensures Start(data) == Some(CoderAt(data, WHOLE))
  {
  }

  lemma NormalizeRoundTrip(data: seq<byte>, e: Span)
    requires Picks(data, Widen(e))
    ensures Widen(e).range >= TOP
    ensures Picks(data, e) && Normalize(data, CoderAt(data, e)) == Some(CoderAt(data, Widen(e)))
  {
    if e.range < TOP {
      assert Prefix(data, 5 + e.shifts) == Prefix(data, 4 + e.shifts) * 256 + Padded(data, 5 + e.shifts);
    }
  }

  /** A number picked from the narrowed interval decodes to the bit that narrowed it. */
  lemma BitRoundTrip(data: seq<byte>, e: Span, p: Probability, bit: nat)
    requires bit < 2 && Picks(data, EncodeBit(e, p, bit))
    ensures Picks(data, e)
    ensures DecodeBit(data, CoderAt(data, e), p) == Some((CoderAt(data, EncodeBit(e, p, bit)), bit))
  {
    BoundBelowRange(Widen(e).range, p);
    NormalizeRoundTrip(data, e);
  }

  lemma EvenBitRoundTrip(data: seq<byte>, e: Span, bit: nat)
    requires bit < 2 && Picks(data, EncodeEvenBit(e, bit))
    ensures Picks(data, e)
    ensures DecodeEvenBit(data, CoderAt(data, e)) == Some((CoderAt(data, EncodeEvenBit(e, bit)), bit))
  {
    NormalizeRoundTrip(data, e);
  }

  lemma {:induction false} DirectRoundTrip(data: seq<byte>, e: Span, count: nat, value: nat, before: nat)
    requires value < Pow2(count) && Picks(data, EncodeDirect(e, count, value))
    ensures Picks(data, e)
    ensures DecodeDirect(data, CoderAt(data, e), count, before)
         == Some((CoderAt(data, EncodeDirect(e, count, value)), Shift(before, count) + value))
    decreases count
  {
    hide DecodeEvenBit, EncodeEvenBit, CoderAt, Picks, TopBit, BelowTop;
    if count > 0 {
      var bit, rest := TopBit(value, count - 1), BelowTop(value, count - 1);
      DescendsOneBit(before, value, count);
      DirectRoundTrip(data, EncodeEvenBit(e, bit), count - 1, rest, 2 * before + bit);
      EvenBitRoundTrip(data, e, bit);
    }
  }

  // ----- every interval has a number, and so a stream

  function BigEndian(value: nat, count: nat): (r: seq<byte>)
    ensures |r| == count
  {
    if count == 0 then [] else BigEndian(value / 256, count - 1) + [value % 256]
  }

  /** The stream of the interval's lowest number. */
  function Flush(e: Span): seq<byte> {
    [0] + BigEndian(e.low, 4 + e.shifts)
  }

  lemma {:induction false} PrefixOfBigEndian(data: seq<byte>, value: nat, count: nat)
    requires |data| > count && data[1..count + 1] == BigEndian(value, count)
    requires value < Pow256(count)
    ensures Prefix(data, count) == value
  {
    if count > 0 {
      assert data[1..count] == data[1..count + 1][..count - 1];
      DivBound(value, 256, Pow256(count - 1));
      PrefixOfBigEndian(data, value / 256, count - 1);
      assert data[count] == data[1..count + 1][count - 1];
    }
  }

  lemma {:induction false} FourBytesMore(shifts: nat)
    ensures Pow256(4 + shifts) == U32 * Pow256(shifts)
  {
    assert Pow256(4 + shifts) == 256 * Pow256(3 + shifts);
    assert Pow256(3 + shifts) == 256 * Pow256(2 + shifts);
    assert Pow256(2 + shifts) == 256 * Pow256(1 + shifts);
  }

  lemma FlushPicks(e: Span)
    ensures Picks(Flush(e), e)
  {
    NumberIsPicked(e, e.low);
  }

  lemma NumberIsPicked(e: Span, number: nat)
    requires e.low <= number < e.low + e.range
    ensures var data := [0] + BigEndian(number, 4 + e.shifts);
            Picks(data, e) && Prefix(data, 4 + e.shifts) == number
  {
    var data := [0] + BigEndian(number, 4 + e.shifts);
    assert data[1..5 + e.shifts] == BigEndian(number, 4 + e.shifts);
    FourBytesMore(e.shifts);
    PrefixOfBigEndian(data, number, 4 + e.shifts);
  }

  /** Wherever the encoder's range is odd, some stream that leads there loses the invariant at an even bit. */
  lemma OddRangesLoseSteady(e: Span) returns (data: seq<byte>)
    requires Widen(e).range % 2 == 1
    ensures Picks(data, e) && Steady(CoderAt(data, e))
    ensures DecodeEvenBit(data, CoderAt(data, e)).Some? && !Steady(DecodeEvenBit(data, CoderAt(data, e)).value.0)
  {
    var w := Widen(e);
    data := [0] + BigEndian(w.low + w.range - 1, 4 + w.shifts);
    NumberIsPicked(w, w.low + w.range - 1);
    NormalizeRoundTrip(data, e);
  }
}
