/** The sampler of the XPT2046 driver: a coordinate is fetched as three 12-bit
    samples inside one chip-select window, the three samples go through an
    outlier-rejection filter, and the touch and point queries are built on top.

    The controller's replies to the transfers of a fetch are an input sequence
    (`replies[t]` answers transfer `t`); the busy flag, the touch-interrupt pin
    level and the configuration are parameters. */
module Sampler {
  import opened Bits
  import opened Transport

  /** What happens on the bus during a fetch, in order. */
  datatype BusEvent =
    | Acquire                           // dataTransferBegin(): the chip is selected
    | SpiOpen                           // SPIx.begin(), hardware transport only
    | Transfer(sent: Word, reply: Byte) // one IO() exchange
    | SpiClose                          // SPIx.end(), hardware transport only
    | Release                           // dataTransferEnd(): the chip is released

  /** The argument `IO()` sends when it is called without one. */
  const Dummy: Word := 0

  /** `int16_t`, the type of the point outputs. */
  type Int16 = x: int | -0x8000 <= x < 0x8000

  /** The build-time configuration of the driver. */
  datatype Config = Config(
    hardwareSpi: bool,  // TOUCH_BUTTONS_HW_SPI
    hasIntPin: bool,    // PIN_EXISTS(TOUCH_INT)
    xCommand: Word,     // XPT2046_X
    yCommand: Word,     // XPT2046_Y
    z1Command: Word,    // XPT2046_Z1
    z1Threshold: nat)   // XPT2046_Z1_THRESHOLD

  // ---------------------------------------------------------------------------
  // Distance and sample assembly.

  /** `delta`: the distance between two readings. */
  function Delta(a: Word, b: Word): (d: Word)
    ensures a <= b ==> a + d == b
    ensures b <= a ==> b + d == a
  {
    if a > b then a - b else b - a
  }

  lemma DeltaSymmetricZero(a: Word, b: Word)
    ensures Delta(a, b) == Delta(b, a)
    ensures Delta(a, b) == 0 <==> a == b
  {
  }

  /** `(IO() << 4) | (IO() >> 4)` stored in a `uint16_t`: the first reply is
      taken as the high part. */
  function Assemble(hi: Byte, lo: Byte): (s: Word)
    ensures s == hi as int * 16 + lo / 16
    ensures s < 0x1000
  {
    assert Pow2(4) == 16;
    ShrIsDiv(lo, 4);
    ShlIsMul(hi, 4);
    OrDisjointLow(hi, Shr(lo, 4), 4);
    Or(Shl(hi, 4), Shr(lo, 4)) % 0x1_0000
  }

  /** The controller streams a 12-bit conversion left-justified over two replies:
      bits 11..4 in the first, bits 3..0 in the top nibble of the second. */
  function HighReply(s: nat): Byte
    requires s < 0x1000
  {
    s / 16
  }

  function LowReply(s: nat): Byte
    requires s < 0x1000
  {
    (s % 16) * 16
  }

  /** Assembling the two replies that carry a conversion gives the conversion back. */
  lemma AssembleRoundTrip(s: nat)
    requires s < 0x1000
    ensures Assemble(HighReply(s), LowReply(s)) == s
  {
  }

  /** Conversely, assembly keeps all of the first reply and the top nibble of the
      second; the low nibble of the second reply is dropped. */
  lemma AssembleSplits(hi: Byte, lo: Byte)
    ensures HighReply(Assemble(hi, lo)) == hi
    ensures LowReply(Assemble(hi, lo)) == lo - lo % 16
  {
  }

  // ---------------------------------------------------------------------------
  // The three-sample filter.

  function Min(a: int, b: int): int { if a <= b then a else b }
  function Max(a: int, b: int): int { if a >= b then a else b }

  /** `r` is the truncated mean of a pair of samples whose distance is least
      among the three pairs. */
  predicate AveragesClosestPair(a: Word, b: Word, c: Word, r: int)
  {
    var m := Min(Delta(a, b), Min(Delta(a, c), Delta(b, c)));
    || (Delta(a, b) == m && r == (a + b) / 2)
    || (Delta(a, c) == m && r == (a + c) / 2)
    || (Delta(b, c) == m && r == (b + c) / 2)
  }

  /** The filter of `getRawData`: when the first two samples are not the closest
      pair, one of them is overwritten by the third (slot 0 when the third is
      nearer the second, slot 1 otherwise); the result is the two slots' sum
      shifted right by one. */
  function Filter(a: Word, b: Word, c: Word): (r: Word)
    ensures Min(a, Min(b, c)) <= r <= Max(a, Max(b, c))
    ensures AveragesClosestPair(a, b, c, r)
    ensures a == b || a == c ==> r == a
    ensures b == c ==> r == b
  {
    var data: seq<nat> := [a, b, c];
    var delta01 := Delta(data[0], data[1]);
    var delta02 := Delta(data[0], data[2]);
    var delta12 := Delta(data[1], data[2]);
    var data := if delta01 > delta02 || delta01 > delta12
                then data[(if delta02 > delta12 then 0 else 1) := data[2]]
                else data;
    (data[0] + data[1]) / 2  // `>> 1` of a non-negative int
  }

  /** The three outcomes of the filter, one per pair. */
  lemma FilterCases(a: Word, b: Word, c: Word)
    ensures Delta(a, b) <= Delta(a, c) && Delta(a, b) <= Delta(b, c)
            ==> Filter(a, b, c) == (a + b) / 2
    ensures Delta(a, b) > Delta(a, c) && Delta(a, c) <= Delta(b, c)
            ==> Filter(a, b, c) == (a + c) / 2
    ensures Delta(a, b) > Delta(b, c) && Delta(a, c) > Delta(b, c)
            ==> Filter(a, b, c) == (b + c) / 2
  {
  }

  lemma FilterExamples()
    ensures Filter(100, 102, 500) == 101
    ensures Filter(100, 500, 104) == 102
    ensures Filter(500, 100, 102) == 101
  {
  }

  /** Swapping the first two samples does not matter when they are the closest pair ... */
  lemma FilterSwapWhenFirstPairClosest(a: Word, b: Word, c: Word)
    requires Delta(a, b) <= Delta(a, c) && Delta(a, b) <= Delta(b, c)
    ensures Filter(a, b, c) == Filter(b, a, c)
  {
  }

  /** ... but it can when the third sample is equally far from both: the tie keeps
      the first sample. */
  lemma FilterTieKeepsFirst()
    ensures Filter(0, 2, 1) == 0
    ensures Filter(2, 0, 1) == 1
  {
  }

  /** For every input, the tie `delta02 == delta12` is the only way swapping the first
      two samples can change the result. */
  lemma FilterAsymmetryOnlyAtTie(a: Word, b: Word, c: Word)
    ensures Filter(a, b, c) != Filter(b, a, c) ==> Delta(a, c) == Delta(b, c)
  {
  }

  // ---------------------------------------------------------------------------
  // Fetching a coordinate.

  datatype Cycles = Cycles(events: seq<BusEvent>, samples: seq<Word>)

  /** Read cycles over `replies`, three replies per cycle: the command transfer,
      whose reply is ignored, then two transfers whose replies are assembled into
      one sample. */
  function ReadCycles(coordinate: Word, replies: seq<Byte>): (c: Cycles)
    requires |replies| % 3 == 0
    ensures |c.events| == |replies| && |c.samples| == |replies| / 3
    decreases |replies|
  {
    if |replies| == 0 then Cycles([], [])
    else
      var rest := ReadCycles(coordinate, replies[3..]);
      Cycles([Transfer(coordinate, replies[0]), Transfer(Dummy, replies[1]), Transfer(Dummy, replies[2])]
               + rest.events,
             [Assemble(replies[1], replies[2])] + rest.samples)
  }

  /** Cycle `k` sends the command then two dummies, and its sample is assembled
      from the replies to the two dummies; the reply to the command is not used. */
  lemma {:induction false} ReadCyclesContents(coordinate: Word, replies: seq<Byte>)
    requires |replies| % 3 == 0
    ensures var c := ReadCycles(coordinate, replies);
      forall k :: 0 <= k < |c.samples| ==>
        && c.events[3 * k] == Transfer(coordinate, replies[3 * k])
        && c.events[3 * k + 1] == Transfer(Dummy, replies[3 * k + 1])
        && c.events[3 * k + 2] == Transfer(Dummy, replies[3 * k + 2])
        && c.samples[k] == Assemble(replies[3 * k + 1], replies[3 * k + 2])
    decreases |replies|
  {
    if |replies| > 0 {
      var c := ReadCycles(coordinate, replies);
      ReadCyclesContents(coordinate, replies[3..]);
      forall k | 1 <= k < |c.samples|
        ensures c.events[3 * k] == Transfer(coordinate, replies[3 * k])
        ensures c.events[3 * k + 1] == Transfer(Dummy, replies[3 * k + 1])
        ensures c.events[3 * k + 2] == Transfer(Dummy, replies[3 * k + 2])
        ensures c.samples[k] == Assemble(replies[3 * k + 1], replies[3 * k + 2])
      {
        CycleShift(coordinate, replies, k);
      }
    }
  }

  /** Cycle `k > 0` of a read sequence is cycle `k - 1` of the sequence without its
      first cycle. */
  lemma CycleShift(coordinate: Word, replies: seq<Byte>, k: nat)
    requires |replies| % 3 == 0 && 1 <= k < |replies| / 3
    ensures var c := ReadCycles(coordinate, replies);
      var tail := replies[3..];
      var rest := ReadCycles(coordinate, tail);
      var t := 3 * (k - 1);
      && tail[t] == replies[3 * k] && tail[t + 1] == replies[3 * k + 1] && tail[t + 2] == replies[3 * k + 2]
      && c.events[3 * k] == rest.events[t]
      && c.events[3 * k + 1] == rest.events[t + 1]
      && c.events[3 * k + 2] == rest.events[t + 2]
      && c.samples[k] == rest.samples[k - 1]
  {
    var c := ReadCycles(coordinate, replies);
    var rest := ReadCycles(coordinate, replies[3..]);
    assert c.events == [Transfer(coordinate, replies[0]), Transfer(Dummy, replies[1]), Transfer(Dummy, replies[2])]
                       + rest.events;
    assert c.samples == [Assemble(replies[1], replies[2])] + rest.samples;
  }

  /** The events that open and close the chip-select window of a fetch. */
  function Opening(hardwareSpi: bool): seq<BusEvent>
  {
    if hardwareSpi then [Acquire, SpiOpen] else [Acquire]
  }

  function Closing(hardwareSpi: bool): seq<BusEvent>
  {
    if hardwareSpi then [SpiClose, Release] else [Release]
  }

  /** The shape of a fetch on the bus: nine transfers inside one chip-select window,
      and in hardware mode inside the peripheral's open and close as well; transfers
      0, 3 and 6 send the coordinate command and the others the dummy byte. */
  predicate FetchEvents(hardwareSpi: bool, coordinate: Word, replies: seq<Byte>, events: seq<BusEvent>)
    requires |replies| == 9
  {
    var o := if hardwareSpi then 2 else 1;
    && |events| == 9 + 2 * o
    && events[0] == Acquire
    && events[|events| - 1] == Release
    && (hardwareSpi ==> events[1] == SpiOpen && events[|events| - 2] == SpiClose)
    && (forall k :: 0 <= k < 3 ==>
          && events[o + 3 * k] == Transfer(coordinate, replies[3 * k])
          && events[o + 3 * k + 1] == Transfer(Dummy, replies[3 * k + 1])
          && events[o + 3 * k + 2] == Transfer(Dummy, replies[3 * k + 2]))
  }

  /** The bus events of a fetch: the transfers of `cycles` inside one chip-select
      window, and in hardware mode inside the peripheral's open/close as well. */
  function Window(hardwareSpi: bool, coordinate: Word, replies: seq<Byte>, cycles: seq<BusEvent>): (events: seq<BusEvent>)
    requires |replies| == 9 == |cycles|
    requires forall k :: 0 <= k < 3 ==>
      && cycles[3 * k] == Transfer(coordinate, replies[3 * k])
      && cycles[3 * k + 1] == Transfer(Dummy, replies[3 * k + 1])
      && cycles[3 * k + 2] == Transfer(Dummy, replies[3 * k + 2])
    ensures FetchEvents(hardwareSpi, coordinate, replies, events)
  {
    Opening(hardwareSpi) + cycles + Closing(hardwareSpi)
  }

  datatype Fetch = Fetch(events: seq<BusEvent>, samples: seq<Word>, value: Word)

  /** `getRawData`: three read cycles inside one chip-select window, then the filter
      over the three samples. */
  function GetRawData(hardwareSpi: bool, coordinate: Word, replies: seq<Byte>): (f: Fetch)
    requires |replies| == 9
    ensures FetchEvents(hardwareSpi, coordinate, replies, f.events)
    ensures |f.samples| == 3
    ensures forall k :: 0 <= k < 3 ==>
      f.samples[k] == replies[3 * k + 1] as int * 16 + replies[3 * k + 2] / 16
    ensures f.value == Filter(f.samples[0], f.samples[1], f.samples[2])
    ensures AveragesClosestPair(f.samples[0], f.samples[1], f.samples[2], f.value)
    ensures f.value < 0x1000
  {
    var cycles := ReadCycles(coordinate, replies);
    ReadCyclesContents(coordinate, replies);
    Fetch(Window(hardwareSpi, coordinate, replies, cycles.events),
          cycles.samples,
          Filter(cycles.samples[0], cycles.samples[1], cycles.samples[2]))
  }

  /** The replies of a fetch that carry sample bits: all but the replies to the
      command transfers. */
  function SampleReplies(replies: seq<Byte>): seq<Byte>
    requires |replies| == 9
  {
    [replies[1], replies[2], replies[4], replies[5], replies[7], replies[8]]
  }

  /** The value of a fetch depends only on the replies that carry the samples: not on
      the replies to the command transfers, nor on the transport. */
  lemma GetRawDataUsesOnlySamples(hw1: bool, hw2: bool, coordinate: Word, r1: seq<Byte>, r2: seq<Byte>)
    requires |r1| == 9 && |r2| == 9
    requires SampleReplies(r1) == SampleReplies(r2)
    ensures GetRawData(hw1, coordinate, r1).value == GetRawData(hw2, coordinate, r2).value
  {
    FetchValueOfSampleReplies(hw1, coordinate, r1);
    FetchValueOfSampleReplies(hw2, coordinate, r2);
  }

  /** The value of a fetch is the filter of the samples assembled from its
      sample-carrying replies, pair by pair. */
  lemma FetchValueOfSampleReplies(hardwareSpi: bool, coordinate: Word, replies: seq<Byte>)
    requires |replies| == 9
    ensures var s := SampleReplies(replies);
      GetRawData(hardwareSpi, coordinate, replies).value
      == Filter(Assemble(s[0], s[1]), Assemble(s[2], s[3]), Assemble(s[4], s[5]))
  {
    var f := GetRawData(hardwareSpi, coordinate, replies);
    assert f.samples[0] == Assemble(replies[1], replies[2]);
    assert f.samples[1] == Assemble(replies[4], replies[5]);
    assert f.samples[2] == Assemble(replies[7], replies[8]);
  }

  // ---------------------------------------------------------------------------
  // Touch and point queries.

  datatype TouchProbe = TouchProbe(touched: bool, events: seq<BusEvent>)

  /** `isTouched`: false while the bus is busy; otherwise the touch-interrupt pin is
      read when it exists, and a Z1 (pressure) fetch is compared with the threshold
      when it does not. */
  function IsTouched(cfg: Config, busy: bool, intLevel: Level, z1Replies: seq<Byte>): (p: TouchProbe)
    requires |z1Replies| == 9
    ensures busy ==> !p.touched && p.events == []
    ensures !busy && cfg.hasIntPin ==> p.events == [] && (p.touched <==> intLevel != High)
    ensures !busy && !cfg.hasIntPin ==>
      var f := GetRawData(cfg.hardwareSpi, cfg.z1Command, z1Replies);
      p.events == f.events && (p.touched <==> f.value >= cfg.z1Threshold)
  {
    if busy then TouchProbe(false, [])
    else if cfg.hasIntPin then TouchProbe(intLevel != High, [])
    else
      var f := GetRawData(cfg.hardwareSpi, cfg.z1Command, z1Replies);
      TouchProbe(f.value >= cfg.z1Threshold, f.events)
  }

  /** On the pressure path, three Z1 samples all at or above the threshold assert a
      touch and three samples all below it deny one. */
  lemma PressureUnanimous(cfg: Config, intLevel: Level, z1Replies: seq<Byte>)
    requires |z1Replies| == 9 && !cfg.hasIntPin
    ensures var s := GetRawData(cfg.hardwareSpi, cfg.z1Command, z1Replies).samples;
      && ((forall k :: 0 <= k < 3 ==> s[k] >= cfg.z1Threshold)
          ==> IsTouched(cfg, false, intLevel, z1Replies).touched)
      && ((forall k :: 0 <= k < 3 ==> s[k] < cfg.z1Threshold)
          ==> !IsTouched(cfg, false, intLevel, z1Replies).touched)
  {
    var s := GetRawData(cfg.hardwareSpi, cfg.z1Command, z1Replies).samples;
    assert s == [s[0], s[1], s[2]];
  }

  /** Conversion of a `uint16_t` into an `int16_t`: values from 0x8000 wrap to negatives. */
  function AsInt16(v: Word): (r: Int16)
    ensures v < 0x8000 ==> r == v
    ensures r < 0 <==> v >= 0x8000
  {
    if v < 0x8000 then v else v - 0x1_0000
  }

  /** `getRawPoint`: `busyAtPoint` and `busyAtTouch` are the answers of the two busy
      queries (its own and the one inside `isTouched`); `x0` and `y0` are the values
      `*x` and `*y` held before the call. */
  method GetRawPoint(cfg: Config, busyAtPoint: bool, busyAtTouch: bool, intLevel: Level,
                     z1Replies: seq<Byte>, xReplies: seq<Byte>, yReplies: seq<Byte>,
                     x0: Int16, y0: Int16)
    returns (ok: bool, x: Int16, y: Int16, events: seq<BusEvent>)
    requires |z1Replies| == 9 && |xReplies| == 9 && |yReplies| == 9
    ensures ok <==> !busyAtPoint && IsTouched(cfg, busyAtTouch, intLevel, z1Replies).touched
    ensures !ok ==> x == x0 && y == y0
    ensures !ok ==> events == if busyAtPoint then [] else IsTouched(cfg, busyAtTouch, intLevel, z1Replies).events
    ensures ok ==>
      var fx := GetRawData(cfg.hardwareSpi, cfg.xCommand, xReplies);
      var fy := GetRawData(cfg.hardwareSpi, cfg.yCommand, yReplies);
      && x == fx.value && y == fy.value
      && 0 <= x < 0x1000 && 0 <= y < 0x1000
      && AveragesClosestPair(fx.samples[0], fx.samples[1], fx.samples[2], x)
      && AveragesClosestPair(fy.samples[0], fy.samples[1], fy.samples[2], y)
      && events == IsTouched(cfg, busyAtTouch, intLevel, z1Replies).events + fx.events + fy.events
  {
    if busyAtPoint {
      return false, x0, y0, [];
    }
    var probe := IsTouched(cfg, busyAtTouch, intLevel, z1Replies);
    if !probe.touched {
      return false, x0, y0, probe.events;
    }
    var fx := GetRawData(cfg.hardwareSpi, cfg.xCommand, xReplies);
    x := AsInt16(fx.value);
    var fy := GetRawData(cfg.hardwareSpi, cfg.yCommand, yReplies);
    y := AsInt16(fy.value);
    ok := true;
    events := probe.events + fx.events + fy.events;
  }
}
