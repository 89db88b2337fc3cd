/** The bus transport of the XPT2046 driver: one 8-bit full-duplex exchange,
    either bit-banged on three pins (`softwareIO`) or handed to the SPI peripheral
    (`hardwareIO`). Pin writes and reads are recorded as a trace; the levels the
    controller presents on MISO are an input sequence, one per read. */
module Transport {
  import opened Bits

  datatype Pin = Sck | Mosi | Miso
  datatype Level = Low | High
  datatype PinOp = Write(pin: Pin, level: Level) | Read(pin: Pin)

  function LevelOf(b: bool): Level
  {
    if b then High else Low
  }

  /** The line levels that carry `bits`, in order. */
  function Levels(bits: seq<bool>): (levels: seq<Level>)
    ensures |levels| == |bits|
  {
    if |bits| == 0 then [] else Levels(bits[..|bits| - 1]) + [LevelOf(bits[|bits| - 1])]
  }

  // ---------------------------------------------------------------------------
  // Bit order on the wire: most significant bit first.

  /** The low `n` bits of `x`, most significant first. */
  function BitsOf(x: nat, n: nat): (bits: seq<bool>)
    ensures |bits| == n
  {
    if n == 0 then [] else BitsOf(x / 2, n - 1) + [x % 2 == 1]
  }

  function BitsOfByte(b: Byte): seq<bool>
  {
    BitsOf(b, 8)
  }

  /** The value shifted in from `bits`, most significant first. */
  function ValueOf(bits: seq<bool>): (v: nat)
    ensures v < Pow2(|bits|)
  {
    if |bits| == 0 then 0
    else 2 * ValueOf(bits[..|bits| - 1]) + (if bits[|bits| - 1] then 1 else 0)
  }

  /** Position `i` of the MSB-first sequence carries bit `n - 1 - i`. */
  lemma {:induction false} BitsOfIndex(x: nat, n: nat, i: nat)
    requires i < n
    ensures BitsOf(x, n)[i] <==> Bit(x, n - 1 - i)
  {
    if i < n - 1 {
      BitsOfIndex(x / 2, n - 1, i);
    }
  }

  /** Shifting the bits of `x` out and back in yields `x` reduced to `n` bits. */
  lemma {:induction false} ValueOfBitsOf(x: nat, n: nat)
    ensures ValueOf(BitsOf(x, n)) == x % Pow2(n)
  {
    if n > 0 {
      var bits := BitsOf(x, n);
      assert bits[..n - 1] == BitsOf(x / 2, n - 1);
      ValueOfBitsOf(x / 2, n - 1);
      ModDouble(x, Pow2(n - 1), Pow2(n));
    }
  }

  /** Shifting a bit sequence in and back out reproduces it. */
  lemma {:induction false} BitsOfValueOf(bits: seq<bool>)
    ensures BitsOf(ValueOf(bits), |bits|) == bits
  {
    var n := |bits|;
    if n > 0 {
      var init := bits[..n - 1];
      var v := 2 * ValueOf(init) + (if bits[n - 1] then 1 else 0);
      assert v / 2 == ValueOf(init);
      BitsOfValueOf(init);
      assert bits == init + [bits[n - 1]];
    }
  }

  // ---------------------------------------------------------------------------
  // Software transport.

  /** The pin operations of one clock period sending `bit`. */
  function Period(bit: bool): seq<PinOp>
  {
    [Write(Sck, Low), Write(Mosi, LevelOf(bit)), Read(Miso), Write(Sck, High)]
  }

  /** The clock periods sending `bits`, in order. */
  function Periods(bits: seq<bool>): (ops: seq<PinOp>)
    ensures |ops| == 4 * |bits|
  {
    if |bits| == 0 then [] else Periods(bits[..|bits| - 1]) + Period(bits[|bits| - 1])
  }

  /** Reference trace of a bit-banged exchange sending `bits`: one period per bit,
      then the clock parked low. */
  function ShiftTrace(bits: seq<bool>): seq<PinOp>
  {
    Periods(bits) + [Write(Sck, Low)]
  }

  /** The levels written to MOSI, in order. */
  function MosiLevels(ops: seq<PinOp>): seq<Level>
  {
    if |ops| == 0 then []
    else MosiLevels(ops[..|ops| - 1])
         + (var op := ops[|ops| - 1]; if op.Write? && op.pin == Mosi then [op.level] else [])
  }

  /** The number of rising clock edges (writes of SCK high). */
  function ClockPulses(ops: seq<PinOp>): nat
  {
    if |ops| == 0 then 0
    else ClockPulses(ops[..|ops| - 1]) + (if ops[|ops| - 1] == Write(Sck, High) then 1 else 0)
  }

  /** The number of MISO samples taken. */
  function MisoReads(ops: seq<PinOp>): nat
  {
    if |ops| == 0 then 0
    else MisoReads(ops[..|ops| - 1]) + (if ops[|ops| - 1] == Read(Miso) then 1 else 0)
  }

  lemma {:induction false} CountsDistribute(a: seq<PinOp>, b: seq<PinOp>)
    ensures MosiLevels(a + b) == MosiLevels(a) + MosiLevels(b)
    ensures ClockPulses(a + b) == ClockPulses(a) + ClockPulses(b)
    ensures MisoReads(a + b) == MisoReads(a) + MisoReads(b)
    decreases |b|
  {
    if |b| > 0 {
      var n := |b|;
      assert (a + b)[..|a + b| - 1] == a + b[..n - 1];
      CountsDistribute(a, b[..n - 1]);
    } else {
      assert a + b == a;
    }
  }

  lemma SingleCounts(op: PinOp)
    ensures MosiLevels([op]) == if op.Write? && op.pin == Mosi then [op.level] else []
    ensures ClockPulses([op]) == if op == Write(Sck, High) then 1 else 0
    ensures MisoReads([op]) == if op == Read(Miso) then 1 else 0
  {
    assert [op][..0] == [];
  }

  lemma PeriodCounts(bit: bool)
    ensures MosiLevels(Period(bit)) == [LevelOf(bit)]
    ensures ClockPulses(Period(bit)) == 1
    ensures MisoReads(Period(bit)) == 1
  {
    var p := Period(bit);
    assert p == [p[0]] + [p[1]] + [p[2]] + [p[3]];
    SingleCounts(p[0]);
    SingleCounts(p[1]);
    SingleCounts(p[2]);
    SingleCounts(p[3]);
    CountsDistribute([p[0]], [p[1]]);
    CountsDistribute([p[0]] + [p[1]], [p[2]]);
    CountsDistribute([p[0]] + [p[1]] + [p[2]], [p[3]]);
  }

  lemma {:induction false} PeriodsShape(bits: seq<bool>)
    ensures MosiLevels(Periods(bits)) == Levels(bits)
    ensures ClockPulses(Periods(bits)) == |bits|
    ensures MisoReads(Periods(bits)) == |bits|
  {
    var n := |bits|;
    if n > 0 {
      PeriodsShape(bits[..n - 1]);
      PeriodCounts(bits[n - 1]);
      CountsDistribute(Periods(bits[..n - 1]), Period(bits[n - 1]));
    }
  }

  /** The low byte of `data`, MSB first: position `i` carries bit `7 - i` of `data`. */
  lemma LowByteBits(data: Word)
    ensures forall i :: 0 <= i < 8 ==> (BitsOfByte(data % 0x100)[i] <==> Bit(data, 7 - i))
  {
    ByteWidth();
    forall i | 0 <= i < 8
      ensures BitsOfByte(data % 0x100)[i] <==> Bit(data, 7 - i)
    {
      BitsOfIndex(data % 0x100, 8, i);
      BitOfLow(data, 8, 7 - i);
    }
  }

  /** The bit-banged exchange of `data` clocks out the low byte of `data`, MSB first,
      with exactly eight clock pulses and eight MISO samples, and parks SCK low. */
  lemma ShiftTraceShape(data: Word)
    ensures var ops := ShiftTrace(BitsOfByte(data % 0x100));
      && |ops| == 33
      && MosiLevels(ops) == Levels(BitsOfByte(data % 0x100))
      && ClockPulses(ops) == 8
      && MisoReads(ops) == 8
      && ops[|ops| - 1] == Write(Sck, Low)
  {
    var bits := BitsOfByte(data % 0x100);
    PeriodsShape(bits);
    SingleCounts(Write(Sck, Low));
    CountsDistribute(Periods(bits), [Write(Sck, Low)]);
  }

  /** Step `i` of `softwareIO` drives MOSI with bit `i` (MSB first) of the low byte. */
  lemma MosiStep(data: Word, i: nat)
    requires i < 8
    ensures (if And(data, Pow2(7 - i)) != 0 then High else Low) == LevelOf(BitsOfByte(data % 0x100)[i])
  {
    ByteWidth();
    AndPow2(data, 7 - i);
    BitOfLow(data, 8, 7 - i);
    BitsOfIndex(data % 0x100, 8, i);
  }

  /** Shifting in one more sample, scaled to its final place: the value of the first
      `i + 1` samples, shifted left by `7 - i`, is that of the first `i` samples
      shifted left by `8 - i`, plus bit `7 - i` when sample `i` is set. */
  lemma ShiftedValueStep(miso: seq<bool>, i: nat)
    requires i < |miso| == 8
    ensures Shl(ValueOf(miso[..i + 1]), 7 - i)
            == Shl(ValueOf(miso[..i]), 8 - i) + (if miso[i] then Pow2(7 - i) else 0)
  {
    assert miso[..i + 1][..i] == miso[..i];
    var v := ValueOf(miso[..i]);
    var b := if miso[i] then 1 else 0;
    var p := Pow2(7 - i);
    assert Pow2(8 - i) == 2 * p;
    assert ValueOf(miso[..i + 1]) == 2 * v + b;
    ShiftAdd(v, b, p);
    ShlIsMul(2 * v + b, 7 - i);
    ShlIsMul(v, 8 - i);
  }

  lemma ShiftAdd(v: nat, b: nat, p: nat)
    ensures (2 * v + b) * p == v * (2 * p) + b * p
  {
  }

  /** Step `i` of `softwareIO` appends the clock period of bit `i`. */
  lemma PeriodsStep(bits: seq<bool>, i: nat)
    requires i < |bits|
    ensures Periods(bits[..i + 1]) == Periods(bits[..i]) + Period(bits[i])
  {
    assert bits[..i + 1][..i] == bits[..i];
  }

  lemma ByteWidth()
    ensures Pow2(7) == 0x80 && Pow2(8) == 0x100
  {
  }

  /** The mask `j` of pass `i` of `softwareIO`: `0x80 >> i`, and 0 once all eight
      bits are done. */
  function Mask(i: nat): nat
  {
    if i < 8 then Pow2(7 - i) else 0
  }

  /** The pin operations of pass `i` of `softwareIO` extend the trace by the clock
      period of bit `i` of the low byte. */
  lemma TraceStep(data: Word, i: nat, ops: seq<PinOp>)
    requires i < 8
    requires ops == Periods(BitsOfByte(data % 0x100)[..i])
    ensures var mosi := if And(data, Mask(i)) != 0 then High else Low;
      ops + [Write(Sck, Low), Write(Mosi, mosi), Read(Miso)] + [Write(Sck, High)]
      == Periods(BitsOfByte(data % 0x100)[..i + 1])
  {
    MosiStep(data, i);
    PeriodsStep(BitsOfByte(data % 0x100), i);
  }

  /** Or-ing the MISO sample of pass `i` into the result adds bit `7 - i`. */
  lemma AccumulateStep(miso: seq<bool>, i: nat, acc: nat)
    requires i < 8 && |miso| == 8
    requires acc == Shl(ValueOf(miso[..i]), 8 - i)
    ensures (if miso[i] then Or(acc, Mask(i)) else acc) == Shl(ValueOf(miso[..i + 1]), 8 - (i + 1))
  {
    ShiftedValueStep(miso, i);
    if miso[i] {
      OrDisjointLow(ValueOf(miso[..i]), Mask(i), 8 - i);
    }
  }

  /** `j >>= 1` moves to the mask of the next pass. */
  lemma MaskStep(i: nat)
    requires i < 8
    ensures Mask(i) / 2 == Mask(i + 1)
  {
  }

  /** `softwareIO`: for `j` = 0x80, 0x40, ..., 1 drive SCK low, put `data & j` on MOSI,
      sample MISO into `result |= j`, drive SCK high; finally leave SCK low.
      `miso` holds the levels the controller presents at the eight samples. */
  method SoftwareIO(data: Word, miso: seq<bool>) returns (result: Word, ops: seq<PinOp>)
    requires |miso| == 8
    ensures result == ValueOf(miso)
    ensures result < 0x100
    ensures ops == ShiftTrace(BitsOfByte(data % 0x100))
  {
    ByteWidth();
    var acc: nat := 0;
    ops := [];
    var j: nat := 0x80;
    var i: nat := 0;  // index of the next MISO sample
    while j != 0
      invariant i <= 8
      invariant j == Mask(i)
      invariant acc == Shl(ValueOf(miso[..i]), 8 - i)
      invariant ops == Periods(BitsOfByte(data % 0x100)[..i])
    {
      TraceStep(data, i, ops);
      AccumulateStep(miso, i, acc);
      MaskStep(i);
      ops := ops + [Write(Sck, Low), Write(Mosi, if And(data, j) != 0 then High else Low), Read(Miso)];
      if miso[i] {
        acc := Or(acc, j);
      }
      ops := ops + [Write(Sck, High)];
      j := j / 2;
      i := i + 1;
    }
    assert miso[..8] == miso;
    assert BitsOfByte(data % 0x100)[..8] == BitsOfByte(data % 0x100);
    ops := ops + [Write(Sck, Low)];
    result := acc;
  }

  // ---------------------------------------------------------------------------
  // Hardware transport.

  /** One exchange on the SPI peripheral: the byte put on the wire and the result. */
  datatype Exchange = Exchange(wire: Byte, result: Word)

  /** `hardwareIO`: the peripheral is handed `data & 0xFF` and returns the byte it
      shifted in, `reply`. */
  function HardwareIO(data: Word, reply: Byte): (x: Exchange)
    ensures x.wire == data % 0x100
    ensures x.result == reply
  {
    AndLowMask(data, 8);
    Exchange(And(data, 0xFF), reply)
  }

  /** Both transports exchange the same bytes: given the controller's `reply`, the
      bit-banged exchange sends the byte the peripheral would put on the wire, bit by
      bit, and shifts in `reply` itself. */
  lemma {:induction false} TransportsAgree(data: Word, reply: Byte)
    ensures MosiLevels(ShiftTrace(BitsOfByte(data % 0x100)))
            == Levels(BitsOfByte(HardwareIO(data, reply).wire))
    ensures ValueOf(BitsOfByte(reply)) == HardwareIO(data, reply).result
  {
    assert HardwareIO(data, reply).wire == data % 0x100;
    ShiftTraceShape(data);
    ByteRoundTrip(reply);
  }

  /** Shifting a byte out MSB first and back in gives the byte. */
  lemma ByteRoundTrip(b: Byte)
    ensures ValueOf(BitsOfByte(b)) == b
  {
    ByteWidth();
    SmallRoundTrip(b, 8);
  }

  /** A value that fits in `n` bits survives the MSB-first round trip unchanged. */
  lemma SmallRoundTrip(x: nat, n: nat)
    requires x < Pow2(n)
    ensures ValueOf(BitsOf(x, n)) == x
  {
    ValueOfBitsOf(x, n);
  }

  /** The levels determine the bits: `Levels` loses nothing. */
  lemma {:induction false} LevelsInjective(a: seq<bool>, b: seq<bool>)
    requires Levels(a) == Levels(b)
    ensures a == b
  {
    if |a| > 0 {
      var n := |a| - 1;
      assert Levels(a)[n] == LevelOf(a[n]) && Levels(b)[n] == LevelOf(b[n]);
      assert Levels(a)[..n] == Levels(a[..n]) && Levels(b)[..n] == Levels(b[..n]);
      LevelsInjective(a[..n], b[..n]);
      assert a == a[..n] + [a[n]] && b == b[..n] + [b[n]];
    }
  }

  /** With MISO wired back to MOSI, so that the eight MISO samples are the levels the
      exchange drives on MOSI, the bit-banged exchange returns the low byte of `data`. */
  lemma {:induction false} Loopback(data: Word, miso: seq<bool>)
    requires Levels(miso) == MosiLevels(ShiftTrace(BitsOfByte(data % 0x100)))
    ensures |miso| == 8
    ensures ValueOf(miso) == data % 0x100
  {
    ShiftTraceShape(data);
    LevelsInjective(miso, BitsOfByte(data % 0x100));
    ByteRoundTrip(data % 0x100);
  }
}
