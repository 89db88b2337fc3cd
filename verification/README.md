# XPT2046 touch controller driver (Marlin, LPC1768 HAL) — Dafny model

This project models the touch-screen driver `XPT2046` of Marlin's LPC1768 HAL:

- the **bus transport**: one 8-bit full-duplex exchange, either bit-banged on the
  SCK/MOSI/MISO pins (`softwareIO`) or handed to the SPI peripheral (`hardwareIO`,
  which masks its argument with `& 0xFF`);
- the **sampler**: `getRawData` fetches a coordinate as three 12-bit samples within
  one chip-select window (three cycles of command byte plus two reply bytes, so nine
  transfers) and filters them with the three-sample outlier rejection. `isTouched`
  and `getRawPoint` are the touch and point queries built on top.

The model is functional. The C++ operators `&`, `|`, `<<` and `>>` are modelled
bit by bit on naturals (module `Bits`), and the widths `uint8_t`, `uint16_t` and
`int16_t` are subset types. Everything the driver gets from the hardware is an
input: the levels on MISO, the reply bytes of the transfers, the busy flag and the
level of the touch-interrupt pin. The build options (`TOUCH_BUTTONS_HW_SPI`,
`PIN_EXISTS(TOUCH_INT)`), the command codes `XPT2046_X/Y/Z1` and
`XPT2046_Z1_THRESHOLD` form a `Config` value. What happens on the bus comes back
as a trace. Pin operations are `PinOp`. Chip select, peripheral open/close and
transfers are `BusEvent`.

Files:

- `bits.dfy` (module `Bits`): the bitwise operators. `&` and `|` are proved
  against their bit-by-bit reading; `<<` and `>>` against multiplication and
  division by 2^k. The masking and shifting facts the driver relies on are proved.
- `transport.dfy` (module `Transport`): `softwareIO` as a loop method checked
  against a reference trace, the MSB-first bit order and its round trip, and
  `hardwareIO`.
- `sampler.dfy` (module `Sampler`): `delta`, sample assembly, the fetch sequence,
  the filter, `isTouched` and `getRawPoint`.

Assumptions fixed by the model:

- On line 92 the C++ language leaves unspecified which of the two `IO()` calls
  runs first. The model fixes the intended order: the first reply is the high part
  (`<< 4`) and the second reply gives the low nibble (`>> 4`).
- `IO()` without an argument sends `Dummy` = 0. It is the default argument
  declared in `xpt2046.h`, and that header is not part of this model.
- The sampler works on reply bytes. `TransportsAgree` shows that both transports
  deliver the controller's reply byte unchanged and put the same byte on the wire.
  So a fetch's samples and value do not depend on which transport is configured
  (`GetRawDataUsesOnlySamples`). Only its `SpiOpen`/`SpiClose` events do.

## Model

| member | source | states |
|---|---|---|
| Bits.OrBits | Marlin/src/HAL/LPC1768/tft/xpt2046.cpp:92 | bit k of `a \| b` is set exactly when bit k of `a` or of `b` is set |
| Bits.AndBits | Marlin/src/HAL/LPC1768/tft/xpt2046.cpp:125 | bit k of `a & b` is set exactly when bit k is set in both operands |
| Bits.ShlIsMul | Marlin/src/HAL/LPC1768/tft/xpt2046.cpp:92 | `x << k` is `x * 2^k` |
| Bits.ShrIsDiv | Marlin/src/HAL/LPC1768/tft/xpt2046.cpp:92 | `x >> k` is `x / 2^k`, rounded down |
| Bits.OrDisjointLow | Marlin/src/HAL/LPC1768/tft/xpt2046.cpp:92 | `(x << k) \| y` equals `x * 2^k + y` whenever `y < 2^k`: the two parts of a sample do not overlap |
| Bits.AndPow2 | Marlin/src/HAL/LPC1768/tft/xpt2046.cpp:125 | `data & j` with `j = 2^k` is `j` when bit k of `data` is set and 0 otherwise |
| Bits.AndLowMask | Marlin/src/HAL/LPC1768/tft/xpt2046.cpp:116 | `data & (2^n - 1)` is `data mod 2^n`; for `0xFF` it keeps the low byte |
| Bits.BitOfLow | Marlin/src/HAL/LPC1768/tft/xpt2046.cpp:116 | reducing modulo `2^n` leaves every bit below `n` unchanged, so bits above 0xFF cannot reach the wire |
| Transport.ValueOfBitsOf | Marlin/src/HAL/LPC1768/tft/xpt2046.cpp:123-128 | shifting the low n bits of x out MSB first and back in gives `x mod 2^n` |
| Transport.BitsOfValueOf | Marlin/src/HAL/LPC1768/tft/xpt2046.cpp:123-128 | shifting a bit sequence in MSB first and back out reproduces the sequence |
| Transport.SoftwareIO | Marlin/src/HAL/LPC1768/tft/xpt2046.cpp:120-131 | the loop over `j = 0x80 .. 1` returns the eight MISO samples as a byte, MSB first (< 256), and its pin trace is the reference trace for the low byte of `data` |
| Transport.LowByteBits | Marlin/src/HAL/LPC1768/tft/xpt2046.cpp:123-125 | for every 16-bit `data`, position i of the MSB-first bits sent (pass with mask `0x80 >> i`) is bit 7-i of `data`, so only the low byte is ever sent |
| Transport.TraceStep | Marlin/src/HAL/LPC1768/tft/xpt2046.cpp:124-127 | one pass of the loop appends SCK low, MOSI driven with `data & j`, a MISO sample and SCK high, which is the clock period of the next bit of the low byte |
| Transport.AccumulateStep | Marlin/src/HAL/LPC1768/tft/xpt2046.cpp:126 | `result \|= j` on a HIGH sample sets bit 7-i without disturbing the bits already collected, so after pass i the result holds the first i+1 samples MSB first |
| Transport.ShiftTraceShape | Marlin/src/HAL/LPC1768/tft/xpt2046.cpp:120-131 | that trace has 33 operations: MOSI carries bits 7..0 of `data` in order, with 8 clock pulses and 8 MISO samples, and the last operation drives SCK low |
| Transport.HardwareIO | Marlin/src/HAL/LPC1768/tft/xpt2046.cpp:115-117 | the peripheral is handed `data mod 256` and the result is its reply byte |
| Transport.TransportsAgree | Marlin/src/HAL/LPC1768/tft/xpt2046.cpp:108-117 | both transports put the same byte on the wire, bit for bit, and both return the controller's reply byte |
| Transport.Loopback | Marlin/src/HAL/LPC1768/tft/xpt2046.cpp:120-131 | when the MISO samples are the levels the exchange drives on MOSI (MISO wired to MOSI), there are eight of them and shifting them in gives the low byte of `data` |
| Sampler.Delta | Marlin/src/HAL/LPC1768/tft/xpt2046.cpp:32 | the result added to the smaller reading gives the larger, so it is the absolute difference |
| Sampler.DeltaSymmetricZero | Marlin/src/HAL/LPC1768/tft/xpt2046.cpp:32 | `delta` is symmetric and is 0 exactly when the readings are equal |
| Sampler.Assemble | Marlin/src/HAL/LPC1768/tft/xpt2046.cpp:92 | for byte replies, `(hi << 4) \| (lo >> 4)` stored in 16 bits is `hi*16 + lo/16`, which is at most 4095 |
| Sampler.AssembleRoundTrip | Marlin/src/HAL/LPC1768/tft/xpt2046.cpp:92 | assembling the two left-justified replies that carry a 12-bit conversion gives back the conversion |
| Sampler.AssembleSplits | Marlin/src/HAL/LPC1768/tft/xpt2046.cpp:92 | a sample keeps all of the first reply and the top nibble of the second reply |
| Sampler.Filter | Marlin/src/HAL/LPC1768/tft/xpt2046.cpp:98-105 | the result lies between the least and greatest sample; it is the truncated mean of a pair at least distance; when two samples are equal it is their common value |
| Sampler.FilterCases | Marlin/src/HAL/LPC1768/tft/xpt2046.cpp:102-105 | the three outcomes: (a+b)/2 when the first pair is closest, (a+c)/2 when slot 1 is replaced, (b+c)/2 when slot 0 is replaced |
| Sampler.FilterExamples | Marlin/src/HAL/LPC1768/tft/xpt2046.cpp:98-105 | (100,102,500) gives 101; (100,500,104) gives 102; (500,100,102) gives 101 |
| Sampler.FilterSwapWhenFirstPairClosest | Marlin/src/HAL/LPC1768/tft/xpt2046.cpp:102 | when the first two samples are the closest pair, swapping them does not change the result |
| Sampler.FilterTieKeepsFirst | Marlin/src/HAL/LPC1768/tft/xpt2046.cpp:103 | the tie `delta02 == delta12` replaces slot 1, so swapping the first two samples can change the result: (0,2,1) gives 0 but (2,0,1) gives 1 |
| Sampler.FilterAsymmetryOnlyAtTie | Marlin/src/HAL/LPC1768/tft/xpt2046.cpp:102-103 | for all samples, swapping the first two changes the result only when the third is equally far from both (`delta02 == delta12`) |
| Sampler.ReadCycles | Marlin/src/HAL/LPC1768/tft/xpt2046.cpp:90-93 | the read loop makes one transfer per reply and one sample per three replies |
| Sampler.ReadCyclesContents | Marlin/src/HAL/LPC1768/tft/xpt2046.cpp:90-93 | transfer 3k sends the coordinate command and transfers 3k+1 and 3k+2 send the dummy byte; sample k is assembled from replies 3k+1 and 3k+2, so the command replies are not used |
| Sampler.Window | Marlin/src/HAL/LPC1768/tft/xpt2046.cpp:87-96 | the nine transfers lie inside one chip-select window, and in hardware mode also inside the peripheral's open and close |
| Sampler.GetRawData | Marlin/src/HAL/LPC1768/tft/xpt2046.cpp:84-106 | exactly nine transfers between acquire and release (the 1st, 4th and 7th send the command); three samples `hi*16 + lo/16`; the value is the filter of those samples, a closest-pair mean, and below 4096 |
| Sampler.FetchValueOfSampleReplies | Marlin/src/HAL/LPC1768/tft/xpt2046.cpp:90-105 | the value of a fetch is the filter of the three samples assembled from replies 1 and 2, 4 and 5, and 7 and 8, counting from 0 |
| Sampler.GetRawDataUsesOnlySamples | Marlin/src/HAL/LPC1768/tft/xpt2046.cpp:90-105 | two fetches whose sample-carrying replies agree give the same value, whatever the command replies and the transport |
| Sampler.IsTouched | Marlin/src/HAL/LPC1768/tft/xpt2046.cpp:67-75 | busy gives false with no bus traffic; with an interrupt pin the answer is "pin not HIGH", with no bus traffic; otherwise it is "Z1 fetch value at least the threshold", with that fetch's bus traffic |
| Sampler.PressureUnanimous | Marlin/src/HAL/LPC1768/tft/xpt2046.cpp:72 | three Z1 samples all at or above the threshold assert a touch; three all below deny it |
| Sampler.AsInt16 | Marlin/src/HAL/LPC1768/tft/xpt2046.cpp:79-80 | the `uint16_t` to `int16_t` store keeps values below 0x8000 and makes exactly the others negative |
| Sampler.GetRawPoint | Marlin/src/HAL/LPC1768/tft/xpt2046.cpp:77-82 | true exactly when not busy and touched; on false `*x` and `*y` are unchanged and no X/Y fetch happens; on true X is fetched before Y, `*x` and `*y` are the two fetched values, and both are closest-pair means in 0..4095 |

## Left out

- `init` (lines 48–65): pin direction setup, the chip-select idle level and
  `touch_spi_init` are hardware configuration. Its one throwaway X fetch is a
  `GetRawData` whose value is discarded.
- `touch_spi_init` (lines 39–45) and the SPI library (`SPIx.begin/end/transfer`):
  the library is not part of this model. Only the byte-in/byte-out contract of
  `transfer` is modelled, and `SPIx.begin/end` are the `SpiOpen`/`SpiClose` events.
- `dataTransferBegin`, `dataTransferEnd` and `isBusy` are defined outside
  `xpt2046.cpp`. The first two are the `Acquire`/`Release` events. `isBusy` is a
  boolean parameter, one per call (`getRawPoint` asks once itself and once inside
  `isTouched`).
- Pin identifiers and the timing of the GPIO writes: a pin is named by `Pin` and
  a write is an entry of the trace.
- `IO` (lines 108–110) picks a transport at build time. The model keeps both
  transports and proves they agree (`TransportsAgree`) instead of modelling the
  preprocessor choice.
- Transport.HardwareIO: assumes the peripheral's reply is a byte, because
  `SPIx.transfer` belongs to the SPI library and an 8-bit data size is configured.
- Sampler.GetRawData: the reply to each transfer is a byte. With a wider reply
  (possible only through a hardware transfer returning more than 8 bits),
  `hi << 4` would be truncated to 16 bits. The model does not cover that case.
