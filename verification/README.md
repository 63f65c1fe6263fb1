# Bit-banged half-duplex SPI bus

A model of `BitBangSpiBus`, a software SPI bus for sensors with a single
bidirectional data line (SDIO). The bus owns a clock pin, which only outputs,
and a data pin that switches between output and input at run time. It turns
the byte-level `SpiBus` operations (`read`, `write`, `transfer`,
`transfer_in_place`, `flush`) into pin actions:

- writing a byte switches the data pin to output once, then drives the eight
  bits most significant first, each followed by one clock pulse (low, then
  high);
- reading a byte switches the data pin to input once, then for each of the
  eight bits pulses the clock and samples the line after the rising edge,
  building the byte most significant bit first from an accumulator that
  starts at 0.

The clock idles high.

The project has three modules:

- `Pins` (`pins.dfy`) holds the `BidirectionalPin` capability contract as a
  class with a mode, a driven level and an input source. What the line
  presents while the pin is an input is an oracle `line: nat -> bool`: the
  k-th sample ever taken reads `line(k)`, and the pin counts the samples it
  has taken in `consumed`.
- `SpiWire` (`spi_wire.dfy`) holds the wire protocol as values:
  - the MSB-first bit order (`Unpack`), and the shift-in decoding (`Pack`);
  - the exact action sequence of every operation: `WriteByteEvents`,
    `ReadByteEvents`, `WriteEvents`, `ReadEvents`, `TransferEvents`,
    `InPlaceEvents`;
  - the bytes a read yields (`ReadBytes`);
  - lemmas that state bit order, pulse counts, direction discipline,
    write-before-read ordering and loopback.
- `BitBangSpi` (`bitbang_spi.dfy`) holds the bus engine as a class. It has
  the clock level `sck`, the data pin `sdio` and a ghost `trace` of every pin
  action taken. Each method is proved to append exactly the `SpiWire`
  sequence for its operation and to leave the pins in the stated state. The
  buffer methods are proved to fill or keep the caller's array as stated.

## Model

| member | source | states |
|---|---|---|
| Pins.BidirectionalPin.SetAsOutput | src/bidirectional_pin.rs:12-13 | the pin is in output mode afterwards; its driven level and the input position are unchanged |
| Pins.BidirectionalPin.SetAsInput | src/bidirectional_pin.rs:15-16 | the pin is in input mode afterwards; its driven level and the input position are unchanged |
| Pins.BidirectionalPin.SetHigh | src/bidirectional_pin.rs:18-19 | callable only in output mode; the pin drives high afterwards and its mode is unchanged |
| Pins.BidirectionalPin.SetLow | src/bidirectional_pin.rs:21-22 | callable only in output mode; the pin drives low afterwards and its mode is unchanged |
| Pins.BidirectionalPin.IsHigh | src/bidirectional_pin.rs:24-25 | callable only in input mode; returns the level the line presents to this sample and moves on to the next sample; mode and level are unchanged |
| Pins.BidirectionalPin.IsLow | src/bidirectional_pin.rs:27-30 | callable only in input mode; returns exactly the negation of what `IsHigh` returns for the same sample |
| BitBangSpi.BitBangSpiBus.constructor | src/bitbang_spi.rs:62-65 | the bus owns the given data pin, and the clock is high (idle); the only action recorded is the clock going high |
| BitBangSpi.BitAt | src/bitbang_spi.rs:81 | `(byte >> i) & 1 == 1` is bit `i` of the byte, which is entry `7 - i` of its MSB-first bit sequence |
| BitBangSpi.WithBit | src/bitbang_spi.rs:109-111 | after a high sample, bit `i` is set and every other bit is kept; after a low sample, the byte is unchanged |
| BitBangSpi.BitBangSpiBus.PutBit | src/bitbang_spi.rs:81-85 | drives the data line to the given level, through `set_high` or `set_low`, and records that drive |
| BitBangSpi.BitBangSpiBus.Pulse | src/bitbang_spi.rs:88-91 | one clock pulse: the clock goes low and then high, is left high, and both edges are recorded |
| BitBangSpi.BitBangSpiBus.WriteByte | src/bitbang_spi.rs:77-94 | appends exactly `WriteByteEvents(byte)` to the trace: output mode first, then each bit MSB first with one pulse; the clock ends high, the pin ends in output mode and the line keeps the last bit driven, bit 0 of the byte; no sample is taken |
| BitBangSpi.BitBangSpiBus.ReadByte | src/bitbang_spi.rs:97-115 | returns `Pack` of the next eight samples, so bit 7 - k is 1 exactly when the k-th sample is high; appends exactly `ReadByteEvents` of those samples; the clock ends high, the pin in input mode, with exactly 8 samples taken |
| BitBangSpi.BitBangSpiBus.Read | src/bitbang_spi.rs:131-136 | returns Ok; element j of the buffer becomes the j-th byte read, in order; the trace grows by exactly `ReadEvents`; 8 samples per element; an empty buffer changes no pin state |
| BitBangSpi.BitBangSpiBus.Write | src/bitbang_spi.rs:138-143 | returns Ok; does not modify the buffer (no `modifies` on it); the trace grows by `WriteEvents`, the byte writes of the elements in index order; no sample is taken; after a nonempty write the line keeps bit 0 of the last element; an empty buffer changes no pin state |
| BitBangSpi.BitBangSpiBus.Transfer | src/bitbang_spi.rs:145-150 | returns Ok; the trace grows by the whole write phase followed by the whole read phase; `read` holds the bytes read in order; the two lengths are independent; the pin's output register (`level`) keeps bit 0 of the last element of `write`, or its earlier value when `write` is empty; the line itself is still driven to that bit only when `read` is empty, since a nonempty `read` leaves the pin an input, which no longer drives the line |
| BitBangSpi.BitBangSpiBus.ExchangeAt | src/bitbang_spi.rs:155-156 | writes the original element j, then replaces that element, and no other, with the byte read right after; the clock ends high and the pin in input mode, which no longer drives the line, with its output register (`level`) keeping bit 0 of the original element; 8 more samples are taken |
| BitBangSpi.BitBangSpiBus.TransferInPlace | src/bitbang_spi.rs:152-159 | returns Ok; the buffer ends holding the bytes read in order; the trace grows by exactly `InPlaceEvents` of the original contents; on a line that echoes the written bits, the buffer comes back unchanged; a nonempty buffer leaves the pin an input, which no longer drives the line, with its output register (`level`) keeping bit 0 of the last original element; an empty buffer changes no pin state |
| BitBangSpi.BitBangSpiBus.Flush | src/bitbang_spi.rs:161-163 | returns Ok and changes nothing: no state is in its frame, so no pin changes and no trace event is added |
| SpiWire.WriteByteShape | src/bitbang_spi.rs:78-93 | a byte write is 25 actions: first the switch to output; then, for pulse k, bit 7 - k is driven, then the clock goes low, then high; the last action leaves the clock high |
| SpiWire.ReadByteShape | src/bitbang_spi.rs:98-112 | a byte read is 25 actions: first the switch to input, before any sample; then, for pulse k, the clock goes low, then high, and only then is the k-th sample taken |
| SpiWire.WriteByteCounts | src/bitbang_spi.rs:80-93 | a byte write has exactly 8 falling and 8 rising clock edges and one switch to output, and never samples |
| SpiWire.ReadByteCounts | src/bitbang_spi.rs:102-112 | a byte read has exactly 8 falling and 8 rising clock edges and one switch to input, and never drives the data line |
| SpiWire.PackBits | src/bitbang_spi.rs:97-115 | about `Pack`, the reference MSB-first decoding that `read_byte` is proved to return: bit j of `Pack(bits)` is the bit j places before the last one, and 0 when there is none; so for eight samples, bit 7 - k is sample k |
| SpiWire.CollectedStep | src/bitbang_spi.rs:109-111 | one pass of the loop, `byte \|= 1 << i` exactly when sample 7 - i (the one that sets bit i) is high, extends the accumulator invariant `Collected` by that sample; bits below i stay 0 |
| SpiWire.CollectedPack | src/bitbang_spi.rs:100-114 | the accumulator that has collected all eight samples, starting from 0, equals their MSB-first decoding |
| SpiWire.UnpackPack | src/bitbang_spi.rs:97-115 | decoding eight samples and re-encoding the byte MSB first gives back the samples |
| SpiWire.PackUnpack | src/bitbang_spi.rs:77-94 | a byte written MSB first and read back from the same eight levels is the same byte |
| SpiWire.WriteEventsCounts | src/bitbang_spi.rs:138-143 | `write` pulses the clock 8 times per element, and not at all for an empty buffer; it switches to output once per element and never samples |
| SpiWire.ReadEventsCounts | src/bitbang_spi.rs:131-136 | `read` pulses the clock 8 times per element, and not at all for an empty buffer; it switches to input once per element and never drives the line |
| SpiWire.WriteEventsAt | src/bitbang_spi.rs:138-143 | `write` handles the words in index order: actions 25j to 25j + 25 are exactly the write of word j |
| SpiWire.ReadEventsAt | src/bitbang_spi.rs:131-136 | `read` fills the buffer in index order: actions 25j to 25j + 25 are exactly the read of byte j, from samples 8j to 8j + 7 |
| SpiWire.TransferOrder | src/bitbang_spi.rs:145-150 | in a transfer, every event that drives the data line comes before every event that samples it; the write-phase prefix already holds all of its clock pulses |
| SpiWire.InPlaceRound | src/bitbang_spi.rs:152-159 | actions 50j to 50j + 50 of a transfer in place are exactly the write of the original element j followed by the read of its replacement |
| SpiWire.InPlaceSwitches | src/bitbang_spi.rs:154-156 | for every element, the data pin switches to output before its write and to input before its read, so the direction changes on every byte |
| SpiWire.Loopback | src/bitbang_spi.rs:152-159 | if the line echoes each written bit as the corresponding sample, the bytes read are the bytes written |
| SpiWire.DirectedAppend | src/bitbang_spi.rs:78-111 | the direction discipline, and the pin's direction, compose over concatenated action sequences |
| SpiWire.WriteByteDirected | src/bitbang_spi.rs:78-85 | whatever the direction before, a byte write drives the data line only while it is an output, and leaves it an output |
| SpiWire.ReadByteDirected | src/bitbang_spi.rs:98-111 | whatever the direction before, a byte read samples the line only while it is an input, and leaves it an input |
| SpiWire.WriteEventsDirected | src/bitbang_spi.rs:138-143 | `write` keeps the direction discipline from any start; it leaves the pin an output when the buffer is nonempty and unchanged otherwise |
| SpiWire.ReadEventsDirected | src/bitbang_spi.rs:131-136 | `read` keeps the direction discipline from any start; it leaves the pin an input when the buffer is nonempty and unchanged otherwise |
| SpiWire.InPlaceEventsDirected | src/bitbang_spi.rs:152-159 | `transfer_in_place` keeps the direction discipline from any start; it leaves the pin an input when the buffer is nonempty |

## Left out

- The `spi_delay` busy-wait (src/bitbang_spi.rs:68-74) is left out, because it affects only timing and the model has no clock.
- `async`/`.await` is left out. No operation ever suspends, so every operation is an ordinary method.
- The `Flex` implementation of the pin contract for one HAL (src/bidirectional_pin.rs:37-59) is not part of this model. It wraps hardware that is not visible here.
- The `Format` derive and the mapping of the error to `ErrorKind::Other` (src/bitbang_spi.rs:14-24) are left out, because they are foreign trait plumbing. Only the single error variant is modelled, and no operation ever returns it.
- The clock pin is modelled as an infallible level field `sck`. The `Result` of its `set_low`/`set_high`, which the source discards, is not modelled, and neither is any electrical behaviour such as settle times or floating lines.
- BitBangSpi.BitBangSpiBus.Transfer: the `?` early returns are not modelled as branches. `Write` and `Read` always return Ok, so an error path would be dead.
- Pins.BidirectionalPin.IsHigh: it is a method that advances the input position. The source's `is_high` is a read through `&self`, but successive samples of the real line differ; the model expresses that with an oracle, consuming one sample per call.
- The pin actions are recorded in a ghost trace. They are a proof device, not state of the source.
- `Pulse`, `PutBit`, `ExchangeAt`, `BitAt` and `WithBit` are separate methods only to keep each proof small. In the source they are inline code of `write_byte`, `read_byte` and `transfer_in_place`.
