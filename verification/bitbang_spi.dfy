/**
 * The bit-banged half-duplex SPI bus engine. It owns a clock pin, which only
 * outputs, and a bidirectional data pin, and turns byte-level bus operations
 * into pin actions. Every pin action it takes is recorded in the ghost
 * `trace`; each operation is proved to append exactly the action sequence
 * that module SpiWire defines for it.
 *
 * The busy-wait between pin actions only affects timing and is left out.
 */
module BitBangSpi {
  import opened Pins
  import opened SpiWire

  /** The bus's single error kind. No operation ever produces it. */
  datatype BitBangError = Bus

  /** The outcome of a bus operation. */
  datatype Result = Ok | Err(error: BitBangError)

  /** `(byte >> i) & 1 == 1`: bit `i` of `byte`, the (7 - i)-th in MSB-first order. */
  method BitAt(byte: Byte, i: nat) returns (bit: bool)
    requires i < 8
    ensures bit == Bit(byte, i) && bit == Unpack(byte)[7 - i]
  {
    bit := (byte >> i) & 1 == 1;
  }

  /** `byte | (1 << i)` when `high`, else `byte`: sets bit `i` on a high sample and keeps every other bit. */
  method WithBit(byte: Byte, i: nat, high: bool) returns (r: Byte)
    requires i < 8
    ensures forall j :: 0 <= j < 8 ==> Bit(r, j) == (Bit(byte, j) || (high && j == i))
  {
    r := byte;
    if high {
      r := byte | (1 << i);
      forall j | 0 <= j < 8
        ensures Bit(r, j) == (Bit(byte, j) || j == i)
      {
        SetBit(byte, i, j);
      }
    }
  }

  class BitBangSpiBus {
    /** The level of the clock pin: true is high, the idle level. */
    var sck: bool
    /** The data pin (SDIO), owned by the bus for its whole life. */
    const sdio: BidirectionalPin
    /** Every pin action taken since construction, in order. */
    ghost var trace: seq<Event>

    /** Takes ownership of the pins and drives the clock high (idle). */
    constructor (sdio: BidirectionalPin)
      ensures sck
      ensures this.sdio == sdio
      ensures trace == [ClkHigh]
    {
      this.sdio := sdio;
      sck := true;
      trace := [ClkHigh];
    }

    /** One clock pulse: the clock is driven low, then back high (idle). */
    method Pulse()
      modifies this
      ensures sck
      ensures trace == old(trace) + [ClkLow, ClkHigh]
    {
      sck := false;
      trace := trace + [ClkLow];
      sck := true;
      trace := trace + [ClkHigh];
    }

    /** Puts `high` on the data line, which must be an output. */
    method PutBit(high: bool)
      requires sdio.mode == Output
      modifies this, sdio
      ensures sdio.level == high && sdio.mode == Output && sdio.consumed == old(sdio.consumed)
      ensures sck == old(sck)
      ensures trace == old(trace) + [Drive(high)]
    {
      if high {
        sdio.SetHigh();
        trace := trace + [DataHigh];
      } else {
        sdio.SetLow();
        trace := trace + [DataLow];
      }
    }

    /**
     * Writes one byte, most significant bit first: the data pin is switched
     * to output once, then each bit is driven and clocked by one low-high
     * pulse. The clock ends high and the line keeps the last bit driven,
     * bit 0.
     */
    method WriteByte(byte: Byte)
      modifies this, sdio
      ensures sck
      ensures trace == old(trace) + WriteByteEvents(byte)
      ensures sdio.mode == Output && sdio.level == Bit(byte, 0)
      ensures sdio.consumed == old(sdio.consumed)
    {
      sdio.SetAsOutput();
      trace := trace + [SetOutput];
      ghost var start := trace;
      ghost var bits := Unpack(byte);
      for i := 8 downto 0
        invariant sdio.mode == Output && sdio.consumed == old(sdio.consumed)
        invariant i < 8 ==> sck && sdio.level == Bit(byte, i)
        invariant trace == start + WriteBits(bits[..8 - i])
      {
        ghost var before := trace;
        var high := BitAt(byte, i);
        PutBit(high);
        Pulse();
        WriteTraceStep(start, before, bits, 7 - i);
      }
      assert bits[..8] == bits;
    }

    /**
     * Reads one byte, most significant bit first: the data pin is switched
     * to input once, then for each bit the clock is pulsed low-high and the
     * line is sampled after the rising edge. A sample that reads high sets
     * its bit; every other bit stays 0.
     */
    method ReadByte() returns (byte: Byte)
      modifies this, sdio
      ensures sck
      ensures byte == Pack(old(sdio.Upcoming(8)))
      ensures trace == old(trace) + ReadByteEvents(old(sdio.Upcoming(8)))
      ensures sdio.mode == Input && sdio.level == old(sdio.level)
      ensures sdio.consumed == old(sdio.consumed) + 8
    {
      sdio.SetAsInput();
      trace := trace + [SetInput];
      ghost var start := trace;
      ghost var samples := sdio.Upcoming(8);
      byte := 0;
      for i := 8 downto 0
        invariant sdio.mode == Input && sdio.level == old(sdio.level)
        invariant sdio.consumed == old(sdio.consumed) + (8 - i)
        invariant i < 8 ==> sck
        invariant Collected(byte, samples, i)
        invariant trace == start + ReadBits(samples[..8 - i])
      {
        ghost var before := trace;
        Pulse();
        assert sdio.Presented() == samples[7 - i];
        var high := sdio.IsHigh();
        trace := trace + [Sample(high)];
        var next := WithBit(byte, i, high);
        CollectedStep(byte, next, i, high, samples);
        byte := next;
        ReadTraceStep(start, before, samples, 7 - i);
      }
      assert samples[..8] == samples;
      CollectedPack(byte, samples);
    }

    /** Fills `words` in order with the bytes read, one byte per element. */
    method Read(words: array<Byte>) returns (r: Result)
      modifies this, sdio, words
      ensures r == Ok
      ensures words[..] == ReadBytes(sdio.line, old(sdio.consumed), words.Length)
      ensures trace == old(trace) + ReadEvents(sdio.line, old(sdio.consumed), words.Length)
      ensures sdio.consumed == old(sdio.consumed) + 8 * words.Length
      ensures sdio.level == old(sdio.level)
      ensures words.Length > 0 ==> sck && sdio.mode == Input
      ensures words.Length == 0 ==> sck == old(sck) && sdio.mode == old(sdio.mode)
    {
      ghost var from := sdio.consumed;
      ghost var line := sdio.line;
      ghost var original := words[..];
      ghost var t0 := trace;
      for j := 0 to words.Length
        invariant sdio.consumed == from + 8 * j && sdio.level == old(sdio.level)
        invariant words[..] == ReadBytes(line, from, j) + original[j..]
        invariant trace == t0 + ReadEvents(line, from, j)
        invariant j > 0 ==> sck && sdio.mode == Input
        invariant j == 0 ==> sck == old(sck) && sdio.mode == old(sdio.mode)
      {
        ReadEventsExtend(t0, trace, line, from, j);
        ReadBytesStoreAt(line, from, j, original);
        assert sdio.Upcoming(8) == Levels(line, from + 8 * j, 8);
        var byte := ReadByte();
        words[j] := byte;
      }
      SliceWhole(original);
      r := Ok;
    }

    /** Writes each element of `words`, in index order; `words` is not changed. */
    method Write(words: array<Byte>) returns (r: Result)
      modifies this, sdio
      ensures r == Ok
      ensures trace == old(trace) + WriteEvents(words[..])
      ensures sdio.consumed == old(sdio.consumed)
      ensures words.Length > 0 ==> sck && sdio.mode == Output && sdio.level == Bit(words[words.Length - 1], 0)
      ensures words.Length == 0 ==> sck == old(sck) && sdio.mode == old(sdio.mode) && sdio.level == old(sdio.level)
    {
      for j := 0 to words.Length
        invariant sdio.consumed == old(sdio.consumed)
        invariant trace == old(trace) + WriteEvents(words[..j])
        invariant j > 0 ==> sck && sdio.mode == Output && sdio.level == Bit(words[j - 1], 0)
        invariant j == 0 ==> sck == old(sck) && sdio.mode == old(sdio.mode) && sdio.level == old(sdio.level)
      {
        WriteEventsExtend(old(trace), trace, words[..], j);
        WriteByte(words[j]);
      }
      assert words[..words.Length] == words[..];
      r := Ok;
    }

    /**
     * Half-duplex transfer: the whole of `write` is written first, then
     * `read` is filled with the bytes read. The two lengths are independent.
     */
    method Transfer(read: array<Byte>, write: array<Byte>) returns (r: Result)
      modifies this, sdio, read
      ensures r == Ok
      ensures read[..] == ReadBytes(sdio.line, old(sdio.consumed), read.Length)
      ensures trace == old(trace) + TransferEvents(sdio.line, old(sdio.consumed), read.Length, old(write[..]))
      ensures sdio.consumed == old(sdio.consumed) + 8 * read.Length
      ensures read.Length > 0 ==> sck && sdio.mode == Input
      ensures read.Length == 0 && write.Length > 0 ==> sck && sdio.mode == Output
      ensures read.Length == 0 && write.Length == 0 ==> sck == old(sck) && sdio.mode == old(sdio.mode)
      ensures write.Length > 0 ==> sdio.level == Bit(old(write[write.Length - 1]), 0)
      ensures write.Length == 0 ==> sdio.level == old(sdio.level)
    {
      var _ := Write(write);
      var _ := Read(read);
      r := Ok;
    }

    /** Writes `words[j]`, then overwrites it with the byte read right after. */
    method ExchangeAt(words: array<Byte>, j: nat)
      requires j < words.Length
      modifies this, sdio, words
      ensures words[..] == old(words[..])[j := Pack(old(sdio.Upcoming(8)))]
      ensures trace == old(trace) + WriteByteEvents(old(words[j])) + ReadByteEvents(old(sdio.Upcoming(8)))
      ensures sck && sdio.mode == Input && sdio.level == Bit(old(words[j]), 0)
      ensures sdio.consumed == old(sdio.consumed) + 8
    {
      WriteByte(words[j]);
      var byte := ReadByte();
      words[j] := byte;
    }

    /**
     * Per element, in index order: writes the element, then overwrites it
     * with the byte read right after. The data pin switches direction on
     * every byte.
     */
    method TransferInPlace(words: array<Byte>) returns (r: Result)
      modifies this, sdio, words
      ensures r == Ok
      ensures words[..] == ReadBytes(sdio.line, old(sdio.consumed), words.Length)
      ensures trace == old(trace) + InPlaceEvents(old(words[..]), sdio.line, old(sdio.consumed))
      ensures Echoes(sdio.line, old(sdio.consumed), old(words[..])) ==> words[..] == old(words[..])
      ensures sdio.consumed == old(sdio.consumed) + 8 * words.Length
      ensures words.Length > 0 ==> sck && sdio.mode == Input && sdio.level == Bit(old(words[words.Length - 1]), 0)
      ensures words.Length == 0 ==> sck == old(sck) && sdio.mode == old(sdio.mode) && sdio.level == old(sdio.level)
    {
      ghost var from := sdio.consumed;
      ghost var line := sdio.line;
      ghost var original := words[..];
      ghost var t0 := trace;
      for j := 0 to words.Length
        invariant sdio.consumed == from + 8 * j
        invariant words[..] == ReadBytes(line, from, j) + original[j..]
        invariant trace == t0 + InPlaceEvents(original[..j], line, from)
        invariant j > 0 ==> sck && sdio.mode == Input && sdio.level == Bit(original[j - 1], 0)
        invariant j == 0 ==> sck == old(sck) && sdio.mode == old(sdio.mode) && sdio.level == old(sdio.level)
      {
        InPlaceEventsExtend(t0, trace, original, line, from, j);
        ReadBytesStoreAt(line, from, j, original);
        assert sdio.Upcoming(8) == Levels(line, from + 8 * j, 8);
        ExchangeAt(words, j);
      }
      SliceWhole(original);
      if Echoes(sdio.line, from, original) {
        Loopback(sdio.line, from, original);
      }
      r := Ok;
    }

    /** Nothing is buffered, so there is nothing to drain: no pin action. */
    method Flush() returns (r: Result)
      ensures r == Ok
    {
      r := Ok;
    }
  }
}
