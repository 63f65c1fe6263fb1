/**
 * The wire protocol of the bit-banged half-duplex bus, as values: how a byte
 * maps to bits, and the exact sequence of pin actions each bus operation
 * performs. The bus engine (module BitBangSpi) is proved to append exactly
 * these sequences to its trace; the lemmas here state what they mean.
 *
 * Conventions: the clock idles high, bits go most significant first, the
 * data line is driven before the falling clock edge and sampled after the
 * rising one.
 */
module SpiWire {
  import opened Pins

  /** An 8-bit word as the bus carries it. */
  type Byte = bv8

  /** One action on the clock pin or on the data pin. */
  datatype Event =
    | SetOutput        // data pin switched to output
    | SetInput         // data pin switched to input
    | DataHigh         // data pin driven high
    | DataLow          // data pin driven low
    | ClkLow           // clock driven low
    | ClkHigh          // clock driven high
    | Sample(high: bool) // data pin sampled, reading `high`

  /** Events that only the write phase may contain: the data line is driven. */
  predicate DataOut(e: Event)
  {
    e.SetOutput? || e.DataHigh? || e.DataLow?
  }

  /** Events that only the read phase may contain: the data line is sampled. */
  predicate DataIn(e: Event)
  {
    e.SetInput? || e.Sample?
  }

  // ---------------------------------------------------------------------------
  // Bits of a byte
  // ---------------------------------------------------------------------------

  /** Bit `i` of `b`, counting from the least significant. */
  function Bit(b: Byte, i: nat): bool
    requires i < 8
  {
    b & [1, 2, 4, 8, 16, 32, 64, 128][i] != 0
  }

  /** The eight bits of `b`, most significant first. */
  function Unpack(b: Byte): (bits: seq<bool>)
    ensures |bits| == 8
  {
    seq(8, k requires 0 <= k < 8 => Bit(b, 7 - k))
  }

  /**
   * Shifts `bits` into a byte from the right, most significant first: the
   * reference decoding of an MSB-first bit stream.
   */
  function Pack(bits: seq<bool>): Byte
    requires |bits| <= 8
  {
    if bits == [] then 0
    else (Pack(bits[..|bits| - 1]) << 1) | (if bits[|bits| - 1] then 1 else 0)
  }

  lemma ShiftInBit(x: Byte, bit: bool, j: nat)
    requires j < 8
    ensures Bit((x << 1) | (if bit then 1 else 0), j) == if j == 0 then bit else Bit(x, j - 1)
  {
  }

  /** Two bytes with the same eight bits are equal. */
  lemma BitsDetermine(a: Byte, b: Byte)
    requires forall j :: 0 <= j < 8 ==> Bit(a, j) == Bit(b, j)
    ensures a == b
  {
    assert Bit(a, 0) == Bit(b, 0) && Bit(a, 1) == Bit(b, 1);
    assert Bit(a, 2) == Bit(b, 2) && Bit(a, 3) == Bit(b, 3);
    assert Bit(a, 4) == Bit(b, 4) && Bit(a, 5) == Bit(b, 5);
    assert Bit(a, 6) == Bit(b, 6) && Bit(a, 7) == Bit(b, 7);
  }

  /**
   * Bit `j` of the packed byte is the bit that arrived `j` places before the
   * last one; positions before the first bit stay 0.
   */
  lemma {:induction false} PackBits(bits: seq<bool>, j: nat)
    requires |bits| <= 8 && j < 8
    ensures Bit(Pack(bits), j) == (j < |bits| && bits[|bits| - 1 - j])
  {
    if bits != [] {
      var init := bits[..|bits| - 1];
      ShiftInBit(Pack(init), bits[|bits| - 1], j);
      if j > 0 {
        PackBits(init, j - 1);
      }
    }
  }

  /** Decoding eight MSB-first bits and encoding the result gives them back. */
  lemma UnpackPack(bits: seq<bool>)
    requires |bits| == 8
    ensures Unpack(Pack(bits)) == bits
  {
    forall k | 0 <= k < 8
      ensures Unpack(Pack(bits))[k] == bits[k]
    {
      PackBits(bits, 7 - k);
    }
  }

  /** Encoding a byte MSB-first and decoding the bits gives it back. */
  lemma PackUnpack(b: Byte)
    ensures Pack(Unpack(b)) == b
  {
    var bits := Unpack(b);
    forall j | 0 <= j < 8
      ensures Bit(Pack(bits), j) == Bit(b, j)
    {
      PackBits(bits, j);
    }
    BitsDetermine(Pack(bits), b);
  }

  /** A byte is determined by its MSB-first bit sequence. */
  lemma UnpackInjective(a: Byte, b: Byte)
    requires Unpack(a) == Unpack(b)
    ensures a == b
  {
    PackUnpack(a);
    PackUnpack(b);
  }

  /**
   * Bits 7 down to `i` of `byte` hold the first `8 - i` samples, the first
   * sample in bit 7; bits below `i` are still 0.
   */
  ghost predicate Collected(byte: Byte, samples: seq<bool>, i: nat)
    requires |samples| == 8
  {
    forall j :: 0 <= j < 8 ==> Bit(byte, j) == (i <= j && samples[7 - j])
  }

  /** Setting bit `i` exactly when the next sample is high collects one more sample. */
  lemma CollectedStep(byte: Byte, r: Byte, i: nat, high: bool, samples: seq<bool>)
    requires i < 8 && |samples| == 8 && high == samples[7 - i]
    requires Collected(byte, samples, i + 1)
    requires forall j :: 0 <= j < 8 ==> Bit(r, j) == (Bit(byte, j) || (high && j == i))
    ensures Collected(r, samples, i)
  {
  }

  /** A byte that has collected all eight samples is their packing. */
  lemma CollectedPack(byte: Byte, samples: seq<bool>)
    requires |samples| == 8 && Collected(byte, samples, 0)
    ensures byte == Pack(samples)
  {
    forall k | 0 <= k < 8
      ensures Unpack(byte)[k] == samples[k]
    {
    }
    UnpackPack(samples);
    UnpackInjective(byte, Pack(samples));
  }

  // ---------------------------------------------------------------------------
  // The pin actions of one byte
  // ---------------------------------------------------------------------------

  /** The data-pin action that puts `bit` on the line. */
  function Drive(bit: bool): Event
  {
    if bit then DataHigh else DataLow
  }

  /** One clock pulse per bit: drive the bit, clock low, clock high. */
  function WriteBits(bits: seq<bool>): (t: seq<Event>)
    ensures |t| == 3 * |bits|
  {
    if bits == [] then []
    else WriteBits(bits[..|bits| - 1]) + [Drive(bits[|bits| - 1]), ClkLow, ClkHigh]
  }

  /** The pin actions of writing `b`: switch to output once, then its bits MSB first. */
  function WriteByteEvents(b: Byte): seq<Event>
  {
    [SetOutput] + WriteBits(Unpack(b))
  }

  /** One clock pulse per bit: clock low, clock high, then sample. */
  function ReadBits(samples: seq<bool>): (t: seq<Event>)
    ensures |t| == 3 * |samples|
  {
    if samples == [] then []
    else ReadBits(samples[..|samples| - 1]) + [ClkLow, ClkHigh, Sample(samples[|samples| - 1])]
  }

  /** The pin actions of reading one byte whose samples are `samples`. */
  function ReadByteEvents(samples: seq<bool>): seq<Event>
  {
    [SetInput] + ReadBits(samples)
  }

  lemma AppendAssoc(a: seq<Event>, b: seq<Event>, c: seq<Event>)
    ensures (a + b) + c == a + (b + c)
  {
  }

  /** Setting bit `i` of `b` changes bit `i` to 1 and no other bit. */
  lemma SetBit(b: Byte, i: nat, j: nat)
    requires i < 8 && j < 8
    ensures Bit(b | (1 << i), j) == (Bit(b, j) || i == j)
  {
  }

  lemma WriteBitsStep(bits: seq<bool>, m: nat)
    requires m < |bits|
    ensures WriteBits(bits[..m + 1]) == WriteBits(bits[..m]) + [Drive(bits[m]), ClkLow, ClkHigh]
  {
    assert bits[..m + 1][..m] == bits[..m];
  }

  /** Driving bit `m` and one clock pulse extend a trace of the first `m` bits written to `m + 1` bits. */
  lemma WriteTraceStep(start: seq<Event>, t: seq<Event>, bits: seq<bool>, m: nat)
    requires m < |bits| && t == start + WriteBits(bits[..m])
    ensures t + [Drive(bits[m])] + [ClkLow, ClkHigh] == start + WriteBits(bits[..m + 1])
  {
    assert t + [Drive(bits[m])] + [ClkLow, ClkHigh] == t + [Drive(bits[m]), ClkLow, ClkHigh];
    WriteBitsStep(bits, m);
    AppendAssoc(start, WriteBits(bits[..m]), [Drive(bits[m]), ClkLow, ClkHigh]);
  }

  lemma ReadBitsStep(samples: seq<bool>, m: nat)
    requires m < |samples|
    ensures ReadBits(samples[..m + 1]) == ReadBits(samples[..m]) + [ClkLow, ClkHigh, Sample(samples[m])]
  {
    assert samples[..m + 1][..m] == samples[..m];
  }

  /** One more clock pulse and sample extend a trace of the first `m` bits read to `m + 1` bits. */
  lemma ReadTraceStep(start: seq<Event>, t: seq<Event>, samples: seq<bool>, m: nat)
    requires m < |samples| && t == start + ReadBits(samples[..m])
    ensures t + [ClkLow, ClkHigh] + [Sample(samples[m])] == start + ReadBits(samples[..m + 1])
  {
    assert t + [ClkLow, ClkHigh] + [Sample(samples[m])] == t + [ClkLow, ClkHigh, Sample(samples[m])];
    ReadBitsStep(samples, m);
    AppendAssoc(start, ReadBits(samples[..m]), [ClkLow, ClkHigh, Sample(samples[m])]);
  }

  lemma {:induction false} WriteBitsAt(bits: seq<bool>, k: nat)
    requires k < |bits|
    ensures WriteBits(bits)[3 * k] == Drive(bits[k])
    ensures WriteBits(bits)[3 * k + 1] == ClkLow && WriteBits(bits)[3 * k + 2] == ClkHigh
  {
    var init := bits[..|bits| - 1];
    if k < |init| {
      WriteBitsAt(init, k);
    }
  }

  lemma {:induction false} ReadBitsAt(samples: seq<bool>, k: nat)
    requires k < |samples|
    ensures ReadBits(samples)[3 * k] == ClkLow && ReadBits(samples)[3 * k + 1] == ClkHigh
    ensures ReadBits(samples)[3 * k + 2] == Sample(samples[k])
  {
    var init := samples[..|samples| - 1];
    if k < |init| {
      ReadBitsAt(init, k);
    }
  }

  /**
   * Writing a byte switches the data pin to output first, then for the k-th
   * of 8 pulses drives bit 7 - k (most significant first), drives the clock
   * low and then high; the last action leaves the clock high.
   */
  lemma WriteByteShape(b: Byte, k: nat)
    requires k < 8
    ensures |WriteByteEvents(b)| == 25 && WriteByteEvents(b)[0] == SetOutput
    ensures WriteByteEvents(b)[1 + 3 * k] == Drive(Bit(b, 7 - k))
    ensures WriteByteEvents(b)[2 + 3 * k] == ClkLow
    ensures WriteByteEvents(b)[3 + 3 * k] == ClkHigh
    ensures WriteByteEvents(b)[24] == ClkHigh
  {
    WriteBitsAt(Unpack(b), k);
    WriteBitsAt(Unpack(b), 7);
  }

  /**
   * Reading a byte switches the data pin to input before anything else; the
   * k-th of 8 pulses drives the clock low, then high, and only then takes the
   * k-th sample; the clock is high at the end.
   */
  lemma ReadByteShape(samples: seq<bool>, k: nat)
    requires |samples| == 8 && k < 8
    ensures |ReadByteEvents(samples)| == 25 && ReadByteEvents(samples)[0] == SetInput
    ensures ReadByteEvents(samples)[1 + 3 * k] == ClkLow
    ensures ReadByteEvents(samples)[2 + 3 * k] == ClkHigh
    ensures ReadByteEvents(samples)[3 + 3 * k] == Sample(samples[k])
  {
    ReadBitsAt(samples, k);
  }

  /** The number of occurrences of `e` in `t`. */
  function Count(t: seq<Event>, e: Event): nat
  {
    if t == [] then 0
    else Count(t[..|t| - 1], e) + (if t[|t| - 1] == e then 1 else 0)
  }

  lemma {:induction false} CountAppend(a: seq<Event>, b: seq<Event>)
    ensures forall e :: Count(a + b, e) == Count(a, e) + Count(b, e)
  {
    if b == [] {
      assert a + b == a;
    } else {
      var init := b[..|b| - 1];
      CountAppend(a, init);
      assert (a + b)[..|a + b| - 1] == a + init;
    }
  }

  lemma {:induction false} CountZero(t: seq<Event>, e: Event, i: nat)
    requires Count(t, e) == 0 && i < |t|
    ensures t[i] != e
  {
    if i < |t| - 1 {
      CountZero(t[..|t| - 1], e, i);
    }
  }

  /** Counts in one pulse of three events. */
  lemma CountTriple(x: Event, y: Event, z: Event)
    ensures forall e :: Count([x, y, z], e) == (if x == e then 1 else 0) + (if y == e then 1 else 0) + (if z == e then 1 else 0)
  {
    forall e
      ensures Count([x, y, z], e) == (if x == e then 1 else 0) + (if y == e then 1 else 0) + (if z == e then 1 else 0)
    {
      assert [x, y, z][..2] == [x, y] && [x, y][..1] == [x] && [x][..0] == [];
      assert Count([x], e) == (if x == e then 1 else 0);
      assert Count([x, y], e) == Count([x], e) + (if y == e then 1 else 0);
    }
  }

  /** `t` never switches the data pin to input and never samples it. */
  predicate NoSampling(t: seq<Event>)
  {
    Count(t, SetInput) == 0 && Count(t, Sample(false)) == 0 && Count(t, Sample(true)) == 0
  }

  /** `t` never switches the data pin to output and never drives it. */
  predicate NoDriving(t: seq<Event>)
  {
    Count(t, SetOutput) == 0 && Count(t, DataHigh) == 0 && Count(t, DataLow) == 0
  }

  lemma NoSamplingAt(t: seq<Event>, i: nat)
    requires NoSampling(t) && i < |t|
    ensures !DataIn(t[i])
  {
    CountZero(t, SetInput, i);
    CountZero(t, Sample(false), i);
    CountZero(t, Sample(true), i);
  }

  lemma NoDrivingAt(t: seq<Event>, i: nat)
    requires NoDriving(t) && i < |t|
    ensures !DataOut(t[i])
  {
    CountZero(t, SetOutput, i);
    CountZero(t, DataHigh, i);
    CountZero(t, DataLow, i);
  }

  lemma {:induction false} WriteBitsCounts(bits: seq<bool>)
    ensures Count(WriteBits(bits), ClkLow) == |bits|
    ensures Count(WriteBits(bits), ClkHigh) == |bits|
    ensures Count(WriteBits(bits), SetOutput) == 0
    ensures NoSampling(WriteBits(bits))
  {
    if bits != [] {
      var before := WriteBits(bits[..|bits| - 1]);
      var pulse := [Drive(bits[|bits| - 1]), ClkLow, ClkHigh];
      WriteBitsCounts(bits[..|bits| - 1]);
      CountAppend(before, pulse);
      CountTriple(Drive(bits[|bits| - 1]), ClkLow, ClkHigh);
    }
  }

  lemma {:induction false} ReadBitsCounts(samples: seq<bool>)
    ensures Count(ReadBits(samples), ClkLow) == |samples|
    ensures Count(ReadBits(samples), ClkHigh) == |samples|
    ensures Count(ReadBits(samples), SetInput) == 0
    ensures NoDriving(ReadBits(samples))
  {
    if samples != [] {
      var before := ReadBits(samples[..|samples| - 1]);
      var pulse := [ClkLow, ClkHigh, Sample(samples[|samples| - 1])];
      ReadBitsCounts(samples[..|samples| - 1]);
      CountAppend(before, pulse);
      CountTriple(ClkLow, ClkHigh, Sample(samples[|samples| - 1]));
    }
  }

  /** A byte write: 8 clock pulses, one switch to output, no sampling. */
  lemma WriteByteCounts(b: Byte)
    ensures Count(WriteByteEvents(b), ClkLow) == 8
    ensures Count(WriteByteEvents(b), ClkHigh) == 8
    ensures Count(WriteByteEvents(b), SetOutput) == 1
    ensures NoSampling(WriteByteEvents(b))
  {
    WriteBitsCounts(Unpack(b));
    CountAppend([SetOutput], WriteBits(Unpack(b)));
    assert [SetOutput][..0] == [];
  }

  /** A byte read: one pulse per sample, one switch to input, no driving. */
  lemma ReadByteCounts(samples: seq<bool>)
    ensures Count(ReadByteEvents(samples), ClkLow) == |samples|
    ensures Count(ReadByteEvents(samples), ClkHigh) == |samples|
    ensures Count(ReadByteEvents(samples), SetInput) == 1
    ensures NoDriving(ReadByteEvents(samples))
  {
    ReadBitsCounts(samples);
    CountAppend([SetInput], ReadBits(samples));
    assert [SetInput][..0] == [];
  }

  // ---------------------------------------------------------------------------
  // The pin actions of the bus operations
  // ---------------------------------------------------------------------------

  /** `write(words)`: each word written in index order. */
  function WriteEvents(words: seq<Byte>): (t: seq<Event>)
    ensures |t| == 25 * |words|
  {
    if words == [] then []
    else WriteEvents(words[..|words| - 1]) + WriteByteEvents(words[|words| - 1])
  }

  /** `read` of `n` bytes from a line whose samples, from number `from` on, are `line`. */
  function ReadEvents(line: nat -> bool, from: nat, n: nat): (t: seq<Event>)
    ensures |t| == 25 * n
  {
    if n == 0 then []
    else ReadEvents(line, from, n - 1) + ReadByteEvents(Levels(line, from + 8 * (n - 1), 8))
  }

  /** The bytes a read of `n` bytes yields: byte j decodes samples 8j .. 8j + 7. */
  function ReadBytes(line: nat -> bool, from: nat, n: nat): (r: seq<Byte>)
    ensures |r| == n
  {
    seq(n, j requires 0 <= j < n => Pack(Levels(line, from + 8 * j, 8)))
  }

  lemma SliceWhole(s: seq<Byte>)
    ensures s[..|s|] == s && s[|s|..] == []
  {
  }

  /**
   * Storing the next byte read over the first not-yet-read element of a
   * buffer extends the read prefix by one byte.
   */
  lemma ReadBytesStoreAt(line: nat -> bool, from: nat, j: nat, words: seq<Byte>)
    requires j < |words|
    ensures (ReadBytes(line, from, j) + words[j..])[j] == words[j]
    ensures (ReadBytes(line, from, j) + words[j..])[j := Pack(Levels(line, from + 8 * j, 8))]
      == ReadBytes(line, from, j + 1) + words[j + 1..]
  {
    ReadBytesStore(line, from, j, words[j..]);
    assert words[j..][1..] == words[j + 1..];
  }

  lemma ReadBytesStore(line: nat -> bool, from: nat, j: nat, rest: seq<Byte>)
    requires |rest| > 0
    ensures (ReadBytes(line, from, j) + rest)[j] == rest[0]
    ensures (ReadBytes(line, from, j) + rest)[j := Pack(Levels(line, from + 8 * j, 8))]
      == ReadBytes(line, from, j + 1) + rest[1..]
  {
  }

  /** `transfer(read, write)`: the whole write phase, then the whole read phase. */
  function TransferEvents(line: nat -> bool, from: nat, n: nat, words: seq<Byte>): seq<Event>
  {
    WriteEvents(words) + ReadEvents(line, from, n)
  }

  /** `transfer_in_place(words)`: per index, write the word, then read its replacement. */
  function InPlaceEvents(words: seq<Byte>, line: nat -> bool, from: nat): (t: seq<Event>)
    ensures |t| == 50 * |words|
  {
    if words == [] then []
    else
      var n := |words| - 1;
      InPlaceEvents(words[..n], line, from)
        + WriteByteEvents(words[n])
        + ReadByteEvents(Levels(line, from + 8 * n, 8))
  }

  lemma WriteEventsStep(words: seq<Byte>, j: nat)
    requires j < |words|
    ensures WriteEvents(words[..j + 1]) == WriteEvents(words[..j]) + WriteByteEvents(words[j])
  {
    assert words[..j + 1][..j] == words[..j];
  }

  lemma InPlaceEventsStep(words: seq<Byte>, j: nat, line: nat -> bool, from: nat)
    requires j < |words|
    ensures InPlaceEvents(words[..j + 1], line, from)
      == InPlaceEvents(words[..j], line, from) + WriteByteEvents(words[j]) + ReadByteEvents(Levels(line, from + 8 * j, 8))
  {
    assert words[..j + 1][..j] == words[..j];
  }

  /** A trace that ends with the first `j` bytes written, extended by byte `j`'s write. */
  lemma WriteEventsExtend(start: seq<Event>, t: seq<Event>, words: seq<Byte>, j: nat)
    requires j < |words| && t == start + WriteEvents(words[..j])
    ensures t + WriteByteEvents(words[j]) == start + WriteEvents(words[..j + 1])
  {
    WriteEventsStep(words, j);
    AppendAssoc(start, WriteEvents(words[..j]), WriteByteEvents(words[j]));
  }

  /** A trace that ends with `j` bytes read, extended by the read of byte `j`. */
  lemma ReadEventsExtend(start: seq<Event>, t: seq<Event>, line: nat -> bool, from: nat, j: nat)
    requires t == start + ReadEvents(line, from, j)
    ensures t + ReadByteEvents(Levels(line, from + 8 * j, 8)) == start + ReadEvents(line, from, j + 1)
  {
    AppendAssoc(start, ReadEvents(line, from, j), ReadByteEvents(Levels(line, from + 8 * j, 8)));
  }

  /** A trace that ends with `j` in-place exchanges, extended by exchange `j`. */
  lemma InPlaceEventsExtend(start: seq<Event>, t: seq<Event>, words: seq<Byte>, line: nat -> bool, from: nat, j: nat)
    requires j < |words| && t == start + InPlaceEvents(words[..j], line, from)
    ensures t + WriteByteEvents(words[j]) + ReadByteEvents(Levels(line, from + 8 * j, 8))
      == start + InPlaceEvents(words[..j + 1], line, from)
  {
    var done := InPlaceEvents(words[..j], line, from);
    InPlaceEventsStep(words, j, line, from);
    AppendAssoc(start, done, WriteByteEvents(words[j]));
    AppendAssoc(start, done + WriteByteEvents(words[j]), ReadByteEvents(Levels(line, from + 8 * j, 8)));
  }

  /**
   * A write of `words` pulses the clock 8 times per word (none for an empty
   * buffer), switches the data pin to output once per word and never
   * switches it to input or samples it.
   */
  lemma {:induction false} WriteEventsCounts(words: seq<Byte>)
    ensures Count(WriteEvents(words), ClkLow) == 8 * |words|
    ensures Count(WriteEvents(words), ClkHigh) == 8 * |words|
    ensures Count(WriteEvents(words), SetOutput) == |words|
    ensures NoSampling(WriteEvents(words))
  {
    if words != [] {
      var before := WriteEvents(words[..|words| - 1]);
      var last := WriteByteEvents(words[|words| - 1]);
      WriteEventsCounts(words[..|words| - 1]);
      WriteByteCounts(words[|words| - 1]);
      CountAppend(before, last);
    }
  }

  /**
   * A read of `n` bytes pulses the clock 8 times per byte (none when n is 0),
   * switches the data pin to input once per byte and never drives it.
   */
  lemma {:induction false} ReadEventsCounts(line: nat -> bool, from: nat, n: nat)
    ensures Count(ReadEvents(line, from, n), ClkLow) == 8 * n
    ensures Count(ReadEvents(line, from, n), ClkHigh) == 8 * n
    ensures Count(ReadEvents(line, from, n), SetInput) == n
    ensures NoDriving(ReadEvents(line, from, n))
  {
    if n > 0 {
      var before := ReadEvents(line, from, n - 1);
      var last := ReadByteEvents(Levels(line, from + 8 * (n - 1), 8));
      ReadEventsCounts(line, from, n - 1);
      ReadByteCounts(Levels(line, from + 8 * (n - 1), 8));
      CountAppend(before, last);
    }
  }

  lemma SliceOfPrefix(a: seq<Event>, b: seq<Event>, i: nat, k: nat)
    requires i <= k <= |a|
    ensures (a + b)[i..k] == a[i..k]
  {
  }

  lemma SliceOfSuffix(a: seq<Event>, b: seq<Event>)
    ensures (a + b)[|a|..|a| + |b|] == b
  {
  }

  /**
   * `write` handles the words in index order: actions 25j up to 25j + 25 are
   * exactly the write of word j.
   */
  lemma {:induction false} WriteEventsAt(words: seq<Byte>, j: nat)
    requires j < |words|
    ensures WriteEvents(words)[25 * j..25 * j + 25] == WriteByteEvents(words[j])
  {
    var n := |words| - 1;
    var before := WriteEvents(words[..n]);
    var last := WriteByteEvents(words[n]);
    if j < n {
      WriteEventsAt(words[..n], j);
      assert words[..n][j] == words[j];
      SliceOfPrefix(before, last, 25 * j, 25 * j + 25);
    } else {
      SliceOfSuffix(before, last);
    }
  }

  /**
   * `read` fills the buffer in index order: actions 25j up to 25j + 25 are
   * exactly the read of byte j, from samples 8j to 8j + 7.
   */
  lemma {:induction false} ReadEventsAt(line: nat -> bool, from: nat, n: nat, j: nat)
    requires j < n
    ensures ReadEvents(line, from, n)[25 * j..25 * j + 25] == ReadByteEvents(Levels(line, from + 8 * j, 8))
  {
    var before := ReadEvents(line, from, n - 1);
    var last := ReadByteEvents(Levels(line, from + 8 * (n - 1), 8));
    if j < n - 1 {
      ReadEventsAt(line, from, n - 1, j);
      SliceOfPrefix(before, last, 25 * j, 25 * j + 25);
    } else {
      SliceOfSuffix(before, last);
    }
  }

  /**
   * In a transfer every event that drives the data line comes before every
   * event that samples it, and the first 25 * |words| events, the write
   * phase, already hold all 8 * |words| of its clock pulses.
   */
  lemma TransferOrder(line: nat -> bool, from: nat, n: nat, words: seq<Byte>)
    ensures var t := TransferEvents(line, from, n, words);
      forall i, j :: 0 <= i < |t| && 0 <= j < |t| && DataOut(t[i]) && DataIn(t[j]) ==> i < j
    ensures var t := TransferEvents(line, from, n, words);
      Count(t[..25 * |words|], ClkHigh) == 8 * |words|
  {
    var w := WriteEvents(words);
    var r := ReadEvents(line, from, n);
    var t := TransferEvents(line, from, n, words);
    WriteEventsCounts(words);
    ReadEventsCounts(line, from, n);
    forall i, j | 0 <= i < |t| && 0 <= j < |t| && DataOut(t[i]) && DataIn(t[j])
      ensures i < j
    {
      if i >= |w| {
        NoDrivingAt(r, i - |w|);
      }
      if j < |w| {
        NoSamplingAt(w, j);
      }
    }
    assert t[..25 * |words|] == w;
  }

  /**
   * Transfer in place handles one index per 50 actions: actions 50j up to
   * 50j + 50 are exactly the write of the original word j followed by the
   * read of its replacement.
   */
  lemma {:induction false} InPlaceRound(words: seq<Byte>, line: nat -> bool, from: nat, j: nat)
    requires j < |words|
    ensures InPlaceEvents(words, line, from)[50 * j..50 * j + 50]
      == WriteByteEvents(words[j]) + ReadByteEvents(Levels(line, from + 8 * j, 8))
  {
    var n := |words| - 1;
    var before := InPlaceEvents(words[..n], line, from);
    var written := WriteByteEvents(words[n]);
    var read := ReadByteEvents(Levels(line, from + 8 * n, 8));
    AppendAssoc(before, written, read);
    assert InPlaceEvents(words, line, from) == before + (written + read);
    if j < n {
      InPlaceRound(words[..n], line, from, j);
      assert words[..n][j] == words[j];
      SliceOfPrefix(before, written + read, 50 * j, 50 * j + 50);
    } else {
      SliceOfSuffix(before, written + read);
    }
  }

  /**
   * So the data pin switches direction on every byte: to output at action
   * 50j, before word j is driven, and to input at action 50j + 25, before
   * its replacement is sampled.
   */
  lemma InPlaceSwitches(words: seq<Byte>, line: nat -> bool, from: nat, j: nat)
    requires j < |words|
    ensures InPlaceEvents(words, line, from)[50 * j] == SetOutput
    ensures InPlaceEvents(words, line, from)[50 * j + 25] == SetInput
  {
    var t := InPlaceEvents(words, line, from);
    var samples := Levels(line, from + 8 * j, 8);
    InPlaceRound(words, line, from, j);
    WriteByteShape(words[j], 0);
    ReadByteShape(samples, 0);
    assert t[50 * j] == t[50 * j..50 * j + 50][0];
    assert t[50 * j + 25] == t[50 * j..50 * j + 50][25];
    assert (WriteByteEvents(words[j]) + ReadByteEvents(samples))[25] == ReadByteEvents(samples)[0];
  }

  // ---------------------------------------------------------------------------
  // Direction discipline
  // ---------------------------------------------------------------------------

  /** The data pin's direction after the actions `t`, starting in mode `m`. */
  function ModeAfter(m: Mode, t: seq<Event>): Mode
    decreases |t|
  {
    if t == [] then m
    else
      match t[0]
      case SetOutput => ModeAfter(Output, t[1..])
      case SetInput => ModeAfter(Input, t[1..])
      case _ => ModeAfter(m, t[1..])
  }

  /**
   * Starting in mode `m`, every drive of the data line in `t` happens while
   * the pin is an output and every sample while it is an input.
   */
  predicate Directed(m: Mode, t: seq<Event>)
    decreases |t|
  {
    if t == [] then true
    else
      match t[0]
      case SetOutput => Directed(Output, t[1..])
      case SetInput => Directed(Input, t[1..])
      case DataHigh => m == Output && Directed(m, t[1..])
      case DataLow => m == Output && Directed(m, t[1..])
      case Sample(_) => m == Input && Directed(m, t[1..])
      case ClkLow => Directed(m, t[1..])
      case ClkHigh => Directed(m, t[1..])
  }

  lemma {:induction false} DirectedAppend(m: Mode, a: seq<Event>, b: seq<Event>)
    ensures Directed(m, a + b) == (Directed(m, a) && Directed(ModeAfter(m, a), b))
    ensures ModeAfter(m, a + b) == ModeAfter(ModeAfter(m, a), b)
    decreases |a|
  {
    if a != [] {
      assert (a + b)[0] == a[0];
      assert (a + b)[1..] == a[1..] + b;
      match a[0]
      case SetOutput => DirectedAppend(Output, a[1..], b);
      case SetInput => DirectedAppend(Input, a[1..], b);
      case _ => DirectedAppend(m, a[1..], b);
    } else {
      assert a + b == b;
    }
  }

  lemma {:induction false} WriteBitsDirected(bits: seq<bool>)
    ensures Directed(Output, WriteBits(bits)) && ModeAfter(Output, WriteBits(bits)) == Output
  {
    if bits != [] {
      var init := bits[..|bits| - 1];
      var pulse := [Drive(bits[|bits| - 1]), ClkLow, ClkHigh];
      WriteBitsDirected(init);
      assert pulse[1..] == [ClkLow, ClkHigh] && pulse[1..][1..] == [ClkHigh];
      assert Directed(Output, [ClkHigh]) && ModeAfter(Output, [ClkHigh]) == Output;
      assert Directed(Output, [ClkLow, ClkHigh]) && ModeAfter(Output, [ClkLow, ClkHigh]) == Output;
      DirectedAppend(Output, WriteBits(init), pulse);
    }
  }

  lemma {:induction false} ReadBitsDirected(samples: seq<bool>)
    ensures Directed(Input, ReadBits(samples)) && ModeAfter(Input, ReadBits(samples)) == Input
  {
    if samples != [] {
      var init := samples[..|samples| - 1];
      var pulse := [ClkLow, ClkHigh, Sample(samples[|samples| - 1])];
      ReadBitsDirected(init);
      var last := [Sample(samples[|samples| - 1])];
      assert pulse[1..] == [ClkHigh] + last && pulse[1..][1..] == last;
      assert Directed(Input, last) && ModeAfter(Input, last) == Input;
      assert Directed(Input, [ClkHigh] + last) && ModeAfter(Input, [ClkHigh] + last) == Input;
      DirectedAppend(Input, ReadBits(init), pulse);
    }
  }

  /** Whatever the data pin's direction before, a byte write drives it only as an output. */
  lemma WriteByteDirected(m: Mode, b: Byte)
    ensures Directed(m, WriteByteEvents(b)) && ModeAfter(m, WriteByteEvents(b)) == Output
  {
    WriteBitsDirected(Unpack(b));
    DirectedAppend(m, [SetOutput], WriteBits(Unpack(b)));
  }

  /** Whatever the data pin's direction before, a byte read samples it only as an input. */
  lemma ReadByteDirected(m: Mode, samples: seq<bool>)
    ensures Directed(m, ReadByteEvents(samples)) && ModeAfter(m, ReadByteEvents(samples)) == Input
  {
    ReadBitsDirected(samples);
    DirectedAppend(m, [SetInput], ReadBits(samples));
  }

  /** `write` respects the direction discipline from any starting direction. */
  lemma {:induction false} WriteEventsDirected(m: Mode, words: seq<Byte>)
    ensures Directed(m, WriteEvents(words))
    ensures words != [] ==> ModeAfter(m, WriteEvents(words)) == Output
    ensures words == [] ==> ModeAfter(m, WriteEvents(words)) == m
  {
    if words != [] {
      var init := words[..|words| - 1];
      WriteEventsDirected(m, init);
      WriteByteDirected(ModeAfter(m, WriteEvents(init)), words[|words| - 1]);
      DirectedAppend(m, WriteEvents(init), WriteByteEvents(words[|words| - 1]));
    }
  }

  /** `read` respects the direction discipline from any starting direction. */
  lemma {:induction false} ReadEventsDirected(m: Mode, line: nat -> bool, from: nat, n: nat)
    ensures Directed(m, ReadEvents(line, from, n))
    ensures n > 0 ==> ModeAfter(m, ReadEvents(line, from, n)) == Input
    ensures n == 0 ==> ModeAfter(m, ReadEvents(line, from, n)) == m
  {
    if n > 0 {
      var samples := Levels(line, from + 8 * (n - 1), 8);
      ReadEventsDirected(m, line, from, n - 1);
      ReadByteDirected(ModeAfter(m, ReadEvents(line, from, n - 1)), samples);
      DirectedAppend(m, ReadEvents(line, from, n - 1), ReadByteEvents(samples));
    }
  }

  /** `transfer_in_place` respects the direction discipline from any starting direction. */
  lemma {:induction false} InPlaceEventsDirected(m: Mode, words: seq<Byte>, line: nat -> bool, from: nat)
    ensures Directed(m, InPlaceEvents(words, line, from))
    ensures words != [] ==> ModeAfter(m, InPlaceEvents(words, line, from)) == Input
  {
    if words != [] {
      var n := |words| - 1;
      var before := InPlaceEvents(words[..n], line, from);
      var samples := Levels(line, from + 8 * n, 8);
      InPlaceEventsDirected(m, words[..n], line, from);
      WriteByteDirected(ModeAfter(m, before), words[n]);
      DirectedAppend(m, before, WriteByteEvents(words[n]));
      ReadByteDirected(ModeAfter(m, before + WriteByteEvents(words[n])), samples);
      DirectedAppend(m, before + WriteByteEvents(words[n]), ReadByteEvents(samples));
    }
  }

  // ---------------------------------------------------------------------------
  // Loopback
  // ---------------------------------------------------------------------------

  /**
   * The line echoes `words`: from sample `from` on, the k-th sample taken for
   * the j-th byte reads the k-th bit (MSB first) written for the j-th byte.
   */
  ghost predicate Echoes(line: nat -> bool, from: nat, words: seq<Byte>)
  {
    forall j, k :: 0 <= j < |words| && 0 <= k < 8 ==> line(from + 8 * j + k) == Unpack(words[j])[k]
  }

  /** Reading back a line that echoes `words` yields `words`. */
  lemma Loopback(line: nat -> bool, from: nat, words: seq<Byte>)
    requires Echoes(line, from, words)
    ensures ReadBytes(line, from, |words|) == words
  {
    forall j | 0 <= j < |words|
      ensures ReadBytes(line, from, |words|)[j] == words[j]
    {
      var samples := Levels(line, from + 8 * j, 8);
      forall k | 0 <= k < 8
        ensures samples[k] == Unpack(words[j])[k]
      {
        assert samples[k] == line(from + 8 * j + k);
      }
      assert samples == Unpack(words[j]);
      PackUnpack(words[j]);
    }
  }
}
