/**
 * The capability contract of a GPIO line whose electrical direction can be
 * switched at run time: the single bidirectional data line (SDIO) of the
 * half-duplex serial bus.
 *
 * The hardware behind the contract is not modelled. What the line presents
 * while the pin is an input is supplied from outside as an oracle `line`:
 * the k-th sample ever taken from the pin reads `line(k)`.
 */
module Pins {

  /** The electrical direction of a bidirectional pin. */
  datatype Mode = Input | Output

  /** The `n` levels the line presents from sample number `from` on. */
  function Levels(line: nat -> bool, from: nat, n: nat): (s: seq<bool>)
    ensures |s| == n
  {
    seq(n, k requires 0 <= k < n => line(from + k))
  }

  /**
   * One owned bidirectional pin. `mode` is its direction, `level` the level
   * it drives while it is an output (the output register keeps it while the
   * pin is an input), `consumed` the number of samples taken so far.
   */
  class BidirectionalPin {
    var mode: Mode
    var level: bool
    const line: nat -> bool
    var consumed: nat

    constructor (mode: Mode, level: bool, line: nat -> bool)
      ensures this.mode == mode && this.level == level && this.line == line
      ensures consumed == 0
    {
      this.mode := mode;
      this.level := level;
      this.line := line;
      consumed := 0;
    }

    /** The level the line presents to the next sample. */
    function Presented(): bool
      reads this
    {
      line(consumed)
    }

    /** The levels the next `n` samples will read. */
    function Upcoming(n: nat): (s: seq<bool>)
      reads this
      ensures |s| == n
      ensures n > 0 ==> s[0] == Presented()
    {
      Levels(line, consumed, n)
    }

    /** Switches the pin to output mode; nothing else changes. */
    method SetAsOutput()
      modifies this
      ensures mode == Output
      ensures level == old(level) && consumed == old(consumed)
    {
      mode := Output;
    }

    /** Switches the pin to input mode (no pull resistor); nothing else changes. */
    method SetAsInput()
      modifies this
      ensures mode == Input
      ensures level == old(level) && consumed == old(consumed)
    {
      mode := Input;
    }

    /** Drives the line high; only meaningful in output mode. */
    method SetHigh()
      requires mode == Output
      modifies this
      ensures level
      ensures mode == old(mode) && consumed == old(consumed)
    {
      level := true;
    }

    /** Drives the line low; only meaningful in output mode. */
    method SetLow()
      requires mode == Output
      modifies this
      ensures !level
      ensures mode == old(mode) && consumed == old(consumed)
    {
      level := false;
    }

    /** Samples the line; only meaningful in input mode. */
    method IsHigh() returns (high: bool)
      requires mode == Input
      modifies this
      ensures high == old(Presented())
      ensures consumed == old(consumed) + 1
      ensures mode == old(mode) && level == old(level)
    {
      high := line(consumed);
      consumed := consumed + 1;
    }

    /** The negation of `IsHigh`, taken from the same sample. */
    method IsLow() returns (low: bool)
      requires mode == Input
      modifies this
      ensures low == !old(Presented())
      ensures consumed == old(consumed) + 1
      ensures mode == old(mode) && level == old(level)
    {
      var high := IsHigh();
      low := !high;
    }
  }
}
