/**
  Reading the column bus. The column pins are inputs with pull-ups, and the
  selected row is driven low, so a closed switch pulls its pin to 0: the
  inputs are active-low and read_columns inverts them into an active-high
  mask of closed switches.
 */
module Columns {
  import opened Bits

  /**
    read_columns: `~PIND` returned as a uint8_t. The C operand is promoted to
    the AVR's 16-bit int before the complement, and the return converts the
    result back to 8 bits by dropping the high byte.
   */
  function ReadColumns(pins: bv8): (cols: bv8)
    ensures forall i: BitIndex :: IsSet(cols, i) <==> IsClear(pins, i)
  {
    var cols := (!(pins as bv16) & 0xFF) as bv8;
    assert cols == !pins;
    assert forall i: BitIndex :: IsSet(cols, i) <==> IsClear(pins, i) by {
      forall i: BitIndex
        ensures IsSet(cols, i) <==> IsClear(pins, i)
      {
        NotBits(pins, i);
      }
    }
    cols
  }

  /** As a number, the inverted byte is 255 minus the pin byte. */
  lemma ReadColumnsValue(pins: bv8)
    ensures ReadColumns(pins) as int == 255 - pins as int
  {
  }

  /** Inverting twice gives back the raw pin levels: no information is lost. */
  lemma ReadColumnsInvertible(pins: bv8)
    ensures ReadColumns(ReadColumns(pins)) == pins
  {
  }

  /** All switches open (every pin pulled high) reads as no key; all closed reads as every key. */
  lemma ReadColumnsExtremes()
    ensures ReadColumns(0xFF) == 0
    ensures ReadColumns(0) == 0xFF
  {
  }
}
