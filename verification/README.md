# Keyboard matrix firmware: column edge detector

A Dafny model of the logic core of `keyboard.c`, the firmware of a one-row
keyboard matrix prototype on an AVR (Teensy) board. The model covers:

- the register bit helpers `BIT`, `BIT_IS_SET` and `BIT_IS_CLEAR`, on 8-bit
  values (`bv8`), proved against the binary expansion of the register value;
- `read_columns`, which inverts the active-low column pins (pulled up,
  pulled to ground through a closed switch on the selected row) into an
  active-high mask of closed switches, including the C promotion of the
  operand to the AVR's 16-bit `int` before `~` and the truncation back to
  `uint8_t`;
- `detect_changes`, the edge detector: for each column below `NUM_COLUMNS`,
  in increasing order, a key-down when the column's bit went 0→1 and a
  key-up when it went 1→0. The two handlers `on_keydown`/`on_keyup` become
  `KeyDown(col)`/`KeyUp(col)` events appended to the returned sequence.
  `NUM_COLUMNS` is not defined in the file; it is the parameter `n <= 8`;
- one iteration of the main loop: read the columns, report "F9 down" or
  "F9 up" when bit 7 rises or falls, and store the columns as `prev_cols`;
  and a finite run of such iterations from the power-up state `prev_cols = 0`.

Modules: `Bits` (bits.dfy), `Columns` (columns.dfy), `Edges` (edges.dfy),
`MainLoop` (mainloop.dfy).

In this revision of the firmware:

- The key-down and key-up tests are interleaved by column: for each column
  the key-down test runs, then the key-up test (`ColumnEdges`,
  `EdgesBelow`).
- There is no anti-ghosting, held-key set, modifier handling or macro
  engine, so none is modelled.
- `main` never calls `detect_changes`; it tests bit 7 inline.
  `MainLoop.F9MatchesDetector` proves the two agree on column 7 for an
  eight-column row.

## Model

| member | source | states |
|---|---|---|
| Bits.Bit | keyboard.c:9 | `BIT(i)` is a nonzero mask with exactly one bit set (`r & (r - 1) == 0`) |
| Bits.BitValue | keyboard.c:9 | `BIT(i)` equals 2 to the power i as an unsigned number |
| Bits.IsSet | keyboard.c:10 | `BIT_IS_SET(x, i)` as the macro writes it, `x & BIT(i) != 0`; its meaning (digit i of x) is proved by `BitTestsMeanDigits` |
| Bits.IsClear | keyboard.c:11 | `BIT_IS_CLEAR(x, i)`, the negation of `x & BIT(i) != 0`; its meaning (digit i of x is 0) is proved by `BitTestsMeanDigits` |
| Bits.BitTestsMeanDigits | keyboard.c:10-11 | `BIT_IS_SET(x, i)` holds iff digit i of the binary expansion of x is 1, and `BIT_IS_CLEAR` iff it is 0 |
| Columns.ReadColumns | keyboard.c:20-23 | column bit i of the result is set exactly when pin i reads low (active-low inversion) |
| Columns.ReadColumnsValue | keyboard.c:22 | after promotion, complement and truncation to 8 bits, the result is 255 minus the pin byte |
| Columns.ReadColumnsInvertible | keyboard.c:22 | the inversion loses nothing: applying it twice gives back the pin byte |
| Columns.ReadColumnsExtremes | keyboard.c:14-23 | a corollary of `ReadColumnsValue` for the two extreme readings: all pins pulled high (no switch closed) reads as the empty mask; all pins low reads as every column closed |
| Edges.ColumnEdges | keyboard.c:65-70 | one loop pass emits nothing when the column's bit is unchanged, and otherwise exactly one event for that column: a key-down if the bit is now set, a key-up if it is now clear |
| Edges.EdgesBelow | keyboard.c:64-71 | the first k passes emit at most k events |
| Edges.EventsBelowScanned | keyboard.c:64 | every event of the first k passes is for a column below k |
| Edges.EventsInColumnOrder | keyboard.c:64-71 | the events come in strictly increasing column order |
| Edges.DetectChanges | keyboard.c:61-72 | the loop emits a key-down for column c iff c < n and the bit rose, a key-up iff c < n and it fell, and its events are those of the column-by-column reference `EdgesBelow` |
| Edges.KeyDownIff | keyboard.c:64-67 | a key-down for column c is emitted iff c is scanned, set in `cols` and clear in `prev_cols` |
| Edges.KeyUpIff | keyboard.c:64-70 | a key-up for column c is emitted iff c is scanned, clear in `cols` and set in `prev_cols` |
| Edges.RisingAndFallingMasks | keyboard.c:65-70 | the key-down columns are the bits of `cols & ~prev_cols` and the key-up columns those of `prev_cols & ~cols`, cut to the scanned columns; no column gets both |
| Edges.UnscannedColumnsSilent | keyboard.c:64 | columns at or above `NUM_COLUMNS` never produce an event |
| Edges.EventCount | keyboard.c:64-71 | the number of events equals the number of scanned bits on which `cols` and `prev_cols` differ |
| Edges.NoEventsIffUnchanged | keyboard.c:64-71 | no event is emitted iff `cols` and `prev_cols` agree on the scanned columns |
| Edges.ReplayReconstructs | keyboard.c:61-72 | starting from `prev_cols`, setting the bit of each key-down and clearing the bit of each key-up gives `cols` on the scanned columns and keeps `prev_cols` elsewhere |
| Edges.ReplayFullRow | keyboard.c:61-72 | with all eight columns scanned, replaying the events on `prev_cols` gives `cols` exactly |
| MainLoop.F9Edges | keyboard.c:100-105 | "F9 down" iff bit 7 rises, "F9 up" iff it falls, never both; nothing iff bit 7 is unchanged |
| MainLoop.Step | keyboard.c:96-106 | one iteration reads the inverted pins, reports F9 down iff pin 7 reads low now and column 7 was not held, F9 up iff pin 7 reads high and it was, and leaves `prev_cols == cols` |
| MainLoop.F9MatchesDetector | keyboard.c:100-105 | the inline bit-7 check reports F9 down/up exactly when the edge detector over eight columns reports key-down/key-up for column 7 |
| MainLoop.Run | keyboard.c:93-107 | a run with no readings changes nothing, and every iteration adds at most one report |
| MainLoop.RunKeepsLastColumns | keyboard.c:96-106 | after a run, `prev_cols` holds the inverted last pin reading |
| MainLoop.RunAlternates | keyboard.c:95-106 | over any run the F9 reports alternate, starting with F9 up when bit 7 was held at the start and with F9 down otherwise |
| MainLoop.RunEndsAsLastReport | keyboard.c:95-106 | after a run, bit 7 is held iff the last report was F9 down (or, with no report, iff it was held at the start) |
| MainLoop.PowerUpStartsWithDown | keyboard.c:93-105 | from power-up (`prev_cols = 0`) the first F9 report is always F9 down |

## Left out

- AVR register I/O in `init_columns`, `select_row` and `unselect_rows` (`DDRD`, `PORTD`, `DDRC`, `PORTC`): hardware side effects. The pin byte `PIND` is a parameter of `ReadColumns` and `Step`.
- Settle delays `_delay_us`/`_delay_ms` and `CPU_PRESCALE`: timing only, no logical content.
- `usb_init` and the `usb_configured` wait: calls into the USB library, which is not part of this model.
- Debug output (`print`, `print_row_col`) in `on_keydown`, `on_keyup` and the main loop: replaced by the `Event` and `F9Edge` values the handlers would print.
- `detect_row` and `set_detect_row`: they only tag the debug output with a row, so events carry the column alone.
- The endless `while (1)` loop: modelled as one `Step` and as `Run` over a finite sequence of pin readings.
- `BIT_IS_SET` yields a C `int` (the masked value) that is only ever used as a truth value; `IsSet` returns that truth value as a `bool`.
- `uint8_t i` as loop counter: its wrap-around cannot happen because `NUM_COLUMNS` is at most 8.
- Key-state aggregation, modifiers, anti-ghosting and macro record/replay: not present in this revision of the firmware.
