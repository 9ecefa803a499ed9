/**
  The firmware's main loop. Every iteration selects the row, reads the
  column bus, unselects the row, reports an edge of column 7 (the only key
  this prototype names, "F9") and remembers the columns for the next
  iteration. The loop runs forever; the model is one iteration as a step
  function, and a finite run as the repetition of steps over a sequence of
  raw pin readings.
 */
module MainLoop {
  import opened Bits
  import opened Columns
  import opened Edges

  /** The column the loop watches. */
  const F9Column: BitIndex := 7

  /** The two messages the loop reports. */
  datatype F9Edge = F9Down | F9Up

  /** What survives from one iteration to the next: prev_cols. */
  datatype LoopState = LoopState(prevCols: bv8)

  /** At start-up prev_cols is 0: no key is considered held. */
  const PowerUp: LoopState := LoopState(0)

  /** One iteration: the columns it read, what it reported, and the next state. */
  datatype Iteration = Iteration(cols: bv8, notices: seq<F9Edge>, next: LoopState)

  /** The two column-7 tests of the loop body, key-down test first. */
  function F9Edges(cols: bv8, prev: bv8): (r: seq<F9Edge>)
    ensures |r| <= 1
    ensures F9Down in r <==> IsSet(cols, F9Column) && IsClear(prev, F9Column)
    ensures F9Up in r <==> IsClear(cols, F9Column) && IsSet(prev, F9Column)
    ensures r == [] <==> IsSet(cols, F9Column) == IsSet(prev, F9Column)
    ensures r != [] ==> r == [if IsSet(prev, F9Column) then F9Up else F9Down]
  {
    (if IsSet(cols, F9Column) && IsClear(prev, F9Column) then [F9Down] else [])
    + (if IsClear(cols, F9Column) && IsSet(prev, F9Column) then [F9Up] else [])
  }

  /**
    One iteration of `while (1)` given the raw level of the column pins while
    the row is selected. Because the pins are active-low, F9 goes down when
    pin 7 reads low after having read high, and up in the opposite case.
   */
  function Step(s: LoopState, pins: bv8): (it: Iteration)
    ensures it.cols == ReadColumns(pins)
    ensures it.next.prevCols == it.cols
    ensures |it.notices| <= 1
    ensures F9Down in it.notices <==> IsClear(pins, F9Column) && IsClear(s.prevCols, F9Column)
    ensures F9Up in it.notices <==> IsSet(pins, F9Column) && IsSet(s.prevCols, F9Column)
    ensures it.notices == [] <==> IsSet(it.next.prevCols, F9Column) == IsSet(s.prevCols, F9Column)
    ensures it.notices != [] ==> it.notices == [if IsSet(s.prevCols, F9Column) then F9Up else F9Down]
  {
    var cols := ReadColumns(pins);
    Iteration(cols, F9Edges(cols, s.prevCols), LoopState(cols))
  }

  /**
    The hard-wired column-7 check reports exactly what the general edge
    detector reports for column 7 when the row has all eight columns.
   */
  lemma F9MatchesDetector(cols: bv8, prev: bv8)
    ensures F9Down in F9Edges(cols, prev) <==> KeyDown(F9Column) in EdgesBelow(cols, prev, 8)
    ensures F9Up in F9Edges(cols, prev) <==> KeyUp(F9Column) in EdgesBelow(cols, prev, 8)
  {
    KeyDownIff(cols, prev, 8);
    KeyUpIff(cols, prev, 8);
  }

  /** The result of several iterations: the final state and every report, in order. */
  datatype Trace = Trace(final: LoopState, notices: seq<F9Edge>)

  /** Runs one iteration per pin reading, first reading first. */
  function Run(s: LoopState, readings: seq<bv8>): (t: Trace)
    ensures readings == [] ==> t == Trace(s, [])
    ensures |t.notices| <= |readings|
    decreases |readings|
  {
    if readings == [] then Trace(s, [])
    else
      var it := Step(s, readings[0]);
      var rest := Run(it.next, readings[1..]);
      Trace(rest.final, it.notices + rest.notices)
  }

  /** After a run, prev_cols holds the columns of the last reading. */
  lemma {:induction false} RunKeepsLastColumns(s: LoopState, readings: seq<bv8>)
    requires readings != []
    ensures Run(s, readings).final.prevCols == ReadColumns(readings[|readings| - 1])
    decreases |readings|
  {
    var it := Step(s, readings[0]);
    if |readings| > 1 {
      RunKeepsLastColumns(it.next, readings[1..]);
      assert readings[1..][|readings| - 2] == readings[|readings| - 1];
    }
  }

  /**
    The reports alternate: F9 up first when the key is held at the start,
    F9 down first otherwise, and never the same report twice in a row.
   */
  predicate Alternates(notices: seq<F9Edge>, held: bool)
    decreases |notices|
  {
    notices == [] || (notices[0] == (if held then F9Up else F9Down) && Alternates(notices[1..], !held))
  }

  /**
    Over any run, the reports alternate, starting from whether column 7 was
    held in the starting state.
   */
  lemma {:induction false} RunAlternates(s: LoopState, readings: seq<bv8>)
    ensures Alternates(Run(s, readings).notices, IsSet(s.prevCols, F9Column))
    decreases |readings|
  {
    if readings != [] {
      var it := Step(s, readings[0]);
      var rest := Run(it.next, readings[1..]);
      var all := it.notices + rest.notices;
      assert Run(s, readings) == Trace(rest.final, all);
      RunAlternates(it.next, readings[1..]);
      if it.notices != [] {
        assert all[0] == it.notices[0];
        assert all[1..] == rest.notices;
      } else {
        assert all == rest.notices;
      }
    }
  }

  /**
    Over any run, column 7 ends up held exactly when the last report was
    F9 down, or, with no report at all, when it was held at the start.
   */
  lemma {:induction false} RunEndsAsLastReport(s: LoopState, readings: seq<bv8>)
    ensures var t := Run(s, readings);
      IsSet(t.final.prevCols, F9Column)
        == if t.notices == [] then IsSet(s.prevCols, F9Column) else t.notices[|t.notices| - 1] == F9Down
    decreases |readings|
  {
    if readings != [] {
      var it := Step(s, readings[0]);
      var rest := Run(it.next, readings[1..]);
      var all := it.notices + rest.notices;
      assert Run(s, readings) == Trace(rest.final, all);
      RunEndsAsLastReport(it.next, readings[1..]);
      if rest.notices != [] {
        assert all[|all| - 1] == rest.notices[|rest.notices| - 1];
      } else {
        assert all == it.notices;
      }
    }
  }

  /** From power-up, the first report is always F9 down. */
  lemma PowerUpStartsWithDown(readings: seq<bv8>)
    requires Run(PowerUp, readings).notices != []
    ensures Run(PowerUp, readings).notices[0] == F9Down
  {
    RunAlternates(PowerUp, readings);
  }
}
