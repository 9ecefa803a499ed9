/**
  The column edge detector (detect_changes). One call compares the current
  column mask of a row with the mask of the previous scan and reports, for
  each scanned column in increasing order, a key-down when the bit went from
  0 to 1 and a key-up when it went from 1 to 0. The two handlers on_keydown
  and on_keyup are modelled as appending an event to the returned sequence.
 */
module Edges {
  import opened Bits

  /** What the handlers receive: the column whose switch closed or opened. */
  datatype Event = KeyDown(col: BitIndex) | KeyUp(col: BitIndex)

  /** Events are listed in strictly increasing column order. */
  predicate StrictlyIncreasing(events: seq<Event>)
  {
    forall j, k | 0 <= j < k < |events| :: events[j].col < events[k].col
  }

  /**
    One pass of the loop body for column i: the key-down test runs first,
    then the key-up test, each emitting at most one event.
   */
  function ColumnEdges(cols: bv8, prev: bv8, i: BitIndex): (r: seq<Event>)
    ensures r == [] <==> IsSet(cols, i) == IsSet(prev, i)
    ensures r != [] ==> r == [if IsSet(cols, i) then KeyDown(i) else KeyUp(i)]
  {
    (if IsSet(cols, i) && IsClear(prev, i) then [KeyDown(i)] else [])
    + (if IsClear(cols, i) && IsSet(prev, i) then [KeyUp(i)] else [])
  }

  /** The events of the first k passes of the loop, columns 0 .. k-1. */
  function EdgesBelow(cols: bv8, prev: bv8, k: nat): (r: seq<Event>)
    requires k <= 8
    ensures |r| <= k
  {
    if k == 0 then []
    else
      var before := EdgesBelow(cols, prev, k - 1);
      var here := ColumnEdges(cols, prev, k - 1);
      before + here
  }

  /** Every event of the first k passes is for a column below k. */
  lemma {:induction false} EventsBelowScanned(cols: bv8, prev: bv8, k: nat)
    requires k <= 8
    ensures forall e | e in EdgesBelow(cols, prev, k) :: e.col < k
  {
    if k > 0 {
      EventsBelowScanned(cols, prev, k - 1);
      var here := ColumnEdges(cols, prev, k - 1);
      assert forall e | e in here :: e.col == k - 1;
    }
  }

  /** One pass emits at most one event, for its own column. */
  lemma OneColumn(cols: bv8, prev: bv8, i: BitIndex)
    ensures |ColumnEdges(cols, prev, i)| <= 1
    ensures forall e | e in ColumnEdges(cols, prev, i) :: e.col == i
  {
  }

  /** Appending events of one column above all earlier columns keeps the order. */
  lemma AppendColumn(before: seq<Event>, here: seq<Event>, c: nat)
    requires StrictlyIncreasing(before)
    requires forall e | e in before :: e.col < c
    requires |here| <= 1
    requires forall e | e in here :: e.col == c
    ensures StrictlyIncreasing(before + here)
  {
    var all := before + here;
    forall j, m | 0 <= j < m < |all|
      ensures all[j].col < all[m].col
    {
      if m < |before| {
        assert all[j] == before[j] && all[m] == before[m];
      } else {
        assert all[m] == here[m - |before|] && all[m] in here;
        assert all[j] == before[j] && before[j] in before;
      }
    }
  }

  /** The events of the first k passes come in strictly increasing column order. */
  lemma {:induction false} EventsInColumnOrder(cols: bv8, prev: bv8, k: nat)
    requires k <= 8
    ensures StrictlyIncreasing(EdgesBelow(cols, prev, k))
  {
    if k > 0 {
      EventsInColumnOrder(cols, prev, k - 1);
      EventsBelowScanned(cols, prev, k - 1);
      var before := EdgesBelow(cols, prev, k - 1);
      var here := ColumnEdges(cols, prev, k - 1);
      OneColumn(cols, prev, k - 1);
      AppendColumn(before, here, k - 1);
      assert EdgesBelow(cols, prev, k) == before + here;
    }
  }

  /**
    detect_changes(cols, prev_cols) for a row of n columns (NUM_COLUMNS is a
    build-time constant of at most 8, since the masks are 8 bits wide).
   */
  method DetectChanges(cols: bv8, prev: bv8, n: nat) returns (events: seq<Event>)
    requires n <= 8
    ensures forall c: BitIndex :: KeyDown(c) in events <==> c < n && IsSet(cols, c) && IsClear(prev, c)
    ensures forall c: BitIndex :: KeyUp(c) in events <==> c < n && IsClear(cols, c) && IsSet(prev, c)
    ensures events == EdgesBelow(cols, prev, n)
  {
    events := [];
    var i: nat := 0;
    while i < n
      invariant i <= n
      invariant events == EdgesBelow(cols, prev, i)
    {
      ghost var before := events;
      if IsSet(cols, i) && IsClear(prev, i) {
        events := events + [KeyDown(i)];
      }
      if IsClear(cols, i) && IsSet(prev, i) {
        events := events + [KeyUp(i)];
      }
      assert events == before + ColumnEdges(cols, prev, i);
      assert EdgesBelow(cols, prev, i + 1) == before + ColumnEdges(cols, prev, i);
      i := i + 1;
    }
    assert events == EdgesBelow(cols, prev, n);
    KeyDownIff(cols, prev, n);
    KeyUpIff(cols, prev, n);
  }

  /** A key-down for column c is emitted iff c is scanned and its bit rose. */
  lemma {:induction false} KeyDownIff(cols: bv8, prev: bv8, k: nat)
    requires k <= 8
    ensures forall c: BitIndex ::
      KeyDown(c) in EdgesBelow(cols, prev, k) <==> c < k && IsSet(cols, c) && IsClear(prev, c)
  {
    if k > 0 {
      KeyDownIff(cols, prev, k - 1);
    }
  }

  /** A key-up for column c is emitted iff c is scanned and its bit fell. */
  lemma {:induction false} KeyUpIff(cols: bv8, prev: bv8, k: nat)
    requires k <= 8
    ensures forall c: BitIndex ::
      KeyUp(c) in EdgesBelow(cols, prev, k) <==> c < k && IsClear(cols, c) && IsSet(prev, c)
  {
    if k > 0 {
      KeyUpIff(cols, prev, k - 1);
    }
  }

  /**
    The key-down columns are the rising bits `cols & ~prev` and the key-up
    columns the falling bits `prev & ~cols`, both cut to the scanned columns;
    no column is reported both ways.
   */
  lemma RisingAndFallingMasks(cols: bv8, prev: bv8, n: nat)
    requires n <= 8
    ensures forall c: BitIndex ::
      KeyDown(c) in EdgesBelow(cols, prev, n) <==> IsSet(Masked(Rising(cols, prev), n), c)
    ensures forall c: BitIndex ::
      KeyUp(c) in EdgesBelow(cols, prev, n) <==> IsSet(Masked(Rising(prev, cols), n), c)
    ensures forall c: BitIndex ::
      !(KeyDown(c) in EdgesBelow(cols, prev, n) && KeyUp(c) in EdgesBelow(cols, prev, n))
  {
    KeyDownIff(cols, prev, n);
    KeyUpIff(cols, prev, n);
  }

  /** Bits at positions n and above never produce an event. */
  lemma {:induction false} UnscannedColumnsSilent(cols: bv8, prev: bv8, n: nat, c: BitIndex)
    requires n <= c
    requires n <= 8
    ensures KeyDown(c) !in EdgesBelow(cols, prev, n)
    ensures KeyUp(c) !in EdgesBelow(cols, prev, n)
  {
    EventsBelowScanned(cols, prev, n);
  }

  /** One event per scanned column whose bit changed, and no other events. */
  lemma {:induction false} EventCount(cols: bv8, prev: bv8, k: nat)
    requires k <= 8
    ensures |EdgesBelow(cols, prev, k)| == CountBelow(Changed(cols, prev), k)
  {
    if k > 0 {
      EventCount(cols, prev, k - 1);
      var ch := Changed(cols, prev);
      assert IsSet(ch, k - 1) <==> IsSet(cols, k - 1) != IsSet(prev, k - 1);
      assert CountBelow(ch, k) == CountBelow(ch, k - 1) + (if IsSet(ch, k - 1) then 1 else 0);
      assert |EdgesBelow(cols, prev, k)| == |EdgesBelow(cols, prev, k - 1)| + |ColumnEdges(cols, prev, k - 1)|;
    }
  }

  /** The detector is silent exactly when the scanned columns did not change. */
  lemma NoEventsIffUnchanged(cols: bv8, prev: bv8, n: nat)
    requires n <= 8
    ensures EdgesBelow(cols, prev, n) == [] <==> Masked(cols, n) == Masked(prev, n)
  {
    KeyDownIff(cols, prev, n);
    KeyUpIff(cols, prev, n);
    var events := EdgesBelow(cols, prev, n);
    var now := Masked(cols, n);
    var was := Masked(prev, n);
    if events == [] {
      forall i: BitIndex
        ensures IsSet(now, i) == IsSet(was, i)
      {
        assert KeyDown(i) !in events && KeyUp(i) !in events;
      }
      Extensionality(now, was);
    } else {
      var e := events[0];
      assert e in events;
      if e.KeyDown? {
        assert KeyDown(e.col) in events;
      } else {
        assert KeyUp(e.col) in events;
      }
      assert IsSet(now, e.col) != IsSet(was, e.col);
    }
  }

  /** Applies one event to a mask: a key-down sets its column, a key-up clears it. */
  function Apply(mask: bv8, e: Event): (r: bv8)
    ensures IsSet(r, e.col) <==> e.KeyDown?
    ensures forall i: BitIndex | i != e.col :: IsSet(r, i) == IsSet(mask, i)
  {
    match e
    case KeyDown(c) => SetBit(mask, c)
    case KeyUp(c) => ClearBit(mask, c)
  }

  /** Applies a sequence of events to a mask, first event first. */
  function Replay(mask: bv8, events: seq<Event>): bv8
    decreases |events|
  {
    if events == [] then mask else Replay(Apply(mask, events[0]), events[1..])
  }

  /** Replaying a concatenation replays the first part, then the second. */
  lemma {:induction false} ReplayAppend(mask: bv8, a: seq<Event>, b: seq<Event>)
    ensures Replay(mask, a + b) == Replay(Replay(mask, a), b)
    decreases |a|
  {
    if a != [] {
      assert (a + b)[0] == a[0];
      assert (a + b)[1..] == a[1..] + b;
      ReplayAppend(Apply(mask, a[0]), a[1..], b);
    } else {
      assert a + b == b;
    }
  }

  /**
    Replaying the events of column i on a mask that still holds prev's bit i
    gives that bit the value it has in cols and leaves every other bit alone.
   */
  lemma ReplayColumn(mask: bv8, cols: bv8, prev: bv8, i: BitIndex, j: BitIndex)
    requires IsSet(mask, i) == IsSet(prev, i)
    ensures IsSet(Replay(mask, ColumnEdges(cols, prev, i)), j) == if j == i then IsSet(cols, i) else IsSet(mask, j)
  {
    var here := ColumnEdges(cols, prev, i);
    if here == [] {
      assert Replay(mask, here) == mask;
    } else {
      assert here == [here[0]];
      assert here[1..] == [];
      assert Replay(mask, here) == Apply(mask, here[0]);
    }
  }

  /** Bit i after replaying column k-1 on the blend of the first k-1 columns. */
  lemma BlendStepBit(cols: bv8, prev: bv8, k: nat, i: BitIndex)
    requires 0 < k <= 8
    ensures IsSet(Replay(Blend(cols, prev, k - 1), ColumnEdges(cols, prev, k - 1)), i)
         == IsSet(Blend(cols, prev, k), i)
  {
    var mid := Blend(cols, prev, k - 1);
    assert IsSet(mid, k - 1) == IsSet(prev, k - 1);
    ReplayColumn(mid, cols, prev, k - 1, i);
    assert IsSet(mid, i) == if i < k - 1 then IsSet(cols, i) else IsSet(prev, i);
    assert IsSet(Blend(cols, prev, k), i) == if i < k then IsSet(cols, i) else IsSet(prev, i);
  }

  /** Replaying column k-1 turns the blend of the first k-1 columns into the blend of the first k. */
  lemma BlendStep(cols: bv8, prev: bv8, k: nat)
    requires 0 < k <= 8
    ensures Replay(Blend(cols, prev, k - 1), ColumnEdges(cols, prev, k - 1)) == Blend(cols, prev, k)
  {
    var out := Replay(Blend(cols, prev, k - 1), ColumnEdges(cols, prev, k - 1));
    forall i: BitIndex
      ensures IsSet(out, i) == IsSet(Blend(cols, prev, k), i)
    {
      BlendStepBit(cols, prev, k, i);
    }
    Extensionality(out, Blend(cols, prev, k));
  }

  /**
    Round trip: starting from prev and setting the bit of every key-down,
    clearing the bit of every key-up, gives cols on the scanned columns and
    leaves the other columns as they were in prev.
   */
  lemma {:induction false} ReplayReconstructs(cols: bv8, prev: bv8, k: nat)
    requires k <= 8
    ensures Replay(prev, EdgesBelow(cols, prev, k)) == Blend(cols, prev, k)
  {
    if k == 0 {
      Extensionality(prev, Blend(cols, prev, 0));
    } else {
      var before := EdgesBelow(cols, prev, k - 1);
      var here := ColumnEdges(cols, prev, k - 1);
      assert EdgesBelow(cols, prev, k) == before + here;
      ReplayAppend(prev, before, here);
      ReplayReconstructs(cols, prev, k - 1);
      BlendStep(cols, prev, k);
    }
  }

  /** With all eight columns scanned, replaying the events rebuilds cols exactly. */
  lemma ReplayFullRow(cols: bv8, prev: bv8)
    ensures Replay(prev, EdgesBelow(cols, prev, 8)) == cols
  {
    ReplayReconstructs(cols, prev, 8);
    BlendAll(cols, prev);
  }
}
