/** The carry rule of `bidirectionOptStrategy` as evidently intended: every
    row ends at its trailing edge, so the pass that reaches that edge owes
    the next row its Y move, and the first pass of the next row pays it.

    As written the loop drops the Y move in two cases. A row at least two
    columns wide that is all background takes the leading-run branch and
    sets no flag. On a grid one column wide the single pass is both leading
    and trailing, and which test it meets first depends on the sample: a
    background sample meets the trailing test first, so it records a
    carry but does not pay the pending one; a mark meets the leading test
    first, so it pays a pending carry but records none. The corrected loop
    body is the as-written one with the two edge rules enforced. */
module BidirectionCarry {
  import opened Wrappers
  import opened Raster
  import opened GCode
  import opened BidirectionOpt

  // ---------------------------------------------------------------------
  // The drop, as written

  /** Row 0 is all background and row 1 opens (right to left) on a
      background sample: no flag is pending when row 1 starts, so its mark
      is burned on row 0's line and no command moves to Y 1. */
  lemma AllBackgroundRowDropsY()
    ensures var r := Raster(2, 2, [[255, 255], [0, 255]]);
      && r.Valid()
      && FlagsBefore(r, 1) == Flags(false, false)
      && BidirectionOptStrategy(r) == [Command(G0, Some(2), None, None), Command(G1, Some(0), None, Some(1000))]
  {
    var r := Raster(2, 2, [[255, 255], [0, 255]]);
    assert r.Valid();
    var none := Flags(false, false);
    assert RunEnd(r.data[0], 0) == 1;
    assert EvenCell(r.data[0], 0, 0, none) == Step([Command(G0, Some(2), None, None)], 2, none);
    assert ScanRow(r.data[0], 0, none) == RowResult([Command(G0, Some(2), None, None)], none);
    assert RunStart(r.data[1], 1) == 1;
    assert OddCell(r.data[1], 1, 1, none) == Step([], 0, none);
    assert OddCell(r.data[1], 1, 0, none) == Step([Command(G1, Some(0), None, Some(1000))], -1, Flags(false, true));
    assert OddFrom(r.data[1], 1, 0, none).cmds == [Command(G1, Some(0), None, Some(1000))];
    assert ScanRow(r.data[1], 1, none).cmds == [Command(G1, Some(0), None, Some(1000))];
    assert CommandsUpTo(r, 1) == [Command(G0, Some(2), None, None)];
  }

  // ---------------------------------------------------------------------
  // The corrected loop

  /** The even-row loop body with the carry rule at both edges: the first
      pass resolves a pending `rightToLeft` with the row's Y, and the pass
      that reaches the last column always sets `leftToRight`. Everything
      else is the as-written pass. */
  function EvenCellFixed(row: seq<int>, y: nat, x: nat, f: Flags): (st: Step)
    requires IsRow(row) && x < |row|
    ensures x < st.next <= |row|
  {
    var st := EvenCell(row, y, x, f);
    EvenCellSingle(row, y, x, f);
    var out := if x == 0 && f.rightToLeft then [st.out[0].(y := Some(y))] else st.out;
    Step(out, st.next, Flags(st.flags.leftToRight || st.next == |row|, x != 0 && st.flags.rightToLeft))
  }

  /** The odd-row mirror: the pass at column `|row| - 1` resolves a pending
      `leftToRight`, and the pass that reaches column 0 always sets
      `rightToLeft`. */
  function OddCellFixed(row: seq<int>, y: nat, x: nat, f: Flags): (st: Step)
    requires IsRow(row) && x < |row|
    ensures -1 <= st.next < x
  {
    var st := OddCell(row, y, x, f);
    var lead := x == |row| - 1;
    var out := if lead && f.leftToRight && |st.out| == 1 then [st.out[0].(y := Some(y))] else st.out;
    Step(out, st.next, Flags(!lead && st.flags.leftToRight, st.flags.rightToLeft || st.next == -1))
  }

  function EvenFromFixed(row: seq<int>, y: nat, x: nat, f: Flags): RowResult
    requires IsRow(row) && x <= |row|
    decreases |row| - x
  {
    if x == |row| then RowResult([], f)
    else
      var st := EvenCellFixed(row, y, x, f);
      var rest := EvenFromFixed(row, y, st.next, st.flags);
      RowResult(st.out + rest.cmds, rest.flags)
  }

  function OddFromFixed(row: seq<int>, y: nat, x: int, f: Flags): RowResult
    requires IsRow(row) && -1 <= x < |row|
    decreases x + 1
  {
    if x < 0 then RowResult([], f)
    else
      var st := OddCellFixed(row, y, x, f);
      var rest := OddFromFixed(row, y, st.next, st.flags);
      RowResult(st.out + rest.cmds, rest.flags)
  }

  function ScanRowFixed(row: seq<int>, y: nat, f: Flags): RowResult
    requires IsRow(row)
  {
    if y % 2 == 0 then EvenFromFixed(row, y, 0, f) else OddFromFixed(row, y, |row| - 1, f)
  }

  function FixedFlagsBefore(r: Raster, y: nat): Flags
    requires r.Valid() && y <= r.rows
  {
    if y == 0 then Flags(false, false)
    else ScanRowFixed(r.data[y - 1], y - 1, FixedFlagsBefore(r, y - 1)).flags
  }

  function FixedRowCommands(r: Raster, y: nat): seq<Command>
    requires r.Valid() && y < r.rows
  {
    ScanRowFixed(r.data[y], y, FixedFlagsBefore(r, y)).cmds
  }

  function FixedCommandsUpTo(r: Raster, n: nat): seq<Command>
    requires r.Valid() && n <= r.rows
  {
    if n == 0 then [] else FixedCommandsUpTo(r, n - 1) + FixedRowCommands(r, n - 1)
  }

  /** The corrected strategy. */
  function BidirectionOptFixed(r: Raster): seq<Command>
    requires r.Valid()
  {
    FixedCommandsUpTo(r, r.rows)
  }

  // ---------------------------------------------------------------------
  // What the corrected loop guarantees

  /** One corrected even pass: the as-written shape and marks, Y only on
      the first column, and the edge rules. */
  lemma EvenCellFixedFacts(row: seq<int>, y: nat, x: nat, f: Flags)
    requires IsRow(row) && x < |row|
    ensures var st := EvenCellFixed(row, y, x, f);
      && |st.out| == 1
      && RowShape(st.out, y, x == 0)
      && Powered(st.out) + EvenMarks(row, st.next) == EvenMarks(row, x)
      && (st.next == |row| ==> st.flags.leftToRight)
      && (f.leftToRight ==> st.flags.leftToRight)
      && (x > 0 ==> st.flags.rightToLeft == f.rightToLeft)
      && (x == 0 ==> !st.flags.rightToLeft && (f.rightToLeft ==> st.out[0].y == Some(y)))
  {
    var st := EvenCell(row, y, x, f);
    EvenCellSingle(row, y, x, f);
    EvenCellOutput(row, y, x, f);
    EvenCellFlags(row, y, x, f);
    var fixed := EvenCellFixed(row, y, x, f);
    PoweredSingle(st.out[0]);
    PoweredSingle(fixed.out[0]);
    assert st.out == [st.out[0]];
  }

  /** The mirror of `EvenCellFixedFacts`. At the leading column a pending
      carry always meets exactly one command of the as-written pass. */
  lemma OddCellFixedFacts(row: seq<int>, y: nat, x: nat, f: Flags)
    requires IsRow(row) && x < |row|
    ensures var st := OddCellFixed(row, y, x, f);
      && |st.out| <= 1
      && RowShape(st.out, y, x == |row| - 1)
      && Powered(st.out) + OddMarks(row, st.next) == OddMarks(row, x)
      && (st.next == -1 ==> st.flags.rightToLeft)
      && (f.rightToLeft ==> st.flags.rightToLeft)
      && (x < |row| - 1 ==> st.flags.leftToRight == f.leftToRight)
      && (x == |row| - 1 ==> !st.flags.leftToRight && (f.leftToRight ==> |st.out| == 1 && st.out[0].y == Some(y)))
  {
    var st := OddCell(row, y, x, f);
    OddCellSingle(row, y, x, f);
    OddCellOutput(row, y, x, f);
    OddCellFlags(row, y, x, f);
    OddLeadingEmits(row, y, x, f);
    var fixed := OddCellFixed(row, y, x, f);
    if |st.out| == 1 {
      PoweredSingle(st.out[0]);
      PoweredSingle(fixed.out[0]);
      assert st.out == [st.out[0]];
    }
  }

  /** As written, the odd pass at the leading column with `leftToRight`
      pending emits one command. */
  lemma OddLeadingEmits(row: seq<int>, y: nat, x: nat, f: Flags)
    requires IsRow(row) && x < |row|
    ensures x == |row| - 1 && f.leftToRight ==> |OddCell(row, y, x, f).out| == 1
  {
    if x == |row| - 1 && f.leftToRight && row[x] == Background {
      var e := RunStart(row, x);
      if x - e > 0 {
        assert e + (x - e) == |row| - 1;
      }
    }
  }

  /** A corrected even row from column `x`: only its first command may set
      Y, its marks are the row's marks, the last pass leaves
      `leftToRight` set, and a carry pending at column 0 becomes the Y of
      the row's first command. */
  lemma {:induction false} EvenRowFixed(row: seq<int>, y: nat, x: nat, f: Flags)
    requires IsRow(row) && x <= |row|
    ensures var r := EvenFromFixed(row, y, x, f);
      && RowShape(r.cmds, y, x == 0)
      && Powered(r.cmds) == EvenMarks(row, x)
      && |r.cmds| <= |row| - x
      && (x < |row| ==> r.flags.leftToRight)
      && (f.leftToRight ==> r.flags.leftToRight)
      && (x > 0 ==> r.flags.rightToLeft == f.rightToLeft)
      && (x == 0 && |row| > 0 ==>
            |r.cmds| > 0 && !r.flags.rightToLeft && (f.rightToLeft ==> r.cmds[0].y == Some(y)))
    decreases |row| - x
  {
    if x < |row| {
      var st := EvenCellFixed(row, y, x, f);
      var rest := EvenFromFixed(row, y, st.next, st.flags);
      EvenCellFixedFacts(row, y, x, f);
      EvenRowFixed(row, y, st.next, st.flags);
      RowShapeConcat(st.out, rest.cmds, y, x == 0);
      PoweredConcat(st.out, rest.cmds);
    }
  }

  /** The mirror of `EvenRowFixed`. */
  lemma {:induction false} OddRowFixed(row: seq<int>, y: nat, x: int, f: Flags)
    requires IsRow(row) && -1 <= x < |row|
    ensures var r := OddFromFixed(row, y, x, f);
      && RowShape(r.cmds, y, x == |row| - 1)
      && Powered(r.cmds) == OddMarks(row, x)
      && |r.cmds| <= x + 1
      && (x >= 0 ==> r.flags.rightToLeft)
      && (f.rightToLeft ==> r.flags.rightToLeft)
      && (x < |row| - 1 ==> r.flags.leftToRight == f.leftToRight)
      && (x == |row| - 1 && |row| > 0 ==>
            |r.cmds| > 0 && !r.flags.leftToRight && (f.leftToRight ==> r.cmds[0].y == Some(y)))
    decreases x + 1
  {
    if x >= 0 {
      var st := OddCellFixed(row, y, x, f);
      var rest := OddFromFixed(row, y, st.next, st.flags);
      OddCellFixedFacts(row, y, x, f);
      OddRowFixed(row, y, st.next, st.flags);
      RowShapeConcat(st.out, rest.cmds, y, x == |row| - 1);
      PoweredConcat(st.out, rest.cmds);
    }
  }

  /** Every corrected row leaves the flag of its own direction set: after
      an even row `leftToRight` is pending, after an odd row
      `rightToLeft`. */
  lemma FixedRowOwesMove(r: Raster, y: nat)
    requires r.Valid() && r.cols >= 1 && 0 < y <= r.rows
    ensures y % 2 == 1 ==> FixedFlagsBefore(r, y).leftToRight
    ensures y % 2 == 0 ==> FixedFlagsBefore(r, y).rightToLeft
  {
    var row := r.data[y - 1];
    assert |row| == r.cols && IsRow(row);
    if (y - 1) % 2 == 0 {
      EvenRowFixed(row, y - 1, 0, FixedFlagsBefore(r, y - 1));
    } else {
      OddRowFixed(row, y - 1, |row| - 1, FixedFlagsBefore(r, y - 1));
    }
  }

  /** A corrected row in its scan direction: only the first command may
      set Y, a carry owed by the row before becomes that Y, the powered
      commands are the row's marks, and there is at most one command per
      column. */
  lemma FixedRowFacts(row: seq<int>, y: nat, f: Flags)
    requires IsRow(row) && |row| > 0
    ensures var cmds := ScanRowFixed(row, y, f).cmds;
      && 0 < |cmds| <= |row|
      && AllHaveX(cmds)
      && ((if y % 2 == 0 then f.rightToLeft else f.leftToRight) ==> cmds[0].y == Some(y))
      && (forall i :: 0 < i < |cmds| ==> cmds[i].y.None?)
      && Powered(cmds) == RowMarks(row, y)
  {
    var cmds := ScanRowFixed(row, y, f).cmds;
    if y % 2 == 0 {
      EvenRowFixed(row, y, 0, f);
    } else {
      OddRowFixed(row, y, |row| - 1, f);
    }
    ShapedRow(cmds, y);
  }

  /** A row of the boustrophedon shape sets X everywhere and Y at most on
      its first command. */
  lemma ShapedRow(cmds: seq<Command>, y: nat)
    requires RowShape(cmds, y, true)
    ensures AllHaveX(cmds)
    ensures forall i :: 0 < i < |cmds| ==> cmds[i].y.None?
  {
  }

  /** With the corrected carry rule, on any grid at least one column wide,
      every row after the first moves to its own Y exactly once: its first
      command carries Y = row and no other command of the row sets Y. The
      row's powered commands are still its marks in scan order. */
  lemma FixedEveryRowMoves(r: Raster, y: nat)
    requires r.Valid() && r.cols >= 1 && y < r.rows
    ensures var cmds := FixedRowCommands(r, y);
      && |cmds| > 0
      && (y > 0 ==> cmds[0].y == Some(y))
      && (forall i :: 0 < i < |cmds| ==> cmds[i].y.None?)
      && Powered(cmds) == RowMarks(r.data[y], y)
  {
    assert |r.data[y]| == r.cols && IsRow(r.data[y]);
    if y > 0 {
      FixedRowOwesMove(r, y);
    }
    FixedRowFacts(r.data[y], y, FixedFlagsBefore(r, y));
  }

  /** On the two grids where the as-written loop drops a Y move, the
      corrected loop emits it. */
  lemma FixedRestoresDroppedMoves()
    ensures var r := Raster(2, 2, [[255, 255], [0, 255]]);
      r.Valid() && BidirectionOptFixed(r)
        == [Command(G0, Some(2), None, None), Command(G0, Some(1), Some(1), None), Command(G1, Some(0), None, Some(1000))]
    ensures var r := Raster(2, 1, [[255], [255]]);
      r.Valid() && BidirectionOptFixed(r) == [Command(G0, Some(1), None, None), Command(G0, Some(0), Some(1), None)]
    ensures var r := Raster(2, 1, [[0], [0]]);
      r.Valid() && BidirectionOptFixed(r) == [Command(G1, Some(1), None, Some(1000)), Command(G0, Some(0), Some(1), Some(1000))]
  {
    var r := Raster(2, 2, [[255, 255], [0, 255]]);
    assert r.Valid();
    var none := Flags(false, false);
    assert RunEnd(r.data[0], 0) == 1;
    assert EvenCell(r.data[0], 0, 0, none) == Step([Command(G0, Some(2), None, None)], 2, none);
    assert EvenCellFixed(r.data[0], 0, 0, none) == Step([Command(G0, Some(2), None, None)], 2, Flags(true, false));
    assert FixedFlagsBefore(r, 1) == Flags(true, false);
    assert RunStart(r.data[1], 1) == 1;
    assert OddCell(r.data[1], 1, 1, Flags(true, false)) == Step([Command(G0, Some(1), Some(1), None)], 0, none);
    assert OddCellFixed(r.data[1], 1, 1, Flags(true, false)) == Step([Command(G0, Some(1), Some(1), None)], 0, none);
    assert OddCellFixed(r.data[1], 1, 0, none) == Step([Command(G1, Some(0), None, Some(1000))], -1, Flags(false, true));
    assert FixedRowCommands(r, 1) == [Command(G0, Some(1), Some(1), None), Command(G1, Some(0), None, Some(1000))];
    assert FixedCommandsUpTo(r, 1) == [Command(G0, Some(2), None, None)];

    var s := Raster(2, 1, [[255], [255]]);
    assert s.Valid();
    assert EvenCell(s.data[0], 0, 0, none) == Step([Command(G0, Some(1), None, None)], 1, Flags(true, false));
    assert EvenCellFixed(s.data[0], 0, 0, none) == Step([Command(G0, Some(1), None, None)], 1, Flags(true, false));
    assert FixedFlagsBefore(s, 1) == Flags(true, false);
    assert OddCell(s.data[1], 1, 0, Flags(true, false)) == Step([Command(G0, Some(0), None, None)], -1, Flags(true, true));
    assert OddCellFixed(s.data[1], 1, 0, Flags(true, false)) == Step([Command(G0, Some(0), Some(1), None)], -1, Flags(false, true));
    assert FixedRowCommands(s, 1) == [Command(G0, Some(0), Some(1), None)];
    assert FixedCommandsUpTo(s, 1) == [Command(G0, Some(1), None, None)];

    var m := Raster(2, 1, [[0], [0]]);
    assert m.Valid();
    assert EvenCell(m.data[0], 0, 0, none) == Step([Command(G1, Some(1), None, Some(1000))], 1, none);
    assert EvenCellFixed(m.data[0], 0, 0, none) == Step([Command(G1, Some(1), None, Some(1000))], 1, Flags(true, false));
    assert FixedFlagsBefore(m, 1) == Flags(true, false);
    assert OddCell(m.data[1], 1, 0, Flags(true, false)) == Step([Command(G0, Some(0), Some(1), Some(1000))], -1, none);
    assert OddCellFixed(m.data[1], 1, 0, Flags(true, false)) == Step([Command(G0, Some(0), Some(1), Some(1000))], -1, Flags(false, true));
    assert FixedRowCommands(m, 1) == [Command(G0, Some(0), Some(1), Some(1000))];
    assert FixedCommandsUpTo(m, 1) == [Command(G1, Some(1), None, Some(1000))];
  }
}
