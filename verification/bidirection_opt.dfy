/** `bidirectionOptStrategy`: a boustrophedon scan (even rows left to right,
    odd rows right to left) that collapses runs of background samples into
    one rapid move, and defers the vertical move of a run that reaches a
    row's trailing edge to the first command of the next row.

    The two booleans of the source are kept as they are. `leftToRight` is
    set by the pass that finishes an even row at its last column (a
    trailing background run, a lone trailing background sample or a
    trailing mark) and tells the next row to put its Y on its first
    command. Two passes that reach the last column do not set it: a row
    at least two wide that is background throughout takes the leading-run
    branch, and a mark on a row one column wide takes the leading-mark
    branch. `rightToLeft` is the mirror for odd rows. Even rows emit the column index plus one, odd rows the column
    index itself. */
module BidirectionOpt {
  import opened Wrappers
  import opened Raster
  import opened GCode
  import Seqs

  datatype Flags = Flags(leftToRight: bool, rightToLeft: bool)

  /** One pass of the loop body: what it emitted, the column the loop
      continues from, and the flags after it. */
  datatype Step = Step(out: seq<Command>, next: int, flags: Flags)

  /** The commands of one row and the flags after it. */
  datatype RowResult = RowResult(cmds: seq<Command>, flags: Flags)

  /** The loop body for column `x` of an even (left-to-right) row. A
      background sample is first extended to the end of its run. */
  function EvenCell(row: seq<int>, y: nat, x: nat, f: Flags): (st: Step)
    requires IsRow(row) && x < |row|
    ensures x < st.next <= |row|
    ensures |st.out| <= 1
  {
    if row[x] == Background then
      var e := RunEnd(row, x);
      var length := e - x;
      if length > 0 then
        if e - length == 0 then
          // the run starts at the leading edge and absorbs a pending carry
          if f.rightToLeft then Step([Command(G0, Some(e + 1), Some(y), None)], e + 1, f.(rightToLeft := false))
          else Step([Command(G0, Some(e + 1), None, None)], e + 1, f)
        else if e == |row| - 1 then
          // the run reaches the trailing edge: move to its start, defer the Y move
          Step([Command(G0, Some(e + 1 - length), None, None)], e + 1, f.(leftToRight := true))
        else
          Step([Command(G0, Some(e + 1), None, None)], e + 1, f)
      else if x == |row| - 1 then
        Step([Command(G0, Some(x + 1), None, None)], x + 1, f.(leftToRight := true))
      else if x == 0 then
        Step([Command(G0, Some(x + 1), Some(y), None)], x + 1, f.(rightToLeft := false))
      else
        Step([Command(G0, Some(x + 1), None, None)], x + 1, f)
    else
      var p := Power(row[x]);
      if x == 0 && f.rightToLeft then
        // a leading mark absorbs the carry and is emitted as a G0 with power
        Step([Command(G0, Some(x + 1), Some(y), Some(p))], x + 1, f.(rightToLeft := false))
      else if x != 0 && x == |row| - 1 then
        Step([Command(G1, Some(x + 1), None, Some(p))], x + 1, f.(leftToRight := true))
      else
        Step([Command(G1, Some(x + 1), None, Some(p))], x + 1, f)
  }

  /** The loop body for column `x` of an odd (right-to-left) row, whose
      leading edge is column `|row| - 1`. */
  function OddCell(row: seq<int>, y: nat, x: nat, f: Flags): (st: Step)
    requires IsRow(row) && x < |row|
    ensures -1 <= st.next < x
    ensures |st.out| <= 1
  {
    var start := |row| - 1;
    if row[x] == Background then
      var e := RunStart(row, x);
      var length := x - e;
      if length > 0 then
        if e + length == start then
          // the run starts at the leading edge and absorbs a pending carry
          if f.leftToRight then Step([Command(G0, Some(e), Some(y), None)], e - 1, f.(leftToRight := false))
          else Step([Command(G0, Some(e), None, None)], e - 1, f)
        else if e == 0 then
          // the run reaches the trailing edge: emit nothing, defer the Y move
          Step([], e - 1, f.(rightToLeft := true))
        else
          Step([Command(G0, Some(e), None, None)], e - 1, f)
      else if x == 0 then
        Step([Command(G0, Some(x), None, None)], x - 1, f.(rightToLeft := true))
      else if x == start then
        if f.leftToRight then Step([Command(G0, Some(x), Some(y), None)], x - 1, f.(leftToRight := false))
        else Step([], x - 1, f)
      else
        Step([Command(G0, Some(x), None, None)], x - 1, f)
    else
      var p := Power(row[x]);
      if x == start && f.leftToRight then
        Step([Command(G0, Some(x), Some(y), Some(p))], x - 1, f.(leftToRight := false))
      else if x != start && x == 0 then
        Step([Command(G1, Some(x), None, Some(p))], x - 1, f.(rightToLeft := true))
      else
        Step([Command(G1, Some(x), None, Some(p))], x - 1, f)
  }

  /** The inner loop of an even row from column `x` on. */
  function EvenFrom(row: seq<int>, y: nat, x: nat, f: Flags): RowResult
    requires IsRow(row) && x <= |row|
    decreases |row| - x
  {
    if x == |row| then RowResult([], f)
    else
      var st := EvenCell(row, y, x, f);
      var rest := EvenFrom(row, y, st.next, st.flags);
      RowResult(st.out + rest.cmds, rest.flags)
  }

  /** The inner loop of an odd row from column `x` down to column 0. */
  function OddFrom(row: seq<int>, y: nat, x: int, f: Flags): RowResult
    requires IsRow(row) && -1 <= x < |row|
    decreases x + 1
  {
    if x < 0 then RowResult([], f)
    else
      var st := OddCell(row, y, x, f);
      var rest := OddFrom(row, y, st.next, st.flags);
      RowResult(st.out + rest.cmds, rest.flags)
  }

  /** Row `y` scanned in its direction. */
  function ScanRow(row: seq<int>, y: nat, f: Flags): RowResult
    requires IsRow(row)
  {
    if y % 2 == 0 then EvenFrom(row, y, 0, f) else OddFrom(row, y, |row| - 1, f)
  }

  /** The flags on entry to row `y`. */
  function FlagsBefore(r: Raster, y: nat): Flags
    requires r.Valid() && y <= r.rows
  {
    if y == 0 then Flags(false, false)
    else ScanRow(r.data[y - 1], y - 1, FlagsBefore(r, y - 1)).flags
  }

  /** The commands emitted for row `y`. */
  function RowCommands(r: Raster, y: nat): seq<Command>
    requires r.Valid() && y < r.rows
  {
    ScanRow(r.data[y], y, FlagsBefore(r, y)).cmds
  }

  /** The commands of rows `0 .. n-1`, in order. */
  function CommandsUpTo(r: Raster, n: nat): seq<Command>
    requires r.Valid() && n <= r.rows
  {
    if n == 0 then [] else CommandsUpTo(r, n - 1) + RowCommands(r, n - 1)
  }

  // ---------------------------------------------------------------------
  // Reference descriptions of what a row must produce

  /** Marks of columns `x ..` of an even row as (X, power) in scan order;
      X is the column plus one. */
  function EvenMarks(row: seq<int>, x: nat): seq<(Option<nat>, nat)>
    requires IsRow(row) && x <= |row|
    decreases |row| - x
  {
    if x == |row| then []
    else (if row[x] != Background then [(Some(x + 1), Power(row[x]))] else []) + EvenMarks(row, x + 1)
  }

  /** Marks of columns `x` down to 0 of an odd row as (X, power) in scan
      order; X is the column itself. */
  function OddMarks(row: seq<int>, x: int): seq<(Option<nat>, nat)>
    requires IsRow(row) && -1 <= x < |row|
    decreases x + 1
  {
    if x < 0 then []
    else (if row[x] != Background then [(Some(x), Power(row[x]))] else []) + OddMarks(row, x - 1)
  }

  function RowMarks(row: seq<int>, y: nat): seq<(Option<nat>, nat)>
    requires IsRow(row)
  {
    if y % 2 == 0 then EvenMarks(row, 0) else OddMarks(row, |row| - 1)
  }

  /** Every command sets X; only the command for the row's first cell (in
      scan order) may set Y, and then to the row; a G1 always carries power. */
  predicate RowShape(cmds: seq<Command>, y: nat, atStart: bool)
  {
    forall i :: 0 <= i < |cmds| ==>
      && cmds[i].x.Some?
      && (cmds[i].y.Some? ==> i == 0 && atStart && cmds[i].y == Some(y))
      && (cmds[i].kind == G1 ==> cmds[i].s.Some?)
  }

  lemma RowShapeConcat(a: seq<Command>, b: seq<Command>, y: nat, atStart: bool)
    requires |a| <= 1 && RowShape(a, y, atStart) && RowShape(b, y, false)
    ensures RowShape(a + b, y, atStart)
  {
    forall i | 0 <= i < |a + b|
      ensures (a + b)[i].x.Some?
      ensures (a + b)[i].y.Some? ==> i == 0 && atStart && (a + b)[i].y == Some(y)
      ensures (a + b)[i].kind == G1 ==> (a + b)[i].s.Some?
    {
      if i >= |a| {
        assert (a + b)[i] == b[i - |a|];
      }
    }
  }

  // ---------------------------------------------------------------------
  // One pass of the loop body

  lemma {:induction false} EvenMarksSkip(row: seq<int>, x: nat, e: nat)
    requires IsRow(row) && x <= e < |row|
    requires forall k :: x <= k <= e ==> row[k] == Background
    ensures EvenMarks(row, x) == EvenMarks(row, e + 1)
    decreases e - x
  {
    EvenMarksBackground(row, x);
    if x < e {
      EvenMarksSkip(row, x + 1, e);
    }
  }

  lemma EvenMarksBackground(row: seq<int>, x: nat)
    requires IsRow(row) && x < |row| && row[x] == Background
    ensures EvenMarks(row, x) == EvenMarks(row, x + 1)
  {
    var rest := EvenMarks(row, x + 1);
    assert EvenMarks(row, x) == [] + rest;
    assert [] + rest == rest;
  }

  lemma {:induction false} OddMarksSkip(row: seq<int>, e: nat, x: nat)
    requires IsRow(row) && e <= x < |row|
    requires forall k :: e <= k <= x ==> row[k] == Background
    ensures OddMarks(row, x) == OddMarks(row, e - 1)
    decreases x - e
  {
    OddMarksBackground(row, x);
    if e < x {
      OddMarksSkip(row, e, x - 1);
    }
  }

  lemma OddMarksBackground(row: seq<int>, x: nat)
    requires IsRow(row) && x < |row| && row[x] == Background
    ensures OddMarks(row, x) == OddMarks(row, x - 1)
  {
    var rest := OddMarks(row, x - 1);
    assert OddMarks(row, x) == [] + rest;
    assert [] + rest == rest;
  }

  /** What one pass over an even row emits. */
  lemma EvenCellOutput(row: seq<int>, y: nat, x: nat, f: Flags)
    requires IsRow(row) && x < |row|
    ensures var st := EvenCell(row, y, x, f);
      && RowShape(st.out, y, x == 0)
      && Powered(st.out) + EvenMarks(row, st.next) == EvenMarks(row, x)
      && Unpowered(st.out) + Runs(row[st.next..]) <= Runs(row[x..])
  {
    EvenCellSingle(row, y, x, f);
    var e := if row[x] == Background then RunEnd(row, x) else x;
    EvenStepOutput(row, y, x, e, EvenCell(row, y, x, f));
  }

  /** `EvenCellOutput` for any step with the shape `EvenCellSingle` gives,
      where a background sample belongs to the run `x .. e`. */
  lemma EvenStepOutput(row: seq<int>, y: nat, x: nat, e: nat, st: Step)
    requires IsRow(row) && x < |row|
    requires |st.out| == 1 && st.out[0].x.Some?
    requires st.out[0].y.Some? ==> x == 0 && st.out[0].y == Some(y)
    requires st.out[0].kind == G1 ==> st.out[0].s.Some?
    requires row[x] == Background ==> && x <= e < |row| && (forall k :: x <= k <= e ==> row[k] == Background)
                                      && (e + 1 == |row| || row[e + 1] != Background)
                                      && st.next == e + 1 && st.out[0].s.None?
    requires row[x] != Background ==> st.next == x + 1 && st.out[0].x == Some(x + 1)
                                      && st.out[0].s == Some(Power(row[x]))
    ensures 0 <= st.next <= |row|
    ensures RowShape(st.out, y, x == 0)
    ensures Powered(st.out) + EvenMarks(row, st.next) == EvenMarks(row, x)
    ensures Unpowered(st.out) + Runs(row[st.next..]) <= Runs(row[x..])
  {
    AtMostOneCommand(st.out, y, x == 0);
    if row[x] == Background {
      EvenBackgroundStep(row, x, e, st.out, st.next);
    } else {
      EvenMarkStep(row, x, st.out, st.next);
    }
  }

  /** A background run `x .. e` emits one unpowered command and skips
      to `e + 1`. */
  lemma EvenBackgroundStep(row: seq<int>, x: nat, e: nat, out: seq<Command>, next: int)
    requires IsRow(row) && x <= e < |row|
    requires forall k :: x <= k <= e ==> row[k] == Background
    requires e + 1 == |row| || row[e + 1] != Background
    requires next == e + 1
    requires |out| == 1 && out[0].s.None?
    ensures Powered(out) + EvenMarks(row, next) == EvenMarks(row, x)
    ensures Unpowered(out) + Runs(row[next..]) <= Runs(row[x..])
  {
    EvenMarksSkip(row, x, e);
    SuffixRuns(row, x, e);
    SkipAccounting(out, EvenMarks(row, x), EvenMarks(row, next), Runs(row[x..]), Runs(row[next..]));
  }

  /** One unpowered command that skips a run: no marks, one run. */
  lemma SkipAccounting(out: seq<Command>, before: seq<(Option<nat>, nat)>, after: seq<(Option<nat>, nat)>,
                       runsBefore: nat, runsAfter: nat)
    requires |out| <= 1 && (|out| == 1 ==> out[0].s.None?)
    requires before == after && runsBefore == 1 + runsAfter
    ensures Powered(out) + after == before
    ensures Unpowered(out) + runsAfter <= runsBefore
  {
    if |out| == 1 {
      assert out == [out[0]];
      PoweredSingle(out[0]);
    }
    assert Powered(out) == [];
    assert [] + after == after;
  }

  lemma EvenMarkStep(row: seq<int>, x: nat, out: seq<Command>, next: int)
    requires IsRow(row) && x < |row| && row[x] != Background
    requires next == x + 1
    requires |out| == 1 && out[0].x == Some(x + 1) && out[0].s == Some(Power(row[x]))
    ensures Powered(out) + EvenMarks(row, next) == EvenMarks(row, x)
    ensures Unpowered(out) + Runs(row[next..]) <= Runs(row[x..])
  {
    assert out == [out[0]];
    PoweredSingle(out[0]);
    var m := [(Some(x + 1), Power(row[x]))];
    assert EvenMarks(row, x) == m + EvenMarks(row, next);
    SuffixMark(row, x);
  }

  /** An even-row pass emits exactly one command: over background a move
      without power past the run, over a mark the mark's power at the
      column plus one. Only the first column may set Y. */
  lemma EvenCellSingle(row: seq<int>, y: nat, x: nat, f: Flags)
    requires IsRow(row) && x < |row|
    ensures var st := EvenCell(row, y, x, f);
      && |st.out| == 1 && st.out[0].x.Some?
      && (st.out[0].y.Some? ==> x == 0 && st.out[0].y == Some(y))
      && (st.out[0].kind == G1 ==> st.out[0].s.Some?)
      && (row[x] == Background ==> st.next == RunEnd(row, x) + 1 && st.out[0].s.None?)
      && (row[x] != Background ==> st.next == x + 1 && st.out[0].x == Some(x + 1)
                                   && st.out[0].s == Some(Power(row[x])))
  {
  }

  /** How one pass over an even row moves the flags: it may set
      `leftToRight` and may clear `rightToLeft`, the latter only at the
      first column, where a pending carry becomes the Y of the command. */
  lemma EvenCellFlags(row: seq<int>, y: nat, x: nat, f: Flags)
    requires IsRow(row) && x < |row|
    ensures var st := EvenCell(row, y, x, f);
      && (st.flags.rightToLeft ==> f.rightToLeft)
      && (f.leftToRight ==> st.flags.leftToRight)
      && (x > 0 ==> st.flags.rightToLeft == f.rightToLeft)
      && (x == 0 && |row| >= 2 ==>
            !st.flags.rightToLeft && (f.rightToLeft ==> |st.out| == 1 && st.out[0].y == Some(y)))
  {
  }

  /** What one pass over an odd row emits. */
  lemma OddCellOutput(row: seq<int>, y: nat, x: nat, f: Flags)
    requires IsRow(row) && x < |row|
    ensures var st := OddCell(row, y, x, f);
      && RowShape(st.out, y, x == |row| - 1)
      && Powered(st.out) + OddMarks(row, st.next) == OddMarks(row, x)
      && Unpowered(st.out) + Runs(row[..st.next + 1]) <= Runs(row[..x + 1])
  {
    OddCellSingle(row, y, x, f);
    var e := if row[x] == Background then RunStart(row, x) else x;
    OddStepOutput(row, y, x, e, OddCell(row, y, x, f));
  }

  /** An odd-row pass emits at most one command: over background a move
      without power (or nothing) past the run, over a mark exactly one
      command with the mark's power at the column itself. Only the leading
      column may set Y. */
  lemma OddCellSingle(row: seq<int>, y: nat, x: nat, f: Flags)
    requires IsRow(row) && x < |row|
    ensures var st := OddCell(row, y, x, f);
      && |st.out| <= 1
      && (|st.out| == 1 ==> && st.out[0].x.Some?
                            && (st.out[0].y.Some? ==> x == |row| - 1 && st.out[0].y == Some(y))
                            && (st.out[0].kind == G1 ==> st.out[0].s.Some?))
      && (row[x] == Background ==> st.next == RunStart(row, x) as int - 1
                                   && (|st.out| == 1 ==> st.out[0].s.None?))
      && (row[x] != Background ==> st.next == x as int - 1 && |st.out| == 1
                                   && st.out[0].x == Some(x) && st.out[0].s == Some(Power(row[x])))
  {
  }

  /** `OddCellOutput` for any step with the shape `OddCellSingle` gives,
      where a background sample belongs to the run `e .. x`. */
  lemma OddStepOutput(row: seq<int>, y: nat, x: nat, e: nat, st: Step)
    requires IsRow(row) && x < |row| && |st.out| <= 1
    requires |st.out| == 1 ==> && st.out[0].x.Some?
                               && (st.out[0].y.Some? ==> x == |row| - 1 && st.out[0].y == Some(y))
                               && (st.out[0].kind == G1 ==> st.out[0].s.Some?)
    requires row[x] == Background ==> && e <= x && (forall k :: e <= k <= x ==> row[k] == Background)
                                      && (e == 0 || row[e - 1] != Background)
                                      && st.next == e as int - 1 && (|st.out| == 1 ==> st.out[0].s.None?)
    requires row[x] != Background ==> st.next == x as int - 1 && |st.out| == 1
                                      && st.out[0].x == Some(x) && st.out[0].s == Some(Power(row[x]))
    ensures -1 <= st.next < |row|
    ensures RowShape(st.out, y, x == |row| - 1)
    ensures Powered(st.out) + OddMarks(row, st.next) == OddMarks(row, x)
    ensures Unpowered(st.out) + Runs(row[..st.next + 1]) <= Runs(row[..x + 1])
  {
    AtMostOneCommand(st.out, y, x == |row| - 1);
    if row[x] == Background {
      OddBackgroundStep(row, x, e, st.out, st.next);
    } else {
      OddMarkStep(row, x, st.out, st.next);
    }
  }

  /** The row shape of a step that emits at most one command. */
  lemma AtMostOneCommand(out: seq<Command>, y: nat, atStart: bool)
    requires |out| <= 1
    requires |out| == 1 ==> && out[0].x.Some? && (out[0].y.Some? ==> atStart && out[0].y == Some(y))
                            && (out[0].kind == G1 ==> out[0].s.Some?)
    ensures RowShape(out, y, atStart)
  {
    if |out| == 1 {
      assert out == [out[0]];
    }
  }

  /** A background run `e .. x` emits at most one unpowered command and
      skips to `e - 1`. */
  lemma OddBackgroundStep(row: seq<int>, x: nat, e: nat, out: seq<Command>, next: int)
    requires IsRow(row) && e <= x < |row|
    requires forall k :: e <= k <= x ==> row[k] == Background
    requires e == 0 || row[e - 1] != Background
    requires next == e as int - 1
    requires |out| <= 1 && (|out| == 1 ==> out[0].s.None?)
    ensures Powered(out) + OddMarks(row, next) == OddMarks(row, x)
    ensures Unpowered(out) + Runs(row[..next + 1]) <= Runs(row[..x + 1])
  {
    OddMarksSkip(row, e, x);
    PrefixRuns(row, e, x);
    SkipAccounting(out, OddMarks(row, x), OddMarks(row, next), Runs(row[..x + 1]), Runs(row[..next + 1]));
  }

  lemma OddMarkStep(row: seq<int>, x: nat, out: seq<Command>, next: int)
    requires IsRow(row) && x < |row| && row[x] != Background
    requires next == x as int - 1
    requires |out| == 1 && out[0].x == Some(x) && out[0].s == Some(Power(row[x]))
    ensures Powered(out) + OddMarks(row, next) == OddMarks(row, x)
    ensures Unpowered(out) + Runs(row[..next + 1]) <= Runs(row[..x + 1])
  {
    assert out == [out[0]];
    PoweredSingle(out[0]);
    var m := [(Some(x), Power(row[x]))];
    assert OddMarks(row, x) == m + OddMarks(row, next);
    PrefixMark(row, x);
  }

  /** The mirror of `EvenCellFlags` for odd rows. */
  lemma OddCellFlags(row: seq<int>, y: nat, x: nat, f: Flags)
    requires IsRow(row) && x < |row|
    ensures var st := OddCell(row, y, x, f);
      && (st.flags.leftToRight ==> f.leftToRight)
      && (f.rightToLeft ==> st.flags.rightToLeft)
      && (x < |row| - 1 ==> st.flags.leftToRight == f.leftToRight)
      && (x == |row| - 1 && |row| >= 2 ==>
            !st.flags.leftToRight && (f.leftToRight ==> |st.out| == 1 && st.out[0].y == Some(y)))
  {
  }

  // ---------------------------------------------------------------------
  // One row

  /** An even row emits exactly its marks, with their powers, in scan
      order, at most one command per background run, and Y only on the
      command for column 0. */
  lemma {:induction false} EvenRowOutput(row: seq<int>, y: nat, x: nat, f: Flags)
    requires IsRow(row) && x <= |row|
    ensures var r := EvenFrom(row, y, x, f);
      && RowShape(r.cmds, y, x == 0)
      && Powered(r.cmds) == EvenMarks(row, x)
      && Unpowered(r.cmds) <= Runs(row[x..])
    decreases |row| - x
  {
    if x < |row| {
      var st := EvenCell(row, y, x, f);
      var rest := EvenFrom(row, y, st.next, st.flags);
      EvenCellOutput(row, y, x, f);
      EvenRowOutput(row, y, st.next, st.flags);
      RowShapeConcat(st.out, rest.cmds, y, x == 0);
      PoweredConcat(st.out, rest.cmds);
    }
  }

  /** Over an even row `rightToLeft` is never set and `leftToRight` never
      cleared; when the row has two or more columns its first cell clears a
      pending `rightToLeft`, and does so with a command carrying Y. */
  lemma {:induction false} EvenRowFlags(row: seq<int>, y: nat, x: nat, f: Flags)
    requires IsRow(row) && x <= |row|
    ensures var r := EvenFrom(row, y, x, f);
      && (r.flags.rightToLeft ==> f.rightToLeft)
      && (f.leftToRight ==> r.flags.leftToRight)
      && (x > 0 ==> r.flags.rightToLeft == f.rightToLeft)
      && (x == 0 && |row| >= 2 ==>
            !r.flags.rightToLeft && (f.rightToLeft ==> |r.cmds| > 0 && r.cmds[0].y == Some(y)))
    decreases |row| - x
  {
    if x < |row| {
      var st := EvenCell(row, y, x, f);
      EvenCellFlags(row, y, x, f);
      EvenRowFlags(row, y, st.next, st.flags);
    }
  }

  /** The mirror of `EvenRowOutput` for odd rows: Y only on the command
      for column `|row| - 1`. */
  lemma {:induction false} OddRowOutput(row: seq<int>, y: nat, x: int, f: Flags)
    requires IsRow(row) && -1 <= x < |row|
    ensures var r := OddFrom(row, y, x, f);
      && RowShape(r.cmds, y, x == |row| - 1)
      && Powered(r.cmds) == OddMarks(row, x)
      && Unpowered(r.cmds) <= Runs(row[..x + 1])
    decreases x + 1
  {
    if x >= 0 {
      var st := OddCell(row, y, x, f);
      var rest := OddFrom(row, y, st.next, st.flags);
      OddCellOutput(row, y, x, f);
      OddRowOutput(row, y, st.next, st.flags);
      RowShapeConcat(st.out, rest.cmds, y, x == |row| - 1);
      PoweredConcat(st.out, rest.cmds);
    }
  }

  /** The mirror of `EvenRowFlags` for odd rows. */
  lemma {:induction false} OddRowFlags(row: seq<int>, y: nat, x: int, f: Flags)
    requires IsRow(row) && -1 <= x < |row|
    ensures var r := OddFrom(row, y, x, f);
      && (r.flags.leftToRight ==> f.leftToRight)
      && (f.rightToLeft ==> r.flags.rightToLeft)
      && (x < |row| - 1 ==> r.flags.leftToRight == f.leftToRight)
      && (x == |row| - 1 && |row| >= 2 ==>
            !r.flags.leftToRight && (f.leftToRight ==> |r.cmds| > 0 && r.cmds[0].y == Some(y)))
    decreases x + 1
  {
    if x >= 0 {
      var st := OddCell(row, y, x, f);
      OddCellFlags(row, y, x, f);
      OddRowFlags(row, y, st.next, st.flags);
    }
  }

  lemma {:induction false} EvenMarksCount(row: seq<int>, x: nat)
    requires IsRow(row) && x <= |row|
    ensures |EvenMarks(row, x)| == Marks(row[x..])
    decreases |row| - x
  {
    if x < |row| {
      EvenMarksCount(row, x + 1);
      assert row[x..][1..] == row[x + 1..];
    }
  }

  lemma {:induction false} OddMarksCount(row: seq<int>, x: int)
    requires IsRow(row) && -1 <= x < |row|
    ensures |OddMarks(row, x)| == Marks(row[..x + 1])
    decreases x + 1
  {
    if x >= 0 {
      OddMarksCount(row, x - 1);
      assert row[..x + 1] == row[..x] + [row[x]];
      MarksConcat(row[..x], [row[x]]);
    }
  }

  /** A whole row, in either direction: every command sets X, only the
      first command may set Y (to the row), one powered command per mark
      sample, at most one unpowered command per background run, and so at
      most one command per column. */
  lemma RowOutput(row: seq<int>, y: nat, f: Flags)
    requires IsRow(row)
    ensures var cmds := ScanRow(row, y, f).cmds;
      && RowShape(cmds, y, true)
      && Powered(cmds) == RowMarks(row, y)
      && |Powered(cmds)| == Marks(row)
      && Unpowered(cmds) <= Runs(row)
      && |cmds| <= |row|
  {
    var cmds := ScanRow(row, y, f).cmds;
    if y % 2 == 0 {
      EvenRowOutput(row, y, 0, f);
      EvenMarksCount(row, 0);
      assert row[0..] == row;
    } else {
      OddRowOutput(row, y, |row| - 1, f);
      OddMarksCount(row, |row| - 1);
      assert row[..|row|] == row;
      if |row| == 0 {
        assert cmds == [];
      }
    }
    PoweredSplit(cmds);
    MarksPlusRuns(row);
  }

  // ---------------------------------------------------------------------
  // The whole raster

  /** The marks of rows `0 .. n-1`, each row in its scan direction. */
  function GridMarks(r: Raster, n: nat): seq<(Option<nat>, nat)>
    requires r.Valid() && n <= r.rows
  {
    if n == 0 then [] else GridMarks(r, n - 1) + RowMarks(r.data[n - 1], n - 1)
  }

  lemma {:induction false} CommandsUpToFacts(r: Raster, n: nat)
    requires r.Valid() && n <= r.rows
    ensures Accounts(CommandsUpTo(r, n), GridMarks(r, n), n * r.cols)
  {
    if n == 0 {
      assert CommandsUpTo(r, n) == [];
    } else {
      var before, row := CommandsUpTo(r, n - 1), RowCommands(r, n - 1);
      CommandsUpToFacts(r, n - 1);
      RowCommandsFacts(r, n - 1);
      assert CommandsUpTo(r, n) == before + row;
      assert GridMarks(r, n) == GridMarks(r, n - 1) + RowMarks(r.data[n - 1], n - 1);
      UpToStep(before, row, GridMarks(r, n - 1), RowMarks(r.data[n - 1], n - 1), n, r.cols);
    }
  }

  lemma RowCommandsFacts(r: Raster, y: nat)
    requires r.Valid() && y < r.rows
    ensures Accounts(RowCommands(r, y), RowMarks(r.data[y], y), r.cols)
  {
    var row := r.data[y];
    assert |row| == r.cols && IsRow(row);
    RowOutput(row, y, FlagsBefore(r, y));
    var cmds := RowCommands(r, y);
    assert RowShape(cmds, y, true);
    forall i | 0 <= i < |cmds| ensures cmds[i].x.Some? {
      assert RowShape(cmds, y, true);
    }
  }

  /** `bidirectionOptStrategy`: every command sets X, the powered commands
      are exactly the marks of the raster in boustrophedon order with their
      powers, and there is at most one command per sample. */
  function BidirectionOptStrategy(r: Raster): (cmds: seq<Command>)
    requires r.Valid()
    ensures AllHaveX(cmds)
    ensures Powered(cmds) == GridMarks(r, r.rows)
    ensures |cmds| <= r.rows * r.cols
  {
    CommandsUpToFacts(r, r.rows);
    CommandsUpTo(r, r.rows)
  }

  /** With two or more columns the flags alternate: an even row is entered
      with `leftToRight` clear, an odd row with `rightToLeft` clear, so at
      most one flag is ever pending at a row boundary. */
  lemma {:induction false} CarryAlternates(r: Raster, y: nat)
    requires r.Valid() && r.cols >= 2 && y <= r.rows
    ensures y % 2 == 0 ==> !FlagsBefore(r, y).leftToRight
    ensures y % 2 == 1 ==> !FlagsBefore(r, y).rightToLeft
  {
    if y > 0 {
      var row := r.data[y - 1];
      assert |row| == r.cols && IsRow(row);
      RowClearsCarry(row, y - 1, FlagsBefore(r, y - 1));
    }
  }

  /** A row at least two wide leaves the flag of its own direction clear. */
  lemma RowClearsCarry(row: seq<int>, y: nat, f: Flags)
    requires IsRow(row) && |row| >= 2
    ensures (y + 1) % 2 == 1 ==> !ScanRow(row, y, f).flags.rightToLeft
    ensures (y + 1) % 2 == 0 ==> !ScanRow(row, y, f).flags.leftToRight
  {
    if y % 2 == 0 {
      EvenRowFlags(row, y, 0, f);
    } else {
      OddRowFlags(row, y, |row| - 1, f);
    }
  }

  /** With two or more columns a carry pending on entry to row `y` is never
      dropped: the row's first command carries the Y move to row `y`, and
      the flag is clear again after the row. */
  lemma CarryResolved(r: Raster, y: nat)
    requires r.Valid() && r.cols >= 2 && y < r.rows
    ensures var f := FlagsBefore(r, y);
      && !(f.leftToRight && f.rightToLeft)
      && ((f.leftToRight || f.rightToLeft) ==>
            |RowCommands(r, y)| > 0 && RowCommands(r, y)[0].y == Some(y))
    ensures FlagsBefore(r, y).rightToLeft ==> !FlagsBefore(r, y + 1).rightToLeft
    ensures FlagsBefore(r, y).leftToRight ==> !FlagsBefore(r, y + 1).leftToRight
  {
    CarryAlternates(r, y);
    var row, f := r.data[y], FlagsBefore(r, y);
    if y % 2 == 0 {
      EvenRowFlags(row, y, 0, f);
    } else {
      OddRowFlags(row, y, |row| - 1, f);
    }
  }

  /** With a single column both flags can be pending at once and the Y
      move to the second row is never emitted. */
  lemma SingleColumnDropsCarry()
    ensures var r := Raster(2, 1, [[255], [255]]);
      && r.Valid()
      && FlagsBefore(r, 2) == Flags(true, true)
      && BidirectionOptStrategy(r) == [Command(G0, Some(1), None, None), Command(G0, Some(0), None, None)]
  {
    var r := Raster(2, 1, [[255], [255]]);
    assert r.Valid();
    var f1 := ScanRow(r.data[0], 0, Flags(false, false));
    assert EvenCell(r.data[0], 0, 0, Flags(false, false)) == Step([Command(G0, Some(1), None, None)], 1, Flags(true, false));
    assert f1 == RowResult([Command(G0, Some(1), None, None)], Flags(true, false));
    assert OddCell(r.data[1], 1, 0, Flags(true, false)) == Step([Command(G0, Some(0), None, None)], -1, Flags(true, true));
    assert ScanRow(r.data[1], 1, Flags(true, false)) == RowResult([Command(G0, Some(0), None, None)], Flags(true, true));
    assert CommandsUpTo(r, 1) == [Command(G0, Some(1), None, None)];
  }

  /** With a single column of marks each pass meets the leading test first:
      no flag is ever set, so the Y move to the second row is never
      emitted and its mark is burned on the first row's line. */
  lemma SingleColumnMarksDropY()
    ensures var r := Raster(2, 1, [[0], [0]]);
      && r.Valid()
      && FlagsBefore(r, 2) == Flags(false, false)
      && BidirectionOptStrategy(r) == [Command(G1, Some(1), None, Some(1000)), Command(G1, Some(0), None, Some(1000))]
  {
    var r := Raster(2, 1, [[0], [0]]);
    assert r.Valid();
    var none := Flags(false, false);
    assert EvenCell(r.data[0], 0, 0, none) == Step([Command(G1, Some(1), None, Some(1000))], 1, none);
    assert ScanRow(r.data[0], 0, none) == RowResult([Command(G1, Some(1), None, Some(1000))], none);
    assert OddCell(r.data[1], 1, 0, none) == Step([Command(G1, Some(0), None, Some(1000))], -1, none);
    assert ScanRow(r.data[1], 1, none) == RowResult([Command(G1, Some(0), None, Some(1000))], none);
    assert CommandsUpTo(r, 1) == [Command(G1, Some(1), None, Some(1000))];
  }

  /** An all-background even row (two or more columns) takes the
      leading-edge branch: one rapid move to its far end, Y only when a
      carry was pending, and no flag set. */
  lemma AllBackgroundEvenRow(row: seq<int>, y: nat, f: Flags)
    requires IsRow(row) && |row| >= 2
    requires forall k :: 0 <= k < |row| ==> row[k] == Background
    ensures EvenFrom(row, y, 0, f)
         == RowResult([Command(G0, Some(|row|), if f.rightToLeft then Some(y) else None, None)],
                      f.(rightToLeft := false))
  {
    assert RunEnd(row, 0) == |row| - 1;
  }

  /** The mirror of `AllBackgroundEvenRow` for odd rows. */
  lemma AllBackgroundOddRow(row: seq<int>, y: nat, f: Flags)
    requires IsRow(row) && |row| >= 2
    requires forall k :: 0 <= k < |row| ==> row[k] == Background
    ensures OddFrom(row, y, |row| - 1, f)
         == RowResult([Command(G0, Some(0), if f.leftToRight then Some(y) else None, None)],
                      f.(leftToRight := false))
  {
    assert RunStart(row, |row| - 1) == 0;
  }

  /** On an odd row, a run of two or more background samples that reaches
      column 0 without starting at the leading edge emits nothing and only
      sets `rightToLeft`. A single background sample at column 0 instead
      emits a rapid move and sets the flag. */
  lemma OddTrailingRun(row: seq<int>, y: nat, x: nat, f: Flags)
    requires IsRow(row) && x < |row| - 1 && row[x] == Background
    requires RunStart(row, x) == 0
    ensures x > 0 ==> OddCell(row, y, x, f) == Step([], -1, f.(rightToLeft := true))
    ensures x == 0 ==> OddCell(row, y, x, f) == Step([Command(G0, Some(0), None, None)], -1, f.(rightToLeft := true))
  {
  }

  /** On an even row, a run of two or more background samples that reaches
      the last column without starting at column 0 emits a rapid move to
      its own start (plus one) and sets `leftToRight`. */
  lemma EvenTrailingRun(row: seq<int>, y: nat, x: nat, f: Flags)
    requires IsRow(row) && 0 < x < |row| - 1 && row[x] == Background
    requires RunEnd(row, x) == |row| - 1
    ensures EvenCell(row, y, x, f) == Step([Command(G0, Some(x + 1), None, None)], |row|, f.(leftToRight := true))
  {
  }

  /** A mark in the first column of an even row with a pending carry is
      emitted as a G0 that carries X, Y and the power. */
  lemma LeadingMarkAbsorbsCarry(row: seq<int>, y: nat, f: Flags)
    requires IsRow(row) && |row| > 0 && row[0] != Background && f.rightToLeft
    ensures EvenCell(row, y, 0, f) == Step([Command(G0, Some(1), Some(y), Some(Power(row[0])))], 1, f.(rightToLeft := false))
  {
  }

  /** The odd mirror: a mark in the last column of an odd row with a
      pending carry is emitted as a G0 that carries X, Y and the power. */
  lemma OddLeadingMarkAbsorbsCarry(row: seq<int>, y: nat, f: Flags)
    requires IsRow(row) && |row| > 0 && row[|row| - 1] != Background && f.leftToRight
    ensures OddCell(row, y, |row| - 1, f)
         == Step([Command(G0, Some(|row| - 1), Some(y), Some(Power(row[|row| - 1])))], |row| - 2, f.(leftToRight := false))
  {
  }
}
