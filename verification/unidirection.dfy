/** The two unidirectional strategies: every row is scanned left to right
    after a rapid move to the row. `unidirectionStrategy` emits one
    command per sample; `unidirectionOptStrategy`, which the
    Unidirection scan mode runs, collapses each background run into one
    rapid move. */
module Unidirection {
  import opened Wrappers
  import opened Raster
  import opened GCode
  import Seqs

  // ---------------------------------------------------------------------
  // unidirectionStrategy

  /** The command for one sample: a rapid move over background, a mark
      with its power otherwise; X only. */
  function SampleCommand(row: seq<int>, x: nat): Command
    requires IsRow(row) && x < |row|
  {
    if row[x] == Background then Command(G0, Some(x), None, None)
    else Command(G1, Some(x), None, Some(Power(row[x])))
  }

  function NaiveRow(row: seq<int>, y: nat): seq<Command>
    requires IsRow(row)
  {
    [Command(G0, Some(0), Some(y), None)] + seq(|row|, x requires 0 <= x < |row| => SampleCommand(row, x))
  }

  function UnidirectionStrategy(r: Raster): (cmds: seq<Command>)
    requires r.Valid()
    ensures |cmds| == r.rows * (r.cols + 1)
  {
    var blocks := seq(r.rows, y requires 0 <= y < r.rows => NaiveRow(r.data[y], y));
    Seqs.FlattenLength(blocks, r.cols + 1);
    Seqs.Flatten(blocks)
  }

  /** Row `y` of the naive scan starts at index `y * (cols + 1)` with a
      rapid move to (0, y), followed by one command per column in
      ascending order. */
  lemma UnidirectionLayout(r: Raster, y: nat, x: nat)
    requires r.Valid() && y < r.rows && x < r.cols
    ensures y * (r.cols + 1) + 1 + x < |UnidirectionStrategy(r)|
    ensures UnidirectionStrategy(r)[y * (r.cols + 1)] == Command(G0, Some(0), Some(y), None)
    ensures UnidirectionStrategy(r)[y * (r.cols + 1) + 1 + x] == SampleCommand(r.data[y], x)
  {
    var blocks := seq(r.rows, y requires 0 <= y < r.rows => NaiveRow(r.data[y], y));
    Seqs.FlattenUniform(blocks, r.cols + 1, y, 0);
    Seqs.FlattenUniform(blocks, r.cols + 1, y, 1 + x);
  }

  // ---------------------------------------------------------------------
  // unidirectionOptStrategy

  /** One pass of the loop body: what it emitted, the column the loop
      continues from, and the leading-run offset after it. */
  datatype UniStep = UniStep(out: seq<Command>, next: nat, offset: nat)

  datatype UniRow = UniRow(cmds: seq<Command>, offset: nat)

  /** The loop body for column `x`. A background sample is extended to the
      end of its run, which yields one rapid move: to the run's end, or to
      its start when the run reaches the last column but not the first.
      A leading run of two or more samples also records its end column as
      the offset that the next rows' opening moves use. */
  function UniCell(row: seq<int>, x: nat, offset: nat): (st: UniStep)
    requires IsRow(row) && x < |row|
    ensures x < st.next <= |row|
    ensures |st.out| == 1
  {
    if row[x] == Background then
      var e := RunEnd(row, x);
      var length := e - x;
      if length > 0 then
        if e - length == 0 then UniStep([Command(G0, Some(e), None, None)], e + 1, length)
        else if e == |row| - 1 then UniStep([Command(G0, Some(e - length), None, None)], e + 1, offset)
        else UniStep([Command(G0, Some(e), None, None)], e + 1, offset)
      else UniStep([Command(G0, Some(e), None, None)], e + 1, offset)
    else
      UniStep([Command(G1, Some(x), None, Some(Power(row[x])))], x + 1, offset)
  }

  /** The inner loop from column `x` on. */
  function UniFrom(row: seq<int>, x: nat, offset: nat): UniRow
    requires IsRow(row) && x <= |row|
    decreases |row| - x
  {
    if x == |row| then UniRow([], offset)
    else
      var st := UniCell(row, x, offset);
      var rest := UniFrom(row, st.next, st.offset);
      UniRow(st.out + rest.cmds, rest.offset)
  }

  /** The offset on entry to row `y`. */
  function OffsetBefore(r: Raster, y: nat): nat
    requires r.Valid() && y <= r.rows
  {
    if y == 0 then 0 else UniFrom(r.data[y - 1], 0, OffsetBefore(r, y - 1)).offset
  }

  /** Row `y`: a rapid move to (offset, y), then the row body. */
  function UniRowCommands(r: Raster, y: nat): seq<Command>
    requires r.Valid() && y < r.rows
  {
    var offset := OffsetBefore(r, y);
    [Command(G0, Some(offset), Some(y), None)] + UniFrom(r.data[y], 0, offset).cmds
  }

  function UniUpTo(r: Raster, n: nat): seq<Command>
    requires r.Valid() && n <= r.rows
  {
    if n == 0 then [] else UniUpTo(r, n - 1) + UniRowCommands(r, n - 1)
  }

  // ---------------------------------------------------------------------
  // Reference descriptions

  /** Marks of columns `x ..` as (X, power), left to right. */
  function UniMarks(row: seq<int>, x: nat): seq<(Option<nat>, nat)>
    requires IsRow(row) && x <= |row|
    decreases |row| - x
  {
    if x == |row| then []
    else (if row[x] != Background then [(Some(x), Power(row[x]))] else []) + UniMarks(row, x + 1)
  }

  /** Where the rapid move over the background run `s ..= e` lands: on the
      run's end, or on its start when a run of two or more samples that
      does not open the row reaches the last column. */
  function RunTarget(row: seq<int>, s: nat, e: nat): nat
  {
    if s < e && s != 0 && e == |row| - 1 then s else e
  }

  /** X of the rapid move for each background run of columns `x ..`,
      left to right. */
  function RapidXs(row: seq<int>, x: nat): seq<Option<nat>>
    requires IsRow(row) && x <= |row|
    decreases |row| - x
  {
    if x == |row| then []
    else if row[x] != Background then RapidXs(row, x + 1)
    else [Some(RunTarget(row, x, RunEnd(row, x)))] + RapidXs(row, RunEnd(row, x) + 1)
  }

  /** The row body: X on every command and no Y; G1 exactly when power is
      carried; every rapid move lands on a background sample. */
  predicate BodyShape(row: seq<int>, cmds: seq<Command>)
  {
    forall i :: 0 <= i < |cmds| ==>
      && cmds[i].x.Some? && cmds[i].y.None?
      && (cmds[i].kind == G1 <==> cmds[i].s.Some?)
      && (cmds[i].s.None? ==> cmds[i].x.value < |row| && row[cmds[i].x.value] == Background)
  }

  /** A row opens with two or more background samples. */
  predicate LeadingRun(row: seq<int>)
  {
    |row| >= 2 && row[0] == Background && row[1] == Background
  }

  lemma {:induction false} UniMarksSkip(row: seq<int>, x: nat, e: nat)
    requires IsRow(row) && x <= e < |row|
    requires forall k :: x <= k <= e ==> row[k] == Background
    ensures UniMarks(row, x) == UniMarks(row, e + 1)
    decreases e - x
  {
    UniMarksBackground(row, x);
    if x < e {
      UniMarksSkip(row, x + 1, e);
    }
  }

  lemma UniMarksBackground(row: seq<int>, x: nat)
    requires IsRow(row) && x < |row| && row[x] == Background
    ensures UniMarks(row, x) == UniMarks(row, x + 1)
  {
    var rest := UniMarks(row, x + 1);
    assert UniMarks(row, x) == [] + rest;
    assert [] + rest == rest;
  }

  lemma UniCellOutput(row: seq<int>, x: nat, offset: nat)
    requires IsRow(row) && x < |row|
    ensures var st := UniCell(row, x, offset);
      && BodyShape(row, st.out)
      && Powered(st.out) + UniMarks(row, st.next) == UniMarks(row, x)
      && Unpowered(st.out) + Runs(row[st.next..]) == Runs(row[x..])
  {
    var st := UniCell(row, x, offset);
    if row[x] == Background {
      UniCellRapid(row, x, offset);
      assert st.out == [st.out[0]];
      SingleRapid(row, st.out[0]);
    } else {
      assert st.out == [Command(G1, Some(x), None, Some(Power(row[x])))] && st.next == x + 1;
      SingleMark(row, st.out[0]);
    }
    StepMarks(row, x, st.next);
    StepRuns(row, x, st.next);
  }

  /** Stepping over the run at `x`, or over the mark at `x`, leaves the
      marks of the columns after it. */
  lemma StepMarks(row: seq<int>, x: nat, next: nat)
    requires IsRow(row) && x < |row|
    requires row[x] == Background ==> next == RunEnd(row, x) + 1
    requires row[x] != Background ==> next == x + 1
    ensures next <= |row|
    ensures UniMarks(row, x) == (if row[x] == Background then [] else [(Some(x), Power(row[x]))]) + UniMarks(row, next)
  {
    var m := UniMarks(row, next);
    if row[x] == Background {
      UniMarksSkip(row, x, RunEnd(row, x));
      assert [] + m == m;
    } else {
      assert UniMarks(row, x) == [(Some(x), Power(row[x]))] + m;
    }
  }

  /** The same step leaves the runs of the columns after it. */
  lemma StepRuns(row: seq<int>, x: nat, next: nat)
    requires IsRow(row) && x < |row|
    requires row[x] == Background ==> next == RunEnd(row, x) + 1
    requires row[x] != Background ==> next == x + 1
    ensures next <= |row|
    ensures Runs(row[x..]) == (if row[x] == Background then 1 else 0) + Runs(row[next..])
  {
    var tail := row[next..];
    if row[x] == Background {
      var e := RunEnd(row, x);
      assert tail == row[e + 1..];
      assert Runs(row[x..]) == 1 + Runs(tail) by {
        SuffixRuns(row, x, e);
      }
    } else {
      assert tail == row[x + 1..];
      assert Runs(row[x..]) == Runs(tail) by {
        SuffixMark(row, x);
      }
    }
  }

  /** The loop body's rapid move, if any, is the first entry of the
      reference list of run targets. */
  lemma UniCellPlaces(row: seq<int>, x: nat, offset: nat)
    requires IsRow(row) && x < |row|
    ensures var st := UniCell(row, x, offset);
      Rapids(st.out) + RapidXs(row, st.next) == RapidXs(row, x)
  {
    var st := UniCell(row, x, offset);
    if row[x] == Background {
      UniCellRapid(row, x, offset);
      assert st.out == [st.out[0]];
      PoweredSingle(st.out[0]);
    } else {
      assert st.out == [Command(G1, Some(x), None, Some(Power(row[x])))];
      PoweredSingle(st.out[0]);
    }
    StepPlaces(row, x, st.out, st.next);
  }

  /** A step that emits the rapid move of the run at `x`, or nothing
      rapid over a mark, leaves the remaining run targets to the columns
      after it. */
  lemma StepPlaces(row: seq<int>, x: nat, out: seq<Command>, next: nat)
    requires IsRow(row) && x < |row|
    requires row[x] == Background ==> Rapids(out) == [Some(RunTarget(row, x, RunEnd(row, x)))] && next == RunEnd(row, x) + 1
    requires row[x] != Background ==> Rapids(out) == [] && next == x + 1
    ensures Rapids(out) + RapidXs(row, next) == RapidXs(row, x)
  {
    if row[x] != Background {
      assert [] + RapidXs(row, x + 1) == RapidXs(row, x + 1);
    }
  }

  /** Over background the loop body emits one rapid move onto the run,
      at the place `RunTarget` names. */
  lemma UniCellRapid(row: seq<int>, x: nat, offset: nat)
    requires IsRow(row) && x < |row| && row[x] == Background
    ensures var st := UniCell(row, x, offset); var e := RunEnd(row, x);
      && st.next == e + 1 && |st.out| == 1
      && st.out[0].kind == G0 && st.out[0].y.None? && st.out[0].s.None?
      && st.out[0].x == Some(RunTarget(row, x, e)) && x <= st.out[0].x.value <= e
  {
    var e := RunEnd(row, x);
    if e - x > 0 {
      if x == 0 {
      } else if e == |row| - 1 {
      } else {
      }
    }
  }

  /** A lone rapid move onto a background sample. */
  lemma SingleRapid(row: seq<int>, c: Command)
    requires c.kind == G0 && c.x.Some? && c.y.None? && c.s.None?
    requires c.x.value < |row| && row[c.x.value] == Background
    ensures BodyShape(row, [c]) && Powered([c]) == [] && Unpowered([c]) == 1 && Rapids([c]) == [c.x]
  {
    PoweredSingle(c);
  }

  /** A lone mark. */
  lemma SingleMark(row: seq<int>, c: Command)
    requires c.kind == G1 && c.x.Some? && c.y.None? && c.s.Some?
    ensures BodyShape(row, [c]) && Powered([c]) == [(c.x, c.s.value)] && Unpowered([c]) == 0 && Rapids([c]) == []
  {
    PoweredSingle(c);
  }

  lemma UniCellOffset(row: seq<int>, x: nat, offset: nat)
    requires IsRow(row) && x < |row|
    ensures var st := UniCell(row, x, offset);
      && (x > 0 ==> st.offset == offset)
      && (x == 0 ==> st.offset == if LeadingRun(row) then RunEnd(row, 0) else offset)
  {
  }

  lemma BodyShapeConcat(row: seq<int>, a: seq<Command>, b: seq<Command>)
    requires BodyShape(row, a) && BodyShape(row, b)
    ensures BodyShape(row, a + b)
  {
    forall i | 0 <= i < |a + b| ensures (a + b)[i] == if i < |a| then a[i] else b[i - |a|] {
    }
  }

  /** A row body emits exactly its marks, with their powers, left to
      right, and exactly one rapid move per background run, onto the
      sample `RunTarget` names; only a leading run changes the offset. */
  lemma {:induction false} UniRowOutput(row: seq<int>, x: nat, offset: nat)
    requires IsRow(row) && x <= |row|
    ensures var u := UniFrom(row, x, offset);
      && BodyShape(row, u.cmds)
      && Powered(u.cmds) == UniMarks(row, x)
      && Unpowered(u.cmds) == Runs(row[x..])
      && Rapids(u.cmds) == RapidXs(row, x)
      && (x > 0 ==> u.offset == offset)
      && (x == 0 ==> u.offset == if LeadingRun(row) then RunEnd(row, 0) else offset)
    decreases |row| - x
  {
    if x < |row| {
      var st := UniCell(row, x, offset);
      var rest := UniFrom(row, st.next, st.offset);
      UniCellOutput(row, x, offset);
      UniCellOffset(row, x, offset);
      UniCellPlaces(row, x, offset);
      UniRowOutput(row, st.next, st.offset);
      BodyShapeConcat(row, st.out, rest.cmds);
      PoweredConcat(st.out, rest.cmds);
      RapidsConcat(st.out, rest.cmds);
    }
  }

  lemma {:induction false} UniMarksCount(row: seq<int>, x: nat)
    requires IsRow(row) && x <= |row|
    ensures |UniMarks(row, x)| == Marks(row[x..])
    decreases |row| - x
  {
    if x < |row| {
      UniMarksCount(row, x + 1);
      assert row[x..][1..] == row[x + 1..];
    }
  }

  /** Row `y` begins with exactly one rapid move that sets Y (to the row)
      and X (to the offset); after it, one command per mark and one per
      background run, so never more than `1 + cols` commands. */
  lemma UniRowFacts(r: Raster, y: nat)
    requires r.Valid() && y < r.rows
    ensures var cmds := UniRowCommands(r, y);
      && cmds[0] == Command(G0, Some(OffsetBefore(r, y)), Some(y), None)
      && BodyShape(r.data[y], cmds[1..])
      && Powered(cmds) == UniMarks(r.data[y], 0)
      && |Powered(cmds)| == Marks(r.data[y])
      && Unpowered(cmds) == 1 + Runs(r.data[y])
      && |cmds| <= 1 + r.cols
  {
    var row := r.data[y];
    var cmds := UniRowCommands(r, y);
    var body := UniFrom(row, 0, OffsetBefore(r, y)).cmds;
    UniRowOutput(row, 0, OffsetBefore(r, y));
    UniMarksCount(row, 0);
    assert row[0..] == row;
    assert cmds[1..] == body;
    PoweredConcat([cmds[0]], body);
    assert cmds == [cmds[0]] + body;
    PoweredSplit(body);
    MarksPlusRuns(row);
  }

  /** The offset that opens row `y` is the end column of the leading run of
      the most recent earlier row that had one, or 0 if none did. */
  lemma {:induction false} OffsetTracksLeadingRun(r: Raster, y: nat)
    requires r.Valid() && y <= r.rows
    ensures || (OffsetBefore(r, y) == 0 && forall q :: 0 <= q < y ==> !LeadingRun(r.data[q]))
            || (exists p :: 0 <= p < y && LeadingRun(r.data[p]) && OffsetBefore(r, y) == RunEnd(r.data[p], 0)
                 && forall q :: p < q < y ==> !LeadingRun(r.data[q]))
  {
    if y > 0 {
      OffsetTracksLeadingRun(r, y - 1);
      OffsetStep(r, y);
      if !LeadingRun(r.data[y - 1]) {
        if OffsetBefore(r, y - 1) != 0 || exists q :: 0 <= q < y - 1 && LeadingRun(r.data[q]) {
          var p :| 0 <= p < y - 1 && LeadingRun(r.data[p]) && OffsetBefore(r, y - 1) == RunEnd(r.data[p], 0)
                   && forall q :: p < q < y - 1 ==> !LeadingRun(r.data[q]);
          assert forall q :: p < q < y ==> !LeadingRun(r.data[q]);
        } else {
          assert forall q :: 0 <= q < y ==> !LeadingRun(r.data[q]);
        }
      }
    }
  }

  /** One row moves the offset only when it opens with a leading run. */
  lemma OffsetStep(r: Raster, y: nat)
    requires r.Valid() && 0 < y <= r.rows
    ensures LeadingRun(r.data[y - 1]) ==> OffsetBefore(r, y) == RunEnd(r.data[y - 1], 0)
    ensures !LeadingRun(r.data[y - 1]) ==> OffsetBefore(r, y) == OffsetBefore(r, y - 1)
  {
    UniRowOutput(r.data[y - 1], 0, OffsetBefore(r, y - 1));
  }

  /** The marks of rows `0 .. n-1`, row after row, left to right. */
  function UniGridMarks(r: Raster, n: nat): seq<(Option<nat>, nat)>
    requires r.Valid() && n <= r.rows
  {
    if n == 0 then [] else UniGridMarks(r, n - 1) + UniMarks(r.data[n - 1], 0)
  }

  lemma {:induction false} UniUpToFacts(r: Raster, n: nat)
    requires r.Valid() && n <= r.rows
    ensures Accounts(UniUpTo(r, n), UniGridMarks(r, n), n * (r.cols + 1))
  {
    if n > 0 {
      var before, row := UniUpTo(r, n - 1), UniRowCommands(r, n - 1);
      UniUpToFacts(r, n - 1);
      UniRowHasX(r, n - 1);
      UpToStep(before, row, UniGridMarks(r, n - 1), UniMarks(r.data[n - 1], 0), n, r.cols + 1);
    }
  }

  /** Every command of a row, its opening move included, sets X. */
  lemma UniRowHasX(r: Raster, y: nat)
    requires r.Valid() && y < r.rows
    ensures Accounts(UniRowCommands(r, y), UniMarks(r.data[y], 0), r.cols + 1)
  {
    var row := UniRowCommands(r, y);
    UniRowFacts(r, y);
    forall i | 0 <= i < |row| ensures row[i].x.Some? {
      if i > 0 {
        assert row[i] == row[1..][i - 1];
      }
    }
  }

  /** `unidirectionOptStrategy`: every command sets X, the powered commands
      are exactly the marks of the raster, row by row, left to right, and
      there is at most one opening move per row plus one command per
      sample. */
  function UnidirectionOptStrategy(r: Raster): (cmds: seq<Command>)
    requires r.Valid()
    ensures AllHaveX(cmds)
    ensures Powered(cmds) == UniGridMarks(r, r.rows)
    ensures |cmds| <= r.rows * (r.cols + 1)
  {
    UniUpToFacts(r, r.rows);
    UniUpTo(r, r.rows)
  }
}
