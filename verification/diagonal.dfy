/** `diagonalStrategy`: the grid is walked along its anti-diagonals
    k = row + col, for k = 0 .. rows + cols - 2. Even diagonals are walked
    with the row falling from min(k, rows - 1), odd ones with the column
    falling from min(k, cols - 1); indices that fall outside the grid are
    skipped. Samples on even diagonals are emitted with X = col + 1, those
    on odd diagonals with X = col. */
module Diagonal {
  import opened Raster
  import opened GCode
  import Seqs
  import Sampling

  function Sum(c: Cell): int
  {
    c.row + c.col
  }

  /** The inner loop of an even diagonal `k`, from row `i` down to 0. */
  function EvenSeg(k: nat, i: int, rows: nat, cols: nat): (s: seq<Cell>)
    requires i <= k
    ensures forall c :: c in s <==> InGrid(c, rows, cols) && Sum(c) == k && c.row <= i
    ensures forall m, n :: 0 <= m < n < |s| ==> s[n].row < s[m].row
    decreases i + 1
  {
    if i < 0 then []
    else
      var rest := EvenSeg(k, i - 1, rows, cols);
      if i < rows && k - i < cols then [Cell(i, k - i)] + rest else rest
  }

  /** The inner loop of an odd diagonal `k`, from column `j` down to 0. */
  function OddSeg(k: nat, j: int, rows: nat, cols: nat): (s: seq<Cell>)
    requires j <= k
    ensures forall c :: c in s <==> InGrid(c, rows, cols) && Sum(c) == k && c.col <= j
    ensures forall m, n :: 0 <= m < n < |s| ==> s[n].col < s[m].col
    decreases j + 1
  {
    if j < 0 then []
    else
      var rest := OddSeg(k, j - 1, rows, cols);
      if k - j < rows && j < cols then [Cell(k - j, j)] + rest else rest
  }

  function Min(a: int, b: int): int
  {
    if a <= b then a else b
  }

  /** The cells of diagonal `k` in the order the inner loop visits them. */
  function Segment(k: nat, rows: nat, cols: nat): (s: seq<Cell>)
  {
    if k % 2 == 0 then EvenSeg(k, Min(k, rows - 1), rows, cols)
    else OddSeg(k, Min(k, cols - 1), rows, cols)
  }

  /** The outer loop from diagonal `k` on. */
  function DiagonalFrom(k: nat, rows: nat, cols: nat): seq<Cell>
    decreases rows + cols - k
  {
    if k >= rows + cols - 1 then [] else Segment(k, rows, cols) + DiagonalFrom(k + 1, rows, cols)
  }

  function DiagonalOrder(rows: nat, cols: nat): seq<Cell>
  {
    DiagonalFrom(0, rows, cols)
  }

  /** Diagonal `k` holds exactly the grid cells with row + col = k. */
  lemma SegmentCells(k: nat, rows: nat, cols: nat)
    ensures forall c :: c in Segment(k, rows, cols) <==> InGrid(c, rows, cols) && Sum(c) == k
  {
  }

  /** Along diagonal `k` no cell repeats: on an even diagonal the row
      falls, on an odd one the column falls. */
  lemma SegmentFacts(k: nat, rows: nat, cols: nat)
    ensures Seqs.NoDup(Segment(k, rows, cols))
    ensures var s := Segment(k, rows, cols);
      forall m, n :: 0 <= m < n < |s| ==>
        (k % 2 == 0 ==> s[n].row < s[m].row) && (k % 2 == 1 ==> s[n].col < s[m].col)
  {
  }

  /** From diagonal `k` on, the outer loop visits exactly the grid cells
      with row + col >= k. */
  lemma {:induction false} DiagonalFromCells(k: nat, rows: nat, cols: nat)
    ensures forall c :: c in DiagonalFrom(k, rows, cols) <==> InGrid(c, rows, cols) && Sum(c) >= k
    decreases rows + cols - k
  {
    if k < rows + cols - 1 {
      DiagonalFromCells(k + 1, rows, cols);
      DiagonalStepCells(k, rows, cols);
    } else {
      DiagonalEndCells(k, rows, cols);
    }
  }

  lemma DiagonalEndCells(k: nat, rows: nat, cols: nat)
    requires k >= rows + cols - 1
    ensures forall c :: c in DiagonalFrom(k, rows, cols) <==> InGrid(c, rows, cols) && Sum(c) >= k
  {
  }

  lemma DiagonalStepCells(k: nat, rows: nat, cols: nat)
    requires k < rows + cols - 1
    requires forall c :: c in DiagonalFrom(k + 1, rows, cols) <==> InGrid(c, rows, cols) && Sum(c) >= k + 1
    ensures forall c :: c in DiagonalFrom(k, rows, cols) <==> InGrid(c, rows, cols) && Sum(c) >= k
  {
    var a, b := Segment(k, rows, cols), DiagonalFrom(k + 1, rows, cols);
    assert DiagonalFrom(k, rows, cols) == a + b;
    SegmentCells(k, rows, cols);
  }

  /** From diagonal `k` on, no cell is visited twice. */
  lemma {:induction false} DiagonalFromOnce(k: nat, rows: nat, cols: nat)
    ensures Seqs.NoDup(DiagonalFrom(k, rows, cols))
    decreases rows + cols - k
  {
    if k < rows + cols - 1 {
      var a, b := Segment(k, rows, cols), DiagonalFrom(k + 1, rows, cols);
      SegmentFacts(k, rows, cols);
      SegmentCells(k, rows, cols);
      DiagonalFromCells(k + 1, rows, cols);
      DiagonalFromOnce(k + 1, rows, cols);
      Seqs.NoDupConcat(a, b);
    }
  }

  /** Cells appear by nondecreasing diagonal. */
  predicate ByDiagonal(s: seq<Cell>)
  {
    forall m, n :: 0 <= m < n < |s| ==> Sum(s[m]) <= Sum(s[n])
  }

  /** From diagonal `k` on, cells are visited by nondecreasing diagonal. */
  lemma {:induction false} DiagonalFromSorted(k: nat, rows: nat, cols: nat)
    ensures ByDiagonal(DiagonalFrom(k, rows, cols))
    decreases rows + cols - k
  {
    if k < rows + cols - 1 {
      DiagonalFromSorted(k + 1, rows, cols);
      DiagonalFromCells(k + 1, rows, cols);
      SegmentCells(k, rows, cols);
      DiagonalStepSorted(Segment(k, rows, cols), DiagonalFrom(k + 1, rows, cols), k);
    }
  }

  lemma DiagonalStepSorted(a: seq<Cell>, b: seq<Cell>, k: int)
    requires forall c :: c in a ==> Sum(c) == k
    requires forall c :: c in b ==> Sum(c) >= k + 1
    requires ByDiagonal(b)
    ensures ByDiagonal(a + b)
  {
    var s := a + b;
    forall m, n | 0 <= m < n < |s|
      ensures Sum(s[m]) <= Sum(s[n])
    {
      if m >= |a| {
        assert s[m] == b[m - |a|] && s[n] == b[n - |a|];
      } else if n >= |a| {
        assert s[m] == a[m] && s[n] == b[n - |a|];
      } else {
        assert s[m] == a[m] && s[n] == a[n];
      }
    }
  }

  /** The diagonal walk visits every cell of the grid exactly once, one
      diagonal after another, so it has rows * cols entries. */
  lemma DiagonalCoversGrid(rows: nat, cols: nat)
    ensures CoversGridOnce(DiagonalOrder(rows, cols), rows, cols)
    ensures |DiagonalOrder(rows, cols)| == rows * cols
    ensures ByDiagonal(DiagonalOrder(rows, cols))
  {
    DiagonalFromCells(0, rows, cols);
    DiagonalFromOnce(0, rows, cols);
    DiagonalFromSorted(0, rows, cols);
    var s := DiagonalOrder(rows, cols);
    assert CoversGridOnce(s, rows, cols) by {
      forall c ensures c in s <==> InGrid(c, rows, cols) {
        assert InGrid(c, rows, cols) ==> Sum(c) >= 0;
      }
    }
    CoverLength(s, rows, cols);
  }

  /** One command per visited cell, with `isEven` the parity of its
      diagonal. */
  function DiagonalStrategy(r: Raster): (cmds: seq<Command>)
    requires r.Valid()
    ensures |cmds| == r.rows * r.cols
    ensures forall i :: 0 <= i < |cmds| ==> cmds[i].x.Some? && cmds[i].y.Some?
  {
    var order := DiagonalOrder(r.rows, r.cols);
    DiagonalCoversGrid(r.rows, r.cols);
    seq(|order|, i requires 0 <= i < |order| =>
      Sampling.Internal(r, order[i], Sum(order[i]) % 2 == 0))
  }

  /** Every sample of the grid is emitted once; on an even diagonal its X
      is shifted by one column, on an odd one it is not. */
  lemma DiagonalEmitsEverySample(r: Raster, c: Cell)
    requires r.Valid() && InGrid(c, r.rows, r.cols)
    ensures exists i :: 0 <= i < |DiagonalStrategy(r)| && DiagonalOrder(r.rows, r.cols)[i] == c &&
                        DiagonalStrategy(r)[i] == Sampling.Internal(r, c, Sum(c) % 2 == 0)
  {
    DiagonalCoversGrid(r.rows, r.cols);
    var order := DiagonalOrder(r.rows, r.cols);
    var cmds := DiagonalStrategy(r);
    var i :| 0 <= i < |order| && order[i] == c;
    assert cmds[i] == Sampling.Internal(r, order[i], Sum(order[i]) % 2 == 0);
  }
}
