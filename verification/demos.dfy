/** The four demo programs. Each walks a fixed 10 x 10 grid of 0/1 values
    (1 = burn) and emits, per cell, a full-power mark `G1 S1000` for a 1
    or a rapid move `G0 S0` for a 0, then hands the rendered lines to
    `Plane`, whose builder wraps them. The models take any 10 x 10 grid;
    `Image` is the one the programs use. */
module Demos {
  import opened Wrappers
  import opened Raster
  import opened GCode
  import Seqs
  import Diagonal
  import Spiral
  import Plane

  const Size: nat := 10

  /** The grid every demo program uses, row by row. */
  const Image: seq<seq<int>> := [
    [0, 1, 1, 1, 0, 1, 1, 1, 0, 0],
    [1, 0, 1, 0, 1, 0, 1, 0, 1, 0],
    [1, 1, 1, 0, 0, 1, 1, 1, 1, 1],
    [0, 0, 1, 1, 1, 1, 1, 0, 0, 0],
    [1, 1, 0, 0, 1, 0, 0, 1, 1, 1],
    [0, 1, 1, 0, 0, 1, 0, 0, 0, 0],
    [1, 1, 1, 1, 1, 1, 1, 1, 1, 1],
    [1, 0, 0, 0, 1, 0, 1, 0, 0, 0],
    [0, 1, 0, 1, 0, 1, 0, 1, 0, 1],
    [1, 1, 1, 1, 1, 1, 1, 1, 1, 1]
  ]

  /** A square grid; the programs' own is `Image`, of side `Size`. */
  predicate IsDemoGrid(img: seq<seq<int>>)
  {
    forall y :: 0 <= y < |img| ==> |img[y]| == |img|
  }

  lemma ImageIsDemoGrid()
    ensures IsDemoGrid(Image) && |Image| == Size
  {
  }

  /** The per-cell command: a full-power mark for a non-zero value, a rapid
      move with power 0 otherwise. */
  function Burn(v: int, x: Option<nat>, y: Option<nat>): (c: Command)
    ensures c.kind == G1 <==> v != 0
    ensures c.s == Some(if v != 0 then 1000 else 0)
    ensures c.x == x && c.y == y
  {
    if v != 0 then Command(G1, x, y, Some(1000)) else Command(G0, x, y, Some(0))
  }

  /** What a demo program writes: its rendered commands wrapped by `Plane`. */
  function Program(cmds: seq<Command>): (lines: seq<string>)
    ensures |lines| == |cmds| + 6
    ensures forall i :: 0 <= i < |cmds| ==> lines[4 + i] == Render(cmds[i])
  {
    var out := Plane.Builder(Plane.SetCommand(Plane.Plane([]), RenderAll(cmds))).command;
    assert out[4..|out| - 2] == RenderAll(cmds);
    out
  }

  // ---------------------------------------------------------------------
  // UnidirectionalScanning

  function UniDemoRow(img: seq<seq<int>>, y: nat): seq<Command>
    requires IsDemoGrid(img) && y < |img|
  {
    [Command(G0, Some(0), Some(y), Some(0))]
      + seq(|img|, x requires 0 <= x < |img| => Burn(img[y][x], Some(x), None))
  }

  function UniDemo(img: seq<seq<int>>): (cmds: seq<Command>)
    requires IsDemoGrid(img)
    ensures |cmds| == |img| * (|img| + 1)
  {
    var blocks := seq(|img|, y requires 0 <= y < |img| => UniDemoRow(img, y));
    Seqs.FlattenLength(blocks, |img| + 1);
    Seqs.Flatten(blocks)
  }

  /** With side n, row `y` occupies the n + 1 indices from `y * (n + 1)`
      on: a move to (0, y) with power 0, then column `x` at offset `1 + x`,
      columns ascending. */
  lemma UniDemoLayout(img: seq<seq<int>>, y: nat, x: nat)
    requires IsDemoGrid(img) && y < |img| && x < |img|
    ensures y * (|img| + 1) + 1 + x < |UniDemo(img)|
    ensures UniDemo(img)[y * (|img| + 1)] == Command(G0, Some(0), Some(y), Some(0))
    ensures UniDemo(img)[y * (|img| + 1) + 1 + x] == Burn(img[y][x], Some(x), None)
  {
    var blocks := seq(|img|, y requires 0 <= y < |img| => UniDemoRow(img, y));
    Seqs.FlattenUniform(blocks, |img| + 1, y, 0);
    Seqs.FlattenUniform(blocks, |img| + 1, y, 1 + x);
    assert blocks[y][1 + x] == Burn(img[y][x], Some(x), None);
  }

  // ---------------------------------------------------------------------
  // BidirectionalScanning

  function BidiDemoRow(img: seq<seq<int>>, y: nat): seq<Command>
    requires IsDemoGrid(img) && y < |img|
  {
    [Command(G0, None, Some(y), Some(0))]
      + seq(|img|, k requires 0 <= k < |img| =>
              var x := ScanColumn(y, k, |img|); Burn(img[y][x], Some(x), None))
  }

  function BidiDemo(img: seq<seq<int>>): (cmds: seq<Command>)
    requires IsDemoGrid(img)
    ensures |cmds| == |img| * (|img| + 1)
  {
    var blocks := seq(|img|, y requires 0 <= y < |img| => BidiDemoRow(img, y));
    Seqs.FlattenLength(blocks, |img| + 1);
    Seqs.Flatten(blocks)
  }

  /** Row `y` opens with a move that sets only Y (power 0); its `k`-th
      cell command is for column `k` on even rows and `n - 1 - k` on odd
      rows, n being the side. */
  lemma BidiDemoLayout(img: seq<seq<int>>, y: nat, k: nat)
    requires IsDemoGrid(img) && y < |img| && k < |img|
    ensures y * (|img| + 1) + 1 + k < |BidiDemo(img)|
    ensures BidiDemo(img)[y * (|img| + 1)] == Command(G0, None, Some(y), Some(0))
    ensures var x := if y % 2 == 0 then k else |img| - 1 - k;
      BidiDemo(img)[y * (|img| + 1) + 1 + k] == Burn(img[y][x], Some(x), None)
  {
    var blocks := seq(|img|, y requires 0 <= y < |img| => BidiDemoRow(img, y));
    Seqs.FlattenUniform(blocks, |img| + 1, y, 0);
    Seqs.FlattenUniform(blocks, |img| + 1, y, 1 + k);
    var x := ScanColumn(y, k, |img|);
    assert blocks[y][1 + k] == Burn(img[y][x], Some(x), None);
  }

  // ---------------------------------------------------------------------
  // DiagonalScanning and SpiralScanning: both loops are the converter's
  // loops with the roles of x and y exchanged.

  function Transpose(c: Cell): Cell
  {
    Cell(c.col, c.row)
  }

  function Transposed(s: seq<Cell>): (t: seq<Cell>)
    ensures |t| == |s|
    ensures forall i :: 0 <= i < |s| ==> t[i] == Transpose(s[i])
  {
    seq(|s|, i requires 0 <= i < |s| => Transpose(s[i]))
  }

  /** Exchanging the roles of row and column keeps a walk over a square
      grid a walk over every cell once. */
  lemma TransposedCovers(s: seq<Cell>, n: nat)
    requires CoversGridOnce(s, n, n)
    ensures CoversGridOnce(Transposed(s), n, n)
  {
    var t := Transposed(s);
    forall c ensures c in t <==> InGrid(c, n, n) {
      if c in t {
        var i :| 0 <= i < |t| && t[i] == c;
        assert s[i] in s;
      }
      if InGrid(c, n, n) {
        assert Transpose(c) in s;
        var i :| 0 <= i < |s| && s[i] == Transpose(c);
        assert t[i] == c;
      }
    }
  }

  /** The command for a visited cell: X is its column, Y its row, and the
      value at that cell decides mark or move. */
  function CellCommand(img: seq<seq<int>>, c: Cell): (cmd: Command)
    requires IsDemoGrid(img) && InGrid(c, |img|, |img|)
    ensures cmd.x == Some(c.col as nat) && cmd.y == Some(c.row as nat)
    ensures cmd.kind == G1 <==> img[c.row][c.col] != 0
  {
    Burn(img[c.row][c.col], Some(c.col as nat), Some(c.row as nat))
  }

  function DemoCommands(img: seq<seq<int>>, order: seq<Cell>): (cmds: seq<Command>)
    requires IsDemoGrid(img) && CoversGridOnce(order, |img|, |img|)
    ensures |cmds| == |order|
    ensures forall i :: 0 <= i < |order| ==> cmds[i] == CellCommand(img, order[i])
  {
    seq(|order|, i requires 0 <= i < |order| =>
      assert order[i] in order; CellCommand(img, order[i]))
  }

  /** The diagonal demo's visit order over an n x n grid: on even
      diagonals x falls, on odd diagonals y falls. */
  function DiagonalDemoOrder(n: nat): seq<Cell>
  {
    Transposed(Diagonal.DiagonalOrder(n, n))
  }

  /** The diagonal demo visits each cell once, by nondecreasing x + y. */
  lemma DiagonalDemoFacts(n: nat)
    ensures CoversGridOnce(DiagonalDemoOrder(n), n, n)
    ensures |DiagonalDemoOrder(n)| == n * n
    ensures Diagonal.ByDiagonal(DiagonalDemoOrder(n))
  {
    var o := Diagonal.DiagonalOrder(n, n);
    Diagonal.DiagonalCoversGrid(n, n);
    TransposedCovers(o, n);
    var t := DiagonalDemoOrder(n);
    forall m, k | 0 <= m < k < |t|
      ensures Diagonal.Sum(t[m]) <= Diagonal.Sum(t[k])
    {
      assert Diagonal.Sum(t[m]) == Diagonal.Sum(o[m]) && Diagonal.Sum(t[k]) == Diagonal.Sum(o[k]);
    }
  }

  /** One command per cell of the diagonal walk, X and Y both set. */
  function DiagonalDemo(img: seq<seq<int>>): (cmds: seq<Command>)
    requires IsDemoGrid(img)
    ensures |cmds| == |img| * |img|
    ensures forall i :: 0 <= i < |cmds| ==> cmds[i].x.Some? && cmds[i].y.Some?
  {
    DiagonalDemoFacts(|img|);
    DemoCommands(img, DiagonalDemoOrder(|img|))
  }

  /** The spiral demo's visit order over an n x n grid: the demo's
      `internal(x, y)` reads row `y`, column `x`, and is called as
      `internal(top, i)`, so the walk is the transposed spiral. */
  function SpiralDemoOrder(n: nat): seq<Cell>
  {
    Transposed(Spiral.SpiralOrder(n, n))
  }

  /** The spiral demo visits each cell once. */
  lemma SpiralDemoFacts(n: nat)
    ensures CoversGridOnce(SpiralDemoOrder(n), n, n)
    ensures |SpiralDemoOrder(n)| == n * n
  {
    var o := Spiral.SpiralOrder(n, n);
    Spiral.SpiralCoversGrid(n, n);
    TransposedCovers(o, n);
  }

  /** The spiral demo starts with a walk down column 0. */
  lemma SpiralDemoStartsDownColumn(n: nat)
    ensures |SpiralDemoOrder(n)| >= n
    ensures forall i :: 0 <= i < n ==> SpiralDemoOrder(n)[i] == Cell(i, 0)
  {
    if n > 0 {
      Spiral.SpiralFirstRow(n, n, 0);
    }
    forall i | 0 <= i < n
      ensures SpiralDemoOrder(n)[i] == Cell(i, 0)
    {
      Spiral.SpiralFirstRow(n, n, i);
    }
  }

  /** One command per cell of the spiral walk, X and Y both set. */
  function SpiralDemo(img: seq<seq<int>>): (cmds: seq<Command>)
    requires IsDemoGrid(img)
    ensures |cmds| == |img| * |img|
    ensures forall i :: 0 <= i < |cmds| ==> cmds[i].x.Some? && cmds[i].y.Some?
  {
    SpiralDemoFacts(|img|);
    DemoCommands(img, SpiralDemoOrder(|img|))
  }

  /** On an n x n grid the row scans emit n * (n + 1) commands and the
      diagonal and spiral walks n * n, each program adding Plane's six
      wrapping lines: 116 and 106 lines on the programs' 10 x 10 grid. */
  lemma DemoProgramLengths(img: seq<seq<int>>)
    requires IsDemoGrid(img)
    ensures |Program(UniDemo(img))| == |UniDemo(img)| + 6 == |img| * (|img| + 1) + 6
    ensures |Program(BidiDemo(img))| == |BidiDemo(img)| + 6 == |img| * (|img| + 1) + 6
    ensures |Program(DiagonalDemo(img))| == |DiagonalDemo(img)| + 6 == |img| * |img| + 6
    ensures |Program(SpiralDemo(img))| == |SpiralDemo(img)| + 6 == |img| * |img| + 6
  {
  }

  /** On a 10 x 10 grid, which `ImageIsDemoGrid` shows `Image` to be, the
      row scans give 116-line programs and the walks 106-line ones. */
  lemma DemoProgramLinesOfTen(img: seq<seq<int>>)
    requires IsDemoGrid(img) && |img| == 10
    ensures |Program(UniDemo(img))| == 116 && |Program(BidiDemo(img))| == 116
    ensures |Program(DiagonalDemo(img))| == 106 && |Program(SpiralDemo(img))| == 106
  {
    UniLinesOfTen(img);
    BidiLinesOfTen(img);
    DiagonalLinesOfTen(img);
    SpiralLinesOfTen(img);
  }

  lemma UniLinesOfTen(img: seq<seq<int>>)
    requires IsDemoGrid(img) && |img| == 10
    ensures |Program(UniDemo(img))| == 116
  {
    Ten(|img|);
  }

  lemma BidiLinesOfTen(img: seq<seq<int>>)
    requires IsDemoGrid(img) && |img| == 10
    ensures |Program(BidiDemo(img))| == 116
  {
    Ten(|img|);
  }

  lemma DiagonalLinesOfTen(img: seq<seq<int>>)
    requires IsDemoGrid(img) && |img| == 10
    ensures |Program(DiagonalDemo(img))| == 106
  {
    Ten(|img|);
  }

  lemma SpiralLinesOfTen(img: seq<seq<int>>)
    requires IsDemoGrid(img) && |img| == 10
    ensures |Program(SpiralDemo(img))| == 106
  {
    Ten(|img|);
  }

  lemma Ten(n: nat)
    requires n == 10
    ensures n * (n + 1) == 110 && n * n == 100
  {
  }
}
