/** The shared per-sample emitter of the diagonal and spiral scans
    (`internal`). */
module Sampling {
  import opened Wrappers
  import opened Raster
  import opened GCode

  /** The command for the sample at `c`: a rapid move over background, a
      mark with its power otherwise, always with X and Y. The X
      coordinate is the column plus one when `isEven` holds, the column
      itself otherwise. */
  function Internal(r: Raster, c: Cell, isEven: bool): (cmd: Command)
    requires r.Valid() && InGrid(c, r.rows, r.cols)
    ensures cmd.y == Some(c.row as nat)
    ensures cmd.x == Some(if isEven then c.col as nat + 1 else c.col as nat)
    ensures cmd.kind == G0 <==> r.data[c.row][c.col] == Background
    ensures cmd.kind == G1 ==> cmd.s == Some(Power(r.data[c.row][c.col])) && cmd.s.value > 0
    ensures cmd.kind == G0 ==> cmd.s.None?
  {
    var p := r.data[c.row][c.col];
    var x := if isEven then c.col + 1 else c.col;
    if p == Background then Command(G0, Some(x), Some(c.row), None)
    else Command(G1, Some(x), Some(c.row), Some(Power(p)))
  }
}
