/** `bidirectionStrategy`: a boustrophedon scan without compaction. Each
    row opens with a move that sets only Y, then emits one command per
    sample in the row's direction. */
module Bidirection {
  import opened Wrappers
  import opened Raster
  import opened GCode
  import Seqs
  import Unidirection

  function NaiveRow(row: seq<int>, y: nat): seq<Command>
    requires IsRow(row)
  {
    [Command(G0, None, Some(y), None)]
      + seq(|row|, k requires 0 <= k < |row| => Unidirection.SampleCommand(row, ScanColumn(y, k, |row|)))
  }

  function BidirectionStrategy(r: Raster): (cmds: seq<Command>)
    requires r.Valid()
    ensures |cmds| == r.rows * (r.cols + 1)
  {
    var blocks := seq(r.rows, y requires 0 <= y < r.rows => NaiveRow(r.data[y], y));
    Seqs.FlattenLength(blocks, r.cols + 1);
    Seqs.Flatten(blocks)
  }

  /** Row `y` starts at index `y * (cols + 1)` with a move that sets only Y;
      its `k`-th command is the sample command for column
      `ScanColumn(y, k, cols)`, which runs over every column once. */
  lemma BidirectionLayout(r: Raster, y: nat, k: nat)
    requires r.Valid() && y < r.rows && k < r.cols
    ensures y * (r.cols + 1) + 1 + k < |BidirectionStrategy(r)|
    ensures BidirectionStrategy(r)[y * (r.cols + 1)] == Command(G0, None, Some(y), None)
    ensures BidirectionStrategy(r)[y * (r.cols + 1) + 1 + k]
         == Unidirection.SampleCommand(r.data[y], ScanColumn(y, k, r.cols))
  {
    var blocks := seq(r.rows, y requires 0 <= y < r.rows => NaiveRow(r.data[y], y));
    Seqs.FlattenUniform(blocks, r.cols + 1, y, 0);
    Seqs.FlattenUniform(blocks, r.cols + 1, y, 1 + k);
  }
}
