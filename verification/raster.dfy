/** The raster the strategies walk: a rectangular grid of 8-bit samples in
    which 255 is background (no mark) and anything darker is a mark. */
module Raster {
  import opened Seqs

  /** The sample value that means "no mark". */
  const Background: int := 255

  /** A grid position: `row` is the y index, `col` the x index. */
  datatype Cell = Cell(row: int, col: int)

  /** Every sample of a row is an 8-bit value. */
  predicate IsRow(row: seq<int>)
  {
    forall x :: 0 <= x < |row| ==> 0 <= row[x] <= 255
  }

  /** A resized single-channel image: `rows` rows of `cols` samples each. */
  datatype Raster = Raster(rows: nat, cols: nat, data: seq<seq<int>>)
  {
    predicate Valid()
    {
      |data| == rows && forall y :: 0 <= y < |data| ==> |data[y]| == cols && IsRow(data[y])
    }
  }

  predicate InGrid(c: Cell, rows: int, cols: int)
  {
    0 <= c.row < rows && 0 <= c.col < cols
  }

  /** `s` lists every cell of a `rows` x `cols` grid exactly once. */
  ghost predicate CoversGridOnce(s: seq<Cell>, rows: int, cols: int)
  {
    NoDup(s) && forall c :: c in s <==> InGrid(c, rows, cols)
  }

  /** Laser power for a mark sample: `(1 - p/255) * 1000` computed in
      double precision and cast to int, which truncates. How the value
      relates to the exact quotient is stated by `PowerTruncates`. */
  function Power(p: int): (s: nat)
    requires 0 <= p <= 255
    ensures s <= 1000
    ensures s == 0 <==> p == Background
    ensures p == 0 ==> s == 1000
  {
    if p == 204 then 199 else (255 - p) * 1000 / 255
  }

  /** The exact quotient `(255 - p) * 1000 / 255` truncates to the power
      for every sample except 204, where `1.0 - 0.8` rounds below 0.2 and
      the cast yields 199 instead of 200. */
  lemma PowerTruncates(p: int)
    requires 0 <= p <= 255
    ensures p != 204 ==> 255 * Power(p) <= (255 - p) * 1000 < 255 * (Power(p) + 1)
    ensures p == 204 ==> Power(p) == 199
  {
    if p != 204 {
      var q := (255 - p) * 1000;
      assert Power(p) == q / 255;
    }
  }

  /** Darker samples never get less power. */
  lemma PowerAntitone(p: int, q: int)
    requires 0 <= p <= q <= 255
    ensures Power(q) <= Power(p)
  {
    PowerTruncates(p);
    PowerTruncates(q);
    var a, b := Power(p), Power(q);
    if p != 204 && q != 204 {
      assert 255 * b <= (255 - q) * 1000 <= (255 - p) * 1000 < 255 * (a + 1);
    } else if p == 204 && q != 204 {
      assert 255 * b <= (255 - q) * 1000 <= 51000;
    } else if p != 204 {
      assert 52000 <= (255 - p) * 1000 < 255 * (a + 1);
    }
  }

  /** Last index of the background run that starts at `x`, scanning left
      to right (the `while(++x < end && ... == 255)` search). */
  function RunEnd(row: seq<int>, x: nat): (e: nat)
    requires x < |row| && row[x] == Background
    ensures x <= e < |row|
    ensures forall k :: x <= k <= e ==> row[k] == Background
    ensures e + 1 == |row| || row[e + 1] != Background
    decreases |row| - x
  {
    if x + 1 < |row| && row[x + 1] == Background then RunEnd(row, x + 1) else x
  }

  /** First index of the background run that ends at `x`, scanning right
      to left (the `while(--x > end && ... == 255)` search). */
  function RunStart(row: seq<int>, x: nat): (e: nat)
    requires x < |row| && row[x] == Background
    ensures e <= x
    ensures forall k :: e <= k <= x ==> row[k] == Background
    ensures e == 0 || row[e - 1] != Background
    decreases x
  {
    if x > 0 && row[x - 1] == Background then RunStart(row, x - 1) else x
  }

  /** Number of maximal runs of background samples in `s`, counted by
      their last cell (a background cell whose right neighbour is not
      background). */
  function Runs(s: seq<int>): nat
  {
    if |s| == 0 then 0
    else (if s[0] == Background && (|s| == 1 || s[1] != Background) then 1 else 0) + Runs(s[1..])
  }

  /** Number of mark (non-background) samples in `s`. */
  function Marks(s: seq<int>): nat
  {
    if |s| == 0 then 0 else (if s[0] != Background then 1 else 0) + Marks(s[1..])
  }

  /** Splitting where no run crosses the cut adds the run counts. */
  lemma {:induction false} RunsConcat(a: seq<int>, b: seq<int>)
    requires |a| == 0 || |b| == 0 || a[|a| - 1] != Background || b[0] != Background
    ensures Runs(a + b) == Runs(a) + Runs(b)
  {
    if |a| == 0 {
      assert a + b == b;
    } else {
      assert (a + b)[1..] == a[1..] + b;
      RunsConcat(a[1..], b);
    }
  }

  lemma {:induction false} MarksConcat(a: seq<int>, b: seq<int>)
    ensures Marks(a + b) == Marks(a) + Marks(b)
  {
    if |a| == 0 {
      assert a + b == b;
    } else {
      assert (a + b)[1..] == a[1..] + b;
      MarksConcat(a[1..], b);
    }
  }

  /** A non-empty all-background stretch is exactly one run. */
  lemma {:induction false} RunsAllBackground(s: seq<int>)
    requires |s| > 0
    requires forall k :: 0 <= k < |s| ==> s[k] == Background
    ensures Runs(s) == 1 && Marks(s) == 0
  {
    if |s| > 1 {
      RunsAllBackground(s[1..]);
    }
  }

  /** A single mark sample holds no run. */
  lemma RunsSingleMark(v: int)
    requires v != Background
    ensures Runs([v]) == 0 && Marks([v]) == 1
  {
  }

  /** Each sample is at most one mark or closes at most one run. */
  lemma {:induction false} MarksPlusRuns(s: seq<int>)
    ensures Marks(s) + Runs(s) <= |s|
  {
    if |s| > 0 {
      MarksPlusRuns(s[1..]);
    }
  }

  /** A run that ends at `e` contributes exactly one run to the suffix. */
  lemma SuffixRuns(row: seq<int>, x: nat, e: nat)
    requires x <= e < |row|
    requires forall k :: x <= k <= e ==> row[k] == Background
    requires e + 1 == |row| || row[e + 1] != Background
    ensures Runs(row[x..]) == 1 + Runs(row[e + 1..])
  {
    assert row[x..] == row[x..e + 1] + row[e + 1..];
    RunsConcat(row[x..e + 1], row[e + 1..]);
    RunsAllBackground(row[x..e + 1]);
  }

  /** A run that starts at `e` contributes exactly one run to the prefix. */
  lemma PrefixRuns(row: seq<int>, e: nat, x: nat)
    requires e <= x < |row|
    requires forall k :: e <= k <= x ==> row[k] == Background
    requires e == 0 || row[e - 1] != Background
    ensures Runs(row[..x + 1]) == Runs(row[..e]) + 1
  {
    assert row[..x + 1] == row[..e] + row[e..x + 1];
    RunsConcat(row[..e], row[e..x + 1]);
    RunsAllBackground(row[e..x + 1]);
  }

  lemma SuffixMark(row: seq<int>, x: nat)
    requires x < |row| && row[x] != Background
    ensures Runs(row[x..]) == Runs(row[x + 1..])
  {
    assert row[x..] == [row[x]] + row[x + 1..];
    RunsConcat([row[x]], row[x + 1..]);
  }

  lemma PrefixMark(row: seq<int>, x: nat)
    requires x < |row| && row[x] != Background
    ensures Runs(row[..x + 1]) == Runs(row[..x])
  {
    assert row[..x + 1] == row[..x] + [row[x]];
    RunsConcat(row[..x], [row[x]]);
  }

  /** The column visited at step `k` of row `y` in a boustrophedon scan:
      even rows go left to right, odd rows right to left. */
  function ScanColumn(y: nat, k: nat, cols: nat): (x: nat)
    requires k < cols
    ensures x < cols
  {
    if y % 2 == 0 then k else cols - 1 - k
  }

  /** Each row's scan visits every column exactly once: the map from step
      to column is injective and is its own inverse. */
  lemma ScanColumnBijective(y: nat, cols: nat)
    ensures forall k1, k2 :: 0 <= k1 < k2 < cols ==> ScanColumn(y, k1, cols) != ScanColumn(y, k2, cols)
    ensures forall k :: 0 <= k < cols ==> ScanColumn(y, ScanColumn(y, k, cols), cols) == k
  {
  }

  ghost function GridCells(rows: nat, cols: nat): set<Cell>
  {
    set r, c | 0 <= r < rows && 0 <= c < cols :: Cell(r, c)
  }

  ghost function RowCells(r: nat, cols: nat): set<Cell>
  {
    set c | 0 <= c < cols :: Cell(r, c)
  }

  lemma {:induction false} RowCellsSize(r: nat, cols: nat)
    ensures |RowCells(r, cols)| == cols
  {
    if cols > 0 {
      RowCellsSize(r, cols - 1);
      assert RowCells(r, cols) == RowCells(r, cols - 1) + {Cell(r, cols - 1)};
    }
  }

  lemma {:induction false} GridCellsSize(rows: nat, cols: nat)
    ensures |GridCells(rows, cols)| == rows * cols
  {
    if rows > 0 {
      GridCellsSize(rows - 1, cols);
      RowCellsSize(rows - 1, cols);
      assert GridCells(rows, cols) == GridCells(rows - 1, cols) + RowCells(rows - 1, cols);
      assert GridCells(rows - 1, cols) !! RowCells(rows - 1, cols);
      MulSucc(rows - 1, cols);
    }
  }

  /** A visit order that covers a grid once has one entry per cell. */
  lemma CoverLength(s: seq<Cell>, rows: nat, cols: nat)
    requires CoversGridOnce(s, rows, cols)
    ensures |s| == rows * cols
  {
    NoDupCardinality(s);
    forall c | c in GridCells(rows, cols) ensures c in Elements(s) {
      assert InGrid(c, rows, cols);
    }
    forall c | c in Elements(s) ensures c in GridCells(rows, cols) {
      assert InGrid(c, rows, cols);
      assert c == Cell(c.row, c.col);
    }
    assert Elements(s) == GridCells(rows, cols);
    GridCellsSize(rows, cols);
  }
}
