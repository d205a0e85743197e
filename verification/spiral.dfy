/** `spiralStrategy`: the grid is walked from the outside in. Each pass of
    the loop sweeps the current top row left to right, the right column
    downwards, the bottom row right to left (if rows remain) and the left
    column upwards (if columns remain), shrinking the rectangle after each
    sweep. */
module Spiral {
  import opened Raster
  import opened GCode
  import opened Seqs
  import Sampling

  predicate InRect(c: Cell, t: int, b: int, l: int, r: int)
  {
    t <= c.row <= b && l <= c.col <= r
  }

  /** Row `row`, columns `lo` up to `hi`. */
  function Across(row: int, lo: int, hi: int): (s: seq<Cell>)
    ensures forall c :: c in s <==> c.row == row && lo <= c.col <= hi
    ensures NoDup(s)
    decreases hi - lo + 1
  {
    if lo > hi then []
    else
      var rest := Across(row, lo + 1, hi);
      NoDupConcat([Cell(row, lo)], rest);
      [Cell(row, lo)] + rest
  }

  /** `Across` lists its columns in ascending order. */
  lemma {:induction false} AcrossLayout(row: int, lo: int, hi: int, k: nat)
    requires lo + k <= hi
    ensures |Across(row, lo, hi)| == hi - lo + 1
    ensures Across(row, lo, hi)[k] == Cell(row, lo + k)
    decreases hi - lo
  {
    if lo < hi {
      AcrossLayout(row, lo + 1, hi, if k == 0 then 0 else k - 1);
    }
  }

  /** A pass begins with its top row. */
  lemma SpiralStartsWithRow(t: int, b: int, l: int, r: int)
    requires t <= b && l <= r
    ensures |Across(t, l, r)| <= |SpiralFrom(t, b, l, r)|
    ensures forall i :: 0 <= i < |Across(t, l, r)| ==> SpiralFrom(t, b, l, r)[i] == Across(t, l, r)[i]
  {
    var t1, r1 := t + 1, r - 1;
    var b1 := if t1 <= b then b - 1 else b;
    var a := Across(t, l, r);
    var ad := a + Down(r, t1, b);
    var adb := ad + (if t1 <= b then Back(b, r1, l) else []);
    var ring := adb + (if l <= r1 then Up(l, b1, t1) else []);
    var n := Shrink(t, b, l, r);
    assert Ring(t, b, l, r) == ring;
    assert SpiralFrom(t, b, l, r) == ring + SpiralFrom(n.t, n.b, n.l, n.r);
    forall i | 0 <= i < |a|
      ensures SpiralFrom(t, b, l, r)[i] == a[i]
    {
      assert ring[i] == adb[i] == ad[i] == a[i];
    }
  }

  /** Row `row`, columns `lo` down to `hi`. */
  function Back(row: int, lo: int, hi: int): (s: seq<Cell>)
    ensures forall c :: c in s <==> c.row == row && hi <= c.col <= lo
    ensures NoDup(s)
    decreases lo - hi + 1
  {
    if lo < hi then []
    else
      var rest := Back(row, lo - 1, hi);
      NoDupConcat([Cell(row, lo)], rest);
      [Cell(row, lo)] + rest
  }

  /** Column `col`, rows `lo` down to `hi`: upwards on the image. */
  function Up(col: int, lo: int, hi: int): (s: seq<Cell>)
    ensures forall c :: c in s <==> c.col == col && hi <= c.row <= lo
    ensures NoDup(s)
    decreases lo - hi + 1
  {
    if lo < hi then []
    else
      var rest := Up(col, lo - 1, hi);
      NoDupConcat([Cell(lo, col)], rest);
      [Cell(lo, col)] + rest
  }

  /** Column `col`, rows `lo` up to `hi`: downwards on the image. */
  function Down(col: int, lo: int, hi: int): (s: seq<Cell>)
    ensures forall c :: c in s <==> c.col == col && lo <= c.row <= hi
    ensures NoDup(s)
    decreases hi - lo + 1
  {
    if lo > hi then []
    else
      var rest := Down(col, lo + 1, hi);
      NoDupConcat([Cell(lo, col)], rest);
      [Cell(lo, col)] + rest
  }

  /** The rectangle one pass of the loop leaves, as (top, bottom, left, right). */
  datatype Rect = Rect(t: int, b: int, l: int, r: int)

  function Shrink(t: int, b: int, l: int, r: int): Rect
  {
    var t1, r1 := t + 1, r - 1;
    var b1 := if t1 <= b then b - 1 else b;
    var l1 := if l <= r1 then l + 1 else l;
    Rect(t1, b1, l1, r1)
  }

  /** The four sweeps of one pass over the rectangle. */
  function Ring(t: int, b: int, l: int, r: int): seq<Cell>
  {
    var t1, r1 := t + 1, r - 1;
    var b1 := if t1 <= b then b - 1 else b;
    Across(t, l, r) + Down(r, t1, b)
      + (if t1 <= b then Back(b, r1, l) else [])
      + (if l <= r1 then Up(l, b1, t1) else [])
  }

  /** The `while (top <= bottom && left <= right)` loop. */
  function SpiralFrom(t: int, b: int, l: int, r: int): seq<Cell>
    decreases b - t + r - l + 2
  {
    if t <= b && l <= r then
      var n := Shrink(t, b, l, r);
      Ring(t, b, l, r) + SpiralFrom(n.t, n.b, n.l, n.r)
    else []
  }

  function SpiralOrder(rows: nat, cols: nat): seq<Cell>
  {
    SpiralFrom(0, rows - 1, 0, cols - 1)
  }

  /** One pass visits each cell of its rectangle that the shrunken
      rectangle leaves out, once. */
  lemma RingCells(t: int, b: int, l: int, r: int)
    requires t <= b && l <= r
    ensures var n := Shrink(t, b, l, r);
      forall c :: c in Ring(t, b, l, r) <==> InRect(c, t, b, l, r) && !InRect(c, n.t, n.b, n.l, n.r)
  {
  }

  lemma RingOnce(t: int, b: int, l: int, r: int)
    requires t <= b && l <= r
    ensures NoDup(Ring(t, b, l, r))
  {
    var t1, r1 := t + 1, r - 1;
    var b1 := if t1 <= b then b - 1 else b;
    var s1, s2 := Across(t, l, r), Down(r, t1, b);
    var s3 := if t1 <= b then Back(b, r1, l) else [];
    var s4 := if l <= r1 then Up(l, b1, t1) else [];
    NoDupConcat(s1, s2);
    NoDupConcat(s1 + s2, s3);
    NoDupConcat(s1 + s2 + s3, s4);
  }

  /** The loop from rectangle (t, b, l, r) on visits each of its cells
      exactly once. */
  lemma {:induction false} SpiralFromCells(t: int, b: int, l: int, r: int)
    ensures forall c :: c in SpiralFrom(t, b, l, r) <==> InRect(c, t, b, l, r)
    ensures NoDup(SpiralFrom(t, b, l, r))
    decreases b - t + r - l + 2
  {
    if t <= b && l <= r {
      var n := Shrink(t, b, l, r);
      SpiralFromCells(n.t, n.b, n.l, n.r);
      RingCells(t, b, l, r);
      RingOnce(t, b, l, r);
      SpiralStep(Ring(t, b, l, r), SpiralFrom(n.t, n.b, n.l, n.r), Rect(t, b, l, r), n);
    } else {
      SpiralEnd(t, b, l, r);
    }
  }

  lemma SpiralEnd(t: int, b: int, l: int, r: int)
    requires !(t <= b && l <= r)
    ensures forall c :: c in SpiralFrom(t, b, l, r) <==> InRect(c, t, b, l, r)
    ensures NoDup(SpiralFrom(t, b, l, r))
  {
  }

  lemma SpiralStep(ring: seq<Cell>, rest: seq<Cell>, o: Rect, n: Rect)
    requires forall c :: c in ring <==> InRect(c, o.t, o.b, o.l, o.r) && !InRect(c, n.t, n.b, n.l, n.r)
    requires forall c :: c in rest <==> InRect(c, n.t, n.b, n.l, n.r)
    requires o.t <= n.t && n.b <= o.b && o.l <= n.l && n.r <= o.r
    requires NoDup(ring) && NoDup(rest)
    ensures forall c :: c in ring + rest <==> InRect(c, o.t, o.b, o.l, o.r)
    ensures NoDup(ring + rest)
  {
    NoDupConcat(ring, rest);
  }

  /** The spiral visits every cell of the grid exactly once, so it has
      rows * cols entries. */
  lemma SpiralCoversGrid(rows: nat, cols: nat)
    ensures CoversGridOnce(SpiralOrder(rows, cols), rows, cols)
    ensures |SpiralOrder(rows, cols)| == rows * cols
  {
    SpiralFromCells(0, rows - 1, 0, cols - 1);
    CoverLength(SpiralOrder(rows, cols), rows, cols);
  }

  /** How far a cell lies inside the grid: its distance to the nearest
      edge. */
  function Depth(c: Cell, rows: int, cols: int): int
  {
    var v := if c.row <= rows - 1 - c.row then c.row else rows - 1 - c.row;
    var h := if c.col <= cols - 1 - c.col then c.col else cols - 1 - c.col;
    if v <= h then v else h
  }

  /** Cells appear by nondecreasing depth: from the outside in. */
  predicate OutsideIn(s: seq<Cell>, rows: int, cols: int)
  {
    forall m, n :: 0 <= m < n < |s| ==> Depth(s[m], rows, cols) <= Depth(s[n], rows, cols)
  }

  /** The pass over the rectangle `d` cells in from every edge visits
      cells of depth exactly `d`. */
  lemma RingDepth(d: int, rows: int, cols: int)
    requires 0 <= d <= rows - 1 - d && d <= cols - 1 - d
    ensures forall c :: c in Ring(d, rows - 1 - d, d, cols - 1 - d) ==> Depth(c, rows, cols) == d
  {
    RingCells(d, rows - 1 - d, d, cols - 1 - d);
  }

  lemma DepthStep(a: seq<Cell>, b: seq<Cell>, d: int, rows: int, cols: int)
    requires forall c :: c in a ==> Depth(c, rows, cols) == d
    requires forall c :: c in b ==> Depth(c, rows, cols) >= d + 1
    requires OutsideIn(b, rows, cols)
    ensures OutsideIn(a + b, rows, cols)
  {
    var s := a + b;
    forall m, n | 0 <= m < n < |s|
      ensures Depth(s[m], rows, cols) <= Depth(s[n], rows, cols)
    {
      if m >= |a| {
        assert s[m] == b[m - |a|] && s[n] == b[n - |a|];
      } else if n >= |a| {
        assert s[m] == a[m] && s[n] == b[n - |a|];
      } else {
        assert s[m] == a[m] && s[n] == a[n];
      }
    }
  }

  /** The loop from the pass `d` cells in from every edge. */
  function Pass(d: nat, rows: nat, cols: nat): seq<Cell>
  {
    SpiralFrom(d, rows - 1 - d, d, cols - 1 - d)
  }

  /** From the pass `d` cells in on, the loop never goes back outwards. */
  lemma {:induction false} SpiralFromOutsideIn(d: nat, rows: nat, cols: nat)
    ensures OutsideIn(Pass(d, rows, cols), rows, cols)
    decreases rows + cols - 4 * d
  {
    if d <= rows - 1 - d && d <= cols - 1 - d {
      if d + 1 <= rows - 1 - (d + 1) && d + 1 <= cols - 1 - (d + 1) {
        SpiralFromOutsideIn(d + 1, rows, cols);
      }
      var n := Shrink(d, rows - 1 - d, d, cols - 1 - d);
      InnerDepth(d, rows, cols);
      RingDepth(d, rows, cols);
      DepthStep(Ring(d, rows - 1 - d, d, cols - 1 - d), SpiralFrom(n.t, n.b, n.l, n.r), d, rows, cols);
    }
  }

  /** What a pass `d` cells in leaves lies deeper, and is walked outside in
      when the pass one cell further in is. */
  lemma InnerDepth(d: nat, rows: nat, cols: nat)
    requires d <= rows - 1 - d && d <= cols - 1 - d
    requires d + 1 <= rows - 1 - (d + 1) && d + 1 <= cols - 1 - (d + 1) ==>
      OutsideIn(Pass(d + 1, rows, cols), rows, cols)
    ensures var n := Shrink(d, rows - 1 - d, d, cols - 1 - d);
      OutsideIn(SpiralFrom(n.t, n.b, n.l, n.r), rows, cols) &&
      forall c :: c in SpiralFrom(n.t, n.b, n.l, n.r) ==> Depth(c, rows, cols) >= d + 1
  {
    var n := Shrink(d, rows - 1 - d, d, cols - 1 - d);
    var inner := SpiralFrom(n.t, n.b, n.l, n.r);
    if d + 1 <= rows - 1 - (d + 1) && d + 1 <= cols - 1 - (d + 1) {
      NextPass(d, rows, cols);
      assert inner == Pass(d + 1, rows, cols);
    } else {
      LastPass(d, rows, cols);
      assert inner == [];
    }
  }

  /** The rectangle a pass leaves is the one a cell further in, and all
      of its cells lie deeper. */
  lemma NextPass(d: nat, rows: nat, cols: nat)
    requires d + 1 <= rows - 1 - (d + 1) && d + 1 <= cols - 1 - (d + 1)
    ensures Shrink(d, rows - 1 - d, d, cols - 1 - d) == Rect(d + 1, rows - 1 - (d + 1), d + 1, cols - 1 - (d + 1))
    ensures forall c :: c in Pass(d + 1, rows, cols) ==> Depth(c, rows, cols) >= d + 1
  {
    var inner := SpiralFrom(d + 1, rows - 1 - (d + 1), d + 1, cols - 1 - (d + 1));
    assert Pass(d + 1, rows, cols) == inner;
    SpiralFromWithin(d + 1, rows - 1 - (d + 1), d + 1, cols - 1 - (d + 1));
    assert Within(inner, d + 1, rows - 1 - (d + 1), d + 1, cols - 1 - (d + 1));
    DeepInRect(inner, d + 1, rows, cols);
  }

  /** When the rectangle is a single row or column, its pass is the last. */
  lemma LastPass(d: nat, rows: nat, cols: nat)
    requires d <= rows - 1 - d && d <= cols - 1 - d
    requires !(d + 1 <= rows - 1 - (d + 1) && d + 1 <= cols - 1 - (d + 1))
    ensures var n := Shrink(d, rows - 1 - d, d, cols - 1 - d); SpiralFrom(n.t, n.b, n.l, n.r) == []
  {
  }

  /** Every cell of `s` lies in the rectangle. */
  predicate Within(s: seq<Cell>, t: int, b: int, l: int, r: int)
  {
    forall c :: c in s ==> InRect(c, t, b, l, r)
  }

  lemma SpiralFromWithin(t: int, b: int, l: int, r: int)
    ensures Within(SpiralFrom(t, b, l, r), t, b, l, r)
  {
    SpiralFromCells(t, b, l, r);
  }

  /** Every cell of the rectangle `d` cells in from each edge lies at
      least `d` deep. */
  lemma DeepInRect(s: seq<Cell>, d: nat, rows: int, cols: int)
    requires Within(s, d, rows - 1 - d, d, cols - 1 - d)
    ensures forall c :: c in s ==> Depth(c, rows, cols) >= d
  {
  }

  /** The whole spiral runs from the outside in. */
  lemma SpiralOutsideIn(rows: nat, cols: nat)
    ensures OutsideIn(SpiralOrder(rows, cols), rows, cols)
  {
    SpiralFromOutsideIn(0, rows, cols);
  }

  /** The spiral opens with the grid's top row, left to right. */
  lemma SpiralFirstRow(rows: nat, cols: nat, i: nat)
    requires rows > 0 && i < cols
    ensures |SpiralOrder(rows, cols)| >= cols
    ensures SpiralOrder(rows, cols)[i] == Cell(0, i)
  {
    SpiralStartsWithRow(0, rows - 1, 0, cols - 1);
    AcrossLayout(0, 0, cols - 1, i);
  }

  /** One command per visited cell, X being the column itself. */
  function SpiralStrategy(r: Raster): (cmds: seq<Command>)
    requires r.Valid()
    ensures |cmds| == r.rows * r.cols
    ensures forall i :: 0 <= i < |cmds| ==> cmds[i].x.Some? && cmds[i].y.Some?
  {
    var order := SpiralOrder(r.rows, r.cols);
    SpiralCoversGrid(r.rows, r.cols);
    seq(|order|, i requires 0 <= i < |order| => Sampling.Internal(r, order[i], false))
  }

  /** Every sample of the grid is emitted exactly once, at its place in
      the spiral. */
  lemma SpiralEmitsEverySample(r: Raster, c: Cell)
    requires r.Valid() && InGrid(c, r.rows, r.cols)
    ensures exists i :: 0 <= i < |SpiralStrategy(r)| && SpiralOrder(r.rows, r.cols)[i] == c &&
                        SpiralStrategy(r)[i] == Sampling.Internal(r, c, false)
  {
    SpiralCoversGrid(r.rows, r.cols);
    var order := SpiralOrder(r.rows, r.cols);
    var cmds := SpiralStrategy(r);
    var i :| 0 <= i < |order| && order[i] == c;
    assert cmds[i] == Sampling.Internal(r, order[i], false);
  }
}
