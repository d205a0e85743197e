/** `bidirectionStdOptStrategy`: the boustrophedon scan built from
    standard-library steps. Every sample becomes a record of its column,
    row and value; odd rows are reversed; the rows are concatenated; then
    the first of every two adjacent background samples is erased until
    none remain, so each background run keeps only its last sample. */
module BidirectionStd {
  import opened Raster
  import opened GCode
  import opened Wrappers
  import Seqs

  /** A sample with its own coordinates: the source's `G {x, y, v}`. */
  datatype Sample = Sample(x: nat, y: nat, v: int)

  /** `std::ranges::reverse` of one row. */
  function Reverse<T>(s: seq<T>): (r: seq<T>)
    ensures |r| == |s|
  {
    seq(|s|, i requires 0 <= i < |s| => s[|s| - 1 - i])
  }

  /** Reversing twice gives the row back, so an odd row keeps every one of
      its samples, merely in the opposite order. */
  lemma ReverseInvolutive<T>(s: seq<T>)
    ensures Reverse(Reverse(s)) == s
    ensures forall i :: 0 <= i < |s| ==> Reverse(s)[i] in s
  {
  }

  /** Row `y`'s samples in column order. */
  function RowSamples(r: Raster, y: nat): (line: seq<Sample>)
    requires r.Valid() && y < r.rows
    ensures |line| == r.cols
  {
    seq(r.cols, x requires 0 <= x < r.cols => Sample(x, y, r.data[y][x]))
  }

  /** The rows with every odd one reversed, concatenated. */
  function Lines(r: Raster): (c: seq<Sample>)
    requires r.Valid()
    ensures |c| == r.rows * r.cols
  {
    var blocks := seq(r.rows, y requires 0 <= y < r.rows =>
      if y % 2 == 0 then RowSamples(r, y) else Reverse(RowSamples(r, y)));
    Seqs.FlattenLength(blocks, r.cols);
    Seqs.Flatten(blocks)
  }

  /** After the reversal the concatenation visits row `y` at positions
      `y * cols ..`, its `k`-th sample being column `ScanColumn(y, k, cols)`. */
  lemma LinesLayout(r: Raster, y: nat, k: nat)
    requires r.Valid() && y < r.rows && k < r.cols
    ensures y * r.cols + k < |Lines(r)|
    ensures Lines(r)[y * r.cols + k] == var x := ScanColumn(y, k, r.cols); Sample(x, y, r.data[y][x])
  {
    var blocks := seq(r.rows, y requires 0 <= y < r.rows =>
      if y % 2 == 0 then RowSamples(r, y) else Reverse(RowSamples(r, y)));
    Seqs.FlattenUniform(blocks, r.cols, y, k);
  }

  // ---------------------------------------------------------------------
  // The erase loop and its functional description

  /** The pair the `adjacent_find` predicate looks for: two background
      samples in a row. */
  predicate AdjacentBackground(s: seq<Sample>, i: nat)
    requires i + 1 < |s|
  {
    s[i].v == Background && s[i + 1].v == Background
  }

  predicate NoAdjacentBackground(s: seq<Sample>)
  {
    forall i :: 0 <= i < |s| - 1 ==> !AdjacentBackground(s, i)
  }

  /** The samples that are marks, in order. */
  function Marked(s: seq<Sample>): seq<Sample>
  {
    if |s| == 0 then []
    else (if s[0].v != Background then [s[0]] else []) + Marked(s[1..])
  }

  /** The background samples, in order. */
  function Blank(s: seq<Sample>): seq<Sample>
  {
    if |s| == 0 then []
    else (if s[0].v == Background then [s[0]] else []) + Blank(s[1..])
  }

  /** The last sample of every background run, in order. */
  function RunLasts(s: seq<Sample>): seq<Sample>
  {
    if |s| == 0 then []
    else
      var last := s[0].v == Background && (|s| == 1 || s[1].v != Background);
      (if last then [s[0]] else []) + RunLasts(s[1..])
  }

  /** What the erase loop leaves: no two adjacent background samples; the
      first sample keeps its kind and the last sample survives. Which
      samples are kept is stated by `SquashKeeps`. */
  function Squash(s: seq<Sample>): (r: seq<Sample>)
    ensures |r| <= |s|
    ensures NoAdjacentBackground(r)
    ensures |s| > 0 ==> |r| > 0 && r[0].v == s[0].v && r[|r| - 1] == s[|s| - 1]
    decreases |s|
  {
    if |s| <= 1 then s
    else if AdjacentBackground(s, 0) then Squash(s[1..])
    else
      var t := Squash(s[1..]);
      ConsNoAdjacent(s[0], t);
      [s[0]] + t
  }

  lemma ConsNoAdjacent(g: Sample, t: seq<Sample>)
    requires NoAdjacentBackground(t)
    requires |t| > 0 ==> g.v != Background || t[0].v != Background
    ensures NoAdjacentBackground([g] + t)
  {
    var u := [g] + t;
    forall i | 0 <= i < |u| - 1
      ensures !AdjacentBackground(u, i)
    {
      if i > 0 {
        assert !AdjacentBackground(t, i - 1);
      }
    }
  }

  /** Every mark is kept in order, and of the background samples exactly
      the last of each run. */
  lemma {:induction false} SquashKeeps(s: seq<Sample>)
    ensures Marked(Squash(s)) == Marked(s)
    ensures Blank(Squash(s)) == RunLasts(s)
    decreases |s|
  {
    if |s| == 1 {
      assert s[1..] == [];
    } else if |s| > 1 {
      SquashKeeps(s[1..]);
      if !AdjacentBackground(s, 0) {
        var t := Squash(s[1..]);
        assert ([s[0]] + t)[1..] == t;
      }
    }
  }

  /** Sample `i` is the left one of an adjacent background pair, which
      the erase loop removes. */
  predicate Erased(s: seq<Sample>, i: nat)
  {
    i + 1 < |s| && AdjacentBackground(s, i)
  }

  /** The indices from `i` on of the samples that are not erased. */
  function Survivors(s: seq<Sample>, i: nat): seq<nat>
    decreases |s| - i
  {
    if i >= |s| then [] else (if Erased(s, i) then [] else [i]) + Survivors(s, i + 1)
  }

  /** `Survivors` is an ascending list of indices of `s` holding exactly
      those from `i` on that are not erased. */
  lemma {:induction false} SurvivorsFacts(s: seq<Sample>, i: nat)
    ensures var k := Survivors(s, i);
      && (forall j :: 0 <= j < |k| ==> i <= k[j] < |s|)
      && (forall j, l :: 0 <= j < l < |k| ==> k[j] < k[l])
      && (forall m :: i <= m < |s| ==> (m in k <==> !Erased(s, m)))
    decreases |s| - i
  {
    if i < |s| {
      SurvivorsFacts(s, i + 1);
    }
  }

  /** Every index of `k` moved one place to the right. */
  function Shift(k: seq<nat>): (r: seq<nat>)
    ensures |r| == |k|
    ensures forall j :: 0 <= j < |k| ==> r[j] == k[j] + 1
  {
    if |k| == 0 then [] else [k[0] + 1] + Shift(k[1..])
  }

  /** The survivors of `s` past its first sample are those of `s[1..]`,
      moved one place. */
  lemma {:induction false} SurvivorsShift(s: seq<Sample>, i: nat)
    requires 1 <= i && |s| > 0
    ensures Survivors(s, i) == Shift(Survivors(s[1..], i - 1))
    decreases |s| - i
  {
    if i < |s| {
      SurvivorsShift(s, i + 1);
      var t := s[1..];
      assert Erased(s, i) == Erased(t, i - 1);
      var rest := Survivors(t, i);
      if !Erased(t, i - 1) {
        assert ([i - 1] + rest)[1..] == rest;
      } else {
        assert [] + rest == rest;
      }
    }
  }

  /** The samples of `s` at the indices `k`, in the order of `k`; an
      index past the end selects nothing. */
  function Pick(s: seq<Sample>, k: seq<nat>): seq<Sample>
  {
    if |k| == 0 then [] else (if k[0] < |s| then [s[k[0]]] else []) + Pick(s, k[1..])
  }

  lemma {:induction false} PickShift(s: seq<Sample>, k: seq<nat>)
    requires |s| > 0
    ensures Pick(s, Shift(k)) == Pick(s[1..], k)
  {
    if |k| > 0 {
      PickShift(s, k[1..]);
      assert Shift(k)[1..] == Shift(k[1..]);
    }
  }

  lemma {:induction false} PickIndex(s: seq<Sample>, k: seq<nat>)
    requires forall j :: 0 <= j < |k| ==> k[j] < |s|
    ensures |Pick(s, k)| == |k|
    ensures forall j :: 0 <= j < |k| ==> Pick(s, k)[j] == s[k[j]]
  {
    if |k| > 0 {
      PickIndex(s, k[1..]);
    }
  }

  /** What the erase loop leaves is `s` restricted to its survivors. */
  lemma {:induction false} SquashSelects(s: seq<Sample>)
    ensures Squash(s) == Pick(s, Survivors(s, 0))
    decreases |s|
  {
    if |s| == 1 {
      assert Survivors(s, 1) == [];
      assert Survivors(s, 0) == [0] + [];
    } else if |s| > 1 {
      var t := s[1..];
      SquashSelects(t);
      SurvivorsShift(s, 1);
      PickShift(s, Survivors(t, 0));
      var k := Shift(Survivors(t, 0));
      if Erased(s, 0) {
        assert Survivors(s, 0) == [] + k == k;
        assert Squash(s) == Squash(t);
      } else {
        assert Survivors(s, 0) == [0] + k;
        assert ([0] + k)[1..] == k;
        assert Pick(s, [0] + k) == [s[0]] + Pick(s, k);
        assert Squash(s) == [s[0]] + Squash(t);
      }
    }
  }

  /** The erase loop keeps a subsequence: the samples at the ascending
      indices `Survivors(s, 0)`, which are exactly those that are not the
      left one of an adjacent background pair, in their original order. */
  lemma SquashSubsequence(s: seq<Sample>)
    ensures var k := Survivors(s, 0);
      && |Squash(s)| == |k|
      && (forall j :: 0 <= j < |k| ==> k[j] < |s| && Squash(s)[j] == s[k[j]])
      && (forall j, l :: 0 <= j < l < |k| ==> k[j] < k[l])
      && (forall m :: 0 <= m < |s| ==> (m in k <==> !Erased(s, m)))
  {
    SurvivorsFacts(s, 0);
    SquashSelects(s);
    PickIndex(s, Survivors(s, 0));
  }

  /** Erasing the left sample of an adjacent background pair does not
      change what the loop ends with. */
  lemma {:induction false} SquashErase(s: seq<Sample>, i: nat)
    requires i + 1 < |s| && AdjacentBackground(s, i)
    ensures Squash(s[..i] + s[i + 1..]) == Squash(s)
    decreases i
  {
    var t := s[..i] + s[i + 1..];
    if i == 0 {
      assert t == s[1..];
    } else {
      var s' := s[1..];
      assert t[0] == s[0];
      assert t[1..] == s'[..i - 1] + s'[i..];
      SquashErase(s', i - 1);
      assert t[1].v == s[1].v;
      assert |t| > 1 && AdjacentBackground(t, 0) == AdjacentBackground(s, 0);
      if AdjacentBackground(s, 0) {
        assert Squash(t) == Squash(t[1..]);
      } else {
        assert Squash(t) == [t[0]] + Squash(t[1..]);
      }
    }
  }

  /** A sequence without adjacent background samples is left unchanged. */
  lemma {:induction false} SquashIdentity(s: seq<Sample>)
    requires NoAdjacentBackground(s)
    ensures Squash(s) == s
    decreases |s|
  {
    if |s| > 1 {
      assert NoAdjacentBackground(s[1..]) by {
        forall i | 0 <= i < |s[1..]| - 1
          ensures !AdjacentBackground(s[1..], i)
        {
          assert !AdjacentBackground(s, i + 1);
        }
      }
      SquashIdentity(s[1..]);
      assert !AdjacentBackground(s, 0);
    }
  }

  /** Running the erase loop a second time changes nothing. */
  lemma SquashIdempotent(s: seq<Sample>)
    ensures Squash(Squash(s)) == Squash(s)
  {
    SquashIdentity(Squash(s));
  }

  /** `std::ranges::adjacent_find`: the first index of an adjacent
      background pair, or `|s|` when there is none. */
  method AdjacentFind(s: seq<Sample>) returns (i: nat)
    ensures i <= |s|
    ensures i < |s| ==> i + 1 < |s| && AdjacentBackground(s, i)
    ensures forall j :: 0 <= j < i && j + 1 < |s| ==> !AdjacentBackground(s, j)
    ensures i == |s| <==> NoAdjacentBackground(s)
  {
    i := 0;
    while i + 1 < |s|
      invariant i <= |s|
      invariant forall j :: 0 <= j < i ==> j + 1 < |s| && !AdjacentBackground(s, j)
    {
      if AdjacentBackground(s, i) {
        return;
      }
      i := i + 1;
    }
    i := |s|;
  }

  /** The `while (true)` loop: find the first adjacent background pair,
      erase its left sample, repeat until none is found. */
  method Collapse(s: seq<Sample>) returns (r: seq<Sample>)
    ensures r == Squash(s)
  {
    r := s;
    while true
      invariant Squash(r) == Squash(s)
      decreases |r|
    {
      var i := AdjacentFind(r);
      if i == |r| {
        SquashIdentity(r);
        return;
      }
      SquashErase(r, i);
      r := r[..i] + r[i + 1..];
    }
  }

  // ---------------------------------------------------------------------
  // Emitting commands

  /** A background sample becomes a rapid move to it, a mark a cut to it
      at full power whatever its grey level. */
  function SampleToCommand(g: Sample): (c: Command)
    ensures c.x == Some(g.x) && c.y == Some(g.y)
    ensures c.kind == G0 <==> g.v == Background
    ensures c.kind == G0 <==> c.s.None?
    ensures c.kind == G1 ==> c.s == Some(1000)
  {
    if g.v == Background then Command(G0, Some(g.x), Some(g.y), None)
    else Command(G1, Some(g.x), Some(g.y), Some(1000))
  }

  /** One command per kept sample, at that sample's own column and row. */
  function Emit(c: seq<Sample>): (cmds: seq<Command>)
    ensures |cmds| == |c|
    ensures forall i :: 0 <= i < |c| ==> cmds[i] == SampleToCommand(c[i])
    ensures forall i :: 0 <= i < |c| ==>
      && cmds[i].x == Some(c[i].x) && cmds[i].y == Some(c[i].y)
      && (cmds[i].kind == G0 <==> c[i].v == Background)
  {
    seq(|c|, i requires 0 <= i < |c| => SampleToCommand(c[i]))
  }

  /** The whole strategy: one command per surviving sample, never two
      rapid moves in a row, at most one command per sample of the grid. */
  method BidirectionStdOptStrategy(r: Raster) returns (cmds: seq<Command>)
    requires r.Valid()
    ensures cmds == Emit(Squash(Lines(r)))
    ensures |cmds| <= r.rows * r.cols
    ensures forall i :: 0 <= i < |cmds| - 1 ==> cmds[i].kind == G1 || cmds[i + 1].kind == G1
    ensures r.rows * r.cols > 0 ==> cmds[|cmds| - 1] == SampleToCommand(Lines(r)[r.rows * r.cols - 1])
  {
    var container := Lines(r);
    var kept := Collapse(container);
    cmds := Emit(kept);
    forall i | 0 <= i < |cmds| - 1
      ensures cmds[i].kind == G1 || cmds[i + 1].kind == G1
    {
      assert !AdjacentBackground(kept, i);
    }
  }
}
