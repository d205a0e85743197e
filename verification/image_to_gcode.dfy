/** The `ImageToGCode` converter: laser and scan modes, the dispatch from
    scan mode to strategy, and `builder()`, which wraps the strategy's
    commands in a fixed header and footer. */
module ImageToGCode {
  import opened Wrappers
  import opened Raster
  import opened GCode
  import Unidirection
  import BidirectionOpt
  import Diagonal
  import Spiral
  import Seqs

  /** M3 is constant-power cutting, M4 dynamic-power engraving. */
  datatype LaserMode = Cutting | Engraving

  datatype ScanMode = Unidirection | Bidirection | Diagonal | Spiral | Block

  // ---------------------------------------------------------------------
  // kEnumToStringLaserMode

  /** Mode to M-code. */
  function ModeCode(m: LaserMode): (code: string)
    ensures |code| == 2 && code[0] == 'M'
    ensures code == "M3" <==> m == Cutting
    ensures code == "M4" <==> m == Engraving
  {
    match m
    case Cutting => "M3"
    case Engraving => "M4"
  }

  /** M-code to mode, as written: `compare` is non-zero on a mismatch, so
      each test succeeds exactly when the code is NOT the one it names.
      The fall-through value-initialised enum is `Cutting`. */
  function ModeOfCode(s: string): LaserMode
  {
    if s != "M3" then Cutting
    else if s != "M4" then Engraving
    else Cutting
  }

  /** The as-written lookup maps "M3" to Engraving and every other string,
      "M4" included, to Cutting: it inverts neither mode's code. */
  lemma ModeOfCodeSwaps(s: string)
    ensures ModeOfCode(s) == Engraving <==> s == "M3"
    ensures forall m :: ModeOfCode(ModeCode(m)) != m
  {
  }

  /** M-code to mode as evidently intended: "M4" is engraving, "M3" and
      anything unrecognised is cutting (the enum's default). */
  function ModeOfCodeIntended(s: string): (m: LaserMode)
    ensures m == Engraving <==> s == "M4"
  {
    if s == "M3" then Cutting
    else if s == "M4" then Engraving
    else Cutting
  }

  /** The intended lookup inverts `ModeCode`. */
  lemma ModeRoundTrip(m: LaserMode)
    ensures ModeOfCodeIntended(ModeCode(m)) == m
  {
  }

  // ---------------------------------------------------------------------
  // matToGCode

  /** The strategy each scan mode runs. Block mode is unimplemented and
      emits nothing. Spiral cells are emitted with X = column. */
  function MatToGCode(r: Raster, scan: ScanMode): (cmds: seq<Command>)
    requires r.Valid()
    ensures AllHaveX(cmds)
    ensures |cmds| <= r.rows * (r.cols + 1)
    ensures scan == Block ==> cmds == []
    ensures scan == Diagonal || scan == Spiral ==> |cmds| == r.rows * r.cols
    ensures scan == Unidirection ==> cmds == Unidirection.UnidirectionOptStrategy(r)
    ensures scan == Bidirection ==> cmds == BidirectionOpt.BidirectionOptStrategy(r)
    ensures scan == Diagonal ==> cmds == Diagonal.DiagonalStrategy(r)
    ensures scan == Spiral ==> cmds == Spiral.SpiralStrategy(r)
  {
    GridBound(r.rows, r.cols);
    match scan
    case Unidirection => Unidirection.UnidirectionOptStrategy(r)
    case Bidirection => BidirectionOpt.BidirectionOptStrategy(r)
    case Diagonal => Diagonal.DiagonalStrategy(r)
    case Spiral => Spiral.SpiralStrategy(r)
    case Block => []
  }

  lemma GridBound(rows: nat, cols: nat)
    ensures rows * cols <= rows * (cols + 1)
  {
    assert rows * (cols + 1) == rows * cols + rows;
  }

  // ---------------------------------------------------------------------
  // builder

  /** The converter's state. `airPump` has no setter, so it stays unset
      unless a converter is built with it. */
  datatype Converter = Converter(image: Raster, laserMode: LaserMode, scanMode: ScanMode,
                                 airPump: Option<int>, command: seq<string>)

  /** A freshly constructed converter: bidirectional engraving, no air
      pump, no commands. */
  function NewConverter(image: Raster): (c: Converter)
    ensures c.scanMode == Bidirection && c.laserMode == Engraving
    ensures c.airPump.None? && c.command == []
  {
    Converter(image, Engraving, Bidirection, None, [])
  }

  /** The opening lines `builder()` puts in front of the commands. */
  const Opening: seq<string> := ["G17G21G90G54", "F30000", "G0 X0.000 Y0.000"]

  /** The header: XY plane, millimetres, absolute coordinates and G54; the
      feed rate; a move to the origin; the laser mode's code with power 0;
      and, only when the air pump is set, the line that turns it on. */
  function Header(c: Converter): (h: seq<string>)
    ensures |h| == if c.airPump.Some? then 5 else 4
    ensures h[..3] == Opening && h[3] == ModeCode(c.laserMode) + " S0"
    ensures c.airPump.Some? <==> "M16 S300" in h
  {
    ["G17G21G90G54", "F30000", "G0 X0.000 Y0.000", ModeCode(c.laserMode) + " S0"]
      + (if c.airPump.Some? then ["M16 S300"] else [])
  }

  /** The footer: laser off, then, only when the air pump is set, the line
      that turns it off. */
  function Footer(c: Converter): (f: seq<string>)
    ensures |f| == if c.airPump.Some? then 2 else 1
    ensures f[0] == "M5"
    ensures c.airPump.Some? <==> "M9" in f
  {
    ["M5"] + (if c.airPump.Some? then ["M9"] else [])
  }

  /** `builder()`: clear the list, run the strategy, then put the header in
      front and the footer behind. The program is the three opening lines,
      the laser mode's code with power 0, "M16 S300" exactly when the air
      pump is set, one line per strategy command that parses back to that
      command, "M5", and, with the air pump, "M9" as the last line. */
  function Builder(c: Converter): (d: Converter)
    requires c.image.Valid()
    ensures d.image == c.image && d.laserMode == c.laserMode && d.scanMode == c.scanMode
    ensures d.airPump == c.airPump
    ensures var body := MatToGCode(c.image, c.scanMode);
      var h := if c.airPump.Some? then 5 else 4;
      && |d.command| == h + |body| + (if c.airPump.Some? then 2 else 1)
      && d.command[..3] == ["G17G21G90G54", "F30000", "G0 X0.000 Y0.000"]
      && d.command[3] == ModeCode(c.laserMode) + " S0"
      && (c.airPump.Some? <==> d.command[4] == "M16 S300")
      && (forall i :: 0 <= i < |body| ==> Parse(d.command[h + i]) == Some(body[i]))
      && d.command[h + |body|] == "M5"
      && (c.airPump.Some? ==> d.command[|d.command| - 1] == "M9")
  {
    var body := MatToGCode(c.image, c.scanMode);
    WrapLayout(c, body);
    c.(command := Header(c) + RenderAll(body) + Footer(c))
  }

  /** Because the list is cleared first, building twice gives the same
      program as building once. */
  lemma BuilderIdempotent(c: Converter)
    requires c.image.Valid()
    ensures Builder(Builder(c)) == Builder(c)
  {
  }

  /** The air pump is turned off exactly when it was turned on, and the
      laser mode line names the converter's mode, as the intended lookup
      reads it back. */
  lemma BuilderLayout(c: Converter)
    requires c.image.Valid()
    ensures var lines := Builder(c).command;
      && ModeOfCodeIntended(lines[3][..2]) == c.laserMode
      && ("M16 S300" in lines <==> c.airPump.Some?)
      && ("M9" in lines <==> c.airPump.Some?)
  {
    var body := MatToGCode(c.image, c.scanMode);
    var lines := Builder(c).command;
    var hd, ft := Header(c), Footer(c);
    assert lines == hd + RenderAll(body) + ft;
    assert lines[3][..2] == ModeCode(c.laserMode);
    assert "M16 S300" !in ft && "M9" !in hd;
    NoMachineLines(body);
  }

  /** A rendered command starts with G, so it is never an M line. */
  lemma NoMachineLines(body: seq<Command>)
    ensures "M16 S300" !in RenderAll(body) && "M9" !in RenderAll(body)
  {
    var lines := RenderAll(body);
    forall i | 0 <= i < |lines|
      ensures |lines[i]| >= 2 && lines[i][0] == 'G'
    {
      assert lines[i][..2] == Prefix(body[i].kind);
    }
    assert "M16 S300"[0] == 'M' && "M9"[0] == 'M';
  }

  /** The layout of any command list wrapped in the converter's header
      and footer. */
  lemma WrapLayout(c: Converter, body: seq<Command>)
    ensures var lines := Header(c) + RenderAll(body) + Footer(c);
      var h := if c.airPump.Some? then 5 else 4;
      && |lines| == h + |body| + (if c.airPump.Some? then 2 else 1)
      && lines[..3] == Opening
      && lines[3] == ModeCode(c.laserMode) + " S0"
      && (c.airPump.Some? <==> lines[4] == "M16 S300")
      && (forall i :: 0 <= i < |body| ==> Parse(lines[h + i]) == Some(body[i]))
      && lines[h + |body|] == "M5"
      && (c.airPump.Some? ==> lines[|lines| - 1] == "M9")
  {
    var hd, ft := Header(c), Footer(c);
    var lines := hd + RenderAll(body) + ft;
    var h := if c.airPump.Some? then 5 else 4;
    WrapBody(hd, body, ft);
    assert lines[..3] == hd[..3];
    assert lines[3] == hd[3];
    assert lines[h + |body|] == ft[0];
    if c.airPump.None? {
      if |body| > 0 {
        assert lines[4][..2] == Prefix(body[0].kind);
      } else {
        assert lines[4] == "M5";
      }
    } else {
      assert lines[4] == hd[4];
      assert lines[|lines| - 1] == ft[1];
    }
  }

  /** Lines of a body between any header and footer: each one parses back
      to its command, and header and footer lines keep their places. */
  lemma WrapBody(hd: seq<string>, body: seq<Command>, ft: seq<string>)
    ensures var lines := hd + RenderAll(body) + ft;
      && |lines| == |hd| + |body| + |ft|
      && (forall j :: 0 <= j < |hd| ==> lines[j] == hd[j])
      && (forall i :: 0 <= i < |body| ==> lines[|hd| + i] == Render(body[i]))
      && (forall i :: 0 <= i < |body| ==> Parse(lines[|hd| + i]) == Some(body[i]))
      && (forall j :: 0 <= j < |ft| ==> lines[|hd| + |body| + j] == ft[j])
  {
    var lines := hd + RenderAll(body) + ft;
    forall i | 0 <= i < |body|
      ensures Parse(lines[|hd| + i]) == Some(body[i])
    {
      assert lines[|hd| + i] == Render(body[i]);
      RenderParseRoundTrip(body[i]);
    }
  }

  /** In Block mode the program is only the header and footer. */
  lemma BlockIsEmpty(c: Converter)
    requires c.image.Valid() && c.scanMode == Block
    ensures Builder(c).command == Header(c) + Footer(c)
  {
  }
}
