# ImageToGCode in Dafny

This is a model of the raster engine of ImageToGCode. The engine turns a grey-level image into laser G-code. Each pixel is a sample in 0..255, and 255 is background, where the laser stays off.

The model covers these parts:

- **Strategies.** A scan strategy walks the grid and emits motion commands. `G0` is a rapid move. `G1` is a mark whose `S` field is the laser power (0..1000). Seven strategies are modelled:
  - the unidirectional scan, plain and optimised;
  - the bidirectional (boustrophedon) scan, plain and optimised;
  - the bidirectional scan built on standard-library calls;
  - the diagonal scan;
  - the spiral scan.
- **Converter.** `ImageToGCode` picks a strategy from its scan mode. Its `builder()` wraps the rendered commands in a fixed header and footer.
- **Command text.** The `G0`/`G1` structures render themselves as text.
- **Plane.** `Plane` is the simpler holder the demo programs use.
- **Demo programs.** There are four, each walking a fixed 10 × 10 grid of 0/1 values.

## Modelling choices

- **Grid.** A grid is a `Raster(rows, cols, data)` with rows of equal length and samples in 0..255. Strategies receive the grid already resized.
- **Coordinates.** Coordinates are grid indices, not millimetres. Every strategy but one divides the index by `resolution`; that division and the `{:.3f}` formatting are abstracted, so a number renders as a plain decimal integer. `bidirectionStdOptStrategy` emits the raw indices without dividing (see Left out).
- **Power.** The source computes `(1.0 - p / 255.0) * 1000.0` in double precision and casts it to `int`, which truncates. For every sample but one this equals the integer quotient `(255 - p) * 1000 / 255`. At p = 204 the double `1.0 - 0.8` lies just below 0.2, so the cast gives 199 where the quotient gives 200. `Raster.Power` is the quotient with that one exception written out.
- **Rendering.** `G0::toString`, `G1::toString` and both `operator std::string` bodies build the same text. All four, in `Common.hpp` and in `Plane.h`, are modelled by the single function `GCode.Render`.
- **Optimised bidirectional state.** `bidirectionOptStrategy` is modelled as follows:
  - `EvenCell`/`OddCell` model the loop body for one column. Each returns what it emitted, the column the loop continues from, and the two carry flags.
  - `EvenFrom`/`OddFrom` model the column loop.
  - `FlagsBefore` threads the flags across rows.
  - The two booleans are kept as two booleans. On a grid one column wide, both can be set at once.
  - `BidirectionOpt` is the loop as written, and it is what `MatToGCode` dispatches to. The module `BidirectionCarry` holds the corrected carry rule (see Findings): the same loop body with the two edge rules enforced, proved, row by row, to move every row after the first to its own Y exactly once while keeping the row's marks, X on every command and at most one command per column.
- **Standard-library bidirectional scan.** In `bidirectionStdOptStrategy`, the erase loop is the method `Collapse`. Its reference definition is the recursive `Squash`.
- **Spiral scan.** `spiralStrategy` calls `internal` with three arguments, but `internal` takes four. The model runs each spiral cell through `internal` with `isEven = false`, and only the visit order is claimed.
- **Demo programs.** The demos are modelled for any square grid; `Demos.Image` is the grid the programs use.
  - The diagonal demo's loops give `x`, the column, the role the library's diagonal loop gives the row, and the cell read is `image[y][x]`. The spiral demo calls `internal(top, i)` with the row and column the other way round. Each demo is therefore the library's visit order transposed.

## Model

| member | source | states |
|---|---|---|
| Raster.Power | src/ImageToGCode.h:149 | Power lies in 0..1000. It is 0 exactly for background and 1000 for black. |
| Raster.PowerTruncates | src/ImageToGCode.h:149 | For every sample except 204 the power is the truncated value of (255-p)·1000/255. At 204 the double rounding of the source gives 199. |
| Raster.PowerAntitone | src/ImageToGCode.h:195 | A darker sample never gets less power than a lighter one. |
| Raster.RunEnd | src/ImageToGCode.h:171-174 | The forward run search stops at the last background sample of the maximal run. |
| Raster.RunStart | src/ImageToGCode.h:301-304 | The backward run search stops at the first background sample of the maximal run. |
| Raster.ScanColumn | src/ImageToGCode.h:209-215 | The column visited at step k of a row lies in the row; `ScanColumnBijective` states the order. |
| Raster.ScanColumnBijective | src/ImageToGCode.h:209-215 | The column order of a row (ascending on even rows, descending on odd rows) visits every column exactly once. Applying it twice gives back the step index. |
| GCode.Render | src/Common.hpp:21-85 | A line starts with "G0" or "G1". It contains X, Y and S exactly when the matching field is set. With no fields it is the bare prefix. |
| GCode.RenderParseRoundTrip | src/Common.hpp:25-36 | Parsing a rendered line gives back the command, so fields come in the fixed order X, Y, S and none is lost. |
| GCode.RenderInjective | src/Common.hpp:58-69 | Two commands that render to the same text are the same command. |
| GCode.RenderKindsShareFields | src/Common.hpp:21-85 | The G0 and G1 renderings of the same fields differ only in their two-character prefix. |
| GCode.DecimalRoundTrip | src/Common.hpp:34 | The integer S field renders as decimal digits that read back as the same value. |
| GCode.RenderAll | src/ImageToGCode.h:143 | Rendering a command list gives one line per command, in order. |
| Unidirection.UnidirectionStrategy | src/ImageToGCode.h:139-154 | The plain one-way scan emits rows × (cols + 1) commands. |
| Unidirection.UnidirectionLayout | src/ImageToGCode.h:142-152 | Each row opens with a G0 at X 0, Y row. Then comes one command per column, in ascending order: G0 over background, otherwise G1 with the sample's power. |
| Unidirection.UniCell | src/ImageToGCode.h:166-197 | One pass of the column loop moves the loop forward by at least one column, never past the row's end, and emits exactly one command. |
| Unidirection.UniCellRapid | src/ImageToGCode.h:169-191 | Over background the pass skips the whole run and emits one G0 with X only. It lands on the run's end, except that a run of two or more samples reaching the last column but not starting at column 0 is entered at its start (`x - length`). |
| Unidirection.UniCellOutput | src/ImageToGCode.h:167-197 | One loop pass emits one command with X and no Y. Its powered output is exactly the marks it steps over. It emits one unpowered command per background run it consumes, and that G0 lands on a background sample. |
| Unidirection.UniCellPlaces | src/ImageToGCode.h:169-191 | The pass's G0, if any, is the next entry of the reference list of run targets (`RapidXs`), so the remaining targets are those of the columns it has not consumed. |
| Unidirection.UniRowOutput | src/ImageToGCode.h:166-198 | Across a row (`UniFrom`, the column loop), the powered commands are the row's marks in order. There is one G0 per maximal background run, in order, and its X is exactly where `RunTarget` puts it: the run's end, or its start for a trailing run that does not open the row. `offset` changes only on a leading run, to that run's end. |
| Unidirection.UniRowFacts | src/ImageToGCode.h:165-198 | A row's output starts with the one G0 carrying Y = row and X = offset. The row has exactly one G1 per mark and 1 + runs unpowered commands, and at most cols + 1 commands in all. |
| Unidirection.OffsetTracksLeadingRun | src/ImageToGCode.h:163-181 | `OffsetBefore`, the offset threaded across rows, and so the X of a row's opening G0, is the end of the last earlier leading run, or 0 if no earlier row had one. |
| Unidirection.UniMarksCount | src/ImageToGCode.h:194-197 | The reference mark list has one entry per non-background sample. |
| Unidirection.UniUpToFacts | src/ImageToGCode.h:165-199 | The commands of the first n rows all set X. Their powered commands are the marks of those rows in scan order. There are at most n·(cols + 1) of them. |
| Unidirection.UnidirectionOptStrategy | src/ImageToGCode.h:160-200 | The optimised one-way scan: every command sets X, one powered command per mark in row-major order, and at most rows·(cols + 1) commands. |
| Bidirection.BidirectionStrategy | src/ImageToGCode.h:204-224 | The plain boustrophedon scan emits rows × (cols + 1) commands. |
| Bidirection.BidirectionLayout | src/ImageToGCode.h:208-222 | Each row opens with a Y-only G0. Then comes one command per column, left to right on even rows and right to left on odd rows. |
| BidirectionOpt.EvenCell | src/ImageToGCode.h:245-358 | One pass of an even row's column loop moves strictly forward, never past the row's end, and emits at most one command. What it emits and how it changes the flags are stated by the four lemmas below. |
| BidirectionOpt.OddCell | src/ImageToGCode.h:245-371 | One pass of an odd row's column loop moves strictly backward, never below -1, and emits at most one command. |
| BidirectionOpt.EvenCellOutput | src/ImageToGCode.h:246-358 | One even-row loop pass emits at most one command. Only the row's first pass may set Y, and then to the row. Its powered output is exactly the marks it steps over, and at most one unpowered command per run consumed. |
| BidirectionOpt.EvenCellFlags | src/ImageToGCode.h:262-357 | An even-row pass never sets `rightToLeft` and never clears `leftToRight`. Only the first column clears a pending `rightToLeft`, and then it emits a command carrying Y. |
| BidirectionOpt.OddCellOutput | src/ImageToGCode.h:297-371 | The mirror of the even-row pass for odd rows, with X equal to the column itself. |
| BidirectionOpt.OddCellFlags | src/ImageToGCode.h:306-370 | An odd-row pass never sets `leftToRight` and never clears `rightToLeft`. Only the rightmost column clears a pending `leftToRight`, with a command carrying Y. |
| BidirectionOpt.EvenRowOutput | src/ImageToGCode.h:245-374 | A whole even row (`EvenFrom`, the column loop): every command sets X, and Y appears only on the first command. The powered commands are the row's marks left to right with X = column + 1. The unpowered commands number at most the row's background runs. |
| BidirectionOpt.EvenRowFlags | src/ImageToGCode.h:249-358 | Over an even row, flags change only as one pass does. A pending `rightToLeft` is resolved by a Y-bearing first command when the row is at least two wide. |
| BidirectionOpt.OddRowOutput | src/ImageToGCode.h:298-372 | A whole odd row (`OddFrom`): the same shape as an even row, with marks right to left and X = column. |
| BidirectionOpt.OddRowFlags | src/ImageToGCode.h:298-371 | Over an odd row, flags change only as one pass does. A pending `leftToRight` is resolved by a Y-bearing first command when the row is at least two wide. |
| BidirectionOpt.EvenMarksCount | src/ImageToGCode.h:343-358 | An even row yields one powered command per non-background sample. |
| BidirectionOpt.OddMarksCount | src/ImageToGCode.h:359-371 | An odd row yields one powered command per non-background sample. |
| BidirectionOpt.RowOutput | src/ImageToGCode.h:239-374 | A row in its scan direction has exactly one powered command per mark. Its unpowered commands number at most its background runs. It has at most cols commands. |
| BidirectionOpt.CommandsUpToFacts | src/ImageToGCode.h:239-375 | The first n rows emit commands that all set X, carry exactly the grid's marks in boustrophedon order, and number at most n·cols. |
| BidirectionOpt.BidirectionOptStrategy | src/ImageToGCode.h:228-376 | The whole optimised scan: X on every command, one powered command per mark in scan order, and at most rows·cols commands. |
| BidirectionOpt.CarryAlternates | src/ImageToGCode.h:232-372 | Of the flags threaded across rows (`FlagsBefore`): when the grid is at least two wide, `leftToRight` is never pending at the start of an even row. Likewise, `rightToLeft` is never pending at the start of an odd row. |
| BidirectionOpt.CarryResolved | src/ImageToGCode.h:232-372 | With width at least 2, at most one flag is pending at a row boundary. A pending flag is cleared by the next row, whose first command then carries Y = row. |
| BidirectionOpt.SingleColumnDropsCarry | src/ImageToGCode.h:288-331 | On a two-row, one-column background grid both flags end up set. The output is two X-only G0 commands, so the second row's Y move is never emitted. |
| BidirectionOpt.SingleColumnMarksDropY | src/ImageToGCode.h:344-371 | On a two-row, one-column grid of marks no flag is ever set. The output is G1 X1 S1000 then G1 X0 S1000, so the second row's Y move is never emitted. |
| BidirectionOpt.AllBackgroundEvenRow | src/ImageToGCode.h:260-272 | An all-background even row at least two columns wide emits one G0 at X = cols. It carries Y only when a carry is pending, and it sets no flag. |
| BidirectionOpt.AllBackgroundOddRow | src/ImageToGCode.h:306-318 | An all-background odd row at least two columns wide emits one G0 at X 0. It carries Y only when a carry is pending, and it sets no flag. |
| BidirectionOpt.OddTrailingRun | src/ImageToGCode.h:321-331 | On an odd row, a background run reaching column 0 but not starting at the right edge sets `rightToLeft`. It emits nothing, except a lone column-0 sample, which emits its G0. |
| BidirectionOpt.EvenTrailingRun | src/ImageToGCode.h:274-280 | On an even row, a run of two or more background samples reaching the right edge, and not starting at column 0, emits one G0 at X = run start + 1 and sets `leftToRight`. |
| BidirectionOpt.LeadingMarkAbsorbsCarry | src/ImageToGCode.h:346-353 | A mark in column 0 of an even row with `rightToLeft` pending is emitted as a G0 with X 1, Y and power, and the flag is cleared. |
| BidirectionOpt.OddLeadingMarkAbsorbsCarry | src/ImageToGCode.h:359-365 | The mirror: a mark in the last column of an odd row with `leftToRight` pending is emitted as a G0 with X = that column, Y and power, and the flag is cleared. |
| BidirectionCarry.AllBackgroundRowDropsY | src/ImageToGCode.h:260-272 | As written, on the grid [[255, 255], [0, 255]] no flag is pending when row 1 starts, and the output is G0 X2 then G1 X0 S1000: no command moves to Y 1. |
| BidirectionCarry.EvenCellFixedFacts | src/ImageToGCode.h:245-358 | A corrected even pass emits one command, sets Y only at column 0 and then to the row, keeps the marks it steps over, sets `leftToRight` whenever it reaches the last column, and clears a pending `rightToLeft` at column 0 with a Y-bearing command. |
| BidirectionCarry.OddCellFixedFacts | src/ImageToGCode.h:297-371 | The mirror for odd rows: the pass reaching column 0 sets `rightToLeft`, and the pass at the rightmost column clears a pending `leftToRight` with exactly one Y-bearing command. |
| BidirectionCarry.EvenRowFixed | src/ImageToGCode.h:245-374 | A corrected even row carries the row's marks left to right, at most one command per column, Y only on its first command (the row, when a carry was pending), and always leaves `leftToRight` set. |
| BidirectionCarry.OddRowFixed | src/ImageToGCode.h:298-372 | The mirror for odd rows, which always leave `rightToLeft` set. |
| BidirectionCarry.FixedRowOwesMove | src/ImageToGCode.h:232-372 | With the corrected rule, on a grid at least one column wide, each row after the first is entered with the flag that its own first pass resolves. |
| BidirectionCarry.FixedRowFacts | src/ImageToGCode.h:239-374 | A corrected row in its scan direction has between 1 and cols commands, all with X. Y appears only on the first, and equals the row when the matching carry is pending. The powered commands are the row's marks. |
| BidirectionCarry.FixedEveryRowMoves | src/ImageToGCode.h:232-375 | With the corrected rule, every row after the first opens with a command carrying Y = row, and no other command of the row sets Y. The row's marks are unchanged. |
| BidirectionCarry.FixedRestoresDroppedMoves | src/ImageToGCode.h:260-341 | On the two grids where the as-written loop drops a Y move, the corrected loop emits it: G0 X1 Y1 on [[255, 255], [0, 255]], G0 X0 Y1 on the one-column background grid, and G0 X0 Y1 S1000 on the one-column grid of marks. |
| BidirectionStd.RowSamples | src/ImageToGCode.h:389-396 | One record per column of the row; `LinesLayout` states which sample each holds. |
| BidirectionStd.Reverse | src/ImageToGCode.h:400-406 | Reversing keeps the row's length. |
| BidirectionStd.ReverseInvolutive | src/ImageToGCode.h:400-406 | Reversing twice gives the row back, and every reversed entry comes from the row. |
| BidirectionStd.Lines | src/ImageToGCode.h:388-419 | The concatenated container holds rows·cols samples. |
| BidirectionStd.LinesLayout | src/ImageToGCode.h:400-419 | Entry y·cols + k is the sample of row y at the k-th column of its scan order, reversed on odd rows. |
| BidirectionStd.Squash | src/ImageToGCode.h:421-427 | The collapsed sequence is no longer than its input and has no two adjacent background entries. It keeps the first sample's value and the very last entry. Which entries it keeps, and in which order, is stated by the next four rows. |
| BidirectionStd.SurvivorsFacts | src/ImageToGCode.h:421-427 | The surviving indices are ascending, lie in the sequence, and are exactly the indices that are not the left one of an adjacent background pair. |
| BidirectionStd.SquashSelects | src/ImageToGCode.h:421-427 | The collapsed sequence is the input restricted to its surviving indices, in their order. |
| BidirectionStd.SquashSubsequence | src/ImageToGCode.h:421-427 | The collapsed sequence is an order-preserving subsequence of the input: its j-th entry is the input's entry at the j-th surviving index, those indices strictly increase, and an index survives exactly when its entry is not the left one of an adjacent background pair. |
| BidirectionStd.SquashKeeps | src/ImageToGCode.h:421-427 | Collapsing keeps the non-background entries as a sequence, in their input order. Its background entries are, in order, exactly the last entry of each maximal background run, including runs crossing rows. |
| BidirectionStd.SquashErase | src/ImageToGCode.h:422-426 | Erasing the first entry of an adjacent background pair does not change the collapsed result. |
| BidirectionStd.SquashIdempotent | src/ImageToGCode.h:421-427 | Collapsing an already collapsed sequence removes nothing. |
| BidirectionStd.AdjacentFind | src/ImageToGCode.h:422 | The search returns the first index of two adjacent background entries. It returns the end exactly when there is none. |
| BidirectionStd.Collapse | src/ImageToGCode.h:421-427 | The erase loop terminates, because each pass shrinks the container. It yields the reference collapse. |
| BidirectionStd.SampleToCommand | src/ImageToGCode.h:429-435 | A kept entry becomes a command with X and Y set: G0 exactly for background, else G1 S1000. |
| BidirectionStd.Emit | src/ImageToGCode.h:429-435 | One command per kept entry, in order, each at that entry's own X and Y, and a G0 exactly when the entry is background. |
| BidirectionStd.BidirectionStdOptStrategy | src/ImageToGCode.h:380-436 | The whole strategy emits the collapsed container: at most rows·cols commands, never two G0 in a row, ending with the last sample of the scan. |
| Sampling.Internal | src/ImageToGCode.h:438-446 | A sample becomes a command at Y = row and X = column (+1 on even diagonals). It is a G0 without power exactly on background, else a G1 with positive power. |
| Diagonal.EvenSeg | src/ImageToGCode.h:458-463 | The even-diagonal walk from row i down visits exactly the in-grid cells of the diagonal with row at most i, with the row strictly falling. |
| Diagonal.OddSeg | src/ImageToGCode.h:466-471 | The odd-diagonal walk from column j down visits exactly the in-grid cells of the diagonal with column at most j, with the column strictly falling. |
| Diagonal.SegmentCells | src/ImageToGCode.h:456-472 | The walk over diagonal k (`Segment`) visits exactly the in-grid cells with row + col = k. |
| Diagonal.DiagonalFromCells | src/ImageToGCode.h:455-473 | The outer loop from diagonal k on (`DiagonalFrom`) visits exactly the in-grid cells with row + col ≥ k. |
| Diagonal.SegmentFacts | src/ImageToGCode.h:458-471 | The walk over a diagonal visits each cell once. The row decreases on even k and the column decreases on odd k. |
| Diagonal.DiagonalCoversGrid | src/ImageToGCode.h:452-474 | The diagonal order visits every cell exactly once (rows·cols visits), by nondecreasing row + col. |
| Diagonal.DiagonalStrategy | src/ImageToGCode.h:452-474 | The diagonal scan emits one command per cell, each with X and Y set. |
| Diagonal.DiagonalEmitsEverySample | src/ImageToGCode.h:455-473 | Every cell has a position in the scan whose command is that cell's sample, with the +1 column on even diagonals. |
| Spiral.Across | src/ImageToGCode.h:484-486 | The top sweep visits exactly the row's cells from left to right bound, once each. |
| Spiral.Down | src/ImageToGCode.h:489-491 | The right sweep visits exactly the column's cells between the bounds, once each. |
| Spiral.Back | src/ImageToGCode.h:494-499 | The guarded bottom sweep visits the row's cells from right to left bound, once each. |
| Spiral.Up | src/ImageToGCode.h:501-506 | The guarded left sweep visits the column's cells from bottom to top bound, once each. |
| Spiral.RingOnce | src/ImageToGCode.h:484-506 | One lap never revisits a cell, even when a single row or column remains. |
| Spiral.RingCells | src/ImageToGCode.h:484-506 | One lap (`Ring`) visits exactly the cells of the rectangle outside the shrunk rectangle. |
| Spiral.SpiralFromCells | src/ImageToGCode.h:482-507 | The loop from a rectangle on (`SpiralFrom`) visits exactly the rectangle's cells, each once. |
| Spiral.SpiralCoversGrid | src/ImageToGCode.h:478-508 | The loop terminates and visits every cell exactly once, rows·cols visits in all. |
| Spiral.SpiralOutsideIn | src/ImageToGCode.h:476-508 | Cells are visited by nondecreasing distance from the grid's edge, from the outside in. |
| Spiral.SpiralFirstRow | src/ImageToGCode.h:484-486 | The first cols visits sweep the top row from left to right. |
| Spiral.SpiralStrategy | src/ImageToGCode.h:478-508 | The spiral scan emits one command per cell, each with X and Y set. |
| Spiral.SpiralEmitsEverySample | src/ImageToGCode.h:478-508 | Every cell has a position in the scan whose command is that cell's sample. |
| ImageToGCode.ModeCode | src/ImageToGCode.h:29-35 | Cutting is "M3" and Engraving is "M4", and no other mode yields either code. |
| ImageToGCode.ModeOfCodeSwaps | src/ImageToGCode.h:37-45 | As written, the lookup (`ModeOfCode`) yields Engraving exactly for "M3". It inverts neither mode's code. |
| ImageToGCode.ModeOfCodeIntended | src/ImageToGCode.h:37-45 | The corrected lookup yields Engraving exactly for "M4"; "M3" and every unrecognised code give Cutting. |
| ImageToGCode.ModeRoundTrip | src/ImageToGCode.h:28-46 | The corrected lookup inverts the mode-to-code mapping. |
| ImageToGCode.MatToGCode | src/ImageToGCode.h:119-133 | Each scan mode runs its strategy: Unidirection the optimised one-way scan, Bidirection the optimised boustrophedon scan, Diagonal the diagonal scan, Spiral the spiral scan, and Block nothing. Every command sets X, there are at most rows·(cols + 1) of them, and Diagonal and Spiral emit exactly one per cell. |
| ImageToGCode.NewConverter | src/ImageToGCode.h:536-543 | A new converter scans bidirectionally, engraves, has no air pump and holds no lines. |
| ImageToGCode.Header | src/ImageToGCode.h:72-79 | The header is "G17G21G90G54", "F30000", "G0 X0.000 Y0.000", then the mode code with " S0", then "M16 S300" exactly when the air pump is set: four or five lines. |
| ImageToGCode.Footer | src/ImageToGCode.h:81-85 | The footer is "M5", followed by "M9" exactly when the air pump is set. |
| ImageToGCode.Builder | src/ImageToGCode.h:64-91 | The old lines are replaced. The new ones are the three opening lines, the mode code with " S0", "M16 S300" when the air pump is set, one line per command of the mode's strategy that parses back to that command, "M5", and "M9" as the last line when the air pump is set. The modes, image and air pump are unchanged. |
| ImageToGCode.BuilderIdempotent | src/ImageToGCode.h:64-91 | Because the list is cleared first, building twice gives the same converter as building once. |
| ImageToGCode.BuilderLayout | src/ImageToGCode.h:72-88 | Read back through the corrected lookup, line 3 names the converter's laser mode. "M16 S300" and "M9" each appear anywhere in the program exactly when the air pump is set, so the pump is switched off exactly when it was switched on. |
| ImageToGCode.BlockIsEmpty | src/ImageToGCode.h:131 | In Block mode the output is the header followed directly by the footer. |
| Plane.SetCommand | src/Common/Plane.h:15-18 | The stored list becomes the given one. |
| Plane.Builder | src/Common/Plane.h:20-35 | The wrapped list is the four fixed header lines, then the stored lines unchanged, then "S0", "M5": six more lines. |
| Plane.BuilderWrapsTwice | src/Common/Plane.h:20-35 | The list is not cleared, so a second build adds twelve lines in all and changes the result. |
| Demos.ImageIsDemoGrid | src/UnidirectionalScanning/main.cpp:9-24 | The programs' grid is square with side 10. |
| Demos.Burn | src/UnidirectionalScanning/main.cpp:31-35 | A non-zero cell burns with G1 S1000, and a zero cell is a G0 S0. |
| Demos.Program | src/UnidirectionalScanning/main.cpp:40 | A program's output is its rendered commands, in order, after Plane's four header lines, with six lines added. |
| Demos.UniDemo | src/UnidirectionalScanning/main.cpp:28-37 | The unidirectional demo emits n·(n + 1) commands. |
| Demos.UniDemoLayout | src/UnidirectionalScanning/main.cpp:28-37 | Each row opens with G0 X0 Y row S0. Its cells follow in ascending column order, each an X-only burn or rapid move. |
| Demos.BidiDemo | src/BidirectionalScanning/main.cpp:28-42 | The bidirectional demo emits n·(n + 1) commands. |
| Demos.BidiDemoLayout | src/BidirectionalScanning/main.cpp:28-42 | Each row opens with a Y-only G0 S0. Then come the row's columns, ascending on even rows and descending on odd rows, each an X-only burn or rapid move. |
| Demos.TransposedCovers | src/SpiralScanning/main.cpp:28-39 | Swapping row and column in an order that covers a square grid once still covers it once. |
| Demos.CellCommand | src/SpiralScanning/main.cpp:28-33 | A demo command's X and Y are the column and row of the cell whose value chose G1 or G0. |
| Demos.DemoCommands | src/DiagonalScanning/main.cpp:43-67 | A walk emits one command per visited cell, in visit order. |
| Demos.DiagonalDemoFacts | src/DiagonalScanning/main.cpp:28-68 | The diagonal demo visits every cell exactly once (n·n visits), by nondecreasing x + y. |
| Demos.DiagonalDemo | src/DiagonalScanning/main.cpp:28-69 | The diagonal demo emits n·n commands, each with X and Y. |
| Demos.SpiralDemoFacts | src/SpiralScanning/main.cpp:35-60 | The spiral demo's loop terminates and visits every cell exactly once, n·n visits in all. |
| Demos.SpiralDemoStartsDownColumn | src/SpiralScanning/main.cpp:37-39 | With the transposed call, the first sweep walks down column 0. |
| Demos.SpiralDemo | src/SpiralScanning/main.cpp:28-60 | The spiral demo emits n·n commands, each with X and Y. |
| Demos.DemoProgramLengths | src/UnidirectionalScanning/main.cpp:28-40 | On an n × n grid the row scans emit n·(n + 1) commands and the diagonal and spiral walks n·n. Each program adds six wrapping lines. |
| Demos.DemoProgramLinesOfTen | src/UnidirectionalScanning/main.cpp:9-40 | On a 10 × 10 grid the unidirectional and bidirectional programs have 116 lines, and the diagonal and spiral programs 106. |

## Left out

- OpenCV is a foreign library. Left out are:
  - `cv::resize`;
  - the channel and resolution asserts in `matToGCode`;
  - the `cv::Exception` catch in `builder()`.

  Every strategy receives the resized grid as a `Raster`.
- File export and printing are I/O: `exportGCode` in both classes, the free `ExportGCode`, and `std::println`. `src/main.cpp` is not part of this model.
- Floating point: division by `resolution` and `{:.3f}` formatting are abstracted, and coordinates are grid indices.
- BidirectionStd.BidirectionStdOptStrategy: the source passes the raw pixel indices `g.x`, `g.y` to `G0` and `G1` (h:431, 433) without dividing by `resolution`, unlike every other strategy. With coordinates abstracted to grid indices the model cannot show this unit mismatch; in millimetres its output is `resolution` times too large.
- Raster.Power: computed in integer arithmetic, not with the source's doubles. The two differ only at p = 204, where the double result is 199 and the exact quotient 200; the model returns 199 there, so no value is left unmodelled.
- `strategySample` is never dispatched and works on floating scale factors.
- The fluent setters `setInputImage`, `setOutputTragetSize`, `setLaserMode` and `setScanMode` are left out. The modes and image are fields of `ImageToGCode.Converter` instead.
- The air-pump value has no setter in the source. The model takes it as a field and does not constrain how it gets set.
- Block scan mode is modelled only as its empty body.
- Spiral.SpiralStrategy: the source calls the four-argument `internal` with three arguments. The model fixes `isEven = false` and claims only the visit order and per-cell sampling.
- Demos.DiagonalDemoFacts: states coverage and the nondecreasing x + y order. The per-diagonal direction (x falling on even k, y on odd k) follows from Diagonal.SegmentFacts through the transposition but is not restated for the demo.
- The dead single-direction branch of the diagonal demo (`if constexpr(false)`) is not modelled.

## Findings

| source | as written | input that shows it | evidently intended | confidence | as-written member | corrected member |
|---|---|---|---|---|---|---|
| src/ImageToGCode.h:260-272, 306-318 | A row at least two columns wide that is background throughout takes the leading-run branch, which pays a pending carry but records none. The next row is then entered with no flag, so its Y move is never emitted. | `Raster(2, 2, [[255, 255], [0, 255]])`: the output is G0 X2, G1 X0 S1000, and the mark of row 1 is burned on row 0's line. | Every row ends at its trailing edge and owes the next row its Y move. | not executed | BidirectionCarry.AllBackgroundRowDropsY | BidirectionCarry.FixedEveryRowMoves |
| src/ImageToGCode.h:285-296, 327-341 | On a grid one column wide the single pass is both the leading and the trailing one. For a background sample the trailing test comes first, so the pass records a carry but never pays the one pending. | `Raster(2, 1, [[255], [255]])`: both flags end up set and the output is G0 X1, G0 X0, with no Y 1. | Each row's single pass moves to that row's Y. | not executed | BidirectionOpt.SingleColumnDropsCarry | BidirectionCarry.FixedEveryRowMoves |
| src/ImageToGCode.h:344-371 | On a grid one column wide a mark meets the leading test first (`x == start`), so the pass pays a pending carry but never records one, and the next row is entered with no flag. | `Raster(2, 1, [[0], [0]])`: no flag is set and the output is G1 X1 S1000, G1 X0 S1000, with no Y 1. | Each row's single pass moves to that row's Y. | not executed | BidirectionOpt.SingleColumnMarksDropY | BidirectionCarry.FixedEveryRowMoves |
| src/ImageToGCode.h:37-45 | `mode.compare("M3")` is non-zero on a mismatch, so the first test fires for every string except "M3". | "M3" yields Engraving; "M4" yields Cutting. | "M3" maps to Cutting and "M4" to Engraving, the inverse of lines 29-35. | not executed | ImageToGCode.ModeOfCodeSwaps | ImageToGCode.ModeRoundTrip |
