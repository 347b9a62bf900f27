# textlayout in Dafny

A model of the `textlayout` package, a small Python library for laying text out in two
dimensions. It has two classes:

- A **TextGrid** is a fixed-size text rectangle.
  - It stores its content as an append-only list of rows, clipped to the writable width
    and capped at the writable height. A border takes two off each.
  - `read(y, x)` answers the character shown at layout coordinates (y, x).
- A **TextLayout** is a fixed-size canvas.
  - It holds a `height x width` reservation matrix (0 = free, otherwise the id of the
    owning grid) and a dictionary from grid id to grid.
  - `inquire` scores a candidate top-left position. `search` scans positions row-major
    and picks the minimum-loss one. `reserve` stamps a grid's id into the matrix.
    `add` chains them.
  - `lines` renders the canvas by asking each owned cell's grid for its character.

The project has four modules:

| file | module | contents |
|---|---|---|
| `base.dfy` | `Base` | Python's indexing and slicing, `str.split("\n")`, `"\n".join`, `rstrip("\n")`, the faults the code raises, and `Collect`. `Collect` gathers per-cell results in order and stops at the first fault, as the source's loops do. |
| `grid.dfy` | `Grids` | The constructor guard, the grid id counter, and the `TextGrid` class. |
| `layout.dfy` | `Layouts` | The `TextLayout` class, the specification functions of `inquire`, `search` and `lines`, and the lemmas about them. |
| `scenarios.dfy` | `Scenarios` | The unit tests of `test.py` as methods whose postconditions are the outputs the tests expect. |

Modelling choices:

- **Classes.** Both classes are Dafny classes whose methods update their fields in place.
  - The reservation matrix is an `array2<nat>`. `data` is a `map<nat, TextGrid>`.
  - Grid references are shared. A `set` on a grid after `add` shows in the layout's
    rendering (`Scenarios.RenderSet`).
- **Exceptions.** Exceptions become a `Result` with a `Fault`:
  - `OutOfRange`: the explicit raise in `read`.
  - `IndexError`: Python indexing past the end.
  - `KeyError`: `lines` meeting an id that is not in `data`.
  - `AlreadyReserved`: the `AssertionError` of `reserve`.
- **Id counter.** The class-level id counter `TextGrid.gid_` is an explicit `GidCounter`
  object passed to the constructor.
- **Stable sort.** `sorted(positions, key=loss)[0]` is the first minimum-loss entry,
  because Python's sort is stable.
- **Loops.** The loops of `search`, `reserve`, `lines` and `__str__` are methods proved
  against specification functions (`SearchSpec`, `FreeUpTo`, `RenderSpec`, `TextSpec`).
  - Each inner loop is a helper method with its own contract: `SearchRow`, `ReserveRow`,
    `RenderRow` and `RowText`.

The model follows the code as written, including these behaviours:

- **`set` does not clear first.** It appends through `write` until the first rejection.
  Only `set(None)` empties the rows.
- **`location()` always answers.** Both coordinates start at 0, so the `None` branch is
  dead.
- **`read` tests the border on absolute coordinates.** The ring test compares the layout
  coordinates with the grid's own last row and column. So a bordered grid whose top row
  is neither layout row 0 nor the row numbered `height - 1` does not blank that row. At
  a column that is inside the grid and is neither layout column 0 nor `width - 1`, it
  reads Python's `rows[-1]`, or raises IndexError when there are no rows
  (`TextGrid.ReadTopRowOffOrigin`). A bordered grid on layout row 0 still shows blanks
  along its top row.
- **Loss is signed.** A grid that fits with columns to spare scores below zero
  (`TextLayout.LossSign`).
- **Bordered layouts shift placements.** `search` on a bordered layout reports positions
  shifted by one, but `inquire`, `reserve` and `lines` index the matrix without the
  shift.
- **Bordered renderings mix widths.** The top and bottom lines have `width` characters;
  the row lines have `width + 2` (`TextLayout.RenderShape`).

## Model

| member | source | states |
|---|---|---|
| Base.Head | textlayout/__init__.py:185 | `line[0:n]` is a prefix of at most `n` characters, the whole line when it is shorter |
| Base.SplitLines | textlayout/__init__.py:201 | `split("\n")` gives at least one piece and no piece contains a newline |
| Base.JoinSplit | textlayout/__init__.py:201 | joining the pieces of `split("\n")` with newlines gives back the string |
| Base.SplitJoin | test.py:40 | splitting newline-free lines joined with newlines gives back the lines, as the tests' `str(grid).split("\n")` relies on |
| Base.RStripNewlines | textlayout/__init__.py:163 | `rstrip("\n")` is a prefix, does not end in a newline, and removes only newlines |
| Base.StripTerminated | textlayout/__init__.py:158-163 | newline-terminated lines with the trailing newlines stripped are the lines joined by newlines, when the last line is nonempty and does not end in a newline |
| Base.CollectOk | textlayout/__init__.py:48-55 | a loop that appends each cell's result succeeds exactly when every cell does, and then lists the values in order |
| Base.CollectErr | textlayout/__init__.py:48-55 | when such a loop fails, it fails with the fault of the first failing cell |
| Grids.AcceptsMeans | textlayout/__init__.py:24-26 | the constructor accepts exactly sizes of at least 1, and of at least 3 when bordered |
| Grids.GidCounter.constructor | textlayout/__init__.py:147 | the id counter starts at 1 |
| Grids.ContentAt | textlayout/__init__.py:225-227 | the content lookup never raises out-of-range; at non-negative coordinates it is the stored character or a blank |
| Grids.TextGrid.constructor | textlayout/__init__.py:149-155 | a new grid is at (0, 0), has no rows, takes the counter's id and advances the counter |
| Grids.TextGrid.Create | textlayout/__init__.py:149-155 | construction fails exactly when the guard rejects the sizes; then the counter does not advance |
| Grids.TextGrid.Locate | textlayout/__init__.py:165-168 | `locate` sets both coordinates and nothing else |
| Grids.TextGrid.Location | textlayout/__init__.py:170-174 | `location` is never None and reports the current coordinates |
| Grids.TextGrid.Write | textlayout/__init__.py:176-187 | `write` appends the clipped line exactly when fewer than the writable height rows are stored, and keeps the row bounds |
| Grids.TextGrid.Set | textlayout/__init__.py:189-206 | `set(None)` empties the rows; otherwise the old rows are kept and the clipped source lines that still fit are appended in order |
| Grids.TextGrid.Read | textlayout/__init__.py:208-227 | `read` raises out-of-range exactly when the cell is off the absolute ring and the local coordinates reach the height or width; on the ring of a bordered grid it answers a blank |
| Grids.TextGrid.ReadInside | textlayout/__init__.py:217-227 | inside its rectangle a plain grid, or a bordered grid at the origin off its ring, shows the stored character or a blank |
| Grids.TextGrid.ReadTopRowOffOrigin | textlayout/__init__.py:213-226 | a bordered grid whose top row `ypos` is neither 0 nor `height - 1` reads that row, at a column strictly right of `xpos`, inside the grid and neither 0 nor `width - 1`, as Python's `rows[-1]`, or raises IndexError when it has no rows |
| Grids.TextGrid.Str | textlayout/__init__.py:157-163 | `__str__` is the grid's lines, newline-terminated, with trailing newlines stripped, or the first fault `read` raises |
| Grids.TextGrid.RowText | textlayout/__init__.py:159-161 | one row of `__str__` is the row's characters left to right, or the first fault |
| Grids.TextGrid.StrSplits | textlayout/__init__.py:157-163 | splitting the string form at newlines gives back the grid's lines |
| Grids.TextGrid.TextShape | textlayout/__init__.py:157-163 | a plain grid, or a bordered grid at the origin, shows `height` lines of `width` characters: blanks on a border's ring, stored characters or blanks inside |
| Grids.TextGrid.CellShown | textlayout/__init__.py:159-160 | one cell of `__str__` of a plain grid, or of a bordered grid at the origin, is a blank on the ring and the stored character or a blank inside |
| Layouts.FirstMinIndex | textlayout/__init__.py:117 | the stable sort's first entry has the minimum loss, and every earlier entry has a strictly larger loss |
| Layouts.UpToZero | textlayout/__init__.py:112-115 | the scan records a prefix of the candidates, with no zero loss before its last entry, and ends early only on a zero loss |
| Layouts.UpToZeroAt | textlayout/__init__.py:112-115 | the scan stops right after the first zero-loss candidate |
| Layouts.UpToZeroAll | textlayout/__init__.py:112-115 | without a zero-loss candidate the scan records every candidate |
| Layouts.StopAfter | textlayout/__init__.py:112-115 | a zero-loss candidate after a zero-free run ends the scan there |
| Layouts.StopAfterConcat | textlayout/__init__.py:112-115 | the same, for a scan split into the rows above and the row so far |
| Layouts.PickBeforeZeros | textlayout/__init__.py:114-117 | the pick comes no later in row-major order than any zero-loss candidate |
| Layouts.PickBest | textlayout/__init__.py:116-117 | no candidate the scan reached has a smaller loss than the pick |
| Layouts.PickFirst | textlayout/__init__.py:117 | every candidate before the pick in row-major order has a strictly larger loss |
| Layouts.TextLayout.constructor | textlayout/__init__.py:23-31 | a new layout has an all-zero `height x width` matrix and empty `data`, and keeps the ownership invariant |
| Layouts.TextLayout.Create | textlayout/__init__.py:23-31 | construction fails exactly when the guard rejects the sizes |
| Layouts.TextLayout.LossClosedForm | textlayout/__init__.py:83-97 | the loss is `h * w` less the layout cells from column x to the right edge in the candidate's rows inside the layout |
| Layouts.TextLayout.Inquire | textlayout/__init__.py:78-97 | `inquire` is None exactly when an in-bounds cell of the candidate rectangle is reserved, otherwise the sum of the row losses; it changes nothing |
| Layouts.TextLayout.LossSign | textlayout/__init__.py:95-96 | a fully inside candidate scores below zero with columns to spare, zero flush with the right edge, above zero past it |
| Layouts.TextLayout.RowCandsSound | textlayout/__init__.py:106-111 | each recorded candidate of a row is an accepted position of that row, shifted by the border offset |
| Layouts.TextLayout.RowCandsSorted | textlayout/__init__.py:106-111 | a row's candidates are recorded in column order |
| Layouts.TextLayout.RowCandsComplete | textlayout/__init__.py:106-111 | every accepted position of a row is recorded |
| Layouts.TextLayout.CandsSound | textlayout/__init__.py:105-111 | each candidate is an accepted position |
| Layouts.TextLayout.CandsSorted | textlayout/__init__.py:105-111 | candidates are recorded in strictly increasing row-major order |
| Layouts.TextLayout.CandsComplete | textlayout/__init__.py:105-111 | every accepted position is a candidate |
| Layouts.TextLayout.CandIn | textlayout/__init__.py:105-111 | an accepted position in a row above `r` is among the candidates of the first `r` rows |
| Layouts.TextLayout.RowCandsGrow | textlayout/__init__.py:106-111 | one more column adds that position's candidate when `inquire` accepts it |
| Layouts.TextLayout.CandsGrow | textlayout/__init__.py:105-111 | one more row adds that row's candidates |
| Layouts.TextLayout.ScanPrefix | textlayout/__init__.py:105-111 | the rows above and the row so far come first in the scan |
| Layouts.TextLayout.ScanStops | textlayout/__init__.py:112-115 | a zero-loss position after a zero-free scan is the last one recorded |
| Layouts.TextLayout.ScanStep | textlayout/__init__.py:107-115 | one more cell either ends the scan on a zero loss or extends a zero-free scan by that cell's candidate |
| Layouts.TextLayout.Search | textlayout/__init__.py:99-118 | `search` answers the first minimum-loss candidate among those recorded before the scan stops, or None |
| Layouts.TextLayout.SearchRow | textlayout/__init__.py:106-115 | one row of the scan either ends the whole scan on a zero loss or records all of the row's candidates |
| Layouts.TextLayout.ScanCell | textlayout/__init__.py:107-115 | one cell of the scan records the position when `inquire` accepts it and stops the scan when its loss is zero |
| Layouts.TextLayout.SearchNone | textlayout/__init__.py:116-118 | `search` is None exactly when `inquire` rejects every position |
| Layouts.TextLayout.CandIndex | textlayout/__init__.py:105-111 | every accepted position appears in the scan order |
| Layouts.TextLayout.SearchFoundReached | textlayout/__init__.py:112-117 | the result is an accepted position that the scan reached |
| Layouts.TextLayout.SearchFoundBest | textlayout/__init__.py:114-117 | no reached position scores less than the result |
| Layouts.TextLayout.SearchFoundFirst | textlayout/__init__.py:117 | every accepted position before the result in row-major order scores strictly more |
| Layouts.TextLayout.Reserve | textlayout/__init__.py:120-129 | `reserve` stamps the id into the in-bounds cells of the rectangle up to the first reserved one, raises exactly on a collision, and enters the grid in `data` only on success |
| Layouts.TextLayout.ReserveRow | textlayout/__init__.py:123-128 | one row of `reserve` stamps the free cells left to right and stops at the first reserved one |
| Layouts.TextLayout.Add | textlayout/__init__.py:131-142 | `add` changes nothing and answers false when `search` finds nothing; otherwise it places the grid at the result and reserves it; on a plain layout with the ownership invariant and a new id it never raises and keeps the invariant |
| Layouts.TextLayout.Lines | textlayout/__init__.py:36-58 | `lines` renders each row's cells, padded and framed when bordered, or raises the first fault met |
| Layouts.TextLayout.RenderRow | textlayout/__init__.py:49-55 | one row of `lines`: a blank for a free cell, the owner's character for a reserved one, or the first fault |
| Layouts.TextLayout.RenderShape | textlayout/__init__.py:42-58 | a rendering has `height` lines plus two bordered ones of `width` blanks; row lines have `width` characters plus padding and show each cell's character |
| Layouts.TextLayout.RenderNeverOutOfRange | textlayout/__init__.py:48-55 | under the ownership invariant `lines` never meets `read`'s out-of-range error nor a missing id |
| Layouts.TextLayout.CellsShown | textlayout/__init__.py:50-54 | under the ownership invariant, and with every bordered grid in `data` at the origin, every cell renders as a blank when free and as the owner's character when reserved |
| Layouts.TextLayout.RenderShown | textlayout/__init__.py:36-58 | under the ownership invariant, and with every bordered grid in `data` at the origin, `lines` succeeds |
| Scenarios.SetStringClips | test.py:33-44 | a 3 x 3 grid set from four 4-character lines shows the first three lines clipped to three characters |
| Scenarios.BorderedWrite | test.py:93-103 | a bordered 3 x 3 grid shows one character of a written line inside a blank ring |
| Scenarios.SetNoneClears | test.py:121-137 | `set(None)` takes a filled 3 x 3 grid back to blanks |
| Scenarios.ShownLines | test.py:127-137 | splitting the string form of a grid whose rows are newline-free gives back those rows |
| Scenarios.PickTopLeft | test.py:200 | the first 1 x 1 grid on a free 2 x 2 layout is placed at (0, 0) |
| Scenarios.PickTopRight | test.py:201 | the second is placed at (0, 1) |
| Scenarios.PickBottomLeft | test.py:202 | the third is placed at (1, 0) |
| Scenarios.PickBottomRight | test.py:203 | the fourth is placed at (1, 1) |
| Scenarios.PlaceFour | test.py:189-212 | four 1 x 1 grids added to a 2 x 2 layout each succeed and land left to right, top to bottom |
| Scenarios.PlaceTop | test.py:195-201 | the first two 1 x 1 grids land at (0, 0) and (0, 1) of a free 2 x 2 layout |
| Scenarios.PlaceBottom | test.py:202-212 | with the top row taken, the other two land at (1, 0) and (1, 1) |
| Scenarios.RenderBlank | test.py:189-216 | the layout of four blank grids renders as two lines of two blanks |
| Scenarios.ShowsFour | test.py:214-216 | a 2 x 2 plain layout owned by four 1 x 1 grids renders their four characters as two lines |
| Scenarios.RenderSet | test.py:218-244 | after `set` on each placed grid the layout renders `ab` over `cd` |
| Scenarios.PickWhole | test.py:157-159 | on a free plain 3 x 3 layout `search` places a 3 x 3 grid at (0, 0) with loss 0 |
| Scenarios.AddWhole | test.py:157-159 | that `add` succeeds, leaves the grid at the origin and stamps its id into all nine cells |
| Scenarios.ShowsWhole | textlayout/__init__.py:36-58 | a plain layout entirely reserved by one grid of its size at the origin renders as that grid's string form |
| Scenarios.BorderedInLayout | test.py:153-171 | the bordered 3 x 3 grid holding "a" makes the layout render `["   ", " a ", "   "]` |

## Left out

- `reservations()` is not modelled. It is a debugging dump of the matrix that needs integer-to-string formatting, and nothing else uses it.
- `set` of an arbitrary object, which Python turns into text with `str()`, is not modelled. `set` takes None, a list of lines or a string.
- `TextLayout.__str__` is not modelled. It is `"\n".join(self.lines)`, and `Base.JoinLines` with `Base.JoinSplit` covers the join.
- Layouts.TextLayout.constructor: sizes and coordinates are natural numbers. The Python guard admits some negative sizes, and negative coordinates would index from the end. `search` never produces negative positions.
- The `reserved_` matrix and `data` dictionary that a grid inherits from `TextLayout` are not modelled. Grids never use them.
- The class-level id counter becomes an explicit `GidCounter` object, so ids are unique per counter rather than per process.
- `test_grid_clear` calls a `clear` method that the source does not define, so it has no scenario. `set(None)` is the operation that empties a grid (`Scenarios.SetNoneClears`).
- The other unit tests are not modelled as scenarios: `test_grid_emtpy1x1`, `test_grid_emtpy3x3`, `test_grid_setlist3x3`, `test_grid_setlargergrid3x3`, `test_grid_setsmallergrid3x3`, `test_layout_emtpy1x1`, `test_layout_emtpy2x2` and `test_layout_mixedgrids`. The lemmas above state their general behaviour.
- Layouts.TextLayout.Add: the ownership guarantee is stated only for layouts without a border. With a border, `search` reports shifted positions that `reserve` stamps without the shift, so the collision check and the stamping see different rectangles.
- Layouts.TextLayout.CellsShown: stated only when every bordered grid sits at the origin, for the reason given for `RenderShown`.
- Layouts.TextLayout.RenderShown: stated only when every bordered grid sits at the origin. Elsewhere, the absolute-coordinate ring test of `read` can reach `rows[-1]` or raise IndexError.
- Grids.TextGrid.TextShape: stated only for plain grids and for bordered grids at the origin, for the same reason.
- Grids.TextGrid.Str: the loop of `__str__` is modelled, but the lemma that splitting its result gives back the lines (`StrSplits`) needs every line to be free of newlines.
- The inner loops of `search`, `reserve`, `lines` and `__str__` are separate methods (`SearchRow`, `ReserveRow`, `RenderRow`, `RowText`), and the body of the inner loop of `search` is `ScanCell`. Each has its own contract.
- There is no input or output, no concurrency and no floating point in the package.
