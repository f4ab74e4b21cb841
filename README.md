# Sudoku board model

This project models the board of a small Sudoku game that draws itself on a
notebook canvas (`gui.py`). The board owns a 9x9 grid of cells, called
"cubes". Each cube holds:

- a committed digit (`value`);
- a scratch digit (`temp`);
- a `selected` flag.

From these the board derives a 9x9 grid, `model`, that holds each cell's
committed digit, or its scratch digit while nothing is committed there.
The board also remembers the selected position and counts the player's
steps. The board's two kinds of operations are:

- mutators: commit a digit (`place`), write or erase a scratch digit
  (`sketch`, `clear`), commit every scratch digit (`confirm_all`), and move
  the selection (`select`);
- queries on `model`: whether it is full, the first empty cell, whether a
  digit clashes with the selected cell's row, column or box, how many
  candidate digits a cell has, and which empty cell a solver should fill
  next.

Two modules make up the model:

- `grid.dfy`, module `Grid`, is the value-level specification. It holds:
  - `ModelOf`, the value-else-scratch derivation;
  - row-major order (`Before`), `Full` and `FirstEmpty`;
  - peers (`Peer`, `SameBox`) and the box as the box loop visits it (`Box`);
  - `Conflict`, the clash the validity check looks for;
  - `Seen` and `Candidates`, the candidate-digit count, and `DigitsAround`, which asks that every cell the count reads holds a digit;
  - `Tally`, the tally the board builds and the loops that build it;
  - `GoodEmpty`, which characterises the "good empty cell" heuristic.
- `gui.dfy`, module `Gui`, holds the objects: class `Cube` and class
  `Board`.
  - The board keeps its cubes in `cubes: seq<seq<Cube>>` and updates them
    in place.
  - `Values()` and `Temps()` read the cubes' digits as grids.
  - `Valid()` is the board invariant: 81 distinct cubes, the selection
    flags agree with the selected position, and
    `model == ModelOf(Values(), Temps())`.
  - Each mutator states its whole new state in terms of the old one.
    Each query is proved against the `Grid` specification.

## Model

| member | source | states |
|---|---|---|
| Gui.Cube.constructor | gui.py:220-227 | A new cube holds the given committed digit, no scratch digit and is not selected. |
| Gui.Cube.Set | gui.py:252-253 | Overwrites the committed digit with any value; the scratch digit and selection flag stay. |
| Gui.Cube.SetTemp | gui.py:255-256 | Overwrites the scratch digit with any value; the committed digit and selection flag stay. |
| Gui.Board.constructor | gui.py:16-27 | Builds 81 distinct fresh cubes holding the given board's digits, with no scratch digits; `model` equals the board; nothing is selected; zero steps; the board invariant holds. |
| Gui.Board.UpdateModel | gui.py:35-37 | Afterwards every `model[i][j]` is the cube's committed digit when non-zero, else its scratch digit (the invariant `model == ModelOf(Values(), Temps())`). |
| Gui.Board.IsFinished | gui.py:39-44 | True exactly when no cell of `model` is 0. |
| Gui.Board.FindEmpty | gui.py:46-51 | None exactly when `model` is full; otherwise the first empty cell in row-major order. |
| Grid.FirstEmptyUnique | gui.py:46-51 | The first empty cell is unique, and a grid that has one is not full; so `is_finished` is true exactly when `find_empty` gives None. |
| Gui.Board.FindGoodEmpty | gui.py:54-69 | Returns the first empty cell with exactly one candidate if any, even after an earlier cell with none; otherwise the first empty cell with the strictly fewest candidates below 9; otherwise None. |
| Grid.ScanSkips | gui.py:57-65 | Visiting a filled cell, or an empty one with neither one candidate nor fewer than the running minimum, keeps the scan's state. |
| Grid.ScanRecords | gui.py:63-65 | Visiting an empty cell with fewer candidates than the running minimum makes it the recorded cell and its count the new minimum. |
| Grid.ScanFindsForced | gui.py:59-62 | The first empty cell with exactly one candidate met by the scan is the heuristic's answer. |
| Grid.ScanNextRow | gui.py:57-58 | Finishing a row of the scan is starting the next one. |
| Grid.ScanDone | gui.py:66-69 | After the whole grid without a single-candidate cell, the recorded cell, or None, is the heuristic's answer. |
| Grid.GoodEmptyUnique | gui.py:54-69 | The heuristic's answer is determined by the grid. |
| Grid.BlankHasNoGoodEmpty | gui.py:56-69 | On an all-zero grid the answer is None, because the running minimum starts at 9. |
| Grid.FullHasNoGoodEmpty | gui.py:57-69 | On a full grid the answer is None. |
| Gui.Board.IsValid | gui.py:72-101 | False when nothing is selected; otherwise true exactly when `num` stands in no cell other than the selected one in its row, column or 3x3 box. |
| Grid.ConflictAt | gui.py:78-99 | Any early `return False` of the three scans has found a peer other than the selected cell that holds `num`. |
| Grid.ScansRuleOutConflict | gui.py:77-101 | When the row, column and box scans all pass, `num` stands in no peer other than the selected cell. |
| Grid.BoxLoopCoversBox | gui.py:88-98 | The box loop's cells `(3*(i/3)+k, 3*(j/3)+l)` are on the board and in the box of `(i, j)`; every cell of that box is visited, none twice; the selected cell is visited exactly at `(i % 3, j % 3)`. |
| Grid.BoxAt | gui.py:94-98 | Entry `3*k + l` of the box is the cell the box loop visits at `(k, l)`. |
| Grid.InBox | gui.py:119-125 | A digit is among the box's entries exactly when some cell of the box of `(n, m)` holds it. |
| Gui.Board.Choices | gui.py:104-126 | The number of zero slots of the tally equals the number of digits 1..9 seen nowhere in row `n`, column `m` or the box of `(n, m)`, and lies in 0..9. |
| Grid.TallyRow | gui.py:106-109 | The row loop adds one to slot `d - 1` per occurrence of digit `d` in row `n`. |
| Grid.TallyColumn | gui.py:110-113 | The column loop adds one to slot `d - 1` per occurrence of digit `d` in column `m`. |
| Grid.TallyBox | gui.py:115-125 | The box loop adds one to slot `d - 1` per occurrence of digit `d` in the box of `(n, m)`, visited row by row. |
| Grid.TallyBoxRow | gui.py:120-125 | One pass of the inner box loop adds one to slot `d - 1` per occurrence of digit `d` among the three cells of the box row it reads. |
| Grid.CountedSlots | gui.py:105-125 | Scanning a sequence adds to each slot exactly the number of occurrences of its digit. |
| Grid.CountedAppend | gui.py:119-125 | Scanning two sequences one after the other is scanning their concatenation. |
| Grid.CountedWholeBox | gui.py:119-125 | Scanning the three box rows in turn is scanning the whole box. |
| Grid.TallyComplete | gui.py:105-125 | After the three loops, starting from zeros, slot `d - 1` holds the occurrences of `d` in the row, plus those in the column, plus those in the box. A cell in two of them counts twice. |
| Grid.TallyZeroIffUnseen | gui.py:105-126 | A slot of the full tally is zero exactly when its digit stands in no peer of `(n, m)`; counting twice does not change this. |
| Grid.ZeroSlotsAreUnseen | gui.py:105-126 | Slot `d - 1` is zero exactly when digit `d` is unseen, for all nine slots. |
| Grid.ZeroSlotsAreCandidates | gui.py:126 | `c.count(0)` of the full tally is the candidate count. |
| Grid.ZeroSlotsFrom | gui.py:126 | The zero slots from slot `k` on count the unseen digits from `k + 1` on. |
| Grid.CandidatesAreUnseenDigits | gui.py:104-126 | The candidate count is the size of the set of digits 1..9 not seen from `(n, m)`, so it lies in 0..9. |
| Grid.BlankCandidates | gui.py:104-126 | On an all-zero grid every cell has nine candidates. |
| Gui.Board.Place | gui.py:130-136 | On an uncommitted selected cell, sets exactly that cell's committed digit to `val`, refreshes `model` and adds one step. On a committed cell, the digits, `model` and the step count are unchanged. Scratch digits and selection never change. |
| Gui.Board.ConfirmAll | gui.py:140-146 | Every uncommitted cell takes its scratch digit (0 included) as its committed digit; committed cells, scratch digits, selection and steps stay; `model` is not recomputed, yet the board invariant still holds. |
| Gui.Board.ScratchCommitted | gui.py:140-146 | When each uncommitted cube took its scratch digit, the committed grid is the old derived grid. |
| Grid.ConfirmKeepsModel | gui.py:140-146 | Deriving again from the committed scratch digits gives the same grid; committed cells keep their digit; a cell with neither digit stays 0. |
| Gui.Board.Sketch | gui.py:150-156 | On an uncommitted selected cell, sets exactly that cell's scratch digit to `val` and refreshes `model`. On a committed cell, nothing is written. Either way it adds one step. |
| Gui.Board.Steps | gui.py:159-160 | Returns the step counter. |
| Gui.Board.Select | gui.py:163-171 | Afterwards exactly the cube at `(row, col)` is flagged and the board records `(row, col)`. Digits, `model` and steps stay. The new state depends only on `(row, col)` and the old digits, so selecting the same cell twice gives the same state. |
| Gui.Board.Clear | gui.py:174-180 | On an uncommitted selected cell, sets exactly that cell's scratch digit to 0, refreshes `model` and adds one step. On a committed cell, the digits, `model` and the step count are unchanged. |

## Left out

- Drawing on the canvas (`Board.draw`, `Board.redraw_window`, `Cube.draw`, the canvas set-up in the constructor): user-interface output with pixel geometry. Every `redraw_window` call inside a mutator is treated as a no-op.
- The clock and pacing (`time.time`, `time.sleep`, the start time): input/output with no effect on board state.
- `format_time`: display formatting of elapsed seconds, not board logic.
- The board's `rows` and `cols` fields: they are the constant 9, and the model writes them as the literal 9. That covers the loop bounds, the tally's size and the heuristic's starting minimum in FindGoodEmpty.
- The board's `board` field: it is the constructor's argument, read only to build the cubes.
- The board's `width` and `height` fields and the cube's `row`, `col`, `width` and `height` fields: they are used only for drawing.
- Gui.Board.constructor: requires at least 9 rows of at least 9 entries, where Python would raise on a shorter board. Extra rows or entries are ignored, as the source ignores them.
- Gui.Board.Place: requires a selection, where Python fails when unpacking `None`. Sketch and Clear do the same.
- Gui.Board.Select: requires indices in 0..8. Negative Python indices that wrap around are not modelled.
- Gui.Board.Choices: requires `DigitsAround(model, n, m)`: each peer of `(n, m)` must hold a digit 0..9. The peers are exactly the cells its three tallies read. Python raises when such a cell holds 10 or more, or -9 or less. A peer holding -8 to -1 is silently tallied into a wrapped-around slot; the model does not reproduce that count. TallyRow, TallyColumn, TallyBox and TallyBoxRow require the same of the cells they read, and of no others.
- Gui.Board.FindGoodEmpty: requires `DigitsAround` for every empty cell. Python needs it only for the empty cells it reaches before it returns a cell with one candidate. Entries outside those peers are never read, and the model allows anything there.
- Gui.Board.Choices: the reductions `n %= 3; m %= 3` are not modelled. Their results are never read.
- Gui.Board.Choices: the three tally loops are the methods TallyRow, TallyColumn and TallyBox. The tally `c` is a local sequence threaded through them. Being a local list in the source, it is never aliased.
