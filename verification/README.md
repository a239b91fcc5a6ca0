# Knight's Tour solver — Dafny model

This project models the `KnightTour` class of `scripts.js`. That class solves
the Knight's Tour on an `n` by `n` board from a given start cell. It uses
backtracking search guided by Warnsdorff's rule: the moves from a cell are
tried in order of the number of onward moves each target has, with ties kept
in the declared order of the eight knight offsets. It can optionally require
a round trip, where the last cell is a knight move from the start. On
success the solver returns the names of the cells in visit order (`A5`,
`C4`, …). On failure it returns `false`.

Modules, one per file:

- `Optional` (`optional.dfy`): the outcome type. `None` stands for the
  original's `false`.
- `Board` (`board.dfy`): cells, the offset table `moves`, the board of visit
  indices (`-1` marks a cell not yet visited), `isSafe` and `getDegree`.
- `Warnsdorff` (`warnsdorff.dfy`): the candidate list of one search step and
  its stable sort by degree.
- `Tour` (`tour.dfy`): the meaning of the result. It covers knight paths,
  boards that record a path, and open and closed tours.
- `Search` (`search.dfy`): `solveKTUtil` as two mutually recursive pure
  functions, `Search` and `TryMoves`. They thread the board as a value and
  write `Free` back on failure, as the original does. Alongside them sits
  `Completable`, a reference definition of "the rest of the board can be
  toured from here" that does not depend on the move order.
- `Labels` (`labels.dfy`): cell names, meaning a column letter followed by
  the rank in decimal, and parsing them back.
- `KnightTour` (`knight_tour.dfy`): `solveKnightTour`. It builds the fresh
  board, marks the start with 0, runs the search and fills the result array
  from the board.

The main results are these:

- The Warnsdorff search succeeds exactly when a tour exists. The ordering
  changes which tour is found, but never whether one is found.
- On success the board records a tour. The returned names are the names of
  that tour's cells, in visit order.
- Consecutive names are a knight move apart. With a round trip, the last
  name leads back to the first.

## Model

| member | source | states |
|---|---|---|
| Board.Mark | scripts.js:97 | writing a step index into one cell keeps the board `n` by `n`, sets that cell and changes no other cell |
| Board.MarkUndo | scripts.js:97-104 | writing `-1` back over a tentative mark on an unvisited cell restores the board exactly as it was before the mark |
| Tour.SafeIffOffPath | scripts.js:31-39 | on a board that records a path, a cell is safe exactly when it lies on the board and is not on the path |
| Board.Degree | scripts.js:42-52 | the degree of a cell is between 0 and the number of knight offsets (8) |
| Board.DegreeCountsSafeOffsets | scripts.js:42-52 | the degree equals the number of offsets that land on a safe cell, and it is 0 exactly when no offset does |
| Search.ReturnsFrom | scripts.js:69-76 | the loop over offsets `k..7` answers true exactly when one of those offsets takes the last cell onto the recorded start |
| Search.ReturnsToStart | scripts.js:67-77 | the round-trip test is true exactly when the start is one knight move from the last cell |
| Warnsdorff.Candidates | scripts.js:84-92 | the candidate list has one entry per safe onward move, so its length is the current cell's degree |
| Warnsdorff.CandidatesSpec | scripts.js:84-92 | every listed candidate is a safe cell one knight move away, paired with its degree on the current board; every such cell is listed |
| Warnsdorff.CandidatesInOffsetOrder | scripts.js:85-91 | candidates are listed in the declared order of their offsets |
| Warnsdorff.SortByDegreePermutes | scripts.js:93 | the sort by degree is a permutation of the candidate list |
| Warnsdorff.SortByDegreeSorted | scripts.js:93 | the sorted list is ascending by degree |
| Warnsdorff.SortKeepsKeyOrderAmongTies | scripts.js:93 | the sort is stable: given a list in strictly increasing key order, it orders by degree and keeps key order among equal degrees |
| Warnsdorff.NextMoves | scripts.js:84-93 | the moves one step tries are as many as the current cell's degree, and every one of them is safe to enter |
| Warnsdorff.NextMovesSpec | scripts.js:84-93 | the moves tried are exactly the safe knight-move targets, each with its degree measured before any of them is marked |
| Warnsdorff.NextMovesOrdered | scripts.js:84-93 | the moves are tried fewest onward moves first, with ties in declared offset order (Warnsdorff's rule with a stable sort) |
| Search.Search | scripts.js:55-108 | the search keeps the board `n` by `n`, and a failed search hands the board back unchanged, because every tentative mark is undone |
| Search.TryMoves | scripts.js:96-107 | the loop over candidates keeps the board shape, and when no candidate leads to a tour the board comes back as it was |
| Search.TryMovesUnfold | scripts.js:96-106 | one turn of the loop: the result is the first candidate's recursive result when that succeeds, and otherwise the loop's result on the rest with the mark undone |
| Search.SearchExhaustive | scripts.js:55-108 | the Warnsdorff search succeeds exactly when the remaining board can be completed by some sequence of safe knight moves, in any order, closed when a round trip is required |
| Search.SearchSound | scripts.js:65-102 | after a successful search, the board records a knight path over all `n * n` cells that extends the path recorded on entry, closed when a round trip is required |
| Search.TourPrefixCompletable | scripts.js:55-108 | if some tour starts with the path the board records, then the search position at the end of that path can be completed, so no tour is missed |
| Tour.ExtendPath | scripts.js:97 | marking a safe knight-move successor with the next index extends the recorded path by that cell |
| Tour.FullPathIsTour | scripts.js:65-81 | a recorded path over all `n * n` cells is a tour, closed when the last cell is a knight move from the first, and it gives each cell's index on the board |
| KnightTour.StartBoard | scripts.js:116-122 | a fresh board with only the start cell marked 0 records the one-cell path from the start |
| Labels.LabelOf | scripts.js:135-137 | a cell's name uses a column index below `n` and a rank between 1 and `n`, where rank `n - y` puts row 0 at the top |
| Labels.LabelOfInjective | scripts.js:135-137 | two cells of one board have the same name exactly when they are the same cell |
| Labels.KnightMoveLabels | scripts.js:14-23 | a knight move between two cells is the same offset between their file and rank numbers, with the rank direction mirrored |
| Labels.DecimalRoundTrip | scripts.js:135-137 | reading the decimal numeral of a rank back gives the rank |
| Labels.ParseLabelText | scripts.js:135-137 | every cell name that is written out parses back to the same file and rank |
| Labels.LabelTextParse | scripts.js:135-137 | every text that parses as a name is exactly how that name is written |
| Labels.LabelTextInjective | scripts.js:135-137 | two names are written the same exactly when they are the same name |
| KnightTour.FormatTour | scripts.js:132-139 | the result loop stores, for each step `k` of the tour the board records, the name of the cell visited at step `k`, and no entry is left empty |
| KnightTour.SolveKnightTour | scripts.js:111-142 | the solver returns names exactly when a tour from the start exists, closed when a round trip is required; the names are those of such a tour in visit order, `n * n` of them, pairwise distinct, and the first is the start cell's |
| KnightTour.TourNamesDistinct | scripts.js:132-141 | the names of a tour are pairwise distinct, and the first is the start cell's |
| KnightTour.TourNamesKnightSteps | scripts.js:132-141 | consecutive names of a tour parse back to cells a knight move apart, and with a round trip the last name leads back to the first |
| KnightTour.OneCellBoard | scripts.js:65-81 | on a one-cell board the open tour is the start alone, named `A1`, and no closed tour exists, because the round-trip test finds no offset back to the start |

## Left out

- Rendering, click handling, the `Promise` wrapper and `console.log`: the
  `ChessboardRenderer` class and the logging lines 123-126 are presentation
  and are not part of this model.
- The `iterations` counter: it is diagnostic only. The algorithm never
  reads it.
- The instance fields `roundTrip`, `first_x` and `first_y`: they are
  parameters here. The original records the first cell when `movei === 1`,
  which happens only in the top call. So `first` is always the start cell.
- The `Chessboard` class: it carries only `size`, which is the parameter
  `n` here.
- Aliasing of the mutable board: the board is a value, and each assignment
  `board[x][y] = v` becomes `Board.Mark`.
- KnightTour.SolveKnightTour: requires the start cell to be on the board.
  For an off-board start the original either throws (`board[x]` is
  undefined) or writes a stray property and searches from outside the board.
  Neither case is modelled.
- KnightTour.SolveKnightTour: requires `n <= MaxFiles` (55231 columns).
  Beyond that, `String.fromCharCode` yields surrogate code units, and past
  65535 it wraps modulo 2^16. Dafny's `char` cannot represent either.
- KnightTour.SolveKnightTour: the search recurses up to `n * n` calls deep
  (`solveKTUtil` calls itself at scripts.js:100). On a large board the
  JavaScript engine throws `RangeError` when its call stack runs out, where
  the model still returns a result. Stack depth is not modelled.
- KnightTour.FormatTour: starts the result as `n * n` empty strings, where
  the original starts with an empty array. Every index is written by the end
  of the loop, so the results agree.
- The `sort` comparator `a.degree - b.degree` is modelled as a stable
  insertion sort by degree. ECMAScript 2019 and later require
  `Array.prototype.sort` to be stable, so the order of the result is the
  same. An engine with an unstable sort could break ties differently.
- Only the Warnsdorff solver exists in `scripts.js`. The model follows the
  code, including its `board[x][y]` indexing and the `board[j][i]` reads of
  the result loop.
