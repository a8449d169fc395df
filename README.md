# Sudoku solver core in Dafny

This project models the solving core of `sudoku.cpp`. The solver works on a
grid of side `n = base * base` and keeps four views of the remaining
candidates:

- per cell, which values it may still hold;
- per (row, value), which positions of the row may still hold the value;
- the same per (column, value);
- the same per (box, value).

It also keeps a set mark per cell, the count of marks, and an `impossible`
flag.

Constraint propagation is the mutual recursion of `remove` (take a value out
of a cell) and `set` (fix a cell to a value). Each removes a candidate from
all four views and cascades whenever a view drops to one candidate.

The search on top of that has two parts:

- `caseAnalysis` tries every candidate of each narrow unit on a copy of the
  board. It keeps only what holds in the union of the outcomes, and it
  adopts a completed board as soon as one turns up.
- `bruteforce` picks the narrowest unit and recursively solves a copy for
  each candidate. It adopts the first completed board; when every candidate
  fails, it marks the board impossible.

The modules follow the source's structure:

| module | file | what it holds |
|---|---|---|
| `Arith` | `arith.dfy` | a few facts of integer division used by the index arithmetic |
| `IndexMaps` | `index_maps.dfy` | the coordinate tables and their construction (`constructMaps`), the unit numbering, `typeIdxOptToCellVal` |
| `Candidates` | `options.dfy` | the `Options` struct: `remove`, `merge`, `get`, the cached count |
| `Coherence` | `views.dfy` | the four views and their agreement, the rest conditions of a cell, what a solution is, unions of views |
| `Solutions` | `solutions.dfy` | what a filled grid obeying the rules is, and when the candidates of a board still allow one |
| `Propagation` | `propagation.dfy` | how one propagation call relates the board before and after |
| `Board` | `sudoku.dfy` | the board state, its constructor, `merge`, `remove` and `set` |
| `Search` | `search.dfy` | `typeIdxToOpts`, `caseAnalysis`, `bruteforce`, `solve`, `maybeSet` and the value loop of `input` |
| `Solver` | `solver.dfy` | the class `Sudoku`, whose fields are the board's members and whose methods update them in place |

Propagation and search are modelled on board values. `Board` and `Search`
take a `State` value and return the new one. The class `Solver.Sudoku` holds
the same members as fields, and each of its methods runs the value-level
operation on a snapshot of its fields and writes the result back whole.
Every copy the source makes (`Sudoku next(*this)`, `*this = next`, the
`unique_ptr` in `bruteforce`) is a copy of a value here.

The base is a parameter. The tables are an immutable `Maps` value built by
`ConstructMaps`, which stands in for the static member initialised once per
grid shape.

Two invariants are kept throughout:

- `Board.Inv` holds even in the middle of propagation. The four views agree
  flag for flag through the tables, every `numOpts` is the count of its
  flags and is at least 1, and `numSet` counts the set marks.
- `Board.Settled` holds between top-level operations. Unless the board is
  impossible, a marked cell is done (one value left, and each of its three
  views of that value has one position left), and an unmarked cell still
  has a choice. Every view is at rest too: a cell that is the only
  position left for a value in its row, column or box (a hidden single) is
  marked, because the cascade at lines 194-196 of `remove` assigns it.

A propagation call (`Propagation.Step`) only takes candidates away and only
adds marks. Unless it makes the board impossible, it leaves every cell and
every view that was at rest still at rest.

Where the source's own assertions are preconditions, the model makes them
`requires`. These are:

- `cells[cell].isOpt[val]` in `remove` and `set`, required unless the board
  is impossible;
- `numOpts > 1` and the flag being set, in `Options::remove`;
- `numOpts == 1` in `Options::get`;
- `maxWidth >= 1` in `solve`.

The assertion `bestTypeIdx < NUM_TYPES * N * N` in `bruteforce` is proved,
not assumed: a board that is neither impossible nor solved always has an
unset cell with more than one candidate (`Search.OpenCell`).

A few facts about `sudoku.cpp` that the model follows:

- The scan in `bruteforce` visits all 4n² units and keeps the first unit of
  strictly smallest width above 1. It has no early stop.
- Boxes are always base × base, and values are the numbers 1 to n, with 0
  for an empty cell.
- `input` fills the board through `maybeSet` with `val - 1` for each non-zero
  value, over the default board. Reading the values is not modelled; the
  values are a parameter.

Beyond what each call keeps, the model states what the solver preserves
about solutions. A grid (`Solutions.Grid`) puts a value below n in every
cell, every value somewhere in every row, column and box, and no value twice
in one. A board admits a grid (`Board.Admits`) when it is not impossible and
every cell still allows the grid's value. Then:

- `remove` of a value the grid does not use, and `set` of the value the grid
  does use, keep the grid admitted, so neither ends impossible;
- case analysis keeps every admitted grid, unless it adopted a solved board;
- `bruteforce` and `solve` never end impossible on a board that admits a
  grid, so the search is complete;
- `input` of givens that some grid agrees with ends on a board that admits
  that grid.

Case analysis is specified case by case, in `Search`:

- `IsCase` says what the case of candidate `opt` of a unit is. It is the
  board after `set` of the (cell, value) pair the candidate names, with
  everything `Board.Set` promises about that board.
- `TriedOpt` records one candidate. An allowed candidate contributes its
  case, which did not solve the board; a candidate the unit does not allow
  contributes an impossible board. `Tried` records the candidates
  `0, 1, ...` in order.
- `UnionOfCases` says what `merged` ends as. It is impossible exactly when
  every case is. Otherwise it allows a value in a cell exactly when some
  possible case does. `UnionUnique` shows that this fixes the whole board.
- `UnitTurn` is one unit's turn. A unit with one candidate, or with more
  than `maxWidth`, leaves the board alone. Otherwise, either the first
  candidate whose case is solved gives that case, or all n candidates were
  tried and the board becomes the union of their cases.
- `Analysed` chains the turns of the units in index order, each taken on an
  unsolved board.

## Model

| member | source | states |
|---|---|---|
| IndexMaps.ConstructMaps | sudoku.cpp:37-58 | the six tables are mutually inverse (each coordinate of a cell is below n, and the inverse table maps it back to the cell, and back again), and each cell's row, column and box coordinate is the one given by the index arithmetic |
| IndexMaps.CellRoundTrip | sudoku.cpp:43-46 | every coordinate of a cell is below n, and the row/column and box/position formulas both give the cell back |
| IndexMaps.RowColRoundTrip | sudoku.cpp:43-44 | a (row, column) pair below n names a cell whose row and column they are |
| IndexMaps.BoxRoundTrip | sudoku.cpp:45-46 | a (box, position) pair below n names a cell whose box and position they are |
| IndexMaps.CoordRoundTrip | sudoku.cpp:48-54 | for each group kind, the cell at a cell's coordinate is that cell |
| IndexMaps.CellOfRoundTrip | sudoku.cpp:48-54 | for each group kind, the coordinate of the cell at a slot is that slot |
| IndexMaps.UnitOf | sudoku.cpp:230-233 | a unit index below 4n² splits into a kind below 4, a position below n², and a (group, value) pair, which recombine to the index |
| IndexMaps.UnitIndex | sudoku.cpp:230-233 | encoding a (kind, group, value) unit and decoding the index gives the unit back, so every unit has exactly one index |
| IndexMaps.CellUnit | sudoku.cpp:236-237 | the first n² unit indices are the cell units, in cell order |
| IndexMaps.TypeIdxOptToCellVal | sudoku.cpp:254-278 | candidate `opt` of a cell unit is (that cell, value opt); of a row, column or box unit it is the cell at slot opt of that group, with the unit's value |
| Candidates.Count | sudoku.cpp:64-65 | the count of flags is at most their number, and it is 0 exactly when no flag is set |
| Candidates.Full | sudoku.cpp:67-71 | the default candidate set allows each of the n values, and its count is n |
| Candidates.Remove | sudoku.cpp:88-95 | removing a candidate clears exactly that flag, lowers the count by one, and leaves at least one candidate |
| Candidates.Union | sudoku.cpp:78-86 | the merged flags are the flag-wise or of the two sets, and the count is right |
| Candidates.Merge | sudoku.cpp:78-86 | the loop that ors the flags and recounts them computes the union |
| Candidates.Get | sudoku.cpp:97-109 | for a set with count 1, the returned value is its one set flag, and no other flag is set |
| Candidates.CountUpdate | sudoku.cpp:93-94 | writing one flag changes the count by exactly the difference of that flag's bits |
| Candidates.CountWithin | sudoku.cpp:78-86 | the count is monotone in the flags, and strictly so when a flag is added |
| Candidates.CountOne | sudoku.cpp:97-109 | with flag i set, the count is 1 exactly when no other flag is set |
| Candidates.CountAllTrue | sudoku.cpp:67-71 | the count equals the length exactly when every flag is set |
| Candidates.SingletonStable | sudoku.cpp:185-196 | a live set inside a singleton is that singleton |
| Candidates.UnionBounds | sudoku.cpp:78-86 | the union contains both operands, is the smallest set that does, is live when either operand is, and the union of a set with itself is the set |
| Candidates.ShrinkCount | sudoku.cpp:88-95 | a set inside another has no larger count, and a smaller one unless the flags are equal |
| Candidates.TwoFlags | sudoku.cpp:64-65 | a set with two different flags set has a count above 1 |
| Solutions.FullAllows | sudoku.cpp:122-132 | the default views allow every grid |
| Solutions.UnionAllows | sudoku.cpp:134-154 | a union of views allows every grid that either operand allows |
| Solutions.ClearedAllows | sudoku.cpp:188-191 | clearing a value other than the grid's from a cell keeps the grid allowed |
| Solutions.AllowsSolved | sudoku.cpp:304-308 | a board with one candidate in every cell that allows a grid holds exactly that grid |
| Coherence.ViewFlags | sudoku.cpp:112-115 | on a coherent board, the row, column and box views of a value at a slot agree with the cell at that slot |
| Coherence.SameSlot | sudoku.cpp:48-54 | two cells with the same row, column or box coordinate are the same cell |
| Coherence.TotalLess | sudoku.cpp:161-197 | fewer candidates in every cell means a total no larger, and a smaller one when some cell lost a candidate |
| Coherence.NarrowsTotal | sudoku.cpp:161-197 | a board whose cells only lost candidates has no larger total, and a smaller one if any cell changed |
| Coherence.ClearFlag | sudoku.cpp:188-191 | removing a value from a cell clears it in the cell and in its three views, and nothing else, and the cell's count drops by one |
| Coherence.ClearFlagKeepsCoherent | sudoku.cpp:188-191 | that removal keeps the four views in agreement, lowers the total by one, and keeps every other done cell done |
| Coherence.DoneWhenCleared | sudoku.cpp:219-225 | once set's loop has cleared every other value of the cell and every other slot of its three views, the cell is done and still holds the value |
| Coherence.SweptViews | sudoku.cpp:219-225 | after that loop, the cell holds only the value, and each of its three views of the value holds only the cell's own slot |
| Coherence.AllDoneIsSolution | sudoku.cpp:304-308 | when every cell is done, every cell holds exactly one value and no value occurs twice in a row, column or box |
| Coherence.NoTwiceInGroup | sudoku.cpp:219-225 | the value of a done cell is allowed in no other cell of its row, column or box |
| Coherence.UnionCoherent | sudoku.cpp:134-154 | the union of two coherent boards is coherent, and contains both |
| Coherence.UnionFits | sudoku.cpp:134-154 | the union of two boards at rest, with each cell marked exactly when it has one candidate, is at rest |
| Coherence.DeterminedByCells | sudoku.cpp:313 | two boards at rest with equal cell views are equal in all four views and in their marks |
| Coherence.FullViews | sudoku.cpp:122-132 | the default views allow every value in every cell and every slot in every group view |
| Coherence.FullFits | sudoku.cpp:122-132 | the default views are coherent, and every cell and view is at rest, with a cell marked exactly when n is 1 |
| Coherence.UnionViewsFit | sudoku.cpp:134-154 | in the union of two boards whose cells and views are at rest, with each cell marked exactly when it has one candidate, every view is at rest |
| Coherence.UnionViewFits | sudoku.cpp:134-154 | a view down to one slot in the union, at a cell the union still allows, leaves that cell with one candidate |
| Coherence.UnionSlot | sudoku.cpp:143-149 | a union of two live candidate sets that is down to one flag is that same singleton in both operands |
| Propagation.StepTrans | sudoku.cpp:193-196 | two propagation steps in a row make one step |
| Propagation.KeepsViewsTrans | sudoku.cpp:193-196 | two calls that each keep every view at rest together keep every view at rest |
| Propagation.ClearStep | sudoku.cpp:188-191 | one removal keeps the views coherent, clears the flag, lowers the total, leaves the marks, disturbs no cell at rest other than the one it acts on, and disturbs no view at rest other than the three views of the value around that cell |
| Propagation.ClearKeepsViews | sudoku.cpp:188-191 | the four clears touch no view other than the three views of the value around the cell, so every other view at rest stays at rest |
| Propagation.SettleCell | sudoku.cpp:193 | a removal followed by the cascade that settles the cell is a propagation step on every cell and on every view except the three views of the value around the cell |
| Propagation.StepFromNext | sudoku.cpp:194-196 | once the cascade for the row, column or box view has left that view at rest, one more of the three views is covered by the step |
| Propagation.StepFromDone | sudoku.cpp:193-196 | when all three views are covered, the whole removal is one propagation step |
| Propagation.GroupFitsKept | sudoku.cpp:193-196 | a view at rest stays at rest through any propagation step that does not end impossible |
| Propagation.ClearedNarrows | sudoku.cpp:219-225 | flags cleared by set's loop stay cleared while later removals only take candidates away |
| Board.Init | sudoku.cpp:122-132 | the default board allows everything, is not impossible, marks a cell exactly when n is 1, and is at rest |
| Board.Merge | sudoku.cpp:134-154 | if the other board is impossible, nothing changes; otherwise the result is possible and is the four-view union of the other board with this one (or with itself when this one was impossible), each cell is marked exactly when it has one candidate, and a union of boards at rest is at rest |
| Board.FoldViews | sudoku.cpp:140-153 | the merge loop produces the cell-wise and view-wise union, with the marks and their count recomputed |
| Board.FoldCell | sudoku.cpp:146-152 | merging cell i extends the merged prefix of the cells by one, recomputes that cell's mark as having one candidate, and keeps the count of marks equal to the marks of the prefix |
| Board.MergeSlot | sudoku.cpp:143-149 | merging slot i of a view table extends the merged prefix of the table by one slot, in the order of the loop, and leaves the later slots as they were |
| Board.FoldStep | sudoku.cpp:142-152 | one turn of the merge loop merges one more cell and one more slot of each view, and recomputes that cell's mark and the count |
| Board.SettleOwn | sudoku.cpp:193 | when the cell went down to one candidate, it ends marked set (unless a contradiction arose); the value stays out of the cell; the step covers every cell and every view except the three views of the value around the cell; the total does not grow; a grid admitted before is admitted after |
| Board.SettleView | sudoku.cpp:194-196 | when the row, column or box view of the value went down to one slot, the cell at that slot ends marked set (unless a contradiction arose), so that view is at rest; on an impossible board nothing changes; the value stays out of the cell; the step now covers this view too; the total does not grow; a grid admitted before is admitted after |
| Board.SoleSlotMarked | sudoku.cpp:194-196 | a view down to one slot, whose cell at that slot is marked, is at rest after any further narrowing |
| Board.SoleSlotAt | sudoku.cpp:194-196 | a cell of the group that still allows the value of a view down to one slot is the cell at that slot |
| Board.WideViewFits | sudoku.cpp:194-196 | a view that keeps two or more slots is at rest whatever the marks, which is why the cascade is skipped for it |
| Board.UnpinnedFits | sudoku.cpp:182-196 | after a removal that was not pinned, each of the three views of the value around the cell is at rest unless the board became impossible |
| Board.Remove | sudoku.cpp:161-197 | on an impossible board, nothing changes; when the cell or one of its three views of the value is pinned to one candidate, the board only becomes impossible; otherwise the value is gone from the cell (unless a cascade hit a contradiction), candidates are only lost, marks only added, no cell or view at rest is disturbed unless the board became impossible, each of the three views of the value around the cell is at rest (a hidden single left by the removal is marked set), and the total does not grow; and when the board admits a grid that does not put the value in the cell, the result still admits it (so it is not impossible) |
| Board.RemoveCascades | sudoku.cpp:193-196 | the cascading sets after a removal (the cell, then its row, column and box views of the value) keep the value out of the cell and make the whole call one propagation step, which keeps every cell and view at rest unless the board became impossible, and which lowered the total; a grid admitted before the cascade is admitted after it |
| Board.NotPinned | sudoku.cpp:182-186 | removing a value that a grid admitted by the board does not use is never pinned: the cell and each of its three views of the value keep a second candidate |
| Board.ViewOpen | sudoku.cpp:182-186 | a view of the value in a group of the cell keeps two slots when the board admits a grid that puts another value in the cell |
| Board.SoleSlot | sudoku.cpp:193-196 | when a view of a board admitting a grid is down to one slot, the grid puts the value in the cell at that slot, so the cascading `set` agrees with the grid |
| Board.GridSlot | sudoku.cpp:219-225 | a view of a value in a group of a board admitting a grid keeps the slot where the grid puts that value |
| Board.PlacedIn | sudoku.cpp:219-225 | every value of a grid has a slot in the row, column and box of any cell |
| Board.GroupPeer | sudoku.cpp:219-225 | a cell's own slot in its row, column or box holds that cell; every other slot holds a different cell of the same group |
| Board.GroupFlag | sudoku.cpp:219-225 | a group view's flag at a slot is the flag of the cell at that slot |
| Board.Set | sudoku.cpp:199-226 | on an impossible board or an already marked cell, nothing changes; otherwise the cell is marked and, unless a contradiction arose, done and still holding the value; candidates are only lost and no cell at rest is disturbed; when the board admits a grid that puts the value in the cell, the result still admits it (so it is not impossible) |
| Board.Sweep | sudoku.cpp:219-225 | set's loop over all positions leaves (unless impossible) every other value out of the cell and the cell as the only slot of the value in its row, column and box; a board that admits a grid putting the value in the cell still admits it afterwards |
| Board.SweepSlot | sudoku.cpp:221-224 | one round of set's loop extends the cleared prefix by one position; the round keeps any grid admitted that puts the value in the cell |
| Board.SweepView | sudoku.cpp:222-224 | one view's removal in set's loop leaves the value out of that peer, unless it is the cell's own slot; the removal keeps any grid admitted that puts the value in the cell |
| Search.TypeIdxToOpts | sudoku.cpp:228-252 | the candidates of any unit form a live set, and a cell unit's candidates are that cell's |
| Search.UnitFlags | sudoku.cpp:228-278 | candidate opt of a unit is allowed exactly when the cell value it names is allowed |
| Search.OpenUnitCell | sudoku.cpp:295-302 | on a board at rest, every candidate of a unit with more than one candidate names an unmarked cell that still has that value and more than one candidate |
| Search.MeasureNoMore | sudoku.cpp:301-318 | a board with no more candidates, still solved if it was solved, is no higher in the search measure, and lower if it became solved |
| Search.MeasureLess | sudoku.cpp:314-318 | a board with fewer candidates, or an impossible one, is lower in the search measure |
| Search.SetShrinks | sudoku.cpp:356-357 | setting a cell with a choice lowers the search measure |
| Search.StepSettled | sudoku.cpp:161-226 | a propagation step from a board at rest (cells and views) ends at rest |
| Search.UnionWithin | sudoku.cpp:310 | merging two outcomes that both lie inside the board gives a board inside it |
| Search.OpenCell | sudoku.cpp:325-341 | a board at rest that is neither impossible nor solved has a cell unit with more than one candidate |
| Search.TryUnit | sudoku.cpp:292-311 | the candidates before the return were tried in order, each contributing its case or an impossible board; when a case is solved, it is the case of the next allowed candidate and is returned; otherwise all n candidates were tried and the result is the union of their cases, impossible exactly when every case is; the result is at rest and, when possible, inside the board; a grid the board admits is admitted by the result unless a solved case was found |
| Search.TryCase | sudoku.cpp:297-310 | `next` is the case of the candidate (the board after `set` of its cell and value); found is true exactly when that case is solved, and then the result is the case; otherwise the result is the union of the earlier cases and this one; a possible result lies inside the board; when the board admits a grid, and either the union so far admits it or the candidate is the grid's own, the result is found or admits the grid |
| Search.Absorb | sudoku.cpp:310 | an impossible case leaves the union as it is; a possible case gives a possible board that is the four-view union of the case with the union so far, or with itself when the union so far was impossible; the result is at rest, inside the board, and admits any grid that either input admitted |
| Search.AnalyseUnit | sudoku.cpp:286-318 | a unit with one candidate or more than maxWidth leaves the board; otherwise the result is the first solved case or the union of all the cases, and on an unsolved board solved is true exactly when the result is solved; no change means the board is kept; a change lowers the search measure (or keeps it on an already solved board); a possible result lies inside the board; a grid the board admits is admitted by the result unless a solved case was adopted |
| Search.AnalyseTurn | sudoku.cpp:286-318 | one turn of the unit loop on an unsolved board: the turn of unit typeIdx is appended to the run of turns so far; solved is true exactly when the result is solved; no change means the board is kept; a change lowers the search measure as in AnalyseUnit; a possible result lies inside the starting board; a grid the board admits is admitted by the result unless it is solved |
| Search.SolvedLower | sudoku.cpp:304-308 | adopting a completed board inside the board does not raise the measure, and lowers it when the board was unsolved |
| Search.UnionLower | sudoku.cpp:313-317 | replacing a board at rest by a different board at rest inside it lowers the measure |
| Search.CaseAnalysis | sudoku.cpp:280-321 | it returns false without change when maxWidth is 1 or the board is impossible or solved; otherwise the boards it passes through are a chain of unit turns, one per unit in index order from the starting board to the result, stopping early only at a solved board; when it returns false nothing changed; when it returns true the measure dropped; the result is at rest and lies inside the board; a grid the board admits is admitted by the result unless the result is solved |
| Search.Narrowest | sudoku.cpp:327-339 | the chosen unit has more than one candidate, no fewer than any other such unit, strictly fewer than every such unit before it; the index is 4n² only when every unit has a single candidate |
| Search.Solve | sudoku.cpp:372-383 | an impossible board stays as it is; afterwards the board is impossible or every cell is set; a possible result is a solution (one value per cell, none repeated in a group) that lies inside the starting board; a board that admits a grid never ends impossible |
| Search.SolvedIsSolution | sudoku.cpp:304-308 | a possible board at rest with every cell marked is a solution |
| Search.Bruteforce | sudoku.cpp:323-370 | an impossible or solved board stays as it is; afterwards the board is impossible or solved; a possible result lies inside the board; an impossible result is the starting board with only the flag raised; a board that admits a grid never ends impossible |
| Search.MaybeSet | sudoku.cpp:385-389 | on an impossible board, nothing changes; a value the cell does not allow only makes the board impossible; otherwise, on a board at rest, unless a contradiction arose the cell is marked, has one candidate, holds the value, and the board stays at rest; a board that admits a grid putting the value in the cell still admits it |
| Search.HoldsStays | sudoku.cpp:447-449 | a given that a cell holds still holds after later propagation that only takes candidates away |
| Search.GivensStay | sudoku.cpp:447-449 | all givens placed so far still hold after later propagation |
| Search.GivensExtend | sudoku.cpp:445-450 | the givens of the first k cells plus the k-th hold for the first k + 1 cells |
| Search.Input | sudoku.cpp:441-451 | starting from the default board, entering the givens ends at rest; unless the board is impossible every given cell has the given value as its only candidate; and when a grid agrees with every given, the board admits that grid, so it is not impossible |
| Search.InputCell | sudoku.cpp:447-449 | entering one given keeps the board at rest, only takes candidates away, leaves the given value as the cell's only candidate unless impossible, and keeps admitted a grid that agrees with it |
| Search.GivensAfter | sudoku.cpp:445-450 | after entering the k-th given, the givens of the first k + 1 cells hold |
| Search.NotBothHold | sudoku.cpp:219-225 | a marked cell holding a value keeps that value out of every other cell of its row, column and box, so no peer holds the same value |
| Search.ClashingGivens | sudoku.cpp:441-451 | two equal givens in one row, column or box make the board that `input` builds impossible |
| Search.GridCaseOf | sudoku.cpp:228-278 | every unit of a board that admits a grid has among its candidates the (cell, value) pair the grid uses |
| Search.UnionExtends | sudoku.cpp:310 | uniting a case into the union of the earlier cases, as `merge` does, gives the union of all of them; an impossible case leaves it as it is |
| Search.UnionCells | sudoku.cpp:292-311 | two boards that are both the union of the same cases, one of them possible, are both possible and have the same cells |
| Search.UnionUnique | sudoku.cpp:313-317 | two possible boards at rest that are both the union of the same cases are equal, so the cases decide the whole board that replaces the old one |
| Search.UnionUnsolved | sudoku.cpp:304-311 | when no tried case solved the board, their union is not solved either, so a turn that tries every candidate never reports a solved board |
| Search.WiderUnsolved | sudoku.cpp:304-311 | a board at rest whose every cell allows at least what an unsolved board at rest allows is not solved |
| Search.ImpossibleBoard | sudoku.cpp:292-293 | the starting point of the union in case analysis is a board at rest that is impossible |
| Solver.Sudoku.constructor | sudoku.cpp:122-132 | the object starts as the default board, at rest and not impossible |
| Solver.Sudoku.Remove | sudoku.cpp:161-197 | the fields change as in Board.Remove: no change when impossible, only the flag when the removal is pinned, otherwise the value is gone and candidates only lost, and each of the three views of the value around the cell is at rest (its hidden single is marked); a grid admitted before that does not put the value in the cell is still admitted |
| Solver.Sudoku.Set | sudoku.cpp:199-226 | no change when impossible or already marked; otherwise the cell is marked and the count of marks grew; a possible result holds only the value in the cell and lies inside the old board; a grid admitted before that puts the value in the cell is still admitted |
| Solver.Sudoku.Merge | sudoku.cpp:134-154 | no change when the other board is impossible; otherwise the fields become the four-view union |
| Solver.Sudoku.CaseAnalysis | sudoku.cpp:280-321 | false without change when maxWidth is 1 or the board is impossible or solved; otherwise the fields went through a chain of unit turns, one per unit in index order, stopping early only at a solved board; true only when the search measure dropped; a possible result lies inside the old board; a grid admitted before is still admitted unless the board is now solved |
| Solver.Sudoku.Bruteforce | sudoku.cpp:323-370 | no change on an impossible or solved board; the fields end impossible or solved, impossible only with every other field unchanged, and a possible result lies inside the old board; a board that admitted a grid does not end impossible |
| Solver.Sudoku.Solve | sudoku.cpp:372-383 | no change on an impossible board; the fields end impossible or as a solution inside the starting board; a board that admitted a grid does not end impossible |
| Solver.Sudoku.MaybeSet | sudoku.cpp:385-389 | no change on an impossible board; a value the cell does not allow only raises the flag; otherwise a possible result has the cell marked with the value as its only candidate and lies inside the old board; a grid admitted before that puts the value in the cell is still admitted |
| Solver.Sudoku.Input | sudoku.cpp:441-451 | the fields end at rest; unless impossible every given holds; when a grid agrees with every given the board admits it |
| Solver.MarkCounts | sudoku.cpp:208-209 | marking a cell that was not marked, and only adding marks, raises the count of marks |

## Left out

- Printing (`print`), reading values (`readVal`, with `stoi` and the character map that numbers characters from 1), `main`, and the `.`, `!`, `+` and `-` progress characters written to standard output are left out. They are I/O and do not affect the board.
- Search.Input: the values arrive as a sequence of naturals, one per cell, each at most n. Out-of-range or negative values are undefined behaviour in the source (an out-of-bounds index, or a wrap-around through `uint`), so the model requires them to be in range.
- `uint` arithmetic is unbounded here. The largest quantities the solver computes are unit indices (below 4n²) and counts (at most n²), so no wrap-around can occur for any grid whose 4n² fits in 32 bits.
- The `unique_ptr` in `bruteforce` only puts the copy on the heap. The model uses a value copy.
- The static `maps` member is a `Maps` value built by `ConstructMaps` and passed to every operation.
- `operator==` on boards and on candidate sets is Dafny's value equality.
- Propagation and search are modelled on board values. `Solver.Sudoku` writes a whole new board back into its fields after each call, rather than updating one view entry at a time in place. The order of updates inside one call, and aliasing between a board and its copies, are therefore not captured. The source makes no use of either, since every copy is a full value copy.
- Search.Solve: which solution is returned when a puzzle has several is not stated. The contract says that a possible result is a solution inside the board, and that the result is possible whenever the board admits some grid.
- Solver.Sudoku.Solve: as for Search.Solve, which solution is returned when a puzzle has several is not stated.
- Search.Bruteforce: the order in which candidates are tried, and so which solution is adopted when several exist, is not stated. The contract says the result is impossible or solved, a possible result lies inside the board, and the result is possible whenever the board admits some grid.
- Solver.Sudoku.Set: the new count of marks is stated as larger than the old one, not as exactly one more. Set's cascades may mark further cells, so the source gives no exact count either.
