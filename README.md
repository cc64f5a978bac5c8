# Programmer's Minesweeper: the equation solver, its set library and the board

This project models the core of the Programmer's Minesweeper (PGMS). It is John
Ramsdell's board and strategies, extended with snapshot bookkeeping for a learning
player. The project proves properties of the model.

- `sets.dfy` (module `Sets`) models `set/Element`, `set/List` and `set/Set`.
  - A set is a strictly ascending list of elements, ordered by a strict linear order
    `lt`. The order stands for `Element.less`; `Element.same` is equality.
  - Each operation is proved to compute the set-theoretic result and to keep the list
    sorted.
  - The loop-based operations are methods, proved equal to the recursive functions that
    specify them.
  - `Set.less` is proved a strict linear order whenever the element order is one, so
    a set can itself be an element of a set (`Eqn` orders its point sets this way).
- `points.dfy` (module `Points`) models `sp/Point`: its row-major order and the grid
  geometry (rows, rectangles, the 3x3 and 5x5 windows).
- `equations.dfy` (module `Eqns`) models `eqn/Eqn` and the soundness of the three
  deduction rules. Every rule turns equations that are true of the mine layout into
  true conclusions.
- `board.dfy` (module `Board`) models the `map/Map` contract and `map/MineMap`.
  - The three grids are arrays; the counter and the flags are fields.
  - Each operation's contract gives every case, and the weights are proved to be the
    mine counts.
  - `Sound()` says that no mark is off a mine and no mine has been probed.
- `single_point.dfy` (module `SinglePoint`) models `sp/SinglePointStrategy`. On a sound
  board it never probes a mine and never marks a safe cell.
- `mio.dfy` (module `Mio`) models `eqn/MioStrategy`.
  - The index invariant `em[y, x]` holds exactly the equations that mention (x, y).
    `adjoin`, `remove` and `remove_at` keep it.
  - Every stored equation is true of the mine layout, so only `choose`'s guess can lose
    a game.
- `state.dfy` (module `State`) models `state/LocalState` and `state/GameState`.
- `qlearner.dfy` (module `QLearner`) models `qlearner/ActionResult` and
  `qlearner/ActionHistory`.
- `pgms.dfy` (module `Pgms`) models `PGMS.percent`.

Randomness becomes parameters:
- `MineMap` takes the cells its placement loop chose as a `layout` argument.
- `pick` takes the raw draw `floor(n * random)`.
- The two `play` loops take the sequence of draws they consume.

## Model

| member | source | states |
|---|---|---|
| Sets.ListMember | src/set/Set.java:137-150 | on a sorted list, the early-exit search answers true exactly when the element is in the list |
| Sets.MemberScan | src/set/Set.java:119-133 | the loop of list_member computes ListMember; on a set, true iff the element is present |
| Sets.ListAdjoin | src/set/Set.java:72-85 | the result is sorted and holds the old elements plus e; it is the list itself when e was present, one cell longer otherwise |
| Sets.Adjoin | src/set/Set.java:65-70 | adjoin returns the receiver when e is a member, else a sorted list of the old elements plus e |
| Sets.ListRemove | src/set/Set.java:99-112 | the result is sorted and holds the old elements minus e; it is the list itself when e was absent, one cell shorter otherwise |
| Sets.Remove | src/set/Set.java:92-97 | remove returns the receiver when e is absent, else the sorted old elements minus e |
| Sets.ListSubset | src/set/Set.java:162-166 | against a set, true iff every element of the first list is in the second |
| Sets.SubsetScan | src/set/Set.java:162-166 | the loop of list_subset computes ListSubset |
| Sets.ProperSubset | src/set/Set.java:158-160 | proper_subset holds iff the receiver's elements are a strict subset of the argument's |
| Sets.Union | src/set/Set.java:173-178 | union is sorted and holds exactly the elements of both |
| Sets.UnionScan | src/set/Set.java:173-178 | the loop of union, adjoining each element of s, computes Union |
| Sets.ListIntersect | src/set/Set.java:189-212 | list_intersect is sorted and holds exactly the common elements |
| Sets.Intersect | src/set/Set.java:185-187 | intersect is sorted and holds exactly the common elements |
| Sets.Difference | src/set/Set.java:220-225 | set_difference is sorted and holds the receiver's elements not in s |
| Sets.DifferenceScan | src/set/Set.java:220-225 | the loop of set_difference, removing each element of s, computes Difference |
| Sets.First | src/set/Set.java:231-236 | first of a non-empty set is a member below every other member |
| Sets.ButFirst | src/set/Set.java:242-247 | but_first of a non-empty set is sorted, holds every element but the first, and is one cell shorter |
| Sets.CardIsSize | src/set/Set.java:253-258 | the number of list cells card counts is the number of distinct elements |
| Sets.CardScan | src/set/Set.java:253-258 | the counting loop of card returns the number of elements of the set |
| Sets.ListSame | src/set/Set.java:283-292 | the recursive list_same is true iff the two lists are equal |
| Sets.SameScan | src/set/Set.java:270-281 | the loop of list_same is true iff the two lists are equal |
| Sets.SameIffEqualElems | src/set/Set.java:264-268 | two sets are same iff they hold the same elements (sorted lists are canonical) |
| Sets.SortedUnique | src/set/Set.java:264-281 | two sorted duplicate-free lists with the same elements are the same list |
| Sets.LessScan | src/set/Set.java:306-325 | the loop of list_less computes the lexicographic comparison ListLess |
| Sets.ListLess | src/set/Set.java:306-325 | lexicographic comparison: the empty list is below every non-empty one and nothing is below the empty list; a first element less than the other's makes the list less |
| Sets.EmptyLeast | src/set/Set.java:306-311 | the empty set is less than every non-empty set, and no set is less than the empty one |
| Sets.PrefixLess | src/set/Set.java:306-325 | a proper prefix is less than its extension |
| Sets.LessIrreflexive | src/set/Set.java:299-325 | no set is less than itself |
| Sets.LessTransitive | src/set/Set.java:299-325 | less is transitive |
| Sets.LessTrichotomous | src/set/Set.java:299-325 | of two sets, either they are equal or one is less than the other |
| Sets.LessIsStrictTotalOrder | src/set/Element.java:23-47 | Set.less meets the element contract (a strict linear order) whenever its elements' order does |
| Points.PointSame | src/sp/Point.java:68-73 | same holds iff both coordinates are equal |
| Points.PointLess | src/sp/Point.java:79-87 | row-major order, the row first and the column on a tie; it carries no contract of its own, and PointLessIsOrder proves it a strict linear order |
| Points.PointLessIsOrder | src/sp/Point.java:79-87 | the row-major less is a strict linear order, as Element requires |
| Points.RowMajorOrder | src/sp/Point.java:79-87 | on a board w columns wide, less orders cells by y * w + x |
| Eqns.EqnSame | src/eqn/Eqn.java:77-82 | same holds iff the constants and the point sets are equal |
| Eqns.EqnLess | src/eqn/Eqn.java:88-96 | by constant first, then, for equal constants, by the point sets' ListLess; it carries no contract of its own, and EqnLessIsOrder proves it a strict linear order |
| Eqns.EqnLessIsOrder | src/eqn/Eqn.java:88-96 | ordering by constant, then by the point sets' less, is a strict linear order |
| Eqns.ZeroEqnSafe | src/eqn/MioStrategy.java:141-162 | a true equation with constant 0 has no mine among its points |
| Eqns.FullEqnMines | src/eqn/MioStrategy.java:147-166 | a true equation whose constant is its number of points has a mine on every point |
| Eqns.UnitEqns | src/eqn/MioStrategy.java:281-283 | 0 = p holds iff p is safe, and 1 = p iff p is a mine |
| Eqns.SubsetSound | src/eqn/MioStrategy.java:170-192 | from true c0 = P0 and c1 = P1 with P0 a proper subset of P1, c1 - c0 = P1 - P0 is true, well formed, with a non-negative constant |
| Eqns.DiffSound | src/eqn/MioStrategy.java:203-244 | when P1 - P0 has c1 - c0 points, all of them are mines and no point of P0 - P1 is |
| Eqns.DoubleElimProbes | src/eqn/MioStrategy.java:260-262 | the probe set is the set ((P0 + P2) - P1) + (P0 * P2) |
| Eqns.DoubleElimMarks | src/eqn/MioStrategy.java:239-257 | the mark set is the set (P1 - P0) - P2 |
| Eqns.DoubleElimSound | src/eqn/MioStrategy.java:215-264 | when (P1 - P0) - P2 has c1 - c0 - c2 points, they are all mines and none of the probe set is |
| Board.Pick | src/map/MineMap.java:111-116 | pick throws (None) iff n <= 0, and otherwise returns a value in [0, n) |
| Board.PuntsAsWritten | src/map/MineMap.java:78 | on a board of non-negative size, the written guard (Java's truncating division) punts iff mines >= 2 * rows * columns, or the board is empty and mines is -1 |
| Board.Punts | src/map/MineMap.java:78-79 | the corrected guard punts wherever the written one does; when it does not punt, a placement of that many distinct cells exists; where it punts beyond the written guard, none exists |
| Board.PuntsAsWrittenAdmitsOverfull | src/map/MineMap.java:78-88 | the written guard lets 5 mines on a 2 x 2 board through, though no placement of 5 distinct cells exists |
| Board.PuntsDiffersOnlyWhenOverfull | src/map/MineMap.java:78-79 | the two guards disagree exactly on boards the written guard lets through although they cannot hold their mines; empty boards, where both punt, keep the written behaviour |
| Board.Fill | src/map/MineMap.java:71-76 | every cell of the grid holds the given value |
| Board.PlaceMines | src/map/MineMap.java:81-88 | the grid holds BOOM exactly on the chosen cells and 0 elsewhere |
| Board.ComputeWeights | src/map/MineMap.java:90-102 | every safe cell holds the number of mines in its 3x3 window, every mine BOOM |
| Board.WeighRow | src/map/MineMap.java:91-101 | after a row, each of its cells is weighed, the mines stay BOOM and the other rows are unchanged |
| Board.WeighNext | src/map/MineMap.java:91-101 | one pass of the row loop extends the weighed prefix of the row by one cell and changes no other cell |
| Board.WeighCell | src/map/MineMap.java:92-100 | a safe cell gets the number of mines in its 3x3 window; a mine stays BOOM; no other cell changes |
| Board.WindowMines | src/map/MineMap.java:93-100 | the clipped window loops count the mines adjacent to (x, y) |
| Board.ClippedWindow | src/map/MineMap.java:94-97 | clipping the window to the board loses no mine |
| Board.MineMap.constructor | src/map/MineMap.java:62-104 | fresh grids; nothing marked and every cell unknown; finished iff the guard punts; the mines are the chosen cells; the weights are the adjacent mine counts |
| Board.MineMap.Won | src/map/MineMap.java:127-129 | won implies a finished game in which a cell is unprobed exactly when it is a mine |
| Board.MineMap.Probed | src/map/MineMap.java:150-152 | probed() is true iff some safe cell has been probed |
| Board.MineMap.MinesMinusMarks | src/map/MineMap.java:274-276 | mines_minus_marks is the initial mine count minus the number of marked cells |
| Board.MineMap.Look | src/map/MineMap.java:198-207 | OUT_OF_BOUNDS iff off the board; else MARKED iff marked; else UNPROBED iff unprobed; else BOOM on a mine or the adjacent mine count |
| Board.MineMap.UnknownIsUnprobedLook | src/map/MineMap.java:198-207 | a cell is unknown iff look shows UNPROBED |
| Board.MineMap.MarkedIsMarkedLook | src/map/MineMap.java:198-207 | a cell is marked iff look shows MARKED |
| Board.MineMap.OpenedIsCountLook | src/map/MineMap.java:198-207 | a cell is a probed safe cell iff look shows a count |
| Board.MineMap.MinesAround | src/map/MineMap.java:39-51 | on a sound board, the mines around a cell are its marked neighbours plus the mines among its unknown ones |
| Board.MineMap.Probe | src/map/MineMap.java:169-182 | look on a finished game, OUT_OF_BOUNDS off the board, MARKED on a marked cell; otherwise the cell stops being unprobed and BOOM ends the game or the count sets probed; the invariants are kept |
| Board.MineMap.Uncover | src/map/MineMap.java:176-181 | the last lines of probe: only this cell changes; BOOM and finished on a mine, else the count |
| Board.MineMap.Explode | src/map/MineMap.java:176-178 | probing a mine: only this cell stops being unprobed, the game is finished, the counter and probed flag stay |
| Board.MineMap.Open | src/map/MineMap.java:176-180 | probing a safe cell: only this cell stops being unprobed, it joins the opened cells, probed is set and a sound game stays sound |
| Board.MineMap.HiddenMines | src/map/MineMap.java:35 | on a sound board, mines_minus_marks counts the mines among the unknown cells |
| Board.MineMap.MarkedIsRest | src/map/MineMap.java:47-51 | in a sound game in progress, the marked cells are exactly those neither unknown nor opened |
| Board.MineMap.Mark | src/map/MineMap.java:223-237 | look on a finished game, OUT_OF_BOUNDS off the board, MARKED and unchanged on a marked cell, the count on a probed one; on an unprobed cell sets its mark and decrements the counter |
| Board.MineMap.Unmark | src/map/MineMap.java:254-268 | look on a finished game, OUT_OF_BOUNDS off the board; on a marked cell clears the mark, increments the counter and returns UNPROBED; otherwise changes nothing |
| Board.MineMap.ClearMark | src/map/MineMap.java:259-263 | the marked case of unmark: exactly this mark is cleared, the counter goes up by one, the cell returns to the unknown ones |
| Board.MineMap.MarkThenUnmark | src/map/MineMap.java:223-268 | mark followed by unmark on an unknown cell restores the mark grid, the counter and the cell sets |
| Board.MineMap.Done | src/map/MineMap.java:136-146 | true iff already finished or every cell is unprobed exactly when it is a mine; only the latter path sets victory |
| SinglePoint.UnknownsNear | src/sp/SinglePointStrategy.java:109-116 | the number of unknown cells in the 3x3 window |
| SinglePoint.MarksNear | src/sp/SinglePointStrategy.java:118-125 | the number of marked cells in the 3x3 window |
| SinglePoint.CountRow | src/sp/SinglePointStrategy.java:111-114 | one row of the window loops counts the cells showing the code |
| SinglePoint.AdjoinAround | src/sp/SinglePointStrategy.java:157-163 | the work set gains exactly the opened cells of the 5x5 window and stays a set |
| SinglePoint.AdjoinRow | src/sp/SinglePointStrategy.java:158-161 | one row of adjoin_around adds exactly that row's opened cells |
| SinglePoint.ProbeAround | src/sp/SinglePointStrategy.java:131-140 | with no hidden mine in the window, the unknown cells of the window are probed, no mine is hit, and the opened cells of the 5x5 window are adjoined |
| SinglePoint.ProbeWindow | src/sp/SinglePointStrategy.java:132-137 | the window's unknown cells leave the unknown set, the marks stay, the board stays sound |
| SinglePoint.ProbeWindowRow | src/sp/SinglePointStrategy.java:132-137 | one row of the window is probed |
| SinglePoint.ProbeRow | src/sp/SinglePointStrategy.java:133-137 | the unknown cells of the row are probed without hitting a mine |
| SinglePoint.ProbeIfUnknown | src/sp/SinglePointStrategy.java:134-137 | a cell showing UNPROBED is probed safely; any other cell is left alone |
| SinglePoint.ProbeCell | src/sp/SinglePointStrategy.java:135 | probing a safe unknown cell removes it from the unknown cells and keeps the board sound |
| SinglePoint.MarkAround | src/sp/SinglePointStrategy.java:146-155 | with only mines among the window's unknown cells, they become marked, and the opened cells of the 5x5 window are adjoined |
| SinglePoint.MarkWindow | src/sp/SinglePointStrategy.java:147-152 | the marked cells grow by exactly the window's unknown cells |
| SinglePoint.MarkWindowRow | src/sp/SinglePointStrategy.java:147-152 | one row of the window is marked |
| SinglePoint.MarkRow | src/sp/SinglePointStrategy.java:148-152 | the unknown cells of the row are marked, all of them mines |
| SinglePoint.MarkIfUnknown | src/sp/SinglePointStrategy.java:149-152 | a cell showing UNPROBED is marked; any other cell is left alone |
| SinglePoint.Play | src/sp/SinglePointStrategy.java:64-82 | Won iff the board reports won; Lost only by a guess on a mine; on every outcome each mark is on a mine |
| SinglePoint.Apply | src/sp/SinglePointStrategy.java:87-107 | apply keeps the board sound, unknown cells only shrink and marks only grow; when it returns, the rule is Skip at the start cell and at every cell whose 3x3 window lost an unknown cell, so no cell the loop touched could still act |
| SinglePoint.Infer | src/sp/SinglePointStrategy.java:91-105 | one pass at (i, j): on Skip nothing changes; on ProbeAll the window's unknown cells leave the unknown set and the marks stay; on MarkAll those cells also join the marks; when it acts, the work set gains exactly the opened cells of the 5x5 window |
| SinglePoint.Decide | src/sp/SinglePointStrategy.java:95-103 | the move is exactly Rule(i, j): skip unless the cell shows a count and has unknown neighbours, probe when count - marks == 0, mark when count - marks == unknowns; probing only with no hidden mine near, marking only when all unknown neighbours are mines |
| SinglePoint.RuleSound | src/sp/SinglePointStrategy.java:95-103 | on a sound board the rule acts only with an unknown neighbour, probes only where no unknown neighbour is a mine, and marks only where all are |
| SinglePoint.PassKeepsQuiet | src/sp/SinglePointStrategy.java:91-105 | a pass of the loop at p0, whatever the rule decides there, leaves every cell outside the new work set quiet: it cannot act, if it is the start cell or lost an unknown neighbour |
| SinglePoint.ActKeepsQuiet | src/sp/SinglePointStrategy.java:91-105 | after probing or marking around p0, every cell outside the new work set is still quiet: it cannot act, if it is the start cell or lost an unknown neighbour |
| SinglePoint.QuietKept | src/sp/SinglePointStrategy.java:95-103 | a cell whose window misses the changed cells stays quiet |
| SinglePoint.RuleKept | src/sp/SinglePointStrategy.java:95-103 | the rule at a cell depends only on its window: outside changes leave it as it was |
| SinglePoint.ProbeStep | src/sp/SinglePointStrategy.java:99-101 | the window's unknown cells leave the unknown set, the marks are unchanged, the unknown set strictly shrinks, and the work set gains exactly the opened cells of the 5x5 window |
| SinglePoint.MarkStep | src/sp/SinglePointStrategy.java:102-103 | the window's unknown cells leave the unknown set and join the marks, the unknown set strictly shrinks, and the work set gains exactly the opened cells of the 5x5 window |
| SinglePoint.Deduce | src/sp/SinglePointStrategy.java:96-103 | count - marks == 0 means no hidden mine nearby; count - marks == u means every unknown neighbour is a mine |
| Mio.FirstDecided | src/eqn/MioStrategy.java:152-168 | the first equation with constant 0 or constant equal to its size, or none iff there is no such equation |
| Mio.FindDecided | src/eqn/MioStrategy.java:154-167 | the loop of single_equation_rule stops at FirstDecided |
| Mio.MioStrategy.At | src/eqn/MioStrategy.java:360-362 | at(p) is a set holding exactly the stored equations that mention p |
| Mio.MioStrategy.Member | src/eqn/MioStrategy.java:364-368 | member is true iff e is stored; an equation without points never is |
| Mio.MioStrategy.Adjoin | src/eqn/MioStrategy.java:370-378 | the stored equations grow by e (not when e has no points); the index invariant is kept |
| Mio.MioStrategy.AdjoinStep | src/eqn/MioStrategy.java:372-377 | e joins the bucket of its k-th point and no other bucket changes |
| Mio.MioStrategy.Remove | src/eqn/MioStrategy.java:380-388 | the stored equations lose e; the index invariant is kept |
| Mio.MioStrategy.RemoveStep | src/eqn/MioStrategy.java:382-387 | e leaves the bucket of its k-th point and no other bucket changes |
| Mio.MioStrategy.RemoveAt | src/eqn/MioStrategy.java:311-316 | every equation mentioning p is dropped, no other, and at(p) is empty after |
| Mio.MioStrategy.UnknownsNear | src/eqn/MioStrategy.java:338-346 | the set of unknown cells of the 3x3 window |
| Mio.MioStrategy.UnknownRow | src/eqn/MioStrategy.java:342-344 | one row of unknowns_near adds exactly that row's unknown cells |
| Mio.MioStrategy.MarksNear | src/eqn/MioStrategy.java:348-356 | the number of marked cells of the 3x3 window |
| Mio.MioStrategy.UnknownPoints | src/eqn/MioStrategy.java:117-127 | the set of all unknown cells |
| Mio.MioStrategy.UnknownRowDown | src/eqn/MioStrategy.java:123-125 | one row, right to left, adds exactly its unknown cells |
| Mio.MioStrategy.AdjoinIfUnknown | src/eqn/MioStrategy.java:124-125 | the cell joins the sorted set exactly when it is unknown |
| Mio.MioStrategy.UnknownCount | src/eqn/MioStrategy.java:129-139 | the number of unknown cells, the card of unknown_points |
| Mio.MioStrategy.CountRowDown | src/eqn/MioStrategy.java:135-137 | one row, right to left, counts its unknown cells |
| Mio.MioStrategy.ProbePoints | src/eqn/MioStrategy.java:273-292 | probing the safe cells ps0 in turn: exactly they leave the unknown cells and the marks stay; the equations held become ProbedEqns (for each cell: settle 0 = p, then adjoin its count equation over the neighbours still unknown) and the worklist gains exactly ProbedQueue (the cells of each newly derived equation and of each count equation); every invariant is kept |
| Mio.MioStrategy.ProbeNext | src/eqn/MioStrategy.java:274-291 | one pass of the loop takes the first cell off the list and out of the unknown cells and advances the ProbedEqns and ProbedQueue folds by that cell |
| Mio.ProbedQueueNeighbours | src/eqn/MioStrategy.java:274-290 | every probed cell's unknown neighbours, as they are once it and the cells before it are probed, are among the queued cells |
| Mio.MioStrategy.ProbeOne | src/eqn/MioStrategy.java:276-290 | one round: p leaves the unknown cells and the marks stay; the equations become SettledEqns(old, p, 0) with the count equation of p over the cells still unknown adjoined (unless it has no cells); the worklist gains exactly the cells of the newly derived equations and of the count equation |
| Mio.MioStrategy.ProbeSafe | src/eqn/MioStrategy.java:277 | the probe of a safe cell returns its adjacent mine count |
| Mio.MioStrategy.Settle | src/eqn/MioStrategy.java:283-285 | the equations become exactly: the old ones plus c = p, plus the subset rule's derivations at p, less every equation that mentions p (SettledEqns); the worklist gains exactly the cells of the newly derived ones; the equations stay true and over the remaining cells |
| Mio.SettleReduces | src/eqn/MioStrategy.java:283-285 | settling c = p replaces each equation at p that has another cell and a constant of at least c by its reduct: p removed, c taken off |
| Mio.MioStrategy.Learned | src/eqn/MioStrategy.java:281-290 | the board is unchanged; the adjoined equation is the count equation of p (NearFact); the equations become SettledEqns(old, p, 0) with it adjoined, and the worklist gains the settled derivations' cells and its cells |
| Mio.MioStrategy.AdjoinNear | src/eqn/MioStrategy.java:287-290 | the stored equations gain exactly the count equation of p (q less the marks around p, over the unknown cells around p), unless it has no cells, and the worklist becomes its union with that equation's cells |
| Mio.NearCellsSet | src/eqn/MioStrategy.java:338-346 | the unknown neighbours as unknowns_near collects them form a sorted set of exactly the unknown cells of the 3x3 window |
| Mio.WindowListSet | src/eqn/MioStrategy.java:341-345 | the window scanned row by row is sorted and holds exactly the 3x3 window |
| Mio.KeepSorted | src/eqn/MioStrategy.java:342-344 | keeping the unknown cells of a sorted scan leaves a sorted list of exactly the scanned unknown cells |
| Mio.CountEqnIs | src/eqn/MioStrategy.java:287-290 | the count equation NearFact describes is CountEqnAt: the mines around p less the marks around p, over the unknown cells around p |
| Mio.MioStrategy.NearEqn | src/eqn/MioStrategy.java:288-289 | the equation q - marks_near = unknowns_near is exactly the count equation of p (NearFact) and is true of the mine layout |
| Mio.MioStrategy.MarkPoints | src/eqn/MioStrategy.java:294-308 | marking the mines ps0 in turn: exactly they join the marks and leave the unknown cells; the equations become MarkedEqns (each cell settled with 1 = p) and the worklist gains exactly MarkedQueue (the cells of each newly derived equation); every invariant is kept |
| Mio.MioStrategy.MarkNext | src/eqn/MioStrategy.java:295-307 | one pass of the loop takes the first cell off the list and out of the unknown cells and advances the MarkedEqns and MarkedQueue folds by that cell |
| Mio.MioStrategy.MarkOne | src/eqn/MioStrategy.java:297-306 | one round: p leaves the unknown cells; the equations become SettledEqns(old, p, 1) and the worklist gains exactly SettledQueue(old, p, 1); every invariant is kept |
| Mio.MioStrategy.MarkMine | src/eqn/MioStrategy.java:298 | marking a mine keeps the game sound and removes it from the unknown cells |
| Mio.MioStrategy.SubsetRule | src/eqn/MioStrategy.java:180-201 | the stored equations become exactly the old ones plus c1 - c0 = P1 - P0 for every nested pair (c0 = P0, c1 = P1) at p; the worklist gains exactly the cells of the equations that were new; so every nested pair is derived |
| Mio.MioStrategy.SubsetRow | src/eqn/MioStrategy.java:186-199 | the stored equations gain exactly the differences of the pairs (e0, e1) that are nested, for e1 in the row; the worklist gains exactly the cells of the new ones |
| Mio.MioStrategy.SubsetPair | src/eqn/MioStrategy.java:187-198 | when (e0, e1) is nested and c1 - c0 = P1 - P0 is not stored yet, it is stored and its cells are queued; otherwise the equations and the worklist are unchanged |
| Mio.DerivationsStep | src/eqn/MioStrategy.java:187-198 | pairing e0 with one more equation e1 derives exactly one more equation if they are nested, none otherwise |
| Mio.DerivationsSplit | src/eqn/MioStrategy.java:184-199 | the derivations of one more first equation add exactly its own |
| Mio.DerivationsDerive | src/eqn/MioStrategy.java:180-201 | a map holding all the derivations of xs by ys has every pair of them derived |
| Mio.SubsetNextSets | src/eqn/MioStrategy.java:186-199 | one more pair of the inner loop keeps the equations as the old ones plus the derivations so far and the worklist as the old one plus their cells |
| Mio.SubsetRowSets | src/eqn/MioStrategy.java:184-199 | one more row of the outer loop keeps the same two facts |
| Mio.MioStrategy.SubsetNext | src/eqn/MioStrategy.java:186-199 | one pass of the inner loop advances the derivations by one pair |
| Mio.MioStrategy.SubsetRowNext | src/eqn/MioStrategy.java:184-199 | one pass of the outer loop advances the derivations by one row |
| Mio.MioStrategy.DerivedHolds | src/eqn/MioStrategy.java:190-192 | the subset rule's equation of a nested pair of true equations is true, not empty and storable, over cells of P1 |
| Mio.MioStrategy.Learn | src/eqn/MioStrategy.java:194-196 | adjoin plus queueing: the equation is stored and the worklist is the union with its cells |
| Mio.MioStrategy.SingleEquationRule | src/eqn/MioStrategy.java:152-168 | the first decided equation at p has its cells probed (constant 0) or marked (constant = size), and nothing else changes on the board; the equations and the worklist become exactly those probe_points or mark_points leave (RuleEqns, RuleQueue); with no decided equation nothing changes |
| Mio.MioStrategy.Decide | src/eqn/MioStrategy.java:159-166 | probing or marking the decided equation's cells, with the equations and worklist RuleEqns and RuleQueue give |
| Mio.MioStrategy.EqnDiffRule | src/eqn/MioStrategy.java:228-271 | the difference rules keep every invariant: each mark is on a mine, each probe is safe |
| Mio.MioStrategy.DiffRow | src/eqn/MioStrategy.java:234-269 | e0 against each equation of the row keeps every invariant |
| Mio.MioStrategy.DiffPair | src/eqn/MioStrategy.java:235-268 | when c1 - c0 > 0 equals \|P1 - P0\|, P1 - P0 is marked and P0 - P1 probed, and the equations and worklist become DecidedEqns and DecidedQueue of those sets; when c1 - c0 > 1 otherwise, the double elimination over the equations es2 touching P1 - P0 marks and probes exactly what each one that fires gives, and the equations and worklist are the folds ElimEqnsOver and ElimQueueOver over es2; otherwise nothing changes; every invariant is kept |
| Mio.MioStrategy.DiffMark | src/eqn/MioStrategy.java:241-244 | the marks grow by exactly P1 - P0, the unknown cells lose P1 - P0 and P0 - P1, the equations and worklist are those mark_points then probe_points leave (DecidedEqns, DecidedQueue), and every invariant is kept |
| Mio.MioStrategy.DoubleElim | src/eqn/MioStrategy.java:245-267 | es2 is the set of stored equations touching P1 - P0; the marks grow by exactly the union of (P1 - P0) - P2 over those e2 on which the rule fires; the unknown cells lose those and the probed cells ((P0 + P2) - P1) + P0 * P2; the equations and worklist are the folds ElimEqnsOver and ElimQueueOver over es2; every invariant is kept |
| Mio.MioStrategy.EqnsNear | src/eqn/MioStrategy.java:246-251 | es2 is a set holding exactly the stored equations that use a cell of d |
| Mio.MioStrategy.MarkThenProbe | src/eqn/MioStrategy.java:242-243 | the marks grow by exactly the mark set, the unknown cells lose both sets, and the equations and worklist become DecidedEqns and DecidedQueue: those mark_points of the marks leaves, then probe_points of the probes from there |
| Mio.MioStrategy.DoubleStep | src/eqn/MioStrategy.java:254-265 | when c1 - c0 - c2 > 0 equals \|(P1 - P0) - P2\|, exactly (P1 - P0) - P2 is marked and ((P0 + P2) - P1) + P0 * P2 probed, with the equations and worklist DecidedEqns and DecidedQueue of those sets; otherwise the equations, worklist, marks and unknown cells are unchanged |
| Mio.MioStrategy.ElimMark | src/eqn/MioStrategy.java:258-264 | when the rule fires on (e0, e1, e2), exactly (P1 - P0) - P2 is marked and ((P0 + P2) - P1) + P0 * P2 probed, the equations and worklist become DecidedEqns and DecidedQueue of those sets, keeping every invariant |
| Mio.MioStrategy.DoubleLoop | src/eqn/MioStrategy.java:252-266 | the loop over es2 marks and probes exactly the union of what each equation of es2 that fires gives (ElimDone), and leaves the equations and worklist that the folds ElimEqnsOver and ElimQueueOver give, each equation on the board the earlier ones left |
| Mio.MioStrategy.ElimRun | src/eqn/MioStrategy.java:252-266 | from the loop state before any third equation, the loop ends in ElimDone: the union of the marks and probes of es2, with the equations and worklist the folds give |
| Mio.ElimEqnsStep | src/eqn/MioStrategy.java:253-266 | the ElimEqnsOver fold over es2 is the fold over es2[1..] from the equations the first third equation leaves |
| Mio.ElimQueueStep | src/eqn/MioStrategy.java:253-266 | the ElimQueueOver fold over es2 is the first third equation's queue plus the fold over es2[1..] from there |
| Mio.MioStrategy.DoubleNext | src/eqn/MioStrategy.java:253-266 | one pass of the loop adds exactly the third equation\'s marks and probes, if it fires, and keeps the folds over the rest leading to the same equations and worklist (ElimLoop) |
| Mio.ElimMarksStep | src/eqn/MioStrategy.java:254-265 | the marks over one more third equation are the old ones plus its (P1 - P0) - P2 if it fires |
| Mio.ElimProbesStep | src/eqn/MioStrategy.java:254-265 | the probes over one more third equation are the old ones plus its probed cells if it fires |
| Mio.ElimNextSets | src/eqn/MioStrategy.java:253-266 | the marked and unknown cells after one more pass follow the union over the equations done |
| Mio.MioStrategy.Store | src/eqn/MioStrategy.java:333-334 | a true equation over known-good cells is stored without touching the worklist |
| Mio.MioStrategy.AddGlobal | src/eqn/MioStrategy.java:96-105 | once per game, at no more than 8 unknown cells, the worklist becomes the unknown cells and the mines-minus-marks equation is stored; otherwise nothing changes |
| Mio.MioStrategy.GlobalEqn | src/eqn/MioStrategy.java:99-103 | the global equation over the unknown cells, with the mine count among them |
| Mio.MioStrategy.InitEqnMap | src/eqn/MioStrategy.java:318-336 | a fresh index holding exactly the count equations of the opened cells that have an unknown neighbour, all true and over unknown cells |
| Mio.MioStrategy.InitRow | src/eqn/MioStrategy.java:329-335 | one row of the second pass adds exactly the count equations of that row's opened cells |
| Mio.MioStrategy.InitRows | src/eqn/MioStrategy.java:329-335 | the second pass over an empty map stores exactly the count equations of every opened cell with an unknown neighbour |
| Mio.MioStrategy.InitCell | src/eqn/MioStrategy.java:331-334 | an opened cell adds exactly its count equation (if it has cells), any other cell nothing |
| Mio.NearFactUnique | src/eqn/MioStrategy.java:333-334 | a cell's count gives one equation only |
| Mio.OneCountEqn | src/eqn/MioStrategy.java:333-334 | adjoining the count equation of p adds exactly the count equations of p |
| Mio.CellsGrow | src/eqn/MioStrategy.java:330-335 | the count equations of cells 0..x-1 and of cell x are those of cells 0..x |
| Mio.RowsGrow | src/eqn/MioStrategy.java:329-335 | the count equations of rows 0..y-1 and of row y are those of rows 0..y |
| Mio.AllRows | src/eqn/MioStrategy.java:329-335 | after every row, the equations held are the count equations of every cell |
| Mio.MioStrategy.Prob | src/eqn/MioStrategy.java:445-462 | the loop computes CellProb: the largest c / \|P\| at the cell, or prob0 or 1 |
| Mio.MaxProb | src/eqn/MioStrategy.java:454-460 | at least p and every equation's probability, and equal to one of them |
| Mio.MaxProbBounds | src/eqn/MioStrategy.java:454-460 | the maximum of probabilities is a probability |
| Mio.MioStrategy.KnownCellProb | src/eqn/MioStrategy.java:447-451 | a known cell has probability 1 |
| Mio.MioStrategy.CellProbBounds | src/eqn/MioStrategy.java:445-462 | every cell's probability lies in [0, 1] |
| Mio.MioStrategy.Prob0Bounds | src/eqn/MioStrategy.java:417 | prob0 lies in [0, 1] in a sound game in progress |
| Mio.PickStart | src/eqn/MioStrategy.java:413-422 | the starting point is element Draw(n, random) of the unknown cells, that is element floor(n * random) |
| Mio.Draw | src/map/MineMap.java:114-115 | the index drawn among n cells lies in [0, n) |
| Mio.FloorBelow | src/map/MineMap.java:114-115 | floor(n * random) lies in [0, n) |
| Mio.Rotated | src/eqn/MioStrategy.java:428-431 | the scanned cell is on the board |
| Mio.ScanCovers | src/eqn/MioStrategy.java:428-439 | the rotated scan visits every cell of the board |
| Mio.MioStrategy.ChoosePoint | src/eqn/MioStrategy.java:409-439 | none iff no cell is unknown; else an unknown cell whose probability is least over the board (LeastProb) |
| Mio.MioStrategy.ChooseFrom | src/eqn/MioStrategy.java:422-439 | an unknown cell of least probability |
| Mio.MioStrategy.ScanBoard | src/eqn/MioStrategy.java:428-439 | the scan's result is at or below every cell's probability |
| Mio.MioStrategy.ScanRow | src/eqn/MioStrategy.java:430-438 | after a row the best is at or below every cell of that row |
| Mio.MioStrategy.Tap | src/eqn/MioStrategy.java:464-477 | BOOM iff p is a mine (game over), and then the equations and worklist are unchanged; otherwise the count, the invariants hold, p leaves the unknown cells, and the equations and worklist are exactly those probe_points of [p] leaves (ProbedEqns, ProbedQueue) |
| Mio.MioStrategy.ProbeTapped | src/eqn/MioStrategy.java:474-475 | probe_points of the cell just tapped: it leaves the unknown cells, the marks stay, every invariant is kept, and the equations and worklist are ProbedEqns and ProbedQueue of [p] |
| Mio.MioStrategy.Choose | src/eqn/MioStrategy.java:409-442 | the cell tapped (pick) is none iff no cell is unknown, and then 0 is returned and nothing changes; otherwise it is an unknown cell of least probability (LeastProb), it leaves the unknown cells, BOOM is returned iff it is a mine (then only the board changes), and otherwise the equations and worklist are ProbedEqns and ProbedQueue of [pick]; only this guess can break soundness |
| Mio.MioStrategy.Step | src/eqn/MioStrategy.java:86-105 | one pass of the inner loop keeps every invariant |
| Mio.MioStrategy.SubsetAt | src/eqn/MioStrategy.java:92 | subset_rule(p) on the equations held: they gain exactly the derivations of the nested pairs at p (Subsumed), the worklist gains exactly the new equations' cells, and the board is unchanged |
| Mio.MioStrategy.Start | src/eqn/MioStrategy.java:77-80 | a fresh valid index, empty worklist, no global equation |
| Mio.MioStrategy.Turn | src/eqn/MioStrategy.java:83-106 | one outer turn ends the game only by a losing guess or lack of fuel; the guess is none iff no cell was unknown, else an unknown cell of least probability; the turn is Lost iff the guessed cell is a mine; a turn that does not end leaves the worklist empty |
| Mio.MioStrategy.Drain | src/eqn/MioStrategy.java:85-106 | the inner loop keeps every invariant and empties the worklist unless fuel runs out |
| Mio.MioStrategy.Play | src/eqn/MioStrategy.java:76-115 | Lost iff the board is no longer sound; every mark is on a mine; Finished means the game ended, won if it was not over at the start |
| State.SnapshotsEqualIffSameView | src/state/LocalState.java:20-57 | two snapshots are equal iff the boards look the same around both centres, the centre excepted |
| State.FillWindow | src/state/LocalState.java:24-40 | a fresh grid holding the look at each window cell, 0 at the centre |
| State.FillRow | src/state/LocalState.java:29-38 | one row of the window is filled and nothing else changes |
| State.SameOffCentreScan | src/state/LocalState.java:43-57 | the loops of equals answer whether the grids agree off the centre |
| State.LocalState.constructor | src/state/LocalState.java:20-41 | the snapshot of the window with count 1 and the other counters 0 |
| State.LocalState.Equals | src/state/LocalState.java:43-57 | true iff the grids agree everywhere but the centre |
| State.WrittenInBoundsIffSquare | src/state/GameState.java:17-23 | the writes as indexed stay in the array iff the board is square or empty |
| State.WrittenOutOfBoundsOnExpert | src/state/GameState.java:17-23 | on a 16 x 30 board they do not |
| State.GameState.constructor | src/state/GameState.java:14-24 | a fresh grid, allocated [columns][rows], whose element [y][x] holds look(y, x) for every cell, with count 1 |
| State.CorrectedWritesInBounds | src/state/GameState.java:17-23 | with the allocation [columns][rows], every write [y][x] of the loops stays in the array, whatever the board's shape |
| State.GameState.Equals | src/state/GameState.java:26-35 | true iff element [y][x] agrees for every x below rows and y below columns |
| State.GameStatesEqualIffSameLooks | src/state/GameState.java:26-35 | two snapshots of same-shaped boards are equal iff every cell looks the same |
| QLearner.ActionResult.constructor | src/qlearner/ActionResult.java:26-46 | the snapshot of the window, with centre (size - 1) / 2, count 1 and the other counters 0 |
| QLearner.NewActionResult | src/qlearner/ActionResult.java:21-46 | throws iff size is even or negative, with the matching exception; otherwise as the constructor |
| QLearner.ActionResult.Equals | src/qlearner/ActionResult.java:52-65 | true iff the windows agree everywhere but the centre |
| QLearner.ActionResult.Tally | src/qlearner/ActionHistory.java:56-62 | exactly one of bombed, marked, empty goes up, by the result |
| QLearner.FirstSame | src/qlearner/ActionHistory.java:32-36 | the index of the first stored result equal to s; none iff none is |
| QLearner.ActionHistory.constructor | src/qlearner/ActionHistory.java:24-27 | empty lists, the given size and flag |
| QLearner.ActionHistory.IndexOfSame | src/qlearner/ActionHistory.java:47-54 | the loop stops at FirstSame |
| QLearner.ActionHistory.GetExistingAction | src/qlearner/ActionHistory.java:29-39 | the first equal stored result, or none iff no stored result is equal |
| QLearner.ActionHistory.SaveAction | src/qlearner/ActionHistory.java:41-82 | with an equal entry, its count goes up and the lists stay; otherwise the snapshot is appended to both lists; one counter goes up on the chosen entry; every other entry is unchanged |
| Pgms.Percent | src/map/PGMS.java:197-199 | 100 n / d rounded half up: 2dp - d <= 200n < 2dp + d, and non-negative for n >= 0 |
| Pgms.PercentOfNone | src/map/PGMS.java:197-199 | percent(0, d) == 0 |
| Pgms.PercentOfAll | src/map/PGMS.java:197-199 | percent(d, d) == 100 |
| Pgms.PercentMonotone | src/map/PGMS.java:197-199 | percent is non-decreasing in n |
| Pgms.PercentAtMostHundred | src/map/PGMS.java:197-199 | for 0 <= n <= d, percent lies in [0, 100] |
| Pgms.Unique | src/map/PGMS.java:197-199 | the rounding bounds determine percent uniquely |

## Left out

- Random draws become parameters. The mine layout is a constructor argument, `pick` takes
  the raw draw, and both `play` loops take their draws as a sequence. `Math.random` is
  not part of this model.
- Mio.MioStrategy.Play: the game is cut short when the draws run out or after `fuel`
  passes of the inner loop. Termination of the Java loops is not proved.
- SinglePoint.Play: the game ends with OutOfPicks when the supplied draws run out.
- Mio.MioStrategy.Prob: `float` probabilities are modelled as exact reals. Float
  rounding can make a different cell look least in the Java code.
- Mio.MioStrategy.EqnDiffRule: it is proved to keep every invariant, so each mark is on
  a mine and each probe is safe, and the marks only grow. Which cells it marks and
  probes is stated per pair (Mio.MioStrategy.DiffPair), not over the whole loop. That
  set depends on the equations held after the earlier pairs, and those pairs change
  them.
- Mio.MioStrategy.DiffRow: the same as EqnDiffRule, for one row of pairs.
- Mio.MioStrategy.Step: it is proved to keep every invariant. The exact effect on the
  equations and the worklist is stated for each rule it applies (SingleEquationRule,
  SubsetAt, AddGlobal), but not composed into one contract. The difference rule sits in
  the middle of the pass and has no exact contract of its own (see EqnDiffRule).
- Mio.MioStrategy.Drain: it is proved to keep every invariant, to take no more passes
  than `fuel` and to leave the worklist empty unless the fuel runs out. Its effect on
  the equations, the marks and the unknown cells is not stated: each pass is a Step,
  whose exact effect is not composed (see Step).
- Mio.MioStrategy.Turn: the guess is stated exactly, through Choose: which cell, and
  whether it hits a mine. What the rules then do over the worklist is not stated beyond
  the invariants and the empty worklist (see Drain).
- SinglePoint.Apply: the final board is given as a fixed point. The rule skips at the
  start cell and at every cell whose window lost an unknown cell, and the unknown cells
  only shrink while the marks only grow. No closed form of the cells probed and marked
  is stated: they come from applying the rule until the work set is empty.
- Mio.MioStrategy.ChoosePoint: the returned cell is one of least probability. The
  tie-breaking (the first least cell in the rotated scan) is computed but not stated.
- `em = null` at the end of `play` is not modelled, since nothing reads it afterwards.
- Console output is not modelled:
  - `display` in `MineMap`, `Eqn`, `Point` and `MioStrategy`;
  - the debug `messages` of `MioStrategy`;
  - `print` of the snapshot classes;
  - the debug log of `saveAction`.
- File I/O is not modelled: `saveToCsv`, `loadFromCsv` and `saveLocalStatesToFile`.
- `saveLocalState` and `saveState` of `SinglePointStrategy` are not modelled: they
  print and store snapshots, which the game never reads.
- The `saveAction` calls inside `SinglePointStrategy.play`, `probe_around` and
  `mark_around` are no-ops here. The history they write to (`PGMS.actionHistory3x3`) is
  not part of this model, and the game never reads it.
- QLearner.ActionHistory.SaveAction and QLearner.ActionHistory.GetExistingAction take
  the fresh snapshot as a parameter.
  - `ActionHistory` builds it with a five-argument `ActionResult` constructor that is
    not part of this model.
  - The parameter must not be stored already, which holds for any freshly built snapshot.
- `getBombProbability` (a `double` division) is not modelled.
- State.LocalState.constructor: requires size >= 1.
  - A negative size throws `NegativeArraySizeException` in Java.
  - A size of 0 throws `ArrayIndexOutOfBoundsException` at the first write.
  - These exception paths are not modelled.
  - Even sizes of 2 or more are modelled: the unfilled part of the grid stays 0.
- QLearner.ActionResult.constructor: requires an odd size >= 1. The exception cases are
  modelled by QLearner.NewActionResult.
- Sets.First and Sets.ButFirst: require a non-empty set. On an empty set the Java
  methods return `null`, which the model does not represent.
- Pgms.Percent: requires d >= 1, which both callers in `PGMS` guarantee. The 32-bit
  overflow of `200 * n` is not modelled; it needs more than ten million games.
- Board.MineMap.Look and Board.MineMap.Probe: `int` coordinates are unbounded. No
  overflow arises for board sizes the game can allocate.
- Element identity and mutability are not modelled. `Element.same` is Dafny equality,
  and elements are values, so immutability and determinism hold by construction.
  `Point.same` and `Eqn.same` are shown to coincide with equality.
- A `null` or foreign-class argument to `same` and `less` cannot be expressed, since the
  model is typed. This applies to `Point`, `Eqn` and `Set`.
- `ElementComparisonException` and the `Strategy` interface are not modelled.
- `rows()` and `columns()` are not modelled separately: they are the fields `r` and `c`.

## Findings

| source | as written | input that shows it | evidently intended | confidence | as-written member | corrected member |
|---|---|---|---|---|---|---|
| src/map/MineMap.java:78-88 | the constructor punts only when mines / 2 >= rows * columns | 5 mines on a 2 x 2 board: the guard lets it through and the placement loop can never place 5 distinct mines, so it never ends | punt also whenever mines > rows * columns, keeping the written guard everywhere else | medium, not executed | Board.PuntsAsWrittenAdmitsOverfull | Board.Punts |
| src/state/GameState.java:17-23 | `state` is allocated [rows][columns] but written as state[y][x] with x < rows and y < columns | a 16 x 30 board: the first write with y = 16 is outside the 16-row array | allocate new int[columns][rows]: equals and print index [y][x] over the same ranges, so this one change makes all three correct | high, not executed | State.WrittenOutOfBoundsOnExpert | State.GameState.constructor |
