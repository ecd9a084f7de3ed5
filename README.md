# 8-puzzle A* solver, modelled in Dafny

This project models the solver core of `Puzzle8.py`. The core is the board
state `EstadoPuzzle8` and the A* search `SolucionadorPuzzle8`.

- **`Tiles` (tiles.dfy)** holds boards, moves and the heuristic as values.
  - A `Board` is a sequence of nine integers that holds each value 0..8. The value 0 is the blank.
  - The Manhattan heuristic is the sum of the tile distances.
  - The legal moves of a blank position come in the program's order: ARRIBA, ABAJO, IZQUIERDA, DERECHA. They are modelled as the datatype `Move` = `Up | Down | Left | Right`.
  - `Step` is one move on a board and `Run` is a sequence of moves.
- **`Puzzle8` (state.dfy)** holds `EstadoPuzzle8` as the class `State`.
  - Its fields never change after construction, so they are `const`: board, parent reference, move label, depth g(n) and cached blank index.
  - `Valid()` says that the parent links form a chain back to a root. Each link is one legal move.
  - `Heuristic`, `PossibleMoves` and `MakeMove` are methods that mirror the program's loops and its in-place swap on a copied board. Each is proved against the value-level definitions in `Tiles`.
- **`AStar` (solver.dfy)** holds `SolucionadorPuzzle8`.
  - The heap pop becomes `PopMin`, which removes an entry of minimal f(n).
  - The closed set is a set of boards.
  - `Solve` follows `resolver` line by line. `Reconstruct` follows `_reconstruir_camino`.
  - The search invariant `SearchInv` is kept by one lemma per kind of step:
    - skipping an entry whose board is already closed;
    - closing the popped board;
    - pushing the successors of the popped board.
  - From that invariant the model proves:
    - the count of explored states is the number of distinct closed boards;
    - a returned path replays from the root to the goal;
    - every closed board is reachable from the initial board;
    - a returned path from a root reaches the goal at its last move and not before;
    - an empty frontier means the closed boards are exactly the boards reachable from the initial board, so no sequence of moves leads to the goal.

The value-level functions are the specifications the program's loops are proved against:
- `TileDistance` and `Manhattan` specify `Heuristic`;
- `LegalMoves` specifies `PossibleMoves`;
- `Step` specifies `MakeMove`;
- `Run` (a sequence of `Step`s) specifies the replay of a path;
- `FreshSuccessors` (the successor boards that are not closed, in move order) specifies what `PushSuccessors` pushes;
- `Reachable` (some `Run` gets there) specifies what the search explores.

Boards and moves are values. States are objects linked by `parent` references, as in the program. The program's `//` and `%` are applied only to non-negative positions and to `tile - 1` with tile ≥ 1, so they agree with Dafny's `/` and `%`.

## Model

| member | source | states |
|---|---|---|
| Tiles.BlankIndex | Puzzle8.py:13 | `list.index(0)`: the first index holding 0 |
| Tiles.BlankUnique | Puzzle8.py:13 | on a board, a cell holding 0 is the cached blank index |
| Tiles.BoardDistinct | Puzzle8.py:8-13 | a board (each of 0..8 present among nine cells) has no repeated value |
| Tiles.ManhattanUpTo | Puzzle8.py:31-39 | the partial sum of tile distances over the first n cells is never negative |
| Tiles.Manhattan | Puzzle8.py:30-40 | the heuristic h(n) is never negative |
| Tiles.TileDistanceZero | Puzzle8.py:35-39 | tile v at position i contributes 0 exactly when i is its goal position v - 1 |
| Tiles.ManhattanUpToZero | Puzzle8.py:31-39 | a partial sum is 0 exactly when every tile distance in it is 0 |
| Tiles.ManhattanZeroIffGoal | Puzzle8.py:30-43 | the heuristic is 0 exactly when the board is `[1,2,3,4,5,6,7,8,0]` |
| Tiles.LegalMovesOnGrid | Puzzle8.py:45-52 | a move is legal exactly when it keeps the blank's row and column in 0..2; the moves are in the order ARRIBA, ABAJO, IZQUIERDA, DERECHA; a legal move's target is the neighbouring cell |
| Tiles.GoalMoves | Puzzle8.py:43-52 | the goal board has its blank at 8, and its legal moves are exactly ARRIBA, IZQUIERDA |
| Tiles.SwapIsBoard | Puzzle8.py:67 | swapping two cells of a board gives a board (still a permutation of 0..8) |
| Tiles.StepSwaps | Puzzle8.py:54-68 | a move fails exactly when it is not legal; a legal move puts 0 on the target cell and the target's tile on the old blank cell, leaves every other cell unchanged, and moves the blank index to the target |
| Tiles.OppositeReturns | Puzzle8.py:61-64 | the opposite of a legal move is legal from the target cell and leads back to the old blank cell |
| Tiles.StepInverse | Puzzle8.py:54-67 | applying the opposite move after a legal move is legal and restores the original board |
| Tiles.RunSnoc | Puzzle8.py:94-95 | running moves then one more is running the moves and then making that move |
| Puzzle8.State.constructor | Puzzle8.py:8-13 | the new state holds the given board, parent, label and depth, and its cached blank is the board's first 0 |
| Puzzle8.State.Equals | Puzzle8.py:15-16 | states with equal boards agree on the goal test and on h(n) |
| Puzzle8.State.Priority | Puzzle8.py:22-27 | f(n) = g(n) + h(n) is at least g(n) |
| Puzzle8.State.Heuristic | Puzzle8.py:30-40 | the accumulating loop returns the Manhattan sum, which is at least 0 and is 0 exactly on the goal board |
| Puzzle8.State.IsGoal | Puzzle8.py:42-43 | the goal test holds exactly when the heuristic is 0 |
| Puzzle8.State.PossibleMoves | Puzzle8.py:45-52 | the appended list is the legal-move list of the cached blank |
| Puzzle8.State.MakeMove | Puzzle8.py:54-68 | `null` exactly when the direction is not legal; otherwise a valid child whose parent is this state, with label = direction, depth + 1, blank = target cell, and board = this board with the blank and target cells swapped |
| Puzzle8.HistoryLeadsHere | Puzzle8.py:101-107 | replaying the labels along the parent links from the root board reaches the state's board, and there are as many labels as the depth |
| AStar.Reverse | Puzzle8.py:107 | `camino[::-1]`: the same length, with the elements in reverse order |
| AStar.ReverseSnoc | Puzzle8.py:105-107 | reversing a list with one more element at its end puts that element first |
| AStar.Reconstruct | Puzzle8.py:101-107 | walking up the parent links and reversing gives the moves from the root down to the state |
| AStar.PopMin | Puzzle8.py:82 | the heap's pop: an entry that no other entry precedes under `__lt__`, i.e. one of minimal f(n) |
| AStar.BoardsOfPush | Puzzle8.py:97 | pushing a state adds its board to the boards on the frontier |
| AStar.BoardsOfRemove | Puzzle8.py:82 | popping an entry loses at most that entry's board from the frontier's boards |
| AStar.InWords | Puzzle8.py:87 | every board lies in the finite set of length-9 sequences over 0..8, which bounds the closed set |
| AStar.RunStaysInside | Puzzle8.py:80-99 | a closed set that holds every successor of its boards holds every board a run of moves reaches from one of them |
| AStar.CoveredKept | Puzzle8.py:84-97 | each successor of each closed board stays closed or on the frontier, through a pop and through the closing of the popped board once its successors are covered |
| AStar.AllKeptGrows | Puzzle8.py:94-97 | successors already kept stay kept as the frontier gains entries |
| AStar.AllKeptHas | Puzzle8.py:94-97 | what holds of the successors of a list of moves holds for each move in it |
| AStar.FreshSuccessorsMembers | Puzzle8.py:94-97 | the boards pushed for a list of moves are at most one per move, and they are exactly the boards some move of the list leads to that are not closed |
| AStar.FreshSnoc | Puzzle8.py:94-97 | the boards pushed for a list of moves and one more move are those of the list followed by those of the move |
| AStar.BoardSeqAppend | Puzzle8.py:97 | the boards of two frontier segments, one after the other, are the boards of the concatenated segment |
| AStar.ExpansionStep | Puzzle8.py:94-97 | a round of the `for mov` loop that pushes the successor by one more move extends the expansion by that move: old frontier kept as a prefix, pushed boards equal to the successor boards not closed, every successor closed or on the frontier |
| AStar.PushSuccessor | Puzzle8.py:95-97 | `siguiente and siguiente not in cerrados`: when the move is legal and its board is not closed, exactly one entry is pushed, labelled with the move and holding the moved board (even if that board already waits on the frontier); otherwise the frontier is unchanged; the successor's board ends up closed or on the frontier |
| AStar.PushSuccessors | Puzzle8.py:94-97 | the old frontier is kept as a prefix; the pushed entries are valid children of the popped state, and their boards, in order, are the successor boards over the legal moves in the program's order that are not closed; every successor board is closed or on the frontier |
| AStar.ReachableStep | Puzzle8.py:94-97 | a board one legal move away from a reachable board is reachable |
| AStar.AncestorsClosedGrows | Puzzle8.py:87 | ancestors that were closed stay closed as the closed set grows |
| AStar.PrefixesClosed | Puzzle8.py:101-107 | when every ancestor of a state is closed, each proper prefix of its move history, replayed from the root, ends on a closed board |
| AStar.WaitingGrows | Puzzle8.py:87 | a frontier entry stays waiting (same root, reachable, ancestors closed) as the closed set grows |
| AStar.ChildWaiting | Puzzle8.py:87-97 | a child of a waiting state, pushed once that state is closed, is waiting: same root, reachable board, ancestors closed |
| AStar.SearchStart | Puzzle8.py:76-78 | the frontier holding only the initial state and the empty closed set satisfy the search invariant |
| AStar.SkipClosed | Puzzle8.py:84-85 | dropping a popped entry whose board is closed keeps the search invariant |
| AStar.ClosePopped | Puzzle8.py:87-88 | the popped state is waiting (same root as the initial state, reachable board, ancestors closed); closing its board adds exactly one board to the count; the initial board is then closed and every closed board is reachable |
| AStar.Popped | Puzzle8.py:82 | the popped entry is a valid state whose board lies in the finite set of boards |
| AStar.Expanded | Puzzle8.py:87-97 | closing the popped board and pushing its successors keeps the search invariant with the count one higher |
| AStar.ExpandClosed | Puzzle8.py:87-97 | closing a non-goal popped state and pushing its successors behind the rest of the frontier keeps the search invariant with the count one higher |
| AStar.GoalFound | Puzzle8.py:87-92 | a popped goal state: its history is non-empty and as long as its depth, and replays from the shared root to the goal; from a root initial state, no proper prefix of it reaches the goal; the closed boards, the goal's included, are reachable and counted |
| AStar.Exhausted | Puzzle8.py:99 | when the frontier runs dry, at least one board was explored, the goal was never closed, the closed boards are exactly those reachable from the initial board, and no sequence of moves leads from the initial board to the goal |
| AStar.Solve | Puzzle8.py:72-99 | a goal board gives `([], 0)`. Otherwise the initial board is explored, `explorados` equals the number of distinct closed boards, and every closed board is reachable from the initial board. A non-empty path is the goal state's label history, as long as its depth, and it replays to the goal from the root board (from the initial board when the initial state is a root, and then no proper prefix reaches the goal). An empty path after exploring means every reachable board was closed, so `explorados` counts the reachable boards, and the goal is unreachable |

## Left out

- `InterfazPuzzle8` and `principal` (Puzzle8.py:110-249): the tkinter window, buttons, labels and click handlers are presentation and I/O.
- `__hash__` and the internals of Python's `set`: the closed set holds boards, which is the equality `__eq__` and `__hash__` give.
- AStar.PopMin: returns some entry of minimal f(n), not the one `heapq`'s layout would pick among ties, so `Solve` does not pin the exact `explorados` count or the path chosen among equal-cost ones.
- AStar.Solve: optimality of the returned path is not proved.
- Puzzle8.State.Less: has no contract of its own. What the search relies on is stated by `AStar.PopMin`.
- Puzzle8.State.constructor: boards that are not an arrangement of 0..8 are outside the model, because `Board` is a type with that constraint. The program would fail in `index(0)` only when 0 is missing.
- Puzzle8.State.MakeMove: a direction string other than the four labels is not representable, because `Move` has four values. The program returns `None` for such a string, because it is not among the legal moves.
- The root's empty label `""` is modelled as `None`, and a root has depth 0, which is how the interface builds initial states.
- `Solve` returns the closed boards and the goal state as ghost outputs, only so that its contract can name them.
