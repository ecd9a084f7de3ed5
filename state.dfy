/**
 * One node of the search: a board with the parent state it was reached from,
 * the move that reached it and its depth g(n). A state is never changed after
 * it is built, so its fields are constants; parent links are real references,
 * so that the search builds the same tree of states the program does.
 */
module Puzzle8 {
  import opened Tiles

  class State {
    const board: Board
    /** The state this one was reached from; `null` for the root. */
    const parent: State?
    /** The move that reached this state; `None` stands for the root's empty label. */
    const move: Option<Move>
    /** g(n): the number of moves from the root. */
    const depth: nat
    /** Cached index of the blank. */
    const blank: Cell

    /**
     * Builds a state. The board is a value, so the new state owns its own
     * copy, as the program's list copy gives it.
     */
    constructor (b: Board, p: State?, m: Option<Move>, d: nat)
      ensures board == b && parent == p && move == m && depth == d
      ensures blank < 9 && board[blank] == 0
      ensures blank == BlankIndex(b)
    {
      board, parent, move, depth := b, p, m, d;
      blank := BlankIndex(b);
    }

    /**
     * The shape every state of a search has: a root at depth 0 without a
     * move, or a child one level below its parent, reached from the parent's
     * board by its move.
     */
    ghost predicate Valid()
      decreases depth
    {
      && blank == BlankIndex(board)
      && (parent == null ==> move == None && depth == 0)
      && (parent != null ==>
            && depth == parent.depth + 1
            && parent.Valid()
            && move.Some?
            && Step(parent.board, move.value) == Some(board))
    }

    /** The board of the root this state descends from. */
    ghost function Origin(): Board
      requires Valid()
      decreases depth
    {
      if parent == null then board else parent.Origin()
    }

    /** The moves along the parent links, from the root down to this state. */
    ghost function History(): seq<Move>
      requires Valid()
      decreases depth
    {
      if parent == null then [] else parent.History() + [move.value]
    }

    /** Two states are equal when their boards are, whatever their history. */
    predicate Equals(other: State)
      ensures Equals(other) ==> IsGoal() == other.IsGoal()
      ensures Equals(other) ==> Priority() - depth == other.Priority() - other.depth
    {
      board == other.board
    }

    /** f(n) = g(n) + h(n), the A* priority; never below the depth. */
    function Priority(): (f: int)
      ensures f >= depth
    {
      depth + Manhattan(board)
    }

    /** The heap order: a state comes first when its f(n) is strictly smaller. */
    predicate Less(other: State)
    {
      Priority() < other.Priority()
    }

    /** The Manhattan heuristic h(n), summed cell by cell. */
    method Heuristic() returns (distance: int)
      ensures distance == Manhattan(board)
      ensures distance >= 0
      ensures distance == 0 <==> board == Goal
    {
      distance := 0;
      for i := 0 to 9
        invariant distance == ManhattanUpTo(board, i)
      {
        if board[i] != 0 {
          var rowNow, colNow := i / 3, i % 3;
          var rowGoal, colGoal := (board[i] - 1) / 3, (board[i] - 1) % 3;
          distance := distance + Abs(rowNow - rowGoal) + Abs(colNow - colGoal);
        }
      }
      ManhattanZeroIffGoal(board);
    }

    /** The goal test; it holds exactly when the heuristic is 0. */
    predicate IsGoal()
      ensures IsGoal() <==> Manhattan(board) == 0
    {
      ManhattanZeroIffGoal(board);
      board == Goal
    }

    /** The legal moves, appended in the order ARRIBA, ABAJO, IZQUIERDA, DERECHA. */
    method PossibleMoves() returns (moves: seq<Move>)
      ensures moves == LegalMoves(blank)
    {
      moves := [];
      var row, col := blank / 3, blank % 3;
      if row > 0 { moves := moves + [Up]; }
      if row < 2 { moves := moves + [Down]; }
      if col > 0 { moves := moves + [Left]; }
      if col < 2 { moves := moves + [Right]; }
    }

    /**
     * Applies a move: `null` when it is not legal; otherwise a new child
     * state whose board is this board with the blank and the target cell
     * swapped, one level deeper, with this state as parent.
     */
    method MakeMove(dir: Move) returns (next: State?)
      requires Valid()
      ensures next == null <==> dir !in LegalMoves(blank)
      ensures next == null <==> Step(board, dir) == None
      ensures next != null ==>
        && next.Valid()
        && Step(board, dir) == Some(next.board)
        && next.parent == this && next.move == Some(dir) && next.depth == depth + 1
        && next.blank == Target(blank, dir)
        && next.board == board[blank := board[next.blank]][next.blank := board[blank]]
    {
      var moves := PossibleMoves();
      StepSwaps(board, dir);
      if dir !in moves {
        return null;
      }
      LegalMovesOnGrid(blank);
      var copy := new int[9](i requires 0 <= i < 9 => board[i]);
      var target := Target(blank, dir);
      copy[blank], copy[target] := copy[target], copy[blank];
      ghost var expected := Step(board, dir).value;
      assert copy[blank] == expected[blank] && copy[target] == expected[target];
      assert forall k :: 0 <= k < 9 ==> copy[k] == expected[k];
      assert copy[..] == expected;
      next := new State(copy[..], this, Some(dir), depth + 1);
    }
  }

  /** Following the parent links from any valid state replays a run from its root. */
  lemma {:induction false} HistoryLeadsHere(s: State)
    requires s.Valid()
    ensures Run(s.Origin(), s.History()) == Some(s.board)
    ensures |s.History()| == s.depth
    decreases s.depth
  {
    if s.parent != null {
      HistoryLeadsHere(s.parent);
      RunSnoc(s.parent.Origin(), s.parent.History(), s.move.value);
    }
  }
}
