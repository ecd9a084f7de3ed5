/**
 * Boards, moves and the Manhattan heuristic of the 8-puzzle, as values.
 *
 * A board is read row by row: position p (0..8) is row p / 3, column p % 3.
 * The value 0 is the blank. Every position is non-negative, so Dafny's
 * Euclidean `/` and `%` agree with Python's floor `//` and `%` here, and they
 * also agree for the tile term `(v - 1) // 3` because the divisor is positive.
 */
module Tiles {

  datatype Option<T> = None | Some(value: T)

  /**
   * A board holds each value 0..8 exactly once: nine cells, every value in
   * range and none missing (so none repeated, see BoardDistinct).
   */
  predicate IsBoard(b: seq<int>)
  {
    && |b| == 9
    && (forall i :: 0 <= i < 9 ==> 0 <= b[i] <= 8)
    && (forall v :: 0 <= v <= 8 ==> v in b)
  }

  type Board = b: seq<int> | IsBoard(b) witness [1, 2, 3, 4, 5, 6, 7, 8, 0]

  /** A position on the board. */
  type Cell = p: int | 0 <= p < 9

  /** The solved board `[1, 2, 3, 4, 5, 6, 7, 8, 0]`. */
  const Goal: Board := [1, 2, 3, 4, 5, 6, 7, 8, 0]

  /** A sequence holding every value of a set has at least as many elements as the set. */
  lemma {:induction false} Pigeonhole(s: seq<int>, values: set<int>)
    requires forall v :: v in values ==> v in s
    ensures |values| <= |s|
    decreases |s|
  {
    if s != [] {
      var rest := values - {s[0]};
      forall v | v in rest
        ensures v in s[1..]
      {
        var k :| 0 <= k < |s| && s[k] == v;
        assert s[1..][k - 1] == v;
      }
      Pigeonhole(s[1..], rest);
    } else {
      assert values == {} by {
        forall v | v in values
          ensures v in s
        {
        }
      }
    }
  }

  /** The values 0 .. n - 1. */
  ghost function Below(n: nat): set<int>
  {
    if n == 0 then {} else Below(n - 1) + {n - 1}
  }

  lemma {:induction false} BelowSize(n: nat)
    ensures forall v :: v in Below(n) <==> 0 <= v < n
    ensures |Below(n)| == n
  {
    if n > 0 {
      BelowSize(n - 1);
    }
  }

  /** A sequence holding every value 0 .. n - 1 has at least n elements. */
  lemma CoverNeedsRoom(s: seq<int>, n: nat)
    requires forall v :: 0 <= v < n ==> v in s
    ensures n <= |s|
  {
    BelowSize(n);
    Pigeonhole(s, Below(n));
  }

  /** No value occurs twice on a board. */
  lemma BoardDistinct(b: Board, i: int, j: int)
    requires 0 <= i < 9 && 0 <= j < 9 && i != j
    ensures b[i] != b[j]
  {
    if b[i] == b[j] {
      var lo, hi := if i < j then i else j, if i < j then j else i;
      var s := b[..hi] + b[hi + 1..];
      forall v | 0 <= v < |b|
        ensures v in s
      {
        assert v in b;
        var k :| 0 <= k < 9 && b[k] == v;
        if k < hi {
          assert s[k] == v;
        } else if k > hi {
          assert s[k - 1] == v;
        } else {
          assert s[lo] == v;
        }
      }
      CoverNeedsRoom(s, |b|);
      assert false;
    }
  }

  /** The first index holding 0, as Python's `list.index(0)` returns it. */
  function BlankIndex(b: seq<int>): (p: nat)
    requires 0 in b
    ensures p < |b| && b[p] == 0
    ensures forall k :: 0 <= k < p ==> b[k] != 0
  {
    if b[0] == 0 then 0 else 1 + BlankIndex(b[1..])
  }

  /** On a board the blank is the only cell holding 0. */
  lemma BlankUnique(b: Board, q: int)
    requires 0 <= q < 9 && b[q] == 0
    ensures BlankIndex(b) == q
  {
    var p := BlankIndex(b);
    if p != q {
      BoardDistinct(b, p, q);
    }
  }

  function Abs(x: int): nat
  {
    if x < 0 then -x else x
  }

  /**
   * Manhattan distance of tile v, lying at position i, from its goal cell
   * (row (v - 1) / 3, column (v - 1) % 3); the blank contributes nothing.
   */
  function TileDistance(i: int, v: int): nat
  {
    if v == 0 then 0 else Abs(i / 3 - (v - 1) / 3) + Abs(i % 3 - (v - 1) % 3)
  }

  /** A tile is at distance 0 exactly when it sits at its goal position v - 1. */
  lemma TileDistanceZero(i: int, v: int)
    requires 0 <= i < 9 && 1 <= v <= 8
    ensures TileDistance(i, v) == 0 <==> v == i + 1
  {
  }

  /** Sum of the tile distances of the first n cells. */
  function ManhattanUpTo(b: seq<int>, n: nat): (d: int)
    requires n <= |b|
    ensures d >= 0
  {
    if n == 0 then 0 else ManhattanUpTo(b, n - 1) + TileDistance(n - 1, b[n - 1])
  }

  /** The Manhattan heuristic h(n) of a 9-cell board. */
  function Manhattan(b: seq<int>): (d: int)
    requires |b| == 9
    ensures d >= 0
  {
    ManhattanUpTo(b, |b|)
  }

  /** A sum of distances is 0 exactly when every one of its terms is. */
  lemma {:induction false} ManhattanUpToZero(b: seq<int>, n: nat)
    requires n <= |b|
    ensures ManhattanUpTo(b, n) == 0 <==> forall i :: 0 <= i < n ==> TileDistance(i, b[i]) == 0
  {
    if n > 0 {
      ManhattanUpToZero(b, n - 1);
    }
  }

  /** The heuristic of a board is 0 exactly when the board is the goal. */
  lemma ManhattanZeroIffGoal(b: Board)
    ensures Manhattan(b) == 0 <==> b == Goal
  {
    ManhattanUpToZero(b, |b|);
    if Manhattan(b) == 0 {
      forall i | 0 <= i < 9
        ensures b[i] == 0 || b[i] == i + 1
      {
        if b[i] != 0 {
          TileDistanceZero(i, b[i]);
        }
      }
      assert b[8] == 0;
      forall i | 0 <= i < 9
        ensures b[i] == Goal[i]
      {
        if i < 8 {
          BoardDistinct(b, i, 8);
        }
      }
    } else {
      var i :| 0 <= i < 9 && TileDistance(i, b[i]) != 0;
      assert b[i] != Goal[i];
    }
  }

  /** The four directions, labelled ARRIBA, ABAJO, IZQUIERDA and DERECHA in the program. */
  datatype Move = Up | Down | Left | Right

  /** The direction that undoes a move. */
  function Opposite(m: Move): Move
  {
    match m
    case Up => Down
    case Down => Up
    case Left => Right
    case Right => Left
  }

  /** Row and column offsets a move gives the blank. */
  function DRow(m: Move): int
  {
    match m
    case Up => -1
    case Down => 1
    case Left => 0
    case Right => 0
  }

  function DCol(m: Move): int
  {
    match m
    case Up => 0
    case Down => 0
    case Left => -1
    case Right => 1
  }

  /** Position of a direction in the enumeration order ARRIBA, ABAJO, IZQUIERDA, DERECHA. */
  function Rank(m: Move): nat
  {
    match m
    case Up => 0
    case Down => 1
    case Left => 2
    case Right => 3
  }

  /** The cell the blank moves to: three cells back or on for a row, one for a column. */
  function Target(p: int, m: Move): int
  {
    match m
    case Up => p - 3
    case Down => p + 3
    case Left => p - 1
    case Right => p + 1
  }

  /** The legal moves of a blank at position p, in the order ARRIBA, ABAJO, IZQUIERDA, DERECHA. */
  function LegalMoves(p: int): (ms: seq<Move>)
    requires 0 <= p < 9
  {
    var row, col := p / 3, p % 3;
    (if row > 0 then [Up] else [])
    + (if row < 2 then [Down] else [])
    + (if col > 0 then [Left] else [])
    + (if col < 2 then [Right] else [])
  }

  /**
   * The legal moves are decided by the blank's row p / 3 and column p % 3
   * alone: a move is legal exactly when the blank stays on the 3x3 grid, the
   * moves come in the order ARRIBA, ABAJO, IZQUIERDA, DERECHA, and the target
   * of a legal move is the cell one row or one column away.
   */
  lemma LegalMovesOnGrid(p: int)
    requires 0 <= p < 9
    ensures forall m :: m in LegalMoves(p) <==> 0 <= p / 3 + DRow(m) < 3 && 0 <= p % 3 + DCol(m) < 3
    ensures forall i, j :: 0 <= i < j < |LegalMoves(p)| ==> Rank(LegalMoves(p)[i]) < Rank(LegalMoves(p)[j])
    ensures forall m :: m in LegalMoves(p) ==>
      var q := Target(p, m);
      0 <= q < 9 && q / 3 == p / 3 + DRow(m) && q % 3 == p % 3 + DCol(m)
  {
  }

  /** The solved board has its blank in the corner: only ARRIBA and IZQUIERDA are legal. */
  lemma GoalMoves()
    ensures BlankIndex(Goal) == 8
    ensures LegalMoves(BlankIndex(Goal)) == [Up, Left]
  {
  }

  /** Swapping two cells of a board gives a board. */
  lemma SwapIsBoard(b: Board, p: int, q: int)
    requires 0 <= p < 9 && 0 <= q < 9
    ensures IsBoard(b[p := b[q]][q := b[p]])
  {
    var c := b[p := b[q]][q := b[p]];
    forall v | 0 <= v <= 8
      ensures v in c
    {
      assert v in b;
      var k :| 0 <= k < 9 && b[k] == v;
      if k == p {
        assert c[q] == v;
      } else if k == q {
        assert c[p] == v;
      } else {
        assert c[k] == v;
      }
    }
  }

  /**
   * Slide the tile next to the blank into it: `None` when the direction is not
   * legal, otherwise the board with the blank and the target cell swapped.
   */
  function Step(b: Board, m: Move): Option<Board>
  {
    var p := BlankIndex(b);
    if m in LegalMoves(p) then
      var q := Target(p, m);
      LegalMovesOnGrid(p);
      SwapIsBoard(b, p, q);
      var c: Board := b[p := b[q]][q := b[p]];
      Some(c)
    else
      None
  }

  /**
   * A move fails exactly when it is not among the legal moves of the blank;
   * a legal one moves the blank to the target cell, puts the tile found there
   * where the blank was, and leaves every other cell alone.
   */
  lemma StepSwaps(b: Board, m: Move)
    ensures Step(b, m).None? <==> m !in LegalMoves(BlankIndex(b))
    ensures Step(b, m).Some? ==>
      var r, p := Step(b, m).value, BlankIndex(b);
      var q := Target(p, m);
      && 0 <= q < 9 && q != p
      && r[q] == 0 && r[p] == b[q]
      && (forall k :: 0 <= k < 9 && k != p && k != q ==> r[k] == b[k])
      && BlankIndex(r) == q
  {
    var p := BlankIndex(b);
    if m in LegalMoves(p) {
      LegalMovesOnGrid(p);
      BlankUnique(Step(b, m).value, Target(p, m));
    }
  }

  /** The opposite of a legal move is legal from the target cell and leads back. */
  lemma OppositeReturns(p: int, m: Move)
    requires 0 <= p < 9 && m in LegalMoves(p)
    ensures 0 <= Target(p, m) < 9
    ensures Opposite(m) in LegalMoves(Target(p, m))
    ensures Target(Target(p, m), Opposite(m)) == p
  {
  }

  /** A legal move is undone by the opposite move, which is then legal too. */
  lemma StepInverse(b: Board, m: Move)
    requires Step(b, m).Some?
    ensures Step(Step(b, m).value, Opposite(m)) == Some(b)
  {
    var p := BlankIndex(b);
    var c := Step(b, m).value;
    StepSwaps(b, m);
    OppositeReturns(p, m);
    StepSwaps(c, Opposite(m));
    var d := Step(c, Opposite(m)).value;
    assert forall k :: 0 <= k < 9 ==> d[k] == b[k];
    assert d == b;
  }

  /** Apply moves in order; `None` as soon as one of them is illegal. */
  function Run(b: Board, ms: seq<Move>): Option<Board>
    decreases |ms|
  {
    if ms == [] then Some(b)
    else match Step(b, ms[0])
      case None => None
      case Some(c) => Run(c, ms[1..])
  }

  /** Running a sequence with one more move is running the sequence, then the move. */
  lemma {:induction false} RunSnoc(b: Board, ms: seq<Move>, m: Move)
    ensures Run(b, ms + [m]) == match Run(b, ms) case None => None case Some(c) => Step(c, m)
    decreases |ms|
  {
    if ms != [] {
      assert (ms + [m])[0] == ms[0];
      assert (ms + [m])[1..] == ms[1..] + [m];
      match Step(b, ms[0])
      case None =>
      case Some(c) => RunSnoc(c, ms[1..], m);
    }
  }
}
