/**
 * The A* search: a frontier of states ordered by f(n) = g(n) + h(n), a closed
 * set of boards, deletion of stale frontier entries when they are popped, and
 * the move path read back along the parent links of the goal state.
 */
module AStar {
  import opened Tiles
  import opened Puzzle8

  /** Python's `list[::-1]`. */
  function Reverse(xs: seq<Move>): (r: seq<Move>)
    ensures |r| == |xs|
    ensures forall i :: 0 <= i < |xs| ==> r[i] == xs[|xs| - 1 - i]
  {
    if xs == [] then [] else Reverse(xs[1..]) + [xs[0]]
  }

  /** Reversing a list with one more element at its end puts that element first. */
  lemma ReverseSnoc(xs: seq<Move>, m: Move)
    ensures Reverse(xs + [m]) == [m] + Reverse(xs)
  {
  }

  /**
   * Collects the move labels along the parent links, from the given state up
   * to the root, then reverses them: the moves from the root down to the state.
   */
  method Reconstruct(s: State) returns (path: seq<Move>)
    requires s.Valid()
    ensures path == s.History()
  {
    var collected: seq<Move> := [];
    var current: State := s;
    while current.parent != null
      invariant current.Valid()
      invariant s.History() == current.History() + Reverse(collected)
      decreases current.depth
    {
      ReverseSnoc(collected, current.move.value);
      collected := collected + [current.move.value];
      current := current.parent;
    }
    path := Reverse(collected);
  }

  /**
   * The heap's pop: the index of a frontier entry that no entry precedes in
   * the `__lt__` order, i.e. one of minimal f(n). Among several such entries
   * the heap's choice is an artefact of its layout; any one of them will do.
   */
  method PopMin(open: seq<State>) returns (k: nat)
    requires open != []
    ensures k < |open|
    ensures forall j :: 0 <= j < |open| ==> !open[j].Less(open[k])
    ensures forall j :: 0 <= j < |open| ==> open[k].Priority() <= open[j].Priority()
  {
    k := 0;
    for i := 1 to |open|
      invariant k < i
      invariant forall j :: 0 <= j < i ==> !open[j].Less(open[k])
    {
      if open[i].Less(open[k]) {
        k := i;
      }
    }
  }

  /** The boards held by the frontier. */
  ghost function BoardsOf(open: seq<State>): set<Board>
  {
    set i | 0 <= i < |open| :: open[i].board
  }

  lemma BoardsOfPush(open: seq<State>, s: State)
    ensures BoardsOf(open + [s]) == BoardsOf(open) + {s.board}
  {
    var o := open + [s];
    assert o[|open|] == s;
    forall b | b in BoardsOf(open)
      ensures b in BoardsOf(o)
    {
      var i :| 0 <= i < |open| && open[i].board == b;
      assert o[i] == open[i];
    }
  }

  lemma BoardsOfRemove(open: seq<State>, k: nat)
    requires k < |open|
    ensures BoardsOf(open) <= BoardsOf(open[..k] + open[k + 1..]) + {open[k].board}
  {
    var rest := open[..k] + open[k + 1..];
    forall b | b in BoardsOf(open)
      ensures b in BoardsOf(rest) + {open[k].board}
    {
      var i :| 0 <= i < |open| && open[i].board == b;
      if i < k {
        assert rest[i] == open[i];
      } else if i > k {
        assert rest[i - 1] == open[i];
      }
    }
  }

  /** All sequences of length n over the values 0..8: a finite bound on the closed set. */
  ghost function Words(n: nat): set<seq<int>>
  {
    if n == 0 then {[]}
    else set w, v | w in Words(n - 1) && 0 <= v <= 8 :: w + [v]
  }

  lemma {:induction false} InWords(w: seq<int>)
    requires forall i :: 0 <= i < |w| ==> 0 <= w[i] <= 8
    ensures w in Words(|w|)
    decreases |w|
  {
    if w != [] {
      var n := |w|;
      InWords(w[..n - 1]);
      assert w == w[..n - 1] + [w[n - 1]];
    }
  }

  /**
   * The frontier entries of a search from `initial` share its root and are
   * the initial state itself or deeper than it.
   */
  ghost predicate SameRootBelow(s: State, initial: State)
  {
    && s.Valid()
    && initial.Valid()
    && s.Origin() == initial.Origin()
    && (s == initial || s.depth > initial.depth)
  }

  /** Every successor of every closed board is closed or waiting on the frontier. */
  ghost predicate Covered(closed: set<Board>, open: seq<State>)
  {
    forall c, m :: c in closed && Step(c, m).Some? ==> Step(c, m).value in closed + BoardsOf(open)
  }

  /** The board one move leads to, if any, is closed or on the frontier. */
  ghost predicate SuccessorKept(b: Board, m: Move, closed: set<Board>, open: seq<State>)
  {
    Step(b, m).Some? ==> Step(b, m).value in closed + BoardsOf(open)
  }

  /** A set of boards that holds every successor of its members holds every board a run reaches. */
  lemma {:induction false} RunStaysInside(closed: set<Board>, b: Board, ms: seq<Move>)
    requires Covered(closed, [])
    requires b in closed
    ensures Run(b, ms).Some? ==> Run(b, ms).value in closed
    decreases |ms|
  {
    if ms != [] {
      match Step(b, ms[0])
      case None =>
      case Some(c) =>
        assert c in closed + BoardsOf([]);
        RunStaysInside(closed, c, ms[1..]);
    }
  }

  /**
   * If every successor of a closed board was closed or on the frontier, it
   * still is after a board `b` left the frontier and was closed (or found
   * closed), once the successors of `b` are covered too.
   */
  lemma CoveredKept(closed: set<Board>, before: seq<State>, b: Board, after: seq<State>)
    requires Covered(closed, before)
    requires BoardsOf(before) <= BoardsOf(after) + {b}
    requires b in closed || forall m :: SuccessorKept(b, m, closed + {b}, after)
    ensures Covered(closed + {b}, after)
  {
    forall c, m | c in closed + {b} && Step(c, m).Some?
      ensures Step(c, m).value in closed + {b} + BoardsOf(after)
    {
      if c in closed {
        assert Step(c, m).value in closed + BoardsOf(before);
      } else {
        assert SuccessorKept(b, m, closed + {b}, after);
      }
    }
  }

  /** The successor by every move of `ms` is closed or on the frontier. */
  ghost predicate AllKept(b: Board, ms: seq<Move>, closed: set<Board>, open: seq<State>)
    decreases |ms|
  {
    ms != [] ==> AllKept(b, ms[..|ms| - 1], closed, open) && SuccessorKept(b, ms[|ms| - 1], closed, open)
  }

  /** Successors kept stay kept when the frontier only gains boards. */
  lemma {:induction false} AllKeptGrows(b: Board, ms: seq<Move>, closed: set<Board>, open: seq<State>, more: seq<State>)
    requires AllKept(b, ms, closed, open)
    requires BoardsOf(open) <= BoardsOf(more)
    ensures AllKept(b, ms, closed, more)
    decreases |ms|
  {
    if ms != [] {
      AllKeptGrows(b, ms[..|ms| - 1], closed, open, more);
    }
  }

  /** What AllKept says of each move it covers. */
  lemma {:induction false} AllKeptHas(b: Board, ms: seq<Move>, closed: set<Board>, open: seq<State>, m: Move)
    requires AllKept(b, ms, closed, open)
    requires m in ms
    ensures SuccessorKept(b, m, closed, open)
    decreases |ms|
  {
    if ms[|ms| - 1] != m {
      assert m in ms[..|ms| - 1] by {
        var i :| 0 <= i < |ms| && ms[i] == m;
        assert ms[..|ms| - 1][i] == m;
      }
      AllKeptHas(b, ms[..|ms| - 1], closed, open, m);
    }
  }

  /** The boards of a sequence of states, in order. */
  ghost function BoardSeq(ss: seq<State>): seq<Board>
    decreases |ss|
  {
    if ss == [] then [] else BoardSeq(ss[..|ss| - 1]) + [ss[|ss| - 1].board]
  }

  /**
   * The boards the expansion pushes, in order: for each move of `ms`, the
   * board it leads to from `b`, when the move is legal and that board is not
   * closed. A board already waiting on the frontier is pushed again.
   */
  ghost function FreshSuccessors(b: Board, ms: seq<Move>, closed: set<Board>): seq<Board>
    decreases |ms|
  {
    if ms == [] then []
    else
      var rest, m := FreshSuccessors(b, ms[..|ms| - 1], closed), ms[|ms| - 1];
      if Step(b, m).Some? && Step(b, m).value !in closed then rest + [Step(b, m).value] else rest
  }

  /**
   * The pushed boards are exactly the boards some move of `ms` leads to and
   * that are not closed, and there is at most one per move.
   */
  lemma {:induction false} FreshSuccessorsMembers(b: Board, ms: seq<Move>, closed: set<Board>)
    ensures |FreshSuccessors(b, ms, closed)| <= |ms|
    ensures forall c :: c in FreshSuccessors(b, ms, closed) <==>
      c !in closed && exists m :: m in ms && Step(b, m) == Some(c)
    decreases |ms|
  {
    if ms != [] {
      var init, m := ms[..|ms| - 1], ms[|ms| - 1];
      FreshSuccessorsMembers(b, init, closed);
      assert ms == init + [m];
      forall c | c !in closed && exists m' :: m' in ms && Step(b, m') == Some(c)
        ensures c in FreshSuccessors(b, ms, closed)
      {
        var m' :| m' in ms && Step(b, m') == Some(c);
        if m' != m {
          assert m' in init;
        }
      }
    }
  }

  /** The boards pushed for a list of moves and one more move. */
  lemma FreshSnoc(b: Board, ms: seq<Move>, m: Move, closed: set<Board>)
    ensures FreshSuccessors(b, ms + [m], closed) == FreshSuccessors(b, ms, closed) + FreshSuccessors(b, [m], closed)
  {
    assert (ms + [m])[..|ms|] == ms;
    assert [m][..0] == [];
  }

  /** The boards of two sequences of states, one after the other. */
  lemma {:induction false} BoardSeqAppend(xs: seq<State>, ys: seq<State>)
    ensures BoardSeq(xs + ys) == BoardSeq(xs) + BoardSeq(ys)
    decreases |ys|
  {
    if ys != [] {
      var init := ys[..|ys| - 1];
      BoardSeqAppend(xs, init);
      assert (xs + ys)[..|xs + ys| - 1] == xs + init;
      assert (xs + ys)[|xs + ys| - 1] == ys[|ys| - 1];
      assert BoardSeq(ys) == BoardSeq(init) + [ys[|ys| - 1].board];
    } else {
      assert xs + ys == xs;
    }
  }

  /**
   * The expansion of `current` after the moves `ms`: the old frontier is a
   * prefix, what follows it are children of `current` whose boards are the
   * successor boards of `ms` that are not closed, and each successor by a
   * move of `ms` is closed or on the frontier.
   */
  ghost predicate Expansion(current: State, closed: set<Board>, open: seq<State>, ms: seq<Move>, pushed: seq<State>)
  {
    && |open| <= |pushed| <= |open| + |ms|
    && pushed[..|open|] == open
    && BoardSeq(pushed[|open|..]) == FreshSuccessors(current.board, ms, closed)
    && (forall s :: s in pushed[|open|..] ==>
          s.Valid() && s.parent == current && s.depth == current.depth + 1 && s.board !in closed)
    && AllKept(current.board, ms, closed, pushed)
  }

  /** One more round of the expansion loop extends the expansion by its move. */
  lemma ExpansionStep(current: State, closed: set<Board>, open: seq<State>, ms: seq<Move>, m: Move,
                      pushed: seq<State>, more: seq<State>)
    requires Expansion(current, closed, open, ms, pushed)
    requires |pushed| <= |more| <= |pushed| + 1 && more[..|pushed|] == pushed
    requires forall s :: s in more[|pushed|..] ==>
      s.Valid() && s.parent == current && s.depth == current.depth + 1 && s.board !in closed
    requires BoardSeq(more[|pushed|..]) == FreshSuccessors(current.board, [m], closed)
    requires BoardsOf(pushed) <= BoardsOf(more)
    requires SuccessorKept(current.board, m, closed, more)
    ensures Expansion(current, closed, open, ms + [m], more)
  {
    assert more[..|open|] == more[..|pushed|][..|open|];
    assert more[|open|..] == pushed[|open|..] + more[|pushed|..];
    BoardSeqAppend(pushed[|open|..], more[|pushed|..]);
    FreshSnoc(current.board, ms, m, closed);
    AllKeptGrows(current.board, ms, closed, pushed, more);
    assert (ms + [m])[..|ms|] == ms;
  }

  /**
   * One round of the expansion loop: the successor by `dir` is pushed exactly
   * when the move is legal and its board is not closed, whether or not that
   * board already waits on the frontier; otherwise the frontier is unchanged.
   */
  method PushSuccessor(current: State, closed: set<Board>, open: seq<State>, dir: Move) returns (pushed: seq<State>)
    requires current.Valid()
    ensures |open| <= |pushed| <= |open| + 1
    ensures pushed[..|open|] == open
    ensures forall s :: s in pushed[|open|..] ==>
      s.Valid() && s.parent == current && s.depth == current.depth + 1 && s.board !in closed
    ensures Step(current.board, dir).Some? && Step(current.board, dir).value !in closed ==>
      && |pushed| == |open| + 1
      && pushed[|open|].move == Some(dir)
      && pushed[|open|].board == Step(current.board, dir).value
    ensures !(Step(current.board, dir).Some? && Step(current.board, dir).value !in closed) ==> pushed == open
    ensures BoardSeq(pushed[|open|..]) == FreshSuccessors(current.board, [dir], closed)
    ensures BoardsOf(open) <= BoardsOf(pushed)
    ensures SuccessorKept(current.board, dir, closed, pushed)
  {
    pushed := open;
    var next := current.MakeMove(dir);
    assert [dir][..0] == [];
    if next != null && next.board !in closed {
      BoardsOfPush(open, next);
      pushed := open + [next];
      assert pushed[|open|..] == [next];
      assert pushed[..|open|] == open;
      assert BoardSeq([next]) == [next.board] by {
        assert [next][..0] == [];
      }
    }
  }

  /**
   * Expands `current`: for each legal move, in order, builds the successor
   * and pushes it unless its board is closed. The old frontier is kept as a
   * prefix; the entries pushed are children of `current` whose boards are,
   * in order, the successor boards that are not closed; every successor
   * board ends up closed or on the frontier.
   */
  method PushSuccessors(current: State, closed: set<Board>, open: seq<State>) returns (pushed: seq<State>)
    requires current.Valid()
    ensures |open| <= |pushed| <= |open| + 4
    ensures pushed[..|open|] == open
    ensures BoardSeq(pushed[|open|..]) == FreshSuccessors(current.board, LegalMoves(current.blank), closed)
    ensures forall s :: s in pushed[|open|..] ==>
      s.Valid() && s.parent == current && s.depth == current.depth + 1 && s.board !in closed
    ensures forall m :: SuccessorKept(current.board, m, closed, pushed)
  {
    pushed := open;
    var moves := current.PossibleMoves();
    assert pushed[|open|..] == [];
    for j := 0 to |moves|
      invariant Expansion(current, closed, open, moves[..j], pushed)
    {
      var more := PushSuccessor(current, closed, pushed, moves[j]);
      ExpansionStep(current, closed, open, moves[..j], moves[j], pushed, more);
      assert moves[..j + 1] == moves[..j] + [moves[j]];
      pushed := more;
    }
    assert moves[..|moves|] == moves;
    forall m
      ensures SuccessorKept(current.board, m, closed, pushed)
    {
      if Step(current.board, m).Some? {
        AllKeptHas(current.board, moves, closed, pushed, m);
      }
    }
  }

  /** Some sequence of moves leads from board `a` to board `c`. */
  ghost predicate Reachable(a: Board, c: Board)
  {
    exists ms :: Run(a, ms) == Some(c)
  }

  /** A board one move away from a reachable board is reachable. */
  lemma ReachableStep(a: Board, c: Board, m: Move)
    requires Reachable(a, c) && Step(c, m).Some?
    ensures Reachable(a, Step(c, m).value)
  {
    var ms :| Run(a, ms) == Some(c);
    RunSnoc(a, ms, m);
  }

  /** Every ancestor of `s` at depth `d` or below it was closed. */
  ghost predicate AncestorsClosed(s: State, closed: set<Board>, d: nat)
    decreases s.depth
  {
    s.Valid() && s.parent != null && s.parent.depth >= d ==>
      s.parent.board in closed && AncestorsClosed(s.parent, closed, d)
  }

  lemma {:induction false} AncestorsClosedGrows(s: State, closed: set<Board>, more: set<Board>, d: nat)
    requires AncestorsClosed(s, closed, d) && closed <= more
    ensures AncestorsClosed(s, more, d)
    decreases s.depth
  {
    if s.Valid() && s.parent != null && s.parent.depth >= d {
      AncestorsClosedGrows(s.parent, closed, more, d);
    }
  }

  /**
   * When every ancestor of a state is closed, each proper prefix of its
   * history, replayed from the root, ends on a closed board.
   */
  lemma {:induction false} PrefixesClosed(s: State, closed: set<Board>)
    requires s.Valid() && AncestorsClosed(s, closed, 0)
    ensures forall i :: 0 <= i < |s.History()| ==>
      Run(s.Origin(), s.History()[..i]).Some? && Run(s.Origin(), s.History()[..i]).value in closed
    decreases s.depth
  {
    if s.parent != null {
      var p := s.parent;
      PrefixesClosed(p, closed);
      HistoryLeadsHere(p);
      forall i | 0 <= i < |s.History()|
        ensures Run(s.Origin(), s.History()[..i]).Some? && Run(s.Origin(), s.History()[..i]).value in closed
      {
        if i < |p.History()| {
          assert s.History()[..i] == p.History()[..i];
        } else {
          assert s.History()[..i] == p.History();
        }
      }
    }
  }

  /**
   * What the search knows of a frontier entry: it shares the initial state's
   * root and is no shallower, its board is reachable from the initial board,
   * and its ancestors down to the initial depth were closed.
   */
  ghost predicate Waiting(initial: State, closed: set<Board>, s: State)
  {
    && SameRootBelow(s, initial)
    && Reachable(initial.board, s.board)
    && AncestorsClosed(s, closed, initial.depth)
  }

  lemma WaitingGrows(initial: State, closed: set<Board>, more: set<Board>, s: State)
    requires Waiting(initial, closed, s) && closed <= more
    ensures Waiting(initial, more, s)
  {
    AncestorsClosedGrows(s, closed, more, initial.depth);
  }

  /** A child of a waiting state, once that state is closed, may wait too. */
  lemma ChildWaiting(initial: State, closed: set<Board>, current: State, s: State)
    requires Waiting(initial, closed, current)
    requires s.Valid() && s.parent == current
    ensures Waiting(initial, closed + {current.board}, s)
  {
    assert Step(current.board, s.move.value) == Some(s.board);
    ReachableStep(initial.board, current.board, s.move.value);
    AncestorsClosedGrows(current, closed, closed + {current.board}, initial.depth);
  }

  /**
   * What holds of the search between two pops: the count of explored states
   * is the number of closed boards, the goal was never closed, the initial
   * board is closed as soon as anything is, every closed board is reachable
   * from the initial board, every frontier entry is waiting, and every
   * successor of a closed board is closed or on the frontier.
   */
  ghost predicate SearchInv(initial: State, open: seq<State>, closed: set<Board>, explored: nat)
  {
    && initial.Valid()
    && explored == |closed|
    && Goal !in closed
    && (closed == {} ==> open == [initial])
    && (closed != {} ==> initial.board in closed)
    && (forall c :: c in closed ==> Reachable(initial.board, c))
    && (forall s :: s in open ==> Waiting(initial, closed, s))
    && Covered(closed, open)
  }

  /** The search starts with the initial state alone on the frontier and nothing closed. */
  lemma SearchStart(initial: State)
    requires initial.Valid()
    ensures SearchInv(initial, [initial], {}, 0)
  {
    assert Run(initial.board, []) == Some(initial.board);
  }

  /** Dropping a popped entry whose board is already closed keeps the invariant. */
  lemma SkipClosed(initial: State, open: seq<State>, k: nat, closed: set<Board>, explored: nat)
    requires SearchInv(initial, open, closed, explored)
    requires k < |open| && open[k].board in closed
    ensures SearchInv(initial, open[..k] + open[k + 1..], closed, explored)
  {
    var rest := open[..k] + open[k + 1..];
    BoardsOfRemove(open, k);
    assert forall s :: s in rest ==> s in open;
    CoveredKept(closed, open, open[k].board, rest);
    assert closed + {open[k].board} == closed;
  }

  /** Closing a popped entry whose board is not closed yet counts one more board. */
  lemma ClosePopped(initial: State, open: seq<State>, k: nat, closed: set<Board>, explored: nat)
    requires SearchInv(initial, open, closed, explored)
    requires k < |open| && open[k].board !in closed
    ensures Waiting(initial, closed, open[k])
    ensures open[k].board in Words(|initial.board|)
    ensures |closed + {open[k].board}| == explored + 1
    ensures initial.board in closed + {open[k].board}
    ensures forall c :: c in closed + {open[k].board} ==> Reachable(initial.board, c)
  {
    assert open[k] in open;
    InWords(open[k].board);
  }

  /**
   * Once the popped entry is closed and its successors are pushed behind the
   * rest of the frontier, the invariant holds again.
   */
  lemma Expanded(initial: State, open: seq<State>, k: nat, closed: set<Board>, explored: nat, pushed: seq<State>)
    requires SearchInv(initial, open, closed, explored)
    requires k < |open| && open[k].board !in closed && open[k].board != Goal
    requires var rest := open[..k] + open[k + 1..];
      && |rest| <= |pushed| && pushed[..|rest|] == rest
      && (forall s :: s in pushed[|rest|..] ==> s.Valid() && s.parent == open[k] && s.depth == open[k].depth + 1)
      && (forall m :: SuccessorKept(open[k].board, m, closed + {open[k].board}, pushed))
    ensures SearchInv(initial, pushed, closed + {open[k].board}, explored + 1)
  {
    var current, rest := open[k], open[..k] + open[k + 1..];
    ClosePopped(initial, open, k, closed, explored);
    BoardsOfRemove(open, k);
    var closed' := closed + {current.board};
    forall s | s in pushed
      ensures Waiting(initial, closed', s)
    {
      var i :| 0 <= i < |pushed| && pushed[i] == s;
      if i < |rest| {
        assert s == rest[i] && rest[i] in open;
        WaitingGrows(initial, closed, closed', s);
      } else {
        assert s in pushed[|rest|..];
        ChildWaiting(initial, closed, current, s);
      }
    }
    assert BoardsOf(rest) <= BoardsOf(pushed) by {
      forall b | b in BoardsOf(rest)
        ensures b in BoardsOf(pushed)
      {
        var i :| 0 <= i < |rest| && rest[i].board == b;
        assert pushed[i] == rest[i];
      }
    }
    CoveredKept(closed, open, current.board, pushed);
  }

  /** When the frontier runs empty, no sequence of moves leads from the initial board to the goal. */
  lemma Exhausted(initial: State, closed: set<Board>, explored: nat)
    requires SearchInv(initial, [], closed, explored)
    ensures explored >= 1 && initial.board in closed
    ensures explored == |closed|
    ensures Goal !in closed
    ensures forall b :: b in closed ==> Reachable(initial.board, b)
    ensures forall ms :: Run(initial.board, ms).Some? ==> Run(initial.board, ms).value in closed
    ensures forall ms :: Run(initial.board, ms) != Some(Goal)
  {
    forall ms
      ensures Run(initial.board, ms).Some? ==> Run(initial.board, ms).value in closed
    {
      RunStaysInside(closed, initial.board, ms);
    }
  }

  /** The popped entry is a valid state whose board lies among the finitely many boards. */
  lemma Popped(initial: State, open: seq<State>, k: nat, closed: set<Board>, explored: nat)
    requires SearchInv(initial, open, closed, explored)
    requires k < |open|
    ensures open[k].Valid()
    ensures open[k].board in Words(|initial.board|)
  {
    assert open[k] in open;
    InWords(open[k].board);
  }

  /**
   * A popped goal state, once its board is closed: its history is not empty
   * (the initial board is not the goal) and replays from its root, which is
   * the initial state's root, to the goal, one move per level of depth; from
   * a root initial state, every proper prefix of the history passes through
   * closed boards only, none of them the goal, so the goal is reached at the
   * last move and not before. Every closed board is reachable from the
   * initial board, and the count is the number of closed boards.
   */
  lemma GoalFound(initial: State, open: seq<State>, k: nat, closed: set<Board>, explored: nat, path: seq<Move>)
    requires SearchInv(initial, open, closed, explored) && initial.board != Goal
    requires k < |open| && open[k].board !in closed && open[k].board == Goal
    requires open[k].Valid() && path == open[k].History()
    ensures path != []
    ensures explored + 1 == |closed + {open[k].board}|
    ensures initial.board in closed + {open[k].board}
    ensures forall b :: b in closed + {open[k].board} ==> Reachable(initial.board, b)
    ensures open[k].Origin() == initial.Origin()
    ensures |path| == open[k].depth
    ensures Run(initial.Origin(), path) == Some(Goal)
    ensures initial.parent == null ==> Run(initial.board, path) == Some(Goal)
    ensures initial.parent == null ==> forall i :: 0 <= i < |path| ==> Run(initial.board, path[..i]) != Some(Goal)
  {
    var current := open[k];
    ClosePopped(initial, open, k, closed, explored);
    HistoryLeadsHere(current);
    if initial.parent == null {
      PrefixesClosed(current, closed);
    }
  }

  /**
   * The expansion step of the search: the popped state was closed and is not
   * the goal; its successors are pushed behind the rest of the frontier, and
   * the search invariant holds again with one more board explored.
   */
  method ExpandClosed(ghost initial: State, ghost before: seq<State>, k: nat, ghost closedBefore: set<Board>,
                      ghost exploredBefore: nat, current: State, closed: set<Board>, rest: seq<State>)
    returns (open: seq<State>)
    requires SearchInv(initial, before, closedBefore, exploredBefore)
    requires k < |before| && current == before[k] && current.board !in closedBefore && current.board != Goal
    requires closed == closedBefore + {current.board} && rest == before[..k] + before[k + 1..]
    ensures SearchInv(initial, open, closed, exploredBefore + 1)
  {
    ClosePopped(initial, before, k, closedBefore, exploredBefore);
    open := PushSuccessors(current, closed, rest);
    Expanded(initial, before, k, closedBefore, exploredBefore, open);
  }

  /**
   * A* from `initial`. On a goal board: no moves and no state explored.
   * Otherwise the search pops a state of minimal f(n), skips it when its
   * board is closed, closes it and counts it, stops at the goal with the
   * moves that reach it, and pushes the successors whose boards are not
   * closed. The count of explored states is the number of closed boards, so
   * no board is explored twice. A non-empty path replays from the root to the
   * goal and is as long as the goal state's depth; an empty path after some
   * exploration means no sequence of moves leads from the initial board to
   * the goal.
   */
  method Solve(initial: State) returns (path: seq<Move>, explored: nat, ghost closedBoards: set<Board>, ghost goal: State?)
    requires initial.Valid()
    ensures initial.IsGoal() ==> path == [] && explored == 0
    ensures !initial.IsGoal() ==> explored >= 1 && initial.board in closedBoards
    ensures explored == |closedBoards|
    ensures path != [] ==>
      && goal != null && goal.Valid() && goal.IsGoal()
      && goal.board in closedBoards
      && goal.Origin() == initial.Origin()
      && path == goal.History() && |path| == goal.depth
      && Run(initial.Origin(), path) == Some(Goal)
      && (initial.parent == null ==> Run(initial.board, path) == Some(Goal))
      && (initial.parent == null ==> forall i :: 0 <= i < |path| ==> Run(initial.board, path[..i]) != Some(Goal))
    ensures forall b :: b in closedBoards ==> Reachable(initial.board, b)
    ensures path == [] && explored > 0 ==> Goal !in closedBoards
    ensures path == [] && explored > 0 ==>
      forall ms :: Run(initial.board, ms).Some? ==> Run(initial.board, ms).value in closedBoards
    ensures path == [] && explored > 0 ==> forall ms :: Run(initial.board, ms) != Some(Goal)
  {
    if initial.IsGoal() {
      return [], 0, {}, null;
    }
    var open: seq<State> := [initial];
    var closed: set<Board> := {};
    explored := 0;
    SearchStart(initial);
    while open != []
      invariant SearchInv(initial, open, closed, explored)
      decreases Words(|initial.board|) - closed, |open|
    {
      var k := PopMin(open);
      var current := open[k];
      if current.board in closed {
        SkipClosed(initial, open, k, closed, explored);
        open := open[..k] + open[k + 1..];
        continue;
      }
      Popped(initial, open, k, closed, explored);
      ghost var before, closedBefore, exploredBefore := open, closed, explored;
      closed := closed + {current.board};
      explored := explored + 1;
      if current.IsGoal() {
        path := Reconstruct(current);
        GoalFound(initial, before, k, closedBefore, exploredBefore, path);
        return path, explored, closed, current;
      }
      open := ExpandClosed(initial, before, k, closedBefore, exploredBefore, current, closed, open[..k] + open[k + 1..]);
    }
    Exhausted(initial, closed, explored);
    return [], explored, closed, null;
  }
}
