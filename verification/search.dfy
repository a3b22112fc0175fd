/**
 * Adversarial search over tic-tac-toe boards (tictactoe/tictactoe.py, lines
 * 133-182): `max_value` and `min_value` with alpha-beta pruning, and
 * `minimax`, which picks a move whose value matches the root's.
 *
 * The source's -math.inf and math.inf are the integers NegInf = -2 and
 * PosInf = 2. Every comparison the search makes has a game value in
 * {-1, 0, 1} on at least one side, and -2 and 2 lie on the same sides of
 * those values as the infinities, so the comparisons come out the same.
 */
module Search {
  import opened Wrappers
  import opened Board

  const NegInf: int := -2
  const PosInf: int := 2

  function Max(a: int, b: int): int {
    if a >= b then a else b
  }

  function Min(a: int, b: int): int {
    if a <= b then a else b
  }

  /** Every move in the list is a legal move on b. */
  predicate Playable(b: Grid, moves: seq<Pos>)
  {
    forall a :: a in moves ==> OnBoard(a) && b[a.0][a.1] == Empty
  }

  /** The board after a legal move; one empty square fewer, so the search terminates. */
  function Child(b: Grid, a: Pos): (c: Grid)
    requires OnBoard(a) && b[a.0][a.1] == Empty
    ensures Count(c).empty == Count(b).empty - 1
  {
    Result(b, a).board
  }

  // ---------------------------------------------------------------------------
  // max_value / min_value with alpha-beta pruning
  // ---------------------------------------------------------------------------

  function MaxValue(b: Grid, alpha: int, beta: int): (v: int)
    ensures -1 <= v <= 1
    decreases Count(b).empty, 1, 0
  {
    if Terminal(b) then Utility(b)
    else MaxLoop(b, Actions(b), alpha, beta, NegInf)
  }

  /** The `for action in actions(board)` loop of `max_value`, with running value v. */
  function MaxLoop(b: Grid, moves: seq<Pos>, alpha: int, beta: int, v: int): (r: int)
    requires Playable(b, moves) && NegInf <= v <= 1
    ensures r >= v
    ensures moves != [] || v >= -1 ==> -1 <= r <= 1
    decreases Count(b).empty, 0, |moves|
  {
    if moves == [] then v
    else
      var v' := Max(v, MinValue(Child(b, moves[0]), alpha, beta));
      if v' >= beta then v'
      else MaxLoop(b, moves[1..], Max(alpha, v'), beta, v')
  }

  function MinValue(b: Grid, alpha: int, beta: int): (v: int)
    ensures -1 <= v <= 1
    decreases Count(b).empty, 1, 0
  {
    if Terminal(b) then Utility(b)
    else MinLoop(b, Actions(b), alpha, beta, PosInf)
  }

  /** The `for action in actions(board)` loop of `min_value`, with running value v. */
  function MinLoop(b: Grid, moves: seq<Pos>, alpha: int, beta: int, v: int): (r: int)
    requires Playable(b, moves) && -1 <= v <= PosInf
    ensures r <= v
    ensures moves != [] || v <= 1 ==> -1 <= r <= 1
    decreases Count(b).empty, 0, |moves|
  {
    if moves == [] then v
    else
      var v' := Min(v, MaxValue(Child(b, moves[0]), alpha, beta));
      if v' <= alpha then v'
      else MinLoop(b, moves[1..], alpha, Min(beta, v'), v')
  }

  // ---------------------------------------------------------------------------
  // Plain minimax, the reference the pruned search is compared with
  // ---------------------------------------------------------------------------

  function MaxPlain(b: Grid): (v: int)
    ensures -1 <= v <= 1
    decreases Count(b).empty, 1, 0
  {
    if Terminal(b) then Utility(b) else BestMax(b, Actions(b))
  }

  /** The largest `MinPlain` over the children reached by moves, NegInf when there are none. */
  function BestMax(b: Grid, moves: seq<Pos>): (r: int)
    requires Playable(b, moves)
    ensures moves == [] ==> r == NegInf
    ensures moves != [] ==> -1 <= r <= 1
    decreases Count(b).empty, 0, |moves|
  {
    if moves == [] then NegInf
    else Max(MinPlain(Child(b, moves[0])), BestMax(b, moves[1..]))
  }

  function MinPlain(b: Grid): (v: int)
    ensures -1 <= v <= 1
    decreases Count(b).empty, 1, 0
  {
    if Terminal(b) then Utility(b) else BestMin(b, Actions(b))
  }

  /** The smallest `MaxPlain` over the children reached by moves, PosInf when there are none. */
  function BestMin(b: Grid, moves: seq<Pos>): (r: int)
    requires Playable(b, moves)
    ensures moves == [] ==> r == PosInf
    ensures moves != [] ==> -1 <= r <= 1
    decreases Count(b).empty, 0, |moves|
  {
    if moves == [] then PosInf
    else Min(MaxPlain(Child(b, moves[0])), BestMin(b, moves[1..]))
  }

  // ---------------------------------------------------------------------------
  // minimax
  // ---------------------------------------------------------------------------

  /** Value of the reply after move a: `min_value` of the child when X moves, `max_value` when O moves. */
  function Reply(b: Grid, a: Pos, maximizing: bool): int
    requires OnBoard(a) && b[a.0][a.1] == Empty
  {
    if maximizing then MinValue(Child(b, a), NegInf, PosInf)
    else MaxValue(Child(b, a), NegInf, PosInf)
  }

  /** The first move of the list whose reply has value v, as the source's return inside the loop. */
  function FirstWith(b: Grid, moves: seq<Pos>, v: int, maximizing: bool): (r: Option<Pos>)
    requires Playable(b, moves)
    ensures r.Some? ==> r.value in moves && Reply(b, r.value, maximizing) == v
    ensures r.None? <==> forall a :: a in moves ==> Reply(b, a, maximizing) != v
  {
    if moves == [] then None
    else if Reply(b, moves[0], maximizing) == v then Some(moves[0])
    else FirstWith(b, moves[1..], v, maximizing)
  }

  function Minimax(b: Grid): (r: Option<Pos>)
    ensures Terminal(b) ==> r.None?
    ensures r.Some? ==> r.value in Actions(b)
  {
    if Terminal(b) then None
    else if Player(b) == X then FirstWith(b, Actions(b), MaxValue(b, NegInf, PosInf), true)
    else FirstWith(b, Actions(b), MinValue(b, NegInf, PosInf), false)
  }

  // ---------------------------------------------------------------------------
  // Alpha-beta computes minimax
  // ---------------------------------------------------------------------------

  /** x cut to the window [lo, hi]. */
  function Clamp(x: int, lo: int, hi: int): int {
    if x < lo then lo else if x > hi then hi else x
  }

  /**
   * Inside any window alpha < beta the pruned search agrees with plain
   * minimax once both are cut to the window: a value strictly inside is
   * exact, a value at or below alpha (at or above beta) says the true value
   * is too.
   */
  lemma {:induction false} MaxValueSound(b: Grid, alpha: int, beta: int)
    requires NegInf <= alpha < beta <= PosInf
    ensures Clamp(MaxValue(b, alpha, beta), alpha, beta) == Clamp(MaxPlain(b), alpha, beta)
    decreases Count(b).empty, 1, 0
  {
    if Terminal(b) {
      assert MaxValue(b, alpha, beta) == Utility(b) == MaxPlain(b);
    } else {
      var moves := Actions(b);
      assert MaxValue(b, alpha, beta) == MaxLoop(b, moves, alpha, beta, NegInf);
      assert MaxPlain(b) == BestMax(b, moves) == Max(NegInf, BestMax(b, moves));
      MaxLoopSound(b, moves, alpha, beta, NegInf);
    }
  }

  /**
   * One round of the max loop, in values only: the child's value f agrees
   * with its true value g inside the window, and the rest of the loop is
   * sound in the narrowed window (or the loop cut off at beta).
   */
  lemma MaxStep(alpha: int, beta: int, v: int, f: int, g: int, rest: int, r: int)
    requires v <= alpha < beta
    requires Clamp(f, alpha, beta) == Clamp(g, alpha, beta)
    requires Max(v, f) < beta ==>
      r >= Max(v, f) && Clamp(r, Max(alpha, Max(v, f)), beta) == Clamp(Max(Max(v, f), rest), Max(alpha, Max(v, f)), beta)
    requires Max(v, f) >= beta ==> r == Max(v, f)
    ensures Clamp(r, alpha, beta) == Clamp(Max(v, Max(g, rest)), alpha, beta)
  {
  }

  lemma {:induction false} MaxLoopSound(b: Grid, moves: seq<Pos>, alpha: int, beta: int, v: int)
    requires Playable(b, moves)
    requires NegInf <= v <= alpha < beta <= PosInf && v <= 1
    ensures Clamp(MaxLoop(b, moves, alpha, beta, v), alpha, beta)
         == Clamp(Max(v, BestMax(b, moves)), alpha, beta)
    decreases Count(b).empty, 0, |moves|
  {
    if moves != [] {
      var c := Child(b, moves[0]);
      MinValueSound(c, alpha, beta);
      var f := MinValue(c, alpha, beta);
      var v' := Max(v, f);
      var r := MaxLoop(b, moves, alpha, beta, v);
      assert BestMax(b, moves) == Max(MinPlain(c), BestMax(b, moves[1..]));
      if v' < beta {
        MaxLoopSound(b, moves[1..], Max(alpha, v'), beta, v');
        assert r == MaxLoop(b, moves[1..], Max(alpha, v'), beta, v');
      } else {
        assert r == v';
      }
      MaxStep(alpha, beta, v, f, MinPlain(c), BestMax(b, moves[1..]), r);
    }
  }

  lemma {:induction false} MinValueSound(b: Grid, alpha: int, beta: int)
    requires NegInf <= alpha < beta <= PosInf
    ensures Clamp(MinValue(b, alpha, beta), alpha, beta) == Clamp(MinPlain(b), alpha, beta)
    decreases Count(b).empty, 1, 0
  {
    if Terminal(b) {
      assert MinValue(b, alpha, beta) == Utility(b) == MinPlain(b);
    } else {
      var moves := Actions(b);
      assert MinValue(b, alpha, beta) == MinLoop(b, moves, alpha, beta, PosInf);
      assert MinPlain(b) == BestMin(b, moves) == Min(PosInf, BestMin(b, moves));
      MinLoopSound(b, moves, alpha, beta, PosInf);
    }
  }

  /** One round of the min loop, in values only; the mirror image of `MaxStep`. */
  lemma MinStep(alpha: int, beta: int, v: int, f: int, g: int, rest: int, r: int)
    requires alpha < beta <= v
    requires Clamp(f, alpha, beta) == Clamp(g, alpha, beta)
    requires Min(v, f) > alpha ==>
      r <= Min(v, f) && Clamp(r, alpha, Min(beta, Min(v, f))) == Clamp(Min(Min(v, f), rest), alpha, Min(beta, Min(v, f)))
    requires Min(v, f) <= alpha ==> r == Min(v, f)
    ensures Clamp(r, alpha, beta) == Clamp(Min(v, Min(g, rest)), alpha, beta)
  {
  }

  lemma {:induction false} MinLoopSound(b: Grid, moves: seq<Pos>, alpha: int, beta: int, v: int)
    requires Playable(b, moves)
    requires NegInf <= alpha < beta <= v <= PosInf && -1 <= v
    ensures Clamp(MinLoop(b, moves, alpha, beta, v), alpha, beta)
         == Clamp(Min(v, BestMin(b, moves)), alpha, beta)
    decreases Count(b).empty, 0, |moves|
  {
    if moves != [] {
      var c := Child(b, moves[0]);
      MaxValueSound(c, alpha, beta);
      var f := MaxValue(c, alpha, beta);
      var v' := Min(v, f);
      var r := MinLoop(b, moves, alpha, beta, v);
      assert BestMin(b, moves) == Min(MaxPlain(c), BestMin(b, moves[1..]));
      if v' > alpha {
        MinLoopSound(b, moves[1..], alpha, Min(beta, v'), v');
        assert r == MinLoop(b, moves[1..], alpha, Min(beta, v'), v');
      } else {
        assert r == v';
      }
      MinStep(alpha, beta, v, f, MaxPlain(c), BestMin(b, moves[1..]), r);
    }
  }

  /** With the full window (-inf, +inf) alpha-beta returns exactly the minimax value. */
  lemma AlphaBetaIsMinimax(b: Grid)
    ensures MaxValue(b, NegInf, PosInf) == MaxPlain(b)
    ensures MinValue(b, NegInf, PosInf) == MinPlain(b)
  {
    MaxValueSound(b, NegInf, PosInf);
    MinValueSound(b, NegInf, PosInf);
  }

  /** No move leads to a child worth more than `BestMax`. */
  lemma {:induction false} BestMaxBound(b: Grid, moves: seq<Pos>)
    requires Playable(b, moves)
    ensures forall a :: a in moves ==> MinPlain(Child(b, a)) <= BestMax(b, moves)
  {
    if moves != [] {
      var rest := moves[1..];
      BestMaxBound(b, rest);
      forall a | a in moves ensures MinPlain(Child(b, a)) <= BestMax(b, moves) {
        if a != moves[0] {
          assert a in rest;
        }
      }
    }
  }

  /** Some move leads to a child worth exactly `BestMax`. */
  lemma {:induction false} BestMaxAttained(b: Grid, moves: seq<Pos>)
    requires Playable(b, moves) && moves != []
    ensures exists a :: a in moves && MinPlain(Child(b, a)) == BestMax(b, moves)
  {
    var rest := moves[1..];
    var first := MinPlain(Child(b, moves[0]));
    if rest == [] || first >= BestMax(b, rest) {
      assert first == BestMax(b, moves);
      assert moves[0] in moves;
    } else {
      BestMaxAttained(b, rest);
      var a :| a in rest && MinPlain(Child(b, a)) == BestMax(b, rest);
      assert a in moves;
    }
  }

  /** No move leads to a child worth less than `BestMin`. */
  lemma {:induction false} BestMinBound(b: Grid, moves: seq<Pos>)
    requires Playable(b, moves)
    ensures forall a :: a in moves ==> MaxPlain(Child(b, a)) >= BestMin(b, moves)
  {
    if moves != [] {
      var rest := moves[1..];
      BestMinBound(b, rest);
      forall a | a in moves ensures MaxPlain(Child(b, a)) >= BestMin(b, moves) {
        if a != moves[0] {
          assert a in rest;
        }
      }
    }
  }

  /** Some move leads to a child worth exactly `BestMin`. */
  lemma {:induction false} BestMinAttained(b: Grid, moves: seq<Pos>)
    requires Playable(b, moves) && moves != []
    ensures exists a :: a in moves && MaxPlain(Child(b, a)) == BestMin(b, moves)
  {
    var rest := moves[1..];
    var first := MaxPlain(Child(b, moves[0]));
    if rest == [] || first <= BestMin(b, rest) {
      assert first == BestMin(b, moves);
      assert moves[0] in moves;
    } else {
      BestMinAttained(b, rest);
      var a :| a in rest && MaxPlain(Child(b, a)) == BestMin(b, rest);
      assert a in moves;
    }
  }

  /**
   * On a board where the game is not over, `minimax` returns a legal move,
   * and that move is optimal for the player to move: no other legal move
   * leads to a child with a better minimax value, and the chosen child's
   * value is the board's own.
   */
  lemma MinimaxIsOptimal(b: Grid)
    requires !Terminal(b)
    ensures Minimax(b).Some?
    ensures Minimax(b).value in Actions(b)
    ensures Player(b) == X ==>
      && MinPlain(Child(b, Minimax(b).value)) == MaxPlain(b)
      && forall a :: a in Actions(b) ==> MinPlain(Child(b, a)) <= MaxPlain(b)
    ensures Player(b) == O ==>
      && MaxPlain(Child(b, Minimax(b).value)) == MinPlain(b)
      && forall a :: a in Actions(b) ==> MaxPlain(Child(b, a)) >= MinPlain(b)
  {
    var moves := Actions(b);
    assert moves != [];
    AlphaBetaIsMinimax(b);
    forall a | a in moves ensures Reply(b, a, true) == MinPlain(Child(b, a)) && Reply(b, a, false) == MaxPlain(Child(b, a)) {
      AlphaBetaIsMinimax(Child(b, a));
    }
    if Player(b) == X {
      BestMaxBound(b, moves);
      BestMaxAttained(b, moves);
    } else {
      BestMinBound(b, moves);
      BestMinAttained(b, moves);
    }
  }
}
