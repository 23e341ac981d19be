/**
 * Plain exhaustive minimax over the board (minimax.py), always scored from
 * X's side: 1 when X wins, -1 when O wins, 0 for a draw. The search writes a
 * trial mark into the board, recurses and writes 0 back; there is no pruning
 * and no cache. `Value` is the value the search computes, `BestChoice` the
 * move `melhor_jogada` returns; the methods are proved against them.
 */
module Minimax {
  import opened Wrappers
  import opened TicTacToe

  /** The mark of the side to move: X (1) when maximising, O (-1) otherwise. */
  function MarkOf(maximizing: bool): int
  {
    if maximizing then 1 else -1
  }

  /**
   * Whether `val` replaces the running best, which starts at minus infinity
   * for the maximiser and plus infinity for the minimiser (None). The
   * comparison is strict, so a tie keeps the earlier value.
   */
  predicate Improves(maximizing: bool, val: int, best: Option<int>)
  {
    best.None? || (if maximizing then val > best.value else val < best.value)
  }

  /** The running best after scanning `vals` from the left. */
  function Extreme(vals: seq<int>, maximizing: bool): Option<int>
  {
    if vals == [] then None
    else
      var best := Extreme(vals[..|vals| - 1], maximizing);
      if Improves(maximizing, vals[|vals| - 1], best) then Some(vals[|vals| - 1]) else best
  }

  /** The position at which the running best was last replaced. */
  function FirstExtreme(vals: seq<int>, maximizing: bool): nat
    requires vals != []
  {
    if |vals| == 1 then 0
    else if Improves(maximizing, vals[|vals| - 1], Extreme(vals[..|vals| - 1], maximizing)) then |vals| - 1
    else FirstExtreme(vals[..|vals| - 1], maximizing)
  }

  /** `x` is at least as good as `y` for the side. */
  predicate NoWorse(maximizing: bool, x: int, y: int)
  {
    if maximizing then x >= y else x <= y
  }

  /**
   * The running best of a non-empty scan is the maximum (minimum) of the
   * values, and it was first reached at position FirstExtreme: every earlier
   * value is strictly worse.
   */
  lemma {:induction false} ExtremeSpec(vals: seq<int>, maximizing: bool)
    ensures Extreme(vals, maximizing).None? <==> vals == []
    ensures vals != [] ==>
      var e, p := Extreme(vals, maximizing).value, FirstExtreme(vals, maximizing);
      && p < |vals| && vals[p] == e
      && (forall k | 0 <= k < |vals| :: NoWorse(maximizing, e, vals[k]))
      && (forall k | 0 <= k < p :: !NoWorse(maximizing, vals[k], e))
  {
    if vals != [] {
      var front := vals[..|vals| - 1];
      ExtremeSpec(front, maximizing);
      assert forall k | 0 <= k < |front| :: front[k] == vals[k];
    }
  }

  // ---------------------------------------------------------------------
  // _minimax
  // ---------------------------------------------------------------------

  /**
   * The values of the children reached by playing each of `ms` with the mark
   * of the side to move, each searched with the other side to move.
   */
  function ChildValues(b: Board, ms: seq<Move>, maximizing: bool): (vals: seq<int>)
    requires Shaped(b) && forall k | 0 <= k < |ms| :: ms[k] in EmptyCells(b)
    ensures |vals| == |ms|
    decreases |EmptyCells(b)|, 0, |ms|
  {
    if ms == [] then []
    else
      var m := ms[|ms| - 1];
      PlaceShrinks(b, m, MarkOf(maximizing));
      ChildValues(b, ms[..|ms| - 1], maximizing) + [Value(Place(b, m, MarkOf(maximizing)), !maximizing)]
  }

  /** The value `_minimax(game, maximizing)` returns for board `b`. */
  function Value(b: Board, maximizing: bool): int
    requires Shaped(b)
    decreases |EmptyCells(b)|, 1
  {
    match Winner(b)
    case Some(w) => w
    case None =>
      if IsDraw(b) then 0
      else
        var ms := EmptyCells(b);
        var vals := ChildValues(b, ms, maximizing);
        NotOverHasMoves(b);
        ExtremeSpec(vals, maximizing);
        Extreme(vals, maximizing).value
  }

  /**
   * A board with a winner is worth that winner; a draw is worth 0; otherwise
   * the maximiser's value is the largest of its children's values and the
   * minimiser's the smallest.
   */
  lemma ValueSpec(b: Board, maximizing: bool)
    requires Shaped(b)
    ensures Winner(b).Some? ==> Value(b, maximizing) == Winner(b).value
    ensures Winner(b).None? && EmptyCells(b) == [] ==> Value(b, maximizing) == 0
    ensures Winner(b).None? && EmptyCells(b) != [] ==>
      var vals := ChildValues(b, EmptyCells(b), maximizing);
      && Value(b, maximizing) in vals
      && (forall k | 0 <= k < |vals| :: NoWorse(maximizing, Value(b, maximizing), vals[k]))
  {
    OverIffWinnerOrFull(b);
    if Winner(b).None? && EmptyCells(b) != [] {
      var vals := ChildValues(b, EmptyCells(b), maximizing);
      ExtremeSpec(vals, maximizing);
      var p := FirstExtreme(vals, maximizing);
      assert !IsDraw(b);
      var v := Value(b, maximizing);
      assert v == Extreme(vals, maximizing).value;
      assert 0 <= p < |vals| && vals[p] == v;
      assert forall k | 0 <= k < |vals| :: NoWorse(maximizing, v, vals[k]);
    }
  }

  lemma {:induction false} ChildValuesInRange(b: Board, ms: seq<Move>, maximizing: bool)
    requires Shaped(b) && Trinary(b) && forall k | 0 <= k < |ms| :: ms[k] in EmptyCells(b)
    ensures forall k | 0 <= k < |ms| :: -1 <= ChildValues(b, ms, maximizing)[k] <= 1
    decreases |EmptyCells(b)|, 0, |ms|
  {
    if ms != [] {
      var m := ms[|ms| - 1];
      PlaceShrinks(b, m, MarkOf(maximizing));
      ChildValuesInRange(b, ms[..|ms| - 1], maximizing);
      ValueInRange(Place(b, m, MarkOf(maximizing)), !maximizing);
    }
  }

  /** As its doc comment says, `_minimax` only ever returns 1, -1 or 0. */
  lemma {:induction false} ValueInRange(b: Board, maximizing: bool)
    requires Shaped(b) && Trinary(b)
    ensures -1 <= Value(b, maximizing) <= 1
    decreases |EmptyCells(b)|, 1
  {
    if Winner(b).None? && !IsDraw(b) {
      var vals := ChildValues(b, EmptyCells(b), maximizing);
      NotOverHasMoves(b);
      ChildValuesInRange(b, EmptyCells(b), maximizing);
      ExtremeSpec(vals, maximizing);
    }
  }

  /**
   * _minimax: returns the value of the board for the side to move and leaves
   * every cell as it found it.
   */
  method Search(game: TicTacToe, maximizing: bool) returns (v: int)
    requires game.Valid()
    modifies game
    ensures game.Valid() && game.board == old(game.board)
    ensures v == Value(old(game.board), maximizing)
    decreases |EmptyCells(game.board)|, 1
  {
    var winner := Winner(game.board);
    if winner.Some? {
      return winner.value;
    }
    if IsDraw(game.board) {
      return 0;
    }
    ghost var b := game.board;
    var movs := game.AvailableMoves();
    var best: Option<int> := None;
    for t := 0 to |movs|
      invariant game.Valid() && game.board == b
      invariant best == Extreme(ChildValues(b, movs[..t], maximizing), maximizing)
    {
      var val := TryMove(game, movs[t], maximizing);
      ChildValuesStep(b, movs, maximizing, t);
      ExtremeStep(ChildValues(b, movs[..t], maximizing), val, maximizing);
      if Improves(maximizing, val, best) {
        best := Some(val);
      }
    }
    assert movs[..|movs|] == movs;
    NotOverHasMoves(b);
    ExtremeSpec(ChildValues(b, movs, maximizing), maximizing);
    v := best.value;
  }

  /**
   * One trial of the search loops: writes the mark of the side to move into
   * the empty cell `m`, searches the child with the other side to move and
   * writes 0 back, so the board is as it was and the result is the child's
   * value.
   */
  method TryMove(game: TicTacToe, m: Move, maximizing: bool) returns (val: int)
    requires game.Valid() && m in EmptyCells(game.board)
    modifies game
    ensures game.Valid() && game.board == old(game.board)
    ensures InGrid(m) && val == Value(Place(old(game.board), m, MarkOf(maximizing)), !maximizing)
    decreases |EmptyCells(game.board)|, 0
  {
    ghost var b := game.board;
    var mark := MarkOf(maximizing);
    PlaceShrinks(b, m, mark);
    game.board := Place(game.board, m, mark);
    val := Search(game, !maximizing);
    PlaceUndo(b, m, mark);
    game.board := Place(game.board, m, 0);
  }

  // ---------------------------------------------------------------------
  // melhor_jogada
  // ---------------------------------------------------------------------

  /**
   * The move `melhor_jogada` returns for `player`: None without empty cells;
   * otherwise the first empty cell, in row-major order, whose child value is
   * best for X when `player` is 1 and best for O otherwise.
   */
  function BestChoice(b: Board, player: int): Option<Move>
    requires Shaped(b)
  {
    var ms := EmptyCells(b);
    if ms == [] then None
    else
      var vals := ChildValues(b, ms, player == 1);
      ExtremeSpec(vals, player == 1);
      Some(ms[FirstExtreme(vals, player == 1)])
  }

  /**
   * melhor_jogada returns None exactly when there is no empty cell; otherwise
   * an empty cell whose child value is the best one for the player, and no
   * earlier cell in row-major order reaches that value.
   */
  lemma BestChoiceSpec(b: Board, player: int)
    requires Shaped(b)
    ensures BestChoice(b, player).None? <==> EmptyCells(b) == []
    ensures BestChoice(b, player).Some? ==>
      var ms, vals := EmptyCells(b), ChildValues(b, EmptyCells(b), player == 1);
      exists p | 0 <= p < |ms| ::
        && ms[p] == BestChoice(b, player).value
        && (forall k | 0 <= k < |ms| :: NoWorse(player == 1, vals[p], vals[k]))
        && (forall k | 0 <= k < p :: !NoWorse(player == 1, vals[k], vals[p]))
  {
    var ms := EmptyCells(b);
    if ms != [] {
      var vals := ChildValues(b, ms, player == 1);
      ExtremeSpec(vals, player == 1);
      var p := FirstExtreme(vals, player == 1);
      assert ms[p] == BestChoice(b, player).value;
    }
  }

  /**
   * On a board that is not over, the move melhor_jogada picks for X (for O)
   * reaches exactly the minimax value of the board with X (O) to move.
   */
  lemma BestChoiceReachesValue(b: Board, player: int)
    requires Shaped(b) && !IsOver(b)
    ensures BestChoice(b, player).Some?
    ensures var m := BestChoice(b, player).value;
      && m in EmptyCells(b) && InGrid(m)
      && Value(Place(b, m, MarkOf(player == 1)), player != 1) == Value(b, player == 1)
  {
    NotOverHasMoves(b);
    OverIffWinnerOrFull(b);
    var ms := EmptyCells(b);
    var vals := ChildValues(b, ms, player == 1);
    ExtremeSpec(vals, player == 1);
    var p := FirstExtreme(vals, player == 1);
    PlaceShrinks(b, ms[p], MarkOf(player == 1));
    ChildValueAt(b, ms, player == 1, p);
  }

  lemma {:induction false} ChildValueAt(b: Board, ms: seq<Move>, maximizing: bool, p: nat)
    requires Shaped(b) && (forall k | 0 <= k < |ms| :: ms[k] in EmptyCells(b)) && p < |ms| && InGrid(ms[p])
    ensures ChildValues(b, ms, maximizing)[p] == Value(Place(b, ms[p], MarkOf(maximizing)), !maximizing)
  {
    var n := |ms| - 1;
    var front := ms[..n];
    if p < n {
      assert front[p] == ms[p];
      ChildValueAt(b, front, maximizing, p);
    }
  }

  lemma ChildValuesStep(b: Board, ms: seq<Move>, maximizing: bool, t: nat)
    requires Shaped(b) && (forall k | 0 <= k < |ms| :: ms[k] in EmptyCells(b)) && t < |ms| && InGrid(ms[t])
    ensures ChildValues(b, ms[..t + 1], maximizing)
         == ChildValues(b, ms[..t], maximizing) + [Value(Place(b, ms[t], MarkOf(maximizing)), !maximizing)]
  {
    assert ms[..t + 1][..t] == ms[..t];
  }

  lemma ExtremeStep(vals: seq<int>, x: int, maximizing: bool)
    ensures Extreme(vals + [x], maximizing)
         == if Improves(maximizing, x, Extreme(vals, maximizing)) then Some(x) else Extreme(vals, maximizing)
    ensures vals != [] ==>
      FirstExtreme(vals + [x], maximizing)
      == if Improves(maximizing, x, Extreme(vals, maximizing)) then |vals| else FirstExtreme(vals, maximizing)
  {
    assert (vals + [x])[..|vals|] == vals;
  }

  /**
   * melhor_jogada: tries every empty cell in row-major order, keeps the
   * first strictly better one, and leaves the board as it found it.
   */
  method BestMove(game: TicTacToe, player: int) returns (r: Option<Move>)
    requires game.Valid()
    modifies game
    ensures game.Valid() && game.board == old(game.board)
    ensures r == BestChoice(old(game.board), player)
  {
    var movs := game.AvailableMoves();
    if movs == [] {
      return None;
    }
    ghost var b := game.board;
    var maximizing := player == 1;
    var bestVal: Option<int> := None;
    var bestMove: Option<Move> := None;
    for t := 0 to |movs|
      invariant game.Valid() && game.board == b
      invariant Leads(b, movs, t, maximizing, bestVal, bestMove)
    {
      bestVal, bestMove := Consider(game, movs, t, maximizing, bestVal, bestMove);
    }
    assert movs[..|movs|] == movs;
    r := bestMove;
  }

  /**
   * The state of the melhor_jogada loop after the first `t` empty cells:
   * `bestVal` is the best child value so far and `bestMove` the cell that
   * last replaced it (None before any cell).
   */
  ghost predicate Leads(b: Board, movs: seq<Move>, t: nat, maximizing: bool, bestVal: Option<int>, bestMove: Option<Move>)
    requires Shaped(b) && movs == EmptyCells(b) && t <= |movs|
  {
    var vals := ChildValues(b, movs[..t], maximizing);
    && bestVal == Extreme(vals, maximizing)
    && (t == 0 ==> bestMove == None)
    && (t > 0 ==> FirstExtreme(vals, maximizing) < t && bestMove == Some(movs[FirstExtreme(vals, maximizing)]))
  }

  /** One round of the melhor_jogada loop: tries `movs[t]` and keeps it when it improves the best value. */
  method Consider(game: TicTacToe, movs: seq<Move>, t: nat, maximizing: bool, bestVal: Option<int>, bestMove: Option<Move>)
    returns (bestVal': Option<int>, bestMove': Option<Move>)
    requires game.Valid() && movs == EmptyCells(game.board) && t < |movs|
    requires Leads(game.board, movs, t, maximizing, bestVal, bestMove)
    modifies game
    ensures game.Valid() && game.board == old(game.board)
    ensures Leads(game.board, movs, t + 1, maximizing, bestVal', bestMove')
  {
    ghost var b := game.board;
    var m := movs[t];
    var val := TryMove(game, m, maximizing);
    ChildValuesStep(b, movs, maximizing, t);
    ExtremeStep(ChildValues(b, movs[..t], maximizing), val, maximizing);
    if Improves(maximizing, val, bestVal) {
      bestVal', bestMove' := Some(val), Some(m);
    } else {
      bestVal', bestMove' := bestVal, bestMove;
    }
  }

  // ---------------------------------------------------------------------
  // melhor_jogada_modo
  // ---------------------------------------------------------------------

  /** ASCII upper-case letters folded to lower case (`str.lower` on the mode names). */
  function Lower(s: string): (r: string)
    ensures |r| == |s|
  {
    if s == [] then []
    else
      var c := s[0];
      [if 'A' <= c <= 'Z' then (c as int + 32) as char else c] + Lower(s[1..])
  }

  /**
   * The "medio" mode: a non-empty mode name equal to "medio" ignoring case. A
   * missing or empty name means 'dificil', like every other name.
   */
  predicate IsMedium(mode: Option<string>)
  {
    mode.Some? && mode.value != "" && Lower(mode.value) == "medio"
  }

  /**
   * The move melhor_jogada_modo answers with, given the `random.random()`
   * value `draw` and the index `pick` that `random.choice` takes among the
   * empty cells: in "medio" with a draw of at least 0.5 the picked empty
   * cell (None without one), and melhor_jogada's move in every other case.
   * Either way it is None exactly when there is no empty cell, and
   * otherwise an empty cell.
   */
  function ModeAnswer(b: Board, player: int, mode: Option<string>, draw: real, pick: nat): (r: Option<Move>)
    requires Shaped(b)
    requires IsMedium(mode) && !(draw < 0.5) && EmptyCells(b) != [] ==> pick < |EmptyCells(b)|
    ensures r.None? <==> EmptyCells(b) == []
    ensures r.Some? ==> r.value in EmptyCells(b)
  {
    BestChoiceSpec(b, player);
    if IsMedium(mode) && !(draw < 0.5) then
      if EmptyCells(b) == [] then None else Some(EmptyCells(b)[pick])
    else BestChoice(b, player)
  }

  /**
   * melhor_jogada_modo. `draw` is the `random.random()` value and `pick` the
   * index `random.choice` takes among the empty cells. Outside "medio" it is
   * melhor_jogada; in "medio" it is melhor_jogada when the draw is below 0.5
   * and the picked empty cell otherwise. Either way it is None exactly when
   * there is no empty cell, and otherwise an empty cell.
   */
  method BestMoveMode(game: TicTacToe, player: int, mode: Option<string>, draw: real, pick: nat)
    returns (r: Option<Move>)
    requires game.Valid()
    requires IsMedium(mode) && !(draw < 0.5) && EmptyCells(game.board) != [] ==> pick < |EmptyCells(game.board)|
    modifies game
    ensures game.Valid() && game.board == old(game.board)
    ensures !IsMedium(mode) || draw < 0.5 ==> r == BestChoice(old(game.board), player)
    ensures IsMedium(mode) && !(draw < 0.5) ==>
      r == if EmptyCells(old(game.board)) == [] then None else Some(EmptyCells(old(game.board))[pick])
    ensures r.None? <==> EmptyCells(old(game.board)) == []
    ensures r.Some? ==> r.value in EmptyCells(old(game.board))
    ensures r == ModeAnswer(old(game.board), player, mode, draw, pick)
  {
    BestChoiceSpec(game.board, player);
    if IsMedium(mode) {
      if draw < 0.5 {
        r := BestMove(game, player);
        return;
      } else {
        var movs := game.AvailableMoves();
        if movs == [] {
          return None;
        }
        return Some(movs[pick]);
      }
    }
    r := BestMove(game, player);
  }
}
