/**
 * The 3x3 board of the game (tic_tac_toe.py). A cell holds 1 (X, the side
 * that moves first), -1 (O) or 0 (empty). The board is the list of three rows
 * that the class `TicTacToe` keeps in its `board` field; the queries about it
 * are functions of that value, the operations that change it are methods.
 */
module TicTacToe {
  import opened Wrappers

  /** A cell, as the `(linha, col)` pairs of the source. */
  datatype Move = Move(row: int, col: int)

  type Board = seq<seq<int>>

  /** Three rows of three cells. */
  predicate Shaped(b: Board)
  {
    |b| == 3 && forall i | 0 <= i < 3 :: |b[i]| == 3
  }

  predicate InGrid(m: Move)
  {
    0 <= m.row < 3 && 0 <= m.col < 3
  }

  /** Row-major position of a cell: 3 * row + col. */
  function Index(m: Move): int
  {
    3 * m.row + m.col
  }

  /** Every cell holds 1, -1 or 0, as play and search keep it. */
  predicate Trinary(b: Board)
    requires Shaped(b)
  {
    forall i, j | 0 <= i < 3 && 0 <= j < 3 :: -1 <= b[i][j] <= 1
  }

  function EmptyBoard(): (b: Board)
    ensures Shaped(b) && Trinary(b)
  {
    [[0, 0, 0], [0, 0, 0], [0, 0, 0]]
  }

  /** The board with cell `m` set to `v` (the assignment `board[i][j] = v`). */
  function Place(b: Board, m: Move, v: int): (r: Board)
    requires Shaped(b) && InGrid(m)
    ensures Shaped(r)
  {
    b[m.row := b[m.row][m.col := v]]
  }

  // ---------------------------------------------------------------------
  // checar_vencedor
  // ---------------------------------------------------------------------

  /** The eight lines in the order they are inspected: rows, columns, diagonals. */
  function Lines(b: Board): (ls: seq<seq<int>>)
    requires Shaped(b)
    ensures |ls| == 8 && forall k | 0 <= k < 8 :: |ls[k]| == 3
  {
    [b[0], b[1], b[2],
     [b[0][0], b[1][0], b[2][0]], [b[0][1], b[1][1], b[2][1]], [b[0][2], b[1][2], b[2][2]],
     [b[0][0], b[1][1], b[2][2]], [b[0][2], b[1][1], b[2][0]]]
  }

  /** All three cells equal the first one, which is not empty. */
  predicate Uniform(line: seq<int>)
    requires |line| == 3
  {
    line[0] != 0 && line[1] == line[0] && line[2] == line[0]
  }

  /** The value of the first uniform line, scanning `ls` from the front. */
  function FirstUniform(ls: seq<seq<int>>): (w: Option<int>)
    requires forall k | 0 <= k < |ls| :: |ls[k]| == 3
    ensures w.None? <==> forall k | 0 <= k < |ls| :: !Uniform(ls[k])
    ensures w.Some? ==> exists k | 0 <= k < |ls| ::
      Uniform(ls[k]) && w.value == ls[k][0] && forall k' | 0 <= k' < k :: !Uniform(ls[k'])
  {
    if ls == [] then None
    else if Uniform(ls[0]) then Some(ls[0][0])
    else
      var w := FirstUniform(ls[1..]);
      assert forall k | 1 <= k < |ls| :: ls[k] == ls[1..][k - 1];
      w
  }

  /**
   * checar_vencedor: the occupant of the first complete line (rows, then
   * columns, then diagonals), or None when no line is complete.
   */
  function Winner(b: Board): (w: Option<int>)
    requires Shaped(b)
    ensures w.None? <==> forall k | 0 <= k < 8 :: !Uniform(Lines(b)[k])
    ensures w.Some? ==> exists k | 0 <= k < 8 ::
      Uniform(Lines(b)[k]) && w.value == Lines(b)[k][0] && forall k' | 0 <= k' < k :: !Uniform(Lines(b)[k'])
    ensures w.Some? && Trinary(b) ==> w.value == 1 || w.value == -1
  {
    var w := FirstUniform(Lines(b));
    if w.Some? && Trinary(b) then
      var k :| 0 <= k < 8 && Uniform(Lines(b)[k]) && w.value == Lines(b)[k][0];
      assert k < 3 || (3 <= k < 6) || k == 6 || k == 7;
      w
    else w
  }

  // ---------------------------------------------------------------------
  // checar_empate, jogo_terminou
  // ---------------------------------------------------------------------

  /** Some row contains a 0 (`any(0 in linha for linha in board)`). */
  predicate HasEmpty(b: Board)
    requires Shaped(b)
  {
    exists i | 0 <= i < 3 :: 0 in b[i]
  }

  /** Every one of the nine cells is occupied. */
  predicate Full(b: Board)
    requires Shaped(b)
  {
    forall i, j | 0 <= i < 3 && 0 <= j < 3 :: b[i][j] != 0
  }

  /** checar_empate: no empty cell and no winner. */
  predicate IsDraw(b: Board)
    requires Shaped(b)
  {
    !HasEmpty(b) && Winner(b).None?
  }

  /** jogo_terminou: a winner, or a draw. */
  predicate IsOver(b: Board)
    requires Shaped(b)
  {
    Winner(b).Some? || IsDraw(b)
  }

  /** No row holding a 0 means all nine cells are occupied, and back. */
  lemma NoEmptyIffFull(b: Board)
    requires Shaped(b)
    ensures !HasEmpty(b) <==> Full(b)
  {
    if !Full(b) {
      var i, j :| 0 <= i < 3 && 0 <= j < 3 && b[i][j] == 0;
      assert 0 in b[i];
    }
  }

  /** A draw is a full board with no winner. */
  lemma DrawIffFull(b: Board)
    requires Shaped(b)
    ensures IsDraw(b) <==> Full(b) && Winner(b).None?
  {
    NoEmptyIffFull(b);
  }

  /** The game is over exactly when someone has won or the board is full. */
  lemma OverIffFull(b: Board)
    requires Shaped(b)
    ensures IsOver(b) <==> Winner(b).Some? || Full(b)
  {
    NoEmptyIffFull(b);
  }

  // ---------------------------------------------------------------------
  // movimentos_disponiveis
  // ---------------------------------------------------------------------

  /** The empty cells among the first `n` cells of row `i`, left to right. */
  function RowEmpties(row: seq<int>, i: int, n: nat): seq<Move>
    requires n <= |row|
  {
    if n == 0 then []
    else RowEmpties(row, i, n - 1) + (if row[n - 1] == 0 then [Move(i, n - 1)] else [])
  }

  /** The empty cells of the first `n` rows, in row-major order. */
  function EmptiesUpTo(b: Board, n: nat): seq<Move>
    requires Shaped(b) && n <= 3
  {
    if n == 0 then [] else EmptiesUpTo(b, n - 1) + RowEmpties(b[n - 1], n - 1, |b[n - 1]|)
  }

  /** movimentos_disponiveis, as a value: the empty cells in row-major order. */
  function EmptyCells(b: Board): seq<Move>
    requires Shaped(b)
  {
    EmptiesUpTo(b, |b|)
  }

  /** Strictly increasing row-major positions: each cell once, in row-major order. */
  predicate RowMajor(ms: seq<Move>)
  {
    forall p, q | 0 <= p < q < |ms| :: Index(ms[p]) < Index(ms[q])
  }

  lemma {:induction false} RowEmptiesSpec(row: seq<int>, i: int, n: nat)
    requires n <= |row|
    ensures forall m :: m in RowEmpties(row, i, n) <==> m.row == i && 0 <= m.col < n && row[m.col] == 0
    ensures RowMajor(RowEmpties(row, i, n))
  {
    if n > 0 {
      RowEmptiesSpec(row, i, n - 1);
    }
  }

  lemma {:induction false} EmptiesUpToSpec(b: Board, n: nat)
    requires Shaped(b) && n <= 3
    ensures forall m :: m in EmptiesUpTo(b, n) <==> InGrid(m) && m.row < n && b[m.row][m.col] == 0
    ensures RowMajor(EmptiesUpTo(b, n))
    ensures forall m | m in EmptiesUpTo(b, n) :: Index(m) < 3 * n
  {
    if n > 0 {
      EmptiesUpToSpec(b, n - 1);
      RowEmptiesSpec(b[n - 1], n - 1, 3);
      var front, back := EmptiesUpTo(b, n - 1), RowEmpties(b[n - 1], n - 1, 3);
      assert EmptiesUpTo(b, n) == front + back;
      forall p, q | 0 <= p < q < |front + back|
        ensures Index((front + back)[p]) < Index((front + back)[q])
      {
        if q < |front| {
        } else if p >= |front| {
          assert (front + back)[p] == back[p - |front|];
          assert (front + back)[q] == back[q - |front|];
        } else {
          assert (front + back)[p] in front;
          assert (front + back)[q] in back;
        }
      }
    }
  }

  /**
   * movimentos_disponiveis lists exactly the empty cells, each once, in
   * row-major order.
   */
  lemma EmptyCellsSpec(b: Board)
    requires Shaped(b)
    ensures forall m :: m in EmptyCells(b) <==> InGrid(m) && b[m.row][m.col] == 0
    ensures RowMajor(EmptyCells(b))
  {
    EmptiesUpToSpec(b, 3);
  }

  lemma {:induction false} RowEmptiesPlace(row: seq<int>, i: int, c: nat, v: int, n: nat)
    requires n <= |row| && c < |row| && row[c] == 0 && v != 0
    ensures |RowEmpties(row[c := v], i, n)| + (if c < n then 1 else 0) == |RowEmpties(row, i, n)|
  {
    if n > 0 {
      RowEmptiesPlace(row, i, c, v, n - 1);
    }
  }

  lemma {:induction false} EmptiesUpToPlace(b: Board, m: Move, v: int, n: nat)
    requires Shaped(b) && InGrid(m) && b[m.row][m.col] == 0 && v != 0 && n <= 3
    ensures |EmptiesUpTo(Place(b, m, v), n)| + (if m.row < n then 1 else 0) == |EmptiesUpTo(b, n)|
  {
    if n > 0 {
      EmptiesUpToPlace(b, m, v, n - 1);
      if n - 1 == m.row {
        RowEmptiesPlace(b[m.row], m.row, m.col, v, 3);
      } else {
        assert Place(b, m, v)[n - 1] == b[n - 1];
      }
    }
  }

  /**
   * Playing an empty cell with a non-zero mark removes exactly that cell
   * from movimentos_disponiveis and keeps every other one, in order.
   */
  lemma PlaceShrinks(b: Board, m: Move, v: int)
    requires Shaped(b) && m in EmptyCells(b) && v != 0
    ensures InGrid(m) && b[m.row][m.col] == 0
    ensures |EmptyCells(Place(b, m, v))| + 1 == |EmptyCells(b)|
    ensures forall x :: x in EmptyCells(Place(b, m, v)) <==> x in EmptyCells(b) && x != m
    ensures RowMajor(EmptyCells(Place(b, m, v)))
  {
    EmptyCellsSpec(b);
    EmptyCellsSpec(Place(b, m, v));
    EmptiesUpToPlace(b, m, v, 3);
  }

  /** Writing a cell that was empty and then writing 0 back restores the board. */
  lemma PlaceUndo(b: Board, m: Move, v: int)
    requires Shaped(b) && InGrid(m) && b[m.row][m.col] == 0
    ensures Place(Place(b, m, v), m, 0) == b
  {
    assert Place(Place(b, m, v), m, 0)[m.row] == b[m.row];
  }

  /** A game that is not over still has a move to play. */
  lemma NotOverHasMoves(b: Board)
    requires Shaped(b) && !IsOver(b)
    ensures EmptyCells(b) != []
  {
    var i :| 0 <= i < 3 && 0 in b[i];
    var j :| 0 <= j < 3 && b[i][j] == 0;
    EmptyCellsSpec(b);
    assert Move(i, j) in EmptyCells(b);
  }

  /**
   * The game is over exactly when there is a winner or no move is left, and
   * a draw is a board with no move left and no winner.
   */
  lemma OverIffWinnerOrFull(b: Board)
    requires Shaped(b)
    ensures IsDraw(b) <==> EmptyCells(b) == [] && Winner(b).None?
    ensures IsOver(b) <==> Winner(b).Some? || EmptyCells(b) == []
  {
    EmptyCellsSpec(b);
    if HasEmpty(b) {
      var i :| 0 <= i < 3 && 0 in b[i];
      var j :| 0 <= j < 3 && b[i][j] == 0;
      assert Move(i, j) in EmptyCells(b);
    }
    if EmptyCells(b) != [] {
      var m := EmptyCells(b)[0];
      assert m in EmptyCells(b);
      assert 0 in b[m.row];
    }
  }

  // ---------------------------------------------------------------------
  // Games: X moves first and the sides alternate
  // ---------------------------------------------------------------------

  /** The mark written at ply `k`: X (1) on even plies, O (-1) on odd ones. */
  function MarkAt(k: nat): int
  {
    if k % 2 == 0 then 1 else -1
  }

  /** The marks alternate: the player after `k` moves is the other one. */
  lemma MarkAlternates(k: nat)
    ensures MarkAt(k + 1) == -MarkAt(k)
  {
  }

  predicate AllInGrid(ms: seq<Move>)
  {
    forall k | 0 <= k < |ms| :: InGrid(ms[k])
  }

  /** The board after the moves `ms` are played from an empty board, X first. */
  function Replay(ms: seq<Move>): (b: Board)
    requires AllInGrid(ms)
    ensures Shaped(b) && Trinary(b)
  {
    if ms == [] then EmptyBoard()
    else Place(Replay(ms[..|ms| - 1]), ms[|ms| - 1], MarkAt(|ms| - 1))
  }

  /**
   * Every move of `ms` was played on a cell that was empty at the time: the
   * moves before the last were legal, and the last was one of the empty
   * cells of the board they left.
   */
  predicate LegalPlay(ms: seq<Move>)
    ensures LegalPlay(ms) ==> AllInGrid(ms)
  {
    if ms == [] then true
    else
      var front, last := ms[..|ms| - 1], ms[|ms| - 1];
      && LegalPlay(front) && InGrid(last) && last in EmptyCells(Replay(front))
      && assert ms == front + [last]; true
  }

  lemma EmptyBoardMoves()
    ensures |EmptyCells(EmptyBoard())| == 9
  {
    assert RowEmpties([0, 0, 0], 0, 3) == [Move(0, 0), Move(0, 1), Move(0, 2)];
    assert RowEmpties([0, 0, 0], 1, 3) == [Move(1, 0), Move(1, 1), Move(1, 2)];
    assert RowEmpties([0, 0, 0], 2, 3) == [Move(2, 0), Move(2, 1), Move(2, 2)];
  }

  /**
   * Every legal move fills one empty cell, so a legal game has at most nine
   * moves, and the cells left are nine minus the moves played.
   */
  lemma {:induction false} LegalPlayLength(ms: seq<Move>)
    requires LegalPlay(ms)
    ensures |EmptyCells(Replay(ms))| + |ms| == 9
    ensures |ms| <= 9
  {
    if ms == [] {
      EmptyBoardMoves();
    } else {
      var n := |ms| - 1;
      var front := ms[..n];
      LegalPlayLength(front);
      PlaceShrinks(Replay(front), ms[n], MarkAt(n));
    }
  }

  lemma ReplayExtend(ms: seq<Move>, m: Move)
    requires AllInGrid(ms) && InGrid(m)
    ensures AllInGrid(ms + [m])
    ensures Replay(ms + [m]) == Place(Replay(ms), m, MarkAt(|ms|))
  {
    var ms' := ms + [m];
    assert AllInGrid(ms');
    assert ms'[..|ms|] == ms;
  }

  /** Extending a legal game by a move on an empty cell keeps it legal. */
  lemma LegalPlayExtend(ms: seq<Move>, m: Move)
    requires LegalPlay(ms) && InGrid(m) && m in EmptyCells(Replay(ms))
    ensures LegalPlay(ms + [m])
    ensures Replay(ms + [m]) == Place(Replay(ms), m, MarkAt(|ms|))
  {
    ReplayExtend(ms, m);
    assert (ms + [m])[..|ms|] == ms;
  }

  /** Playing an empty cell extends a legal game and uses up one empty cell. */
  lemma LegalStep(ms: seq<Move>, m: Move)
    requires LegalPlay(ms) && m in EmptyCells(Replay(ms))
    ensures InGrid(m) && LegalPlay(ms + [m])
    ensures Replay(ms + [m]) == Place(Replay(ms), m, MarkAt(|ms|))
    ensures |EmptyCells(Replay(ms + [m]))| + 1 == |EmptyCells(Replay(ms))|
  {
    PlaceShrinks(Replay(ms), m, MarkAt(|ms|));
    LegalPlayExtend(ms, m);
  }

  // ---------------------------------------------------------------------
  // The class
  // ---------------------------------------------------------------------

  class TicTacToe {
    /** The three rows of the board. */
    var board: Board

    predicate Valid()
      reads this
    {
      Shaped(board)
    }

    /** A new game: nine empty cells. */
    constructor ()
      ensures Valid() && board == EmptyBoard()
      ensures forall i, j | 0 <= i < 3 && 0 <= j < 3 :: board[i][j] == 0
    {
      board := EmptyBoard();
    }

    /** jogada_valida: the cell is one of movimentos_disponiveis. */
    function IsValidMove(l: int, c: int): (ok: bool)
      reads this
      requires Valid() && InGrid(Move(l, c))
      ensures ok <==> Move(l, c) in EmptyCells(board)
    {
      EmptyCellsSpec(board);
      board[l][c] == 0
    }

    /**
     * fazer_jogada: on an empty cell, writes `player` there and reports
     * true; on an occupied cell reports false and changes nothing.
     */
    method MakeMove(l: int, c: int, player: int) returns (ok: bool)
      requires Valid() && InGrid(Move(l, c))
      modifies this
      ensures Valid()
      ensures ok <==> Move(l, c) in EmptyCells(old(board))
      ensures board == if ok then Place(old(board), Move(l, c), player) else old(board)
    {
      if IsValidMove(l, c) {
        board := Place(board, Move(l, c), player);
        return true;
      }
      return false;
    }

    /** movimentos_disponiveis: scans the rows and columns in order. */
    method AvailableMoves() returns (movs: seq<Move>)
      requires Valid()
      ensures movs == EmptyCells(board)
    {
      movs := [];
      for i := 0 to 3
        invariant movs == EmptiesUpTo(board, i)
      {
        for j := 0 to 3
          invariant movs == EmptiesUpTo(board, i) + RowEmpties(board[i], i, j)
        {
          if board[i][j] == 0 {
            movs := movs + [Move(i, j)];
          }
        }
      }
    }

    /** reset: a fresh empty board. */
    method Reset()
      modifies this
      ensures Valid() && board == EmptyBoard()
      ensures forall i, j | 0 <= i < 3 && 0 <= j < 3 :: board[i][j] == 0
    {
      board := EmptyBoard();
    }
  }
}
