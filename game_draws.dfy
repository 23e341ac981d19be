/**
 * The random numbers a series of games consumes, made explicit. Game `g`
 * draws its side from `side(g)`; at ply `p` the "medio" opponent flips
 * `coin(g, p)` (a uniform number in [0, 1)) and, when it plays at random,
 * takes move number `pick(g, p, n)` of the `n` available ones. With the
 * draws fixed, every ply of a game is determined: `PlyChoice` is the move it
 * makes and `Chosen` says a whole game was played that way.
 */
module GameDraws {
  import opened Wrappers
  import opened TicTacToe
  import opened Minimax
  import opened Genes
  import opened NeuralNet

  datatype Draws = Draws(side: nat -> bool, coin: (nat, nat) -> real, pick: (nat, nat, nat) -> nat)

  /** Every random pick names one of the `n` available moves. */
  ghost predicate PicksInRange(d: Draws)
  {
    forall g: nat, p: nat, n: nat | 0 < n :: d.pick(g, p, n) < n
  }

  /**
   * The move ply `k` of game `g` makes on board `b`. On the network's turns
   * (its mark is `netMark`) it is the network's pick among the empty cells,
   * by the ranking that the network with weights `chrom` gives `b`; on the
   * other turns it is minimax's answer in `mode` with that ply's draws.
   */
  ghost function PlyChoice(b: Board, k: nat, ranking: (Chromosome, Board) -> seq<int>, chrom: Chromosome,
                           netMark: int, mode: Option<string>, g: nat, d: Draws): Option<Move>
    requires Shaped(b) && PicksInRange(d)
  {
    if MarkAt(k) == netMark then NetworkPick(EmptyCells(b), ranking(chrom, b))
    else ModeAnswer(b, MarkAt(k), mode, d.coin(g, k), d.pick(g, k, |EmptyCells(b)|))
  }

  /** Ply `k` of `history` made the move `PlyChoice` gives it on the board before it. */
  ghost predicate ChosenAt(history: seq<Move>, k: nat, ranking: (Chromosome, Board) -> seq<int>, chrom: Chromosome,
                           netMark: int, mode: Option<string>, g: nat, d: Draws)
    requires AllInGrid(history) && k < |history| && PicksInRange(d)
  {
    AllInGrid(history[..k]) && Some(history[k]) == PlyChoice(Replay(history[..k]), k, ranking, chrom, netMark, mode, g, d)
  }

  /** Every ply of `history` made the move `PlyChoice` gives it on the board before it. */
  ghost predicate Chosen(history: seq<Move>, ranking: (Chromosome, Board) -> seq<int>, chrom: Chromosome,
                         netMark: int, mode: Option<string>, g: nat, d: Draws)
    requires AllInGrid(history) && PicksInRange(d)
  {
    forall k: nat | k < |history| :: ChosenAt(history, k, ranking, chrom, netMark, mode, g, d)
  }

  lemma ChosenExtend(history: seq<Move>, m: Move, ranking: (Chromosome, Board) -> seq<int>, chrom: Chromosome,
                     netMark: int, mode: Option<string>, g: nat, d: Draws)
    requires AllInGrid(history) && InGrid(m) && PicksInRange(d)
    requires Chosen(history, ranking, chrom, netMark, mode, g, d)
    requires Some(m) == PlyChoice(Replay(history), |history|, ranking, chrom, netMark, mode, g, d)
    ensures AllInGrid(history + [m]) && Chosen(history + [m], ranking, chrom, netMark, mode, g, d)
  {
    var h := history + [m];
    assert AllInGrid(h);
    forall k: nat | k < |h|
      ensures ChosenAt(h, k, ranking, chrom, netMark, mode, g, d)
    {
      if k == |history| {
        assert h[..k] == history;
      } else {
        assert ChosenAt(history, k, ranking, chrom, netMark, mode, g, d);
        assert h[..k] == history[..k] && h[k] == history[k];
      }
    }
  }
}
