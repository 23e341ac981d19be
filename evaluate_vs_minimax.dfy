/**
 * The evaluation harness: games between a trained network and minimax in a
 * chosen mode, X always first, the network's side alternating from game to
 * game, and the tally of outcomes.
 */
module EvaluateVsMinimax {
  import opened Wrappers
  import opened TicTacToe
  import opened Minimax
  import opened Genes
  import opened NeuralNet
  import opened GameDraws

  /** The three tally keys: 'rede', 'minimax' and 'empate'. */
  datatype Outcome = Network | MinimaxWon | Draw

  /** The mark the network plays with. */
  function NetworkMark(networkIsX: bool): int
  {
    if networkIsX then 1 else -1
  }

  /** The outcome a finished board means for the network. */
  function OutcomeOf(winner: Option<int>, networkIsX: bool): (o: Outcome)
    ensures o == Network <==> winner == Some(NetworkMark(networkIsX))
    ensures o == MinimaxWon <==> winner == Some(-NetworkMark(networkIsX))
    ensures o == Draw <==> winner != Some(1) && winner != Some(-1)
  {
    if winner == Some(1) then (if networkIsX then Network else MinimaxWon)
    else if winner == Some(-1) then (if !networkIsX then Network else MinimaxWon)
    else Draw
  }

  /** On a board reached by legal play a draw is exactly a board without a complete line. */
  lemma OutcomeOfReplay(history: seq<Move>, networkIsX: bool)
    requires LegalPlay(history)
    ensures OutcomeOf(Winner(Replay(history)), networkIsX) == Draw <==> Winner(Replay(history)).None?
  {
    var w := Winner(Replay(history));
    if w.Some? {
      assert w.value == 1 || w.value == -1;
    }
  }

  /** Every move made with `mark` is the one melhor_jogada picks on the board before it. */
  ghost predicate FollowsBestChoice(history: seq<Move>, mark: int)
    requires AllInGrid(history)
  {
    forall k | 0 <= k < |history| && MarkAt(k) == mark ::
      AllInGrid(history[..k]) && Some(history[k]) == BestChoice(Replay(history[..k]), mark)
  }

  /**
   * Outside "medio" a game played as chosen has every minimax move equal to
   * melhor_jogada's on the board before it.
   */
  lemma ChosenFollowsBest(history: seq<Move>, ranking: (Chromosome, Board) -> seq<int>, chrom: Chromosome,
                          netMark: int, mode: string, g: nat, d: Draws)
    requires AllInGrid(history) && PicksInRange(d) && (netMark == 1 || netMark == -1)
    requires Chosen(history, ranking, chrom, netMark, Some(mode), g, d) && !IsMedium(Some(mode))
    ensures FollowsBestChoice(history, -netMark)
  {
    forall k | 0 <= k < |history| && MarkAt(k) == -netMark
      ensures AllInGrid(history[..k]) && Some(history[k]) == BestChoice(Replay(history[..k]), -netMark)
    {
      assert ChosenAt(history, k, ranking, chrom, netMark, Some(mode), g, d);
    }
  }

  /**
   * The move of one turn of play_game: the network's proposal on its turn,
   * minimax's answer in `mode` otherwise. Either is an empty cell, so the
   * random replacements are never reached; outside "medio" minimax's answer
   * is melhor_jogada's.
   */
  method GameMove(jogo: TicTacToe, movs: seq<Move>, rede: NeuralNetwork, ranking: (Chromosome, Board) -> seq<int>,
                  mode: string, player: int, net: int, g: nat, ply: nat, draws: Draws)
    returns (mv: Move)
    requires jogo.Valid() && movs == EmptyCells(jogo.board) && movs != [] && PicksInRange(draws)
    requires rede.Valid() && player == MarkAt(ply)
    modifies jogo
    ensures jogo.Valid() && jogo.board == old(jogo.board)
    ensures mv in EmptyCells(jogo.board)
    ensures Some(mv) == PlyChoice(jogo.board, ply, ranking, rede.ToChromosome(), net, Some(mode), g, draws)
    ensures player != net && !IsMedium(Some(mode)) ==> Some(mv) == BestChoice(jogo.board, player)
  {
    EmptyCellsSpec(jogo.board);
    if player == net {
      var choice := rede.ChooseMove(movs, ranking(rede.ToChromosome(), jogo.board));
      mv := choice.value;
      if !jogo.IsValidMove(mv.row, mv.col) {
        // the network only proposes listed moves: random.choice is never reached
        assert false;
      }
    } else {
      var answer := BestMoveMode(jogo, player, Some(mode), draws.coin(g, ply), draws.pick(g, ply, |movs|));
      if answer == None {
        // while cells are empty minimax answers: random.choice is never reached
        assert false;
      }
      mv := answer.value;
    }
  }

  /**
   * play_game: the network proposes a move from its ranking of the cells,
   * minimax answers in `mode`. The replacement of an invalid network move or
   * of a missing minimax move by a random cell never happens: the network
   * only proposes listed moves and minimax always finds one while the game
   * is not over. Every move of `history` is the one its side chooses, so
   * outside "medio" every minimax move is melhor_jogada's.
   */
  method PlayGame(rede: NeuralNetwork, ranking: (Chromosome, Board) -> seq<int>, mode: string, networkIsX: bool,
                  g: nat, draws: Draws)
    returns (res: Outcome, ghost history: seq<Move>)
    requires rede.Valid() && PicksInRange(draws)
    ensures LegalPlay(history) && |history| <= 9 && IsOver(Replay(history))
    ensures res == OutcomeOf(Winner(Replay(history)), networkIsX)
    ensures Chosen(history, ranking, rede.ToChromosome(), NetworkMark(networkIsX), Some(mode), g, draws)
    ensures !IsMedium(Some(mode)) ==> FollowsBestChoice(history, -NetworkMark(networkIsX))
  {
    var jogo := new TicTacToe();
    var player := 1;
    var net := NetworkMark(networkIsX);
    ghost var chrom := rede.ToChromosome();
    history := [];
    var ply := 0;
    while !IsOver(jogo.board)
      invariant fresh(jogo) && jogo.Valid()
      invariant LegalPlay(history) && jogo.board == Replay(history)
      invariant ply == |history| && player == MarkAt(ply)
      invariant Chosen(history, ranking, chrom, net, Some(mode), g, draws)
      decreases |EmptyCells(jogo.board)|
    {
      var movs := jogo.AvailableMoves();
      NotOverHasMoves(jogo.board);
      var mv := GameTurn(jogo, movs, rede, ranking, mode, player, net, g, ply, draws, history, chrom);
      history := history + [mv];
      ply := ply + 1;
      player := -player;
    }
    LegalPlayLength(history);
    OverIffWinnerOrFull(jogo.board);
    res := OutcomeOf(Winner(jogo.board), networkIsX);
    if !IsMedium(Some(mode)) {
      ChosenFollowsBest(history, ranking, chrom, net, mode, g, draws);
    }
  }

  /**
   * One turn of play_game after the moves `history`: the move of the side
   * to move is chosen and made, and the game stays legal and chosen.
   */
  method GameTurn(jogo: TicTacToe, movs: seq<Move>, rede: NeuralNetwork, ranking: (Chromosome, Board) -> seq<int>,
                  mode: string, player: int, net: int, g: nat, ply: nat, draws: Draws,
                  ghost history: seq<Move>, ghost chrom: Chromosome)
    returns (mv: Move)
    requires jogo.Valid() && movs == EmptyCells(jogo.board) && movs != [] && PicksInRange(draws)
    requires rede.Valid() && chrom == rede.ToChromosome()
    requires LegalPlay(history) && jogo.board == Replay(history) && ply == |history| && player == MarkAt(ply)
    requires Chosen(history, ranking, chrom, net, Some(mode), g, draws)
    modifies jogo
    ensures jogo.Valid() && LegalPlay(history + [mv]) && jogo.board == Replay(history + [mv])
    ensures |EmptyCells(jogo.board)| < |EmptyCells(old(jogo.board))|
    ensures Chosen(history + [mv], ranking, chrom, net, Some(mode), g, draws)
    ensures -player == MarkAt(ply + 1)
  {
    MarkAlternates(ply);
    mv := GameMove(jogo, movs, rede, ranking, mode, player, net, g, ply, draws);
    LegalStep(history, mv);
    ChosenExtend(history, mv, ranking, chrom, net, Some(mode), g, draws);
    var _ := jogo.MakeMove(mv.row, mv.col, player);
  }

  /** How many games ended with outcome `o`. */
  function Count(outcomes: seq<Outcome>, o: Outcome): (n: nat)
    ensures n <= |outcomes|
  {
    if outcomes == [] then 0
    else Count(outcomes[..|outcomes| - 1], o) + (if outcomes[|outcomes| - 1] == o then 1 else 0)
  }

  lemma CountAppend(outcomes: seq<Outcome>, res: Outcome, o: Outcome)
    ensures Count(outcomes + [res], o) == Count(outcomes, o) + (if res == o then 1 else 0)
  {
    assert (outcomes + [res])[..|outcomes|] == outcomes;
  }

  /** Counting by the recursion is counting occurrences: `Count` is the multiplicity in `outcomes`. */
  lemma {:induction false} CountMultiplicity(outcomes: seq<Outcome>, o: Outcome)
    ensures Count(outcomes, o) == multiset(outcomes)[o]
  {
    if outcomes != [] {
      var front := outcomes[..|outcomes| - 1];
      CountMultiplicity(front, o);
      assert outcomes == front + [outcomes[|outcomes| - 1]];
    }
  }

  /** The tally of `outcomes`: each of the three keys maps to how often it occurs. */
  function Tally(outcomes: seq<Outcome>): (t: map<Outcome, nat>)
    ensures t.Keys == {Network, MinimaxWon, Draw}
    ensures forall o :: o in t ==> t[o] == Count(outcomes, o) == multiset(outcomes)[o]
  {
    CountMultiplicity(outcomes, Network);
    CountMultiplicity(outcomes, MinimaxWon);
    CountMultiplicity(outcomes, Draw);
    map[Network := Count(outcomes, Network), MinimaxWon := Count(outcomes, MinimaxWon), Draw := Count(outcomes, Draw)]
  }

  /** `results[res] += 1` after one more game keeps the tally. */
  lemma TallyAppend(outcomes: seq<Outcome>, res: Outcome)
    ensures Tally(outcomes + [res]) == Tally(outcomes)[res := Tally(outcomes)[res] + 1]
  {
    CountAppend(outcomes, res, Network);
    CountAppend(outcomes, res, MinimaxWon);
    CountAppend(outcomes, res, Draw);
  }

  /** Every game is counted under exactly one key. */
  lemma {:induction false} CountTotal(outcomes: seq<Outcome>)
    ensures Count(outcomes, Network) + Count(outcomes, MinimaxWon) + Count(outcomes, Draw) == |outcomes|
  {
    if outcomes != [] {
      CountTotal(outcomes[..|outcomes| - 1]);
    }
  }

  /** The network plays X in game `i` exactly when `i` is even. */
  function NetworkStarts(i: nat): bool
  {
    i % 2 == 0
  }

  /** The side the network plays alternates from game to game. */
  lemma StartsAlternate(i: nat)
    ensures NetworkStarts(i + 1) == !NetworkStarts(i)
  {
  }

  /**
   * Game `g` of play_game: legal moves to the end, each chosen by its side,
   * the network with weights `chrom` playing X exactly when `networkIsX`,
   * minimax in `mode`, with the draws of game `g`.
   */
  ghost predicate Played(history: seq<Move>, ranking: (Chromosome, Board) -> seq<int>, chrom: Chromosome,
                         mode: string, networkIsX: bool, g: nat, draws: Draws)
  {
    && LegalPlay(history) && |history| <= 9 && IsOver(Replay(history)) && PicksInRange(draws)
    && Chosen(history, ranking, chrom, NetworkMark(networkIsX), Some(mode), g, draws)
  }

  /**
   * Game `i` of evaluate is `histories[i]`, played by the network with
   * weights `chrom` as X exactly when `i` is even, and `outcomes[i]` is its
   * result.
   */
  ghost predicate Rounds(histories: seq<seq<Move>>, outcomes: seq<Outcome>, ranking: (Chromosome, Board) -> seq<int>,
                         chrom: Chromosome, mode: string, draws: Draws)
  {
    && |histories| == |outcomes|
    && forall i | 0 <= i < |histories| ::
      Played(histories[i], ranking, chrom, mode, NetworkStarts(i), i, draws)
      && outcomes[i] == OutcomeOf(Winner(Replay(histories[i])), NetworkStarts(i))
  }

  lemma RoundsExtend(histories: seq<seq<Move>>, outcomes: seq<Outcome>, ranking: (Chromosome, Board) -> seq<int>,
                     chrom: Chromosome, mode: string, draws: Draws, h: seq<Move>, o: Outcome)
    requires Rounds(histories, outcomes, ranking, chrom, mode, draws)
    requires Played(h, ranking, chrom, mode, NetworkStarts(|histories|), |histories|, draws)
    requires o == OutcomeOf(Winner(Replay(h)), NetworkStarts(|histories|))
    ensures Rounds(histories + [h], outcomes + [o], ranking, chrom, mode, draws)
  {
    var hs, os := histories + [h], outcomes + [o];
    forall i | 0 <= i < |hs|
      ensures Played(hs[i], ranking, chrom, mode, NetworkStarts(i), i, draws)
      ensures os[i] == OutcomeOf(Winner(Replay(hs[i])), NetworkStarts(i))
    {
      if i < |histories| {
        assert hs[i] == histories[i] && os[i] == outcomes[i];
      } else {
        assert hs[i] == h && os[i] == o && i == |histories|;
      }
    }
  }

  /**
   * One round of evaluate: the game `history`, then `results[res] += 1` for
   * its outcome.
   */
  method PlayRound(rede: NeuralNetwork, ranking: (Chromosome, Board) -> seq<int>, mode: string, networkIsX: bool,
                   g: nat, draws: Draws, results: map<Outcome, nat>, ghost outcomes: seq<Outcome>)
    returns (results': map<Outcome, nat>, ghost outcomes': seq<Outcome>, ghost history: seq<Move>)
    requires rede.Valid() && PicksInRange(draws) && results == Tally(outcomes)
    ensures Played(history, ranking, rede.ToChromosome(), mode, networkIsX, g, draws)
    ensures outcomes' == outcomes + [OutcomeOf(Winner(Replay(history)), networkIsX)]
    ensures results' == Tally(outcomes')
  {
    var res;
    res, history := PlayGame(rede, ranking, mode, networkIsX, g, draws);
    results', outcomes' := Bump(results, outcomes, res);
  }

  /** `results[res] += 1`: the tally of one more outcome. */
  method Bump(results: map<Outcome, nat>, ghost outcomes: seq<Outcome>, res: Outcome)
    returns (results': map<Outcome, nat>, ghost outcomes': seq<Outcome>)
    requires results == Tally(outcomes)
    ensures outcomes' == outcomes + [res] && results' == Tally(outcomes')
  {
    TallyAppend(outcomes, res);
    results' := results[res := results[res] + 1];
    outcomes' := outcomes + [res];
  }

  /**
   * evaluate: `nGames` games, the network X in the even-numbered ones; game
   * `i` is `histories[i]`, played move by move as the network and minimax
   * choose, and ended in `outcomes[i]`. The tally counts each outcome and
   * its three entries add up to `nGames`.
   */
  method Evaluate(rede: NeuralNetwork, ranking: (Chromosome, Board) -> seq<int>, nGames: nat, mode: string,
                  draws: Draws)
    returns (results: map<Outcome, nat>, ghost outcomes: seq<Outcome>, ghost histories: seq<seq<Move>>)
    requires rede.Valid() && PicksInRange(draws)
    ensures results.Keys == {Network, MinimaxWon, Draw}
    ensures |outcomes| == nGames && Rounds(histories, outcomes, ranking, rede.ToChromosome(), mode, draws)
    ensures forall o :: o in results ==> results[o] == multiset(outcomes)[o]
    ensures results[Network] + results[MinimaxWon] + results[Draw] == nGames
  {
    results := map[Network := 0, MinimaxWon := 0, Draw := 0];
    outcomes, histories := [], [];
    assert results == Tally(outcomes);
    var networkStarts := true;
    ghost var chrom := rede.ToChromosome();
    for i := 0 to nGames
      invariant |outcomes| == i && Rounds(histories, outcomes, ranking, chrom, mode, draws)
      invariant networkStarts == NetworkStarts(i)
      invariant results == Tally(outcomes)
    {
      ghost var h;
      results, outcomes, h := PlayRound(rede, ranking, mode, networkStarts, i, draws, results, outcomes);
      RoundsExtend(histories, outcomes[..i], ranking, chrom, mode, draws, h, outcomes[i]);
      assert outcomes == outcomes[..i] + [outcomes[i]];
      histories := histories + [h];
      StartsAlternate(i);
      networkStarts := !networkStarts;
    }
    CountTotal(outcomes);
  }
}
