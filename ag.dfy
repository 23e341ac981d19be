/**
 * The numpy genetic algorithm that trains the network against the "medio"
 * minimax player: the fitness of a network, the genetic operators on
 * chromosomes (flat weight vectors) and the generation loop with its global
 * best. Every random number is a parameter.
 */
module Ag {
  import opened Wrappers
  import opened TicTacToe
  import opened Minimax
  import opened Sorting
  import opened Genes
  import opened NeuralNet
  import opened GameDraws

  const EliteSize: nat := 4
  const TournamentK: nat := 3
  const MutationRate: real := 0.1
  const GamesPerIndividual: nat := 40

  // ---------------------------------------------------------------------
  // Fitness
  // ---------------------------------------------------------------------

  /**
   * One training game: X moves first, the network plays `networkSide`, the
   * opponent is minimax in "medio" mode. Returns the winner and the number of
   * invalid network proposals, which is always 0: the network only ever
   * proposes a listed move, so the penalty branch is dead. `ranking(c, b)` is
   * the order of the cells, best first, that the network with weights `c`
   * gives the board `b`; every move of `history` is the one its side chooses.
   */
  method PlayTrainingGame(rede: NeuralNetwork, ranking: (Chromosome, Board) -> seq<int>, networkSide: int, g: nat,
                          draws: Draws)
    returns (winner: Option<int>, invalid: nat, ghost history: seq<Move>)
    requires rede.Valid() && PicksInRange(draws)
    ensures invalid == 0
    ensures LegalPlay(history) && |history| <= 9
    ensures IsOver(Replay(history)) && winner == Winner(Replay(history))
    ensures Chosen(history, ranking, rede.ToChromosome(), networkSide, Some("medio"), g, draws)
  {
    var jogo := new TicTacToe();
    var current := 1;
    ghost var chrom := rede.ToChromosome();
    invalid := 0;
    history := [];
    var ply := 0;
    while !IsOver(jogo.board)
      invariant fresh(jogo) && jogo.Valid()
      invariant LegalPlay(history) && jogo.board == Replay(history)
      invariant ply == |history| && current == MarkAt(ply)
      invariant invalid == 0
      invariant Chosen(history, ranking, chrom, networkSide, Some("medio"), g, draws)
      decreases |EmptyCells(jogo.board)|
    {
      var movs := jogo.AvailableMoves();
      NotOverHasMoves(jogo.board);
      if movs == [] {
        break;
      }
      var m := TrainingTurn(jogo, movs, rede, ranking, current, networkSide, g, ply, draws, history, chrom);
      history := history + [m];
      ply := ply + 1;
      current := -current;
    }
    LegalPlayLength(history);
    OverIffWinnerOrFull(jogo.board);
    winner := Winner(jogo.board);
  }

  /**
   * One turn of a training game after the moves `history`: the move of the
   * side to move is chosen and made, and the game stays legal and chosen.
   */
  method TrainingTurn(jogo: TicTacToe, movs: seq<Move>, rede: NeuralNetwork, ranking: (Chromosome, Board) -> seq<int>,
                      current: int, networkSide: int, g: nat, ply: nat, draws: Draws,
                      ghost history: seq<Move>, ghost chrom: Chromosome)
    returns (m: Move)
    requires jogo.Valid() && movs == EmptyCells(jogo.board) && movs != [] && PicksInRange(draws)
    requires rede.Valid() && chrom == rede.ToChromosome()
    requires LegalPlay(history) && jogo.board == Replay(history) && ply == |history| && current == MarkAt(ply)
    requires Chosen(history, ranking, chrom, networkSide, Some("medio"), g, draws)
    modifies jogo
    ensures jogo.Valid() && LegalPlay(history + [m]) && jogo.board == Replay(history + [m])
    ensures |EmptyCells(jogo.board)| < |EmptyCells(old(jogo.board))|
    ensures Chosen(history + [m], ranking, chrom, networkSide, Some("medio"), g, draws)
    ensures -current == MarkAt(ply + 1)
  {
    MarkAlternates(ply);
    m := TrainingMove(jogo, movs, rede, ranking, current, networkSide, g, ply, draws);
    LegalStep(history, m);
    ChosenExtend(history, m, ranking, chrom, networkSide, Some("medio"), g, draws);
    var _ := jogo.MakeMove(m.row, m.col, current);
  }

  /**
   * The move of ply `ply` of a training game: the network's proposal on its
   * turn, the "medio" minimax answer otherwise. Either is an empty cell, so
   * the invalid-move penalty and the random replacements are never reached.
   */
  method TrainingMove(jogo: TicTacToe, movs: seq<Move>, rede: NeuralNetwork, ranking: (Chromosome, Board) -> seq<int>,
                      current: int, networkSide: int, g: nat, ply: nat, draws: Draws)
    returns (m: Move)
    requires jogo.Valid() && movs == EmptyCells(jogo.board) && movs != [] && PicksInRange(draws)
    requires rede.Valid() && current == MarkAt(ply)
    modifies jogo
    ensures jogo.Valid() && jogo.board == old(jogo.board)
    ensures m in EmptyCells(jogo.board)
    ensures Some(m) == PlyChoice(jogo.board, ply, ranking, rede.ToChromosome(), networkSide, Some("medio"), g, draws)
  {
    EmptyCellsSpec(jogo.board);
    if current == networkSide {
      var choice := rede.ChooseMove(movs, ranking(rede.ToChromosome(), jogo.board));
      m := choice.value;
      if !jogo.IsValidMove(m.row, m.col) {
        // the network only proposes listed moves: no penalty, no replacement
        assert false;
      }
    } else {
      var mv := BestMoveMode(jogo, current, Some("medio"), draws.coin(g, ply), draws.pick(g, ply, |movs|));
      if mv == None {
        // there are moves, so the opponent always answers with one
        assert false;
      }
      m := mv.value;
    }
  }

  /** What a finished game means for the network. */
  datatype GameResult = Win | Loss | Tie

  /** The network's mark in game `g`: `random.choice([1, -1])` as the draw `side(g)`. */
  function SideOf(draws: Draws, g: nat): int
  {
    if draws.side(g) then 1 else -1
  }

  /** The result for the network playing `side`, in the order avaliar_rede tests it. */
  function ResultOf(winner: Option<int>, side: int): (r: GameResult)
    requires side == 1 || side == -1
    ensures r == Win <==> winner == Some(side)
    ensures r == Loss <==> winner == Some(-side)
    ensures r == Tie <==> winner != Some(1) && winner != Some(-1)
  {
    if winner == Some(side) then Win else if winner == Some(-side) then Loss else Tie
  }

  /** Every game of `histories` was played legally to its end. */
  ghost predicate Finished(histories: seq<seq<Move>>)
  {
    forall g | 0 <= g < |histories| :: LegalPlay(histories[g]) && IsOver(Replay(histories[g]))
  }

  /**
   * In game `g` of `histories` every move is the one its side chooses: the
   * network with weights `chrom` on `SideOf(draws, g)`, "medio" minimax on
   * the other side, with the draws of game `g`.
   */
  ghost predicate Trained(histories: seq<seq<Move>>, ranking: (Chromosome, Board) -> seq<int>, chrom: Chromosome,
                          draws: Draws)
    requires Finished(histories) && PicksInRange(draws)
  {
    forall g | 0 <= g < |histories| :: Chosen(histories[g], ranking, chrom, SideOf(draws, g), Some("medio"), g, draws)
  }

  /** How many of the games `histories`, game `g` with the network on `SideOf(draws, g)`, ended in `r`. */
  ghost function CountResult(histories: seq<seq<Move>>, draws: Draws, r: GameResult): (n: nat)
    requires Finished(histories)
    ensures n <= |histories|
  {
    if histories == [] then 0
    else
      var k := |histories| - 1;
      assert Finished(histories[..k]) by {
        forall g | 0 <= g < k
          ensures histories[..k][g] == histories[g]
        {
        }
      }
      CountResult(histories[..k], draws, r)
        + if ResultOf(Winner(Replay(histories[k])), SideOf(draws, k)) == r then 1 else 0
  }

  lemma CountResultAppend(histories: seq<seq<Move>>, h: seq<Move>, draws: Draws, r: GameResult)
    requires Finished(histories) && LegalPlay(h) && IsOver(Replay(h))
    ensures Finished(histories + [h])
    ensures CountResult(histories + [h], draws, r) == CountResult(histories, draws, r)
      + if ResultOf(Winner(Replay(h)), SideOf(draws, |histories|)) == r then 1 else 0
  {
    var hs := histories + [h];
    assert hs[..|histories|] == histories;
    assert forall g | 0 <= g < |histories| :: hs[g] == histories[g];
  }

  lemma TrainedAppend(histories: seq<seq<Move>>, h: seq<Move>, ranking: (Chromosome, Board) -> seq<int>,
                      chrom: Chromosome, draws: Draws)
    requires Finished(histories) && LegalPlay(h) && IsOver(Replay(h)) && PicksInRange(draws)
    requires Trained(histories, ranking, chrom, draws)
    requires Chosen(h, ranking, chrom, SideOf(draws, |histories|), Some("medio"), |histories|, draws)
    ensures Finished(histories + [h]) && Trained(histories + [h], ranking, chrom, draws)
  {
    var hs := histories + [h];
    forall g | 0 <= g < |hs|
      ensures LegalPlay(hs[g]) && IsOver(Replay(hs[g]))
      ensures Chosen(hs[g], ranking, chrom, SideOf(draws, g), Some("medio"), g, draws)
    {
      if g < |histories| {
        assert hs[g] == histories[g];
      } else {
        assert g == |histories| && hs[g] == h;
      }
    }
  }

  /** The fitness of a series of games: +1 per win, -1 per loss, +0.5 per tie. */
  ghost function Score(histories: seq<seq<Move>>, draws: Draws): real
    requires Finished(histories)
  {
    CountResult(histories, draws, Win) as real - CountResult(histories, draws, Loss) as real
      + 0.5 * CountResult(histories, draws, Tie) as real
  }

  /**
   * avaliar_rede: plays `games` games, game `g` with the network on the side
   * drawn by `side(g)`; +1 per win, -1 per loss, +0.5 per draw, -10 per
   * invalid proposal (never made). `histories` are the games played, move by
   * move as the network and the "medio" opponent choose them.
   */
  method EvaluateNetwork(rede: NeuralNetwork, ranking: (Chromosome, Board) -> seq<int>, games: nat, draws: Draws)
    returns (fitness: real, wins: nat, losses: nat, ties: nat, ghost histories: seq<seq<Move>>)
    requires rede.Valid() && PicksInRange(draws)
    ensures |histories| == games && Finished(histories)
    ensures Trained(histories, ranking, rede.ToChromosome(), draws)
    ensures wins == CountResult(histories, draws, Win)
    ensures losses == CountResult(histories, draws, Loss)
    ensures ties == CountResult(histories, draws, Tie)
    ensures wins + losses + ties == games
    ensures fitness == wins as real - losses as real + 0.5 * ties as real == Score(histories, draws)
  {
    fitness := 0.0;
    wins, losses, ties := 0, 0, 0;
    histories := [];
    ghost var chrom := rede.ToChromosome();
    for g := 0 to games
      invariant |histories| == g
      invariant Tallied(histories, ranking, chrom, draws, wins, losses, ties, fitness)
    {
      ghost var h;
      wins, losses, ties, fitness, h := PlayAndScore(rede, ranking, g, draws, histories, chrom, wins, losses, ties, fitness);
      histories := histories + [h];
    }
  }

  /**
   * The tally of avaliar_rede after the games `histories`: each was played
   * to its end as the network with weights `chrom` and "medio" minimax
   * choose, and the counts and the fitness are theirs.
   */
  ghost predicate Tallied(histories: seq<seq<Move>>, ranking: (Chromosome, Board) -> seq<int>, chrom: Chromosome,
                          draws: Draws, wins: nat, losses: nat, ties: nat, fitness: real)
  {
    && Finished(histories) && PicksInRange(draws) && Trained(histories, ranking, chrom, draws)
    && wins == CountResult(histories, draws, Win)
    && losses == CountResult(histories, draws, Loss)
    && ties == CountResult(histories, draws, Tie)
    && wins + losses + ties == |histories|
    && fitness == wins as real - losses as real + 0.5 * ties as real
  }

  /** One game of avaliar_rede, game `g`, and its score added to the tally. */
  method PlayAndScore(rede: NeuralNetwork, ranking: (Chromosome, Board) -> seq<int>, g: nat, draws: Draws,
                      ghost histories: seq<seq<Move>>, ghost chrom: Chromosome,
                      wins: nat, losses: nat, ties: nat, fitness: real)
    returns (wins': nat, losses': nat, ties': nat, fitness': real, ghost h: seq<Move>)
    requires rede.Valid() && chrom == rede.ToChromosome() && |histories| == g
    requires Tallied(histories, ranking, chrom, draws, wins, losses, ties, fitness)
    ensures Tallied(histories + [h], ranking, chrom, draws, wins', losses', ties', fitness')
  {
    var side := if draws.side(g) then 1 else -1;
    var opponent := -side;
    var winner, invalid;
    winner, invalid, h := PlayTrainingGame(rede, ranking, side, g, draws);
    TallyStep(histories, h, ranking, chrom, draws, wins, losses, ties, fitness);
    wins', losses', ties', fitness' := wins, losses, ties, fitness;
    if winner == Some(side) {
      wins' := wins + 1;
      fitness' := fitness + 1.0;
    } else if winner == Some(opponent) {
      losses' := losses + 1;
      fitness' := fitness - 1.0;
    } else {
      ties' := ties + 1;
      fitness' := fitness + 0.5;
    }
    fitness' := fitness' - 10.0 * invalid as real;
  }

  /** A finished, chosen game adds its result to the tally. */
  lemma TallyStep(histories: seq<seq<Move>>, h: seq<Move>, ranking: (Chromosome, Board) -> seq<int>,
                  chrom: Chromosome, draws: Draws, wins: nat, losses: nat, ties: nat, fitness: real)
    requires Tallied(histories, ranking, chrom, draws, wins, losses, ties, fitness)
    requires LegalPlay(h) && IsOver(Replay(h))
    requires Chosen(h, ranking, chrom, SideOf(draws, |histories|), Some("medio"), |histories|, draws)
    ensures var r := ResultOf(Winner(Replay(h)), SideOf(draws, |histories|));
      Tallied(histories + [h], ranking, chrom, draws,
              wins + (if r == Win then 1 else 0), losses + (if r == Loss then 1 else 0), ties + (if r == Tie then 1 else 0),
              fitness + (if r == Win then 1.0 else if r == Loss then -1.0 else 0.5))
  {
    CountResultAppend(histories, h, draws, Win);
    CountResultAppend(histories, h, draws, Loss);
    CountResultAppend(histories, h, draws, Tie);
    TrainedAppend(histories, h, ranking, chrom, draws);
  }

  // ---------------------------------------------------------------------
  // Genetic operators
  // ---------------------------------------------------------------------

  /** All chromosomes have `n` genes. */
  predicate AllOfLength(pop: seq<Chromosome>, n: nat)
  {
    forall p | 0 <= p < |pop| :: |pop[p]| == n
  }

  /**
   * `popSize` chromosomes with one gene per network parameter; gene `i` of
   * chromosome `p` is the uniform draw `uniform(p, i)` in [-1, 1].
   */
  method InitPopulation(popSize: nat, inputSize: nat, hiddenSize: nat, outputSize: nat, uniform: (nat, nat) -> real)
    returns (pop: seq<Chromosome>)
    requires forall p: nat, i: nat :: -1.0 <= uniform(p, i) <= 1.0
    ensures |pop| == popSize && AllOfLength(pop, ParamCount(inputSize, hiddenSize, outputSize))
    ensures forall p, i | 0 <= p < popSize && 0 <= i < |pop[p]| :: pop[p][i] == uniform(p, i)
    ensures forall p | 0 <= p < popSize :: InUnitRange(pop[p])
  {
    var dummy := new NeuralNetwork(inputSize, hiddenSize, outputSize,
                                   ZeroMatrix(hiddenSize, inputSize), ZeroMatrix(outputSize, hiddenSize));
    var numW := dummy.NumWeights();
    pop := [];
    for p := 0 to popSize
      invariant |pop| == p && AllOfLength(pop, numW)
      invariant forall q, i | 0 <= q < p && 0 <= i < |pop[q]| :: pop[q][i] == uniform(q, i)
      invariant forall q | 0 <= q < p :: InUnitRange(pop[q])
    {
      var chrom := seq(numW, i requires 0 <= i < numW => uniform(p, i));
      pop := pop + [chrom];
    }
  }

  function Min(a: nat, b: nat): nat
  {
    if a <= b then a else b
  }

  /**
   * The `eliteSize` fittest chromosomes (all of them if there are fewer),
   * read off `order`, the fitness indices from highest to lowest.
   */
  function EliteSelection(pop: seq<Chromosome>, fitness: seq<real>, order: seq<nat>, eliteSize: nat): (elite: seq<Chromosome>)
    requires |fitness| == |pop| && IsDescendingOrder(fitness, order)
    ensures |elite| == Min(eliteSize, |pop|)
    ensures forall t | 0 <= t < |elite| :: elite[t] == pop[order[t]]
    ensures forall j, t | 0 <= j < |pop| && 0 <= t < |elite| && j !in order[..|elite|] ::
      fitness[j] <= fitness[order[t]]
  {
    var n := Min(eliteSize, |pop|);
    var elite := seq(n, t requires 0 <= t < n => pop[order[t]]);
    assert forall j, t | 0 <= j < |pop| && 0 <= t < n && j !in order[..n] :: fitness[j] <= fitness[order[t]] by {
      forall j, t | 0 <= j < |pop| && 0 <= t < n && j !in order[..n]
        ensures fitness[j] <= fitness[order[t]]
      {
        assert j in order;
        var q :| 0 <= q < |order| && order[q] == j;
        assert forall p | 0 <= p < n :: order[..n][p] == order[p];
        assert n <= q;
      }
    }
    elite
  }

  /**
   * The tournament winner among the drawn competitors: the first one with
   * the highest fitness, since a later competitor replaces the current best
   * only when it is strictly fitter.
   */
  function TournamentWinner(fitness: seq<real>, competitors: seq<nat>): (w: nat)
    requires |competitors| > 0 && forall t | 0 <= t < |competitors| :: competitors[t] < |fitness|
    ensures w < |fitness| && w in competitors
    ensures forall t | 0 <= t < |competitors| :: fitness[competitors[t]] <= fitness[w]
    ensures exists t | 0 <= t < |competitors| ::
      competitors[t] == w && forall u | 0 <= u < t :: fitness[competitors[u]] < fitness[w]
  {
    if |competitors| == 1 then competitors[0]
    else
      var front := competitors[..|competitors| - 1];
      var best := TournamentWinner(fitness, front);
      var last := competitors[|competitors| - 1];
      assert forall t | 0 <= t < |front| :: competitors[t] == front[t];
      if fitness[last] > fitness[best] then last else best
  }

  /** The winner among the first `t + 1` competitors, from the winner among the first `t`. */
  lemma TournamentWinnerStep(fitness: seq<real>, competitors: seq<nat>, t: nat)
    requires 0 < t < |competitors| && forall u | 0 <= u < |competitors| :: competitors[u] < |fitness|
    ensures var best := TournamentWinner(fitness, competitors[..t]);
      TournamentWinner(fitness, competitors[..t + 1])
        == if fitness[competitors[t]] > fitness[best] then competitors[t] else best
  {
    assert competitors[..t + 1][..t] == competitors[..t];
  }

  /** The loop of one tournament: keeps the first competitor of highest fitness. */
  method RunTournament(fitness: seq<real>, competitors: seq<nat>) returns (best: nat)
    requires |competitors| > 0 && forall t | 0 <= t < |competitors| :: competitors[t] < |fitness|
    ensures best == TournamentWinner(fitness, competitors)
  {
    best := competitors[0];
    assert competitors[..1] == [best];
    for t := 1 to |competitors|
      invariant best == TournamentWinner(fitness, competitors[..t])
    {
      TournamentWinnerStep(fitness, competitors, t);
      if fitness[competitors[t]] > fitness[best] {
        best := competitors[t];
      }
    }
    assert competitors[..|competitors|] == competitors;
  }

  /**
   * One tournament per member of the population: `draws[r]` are the `k`
   * indices drawn for tournament `r`, and its winner is copied.
   */
  method TournamentSelection(pop: seq<Chromosome>, fitness: seq<real>, k: nat, draws: seq<seq<nat>>)
    returns (selected: seq<Chromosome>)
    requires |fitness| == |pop| && k >= 1 && |draws| == |pop|
    requires forall r | 0 <= r < |draws| :: |draws[r]| == k
    requires forall r, t | 0 <= r < |draws| && 0 <= t < |draws[r]| :: draws[r][t] < |pop|
    ensures |selected| == |pop|
    ensures forall r | 0 <= r < |pop| :: selected[r] == pop[TournamentWinner(fitness, draws[r])]
  {
    selected := [];
    for r := 0 to |pop|
      invariant |selected| == r
      invariant forall q | 0 <= q < r :: selected[q] == pop[TournamentWinner(fitness, draws[q])]
    {
      var best := RunTournament(fitness, draws[r]);
      selected := selected + [pop[best]];
    }
  }

  /** `alpha * a + (1 - alpha) * b`, gene by gene. */
  function Blend(a: Chromosome, b: Chromosome, alpha: real): (c: Chromosome)
    requires |a| == |b|
    ensures |c| == |a|
  {
    seq(|a|, i requires 0 <= i < |a| => alpha * a[i] + (1.0 - alpha) * b[i])
  }

  /**
   * Arithmetic crossover with alpha = 0.5: both children are the parents'
   * mean, gene by gene, so each gene lies between the parents' genes.
   */
  function ArithmeticCrossover(p1: Chromosome, p2: Chromosome): (children: (Chromosome, Chromosome))
    requires |p1| == |p2|
    ensures |children.0| == |children.1| == |p1|
    ensures children.0 == children.1
    ensures forall i | 0 <= i < |p1| :: children.0[i] == (p1[i] + p2[i]) / 2.0
    ensures forall i | 0 <= i < |p1| ::
      (p1[i] <= children.0[i] <= p2[i]) || (p2[i] <= children.0[i] <= p1[i])
  {
    var alpha := 0.5;
    var c1 := Blend(p1, p2, alpha);
    var c2 := Blend(p2, p1, alpha);
    assert forall i | 0 <= i < |p1| :: c1[i] == c2[i];
    (c1, c2)
  }

  /**
   * The children gerar_filhos makes from the shuffled parents `s`: positions
   * `2t` and `2t + 1` hold the crossover of the pair at those positions, and
   * an odd last parent is copied.
   */
  function Offspring(s: seq<Chromosome>, len: nat): (children: seq<Chromosome>)
    requires AllOfLength(s, len)
    ensures |children| == |s| && AllOfLength(children, len)
  {
    seq(|s|, t requires 0 <= t < |s| =>
      if t % 2 == 0 && t + 1 < |s| then ArithmeticCrossover(s[t], s[t + 1]).0
      else if t % 2 == 1 then ArithmeticCrossover(s[t - 1], s[t]).1
      else s[t])
  }

  /**
   * The children pair up as gerar_filhos pairs them: positions `2t` and
   * `2t + 1` are the arithmetic crossover of the shuffled parents at those
   * positions, and an odd last parent is copied unchanged.
   */
  lemma OffspringPairs(s: seq<Chromosome>, len: nat)
    requires AllOfLength(s, len)
    ensures var children := Offspring(s, len);
      forall t | 0 <= t && 2 * t + 1 < |s| ::
        (children[2 * t], children[2 * t + 1]) == ArithmeticCrossover(s[2 * t], s[2 * t + 1])
  {
    forall t | 0 <= t && 2 * t + 1 < |s| {
      OffspringPair(s, len, 2 * t);
    }
  }

  /** An odd last parent has no partner and is copied unchanged. */
  lemma OffspringLast(s: seq<Chromosome>, len: nat)
    requires AllOfLength(s, len) && |s| % 2 == 1
    ensures Offspring(s, len)[|s| - 1] == s[|s| - 1]
  {
  }

  /** The children at the even position `i` and the next one. */
  lemma OffspringPair(s: seq<Chromosome>, len: nat, i: nat)
    requires AllOfLength(s, len) && i % 2 == 0 && i + 1 < |s|
    ensures (Offspring(s, len)[i], Offspring(s, len)[i + 1]) == ArithmeticCrossover(s[i], s[i + 1])
  {
    assert (i + 1) % 2 == 1 && (i + 1) - 1 == i;
  }

  /** The children of the pair starting at the even position `i`. */
  lemma OffspringStep(s: seq<Chromosome>, len: nat, i: nat)
    requires AllOfLength(s, len) && i < |s| && i % 2 == 0
    ensures var kids := Offspring(s, len);
      if i + 1 < |s| then
        var pair := ArithmeticCrossover(s[i], s[i + 1]);
        kids[..i + 2] == kids[..i] + [pair.0, pair.1]
      else kids[..i + 1] == kids[..i] + [s[i]]
  {
    var kids := Offspring(s, len);
    if i + 1 < |s| {
      assert kids[..i + 2] == kids[..i] + [kids[i], kids[i + 1]];
    } else {
      assert kids[..i + 1] == kids[..i] + [kids[i]];
    }
  }

  /**
   * gerar_filhos: the parents in shuffled order `perm`; each consecutive pair
   * is replaced by its crossover children and an odd last parent is copied.
   */
  method MakeChildren(parents: seq<Chromosome>, perm: seq<nat>, ghost len: nat) returns (children: seq<Chromosome>)
    requires IsPermutation(perm, |parents|) && AllOfLength(parents, len)
    ensures children == Offspring(Apply(parents, perm), len)
  {
    var pais := Apply(parents, perm);
    ghost var kids := Offspring(pais, len);
    children := [];
    var i := 0;
    while i < |pais|
      invariant 0 <= i <= |pais| + 1 && i % 2 == 0
      invariant children == kids[..Min(i, |pais|)]
    {
      OffspringStep(pais, len, i);
      if i + 1 < |pais| {
        var (f1, f2) := ArithmeticCrossover(pais[i], pais[i + 1]);
        children := children + [f1, f2];
      } else {
        children := children + [pais[i]];
      }
      i := i + 2;
    }
    assert children == kids;
  }

  /**
   * mutacao: gene `i` of chromosome `p` gets `noise[p][i]` added exactly when
   * its uniform draw `draws[p][i]` is below `rate`.
   */
  method Mutate(pop: seq<Chromosome>, rate: real, draws: seq<seq<real>>, noise: seq<seq<real>>)
    returns (mutated: seq<Chromosome>)
    requires |draws| == |pop| && |noise| == |pop|
    requires forall p | 0 <= p < |pop| :: |draws[p]| == |pop[p]| && |noise[p]| == |pop[p]|
    ensures |mutated| == |pop|
    ensures forall p | 0 <= p < |pop| :: mutated[p] == Perturb(pop[p], MaskBelow(draws[p], rate), noise[p])
  {
    mutated := [];
    for p := 0 to |pop|
      invariant |mutated| == p
      invariant forall q | 0 <= q < p :: mutated[q] == Perturb(pop[q], MaskBelow(draws[q], rate), noise[q])
    {
      var mask := MaskBelow(draws[p], rate);
      mutated := mutated + [Perturb(pop[p], mask, noise[p])];
    }
  }

  // ---------------------------------------------------------------------
  // Generations
  // ---------------------------------------------------------------------

  /** The first index of the highest fitness (`np.argmax`). */
  function ArgMax(keys: seq<real>): (i: nat)
    requires keys != []
    ensures i < |keys|
    ensures forall j | 0 <= j < |keys| :: keys[j] <= keys[i]
    ensures forall j | 0 <= j < i :: keys[j] < keys[i]
  {
    var r := Range(|keys|);
    var w := TournamentWinner(keys, r);
    assert forall j | 0 <= j < |keys| :: keys[j] <= keys[w] by {
      forall j | 0 <= j < |keys|
        ensures keys[j] <= keys[w]
      {
        assert r[j] == j;
      }
    }
    assert forall j | 0 <= j < w :: keys[j] < keys[w] by {
      var t :| 0 <= t < |r| && r[t] == w && forall u | 0 <= u < t :: keys[r[u]] < keys[w];
      forall j | 0 <= j < w
        ensures keys[j] < keys[w]
      {
        assert r[j] == j;
      }
    }
    w
  }

  /** The best fitness seen so far and its chromosome. */
  datatype Best = Best(fitness: real, chromosome: Chromosome)

  /**
   * The global best after a generation: replaced by the generation's best
   * only when that is strictly fitter (None stands for minus infinity).
   */
  function UpdateBest(best: Option<Best>, pop: seq<Chromosome>, fitness: seq<real>): (r: Option<Best>)
    requires |fitness| == |pop| && pop != []
    ensures r.Some?
    ensures forall j | 0 <= j < |pop| :: fitness[j] <= r.value.fitness
    ensures best.Some? ==> best.value.fitness <= r.value.fitness
    ensures r != best ==>
      && (best.None? || best.value.fitness < r.value.fitness)
      && exists j | 0 <= j < |pop| ::
        r.value == Best(fitness[j], pop[j]) && forall k | 0 <= k < j :: fitness[k] < fitness[j]
  {
    var i := ArgMax(fitness);
    if best.None? || fitness[i] > best.value.fitness then Some(Best(fitness[i], pop[i])) else best
  }

  /** The random numbers one generation step consumes. */
  datatype Breeding = Breeding(
    tournaments: seq<seq<nat>>, shuffle: seq<nat>, mutationDraws: seq<seq<real>>, noise: seq<seq<real>>)

  predicate FitsPopulation(b: Breeding, n: nat, k: nat, len: nat)
  {
    && |b.tournaments| == n
    && (forall r | 0 <= r < n :: |b.tournaments[r]| == k)
    && (forall r, t | 0 <= r < n && 0 <= t < |b.tournaments[r]| :: b.tournaments[r][t] < n)
    && IsPermutation(b.shuffle, n)
    && |b.mutationDraws| == n && |b.noise| == n
    && (forall p | 0 <= p < n :: |b.mutationDraws[p]| == len && |b.noise[p]| == len)
  }

  /** The winner of each tournament `tournaments[r]`, copied from `pop`. */
  function Winners(pop: seq<Chromosome>, fitness: seq<real>, tournaments: seq<seq<nat>>): (w: seq<Chromosome>)
    requires |fitness| == |pop| && |tournaments| == |pop|
    requires forall r | 0 <= r < |pop| :: |tournaments[r]| > 0
    requires forall r, t | 0 <= r < |pop| && 0 <= t < |tournaments[r]| :: tournaments[r][t] < |pop|
    ensures |w| == |pop|
  {
    seq(|pop|, r requires 0 <= r < |pop| => pop[TournamentWinner(fitness, tournaments[r])])
  }

  /** Every chromosome perturbed by its own mask and noise. */
  function MutateAll(pop: seq<Chromosome>, rate: real, draws: seq<seq<real>>, noise: seq<seq<real>>): (m: seq<Chromosome>)
    requires |draws| == |pop| && |noise| == |pop|
    requires forall p | 0 <= p < |pop| :: |draws[p]| == |pop[p]| && |noise[p]| == |pop[p]|
    ensures |m| == |pop|
  {
    seq(|pop|, p requires 0 <= p < |pop| => Perturb(pop[p], MaskBelow(draws[p], rate), noise[p]))
  }

  /** The children of a generation step: the shuffled tournament winners, crossed. */
  function Children(pop: seq<Chromosome>, fitness: seq<real>, len: nat, b: Breeding): (kids: seq<Chromosome>)
    requires |fitness| == |pop| && AllOfLength(pop, len) && FitsPopulation(b, |pop|, TournamentK, len)
    ensures |kids| == |pop| && AllOfLength(kids, len)
  {
    var w := Winners(pop, fitness, b.tournaments);
    assert AllOfLength(Apply(w, b.shuffle), len);
    Offspring(Apply(w, b.shuffle), len)
  }

  /**
   * The population one step of treinar_ag builds: the elite, then the
   * mutated children, cut to `popSize` chromosomes.
   */
  function NextPopulation(pop: seq<Chromosome>, fitness: seq<real>, order: seq<nat>, popSize: nat, len: nat,
                          b: Breeding): (next: seq<Chromosome>)
    requires |fitness| == |pop| && IsDescendingOrder(fitness, order)
    requires AllOfLength(pop, len) && FitsPopulation(b, |pop|, TournamentK, len)
    ensures |next| == Min(Min(EliteSize, |pop|) + |pop|, popSize)
    ensures AllOfLength(next, len)
    ensures forall t | 0 <= t < |next| && t < Min(EliteSize, |pop|) :: next[t] == pop[order[t]]
    ensures var e, kids := Min(EliteSize, |pop|), Children(pop, fitness, len, b);
      forall t | e <= t < |next| ::
        next[t] == Perturb(kids[t - e], MaskBelow(b.mutationDraws[t - e], MutationRate), b.noise[t - e])
  {
    var elite := EliteSelection(pop, fitness, order, EliteSize);
    var all := elite + MutateAll(Children(pop, fitness, len, b), MutationRate, b.mutationDraws, b.noise);
    all[..Min(|all|, popSize)]
  }

  /**
   * The next population: the elite followed by the mutated children of the
   * shuffled tournament winners, cut to `popSize` chromosomes.
   */
  method NextGeneration(pop: seq<Chromosome>, fitness: seq<real>, order: seq<nat>, popSize: nat, len: nat, b: Breeding)
    returns (next: seq<Chromosome>)
    requires |fitness| == |pop| && IsDescendingOrder(fitness, order)
    requires AllOfLength(pop, len) && FitsPopulation(b, |pop|, TournamentK, len)
    ensures next == NextPopulation(pop, fitness, order, popSize, len, b)
  {
    var elite := EliteSelection(pop, fitness, order, EliteSize);
    var pais := TournamentSelection(pop, fitness, TournamentK, b.tournaments);
    assert pais == Winners(pop, fitness, b.tournaments);
    var filhos := MakeChildren(pais, b.shuffle, len);
    assert filhos == Children(pop, fitness, len, b);
    filhos := Mutate(filhos, MutationRate, b.mutationDraws, b.noise);
    assert filhos == MutateAll(Children(pop, fitness, len, b), MutationRate, b.mutationDraws, b.noise);
    var all := elite + filhos;
    next := all[..Min(|all|, popSize)];
  }

  /**
   * The network with weights `chrom` played the finished games `plays` with
   * the draws `draws`, each move chosen by its side, and `fitness` is their
   * score.
   */
  ghost predicate Scored(plays: seq<seq<Move>>, ranking: (Chromosome, Board) -> seq<int>, chrom: Chromosome,
                         draws: Draws, fitness: real)
  {
    && |plays| == GamesPerIndividual && Finished(plays) && PicksInRange(draws)
    && Trained(plays, ranking, chrom, draws) && fitness == Score(plays, draws)
  }

  /**
   * The record of the generations trained so far: generation `h` is the
   * population `pops[h]` of `popSize` chromosomes of `len` genes, and
   * chromosome `j` of it scored `history[h][j]` in the games `plays[h][j]`,
   * which its network played with the draws `games(h, j)`.
   */
  ghost predicate Evaluated(history: seq<seq<real>>, pops: seq<seq<Chromosome>>, plays: seq<seq<seq<seq<Move>>>>,
                            ranking: (Chromosome, Board) -> seq<int>, games: (nat, nat) -> Draws, popSize: nat, len: nat)
  {
    && |pops| == |history| && |plays| == |history|
    && (forall h | 0 <= h < |history| ::
         |pops[h]| == popSize && AllOfLength(pops[h], len) && |history[h]| == popSize && |plays[h]| == popSize)
    && forall h, j | 0 <= h < |history| && 0 <= j < popSize ::
         Scored(plays[h][j], ranking, pops[h][j], games(h, j), history[h][j])
  }

  /** Every generation after the first is bred from the one before it with the draws `breeding(h)`. */
  ghost predicate Bred(history: seq<seq<real>>, pops: seq<seq<Chromosome>>, rank: seq<real> -> seq<nat>,
                       popSize: nat, len: nat, breeding: nat -> Breeding)
    requires |pops| == |history|
    requires forall h | 0 <= h < |history| :: |pops[h]| == popSize && AllOfLength(pops[h], len) && |history[h]| == popSize
    requires forall keys: seq<real> :: IsDescendingOrder(keys, rank(keys))
    requires forall g: nat :: FitsPopulation(breeding(g), popSize, TournamentK, len)
  {
    forall h | 0 <= h < |history| - 1 ::
      pops[h + 1] == NextPopulation(pops[h], history[h], rank(history[h]), popSize, len, breeding(h))
  }

  /**
   * treinar_ag: evaluates every chromosome, keeps the strictly-improving
   * global best, stops early when `lowSpread` reports converged fitness after
   * generation 10, and otherwise breeds the next population. Returns the best
   * chromosome and the network built from it. Generation `g` is the
   * population `pops[g]`, its fitness `history[g]` and its games `plays[g]`.
   */
  method Train(numGenerations: nat, popSize: nat, hiddenSize: nat,
               uniform: (nat, nat) -> real, ranking: (Chromosome, Board) -> seq<int>,
               games: (nat, nat) -> Draws, rank: seq<real> -> seq<nat>,
               lowSpread: seq<real> -> bool, breeding: nat -> Breeding)
    returns (bestFitness: real, bestChromosome: Chromosome, net: NeuralNetwork,
             ghost history: seq<seq<real>>, ghost pops: seq<seq<Chromosome>>, ghost plays: seq<seq<seq<seq<Move>>>>)
    // no generation leaves no best chromosome to build the network from, and
    // the per-generation report indexes the first EliteSize ranks
    requires numGenerations >= 1 && popSize >= EliteSize
    requires forall p: nat, i: nat :: -1.0 <= uniform(p, i) <= 1.0
    requires forall g: nat, j: nat :: PicksInRange(games(g, j))
    requires forall keys: seq<real> :: IsDescendingOrder(keys, rank(keys))
    requires forall g: nat :: FitsPopulation(breeding(g), popSize, TournamentK, ParamCount(9, hiddenSize, 9))
    ensures 1 <= |history| <= numGenerations
    ensures StopsAt(history, numGenerations, lowSpread)
    ensures Evaluated(history, pops, plays, ranking, games, popSize, ParamCount(9, hiddenSize, 9))
    ensures forall p, i | 0 <= p < popSize && 0 <= i < |pops[0][p]| :: pops[0][p][i] == uniform(p, i)
    ensures Bred(history, pops, rank, popSize, ParamCount(9, hiddenSize, 9), breeding)
    ensures BestOf(Best(bestFitness, bestChromosome), history, pops)
    ensures |bestChromosome| == ParamCount(9, hiddenSize, 9)
    ensures net.Valid() && net.ToChromosome() == bestChromosome
  {
    var len := ParamCount(9, hiddenSize, 9);
    var pop := InitPopulation(popSize, 9, hiddenSize, 9, uniform);
    ghost var initial := pop;
    var best: Option<Best> := None;
    history, pops, plays := [], [], [];
    var g := 0;
    ghost var converged := false;
    while g < numGenerations
      invariant !converged && g <= numGenerations && |history| == g
      invariant Record(history, pops, plays, best, initial, ranking, games, rank, breeding, popSize, len)
      invariant Pending(pop, history, pops, initial, rank, breeding, popSize, len)
      invariant Continued(history, lowSpread)
    {
      var fitness; ghost var played;
      fitness, played, best := TrainGeneration(pop, g, best, history, pops, plays, initial, hiddenSize, ranking,
                                               games, rank, breeding, popSize, len);
      ghost var before := history;
      history, pops, plays := history + [fitness], pops + [pop], plays + [played];
      if g > 10 && lowSpread(fitness) {
        StopStep(before, fitness, numGenerations, lowSpread);
        g, converged := g + 1, true;
        break;
      }
      ContinueStep(before, fitness, lowSpread);
      var order := rank(fitness);
      pop := NextGeneration(pop, fitness, order, popSize, len, breeding(g));
      PendingStep(pop, history, pops, plays, best, initial, ranking, games, rank, breeding, popSize, len);
      g := g + 1;
    }
    if !converged {
      RanAll(history, numGenerations, lowSpread);
    }
    RecordFacts(history, pops, plays, best, initial, ranking, games, rank, breeding, popSize, len);
    bestFitness := best.value.fitness;
    bestChromosome := best.value.chromosome;
    var rede := FromChromosome(bestChromosome, 9, hiddenSize, 9);
    net := rede.value;
  }

  /**
   * The generation loop of treinar_ag ran `|history|` generations out of
   * `numGenerations`: the convergence test fired on no generation after the
   * tenth but the last, and the loop stopped early only because it fired on
   * the last one, after the tenth.
   */
  ghost predicate StopsAt(history: seq<seq<real>>, numGenerations: nat, lowSpread: seq<real> -> bool)
  {
    && (|history| < numGenerations ==> |history| - 1 > 10 && lowSpread(history[|history| - 1]))
    && forall h | 10 < h < |history| - 1 :: !lowSpread(history[h])
  }

  /** The convergence test of treinar_ag fired on no generation after the tenth. */
  ghost predicate Continued(history: seq<seq<real>>, lowSpread: seq<real> -> bool)
  {
    forall h | 10 < h < |history| :: !lowSpread(history[h])
  }

  /** A generation on which the convergence test does not fire keeps the training going. */
  lemma ContinueStep(history: seq<seq<real>>, fitness: seq<real>, lowSpread: seq<real> -> bool)
    requires Continued(history, lowSpread) && !(|history| > 10 && lowSpread(fitness))
    ensures Continued(history + [fitness], lowSpread)
  {
    var hs := history + [fitness];
    forall h | 10 < h < |hs|
      ensures !lowSpread(hs[h])
    {
      if h < |history| {
        assert hs[h] == history[h];
      }
    }
  }

  /** A generation after the tenth on which the test fires ends the training there. */
  lemma StopStep(history: seq<seq<real>>, fitness: seq<real>, numGenerations: nat, lowSpread: seq<real> -> bool)
    requires Continued(history, lowSpread) && |history| > 10 && lowSpread(fitness)
    ensures StopsAt(history + [fitness], numGenerations, lowSpread)
  {
    var hs := history + [fitness];
    forall h | 10 < h < |hs| - 1
      ensures !lowSpread(hs[h])
    {
      assert hs[h] == history[h];
    }
  }

  /** A loop that ran every generation without the test firing stops as treinar_ag does. */
  lemma RanAll(history: seq<seq<real>>, numGenerations: nat, lowSpread: seq<real> -> bool)
    requires Continued(history, lowSpread) && |history| == numGenerations
    ensures StopsAt(history, numGenerations, lowSpread)
  {
  }

  /**
   * The generations trained so far: evaluated, each bred from the one
   * before, the first one `initial`, and `best` their best chromosome
   * (none before the first generation).
   */
  ghost predicate Record(history: seq<seq<real>>, pops: seq<seq<Chromosome>>, plays: seq<seq<seq<seq<Move>>>>,
                         best: Option<Best>, initial: seq<Chromosome>, ranking: (Chromosome, Board) -> seq<int>,
                         games: (nat, nat) -> Draws,
                         rank: seq<real> -> seq<nat>, breeding: nat -> Breeding, popSize: nat, len: nat)
    requires forall keys: seq<real> :: IsDescendingOrder(keys, rank(keys))
    requires forall g: nat :: FitsPopulation(breeding(g), popSize, TournamentK, len)
  {
    && Evaluated(history, pops, plays, ranking, games, popSize, len)
    && (history != [] ==> pops[0] == initial)
    && Bred(history, pops, rank, popSize, len, breeding)
    && (best.None? <==> history == [])
    && (best.Some? ==> |best.value.chromosome| == len && BestOf(best.value, history, pops))
  }

  /**
   * The population the next generation evaluates: `initial` at first, then
   * the one bred from the last generation recorded.
   */
  ghost predicate Pending(pop: seq<Chromosome>, history: seq<seq<real>>, pops: seq<seq<Chromosome>>,
                          initial: seq<Chromosome>, rank: seq<real> -> seq<nat>, breeding: nat -> Breeding,
                          popSize: nat, len: nat)
    requires forall keys: seq<real> :: IsDescendingOrder(keys, rank(keys))
    requires forall g: nat :: FitsPopulation(breeding(g), popSize, TournamentK, len)
  {
    && |pop| == popSize && AllOfLength(pop, len)
    && (history == [] ==> pop == initial)
    && (history != [] ==>
         var h := |history| - 1;
         && |pops| == |history| && |pops[h]| == popSize && AllOfLength(pops[h], len) && |history[h]| == popSize
         && pop == NextPopulation(pops[h], history[h], rank(history[h]), popSize, len, breeding(h)))
  }

  /** Breeding from the last recorded generation gives the pending population. */
  lemma PendingStep(pop: seq<Chromosome>, history: seq<seq<real>>, pops: seq<seq<Chromosome>>,
                    plays: seq<seq<seq<seq<Move>>>>, best: Option<Best>, initial: seq<Chromosome>,
                    ranking: (Chromosome, Board) -> seq<int>, games: (nat, nat) -> Draws,
                    rank: seq<real> -> seq<nat>, breeding: nat -> Breeding,
                    popSize: nat, len: nat)
    requires forall keys: seq<real> :: IsDescendingOrder(keys, rank(keys))
    requires forall g: nat :: FitsPopulation(breeding(g), popSize, TournamentK, len)
    requires Record(history, pops, plays, best, initial, ranking, games, rank, breeding, popSize, len) && history != []
    requires var h := |history| - 1;
      pop == NextPopulation(pops[h], history[h], rank(history[h]), popSize, len, breeding(h))
    ensures Pending(pop, history, pops, initial, rank, breeding, popSize, len)
  {
  }

  /** What the record says about the first generation and the best chromosome. */
  lemma RecordFacts(history: seq<seq<real>>, pops: seq<seq<Chromosome>>, plays: seq<seq<seq<seq<Move>>>>,
                    best: Option<Best>, initial: seq<Chromosome>, ranking: (Chromosome, Board) -> seq<int>,
                    games: (nat, nat) -> Draws,
                    rank: seq<real> -> seq<nat>, breeding: nat -> Breeding, popSize: nat, len: nat)
    requires forall keys: seq<real> :: IsDescendingOrder(keys, rank(keys))
    requires forall g: nat :: FitsPopulation(breeding(g), popSize, TournamentK, len)
    requires Record(history, pops, plays, best, initial, ranking, games, rank, breeding, popSize, len) && history != []
    ensures Evaluated(history, pops, plays, ranking, games, popSize, len) && pops[0] == initial
    ensures Bred(history, pops, rank, popSize, len, breeding)
    ensures best.Some? && |best.value.chromosome| == len && BestOf(best.value, history, pops)
  {
  }

  /**
   * Steps 1 and 3 of a generation of treinar_ag: the population is evaluated
   * and the global best updated; the generation joins the record.
   */
  method TrainGeneration(pop: seq<Chromosome>, g: nat, best: Option<Best>,
                         ghost history: seq<seq<real>>, ghost pops: seq<seq<Chromosome>>,
                         ghost plays: seq<seq<seq<seq<Move>>>>, ghost initial: seq<Chromosome>, hiddenSize: nat,
                         ranking: (Chromosome, Board) -> seq<int>, games: (nat, nat) -> Draws,
                         rank: seq<real> -> seq<nat>, breeding: nat -> Breeding, popSize: nat, len: nat)
    returns (fitness: seq<real>, ghost played: seq<seq<seq<Move>>>, best': Option<Best>)
    requires len == ParamCount(9, hiddenSize, 9) && popSize > 0 && |history| == g
    requires forall g: nat, j: nat :: PicksInRange(games(g, j))
    requires forall keys: seq<real> :: IsDescendingOrder(keys, rank(keys))
    requires forall g: nat :: FitsPopulation(breeding(g), popSize, TournamentK, len)
    requires Record(history, pops, plays, best, initial, ranking, games, rank, breeding, popSize, len)
    requires Pending(pop, history, pops, initial, rank, breeding, popSize, len)
    ensures |fitness| == popSize
    ensures Record(history + [fitness], pops + [pop], plays + [played], best', initial, ranking, games, rank, breeding,
                   popSize, len)
  {
    fitness, played := EvaluatePopulation(pop, hiddenSize, ranking, games, g);
    best' := UpdateBest(best, pop, fitness);
    BestStep(best, best', history, pops, fitness, pop, len);
    Extend(history, pops, plays, fitness, pop, played, ranking, games, rank, breeding, popSize, len);
    if history != [] {
      assert (pops + [pop])[0] == pops[0];
    }
  }

  /**
   * Step 1 of a generation of treinar_ag: the network of every chromosome
   * plays its games, individual `j` of generation `g` with the draws
   * `games(g, j)`; one fitness per chromosome, in population order, the
   * score of the games `plays[j]` it played.
   */
  method EvaluatePopulation(pop: seq<Chromosome>, hiddenSize: nat, ranking: (Chromosome, Board) -> seq<int>,
                            games: (nat, nat) -> Draws, g: nat)
    returns (fitness: seq<real>, ghost plays: seq<seq<seq<Move>>>)
    requires AllOfLength(pop, ParamCount(9, hiddenSize, 9))
    requires forall j: nat :: PicksInRange(games(g, j))
    ensures |fitness| == |pop| && |plays| == |pop|
    ensures forall j | 0 <= j < |pop| :: Scored(plays[j], ranking, pop[j], games(g, j), fitness[j])
  {
    fitness, plays := [], [];
    for j := 0 to |pop|
      invariant |fitness| == j && |plays| == j
      invariant forall q | 0 <= q < j :: Scored(plays[q], ranking, pop[q], games(g, q), fitness[q])
    {
      var chrom := pop[j];
      var rede := FromChromosome(chrom, 9, hiddenSize, 9);
      var fit, _, _, _, h := EvaluateNetwork(rede.value, ranking, GamesPerIndividual, games(g, j));
      assert Scored(h, ranking, chrom, games(g, j), fit);
      ScoredAppend(plays, fitness, h, fit, ranking, pop, games, g);
      fitness, plays := fitness + [fit], plays + [h];
    }
  }

  lemma ScoredAppend(plays: seq<seq<seq<Move>>>, fitness: seq<real>, h: seq<seq<Move>>, fit: real,
                     ranking: (Chromosome, Board) -> seq<int>, pop: seq<Chromosome>, games: (nat, nat) -> Draws, g: nat)
    requires |plays| == |fitness| < |pop|
    requires forall q | 0 <= q < |plays| :: Scored(plays[q], ranking, pop[q], games(g, q), fitness[q])
    requires Scored(h, ranking, pop[|plays|], games(g, |plays|), fit)
    ensures forall q | 0 <= q <= |plays| ::
      Scored((plays + [h])[q], ranking, pop[q], games(g, q), (fitness + [fit])[q])
  {
    forall q | 0 <= q <= |plays|
      ensures Scored((plays + [h])[q], ranking, pop[q], games(g, q), (fitness + [fit])[q])
    {
      if q < |plays| {
        assert (plays + [h])[q] == plays[q] && (fitness + [fit])[q] == fitness[q];
      }
    }
  }

  /**
   * `best` is the fitness and chromosome at the first position, generation
   * by generation and index by index, where the highest fitness of the
   * history is reached: no fitness exceeds it, and every fitness before
   * that position is strictly lower.
   */
  ghost predicate BestOf(best: Best, history: seq<seq<real>>, pops: seq<seq<Chromosome>>)
    requires |pops| == |history| && forall h | 0 <= h < |history| :: |pops[h]| == |history[h]|
  {
    && (forall h, j | 0 <= h < |history| && 0 <= j < |history[h]| :: history[h][j] <= best.fitness)
    && exists h, j | 0 <= h < |history| && 0 <= j < |history[h]| ::
      history[h][j] == best.fitness && pops[h][j] == best.chromosome && FirstReached(history, h, j, best.fitness)
  }

  /** Every fitness of the generations before `h`, and of generation `h` before index `j`, is below `f`. */
  ghost predicate FirstReached(history: seq<seq<real>>, h: nat, j: nat, f: real)
    requires h < |history|
  {
    && (forall e, k | 0 <= e < h && 0 <= k < |history[e]| :: history[e][k] < f)
    && (forall k | 0 <= k < j && k < |history[h]| :: history[h][k] < f)
  }

  /** The loop step of `Train`: the updated best still bounds and is attained by the history, first there. */
  lemma BestStep(oldBest: Option<Best>, best: Option<Best>, history: seq<seq<real>>, pops: seq<seq<Chromosome>>,
                 fitness: seq<real>, pop: seq<Chromosome>, len: nat)
    requires |fitness| == |pop| && pop != [] && AllOfLength(pop, len)
    requires |pops| == |history| && forall h | 0 <= h < |history| :: |pops[h]| == |history[h]|
    requires best == UpdateBest(oldBest, pop, fitness)
    requires oldBest.None? <==> history == []
    requires oldBest.Some? ==> |oldBest.value.chromosome| == len && BestOf(oldBest.value, history, pops)
    ensures best.Some? && |best.value.chromosome| == len
    ensures BestOf(best.value, history + [fitness], pops + [pop])
  {
    var hs, ps := history + [fitness], pops + [pop];
    var n := |history|;
    assert hs[n] == fitness && ps[n] == pop;
    assert forall h | 0 <= h < n :: hs[h] == history[h] && ps[h] == pops[h];
    if best != oldBest {
      var j :| 0 <= j < |pop| && best.value == Best(fitness[j], pop[j]) && forall k | 0 <= k < j :: fitness[k] < fitness[j];
      assert hs[n][j] == best.value.fitness && ps[n][j] == best.value.chromosome;
      assert FirstReached(hs, n, j, best.value.fitness);
    } else {
      var h, j :| 0 <= h < n && 0 <= j < |history[h]| && history[h][j] == oldBest.value.fitness
        && pops[h][j] == oldBest.value.chromosome && FirstReached(history, h, j, oldBest.value.fitness);
      assert hs[h][j] == best.value.fitness && ps[h][j] == best.value.chromosome;
      assert FirstReached(hs, h, j, best.value.fitness);
    }
  }

  /** The loop step of `Train`: the evaluated generation extends the record and the breeding chain. */
  lemma Extend(history: seq<seq<real>>, pops: seq<seq<Chromosome>>, plays: seq<seq<seq<seq<Move>>>>,
               fitness: seq<real>, pop: seq<Chromosome>, played: seq<seq<seq<Move>>>,
               ranking: (Chromosome, Board) -> seq<int>, games: (nat, nat) -> Draws, rank: seq<real> -> seq<nat>,
               breeding: nat -> Breeding, popSize: nat, len: nat)
    requires Evaluated(history, pops, plays, ranking, games, popSize, len)
    requires forall keys: seq<real> :: IsDescendingOrder(keys, rank(keys))
    requires forall g: nat :: FitsPopulation(breeding(g), popSize, TournamentK, len)
    requires Bred(history, pops, rank, popSize, len, breeding)
    requires |pop| == popSize && AllOfLength(pop, len) && |fitness| == popSize && |played| == popSize
    requires forall j | 0 <= j < popSize :: Scored(played[j], ranking, pop[j], games(|history|, j), fitness[j])
    requires |history| > 0 ==>
      pop == NextPopulation(pops[|history| - 1], history[|history| - 1], rank(history[|history| - 1]), popSize, len,
                            breeding(|history| - 1))
    ensures Evaluated(history + [fitness], pops + [pop], plays + [played], ranking, games, popSize, len)
    ensures Bred(history + [fitness], pops + [pop], rank, popSize, len, breeding)
  {
    ExtendEvaluated(history, pops, plays, fitness, pop, played, ranking, games, popSize, len);
    ExtendBred(history, pops, fitness, pop, rank, breeding, popSize, len);
  }

  lemma ExtendEvaluated(history: seq<seq<real>>, pops: seq<seq<Chromosome>>, plays: seq<seq<seq<seq<Move>>>>,
                        fitness: seq<real>, pop: seq<Chromosome>, played: seq<seq<seq<Move>>>,
                        ranking: (Chromosome, Board) -> seq<int>, games: (nat, nat) -> Draws, popSize: nat, len: nat)
    requires Evaluated(history, pops, plays, ranking, games, popSize, len)
    requires |pop| == popSize && AllOfLength(pop, len) && |fitness| == popSize && |played| == popSize
    requires forall j | 0 <= j < popSize :: Scored(played[j], ranking, pop[j], games(|history|, j), fitness[j])
    ensures Evaluated(history + [fitness], pops + [pop], plays + [played], ranking, games, popSize, len)
  {
    var hs, ps, ys := history + [fitness], pops + [pop], plays + [played];
    var n := |history|;
    forall h | 0 <= h < |hs|
      ensures |ps[h]| == popSize && AllOfLength(ps[h], len) && |hs[h]| == popSize && |ys[h]| == popSize
      ensures forall j | 0 <= j < popSize :: Scored(ys[h][j], ranking, ps[h][j], games(h, j), hs[h][j])
    {
      if h < n {
        assert hs[h] == history[h] && ps[h] == pops[h] && ys[h] == plays[h];
      } else {
        assert hs[h] == fitness && ps[h] == pop && ys[h] == played;
      }
    }
  }

  lemma ExtendBred(history: seq<seq<real>>, pops: seq<seq<Chromosome>>, fitness: seq<real>, pop: seq<Chromosome>,
                   rank: seq<real> -> seq<nat>, breeding: nat -> Breeding, popSize: nat, len: nat)
    requires |pops| == |history|
    requires forall h | 0 <= h < |history| :: |pops[h]| == popSize && AllOfLength(pops[h], len) && |history[h]| == popSize
    requires forall keys: seq<real> :: IsDescendingOrder(keys, rank(keys))
    requires forall g: nat :: FitsPopulation(breeding(g), popSize, TournamentK, len)
    requires Bred(history, pops, rank, popSize, len, breeding)
    requires |pop| == popSize && AllOfLength(pop, len) && |fitness| == popSize
    requires |history| > 0 ==>
      pop == NextPopulation(pops[|history| - 1], history[|history| - 1], rank(history[|history| - 1]), popSize, len,
                            breeding(|history| - 1))
    ensures forall h | 0 <= h < |history| + 1 ::
      |(pops + [pop])[h]| == popSize && AllOfLength((pops + [pop])[h], len) && |(history + [fitness])[h]| == popSize
    ensures Bred(history + [fitness], pops + [pop], rank, popSize, len, breeding)
  {
    var hs, ps := history + [fitness], pops + [pop];
    var n := |history|;
    forall h | 0 <= h < |hs|
      ensures |ps[h]| == popSize && AllOfLength(ps[h], len) && |hs[h]| == popSize
    {
      if h < n {
        assert hs[h] == history[h] && ps[h] == pops[h];
      } else {
        assert hs[h] == fitness && ps[h] == pop;
      }
    }
    forall h | 0 <= h < |hs| - 1
      ensures ps[h + 1] == NextPopulation(ps[h], hs[h], rank(hs[h]), popSize, len, breeding(h))
    {
      assert hs[h] == history[h] && ps[h] == pops[h];
      if h + 1 < n {
        assert ps[h + 1] == pops[h + 1];
      } else {
        assert ps[h + 1] == pop && h == n - 1;
      }
    }
  }
}
