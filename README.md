# Tic-tac-toe, minimax and a genetically trained network, in Dafny

This project models the core of a small Python system. A two-layer perceptron learns to play
tic-tac-toe. It never uses backpropagation: its flat weight vector (the chromosome) is evolved
by a genetic algorithm, and fitness comes from games against a minimax opponent. The parts
modelled are:

- **The board** (`tic_tac_toe.py`, module `TicTacToe`). The class `TicTacToe` holds its three
  rows in a field. Two methods change it in place: `fazer_jogada` and `reset`. The queries
  (winner, draw, game over, empty cells) are functions of the board value.
- **Exhaustive minimax** (`minimax.py`, module `Minimax`). The search always scores from X's
  side and writes trial marks into the shared board and back. The methods `Search` and
  `BestMove` are proved against the functions `Value` and `BestChoice`. The "medio" mode takes
  its coin flip and its random pick as parameters.
- **The network's chromosome and move choice** (`rede_neural.py`, module `NeuralNet`):
  - the layout is W1 row-major, then b1, then W2 row-major, then b2;
  - encoding and decoding are proved to be inverse to each other;
  - the board encoding is the flat list of the nine cells;
  - the move is the first ranked cell that is offered. The ranking of the nine cells is a
    parameter `ranking(chromosome, board)`: the source computes it from the weights and the
    board with tanh/softmax. Every game states which cell each side picks under that ranking.
- **The numpy genetic algorithm** (`AG.py`, module `Ag`):
  - the fitness of a network over a series of training games;
  - elitism, tournament selection, arithmetic crossover, pairing of shuffled parents, masked
    mutation;
  - the generation loop with its strictly improving global best.
- **The object-oriented genetic algorithm** (`dominio/individuo.py`, `dominio/populacao.py`,
  `operacao/algoritimo_genetico.py`; modules `Individual`, `Population`, `GeneticAlgorithm`).
  Individuals are heap objects whose weights and fitness are updated in place. The population
  is a list of them, sorted stably by fitness. Generations are built with one-point crossover
  and optional elitism.
- **The evaluation harness** (`evaluate_vs_minimax.py`, module `EvaluateVsMinimax`). Games
  between the network and minimax, with X first. The network's side alternates from game to
  game, and the outcomes are tallied.

Shared pieces:

- `Sorting` holds the stable descending order that Python's `list.sort(key=..., reverse=True)`
  produces.
- `Genes` holds the masked Gaussian mutation.
- `GameDraws` holds the random numbers one series of games consumes, and the choice each ply
  of a game makes: the network's pick on its turns, the opponent mode's answer on the others.

Every random number is an explicit parameter:

- uniform initial weights;
- the network's side in each game;
- the coin flip and random pick of the "medio" opponent;
- tournament indices and samples;
- the shuffle permutation;
- mutation draws and noise;
- crossover coin and point.

Genes and fitness values are `real`.

## Model

| member | source | states |
|---|---|---|
| TicTacToe.FirstUniform | tic_tac_toe.py:36-40 | scanning the lines in order: None iff no line is uniform; otherwise the occupant of a uniform line before which no line is uniform |
| TicTacToe.Winner | tic_tac_toe.py:27-40 | None iff none of the eight lines (rows, then columns, then diagonals) is three equal non-zero cells; otherwise the occupant of the first such line, which is 1 or -1 on a board of marks |
| TicTacToe.EmptyCellsSpec | tic_tac_toe.py:54-60 | the listed moves are exactly the on-grid empty cells, each once, in strictly increasing row-major order |
| TicTacToe.PlaceShrinks | tic_tac_toe.py:18-25 | playing an empty cell removes exactly that cell from the empty cells and keeps every other one in order, so the list shrinks by one |
| TicTacToe.PlaceUndo | minimax.py:22-25 | writing a mark into an empty cell and then 0 back restores the board |
| TicTacToe.NotOverHasMoves | tic_tac_toe.py:42-52 | a board where the game is not over has an empty cell |
| TicTacToe.OverIffWinnerOrFull | tic_tac_toe.py:42-52 | a draw is exactly "no empty cell and no winner"; the game is over exactly when there is a winner or no empty cell |
| TicTacToe.NoEmptyIffFull | tic_tac_toe.py:43 | no row holding a 0 is the same as all nine cells being occupied |
| TicTacToe.DrawIffFull | tic_tac_toe.py:42-45 | checar_empate holds exactly when all nine cells are occupied and there is no winner |
| TicTacToe.OverIffFull | tic_tac_toe.py:47-52 | jogo_terminou holds exactly when there is a winner or all nine cells are occupied |
| TicTacToe.EmptyBoardMoves | tic_tac_toe.py:2-6 | the new board has nine empty cells |
| TicTacToe.LegalPlayLength | evaluate_vs_minimax.py:14-39 | after a legal sequence of moves the number of empty cells plus the number of moves is 9, so a game has at most nine moves |
| TicTacToe.LegalStep | tic_tac_toe.py:18-25 | playing an empty cell keeps the game legal, the new board is the old one with that cell marked, and one empty cell fewer remains |
| TicTacToe.TicTacToe.constructor | tic_tac_toe.py:2-6 | all nine cells are 0 |
| TicTacToe.TicTacToe.IsValidMove | tic_tac_toe.py:15-16 | true iff the on-grid cell is among the empty cells (cell value 0) |
| TicTacToe.TicTacToe.MakeMove | tic_tac_toe.py:18-25 | on an empty cell writes the player's mark there only and returns true; on an occupied cell returns false and leaves the board unchanged |
| TicTacToe.TicTacToe.AvailableMoves | tic_tac_toe.py:54-60 | the nested row/column loop returns exactly the empty cells in row-major order |
| TicTacToe.TicTacToe.Reset | tic_tac_toe.py:62-63 | all nine cells are 0 again |
| Minimax.ExtremeSpec | minimax.py:20-37 | the running best of a scan with strict improvement is the maximum (minimum) of the values; it first appears at FirstExtreme, and every earlier value is strictly worse |
| Minimax.ValueSpec | minimax.py:13-37 | a board with a winner is worth the winner; a full board without a winner is worth 0; otherwise the maximiser's value is one of its children's values and no child is better (the minimiser's likewise) |
| Minimax.ValueInRange | minimax.py:7-37 | the search value of a board of marks is 1, -1 or 0 |
| Minimax.Search | minimax.py:7-37 | `_minimax` returns the search value of the board and leaves every cell as it found it |
| Minimax.TryMove | minimax.py:22-25 | one trial write, recursive search and reset: the board is restored and the result is the child's value with the other side to move |
| Minimax.BestChoiceSpec | minimax.py:40-70 | melhor_jogada's choice is None iff there is no empty cell; otherwise it is an empty cell whose child value is best for the player and strictly better than every earlier cell's value |
| Minimax.BestChoiceReachesValue | minimax.py:49-70 | on a board that is not over, the chosen move reaches exactly the board's minimax value for the side to move |
| Minimax.BestMove | minimax.py:40-70 | melhor_jogada returns BestChoice of the board and leaves the board unchanged |
| Minimax.ModeAnswer | minimax.py:73-92 | the mode's answer is None iff there is no empty cell, and otherwise an empty cell: the picked one in "medio" when the coin is not below 0.5, melhor_jogada's choice in every other case |
| Minimax.BestMoveMode | minimax.py:73-92 | it returns ModeAnswer of the board, the mode and the draws: outside a case-insensitive "medio" (including a missing or empty mode), and in "medio" when the coin is below 0.5, it is melhor_jogada; otherwise it is the picked empty cell; it is None iff there is no empty cell, otherwise an empty cell; the board is unchanged |
| Sorting.PermutedMembers | dominio/populacao.py:11-12 | reordering a list by a permutation keeps exactly the same elements |
| Sorting.StableOrderSpec | dominio/populacao.py:11-12 | the stable descending order is a permutation of the indices; its keys never increase, and equal keys keep their original order |
| Sorting.StableOrderOfSorted | dominio/populacao.py:11-12 | on keys that already never increase, the stable order is the identity |
| Sorting.StableOrderFront | operacao/algoritimo_genetico.py:16-19 | the head of the stable order has the largest key, and every earlier index has a strictly smaller key |
| Genes.MaskBelow | AG.py:173 | the mask is true exactly where the uniform draw is below the rate, with one entry per draw |
| Genes.Perturb | AG.py:171-175 | same length; a gene differs from its old value only where the mask selects it and the noise is non-zero |
| Genes.PerturbSpec | AG.py:175 | a selected gene moves by exactly its noise and an unselected one does not move |
| Genes.ZeroRateKeepsGenes | dominio/individuo.py:20-23 | with rate 0 no draw in [0, 1) selects a gene, so mutation changes nothing |
| NeuralNet.FlattenLayout | rede_neural.py:45-50 | row-major flattening puts entry (i, j) of a rows-by-cols matrix at position i*cols + j |
| NeuralNet.ParamCountFormula | rede_neural.py:34-39 | the parameter count is hidden·input + hidden + output·hidden + output, which is 351 for 9/18/9 |
| NeuralNet.Decode | rede_neural.py:61-77 | the four consecutive slices of a chromosome of the right length have the shapes of W1, b1, W2 and b2 |
| NeuralNet.EncodeLayout | rede_neural.py:41-50 | the chromosome has one gene per parameter: W1 flattened, b1, W2 flattened and b2 at consecutive offsets |
| NeuralNet.EncodeDecode | rede_neural.py:52-77 | decoding a chromosome of the right length and encoding the result gives the chromosome back |
| NeuralNet.DecodeEncode | rede_neural.py:41-77 | encoding well-shaped parameters and decoding the result gives the parameters back, shapes included |
| NeuralNet.EncodeBoard | rede_neural.py:88-96 | nine values, with cell (i, j) at position 3i + j |
| NeuralNet.IndexMap | rede_neural.py:121 | the keys are exactly the indices 3i + j of the moves, and each maps to a move with that index |
| NeuralNet.FallbackUnreachable | rede_neural.py:118-131 | when the moves are on the grid and the ranking lists every cell 0..8, some ranked cell is offered, so the fallback to the first move is never taken |
| NeuralNet.NeuralNetwork.constructor | rede_neural.py:17-29 | the given layer sizes and weights, with zero biases |
| NeuralNet.NeuralNetwork.NumWeights | rede_neural.py:34-39 | the total number of weights and biases is the parameter count, 351 for 9/18/9 |
| NeuralNet.NeuralNetwork.ToChromosome | rede_neural.py:41-50 | the chromosome has NumWeights genes and decodes to exactly the current parameters |
| NeuralNet.NeuralNetwork.SetFromChromosome | rede_neural.py:52-77 | a vector of the wrong length is rejected and leaves the network as it was; otherwise the parameters become its decoding and to_chromosome returns the vector; reloading to_chromosome's own vector changes nothing |
| NeuralNet.NetworkPickSpec | rede_neural.py:112-131 | the pick is None iff there are no moves, and otherwise a listed move: the first ranked cell that is offered when there is one, the first move otherwise |
| NeuralNet.NeuralNetwork.ChooseMove | rede_neural.py:112-131 | the loop over the ranking returns NetworkPick of the moves and the ranking: None iff there are no moves; otherwise a listed move. When some ranked cell is offered, it is the first ranked offered cell; otherwise it is the first move |
| NeuralNet.FromChromosome | rede_neural.py:79-83 | a network exists iff the chromosome has the right length, and its to_chromosome is the chromosome |
| GameDraws.ChosenExtend | AG.py:66-91 | a move that is the choice of the next ply extends a history whose every move was its ply's choice |
| Ag.PlayTrainingGame | AG.py:56-91 | X moves first and the marks alternate; every move is played on an empty cell; every move is its ply's choice: on the network's side NetworkPick of the empty cells under the ranking of the network's chromosome and that board, on the other side the "medio" answer with that ply's coin and pick; the game ends over after at most nine moves with no invalid proposal; the result is the board's winner |
| Ag.TrainingMove | AG.py:66-89 | the move is the ply's choice: the network's NetworkPick under the ranking of its chromosome and the board on its turn, the "medio" ModeAnswer with that ply's draws on the opponent's; it is always an empty cell, so the penalty and both random replacements are never reached; the board is unchanged |
| Ag.ResultOf | AG.py:93-104 | a win iff the winner is the network's side, a loss iff it is the opponent's, a tie iff there is no winner |
| Ag.CountResultAppend | AG.py:93-104 | one more finished game adds one to the count of its result and leaves the other two counts as they were |
| Ag.EvaluateNetwork | AG.py:33-109 | plays `games` games, game g being the legal history `histories[g]` played to the end with the network on side(g), every move of it the network's pick under its chromosome's ranking or the "medio" answer with game g's draws; the win, loss and tie counts are the numbers of those games the network's side won, lost or drew, they add up to the number of games, and the fitness is wins - losses + 0.5·ties (there is no invalid proposal to penalise) |
| Ag.InitPopulation | AG.py:115-123 | pop_size chromosomes of num_weights genes; gene i of chromosome p is the uniform draw uniform(p, i), so every gene lies in [-1, 1] |
| Ag.EliteSelection | AG.py:126-130 | min(elite_size, population size) chromosomes read off the descending order; no omitted chromosome is fitter than an included one |
| Ag.TournamentWinner | AG.py:139-144 | the winner is a drawn competitor with maximal fitness, and every competitor drawn before it is strictly less fit |
| Ag.RunTournament | AG.py:139-144 | the loop of one tournament returns TournamentWinner of the drawn indices |
| Ag.TournamentSelection | AG.py:133-146 | exactly population-size chromosomes, each the winner of its own tournament |
| Ag.ArithmeticCrossover | AG.py:149-153 | both children have the parents' length and equal the gene-wise mean of the parents, so each gene lies between the parents' genes |
| Ag.Offspring | AG.py:156-168 | as many children as parents, each of the parents' length |
| Ag.OffspringPairs | AG.py:159-165 | each consecutive pair 2t, 2t + 1 of the shuffled parents is replaced by its two arithmetic-crossover children |
| Ag.OffspringLast | AG.py:166-167 | with an odd number of parents the last child is a copy of the last parent |
| Ag.MakeChildren | AG.py:156-168 | as many children as parents, all of the same length; each consecutive pair of the shuffled parents is replaced by its crossover children, and an odd last parent is copied |
| Ag.Mutate | AG.py:171-175 | every chromosome becomes Perturb of itself under the mask of draws below the rate, with its noise |
| Ag.ArgMax | AG.py:251 | the first index of the highest fitness |
| Ag.UpdateBest | AG.py:250-254 | the global best bounds every fitness of the generation and never decreases; it changes only on strict improvement, and then to the fitness and chromosome at the first index of the highest fitness, the one np.argmax returns |
| Ag.NextGeneration | AG.py:260-269 | elite selection, tournament selection, shuffled crossover, mutation and truncation build exactly NextPopulation of the generation |
| Ag.NextPopulation | AG.py:260-269 | the elite followed by the children, cut to pop_size: min(min(4, n) + n, pop_size) chromosomes of the same length; position t < min(4, n) is the t-th chromosome of the descending order, and every later position is its crossover child of the shuffled tournament winners, perturbed where its draw is below 0.1 by its noise |
| Ag.EvaluatePopulation | AG.py:207-211 | one fitness per chromosome, in population order; fitness j is the score of 40 finished games in which every network move is NetworkPick under the ranking of chromosome j and every opponent move is the "medio" answer with the draws `games(g, j)` |
| Ag.BestStep | AG.py:250-254 | after a generation the best bounds every fitness seen so far and is the first one, in generation order and then index order, to reach that value: every fitness of an earlier generation and of an earlier index of its generation is strictly below it |
| Ag.Extend | AG.py:207-269 | appending an evaluated generation bred from the last one keeps every generation scored by its games and bred from the one before |
| Ag.TrainGeneration | AG.py:199-269 | one generation of treinar_ag: evaluating the pending population and updating the best extend the record, every generation scored by its games and bred from the one before, with the best the highest fitness seen and attained by a recorded chromosome |
| Ag.Train | AG.py:181-277 | between 1 and num_geracoes generations are evaluated; generation 0 is the initial draws, gene i of chromosome p being uniform(p, i); every later generation is NextPopulation of the one before under `rank` and that generation's breeding draws; every fitness is the score of 40 games whose network moves are picked under that chromosome's ranking and whose opponent moves are the "medio" answers with that chromosome's draws; the returned fitness bounds every fitness of every generation and is attained there by the returned chromosome at its first occurrence (every earlier generation and every earlier index of its generation scored strictly less), and the returned network's chromosome is that chromosome; the loop stops early exactly at the first generation past the tenth whose fitness values satisfy `lowSpread`: if fewer than num_geracoes generations ran, the last one has index above 10 and satisfies `lowSpread`, and no generation with index above 10 before it does |
| Ag.ContinueStep | AG.py:256-258 | a generation whose index is at most 10, or whose fitness values do not satisfy `lowSpread`, leaves the training going: no generation after the tenth has met the convergence test |
| Ag.StopStep | AG.py:256-258 | a generation past the tenth whose fitness values satisfy `lowSpread`, after none before it did, is where the training stops early |
| EvaluateVsMinimax.OutcomeOf | evaluate_vs_minimax.py:41-47 | 'rede' iff the winner is the network's mark, 'minimax' iff it is the other mark, 'empate' iff there is no winner |
| EvaluateVsMinimax.OutcomeOfReplay | evaluate_vs_minimax.py:41-47 | after legal play the result is 'empate' exactly when there is no winner |
| EvaluateVsMinimax.GameMove | evaluate_vs_minimax.py:16-37 | the move is the ply's choice: NetworkPick under the ranking of the network's chromosome and the board on the network's turn, ModeAnswer of the mode with that ply's draws on minimax's; it is an empty cell, so neither random replacement is reached; outside "medio" minimax plays melhor_jogada; the board is unchanged |
| EvaluateVsMinimax.ChosenFollowsBest | minimax.py:73-92 | outside "medio", a game whose every move is its ply's choice has every minimax move equal to melhor_jogada's |
| EvaluateVsMinimax.PlayGame | evaluate_vs_minimax.py:10-47 | X moves first and the sides alternate; every move is on an empty cell and is its ply's choice (the network's pick under its chromosome's ranking, or the mode's answer with that game's draws); the game ends over within nine moves; the label follows the final winner; outside "medio" every minimax move is melhor_jogada's |
| EvaluateVsMinimax.Tally | evaluate_vs_minimax.py:51-57 | the three keys 'rede', 'minimax' and 'empate', each mapped to the multiplicity of that outcome in the list of outcomes |
| EvaluateVsMinimax.CountMultiplicity | evaluate_vs_minimax.py:57 | counting an outcome game by game gives its multiplicity in the multiset of outcomes |
| EvaluateVsMinimax.TallyAppend | evaluate_vs_minimax.py:57 | `results[res] += 1` turns the tally of the earlier games into the tally including this one |
| EvaluateVsMinimax.CountTotal | evaluate_vs_minimax.py:51-60 | the three counts add up to the number of games |
| EvaluateVsMinimax.RoundsExtend | evaluate_vs_minimax.py:55-58 | one more game played with the side its index gives extends the record of games and outcomes |
| EvaluateVsMinimax.PlayRound | evaluate_vs_minimax.py:56-57 | plays one legal game to its end with the given side, every move its ply's choice (the network's pick or the mode's answer; minimax playing melhor_jogada outside "medio"), appends that game's result to the outcomes, and the results stay the tally of all outcomes |
| EvaluateVsMinimax.Evaluate | evaluate_vs_minimax.py:50-60 | n_games games; game i is a legal finished game with the network as X iff i is even, every move of it the network's pick under its chromosome's ranking or the mode's answer with game i's draws, and outcome i is its result; each key counts the occurrences of its outcome, and the three counts sum to n_games |
| Individual.Individuo.constructor | dominio/individuo.py:4-11 | num_pesos weights, the uniform draws in [-1, 1] or all zeros, and no fitness yet |
| Individual.Individuo.CalcularAptidao | dominio/individuo.py:13-18 | the fitness becomes the function of the weights; only the fitness field is written |
| Individual.Individuo.Mutacao | dominio/individuo.py:20-23 | weight i gets its noise added exactly when its draw is below the rate; the length stays num_pesos; only the weights are written |
| Population.MeanWithinBounds | dominio/populacao.py:20-21 | the mean of values between lo and hi lies between lo and hi |
| Population.SortedEnds | dominio/populacao.py:11-18 | after the stable sort the head is the first individual of highest fitness and the tail has the lowest fitness |
| Population.SortSorted | dominio/populacao.py:11-12 | sorting a sorted list leaves it unchanged, so ordenar is idempotent |
| Population.Populacao.constructor | dominio/populacao.py:5-9 | exactly tamanho distinct new individuals, each with num_pesos weights and no fitness |
| Population.Populacao.Ordenar | dominio/populacao.py:11-12 | when every individual has a fitness, the list is permuted by the stable descending order of fitness and is then sorted; a list of at most one individual without fitness is left as it is; the members and their number never change |
| Population.Populacao.Melhor | dominio/populacao.py:14-15 | the first individual; in a sorted population it has the highest fitness |
| Population.Populacao.Pior | dominio/populacao.py:17-18 | the last individual; in a sorted population it has the lowest fitness |
| Population.Populacao.MediaAptidao | dominio/populacao.py:20-21 | the mean times the count is the sum of the fitness values |
| Population.MeanBetweenEnds | dominio/populacao.py:14-21 | in a sorted population pior ≤ media_aptidao ≤ melhor |
| GeneticAlgorithm.OnePoint | operacao/algoritimo_genetico.py:28-32 | the child has the parents' length, with the first parent's genes before the point and the second's from the point on |
| GeneticAlgorithm.OnePointSwaps | operacao/algoritimo_genetico.py:28-32 | at every position the two children hold the parents' two genes, straight or swapped, so together they hold exactly the parents' genes |
| GeneticAlgorithm.Pick | operacao/algoritimo_genetico.py:16-19 | the first sampled individual of maximal fitness: a sampled member, at least as fit as every sampled one and strictly fitter than every one sampled before it |
| GeneticAlgorithm.PickUnique | operacao/algoritimo_genetico.py:16-19 | that characterisation determines the winner: an individual that meets it is Pick of the sample |
| GeneticAlgorithm.AlgoritmoGenetico.constructor | operacao/algoritimo_genetico.py:8-13 | the five settings are stored |
| GeneticAlgorithm.AlgoritmoGenetico.SelecaoTorneio | operacao/algoritimo_genetico.py:16-19 | the stable sort of the sample puts first the first sampled individual of maximal fitness, which is Pick of the sample |
| GeneticAlgorithm.AlgoritmoGenetico.Crossover | operacao/algoritimo_genetico.py:22-34 | two new distinct individuals: filho1 = pai1[..ponto] + pai2[ponto..] and filho2 = pai2[..ponto] + pai1[ponto..], without fitness |
| GeneticAlgorithm.AlgoritmoGenetico.BreedAsWritten | operacao/algoritimo_genetico.py:47-57 | as written: with crossover the parents are untouched and the children are fresh, their weights the one-point crossover of the parents' weights; without crossover the children are the parents themselves, each parent's weights mutated in place by its own mask and noise (twice when both tournaments chose the same object) |
| GeneticAlgorithm.AlgoritmoGenetico.Breed | operacao/algoritimo_genetico.py:47-57 | corrected: two new individuals, the crossover children or copies of the parents, then mutated and evaluated; the parents are not modified |
| GeneticAlgorithm.AlgoritmoGenetico.BreedPair | operacao/algoritimo_genetico.py:44-57 | corrected: two tournaments and the breeding give two fresh, distinct, evaluated children whose weights are ChildWeights of the two winners (Pick of each sample): the one-point crossover or a copy, then mutation with the draws |
| GeneticAlgorithm.AlgoritmoGenetico.BreedInto | operacao/algoritimo_genetico.py:43-61 | corrected: one loop iteration appends the two children bred from that iteration's tournament winners, or only the first when one slot is left; earlier entries are kept, the new ones are fresh, and the list is the loop's list after one more iteration |
| GeneticAlgorithm.AlgoritmoGenetico.PartialStep | operacao/algoritimo_genetico.py:59-61 | appending one iteration's children to the loop's list after n iterations gives its list after n + 1 |
| GeneticAlgorithm.AlgoritmoGenetico.FillPopulation | operacao/algoritimo_genetico.py:38-61 | corrected: the draws are needed only when the loop runs, and a cut point in range only when the coin calls for crossover; exactly TargetSize evaluated individuals, the previous best first when elitism is on; every later position p holds child (p - kept) mod 2 of iteration (p - kept) / 2: the one-point crossover or copy of that iteration's two tournament winners, mutated with its draws; all of them new |
| GeneticAlgorithm.AlgoritmoGenetico.NovaGeracao | operacao/algoritimo_genetico.py:36-64 | corrected: the new population is the list FillPopulation describes under the stable sort by fitness: TargetSize evaluated individuals, sorted; with elitism the previous best is a member and the new best is at least as fit |
| GeneticAlgorithm.AlgoritmoGenetico.Prepare | operacao/algoritimo_genetico.py:67-71 | every individual's fitness is the function of its unchanged weights, then the population is permuted by the stable order of fitness, is sorted and keeps its size |
| GeneticAlgorithm.AlgoritmoGenetico.EvaluateAll | operacao/algoritimo_genetico.py:68-69 | every individual's fitness is the function of its unchanged weights |
| GeneticAlgorithm.AlgoritmoGenetico.SortPopulation | operacao/algoritimo_genetico.py:71 | the sorted population has the same size, and its head is at least as fit as every individual before the sort |
| GeneticAlgorithm.AlgoritmoGenetico.HistoryExtend | operacao/algoritimo_genetico.py:73-77 | one more population that nova_geracao builds from the last one extends the record of generations |
| GeneticAlgorithm.AlgoritmoGenetico.Advance | operacao/algoritimo_genetico.py:73-77 | corrected: one pass of the loop: the new population is nova_geracao's from the current one with that generation's draws, sorted and of TargetSize, and with elitism its best is at least as fit |
| GeneticAlgorithm.AlgoritmoGenetico.Generations | operacao/algoritimo_genetico.py:73-79 | corrected: the population must be non-empty at the start of every generation, where melhor() is reported; only the draws of the geracoes generations that run are needed; geracoes + 1 populations, the given one first and the result last; each later one is the sorted list nova_geracao builds from the one before with that generation's draws; the result is sorted, evaluated and of the expected size; with elitism its best is at least as fit as every initial individual |
| GeneticAlgorithm.AlgoritmoGenetico.Executar | operacao/algoritimo_genetico.py:66-79 | corrected: the population must be non-empty at the start of every generation, where melhor() is reported; only the draws of the geracoes generations that run are needed; every initial individual is evaluated with its weights unchanged and the population is stably sorted; then the generations follow one another as in Generations; the final population is sorted and of the expected size; with elitism its best is at least as fit as every initial individual |
| GeneticAlgorithm.ElitismLossWitness | operacao/algoritimo_genetico.py:40-54 | with weights [1], [0], [-1], fitness equal to the weight, no crossover and noise -0.5, the elite object, the head of the population that elitism keeps, has fitness 1 before and 0.5 after the as-written body |
| GeneticAlgorithm.Tournaments | operacao/algoritimo_genetico.py:44-45 | the example's tournaments: positions 0, 1 pick individual 0 and positions 1, 2 pick individual 1 |
| GeneticAlgorithm.MutateInPlace | operacao/algoritimo_genetico.py:47-57 | the as-written body on the example's draws mutates the first parent object itself, to fitness 0.5 |

## Left out

- The forward pass (`tanh`, softmax) and the Xavier initialisation: they are floating-point
  numerics. The network's ranking of the nine cells is the parameter `ranking(chromosome,
  board)`; the model does not say how the weights produce it. The constructor takes the
  initial weights.
- Randomness (`random`, `np.random`): every draw is a parameter. No distributional claim is
  made, such as "half of the 'medio' moves are minimax's".
- The convergence test `np.std(fitness) < 1e-2` is the predicate parameter `lowSpread`.
- The generation-difference norms, the mean/max/min report and all printing are left out.
- The global counters `venceu`/`perdeu`/`empate` are left out. `Ag.EvaluateNetwork` returns
  the win, loss and draw counts instead.
- `np.save`/`np.load`, `main.py`, `front.py`, `treino_ag.py`, `reproduce_minimax_game.py` and
  the print-only test script are console, file and timing glue.
- `operacao/aptidao.py` is not part of this model. It imports a network class that
  `rede_neural.py` does not define. In the object-oriented algorithm the fitness function is
  a parameter.
- The order `np.argsort(...)[::-1]` gives equal fitness values is left out. `Ag.Train` takes
  a `rank` parameter that returns a descending permutation of the indices.
- Ag.Train: requires at least one generation and `pop_size >= ELITE_SIZE`. Otherwise the
  source fails: it builds a network from `None`, or indexes past the ranking in its report
  loop.
- Ag.Mutate: works on values rather than updating arrays in place. Every child is a fresh
  array in the source, so there is no aliasing to lose.
- TicTacToe.TicTacToe.IsValidMove: requires on-grid indices. Python's negative indexing and
  `IndexError` for other indices are not modelled. Every caller passes a listed cell.
- TicTacToe.TicTacToe.MakeMove: requires on-grid indices, for the same reason.
- The random replacements of an invalid network move or a missing minimax move (AG.py:75-77,
  84-85; evaluate_vs_minimax.py:19-20, 24-25, 30-31, 35-36) are proved unreachable, so no
  value is drawn for them. The invalid-move penalty is therefore always 0.
- `Individuo.pesos` is a `seq<real>` field that methods reassign, not a numpy array. Slice
  assignment into the zero-initialised arrays of `crossover` gives the same values.
- Game histories, outcome lists and side lists are ghost. They state what was played; the
  source does not keep them.
- The print of the best fitness in each generation of `executar` is left out, but the
  `melhor()` call inside it is not: see the `Executar` line below.
- Population.Populacao.Melhor: requires a non-empty list. On an empty one the source raises
  `IndexError` (dominio/populacao.py:15); the model does not describe the exception.
- Population.Populacao.Pior: requires a non-empty list, for the same reason
  (dominio/populacao.py:18).
- Population.Populacao.MediaAptidao: requires a non-empty, evaluated list. The source raises
  `ZeroDivisionError` on an empty list and `TypeError` when a fitness is `None`
  (dominio/populacao.py:21).
- Population.Populacao.Ordenar: requires every fitness to be set when there are two
  individuals or more. Python's sort then compares `None` and raises `TypeError`
  (dominio/populacao.py:12).
- GeneticAlgorithm.AlgoritmoGenetico.CanBreed: the model's generation loop requires it. Without
  it the source raises: `melhor()` on an empty population with elitism gives `IndexError`
  (operacao/algoritimo_genetico.py:41), and `random.sample` of 2 from fewer than 2
  individuals gives `ValueError` (operacao/algoritimo_genetico.py:17).
- GeneticAlgorithm.AlgoritmoGenetico.FitsPairing: requires a crossover point below
  `num_pesos` whenever crossover happens. With `num_pesos == 0` the source's
  `random.randint(0, -1)` raises `ValueError` (operacao/algoritimo_genetico.py:23).
- GeneticAlgorithm.AlgoritmoGenetico.Executar: requires a non-empty population at the start
  of every generation, as does `Generations`. That means the initial population when
  `geracoes >= 1`, and `tamanho_pop >= 1` or elitism when `geracoes >= 2`. Otherwise the
  report of `populacao.melhor()` raises `IndexError` (operacao/algoritimo_genetico.py:75). The
  model does not describe the exception.
- The object-oriented generation loop (`BreedPair`, `BreedInto`, `FillPopulation`,
  `NovaGeracao`, `Advance`, `Generations`, `Executar`) models the corrected breeding only:
  the children are always new individuals. Without crossover the source reuses the parent
  objects themselves; only `BreedAsWritten` and the row under "## Findings" model that.

## Findings

| source | as written | input that shows it | evidently intended | confidence | as-written member | corrected member |
|---|---|---|---|---|---|---|
| operacao/algoritimo_genetico.py:49-54 | without crossover `filho1 = pai1` and `filho2 = pai2` alias the parents, so `mutacao` and `calcular_aptidao` change individuals of the previous population in place. That includes the elite object already placed in the new population (lines 40-41) | a sorted population with weights [1], [0], [-1] and fitness equal to the weight, elitism on; tournaments on positions 0, 1 and 1, 2; coin 0.9 ≥ 0.7; mutation draw 0.0 < 0.1 with noise -0.5. The kept elite's fitness goes from 1 to 0.5 | the children start as copies of the parents, so the previous population is untouched and elitism never loses the best fitness | not executed | GeneticAlgorithm.AlgoritmoGenetico.BreedAsWritten, GeneticAlgorithm.ElitismLossWitness | GeneticAlgorithm.AlgoritmoGenetico.Breed, GeneticAlgorithm.AlgoritmoGenetico.NovaGeracao |
