/**
 * The object-oriented genetic algorithm (operacao/algoritimo_genetico.py):
 * tournament selection over individual objects, one-point crossover,
 * generation building with optional elitism, and the generation loop.
 * Every random number is a parameter.
 */
module GeneticAlgorithm {
  import opened Wrappers
  import opened Sorting
  import opened Genes
  import opened Individual
  import opened Population

  /** The genes of `a` before `ponto` followed by those of `b` from `ponto` on. */
  function OnePoint(a: Chromosome, b: Chromosome, ponto: nat): (c: Chromosome)
    requires |a| == |b| && ponto <= |a|
    ensures |c| == |a|
    ensures forall i | 0 <= i < |a| :: c[i] == if i < ponto then a[i] else b[i]
  {
    a[..ponto] + b[ponto..]
  }

  /**
   * The two one-point children share out the parents' genes: at every
   * position they hold the parents' two genes, straight or swapped.
   */
  lemma OnePointSwaps(a: Chromosome, b: Chromosome, ponto: nat)
    requires |a| == |b| && ponto <= |a|
    ensures forall i | 0 <= i < |a| ::
      var c1, c2 := OnePoint(a, b, ponto), OnePoint(b, a, ponto);
      (c1[i] == a[i] && c2[i] == b[i]) || (c1[i] == b[i] && c2[i] == a[i])
    ensures multiset(OnePoint(a, b, ponto)) + multiset(OnePoint(b, a, ponto)) == multiset(a) + multiset(b)
  {
    assert a == a[..ponto] + a[ponto..];
    assert b == b[..ponto] + b[ponto..];
  }

  /** The draws one iteration of nova_geracao consumes. */
  datatype Pairing = Pairing(
    sample1: seq<nat>, sample2: seq<nat>, // random.sample positions for the two tournaments
    coin: real,                          // random.random() compared with taxa_cross
    ponto: nat,                          // random.randint(0, num_pesos - 1)
    draws1: seq<real>, noise1: seq<real>, // mutation of filho1
    draws2: seq<real>, noise2: seq<real>) // mutation of filho2

  /** `sample` names `k` distinct positions of a list of `n` elements. */
  predicate IsSample(sample: seq<nat>, k: nat, n: nat)
  {
    && |sample| == k
    && (forall t | 0 <= t < k :: sample[t] < n)
    && (forall t, u | 0 <= t < u < k :: sample[t] != sample[u])
  }

  /** The tournament size of selecao_torneio. */
  const TournamentSize: nat := 2

  /** Every individual has a fitness and `numPesos` weights. */
  predicate Ready(inds: seq<Individuo>, numPesos: nat)
    reads inds
  {
    AllEvaluated(inds) && forall p | 0 <= p < |inds| :: inds[p].numPesos == numPesos && inds[p].Valid()
  }

  /** An individual of a list sorted by fitness is at most as fit as its head. */
  lemma SortedHead(sorted: seq<Individuo>, x: Individuo)
    requires SortedDesc(sorted) && x in sorted
    ensures x.aptidao.value <= sorted[0].aptidao.value
  {
    var k :| 0 <= k < |sorted| && sorted[k] == x;
    if k > 0 {
      assert sorted[0].aptidao.value >= sorted[k].aptidao.value;
    }
  }

  /** A list made of members of a ready list is ready. */
  lemma ReadyMembers(inds: seq<Individuo>, other: seq<Individuo>, numPesos: nat)
    requires Ready(inds, numPesos) && forall x :: x in other ==> x in inds
    ensures Ready(other, numPesos)
  {
    forall p | 0 <= p < |other|
      ensures other[p].aptidao.Some? && other[p].numPesos == numPesos && other[p].Valid()
    {
      assert other[p] in inds;
    }
  }

  /** Appending an evaluated individual of the right size keeps a list ready. */
  lemma ReadyAppend(inds: seq<Individuo>, x: Individuo, numPesos: nat)
    requires Ready(inds, numPesos) && x.numPesos == numPesos && x.Valid() && x.aptidao.Some?
    ensures Ready(inds + [x], numPesos)
  {
    var s := inds + [x];
    forall p | 0 <= p < |s|
      ensures s[p].aptidao.Some? && s[p].numPesos == numPesos && s[p].Valid()
    {
      if p < |inds| {
        assert s[p] == inds[p];
      }
    }
  }

  /** The lists `lists` one after the other. */
  ghost function Flat(lists: seq<seq<Individuo>>): seq<Individuo>
  {
    if lists == [] then [] else Flat(lists[..|lists| - 1]) + lists[|lists| - 1]
  }

  /** Every member of one of the lists is in their concatenation. */
  lemma FlatMember(lists: seq<seq<Individuo>>, g: nat)
    requires g < |lists|
    ensures forall x | x in lists[g] :: x in Flat(lists)
  {
    if g < |lists| - 1 {
      FlatMember(lists[..|lists| - 1], g);
    }
  }

  /**
   * The individual a tournament over the positions `sample` elects: the
   * first sampled one of highest fitness, found by a scan from the back.
   * selecao_torneio gets it by a stable sort instead (SelecaoTorneio).
   */
  function Pick(inds: seq<Individuo>, sample: seq<nat>): (s: Individuo)
    reads inds
    requires sample != [] && forall t | 0 <= t < |sample| :: sample[t] < |inds| && inds[sample[t]].aptidao.Some?
    ensures s in inds
    ensures exists t | 0 <= t < |sample| ::
      && s == inds[sample[t]]
      && forall u | 0 <= u < t :: inds[sample[u]].aptidao.value < s.aptidao.value
    ensures forall t | 0 <= t < |sample| :: inds[sample[t]].aptidao.value <= s.aptidao.value
    decreases |sample|
  {
    if |sample| == 1 then
      inds[sample[0]]
    else
      var rest := Pick(inds, sample[1..]);
      assert forall t | 1 <= t < |sample| :: sample[1..][t - 1] == sample[t];
      if inds[sample[0]].aptidao.value < rest.aptidao.value then rest else inds[sample[0]]
  }

  /** Only one sampled individual is the first one of highest fitness. */
  lemma PickUnique(inds: seq<Individuo>, sample: seq<nat>, s: Individuo)
    requires sample != [] && forall t | 0 <= t < |sample| :: sample[t] < |inds| && inds[sample[t]].aptidao.Some?
    requires exists t | 0 <= t < |sample| ::
      && s == inds[sample[t]]
      && forall u | 0 <= u < t :: inds[sample[u]].aptidao.value < s.aptidao.value
    requires forall t | 0 <= t < |sample| :: inds[sample[t]].aptidao.value <= s.aptidao.value
    ensures s == Pick(inds, sample)
  {
    var q := Pick(inds, sample);
    var t :| 0 <= t < |sample| && s == inds[sample[t]]
      && forall u | 0 <= u < t :: inds[sample[u]].aptidao.value < s.aptidao.value;
    var t' :| 0 <= t' < |sample| && q == inds[sample[t']]
      && forall u | 0 <= u < t' :: inds[sample[u]].aptidao.value < q.aptidao.value;
    assert t == t';
  }

  class AlgoritmoGenetico {
    const tamanhoPop: nat
    const numPesos: nat
    const taxaCross: real
    const taxaMut: real
    const elitismo: bool

    constructor(tamanhoPop: nat, numPesos: nat, taxaCross: real, taxaMut: real, elitismo: bool)
      ensures this.tamanhoPop == tamanhoPop && this.numPesos == numPesos
      ensures this.taxaCross == taxaCross && this.taxaMut == taxaMut && this.elitismo == elitismo
    {
      this.tamanhoPop := tamanhoPop;
      this.numPesos := numPesos;
      this.taxaCross := taxaCross;
      this.taxaMut := taxaMut;
      this.elitismo := elitismo;
    }

    /** The size of the population nova_geracao builds. */
    function TargetSize(): (n: nat)
      ensures n >= tamanhoPop && (elitismo ==> n >= 1)
      ensures n == tamanhoPop || (elitismo && tamanhoPop == 0 && n == 1)
    {
      if elitismo && tamanhoPop == 0 then 1 else tamanhoPop
    }

    /**
     * The draws `d` are ones an iteration of nova_geracao over a population
     * of `n` can make: two samples of two distinct positions, a cut point in
     * range when the coin calls for crossover (randint(0, num_pesos - 1)),
     * and one mutation draw and one noise value per weight of each child.
     */
    predicate FitsPairing(d: Pairing, n: nat)
    {
      && IsSample(d.sample1, TournamentSize, n) && IsSample(d.sample2, TournamentSize, n)
      && (d.coin < taxaCross ==> d.ponto < numPesos)
      && |d.draws1| == numPesos && |d.noise1| == numPesos
      && |d.draws2| == numPesos && |d.noise2| == numPesos
    }

    /**
     * The draws of every iteration of one nova_geracao call fit a population
     * of `n`; nothing is drawn when the loop does not run, that is when the
     * kept best already fills tamanhoPop.
     */
    ghost predicate StepsFit(steps: nat -> Pairing, n: nat)
    {
      tamanhoPop > Kept() ==> forall k: nat :: FitsPairing(steps(k), n)
    }

    /** A population of `n` individuals can go through nova_geracao. */
    predicate CanBreed(n: nat)
    {
      (elitismo ==> n >= 1) && (tamanhoPop > (if elitismo then 1 else 0) ==> n >= TournamentSize)
    }

    /**
     * selecao_torneio: the sampled individuals sorted by fitness, highest
     * first and stably; the head is the first sampled one of highest fitness.
     */
    method SelecaoTorneio(populacao: Populacao, sample: seq<nat>) returns (s: Individuo)
      requires IsSample(sample, |sample|, |populacao.individuos|) && sample != []
      requires forall t | 0 <= t < |sample| :: populacao.individuos[sample[t]].aptidao.Some?
      ensures exists t | 0 <= t < |sample| ::
        && s == populacao.individuos[sample[t]]
        && forall u | 0 <= u < t :: populacao.individuos[sample[u]].aptidao.value < s.aptidao.value
      ensures forall t | 0 <= t < |sample| :: populacao.individuos[sample[t]].aptidao.value <= s.aptidao.value
      ensures s == Pick(populacao.individuos, sample)
    {
      var drawn := Apply(populacao.individuos, sample);
      var keys := KeysOf(drawn);
      var order := StableOrder(keys);
      StableOrderFront(keys);
      StableOrderSpec(keys);
      s := drawn[order[0]];
      PickUnique(populacao.individuos, sample, s);
    }

    /**
     * crossover: two new individuals, zero-initialised and then filled by
     * slices: filho1 = pai1[..ponto] + pai2[ponto..], filho2 the converse.
     */
    method Crossover(pai1: Individuo, pai2: Individuo, ponto: nat) returns (filho1: Individuo, filho2: Individuo)
      requires |pai1.pesos| == numPesos && |pai2.pesos| == numPesos && ponto < numPesos
      ensures fresh(filho1) && fresh(filho2) && filho1 != filho2
      ensures filho1.numPesos == numPesos && filho2.numPesos == numPesos
      ensures filho1.pesos == OnePoint(pai1.pesos, pai2.pesos, ponto)
      ensures filho2.pesos == OnePoint(pai2.pesos, pai1.pesos, ponto)
      ensures filho1.aptidao == None && filho2.aptidao == None
    {
      filho1 := new Individuo(numPesos, false, []);
      filho2 := new Individuo(numPesos, false, []);
      filho1.pesos := pai1.pesos[..ponto] + filho1.pesos[ponto..];
      filho1.pesos := filho1.pesos[..ponto] + pai2.pesos[ponto..];
      filho2.pesos := pai2.pesos[..ponto] + filho2.pesos[ponto..];
      filho2.pesos := filho2.pesos[..ponto] + pai1.pesos[ponto..];
    }

    /**
     * The body of the nova_geracao loop as written: without crossover the
     * children ARE the parents, so mutating and re-evaluating them changes
     * the parents, members of the previous population, in place.
     */
    method BreedAsWritten(pai1: Individuo, pai2: Individuo, d: Pairing, funcao: seq<real> -> real)
      returns (filho1: Individuo, filho2: Individuo)
      requires pai1.Valid() && pai2.Valid() && pai1.numPesos == numPesos && pai2.numPesos == numPesos
      requires d.coin < taxaCross ==> d.ponto < numPesos
      requires |d.draws1| == numPesos && |d.noise1| == numPesos && |d.draws2| == numPesos && |d.noise2| == numPesos
      modifies pai1, pai2
      ensures d.coin < taxaCross ==> unchanged(pai1) && unchanged(pai2) && fresh(filho1) && fresh(filho2)
      ensures d.coin < taxaCross ==>
        && filho1.pesos == ChildWeights(old(pai1.pesos), old(pai2.pesos), d, true)
        && filho2.pesos == ChildWeights(old(pai1.pesos), old(pai2.pesos), d, false)
      ensures d.coin >= taxaCross ==> filho1 == pai1 && filho2 == pai2
      ensures d.coin >= taxaCross && pai1 != pai2 ==>
        && pai1.pesos == Perturb(old(pai1.pesos), MaskBelow(d.draws1, taxaMut), d.noise1)
        && pai2.pesos == Perturb(old(pai2.pesos), MaskBelow(d.draws2, taxaMut), d.noise2)
      ensures d.coin >= taxaCross && pai1 == pai2 ==>
        pai1.pesos == Perturb(Perturb(old(pai1.pesos), MaskBelow(d.draws1, taxaMut), d.noise1),
                              MaskBelow(d.draws2, taxaMut), d.noise2)
      ensures filho2.aptidao == Some(funcao(filho2.pesos))
      ensures filho1 != filho2 ==> filho1.aptidao == Some(funcao(filho1.pesos))
    {
      if d.coin < taxaCross {
        filho1, filho2 := Crossover(pai1, pai2, d.ponto);
      } else {
        filho1 := pai1;
        filho2 := pai2;
      }
      filho1.Mutacao(taxaMut, d.draws1, d.noise1);
      filho2.Mutacao(taxaMut, d.draws2, d.noise2);
      filho1.CalcularAptidao(funcao);
      filho2.CalcularAptidao(funcao);
    }

    /**
     * The body of the nova_geracao loop with the aliasing removed: without
     * crossover the children start as copies of the parents, so the previous
     * population is left untouched.
     */
    method Breed(pai1: Individuo, pai2: Individuo, d: Pairing, funcao: seq<real> -> real)
      returns (filho1: Individuo, filho2: Individuo)
      requires pai1.Valid() && pai2.Valid() && pai1.numPesos == numPesos && pai2.numPesos == numPesos
      requires d.coin < taxaCross ==> d.ponto < numPesos
      requires |d.draws1| == numPesos && |d.noise1| == numPesos && |d.draws2| == numPesos && |d.noise2| == numPesos
      ensures fresh(filho1) && fresh(filho2) && filho1 != filho2
      ensures filho1.numPesos == numPesos && filho1.Valid() && filho2.numPesos == numPesos && filho2.Valid()
      ensures var start1 := if d.coin < taxaCross then OnePoint(pai1.pesos, pai2.pesos, d.ponto) else pai1.pesos;
        filho1.pesos == Perturb(start1, MaskBelow(d.draws1, taxaMut), d.noise1)
      ensures var start2 := if d.coin < taxaCross then OnePoint(pai2.pesos, pai1.pesos, d.ponto) else pai2.pesos;
        filho2.pesos == Perturb(start2, MaskBelow(d.draws2, taxaMut), d.noise2)
      ensures filho1.pesos == ChildWeights(pai1.pesos, pai2.pesos, d, true)
      ensures filho2.pesos == ChildWeights(pai1.pesos, pai2.pesos, d, false)
      ensures filho1.aptidao == Some(funcao(filho1.pesos)) && filho2.aptidao == Some(funcao(filho2.pesos))
    {
      if d.coin < taxaCross {
        filho1, filho2 := Crossover(pai1, pai2, d.ponto);
      } else {
        filho1 := new Individuo(numPesos, false, []);
        filho1.pesos := pai1.pesos;
        filho2 := new Individuo(numPesos, false, []);
        filho2.pesos := pai2.pesos;
      }
      filho1.Mutacao(taxaMut, d.draws1, d.noise1);
      filho2.Mutacao(taxaMut, d.draws2, d.noise2);
      filho1.CalcularAptidao(funcao);
      filho2.CalcularAptidao(funcao);
    }

    /**
     * The weights of the first (`first`) or second child bred from parents
     * with weights `a` and `b` by the draws `d`: the one-point cross at
     * `d.ponto` when the coin falls below taxaCross, the parent's own weights
     * otherwise, then mutated by that child's draws and noise.
     */
    function ChildWeights(a: Chromosome, b: Chromosome, d: Pairing, first: bool): (c: Chromosome)
      requires |a| == numPesos && |b| == numPesos && (d.coin < taxaCross ==> d.ponto < numPesos)
      requires |d.draws1| == numPesos && |d.noise1| == numPesos && |d.draws2| == numPesos && |d.noise2| == numPesos
      ensures |c| == numPesos
    {
      if first then
        Perturb(if d.coin < taxaCross then OnePoint(a, b, d.ponto) else a, MaskBelow(d.draws1, taxaMut), d.noise1)
      else
        Perturb(if d.coin < taxaCross then OnePoint(b, a, d.ponto) else b, MaskBelow(d.draws2, taxaMut), d.noise2)
    }

    /**
     * `x` is the first (`first`) or second child of an iteration with the
     * draws `d` over the population `inds`: its weights are bred from the two
     * tournament picks and its fitness is that of its weights.
     */
    predicate BredFrom(x: Individuo, inds: seq<Individuo>, d: Pairing, first: bool, funcao: seq<real> -> real)
      reads x, inds
      requires Ready(inds, numPesos) && FitsPairing(d, |inds|)
    {
      && x.numPesos == numPesos && x.Valid() && x.aptidao == Some(funcao(x.pesos))
      && x.pesos == ChildWeights(Pick(inds, d.sample1).pesos, Pick(inds, d.sample2).pesos, d, first)
    }

    /** How many individuals elitism carries over: the previous best, or none. */
    function Kept(): (k: nat)
      ensures k <= 1 && (k == 1 <==> elitismo)
    {
      if elitismo then 1 else 0
    }

    /**
     * After the kept best, position `p` of `filled` holds a child of
     * iteration `(p - Kept()) / 2` with the draws `steps` of that iteration,
     * the first child at even offsets and the second at odd ones.
     */
    ghost predicate BredAfter(filled: seq<Individuo>, inds: seq<Individuo>, steps: nat -> Pairing, funcao: seq<real> -> real)
      reads filled, inds
      requires Ready(inds, numPesos) && StepsFit(steps, |inds|) && |filled| <= TargetSize()
    {
      forall p | Kept() <= p < |filled| :: ChildAt(filled, inds, steps, p, funcao)
    }

    /** Position `p` of `filled` holds a child of iteration `(p - Kept()) / 2`. */
    ghost predicate ChildAt(filled: seq<Individuo>, inds: seq<Individuo>, steps: nat -> Pairing, p: nat,
                            funcao: seq<real> -> real)
      reads filled, inds
      requires Ready(inds, numPesos) && StepsFit(steps, |inds|) && Kept() <= p < |filled| <= TargetSize()
    {
      BredFrom(filled[p], inds, steps((p - Kept()) / 2), (p - Kept()) % 2 == 0, funcao)
    }

    /**
     * `filled` is the list the nova_geracao loop builds from `inds`, before
     * the sort: `TargetSize()` evaluated individuals, the best of `inds`
     * first under elitism, then the children two per iteration, the last one
     * dropped when there is no room.
     */
    ghost predicate Filled(filled: seq<Individuo>, inds: seq<Individuo>, steps: nat -> Pairing, funcao: seq<real> -> real)
      reads filled, inds
      requires Ready(inds, numPesos) && StepsFit(steps, |inds|)
    {
      && |filled| == TargetSize() && Ready(filled, numPesos)
      && (elitismo ==> inds != [] && filled[0] == inds[0])
      && BredAfter(filled, inds, steps, funcao)
    }

    /** Appending the children of iteration `n` continues the bred part. */
    lemma BredAfterExtend(filled: seq<Individuo>, added: seq<Individuo>, inds: seq<Individuo>, steps: nat -> Pairing,
                          n: nat, funcao: seq<real> -> real)
      requires Ready(inds, numPesos) && StepsFit(steps, |inds|)
      requires |filled| == Kept() + 2 * n && |filled| + |added| <= TargetSize() && BredAfter(filled, inds, steps, funcao)
      requires 1 <= |added| <= 2 && BredFrom(added[0], inds, steps(n), true, funcao)
      requires |added| == 2 ==> BredFrom(added[1], inds, steps(n), false, funcao)
      ensures BredAfter(filled + added, inds, steps, funcao)
    {
      var s := filled + added;
      forall p | Kept() <= p < |s|
        ensures ChildAt(s, inds, steps, p, funcao)
      {
        if p < |filled| {
          assert ChildAt(filled, inds, steps, p, funcao) && s[p] == filled[p];
        } else if p == |filled| {
          assert s[p] == added[0] && (p - Kept()) / 2 == n && (p - Kept()) % 2 == 0;
        } else {
          assert s[p] == added[1] && (p - Kept()) / 2 == n && (p - Kept()) % 2 == 1;
        }
      }
    }

    /**
     * `filled` is the list of the nova_geracao loop after `n` iterations over
     * `inds`: the kept best, then the children of those iterations.
     */
    ghost predicate Partial(filled: seq<Individuo>, inds: seq<Individuo>, steps: nat -> Pairing, n: nat,
                            funcao: seq<real> -> real)
      reads filled, inds
      requires Ready(inds, numPesos) && StepsFit(steps, |inds|)
    {
      && Kept() <= |filled| <= TargetSize() && Ready(filled, numPesos)
      && (elitismo ==> inds != [] && filled[0] == inds[0])
      && (|filled| < tamanhoPop ==> |filled| == Kept() + 2 * n)
      && BredAfter(filled, inds, steps, funcao)
    }

    /** Appending the children of iteration `n` gives the list after `n + 1` iterations. */
    lemma PartialStep(filled: seq<Individuo>, added: seq<Individuo>, inds: seq<Individuo>, steps: nat -> Pairing,
                      n: nat, funcao: seq<real> -> real)
      requires Ready(inds, numPesos) && StepsFit(steps, |inds|)
      requires Partial(filled, inds, steps, n, funcao) && |filled| < tamanhoPop
      requires Iteration(filled, added, inds, steps(n), funcao)
      ensures Partial(filled + added, inds, steps, n + 1, funcao)
    {
      BredAfterExtend(filled, added, inds, steps, n, funcao);
      if elitismo {
        assert (filled + added)[0] == filled[0];
      }
    }

    /**
     * The loop of nova_geracao, with the children copied from their parents:
     * the list of the new population, the previous best first when elitism is
     * on, then bred pairs until it holds `tamanhoPop` individuals (the second
     * child only when there is room).
     */
    method FillPopulation(populacao: Populacao, funcao: seq<real> -> real, steps: nat -> Pairing)
      returns (filled: seq<Individuo>)
      requires Ready(populacao.individuos, numPesos) && CanBreed(|populacao.individuos|)
      requires StepsFit(steps, |populacao.individuos|)
      ensures Filled(filled, populacao.individuos, steps, funcao)
      ensures forall p | Kept() <= p < |filled| :: fresh(filled[p])
    {
      filled := [];
      if elitismo {
        filled := filled + [populacao.Melhor()];
      }
      var n := 0;
      while |filled| < tamanhoPop
        invariant Partial(filled, populacao.individuos, steps, n, funcao)
        invariant forall p | Kept() <= p < |filled| :: fresh(filled[p])
        decreases tamanhoPop - |filled|
      {
        var added := BreedInto(populacao, filled, steps, n, funcao);
        filled := filled + added;
        n := n + 1;
      }
    }

    /**
     * `added` are the children one iteration of the nova_geracao loop with
     * the draws `d` appends to `filled`: the first child, then the second one
     * when there is room for it.
     */
    predicate Iteration(filled: seq<Individuo>, added: seq<Individuo>, inds: seq<Individuo>, d: Pairing,
                        funcao: seq<real> -> real)
      reads filled, added, inds
      requires Ready(inds, numPesos) && FitsPairing(d, |inds|)
    {
      && |added| == (if |filled| + 1 < tamanhoPop then 2 else 1) && Ready(filled + added, numPesos)
      && BredFrom(added[0], inds, d, true, funcao)
      && (|added| == 2 ==> BredFrom(added[1], inds, d, false, funcao))
    }

    /**
     * Iteration `n` of the nova_geracao loop: two tournaments, breeding, and
     * the children appended to `filled`, the second one only if there is
     * still room.
     */
    method BreedInto(populacao: Populacao, filled: seq<Individuo>, steps: nat -> Pairing, n: nat,
                     funcao: seq<real> -> real)
      returns (added: seq<Individuo>)
      requires Ready(populacao.individuos, numPesos) && StepsFit(steps, |populacao.individuos|)
      requires Partial(filled, populacao.individuos, steps, n, funcao) && |filled| < tamanhoPop
      ensures 1 <= |added| <= 2 && fresh(added[0]) && fresh(added[|added| - 1])
      ensures Partial(filled + added, populacao.individuos, steps, n + 1, funcao)
    {
      var d := steps(n);
      assert FitsPairing(d, |populacao.individuos|);
      var filho1, filho2 := BreedPair(populacao, d, funcao);
      if |filled| + 1 < tamanhoPop {
        added := [filho1, filho2];
      } else {
        added := [filho1];
      }
      PairStep(filled, filho1, filho2, added, populacao.individuos, steps, n, funcao);
    }

    /** Appending the children of iteration `n` keeps the list partial. */
    lemma PairStep(filled: seq<Individuo>, filho1: Individuo, filho2: Individuo, added: seq<Individuo>,
                   inds: seq<Individuo>, steps: nat -> Pairing, n: nat, funcao: seq<real> -> real)
      requires Ready(inds, numPesos) && StepsFit(steps, |inds|)
      requires Partial(filled, inds, steps, n, funcao) && |filled| < tamanhoPop
      requires filho1.numPesos == numPesos && filho1.Valid() && filho1.aptidao.Some?
      requires filho2.numPesos == numPesos && filho2.Valid() && filho2.aptidao.Some?
      requires BredFrom(filho1, inds, steps(n), true, funcao) && BredFrom(filho2, inds, steps(n), false, funcao)
      requires added == if |filled| + 1 < tamanhoPop then [filho1, filho2] else [filho1]
      ensures Partial(filled + added, inds, steps, n + 1, funcao)
    {
      IterationOf(filled, filho1, filho2, added, inds, steps(n), funcao);
      PartialStep(filled, added, inds, steps, n, funcao);
    }

    /** The children of one iteration, the second one only when there is room, make an iteration's worth. */
    lemma IterationOf(filled: seq<Individuo>, filho1: Individuo, filho2: Individuo, added: seq<Individuo>,
                      inds: seq<Individuo>, d: Pairing, funcao: seq<real> -> real)
      requires Ready(inds, numPesos) && FitsPairing(d, |inds|) && Ready(filled, numPesos)
      requires filho1.numPesos == numPesos && filho1.Valid() && filho1.aptidao.Some?
      requires filho2.numPesos == numPesos && filho2.Valid() && filho2.aptidao.Some?
      requires BredFrom(filho1, inds, d, true, funcao) && BredFrom(filho2, inds, d, false, funcao)
      requires added == if |filled| + 1 < tamanhoPop then [filho1, filho2] else [filho1]
      ensures Iteration(filled, added, inds, d, funcao)
    {
      ReadyAppend(filled, filho1, numPesos);
      if |filled| + 1 < tamanhoPop {
        ReadyAppend(filled + [filho1], filho2, numPesos);
        assert filled + added == filled + [filho1] + [filho2];
      }
    }

    /** The two tournaments and the breeding of one iteration of the nova_geracao loop. */
    method BreedPair(populacao: Populacao, d: Pairing, funcao: seq<real> -> real) returns (filho1: Individuo, filho2: Individuo)
      requires Ready(populacao.individuos, numPesos) && FitsPairing(d, |populacao.individuos|)
      ensures fresh(filho1) && fresh(filho2) && filho1 != filho2
      ensures filho1.numPesos == numPesos && filho1.Valid() && filho1.aptidao.Some?
      ensures filho2.numPesos == numPesos && filho2.Valid() && filho2.aptidao.Some?
      ensures BredFrom(filho1, populacao.individuos, d, true, funcao)
      ensures BredFrom(filho2, populacao.individuos, d, false, funcao)
    {
      var pai1 := SelecaoTorneio(populacao, d.sample1);
      var pai2 := SelecaoTorneio(populacao, d.sample2);
      filho1, filho2 := Breed(pai1, pai2, d, funcao);
    }

    /**
     * nova_geracao, with the children copied from their parents: the list
     * `filled` the loop builds, sorted stably by fitness. The previous
     * population and its individuals are not modified, so the kept best
     * keeps its fitness and the new best is at least as fit.
     */
    method NovaGeracao(populacao: Populacao, funcao: seq<real> -> real, steps: nat -> Pairing)
      returns (nova: Populacao, ghost filled: seq<Individuo>)
      requires Ready(populacao.individuos, numPesos) && CanBreed(|populacao.individuos|)
      requires StepsFit(steps, |populacao.individuos|)
      ensures fresh(nova)
      ensures Filled(filled, populacao.individuos, steps, funcao)
      ensures forall p | Kept() <= p < |filled| :: fresh(filled[p])
      ensures nova.individuos == Apply(filled, StableOrder(KeysOf(filled)))
      ensures |nova.individuos| == TargetSize()
      ensures Ready(nova.individuos, numPesos) && nova.Sorted()
      ensures elitismo ==> populacao.individuos[0] in nova.individuos
      ensures elitismo ==> populacao.individuos[0].aptidao.value <= nova.individuos[0].aptidao.value
    {
      nova := new Populacao(0, numPesos, false, []);
      var list := FillPopulation(populacao, funcao, steps);
      filled := list;
      var sorted := Apply(list, StableOrder(KeysOf(list)));
      SortOrders(list);
      ReadyMembers(list, sorted, numPesos);
      if elitismo {
        SortedHead(sorted, list[0]);
      }
      Install(nova, sorted, list, populacao.individuos, steps, funcao);
    }

    /**
     * The end of nova_geracao: nova_pop.ordenar() on the list the loop
     * appended, which leaves nova_pop holding `sorted`; the individuals
     * themselves stay as they are.
     */
    method Install(nova: Populacao, sorted: seq<Individuo>, ghost list: seq<Individuo>, ghost inds: seq<Individuo>,
                   ghost steps: nat -> Pairing, ghost funcao: seq<real> -> real)
      requires Ready(inds, numPesos) && StepsFit(steps, |inds|)
      requires Filled(list, inds, steps, funcao) && sorted == Apply(list, StableOrder(KeysOf(list)))
      requires Ready(sorted, numPesos) && SortedDesc(sorted)
      requires elitismo ==> list[0] in sorted && list[0].aptidao.value <= sorted[0].aptidao.value
      modifies nova
      ensures Filled(list, inds, steps, funcao) && sorted == Apply(list, StableOrder(KeysOf(list)))
      ensures nova.individuos == sorted && Ready(sorted, numPesos) && nova.Sorted()
      ensures elitismo ==> list[0] in sorted && list[0].aptidao.value <= sorted[0].aptidao.value
    {
      nova.individuos := sorted;
    }

    /** The first loop of executar: every individual gets its fitness; weights stay. */
    method EvaluateAll(inds: seq<Individuo>, funcao: seq<real> -> real)
      modifies inds
      ensures forall p | 0 <= p < |inds| ::
        inds[p].pesos == old(inds[p].pesos) && inds[p].aptidao == Some(funcao(inds[p].pesos))
    {
      for i := 0 to |inds|
        invariant forall p | 0 <= p < |inds| :: inds[p].pesos == old(inds[p].pesos)
        invariant forall p | 0 <= p < i :: inds[p].aptidao == Some(funcao(inds[p].pesos))
      {
        inds[i].CalcularAptidao(funcao);
      }
    }

    /**
     * executar: evaluates every individual of the initial population, sorts
     * it, then replaces it `geracoes` times by nova_geracao; generation `g`
     * consumes the draws `steps(g)`. `gens` are the populations in turn, the
     * sorted initial one first. With elitism the final best is at least as
     * fit as every initial individual. Each generation starts by reporting
     * melhor(), so the population must be non-empty at every start.
     */
    method Executar(geracoes: nat, populacao: Populacao, funcao: seq<real> -> real, steps: nat -> nat -> Pairing)
      returns (final: Populacao, ghost gens: seq<Populacao>, ghost lists: seq<seq<Individuo>>,
               ghost fills: seq<seq<Individuo>>)
      requires forall p | 0 <= p < |populacao.individuos| ::
        populacao.individuos[p].numPesos == numPesos && populacao.individuos[p].Valid()
      requires geracoes > 0 ==> |populacao.individuos| >= 1 && CanBreed(|populacao.individuos|)
      requires geracoes > 1 ==> TargetSize() >= 1 && CanBreed(TargetSize())
      requires forall g: nat | g < geracoes :: StepsFit(steps(g), SizeAt(g, |populacao.individuos|))
      modifies populacao, populacao.individuos
      ensures forall p | 0 <= p < |old(populacao.individuos)| ::
        var ind := old(populacao.individuos)[p];
        ind.pesos == old(ind.pesos) && ind.aptidao == Some(funcao(ind.pesos))
      ensures populacao.individuos == Apply(old(populacao.individuos), StableOrder(KeysOf(old(populacao.individuos))))
      ensures |gens| == geracoes + 1 && |fills| == geracoes && gens[0] == populacao && gens[geracoes] == final
      ensures History(gens, lists, fills, |old(populacao.individuos)|, steps, funcao)
      ensures Ready(final.individuos, numPesos) && final.Sorted()
      ensures |final.individuos| == SizeAt(geracoes, |old(populacao.individuos)|)
      ensures elitismo && populacao.individuos != [] ==>
        forall p | 0 <= p < |populacao.individuos| ::
          populacao.individuos[p].aptidao.value <= final.individuos[0].aptidao.value
    {
      Prepare(populacao, funcao);
      final, gens, lists, fills := Generations(geracoes, populacao, funcao, steps);
    }

    /** The start of executar: every individual gets its fitness, then the population is sorted. */
    method Prepare(populacao: Populacao, funcao: seq<real> -> real)
      requires forall p | 0 <= p < |populacao.individuos| ::
        populacao.individuos[p].numPesos == numPesos && populacao.individuos[p].Valid()
      modifies populacao, populacao.individuos
      ensures forall p | 0 <= p < |old(populacao.individuos)| ::
        var ind := old(populacao.individuos)[p];
        ind.pesos == old(ind.pesos) && ind.aptidao == Some(funcao(ind.pesos))
      ensures populacao.individuos == Apply(old(populacao.individuos), StableOrder(KeysOf(old(populacao.individuos))))
      ensures Ready(populacao.individuos, numPesos) && populacao.Sorted()
      ensures |populacao.individuos| == |old(populacao.individuos)|
      ensures forall p | 0 <= p < |populacao.individuos| ::
        populacao.individuos[p].aptidao.value <= populacao.individuos[0].aptidao.value
    {
      ghost var initial := populacao.individuos;
      EvaluateAll(populacao.individuos, funcao);
      assert Ready(initial, numPesos);
      SortPopulation(populacao);
    }

    /**
     * The sort at the start of executar: the sorted population holds the same
     * individuals, so its head is at least as fit as every one of them.
     */
    method SortPopulation(populacao: Populacao)
      requires Ready(populacao.individuos, numPesos)
      modifies populacao
      ensures Ready(populacao.individuos, numPesos) && populacao.Sorted()
      ensures populacao.individuos == Apply(old(populacao.individuos), StableOrder(KeysOf(old(populacao.individuos))))
      ensures |populacao.individuos| == |old(populacao.individuos)|
      ensures forall p | 0 <= p < |old(populacao.individuos)| ::
        old(populacao.individuos)[p].aptidao.value <= populacao.individuos[0].aptidao.value
    {
      ghost var initial := populacao.individuos;
      populacao.Ordenar();
      ReadyMembers(initial, populacao.individuos, numPesos);
      forall p | 0 <= p < |initial|
        ensures initial[p].aptidao.value <= populacao.individuos[0].aptidao.value
      {
        SortedHead(populacao.individuos, initial[p]);
      }
    }

    /**
     * `next` is the population nova_geracao makes from `prev` with the draws
     * `steps`: the list `filled` its loop builds, sorted stably by fitness.
     */
    ghost predicate NextOf(prev: Populacao, filled: seq<Individuo>, next: Populacao, steps: nat -> Pairing,
                           funcao: seq<real> -> real)
      reads prev, prev.individuos, filled, next
      requires Ready(prev.individuos, numPesos) && StepsFit(steps, |prev.individuos|)
    {
      && Filled(filled, prev.individuos, steps, funcao)
      && next.individuos == Apply(filled, StableOrder(KeysOf(filled)))
    }

    /**
     * The generations `gens` of executar so far, from a first population of
     * `n`: `lists[g]` is the list of generation `g` and `fills[g]` the list
     * nova_geracao built for generation `g + 1`.
     */
    ghost predicate History(gens: seq<Populacao>, lists: seq<seq<Individuo>>, fills: seq<seq<Individuo>>, n: nat,
                            steps: nat -> nat -> Pairing, funcao: seq<real> -> real)
      reads gens, set x | x in Flat(lists), set x | x in Flat(fills)
      requires forall g: nat | g < |fills| :: StepsFit(steps(g), SizeAt(g, n))
    {
      && |gens| == |lists| == |fills| + 1
      && (forall g | 0 <= g < |gens| :: gens[g].individuos == lists[g])
      && (forall g | 0 <= g < |lists| ::
            FlatMember(lists, g); Ready(lists[g], numPesos) && |lists[g]| == SizeAt(g, n))
      && forall g | 0 <= g < |fills| ::
           FlatMember(lists, g); FlatMember(fills, g); NextOf(gens[g], fills[g], gens[g + 1], steps(g), funcao)
    }

    /** One more generation extends the history. */
    lemma HistoryExtend(gens: seq<Populacao>, lists: seq<seq<Individuo>>, fills: seq<seq<Individuo>>, n: nat,
                        steps: nat -> nat -> Pairing, funcao: seq<real> -> real, filled: seq<Individuo>, nova: Populacao)
      requires forall g: nat | g <= |fills| :: StepsFit(steps(g), SizeAt(g, n))
      requires History(gens, lists, fills, n, steps, funcao)
      requires Ready(nova.individuos, numPesos) && |nova.individuos| == SizeAt(|gens|, n)
      requires NextOf(gens[|gens| - 1], filled, nova, steps(|fills|), funcao)
      ensures History(gens + [nova], lists + [nova.individuos], fills + [filled], n, steps, funcao)
    {
      var gens', lists', fills' := gens + [nova], lists + [nova.individuos], fills + [filled];
      forall g | 0 <= g < |fills'|
        ensures NextOf(gens'[g], fills'[g], gens'[g + 1], steps(g), funcao)
      {
        if g < |fills| {
          assert gens'[g] == gens[g] && fills'[g] == fills[g] && gens'[g + 1] == gens[g + 1];
        }
      }
    }

    /** The size of generation `g` of executar, from a first population of `n`. */
    function SizeAt(g: nat, n: nat): nat
    {
      if g == 0 then n else TargetSize()
    }

    /**
     * The generation loop of executar, from a sorted evaluated population:
     * generation `g` builds the next population with the draws `steps(g)`.
     * Nothing that exists already is modified, and with elitism the best
     * fitness never drops.
     */
    method Generations(geracoes: nat, populacao: Populacao, funcao: seq<real> -> real, steps: nat -> nat -> Pairing)
      returns (final: Populacao, ghost gens: seq<Populacao>, ghost lists: seq<seq<Individuo>>,
               ghost fills: seq<seq<Individuo>>)
      requires Ready(populacao.individuos, numPesos) && populacao.Sorted()
      requires geracoes > 0 ==> |populacao.individuos| >= 1 && CanBreed(|populacao.individuos|)
      requires geracoes > 1 ==> TargetSize() >= 1 && CanBreed(TargetSize())
      requires forall g: nat | g < geracoes :: StepsFit(steps(g), SizeAt(g, |populacao.individuos|))
      ensures |gens| == geracoes + 1 && |fills| == geracoes && gens[0] == populacao && gens[geracoes] == final
      ensures History(gens, lists, fills, |populacao.individuos|, steps, funcao)
      ensures Ready(final.individuos, numPesos) && final.Sorted()
      ensures |final.individuos| == SizeAt(geracoes, |populacao.individuos|)
      ensures elitismo && populacao.individuos != [] ==>
        && final.individuos != []
        && forall p | 0 <= p < |populacao.individuos| ::
             populacao.individuos[p].aptidao.value <= final.individuos[0].aptidao.value
    {
      final := populacao;
      gens, fills := [populacao], [];
      lists := [populacao.individuos];
      for g := 0 to geracoes
        invariant |gens| == g + 1 && |fills| == g && gens[0] == populacao && gens[g] == final
        invariant History(gens, lists, fills, |populacao.individuos|, steps, funcao)
        invariant Ready(final.individuos, numPesos) && |final.individuos| == SizeAt(g, |populacao.individuos|)
        invariant final.Sorted()
        invariant elitismo && populacao.individuos != [] ==>
          && final.individuos != []
          && forall p | 0 <= p < |populacao.individuos| ::
               populacao.individuos[p].aptidao.value <= final.individuos[0].aptidao.value
      {
        var nova;
        ghost var filled;
        nova, filled := Advance(g, final, gens, lists, fills, |populacao.individuos|, steps, funcao);
        gens, lists, fills := gens + [nova], lists + [nova.individuos], fills + [filled];
        final := nova;
      }
    }

    /** One pass of the generation loop: nova_geracao on the last generation. */
    method Advance(g: nat, final: Populacao, ghost gens: seq<Populacao>, ghost lists: seq<seq<Individuo>>,
                   ghost fills: seq<seq<Individuo>>, ghost n: nat, steps: nat -> nat -> Pairing, funcao: seq<real> -> real)
      returns (nova: Populacao, ghost filled: seq<Individuo>)
      requires forall h: nat | h <= g :: StepsFit(steps(h), SizeAt(h, n))
      requires |fills| == g && |gens| == g + 1 && History(gens, lists, fills, n, steps, funcao) && gens[g] == final
      requires Ready(final.individuos, numPesos) && |final.individuos| == SizeAt(g, n)
      requires CanBreed(|final.individuos|)
      ensures History(gens + [nova], lists + [nova.individuos], fills + [filled], n, steps, funcao)
      ensures Ready(nova.individuos, numPesos) && |nova.individuos| == TargetSize() && nova.Sorted()
      ensures elitismo ==>
        final.individuos != [] && nova.individuos != [] &&
        final.individuos[0].aptidao.value <= nova.individuos[0].aptidao.value
    {
      nova, filled := NovaGeracao(final, funcao, steps(g));
      HistoryExtend(gens, lists, fills, n, steps, funcao, filled, nova);
    }
  }

  /** The fitness used by the aliasing example: the single weight. */
  function FirstWeight(w: seq<real>): real
  {
    if |w| == 1 then w[0] else 0.0
  }

  /**
   * The aliasing in the as-written loop body loses the elite: in the sorted
   * population of weights [1], [0], [-1] with fitness the single weight, the
   * best individual (kept first by elitism) wins the tournament on positions
   * 0 and 1; with no crossover and a mutation of -0.5 that same object drops
   * from fitness 1 to 0.5.
   */
  method ElitismLossWitness() returns (pop: Populacao, elite: Individuo, before: real, after: real)
    ensures before == 1.0 && after == 0.5
    ensures pop.individuos != [] && elite == pop.individuos[0] && elite.aptidao == Some(after)
  {
    var ga := new AlgoritmoGenetico(3, 1, 0.7, 0.1, true);
    var a := new Individuo(1, true, [1.0]);
    var b := new Individuo(1, true, [0.0]);
    var c := new Individuo(1, true, [-1.0]);
    a.CalcularAptidao(FirstWeight);
    b.CalcularAptidao(FirstWeight);
    c.CalcularAptidao(FirstWeight);
    pop := new Populacao(0, 1, false, []);
    pop.individuos := [a, b, c];
    elite := pop.Melhor();
    before := elite.aptidao.value;
    var pai1, pai2 := Tournaments(ga, pop);
    assert pai1 == a && pai2 == b;
    after := MutateInPlace(ga, pai1, pai2);
  }

  /** The two tournaments of the example: positions 0, 1 and then 1, 2. */
  method Tournaments(ga: AlgoritmoGenetico, pop: Populacao) returns (pai1: Individuo, pai2: Individuo)
    requires |pop.individuos| == 3
    requires pop.individuos[0].aptidao == Some(1.0) && pop.individuos[1].aptidao == Some(0.0)
    requires pop.individuos[2].aptidao == Some(-1.0)
    ensures pai1 == pop.individuos[0]
    ensures pai2 == pop.individuos[1]
  {
    var first: seq<nat> := [0, 1];
    assert pop.individuos[first[0]].aptidao.value == 1.0;
    pai1 := ga.SelecaoTorneio(pop, first);
    var second: seq<nat> := [1, 2];
    pai2 := ga.SelecaoTorneio(pop, second);
  }

  /** The as-written body with no crossover, on the example's draws: pai1 itself is mutated. */
  method MutateInPlace(ga: AlgoritmoGenetico, pai1: Individuo, pai2: Individuo) returns (after: real)
    requires ga.numPesos == 1 && ga.taxaCross == 0.7 && ga.taxaMut == 0.1
    requires pai1 != pai2 && pai1.numPesos == 1 && pai2.numPesos == 1 && pai2.Valid()
    requires pai1.pesos == [1.0]
    modifies pai1, pai2
    ensures after == 0.5 && pai1.aptidao == Some(after)
  {
    var d := Pairing([0, 1], [1, 2], 0.9, 0, [0.0], [-0.5], [0.5], [0.0]);
    var filho1, _ := ga.BreedAsWritten(pai1, pai2, d, FirstWeight);
    assert MaskBelow([0.0], 0.1) == [true];
    assert pai1.pesos == [0.5];
    after := pai1.aptidao.value;
  }
}
