/**
 * The population of the object-oriented genetic algorithm
 * (dominio/populacao.py): a list of individual objects that is sorted in
 * place by fitness, best first.
 */
module Population {
  import opened Wrappers
  import opened Sorting
  import opened Genes
  import opened Individual

  /** Every individual in `inds` has a fitness. */
  predicate AllEvaluated(inds: seq<Individuo>)
    reads inds
  {
    forall p | 0 <= p < |inds| :: inds[p].aptidao.Some?
  }

  /** The fitness values of `inds`, in list order. */
  function KeysOf(inds: seq<Individuo>): (k: seq<real>)
    reads inds
    requires AllEvaluated(inds)
    ensures |k| == |inds| && forall p | 0 <= p < |inds| :: k[p] == inds[p].aptidao.value
  {
    if inds == [] then [] else KeysOf(inds[..|inds| - 1]) + [inds[|inds| - 1].aptidao.value]
  }

  /** Fitness never increases along the list. */
  predicate SortedDesc(inds: seq<Individuo>)
    reads inds
  {
    AllEvaluated(inds) && forall p, q | 0 <= p < q < |inds| :: inds[p].aptidao.value >= inds[q].aptidao.value
  }

  /** The sum of the values, added from the front as `sum` does. */
  function Sum(xs: seq<real>): real
  {
    if xs == [] then 0.0 else Sum(xs[..|xs| - 1]) + xs[|xs| - 1]
  }

  /** `n` values between `lo` and `hi` add up to between `n * lo` and `n * hi`. */
  lemma {:induction false} SumBounds(xs: seq<real>, lo: real, hi: real)
    requires forall p | 0 <= p < |xs| :: lo <= xs[p] <= hi
    ensures |xs| as real * lo <= Sum(xs) <= |xs| as real * hi
  {
    if xs != [] {
      SumBounds(xs[..|xs| - 1], lo, hi);
    }
  }

  /** The mean of values that all lie between `lo` and `hi` lies between them too. */
  lemma MeanWithinBounds(xs: seq<real>, lo: real, hi: real)
    requires xs != [] && forall p | 0 <= p < |xs| :: lo <= xs[p] <= hi
    ensures lo <= Sum(xs) / |xs| as real <= hi
  {
    SumBounds(xs, lo, hi);
    var n := |xs| as real;
    assert Sum(xs) / n * n == Sum(xs);
  }

  /**
   * After the stable sort, the first individual is the first of the old list
   * with the highest fitness and the last one has the lowest fitness.
   */
  lemma SortedEnds(inds: seq<Individuo>)
    requires inds != [] && AllEvaluated(inds)
    ensures var keys := KeysOf(inds);
      var order := StableOrder(keys);
      var s := Apply(inds, order);
      && order[0] < |inds| && s[0] == inds[order[0]]
      && (forall p | 0 <= p < |inds| :: inds[p].aptidao.value <= s[0].aptidao.value)
      && (forall p | 0 <= p < order[0] :: inds[p].aptidao.value < s[0].aptidao.value)
      && (forall p | 0 <= p < |inds| :: s[|s| - 1].aptidao.value <= inds[p].aptidao.value)
  {
    var keys := KeysOf(inds);
    StableOrderSpec(keys);
    StableOrderFront(keys);
    var order := StableOrder(keys);
    var last := |order| - 1;
    forall p | 0 <= p < |inds|
      ensures keys[order[last]] <= keys[p]
    {
      assert p in order;
      var q :| 0 <= q < |order| && order[q] == p;
      if q < last {
        assert keys[order[q]] >= keys[order[last]];
      }
    }
  }

  /**
   * The stable sort by fitness permutes the list: the same individuals, as
   * many of them, in non-increasing order of fitness.
   */
  lemma SortOrders(inds: seq<Individuo>)
    requires AllEvaluated(inds)
    ensures var s := Apply(inds, StableOrder(KeysOf(inds)));
      && |s| == |inds| && (forall x :: x in s <==> x in inds)
      && SortedDesc(s)
  {
    var keys := KeysOf(inds);
    var order := StableOrder(keys);
    StableOrderSpec(keys);
    var sorted := Apply(inds, order);
    PermutedMembers(inds, order);
    forall p, q | 0 <= p < q < |sorted|
      ensures sorted[p].aptidao.value >= sorted[q].aptidao.value
    {
      assert keys[order[p]] >= keys[order[q]];
    }
  }

  /** Sorting a list that is already sorted leaves it as it is: ordenar is idempotent. */
  lemma SortSorted(inds: seq<Individuo>)
    requires SortedDesc(inds)
    ensures Apply(inds, StableOrder(KeysOf(inds))) == inds
  {
    var keys := KeysOf(inds);
    StableOrderOfSorted(keys);
  }

  class Populacao {
    var individuos: seq<Individuo>

    predicate Evaluated()
      reads this, individuos
    {
      AllEvaluated(individuos)
    }

    predicate Sorted()
      reads this, individuos
    {
      SortedDesc(individuos)
    }

    /**
     * `tamanho` new individuals of `numPesos` weights each, random ones
     * drawn from `uniform[p]` or all-zero ones.
     */
    constructor(tamanho: nat, numPesos: nat, aleatorios: bool, uniform: seq<seq<real>>)
      requires aleatorios ==> |uniform| == tamanho
      requires aleatorios ==> forall p | 0 <= p < |uniform| :: |uniform[p]| == numPesos && InUnitRange(uniform[p])
      ensures |individuos| == tamanho
      ensures forall p | 0 <= p < tamanho :: fresh(individuos[p])
      ensures forall p, q | 0 <= p < q < tamanho :: individuos[p] != individuos[q]
      ensures forall p | 0 <= p < tamanho ::
        && individuos[p].numPesos == numPesos && individuos[p].Valid()
        && individuos[p].pesos == (if aleatorios then uniform[p] else Zeros(numPesos))
        && individuos[p].aptidao == None
    {
      var inds: seq<Individuo> := [];
      for p := 0 to tamanho
        invariant |inds| == p
        invariant forall q | 0 <= q < p :: fresh(inds[q])
        invariant forall q, r | 0 <= q < r < p :: inds[q] != inds[r]
        invariant forall q | 0 <= q < p ::
          && inds[q].numPesos == numPesos && inds[q].Valid()
          && inds[q].pesos == (if aleatorios then uniform[q] else Zeros(numPesos))
          && inds[q].aptidao == None
      {
        var ind := new Individuo(numPesos, aleatorios, if aleatorios then uniform[p] else []);
        inds := inds + [ind];
      }
      individuos := inds;
    }

    /**
     * ordenar: the stable sort by fitness, highest first; the individuals are
     * permuted, not changed. Fitness values are only compared when there are
     * two individuals or more, so a list of one may still be unevaluated.
     */
    method Ordenar()
      requires |individuos| > 1 ==> Evaluated()
      modifies this
      ensures !AllEvaluated(old(individuos)) ==> individuos == old(individuos)
      ensures AllEvaluated(old(individuos)) ==>
        individuos == Apply(old(individuos), StableOrder(KeysOf(old(individuos))))
      ensures |individuos| == |old(individuos)| && forall x :: x in individuos <==> x in old(individuos)
      ensures AllEvaluated(old(individuos)) ==> Sorted()
    {
      if |individuos| > 1 {
        var sorted := Apply(individuos, StableOrder(KeysOf(individuos)));
        SortOrders(individuos);
        individuos := sorted;
      } else if AllEvaluated(individuos) {
        SortSorted(individuos);
      }
    }

    /** melhor: the first individual, the fittest once the list is sorted. */
    function Melhor(): (m: Individuo)
      reads this, individuos
      requires individuos != []
      ensures m in individuos && m == individuos[0]
      ensures Sorted() ==> forall p | 0 <= p < |individuos| :: individuos[p].aptidao.value <= m.aptidao.value
    {
      individuos[0]
    }

    /** pior: the last individual, the least fit once the list is sorted. */
    function Pior(): (m: Individuo)
      reads this, individuos
      requires individuos != []
      ensures m in individuos && m == individuos[|individuos| - 1]
      ensures Sorted() ==> forall p | 0 <= p < |individuos| :: m.aptidao.value <= individuos[p].aptidao.value
    {
      individuos[|individuos| - 1]
    }

    /** media_aptidao: the sum of the fitness values divided by their number. */
    function MediaAptidao(): (r: real)
      reads this, individuos
      requires individuos != [] && Evaluated()
      ensures r * |individuos| as real == Sum(KeysOf(individuos))
    {
      Sum(KeysOf(individuos)) / |individuos| as real
    }
  }

  /** In a sorted population the mean fitness lies between pior and melhor. */
  lemma MeanBetweenEnds(pop: Populacao)
    requires pop.individuos != [] && pop.Sorted()
    ensures pop.Pior().aptidao.value <= pop.MediaAptidao() <= pop.Melhor().aptidao.value
  {
    MeanWithinBounds(KeysOf(pop.individuos), pop.Pior().aptidao.value, pop.Melhor().aptidao.value);
  }
}
