/**
 * An individual of the object-oriented genetic algorithm (dominio/individuo.py):
 * a heap object whose weight vector and fitness are updated in place.
 */
module Individual {
  import opened Wrappers
  import opened Genes

  class Individuo {
    const numPesos: nat
    var pesos: seq<real>
    /** None until the fitness has been computed. */
    var aptidao: Option<real>

    predicate Valid()
      reads this
    {
      |pesos| == numPesos
    }

    /**
     * A new individual: `numPesos` uniform draws in [-1, 1] when `randomInit`
     * holds, otherwise all zeros; no fitness yet.
     */
    constructor(numPesos: nat, randomInit: bool, uniform: seq<real>)
      requires randomInit ==> |uniform| == numPesos && InUnitRange(uniform)
      ensures this.numPesos == numPesos && Valid()
      ensures pesos == if randomInit then uniform else Zeros(numPesos)
      ensures randomInit ==> InUnitRange(pesos)
      ensures aptidao == None
    {
      this.numPesos := numPesos;
      if randomInit {
        pesos := uniform;
      } else {
        pesos := Zeros(numPesos);
      }
      aptidao := None;
    }

    /** calcular_aptidao: records the fitness of the current weights; the weights stay. */
    method CalcularAptidao(funcao: seq<real> -> real)
      modifies this`aptidao
      ensures aptidao == Some(funcao(pesos))
    {
      aptidao := Some(funcao(pesos));
    }

    /**
     * mutacao: weight `i` gets `noise[i]` added exactly when its uniform draw
     * `draws[i]` is below `rate`; the length stays `numPesos`.
     */
    method Mutacao(rate: real, draws: seq<real>, noise: seq<real>)
      requires Valid() && |draws| == numPesos && |noise| == numPesos
      modifies this`pesos
      ensures Valid()
      ensures pesos == Perturb(old(pesos), MaskBelow(draws, rate), noise)
    {
      ghost var start := pesos;
      for i := 0 to numPesos
        invariant |pesos| == numPesos
        invariant forall j | 0 <= j < i :: pesos[j] == if draws[j] < rate then start[j] + noise[j] else start[j]
        invariant forall j | i <= j < numPesos :: pesos[j] == start[j]
      {
        if draws[i] < rate {
          pesos := pesos[i := pesos[i] + noise[i]];
        }
      }
    }
  }
}
