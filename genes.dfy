/**
 * Chromosomes (flat weight vectors) and the masked Gaussian mutation both
 * genetic-algorithm variants apply. Random numbers are parameters: `draws`
 * are the uniform numbers in [0, 1) compared with the rate, `noise` the
 * normal deviates added where the comparison succeeds.
 */
module Genes {

  type Chromosome = seq<real>

  /** The all-zero chromosome of `n` genes (`np.zeros(n)`). */
  function Zeros(n: nat): (z: Chromosome)
    ensures |z| == n && forall i | 0 <= i < n :: z[i] == 0.0
  {
    seq(n, i => 0.0)
  }

  /** Every gene lies in [-1, 1], the range of the uniform initialisation. */
  predicate InUnitRange(c: Chromosome)
  {
    forall i | 0 <= i < |c| :: -1.0 <= c[i] <= 1.0
  }

  /** Uniform draws, each in [0, 1). */
  predicate AreUnitDraws(draws: seq<real>)
  {
    forall i | 0 <= i < |draws| :: 0.0 <= draws[i] < 1.0
  }

  /** `rand(n) < rate`: the positions selected for mutation. */
  function MaskBelow(draws: seq<real>, rate: real): (mask: seq<bool>)
    ensures |mask| == |draws|
    ensures forall i | 0 <= i < |draws| :: mask[i] <==> draws[i] < rate
  {
    if draws == [] then [] else MaskBelow(draws[..|draws| - 1], rate) + [draws[|draws| - 1] < rate]
  }

  /** Adds `noise[i]` to the genes the mask selects and keeps the others. */
  function Perturb(genes: Chromosome, mask: seq<bool>, noise: seq<real>): (r: Chromosome)
    requires |mask| == |genes| == |noise|
    ensures |r| == |genes|
    ensures forall i | 0 <= i < |genes| :: r[i] != genes[i] ==> mask[i] && noise[i] != 0.0
  {
    seq(|genes|, i requires 0 <= i < |genes| => if mask[i] then genes[i] + noise[i] else genes[i])
  }

  /** A selected gene moves by exactly its noise; an unselected one stays. */
  lemma PerturbSpec(genes: Chromosome, mask: seq<bool>, noise: seq<real>)
    requires |mask| == |genes| == |noise|
    ensures forall i | 0 <= i < |genes| ::
      Perturb(genes, mask, noise)[i] - genes[i] == (if mask[i] then noise[i] else 0.0)
  {
  }

  /** With rate 0 no uniform draw falls below it, so mutation changes nothing. */
  lemma {:induction false} ZeroRateKeepsGenes(genes: Chromosome, draws: seq<real>, noise: seq<real>)
    requires |draws| == |genes| == |noise| && AreUnitDraws(draws)
    ensures Perturb(genes, MaskBelow(draws, 0.0), noise) == genes
  {
    var mask := MaskBelow(draws, 0.0);
    assert forall i | 0 <= i < |genes| :: !mask[i];
  }
}
