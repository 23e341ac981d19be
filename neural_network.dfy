/**
 * The two-layer perceptron whose weights the genetic algorithm evolves:
 * its chromosome layout (W1 row-major, b1, W2 row-major, b2), the board
 * encoding and the move choice from a ranking of the nine cells.
 */
module NeuralNet {
  import opened Wrappers
  import opened TicTacToe
  import opened Genes

  type Matrix = seq<seq<real>>

  /** `m` has `rows` rows of `cols` entries. */
  predicate IsMatrix(m: Matrix, rows: nat, cols: nat)
  {
    |m| == rows && forall i | 0 <= i < rows :: |m[i]| == cols
  }

  /** Row-major flattening (`ndarray.flatten`). */
  function Flatten(m: Matrix): seq<real>
  {
    if m == [] then [] else m[0] + Flatten(m[1..])
  }

  /**
   * The number of entries of a `rows` by `cols` block, `rows * cols`, by
   * repeated addition; it is also the offset at which row `rows` of a
   * flattened matrix starts.
   */
  function Area(rows: nat, cols: nat): nat
  {
    if rows == 0 then 0 else cols + Area(rows - 1, cols)
  }

  lemma {:induction false} AreaIsProduct(rows: nat, cols: nat)
    ensures Area(rows, cols) == rows * cols
  {
    if rows > 0 {
      AreaIsProduct(rows - 1, cols);
      assert cols + (rows - 1) * cols == rows * cols;
    }
  }

  lemma {:induction false} AreaMono(i: nat, rows: nat, cols: nat)
    requires i < rows
    ensures Area(i, cols) + cols <= Area(rows, cols)
  {
    if i < rows - 1 {
      AreaMono(i, rows - 1, cols);
    }
  }

  /** Cuts `s` into `rows` consecutive rows of `cols` entries (`reshape`). */
  function Reshape(s: seq<real>, rows: nat, cols: nat): (m: Matrix)
    requires |s| == Area(rows, cols)
    ensures IsMatrix(m, rows, cols)
  {
    if rows == 0 then [] else [s[..cols]] + Reshape(s[cols..], rows - 1, cols)
  }

  lemma {:induction false} FlattenLength(m: Matrix, rows: nat, cols: nat)
    requires IsMatrix(m, rows, cols)
    ensures |Flatten(m)| == Area(rows, cols)
  {
    if rows > 0 {
      FlattenLength(m[1..], rows - 1, cols);
    }
  }

  /** Entry (i, j) sits at offset `Area(i, cols) + j` of the flattening. */
  lemma {:induction false} FlattenAt(m: Matrix, rows: nat, cols: nat, i: nat, j: nat)
    requires IsMatrix(m, rows, cols) && i < rows && j < cols
    ensures Area(i, cols) + j < |Flatten(m)|
    ensures Flatten(m)[Area(i, cols) + j] == m[i][j]
  {
    var tail := m[1..];
    FlattenLength(tail, rows - 1, cols);
    assert Flatten(m) == m[0] + Flatten(tail);
    if i > 0 {
      FlattenAt(tail, rows - 1, cols, i - 1, j);
    }
  }

  /** Flattening is row-major: entry (i, j) of a `rows` by `cols` matrix lands at `i * cols + j`. */
  lemma FlattenLayout(m: Matrix, rows: nat, cols: nat)
    requires IsMatrix(m, rows, cols)
    ensures |Flatten(m)| == rows * cols
    ensures forall i: nat | i < rows :: i * cols + cols <= rows * cols
    ensures forall i: nat, j: nat | i < rows && j < cols :: Flatten(m)[i * cols + j] == m[i][j]
  {
    FlattenLength(m, rows, cols);
    AreaIsProduct(rows, cols);
    forall i: nat | i < rows
      ensures i * cols + cols <= rows * cols
    {
      AreaMono(i, rows, cols);
      AreaIsProduct(i, cols);
    }
    forall i: nat, j: nat | i < rows && j < cols
      ensures Flatten(m)[i * cols + j] == m[i][j]
    {
      FlattenAt(m, rows, cols, i, j);
      AreaIsProduct(i, cols);
    }
  }

  lemma {:induction false} ReshapeFlatten(s: seq<real>, rows: nat, cols: nat)
    requires |s| == Area(rows, cols)
    ensures Flatten(Reshape(s, rows, cols)) == s
  {
    if rows > 0 {
      ReshapeFlatten(s[cols..], rows - 1, cols);
      assert s[..cols] + s[cols..] == s;
    }
  }

  lemma {:induction false} FlattenReshape(m: Matrix, rows: nat, cols: nat)
    requires IsMatrix(m, rows, cols)
    ensures |Flatten(m)| == Area(rows, cols)
    ensures Reshape(Flatten(m), rows, cols) == m
  {
    FlattenLength(m, rows, cols);
    if rows > 0 {
      var tail := m[1..];
      FlattenReshape(tail, rows - 1, cols);
      var s := Flatten(m);
      assert s == m[0] + Flatten(tail);
      assert s[..cols] == m[0];
      assert s[cols..] == Flatten(tail);
      assert [m[0]] + tail == m;
    }
  }

  /** Number of parameters of a network with the given layer sizes. */
  function ParamCount(inputSize: nat, hiddenSize: nat, outputSize: nat): nat
  {
    Area(hiddenSize, inputSize) + hiddenSize + Area(outputSize, hiddenSize) + outputSize
  }

  /** hidden·input + hidden + output·hidden + output; 351 for the default sizes 9/18/9. */
  lemma ParamCountFormula(inputSize: nat, hiddenSize: nat, outputSize: nat)
    ensures ParamCount(inputSize, hiddenSize, outputSize)
      == hiddenSize * inputSize + hiddenSize + outputSize * hiddenSize + outputSize
    ensures ParamCount(9, 18, 9) == 351
  {
    AreaIsProduct(hiddenSize, inputSize);
    AreaIsProduct(outputSize, hiddenSize);
    AreaIsProduct(18, 9);
    AreaIsProduct(9, 18);
  }

  /** The weights and biases of both layers. */
  datatype Params = Params(W1: Matrix, b1: seq<real>, W2: Matrix, b2: seq<real>)

  predicate HasShape(p: Params, inputSize: nat, hiddenSize: nat, outputSize: nat)
  {
    && IsMatrix(p.W1, hiddenSize, inputSize) && |p.b1| == hiddenSize
    && IsMatrix(p.W2, outputSize, hiddenSize) && |p.b2| == outputSize
  }

  /** The chromosome of a network: W1 row-major, then b1, then W2 row-major, then b2. */
  function Encode(p: Params): seq<real>
  {
    Flatten(p.W1) + p.b1 + Flatten(p.W2) + p.b2
  }

  /** The parameters a chromosome of the right length describes. */
  function Decode(c: seq<real>, inputSize: nat, hiddenSize: nat, outputSize: nat): (p: Params)
    requires |c| == ParamCount(inputSize, hiddenSize, outputSize)
    ensures HasShape(p, inputSize, hiddenSize, outputSize)
  {
    var w1 := Area(hiddenSize, inputSize);
    var w2 := Area(outputSize, hiddenSize);
    var rest := c[w1..];
    var rest2 := rest[hiddenSize..];
    Params(Reshape(c[..w1], hiddenSize, inputSize),
           rest[..hiddenSize],
           Reshape(rest2[..w2], outputSize, hiddenSize),
           rest2[w2..])
  }

  /**
   * The chromosome has one gene per parameter: W1 flattened row-major (see
   * `FlattenLayout`), then b1, then W2 flattened row-major, then b2.
   */
  lemma EncodeLayout(p: Params, inputSize: nat, hiddenSize: nat, outputSize: nat)
    requires HasShape(p, inputSize, hiddenSize, outputSize)
    ensures var c := Encode(p);
      var off1 := Area(hiddenSize, inputSize);
      var off2 := off1 + hiddenSize;
      var off3 := off2 + Area(outputSize, hiddenSize);
      && |c| == ParamCount(inputSize, hiddenSize, outputSize)
      && c[..off1] == Flatten(p.W1)
      && c[off1..off2] == p.b1
      && c[off2..off3] == Flatten(p.W2)
      && c[off3..] == p.b2
  {
    FlattenLength(p.W1, hiddenSize, inputSize);
    FlattenLength(p.W2, outputSize, hiddenSize);
  }

  /** Decoding a chromosome and encoding the result gives the chromosome back. */
  lemma EncodeDecode(c: seq<real>, inputSize: nat, hiddenSize: nat, outputSize: nat)
    requires |c| == ParamCount(inputSize, hiddenSize, outputSize)
    ensures Encode(Decode(c, inputSize, hiddenSize, outputSize)) == c
  {
    var w1 := Area(hiddenSize, inputSize);
    var w2 := Area(outputSize, hiddenSize);
    var rest := c[w1..];
    var rest2 := rest[hiddenSize..];
    var p := Decode(c, inputSize, hiddenSize, outputSize);
    ReshapeFlatten(c[..w1], hiddenSize, inputSize);
    ReshapeFlatten(rest2[..w2], outputSize, hiddenSize);
    assert Flatten(p.W1) == c[..w1] && p.b1 == rest[..hiddenSize];
    assert Flatten(p.W2) == rest2[..w2] && p.b2 == rest2[w2..];
    calc {
      Encode(p);
      Flatten(p.W1) + p.b1 + Flatten(p.W2) + p.b2;
      c[..w1] + rest[..hiddenSize] + rest2[..w2] + rest2[w2..];
      { assert rest2[..w2] + rest2[w2..] == rest2; }
      c[..w1] + (rest[..hiddenSize] + rest2);
      { assert rest[..hiddenSize] + rest2 == rest; }
      c[..w1] + rest;
      c;
    }
  }

  /** Encoding well-shaped parameters and decoding the result gives the parameters back. */
  lemma DecodeEncode(p: Params, inputSize: nat, hiddenSize: nat, outputSize: nat)
    requires HasShape(p, inputSize, hiddenSize, outputSize)
    ensures |Encode(p)| == ParamCount(inputSize, hiddenSize, outputSize)
    ensures Decode(Encode(p), inputSize, hiddenSize, outputSize) == p
  {
    FlattenReshape(p.W1, hiddenSize, inputSize);
    FlattenReshape(p.W2, outputSize, hiddenSize);
    var c := Encode(p);
    var w1 := Area(hiddenSize, inputSize);
    var w2 := Area(outputSize, hiddenSize);
    var rest := c[w1..];
    var rest2 := rest[hiddenSize..];
    assert c[..w1] == Flatten(p.W1);
    assert rest == p.b1 + Flatten(p.W2) + p.b2;
    assert rest[..hiddenSize] == p.b1;
    assert rest2 == Flatten(p.W2) + p.b2;
    assert rest2[..w2] == Flatten(p.W2);
    assert rest2[w2..] == p.b2;
  }

  /** A zero matrix of the given shape. */
  function ZeroMatrix(rows: nat, cols: nat): (m: Matrix)
    ensures IsMatrix(m, rows, cols)
  {
    seq(rows, i => Zeros(cols))
  }

  /** The board flattened row by row, cell (i, j) at position 3i + j. */
  function EncodeBoard(b: Board): (x: seq<real>)
    requires Shaped(b)
    ensures |x| == 9
    ensures forall i, j | 0 <= i < 3 && 0 <= j < 3 :: x[3 * i + j] == b[i][j] as real
  {
    RowToReals(b[0]) + RowToReals(b[1]) + RowToReals(b[2])
  }

  function RowToReals(row: seq<int>): (r: seq<real>)
    ensures |r| == |row| && forall j | 0 <= j < |row| :: r[j] == row[j] as real
  {
    if row == [] then [] else RowToReals(row[..|row| - 1]) + [row[|row| - 1] as real]
  }

  /** `{3i + j: (i, j)}` over the moves: each key maps to the last move with that index. */
  function IndexMap(moves: seq<Move>): (d: map<int, Move>)
    ensures forall k :: k in d <==> exists m | m in moves :: Index(m) == k
    ensures forall k | k in d :: d[k] in moves && Index(d[k]) == k
  {
    if moves == [] then map[]
    else
      var last := moves[|moves| - 1];
      var d := IndexMap(moves[..|moves| - 1]);
      assert forall m | m in moves[..|moves| - 1] :: m in moves;
      assert forall m | m in moves :: m in moves[..|moves| - 1] || m == last;
      d[Index(last) := last]
  }

  /** Cell `k` is the index of one of the moves. */
  predicate IsOffered(moves: seq<Move>, k: int)
  {
    exists m | m in moves :: Index(m) == k
  }

  /**
   * The move escolher_jogada answers with, given the offered `moves` and the
   * ranking of the cells (best first): the offered move of the first ranked
   * cell that is offered; `moves[0]` when none is; None without moves.
   */
  function NetworkPick(moves: seq<Move>, ranking: seq<int>): Option<Move>
  {
    if ranking == [] then
      if moves == [] then None else Some(moves[0])
    else if ranking[0] in IndexMap(moves) then Some(IndexMap(moves)[ranking[0]])
    else NetworkPick(moves, ranking[1..])
  }

  /**
   * The network's move is None exactly without moves and otherwise one of
   * them; when some ranked cell is offered it is the first such cell, and
   * when none is it is the first move.
   */
  lemma {:induction false} NetworkPickSpec(moves: seq<Move>, ranking: seq<int>)
    ensures NetworkPick(moves, ranking).None? <==> moves == []
    ensures NetworkPick(moves, ranking).Some? ==> NetworkPick(moves, ranking).value in moves
    ensures (exists t | 0 <= t < |ranking| :: IsOffered(moves, ranking[t])) ==>
      && NetworkPick(moves, ranking).Some?
      && exists t | 0 <= t < |ranking| ::
        && ranking[t] == Index(NetworkPick(moves, ranking).value)
        && forall u | 0 <= u < t :: !IsOffered(moves, ranking[u])
    ensures moves != [] && (forall t | 0 <= t < |ranking| :: !IsOffered(moves, ranking[t])) ==>
      NetworkPick(moves, ranking) == Some(moves[0])
  {
    if ranking != [] && ranking[0] !in IndexMap(moves) {
      var rest := ranking[1..];
      NetworkPickSpec(moves, rest);
      assert !IsOffered(moves, ranking[0]);
      assert forall t | 1 <= t < |ranking| :: ranking[t] == rest[t - 1];
      if exists t | 0 <= t < |ranking| :: IsOffered(moves, ranking[t]) {
        var t :| 0 <= t < |ranking| && IsOffered(moves, ranking[t]);
        assert IsOffered(moves, rest[t - 1]);
        var t' :| 0 <= t' < |rest| && rest[t'] == Index(NetworkPick(moves, rest).value)
          && forall u | 0 <= u < t' :: !IsOffered(moves, rest[u]);
        assert forall u | 0 <= u < t' + 1 :: !IsOffered(moves, ranking[u]) by {
          forall u | 0 <= u < t' + 1 ensures !IsOffered(moves, ranking[u]) {
            if u > 0 { assert ranking[u] == rest[u - 1]; }
          }
        }
      }
      if moves != [] && forall t | 0 <= t < |ranking| :: !IsOffered(moves, ranking[t]) {
        assert forall t | 0 <= t < |rest| :: !IsOffered(moves, rest[t]) by {
          forall t | 0 <= t < |rest| ensures !IsOffered(moves, rest[t]) {
            assert rest[t] == ranking[t + 1];
          }
        }
      }
    }
  }

  class NeuralNetwork {
    const inputSize: nat
    const hiddenSize: nat
    const outputSize: nat
    var W1: Matrix
    var b1: seq<real>
    var W2: Matrix
    var b2: seq<real>

    predicate Valid()
      reads this
    {
      HasShape(Parameters(), inputSize, hiddenSize, outputSize)
    }

    function Parameters(): Params
      reads this
    {
      Params(W1, b1, W2, b2)
    }

    /** A network with the given first and second layer weights and zero biases. */
    constructor (inputSize: nat, hiddenSize: nat, outputSize: nat, w1: Matrix, w2: Matrix)
      requires IsMatrix(w1, hiddenSize, inputSize) && IsMatrix(w2, outputSize, hiddenSize)
      ensures Valid()
      ensures this.inputSize == inputSize && this.hiddenSize == hiddenSize && this.outputSize == outputSize
      ensures W1 == w1 && W2 == w2 && b1 == Zeros(hiddenSize) && b2 == Zeros(outputSize)
    {
      this.inputSize := inputSize;
      this.hiddenSize := hiddenSize;
      this.outputSize := outputSize;
      W1 := w1;
      b1 := Zeros(hiddenSize);
      W2 := w2;
      b2 := Zeros(outputSize);
    }

    /** Total number of weights and biases. */
    function NumWeights(): (n: nat)
      reads this
      requires Valid()
      ensures n == ParamCount(inputSize, hiddenSize, outputSize)
      ensures inputSize == 9 && hiddenSize == 18 && outputSize == 9 ==> n == 351
    {
      FlattenLength(W1, hiddenSize, inputSize);
      FlattenLength(W2, outputSize, hiddenSize);
      ParamCountFormula(inputSize, hiddenSize, outputSize);
      |Flatten(W1)| + |b1| + |Flatten(W2)| + |b2|
    }

    /** All weights and biases as one flat vector. */
    function ToChromosome(): (c: seq<real>)
      reads this
      requires Valid()
      ensures |c| == NumWeights()
      ensures Decode(c, inputSize, hiddenSize, outputSize) == Parameters()
    {
      DecodeEncode(Parameters(), inputSize, hiddenSize, outputSize);
      Encode(Parameters())
    }

    /**
     * Loads the weights from a chromosome. A vector of the wrong length is
     * rejected (the source's assertion) and leaves the network as it was.
     */
    method SetFromChromosome(chrom: seq<real>) returns (ok: bool)
      requires Valid()
      modifies this
      ensures Valid()
      ensures ok <==> |chrom| == ParamCount(inputSize, hiddenSize, outputSize)
      ensures ok ==> Parameters() == Decode(chrom, inputSize, hiddenSize, outputSize)
      ensures ok ==> ToChromosome() == chrom
      ensures !ok ==> Parameters() == old(Parameters())
      ensures chrom == old(ToChromosome()) ==> ok && Parameters() == old(Parameters())
    {
      if |chrom| != NumWeights() {
        return false;
      }
      ghost var target := Decode(chrom, inputSize, hiddenSize, outputSize);
      ghost var rest := chrom[Area(hiddenSize, inputSize)..];
      ghost var rest2 := rest[hiddenSize..];
      FlattenLength(W1, hiddenSize, inputSize);
      FlattenLength(W2, outputSize, hiddenSize);
      var i := 0;
      var w1Size := |Flatten(W1)|;
      var b1Size := |b1|;
      var w2Size := |Flatten(W2)|;
      var b2Size := |b2|;
      assert chrom[i..i + w1Size] == chrom[..w1Size];
      W1 := Reshape(chrom[i..i + w1Size], hiddenSize, inputSize);
      i := i + w1Size;
      assert chrom[i..i + b1Size] == rest[..hiddenSize];
      b1 := chrom[i..i + b1Size];
      i := i + b1Size;
      assert chrom[i..i + w2Size] == rest2[..w2Size];
      W2 := Reshape(chrom[i..i + w2Size], outputSize, hiddenSize);
      i := i + w2Size;
      assert chrom[i..i + b2Size] == rest2[w2Size..];
      b2 := chrom[i..i + b2Size];
      i := i + b2Size;
      assert Parameters() == target;
      EncodeDecode(chrom, inputSize, hiddenSize, outputSize);
      return true;
    }

    /**
     * The network's move: the first cell of `ranking` (the output scores'
     * indices, best first) that is one of `moves`; `moves[0]` if none is;
     * None when there are no moves.
     */
    method ChooseMove(moves: seq<Move>, ranking: seq<int>) returns (r: Option<Move>)
      ensures r.None? <==> moves == []
      ensures r.Some? ==> r.value in moves
      ensures r.Some? && (exists t | 0 <= t < |ranking| :: IsOffered(moves, ranking[t])) ==>
        exists t | 0 <= t < |ranking| ::
          && ranking[t] == Index(r.value)
          && forall u | 0 <= u < t :: !IsOffered(moves, ranking[u])
      ensures moves != [] && (forall t | 0 <= t < |ranking| :: !IsOffered(moves, ranking[t])) ==>
        r == Some(moves[0])
      ensures r == NetworkPick(moves, ranking)
    {
      var valid := IndexMap(moves);
      for t := 0 to |ranking|
        invariant forall u | 0 <= u < t :: !IsOffered(moves, ranking[u])
        invariant NetworkPick(moves, ranking) == NetworkPick(moves, ranking[t..])
      {
        assert ranking[t..][1..] == ranking[t + 1..];
        if ranking[t] in valid {
          return Some(valid[ranking[t]]);
        }
      }
      if moves != [] {
        return Some(moves[0]);
      }
      return None;
    }
  }

  /**
   * The network built from a chromosome for layer sizes 9/hidden/9, or None
   * when the chromosome has the wrong length.
   */
  method FromChromosome(chrom: seq<real>, inputSize: nat, hiddenSize: nat, outputSize: nat)
    returns (net: Option<NeuralNetwork>)
    ensures net.Some? <==> |chrom| == ParamCount(inputSize, hiddenSize, outputSize)
    ensures net.Some? ==> fresh(net.value) && net.value.Valid() && net.value.ToChromosome() == chrom
    ensures net.Some? ==>
      net.value.inputSize == inputSize && net.value.hiddenSize == hiddenSize && net.value.outputSize == outputSize
  {
    var n := new NeuralNetwork(inputSize, hiddenSize, outputSize,
                               ZeroMatrix(hiddenSize, inputSize), ZeroMatrix(outputSize, hiddenSize));
    var ok := n.SetFromChromosome(chrom);
    if ok {
      return Some(n);
    }
    return None;
  }

  /**
   * When every move is on the grid and the ranking lists every cell 0..8,
   * some ranked cell is offered, so the `moves[0]` fallback is never taken.
   */
  lemma FallbackUnreachable(moves: seq<Move>, ranking: seq<int>)
    requires moves != [] && forall m | m in moves :: InGrid(m)
    requires forall k | 0 <= k < 9 :: k in ranking
    ensures exists t | 0 <= t < |ranking| :: IsOffered(moves, ranking[t])
  {
    var m := moves[0];
    assert m in moves && InGrid(m);
    assert Index(m) in ranking;
    var t :| 0 <= t < |ranking| && ranking[t] == Index(m);
    assert IsOffered(moves, ranking[t]);
  }
}
