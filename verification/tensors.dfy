/** Rank-3 tensors [batch, rows, cols], size lists, the length mask derived
    from a size list, and the batched matrix product. */
module Tensors {
  import opened LinAlg

  /** A rank-3 tensor that carries its own shape, like a torch tensor's
      `size()`; `data[i][j][k]` is the entry at batch `i`, row `j`, column `k`. */
  datatype Tensor<T> = Tensor(batch: nat, rows: nat, cols: nat, data: seq<seq<seq<T>>>)
  {
    /** The nested sequences have exactly the recorded shape. */
    predicate Valid()
    {
      && |data| == batch
      && (forall i | 0 <= i < batch :: |data[i]| == rows)
      && (forall i, j | 0 <= i < batch && 0 <= j < rows :: |data[i][j]| == cols)
    }

    predicate SameShape<U>(other: Tensor<U>)
    {
      batch == other.batch && rows == other.rows && cols == other.cols
    }
  }

  /** A size list: how many leading positions of each batch element are valid. */
  type Sizes = seq<nat>

  /** One size per batch element, none past the length of the masked axis. */
  predicate WithinAxis(sizes: Sizes, batch: nat, axis: nat)
  {
    |sizes| == batch && forall i :: 0 <= i < |sizes| ==> sizes[i] <= axis
  }

  /** The [batch, axis] boolean mask of a size list: position `p` of batch
      element `i` is valid exactly when it lies before `sizes[i]`. */
  function LengthMask(sizes: Sizes, axis: nat): (mask: seq<seq<bool>>)
    ensures |mask| == |sizes|
    ensures forall i :: 0 <= i < |sizes| ==> |mask[i]| == axis
    ensures forall i, p :: 0 <= i < |sizes| && 0 <= p < axis ==> (mask[i][p] <==> p < sizes[i])
  {
    seq(|sizes|, i requires 0 <= i < |sizes| => seq(axis, p => p < sizes[i]))
  }

  /** Each row of the length mask is `sizes[i]` trues followed by falses:
      the valid positions form a prefix of the axis. */
  lemma LengthMaskIsPrefix(sizes: Sizes, axis: nat, i: nat)
    requires WithinAxis(sizes, |sizes|, axis) && i < |sizes|
    ensures LengthMask(sizes, axis)[i] == seq(sizes[i], _ => true) + seq(axis - sizes[i], _ => false)
  {
    var row := LengthMask(sizes, axis)[i];
    var pre := seq(sizes[i], _ => true) + seq(axis - sizes[i], _ => false);
    assert forall p :: 0 <= p < axis ==> row[p] == pre[p];
  }

  /** Two valid tensors of the same shape and the same entries are equal. */
  lemma Extensionality<T>(a: Tensor<T>, b: Tensor<T>)
    requires a.Valid() && b.Valid() && a.SameShape(b)
    requires forall i, j, k | 0 <= i < a.batch && 0 <= j < a.rows && 0 <= k < a.cols ::
      a.data[i][j][k] == b.data[i][j][k]
    ensures a == b
  {
    forall i | 0 <= i < a.batch
      ensures a.data[i] == b.data[i]
    {
      forall j | 0 <= j < a.rows
        ensures a.data[i][j] == b.data[i][j]
      {
      }
    }
  }

  /** Swaps the last two axes. */
  function Transpose(t: Tensor<real>): (r: Tensor<real>)
    requires t.Valid()
    ensures r.Valid() && r.batch == t.batch && r.rows == t.cols && r.cols == t.rows
    ensures forall i, k, j | 0 <= i < t.batch && 0 <= k < t.cols && 0 <= j < t.rows ::
      r.data[i][k][j] == t.data[i][j][k]
  {
    Tensor(t.batch, t.cols, t.rows,
      seq(t.batch, i requires 0 <= i < t.batch =>
        seq(t.cols, k requires 0 <= k < t.cols =>
          seq(t.rows, j requires 0 <= j < t.rows => t.data[i][j][k]))))
  }

  /** Transposing twice gives back the tensor. */
  lemma TransposeInvolution(t: Tensor<real>)
    requires t.Valid()
    ensures Transpose(Transpose(t)) == t
  {
    Extensionality(Transpose(Transpose(t)), t);
  }

  /** Batched matrix product: for each batch element, the product of an
      [m, n] matrix with an [n, p] matrix. Each result row is the
      combination of the right factor's rows weighted by the left factor's
      row. */
  function BatchMatMul(a: Tensor<real>, b: Tensor<real>): (r: Tensor<real>)
    requires a.Valid() && b.Valid() && a.batch == b.batch && a.cols == b.rows
    ensures r.Valid() && r.batch == a.batch && r.rows == a.rows && r.cols == b.cols
    ensures forall i, j, k | 0 <= i < a.batch && 0 <= j < a.rows && 0 <= k < b.cols ::
      r.data[i][j][k] == Inner(a.data[i][j], Column(b.data[i], k))
    ensures forall i, j | 0 <= i < a.batch && 0 <= j < a.rows ::
      r.data[i][j] == WeightedRowSum(a.data[i][j], b.data[i], b.cols)
  {
    var r := Tensor(a.batch, a.rows, b.cols,
      seq(a.batch, i requires 0 <= i < a.batch =>
        seq(a.rows, j requires 0 <= j < a.rows =>
          seq(b.cols, k requires 0 <= k < b.cols => Inner(a.data[i][j], Column(b.data[i], k))))));
    assert forall i, j | 0 <= i < a.batch && 0 <= j < a.rows ::
      r.data[i][j] == WeightedRowSum(a.data[i][j], b.data[i], b.cols) by {
      forall i, j | 0 <= i < a.batch && 0 <= j < a.rows
        ensures r.data[i][j] == WeightedRowSum(a.data[i][j], b.data[i], b.cols)
      {
        WeightedRowSumByColumns(a.data[i][j], b.data[i], b.cols);
      }
    }
    r
  }
}
