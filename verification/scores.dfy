/** Raw attention scores: the batched dot product of queries with contexts. */
module Scores {
  import opened LinAlg
  import opened Tensors

  /** dot: `q` [B, n_q, d] times the transpose of `c` [B, n_c, d], giving the
      [B, n_q, n_c] scores; entry (i, j, k) is the inner product of query
      `q[i,j]` with context `c[i,k]` and reads no other batch element. */
  function Dot(q: Tensor<real>, c: Tensor<real>): (s: Tensor<real>)
    requires q.Valid() && c.Valid() && q.batch == c.batch && q.cols == c.cols
    ensures s.Valid() && s.batch == q.batch && s.rows == q.rows && s.cols == c.rows
    ensures forall i, j, k | 0 <= i < s.batch && 0 <= j < s.rows && 0 <= k < s.cols ::
      s.data[i][j][k] == Inner(q.data[i][j], c.data[i][k])
  {
    var ct := Transpose(c);
    assert forall i, k | 0 <= i < c.batch && 0 <= k < c.rows :: Column(ct.data[i], k) == c.data[i][k];
    BatchMatMul(q, ct)
  }

  /** Swapping the roles of queries and contexts transposes the scores. */
  lemma DotTranspose(q: Tensor<real>, c: Tensor<real>)
    requires q.Valid() && c.Valid() && q.batch == c.batch && q.cols == c.cols
    ensures Dot(c, q) == Transpose(Dot(q, c))
  {
    var s := Dot(q, c);
    forall i, k, j | 0 <= i < q.batch && 0 <= k < c.rows && 0 <= j < q.rows
      ensures Dot(c, q).data[i][k][j] == s.data[i][j][k]
    {
      InnerSymmetric(c.data[i][k], q.data[i][j]);
    }
    Extensionality(Dot(c, q), Transpose(s));
  }
}
