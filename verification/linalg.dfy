/** Exact linear algebra on finite real vectors: sums, maxima, inner
    products and weighted sums of rows. Every tensor operation of the
    attention kernel reduces to these. */
module LinAlg {

  type Vector = seq<real>
  type Matrix = seq<seq<real>>

  /** Sum of a vector, accumulated left to right as Python's `sum` does. */
  function Sum(xs: Vector): real
  {
    if |xs| == 0 then 0.0 else Sum(xs[..|xs| - 1]) + xs[|xs| - 1]
  }

  /** Largest entry of a non-empty vector: an upper bound that is attained. */
  function Max(xs: Vector): (m: real)
    requires |xs| > 0
    ensures forall k :: 0 <= k < |xs| ==> xs[k] <= m
    ensures exists k :: 0 <= k < |xs| && xs[k] == m
  {
    if |xs| == 1 then xs[0]
    else
      var front := xs[..|xs| - 1];
      var m' := Max(front);
      assert exists k :: 0 <= k < |front| && front[k] == m';
      if xs[|xs| - 1] <= m' then m' else xs[|xs| - 1]
  }

  /** Entrywise product of two vectors of the same length. */
  function Hadamard(u: Vector, v: Vector): (w: Vector)
    requires |u| == |v|
    ensures |w| == |u|
    ensures forall k :: 0 <= k < |w| ==> w[k] == u[k] * v[k]
  {
    seq(|u|, k requires 0 <= k < |u| => u[k] * v[k])
  }

  /** Inner product `Σ_f u[f]·v[f]`, the `np.dot` of two feature vectors. */
  function Inner(u: Vector, v: Vector): real
    requires |u| == |v|
  {
    Sum(Hadamard(u, v))
  }

  /** Every vector of `xs` divided by the non-zero real `t`. */
  function Divide(xs: Vector, t: real): (ys: Vector)
    requires t != 0.0
    ensures |ys| == |xs|
    ensures forall k :: 0 <= k < |ys| ==> ys[k] == xs[k] / t
  {
    seq(|xs|, k requires 0 <= k < |xs| => xs[k] / t)
  }

  /** All rows of `m` are at least `width` long. */
  predicate RowsAtLeast(m: Matrix, width: nat)
  {
    forall r :: 0 <= r < |m| ==> width <= |m[r]|
  }

  /** All rows of `m` are exactly `width` long. */
  predicate RowsExactly(m: Matrix, width: nat)
  {
    forall r :: 0 <= r < |m| ==> |m[r]| == width
  }

  /** Column `f` of a matrix whose rows are long enough. */
  function Column(m: Matrix, f: nat): (col: Vector)
    requires RowsAtLeast(m, f + 1)
    ensures |col| == |m|
    ensures forall r :: 0 <= r < |col| ==> col[r] == m[r][f]
  {
    seq(|m|, r requires 0 <= r < |m| => m[r][f])
  }

  function Zeros(p: nat): (z: Vector)
    ensures |z| == p
    ensures forall f :: 0 <= f < p ==> z[f] == 0.0
  {
    seq(p, f => 0.0)
  }

  function AddVec(u: Vector, v: Vector): (w: Vector)
    requires |u| == |v|
    ensures |w| == |u|
    ensures forall f :: 0 <= f < |w| ==> w[f] == u[f] + v[f]
  {
    seq(|u|, f requires 0 <= f < |u| => u[f] + v[f])
  }

  function ScaleVec(a: real, v: Vector): (w: Vector)
    ensures |w| == |v|
    ensures forall f :: 0 <= f < |w| ==> w[f] == a * v[f]
  {
    seq(|v|, f requires 0 <= f < |v| => a * v[f])
  }

  /** `Σ_k w[k]·rows[k]` accumulated one scaled row at a time, the way
      the test accumulates its weighted sum of vectors. */
  function WeightedRowSum(w: Vector, rows: Matrix, p: nat): (z: Vector)
    requires |w| == |rows| && RowsExactly(rows, p)
    ensures |z| == p
  {
    if |w| == 0 then Zeros(p)
    else
      var n := |w| - 1;
      AddVec(WeightedRowSum(w[..n], rows[..n], p), ScaleVec(w[n], rows[n]))
  }

  /** Entries past position `n` are zero. */
  predicate ZeroFrom(xs: Vector, n: nat)
  {
    forall k :: n <= k < |xs| ==> xs[k] == 0.0
  }

  predicate NonNegative(xs: Vector)
  {
    forall k :: 0 <= k < |xs| ==> xs[k] >= 0.0
  }

  /** A zero tail does not contribute to a sum. */
  lemma {:induction false} SumZeroTail(xs: Vector, n: nat)
    requires n <= |xs| && ZeroFrom(xs, n)
    ensures Sum(xs) == Sum(xs[..n])
    decreases |xs|
  {
    if |xs| == n {
      assert xs[..n] == xs;
    } else {
      var front := xs[..|xs| - 1];
      SumZeroTail(front, n);
      assert front[..n] == xs[..n];
    }
  }

  /** The sum of a concatenation is the sum of the two sums: for exact
      reals the left-to-right accumulation order does not matter. */
  lemma {:induction false} SumConcat(a: Vector, b: Vector)
    ensures Sum(a + b) == Sum(a) + Sum(b)
    decreases |b|
  {
    if |b| == 0 {
      assert a + b == a;
    } else {
      var n := |b| - 1;
      SumConcat(a, b[..n]);
      assert (a + b)[..|a + b| - 1] == a + b[..n];
    }
  }

  lemma {:induction false} SumNonNegative(xs: Vector)
    requires NonNegative(xs)
    ensures Sum(xs) >= 0.0
    decreases |xs|
  {
    if |xs| > 0 {
      SumNonNegative(xs[..|xs| - 1]);
    }
  }

  /** A non-negative vector with one positive entry has a positive sum. */
  lemma {:induction false} SumPositive(xs: Vector, k: nat)
    requires NonNegative(xs) && k < |xs| && xs[k] > 0.0
    ensures Sum(xs) > 0.0
    decreases |xs|
  {
    var front := xs[..|xs| - 1];
    if k == |xs| - 1 {
      SumNonNegative(front);
    } else {
      SumPositive(front, k);
    }
  }

  /** Dividing every entry by `t` divides the sum by `t`. */
  lemma {:induction false} SumDivide(xs: Vector, t: real)
    requires t != 0.0
    ensures Sum(Divide(xs, t)) == Sum(xs) / t
    decreases |xs|
  {
    if |xs| > 0 {
      var n := |xs| - 1;
      SumDivide(xs[..n], t);
      assert Divide(xs, t)[..n] == Divide(xs[..n], t);
      AddQuotients(Sum(xs[..n]), xs[n], t);
    }
  }

  lemma AddQuotients(a: real, b: real, t: real)
    requires t != 0.0
    ensures a / t + b / t == (a + b) / t
  {
  }

  lemma InnerSymmetric(u: Vector, v: Vector)
    requires |u| == |v|
    ensures Inner(u, v) == Inner(v, u)
  {
    assert Hadamard(u, v) == Hadamard(v, u);
  }

  /** The accumulated weighted row sum and the column-wise inner products
      (a row of a batched matrix product) agree entry by entry. */
  lemma {:induction false} WeightedRowSumByColumns(w: Vector, rows: Matrix, p: nat)
    requires |w| == |rows| && RowsExactly(rows, p)
    ensures forall f :: 0 <= f < p ==> WeightedRowSum(w, rows, p)[f] == Inner(w, Column(rows, f))
    decreases |w|
  {
    if |w| > 0 {
      var n := |w| - 1;
      WeightedRowSumByColumns(w[..n], rows[..n], p);
      forall f | 0 <= f < p
        ensures WeightedRowSum(w, rows, p)[f] == Inner(w, Column(rows, f))
      {
        var h := Hadamard(w, Column(rows, f));
        var h' := Hadamard(w[..n], Column(rows[..n], f));
        assert forall k :: 0 <= k < n ==> h[..n][k] == h'[k];
        assert h[..n] == h';
      }
    }
  }

  /** Rows whose weight is zero drop out of the weighted sum. */
  lemma {:induction false} WeightedRowSumZeroTail(w: Vector, rows: Matrix, p: nat, n: nat)
    requires |w| == |rows| && RowsExactly(rows, p)
    requires n <= |w| && ZeroFrom(w, n)
    ensures WeightedRowSum(w, rows, p) == WeightedRowSum(w[..n], rows[..n], p)
    decreases |w|
  {
    if |w| == n {
      assert w[..n] == w && rows[..n] == rows;
    } else {
      var m := |w| - 1;
      WeightedRowSumZeroTail(w[..m], rows[..m], p, n);
      assert w[..m][..n] == w[..n] && rows[..m][..n] == rows[..n];
      AddZeroRow(WeightedRowSum(w[..m], rows[..m], p), rows[m]);
    }
  }

  /** Adding a row scaled by zero changes nothing. */
  lemma AddZeroRow(u: Vector, row: Vector)
    requires |u| == |row|
    ensures AddVec(u, ScaleVec(0.0, row)) == u
  {
  }

  /** A prefix as long as the whole vector is the vector itself. */
  lemma WholePrefix(w: Vector, ref: Vector, n: nat)
    requires |w| == n && w[..n] == ref
    ensures w == ref
  {
    assert w[..n] == w;
  }

  /** A weight vector that is `ref` followed by zeros combines the rows
      exactly as `ref` combines the leading rows. */
  lemma WeightedRowSumOfPrefix(w: Vector, ref: Vector, rows: Matrix, p: nat, n: nat)
    requires |w| == |rows| && RowsExactly(rows, p)
    requires n <= |w| && ZeroFrom(w, n) && w[..n] == ref
    ensures WeightedRowSum(w, rows, p) == WeightedRowSum(ref, rows[..n], p)
  {
    WeightedRowSumZeroTail(w, rows, p, n);
  }
}
