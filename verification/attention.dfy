/** attend runs four stages:
      1. the scores, by batched dot product of queries with contexts;
      2. when sizes are given, an additive (-inf, 0) mask over the context axis;
      3. a max-shifted softmax along the context axis;
      4. the weighted sum of the value rows (the context rows themselves
         when no value is given). */
module Attention {
  import opened LinAlg
  import opened Tensors
  import opened Masking
  import opened Scores
  import opened Softmax

  datatype Option<T> = None | Some(value: T)

  /** What attend returns with `return_weight`: the [B, n_q, n_c] weights
      and the [B, n_q, p] output. */
  datatype Attended = Attended(weight: Tensor<real>, output: Tensor<real>)

  /** The shapes the scores and the mask need: queries and contexts share
      batch size and feature width, and every softmax row keeps at least one
      valid context position. */
  predicate ScoresConformable(q: Tensor<real>, c: Tensor<real>, contextSizes: Option<Sizes>)
  {
    && q.Valid() && c.Valid() && q.batch == c.batch && q.cols == c.cols
    && (contextSizes.None? ==> c.rows > 0)
    && (contextSizes.Some? ==>
          && WithinAxis(contextSizes.value, c.batch, c.rows)
          && forall i :: 0 <= i < |contextSizes.value| ==> contextSizes.value[i] > 0)
  }

  /** A value tensor, when given, has one row per context position. */
  predicate ValueFits(c: Tensor<real>, value: Option<Tensor<real>>)
  {
    value.Some? ==> value.value.Valid() && value.value.batch == c.batch && value.value.rows == c.rows
  }

  /** The argument shapes attend accepts. */
  predicate Conformable(q: Tensor<real>, c: Tensor<real>, value: Option<Tensor<real>>, contextSizes: Option<Sizes>)
  {
    ScoresConformable(q, c, contextSizes) && ValueFits(c, value)
  }

  /** The tensor whose rows are averaged: `value` when given, else `c`. */
  function Values(c: Tensor<real>, value: Option<Tensor<real>>): (v: Tensor<real>)
    requires c.Valid() && ValueFits(c, value)
    ensures v.Valid() && v.batch == c.batch && v.rows == c.rows
  {
    if value.Some? then value.value else c
  }

  /** Whether context column `k` of batch element `i` takes part. */
  predicate Unmasked(contextSizes: Option<Sizes>, i: nat, k: nat)
  {
    contextSizes.None? || (i < |contextSizes.value| && k < contextSizes.value[i])
  }

  /** Real scores as extended reals. */
  function Lift(t: Tensor<real>): (r: Tensor<ExtReal>)
    requires t.Valid()
    ensures r.Valid() && r.SameShape(t)
    ensures forall i, j, k | 0 <= i < r.batch && 0 <= j < r.rows && 0 <= k < r.cols ::
      r.data[i][j][k] == Finite(t.data[i][j][k])
  {
    Tensor(t.batch, t.rows, t.cols,
      seq(t.batch, i requires 0 <= i < t.batch =>
        seq(t.rows, j requires 0 <= j < t.rows =>
          seq(t.cols, k requires 0 <= k < t.cols => Finite(t.data[i][j][k])))))
  }

  /** Entrywise sum of scores and an additive mask. */
  function AddMask(a: Tensor<ExtReal>, b: Tensor<ExtReal>): (r: Tensor<ExtReal>)
    requires a.Valid() && b.Valid() && a.SameShape(b)
    ensures r.Valid() && r.SameShape(a)
    ensures forall i, j, k | 0 <= i < r.batch && 0 <= j < r.rows && 0 <= k < r.cols ::
      r.data[i][j][k] == Plus(a.data[i][j][k], b.data[i][j][k])
  {
    Tensor(a.batch, a.rows, a.cols,
      seq(a.batch, i requires 0 <= i < a.batch =>
        seq(a.rows, j requires 0 <= j < a.rows =>
          seq(a.cols, k requires 0 <= k < a.cols => Plus(a.data[i][j][k], b.data[i][j][k])))))
  }

  /** Stage 2 of attend: adds `fill_context_mask(s, sizes, -inf, 0)` to the
      scores, so a score stays finite, and unchanged, exactly at the valid
      context columns and becomes negative infinity elsewhere. */
  function ApplyContextMask(s: Tensor<real>, sizes: Sizes): (r: Tensor<ExtReal>)
    requires s.Valid() && WithinAxis(sizes, s.batch, s.cols)
    ensures r.Valid() && r.SameShape(s)
    ensures forall i, j, k | 0 <= i < r.batch && 0 <= j < r.rows && 0 <= k < r.cols ::
      r.data[i][j][k] == if k < sizes[i] then Finite(s.data[i][j][k]) else NegInf
  {
    AddMask(Lift(s), FillContextMask(s, sizes, NegInf, Finite(0.0)))
  }

  /** Stages 1 and 2 of attend: the dot-product scores, masked when sizes
      are given. */
  function MaskedScores(q: Tensor<real>, c: Tensor<real>, contextSizes: Option<Sizes>): (r: Tensor<ExtReal>)
    requires ScoresConformable(q, c, contextSizes)
    ensures r.Valid() && r.batch == q.batch && r.rows == q.rows && r.cols == c.rows
    ensures forall i, j, k | 0 <= i < r.batch && 0 <= j < r.rows && 0 <= k < r.cols ::
      r.data[i][j][k] == if Unmasked(contextSizes, i, k) then Finite(Inner(q.data[i][j], c.data[i][k])) else NegInf
  {
    match contextSizes
    case None => Lift(Dot(q, c))
    case Some(sizes) => ApplyContextMask(Dot(q, c), sizes)
  }

  /** Every row of an extended-real tensor has a finite entry. */
  ghost predicate RowsHaveFinite(t: Tensor<ExtReal>)
  {
    && t.Valid()
    && forall i, j | 0 <= i < t.batch && 0 <= j < t.rows :: HasFinite(t.data[i][j])
  }

  /** Every row of the masked scores keeps its first column finite. */
  lemma MaskedScoresHaveFinite(q: Tensor<real>, c: Tensor<real>, contextSizes: Option<Sizes>)
    requires ScoresConformable(q, c, contextSizes)
    ensures RowsHaveFinite(MaskedScores(q, c, contextSizes))
  {
    var r := MaskedScores(q, c, contextSizes);
    forall i, j | 0 <= i < r.batch && 0 <= j < r.rows
      ensures HasFinite(r.data[i][j])
    {
      assert Unmasked(contextSizes, i, 0) && 0 < r.cols;
      assert r.data[i][j][0].Finite?;
    }
  }

  /** Stage 3 of attend: the kernel's softmax applied to every row. Each row
      becomes a distribution that vanishes exactly where the score is
      negative infinity. */
  function SoftmaxRows(t: Tensor<ExtReal>, exp: real -> real): (w: Tensor<real>)
    requires Positive(exp) && RowsHaveFinite(t)
    ensures w.Valid() && w.SameShape(t)
    ensures forall i, j | 0 <= i < t.batch && 0 <= j < t.rows ::
      w.data[i][j] == MaskedSoftmax(t.data[i][j], exp)
    ensures forall i, j | 0 <= i < t.batch && 0 <= j < t.rows :: Sum(w.data[i][j]) == 1.0
    ensures forall i, j, k | 0 <= i < t.batch && 0 <= j < t.rows && 0 <= k < t.cols ::
      w.data[i][j][k] >= 0.0 && (w.data[i][j][k] == 0.0 <==> t.data[i][j][k].NegInf?)
  {
    Tensor(t.batch, t.rows, t.cols,
      seq(t.batch, i requires 0 <= i < t.batch =>
        seq(t.rows, j requires 0 <= j < t.rows => MaskedSoftmax(t.data[i][j], exp))))
  }

  /** Stages 1 to 3 of attend: the attention weights. Every row is a
      distribution over the context axis that vanishes exactly on the
      masked columns. */
  function AttentionWeights(q: Tensor<real>, c: Tensor<real>, contextSizes: Option<Sizes>,
                            exp: real -> real): (w: Tensor<real>)
    requires ScoresConformable(q, c, contextSizes) && Positive(exp)
    ensures w.Valid() && w.batch == q.batch && w.rows == q.rows && w.cols == c.rows
    ensures forall i, j | 0 <= i < q.batch && 0 <= j < q.rows :: Sum(w.data[i][j]) == 1.0
    ensures forall i, j, k | 0 <= i < q.batch && 0 <= j < q.rows && 0 <= k < c.rows ::
      w.data[i][j][k] >= 0.0
  {
    MaskedScoresHaveFinite(q, c, contextSizes);
    SoftmaxRows(MaskedScores(q, c, contextSizes), exp)
  }

  /** A weight is zero exactly at a masked context column: the softmax
      gives every valid column some weight and the masked ones none. */
  lemma WeightsVanishExactlyWhenMasked(q: Tensor<real>, c: Tensor<real>, contextSizes: Option<Sizes>,
                                       exp: real -> real, i: nat, j: nat, k: nat)
    requires ScoresConformable(q, c, contextSizes) && Positive(exp)
    requires i < q.batch && j < q.rows && k < c.rows
    ensures AttentionWeights(q, c, contextSizes, exp).data[i][j][k] == 0.0 <==> !Unmasked(contextSizes, i, k)
  {
    MaskedScoresHaveFinite(q, c, contextSizes);
    var t := MaskedScores(q, c, contextSizes);
    assert t.data[i][j][k].NegInf? <==> !Unmasked(contextSizes, i, k);
  }

  /** attend(q, c, value, context_sizes) returning both the weights and the
      output: stage 4 combines the value rows (the context rows when no value
      is given) with the weights, so every output row is the weighted sum
      of the value rows. */
  function Attend(q: Tensor<real>, c: Tensor<real>, value: Option<Tensor<real>>,
                  contextSizes: Option<Sizes>, exp: real -> real): (r: Attended)
    requires Conformable(q, c, value, contextSizes) && Positive(exp)
    ensures r.weight == AttentionWeights(q, c, contextSizes, exp)
    ensures r.output.Valid() && r.output.batch == q.batch && r.output.rows == q.rows
    ensures r.output.cols == Values(c, value).cols
    ensures forall i, j | 0 <= i < q.batch && 0 <= j < q.rows ::
      r.output.data[i][j] == WeightedRowSum(r.weight.data[i][j], Values(c, value).data[i], Values(c, value).cols)
  {
    var weight := AttentionWeights(q, c, contextSizes, exp);
    var v := Values(c, value);
    assert v.Valid() && v.batch == weight.batch && v.rows == weight.cols;
    var output := BatchMatMul(weight, v);
    assert forall i, j | 0 <= i < q.batch && 0 <= j < q.rows ::
      output.data[i][j] == WeightedRowSum(weight.data[i][j], v.data[i], v.cols);
    Attended(weight, output)
  }

  /** The test's score list for query `j` of batch element `i`:
      the inner product of query `(i, j)` with
      each context row `k` of batch element `i`, in context order. */
  function ScoreRow(q: Tensor<real>, c: Tensor<real>, i: nat, j: nat): (s: Vector)
    requires q.Valid() && c.Valid() && q.batch == c.batch && q.cols == c.cols
    requires i < q.batch && j < q.rows
    ensures |s| == c.rows
  {
    seq(c.rows, k requires 0 <= k < c.rows => Inner(q.data[i][j], c.data[i][k]))
  }

  /** The test's score list is row (i, j) of the scores `dot(q, c)`. */
  lemma ScoreRowIsDotRow(q: Tensor<real>, c: Tensor<real>, i: nat, j: nat)
    requires q.Valid() && c.Valid() && q.batch == c.batch && q.cols == c.cols
    requires i < q.batch && j < q.rows
    ensures ScoreRow(q, c, i, j) == Dot(q, c).data[i][j]
  {
    var s := Dot(q, c);
    assert |s.data[i][j]| == c.rows;
    assert forall k :: 0 <= k < c.rows ==> ScoreRow(q, c, i, j)[k] == s.data[i][j][k];
  }

  /** Row (i, j) of the masked scores is the test's score list with every
      position from `n` on replaced by negative infinity. */
  lemma ScoresRowIsMasked(q: Tensor<real>, c: Tensor<real>, contextSizes: Option<Sizes>, i: nat, j: nat, n: nat)
    requires ScoresConformable(q, c, contextSizes) && i < q.batch && j < q.rows
    requires n == if contextSizes.Some? then contextSizes.value[i] else c.rows
    ensures MaskedRow(MaskedScores(q, c, contextSizes).data[i][j], ScoreRow(q, c, i, j), n)
  {
  }

  /** How many leading context positions of batch element `i` are valid. */
  function ValidCount(contextSizes: Option<Sizes>, nContext: nat, i: nat): nat
    requires contextSizes.Some? ==> i < |contextSizes.value|
  {
    if contextSizes.Some? then contextSizes.value[i] else nContext
  }

  /** The weights of row (i, j) are the test's reference softmax of the
      scores at the valid positions, followed by zeros. */
  lemma WeightsMatchReference(q: Tensor<real>, c: Tensor<real>, contextSizes: Option<Sizes>,
                              exp: real -> real, i: nat, j: nat)
    requires ScoresConformable(q, c, contextSizes) && Positive(exp) && i < q.batch && j < q.rows
    ensures 0 < ValidCount(contextSizes, c.rows, i) <= c.rows
    ensures AttentionWeights(q, c, contextSizes, exp).data[i][j][..ValidCount(contextSizes, c.rows, i)]
         == ReferenceWeights(q, c, contextSizes, exp, i, j)
    ensures ZeroFrom(AttentionWeights(q, c, contextSizes, exp).data[i][j], ValidCount(contextSizes, c.rows, i))
  {
    var n := ValidCount(contextSizes, c.rows, i);
    MaskedScoresHaveFinite(q, c, contextSizes);
    var scores := MaskedScores(q, c, contextSizes);
    assert AttentionWeights(q, c, contextSizes, exp).data[i][j] == MaskedSoftmax(scores.data[i][j], exp);
    ScoresRowIsMasked(q, c, contextSizes, i, j, n);
    MaskedSoftmaxMatchesReference(MaskedScores(q, c, contextSizes).data[i][j], ScoreRow(q, c, i, j), n, exp);
  }

  /** Without sizes every context column is valid, so the whole weight row
      is the reference softmax. */
  lemma UnmaskedWeightsMatchReference(q: Tensor<real>, c: Tensor<real>, exp: real -> real, i: nat, j: nat)
    requires ScoresConformable(q, c, None) && Positive(exp) && i < q.batch && j < q.rows
    ensures AttentionWeights(q, c, None, exp).data[i][j] == ReferenceWeights(q, c, None, exp, i, j)
  {
    WeightsMatchReference(q, c, None, exp, i, j);
    WholePrefix(AttentionWeights(q, c, None, exp).data[i][j], ReferenceWeights(q, c, None, exp, i, j), c.rows);
  }

  /** The test's weight oracle `w_ref` for row (i, j): the reference
      softmax of the scores at the valid context positions. */
  function ReferenceWeights(q: Tensor<real>, c: Tensor<real>, contextSizes: Option<Sizes>,
                            exp: real -> real, i: nat, j: nat): (w: Vector)
    requires ScoresConformable(q, c, contextSizes) && Positive(exp) && i < q.batch && j < q.rows
    ensures |w| == ValidCount(contextSizes, c.rows, i) <= c.rows
    ensures Sum(w) == 1.0
  {
    ReferenceSoftmax(ScoreRow(q, c, i, j)[..ValidCount(contextSizes, c.rows, i)], exp)
  }

  /** The test's output oracle for row (i, j):
      the reference weights' combination `Σ_{k<n} w_ref[k]·v[i,k]` of
      the valid value rows. */
  function ReferenceOutput(q: Tensor<real>, c: Tensor<real>, value: Option<Tensor<real>>,
                           contextSizes: Option<Sizes>, exp: real -> real, i: nat, j: nat): (z: Vector)
    requires Conformable(q, c, value, contextSizes) && Positive(exp) && i < q.batch && j < q.rows
    ensures |z| == Values(c, value).cols
  {
    var v := Values(c, value);
    var n := ValidCount(contextSizes, c.rows, i);
    assert RowsExactly(v.data[i][..n], v.cols);
    WeightedRowSum(ReferenceWeights(q, c, contextSizes, exp, i, j), v.data[i][..n], v.cols)
  }

  /** Feature `f` of the test's output oracle is the inner product of the
      reference weights with feature `f` of the valid value rows. */
  lemma ReferenceOutputByFeature(q: Tensor<real>, c: Tensor<real>, value: Option<Tensor<real>>,
                                 contextSizes: Option<Sizes>, exp: real -> real, i: nat, j: nat)
    requires Conformable(q, c, value, contextSizes) && Positive(exp) && i < q.batch && j < q.rows
    ensures forall f :: 0 <= f < Values(c, value).cols ==>
      ReferenceOutput(q, c, value, contextSizes, exp, i, j)[f]
        == Inner(ReferenceWeights(q, c, contextSizes, exp, i, j),
                 Column(Values(c, value).data[i][..ValidCount(contextSizes, c.rows, i)], f))
  {
    var v := Values(c, value);
    var rows := v.data[i][..ValidCount(contextSizes, c.rows, i)];
    assert RowsExactly(rows, v.cols);
    WeightedRowSumByColumns(ReferenceWeights(q, c, contextSizes, exp, i, j), rows, v.cols);
  }

  /** Omitting `value` is the same as passing the contexts as the values:
      the weights are unchanged and the output averages the context rows. */
  lemma ValueDefaultsToContext(q: Tensor<real>, c: Tensor<real>, contextSizes: Option<Sizes>, exp: real -> real)
    requires Conformable(q, c, None, contextSizes) && Positive(exp)
    ensures Conformable(q, c, Some(c), contextSizes)
    ensures Attend(q, c, None, contextSizes, exp) == Attend(q, c, Some(c), contextSizes, exp)
  {
    assert Values(c, None) == Values(c, Some(c));
  }

  /** Unmasked attend reproduces the test's weight oracle: the weights of
      row (i, j) are the reference softmax of all its scores. */
  lemma AttendMatchesReference(q: Tensor<real>, c: Tensor<real>, value: Option<Tensor<real>>,
                               exp: real -> real, i: nat, j: nat)
    requires Conformable(q, c, value, None) && Positive(exp) && i < q.batch && j < q.rows
    ensures Attend(q, c, value, None, exp).weight.data[i][j] == ReferenceWeights(q, c, None, exp, i, j)
  {
    UnmaskedWeightsMatchReference(q, c, exp, i, j);
  }

  /** Masked attend reproduces the test's weight oracle: with
      `n = context_sizes[i]`, the first `n` weights of row (i, j) are the
      reference softmax of the first `n` scores and the remaining weights
      are zero. */
  lemma AttendMaskedMatchesReference(q: Tensor<real>, c: Tensor<real>, value: Option<Tensor<real>>,
                                     contextSizes: Sizes, exp: real -> real, i: nat, j: nat)
    requires Conformable(q, c, value, Some(contextSizes)) && Positive(exp) && i < q.batch && j < q.rows
    ensures Attend(q, c, value, Some(contextSizes), exp).weight.data[i][j][..contextSizes[i]]
         == ReferenceWeights(q, c, Some(contextSizes), exp, i, j)
    ensures ZeroFrom(Attend(q, c, value, Some(contextSizes), exp).weight.data[i][j], contextSizes[i])
  {
    WeightsMatchReference(q, c, Some(contextSizes), exp, i, j);
  }

  /** Attend, masked or not, reproduces the test's output oracle: row
      (i, j) of the output is the reference weights' combination of the
      valid value rows only (the context rows when no value is given). */
  lemma AttendOutputMatchesReference(q: Tensor<real>, c: Tensor<real>, value: Option<Tensor<real>>,
                                     contextSizes: Option<Sizes>, exp: real -> real, i: nat, j: nat)
    requires Conformable(q, c, value, contextSizes) && Positive(exp) && i < q.batch && j < q.rows
    ensures Attend(q, c, value, contextSizes, exp).output.data[i][j]
         == ReferenceOutput(q, c, value, contextSizes, exp, i, j)
  {
    var n := ValidCount(contextSizes, c.rows, i);
    var w := Attend(q, c, value, contextSizes, exp).weight.data[i][j];
    var v := Values(c, value);
    WeightsMatchReference(q, c, contextSizes, exp, i, j);
    assert RowsExactly(v.data[i], v.cols);
    WeightedRowSumOfPrefix(w, ReferenceWeights(q, c, contextSizes, exp, i, j), v.data[i], v.cols, n);
  }

  /** The two sentinel conventions of fill_context_mask agree: adding the
      (-inf, 0) mask before exponentiating gives the same unnormalised
      weight as multiplying by the (0, 1) mask afterwards. */
  lemma MaskConventionsAgree(s: Tensor<real>, sizes: Sizes, m: real, exp: real -> real)
    requires s.Valid() && WithinAxis(sizes, s.batch, s.cols)
    ensures forall i, j, k | 0 <= i < s.batch && 0 <= j < s.rows && 0 <= k < s.cols ::
      ShiftedExp(Plus(Finite(s.data[i][j][k]), FillContextMask(s, sizes, NegInf, Finite(0.0)).data[i][j][k]), m, exp)
        == FillContextMask(s, sizes, 0.0, 1.0).data[i][j][k] * exp(s.data[i][j][k] - m)
  {
  }
}
