/** Masking by valid lengths: `mask3d` zeroes the rows of each batch element
    past its size, and `fill_context_mask` writes one of two sentinel values
    into every position of a [batch, query, context] template according to
    whether its context column is valid. */
module Masking {
  import opened LinAlg
  import opened Tensors

  /** A boolean mask turned into a numeric 0/1 factor. */
  function Indicator(b: bool): real
  {
    if b then 1.0 else 0.0
  }

  /** mask3d: multiplies each row of `values` by its entry of the row mask
      built from `sizes`, so rows `j < sizes[i]` pass through and the rest
      become zero across every column. The input is not changed. */
  function Mask3d(values: Tensor<real>, sizes: Sizes): (r: Tensor<real>)
    requires values.Valid() && WithinAxis(sizes, values.batch, values.rows)
    ensures r.Valid() && r.SameShape(values)
    ensures forall i, j, k | 0 <= i < r.batch && 0 <= j < r.rows && 0 <= k < r.cols ::
      r.data[i][j][k] == if j < sizes[i] then values.data[i][j][k] else 0.0
  {
    var mask := LengthMask(sizes, values.rows);
    assert forall i, j | 0 <= i < values.batch && 0 <= j < values.rows ::
      Indicator(mask[i][j]) == if j < sizes[i] then 1.0 else 0.0;
    Tensor(values.batch, values.rows, values.cols,
      seq(values.batch, i requires 0 <= i < values.batch =>
        seq(values.rows, j requires 0 <= j < values.rows =>
          seq(values.cols, k requires 0 <= k < values.cols =>
            values.data[i][j][k] * Indicator(mask[i][j])))))
  }

  /** The entrywise minimum of two size lists. */
  function MinSizes(s1: Sizes, s2: Sizes): (s: Sizes)
    requires |s1| == |s2|
    ensures |s| == |s1|
    ensures forall i :: 0 <= i < |s| ==> s[i] <= s1[i] && s[i] <= s2[i]
    ensures forall i :: 0 <= i < |s| ==> s[i] == s1[i] || s[i] == s2[i]
  {
    seq(|s1|, i requires 0 <= i < |s1| => if s1[i] <= s2[i] then s1[i] else s2[i])
  }

  /** Masking twice keeps only the rows both size lists keep. */
  lemma Mask3dCompose(values: Tensor<real>, s1: Sizes, s2: Sizes)
    requires values.Valid()
    requires WithinAxis(s1, values.batch, values.rows) && WithinAxis(s2, values.batch, values.rows)
    ensures Mask3d(Mask3d(values, s1), s2) == Mask3d(values, MinSizes(s1, s2))
  {
    Extensionality(Mask3d(Mask3d(values, s1), s2), Mask3d(values, MinSizes(s1, s2)));
  }

  /** mask3d is idempotent. */
  lemma Mask3dIdempotent(values: Tensor<real>, sizes: Sizes)
    requires values.Valid() && WithinAxis(sizes, values.batch, values.rows)
    ensures Mask3d(Mask3d(values, sizes), sizes) == Mask3d(values, sizes)
  {
    Mask3dCompose(values, sizes, sizes);
    assert MinSizes(sizes, sizes) == sizes;
  }

  /** Sizes equal to the full row count leave the tensor as it was. */
  lemma Mask3dFullSizes(values: Tensor<real>, sizes: Sizes)
    requires values.Valid() && WithinAxis(sizes, values.batch, values.rows)
    requires forall i :: 0 <= i < |sizes| ==> sizes[i] == values.rows
    ensures Mask3d(values, sizes) == values
  {
    Extensionality(Mask3d(values, sizes), values);
  }

  /** The output does not depend on what the masked-out rows held. */
  lemma Mask3dIgnoresMaskedRows(a: Tensor<real>, b: Tensor<real>, sizes: Sizes)
    requires a.Valid() && b.Valid() && a.SameShape(b) && WithinAxis(sizes, a.batch, a.rows)
    requires forall i, j, k | 0 <= i < a.batch && 0 <= j < sizes[i] && 0 <= k < a.cols ::
      a.data[i][j][k] == b.data[i][j][k]
    ensures Mask3d(a, sizes) == Mask3d(b, sizes)
  {
    Extensionality(Mask3d(a, sizes), Mask3d(b, sizes));
  }

  /** fill_context_mask: a tensor of the template's shape holding `vUnmask`
      at every valid context column `k < sizes[i]` and `vMask` elsewhere,
      the same for every query row. Only the template's shape is used. */
  function FillContextMask<T, U>(template: Tensor<T>, sizes: Sizes, vMask: U, vUnmask: U): (r: Tensor<U>)
    requires template.Valid() && WithinAxis(sizes, template.batch, template.cols)
    ensures r.Valid() && r.SameShape(template)
    ensures forall i, j, k | 0 <= i < r.batch && 0 <= j < r.rows && 0 <= k < r.cols ::
      r.data[i][j][k] == if k < sizes[i] then vUnmask else vMask
  {
    var mask := LengthMask(sizes, template.cols);
    Tensor(template.batch, template.rows, template.cols,
      seq(template.batch, i requires 0 <= i < template.batch =>
        seq(template.rows, j =>
          seq(template.cols, k requires 0 <= k < template.cols =>
            if mask[i][k] then vUnmask else vMask))))
  }

  /** The template's entries are overwritten: two templates of one shape
      give the same filled mask. */
  lemma FillIgnoresTemplate<T, U>(a: Tensor<T>, b: Tensor<T>, sizes: Sizes, vMask: U, vUnmask: U)
    requires a.Valid() && b.Valid() && a.SameShape(b) && WithinAxis(sizes, a.batch, a.cols)
    ensures FillContextMask(a, sizes, vMask, vUnmask) == FillContextMask(b, sizes, vMask, vUnmask)
  {
    Extensionality(FillContextMask(a, sizes, vMask, vUnmask), FillContextMask(b, sizes, vMask, vUnmask));
  }

  /** Entrywise product of two tensors of one shape. */
  function Multiply(a: Tensor<real>, b: Tensor<real>): (r: Tensor<real>)
    requires a.Valid() && b.Valid() && a.SameShape(b)
    ensures r.Valid() && r.SameShape(a)
    ensures forall i, j, k | 0 <= i < r.batch && 0 <= j < r.rows && 0 <= k < r.cols ::
      r.data[i][j][k] == a.data[i][j][k] * b.data[i][j][k]
  {
    Tensor(a.batch, a.rows, a.cols,
      seq(a.batch, i requires 0 <= i < a.batch =>
        seq(a.rows, j requires 0 <= j < a.rows =>
          seq(a.cols, k requires 0 <= k < a.cols => a.data[i][j][k] * b.data[i][j][k]))))
  }

  /** With the multiplicative sentinels (0, 1), multiplying by the filled
      context mask masks the columns exactly as mask3d masks the rows of
      the transposed tensor. */
  lemma ColumnMaskIsTransposedRowMask(t: Tensor<real>, sizes: Sizes)
    requires t.Valid() && WithinAxis(sizes, t.batch, t.cols)
    ensures Multiply(t, FillContextMask(t, sizes, 0.0, 1.0)) == Transpose(Mask3d(Transpose(t), sizes))
  {
    Extensionality(Multiply(t, FillContextMask(t, sizes, 0.0, 1.0)), Transpose(Mask3d(Transpose(t), sizes)));
  }
}
