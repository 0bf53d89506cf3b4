# Batched dot-product attention, modelled in Dafny

This project models the attention kernel of `pytorch-attention`. It covers
the four functions of the `attention` module:

- `mask3d(values, sizes)` zeroes the rows of each batch element past that
  element's valid length.
- `fill_context_mask(mask, sizes, v_mask, v_unmask)` overwrites a
  [batch, query, context] template with one of two sentinels. Which one
  depends on whether the context column is valid.
- `dot(q, c)` computes the batched scores `s[i,j,k] = q[i,j] · c[i,k]`.
- `attend(q, c, value, context_sizes)` runs scores, then the optional
  additive `(-inf, 0)` context mask, then a max-shifted softmax along the
  context axis, then the weighted sum of the value rows. The value rows are
  the context rows when no value is given.

Tensors are exact real rank-3 sequences. Each tensor carries its shape and
has a validity predicate (`Tensors.Tensor`). The additive mask is modelled
with an extended real that has a negative infinity (`Softmax.ExtReal`), so a
masked score really becomes `-inf`. The softmax then gives that score the
unnormalised weight `exp(-inf - max) = 0`.

The exponential is a parameter of `attend`. It can be any function that is
strictly positive everywhere. Sums accumulate from left to right, as Python's
`sum` does.

The test suite computes expected results with explicit reference loops, and
the model restates them as functions:

- `Softmax.ReferenceSoftmax` for the softmax formula behind `w_ref`;
- `Attention.ReferenceWeights` for `w_ref` of one query row;
- `Attention.ReferenceOutput` for `z_ref` of one query row.

The lemmas prove that the kernel's formulation equals these references for
every input. The kernel's formulation is the masked softmax over whole rows
followed by a batched matrix product.

Modules, in dependency order:

- `LinAlg`: sums, maxima, inner products and weighted sums of rows.
- `Tensors`: tensors, size lists, length masks, transpose and the batched
  matrix product.
- `Masking`: `mask3d` and `fill_context_mask`.
- `Scores`: `dot`.
- `Softmax`: the masked softmax and the reference softmax.
- `Attention`: `attend` and the oracle lemmas.

## Model

| member | source | states |
|---|---|---|
| `LinAlg.Max` | test/test_attention.py:82 | `max(s)` of a non-empty score list is an upper bound of every score and equals one of them |
| `LinAlg.SumConcat` | test/test_attention.py:84 | Python's `sum`, accumulated left to right, adds over a concatenation: the sum of `a + b` is the sum of `a` plus the sum of `b` |
| `LinAlg.SumZeroTail` | test/test_attention.py:157 | Entries that are zero past position `n` do not change a sum, so summing the whole row equals summing its valid prefix |
| `LinAlg.SumPositive` | test/test_attention.py:84 | A non-negative list with one positive entry has a positive sum, so the softmax denominator is never zero |
| `LinAlg.SumDivide` | test/test_attention.py:86 | Dividing every entry by `t` divides the sum by `t`; this is why `w_ref` sums to 1 |
| `LinAlg.InnerSymmetric` | test/test_attention.py:57 | The inner product `Inner` (`np.dot` of two feature vectors) is symmetric: `u·v == v·u` |
| `LinAlg.WeightedRowSumByColumns` | test/test_attention.py:89 | `WeightedRowSum` models the test's generator sum of scaled rows. Entry `f` of the accumulated `Σ_k w[k]·rows[k]` is the inner product of `w` with column `f`, so the test's generator sum and a matrix product agree |
| `LinAlg.WeightedRowSumZeroTail` | test/test_attention.py:168 | Rows whose weight is zero drop out of the weighted sum: summing over all rows equals summing over the first `n` |
| `LinAlg.WeightedRowSumOfPrefix` | test/test_attention.py:168-170 | A weight row that equals `ref` followed by zeros combines all the rows exactly as `ref` combines the first `n` rows |
| `Tensors.LengthMaskIsPrefix` | test/test_attention.py:17 | Row `i` of the length mask built from a size list is `sizes[i]` valid positions followed by `axis - sizes[i]` invalid ones: the kept positions form a prefix |
| `Tensors.BatchMatMul` | test/test_attention.py:89-90 | Each entry of the batched product is a row·column inner product, and each result row is the left row's weighted sum of the right factor's rows |
| `Masking.Mask3d` | test/test_attention.py:13-20 | The output has the input's shape; `masked[i,j,k] == values[i,j,k]` when `j < sizes[i]` and `0` otherwise, for every column |
| `Masking.Mask3dIdempotent` | test/test_attention.py:17-20 | Masking twice with the same sizes is the same as masking once |
| `Masking.Mask3dCompose` | test/test_attention.py:17-20 | Masking with `s1` and then `s2` keeps exactly the rows below both sizes |
| `Masking.Mask3dFullSizes` | test/test_attention.py:17-18 | Sizes that cover the whole axis leave the tensor unchanged |
| `Masking.Mask3dIgnoresMaskedRows` | test/test_attention.py:19-20 | The result does not depend on what the masked rows held |
| `Masking.FillContextMask` | test/test_attention.py:33-39 | The output has the template's shape; `mask[i,j,k] == v_unmask` when `k < sizes[i]` and `v_mask` otherwise, for every query row and either sentinel pair |
| `Masking.FillIgnoresTemplate` | test/test_attention.py:28-31 | Two templates of one shape give the same filled mask, so the template's values are discarded |
| `Masking.ColumnMaskIsTransposedRowMask` | test/test_attention.py:23 | Multiplying by the `(0, 1)` column mask equals transposing, masking the rows with `mask3d`, and transposing back |
| `Scores.Dot` | test/test_attention.py:52-57 | The scores have shape [B, n_q, n_c], and `s[i,j,k]` is the inner product `q[i,j]·c[i,k]`, which reads batch element `i` only |
| `Scores.DotTranspose` | test/test_attention.py:57 | `dot(c, q)` is the transpose of `dot(q, c)` |
| `Softmax.MaxExt` | test/test_attention.py:82 | The row maximum over the extended reals bounds every score and, when finite, is one of them |
| `Softmax.Unnormalised` | test/test_attention.py:83 | Each unnormalised weight is `exp(score - max)`; it is positive exactly at a finite score and 0 at `-inf`, and the row total is positive |
| `Softmax.Normalise` | test/test_attention.py:84-86 | Dividing a non-negative list with positive total by that total gives `e[k] / Σ e`; positive and zero entries stay positive and zero, and the result sums to 1 |
| `Softmax.MaskedSoftmax` | test/test_attention.py:160-166 | The kernel's softmax of a row with a finite score is `e[k] / Σ e`, sums to 1, is non-negative, and is 0 exactly where the score is `-inf` |
| `Softmax.ReferenceExp` | test/test_attention.py:82-84 | `exp_s[k] == exp(s[k] - max(s))`; every entry and the sum are positive |
| `Softmax.ReferenceSoftmax` | test/test_attention.py:81-87 | `w_ref[k] == exp_s[k] / Σ exp_s`; every weight is strictly positive and the weights sum to 1 |
| `Softmax.MaxOfMaskedRow` | test/test_attention.py:154-155 | The maximum of a row masked after `n` is the `max` of its first `n` scores |
| `Softmax.UnnormalisedEntryOfMaskedRow` | test/test_attention.py:156 | At a valid position of a masked row, the kernel's unnormalised weight equals the test's `exp_s` entry for that position |
| `Softmax.UnnormalisedOfMaskedRow` | test/test_attention.py:154-157 | On a masked row, the unnormalised weights are the test's `exp_s` over the valid prefix, followed by zeros |
| `Softmax.MaskedSoftmaxMatchesReference` | test/test_attention.py:159-166 | On a masked row, the kernel's softmax is `w_ref` over the valid prefix, followed by zeros |
| `Attention.ApplyContextMask` | test/test_attention.py:136-140 | Adding the `(-inf, 0)` filled mask keeps a score finite and unchanged exactly at a valid context column, and makes it `-inf` elsewhere |
| `Attention.MaskedScores` | test/test_attention.py:154 | The scores entering the softmax are the finite inner product `q[i,j]·c[i,k]` at an unmasked column and `-inf` at a masked one |
| `Attention.MaskedScoresHaveFinite` | test/test_attention.py:129-131 | With every context size positive, every score row keeps a finite entry, so its softmax is defined |
| `Attention.SoftmaxRows` | test/test_attention.py:159-166 | Each row of the softmax tensor is the masked softmax of the score row: it sums to 1, is non-negative, and is 0 exactly at the `-inf` scores |
| `Attention.AttentionWeights` | test/test_attention.py:76 | The weights have shape [B, n_q, n_c], are non-negative, and every row sums to 1 |
| `Attention.WeightsVanishExactlyWhenMasked` | test/test_attention.py:160-166 | `w[i,j,k] == 0` exactly when `k >= context_sizes[i]`, so every valid column gets positive weight |
| `Attention.Attend` | test/test_attention.py:111-112 | The weights are the attention weights; the output has shape [B, n_q, p], where p is the value width (`d` without value), and each output row is the weighted sum of the value rows |
| `Attention.ScoreRowIsDotRow` | test/test_attention.py:81 | The test's score list `s` for query `j` of batch element `i` (`ScoreRow`) is row (i, j) of `dot(q, c)` |
| `Attention.ReferenceOutputByFeature` | test/test_attention.py:168 | The test's `z_ref` (`ReferenceOutput`): feature `f` is the inner product of `w_ref` with feature `f` of the first `n` value rows |
| `Attention.ValueDefaultsToContext` | test/test_attention.py:89 | With no `value` (`Values`), attend behaves as if `value = c` were passed: weights and output are both the same |
| `Attention.WeightsMatchReference` | test/test_attention.py:150-166 | Row (i, j) of the weights is `w_ref` over the first `n` scores followed by zeros, where `n` is `context_sizes[i]`, or `n_c` without sizes |
| `Attention.UnmaskedWeightsMatchReference` | test/test_attention.py:79-87 | Without sizes, the whole weight row is `w_ref` |
| `Attention.ReferenceWeights` | test/test_attention.py:152-159 | The test's `w_ref` for row (i, j) has one weight per valid context position and sums to 1 |
| `Attention.AttendMatchesReference` | test/test_attention.py:114-122 | Unmasked attend, with or without value, gives weight row (i, j) equal to `w_ref` |
| `Attention.AttendMaskedMatchesReference` | test/test_attention.py:150-166 | Masked attend gives weights equal to `w_ref` over the valid prefix and 0 at every masked column |
| `Attention.AttendOutputMatchesReference` | test/test_attention.py:168-171 | Output row (i, j) of attend equals `z_ref`, the sum over the valid value rows only. This covers the unmasked and masked cases, with or without value |
| `Attention.MaskConventionsAgree` | test/test_attention.py:23 | Adding the `(-inf, 0)` mask before exponentiating gives the same unnormalised weight as multiplying by the `(0, 1)` mask afterwards |

## Left out

- Tensor-library plumbing is not modelled: `torch.from_numpy`, `.data.numpy()` and the random input generation. Tensors are plain nested sequences.
- Floating point is not modelled. The model uses exact reals, so `np.allclose` becomes exact equality, and rounding and overflow are not modelled.
- `exp` is a parameter. Any strictly positive function may be supplied, and the model never uses any other law of the exponential. For this reason it also does not prove that subtracting the maximum leaves the softmax unchanged. The maximum is subtracted exactly as both the kernel and the test do.
- The `return_weight` flag is not modelled. `Attention.Attend` always returns both the weights and the output. Calling attend without the flag returns only the output field.
- Degenerate rows are excluded by the precondition `Attention.ScoresConformable`. These are a batch element with `context_sizes[i] == 0`, and an unmasked call with no context rows. With a zero size, every score of the row is masked to `-inf`, so the kernel's softmax has nothing finite to normalise. With no context rows the score row is empty, and the test's `max(s)` fails on an empty list. What the implementation does in these cases is not known, and the tests never exercise them.
- Size lists that are too long or too short, and sizes larger than the masked axis, are excluded by precondition. Nothing in the modelled code validates them, so their behaviour is not known. Mismatched batch or feature dimensions are also excluded by precondition. The tests never trigger any of these cases.
- The implementation file `attention/attention.py` is not part of this model. The functions follow the behaviour that the test oracles pin down, and the four stages of attend listed at the top of this README.
