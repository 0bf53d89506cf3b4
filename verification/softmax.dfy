/** Normalisation along the context axis. The kernel's softmax works on
    scores that an additive mask may have driven to negative infinity; the
    test's reference softmax works on a plain list of finite scores. The
    exponential is a caller-supplied strictly positive function. */
module Softmax {
  import opened LinAlg

  /** A score extended with negative infinity, the additive mask's sentinel. */
  datatype ExtReal = NegInf | Finite(value: real)

  /** Floating-point addition on finite values and negative infinity:
      negative infinity absorbs any finite addend. */
  function Plus(a: ExtReal, b: ExtReal): ExtReal
  {
    if a.Finite? && b.Finite? then Finite(a.value + b.value) else NegInf
  }

  /** The order of the extended reals: negative infinity is below everything. */
  predicate AtMost(a: ExtReal, b: ExtReal)
  {
    a.NegInf? || (b.Finite? && a.value <= b.value)
  }

  /** Row maximum over the extended reals (negative infinity for a row with
      no finite entry): an upper bound that is attained when finite. */
  function MaxExt(row: seq<ExtReal>): (m: ExtReal)
    ensures forall k :: 0 <= k < |row| ==> AtMost(row[k], m)
    ensures m.Finite? ==> exists k :: 0 <= k < |row| && row[k] == m
  {
    if |row| == 0 then NegInf
    else
      var front := row[..|row| - 1];
      var m' := MaxExt(front);
      var x := row[|row| - 1];
      assert m'.Finite? ==> exists k :: 0 <= k < |front| && front[k] == m';
      if AtMost(x, m') then m' else x
  }

  /** The row has at least one finite score. */
  predicate HasFinite(row: seq<ExtReal>)
  {
    exists k :: 0 <= k < |row| && row[k].Finite?
  }

  /** The exponential never vanishes: it stands for `exp`, which the model
      does not otherwise pin down. */
  ghost predicate Positive(exp: real -> real)
  {
    forall x :: exp(x) > 0.0
  }

  /** `exp(x - m)`, which is 0 when `x` is negative infinity. */
  function ShiftedExp(x: ExtReal, m: real, exp: real -> real): real
  {
    if x.Finite? then exp(x.value - m) else 0.0
  }

  /** The unnormalised weights of a row: the exponentials of the scores
      shifted by the row maximum. A position is zero exactly when its score
      is negative infinity. */
  function Unnormalised(row: seq<ExtReal>, exp: real -> real): (e: Vector)
    requires Positive(exp)
    requires HasFinite(row)
    ensures |e| == |row|
    ensures MaxExt(row).Finite?
    ensures forall k :: 0 <= k < |row| ==> e[k] == ShiftedExp(row[k], MaxExt(row).value, exp)
    ensures forall k :: 0 <= k < |row| ==> (e[k] > 0.0 <==> row[k].Finite?)
    ensures NonNegative(e) && Sum(e) > 0.0
  {
    var m := MaxExt(row);
    var e := seq(|row|, k requires 0 <= k < |row| => ShiftedExp(row[k], m.value, exp));
    SomePositiveEntry(e, row);
    e
  }

  lemma SomePositiveEntry(e: Vector, row: seq<ExtReal>)
    requires |e| == |row| && NonNegative(e)
    requires forall k :: 0 <= k < |row| ==> (e[k] > 0.0 <==> row[k].Finite?)
    requires HasFinite(row)
    ensures Sum(e) > 0.0
  {
    var k :| 0 <= k < |row| && row[k].Finite?;
    SumPositive(e, k);
  }

  /** Divides a non-negative vector with a positive total by that total:
      the result is proportional to the input and sums to 1. */
  function Normalise(e: Vector): (w: Vector)
    requires NonNegative(e) && Sum(e) > 0.0
    ensures |w| == |e|
    ensures forall k :: 0 <= k < |e| ==> w[k] == e[k] / Sum(e)
    ensures forall k :: 0 <= k < |e| ==> (w[k] > 0.0 <==> e[k] > 0.0)
    ensures NonNegative(w)
    ensures Sum(w) == 1.0
  {
    SumDivide(e, Sum(e));
    assert Sum(e) / Sum(e) == 1.0;
    forall k | 0 <= k < |e|
      ensures e[k] / Sum(e) >= 0.0 && (e[k] / Sum(e) > 0.0 <==> e[k] > 0.0)
    {
      QuotientSign(e[k], Sum(e));
    }
    Divide(e, Sum(e))
  }

  /** The kernel's softmax over one row of (possibly masked) scores: the
      weights form a distribution that vanishes exactly on the masked
      positions. */
  function MaskedSoftmax(row: seq<ExtReal>, exp: real -> real): (w: Vector)
    requires Positive(exp) && HasFinite(row)
    ensures |w| == |row|
    ensures forall k :: 0 <= k < |row| ==>
      w[k] == Unnormalised(row, exp)[k] / Sum(Unnormalised(row, exp))
    ensures Sum(w) == 1.0
    ensures forall k :: 0 <= k < |row| ==> w[k] >= 0.0
    ensures forall k :: 0 <= k < |row| ==> (w[k] == 0.0 <==> row[k].NegInf?)
  {
    var e := Unnormalised(row, exp);
    Normalise(e)
  }

  /** The test's `exp_s`: each score's exponential after subtracting the
      largest score. */
  function ReferenceExp(s: Vector, exp: real -> real): (e: Vector)
    requires Positive(exp) && |s| > 0
    ensures |e| == |s|
    ensures forall k :: 0 <= k < |s| ==> e[k] == exp(s[k] - Max(s))
    ensures forall k :: 0 <= k < |e| ==> e[k] > 0.0
    ensures Sum(e) > 0.0
  {
    var m := Max(s);
    var e := seq(|s|, k requires 0 <= k < |s| => exp(s[k] - m));
    SumPositive(e, 0);
    e
  }

  /** The test's reference softmax `w_ref[k] = exp_s[k] / Σ exp_s`:
      every weight is strictly positive and the weights sum to 1. */
  function ReferenceSoftmax(s: Vector, exp: real -> real): (w: Vector)
    requires Positive(exp) && |s| > 0
    ensures |w| == |s|
    ensures forall k :: 0 <= k < |s| ==>
      w[k] == ReferenceExp(s, exp)[k] / Sum(ReferenceExp(s, exp))
    ensures forall k :: 0 <= k < |w| ==> w[k] > 0.0
    ensures Sum(w) == 1.0
  {
    Normalise(ReferenceExp(s, exp))
  }

  /** A row whose first `n` scores are the finite `s[..n]` and whose other
      scores are negative infinity. */
  ghost predicate MaskedRow(row: seq<ExtReal>, s: Vector, n: nat)
  {
    && |row| == |s| && n <= |s|
    && (forall k :: 0 <= k < n ==> row[k] == Finite(s[k]))
    && (forall k :: n <= k < |row| ==> row[k] == NegInf)
  }

  /** The maximum of a masked row is the maximum of its valid prefix. */
  lemma MaxOfMaskedRow(row: seq<ExtReal>, s: Vector, n: nat)
    requires MaskedRow(row, s, n) && n > 0
    ensures MaxExt(row) == Finite(Max(s[..n]))
  {
    var m := MaxExt(row);
    assert AtMost(row[0], m);
    var k0 :| 0 <= k0 < |row| && row[k0] == m;
    assert k0 < n;
    var top := Max(s[..n]);
    var k1 :| 0 <= k1 < n && s[..n][k1] == top;
    assert AtMost(row[k1], m);
    assert s[..n][k0] == s[k0];
  }

  lemma QuotientSign(x: real, t: real)
    requires x >= 0.0 && t > 0.0
    ensures x / t >= 0.0
    ensures x / t > 0.0 <==> x > 0.0
  {
  }

  /** A finite score `x` in a row whose maximum is `m` has the unnormalised
      weight `exp(x - m)`. */
  lemma UnnormalisedEntry(row: seq<ExtReal>, m: real, x: real, exp: real -> real, k: nat)
    requires Positive(exp) && HasFinite(row) && k < |row|
    requires row[k] == Finite(x) && MaxExt(row) == Finite(m)
    ensures Unnormalised(row, exp)[k] == exp(x - m)
  {
  }

  /** One valid position of a masked row: its unnormalised weight is the
      test's `exp_s` entry for that position. */
  lemma UnnormalisedEntryOfMaskedRow(row: seq<ExtReal>, s: Vector, n: nat, exp: real -> real, k: nat)
    requires Positive(exp) && MaskedRow(row, s, n) && k < n
    ensures HasFinite(row)
    ensures Unnormalised(row, exp)[k] == ReferenceExp(s[..n], exp)[k]
  {
    assert row[k] == Finite(s[k]);
    MaxOfMaskedRow(row, s, n);
    UnnormalisedEntry(row, Max(s[..n]), s[k], exp, k);
    assert s[..n][k] == s[k];
  }

  /** On a masked row the unnormalised weights are the test's `exp_s` of
      the valid prefix followed by zeros. */
  lemma UnnormalisedOfMaskedRow(row: seq<ExtReal>, s: Vector, n: nat, exp: real -> real)
    requires Positive(exp) && MaskedRow(row, s, n) && n > 0
    ensures HasFinite(row)
    ensures Unnormalised(row, exp)[..n] == ReferenceExp(s[..n], exp)
    ensures ZeroFrom(Unnormalised(row, exp), n)
  {
    UnnormalisedEntryOfMaskedRow(row, s, n, exp, 0);
    var e := Unnormalised(row, exp);
    var eRef := ReferenceExp(s[..n], exp);
    forall k | 0 <= k < n
      ensures e[k] == eRef[k]
    {
      UnnormalisedEntryOfMaskedRow(row, s, n, exp, k);
    }
    assert e[..n] == eRef;
  }

  /** On a masked row the kernel's softmax is the test's reference softmax
      of the valid prefix, padded with zero weights. */
  lemma MaskedSoftmaxMatchesReference(row: seq<ExtReal>, s: Vector, n: nat, exp: real -> real)
    requires Positive(exp) && MaskedRow(row, s, n) && n > 0
    ensures HasFinite(row)
    ensures MaskedSoftmax(row, exp)[..n] == ReferenceSoftmax(s[..n], exp)
    ensures ZeroFrom(MaskedSoftmax(row, exp), n)
  {
    UnnormalisedOfMaskedRow(row, s, n, exp);
    var e := Unnormalised(row, exp);
    var eRef := ReferenceExp(s[..n], exp);
    SumZeroTail(e, n);
    assert Sum(e) == Sum(eRef);
    var w := MaskedSoftmax(row, exp);
    var wRef := ReferenceSoftmax(s[..n], exp);
    forall k | 0 <= k < n
      ensures w[k] == wRef[k]
    {
      assert e[k] == eRef[k];
    }
    assert w[..n] == wRef;
  }
}
