/** The mixing-rule kernels of a cubic equation of state for a mixture: they
    build the pure-component cross terms (a alpha)_ij and sum the attractive
    term  a alpha = sum_i sum_j z_i z_j (a alpha)_ij  in three different loop
    organisations. Everything is over exact reals; square roots of the
    attractive terms are inputs (`roots`). */
module EosMixMethods {
  import opened Outcomes
  import opened QuadraticSums
  import opened MixingMatrices

  /** The three tables returned by `a_alpha_aijs_composition_independent`. */
  datatype MixTables = MixTables(aAlphaIjs: Matrix, aAlphaRoots: seq<real>, aAlphaIjRootsInv: Matrix)

  /** The contents of an N x N buffer, row by row. */
  function Snapshot(m: array2<real>): (s: Matrix)
    reads m
    ensures |s| == m.Length0
    ensures forall p :: 0 <= p < m.Length0 ==> |s[p]| == m.Length1
    ensures forall p, q :: 0 <= p < m.Length0 && 0 <= q < m.Length1 ==> s[p][q] == m[p, q]
  {
    seq(m.Length0, p requires 0 <= p < m.Length0 reads m =>
      seq(m.Length1, q requires 0 <= q < m.Length1 reads m => m[p, q]))
  }

  predicate NoZeroRoot(roots: seq<real>)
  {
    forall i :: 0 <= i < |roots| ==> roots[i] != 0.0
  }

  /** 1 / (root_p root_q), or 0 where that product is 0 (the strict variant never returns such a cell). */
  function InvEntry(roots: seq<real>, p: nat, q: nat): real
    requires p < |roots| && q < |roots|
  {
    if roots[p] * roots[q] != 0.0 then 1.0 / (roots[p] * roots[q]) else 0.0
  }

  /** `a_alpha_ij_roots_inv`: InvEntry on and above the diagonal, 0 below it. */
  function InvUpper(roots: seq<real>): (m: Matrix)
    ensures IsSquare(m, |roots|)
    ensures forall p, q :: 0 <= p < |roots| && 0 <= q < |roots| ==> m[p][q] == if p <= q then InvEntry(roots, p, q) else 0.0
  {
    seq(|roots|, p requires 0 <= p < |roots| =>
      seq(|roots|, q requires 0 <= q < |roots| => if p <= q then InvEntry(roots, p, q) else 0.0))
  }

  /** The sentinel stored instead of 1/0 by the zero-tolerant variant. */
  const ZeroRootSentinel: real := 1e100

  /** 1 / (root_p root_q), or the sentinel where that product is 0. */
  function InvOrSentinel(roots: seq<real>, p: nat, q: nat): real
    requires p < |roots| && q < |roots|
  {
    if roots[p] * roots[q] == 0.0 then ZeroRootSentinel else 1.0 / (roots[p] * roots[q])
  }

  /** `a_alpha_ij_roots_inv` of the zero-tolerant variant: InvOrSentinel on and above the diagonal, 0 below it. */
  function InvUpperSupportZeros(roots: seq<real>): (m: Matrix)
    ensures IsSquare(m, |roots|)
    ensures forall p, q :: 0 <= p < |roots| && 0 <= q < |roots| ==> m[p][q] == if p <= q then InvOrSentinel(roots, p, q) else 0.0
  {
    seq(|roots|, p requires 0 <= p < |roots| =>
      seq(|roots|, q requires 0 <= q < |roots| => if p <= q then InvOrSentinel(roots, p, q) else 0.0))
  }

  /** Where no root is zero, the stored inverses are the inverses of the products of roots,
      and both variants store the same table. */
  lemma InvUpperIsInverse(roots: seq<real>)
    requires NoZeroRoot(roots)
    ensures forall p, q :: 0 <= p <= q < |roots| ==> InvUpper(roots)[p][q] * (roots[p] * roots[q]) == 1.0
    ensures InvUpper(roots) == InvUpperSupportZeros(roots)
  {
    var m, m' := InvUpper(roots), InvUpperSupportZeros(roots);
    forall p, q | 0 <= p <= q < |roots| ensures m[p][q] * (roots[p] * roots[q]) == 1.0 {
      assert roots[p] * roots[q] != 0.0;
    }
    forall p | 0 <= p < |roots| ensures m[p] == m'[p] {
      forall q | 0 <= q < |roots| ensures m[p][q] == m'[p][q] {
        assert roots[p] * roots[q] != 0.0;
      }
    }
  }

  /** Whether cell (p, q) of a_alpha_ijs has been written once rows before i, and row i
      up to column j, were filled (each pass writes (i, j) and its mirror (j, i)). */
  predicate Filled(p: nat, q: nat, i: nat, j: nat)
  {
    p < i || q < i || (p == i && q < j) || (q == i && p < j)
  }

  /** Whether cell (p, q) of a_alpha_ij_roots_inv has been written at that point (only p <= q is). */
  predicate FilledUpper(p: nat, q: nat, i: nat, j: nat)
  {
    p <= q && (p < i || (p == i && q < j))
  }

  /** A buffer whose cells agree with a square matrix has that matrix as its contents. */
  lemma SnapshotIs(a: array2<real>, m: Matrix, n: nat)
    requires a.Length0 == n && a.Length1 == n && IsSquare(m, n)
    requires forall p, q :: 0 <= p < n && 0 <= q < n ==> a[p, q] == m[p][q]
    ensures Snapshot(a) == m
  {
    var s := Snapshot(a);
    forall p | 0 <= p < n ensures s[p] == m[p] {
      assert |s[p]| == |m[p]|;
      forall q | 0 <= q < n ensures s[p][q] == m[p][q] {
        assert s[p][q] == a[p, q];
      }
    }
  }

  /** a_alpha_ijs after rows before i, and row i up to column j, were filled. */
  ghost predicate MatrixFilled(ijs: array2<real>, um: Matrix, n: nat, i: nat, j: nat)
    reads ijs
    requires ijs.Length0 == ijs.Length1 == n && IsSquare(um, n)
  {
    forall p, q :: 0 <= p < n && 0 <= q < n ==> ijs[p, q] == if Filled(p, q, i, j) then um[p][q] else 0.0
  }

  /** a_alpha_ij_roots_inv after rows before i, and row i up to column j, were filled. */
  ghost predicate InverseFilled(inv: array2<real>, iu: Matrix, n: nat, i: nat, j: nat)
    reads inv
    requires inv.Length0 == inv.Length1 == n && IsSquare(iu, n)
  {
    forall p, q :: 0 <= p < n && 0 <= q < n ==> inv[p, q] == if FilledUpper(p, q, i, j) then iu[p][q] else 0.0
  }

  /** Writes the inverse v of pair (i, j), j >= i, into a buffer whose upper triangle is being filled row by row:
      the store `a_alpha_ij_roots_i_inv[j] = ...` of eos_mix_methods.py:68 and :91-93. */
  method WriteInverse(inv: array2<real>, n: nat, i: nat, j: nat, v: real, ghost iu: Matrix)
    requires inv.Length0 == inv.Length1 == n && IsSquare(iu, n) && i <= j < n
    requires v == iu[i][j]
    requires InverseFilled(inv, iu, n, i, j)
    modifies inv
    ensures InverseFilled(inv, iu, n, i, j + 1)
  {
    inv[i, j] := v;
  }

  /** Row i of the fill loop of the strict variant; false when it meets a zero product of roots. */
  method FillRow(ijs: array2<real>, inv: array2<real>, roots: seq<real>, kijs: Matrix, i: nat) returns (ok: bool)
    requires IsSquare(kijs, |roots|) && i < |roots| && ijs != inv
    requires ijs.Length0 == ijs.Length1 == inv.Length0 == inv.Length1 == |roots|
    requires MatrixFilled(ijs, UpperMix(roots, kijs), |roots|, i, i) && InverseFilled(inv, InvUpper(roots), |roots|, i, i)
    modifies ijs, inv
    ensures ok <==> forall q :: i <= q < |roots| ==> roots[i] * roots[q] != 0.0
    ensures ok ==> MatrixFilled(ijs, UpperMix(roots, kijs), |roots|, i + 1, i + 1) && InverseFilled(inv, InvUpper(roots), |roots|, i + 1, i + 1)
  {
    var n := |roots|;
    ghost var um, iu := UpperMix(roots, kijs), InvUpper(roots);
    for j := i to n
      invariant forall q :: i <= q < j ==> roots[i] * roots[q] != 0.0
      invariant MatrixFilled(ijs, um, n, i, j) && InverseFilled(inv, iu, n, i, j)
    {
      var term := roots[i] * roots[j];
      if term == 0.0 {
        return false;
      }
      WriteInverse(inv, n, i, j, 1.0 / term, iu);
      var v := (1.0 - kijs[i][j]) * term;
      WritePair(ijs, n, i, j, v, um);
    }
    return true;
  }

  /** a_alpha_aijs_composition_independent: fills (a alpha)_ij for j >= i from the upper
      triangle of kijs, mirrors it below the diagonal, and stores 1 / (root_i root_j)
      above it. A zero product of roots raises ZeroDivisionError. */
  method AAlphaAijsCompositionIndependent(roots: seq<real>, kijs: Matrix) returns (r: Result<MixTables>)
    requires IsSquare(kijs, |roots|)
    ensures r.Err? <==> !NoZeroRoot(roots)
    ensures r.Err? ==> r.error == ZeroDivision
    ensures r.Ok? ==> r.value == MixTables(UpperMix(roots, kijs), roots, InvUpper(roots))
  {
    var n := |roots|;
    var ijs := new real[n, n]((_, _) => 0.0);
    var inv := new real[n, n]((_, _) => 0.0);
    ghost var um, iu := UpperMix(roots, kijs), InvUpper(roots);
    for i := 0 to n
      invariant i > 0 ==> NoZeroRoot(roots)
      invariant MatrixFilled(ijs, um, n, i, i) && InverseFilled(inv, iu, n, i, i)
    {
      var ok := FillRow(ijs, inv, roots, kijs, i);
      if !ok {
        var q :| i <= q < n && roots[i] * roots[q] == 0.0;
        assert roots[i] == 0.0 || roots[q] == 0.0;
        return Err(ZeroDivision);
      }
      if i == 0 {
        forall q | 0 <= q < n ensures roots[q] != 0.0 {
          assert roots[0] * roots[q] != 0.0;
        }
      }
    }
    SnapshotIs(ijs, um, n);
    SnapshotIs(inv, iu, n);
    r := Ok(MixTables(Snapshot(ijs), roots, Snapshot(inv)));
  }

  /** Row i of the fill loop of the zero-tolerant variant. */
  method FillRowSupportZeros(ijs: array2<real>, inv: array2<real>, roots: seq<real>, kijs: Matrix, i: nat)
    requires IsSquare(kijs, |roots|) && i < |roots| && ijs != inv
    requires ijs.Length0 == ijs.Length1 == inv.Length0 == inv.Length1 == |roots|
    requires MatrixFilled(ijs, UpperMix(roots, kijs), |roots|, i, i) && InverseFilled(inv, InvUpperSupportZeros(roots), |roots|, i, i)
    modifies ijs, inv
    ensures MatrixFilled(ijs, UpperMix(roots, kijs), |roots|, i + 1, i + 1) && InverseFilled(inv, InvUpperSupportZeros(roots), |roots|, i + 1, i + 1)
  {
    var n := |roots|;
    ghost var um, iu := UpperMix(roots, kijs), InvUpperSupportZeros(roots);
    for j := i to n
      invariant MatrixFilled(ijs, um, n, i, j) && InverseFilled(inv, iu, n, i, j)
    {
      var term := roots[i] * roots[j];
      // the ZeroDivisionError of 1.0 / term is caught and replaced by the sentinel
      WriteInverse(inv, n, i, j, if term == 0.0 then ZeroRootSentinel else 1.0 / term, iu);
      var v := (1.0 - kijs[i][j]) * term;
      WritePair(ijs, n, i, j, v, um);
    }
  }

  /** a_alpha_aijs_composition_independent_support_zeros: as above, but a zero product
      of roots stores the sentinel 1e100 in place of its inverse instead of raising. */
  method AAlphaAijsCompositionIndependentSupportZeros(roots: seq<real>, kijs: Matrix) returns (t: MixTables)
    requires IsSquare(kijs, |roots|)
    ensures t == MixTables(UpperMix(roots, kijs), roots, InvUpperSupportZeros(roots))
  {
    var n := |roots|;
    var ijs := new real[n, n]((_, _) => 0.0);
    var inv := new real[n, n]((_, _) => 0.0);
    ghost var um, iu := UpperMix(roots, kijs), InvUpperSupportZeros(roots);
    for i := 0 to n
      invariant MatrixFilled(ijs, um, n, i, i) && InverseFilled(inv, iu, n, i, i)
    {
      FillRowSupportZeros(ijs, inv, roots, kijs, i);
    }
    SnapshotIs(ijs, um, n);
    SnapshotIs(inv, iu, n);
    t := MixTables(Snapshot(ijs), roots, Snapshot(inv));
  }

  predicate CachesComplete(aAlphaIjs: Option<Matrix>, aAlphaRoots: Option<seq<real>>, aAlphaIjRootsInv: Option<Matrix>)
  {
    aAlphaIjs.Some? && aAlphaRoots.Some? && aAlphaIjRootsInv.Some?
  }

  /** The a alpha loop of a_alpha_and_derivatives: the upper triangle of a_alpha_ijs
      with every off-diagonal term added twice, the diagonal once. */
  method SumUpperTriangle(zs: seq<real>, m: Matrix) returns (a: real)
    requires IsSquare(m, |zs|)
    ensures a == 2.0 * StrictUpper(zs, m, |zs|, |zs|) + Diag(zs, m, |zs|)
    ensures IsSymmetric(m) ==> a == QuadraticForm(zs, m)
  {
    var n := |zs|;
    a := 0.0;
    for i := 0 to n
      invariant a == 2.0 * StrictUpper(zs, m, i, n) + Diag(zs, m, i)
    {
      a := AddUpperRow(zs, m, i, a);
      a := a + m[i][i] * zs[i] * zs[i];
      UpperRowStep(zs, m, i);
    }
    if IsSymmetric(m) {
      UpperTriangleForm(zs, m);
    }
  }

  /** Row i of SumUpperTriangle: the terms right of the diagonal, each added twice to a0. */
  method AddUpperRow(zs: seq<real>, m: Matrix, i: nat, a0: real) returns (a: real)
    requires IsSquare(m, |zs|) && i < |zs|
    ensures a == a0 + 2.0 * (zs[i] * Dot(zs, m[i], i + 1, |zs|))
  {
    var n := |zs|;
    var zi := zs[i];
    a := a0;
    for j := i + 1 to n
      invariant a == a0 + 2.0 * RowTerms(zs, m[i], zi, i + 1, j)
    {
      var term := m[i][j] * zi * zs[j];
      a := a + term + term;
    }
    RowTermsIsScaledDot(zs, m[i], zi, i + 1, n);
  }

  /** a_alpha_and_derivatives: sums the upper triangle of the (cached or freshly built)
      matrix with doubled off-diagonal terms. Returns (a alpha, None, the matrix used). */
  method AAlphaAndDerivatives(roots: seq<real>, T: real, zs: seq<real>, kijs: Matrix,
                              aAlphaIjs: Option<Matrix>, aAlphaRoots: Option<seq<real>>,
                              aAlphaIjRootsInv: Option<Matrix>)
    returns (r: Result<(real, Option<real>, Matrix)>)
    requires IsSquare(kijs, |roots|) && |zs| == |roots|
    requires CachesComplete(aAlphaIjs, aAlphaRoots, aAlphaIjRootsInv) ==> IsSquare(aAlphaIjs.value, |roots|)
    ensures r.Ok? ==> r.value.1 == None
    ensures r.Err? ==> r.error == ZeroDivision
    ensures CachesComplete(aAlphaIjs, aAlphaRoots, aAlphaIjRootsInv) ==>
      r.Ok? && r.value.2 == aAlphaIjs.value &&
      r.value.0 == 2.0 * StrictUpper(zs, r.value.2, |zs|, |zs|) + Diag(zs, r.value.2, |zs|)
    ensures CachesComplete(aAlphaIjs, aAlphaRoots, aAlphaIjRootsInv) && IsSymmetric(aAlphaIjs.value) ==>
      r.Ok? && r.value.0 == QuadraticForm(zs, aAlphaIjs.value)
    ensures !CachesComplete(aAlphaIjs, aAlphaRoots, aAlphaIjRootsInv) ==>
      (r.Err? <==> !NoZeroRoot(roots)) &&
      (r.Ok? ==> r.value.2 == UpperMix(roots, kijs) && r.value.0 == QuadraticForm(zs, UpperMix(roots, kijs)))
  {
    var m: Matrix;
    if !CachesComplete(aAlphaIjs, aAlphaRoots, aAlphaIjRootsInv) {
      var built := AAlphaAijsCompositionIndependent(roots, kijs);
      if built.Err? {
        return Err(built.error);
      }
      m := built.value.aAlphaIjs;
    } else {
      m := aAlphaIjs.value;
    }
    var a := SumUpperTriangle(zs, m);
    r := Ok((a, None, m));
  }

  /** Matrix of the products z_i z_j that a_alpha_and_derivatives_full precomputes. */
  predicate IsZProducts(zProducts: Matrix, zs: seq<real>)
  {
    IsSquare(zProducts, |zs|) && forall p, q :: 0 <= p < |zs| && 0 <= q < |zs| ==> zProducts[p][q] == zs[p] * zs[q]
  }

  /** Weighting one term by a precomputed product z_i z_j is weighting it by z_i, then by z_j. */
  lemma ProductWeight(zProducts: Matrix, zs: seq<real>, x: real, i: nat, j: nat)
    requires IsZProducts(zProducts, zs) && i < |zs| && j < |zs|
    ensures x * zProducts[i][j] == x * zs[i] * zs[j]
  {
    assert zProducts[i][j] == zs[i] * zs[j];
  }

  /** Weighting a row by precomputed products z_i z_q is weighting it by z_q, then by z_i. */
  lemma {:induction false} ProductsWeight(zProducts: Matrix, zs: seq<real>, row: seq<real>, i: nat, lo: nat, hi: nat)
    requires IsZProducts(zProducts, zs) && i < |zs| && hi <= |zs| && hi <= |row|
    ensures Dot(row, zProducts[i], lo, hi) == zs[i] * Dot(zs, row, lo, hi)
    decreases hi
  {
    if hi > lo {
      ProductsWeight(zProducts, zs, row, i, lo, hi - 1);
      assert zProducts[i][hi - 1] == zs[i] * zs[hi - 1];
      assert row[hi - 1] * zProducts[i][hi - 1] == zs[i] * (zs[hi - 1] * row[hi - 1]);
    }
  }

  /** Closing row i of the lower-triangle sum: adding its diagonal term completes the row. */
  lemma LowerRowDone(zs: seq<real>, zProducts: Matrix, m: Matrix, i: nat, a: real)
    requires IsSquare(m, |zs|) && IsZProducts(zProducts, zs) && i < |zs|
    requires a == 2.0 * StrictLower(zs, m, i) + Diag(zs, m, i) + 2.0 * Dot(m[i], zProducts[i], 0, i)
    ensures a + m[i][i] * zProducts[i][i] == 2.0 * StrictLower(zs, m, i + 1) + Diag(zs, m, i + 1)
  {
    ProductsWeight(zProducts, zs, m[i], i, 0, i);
    ProductWeight(zProducts, zs, m[i][i], i, i);
  }

  /** The a alpha loop of a_alpha_and_derivatives_full: the lower triangle of a_alpha_ijs
      weighted by the precomputed products z_i z_j, off-diagonal terms twice. */
  method SumLowerTriangle(zs: seq<real>, zProducts: Matrix, m: Matrix) returns (a: real)
    requires IsSquare(m, |zs|) && IsZProducts(zProducts, zs)
    ensures a == 2.0 * StrictLower(zs, m, |zs|) + Diag(zs, m, |zs|)
    ensures IsSymmetric(m) ==> a == QuadraticForm(zs, m)
  {
    var n := |zs|;
    a := 0.0;
    for i := 0 to n
      invariant a == 2.0 * StrictLower(zs, m, i) + Diag(zs, m, i)
    {
      for j := 0 to i
        invariant a == 2.0 * StrictLower(zs, m, i) + Diag(zs, m, i) + 2.0 * Dot(m[i], zProducts[i], 0, j)
      {
        var term := m[i][j] * zProducts[i][j];
        a := a + term + term;
      }
      LowerRowDone(zs, zProducts, m, i, a);
      a := a + m[i][i] * zProducts[i][i];
    }
    if IsSymmetric(m) {
      LowerTriangleForm(zs, m);
    }
  }

  /** The first temperature derivative of the cross term (i, j) as the full kernel computes it,
      from the stored inverse of root_i root_j. */
  function DaEntry(aAlphas: seq<real>, das: seq<real>, kijs: Matrix, inv: Matrix, i: nat, j: nat): real
    requires |aAlphas| == |das| && IsSquare(kijs, |aAlphas|) && IsSquare(inv, |aAlphas|)
    requires i < |aAlphas| && j < |aAlphas|
  {
    -0.5 * (kijs[i][j] - 1.0) * (aAlphas[i] * das[j] + aAlphas[j] * das[i]) * inv[i][j]
  }

  /** The divisor of the second derivative of the cross term (i, j). */
  function D2Divisor(aAlphas: seq<real>, inv: Matrix, i: nat, j: nat): real
    requires IsSquare(inv, |aAlphas|) && i < |aAlphas| && j < |aAlphas|
  {
    inv[i][j] * (aAlphas[i] * aAlphas[j]) * (aAlphas[i] * aAlphas[j])
  }

  /** The second temperature derivative of the cross term (i, j) as the full kernel computes it
      (0 where its divisor is 0, a case in which the kernel raises instead). */
  function D2Entry(aAlphas: seq<real>, das: seq<real>, d2as: seq<real>, kijs: Matrix, inv: Matrix, i: nat, j: nat): real
    requires |aAlphas| == |das| == |d2as| && IsSquare(kijs, |aAlphas|) && IsSquare(inv, |aAlphas|)
    requires i < |aAlphas| && j < |aAlphas|
  {
    var x0 := aAlphas[i] * aAlphas[j];
    var x1x2 := aAlphas[i] * das[j] + aAlphas[j] * das[i];
    var divisor := D2Divisor(aAlphas, inv, i, j);
    if divisor == 0.0 then 0.0
    else (kijs[i][j] - 1.0) * ((x0 * (-0.5 * (aAlphas[i] * d2as[j] + aAlphas[j] * d2as[i]) - das[i] * das[j])
                                + 0.25 * x1x2 * x1x2) / divisor)
  }

  /** `da_alpha_dT_ijs`: DaEntry on and above the diagonal, mirrored below it. */
  function DaMatrix(aAlphas: seq<real>, das: seq<real>, kijs: Matrix, inv: Matrix): (m: Matrix)
    requires |aAlphas| == |das| && IsSquare(kijs, |aAlphas|) && IsSquare(inv, |aAlphas|)
    ensures IsSquare(m, |aAlphas|) && IsSymmetric(m)
    ensures forall p, q :: 0 <= p <= q < |aAlphas| ==> m[p][q] == m[q][p] == DaEntry(aAlphas, das, kijs, inv, p, q)
  {
    seq(|aAlphas|, p requires 0 <= p < |aAlphas| =>
      seq(|aAlphas|, q requires 0 <= q < |aAlphas| =>
        if p <= q then DaEntry(aAlphas, das, kijs, inv, p, q) else DaEntry(aAlphas, das, kijs, inv, q, p)))
  }

  /** `d2a_alpha_dT2_ijs`: D2Entry on and above the diagonal, mirrored below it. */
  function D2Matrix(aAlphas: seq<real>, das: seq<real>, d2as: seq<real>, kijs: Matrix, inv: Matrix): (m: Matrix)
    requires |aAlphas| == |das| == |d2as| && IsSquare(kijs, |aAlphas|) && IsSquare(inv, |aAlphas|)
    ensures IsSquare(m, |aAlphas|) && IsSymmetric(m)
    ensures forall p, q :: 0 <= p <= q < |aAlphas| ==> m[p][q] == m[q][p] == D2Entry(aAlphas, das, d2as, kijs, inv, p, q)
  {
    seq(|aAlphas|, p requires 0 <= p < |aAlphas| =>
      seq(|aAlphas|, q requires 0 <= q < |aAlphas| =>
        if p <= q then D2Entry(aAlphas, das, d2as, kijs, inv, p, q) else D2Entry(aAlphas, das, d2as, kijs, inv, q, p)))
  }

  /** Whether the divisors of row p met by the derivative loop before column hi (pairs p <= q) are nonzero. */
  predicate RowDivisorsNonzero(aAlphas: seq<real>, inv: Matrix, p: nat, hi: nat)
    requires IsSquare(inv, |aAlphas|) && p < |aAlphas| && hi <= |aAlphas|
  {
    forall q :: p <= q < hi ==> D2Divisor(aAlphas, inv, p, q) != 0.0
  }

  /** Whether every divisor met by the derivative loop (pairs i <= j) is nonzero. */
  predicate DivisorsNonzero(aAlphas: seq<real>, inv: Matrix)
    requires IsSquare(inv, |aAlphas|)
  {
    forall p :: 0 <= p < |aAlphas| ==> RowDivisorsNonzero(aAlphas, inv, p, |aAlphas|)
  }

  /** With the tables built from nonzero roots, the first derivative of a cross term is the
      temperature derivative of (1 - k_pq) sqrt(a_p a_q):  (1 - k_pq) (a_p a_q)' / (2 root_p root_q). */
  lemma DaEntryIsDerivative(aAlphas: seq<real>, roots: seq<real>, das: seq<real>, kijs: Matrix, p: nat, q: nat)
    requires RootsOf(roots, aAlphas) && |das| == |roots| && IsSquare(kijs, |roots|) && p <= q < |roots|
    requires roots[p] != 0.0 && roots[q] != 0.0
    ensures DaEntry(aAlphas, das, kijs, InvUpper(roots), p, q) * (roots[p] * roots[q])
            == 0.5 * (1.0 - kijs[p][q]) * (aAlphas[p] * das[q] + aAlphas[q] * das[p])
  {
    var rs := roots[p] * roots[q];
    var inv := InvUpper(roots)[p][q];
    var x1x2 := aAlphas[p] * das[q] + aAlphas[q] * das[p];
    assert rs != 0.0;
    assert inv == 1.0 / rs;
    assert inv * rs == 1.0;
    calc {
      DaEntry(aAlphas, das, kijs, InvUpper(roots), p, q) * rs;
      -0.5 * (kijs[p][q] - 1.0) * x1x2 * inv * rs;
      -0.5 * (kijs[p][q] - 1.0) * x1x2 * (inv * rs);
    }
  }

  /** With the tables built from nonzero roots, the second derivative of a cross term is the
      second temperature derivative of (1 - k_pq) sqrt(f), f = a_p a_q:
      (1 - k_pq) (f'' / (2 sqrt f) - f'^2 / (4 f sqrt f)), stated after multiplying by
      (root_p root_q)^3 = f sqrt f. */
  lemma D2EntryIsDerivative(aAlphas: seq<real>, roots: seq<real>, das: seq<real>, d2as: seq<real>, kijs: Matrix, p: nat, q: nat)
    requires RootsOf(roots, aAlphas) && |das| == |d2as| == |roots| && IsSquare(kijs, |roots|) && p <= q < |roots|
    requires roots[p] != 0.0 && roots[q] != 0.0
    ensures var rs := roots[p] * roots[q];
            var f1 := aAlphas[p] * das[q] + aAlphas[q] * das[p];
            var f2 := aAlphas[p] * d2as[q] + 2.0 * das[p] * das[q] + aAlphas[q] * d2as[p];
            D2Entry(aAlphas, das, d2as, kijs, InvUpper(roots), p, q) * (rs * rs * rs)
            == (1.0 - kijs[p][q]) * (0.5 * f2 * (rs * rs) - 0.25 * f1 * f1)
  {
    var rs := roots[p] * roots[q];
    var inv := InvUpper(roots)[p][q];
    var x0 := aAlphas[p] * aAlphas[q];
    assert rs != 0.0;
    assert inv * rs == 1.0;
    SquaresProduct(roots[p], roots[q], aAlphas[p], aAlphas[q]);
    CubeDivisor(inv, rs, x0);
    NumeratorForm(aAlphas[p], aAlphas[q], das[p], das[q], d2as[p], d2as[q], rs);
    var num := x0 * (-0.5 * (aAlphas[p] * d2as[q] + aAlphas[q] * d2as[p]) - das[p] * das[q])
               + 0.25 * (aAlphas[p] * das[q] + aAlphas[q] * das[p]) * (aAlphas[p] * das[q] + aAlphas[q] * das[p]);
    ScaleBack(kijs[p][q] - 1.0, num, rs * rs * rs);
  }

  lemma SquaresProduct(rp: real, rq: real, ap: real, aq: real)
    requires ap == rp * rp && aq == rq * rq
    ensures ap * aq == (rp * rq) * (rp * rq)
  {
  }

  lemma CubeDivisor(inv: real, rs: real, x0: real)
    requires inv * rs == 1.0 && x0 == rs * rs
    ensures inv * x0 * x0 == rs * rs * rs && rs * rs * rs != 0.0
  {
    assert inv * (rs * rs) * (rs * rs) == (inv * rs) * (rs * rs * rs);
  }

  lemma NumeratorForm(ap: real, aq: real, dp: real, dq: real, d2p: real, d2q: real, rs: real)
    requires ap * aq == rs * rs
    ensures ap * aq * (-0.5 * (ap * d2q + aq * d2p) - dp * dq) + 0.25 * (ap * dq + aq * dp) * (ap * dq + aq * dp)
            == -(0.5 * (ap * d2q + 2.0 * dp * dq + aq * d2p) * (rs * rs) - 0.25 * (ap * dq + aq * dp) * (ap * dq + aq * dp))
  {
  }

  lemma ScaleBack(c: real, num: real, d: real)
    requires d != 0.0
    ensures c * (num / d) * d == c * num
  {
  }

  /** With the tables built from nonzero roots, no second-derivative divisor is zero, so the
      full kernel fails only on a zero root. */
  lemma BuiltTablesDivisorsNonzero(aAlphas: seq<real>, roots: seq<real>)
    requires RootsOf(roots, aAlphas) && NoZeroRoot(roots)
    ensures DivisorsNonzero(aAlphas, InvUpper(roots))
  {
    forall p, q | 0 <= p <= q < |roots| ensures D2Divisor(aAlphas, InvUpper(roots), p, q) != 0.0 {
      var rs := roots[p] * roots[q];
      var inv := InvUpper(roots)[p][q];
      assert rs != 0.0;
      assert inv * rs == 1.0;
      assert aAlphas[p] * aAlphas[q] == rs * rs by {
        assert aAlphas[p] == roots[p] * roots[p] && aAlphas[q] == roots[q] * roots[q];
      }
      assert inv * (rs * rs) * (rs * rs) == (inv * rs) * (rs * rs * rs);
    }
  }

  /** Row i of an upper-triangle sum weighted by the products z_i z_q, up to column j >= i:
      the diagonal term once, the terms right of it twice. It is not another sum but the
      state of the row loop of eos_mix_methods.py:158-197 after column j, written with Dot. */
  function UpperRowSum(m: Matrix, zProducts: Matrix, i: nat, j: nat): real
    requires IsSquare(m, |zProducts|) && IsSquare(zProducts, |zProducts|) && i <= j <= |zProducts| && i < |zProducts|
  {
    (if j == i then 0.0 else m[i][i] * zProducts[i][i]) + 2.0 * Dot(m[i], zProducts[i], i + 1, j)
  }

  /** Visiting column j adds its term once on the diagonal, twice right of it. */
  lemma UpperRowSumStep(m: Matrix, zProducts: Matrix, i: nat, j: nat, term: real)
    requires IsSquare(m, |zProducts|) && IsSquare(zProducts, |zProducts|) && i <= j < |zProducts|
    requires term == m[i][j] * zProducts[i][j]
    ensures UpperRowSum(m, zProducts, i, j + 1)
            == if i != j then UpperRowSum(m, zProducts, i, j) + term + term else UpperRowSum(m, zProducts, i, j) + term
  {
    if i != j {
      assert Dot(m[i], zProducts[i], i + 1, j + 1) == Dot(m[i], zProducts[i], i + 1, j) + m[i][j] * zProducts[i][j];
    }
  }

  /** Closing row i of an upper-triangle sum weighted by precomputed products z_i z_j. */
  lemma UpperRowDone(zs: seq<real>, zProducts: Matrix, m: Matrix, i: nat)
    requires IsSquare(m, |zs|) && IsZProducts(zProducts, zs) && i < |zs|
    ensures 2.0 * StrictUpper(zs, m, i, |zs|) + Diag(zs, m, i) + UpperRowSum(m, zProducts, i, |zs|)
            == 2.0 * StrictUpper(zs, m, i + 1, |zs|) + Diag(zs, m, i + 1)
  {
    var n := |zs|;
    var d := Dot(zs, m[i], i + 1, n);
    var diag := m[i][i] * zs[i] * zs[i];
    ProductsWeight(zProducts, zs, m[i], i, i + 1, n);
    ProductWeight(zProducts, zs, m[i][i], i, i);
    assert UpperRowSum(m, zProducts, i, n) == m[i][i] * zProducts[i][i] + 2.0 * Dot(m[i], zProducts[i], i + 1, n);
    assert UpperRowSum(m, zProducts, i, n) == diag + 2.0 * (zs[i] * d);
    UpperRowStep(zs, m, i);
  }

  /** Writes the cross term v of pair (i, j) and its mirror (j, i) into a buffer being filled row by row:
      the chained store of eos_mix_methods.py:69 and :94, and of :177 and :188 for the derivative tables. */
  method WritePair(ijs: array2<real>, n: nat, i: nat, j: nat, v: real, ghost m: Matrix)
    requires ijs.Length0 == ijs.Length1 == n && IsSquare(m, n) && i <= j < n
    requires v == m[i][j] == m[j][i]
    requires MatrixFilled(ijs, m, n, i, j)
    modifies ijs
    ensures MatrixFilled(ijs, m, n, i, j + 1)
  {
    ijs[i, j] := v;
    ijs[j, i] := v;
  }

  /** Pair (i, j), j >= i, of the derivative loop of a_alpha_and_derivatives_full: writes the
      first derivative of the cross term and its mirror, then (second derivative requested)
      the second one; false where the second derivative divides by zero. Returns the two
      cross terms weighted by z_i z_j. */
  method FillDerivativePair(daIjs: array2<real>, d2Ijs: array2<real>, aAlphas: seq<real>, das: seq<real>,
                            d2as: seq<real>, zProducts: Matrix, kijs: Matrix, inv: Matrix,
                            secondDerivative: bool, i: nat, j: nat, ghost dam: Matrix, ghost d2m: Matrix)
    returns (ok: bool, daTerm: real, d2Term: real)
    requires |aAlphas| == |das| == |d2as| && IsSquare(kijs, |aAlphas|) && IsSquare(inv, |aAlphas|)
    requires IsSquare(zProducts, |aAlphas|) && i <= j < |aAlphas| && daIjs != d2Ijs
    requires daIjs.Length0 == daIjs.Length1 == |aAlphas|
    requires secondDerivative ==> d2Ijs.Length0 == d2Ijs.Length1 == |aAlphas|
    requires dam == DaMatrix(aAlphas, das, kijs, inv) && d2m == D2Matrix(aAlphas, das, d2as, kijs, inv)
    requires MatrixFilled(daIjs, dam, |aAlphas|, i, j)
    requires secondDerivative ==> MatrixFilled(d2Ijs, d2m, |aAlphas|, i, j)
    modifies daIjs, d2Ijs
    ensures ok <==> D2Divisor(aAlphas, inv, i, j) != 0.0
    ensures MatrixFilled(daIjs, dam, |aAlphas|, i, j + 1)
    ensures ok && secondDerivative ==> MatrixFilled(d2Ijs, d2m, |aAlphas|, i, j + 1)
    ensures daTerm == dam[i][j] * zProducts[i][j]
    ensures ok ==> d2Term == d2m[i][j] * zProducts[i][j]
  {
    var n := |aAlphas|;
    var zi_zj := zProducts[i][j];
    var da_ij := DaEntry(aAlphas, das, kijs, inv, i, j);
    WritePair(daIjs, n, i, j, da_ij, dam);
    daTerm := da_ij * zi_zj;
    if D2Divisor(aAlphas, inv, i, j) == 0.0 {
      return false, daTerm, 0.0;
    }
    var d2_ij := D2Entry(aAlphas, das, d2as, kijs, inv, i, j);
    if secondDerivative {
      WritePair(d2Ijs, n, i, j, d2_ij, d2m);
    }
    return true, daTerm, d2_ij * zi_zj;
  }

  /** Row i of the derivative loop of a_alpha_and_derivatives_full, continuing the running
      sums da and d2; false when the second-derivative divisor of a pair (i, j) is zero.
      The kernel's `continue` for j < i is a loop starting at j = i. */
  method FillDerivativeRow(daIjs: array2<real>, d2Ijs: array2<real>, aAlphas: seq<real>, das: seq<real>,
                           d2as: seq<real>, zProducts: Matrix, kijs: Matrix, inv: Matrix,
                           secondDerivative: bool, i: nat, da0: real, d20: real)
    returns (ok: bool, da: real, d2: real)
    requires |aAlphas| == |das| == |d2as| && IsSquare(kijs, |aAlphas|) && IsSquare(inv, |aAlphas|)
    requires IsSquare(zProducts, |aAlphas|) && i < |aAlphas| && daIjs != d2Ijs
    requires daIjs.Length0 == daIjs.Length1 == |aAlphas|
    requires secondDerivative ==> d2Ijs.Length0 == d2Ijs.Length1 == |aAlphas|
    requires MatrixFilled(daIjs, DaMatrix(aAlphas, das, kijs, inv), |aAlphas|, i, i)
    requires secondDerivative ==> MatrixFilled(d2Ijs, D2Matrix(aAlphas, das, d2as, kijs, inv), |aAlphas|, i, i)
    modifies daIjs, d2Ijs
    ensures ok <==> RowDivisorsNonzero(aAlphas, inv, i, |aAlphas|)
    ensures ok ==> MatrixFilled(daIjs, DaMatrix(aAlphas, das, kijs, inv), |aAlphas|, i + 1, i + 1)
    ensures ok && secondDerivative ==> MatrixFilled(d2Ijs, D2Matrix(aAlphas, das, d2as, kijs, inv), |aAlphas|, i + 1, i + 1)
    ensures ok ==> da == da0 + UpperRowSum(DaMatrix(aAlphas, das, kijs, inv), zProducts, i, |aAlphas|)
    ensures ok ==> d2 == d20 + UpperRowSum(D2Matrix(aAlphas, das, d2as, kijs, inv), zProducts, i, |aAlphas|)
  {
    var n := |aAlphas|;
    ghost var dam, d2m := DaMatrix(aAlphas, das, kijs, inv), D2Matrix(aAlphas, das, d2as, kijs, inv);
    da, d2 := da0, d20;
    for j := i to n
      invariant RowDivisorsNonzero(aAlphas, inv, i, j)
      invariant MatrixFilled(daIjs, dam, n, i, j)
      invariant secondDerivative ==> MatrixFilled(d2Ijs, d2m, n, i, j)
      invariant da == da0 + UpperRowSum(dam, zProducts, i, j)
      invariant d2 == d20 + UpperRowSum(d2m, zProducts, i, j)
    {
      var pairOk, daTerm, d2Term := FillDerivativePair(daIjs, d2Ijs, aAlphas, das, d2as, zProducts, kijs, inv,
                                                        secondDerivative, i, j, dam, d2m);
      if !pairOk {
        return false, da, d2;
      }
      UpperRowSumStep(dam, zProducts, i, j, daTerm);
      UpperRowSumStep(d2m, zProducts, i, j, d2Term);
      da := if i != j then da + daTerm + daTerm else da + daTerm;
      d2 := if i != j then d2 + d2Term + d2Term else d2 + d2Term;
    }
    return true, da, d2;
  }

  /** What a_alpha_and_derivatives_full returns: (a alpha, its first and second temperature
      derivatives, the table of second derivatives when requested, the table of first
      derivatives, a_alpha_ijs). */
  datatype FullResult = FullResult(aAlpha: real, daAlphaDT: real, d2aAlphaDT2: real,
                                   d2aAlphaDT2Ijs: Option<Matrix>, daAlphaDTIjs: Matrix, aAlphaIjs: Matrix)

  /** The reference result of a_alpha_and_derivatives_full for the tables m = a_alpha_ijs and
      inv = a_alpha_ij_roots_inv: a alpha is the lower triangle of m with doubled off-diagonal
      terms, the derivatives are the quadratic forms of the symmetric derivative tables. */
  function FullTerms(aAlphas: seq<real>, das: seq<real>, d2as: seq<real>, zs: seq<real>, kijs: Matrix,
                     m: Matrix, inv: Matrix, secondDerivative: bool): FullResult
    requires |aAlphas| == |das| == |d2as| == |zs| && IsSquare(kijs, |zs|)
    requires IsSquare(m, |zs|) && IsSquare(inv, |zs|)
  {
    var dam := DaMatrix(aAlphas, das, kijs, inv);
    var d2m := D2Matrix(aAlphas, das, d2as, kijs, inv);
    FullResult(2.0 * StrictLower(zs, m, |zs|) + Diag(zs, m, |zs|),
               QuadraticForm(zs, dam), QuadraticForm(zs, d2m),
               if secondDerivative then Some(d2m) else None, dam, m)
  }

  /** The derivative loop of a_alpha_and_derivatives_full over all rows, on fresh zeroed
      buffers; false where a second-derivative divisor is zero. */
  method FillDerivativeTables(daIjs: array2<real>, d2Ijs: array2<real>, aAlphas: seq<real>, das: seq<real>,
                              d2as: seq<real>, zs: seq<real>, zProducts: Matrix, kijs: Matrix, inv: Matrix,
                              secondDerivative: bool)
    returns (ok: bool, da: real, d2: real)
    requires |aAlphas| == |das| == |d2as| == |zs| && IsSquare(kijs, |zs|) && IsSquare(inv, |zs|)
    requires IsZProducts(zProducts, zs) && daIjs != d2Ijs
    requires daIjs.Length0 == daIjs.Length1 == |zs|
    requires secondDerivative ==> d2Ijs.Length0 == d2Ijs.Length1 == |zs|
    requires MatrixFilled(daIjs, DaMatrix(aAlphas, das, kijs, inv), |zs|, 0, 0)
    requires secondDerivative ==> MatrixFilled(d2Ijs, D2Matrix(aAlphas, das, d2as, kijs, inv), |zs|, 0, 0)
    modifies daIjs, d2Ijs
    ensures ok <==> DivisorsNonzero(aAlphas, inv)
    ensures ok ==> MatrixFilled(daIjs, DaMatrix(aAlphas, das, kijs, inv), |zs|, |zs|, |zs|)
    ensures ok && secondDerivative ==> MatrixFilled(d2Ijs, D2Matrix(aAlphas, das, d2as, kijs, inv), |zs|, |zs|, |zs|)
    ensures ok ==> da == 2.0 * StrictUpper(zs, DaMatrix(aAlphas, das, kijs, inv), |zs|, |zs|) + Diag(zs, DaMatrix(aAlphas, das, kijs, inv), |zs|)
    ensures ok ==> d2 == 2.0 * StrictUpper(zs, D2Matrix(aAlphas, das, d2as, kijs, inv), |zs|, |zs|) + Diag(zs, D2Matrix(aAlphas, das, d2as, kijs, inv), |zs|)
  {
    var n := |zs|;
    ghost var dam, d2m := DaMatrix(aAlphas, das, kijs, inv), D2Matrix(aAlphas, das, d2as, kijs, inv);
    da, d2 := 0.0, 0.0;
    for i := 0 to n
      invariant forall p :: 0 <= p < i ==> RowDivisorsNonzero(aAlphas, inv, p, n)
      invariant MatrixFilled(daIjs, dam, n, i, i)
      invariant secondDerivative ==> MatrixFilled(d2Ijs, d2m, n, i, i)
      invariant da == 2.0 * StrictUpper(zs, dam, i, n) + Diag(zs, dam, i)
      invariant d2 == 2.0 * StrictUpper(zs, d2m, i, n) + Diag(zs, d2m, i)
    {
      var rowOk;
      rowOk, da, d2 := FillDerivativeRow(daIjs, d2Ijs, aAlphas, das, d2as, zProducts, kijs, inv, secondDerivative, i, da, d2);
      if !rowOk {
        return false, da, d2;
      }
      UpperRowDone(zs, zProducts, dam, i);
      UpperRowDone(zs, zProducts, d2m, i);
    }
    return true, da, d2;
  }

  /** A zeroed N x N buffer, about to be filled with the matrix m row by row:
      `[[0.0]*N for _ in cmps]` of eos_mix_methods.py:143 and :145. */
  method NewTable(n: nat, ghost m: Matrix) returns (a: array2<real>)
    requires IsSquare(m, n)
    ensures fresh(a) && a.Length0 == a.Length1 == n
    ensures MatrixFilled(a, m, n, 0, 0)
  {
    a := new real[n, n]((_, _) => 0.0);
  }

  /** The derivative part of a_alpha_and_derivatives_full for given tables: the symmetric
      tables of first and (when requested) second derivatives of the cross terms and their
      quadratic forms; false where a second-derivative divisor is zero. */
  method DerivativeSums(aAlphas: seq<real>, das: seq<real>, d2as: seq<real>, zs: seq<real>,
                        zProducts: Matrix, kijs: Matrix, inv: Matrix, secondDerivative: bool)
    returns (ok: bool, da: real, d2: real, daTable: Matrix, d2Table: Option<Matrix>)
    requires |aAlphas| == |das| == |d2as| == |zs| && IsSquare(kijs, |zs|) && IsSquare(inv, |zs|)
    requires IsZProducts(zProducts, zs)
    ensures ok <==> DivisorsNonzero(aAlphas, inv)
    ensures ok ==> da == QuadraticForm(zs, DaMatrix(aAlphas, das, kijs, inv))
    ensures ok ==> d2 == QuadraticForm(zs, D2Matrix(aAlphas, das, d2as, kijs, inv))
    ensures ok ==> daTable == DaMatrix(aAlphas, das, kijs, inv)
    ensures ok ==> d2Table == if secondDerivative then Some(D2Matrix(aAlphas, das, d2as, kijs, inv)) else None
  {
    var n := |zs|;
    ghost var dam, d2m := DaMatrix(aAlphas, das, kijs, inv), D2Matrix(aAlphas, das, d2as, kijs, inv);
    var daIjs := NewTable(n, dam);
    var d2Ijs: array2<real>;
    if secondDerivative {
      d2Ijs := NewTable(n, d2m);
    } else {
      d2Ijs := new real[0, 0];
    }
    ok, da, d2 := FillDerivativeTables(daIjs, d2Ijs, aAlphas, das, d2as, zs, zProducts, kijs, inv, secondDerivative);
    if !ok {
      return false, da, d2, [], None;
    }
    UpperTriangleForm(zs, dam);
    UpperTriangleForm(zs, d2m);
    SnapshotIs(daIjs, dam, n);
    daTable := Snapshot(daIjs);
    d2Table := None;
    if secondDerivative {
      SnapshotIs(d2Ijs, d2m, n);
      d2Table := Some(Snapshot(d2Ijs));
    }
  }

  /** a_alpha_and_derivatives_full: builds the tables unless all three caches are given,
      sums the lower triangle of a_alpha_ijs, then fills and sums the upper triangles of
      the tables of first and second temperature derivatives. A zero product of roots, or
      a zero divisor of a second derivative, raises ZeroDivisionError. */
  method AAlphaAndDerivativesFull(aAlphas: seq<real>, roots: seq<real>, das: seq<real>, d2as: seq<real>,
                                  T: real, zs: seq<real>, kijs: Matrix,
                                  aAlphaIjs: Option<Matrix>, aAlphaRoots: Option<seq<real>>,
                                  aAlphaIjRootsInv: Option<Matrix>, secondDerivative: bool)
    returns (r: Result<FullResult>)
    requires |aAlphas| == |roots| == |das| == |d2as| == |zs| && IsSquare(kijs, |zs|)
    requires CachesComplete(aAlphaIjs, aAlphaRoots, aAlphaIjRootsInv) ==>
      IsSquare(aAlphaIjs.value, |zs|) && IsSquare(aAlphaIjRootsInv.value, |zs|)
    ensures r.Err? ==> r.error == ZeroDivision
    ensures CachesComplete(aAlphaIjs, aAlphaRoots, aAlphaIjRootsInv) ==>
      (r.Err? <==> !DivisorsNonzero(aAlphas, aAlphaIjRootsInv.value)) &&
      (r.Ok? ==> r.value == FullTerms(aAlphas, das, d2as, zs, kijs, aAlphaIjs.value, aAlphaIjRootsInv.value, secondDerivative))
    ensures !CachesComplete(aAlphaIjs, aAlphaRoots, aAlphaIjRootsInv) ==>
      (r.Err? <==> !NoZeroRoot(roots) || !DivisorsNonzero(aAlphas, InvUpper(roots))) &&
      (r.Ok? ==> r.value == FullTerms(aAlphas, das, d2as, zs, kijs, UpperMix(roots, kijs), InvUpper(roots), secondDerivative))
  {
    var n := |zs|;
    var m: Matrix, inv: Matrix;
    if !CachesComplete(aAlphaIjs, aAlphaRoots, aAlphaIjRootsInv) {
      var built := AAlphaAijsCompositionIndependent(roots, kijs);
      if built.Err? {
        return Err(built.error);
      }
      m, inv := built.value.aAlphaIjs, built.value.aAlphaIjRootsInv;
    } else {
      m, inv := aAlphaIjs.value, aAlphaIjRootsInv.value;
    }
    var zProducts := seq(n, i requires 0 <= i < n => seq(n, j requires 0 <= j < n => zs[i] * zs[j]));
    var a := SumLowerTriangle(zs, zProducts, m);
    var ok, da, d2, daTable, d2Table := DerivativeSums(aAlphas, das, d2as, zs, zProducts, kijs, inv, secondDerivative);
    if !ok {
      return Err(ZeroDivision);
    }
    r := Ok(FullResult(a, da, d2, d2Table, daTable, m));
  }
}
