/** The matrices of pure-component cross terms (a alpha)_ij that the kernels
    of the mixing rule build or sum, and how they relate to the classical
    quadratic mixing rule (a alpha)_ij = (1 - k_ij) sqrt((a alpha)_i (a alpha)_j).

    Square roots are never taken: `roots[i]` stands for sqrt((a alpha)_i), and
    the lemmas that need the relation assume roots[i] * roots[i] == aAlphas[i]. */
module MixingMatrices {
  import opened QuadraticSums

  /** The mixing rule as written in the docstring of the kernels, read from the full kijs matrix. */
  function Mix(roots: seq<real>, kijs: Matrix): (m: Matrix)
    requires IsSquare(kijs, |roots|)
    ensures IsSquare(m, |roots|)
    ensures forall p, q :: 0 <= p < |roots| && 0 <= q < |roots| ==> m[p][q] == (1.0 - kijs[p][q]) * (roots[p] * roots[q])
  {
    seq(|roots|, p requires 0 <= p < |roots| =>
      seq(|roots|, q requires 0 <= q < |roots| => (1.0 - kijs[p][q]) * (roots[p] * roots[q])))
  }

  /** Cross term for the pair p <= q, with the interaction parameter of the upper triangle. */
  function UpperEntry(roots: seq<real>, kijs: Matrix, p: nat, q: nat): real
    requires IsSquare(kijs, |roots|) && p <= q < |roots|
  {
    (1.0 - kijs[p][q]) * (roots[p] * roots[q])
  }

  /** The matrix `a_alpha_ijs` filled from the upper triangle of kijs and mirrored. */
  function UpperMix(roots: seq<real>, kijs: Matrix): (m: Matrix)
    requires IsSquare(kijs, |roots|)
    ensures IsSquare(m, |roots|) && IsSymmetric(m)
    ensures forall p, q :: 0 <= p <= q < |roots| ==> m[p][q] == m[q][p] == UpperEntry(roots, kijs, p, q)
  {
    seq(|roots|, p requires 0 <= p < |roots| =>
      seq(|roots|, q requires 0 <= q < |roots| =>
        if p <= q then UpperEntry(roots, kijs, p, q) else UpperEntry(roots, kijs, q, p)))
  }

  /** Off-diagonal cross term for the pair q < p, with the interaction parameter of the lower triangle. */
  function LowerEntry(roots: seq<real>, kijs: Matrix, p: nat, q: nat): real
    requires IsSquare(kijs, |roots|) && q < p < |roots|
  {
    (1.0 - kijs[p][q]) * (roots[p] * roots[q])
  }

  /** The cross terms summed by `a_alpha_quadratic_terms`: the off-diagonal part is read
      from the lower triangle of kijs, the diagonal is (1 - k_ii) (a alpha)_i. */
  function TermsMatrix(aAlphas: seq<real>, roots: seq<real>, kijs: Matrix): (m: Matrix)
    requires |aAlphas| == |roots| && IsSquare(kijs, |roots|)
    ensures IsSquare(m, |roots|) && IsSymmetric(m)
    ensures forall p :: 0 <= p < |roots| ==> m[p][p] == (1.0 - kijs[p][p]) * aAlphas[p]
    ensures forall p, q :: 0 <= q < p < |roots| ==> m[p][q] == m[q][p] == LowerEntry(roots, kijs, p, q)
  {
    seq(|roots|, p requires 0 <= p < |roots| =>
      seq(|roots|, q requires 0 <= q < |roots| =>
        if p == q then (1.0 - kijs[p][p]) * aAlphas[p]
        else if q < p then LowerEntry(roots, kijs, p, q) else LowerEntry(roots, kijs, q, p)))
  }

  /** The cross terms summed by `a_alpha_and_derivatives_quadratic_terms`: as TermsMatrix,
      but the diagonal is (a alpha)_i, taking k_ii = 0. */
  function DerivTermsMatrix(aAlphas: seq<real>, roots: seq<real>, kijs: Matrix): (m: Matrix)
    requires |aAlphas| == |roots| && IsSquare(kijs, |roots|)
    ensures IsSquare(m, |roots|) && IsSymmetric(m)
    ensures forall p :: 0 <= p < |roots| ==> m[p][p] == aAlphas[p]
    ensures forall p, q :: 0 <= q < p < |roots| ==> m[p][q] == m[q][p] == LowerEntry(roots, kijs, p, q)
  {
    seq(|roots|, p requires 0 <= p < |roots| =>
      seq(|roots|, q requires 0 <= q < |roots| =>
        if p == q then aAlphas[p]
        else if q < p then LowerEntry(roots, kijs, p, q) else LowerEntry(roots, kijs, q, p)))
  }

  predicate RootsOf(roots: seq<real>, aAlphas: seq<real>)
  {
    |roots| == |aAlphas| && forall i :: 0 <= i < |roots| ==> roots[i] * roots[i] == aAlphas[i]
  }

  /** UpperMix never reads kijs below the diagonal. */
  lemma UpperMixReadsUpperTriangle(roots: seq<real>, kijs: Matrix, kijs': Matrix)
    requires IsSquare(kijs, |roots|) && IsSquare(kijs', |roots|)
    requires forall p, q :: 0 <= p <= q < |roots| ==> kijs[p][q] == kijs'[p][q]
    ensures UpperMix(roots, kijs) == UpperMix(roots, kijs')
  {
    var m, m' := UpperMix(roots, kijs), UpperMix(roots, kijs');
    forall p | 0 <= p < |roots| ensures m[p] == m'[p] {
      forall q | 0 <= q < |roots| ensures m[p][q] == m'[p][q] {
        if p <= q {
          assert m[p][q] == UpperEntry(roots, kijs, p, q);
        } else {
          assert m[p][q] == UpperEntry(roots, kijs, q, p);
        }
      }
    }
  }

  /** TermsMatrix never reads kijs above the diagonal. */
  lemma TermsMatrixReadsLowerTriangle(aAlphas: seq<real>, roots: seq<real>, kijs: Matrix, kijs': Matrix)
    requires |aAlphas| == |roots| && IsSquare(kijs, |roots|) && IsSquare(kijs', |roots|)
    requires forall p, q :: 0 <= q <= p < |roots| ==> kijs[p][q] == kijs'[p][q]
    ensures TermsMatrix(aAlphas, roots, kijs) == TermsMatrix(aAlphas, roots, kijs')
  {
    var m, m' := TermsMatrix(aAlphas, roots, kijs), TermsMatrix(aAlphas, roots, kijs');
    forall p | 0 <= p < |roots| ensures m[p] == m'[p] {
      forall q | 0 <= q < |roots| ensures m[p][q] == m'[p][q] {
        if q < p {
          assert m[p][q] == LowerEntry(roots, kijs, p, q);
        } else if p < q {
          assert m[p][q] == LowerEntry(roots, kijs, q, p);
        }
      }
    }
  }

  /** With symmetric kijs, the upper-triangle matrix is the docstring's mixing rule. */
  lemma UpperMixIsMix(roots: seq<real>, kijs: Matrix)
    requires IsSquare(kijs, |roots|) && IsSymmetric(kijs)
    ensures UpperMix(roots, kijs) == Mix(roots, kijs)
  {
    var m, m' := UpperMix(roots, kijs), Mix(roots, kijs);
    forall p | 0 <= p < |roots| ensures m[p] == m'[p] {
      forall q | 0 <= q < |roots| ensures m[p][q] == m'[p][q] {
        if q < p {
          assert m[p][q] == UpperEntry(roots, kijs, q, p);
        }
      }
    }
  }

  /** With symmetric kijs and roots that square to the attractive terms, the matrix of
      `a_alpha_quadratic_terms` is the docstring's mixing rule. */
  lemma TermsMatrixIsMix(aAlphas: seq<real>, roots: seq<real>, kijs: Matrix)
    requires RootsOf(roots, aAlphas) && IsSquare(kijs, |roots|) && IsSymmetric(kijs)
    ensures TermsMatrix(aAlphas, roots, kijs) == Mix(roots, kijs)
  {
    var m, m' := TermsMatrix(aAlphas, roots, kijs), Mix(roots, kijs);
    forall p | 0 <= p < |roots| ensures m[p] == m'[p] {
      forall q | 0 <= q < |roots| ensures m[p][q] == m'[p][q] {
        if q > p {
          assert m[p][q] == LowerEntry(roots, kijs, q, p);
        }
      }
    }
  }

  /** The derivative kernel's matrix agrees with TermsMatrix exactly when every k_ii
      is zero (for components whose attractive term is not zero). */
  lemma DerivTermsMatrixIsTermsMatrix(aAlphas: seq<real>, roots: seq<real>, kijs: Matrix)
    requires |aAlphas| == |roots| && IsSquare(kijs, |roots|)
    ensures (forall i :: 0 <= i < |roots| ==> kijs[i][i] == 0.0)
        ==> DerivTermsMatrix(aAlphas, roots, kijs) == TermsMatrix(aAlphas, roots, kijs)
    ensures DerivTermsMatrix(aAlphas, roots, kijs) == TermsMatrix(aAlphas, roots, kijs)
        ==> forall i :: 0 <= i < |roots| && aAlphas[i] != 0.0 ==> kijs[i][i] == 0.0
  {
    var m, m' := DerivTermsMatrix(aAlphas, roots, kijs), TermsMatrix(aAlphas, roots, kijs);
    if forall i :: 0 <= i < |roots| ==> kijs[i][i] == 0.0 {
      forall p | 0 <= p < |roots| ensures m[p] == m'[p] {
        forall q | 0 <= q < |roots| ensures m[p][q] == m'[p][q] {
          if p == q {
            assert m'[p][p] == (1.0 - kijs[p][p]) * aAlphas[p];
          }
        }
      }
    }
    if m == m' {
      forall i | 0 <= i < |roots| && aAlphas[i] != 0.0 ensures kijs[i][i] == 0.0 {
        assert m[i][i] == m'[i][i];
      }
    }
  }
}
