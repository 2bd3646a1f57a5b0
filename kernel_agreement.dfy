/** The full kernel `a_alpha_and_derivatives_full` (tables filled from the upper triangle,
    divisions through the stored inverses 1 / (root_i root_j)) and the row-sum kernel
    `a_alpha_and_derivatives_quadratic_terms` (lower triangle, inverses taken pair by pair)
    compute the same a alpha and the same two temperature derivatives, for symmetric kijs
    with k_ii = 0 and nonzero roots that square to the attractive terms. */
module KernelAgreement {
  import opened QuadraticSums
  import opened MixingMatrices
  import opened EosMixMethods
  import opened QuadraticDerivatives

  /** On the diagonal the full kernel's first derivative, -1/2 (k_ii - 1) 2 a_i da_i / a_i, is da_i. */
  lemma DaDiagonal(a: real, r: real, da: real, k: real)
    requires r != 0.0 && a == r * r && k == 0.0
    ensures -0.5 * (k - 1.0) * (a * da + a * da) * (1.0 / (r * r)) == da
  {
    assert (1.0 / (r * r)) * (r * r) == 1.0;
    calc {
      -0.5 * (k - 1.0) * (a * da + a * da) * (1.0 / (r * r));
      da * ((1.0 / (r * r)) * (r * r));
    }
  }

  /** Dividing by inv x0 x0 = rs^3 is multiplying by inv^3, for inv = 1 / rs and x0 = rs^2. */
  lemma CubeQuotient(inv: real, rs: real, x0: real, c: real, num: real)
    requires rs != 0.0 && inv == 1.0 / rs && x0 == rs * rs
    ensures inv * x0 * x0 == rs * rs * rs
    ensures c * (num / (inv * x0 * x0)) == inv * inv * (c * inv) * num
  {
    assert inv * rs == 1.0;
    calc {
      inv * x0 * x0;
      (inv * rs) * (rs * rs * rs);
    }
    var d := rs * rs * rs;
    assert d != 0.0;
    assert (num / d) * d == num;
    InverseCube(inv, rs, c, num);
    var lhs, rhs := c * (num / d), inv * inv * (c * inv) * num;
    assert lhs * d == c * ((num / d) * d);
    assert lhs * d == rhs * d;
  }

  /** On the diagonal the full kernel's second derivative, -(-a_i^3 d2a_i) / a_i^3, is d2a_i. */
  lemma D2Diagonal(a: real, r: real, da: real, d2: real, k: real)
    requires r != 0.0 && a == r * r && k == 0.0
    ensures var x0 := a * a;
            var x1x2 := a * da + a * da;
            var div := (1.0 / (r * r)) * (a * a) * (a * a);
            div != 0.0 &&
            (k - 1.0) * ((x0 * (-0.5 * (a * d2 + a * d2) - da * da) + 0.25 * x1x2 * x1x2) / div) == d2
  {
    var x0 := a * a;
    var x1x2 := a * da + a * da;
    var num := x0 * (-0.5 * (a * d2 + a * d2) - da * da) + 0.25 * x1x2 * x1x2;
    var div := (1.0 / (r * r)) * (a * a) * (a * a);
    assert (1.0 / (r * r)) * (r * r) == 1.0;
    assert div == a * a * a by {
      calc {
        div;
        ((1.0 / (r * r)) * (r * r)) * (a * a * a);
      }
    }
    assert a != 0.0;
    assert div != 0.0;
    assert num == -div * d2;
    assert (num / div) * div == num;
    assert (num / div + d2) * div == 0.0;
  }

  /** Off the diagonal the full kernel's second derivative of pair (lo, hi), divided by
      inv x0 x0, is the row-sum kernel's term of pair (hi, lo), multiplied by inv^3. */
  lemma D2OffDiagonal(al: real, ah: real, dl: real, dh: real, d2l: real, d2h: real, k: real, rs: real)
    requires rs != 0.0 && al * ah == rs * rs
    ensures var inv := 1.0 / rs;
            var x0 := al * ah;
            var x1x2 := al * dh + ah * dl;
            var x1x2' := ah * dl + al * dh;
            inv * x0 * x0 != 0.0 &&
            (k - 1.0) * ((x0 * (-0.5 * (al * d2h + ah * d2l) - dl * dh) + 0.25 * x1x2 * x1x2) / (inv * x0 * x0))
            == inv * inv * ((k - 1.0) * inv) * (ah * al * (-0.5 * (ah * d2l + al * d2h) - dh * dl) + 0.25 * x1x2' * x1x2')
  {
    var inv := 1.0 / rs;
    var x0 := al * ah;
    var x1x2 := al * dh + ah * dl;
    var x1x2' := ah * dl + al * dh;
    var num := x0 * (-0.5 * (al * d2h + ah * d2l) - dl * dh) + 0.25 * x1x2 * x1x2;
    assert x1x2' == x1x2;
    assert ah * al * (-0.5 * (ah * d2l + al * d2h) - dh * dl) == x0 * (-0.5 * (al * d2h + ah * d2l) - dl * dh);
    CubeQuotient(inv, rs, x0, k - 1.0, num);
  }

  /** Entry by entry, the full kernel's table of first derivatives is -1/2 times the matrix
      whose rows the row-sum kernel accumulates. */
  lemma DaTablesAgree(aAlphas: seq<real>, roots: seq<real>, das: seq<real>, kijs: Matrix, p: nat, q: nat)
    requires RootsOf(roots, aAlphas) && NoZeroRoot(roots) && |das| == |roots|
    requires IsSquare(kijs, |roots|) && IsSymmetric(kijs) && forall i :: 0 <= i < |roots| ==> kijs[i][i] == 0.0
    requires p < |roots| && q < |roots|
    ensures DaMatrix(aAlphas, das, kijs, InvUpper(roots))[p][q] == -0.5 * DaRowsMatrix(aAlphas, roots, das, kijs)[p][q]
  {
    var lo, hi := if p <= q then p else q, if p <= q then q else p;
    var inv := InvUpper(roots);
    assert roots[lo] * roots[hi] != 0.0;
    assert DaMatrix(aAlphas, das, kijs, inv)[p][q] == DaEntry(aAlphas, das, kijs, inv, lo, hi);
    assert inv[lo][hi] == 1.0 / (roots[lo] * roots[hi]);
    if p == q {
      assert DaRowsMatrix(aAlphas, roots, das, kijs)[p][p] == -das[p] - das[p];
      DaDiagonal(aAlphas[p], roots[p], das[p], kijs[p][p]);
    } else {
      assert DaRowsMatrix(aAlphas, roots, das, kijs)[p][q] == DaPairTerm(aAlphas, roots, das, kijs, hi, lo);
      assert kijs[hi][lo] == kijs[lo][hi];
      assert roots[hi] * roots[lo] == roots[lo] * roots[hi];
    }
  }

  /** The full kernel's second derivative of a pair lo < hi, from the stored inverse of
      root_lo root_hi, is the row-sum kernel's term of the pair (hi, lo). */
  lemma D2EntryIsPairTerm(aAlphas: seq<real>, roots: seq<real>, das: seq<real>, d2as: seq<real>, kijs: Matrix,
                          inv: Matrix, lo: nat, hi: nat)
    requires |aAlphas| == |roots| == |das| == |d2as| && IsSquare(kijs, |roots|) && IsSquare(inv, |roots|)
    requires lo < hi < |roots| && kijs[hi][lo] == kijs[lo][hi]
    requires roots[lo] * roots[hi] != 0.0 && inv[lo][hi] == 1.0 / (roots[lo] * roots[hi])
    requires aAlphas[lo] * aAlphas[hi] == (roots[lo] * roots[hi]) * (roots[lo] * roots[hi])
    ensures D2Entry(aAlphas, das, d2as, kijs, inv, lo, hi) == D2PairTerm(aAlphas, roots, das, d2as, kijs, hi, lo)
  {
    var rs := roots[lo] * roots[hi];
    var al, ah, dl, dh, d2l, d2h, k := aAlphas[lo], aAlphas[hi], das[lo], das[hi], d2as[lo], d2as[hi], kijs[lo][hi];
    var x0 := al * ah;
    var x1x2 := al * dh + ah * dl;
    var x1x2' := ah * dl + al * dh;
    var v0Inv := 1.0 / (roots[hi] * roots[lo]);
    assert roots[hi] * roots[lo] == rs;
    assert v0Inv == 1.0 / rs;
    assert D2Divisor(aAlphas, inv, lo, hi) == (1.0 / rs) * x0 * x0;
    D2OffDiagonal(al, ah, dl, dh, d2l, d2h, k, rs);
    assert D2Entry(aAlphas, das, d2as, kijs, inv, lo, hi)
        == (k - 1.0) * ((x0 * (-0.5 * (al * d2h + ah * d2l) - dl * dh) + 0.25 * x1x2 * x1x2) / ((1.0 / rs) * x0 * x0));
    assert D2PairTerm(aAlphas, roots, das, d2as, kijs, hi, lo)
        == v0Inv * v0Inv * ((k - 1.0) * v0Inv) * (ah * al * (-0.5 * (ah * d2l + al * d2h) - dh * dl) + 0.25 * x1x2' * x1x2');
  }

  /** On the diagonal the full kernel's second derivative, from the stored inverse of root_p^2, is d2a_p. */
  lemma D2EntryDiagonal(aAlphas: seq<real>, roots: seq<real>, das: seq<real>, d2as: seq<real>, kijs: Matrix,
                        inv: Matrix, p: nat)
    requires |aAlphas| == |roots| == |das| == |d2as| && IsSquare(kijs, |roots|) && IsSquare(inv, |roots|)
    requires p < |roots| && roots[p] != 0.0 && aAlphas[p] == roots[p] * roots[p] && kijs[p][p] == 0.0
    requires inv[p][p] == 1.0 / (roots[p] * roots[p])
    ensures D2Entry(aAlphas, das, d2as, kijs, inv, p, p) == d2as[p]
  {
    var a, r := aAlphas[p], roots[p];
    assert D2Divisor(aAlphas, inv, p, p) == (1.0 / (r * r)) * (a * a) * (a * a);
    D2Diagonal(a, r, das[p], d2as[p], kijs[p][p]);
  }

  /** The full kernel's second derivative of a pair lo <= hi is d2a_lo on the diagonal and the
      row-sum kernel's term of the pair (hi, lo) off it. */
  lemma D2EntriesAgree(aAlphas: seq<real>, roots: seq<real>, das: seq<real>, d2as: seq<real>, kijs: Matrix,
                       inv: Matrix, lo: nat, hi: nat)
    requires RootsOf(roots, aAlphas) && NoZeroRoot(roots) && |das| == |d2as| == |roots|
    requires IsSquare(kijs, |roots|) && IsSymmetric(kijs) && forall i :: 0 <= i < |roots| ==> kijs[i][i] == 0.0
    requires IsSquare(inv, |roots|) && lo <= hi < |roots| && inv[lo][hi] == 1.0 / (roots[lo] * roots[hi])
    ensures D2Entry(aAlphas, das, d2as, kijs, inv, lo, hi)
            == if lo == hi then d2as[lo] else D2PairTerm(aAlphas, roots, das, d2as, kijs, hi, lo)
  {
    assert roots[lo] != 0.0 && aAlphas[lo] == roots[lo] * roots[lo];
    if lo == hi {
      D2EntryDiagonal(aAlphas, roots, das, d2as, kijs, inv, lo);
    } else {
      assert roots[hi] != 0.0 && aAlphas[hi] == roots[hi] * roots[hi];
      SquaresProduct(roots[lo], roots[hi], aAlphas[lo], aAlphas[hi]);
      assert kijs[hi][lo] == kijs[lo][hi];
      D2EntryIsPairTerm(aAlphas, roots, das, d2as, kijs, inv, lo, hi);
    }
  }

  /** Entry by entry, the full kernel's table of second derivatives is the matrix whose
      weighted sum the row-sum kernel accumulates; none of its divisors is zero. */
  lemma D2TablesAgree(aAlphas: seq<real>, roots: seq<real>, das: seq<real>, d2as: seq<real>, kijs: Matrix,
                      p: nat, q: nat)
    requires RootsOf(roots, aAlphas) && NoZeroRoot(roots) && |das| == |d2as| == |roots|
    requires IsSquare(kijs, |roots|) && IsSymmetric(kijs) && forall i :: 0 <= i < |roots| ==> kijs[i][i] == 0.0
    requires p < |roots| && q < |roots|
    ensures D2Matrix(aAlphas, das, d2as, kijs, InvUpper(roots))[p][q] == D2RowsMatrix(aAlphas, roots, das, d2as, kijs)[p][q]
  {
    var lo, hi := if p <= q then p else q, if p <= q then q else p;
    var inv := InvUpper(roots);
    assert roots[lo] * roots[hi] != 0.0;
    assert inv[lo][hi] == 1.0 / (roots[lo] * roots[hi]);
    D2EntriesAgree(aAlphas, roots, das, d2as, kijs, inv, lo, hi);
    assert D2Matrix(aAlphas, das, d2as, kijs, inv)[p][q] == D2Entry(aAlphas, das, d2as, kijs, inv, lo, hi);
    if p != q {
      assert D2RowsMatrix(aAlphas, roots, das, d2as, kijs)[p][q] == D2PairTerm(aAlphas, roots, das, d2as, kijs, hi, lo);
    }
  }

  /** The full kernel's a_alpha_ijs, filled from the upper triangle, is the row-sum kernel's
      matrix, which reads the lower triangle and takes (a alpha)_i on the diagonal. */
  lemma MixTablesAgree(aAlphas: seq<real>, roots: seq<real>, kijs: Matrix)
    requires RootsOf(roots, aAlphas) && IsSquare(kijs, |roots|) && IsSymmetric(kijs)
    requires forall i :: 0 <= i < |roots| ==> kijs[i][i] == 0.0
    ensures UpperMix(roots, kijs) == DerivTermsMatrix(aAlphas, roots, kijs)
  {
    var n := |roots|;
    var um, am := UpperMix(roots, kijs), DerivTermsMatrix(aAlphas, roots, kijs);
    forall p | 0 <= p < n ensures um[p] == am[p] {
      forall q | 0 <= q < n ensures um[p][q] == am[p][q] {
        if q < p {
          assert um[p][q] == UpperEntry(roots, kijs, q, p);
          assert kijs[q][p] == kijs[p][q];
        } else if p < q {
          assert um[p][q] == UpperEntry(roots, kijs, p, q);
          assert kijs[q][p] == kijs[p][q];
        } else {
          assert um[p][p] == UpperEntry(roots, kijs, p, p);
        }
      }
    }
  }

  /** The full kernel's first derivative is -1/2 the weighted sum of the row-sum kernel's matrix. */
  lemma DaFormsAgree(aAlphas: seq<real>, roots: seq<real>, das: seq<real>, zs: seq<real>, kijs: Matrix)
    requires |aAlphas| == |roots| == |das| == |zs| && IsSquare(kijs, |zs|) && IsSymmetric(kijs)
    requires RootsOf(roots, aAlphas) && NoZeroRoot(roots)
    requires forall i :: 0 <= i < |zs| ==> kijs[i][i] == 0.0
    ensures QuadraticForm(zs, DaMatrix(aAlphas, das, kijs, InvUpper(roots)))
            == -0.5 * QuadraticForm(zs, DaRowsMatrix(aAlphas, roots, das, kijs))
  {
    var n := |zs|;
    var dm, dr := DaMatrix(aAlphas, das, kijs, InvUpper(roots)), DaRowsMatrix(aAlphas, roots, das, kijs);
    forall p, q | 0 <= p < n && 0 <= q < n ensures dm[p][q] == -0.5 * dr[p][q] {
      DaTablesAgree(aAlphas, roots, das, kijs, p, q);
    }
    BlockScale(zs, dr, dm, -0.5, n);
  }

  /** The full kernel's table of second derivatives is the row-sum kernel's matrix. */
  lemma D2MatricesAgree(aAlphas: seq<real>, roots: seq<real>, das: seq<real>, d2as: seq<real>, kijs: Matrix)
    requires |aAlphas| == |roots| == |das| == |d2as| && IsSquare(kijs, |roots|) && IsSymmetric(kijs)
    requires RootsOf(roots, aAlphas) && NoZeroRoot(roots)
    requires forall i :: 0 <= i < |roots| ==> kijs[i][i] == 0.0
    ensures D2Matrix(aAlphas, das, d2as, kijs, InvUpper(roots)) == D2RowsMatrix(aAlphas, roots, das, d2as, kijs)
  {
    var n := |roots|;
    var d2m, d2r := D2Matrix(aAlphas, das, d2as, kijs, InvUpper(roots)), D2RowsMatrix(aAlphas, roots, das, d2as, kijs);
    forall p | 0 <= p < n ensures d2m[p] == d2r[p] {
      forall q | 0 <= q < n ensures d2m[p][q] == d2r[p][q] {
        D2TablesAgree(aAlphas, roots, das, d2as, kijs, p, q);
      }
    }
  }

  /** With the tables built from such roots, the full kernel meets no zero divisor and the
      row-sum kernel no zero product of roots, and the two return the same a alpha, the same
      first temperature derivative and the same second temperature derivative. */
  lemma FullAndQuadraticTermsAgree(aAlphas: seq<real>, roots: seq<real>, das: seq<real>, d2as: seq<real>,
                                   zs: seq<real>, kijs: Matrix, secondDerivative: bool)
    requires |aAlphas| == |roots| == |das| == |d2as| == |zs| && IsSquare(kijs, |zs|) && IsSymmetric(kijs)
    requires RootsOf(roots, aAlphas) && NoZeroRoot(roots)
    requires forall i :: 0 <= i < |zs| ==> kijs[i][i] == 0.0
    ensures DivisorsNonzero(aAlphas, InvUpper(roots)) && PairsNonzero(roots)
    ensures var full := FullTerms(aAlphas, das, d2as, zs, kijs, UpperMix(roots, kijs), InvUpper(roots), secondDerivative);
            full.aAlpha == QuadraticForm(zs, DerivTermsMatrix(aAlphas, roots, kijs)) &&
            full.daAlphaDT == -0.5 * QuadraticForm(zs, DaRowsMatrix(aAlphas, roots, das, kijs)) &&
            full.d2aAlphaDT2 == QuadraticForm(zs, D2RowsMatrix(aAlphas, roots, das, d2as, kijs))
  {
    BuiltTablesDivisorsNonzero(aAlphas, roots);
    forall p, q | 0 <= q < p < |zs| ensures NonzeroPair(roots, p, q) {
      assert roots[p] != 0.0 && roots[q] != 0.0;
    }
    MixTablesAgree(aAlphas, roots, kijs);
    LowerTriangleForm(zs, UpperMix(roots, kijs));
    DaFormsAgree(aAlphas, roots, das, zs, kijs);
    D2MatricesAgree(aAlphas, roots, das, d2as, kijs);
  }
}
