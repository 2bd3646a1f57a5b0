/** The kernel `a_alpha_and_derivatives_quadratic_terms`: a alpha, its first and second
    temperature derivatives, and the row sums of a alpha and of its first derivative.
    It visits each pair j < i once, reads the lower triangle of kijs, divides by
    root_i root_j (raising ZeroDivisionError when that product is 0), and takes
    k_ii = 0 on the diagonal. */
module QuadraticDerivatives {
  import opened Outcomes
  import opened QuadraticSums
  import opened MixingMatrices
  import opened QuadraticTerms
  import EosMixMethods

  /** What the kernel returns, in its order. */
  datatype DerivTerms = DerivTerms(aAlpha: real, daAlphaDT: real, d2aAlphaDT2: real,
                                   aAlphaJRows: seq<real>, daAlphaDTJRows: seq<real>)

  /** The cross term of the first derivative for a pair q < p, before the common factor
      -1/2 the kernel applies at the end: (a_p da_q + a_q da_p) (k_pq - 1) / (root_p root_q).
      It is 0 where root_p root_q is 0, a case in which the kernel raises instead. */
  function DaPairTerm(aAlphas: seq<real>, roots: seq<real>, das: seq<real>, kijs: Matrix, p: nat, q: nat): real
    requires |aAlphas| == |roots| == |das| && IsSquare(kijs, |roots|) && p < |roots| && q < |roots|
  {
    var v0 := roots[p] * roots[q];
    if v0 == 0.0 then 0.0
    else (aAlphas[p] * das[q] + aAlphas[q] * das[p]) * ((kijs[p][q] - 1.0) * (1.0 / v0))
  }

  /** The cross term of the second derivative for a pair q < p, as the kernel computes it
      from v0 = root_p root_q; 0 where v0 is 0. */
  function D2PairTerm(aAlphas: seq<real>, roots: seq<real>, das: seq<real>, d2as: seq<real>, kijs: Matrix,
                      p: nat, q: nat): real
    requires |aAlphas| == |roots| == |das| == |d2as| && IsSquare(kijs, |roots|) && p < |roots| && q < |roots|
  {
    var v0 := roots[p] * roots[q];
    if v0 == 0.0 then 0.0
    else
      var v0Inv := 1.0 / v0;
      var v1 := (kijs[p][q] - 1.0) * v0Inv;
      var x1x2 := aAlphas[p] * das[q] + aAlphas[q] * das[p];
      v0Inv * v0Inv * v1 * (aAlphas[p] * aAlphas[q] * (-0.5 * (aAlphas[p] * d2as[q] + aAlphas[q] * d2as[p]) - das[p] * das[q])
                            + 0.25 * x1x2 * x1x2)
  }

  /** The matrix whose rows the first-derivative row loop sums, before the factor -1/2:
      DaPairTerm below the diagonal, mirrored above it, -2 da_p on the diagonal. */
  function DaRowsMatrix(aAlphas: seq<real>, roots: seq<real>, das: seq<real>, kijs: Matrix): (m: Matrix)
    requires |aAlphas| == |roots| == |das| && IsSquare(kijs, |roots|)
    ensures IsSquare(m, |roots|) && IsSymmetric(m)
  {
    seq(|roots|, p requires 0 <= p < |roots| =>
      seq(|roots|, q requires 0 <= q < |roots| =>
        if p == q then -das[p] - das[p]
        else if q < p then DaPairTerm(aAlphas, roots, das, kijs, p, q) else DaPairTerm(aAlphas, roots, das, kijs, q, p)))
  }

  /** The matrix of second-derivative terms: D2PairTerm below the diagonal, mirrored above
      it, d2a_p on the diagonal. */
  function D2RowsMatrix(aAlphas: seq<real>, roots: seq<real>, das: seq<real>, d2as: seq<real>, kijs: Matrix): (m: Matrix)
    requires |aAlphas| == |roots| == |das| == |d2as| && IsSquare(kijs, |roots|)
    ensures IsSquare(m, |roots|) && IsSymmetric(m)
  {
    seq(|roots|, p requires 0 <= p < |roots| =>
      seq(|roots|, q requires 0 <= q < |roots| =>
        if p == q then d2as[p]
        else if q < p then D2PairTerm(aAlphas, roots, das, d2as, kijs, p, q)
        else D2PairTerm(aAlphas, roots, das, d2as, kijs, q, p)))
  }

  /** Whether root_p root_q is nonzero, so that the kernel can divide by it. */
  predicate NonzeroPair(roots: seq<real>, p: nat, q: nat)
    requires p < |roots| && q < |roots|
  {
    roots[p] * roots[q] != 0.0
  }

  /** Whether every pair q < p the kernel visits has a nonzero product of roots. */
  predicate PairsNonzero(roots: seq<real>)
  {
    forall p, q :: 0 <= q < p < |roots| ==> NonzeroPair(roots, p, q)
  }

  /** Entry (p, q), q < p, of the three matrices the kernel realises, and its mirror. */
  predicate EntryAt(aAlphas: seq<real>, roots: seq<real>, das: seq<real>, d2as: seq<real>, kijs: Matrix,
                    am: Matrix, dm: Matrix, d2m: Matrix, p: nat, q: nat)
    requires |aAlphas| == |roots| == |das| == |d2as| && IsSquare(kijs, |roots|)
    requires IsSquare(am, |roots|) && IsSquare(dm, |roots|) && IsSquare(d2m, |roots|) && q < p < |roots|
  {
    am[p][q] == am[q][p] == LowerEntry(roots, kijs, p, q) &&
    dm[p][q] == dm[q][p] == DaPairTerm(aAlphas, roots, das, kijs, p, q) &&
    d2m[p][q] == D2PairTerm(aAlphas, roots, das, d2as, kijs, p, q)
  }

  /** The diagonal entry p of the three matrices: k_pp is taken as 0. */
  predicate DiagAt(aAlphas: seq<real>, das: seq<real>, d2as: seq<real>, am: Matrix, dm: Matrix, d2m: Matrix, p: nat)
    requires |aAlphas| == |das| == |d2as| && IsSquare(am, |aAlphas|) && IsSquare(dm, |aAlphas|)
    requires IsSquare(d2m, |aAlphas|) && p < |aAlphas|
  {
    am[p][p] == aAlphas[p] && dm[p][p] == -das[p] - das[p] && d2m[p][p] == d2as[p]
  }

  /** The three matrices of the kernel have the entries EntryAt and DiagAt describe. */
  lemma MatricesEntries(aAlphas: seq<real>, roots: seq<real>, das: seq<real>, d2as: seq<real>, kijs: Matrix)
    requires |aAlphas| == |roots| == |das| == |d2as| && IsSquare(kijs, |roots|)
    ensures forall p, q :: 0 <= q < p < |roots| ==>
      EntryAt(aAlphas, roots, das, d2as, kijs, DerivTermsMatrix(aAlphas, roots, kijs),
              DaRowsMatrix(aAlphas, roots, das, kijs), D2RowsMatrix(aAlphas, roots, das, d2as, kijs), p, q)
    ensures forall p :: 0 <= p < |roots| ==>
      DiagAt(aAlphas, das, d2as, DerivTermsMatrix(aAlphas, roots, kijs),
             DaRowsMatrix(aAlphas, roots, das, kijs), D2RowsMatrix(aAlphas, roots, das, d2as, kijs), p)
  {
  }

  /** Closing row i of a lower-triangle sum whose row terms z_i z_q m_iq, q < i, were
      accumulated one by one: twice those terms and the diagonal term complete the row. */
  lemma LowerRowClose(zs: seq<real>, m: Matrix, i: nat, terms: real, diag: real)
    requires IsSquare(m, |zs|) && i < |zs| && terms == RowTerms(zs, m[i], zs[i], 0, i)
    requires diag == m[i][i] * (zs[i] * zs[i])
    ensures 2.0 * StrictLower(zs, m, i + 1) + Diag(zs, m, i + 1)
            == 2.0 * StrictLower(zs, m, i) + Diag(zs, m, i) + (terms + terms) + diag
  {
    RowTermsIsScaledDot(zs, m[i], zs[i], 0, i);
  }

  /** The derivative terms of pair (i, j), j < i, as the inner loop computes them from
      v0 = root_i root_j (eos_mix_methods.py:326-354). What the two terms mean is proved
      about DaPairTerm and D2PairTerm by DaRowsEntryIsDerivative and D2RowsEntryIsDerivative. */
  method PairDerivatives(aAlphas: seq<real>, roots: seq<real>, das: seq<real>, d2as: seq<real>, kijs: Matrix,
                         i: nat, j: nat, v0: real)
    returns (daIJ: real, d2IJ: real)
    requires |aAlphas| == |roots| == |das| == |d2as| && IsSquare(kijs, |roots|) && j < i < |roots|
    requires v0 == roots[i] * roots[j] && v0 != 0.0
    ensures daIJ == DaPairTerm(aAlphas, roots, das, kijs, i, j)
    ensures d2IJ == D2PairTerm(aAlphas, roots, das, d2as, kijs, i, j)
  {
    var x1 := aAlphas[i] * das[j];
    var x2 := aAlphas[j] * das[i];
    var x1x2 := x1 + x2;
    var kijM1 := kijs[i][j] - 1.0;
    var v0Inv := 1.0 / v0;
    var v1 := kijM1 * v0Inv;
    daIJ := x1x2 * v1;
    var x0 := aAlphas[i] * aAlphas[j];
    d2IJ := v0Inv * v0Inv * v1 * (x0 * (-0.5 * (aAlphas[i] * d2as[j] + aAlphas[j] * d2as[i]) - das[i] * das[j])
                                  + 0.25 * x1x2 * x1x2);
  }

  /** The body of the inner loop for pair (i, j), j < i: adds the pair's a alpha term to
      rows i and j and returns it weighted by z_i z_j; then, unless root_i root_j is 0 (where
      the kernel raises), does the same for the first derivative and returns the weighted
      second-derivative term. */
  method VisitPair(aRows: array<real>, daRows: array<real>, aAlphas: seq<real>, roots: seq<real>,
                   das: seq<real>, d2as: seq<real>, zs: seq<real>, kijs: Matrix,
                   ghost am: Matrix, ghost dm: Matrix, ghost d2m: Matrix, i: nat, j: nat)
    returns (ok: bool, aTerm: real, daTerm: real, d2Term: real)
    requires |aAlphas| == |roots| == |das| == |d2as| == |zs| == aRows.Length == daRows.Length
    requires IsSquare(kijs, |zs|) && aRows != daRows && j < i < |zs|
    requires IsSquare(am, |zs|) && IsSquare(dm, |zs|) && IsSquare(d2m, |zs|)
    requires EntryAt(aAlphas, roots, das, d2as, kijs, am, dm, d2m, i, j)
    requires forall p :: 0 <= p < |zs| ==> aRows[p] == PartialRow(zs, am, i, j, p)
    requires forall p :: 0 <= p < |zs| ==> daRows[p] == PartialRow(zs, dm, i, j, p)
    modifies aRows, daRows
    ensures ok <==> NonzeroPair(roots, i, j)
    ensures ok ==> forall p :: 0 <= p < |zs| ==> aRows[p] == PartialRow(zs, am, i, j + 1, p)
    ensures ok ==> forall p :: 0 <= p < |zs| ==> daRows[p] == PartialRow(zs, dm, i, j + 1, p)
    ensures ok ==> aTerm == am[i][j] * zs[i] * zs[j]
    ensures ok ==> daTerm == dm[i][j] * zs[i] * zs[j] && d2Term == d2m[i][j] * zs[i] * zs[j]
  {
    var v0 := roots[i] * roots[j];
    var aIJ := (1.0 - kijs[i][j]) * v0;
    aTerm := aIJ * zs[i];
    AddPair(aRows, zs, am, i, j, aTerm, zs[j] * aIJ);
    aTerm := aTerm * zs[j];
    if v0 == 0.0 {
      return false, aTerm, 0.0, 0.0;
    }
    var daIJ, d2IJ := PairDerivatives(aAlphas, roots, das, d2as, kijs, i, j, v0);
    AddPair(daRows, zs, dm, i, j, zs[i] * daIJ, zs[j] * daIJ);
    var ziZj := zs[i] * zs[j];
    daTerm := daIJ * ziZj;
    d2Term := d2IJ * ziZj;
    ok := true;
  }

  /** The inner loop of row i: the pairs (i, j), j < i. It adds twice row i's strict lower
      terms of am, weighted by z_i z_j, to a alpha and returns those of dm and d2m, or fails
      at a pair whose product of roots is 0. */
  method RowPairs(aRows: array<real>, daRows: array<real>, aAlphas: seq<real>, roots: seq<real>,
                  das: seq<real>, d2as: seq<real>, zs: seq<real>, kijs: Matrix,
                  ghost am: Matrix, ghost dm: Matrix, ghost d2m: Matrix, i: nat, aAlpha: real)
    returns (ok: bool, aAlpha': real, workingD1: real, workingS2: real)
    requires |aAlphas| == |roots| == |das| == |d2as| == |zs| == aRows.Length == daRows.Length
    requires IsSquare(kijs, |zs|) && aRows != daRows && i < |zs|
    requires IsSquare(am, |zs|) && IsSquare(dm, |zs|) && IsSquare(d2m, |zs|)
    requires forall q :: 0 <= q < i ==> EntryAt(aAlphas, roots, das, d2as, kijs, am, dm, d2m, i, q)
    requires forall p :: 0 <= p < |zs| ==> aRows[p] == PartialRow(zs, am, i, 0, p)
    requires forall p :: 0 <= p < |zs| ==> daRows[p] == PartialRow(zs, dm, i, 0, p)
    modifies aRows, daRows
    ensures ok <==> forall q :: 0 <= q < i ==> NonzeroPair(roots, i, q)
    ensures ok ==> forall p :: 0 <= p < |zs| ==> aRows[p] == PartialRow(zs, am, i, i, p)
    ensures ok ==> forall p :: 0 <= p < |zs| ==> daRows[p] == PartialRow(zs, dm, i, i, p)
    ensures ok ==> aAlpha' == aAlpha + 2.0 * RowTerms(zs, am[i], zs[i], 0, i)
    ensures ok ==> workingD1 == RowTerms(zs, dm[i], zs[i], 0, i)
    ensures ok ==> workingS2 == RowTerms(zs, d2m[i], zs[i], 0, i)
  {
    aAlpha', workingD1, workingS2 := aAlpha, 0.0, 0.0;
    for j := 0 to i
      invariant forall p :: 0 <= p < |zs| ==> aRows[p] == PartialRow(zs, am, i, j, p)
      invariant forall p :: 0 <= p < |zs| ==> daRows[p] == PartialRow(zs, dm, i, j, p)
      invariant aAlpha' == aAlpha + 2.0 * RowTerms(zs, am[i], zs[i], 0, j)
      invariant workingD1 == RowTerms(zs, dm[i], zs[i], 0, j)
      invariant workingS2 == RowTerms(zs, d2m[i], zs[i], 0, j)
      invariant forall q :: 0 <= q < j ==> NonzeroPair(roots, i, q)
    {
      var aTerm, daTerm, d2Term;
      ok, aTerm, daTerm, d2Term := VisitPair(aRows, daRows, aAlphas, roots, das, d2as, zs, kijs, am, dm, d2m, i, j);
      aAlpha' := aAlpha' + aTerm + aTerm;
      if !ok {
        return;
      }
      workingD1 := workingD1 + daTerm;
      workingS2 := workingS2 + d2Term;
    }
    ok := true;
  }

  /** Row i of the kernel's outer loop: the pairs (i, j), j < i, then the diagonal term.
      It adds row i of the lower triangle of am, dm and d2m to the three sums (the first
      derivative scaled by -1/2), or fails at a pair whose product of roots is 0. */
  method DerivativeRow(aRows: array<real>, daRows: array<real>, aAlphas: seq<real>, roots: seq<real>,
                       das: seq<real>, d2as: seq<real>, zs: seq<real>, kijs: Matrix,
                       ghost am: Matrix, ghost dm: Matrix, ghost d2m: Matrix, i: nat,
                       aAlpha: real, daAlphaDT: real, d2aAlphaDT2: real)
    returns (ok: bool, aAlpha': real, daAlphaDT': real, d2aAlphaDT2': real)
    requires |aAlphas| == |roots| == |das| == |d2as| == |zs| == aRows.Length == daRows.Length
    requires IsSquare(kijs, |zs|) && aRows != daRows && i < |zs|
    requires IsSquare(am, |zs|) && IsSquare(dm, |zs|) && IsSquare(d2m, |zs|)
    requires forall q :: 0 <= q < i ==> EntryAt(aAlphas, roots, das, d2as, kijs, am, dm, d2m, i, q)
    requires DiagAt(aAlphas, das, d2as, am, dm, d2m, i)
    requires forall p :: 0 <= p < |zs| ==> aRows[p] == PartialRow(zs, am, i, 0, p)
    requires forall p :: 0 <= p < |zs| ==> daRows[p] == PartialRow(zs, dm, i, 0, p)
    requires aAlpha == 2.0 * StrictLower(zs, am, i) + Diag(zs, am, i)
    requires daAlphaDT == -0.5 * (2.0 * StrictLower(zs, dm, i) + Diag(zs, dm, i))
    requires d2aAlphaDT2 == 2.0 * StrictLower(zs, d2m, i) + Diag(zs, d2m, i)
    modifies aRows, daRows
    ensures ok <==> forall q :: 0 <= q < i ==> NonzeroPair(roots, i, q)
    ensures ok ==> forall p :: 0 <= p < |zs| ==> aRows[p] == PartialRow(zs, am, i + 1, 0, p)
    ensures ok ==> forall p :: 0 <= p < |zs| ==> daRows[p] == PartialRow(zs, dm, i + 1, 0, p)
    ensures ok ==> aAlpha' == 2.0 * StrictLower(zs, am, i + 1) + Diag(zs, am, i + 1)
    ensures ok ==> daAlphaDT' == -0.5 * (2.0 * StrictLower(zs, dm, i + 1) + Diag(zs, dm, i + 1))
    ensures ok ==> d2aAlphaDT2' == 2.0 * StrictLower(zs, d2m, i + 1) + Diag(zs, d2m, i + 1)
  {
    var workingD1, workingS2;
    ok, aAlpha', workingD1, workingS2 := RowPairs(aRows, daRows, aAlphas, roots, das, d2as, zs, kijs, am, dm, d2m, i, aAlpha);
    if !ok {
      return ok, aAlpha', daAlphaDT, d2aAlphaDT2;
    }
    aAlpha', daAlphaDT', d2aAlphaDT2' := DiagonalStep(aRows, daRows, aAlphas, das, d2as, zs, am, dm, d2m, i,
                                                      aAlpha', daAlphaDT, d2aAlphaDT2, workingD1, workingS2);
  }

  /** The step that closes row i of the kernel's outer loop: the diagonal term (k_ii = 0)
      goes into both row vectors and the three sums, with the row's off-diagonal terms of
      the two derivatives counted twice. */
  method DiagonalStep(aRows: array<real>, daRows: array<real>, aAlphas: seq<real>, das: seq<real>,
                      d2as: seq<real>, zs: seq<real>, ghost am: Matrix, ghost dm: Matrix, ghost d2m: Matrix,
                      i: nat, aAlpha: real, daAlphaDT: real, d2aAlphaDT2: real, workingD1: real, workingS2: real)
    returns (aAlpha': real, daAlphaDT': real, d2aAlphaDT2': real)
    requires |aAlphas| == |das| == |d2as| == |zs| == aRows.Length == daRows.Length
    requires aRows != daRows && i < |zs|
    requires IsSquare(am, |zs|) && IsSquare(dm, |zs|) && IsSquare(d2m, |zs|)
    requires DiagAt(aAlphas, das, d2as, am, dm, d2m, i)
    requires forall p :: 0 <= p < |zs| ==> aRows[p] == PartialRow(zs, am, i, i, p)
    requires forall p :: 0 <= p < |zs| ==> daRows[p] == PartialRow(zs, dm, i, i, p)
    requires aAlpha == 2.0 * StrictLower(zs, am, i) + Diag(zs, am, i) + 2.0 * RowTerms(zs, am[i], zs[i], 0, i)
    requires daAlphaDT == -0.5 * (2.0 * StrictLower(zs, dm, i) + Diag(zs, dm, i))
    requires d2aAlphaDT2 == 2.0 * StrictLower(zs, d2m, i) + Diag(zs, d2m, i)
    requires workingD1 == RowTerms(zs, dm[i], zs[i], 0, i) && workingS2 == RowTerms(zs, d2m[i], zs[i], 0, i)
    modifies aRows, daRows
    ensures forall p :: 0 <= p < |zs| ==> aRows[p] == PartialRow(zs, am, i + 1, 0, p)
    ensures forall p :: 0 <= p < |zs| ==> daRows[p] == PartialRow(zs, dm, i + 1, 0, p)
    ensures aAlpha' == 2.0 * StrictLower(zs, am, i + 1) + Diag(zs, am, i + 1)
    ensures daAlphaDT' == -0.5 * (2.0 * StrictLower(zs, dm, i + 1) + Diag(zs, dm, i + 1))
    ensures d2aAlphaDT2' == 2.0 * StrictLower(zs, d2m, i + 1) + Diag(zs, d2m, i + 1)
  {
    aAlpha' := CloseAlphaRow(aRows, aAlphas, zs, am, i, aAlpha);
    daAlphaDT' := CloseDaRow(daRows, das, zs, dm, i, daAlphaDT, workingD1);
    var ziZj := zs[i] * zs[i];
    assert d2as[i] * ziZj == d2m[i][i] * (zs[i] * zs[i]);
    LowerRowClose(zs, d2m, i, workingS2, d2as[i] * ziZj);
    d2aAlphaDT2' := d2aAlphaDT2 + d2as[i] * ziZj + (workingS2 + workingS2);
  }

  /** The diagonal term (a alpha)_i z_i of row i, added to row i and, weighted by z_i, to a alpha. */
  method CloseAlphaRow(aRows: array<real>, aAlphas: seq<real>, zs: seq<real>, ghost am: Matrix, i: nat, aAlpha: real)
    returns (aAlpha': real)
    requires |aAlphas| == |zs| == aRows.Length && IsSquare(am, |zs|) && i < |zs| && am[i][i] == aAlphas[i]
    requires forall p :: 0 <= p < |zs| ==> aRows[p] == PartialRow(zs, am, i, i, p)
    requires aAlpha == 2.0 * StrictLower(zs, am, i) + Diag(zs, am, i) + 2.0 * RowTerms(zs, am[i], zs[i], 0, i)
    modifies aRows
    ensures forall p :: 0 <= p < |zs| ==> aRows[p] == PartialRow(zs, am, i + 1, 0, p)
    ensures aAlpha' == 2.0 * StrictLower(zs, am, i + 1) + Diag(zs, am, i + 1)
  {
    var t200 := aAlphas[i] * zs[i];
    CloseRow(aRows, zs, am, i, t200);
    assert t200 * zs[i] == am[i][i] * (zs[i] * zs[i]);
    LowerRowClose(zs, am, i, RowTerms(zs, am[i], zs[i], 0, i), t200 * zs[i]);
    aAlpha' := aAlpha + t200 * zs[i];
  }

  /** The diagonal term -2 da_i of row i of the first derivative, added to row i weighted by
      z_i, and to the first derivative with the row's off-diagonal terms twice, all times -1/2. */
  method CloseDaRow(daRows: array<real>, das: seq<real>, zs: seq<real>, ghost dm: Matrix, i: nat,
                    daAlphaDT: real, workingD1: real)
    returns (daAlphaDT': real)
    requires |das| == |zs| == daRows.Length && IsSquare(dm, |zs|) && i < |zs| && dm[i][i] == -das[i] - das[i]
    requires forall p :: 0 <= p < |zs| ==> daRows[p] == PartialRow(zs, dm, i, i, p)
    requires daAlphaDT == -0.5 * (2.0 * StrictLower(zs, dm, i) + Diag(zs, dm, i))
    requires workingD1 == RowTerms(zs, dm[i], zs[i], 0, i)
    modifies daRows
    ensures forall p :: 0 <= p < |zs| ==> daRows[p] == PartialRow(zs, dm, i + 1, 0, p)
    ensures daAlphaDT' == -0.5 * (2.0 * StrictLower(zs, dm, i + 1) + Diag(zs, dm, i + 1))
  {
    var ziZj := zs[i] * zs[i];
    var daII := -das[i] - das[i];
    CloseRow(daRows, zs, dm, i, zs[i] * daII);
    daII := daII * ziZj;
    assert daII == dm[i][i] * (zs[i] * zs[i]);
    LowerRowClose(zs, dm, i, workingD1, daII);
    daAlphaDT' := daAlphaDT - 0.5 * (daII + (workingD1 + workingD1));
  }

  /** The closing loop of the kernel: every entry of the first-derivative rows times -1/2. */
  method HalveRows(daRows: array<real>, zs: seq<real>, ghost dm: Matrix)
    requires daRows.Length == |zs| && IsSquare(dm, |zs|)
    requires forall p :: 0 <= p < |zs| ==> daRows[p] == Dot(zs, dm[p], 0, |zs|)
    modifies daRows
    ensures forall p :: 0 <= p < |zs| ==> daRows[p] == -0.5 * Dot(zs, dm[p], 0, |zs|)
  {
    for i := 0 to |zs|
      invariant forall p :: 0 <= p < i ==> daRows[p] == -0.5 * Dot(zs, dm[p], 0, |zs|)
      invariant forall p :: i <= p < |zs| ==> daRows[p] == Dot(zs, dm[p], 0, |zs|)
    {
      daRows[i] := daRows[i] * -0.5;
    }
  }

  /** The loops of `a_alpha_and_derivatives_quadratic_terms`, over matrices am, dm and d2m
      with the entries the kernel computes: a alpha and the rows of am, the first
      derivative and the rows of dm (both scaled by -1/2), and the second derivative, each
      summed over the lower triangle with the off-diagonal terms twice. */
  method PairwiseDerivatives(aAlphas: seq<real>, roots: seq<real>, das: seq<real>, d2as: seq<real>,
                             zs: seq<real>, kijs: Matrix, ghost am: Matrix, ghost dm: Matrix, ghost d2m: Matrix)
    returns (r: Result<DerivTerms>)
    requires |aAlphas| == |roots| == |das| == |d2as| == |zs| && IsSquare(kijs, |zs|)
    requires IsSquare(am, |zs|) && IsSquare(dm, |zs|) && IsSquare(d2m, |zs|)
    requires forall p, q :: 0 <= q < p < |zs| ==> EntryAt(aAlphas, roots, das, d2as, kijs, am, dm, d2m, p, q)
    requires forall p :: 0 <= p < |zs| ==> DiagAt(aAlphas, das, d2as, am, dm, d2m, p)
    ensures r.Err? <==> !PairsNonzero(roots)
    ensures r.Err? ==> r.error == ZeroDivision
    ensures r.Ok? ==> |r.value.aAlphaJRows| == |r.value.daAlphaDTJRows| == |zs|
    ensures r.Ok? ==> r.value.aAlpha == 2.0 * StrictLower(zs, am, |zs|) + Diag(zs, am, |zs|)
    ensures r.Ok? ==> r.value.daAlphaDT == -0.5 * (2.0 * StrictLower(zs, dm, |zs|) + Diag(zs, dm, |zs|))
    ensures r.Ok? ==> r.value.d2aAlphaDT2 == 2.0 * StrictLower(zs, d2m, |zs|) + Diag(zs, d2m, |zs|)
    ensures r.Ok? ==> forall p :: 0 <= p < |zs| ==> r.value.aAlphaJRows[p] == Dot(zs, am[p], 0, |zs|)
    ensures r.Ok? ==> forall p :: 0 <= p < |zs| ==> r.value.daAlphaDTJRows[p] == -0.5 * Dot(zs, dm[p], 0, |zs|)
  {
    var n := |zs|;
    var aAlpha, daAlphaDT, d2aAlphaDT2 := 0.0, 0.0, 0.0;
    var aRows := new real[n](_ => 0.0);
    var daRows := new real[n](_ => 0.0);
    PartialRowBounds(zs, am);
    PartialRowBounds(zs, dm);
    for i := 0 to n
      invariant forall p :: 0 <= p < n ==> aRows[p] == PartialRow(zs, am, i, 0, p)
      invariant forall p :: 0 <= p < n ==> daRows[p] == PartialRow(zs, dm, i, 0, p)
      invariant aAlpha == 2.0 * StrictLower(zs, am, i) + Diag(zs, am, i)
      invariant daAlphaDT == -0.5 * (2.0 * StrictLower(zs, dm, i) + Diag(zs, dm, i))
      invariant d2aAlphaDT2 == 2.0 * StrictLower(zs, d2m, i) + Diag(zs, d2m, i)
      invariant forall p, q :: 0 <= q < p < i ==> NonzeroPair(roots, p, q)
    {
      var ok;
      ok, aAlpha, daAlphaDT, d2aAlphaDT2 := DerivativeRow(aRows, daRows, aAlphas, roots, das, d2as, zs, kijs,
                                                          am, dm, d2m, i, aAlpha, daAlphaDT, d2aAlphaDT2);
      if !ok {
        return Err(ZeroDivision);
      }
    }
    HalveRows(daRows, zs, dm);
    r := Ok(DerivTerms(aAlpha, daAlphaDT, d2aAlphaDT2, aRows[..], daRows[..]));
  }

  /** `a_alpha_and_derivatives_quadratic_terms`: a alpha, its first and second temperature
      derivatives, and the row sums of a alpha and of its first derivative, summed over the
      lower triangle of kijs with k_ii = 0. It fails with ZeroDivision exactly when some
      pair j < i has root_i root_j = 0. The temperature is not used. */
  method AAlphaAndDerivativesQuadraticTerms(aAlphas: seq<real>, roots: seq<real>, das: seq<real>, d2as: seq<real>,
                                            T: real, zs: seq<real>, kijs: Matrix)
    returns (r: Result<DerivTerms>)
    requires |aAlphas| == |roots| == |das| == |d2as| == |zs| && IsSquare(kijs, |zs|)
    ensures r.Err? <==> !PairsNonzero(roots)
    ensures r.Err? ==> r.error == ZeroDivision
    ensures r.Ok? ==> |r.value.aAlphaJRows| == |r.value.daAlphaDTJRows| == |zs|
    ensures r.Ok? ==> r.value.aAlpha == QuadraticForm(zs, DerivTermsMatrix(aAlphas, roots, kijs))
    ensures r.Ok? ==> forall p :: 0 <= p < |zs| ==>
      r.value.aAlphaJRows[p] == Dot(zs, DerivTermsMatrix(aAlphas, roots, kijs)[p], 0, |zs|)
    ensures r.Ok? ==> r.value.daAlphaDT == -0.5 * QuadraticForm(zs, DaRowsMatrix(aAlphas, roots, das, kijs))
    ensures r.Ok? ==> forall p :: 0 <= p < |zs| ==>
      r.value.daAlphaDTJRows[p] == -0.5 * Dot(zs, DaRowsMatrix(aAlphas, roots, das, kijs)[p], 0, |zs|)
    ensures r.Ok? ==> r.value.d2aAlphaDT2 == QuadraticForm(zs, D2RowsMatrix(aAlphas, roots, das, d2as, kijs))
    ensures r.Ok? && (forall i :: 0 <= i < |zs| ==> kijs[i][i] == 0.0) ==>
      r.value.aAlpha == QuadraticForm(zs, TermsMatrix(aAlphas, roots, kijs)) &&
      forall p :: 0 <= p < |zs| ==> r.value.aAlphaJRows[p] == Dot(zs, TermsMatrix(aAlphas, roots, kijs)[p], 0, |zs|)
  {
    ghost var am, dm, d2m := DerivTermsMatrix(aAlphas, roots, kijs), DaRowsMatrix(aAlphas, roots, das, kijs),
                             D2RowsMatrix(aAlphas, roots, das, d2as, kijs);
    MatricesEntries(aAlphas, roots, das, d2as, kijs);
    r := PairwiseDerivatives(aAlphas, roots, das, d2as, zs, kijs, am, dm, d2m);
    LowerTriangleForm(zs, am);
    LowerTriangleForm(zs, dm);
    LowerTriangleForm(zs, d2m);
    DerivTermsMatrixIsTermsMatrix(aAlphas, roots, kijs);
  }

  /** Off the diagonal, the first-derivative term (after the factor -1/2) times
      root_p root_q is (1 - k_pq) (a_p da_q + a_q da_p) / 2: the temperature derivative of
      (1 - k_pq) sqrt(a_p a_q) is that over sqrt(a_p a_q). On the diagonal it is da_p. */
  lemma DaRowsEntryIsDerivative(aAlphas: seq<real>, roots: seq<real>, das: seq<real>, kijs: Matrix, p: nat, q: nat)
    requires |aAlphas| == |roots| == |das| && IsSquare(kijs, |roots|) && q < p < |roots|
    requires roots[p] * roots[q] != 0.0
    ensures -0.5 * DaRowsMatrix(aAlphas, roots, das, kijs)[p][q] * (roots[p] * roots[q])
            == 0.5 * (1.0 - kijs[p][q]) * (aAlphas[p] * das[q] + aAlphas[q] * das[p])
    ensures -0.5 * DaRowsMatrix(aAlphas, roots, das, kijs)[p][p] == das[p]
  {
    var v0 := roots[p] * roots[q];
    var x1x2 := aAlphas[p] * das[q] + aAlphas[q] * das[p];
    assert DaRowsMatrix(aAlphas, roots, das, kijs)[p][q] == x1x2 * ((kijs[p][q] - 1.0) * (1.0 / v0));
    assert (1.0 / v0) * v0 == 1.0;
    calc {
      -0.5 * (x1x2 * ((kijs[p][q] - 1.0) * (1.0 / v0))) * v0;
      -0.5 * x1x2 * (kijs[p][q] - 1.0) * ((1.0 / v0) * v0);
    }
  }

  /** Off the diagonal, with roots that square to the attractive terms, the second-derivative
      term times (root_p root_q)^3 is (1 - k_pq) (f''/2 (root_p root_q)^2 - f'^2/4) for
      f = a_p a_q: the second temperature derivative of (1 - k_pq) sqrt(f) is that over
      f sqrt(f). */
  lemma D2RowsEntryIsDerivative(aAlphas: seq<real>, roots: seq<real>, das: seq<real>, d2as: seq<real>, kijs: Matrix,
                                p: nat, q: nat)
    requires RootsOf(roots, aAlphas) && |das| == |d2as| == |roots| && IsSquare(kijs, |roots|) && q < p < |roots|
    requires roots[p] * roots[q] != 0.0
    ensures var rs := roots[p] * roots[q];
            var f1 := aAlphas[p] * das[q] + aAlphas[q] * das[p];
            var f2 := aAlphas[p] * d2as[q] + 2.0 * das[p] * das[q] + aAlphas[q] * d2as[p];
            D2RowsMatrix(aAlphas, roots, das, d2as, kijs)[p][q] * (rs * rs * rs)
            == (1.0 - kijs[p][q]) * (0.5 * f2 * (rs * rs) - 0.25 * f1 * f1)
    ensures D2RowsMatrix(aAlphas, roots, das, d2as, kijs)[p][p] == d2as[p]
  {
    var rs := roots[p] * roots[q];
    assert D2RowsMatrix(aAlphas, roots, das, d2as, kijs)[p][q] == D2PairTerm(aAlphas, roots, das, d2as, kijs, p, q);
    assert aAlphas[p] * aAlphas[q] == rs * rs by {
      EosMixMethods.SquaresProduct(roots[p], roots[q], aAlphas[p], aAlphas[q]);
    }
    D2PairTermCubed(aAlphas[p], aAlphas[q], das[p], das[q], d2as[p], d2as[q], kijs[p][q], rs);
  }

  /** D2PairTerm, written on scalars, times rs^3 where a_p a_q = rs^2. */
  lemma D2PairTermCubed(ap: real, aq: real, dp: real, dq: real, d2p: real, d2q: real, k: real, rs: real)
    requires rs != 0.0 && ap * aq == rs * rs
    ensures var v0Inv := 1.0 / rs;
            var x1x2 := ap * dq + aq * dp;
            v0Inv * v0Inv * ((k - 1.0) * v0Inv) * (ap * aq * (-0.5 * (ap * d2q + aq * d2p) - dp * dq) + 0.25 * x1x2 * x1x2)
              * (rs * rs * rs)
            == (1.0 - k) * (0.5 * (ap * d2q + 2.0 * dp * dq + aq * d2p) * (rs * rs) - 0.25 * x1x2 * x1x2)
  {
    var v0Inv := 1.0 / rs;
    var x1x2 := ap * dq + aq * dp;
    var num := ap * aq * (-0.5 * (ap * d2q + aq * d2p) - dp * dq) + 0.25 * x1x2 * x1x2;
    EosMixMethods.NumeratorForm(ap, aq, dp, dq, d2p, d2q, rs);
    InverseCube(v0Inv, rs, k - 1.0, num);
  }

  lemma InverseCube(inv: real, rs: real, c: real, x: real)
    requires rs != 0.0 && inv == 1.0 / rs
    ensures inv * inv * (c * inv) * x * (rs * rs * rs) == c * x
  {
    assert inv * rs == 1.0;
    calc {
      inv * inv * (c * inv) * x * (rs * rs * rs);
      (inv * rs) * (inv * inv * c * x * (rs * rs));
      inv * inv * c * x * (rs * rs);
      (inv * rs) * (inv * c * x * rs);
      inv * c * x * rs;
      (inv * rs) * (c * x);
      c * x;
    }
  }
}
