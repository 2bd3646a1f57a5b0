/** The row-sum kernels `a_alpha_quadratic_terms` and
    `a_alpha_and_derivatives_quadratic_terms`: besides a alpha they return the
    vector of row sums  sum_j z_j (a alpha)_ij  needed by the fugacities. Both
    visit each pair j < i once, reading the lower triangle of kijs, and add the
    pair's term to row i and to row j in place. */
module QuadraticTerms {
  import opened Outcomes
  import opened QuadraticSums
  import opened MixingMatrices

  /** Entry p of the row sums of m weighted by w, as the pairwise loop leaves it once
      the rows before i, and the pairs (i, q) with q < j, have been visited: an earlier
      row holds its terms for the columns visited so far, a later row is still 0. */
  function PartialRow(w: seq<real>, m: Matrix, i: nat, j: nat, p: nat): real
    requires IsSquare(m, |w|) && j <= i <= |w| && (i == |w| ==> j == 0) && p < |w|
  {
    if p < j then Dot(w, m[p], 0, i + 1)
    else if p < i then Dot(w, m[p], 0, i)
    else if p == i then Dot(w, m[i], 0, j)
    else 0.0
  }

  /** Visiting the pair (i, j), j < i, adds w_i m_ji to row j and w_j m_ij to row i. */
  lemma PartialRowPair(w: seq<real>, m: Matrix, i: nat, j: nat)
    requires IsSquare(m, |w|) && j < i < |w|
    ensures PartialRow(w, m, i, j + 1, j) == PartialRow(w, m, i, j, j) + w[i] * m[j][i]
    ensures PartialRow(w, m, i, j + 1, i) == PartialRow(w, m, i, j, i) + w[j] * m[i][j]
    ensures forall p :: 0 <= p < |w| && p != i && p != j ==> PartialRow(w, m, i, j + 1, p) == PartialRow(w, m, i, j, p)
  {
  }

  /** After the pairs of row i, adding w_i m_ii to row i completes it. */
  lemma PartialRowClose(w: seq<real>, m: Matrix, i: nat)
    requires IsSquare(m, |w|) && i < |w|
    ensures PartialRow(w, m, i + 1, 0, i) == PartialRow(w, m, i, i, i) + w[i] * m[i][i]
    ensures forall p :: 0 <= p < |w| && p != i ==> PartialRow(w, m, i + 1, 0, p) == PartialRow(w, m, i, i, p)
  {
  }

  /** Before the first row every entry is 0; after the last, each is the full weighted row sum. */
  lemma PartialRowBounds(w: seq<real>, m: Matrix)
    requires IsSquare(m, |w|)
    ensures forall p :: 0 <= p < |w| ==> PartialRow(w, m, 0, 0, p) == 0.0
    ensures forall p :: 0 <= p < |w| ==> PartialRow(w, m, |w|, 0, p) == Dot(w, m[p], 0, |w|)
  {
  }

  /** The interaction factors 1 - k_ij read from the lower triangle of kijs, with a zero
      diagonal: the off-diagonal part of `a_alpha_quadratic_terms`, before the roots. */
  function CrossMatrix(kijs: Matrix): (c: Matrix)
    requires IsSquare(kijs, |kijs|)
    ensures IsSquare(c, |kijs|)
  {
    seq(|kijs|, p requires 0 <= p < |kijs| =>
      seq(|kijs|, q requires 0 <= q < |kijs| =>
        if p == q then 0.0 else if q < p then 1.0 - kijs[p][q] else 1.0 - kijs[q][p]))
  }

  /** Off the diagonal, an entry of TermsMatrix is the cross factor times the product of roots. */
  lemma TermsEntryIsCross(aAlphas: seq<real>, roots: seq<real>, kijs: Matrix, p: nat, q: nat)
    requires |aAlphas| == |roots| && IsSquare(kijs, |roots|) && p < |roots| && q < |roots| && p != q
    ensures TermsMatrix(aAlphas, roots, kijs)[p][q] == CrossMatrix(kijs)[p][q] * (roots[p] * roots[q])
  {
    if q < p {
      assert TermsMatrix(aAlphas, roots, kijs)[p][q] == LowerEntry(roots, kijs, p, q);
    } else {
      assert TermsMatrix(aAlphas, roots, kijs)[p][q] == LowerEntry(roots, kijs, q, p);
      assert roots[q] * roots[p] == roots[p] * roots[q];
    }
  }

  lemma ScaleCrossTerm(rp: real, rq: real, z: real, c: real, tq: real, e: real)
    requires tq == rq * z && e == c * (rp * rq)
    ensures rp * (tq * c) == z * e
  {
  }

  lemma ScaleSum(r: real, d: real, x: real)
    ensures r * (d + x) == r * d + r * x
  {
  }

  /** Scaling row by r turns each term but the p-th of the row weighted by t into the
      matching term of row' weighted by zs; the p-th term of row is 0 and that of row' is diag. */
  predicate ScalesInto(r: real, t: seq<real>, row: seq<real>, zs: seq<real>, row': seq<real>, p: nat, diag: real)
  {
    |t| == |row| == |zs| == |row'| && p < |t| && row[p] == 0.0 && zs[p] * row'[p] == diag &&
    forall q :: 0 <= q < |t| && q != p ==> zs[q] * row'[q] == r * (t[q] * row[q])
  }

  lemma {:induction false} ScaledRow(r: real, t: seq<real>, row: seq<real>, zs: seq<real>, row': seq<real>,
                                     p: nat, diag: real, hi: nat)
    requires ScalesInto(r, t, row, zs, row', p, diag) && hi <= |t|
    ensures Dot(t, row, 0, hi) * r + (if p < hi then diag else 0.0) == Dot(zs, row', 0, hi)
  {
    if hi > 0 {
      var q := hi - 1;
      ScaledRow(r, t, row, zs, row', p, diag, q);
      ScaleSum(r, Dot(t, row, 0, q), t[q] * row[q]);
      if q == p {
        assert t[q] * row[q] == 0.0;
      } else {
        assert zs[q] * row'[q] == r * (t[q] * row[q]);
      }
    }
  }

  /** Off the diagonal, term q of row p of TermsMatrix weighted by the composition is
      root_p times the cross factor weighted by root_q z_q. */
  lemma CrossRowTerm(aAlphas: seq<real>, roots: seq<real>, zs: seq<real>, kijs: Matrix, t: seq<real>, p: nat, q: nat)
    requires |aAlphas| == |roots| == |zs| == |t| && IsSquare(kijs, |zs|) && p < |zs| && q < |zs| && q != p
    requires t[q] == roots[q] * zs[q]
    ensures zs[q] * TermsMatrix(aAlphas, roots, kijs)[p][q] == roots[p] * (t[q] * CrossMatrix(kijs)[p][q])
  {
    var c, tm := CrossMatrix(kijs), TermsMatrix(aAlphas, roots, kijs);
    TermsEntryIsCross(aAlphas, roots, kijs, p, q);
    ScaleCrossTerm(roots[p], roots[q], zs[q], c[p][q], t[q], tm[p][q]);
  }

  /** Each row of the cross factors, weighted by root_q z_q, scales by its root into the
      same row of TermsMatrix weighted by the composition, up to the diagonal term. */
  lemma CrossScalesIntoTerms(aAlphas: seq<real>, roots: seq<real>, zs: seq<real>, kijs: Matrix, t: seq<real>)
    requires |aAlphas| == |roots| == |zs| == |t| && IsSquare(kijs, |zs|)
    requires forall q :: 0 <= q < |zs| ==> t[q] == roots[q] * zs[q]
    ensures forall p :: 0 <= p < |zs| ==>
      RowScales(aAlphas, roots, zs, kijs, t, CrossMatrix(kijs), TermsMatrix(aAlphas, roots, kijs), p)
  {
    var c, tm := CrossMatrix(kijs), TermsMatrix(aAlphas, roots, kijs);
    forall p | 0 <= p < |zs| ensures RowScales(aAlphas, roots, zs, kijs, t, c, tm, p)
    {
      forall q | 0 <= q < |zs| && q != p ensures zs[q] * tm[p][q] == roots[p] * (t[q] * c[p][q]) {
        CrossRowTerm(aAlphas, roots, zs, kijs, t, p, q);
      }
      DiagRowTerm(aAlphas, roots, zs, kijs, p);
    }
  }

  /** On the diagonal, term p of row p of TermsMatrix weighted by the composition is (1 - k_pp) (a alpha)_p z_p. */
  lemma DiagRowTerm(aAlphas: seq<real>, roots: seq<real>, zs: seq<real>, kijs: Matrix, p: nat)
    requires |aAlphas| == |roots| == |zs| && IsSquare(kijs, |zs|) && p < |zs|
    ensures zs[p] * TermsMatrix(aAlphas, roots, kijs)[p][p] == (1.0 - kijs[p][p]) * aAlphas[p] * zs[p]
  {
  }

  /** Visiting pair (i, j), j < i, of a pairwise row loop: row j gains w_i m_ji and row i
      gains w_j m_ij, in place (eos_mix_methods.py:281-282, and :321-322 and :340-341). */
  method AddPair(rows: array<real>, w: seq<real>, ghost m: Matrix, i: nat, j: nat, toJ: real, toI: real)
    requires rows.Length == |w| && IsSquare(m, |w|) && j < i < |w|
    requires toJ == w[i] * m[j][i] && toI == w[j] * m[i][j]
    requires forall p :: 0 <= p < |w| ==> rows[p] == PartialRow(w, m, i, j, p)
    modifies rows
    ensures forall p :: 0 <= p < |w| ==> rows[p] == PartialRow(w, m, i, j + 1, p)
  {
    PartialRowPair(w, m, i, j);
    rows[j] := rows[j] + toJ;
    rows[i] := rows[i] + toI;
  }

  /** Closing row i of a pairwise row loop: row i gains its diagonal term w_i m_ii, in place
      (eos_mix_methods.py:360 and :364). */
  method CloseRow(rows: array<real>, w: seq<real>, ghost m: Matrix, i: nat, toI: real)
    requires rows.Length == |w| && IsSquare(m, |w|) && i < |w|
    requires toI == w[i] * m[i][i]
    requires forall p :: 0 <= p < |w| ==> rows[p] == PartialRow(w, m, i, i, p)
    modifies rows
    ensures forall p :: 0 <= p < |w| ==> rows[p] == PartialRow(w, m, i + 1, 0, p)
  {
    PartialRowClose(w, m, i);
    rows[i] := rows[i] + toI;
  }

  /** The pairwise loop of `a_alpha_quadratic_terms`: for every pair j < i it adds
      (1 - k_ij) root_i z_i to row j and (1 - k_ij) root_j z_j to row i, in place. */
  method AccumulateCrossRows(rows: array<real>, t: seq<real>, kijs: Matrix)
    requires rows.Length == |t| && IsSquare(kijs, |t|)
    requires forall p :: 0 <= p < |t| ==> rows[p] == 0.0
    modifies rows
    ensures forall p :: 0 <= p < |t| ==> rows[p] == Dot(t, CrossMatrix(kijs)[p], 0, |t|)
  {
    var n := |t|;
    ghost var c := CrossMatrix(kijs);
    PartialRowBounds(t, c);
    var i := 0;
    while i < n
      invariant 0 <= i <= n
      invariant forall p :: 0 <= p < n ==> rows[p] == PartialRow(t, c, i, 0, p)
    {
      var j := 0;
      while j < i
        invariant 0 <= j <= i
        invariant forall p :: 0 <= p < n ==> rows[p] == PartialRow(t, c, i, j, p)
      {
        var f := 1.0 - kijs[i][j];
        assert f == c[j][i] == c[i][j];
        AddPair(rows, t, c, i, j, f * t[i], f * t[j]);
        j := j + 1;
      }
      PartialRowClose(t, c, i);
      assert t[i] * c[i][i] == 0.0;
      i := i + 1;
    }
  }

  /** One step of the closing loop: the sum of row weighted by t, times root_p, plus the
      diagonal term, is row' weighted by the composition. */
  method ScaleRow(sum: real, root: real, diag: real, t: seq<real>, ghost row: seq<real>, zs: seq<real>,
                  ghost row': seq<real>, p: nat)
    returns (r: real)
    requires ScalesInto(root, t, row, zs, row', p, diag) && sum == Dot(t, row, 0, |t|)
    ensures r == Dot(zs, row', 0, |t|)
  {
    ScaledRow(root, t, row, zs, row', p, diag, |t|);
    r := sum * root;
    r := r + diag;
  }

  /** Row p of c, scaled by root_p, gives row p of m, with diagonal term (1 - k_pp) (a alpha)_p z_p. */
  predicate RowScales(aAlphas: seq<real>, roots: seq<real>, zs: seq<real>, kijs: Matrix, t: seq<real>,
                      c: Matrix, m: Matrix, p: nat)
    requires |aAlphas| == |roots| == |zs| == |t| && IsSquare(kijs, |zs|) && IsSquare(c, |zs|) && IsSquare(m, |zs|) && p < |zs|
  {
    ScalesInto(roots[p], t, c[p], zs, m[p], p, (1.0 - kijs[p][p]) * aAlphas[p] * zs[p])
  }

  /** The closing loop of `a_alpha_quadratic_terms`: row i is multiplied by root_i, gains
      the diagonal term (1 - k_ii) (a alpha)_i z_i, and is weighted into a alpha. Given rows
      holding the sums of c weighted by t, and c scaling into m row by row, it leaves the
      rows of m weighted by the composition, and a alpha is their weighted sum. */
  method ScaleRows(rows: array<real>, aAlphas: seq<real>, roots: seq<real>, zs: seq<real>, kijs: Matrix,
                   t: seq<real>, ghost c: Matrix, ghost m: Matrix)
    returns (aAlpha: real)
    requires rows.Length == |aAlphas| == |roots| == |zs| == |t| && IsSquare(kijs, |zs|)
    requires IsSquare(c, |zs|) && IsSquare(m, |zs|)
    requires forall p :: 0 <= p < |zs| ==> rows[p] == Dot(t, c[p], 0, |zs|)
    requires forall p :: 0 <= p < |zs| ==> RowScales(aAlphas, roots, zs, kijs, t, c, m, p)
    modifies rows
    ensures forall p :: 0 <= p < |zs| ==> rows[p] == Dot(zs, m[p], 0, |zs|)
    ensures aAlpha == Weighted(rows[..], zs, |zs|)
  {
    var n := |zs|;
    aAlpha := 0.0;
    for i := 0 to n
      invariant forall p :: 0 <= p < i ==> rows[p] == Dot(zs, m[p], 0, n)
      invariant forall p :: i <= p < n ==> rows[p] == Dot(t, c[p], 0, n)
      invariant aAlpha == Weighted(rows[..], zs, i)
    {
      assert RowScales(aAlphas, roots, zs, kijs, t, c, m, i);
      aAlpha := ScaleRowAt(rows, aAlphas, roots, zs, kijs, t, c, m, i, aAlpha);
    }
  }

  /** One pass of ScaleRows: row i is scaled in place and weighted into the running a alpha;
      the other rows are left as they are. */
  method ScaleRowAt(rows: array<real>, aAlphas: seq<real>, roots: seq<real>, zs: seq<real>, kijs: Matrix,
                    t: seq<real>, ghost c: Matrix, ghost m: Matrix, i: nat, aAlpha0: real)
    returns (aAlpha: real)
    requires rows.Length == |aAlphas| == |roots| == |zs| == |t| && IsSquare(kijs, |zs|)
    requires IsSquare(c, |zs|) && IsSquare(m, |zs|) && i < |zs|
    requires rows[i] == Dot(t, c[i], 0, |zs|) && RowScales(aAlphas, roots, zs, kijs, t, c, m, i)
    requires aAlpha0 == Weighted(rows[..], zs, i)
    modifies rows
    ensures rows[i] == Dot(zs, m[i], 0, |zs|)
    ensures forall p :: 0 <= p < rows.Length && p != i ==> rows[p] == old(rows[p])
    ensures aAlpha == Weighted(rows[..], zs, i + 1)
  {
    ghost var before := rows[..];
    rows[i] := ScaleRow(rows[i], roots[i], (1.0 - kijs[i][i]) * aAlphas[i] * zs[i], t, c[i], zs, m[i], i);
    WeightedFrame(before, rows[..], zs, i);
    aAlpha := aAlpha0 + rows[i] * zs[i];
  }

  /** a_alpha_quadratic_terms: returns a alpha and the row sums
      a_alpha_j_rows[i] = sum_j z_j (a alpha)_ij, where (a alpha)_ij takes k_ij from the
      lower triangle of kijs and the diagonal is (1 - k_ii) (a alpha)_i. With roots that
      square to the attractive terms and symmetric kijs, that is the quadratic mixing
      rule of the docstring. The temperature is not used. */
  method AAlphaQuadraticTerms(aAlphas: seq<real>, roots: seq<real>, T: real, zs: seq<real>, kijs: Matrix)
    returns (aAlpha: real, aAlphaJRows: seq<real>)
    requires |aAlphas| == |roots| == |zs| && IsSquare(kijs, |zs|)
    ensures |aAlphaJRows| == |aAlphas|
    ensures forall p :: 0 <= p < |zs| ==> aAlphaJRows[p] == Dot(zs, TermsMatrix(aAlphas, roots, kijs)[p], 0, |zs|)
    ensures aAlpha == Weighted(aAlphaJRows, zs, |zs|)
    ensures aAlpha == QuadraticForm(zs, TermsMatrix(aAlphas, roots, kijs))
    ensures RootsOf(roots, aAlphas) && IsSymmetric(kijs) ==>
      aAlpha == QuadraticForm(zs, Mix(roots, kijs)) &&
      forall p :: 0 <= p < |zs| ==> aAlphaJRows[p] == Dot(zs, Mix(roots, kijs)[p], 0, |zs|)
  {
    var n := |aAlphas|;
    ghost var tm := TermsMatrix(aAlphas, roots, kijs);
    var things0 := new real[n](_ => 0.0);
    for i := 0 to n
      invariant forall q :: 0 <= q < i ==> things0[q] == roots[q] * zs[q]
    {
      things0[i] := roots[i] * zs[i];
    }
    var t := things0[..];
    var rows := new real[n](_ => 0.0);
    AccumulateCrossRows(rows, t, kijs);
    CrossScalesIntoTerms(aAlphas, roots, zs, kijs, t);
    aAlpha := ScaleRows(rows, aAlphas, roots, zs, kijs, t, CrossMatrix(kijs), tm);
    aAlphaJRows := rows[..];
    RowSumsForm(zs, tm, aAlphaJRows, n);
    if RootsOf(roots, aAlphas) && IsSymmetric(kijs) {
      TermsMatrixIsMix(aAlphas, roots, kijs);
    }
  }
}
