/** Finite sums over a composition vector `zs` and an N x N matrix, and the
    rearrangements that let a mixing-rule kernel visit only one triangle of a
    symmetric matrix. Every sum is defined by recursion on its upper bound, so
    that it follows the order in which a loop accumulates it. */
module QuadraticSums {

  type Matrix = seq<seq<real>>

  predicate IsSquare(m: Matrix, n: nat)
  {
    |m| == n && forall i :: 0 <= i < n ==> |m[i]| == n
  }

  predicate IsSymmetric(m: Matrix)
    requires IsSquare(m, |m|)
  {
    forall i, j :: 0 <= i < |m| && 0 <= j < |m| ==> m[i][j] == m[j][i]
  }

  /** sum of zs[q] * row[q] for lo <= q < hi */
  function Dot(zs: seq<real>, row: seq<real>, lo: nat, hi: nat): real
    requires hi <= |zs| && hi <= |row|
    decreases hi
  {
    if hi <= lo then 0.0 else Dot(zs, row, lo, hi - 1) + zs[hi - 1] * row[hi - 1]
  }

  /** sum of zs[i] * m[i][c] for i < r: column c weighted by the composition */
  function Col(zs: seq<real>, m: Matrix, c: nat, r: nat): real
    requires IsSquare(m, |zs|) && c < |zs| && r <= |zs|
  {
    if r == 0 then 0.0 else Col(zs, m, c, r - 1) + zs[r - 1] * m[r - 1][c]
  }

  /** sum of zs[i] * zs[j] * m[i][j] over i < r and j < c */
  function Block(zs: seq<real>, m: Matrix, r: nat, c: nat): real
    requires IsSquare(m, |zs|) && r <= |zs| && c <= |zs|
  {
    if r == 0 then 0.0 else Block(zs, m, r - 1, c) + zs[r - 1] * Dot(zs, m[r - 1], 0, c)
  }

  /** The double sum  sum_i sum_j zs[i] zs[j] m[i][j]. */
  function QuadraticForm(zs: seq<real>, m: Matrix): real
    requires IsSquare(m, |zs|)
  {
    Block(zs, m, |zs|, |zs|)
  }

  /** sum of zs[i] * zs[j] * m[i][j] over j < i < r: the strict lower triangle */
  function StrictLower(zs: seq<real>, m: Matrix, r: nat): real
    requires IsSquare(m, |zs|) && r <= |zs|
  {
    if r == 0 then 0.0 else StrictLower(zs, m, r - 1) + zs[r - 1] * Dot(zs, m[r - 1], 0, r - 1)
  }

  /** sum of zs[i] * zs[j] * m[i][j] over i < r and i < j < c: the strict upper triangle */
  function StrictUpper(zs: seq<real>, m: Matrix, r: nat, c: nat): real
    requires IsSquare(m, |zs|) && r <= |zs| && c <= |zs|
  {
    if r == 0 then 0.0 else StrictUpper(zs, m, r - 1, c) + zs[r - 1] * Dot(zs, m[r - 1], r, c)
  }

  /** sum of m[i][i] * zs[i] * zs[i] over i < r */
  function Diag(zs: seq<real>, m: Matrix, r: nat): real
    requires IsSquare(m, |zs|) && r <= |zs|
  {
    if r == 0 then 0.0 else Diag(zs, m, r - 1) + m[r - 1][r - 1] * zs[r - 1] * zs[r - 1]
  }

  /** sum of v[i] * zs[i] over i < n: the composition-weighted sum that the closing loops
      accumulate as `bs[i]*zs[i]` and `a_alpha_j_rows[i]*zs[i]` (eos_mix_methods.py:400, :289).
      It is Dot with the weighted vector first, kept as its own function so that the
      invariants of those loops read term for term like the source, and so that RowSumsForm
      can state that z-weighting the row sums gives the quadratic form. */
  function Weighted(v: seq<real>, zs: seq<real>, n: nat): real
    requires n <= |v| && n <= |zs|
  {
    if n == 0 then 0.0 else Weighted(v, zs, n - 1) + v[n - 1] * zs[n - 1]
  }

  /** sum of row[q] * zi * zs[q] for lo <= q < hi: one row of a triangle as a kernel accumulates it,
      with the three-factor terms `a_alpha_ijs_i[j]*zi*zs[j]` of eos_mix_methods.py:111 and the
      pair terms of :323 and :352. RowTermsIsScaledDot proves it is zi times Dot; it stays a
      function of its own because the loop invariants must match the source's product order. */
  function RowTerms(zs: seq<real>, row: seq<real>, zi: real, lo: nat, hi: nat): real
    requires hi <= |zs| && hi <= |row|
    decreases hi
  {
    if hi <= lo then 0.0 else RowTerms(zs, row, zi, lo, hi - 1) + row[hi - 1] * zi * zs[hi - 1]
  }

  /** Adding row i to the upper triangle and the diagonal. */
  lemma UpperRowStep(zs: seq<real>, m: Matrix, i: nat)
    requires IsSquare(m, |zs|) && i < |zs|
    ensures StrictUpper(zs, m, i + 1, |zs|) == StrictUpper(zs, m, i, |zs|) + zs[i] * Dot(zs, m[i], i + 1, |zs|)
    ensures Diag(zs, m, i + 1) == Diag(zs, m, i) + m[i][i] * zs[i] * zs[i]
  {
  }

  /** Accumulating the terms of a row one by one is the weight of the row times its dot product. */
  lemma {:induction false} RowTermsIsScaledDot(zs: seq<real>, row: seq<real>, zi: real, lo: nat, hi: nat)
    requires hi <= |zs| && hi <= |row|
    ensures RowTerms(zs, row, zi, lo, hi) == zi * Dot(zs, row, lo, hi)
    decreases hi
  {
    if hi > lo {
      RowTermsIsScaledDot(zs, row, zi, lo, hi - 1);
      assert row[hi - 1] * zi * zs[hi - 1] == zi * (zs[hi - 1] * row[hi - 1]);
    }
  }

  /** Extending a block by one column adds that column, weighted by zs[c]. */
  lemma {:induction false} BlockAddColumn(zs: seq<real>, m: Matrix, r: nat, c: nat)
    requires IsSquare(m, |zs|) && r <= |zs| && c < |zs|
    ensures Block(zs, m, r, c + 1) == Block(zs, m, r, c) + zs[c] * Col(zs, m, c, r)
  {
    if r > 0 {
      BlockAddColumn(zs, m, r - 1, c);
      var x := zs[r - 1];
      assert Dot(zs, m[r - 1], 0, c + 1) == Dot(zs, m[r - 1], 0, c) + zs[c] * m[r - 1][c];
      assert x * Dot(zs, m[r - 1], 0, c + 1) == x * Dot(zs, m[r - 1], 0, c) + zs[c] * (x * m[r - 1][c]);
    }
  }

  /** The same for the strict upper triangle, whose rows all start left of column c. */
  lemma {:induction false} UpperAddColumn(zs: seq<real>, m: Matrix, r: nat, c: nat)
    requires IsSquare(m, |zs|) && r <= c < |zs|
    ensures StrictUpper(zs, m, r, c + 1) == StrictUpper(zs, m, r, c) + zs[c] * Col(zs, m, c, r)
  {
    if r > 0 {
      UpperAddColumn(zs, m, r - 1, c);
      var x := zs[r - 1];
      assert Dot(zs, m[r - 1], r, c + 1) == Dot(zs, m[r - 1], r, c) + zs[c] * m[r - 1][c];
      assert x * Dot(zs, m[r - 1], r, c + 1) == x * Dot(zs, m[r - 1], r, c) + zs[c] * (x * m[r - 1][c]);
    }
  }

  /** In a symmetric matrix a weighted column is the weighted row. */
  lemma {:induction false} ColumnIsRow(zs: seq<real>, m: Matrix, c: nat, r: nat)
    requires IsSquare(m, |zs|) && IsSymmetric(m) && c < |zs| && r <= |zs|
    ensures Col(zs, m, c, r) == Dot(zs, m[c], 0, r)
  {
    if r > 0 {
      ColumnIsRow(zs, m, c, r - 1);
      assert m[r - 1][c] == m[c][r - 1];
    }
  }

  /** A symmetric square block is twice its strict lower triangle plus its diagonal. */
  lemma {:induction false} BlockIsLowerTriangle(zs: seq<real>, m: Matrix, n: nat)
    requires IsSquare(m, |zs|) && IsSymmetric(m) && n <= |zs|
    ensures Block(zs, m, n, n) == 2.0 * StrictLower(zs, m, n) + Diag(zs, m, n)
  {
    if n > 0 {
      var k := n - 1;
      BlockIsLowerTriangle(zs, m, k);
      BlockAddColumn(zs, m, k, k);
      ColumnIsRow(zs, m, k, k);
      var x := zs[k];
      assert Dot(zs, m[k], 0, n) == Dot(zs, m[k], 0, k) + x * m[k][k];
      assert x * Dot(zs, m[k], 0, n) == x * Dot(zs, m[k], 0, k) + m[k][k] * x * x;
    }
  }

  /** In a symmetric matrix the strict upper and strict lower triangles have the same sum. */
  lemma {:induction false} UpperIsLower(zs: seq<real>, m: Matrix, n: nat)
    requires IsSquare(m, |zs|) && IsSymmetric(m) && n <= |zs|
    ensures StrictUpper(zs, m, n, n) == StrictLower(zs, m, n)
  {
    if n > 0 {
      var k := n - 1;
      UpperIsLower(zs, m, k);
      UpperAddColumn(zs, m, k, k);
      ColumnIsRow(zs, m, k, k);
      assert StrictUpper(zs, m, n, n) == StrictUpper(zs, m, k, n) + zs[k] * Dot(zs, m[k], n, n);
    }
  }

  /** Summing the upper triangle and doubling the off-diagonal terms gives the
      quadratic form of a symmetric matrix. */
  lemma UpperTriangleForm(zs: seq<real>, m: Matrix)
    requires IsSquare(m, |zs|) && IsSymmetric(m)
    ensures 2.0 * StrictUpper(zs, m, |zs|, |zs|) + Diag(zs, m, |zs|) == QuadraticForm(zs, m)
  {
    UpperIsLower(zs, m, |zs|);
    BlockIsLowerTriangle(zs, m, |zs|);
  }

  /** Summing the lower triangle and doubling the off-diagonal terms gives the
      quadratic form of a symmetric matrix. */
  lemma LowerTriangleForm(zs: seq<real>, m: Matrix)
    requires IsSquare(m, |zs|) && IsSymmetric(m)
    ensures 2.0 * StrictLower(zs, m, |zs|) + Diag(zs, m, |zs|) == QuadraticForm(zs, m)
  {
    BlockIsLowerTriangle(zs, m, |zs|);
  }

  /** Weighting the row sums of a matrix by the composition gives its quadratic form. */
  lemma {:induction false} RowSumsForm(zs: seq<real>, m: Matrix, rows: seq<real>, n: nat)
    requires IsSquare(m, |zs|) && |rows| == |zs| && n <= |zs|
    requires forall p :: 0 <= p < |zs| ==> rows[p] == Dot(zs, m[p], 0, |zs|)
    ensures Weighted(rows, zs, n) == Block(zs, m, n, |zs|)
  {
    if n > 0 {
      RowSumsForm(zs, m, rows, n - 1);
    }
  }

  /** Dot only reads the entries it sums. */
  lemma {:induction false} DotFrame(zs: seq<real>, row: seq<real>, row': seq<real>, lo: nat, hi: nat)
    requires hi <= |zs| && hi <= |row| && hi <= |row'|
    requires forall q :: lo <= q < hi ==> row[q] == row'[q]
    ensures Dot(zs, row, lo, hi) == Dot(zs, row', lo, hi)
  {
    if hi > lo {
      DotFrame(zs, row, row', lo, hi - 1);
    }
  }

  /** Dot is linear in the row. */
  lemma {:induction false} DotScale(zs: seq<real>, row: seq<real>, row': seq<real>, s: real, lo: nat, hi: nat)
    requires hi <= |zs| && hi <= |row| && hi <= |row'|
    requires forall q :: lo <= q < hi ==> row'[q] == s * row[q]
    ensures Dot(zs, row', lo, hi) == s * Dot(zs, row, lo, hi)
  {
    if hi > lo {
      DotScale(zs, row, row', s, lo, hi - 1);
      assert zs[hi - 1] * row'[hi - 1] == s * (zs[hi - 1] * row[hi - 1]);
    }
  }

  /** Scaling every entry of a matrix by s scales its weighted rows by s. */
  lemma {:induction false} BlockScale(zs: seq<real>, m: Matrix, m': Matrix, s: real, r: nat)
    requires IsSquare(m, |zs|) && IsSquare(m', |zs|) && r <= |zs|
    requires forall p, q :: 0 <= p < |zs| && 0 <= q < |zs| ==> m'[p][q] == s * m[p][q]
    ensures Block(zs, m', r, |zs|) == s * Block(zs, m, r, |zs|)
  {
    if r > 0 {
      var n := |zs|;
      BlockScale(zs, m, m', s, r - 1);
      DotScale(zs, m[r - 1], m'[r - 1], s, 0, n);
      assert zs[r - 1] * Dot(zs, m'[r - 1], 0, n) == s * (zs[r - 1] * Dot(zs, m[r - 1], 0, n));
    }
  }

  /** Weighted only reads the first n entries of the vector. */
  lemma {:induction false} WeightedFrame(v: seq<real>, v': seq<real>, zs: seq<real>, n: nat)
    requires n <= |v| && n <= |v'| && n <= |zs|
    requires forall q :: 0 <= q < n ==> v[q] == v'[q]
    ensures Weighted(v, zs, n) == Weighted(v', zs, n)
  {
    if n > 0 {
      WeightedFrame(v, v', zs, n - 1);
    }
  }
}
