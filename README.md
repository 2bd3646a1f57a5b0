# Mixing-rule kernels of cubic equations of state

This project models `thermo/eos_mix_methods.py`, the low-level kernels behind the
van der Waals mixing rule of the cubic equations of state in `thermo`. The rule is

    a alpha = sum_i sum_j z_i z_j (a alpha)_ij,   (a alpha)_ij = (1 - k_ij) sqrt((a alpha)_i (a alpha)_j)

The kernels are modelled one by one:

- two builders of the cross-term tables `a_alpha_ijs` and `a_alpha_ij_roots_inv`. One is strict and raises on a zero root. The other stores the sentinel 1e100 instead.
- three ways of summing a alpha. One sums the upper triangle. One weights the lower triangle by precomputed products z_i z_j. The third accumulates row sums pair by pair.
- the temperature derivatives da alpha/dT and d2a alpha/dT2, computed from tables (`a_alpha_and_derivatives_full`) and from row sums (`a_alpha_and_derivatives_quadratic_terms`).
- the Peng-Robinson fast path `PR_lnphis_fastest` up to its closing call.

Everything is exact arithmetic over `real`. The square roots sqrt((a alpha)_i) are an
input sequence `roots`. The lemmas that need the relation require
`roots[i] * roots[i] == aAlphas[i]` (`MixingMatrices.RootsOf`). A Python
`ZeroDivisionError` becomes `Err(ZeroDivision)`. `ValueError("Root must be specified")`
becomes `Err(RootNotSpecified)`.

The loops are imperative Dafny. Buffers of size N x N are `array2<real>`, and the
methods return their contents as `seq<seq<real>>`. Row vectors are `array<real>` updated
in place. Each kernel is proved against a specification function: a quadratic form
`QuadraticForm(zs, m)` of a named matrix, and row sums `Dot(zs, m[p], 0, N)`. Lemmas
then say what those matrices are:

- the mixing rule of the docstring;
- each other, across kernels;
- the temperature derivatives of the cross terms.

Modules:

- `Outcomes`: Option and Result.
- `QuadraticSums`: finite sums and the triangle rearrangements.
- `MixingMatrices`: the cross-term matrices and the mixing rule.
- `EosMixMethods`: the table builders, `a_alpha_and_derivatives` and `a_alpha_and_derivatives_full`.
- `QuadraticTerms`: `a_alpha_quadratic_terms`.
- `QuadraticDerivatives`: `a_alpha_and_derivatives_quadratic_terms`.
- `KernelAgreement`: the full kernel and the row-sum kernel agree.
- `PengRobinson`: `PR_lnphis_fastest`.

## Model

| member | source | states |
|---|---|---|
| EosMixMethods.AAlphaAijsCompositionIndependent | thermo/eos_mix_methods.py:43-70 | Fails with ZeroDivision exactly when some root is zero. Otherwise it returns the cross terms (1 - k_ij) root_i root_j for j >= i, read from the upper triangle of kijs and mirrored, plus the roots and the inverses 1/(root_i root_j) above the diagonal, with 0 below it |
| EosMixMethods.FillRow | thermo/eos_mix_methods.py:54-69 | One pass of the outer loop succeeds exactly when every product root_i root_j, j >= i, is nonzero. It then leaves rows up to i of both buffers filled and mirrored, and the rest untouched (zero) |
| EosMixMethods.AAlphaAijsCompositionIndependentSupportZeros | thermo/eos_mix_methods.py:73-95 | Never fails. It returns the same cross terms, and stores 1e100 where root_i root_j is 0 instead of its inverse |
| EosMixMethods.FillRowSupportZeros | thermo/eos_mix_methods.py:82-94 | One pass of the zero-tolerant fill loop: rows up to i filled, with the sentinel for a zero product |
| EosMixMethods.InvUpperIsInverse | thermo/eos_mix_methods.py:66-68 | With no zero root, each stored inverse times root_i root_j is 1. Both builders then store the same inverse table |
| EosMixMethods.SumUpperTriangle | thermo/eos_mix_methods.py:106-114 | The loop returns the upper-triangle sum with every off-diagonal term twice. For a symmetric matrix that is the full quadratic form sum_ij z_i z_j m_ij |
| EosMixMethods.AddUpperRow | thermo/eos_mix_methods.py:110-112 | The inner loop adds 2 z_i sum_{j>i} z_j m_ij |
| EosMixMethods.AAlphaAndDerivatives | thermo/eos_mix_methods.py:98-116 | Returns (a alpha, None, table). With all three caches given, it sums the cached table and returns that table. Otherwise it builds the table, fails exactly on a zero root (the error is always ZeroDivision), and returns the quadratic form of the mirrored upper-triangle mix |
| EosMixMethods.ProductsWeight | thermo/eos_mix_methods.py:132 | Weighting a row by the precomputed products z_i z_q is weighting it by z_q, then by z_i |
| EosMixMethods.SumLowerTriangle | thermo/eos_mix_methods.py:134-141 | The loop over the lower triangle, weighted by the z_products table, returns the lower-triangle sum with off-diagonal terms twice. For a symmetric matrix that is the quadratic form |
| EosMixMethods.DaEntryIsDerivative | thermo/eos_mix_methods.py:168-175 | Cell (i, j) of the first-derivative table, times root_i root_j, is (1 - k_ij)(a_i da_j + a_j da_i)/2, the temperature derivative of (1 - k_ij) sqrt(a_i a_j) times sqrt(a_i a_j) |
| EosMixMethods.D2EntryIsDerivative | thermo/eos_mix_methods.py:182-186 | Cell (i, j) of the second-derivative table, times (root_i root_j)^3, is (1 - k_ij)(f''/2 f - f'^2/4) for f = a_i a_j, the second temperature derivative of (1 - k_ij) sqrt(f) times f sqrt(f) |
| EosMixMethods.BuiltTablesDivisorsNonzero | thermo/eos_mix_methods.py:184-186 | With tables built from nonzero roots that square to the attractive terms, no divisor x0_05_inv x0 x0 is zero |
| EosMixMethods.FillDerivativePair | thermo/eos_mix_methods.py:163-190 | Pair (i, j) writes the first-derivative cross term and its mirror, and the second one when requested. It fails exactly when the divisor is zero. It returns both terms weighted by z_i z_j |
| EosMixMethods.FillDerivativeRow | thermo/eos_mix_methods.py:149-197 | Row i, with the `continue` for j < i, fails exactly when one of its divisors is zero. Otherwise it adds the row's diagonal term once and the others twice |
| EosMixMethods.FillDerivativeTables | thermo/eos_mix_methods.py:149-197 | The whole derivative loop fails exactly when some divisor is zero. Otherwise it fills both symmetric tables and returns their upper-triangle sums |
| EosMixMethods.DerivativeSums | thermo/eos_mix_methods.py:143-201 | Fails exactly when some divisor is zero. Otherwise da alpha/dT and d2a alpha/dT2 are the quadratic forms of the symmetric derivative tables, and the tables are returned (the second only when requested) |
| EosMixMethods.AAlphaAndDerivativesFull | thermo/eos_mix_methods.py:119-201 | Uses the caches only when all three are given, and otherwise builds the tables. Fails exactly on a zero root or a zero divisor, and the error is always ZeroDivision. Otherwise it returns a alpha (lower triangle), both derivatives, the optional second-derivative table, the first-derivative table and a_alpha_ijs |
| MixingMatrices.UpperMixReadsUpperTriangle | thermo/eos_mix_methods.py:61-69 | The table builders never read kijs below the diagonal |
| MixingMatrices.UpperMixIsMix | thermo/eos_mix_methods.py:61-69 | With symmetric kijs, the mirrored upper-triangle table is the docstring's mixing rule (1 - k_ij) root_i root_j |
| MixingMatrices.TermsMatrixReadsLowerTriangle | thermo/eos_mix_methods.py:276-288 | `a_alpha_quadratic_terms` never reads kijs above the diagonal |
| MixingMatrices.TermsMatrixIsMix | thermo/eos_mix_methods.py:209-213 | With symmetric kijs and roots that square to the attractive terms, the matrix the row-sum kernel sums is the docstring's mixing rule |
| MixingMatrices.DerivTermsMatrixIsTermsMatrix | thermo/eos_mix_methods.py:358-361 | The derivative kernel's matrix (diagonal (a alpha)_i) equals the plain kernel's (diagonal (1 - k_ii)(a alpha)_i) when every k_ii is 0. Conversely, equality forces k_ii = 0 wherever (a alpha)_i is nonzero |
| QuadraticTerms.AccumulateCrossRows | thermo/eos_mix_methods.py:273-284 | The pairwise while loops leave row p holding sum_{q != p} (root_q z_q)(1 - k_{max(p,q) min(p,q)}), reading only the lower-triangle entry of kijs, with the diagonal left out |
| QuadraticTerms.ScaleRows | thermo/eos_mix_methods.py:286-289 | Scaling row i by root_i and adding (1 - k_ii)(a alpha)_i z_i turns each row into sum_j z_j (a alpha)_ij. a alpha is the sum of the rows weighted by z |
| QuadraticTerms.ScaleRowAt | thermo/eos_mix_methods.py:287-289 | One pass of the closing loop: row i becomes its full row sum, the other rows are unchanged, and a alpha gains row i times z_i |
| QuadraticTerms.ScaleRow | thermo/eos_mix_methods.py:287-288 | The scaled row is the row sum of the mixing matrix |
| QuadraticTerms.AAlphaQuadraticTerms | thermo/eos_mix_methods.py:204-291 | a_alpha_j_rows[i] = sum_j z_j (a alpha)_ij, a alpha = sum_i z_i a_alpha_j_rows[i] = the quadratic form. With symmetric kijs and true roots, both are those of the docstring's mixing rule |
| QuadraticTerms.CrossScalesIntoTerms | thermo/eos_mix_methods.py:271-288 | Each row of cross factors weighted by root_q z_q, scaled by root_p and completed with the diagonal term, is the row of the mixing matrix weighted by z |
| QuadraticTerms.PartialRowBounds | thermo/eos_mix_methods.py:268-291 | Before the pairwise loop every row sum is 0. After it, each is the full weighted row sum |
| QuadraticTerms.PartialRowPair | thermo/eos_mix_methods.py:281-282 | Visiting pair (i, j), j < i, adds z_i m_ji to row j and z_j m_ij to row i, and changes no other row |
| QuadraticDerivatives.VisitPair | thermo/eos_mix_methods.py:316-354 | Pair (i, j), j < i, fails exactly when root_i root_j is 0. Otherwise it adds the pair's terms to rows i and j of both vectors and returns its three terms weighted by z_i z_j. The derivative terms are DaPairTerm and D2PairTerm, whose meaning DaRowsEntryIsDerivative and D2RowsEntryIsDerivative prove |
| QuadraticDerivatives.RowPairs | thermo/eos_mix_methods.py:316-354 | The inner loop of row i fails exactly when some root_i root_j, j < i, is zero. Otherwise it adds the pair terms to both row vectors and a alpha, and leaves workingd1 and workings2 as the row's weighted terms |
| QuadraticDerivatives.DiagonalStep | thermo/eos_mix_methods.py:358-367 | Closing row i with k_ii = 0 completes both row vectors for row i. It brings a alpha and the two derivatives to the lower-triangle sums of rows 0..i |
| QuadraticDerivatives.CloseAlphaRow | thermo/eos_mix_methods.py:359-361 | Adds t200 = (a alpha)_i z_i to row i and t200 z_i to a alpha |
| QuadraticDerivatives.CloseDaRow | thermo/eos_mix_methods.py:362-366 | Adds -2 da_i z_i to row i. The first derivative gains -1/2 (-2 da_i z_i^2 + 2 workingd1) |
| QuadraticDerivatives.DerivativeRow | thermo/eos_mix_methods.py:306-367 | One pass of the outer loop fails exactly on a zero product of roots in row i, and otherwise keeps the three running sums and both row vectors at their lower-triangle values |
| QuadraticDerivatives.HalveRows | thermo/eos_mix_methods.py:368-369 | Each first-derivative row sum is multiplied by -1/2 in place |
| QuadraticDerivatives.PairwiseDerivatives | thermo/eos_mix_methods.py:296-371 | The loops return the lower-triangle sums of a alpha, of the first derivative (times -1/2) and of the second derivative, with both row vectors. They fail exactly when some pair j < i has a zero product of roots |
| QuadraticDerivatives.AAlphaAndDerivativesQuadraticTerms | thermo/eos_mix_methods.py:294-371 | Fails with ZeroDivision exactly when some root_i root_j, j < i, is zero. Otherwise a alpha, da alpha/dT and d2a alpha/dT2 are the quadratic forms of the kernel's three matrices, and the row vectors are their row sums. With every k_ii = 0, a alpha and its rows are those of `a_alpha_quadratic_terms` |
| QuadraticDerivatives.MatricesEntries | thermo/eos_mix_methods.py:318-363 | The three matrices hold the pair terms below the diagonal, mirrored, and (a alpha)_i, -2 da_i and d2a_i on the diagonal |
| QuadraticDerivatives.DaRowsEntryIsDerivative | thermo/eos_mix_methods.py:336-341 | The first-derivative term, after the final -1/2, times root_i root_j is (1 - k_ij)(a_i da_j + a_j da_i)/2. On the diagonal it is da_i |
| QuadraticDerivatives.D2RowsEntryIsDerivative | thermo/eos_mix_methods.py:345-350 | The second-derivative term, times (root_i root_j)^3, is (1 - k_ij)(f''/2 f - f'^2/4) for f = a_i a_j. On the diagonal it is d2a_i |
| KernelAgreement.DaTablesAgree | thermo/eos_mix_methods.py:175 | A cell of the full kernel's first-derivative table is the row-sum kernel's term times -1/2 |
| KernelAgreement.D2TablesAgree | thermo/eos_mix_methods.py:184-186 | A cell of the full kernel's second-derivative table is the row-sum kernel's term |
| KernelAgreement.D2OffDiagonal | thermo/eos_mix_methods.py:348-350 | The full kernel's expression, divided by x0_05_inv x0 x0, equals the row-sum kernel's expression, multiplied by v0_inv^2 v1 |
| KernelAgreement.MixTablesAgree | thermo/eos_mix_methods.py:358-361 | With symmetric kijs and k_ii = 0, the built a_alpha_ijs is the row-sum kernel's matrix |
| KernelAgreement.FullAndQuadraticTermsAgree | thermo/eos_mix_methods.py:119-201 | For symmetric kijs with k_ii = 0 and nonzero roots that square to the attractive terms, neither kernel fails. `a_alpha_and_derivatives_full` and `a_alpha_and_derivatives_quadratic_terms` (294-371) return the same a alpha, da alpha/dT and d2a alpha/dT2 |
| QuadraticSums.UpperTriangleForm | thermo/eos_mix_methods.py:107-114 | For a symmetric matrix, twice the strict upper triangle plus the diagonal is the quadratic form |
| QuadraticSums.LowerTriangleForm | thermo/eos_mix_methods.py:135-141 | For a symmetric matrix, twice the strict lower triangle plus the diagonal is the quadratic form |
| QuadraticSums.BlockIsLowerTriangle | thermo/eos_mix_methods.py:135-141 | The leading n x n block of a symmetric matrix's form is twice its strict lower triangle plus its diagonal |
| QuadraticSums.UpperIsLower | thermo/eos_mix_methods.py:110-112 | For a symmetric matrix the strict upper and strict lower triangle sums agree |
| QuadraticSums.RowSumsForm | thermo/eos_mix_methods.py:289 | Weighting the row sums by z gives the quadratic form |
| PengRobinson.MixB | thermo/eos_mix_methods.py:398-400 | b = sum_i b_i z_i over the components of bs |
| PengRobinson.SelectRoot | thermo/eos_mix_methods.py:406-420 | Fails with RootNotSpecified exactly when neither l nor g is set. With l it keeps the smallest of V0 and the roots above b, and with g the largest. V0 is kept when V1 is 0 |
| PengRobinson.LiquidChoiceUnique | thermo/eos_mix_methods.py:406-412 | The liquid-like choice is determined by the three volumes and b |
| PengRobinson.GasChoiceUnique | thermo/eos_mix_methods.py:413-418 | The gas-like choice is determined by the three volumes and b |
| PengRobinson.LiquidNotAboveGas | thermo/eos_mix_methods.py:406-418 | From the same volumes, the liquid-like root is never above the gas-like one |
| PengRobinson.Compressibility | thermo/eos_mix_methods.py:405-421 | Fails exactly when no root is specified (RootNotSpecified) or R T is 0 (ZeroDivision). Otherwise Z = P V / (R T) for the selected root of the solver's volumes |
| PengRobinson.PRLnphisFastest | thermo/eos_mix_methods.py:394-422 | Same failures. Otherwise the closing `PR_lnphis` call gets T, P, zs and bs, b = sum b_i z_i, and a alpha and its rows from `a_alpha_quadratic_terms`. Z is P V / (R T) for the root selected from the solver's volumes for b, delta = 2b, epsilon = -b^2 |

## Left out

- Square roots (`a_alpha_i**0.5` at lines 48 and 79, `sqrt` at line 39) are not taken. The roots are an input, and lemmas that need them require `roots[i]^2 = (a alpha)_i`. The `a_alpha_i_roots` these kernels return is that input.
- Floating point is not modelled: no rounding, no overflow, no NaN or infinities. All arithmetic is exact over the reals, so a product that underflows to 0.0 in Python is not a zero here.
- `PR_lnphis` (lines 374-391) takes logarithms and is not modelled. `PengRobinson.PRLnphisFastest` returns the arguments it would call it with.
- `volume_solutions_halley` (`thermo.eos_volume`, line 34) is not part of this model. It is a function-valued parameter of `PRLnphisFastest` and `Compressibility`, so the model says nothing about the volumes it returns. It is called at line 405, before root selection; any exception it raises there is not modelled.
- The constant `R` of `fluids.constants` (line 32) is taken as 8.31446261815324. The module constants of lines 36-41 are left out. `PR_lnphis` is the only user of `R_inv` (line 380), `R2_inv` (line 379) and `root_two` (line 382). Nothing in the file uses `R2`, `root_two_m1` or `root_two_p1`.
- The parameter `T` of the four summing kernels (lines 98, 119, 204 and 294) is accepted and unused, as in the source. The two table builders (lines 43 and 73) take no `T`. `PR_lnphis_fastest` passes its `T` to the solver, to Z and to `PR_lnphis`. Its `ais` and `kappas` are accepted and unused.
- The tuple of 5 or 6 values of `a_alpha_and_derivatives_full` (lines 199-201) is one datatype whose second-derivative table is an `Option`, `None` when it was not requested.
- The caches of `a_alpha_and_derivatives` and `a_alpha_and_derivatives_full` are `Option` values. The source rebuilds all tables unless all three are given, and so does the model. A cached table is assumed square, because the source indexes it as N x N.
- `a_alpha_ij_roots_inv` in `a_alpha_and_derivatives_full` is only ever read at cells j >= i, as in the source. With a cached table, whatever it holds there is used as is.
- EosMixMethods.D2Entry: where the divisor `x0_05_inv*x0*x0` is 0, the cell value is irrelevant, because the kernel raises instead. The model returns 0 there and the method fails.
- QuadraticDerivatives.DaPairTerm and QuadraticDerivatives.D2PairTerm: likewise 0 where root_i root_j is 0, a case in which the kernel raises before using them.
- Aliasing between the Python lists and the caller's lists is not modelled. The cached tables are values, and the buffers the kernels allocate are fresh.
