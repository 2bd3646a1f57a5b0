/** `PR_lnphis_fastest`: the Peng-Robinson fugacity path that mixes b and a alpha from
    precomputed pure-component values, asks a cubic solver for the volumes, keeps the
    liquid-like or the gas-like root, and hands the compressibility factor and the mixed
    terms to `PR_lnphis`. The cubic solver is a parameter; `PR_lnphis` itself is not
    modelled, so the method returns the arguments it would be called with. */
module PengRobinson {
  import opened Outcomes
  import opened QuadraticSums
  import opened MixingMatrices
  import opened QuadraticTerms

  /** The molar gas constant of fluids.constants, J/(mol K). */
  const R: real := 8.31446261815324

  /** The three volumes a cubic solver returns; V1 = 0 means only V0 is real. */
  datatype Volumes = Volumes(V0: real, V1: real, V2: real)

  /** The arguments of the closing call `PR_lnphis(T, P, Z, b, a_alpha, zs, bs, a_alpha_j_rows)`. */
  datatype LnphisArgs = LnphisArgs(T: real, P: real, Z: real, b: real, aAlpha: real,
                                   zs: seq<real>, bs: seq<real>, aAlphaJRows: seq<real>)

  /** v is the liquid-like root of the solver's volumes: V0 when only V0 is real, otherwise
      the smallest of V0 and the other roots above the co-volume b. */
  predicate LiquidChoice(v: real, b: real, vs: Volumes)
  {
    if vs.V1 == 0.0 then v == vs.V0
    else (v == vs.V0 || (v == vs.V1 && vs.V1 > b) || (v == vs.V2 && vs.V2 > b)) &&
         v <= vs.V0 && (vs.V1 > b ==> v <= vs.V1) && (vs.V2 > b ==> v <= vs.V2)
  }

  /** v is the gas-like root: V0 when only V0 is real, otherwise the largest of V0 and the
      other roots above the co-volume b. */
  predicate GasChoice(v: real, b: real, vs: Volumes)
  {
    if vs.V1 == 0.0 then v == vs.V0
    else (v == vs.V0 || (v == vs.V1 && vs.V1 > b) || (v == vs.V2 && vs.V2 > b)) &&
         v >= vs.V0 && (vs.V1 > b ==> v >= vs.V1) && (vs.V2 > b ==> v >= vs.V2)
  }

  /** The root selection of `PR_lnphis_fastest`: with l, V0 is replaced in turn by V1 and V2
      when they are smaller and above b; with g (and not l), when they are larger and above
      b; nothing changes when V1 is 0. Neither flag raises "Root must be specified". */
  method SelectRoot(l: bool, g: bool, b: real, vs: Volumes) returns (r: Result<real>)
    ensures r.Err? <==> !l && !g
    ensures r.Err? ==> r.error == RootNotSpecified
    ensures r.Ok? && l ==> LiquidChoice(r.value, b, vs)
    ensures r.Ok? && !l ==> GasChoice(r.value, b, vs)
  {
    var V0, V1, V2 := vs.V0, vs.V1, vs.V2;
    if l {
      if V1 != 0.0 {
        if V0 > V1 && V1 > b {
          V0 := V1;
        }
        if V0 > V2 && V2 > b {
          V0 := V2;
        }
      }
    } else if g {
      if V1 != 0.0 {
        if V0 < V1 && V1 > b {
          V0 := V1;
        }
        if V0 < V2 && V2 > b {
          V0 := V2;
        }
      }
    } else {
      return Err(RootNotSpecified);
    }
    r := Ok(V0);
  }

  /** The liquid-like choice is determined by the volumes: SelectRoot has a single answer. */
  lemma LiquidChoiceUnique(v: real, w: real, b: real, vs: Volumes)
    requires LiquidChoice(v, b, vs) && LiquidChoice(w, b, vs)
    ensures v == w
  {
  }

  /** The gas-like choice is determined by the volumes. */
  lemma GasChoiceUnique(v: real, w: real, b: real, vs: Volumes)
    requires GasChoice(v, b, vs) && GasChoice(w, b, vs)
    ensures v == w
  {
  }

  /** From the same volumes, the liquid-like root is never larger than the gas-like one. */
  lemma LiquidNotAboveGas(v: real, w: real, b: real, vs: Volumes)
    requires LiquidChoice(v, b, vs) && GasChoice(w, b, vs)
    ensures v <= w
  {
  }

  /** The mixed co-volume b = sum_i b_i z_i, accumulated as the kernel's first loop does. */
  method MixB(bs: seq<real>, zs: seq<real>) returns (b: real)
    requires |bs| <= |zs|
    ensures b == Weighted(bs, zs, |bs|)
  {
    b := 0.0;
    for i := 0 to |bs|
      invariant b == Weighted(bs, zs, i)
    {
      b := b + bs[i] * zs[i];
    }
  }

  /** Z is P V / (R T) for the volume V that SelectRoot keeps (the liquid-like one with l). */
  ghost predicate CompressibilityOf(Z: real, T: real, P: real, l: bool, b: real, vs: Volumes)
  {
    exists v :: (if l then LiquidChoice(v, b, vs) else GasChoice(v, b, vs)) && R * T != 0.0 && Z == P * v / (R * T)
  }

  /** The solver's volumes for co-volume b, with delta = 2b and epsilon = -b^2. */
  function SolverVolumes(volumeSolutions: (real, real, real, real, real, real) -> Volumes,
                         T: real, P: real, b: real, aAlpha: real): Volumes
  {
    volumeSolutions(T, P, b, 2.0 * b, (-b) * b, aAlpha)
  }

  /** The volumes of the solver for b, delta, epsilon and a alpha, the root that l or g
      selects, and its compressibility factor Z = P V / (R T). */
  method Compressibility(T: real, P: real, l: bool, g: bool, b: real, delta: real, epsilon: real, aAlpha: real,
                         volumeSolutions: (real, real, real, real, real, real) -> Volumes)
    returns (r: Result<real>)
    requires delta == 2.0 * b && epsilon == (-b) * b
    ensures r.Err? <==> (!l && !g) || T == 0.0
    ensures r.Err? ==> r.error == if !l && !g then RootNotSpecified else ZeroDivision
    ensures r.Ok? ==> CompressibilityOf(r.value, T, P, l, b, SolverVolumes(volumeSolutions, T, P, b, aAlpha))
  {
    var vs := volumeSolutions(T, P, b, delta, epsilon, aAlpha);
    var chosen := SelectRoot(l, g, b, vs);
    if chosen.Err? {
      return Err(chosen.error);
    }
    var v := chosen.value;
    if R * T == 0.0 {
      return Err(ZeroDivision);
    }
    r := Ok(P * v / (R * T));
    assert (if l then LiquidChoice(v, b, vs) else GasChoice(v, b, vs)) && R * T != 0.0 && r.value == P * v / (R * T);
  }

  /** `PR_lnphis_fastest` up to its closing call: b mixed linearly, delta = 2b and
      epsilon = -b^2, a alpha and its row sums by `a_alpha_quadratic_terms`, the volumes from
      the solver, the root chosen by l or g, and Z = P V / (R T). It fails with
      RootNotSpecified when neither flag is set, and with ZeroDivision when T = 0. */
  method PRLnphisFastest(zs: seq<real>, T: real, P: real, kijs: Matrix, l: bool, g: bool, ais: seq<real>,
                         bs: seq<real>, aAlphas: seq<real>, roots: seq<real>, kappas: seq<real>,
                         volumeSolutions: (real, real, real, real, real, real) -> Volumes)
    returns (r: Result<LnphisArgs>)
    requires |bs| == |zs| == |aAlphas| == |roots| && IsSquare(kijs, |zs|)
    ensures r.Err? <==> (!l && !g) || T == 0.0
    ensures r.Err? ==> r.error == if !l && !g then RootNotSpecified else ZeroDivision
    ensures r.Ok? ==> r.value.T == T && r.value.P == P && r.value.zs == zs && r.value.bs == bs
    ensures r.Ok? ==> r.value.b == Weighted(bs, zs, |zs|)
    ensures r.Ok? ==> r.value.aAlpha == QuadraticForm(zs, TermsMatrix(aAlphas, roots, kijs))
    ensures r.Ok? ==> |r.value.aAlphaJRows| == |zs|
    ensures r.Ok? ==> forall p :: 0 <= p < |zs| ==>
      r.value.aAlphaJRows[p] == Dot(zs, TermsMatrix(aAlphas, roots, kijs)[p], 0, |zs|)
    ensures r.Ok? ==> CompressibilityOf(r.value.Z, T, P, l, r.value.b,
                                        SolverVolumes(volumeSolutions, T, P, r.value.b, r.value.aAlpha))
  {
    var b := MixB(bs, zs);
    var delta := 2.0 * b;
    var epsilon := (-b) * b;
    var aAlpha, aAlphaJRows := AAlphaQuadraticTerms(aAlphas, roots, T, zs, kijs);
    var z := Compressibility(T, P, l, g, b, delta, epsilon, aAlpha, volumeSolutions);
    if z.Err? {
      return Err(z.error);
    }
    r := Ok(LnphisArgs(T, P, z.value, b, aAlpha, zs, bs, aAlphaJRows));
  }
}
