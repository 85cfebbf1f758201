/** The decision rules around the MAC projection (`MacProj`,
    `SetMacSolverBCs`, `MultFacesByBeta0`): boundary types handed to the
    elliptic solver, its tolerances, the time at which density is sampled,
    the operator coefficients, and the multiply / correct / divide order on
    the face velocities.

    The elliptic solve itself, the solver right-hand side kernel, the
    face averaging of cell coefficients and the ghost-cell fill are external
    and enter as function parameters. Face data is one flat sequence of
    faces, with one edge value of beta0 per face. */
module MacProjection {
  import opened Common

  /** Boundary-condition codes a velocity side can carry. */
  datatype BCCode = IntDir | FoExtrap | ExtDir | ReflectOdd | ReflectEven | HoExtrap

  /** Boundary types the elliptic operator accepts. */
  datatype LinOpBC = Periodic | Neumann | Dirichlet

  predicate Supported(code: BCCode) {
    code == IntDir || code == FoExtrap || code == ExtDir
  }

  /** The solver boundary type of one side, or an abort. */
  function LinOpFor(code: BCCode): (r: Result<LinOpBC>)
    ensures r.Ok? <==> Supported(code)
  {
    match code
    case IntDir => Ok(Periodic)
    case FoExtrap => Ok(Neumann)
    case ExtDir => Ok(Dirichlet)
    case _ => Abort("invalid")
  }

  /** The velocity code that maps to a given solver boundary type. */
  function CodeFor(b: LinOpBC): BCCode {
    match b
    case Periodic => IntDir
    case Neumann => FoExtrap
    case Dirichlet => ExtDir
  }

  /** The mapping is a bijection between the supported codes and the
      solver's boundary types. */
  lemma LinOpForRoundTrip(b: LinOpBC, code: BCCode)
    ensures LinOpFor(CodeFor(b)) == Ok(b)
    ensures LinOpFor(code) == Ok(b) ==> CodeFor(b) == code
  {
  }

  const LoMsg: string := "Invalid mlmg_lobc"
  const HiMsg: string := "Invalid mlmg_hibc"

  datatype DomainBC = DomainBC(lo: seq<LinOpBC>, hi: seq<LinOpBC>)

  predicate AllSupported(lo: seq<BCCode>, hi: seq<BCCode>, i: nat, j: nat)
    requires i <= j <= |lo| == |hi|
  {
    forall k :: i <= k < j ==> Supported(lo[k]) && Supported(hi[k])
  }

  /** Directions `i..` of `SetMacSolverBCs`: lo then hi side of each
      direction in turn, each mapped independently; the first unsupported
      code aborts with the message of its side. */
  function SolverBCsFrom(lo: seq<BCCode>, hi: seq<BCCode>, i: nat): (r: Result<DomainBC>)
    requires i <= |lo| == |hi|
    decreases |lo| - i
    ensures r.Ok? <==> AllSupported(lo, hi, i, |lo|)
    ensures r.Ok? ==> |r.value.lo| == |lo| - i && |r.value.hi| == |lo| - i
    ensures r.Ok? ==> forall k :: i <= k < |lo| ==>
      Ok(r.value.lo[k - i]) == LinOpFor(lo[k]) && Ok(r.value.hi[k - i]) == LinOpFor(hi[k])
    ensures r.Abort? ==>
      exists k :: (i <= k < |lo| && AllSupported(lo, hi, i, k) &&
                   ((!Supported(lo[k]) && r.msg == LoMsg) || (Supported(lo[k]) && !Supported(hi[k]) && r.msg == HiMsg)))
  {
    if i == |lo| then Ok(DomainBC([], []))
    else
      match LinOpFor(lo[i])
      case Abort(_) => Abort(LoMsg)
      case Ok(a) =>
        match LinOpFor(hi[i])
        case Abort(_) => Abort(HiMsg)
        case Ok(b) =>
          var rest := SolverBCsFrom(lo, hi, i + 1);
          if rest.Abort? then rest
          else Ok(DomainBC([a] + rest.value.lo, [b] + rest.value.hi))
  }

  /** `SetMacSolverBCs`: the solver boundary types of every side, mapped from
      the velocity's boundary codes, or an abort. */
  function SetMacSolverBCs(lo: seq<BCCode>, hi: seq<BCCode>): (r: Result<DomainBC>)
    requires |lo| == |hi|
    ensures r.Ok? <==> AllSupported(lo, hi, 0, |lo|)
    ensures r.Ok? ==> |r.value.lo| == |lo| && |r.value.hi| == |hi|
    ensures r.Ok? ==> forall k :: 0 <= k < |lo| ==>
      CodeFor(r.value.lo[k]) == lo[k] && CodeFor(r.value.hi[k]) == hi[k]
  {
    var r := SolverBCsFrom(lo, hi, 0);
    if r.Ok? then
      assert forall k :: 0 <= k < |lo| ==>
        LinOpFor(lo[k]) == Ok(r.value.lo[k]) && LinOpFor(hi[k]) == Ok(r.value.hi[k]);
      forall k | 0 <= k < |lo|
        ensures CodeFor(r.value.lo[k]) == lo[k] && CodeFor(r.value.hi[k]) == hi[k]
      {
        LinOpForRoundTrip(r.value.lo[k], lo[k]);
        LinOpForRoundTrip(r.value.hi[k], hi[k]);
      }
      r
    else r
  }

  // ---------------------------------------------------------------------
  // Solver tolerances
  // ---------------------------------------------------------------------

  const EpsMac: real := 0.0000000001
  const EpsMacMax: real := 0.00000001
  const MacLevelFactor: real := 10.0
  const MacTolAbs: real := -0.0000000001

  lemma PowTenAtLeastHundred(n: nat)
    requires n >= 2
    ensures Pow(10.0, n) >= 100.0
  {
    if n > 2 {
      PowTenAtLeastHundred(n - 1);
    }
  }

  lemma {:induction false} PowTenMonotone(m: nat, n: nat)
    requires m <= n
    ensures 1.0 <= Pow(10.0, m) <= Pow(10.0, n)
  {
    if m < n {
      PowTenMonotone(m, n - 1);
    } else if m > 0 {
      PowTenMonotone(m - 1, m - 1);
    }
  }

  /** The powers of ten the tolerance formula meets: at least one, at most
      ten below level two, exactly a hundred at level two, at least a
      hundred above. */
  lemma PowTenFacts(n: nat)
    ensures Pow(10.0, n) >= 1.0
    ensures n < 2 ==> Pow(10.0, n) <= 10.0
    ensures n == 2 ==> Pow(10.0, n) == 100.0
    ensures n >= 2 ==> Pow(10.0, n) >= 100.0
  {
    PowTenMonotone(0, n);
    if n >= 2 { PowTenAtLeastHundred(n); }
    if n == 1 { assert Pow(10.0, 1) == 10.0; }
    if n == 2 { assert Pow(10.0, 2) == 10.0 * Pow(10.0, 1); }
  }

  /** Relative tolerance of the MAC solve: ten times looser per refinement
      level, capped. */
  function MacTolRel(finestLevel: nat): (t: real)
    ensures 0.0 < t <= EpsMacMax
    ensures finestLevel <= 2 ==> t == EpsMac * Pow(MacLevelFactor, finestLevel)
    ensures finestLevel >= 2 ==> t == EpsMacMax
  {
    PowTenFacts(finestLevel);
    Min(EpsMac * Pow(MacLevelFactor, finestLevel), EpsMacMax)
  }

  /** A finer hierarchy never asks for a tighter relative tolerance. */
  lemma MacTolRelMonotone(m: nat, n: nat)
    requires m <= n
    ensures MacTolRel(m) <= MacTolRel(n)
  {
    PowTenMonotone(m, n);
  }

  /** The tolerances handed to the solver: the relative one, and a negative
      absolute one that switches the absolute criterion off. */
  datatype Tolerances = Tolerances(rel: real, abs: real)

  function SolverTolerances(finestLevel: nat): (t: Tolerances)
    ensures t.abs < 0.0 < t.rel <= EpsMacMax
    ensures t.rel == MacTolRel(finestLevel)
  {
    Tolerances(MacTolRel(finestLevel), MacTolAbs)
  }

  // ---------------------------------------------------------------------
  // Density time centring
  // ---------------------------------------------------------------------

  datatype Slot = OldState | NewState

  /** The fill request for density: the time it is wanted at, and the two
      states the fill interpolates between (the first is always `sold`). */
  datatype RhoFill = RhoFill(time: real, second: Slot)

  function RhoFillFor(isPredictor: bool, tOld: real, tNew: real): (f: RhoFill)
    ensures isPredictor ==> f.time == tOld
    ensures !isPredictor ==> f.time - tOld == tNew - f.time
    ensures f.second == OldState <==> (isPredictor && tOld == 0.0)
  {
    var time := if isPredictor then tOld else 0.5 * (tOld + tNew);
    if tOld == 0.0 && isPredictor then RhoFill(time, OldState) else RhoFill(time, NewState)
  }

  /** Linear interpolation in time between two states, the way a fill
      between an old and a new time level produces a value. */
  function Interp(t0: real, t1: real, t: real, a: real, b: real): real
    requires t0 != t1
  {
    a + (t - t0) / (t1 - t0) * (b - a)
  }

  /** If the fill interpolates linearly, the predictor sees rho^n and the
      corrector sees the average of rho^n and rho^{n+1,*}. */
  lemma RhoFillSamplesIntendedDensity(isPredictor: bool, tOld: real, tNew: real, rOld: real, rNew: real)
    requires tOld != tNew
    ensures var f := RhoFillFor(isPredictor, tOld, tNew);
      var second := if f.second == OldState then rOld else rNew;
      Interp(tOld, tNew, f.time, rOld, second) == (if isPredictor then rOld else 0.5 * (rOld + rNew))
  {
    var f := RhoFillFor(isPredictor, tOld, tNew);
    if !isPredictor {
      assert (f.time - tOld) / (tNew - tOld) == 0.5;
    }
  }

  // ---------------------------------------------------------------------
  // Coefficients and the face update
  // ---------------------------------------------------------------------

  /** `mult_beta0` with mult_or_div = 1. */
  function MultFaces(u: seq<real>, beta: seq<real>): (w: seq<real>)
    requires |u| == |beta|
    ensures |w| == |u|
    ensures forall i :: 0 <= i < |u| ==> w[i] == u[i] * beta[i]
  {
    seq(|u|, i requires 0 <= i < |u| => u[i] * beta[i])
  }

  predicate NonZero(s: seq<real>) {
    forall i :: 0 <= i < |s| ==> s[i] != 0.0
  }

  /** `mult_beta0` with mult_or_div = 0. */
  function DivFaces(w: seq<real>, beta: seq<real>): (u: seq<real>)
    requires |w| == |beta| && NonZero(beta)
    ensures |u| == |w|
    ensures forall i :: 0 <= i < |w| ==> u[i] * beta[i] == w[i]
  {
    seq(|w|, i requires 0 <= i < |w| => w[i] / beta[i])
  }

  /** Dividing by beta0 undoes multiplying by it. */
  lemma DivUndoesMult(u: seq<real>, beta: seq<real>)
    requires |u| == |beta| && NonZero(beta)
    ensures DivFaces(MultFaces(u, beta), beta) == u
  {
    var v := DivFaces(MultFaces(u, beta), beta);
    forall i | 0 <= i < |u| ensures v[i] == u[i] {
      assert v[i] * beta[i] == u[i] * beta[i];
    }
  }

  /** One over a non-zero value. */
  function Recip(x: real): (y: real)
    requires x != 0.0
    ensures y * x == 1.0
    ensures x > 0.0 ==> y > 0.0
  {
    1.0 / x
  }

  /** Cell-centred B coefficient: one over the density. */
  function CellB(rho: seq<real>): (b: seq<real>)
    requires NonZero(rho)
    ensures |b| == |rho|
    ensures forall i :: 0 <= i < |rho| ==> b[i] * rho[i] == 1.0
    ensures forall i :: 0 <= i < |rho| && rho[i] > 0.0 ==> b[i] > 0.0
  {
    seq(|rho|, i requires 0 <= i < |rho| => Recip(rho[i]))
  }

  /** Face B coefficient on a line of `n` cells with one ghost cell per side
      (`n+2` values): face `f` lies between cells `f` and `f+1`, and gets the
      face average of the neighbouring cell coefficients times beta0. */
  function FaceB(cellB: seq<real>, betaEdge: seq<real>, faceAvg: (real, real) -> real): (fb: seq<real>)
    requires |cellB| == |betaEdge| + 1
    ensures |fb| == |betaEdge|
    ensures forall f :: 0 <= f < |betaEdge| ==> fb[f] == betaEdge[f] * faceAvg(cellB[f], cellB[f + 1])
  {
    seq(|betaEdge|, f requires 0 <= f < |betaEdge| => betaEdge[f] * faceAvg(cellB[f], cellB[f + 1]))
  }

  /** Arithmetic face average. */
  function Avg(a: real, b: real): real { 0.5 * (a + b) }

  /** With arithmetic face averaging and positive density and beta0, every
      face coefficient is positive, so the operator is elliptic. */
  lemma FaceBPositive(rho: seq<real>, betaEdge: seq<real>)
    requires |rho| == |betaEdge| + 1
    requires forall i :: 0 <= i < |rho| ==> rho[i] > 0.0
    requires forall f :: 0 <= f < |betaEdge| ==> betaEdge[f] > 0.0
    ensures var fb := FaceB(CellB(rho), betaEdge, Avg);
      forall f :: 0 <= f < |fb| ==> fb[f] > 0.0
  {
    var b := CellB(rho);
    forall f | 0 <= f < |betaEdge| ensures FaceB(b, betaEdge, Avg)[f] > 0.0 {
      FacePositiveAt(b, betaEdge, f);
    }
  }

  lemma FacePositiveAt(b: seq<real>, betaEdge: seq<real>, f: nat)
    requires |b| == |betaEdge| + 1 && f < |betaEdge|
    requires b[f] > 0.0 && b[f + 1] > 0.0 && betaEdge[f] > 0.0
    ensures FaceB(b, betaEdge, Avg)[f] > 0.0
  {
    ProductPositive(betaEdge[f], Avg(b[f], b[f + 1]));
  }

  lemma ProductPositive(x: real, y: real)
    requires x > 0.0 && y > 0.0
    ensures x * y > 0.0
  {
  }

  /** The multiply / correct / divide sequence applied to face velocities:
      beta0*u is corrected by the B-weighted flux, then divided back. */
  function CorrectFaces(u: seq<real>, beta: seq<real>, faceB: seq<real>, flux: int -> real): (v: seq<real>)
    requires |u| == |beta| == |faceB| && NonZero(beta)
    ensures |v| == |u|
    ensures forall i :: 0 <= i < |u| ==> v[i] * beta[i] == u[i] * beta[i] - faceB[i] * flux(i)
    ensures forall i :: 0 <= i < |u| && flux(i) == 0.0 ==> v[i] == u[i]
  {
    var w := MultFaces(u, beta);
    var v := DivFaces(seq(|u|, i requires 0 <= i < |u| => w[i] - faceB[i] * flux(i)), beta);
    forall i | 0 <= i < |u| && flux(i) == 0.0 ensures v[i] == u[i] {
      assert v[i] * beta[i] == u[i] * beta[i];
    }
    v
  }

  /** Everything the elliptic solver is given. */
  datatype SolveRequest = SolveRequest(rhs: seq<real>, acoef: seq<real>, cellB: seq<real>,
                                       faceB: seq<real>, alpha: real, beta: real,
                                       tol: Tolerances, bcs: DomainBC)

  /** Inputs to one MAC projection on a line of cells. `rhoOld`/`rhoNew`
      carry one ghost cell per side. */
  datatype MacInputs = MacInputs(umac: seq<real>, betaEdge: seq<real>, macrhs: seq<real>,
                                 rhoOld: seq<real>, rhoNew: seq<real>,
                                 isPredictor: bool, tOld: real, tNew: real, finestLevel: nat,
                                 bcLo: seq<BCCode>, bcHi: seq<BCCode>)

  predicate WellShaped(m: MacInputs) {
    && |m.umac| == |m.betaEdge| && NonZero(m.betaEdge)
    && |m.rhoOld| == |m.rhoNew| == |m.umac| + 1
    && |m.bcLo| == |m.bcHi|
  }

  /** The external capabilities the projection calls: the solver
      right-hand side kernel, the fill of one density cell at the requested
      time from its old and second-state values, the face averaging of cell
      coefficients, and the face fluxes the solver returns for a request. */
  datatype MacKernels = MacKernels(
    solverRhs: (seq<real>, seq<real>) -> seq<real>,
    fillRho: (RhoFill, real, real) -> real,
    faceAvg: (real, real) -> real,
    fluxes: SolveRequest -> (int -> real))

  /** The density the projection works with, cell by cell. */
  function FilledRho(m: MacInputs, k: MacKernels): (rho: seq<real>)
    requires WellShaped(m)
    ensures |rho| == |m.rhoOld|
    ensures forall i :: 0 <= i < |rho| ==>
      rho[i] == k.fillRho(RhoFillFor(m.isPredictor, m.tOld, m.tNew), m.rhoOld[i],
                          if m.isPredictor && m.tOld == 0.0 then m.rhoOld[i] else m.rhoNew[i])
  {
    var fill := RhoFillFor(m.isPredictor, m.tOld, m.tNew);
    var second := if fill.second == OldState then m.rhoOld else m.rhoNew;
    seq(|m.rhoOld|, i requires 0 <= i < |m.rhoOld| => k.fillRho(fill, m.rhoOld[i], second[i]))
  }

  /** On the first predictor both fill sources are the old state. */
  lemma FirstPredictorFillsFromOldOnly(m: MacInputs, k: MacKernels)
    requires WellShaped(m) && m.isPredictor && m.tOld == 0.0
    ensures forall i :: 0 <= i < |m.rhoOld| ==>
      FilledRho(m, k)[i] == k.fillRho(RhoFill(0.0, OldState), m.rhoOld[i], m.rhoOld[i])
  {
  }

  datatype MacOutput = MacOutput(umac: seq<real>, request: SolveRequest)

  /** The request handed to the solver once the boundary types are known:
      RHS from beta0-weighted velocities, A = 0, B = 1/rho in cells and
      beta0 times the face average of 1/rho on faces. */
  function MacRequest(m: MacInputs, k: MacKernels, bcs: DomainBC): (q: SolveRequest)
    requires WellShaped(m) && NonZero(FilledRho(m, k))
    ensures q.rhs == k.solverRhs(m.macrhs, MultFaces(m.umac, m.betaEdge))
    ensures AllZero(q.acoef) && q.alpha == 0.0 && q.beta == 1.0
    ensures q.tol.abs < 0.0 && q.tol.rel == MacTolRel(m.finestLevel)
    ensures |q.cellB| == |m.rhoOld| && |q.faceB| == |m.umac|
    ensures q.cellB == CellB(FilledRho(m, k))
    ensures q.faceB == FaceB(q.cellB, m.betaEdge, k.faceAvg)
    ensures q.bcs == bcs
  {
    var rho := FilledRho(m, k);
    var cb := CellB(rho);
    SolveRequest(k.solverRhs(m.macrhs, MultFaces(m.umac, m.betaEdge)), Zeros(|rho|), cb,
                 FaceB(cb, m.betaEdge, k.faceAvg), 0.0, 1.0, SolverTolerances(m.finestLevel), bcs)
  }

  /** The projection proper, once the request is built: the solver is
      asked for fluxes and the face velocities are corrected by them. */
  function Project(m: MacInputs, k: MacKernels, q: SolveRequest): (o: MacOutput)
    requires WellShaped(m) && |q.faceB| == |m.umac|
    ensures o.request == q
    ensures |o.umac| == |m.umac|
    ensures forall i :: 0 <= i < |m.umac| ==>
      o.umac[i] * m.betaEdge[i] == m.umac[i] * m.betaEdge[i] - q.faceB[i] * k.fluxes(q)(i)
    ensures forall i :: 0 <= i < |m.umac| && k.fluxes(q)(i) == 0.0 ==> o.umac[i] == m.umac[i]
  {
    MacOutput(CorrectFaces(m.umac, m.betaEdge, q.faceB, k.fluxes(q)), q)
  }

  /** `MacProj`: the projection, or the abort raised by an unsupported
      boundary code before anything is solved. */
  function MacProj(m: MacInputs, k: MacKernels): (r: Result<MacOutput>)
    requires WellShaped(m) && NonZero(FilledRho(m, k))
    ensures r.Ok? <==> AllSupported(m.bcLo, m.bcHi, 0, |m.bcLo|)
    ensures r.Ok? ==> r == Ok(Project(m, k, MacRequest(m, k, SetMacSolverBCs(m.bcLo, m.bcHi).value)))
    ensures r.Abort? ==> r.msg in {LoMsg, HiMsg}
  {
    var bcs :- SetMacSolverBCs(m.bcLo, m.bcHi);
    Ok(Project(m, k, MacRequest(m, k, bcs)))
  }
}
