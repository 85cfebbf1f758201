/** Force builders: the velocity force (`MakeVelForce`), the spherical
    `divu` profile of `ModifyScalForce`, the enthalpy force
    (`MakeRhoHForce`) and the precondition of the temperature force
    (`MakeTempForce`).

    Every force is pointwise, so the model evaluates it at one cell. Planar
    fields are functions of a (transverse, vertical) index pair; the
    transverse index is the `j` of a 3-D grid and the `i` of a 2-D grid.
    Vertical face `v` is the lower face of cell `v`. */
module Forces {
  import opened Common

  // ---------------------------------------------------------------------
  // Buoyancy
  // ---------------------------------------------------------------------

  /** The density perturbation that drives buoyancy. It is the excess of the
      density over the base state, cut to zero outside the star, where the
      density falls below `cutoff` (the buoyancy cutoff factor times the
      base cutoff density). */
  function RhoPert(rho: real, rho0: real, cutoff: real): (p: real)
    ensures rho < cutoff ==> p == 0.0
    ensures rho >= cutoff ==> rho == rho0 + p
  {
    if rho < cutoff then 0.0 else rho - rho0
  }

  // ---------------------------------------------------------------------
  // Planar velocity force
  // ---------------------------------------------------------------------

  /** What the planar velocity force reads along one vertical column:
      cell values of density, base density, gravity and the base-state
      force in the vertical direction, the pressure-gradient components,
      and the vertical face velocity `vedge` and base-state velocity `w0`. */
  datatype Column = Column(rho: int -> real, rho0: int -> real, grav: int -> real,
                           w0force: int -> real, gpi: (nat, int) -> real,
                           vedge: int -> real, w0: int -> real)

  /** `dims` is 2 or 3; the vertical direction is the last one. `domhi` is
      the top cell row of the domain, `dz` the vertical cell size, and
      `addUtilde` the `do_add_utilde_force` flag. */
  datatype VelParams = VelParams(dims: nat, cutoff: real, domhi: int, dz: real, addUtilde: int)

  predicate ValidVelParams(p: VelParams) {
    (p.dims == 2 || p.dims == 3) && p.dz != 0.0
  }

  /** The advection of the base-state velocity by the vertical velocity,
      subtracted from the vertical force when the flag is 1. Rows below the
      domain and the top row are left alone, since dw0/dr is zero there. */
  function UtildeCorrection(p: VelParams, col: Column, v: int): (c: real)
    requires ValidVelParams(p)
    ensures c != 0.0 ==> p.addUtilde == 1 && 0 <= v < p.domhi
    ensures col.w0(v + 1) == col.w0(v) ==> c == 0.0
    ensures p.addUtilde == 1 && 0 <= v < p.domhi ==>
      c * (2.0 * p.dz) == (col.vedge(v + 1) + col.vedge(v)) * (col.w0(v + 1) - col.w0(v))
  {
    if p.addUtilde == 1 && 0 <= v < p.domhi then
      (col.vedge(v + 1) + col.vedge(v)) * (col.w0(v + 1) - col.w0(v)) / (2.0 * p.dz)
    else
      0.0
  }

  /** The planar velocity force at row `v` of a column: horizontal
      components are the pressure gradient over the density; the vertical
      one adds buoyancy, subtracts the base-state force and, inside the
      domain, the utilde correction. */
  function PlanarVelForce(p: VelParams, col: Column, v: int): (f: seq<real>)
    requires ValidVelParams(p) && col.rho(v) != 0.0
    ensures |f| == p.dims
    ensures forall d :: 0 <= d < p.dims - 1 ==> f[d] * col.rho(v) == -col.gpi(d, v)
    ensures (f[p.dims - 1] + col.w0force(v) + UtildeCorrection(p, col, v)) * col.rho(v)
            == RhoPert(col.rho(v), col.rho0(v), p.cutoff) * col.grav(v) - col.gpi(p.dims - 1, v)
  {
    var vert := p.dims - 1;
    var buoy := (RhoPert(col.rho(v), col.rho0(v), p.cutoff) * col.grav(v) - col.gpi(vert, v)) / col.rho(v);
    seq(p.dims, d requires 0 <= d < p.dims =>
      if d < vert then -col.gpi(d, v) / col.rho(v)
      else buoy - col.w0force(v) - UtildeCorrection(p, col, v))
  }

  /** Ghost rows and the top row get exactly the force they would get with
      the utilde correction switched off. */
  lemma UtildeForceOnlyInsideDomain(p: VelParams, col: Column, v: int)
    requires ValidVelParams(p) && col.rho(v) != 0.0
    requires v < 0 || v >= p.domhi
    ensures PlanarVelForce(p, col, v) == PlanarVelForce(p.(addUtilde := 0), col, v)
  {
    var p2 := p.(addUtilde := 0);
    assert UtildeCorrection(p, col, v) == 0.0 == UtildeCorrection(p2, col, v);
    var a := PlanarVelForce(p, col, v);
    var b := PlanarVelForce(p2, col, v);
    forall d | 0 <= d < p.dims ensures a[d] == b[d] {
    }
  }

  /** Outside the star the force does not depend on the base density: the
      buoyancy term is cut off. */
  lemma NoBuoyancyOutsideStar(p: VelParams, col: Column, v: int, rho0: int -> real)
    requires ValidVelParams(p) && col.rho(v) != 0.0
    requires col.rho(v) < p.cutoff
    ensures PlanarVelForce(p, col, v) == PlanarVelForce(p, col.(rho0 := rho0), v)
  {
    var c2 := col.(rho0 := rho0);
    assert RhoPert(col.rho(v), col.rho0(v), p.cutoff) == 0.0 == RhoPert(c2.rho(v), c2.rho0(v), p.cutoff);
    assert UtildeCorrection(p, col, v) == UtildeCorrection(p, c2, v);
    var a := PlanarVelForce(p, col, v);
    var b := PlanarVelForce(p, c2, v);
    forall d | 0 <= d < p.dims ensures a[d] == b[d] {
    }
  }

  // ---------------------------------------------------------------------
  // Spherical velocity force
  // ---------------------------------------------------------------------

  /** What the spherical velocity force reads at one cell: three-component
      gravity, pressure gradient, base-state force and outward normal, the
      velocities on the low and high face in each direction, and `gradw0`. */
  datatype SphereCell = SphereCell(rho: real, rho0: real, grav: seq<real>, gpi: seq<real>,
                                   w0force: seq<real>, normal: seq<real>,
                                   edgeLo: seq<real>, edgeHi: seq<real>, gradw0: real)

  predicate WellFormedCell(c: SphereCell) {
    && |c.grav| == 3 && |c.gpi| == 3 && |c.w0force| == 3 && |c.normal| == 3
    && |c.edgeLo| == 3 && |c.edgeHi| == 3 && c.rho != 0.0
  }

  function Dot(a: seq<real>, b: seq<real>): real
    requires |a| == 3 && |b| == 3
  {
    a[0] * b[0] + a[1] * b[1] + a[2] * b[2]
  }

  /** The radial component of the cell-centred velocity (`Ut_dot_er`). */
  function RadialVelocity(c: SphereCell): (v: real)
    requires WellFormedCell(c)
    ensures v == 0.5 * (Dot(c.edgeLo, c.normal) + Dot(c.edgeHi, c.normal))
  {
    Dot(seq(3, d requires 0 <= d < 3 => 0.5 * (c.edgeLo[d] + c.edgeHi[d])), c.normal)
  }

  /** The spherical velocity force: buoyancy minus pressure gradient over the
      density, minus the base-state force, and, when the flag is 1, minus the
      radial velocity times `gradw0` along the normal. */
  function SphericalVelForce(c: SphereCell, cutoff: real, addUtilde: int): (f: seq<real>)
    requires WellFormedCell(c)
    ensures |f| == 3
    ensures forall d :: 0 <= d < 3 ==>
      (f[d] + c.w0force[d] + (if addUtilde == 1 then RadialVelocity(c) * c.gradw0 * c.normal[d] else 0.0)) * c.rho
        == RhoPert(c.rho, c.rho0, cutoff) * c.grav[d] - c.gpi[d]
  {
    var rp := RhoPert(c.rho, c.rho0, cutoff);
    var u := RadialVelocity(c);
    seq(3, d requires 0 <= d < 3 =>
      (rp * c.grav[d] - c.gpi[d]) / c.rho - c.w0force[d]
      - (if addUtilde == 1 then u * c.gradw0 * c.normal[d] else 0.0))
  }

  /** The utilde correction acts along the normal only: seen along any
      direction orthogonal to the normal, the force is the same with and
      without it. */
  lemma SphericalCorrectionIsRadial(c: SphereCell, cutoff: real, t: seq<real>)
    requires WellFormedCell(c) && |t| == 3 && Dot(c.normal, t) == 0.0
    ensures Dot(SphericalVelForce(c, cutoff, 1), t) == Dot(SphericalVelForce(c, cutoff, 0), t)
  {
    var f1 := SphericalVelForce(c, cutoff, 1);
    var f0 := SphericalVelForce(c, cutoff, 0);
    var k := RadialVelocity(c) * c.gradw0;
    assert f1[0] == f0[0] - k * c.normal[0];
    assert f1[1] == f0[1] - k * c.normal[1];
    assert f1[2] == f0[2] - k * c.normal[2];
    ScaledDot(f1, f0, c.normal, t, k);
  }

  lemma ScaledDot(b: seq<real>, a: seq<real>, n: seq<real>, t: seq<real>, k: real)
    requires |b| == 3 && |a| == 3 && |n| == 3 && |t| == 3
    requires b[0] == a[0] - k * n[0] && b[1] == a[1] - k * n[1] && b[2] == a[2] - k * n[2]
    ensures Dot(b, t) == Dot(a, t) - k * Dot(n, t)
  {
    calc {
      Dot(b, t);
      (a[0] - k * n[0]) * t[0] + (a[1] - k * n[1]) * t[1] + (a[2] - k * n[2]) * t[2];
      { assert (a[0] - k * n[0]) * t[0] == a[0] * t[0] - k * (n[0] * t[0]);
        assert (a[1] - k * n[1]) * t[1] == a[1] * t[1] - k * (n[1] * t[1]);
        assert (a[2] - k * n[2]) * t[2] == a[2] * t[2] - k * (n[2] * t[2]); }
      Dot(a, t) - k * Dot(n, t);
    }
  }

  // ---------------------------------------------------------------------
  // Base-state gradients
  // ---------------------------------------------------------------------

  /** `gradw0` over the flattened profile of `levels` radial levels and `nr`
      cells per level; `w0` is edge-centred, with `nr + 1` entries per level.
      It stays zero when the base state is exact or averaged; otherwise
      every entry is the forward difference of neighbouring flat entries. */
  function GradW0(w0: seq<real>, levels: nat, nr: nat, dr: real, exactOrAverage: bool): (g: seq<real>)
    requires levels >= 1 && |w0| == levels * (nr + 1) && dr != 0.0
    ensures |g| == levels * nr
    ensures exactOrAverage ==> AllZero(g)
    ensures !exactOrAverage ==> forall i :: 0 <= i < |g| ==> g[i] * dr == w0[i + 1] - w0[i]
  {
    assert levels * nr < levels * (nr + 1);
    if exactOrAverage then Zeros(levels * nr)
    else seq(levels * nr, i requires 0 <= i < levels * nr => (w0[i + 1] - w0[i]) / dr)
  }

  /** With one radial level the flat neighbours are neighbouring radii, so
      `gradw0` is the radial derivative of `w0`. */
  lemma GradW0SingleLevelIsRadial(w0: seq<real>, nr: nat, dr: real, r: nat)
    requires |w0| == nr + 1 && dr != 0.0 && r < nr
    ensures GradW0(w0, 1, nr, dr, false)[Flat(0, r, 1)] * dr == w0[Flat(0, r + 1, 1)] - w0[Flat(0, r, 1)]
  {
  }

  /** With more than one radial level the flat neighbour of (lev, r) is
      (lev + 1, r), so the difference is taken between two levels at the
      same radius. Spherical runs, where `gradw0` is used, have one level. */
  lemma GradW0MultiLevelCrossesLevels(w0: seq<real>, levels: nat, nr: nat, dr: real, lev: nat, r: nat)
    requires levels >= 1 && |w0| == levels * (nr + 1) && dr != 0.0
    requires lev + 1 < levels && r < nr
    ensures Flat(lev, r, levels) < levels * nr
    ensures GradW0(w0, levels, nr, dr, false)[Flat(lev, r, levels)] * dr
            == w0[Flat(lev + 1, r, levels)] - w0[Flat(lev, r, levels)]
  {
    var i := Flat(lev, r, levels);
    FlatInRange(levels, nr, lev, r);
    assert i + 1 == Flat(lev + 1, r, levels);
    var g := GradW0(w0, levels, nr, dr, false);
    assert g[i] * dr == w0[i + 1] - w0[i];
  }

  /** The area-weighted flux `r^2 w0` through radial edge `r`. */
  function AreaFlux(rEdge: seq<real>, w0: seq<real>, r: nat): real
    requires r < |rEdge| && r < |w0|
  {
    rEdge[r] * rEdge[r] * w0[r]
  }

  /** The volume weight `dr * r_cc^2` of radial cell `r`. */
  function ShellWeight(rEdge: seq<real>, rCC: seq<real>, r: nat): real
    requires r + 1 < |rEdge| && r < |rCC|
  {
    (rEdge[r + 1] - rEdge[r]) * rCC[r] * rCC[r]
  }

  /** The radial grid: one more edge than cells, and a non-zero volume
      weight in every cell whose divergence is computed (all but the last). */
  predicate ValidRadii(rEdge: seq<real>, rCC: seq<real>) {
    && |rEdge| == |rCC| + 1
    && forall r :: 0 <= r < |rCC| - 1 ==> ShellWeight(rEdge, rCC, r) != 0.0
  }

  /** The divergence of `w0` in radial cell `r`: the change of the
      area-weighted flux across the cell over its volume weight. */
  function CellDivU(w0: seq<real>, rEdge: seq<real>, rCC: seq<real>, r: nat): (q: real)
    requires ValidRadii(rEdge, rCC) && |w0| == |rEdge| && r + 1 < |rCC|
    ensures q * ShellWeight(rEdge, rCC, r) == AreaFlux(rEdge, w0, r + 1) - AreaFlux(rEdge, w0, r)
  {
    QuotientTimesDivisor(AreaFlux(rEdge, w0, r + 1) - AreaFlux(rEdge, w0, r), ShellWeight(rEdge, rCC, r));
    (AreaFlux(rEdge, w0, r + 1) - AreaFlux(rEdge, w0, r)) / ShellWeight(rEdge, rCC, r)
  }

  /** The spherical `divu` profile on the `nr` radial cells: the cell
      divergence of `w0` everywhere but in the last cell, which stays zero,
      and zero everywhere for an exact base state. */
  function SphericalDivU(w0: seq<real>, rEdge: seq<real>, rCC: seq<real>, exact: bool): (divu: seq<real>)
    requires ValidRadii(rEdge, rCC) && |w0| == |rEdge|
    ensures |divu| == |rCC|
    ensures exact ==> AllZero(divu)
    ensures |divu| > 0 ==> divu[|divu| - 1] == 0.0
    ensures !exact ==> forall r :: 0 <= r < |rCC| - 1 ==>
      divu[r] * ShellWeight(rEdge, rCC, r) == AreaFlux(rEdge, w0, r + 1) - AreaFlux(rEdge, w0, r)
  {
    var nr := |rCC|;
    if exact then Zeros(nr)
    else seq(nr, r requires 0 <= r < nr => if r < nr - 1 then CellDivU(w0, rEdge, rCC, r) else 0.0)
  }

  /** A sum of consecutive differences collapses to last minus first. */
  lemma {:induction false} Telescope(d: seq<real>, F: seq<real>)
    requires |F| == |d| + 1
    requires forall i :: 0 <= i < |d| ==> d[i] == F[i + 1] - F[i]
    ensures Sum(d) == F[|d|] - F[0]
  {
    if |d| > 0 {
      Telescope(d[..|d| - 1], F[..|d|]);
    }
  }

  /** The volume-weighted `divu` of every cell but the last. */
  function WeightedDivU(w0: seq<real>, rEdge: seq<real>, rCC: seq<real>): (s: seq<real>)
    requires ValidRadii(rEdge, rCC) && |w0| == |rEdge| && |rCC| >= 1
    ensures |s| == |rCC| - 1
  {
    var divu := SphericalDivU(w0, rEdge, rCC, false);
    seq(|rCC| - 1, r requires 0 <= r < |rCC| - 1 => divu[r] * ShellWeight(rEdge, rCC, r))
  }

  /** The area-weighted fluxes through the radial edges `0..n`. */
  function EdgeFluxes(w0: seq<real>, rEdge: seq<real>, n: nat): (s: seq<real>)
    requires n < |rEdge| && n < |w0|
    ensures |s| == n + 1
  {
    seq(n + 1, r requires 0 <= r <= n => AreaFlux(rEdge, w0, r))
  }

  lemma WeightedDivUStep(w0: seq<real>, rEdge: seq<real>, rCC: seq<real>, i: nat)
    requires ValidRadii(rEdge, rCC) && |w0| == |rEdge| && i + 1 < |rCC|
    ensures WeightedDivU(w0, rEdge, rCC)[i]
            == EdgeFluxes(w0, rEdge, |rCC| - 1)[i + 1] - EdgeFluxes(w0, rEdge, |rCC| - 1)[i]
  {
    var c := CellDivU(w0, rEdge, rCC, i);
    assert SphericalDivU(w0, rEdge, rCC, false)[i] == c;
  }

  /** Discrete divergence theorem: the volume-weighted `divu` summed over
      all cells but the last equals the area-weighted flux through the
      outermost edge it reaches minus the flux through the innermost edge. */
  lemma DivUIsConservative(w0: seq<real>, rEdge: seq<real>, rCC: seq<real>)
    requires ValidRadii(rEdge, rCC) && |w0| == |rEdge| && |rCC| >= 1
    ensures Sum(WeightedDivU(w0, rEdge, rCC)) == AreaFlux(rEdge, w0, |rCC| - 1) - AreaFlux(rEdge, w0, 0)
  {
    var d := WeightedDivU(w0, rEdge, rCC);
    var F := EdgeFluxes(w0, rEdge, |rCC| - 1);
    forall i | 0 <= i < |d| ensures d[i] == F[i + 1] - F[i] {
      WeightedDivUStep(w0, rEdge, rCC, i);
    }
    Telescope(d, F);
  }

  // ---------------------------------------------------------------------
  // Prediction types and the builders' preconditions
  // ---------------------------------------------------------------------

  /** The quantity the enthalpy prediction works on; `OtherPrediction`
      stands for any other configured value. */
  datatype EnthalpyPred =
    | PredictRhoHPrime | PredictH | PredictRhoH
    | PredictTThenRhoHPrime | PredictTThenH | PredictTPrimeThenH
    | OtherPrediction

  predicate PredictsEnthalpy(pred: EnthalpyPred) {
    pred == PredictRhoHPrime || pred == PredictH || pred == PredictRhoH
  }

  predicate PredictsTemperature(pred: EnthalpyPred) {
    pred == PredictTThenRhoHPrime || pred == PredictTThenH || pred == PredictTPrimeThenH
  }

  const RhoHForceMsg: string := "ERROR: should only call mkrhohforce when predicting rhoh', h, or rhoh"
  const TempForceMsg: string := "ERROR: should only call mktempforce when predicting T' or T"

  /** The enthalpy force may be built for the update at any time, but for a
      prediction only when an enthalpy-type quantity is predicted. */
  function RhoHForceCheck(isPrediction: int, pred: EnthalpyPred): (o: Outcome)
    ensures o.Fail? <==> isPrediction == 1 && !PredictsEnthalpy(pred)
    ensures o.Fail? ==> o.msg == RhoHForceMsg
  {
    if isPrediction == 1 && !(pred == PredictRhoHPrime || pred == PredictH || pred == PredictRhoH) then
      Fail(RhoHForceMsg)
    else
      Pass
  }

  /** The temperature force is only built when a temperature-type quantity
      is predicted. */
  function TempForceCheck(pred: EnthalpyPred): (o: Outcome)
    ensures o.Pass? <==> PredictsTemperature(pred)
    ensures o.Fail? ==> o.msg == TempForceMsg
  {
    if !(pred == PredictTThenRhoHPrime || pred == PredictTThenH || pred == PredictTPrimeThenH) then
      Fail(TempForceMsg)
    else
      Pass
  }

  /** For a prediction, no configured type is accepted by both builders, and
      every named type is accepted by exactly one. */
  lemma PredictionBuildersPartition(pred: EnthalpyPred)
    ensures !(RhoHForceCheck(1, pred).Pass? && TempForceCheck(pred).Pass?)
    ensures pred != OtherPrediction ==> RhoHForceCheck(1, pred).Pass? || TempForceCheck(pred).Pass?
    ensures pred == OtherPrediction ==> RhoHForceCheck(1, pred).Fail? && TempForceCheck(pred).Fail?
  {
  }

  /** Which base state the enthalpy force uses: the old one for step 1,
      otherwise the time-centred average of old and new. */
  function StepBase(whichStep: int, s0: seq<real>, s1: seq<real>): (b: seq<real>)
    requires |s0| == |s1|
    ensures |b| == |s0|
    ensures whichStep == 1 ==> b == s0
    ensures whichStep != 1 ==> forall i :: 0 <= i < |b| ==> b[i] - s0[i] == s1[i] - b[i]
  {
    if whichStep == 1 then s0 else Midpoint(s0, s1)
  }

  /** A base state that did not change is used as is by either step. */
  lemma StepBaseOfSteadyState(whichStep: int, s: seq<real>)
    ensures StepBase(whichStep, s, s) == s
  {
    MidpointOfEqual(s);
  }

  // ---------------------------------------------------------------------
  // Enthalpy force
  // ---------------------------------------------------------------------

  /** `psi` enters the force for the update and for predictions of h or
      rhoh, but not for predictions of rhoh'. */
  predicate PsiIncluded(isPrediction: int, pred: EnthalpyPred): (b: bool)
    ensures b <==> isPrediction == 0 || (isPrediction == 1 && PredictsEnthalpy(pred) && pred != PredictRhoHPrime)
  {
    (isPrediction == 1 && pred == PredictH) || (isPrediction == 1 && pred == PredictRhoH) || isPrediction == 0
  }

  /** Among the predictions the precondition lets through, exactly the rhoh'
      prediction leaves `psi` out. */
  lemma PsiOmittedOnlyForPerturbation(pred: EnthalpyPred)
    requires RhoHForceCheck(1, pred).Pass?
    ensures PsiIncluded(1, pred) <==> pred != PredictRhoHPrime
  {
  }

  /** The flags of one enthalpy-force call and the planar geometry:
      `cutoffCoord` is the first row outside the star on this level,
      `domhi` the top row and `dz` the vertical cell size. */
  datatype RhoHParams = RhoHParams(isPrediction: int, pred: EnthalpyPred, addThermal: int,
                                   cutoffCoord: int, domhi: int, dz: real)

  /** What the planar enthalpy force reads, indexed (transverse, vertical);
      `wmac` lives on vertical faces. */
  datatype RhoHFields = RhoHFields(rho0: (int, int) -> real, grav: (int, int) -> real,
                                   p0: (int, int) -> real, wmac: (int, int) -> real,
                                   psi: (int, int) -> real, thermal: (int, int) -> real)

  /** Adds the source terms the flags switch on to the advective part. */
  function WithSources(p: RhoHParams, base: real, psi: real, thermal: real): (f: real)
    ensures f - base == (if PsiIncluded(p.isPrediction, p.pred) then psi else 0.0)
                      + (if p.addThermal == 1 then thermal else 0.0)
  {
    var withPsi := if PsiIncluded(p.isPrediction, p.pred) then base + psi else base;
    if p.addThermal == 1 then withPsi + thermal else withPsi
  }

  /** The vertical gradient of the base pressure: hydrostatic `rho0 g` inside
      the star; above the cutoff a one-sided difference, backward at the top
      row and forward below it. */
  function GradP0(p: RhoHParams, F: RhoHFields, t: int, v: int): (g: real)
    requires p.dz != 0.0
    ensures v < p.cutoffCoord ==> g == F.rho0(t, v) * F.grav(t, v)
    ensures v >= p.cutoffCoord && v == p.domhi ==> g * p.dz == F.p0(t, v) - F.p0(t, v - 1)
    ensures v >= p.cutoffCoord && v != p.domhi ==> g * p.dz == F.p0(t, v + 1) - F.p0(t, v)
    ensures v >= p.cutoffCoord && F.p0(t, v - 1) == F.p0(t, v) == F.p0(t, v + 1) ==> g == 0.0
  {
    if v < p.cutoffCoord then F.rho0(t, v) * F.grav(t, v)
    else if v == p.domhi then (F.p0(t, v) - F.p0(t, v - 1)) / p.dz
    else (F.p0(t, v + 1) - F.p0(t, v)) / p.dz
  }

  /** The vertical velocity at the cell centre: the mean of its two vertical faces. */
  function VelAdv(F: RhoHFields, t: int, v: int): (w: real)
    ensures w - F.wmac(t, v) == F.wmac(t, v + 1) - w
  {
    0.5 * (F.wmac(t, v) + F.wmac(t, v + 1))
  }

  /** The planar enthalpy force: the vertical velocity times the vertical
      base-pressure gradient, plus the flagged source terms. This is the
      2-D kernel, and the 3-D kernel with the vertical neighbours it
      evidently means. */
  function PlanarRhoHForce(p: RhoHParams, F: RhoHFields, t: int, v: int): (f: real)
    requires p.dz != 0.0
    ensures v < p.cutoffCoord ==>
      f == WithSources(p, VelAdv(F, t, v) * F.rho0(t, v) * F.grav(t, v), F.psi(t, v), F.thermal(t, v))
    ensures v >= p.cutoffCoord && v == p.domhi ==>
      f == WithSources(p, VelAdv(F, t, v) * (F.p0(t, v) - F.p0(t, v - 1)) / p.dz, F.psi(t, v), F.thermal(t, v))
    ensures v >= p.cutoffCoord && v != p.domhi ==>
      f == WithSources(p, VelAdv(F, t, v) * (F.p0(t, v + 1) - F.p0(t, v)) / p.dz, F.psi(t, v), F.thermal(t, v))
  {
    var g := GradP0(p, F, t, v);
    OneSidedProduct(VelAdv(F, t, v), g, g * p.dz, p.dz);
    WithSources(p, VelAdv(F, t, v) * g, F.psi(t, v), F.thermal(t, v))
  }

  /** A velocity times a difference quotient is the velocity times the
      difference, over the step. */
  lemma OneSidedProduct(w: real, g: real, d: real, h: real)
    requires h != 0.0 && g * h == d
    ensures w * g == w * d / h
  {
    assert g == d / h;
  }

  /** Where the base pressure is constant above the star, the enthalpy force
      is the flagged source terms alone. */
  lemma PlanarRhoHForceAboveStar(p: RhoHParams, F: RhoHFields, t: int, v: int)
    requires p.dz != 0.0 && v >= p.cutoffCoord
    requires F.p0(t, v - 1) == F.p0(t, v) == F.p0(t, v + 1)
    ensures PlanarRhoHForce(p, F, t, v) == WithSources(p, 0.0, F.psi(t, v), F.thermal(t, v))
  {
  }

  /** The 3-D planar kernel as written: the cell-centre vertical velocity
      averages the face below the cell with the face below its
      j-neighbour, and the pressure differences are taken in j while
      dividing by the vertical cell size. */
  function PlanarRhoHForce3DAsWritten(p: RhoHParams, F: RhoHFields, t: int, v: int): (f: real)
    requires p.dz != 0.0
    ensures v < p.cutoffCoord ==>
      f == WithSources(p, 0.5 * (F.wmac(t, v) + F.wmac(t + 1, v)) * F.rho0(t, v) * F.grav(t, v),
                       F.psi(t, v), F.thermal(t, v))
  {
    var gradp0 :=
      if v < p.cutoffCoord then F.rho0(t, v) * F.grav(t, v)
      else if v == p.domhi then (F.p0(t, v) - F.p0(t - 1, v)) / p.dz
      else (F.p0(t + 1, v) - F.p0(t, v)) / p.dz;
    var veladv := 0.5 * (F.wmac(t, v) + F.wmac(t + 1, v));
    WithSources(p, veladv * gradp0, F.psi(t, v), F.thermal(t, v))
  }

  /** Inside the star the 3-D kernel as written and the intended kernel
      differ: with a single upward face velocity of 2 on the top face of the
      cell, unit `rho0 g`, and no source terms, the intended force is 1 and
      the force as written is 0. */
  lemma PlanarRhoHForce3DAsWrittenDiffers()
    ensures var p := RhoHParams(1, PredictRhoHPrime, 0, 10, 20, 1.0);
      var F := RhoHFields((t, v) => 1.0, (t, v) => 1.0, (t, v) => 0.0,
                          (t, v) => if t == 0 && v == 1 then 2.0 else 0.0,
                          (t, v) => 0.0, (t, v) => 0.0);
      PlanarRhoHForce(p, F, 0, 0) == 1.0 && PlanarRhoHForce3DAsWritten(p, F, 0, 0) == 0.0
  {
    var p := RhoHParams(1, PredictRhoHPrime, 0, 10, 20, 1.0);
    var F := RhoHFields((t, v) => 1.0, (t, v) => 1.0, (t, v) => 0.0,
                        (t, v) => if t == 0 && v == 1 then 2.0 else 0.0,
                        (t, v) => 0.0, (t, v) => 0.0);
    assert VelAdv(F, 0, 0) == 1.0;
  }

  /** Above the star the two kernels agree on a layered base state: the
      transverse pressure differences of the kernel as written vanish
      because the base pressure does not vary across a layer, and the
      intended vertical differences vanish where it is constant. */
  lemma PlanarRhoHForce3DAgreesAboveStar(p: RhoHParams, F: RhoHFields, t: int, v: int)
    requires p.dz != 0.0 && v >= p.cutoffCoord
    requires F.p0(t - 1, v) == F.p0(t, v) == F.p0(t + 1, v)
    requires F.p0(t, v - 1) == F.p0(t, v) == F.p0(t, v + 1)
    ensures PlanarRhoHForce3DAsWritten(p, F, t, v) == PlanarRhoHForce(p, F, t, v)
  {
  }

  /** The six face velocities and face base pressures of one spherical
      cell, its cell-centred base pressure and its cell sizes. */
  datatype FluxCell = FluxCell(uLo: seq<real>, uHi: seq<real>, pLo: seq<real>, pHi: seq<real>,
                               p0: real, dx: seq<real>)

  predicate WellFormedFluxCell(c: FluxCell) {
    && |c.uLo| == 3 && |c.uHi| == 3 && |c.pLo| == 3 && |c.pHi| == 3 && |c.dx| == 3
    && c.dx[0] != 0.0 && c.dx[1] != 0.0 && c.dx[2] != 0.0
  }

  /** One direction's share of the divergence of `u p0`. */
  function FluxDiff(uLo: real, uHi: real, pLo: real, pHi: real, h: real): real
    requires h != 0.0
  {
    (uHi * pHi - uLo * pLo) / h
  }

  /** One direction's share of the divergence of `u`. */
  function VelDiff(uLo: real, uHi: real, h: real): real
    requires h != 0.0
  {
    (uHi - uLo) / h
  }

  /** One direction's share of `divup - p0divu`, written as the flux of the
      face pressure perturbation `p0_face - p0_cell`. */
  function FaceTerm(uLo: real, uHi: real, pLo: real, pHi: real, p0: real, h: real): (f: real)
    requires h != 0.0
    ensures f == FluxDiff(uLo, uHi, pLo, pHi, h) - VelDiff(uLo, uHi, h) * p0
    ensures pLo == p0 && pHi == p0 ==> f == 0.0
  {
    ShareOfPerturbation(uLo, uHi, pLo, pHi, p0, h);
    (uHi * (pHi - p0) - uLo * (pLo - p0)) / h
  }

  lemma ShareOfPerturbation(uLo: real, uHi: real, pLo: real, pHi: real, p0: real, h: real)
    requires h != 0.0
    ensures (uHi * (pHi - p0) - uLo * (pLo - p0)) / h == FluxDiff(uLo, uHi, pLo, pHi, h) - VelDiff(uLo, uHi, h) * p0
  {
    var a := uHi * pHi - uLo * pLo;
    var b := uHi - uLo;
    assert uHi * (pHi - p0) - uLo * (pLo - p0) == a - b * p0;
    assert (a - b * p0) / h == a / h - (b * p0) / h;
    assert (b * p0) / h == b / h * p0;
  }

  /** The base pressure on every face of the cell equals the cell value. */
  predicate UniformP0(c: FluxCell)
    requires WellFormedFluxCell(c)
  {
    forall d :: 0 <= d < 3 ==> c.pLo[d] == c.p0 && c.pHi[d] == c.p0
  }

  /** The spherical enthalpy force before its source terms: the divergence
      of `u p0` on faces minus the cell `p0` times the divergence of `u`.
      Direction by direction it is the flux of the face pressure
      perturbation, so a base pressure that is the same on the faces as in
      the cell gives no force from advection. */
  function SphericalRhoHBase(c: FluxCell): (f: real)
    requires WellFormedFluxCell(c)
    ensures f == FaceTerm(c.uLo[0], c.uHi[0], c.pLo[0], c.pHi[0], c.p0, c.dx[0])
               + FaceTerm(c.uLo[1], c.uHi[1], c.pLo[1], c.pHi[1], c.p0, c.dx[1])
               + FaceTerm(c.uLo[2], c.uHi[2], c.pLo[2], c.pHi[2], c.p0, c.dx[2])
    ensures UniformP0(c) ==> f == 0.0
  {
    var q0 := VelDiff(c.uLo[0], c.uHi[0], c.dx[0]);
    var q1 := VelDiff(c.uLo[1], c.uHi[1], c.dx[1]);
    var q2 := VelDiff(c.uLo[2], c.uHi[2], c.dx[2]);
    var divup := FluxDiff(c.uLo[0], c.uHi[0], c.pLo[0], c.pHi[0], c.dx[0])
               + FluxDiff(c.uLo[1], c.uHi[1], c.pLo[1], c.pHi[1], c.dx[1])
               + FluxDiff(c.uLo[2], c.uHi[2], c.pLo[2], c.pHi[2], c.dx[2]);
    assert (q0 + q1 + q2) * c.p0 == q0 * c.p0 + q1 * c.p0 + q2 * c.p0;
    divup - (q0 + q1 + q2) * c.p0
  }

  /** The planar enthalpy force of `MakeRhoHForce`, or its abort. */
  function MakeRhoHForcePlanar(p: RhoHParams, F: RhoHFields, t: int, v: int): (r: Result<real>)
    requires p.dz != 0.0
    ensures r.Abort? <==> RhoHForceCheck(p.isPrediction, p.pred).Fail?
    ensures r.Abort? ==> r.msg == RhoHForceMsg
    ensures r.Ok? ==> r.value == PlanarRhoHForce(p, F, t, v)
  {
    var check := RhoHForceCheck(p.isPrediction, p.pred);
    if check.Fail? then Abort(check.msg) else Ok(PlanarRhoHForce(p, F, t, v))
  }

  /** The spherical enthalpy force of `MakeRhoHForce`, or its abort. */
  function MakeRhoHForceSpherical(p: RhoHParams, c: FluxCell, psi: real, thermal: real): (r: Result<real>)
    requires WellFormedFluxCell(c)
    ensures r.Abort? <==> RhoHForceCheck(p.isPrediction, p.pred).Fail?
    ensures r.Ok? ==>
      (r.value - SphericalRhoHBase(c)
        == (if PsiIncluded(p.isPrediction, p.pred) then psi else 0.0) + (if p.addThermal == 1 then thermal else 0.0))
  {
    var check := RhoHForceCheck(p.isPrediction, p.pred);
    if check.Fail? then Abort(check.msg) else Ok(WithSources(p, SphericalRhoHBase(c), psi, thermal))
  }
}
