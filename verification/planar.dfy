/** The diagnostics of a planar grid as a whole: the level results the
    I/O process receives, built from every process's cells on every level,
    the energy integrals over the whole grid they add up to, and the
    planar gravitational energy of the base state. */
module PlanarDiagnostics {
  import opened Common
  import opened Diagnostics

  // ---------------------------------------------------------------------
  // The whole planar grid
  // ---------------------------------------------------------------------

  /** The cells of a planar grid by level and process: `grid[lev][p]` is
      what process `p` holds of level `lev`, and the last level is the
      finest. Every level has at least one process. */
  predicate PlanarGrid(grid: seq<seq<seq<Cell>>>, dims: nat) {
    && (dims == 2 || dims == 3) && |grid| > 0
    && (forall lev :: 0 <= lev < |grid| ==> |grid[lev]| > 0)
    && (forall lev, p :: 0 <= lev < |grid| && 0 <= p < |grid[lev]| ==>
          Divisible(grid[lev][p], lev < |grid| - 1) && CellsShaped(grid[lev][p], dims))
  }

  /** The summaries of one level, one per process. */
  function Locals(procs: seq<seq<Cell>>, lev: nat, finest: nat, dims: nat): (v: seq<Summary>)
    requires lev <= finest && (dims == 2 || dims == 3)
    requires forall p :: 0 <= p < |procs| ==> Divisible(procs[p], lev < finest)
    ensures |v| == |procs|
    ensures forall p :: 0 <= p < |procs| ==> v[p] == LocalSummary(procs[p], lev, finest, dims)
  {
    seq(|procs|, p requires 0 <= p < |procs| => LocalSummary(procs[p], lev, finest, dims))
  }

  /** A gathered extremum has the dimension of the extrema gathered. */
  lemma GatherShaped(xs: seq<Extremum>, e: Extremum, dims: nat)
    requires |xs| > 0 && GatherOf(xs, e)
    requires forall i :: 0 <= i < |xs| ==> |xs[i].coord| == dims && |xs[i].vel| == dims
    ensures |e.coord| == dims && |e.vel| == dims
  {
  }

  /** Every process summary's maxima have the grid's dimension. */
  predicate SummariesShaped(locals: seq<Summary>, dims: nat) {
    forall i :: 0 <= i < |locals| ==>
      |locals[i].tMax.coord| == |locals[i].tMax.vel| == |locals[i].enucMax.coord| == |locals[i].enucMax.vel| == dims
  }

  /** Combining processes keeps the dimension of the maxima. */
  lemma CombinedShaped(locals: seq<Summary>, dims: nat)
    requires |locals| > 0 && SummariesShaped(locals, dims)
    ensures var s := CombineProcesses(locals);
      |s.tMax.coord| == |s.tMax.vel| == |s.enucMax.coord| == |s.enucMax.vel| == dims
  {
    var s := CombineProcesses(locals);
    GatherShaped(Maxima(locals, true), s.tMax, dims);
    GatherShaped(Maxima(locals, false), s.enucMax, dims);
  }

  /** The processes' summaries of a level whose cells have the grid's
      dimension have that dimension too. */
  lemma LocalsShaped(procs: seq<seq<Cell>>, lev: nat, finest: nat, dims: nat)
    requires lev <= finest && (dims == 2 || dims == 3)
    requires forall p :: 0 <= p < |procs| ==> Divisible(procs[p], lev < finest) && CellsShaped(procs[p], dims)
    ensures SummariesShaped(Locals(procs, lev, finest, dims), dims)
  {
    var locals := Locals(procs, lev, finest, dims);
    forall p | 0 <= p < |procs|
      ensures |locals[p].tMax.coord| == |locals[p].tMax.vel| == |locals[p].enucMax.coord| == |locals[p].enucMax.vel| == dims
    {
      var s := LocalSummary(procs[p], lev, finest, dims);
    }
  }

  /** One planar level as the I/O process receives it: the processes'
      summaries combined, without centre values. */
  function PlanarLevel(grid: seq<seq<seq<Cell>>>, lev: nat, dims: nat): (l: LevelResult)
    requires PlanarGrid(grid, dims) && lev < |grid|
    ensures |l.velCenter| == dims && l.ncenter == 0
    ensures |l.summary.tMax.coord| == |l.summary.tMax.vel| == dims
    ensures |l.summary.enucMax.coord| == |l.summary.enucMax.vel| == dims
  {
    var locals := Locals(grid[lev], lev, |grid| - 1, dims);
    LocalsShaped(grid[lev], lev, |grid| - 1, dims);
    CombinedShaped(locals, dims);
    LevelResult(CombineProcesses(locals), 0.0, Zeros(dims), 0)
  }

  function PlanarLevels(grid: seq<seq<seq<Cell>>>, dims: nat): (ls: seq<LevelResult>)
    requires PlanarGrid(grid, dims)
    ensures |ls| == |grid| && LevelsShaped(ls, dims)
    ensures forall lev :: 0 <= lev < |grid| ==> ls[lev] == PlanarLevel(grid, lev, dims)
  {
    seq(|grid|, lev requires 0 <= lev < |grid| => PlanarLevel(grid, lev, dims))
  }

  /** Reference: one energy of one level, process by process, each
      process contributing the weighted sum over its cells taking part. */
  function ProcessSum(procs: seq<seq<Cell>>, useMask: bool, weight: real, q: Quantity): real
    requires IsEnergy(q)
    decreases |procs|
  {
    if |procs| == 0 then 0.0
    else
      var n := |procs| - 1;
      ProcessSum(procs[..n], useMask, weight, q) + KeptSum(procs[n], Keep(procs[n], useMask), weight, q)
  }

  /** Reference: one energy of one level of the grid, with the level's
      weight and, below the finest level, without its covered cells. */
  function LevelSum(grid: seq<seq<seq<Cell>>>, lev: nat, dims: nat, q: Quantity): real
    requires (dims == 2 || dims == 3) && lev < |grid| && IsEnergy(q)
  {
    ProcessSum(grid[lev], lev < |grid| - 1, Weight(dims, lev), q)
  }

  /** Reference: one energy of levels 0 to n-1 of the grid. */
  function GridEnergy(grid: seq<seq<seq<Cell>>>, n: nat, dims: nat, q: Quantity): real
    requires (dims == 2 || dims == 3) && n <= |grid| && IsEnergy(q)
    decreases n
  {
    if n == 0 then 0.0 else GridEnergy(grid, n - 1, dims, q) + LevelSum(grid, n - 1, dims, q)
  }

  /** The energy a process reports is its weighted sum over its cells. */
  lemma LocalEnergyOf(cells: seq<Cell>, lev: nat, finest: nat, dims: nat, q: Quantity)
    requires lev <= finest && (dims == 2 || dims == 3) && IsEnergy(q)
    requires Divisible(cells, lev < finest)
    ensures Get(LocalSummary(cells, lev, finest, dims), q) == KeptSum(cells, Keep(cells, lev < finest), Weight(dims, lev), q)
  {
  }

  /** Per-process energies that match the reference process by process
      add up to the reference over the processes. */
  lemma {:induction false} ProcessesSumOf(procs: seq<seq<Cell>>, useMask: bool, weight: real, c: seq<real>, q: Quantity)
    requires |c| == |procs| && IsEnergy(q)
    requires forall p :: 0 <= p < |procs| ==> c[p] == KeptSum(procs[p], Keep(procs[p], useMask), weight, q)
    ensures Sum(c) == ProcessSum(procs, useMask, weight, q)
    decreases |procs|
  {
    if |procs| > 0 {
      var n := |procs| - 1;
      ProcessesSumOf(procs[..n], useMask, weight, c[..n], q);
    }
  }

  /** Summing the processes' energies of one level is the reference sum
      over its processes. */
  lemma ProcessesSum(procs: seq<seq<Cell>>, lev: nat, finest: nat, dims: nat, q: Quantity)
    requires lev <= finest && (dims == 2 || dims == 3) && IsEnergy(q)
    requires forall p :: 0 <= p < |procs| ==> Divisible(procs[p], lev < finest)
    ensures Sum(Column(Locals(procs, lev, finest, dims), q)) == ProcessSum(procs, lev < finest, Weight(dims, lev), q)
  {
    var c := Column(Locals(procs, lev, finest, dims), q);
    forall p | 0 <= p < |procs|
      ensures c[p] == KeptSum(procs[p], Keep(procs[p], lev < finest), Weight(dims, lev), q)
    {
      LocalEnergyOf(procs[p], lev, finest, dims, q);
    }
    ProcessesSumOf(procs, lev < finest, Weight(dims, lev), c, q);
  }

  /** The combined energy is the sum of the processes' energies. */
  lemma CombinedEnergy(locals: seq<Summary>, q: Quantity)
    requires |locals| > 0 && IsEnergy(q)
    ensures Get(CombineProcesses(locals), q) == Sum(Column(locals, q))
  {
  }

  /** The energy of a level after the cross-process sum. */
  lemma LevelEnergy(grid: seq<seq<seq<Cell>>>, lev: nat, dims: nat, q: Quantity)
    requires PlanarGrid(grid, dims) && lev < |grid| && IsEnergy(q)
    ensures Get(PlanarLevel(grid, lev, dims).summary, q) == LevelSum(grid, lev, dims, q)
  {
    var finest: nat := |grid| - 1;
    var locals := Locals(grid[lev], lev, finest, dims);
    assert PlanarLevel(grid, lev, dims).summary == CombineProcesses(locals);
    CombinedEnergy(locals, q);
    ProcessesSum(grid[lev], lev, finest, dims, q);
  }

  /** Summing per-level energies that match the reference level by level
      gives the reference over the levels. */
  lemma {:induction false} LevelsSum(grid: seq<seq<seq<Cell>>>, dims: nat, c: seq<real>, n: nat, q: Quantity)
    requires (dims == 2 || dims == 3) && n <= |grid| == |c| && IsEnergy(q)
    requires forall lev :: 0 <= lev < |c| ==> c[lev] == LevelSum(grid, lev, dims, q)
    ensures Sum(c[..n]) == GridEnergy(grid, n, dims, q)
    decreases n
  {
    if n > 0 {
      assert c[..n][..n - 1] == c[..n - 1];
      LevelsSum(grid, dims, c, n - 1, q);
    }
  }

  lemma LevelsSumAll(grid: seq<seq<seq<Cell>>>, dims: nat, c: seq<real>, q: Quantity)
    requires (dims == 2 || dims == 3) && |grid| == |c| && IsEnergy(q)
    requires forall lev :: 0 <= lev < |c| ==> c[lev] == LevelSum(grid, lev, dims, q)
    ensures Sum(c) == GridEnergy(grid, |grid|, dims, q)
  {
    LevelsSum(grid, dims, c, |grid|, q);
    assert c[..|grid|] == c;
  }

  /** One energy summed over the planar levels is the grid's energy. */
  lemma GridEnergyOf(grid: seq<seq<seq<Cell>>>, dims: nat, q: Quantity)
    requires PlanarGrid(grid, dims) && IsEnergy(q)
    ensures Sum(Column(Summaries(PlanarLevels(grid, dims)), q)) == GridEnergy(grid, |grid|, dims, q)
  {
    var c := Column(Summaries(PlanarLevels(grid, dims)), q);
    forall lev | 0 <= lev < |c| ensures c[lev] == LevelSum(grid, lev, dims, q) {
      LevelEnergy(grid, lev, dims, q);
    }
    LevelsSumAll(grid, dims, c, q);
  }

  /** At step 0 in planar geometry the energy columns of the lines hold
      the level-0 cell volume times the energies summed over every level,
      process and cell taking part, each cell weighted by its level. */
  lemma PlanarLinesCarryIntegrals(grid: seq<seq<seq<Cell>>>, dims: nat, dx: seq<real>, time: real, dt: real,
                                  grav: real, octant: bool, radius: seq<real> -> real,
                                  radialVel: (seq<real>, seq<real>) -> real, b: Buffers)
    requires PlanarGrid(grid, dims)
    ensures var r := DiagFile(0, time, dt, grav, PlanarLevels(grid, dims), dims, dx, false, octant, radius, radialVel, b);
      && r.Ok? && |r.value.1| == 3
      && |r.value.1[1]| == EnucWidth(false) && |r.value.1[2]| == VelWidth(false)
      && r.value.1[2][3] == Scaled(GridEnergy(grid, |grid|, dims, Kinetic), dx)
      && r.value.1[2][4] == grav
      && r.value.1[2][5] == Scaled(GridEnergy(grid, |grid|, dims, Internal), dx)
      && r.value.1[1][8] == Scaled(GridEnergy(grid, |grid|, dims, Nuclear), dx)
  {
    var ls := PlanarLevels(grid, dims);
    GridEnergyOf(grid, dims, Kinetic);
    GridEnergyOf(grid, dims, Internal);
    GridEnergyOf(grid, dims, Nuclear);
    PlanarStepLines(time, dt, grav, ls, dims, dx, octant, radius, radialVel, b);
  }

  // ---------------------------------------------------------------------
  // Gravitational energy in planar geometry
  // ---------------------------------------------------------------------

  /** The level-0 entries of the first `n` radii of a flattened base-state
      array of `levels` levels. */
  function LevelZero(a: seq<real>, levels: nat, n: nat): (z: seq<real>)
    requires 0 < levels && (n > 0 ==> Flat(0, n - 1, levels) < |a|)
    ensures |z| == n
    ensures forall r :: 0 <= r < n ==> Flat(0, r, levels) < |a| && z[r] == a[Flat(0, r, levels)]
    decreases n
  {
    if n == 0 then []
    else
      FlatBelow(levels, n - 1);
      LevelZero(a, levels, n - 1) + [a[Flat(0, n - 1, levels)]]
  }

  lemma FlatBelow(levels: nat, m: nat)
    requires 0 < levels
    ensures m > 0 ==> Flat(0, m - 1, levels) < Flat(0, m, levels)
  {
  }

  /** Reference: minus the sum over the radii of the density times the
      cell-centre height times the gravitational constant times the
      cell's height span. */
  function PlanarGrav(rho: seq<real>, rcc: seq<real>, edge: seq<real>, g: real): real
    requires |rcc| == |rho| && |edge| == |rho| + 1
    decreases |rho|
  {
    if |rho| == 0 then 0.0
    else
      var r := |rho| - 1;
      PlanarGrav(rho[..r], rcc[..r], edge[..r + 1], g) - rho[r] * rcc[r] * g * (edge[r + 1] - edge[r])
  }

  /** One more radius adds its term to the reference. */
  lemma PlanarGravSnoc(rho: seq<real>, rcc: seq<real>, edge: seq<real>, r: nat, g: real)
    requires r < |rho| && |rcc| == |rho| && |edge| == |rho| + 1
    ensures PlanarGrav(rho[..r + 1], rcc[..r + 1], edge[..r + 2], g)
      == PlanarGrav(rho[..r], rcc[..r], edge[..r + 1], g) - rho[r] * rcc[r] * g * (edge[r + 1] - edge[r])
  {
    assert rho[..r + 1][..r] == rho[..r] && rcc[..r + 1][..r] == rcc[..r] && edge[..r + 2][..r + 1] == edge[..r + 1];
  }

  /** The planar branch of the gravitational energy: a loop over the
      radii of the finest resolution subtracting each cell's term, which
      reads only level 0 of the flattened base state. */
  method PlanarGravEnergy(rho0: seq<real>, rcc: seq<real>, redge: seq<real>, levels: nat, nrFine: nat, g: real)
    returns (grav: real)
    requires 0 < levels && Flat(0, nrFine, levels) < |redge|
    requires nrFine > 0 ==> Flat(0, nrFine - 1, levels) < |rho0| && Flat(0, nrFine - 1, levels) < |rcc|
    ensures grav == PlanarGrav(LevelZero(rho0, levels, nrFine), LevelZero(rcc, levels, nrFine),
                               LevelZero(redge, levels, nrFine + 1), g)
  {
    ghost var rho, cc, edge := LevelZero(rho0, levels, nrFine), LevelZero(rcc, levels, nrFine),
                               LevelZero(redge, levels, nrFine + 1);
    grav := 0.0;
    var r := 0;
    while r < nrFine
      invariant 0 <= r <= nrFine
      invariant grav == PlanarGrav(rho[..r], cc[..r], edge[..r + 1], g)
    {
      var drLoc := redge[Flat(0, r + 1, levels)] - redge[Flat(0, r, levels)];
      grav := grav - rho0[Flat(0, r, levels)] * rcc[Flat(0, r, levels)] * g * drLoc;
      PlanarGravSnoc(rho, cc, edge, r, g);
      r := r + 1;
    }
    assert rho[..r] == rho && cc[..r] == cc && edge[..r + 1] == edge;
  }

  /** With a non-negative density, height and gravitational constant and
      cell edges that rise with the radius, the planar gravitational energy
      is never positive. */
  lemma {:induction false} GravNotPositive(rho: seq<real>, rcc: seq<real>, edge: seq<real>, g: real)
    requires |rcc| == |rho| && |edge| == |rho| + 1
    requires g >= 0.0
    requires forall r :: 0 <= r < |rho| ==> rho[r] >= 0.0 && rcc[r] >= 0.0 && edge[r] <= edge[r + 1]
    ensures PlanarGrav(rho, rcc, edge, g) <= 0.0
    decreases |rho|
  {
    if |rho| > 0 {
      var r := |rho| - 1;
      GravNotPositive(rho[..r], rcc[..r], edge[..r + 1], g);
      var a, c, h := rho[r], rcc[r], edge[r + 1] - edge[r];
      assert a * c >= 0.0;
      assert a * c * g >= 0.0;
      assert a * c * g * h >= 0.0;
    }
  }

  /** With a non-positive gravitational constant (gravity pointing up the
      column) the same sum is >= 0. */
  lemma {:induction false} GravNotNegative(rho: seq<real>, rcc: seq<real>, edge: seq<real>, g: real)
    requires |rcc| == |rho| && |edge| == |rho| + 1
    requires g <= 0.0
    requires forall r :: 0 <= r < |rho| ==> rho[r] >= 0.0 && rcc[r] >= 0.0 && edge[r] <= edge[r + 1]
    ensures PlanarGrav(rho, rcc, edge, g) >= 0.0
    decreases |rho|
  {
    if |rho| > 0 {
      var r := |rho| - 1;
      GravNotNegative(rho[..r], rcc[..r], edge[..r + 1], g);
      var a, c, h := rho[r], rcc[r], edge[r + 1] - edge[r];
      assert a * c >= 0.0;
      assert a * c * g <= 0.0;
      assert a * c * g * h <= 0.0;
    }
  }
}
