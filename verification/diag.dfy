/** The diagnostics of a step (`DiagFile`, `WriteDiagFile`): the maxima of
    temperature and of the nuclear energy generation rate together with
    where they occur, the level-weighted energy integrals, the centre
    values of a spherical star, and the rows buffered for the three
    diagnostic files until they are flushed.

    Per-cell physics (equation of state, the speed as a square root, the
    spherical kernel) is supplied in the cell records; the parallel
    reductions are plain folds over the per-process results. */
module Diagnostics {
  import opened Common

  // ---------------------------------------------------------------------
  // The first strict maximum
  // ---------------------------------------------------------------------

  /** The index a left-to-right scan with a running maximum starting at 0
      stops at, replacing only on a strictly larger kept value; -1 when no
      kept value exceeds 0. */
  function FirstMax(vals: seq<real>, keep: seq<bool>): (b: int)
    requires |vals| == |keep|
    ensures -1 <= b < |vals|
    ensures b >= 0 ==> keep[b] && vals[b] > 0.0
    decreases |vals|
  {
    if |vals| == 0 then -1
    else
      var n := |vals| - 1;
      var b := FirstMax(vals[..n], keep[..n]);
      var cur := if b < 0 then 0.0 else vals[b];
      if keep[n] && vals[n] > cur then n else b
  }

  /** The value the scan ends with. */
  function MaxOf(vals: seq<real>, keep: seq<bool>): real
    requires |vals| == |keep|
  {
    var b := FirstMax(vals, keep);
    if b < 0 then 0.0 else vals[b]
  }

  /** The scan's index is the first kept position holding the largest kept
      value, when that value is positive; otherwise there is none. */
  lemma {:induction false} FirstMaxIsFirstLargest(vals: seq<real>, keep: seq<bool>)
    requires |vals| == |keep|
    ensures FirstMax(vals, keep) == -1 <==> forall i :: 0 <= i < |vals| && keep[i] ==> vals[i] <= 0.0
    ensures forall i :: 0 <= i < |vals| && keep[i] ==> vals[i] <= MaxOf(vals, keep)
    ensures FirstMax(vals, keep) >= 0 ==>
      forall i :: 0 <= i < FirstMax(vals, keep) && keep[i] ==> vals[i] < MaxOf(vals, keep)
    decreases |vals|
  {
    if |vals| > 0 {
      var n := |vals| - 1;
      FirstMaxIsFirstLargest(vals[..n], keep[..n]);
      assert forall i :: 0 <= i < n ==> vals[..n][i] == vals[i] && keep[..n][i] == keep[i];
    }
  }

  /** Only kept values matter: two scans that agree on the kept positions
      stop at the same index. */
  lemma {:induction false} FirstMaxOnlyReadsKept(v1: seq<real>, v2: seq<real>, keep: seq<bool>)
    requires |v1| == |v2| == |keep|
    requires forall i :: 0 <= i < |keep| && keep[i] ==> v1[i] == v2[i]
    ensures FirstMax(v1, keep) == FirstMax(v2, keep)
    decreases |keep|
  {
    if |keep| > 0 {
      var n := |keep| - 1;
      FirstMaxOnlyReadsKept(v1[..n], v2[..n], keep[..n]);
    }
  }

  /** The scan as a loop over the cells of a tile. */
  method ScanFirstMax(vals: seq<real>, keep: seq<bool>) returns (best: real, at: int)
    requires |vals| == |keep|
    ensures at == FirstMax(vals, keep) && best == MaxOf(vals, keep)
  {
    best, at := 0.0, -1;
    var i := 0;
    while i < |vals|
      invariant 0 <= i <= |vals|
      invariant at == FirstMax(vals[..i], keep[..i])
      invariant best == (if at < 0 then 0.0 else vals[at])
    {
      assert vals[..i + 1][..i] == vals[..i] && keep[..i + 1][..i] == keep[..i];
      if keep[i] && vals[i] > best {
        best, at := vals[i], i;
      }
      i := i + 1;
    }
    assert vals[..i] == vals && keep[..i] == keep;
  }

  /** A maximum with where it was found and the velocity there. */
  datatype Extremum = Extremum(value: real, coord: seq<real>, vel: seq<real>)

  function Values(xs: seq<Extremum>): (v: seq<real>)
    ensures |v| == |xs| && forall i :: 0 <= i < |xs| ==> v[i] == xs[i].value
  {
    seq(|xs|, i requires 0 <= i < |xs| => xs[i].value)
  }

  function AllKept(n: nat): (k: seq<bool>)
    ensures |k| == n && forall i :: 0 <= i < n ==> k[i]
  {
    seq(n, i => true)
  }

  /** Selection of an extremum with its location: `default` when no kept
      candidate is positive, otherwise the first kept candidate with the
      largest value, location and velocity included. */
  function PickFirstMax(xs: seq<Extremum>, keep: seq<bool>, default: Extremum): (e: Extremum)
    requires |xs| == |keep|
    ensures (forall i :: 0 <= i < |xs| && keep[i] ==> xs[i].value <= 0.0) ==> e == default
    ensures (exists i :: 0 <= i < |xs| && keep[i] && xs[i].value > 0.0) ==>
      (exists b :: 0 <= b < |xs| && keep[b] && e == xs[b]
        && (forall i :: 0 <= i < |xs| && keep[i] ==> xs[i].value <= e.value)
        && (forall i :: 0 <= i < b && keep[i] ==> xs[i].value < e.value))
  {
    var v := Values(xs);
    var b := FirstMax(v, keep);
    FirstMaxIsFirstLargest(v, keep);
    if b < 0 then default else xs[b]
  }

  /** A running maximum from 0 over the kept values (the reduction of the
      largest speed and Mach number). */
  function KeptMax(vals: seq<real>, keep: seq<bool>): (m: real)
    requires |vals| == |keep|
    ensures m >= 0.0
    ensures forall i :: 0 <= i < |vals| && keep[i] ==> vals[i] <= m
    ensures m == 0.0 || exists i :: 0 <= i < |vals| && keep[i] && vals[i] == m
    decreases |vals|
  {
    if |vals| == 0 then 0.0
    else
      var n := |vals| - 1;
      var m := KeptMax(vals[..n], keep[..n]);
      assert forall i :: 0 <= i < n ==> vals[..n][i] == vals[i] && keep[..n][i] == keep[i];
      if keep[n] then Max(m, vals[n]) else m
  }

  /** The values at kept positions, 0 elsewhere. */
  function Masked(vals: seq<real>, keep: seq<bool>): (m: seq<real>)
    requires |vals| == |keep|
    ensures |m| == |vals|
    ensures forall i :: 0 <= i < |vals| ==> m[i] == if keep[i] then vals[i] else 0.0
  {
    seq(|vals|, i requires 0 <= i < |vals| => if keep[i] then vals[i] else 0.0)
  }

  /** Agreement on the kept positions is all a masked reduction sees. */
  lemma MaskedOnlyReadsKept(v1: seq<real>, v2: seq<real>, keep: seq<bool>)
    requires |v1| == |v2| == |keep|
    requires forall i :: 0 <= i < |keep| && keep[i] ==> v1[i] == v2[i]
    ensures Masked(v1, keep) == Masked(v2, keep)
    ensures KeptMax(v1, keep) == KeptMax(Masked(v2, keep), keep)
  {
    KeptMaxOnlyReadsKept(v1, Masked(v2, keep), keep);
  }

  lemma {:induction false} KeptMaxOnlyReadsKept(v1: seq<real>, v2: seq<real>, keep: seq<bool>)
    requires |v1| == |v2| == |keep|
    requires forall i :: 0 <= i < |keep| && keep[i] ==> v1[i] == v2[i]
    ensures KeptMax(v1, keep) == KeptMax(v2, keep)
    decreases |keep|
  {
    if |keep| > 0 {
      var n := |keep| - 1;
      KeptMaxOnlyReadsKept(v1[..n], v2[..n], keep[..n]);
    }
  }

  // ---------------------------------------------------------------------
  // Cells of one level
  // ---------------------------------------------------------------------

  /** What the reductions read from one cell: temperature, density, the
      nuclear heating density, the cell centre, the velocity including the
      base-state velocity, the speed (the magnitude of that velocity), and
      the internal energy and sound speed from the equation of state. A
      covered cell lies under a finer level. */
  datatype Cell = Cell(temp: real, rho: real, rhoHnuc: real, coord: seq<real>, vel: seq<real>,
                       speed: real, internalEnergy: real, soundSpeed: real, covered: bool)

  /** The velocity recorded at a hot spot: the cell velocity with the
      vertical component raised by the average of the base-state velocity
      on the two vertical faces of the cell. */
  function HotSpotVelocity(u: seq<real>, vert: nat, w0: seq<real>, lev: nat, maxLev: nat, height: nat): (v: seq<real>)
    requires vert < |u| && lev < maxLev
    requires Flat(lev, height, maxLev) < |w0| && Flat(lev, height + 1, maxLev) < |w0|
    ensures |v| == |u|
    ensures forall d :: 0 <= d < |u| && d != vert ==> v[d] == u[d]
    ensures (v[vert] - u[vert]) - w0[Flat(lev, height, maxLev)] == w0[Flat(lev, height + 1, maxLev)] - (v[vert] - u[vert])
  {
    u[vert := u[vert] + 0.5 * (w0[Flat(lev, height, maxLev)] + w0[Flat(lev, height + 1, maxLev)])]
  }

  /** Cells that take part: all of them on the finest level, the
      uncovered ones below it. */
  function Keep(cells: seq<Cell>, useMask: bool): (k: seq<bool>)
    ensures |k| == |cells|
    ensures forall i :: 0 <= i < |cells| ==> (k[i] <==> !(useMask && cells[i].covered))
  {
    seq(|cells|, i requires 0 <= i < |cells| => !(useMask && cells[i].covered))
  }

  /** Density and sound speed are nonzero wherever they are divided by. */
  predicate Divisible(cells: seq<Cell>, useMask: bool) {
    forall i :: 0 <= i < |cells| && !(useMask && cells[i].covered) ==>
      cells[i].rho != 0.0 && cells[i].soundSpeed != 0.0
  }

  function TempCandidates(cells: seq<Cell>): (xs: seq<Extremum>)
    ensures |xs| == |cells|
    ensures forall i :: 0 <= i < |cells| ==> xs[i] == Extremum(cells[i].temp, cells[i].coord, cells[i].vel)
  {
    seq(|cells|, i requires 0 <= i < |cells| => Extremum(cells[i].temp, cells[i].coord, cells[i].vel))
  }

  /** The nuclear energy generation rate per unit mass at each cell taking
      part (0 at the others, which are never read). */
  function EnucCandidates(cells: seq<Cell>, useMask: bool): (xs: seq<Extremum>)
    requires Divisible(cells, useMask)
    ensures |xs| == |cells|
    ensures forall i :: 0 <= i < |cells| ==> xs[i].coord == cells[i].coord && xs[i].vel == cells[i].vel
    ensures forall i :: 0 <= i < |cells| && !(useMask && cells[i].covered) ==>
      xs[i].value * cells[i].rho == cells[i].rhoHnuc
  {
    seq(|cells|, i requires 0 <= i < |cells| =>
      Extremum(if useMask && cells[i].covered then 0.0 else Quot(cells[i].rhoHnuc, cells[i].rho),
               cells[i].coord, cells[i].vel))
  }

  function MachNumbers(cells: seq<Cell>, useMask: bool): (m: seq<real>)
    requires Divisible(cells, useMask)
    ensures |m| == |cells|
    ensures forall i :: 0 <= i < |cells| && !(useMask && cells[i].covered) ==>
      m[i] * cells[i].soundSpeed == cells[i].speed
  {
    seq(|cells|, i requires 0 <= i < |cells| =>
      if useMask && cells[i].covered then 0.0 else Quot(cells[i].speed, cells[i].soundSpeed))
  }

  /** What one process finds on one level. */
  datatype Summary = Summary(tMax: Extremum, enucMax: Extremum, kin: real, internal: real, nuc: real,
                             uMax: real, machMax: real)

  /** The level weight: the volume of a cell on level `lev` relative to a
      cell of level 0 with refinement ratio 2. */
  function Weight(dims: nat, lev: nat): (w: real)
    requires dims == 2 || dims == 3
    ensures w > 0.0
  {
    var p := Pow(if dims == 2 then 4.0 else 8.0, lev);
    PowPositive(if dims == 2 then 4.0 else 8.0, lev);
    var w := Quot(1.0, p);
    ReciprocalOfPositive(w, p);
    w
  }

  /** The weight of level `lev` is the reciprocal of 4^lev in 2-D and of
      8^lev in 3-D. */
  lemma WeightIsReciprocal(dims: nat, lev: nat)
    requires dims == 2 || dims == 3
    ensures Weight(dims, lev) * Pow(if dims == 2 then 4.0 else 8.0, lev) == 1.0
  {
    var p := Pow(if dims == 2 then 4.0 else 8.0, lev);
    PowPositive(if dims == 2 then 4.0 else 8.0, lev);
    ReciprocalOfPositive(Quot(1.0, p), p);
  }

  lemma ReciprocalOfPositive(w: real, p: real)
    requires p > 0.0 && w * p == 1.0
    ensures w > 0.0
  {
  }

  function Speeds(cells: seq<Cell>): (v: seq<real>)
    ensures |v| == |cells| && forall i :: 0 <= i < |cells| ==> v[i] == cells[i].speed
  {
    seq(|cells|, i requires 0 <= i < |cells| => cells[i].speed)
  }

  /** The quantities that are summed rather than maximised. */
  predicate IsEnergy(q: Quantity) {
    q == Kinetic || q == Internal || q == Nuclear
  }

  /** What one cell contributes to an energy before weighting: density
      times speed squared, density times specific internal energy, or the
      nuclear heating density. */
  function Density(c: Cell, q: Quantity): real
    requires IsEnergy(q)
  {
    if q == Kinetic then c.rho * c.speed * c.speed
    else if q == Internal then c.rho * c.internalEnergy
    else c.rhoHnuc
  }

  /** The terms a tile adds to one energy: the weighted density of each
      cell taking part, 0 for the others. */
  function WeightedTerms(cells: seq<Cell>, keep: seq<bool>, weight: real, q: Quantity): (t: seq<real>)
    requires |keep| == |cells| && IsEnergy(q)
    ensures |t| == |cells|
    ensures forall i :: 0 <= i < |cells| ==> t[i] == if keep[i] then weight * Density(cells[i], q) else 0.0
  {
    Masked(seq(|cells|, i requires 0 <= i < |cells| => weight * Density(cells[i], q)), keep)
  }

  /** Reference: one energy summed cell by cell over the kept cells, each
      cell contributing the weight times its density. */
  function KeptSum(cells: seq<Cell>, keep: seq<bool>, weight: real, q: Quantity): real
    requires |keep| == |cells| && IsEnergy(q)
    decreases |cells|
  {
    if |cells| == 0 then 0.0
    else
      var n := |cells| - 1;
      KeptSum(cells[..n], keep[..n], weight, q) + (if keep[n] then weight * Density(cells[n], q) else 0.0)
  }

  /** Summing the masked terms of a tile is the cell-by-cell sum over its
      kept cells. */
  lemma {:induction false} WeightedSum(cells: seq<Cell>, keep: seq<bool>, weight: real, q: Quantity)
    requires |keep| == |cells| && IsEnergy(q)
    ensures Sum(WeightedTerms(cells, keep, weight, q)) == KeptSum(cells, keep, weight, q)
    decreases |cells|
  {
    if |cells| > 0 {
      var n := |cells| - 1;
      var t := WeightedTerms(cells, keep, weight, q);
      var t0 := WeightedTerms(cells[..n], keep[..n], weight, q);
      forall i | 0 <= i < n ensures t[..n][i] == t0[i] {
        assert cells[..n][i] == cells[i] && keep[..n][i] == keep[i];
      }
      assert t[..n] == t0;
      WeightedSum(cells[..n], keep[..n], weight, q);
    }
  }

  /** The scan of the planar cells of level `lev` on one process. Below
      the finest level the cells covered by a finer level are masked out;
      each energy is the sum over the cells taking part of the level
      weight times the cell's density; the largest speed and Mach number
      are taken over the same cells. */
  function LocalSummary(cells: seq<Cell>, lev: nat, finest: nat, dims: nat): (s: Summary)
    requires lev <= finest && (dims == 2 || dims == 3)
    requires Divisible(cells, lev < finest)
    ensures s.kin == KeptSum(cells, Keep(cells, lev < finest), Weight(dims, lev), Kinetic)
    ensures s.internal == KeptSum(cells, Keep(cells, lev < finest), Weight(dims, lev), Internal)
    ensures s.nuc == KeptSum(cells, Keep(cells, lev < finest), Weight(dims, lev), Nuclear)
    ensures forall i :: 0 <= i < |cells| && !(lev < finest && cells[i].covered) ==> cells[i].speed <= s.uMax
    ensures s.uMax >= 0.0 && (s.uMax == 0.0 ||
      exists i :: 0 <= i < |cells| && !(lev < finest && cells[i].covered) && cells[i].speed == s.uMax)
    ensures CellsShaped(cells, dims) ==>
      |s.tMax.coord| == |s.tMax.vel| == |s.enucMax.coord| == |s.enucMax.vel| == dims
    ensures s.tMax == PickFirstMax(TempCandidates(cells), Keep(cells, lev < finest), Extremum(0.0, Zeros(dims), Zeros(dims)))
    ensures s.enucMax ==
      PickFirstMax(EnucCandidates(cells, lev < finest), Keep(cells, lev < finest), Extremum(0.0, Zeros(dims), Zeros(dims)))
    ensures s.machMax == KeptMax(MachNumbers(cells, lev < finest), Keep(cells, lev < finest))
  {
    var useMask := lev < finest;
    var keep := Keep(cells, useMask);
    var w := Weight(dims, lev);
    Summary(LocalPick(TempCandidates(cells), cells, keep, dims),
            LocalPick(EnucCandidates(cells, useMask), cells, keep, dims),
            LocalEnergy(cells, keep, w, Kinetic), LocalEnergy(cells, keep, w, Internal),
            LocalEnergy(cells, keep, w, Nuclear),
            KeptMax(Speeds(cells), keep),
            KeptMax(MachNumbers(cells, useMask), keep))
  }

  /** One energy of a tile: the sum of its weighted terms. */
  function LocalEnergy(cells: seq<Cell>, keep: seq<bool>, weight: real, q: Quantity): (e: real)
    requires |keep| == |cells| && IsEnergy(q)
    ensures e == KeptSum(cells, keep, weight, q)
  {
    WeightedSum(cells, keep, weight, q);
    Sum(WeightedTerms(cells, keep, weight, q))
  }

  /** The first-maximum selection of a tile, from the zero default; it
      reports a location and velocity of the grid's dimension. */
  function LocalPick(xs: seq<Extremum>, cells: seq<Cell>, keep: seq<bool>, dims: nat): (e: Extremum)
    requires |xs| == |keep| == |cells|
    requires forall i :: 0 <= i < |xs| ==> xs[i].coord == cells[i].coord && xs[i].vel == cells[i].vel
    ensures e == PickFirstMax(xs, keep, Extremum(0.0, Zeros(dims), Zeros(dims)))
    ensures CellsShaped(cells, dims) ==> |e.coord| == |e.vel| == dims
  {
    PickFirstMax(xs, keep, Extremum(0.0, Zeros(dims), Zeros(dims)))
  }

  /** Every cell's location and velocity have the grid's dimension. */
  predicate CellsShaped(cells: seq<Cell>, dims: nat) {
    forall i :: 0 <= i < |cells| ==> |cells[i].coord| == dims && |cells[i].vel| == dims
  }

  /** Selection reads only the kept candidates. */
  lemma PickOnlyReadsKept(x1: seq<Extremum>, x2: seq<Extremum>, keep: seq<bool>, default: Extremum)
    requires |x1| == |x2| == |keep|
    requires forall i :: 0 <= i < |keep| && keep[i] ==> x1[i] == x2[i]
    ensures PickFirstMax(x1, keep, default) == PickFirstMax(x2, keep, default)
  {
    FirstMaxOnlyReadsKept(Values(x1), Values(x2), keep);
  }

  /** Cells covered by a finer level are left out of every reduction below
      the finest level: whatever they hold, the summary is the same. */
  lemma CoveredCellsIgnored(c1: seq<Cell>, c2: seq<Cell>, lev: nat, finest: nat, dims: nat)
    requires lev <= finest && (dims == 2 || dims == 3)
    requires |c1| == |c2|
    requires forall i :: 0 <= i < |c1| ==> c1[i].covered == c2[i].covered
    requires forall i :: 0 <= i < |c1| && !(lev < finest && c1[i].covered) ==> c1[i] == c2[i]
    requires Divisible(c1, lev < finest) && Divisible(c2, lev < finest)
    ensures LocalSummary(c1, lev, finest, dims) == LocalSummary(c2, lev, finest, dims)
  {
    var useMask := lev < finest;
    var keep := Keep(c1, useMask);
    assert Keep(c2, useMask) == keep;
    var zero := Extremum(0.0, Zeros(dims), Zeros(dims));
    PickOnlyReadsKept(TempCandidates(c1), TempCandidates(c2), keep, zero);
    PickOnlyReadsKept(EnucCandidates(c1, useMask), EnucCandidates(c2, useMask), keep, zero);
    KeptMaxOnlyReadsKept(Speeds(c1), Speeds(c2), keep);
    KeptMaxOnlyReadsKept(MachNumbers(c1, useMask), MachNumbers(c2, useMask), keep);
    var w := Weight(dims, lev);
    EnergiesOnlyReadKept(c1, c2, keep, w, Kinetic);
    EnergiesOnlyReadKept(c1, c2, keep, w, Internal);
    EnergiesOnlyReadKept(c1, c2, keep, w, Nuclear);
  }

  lemma EnergiesOnlyReadKept(c1: seq<Cell>, c2: seq<Cell>, keep: seq<bool>, weight: real, q: Quantity)
    requires |c1| == |c2| == |keep| && IsEnergy(q)
    requires forall i :: 0 <= i < |c1| && keep[i] ==> c1[i] == c2[i]
    ensures WeightedTerms(c1, keep, weight, q) == WeightedTerms(c2, keep, weight, q)
  {
    var t1, t2 := WeightedTerms(c1, keep, weight, q), WeightedTerms(c2, keep, weight, q);
    forall i | 0 <= i < |c1| ensures t1[i] == t2[i] {
      if keep[i] {
        assert c1[i] == c2[i];
      }
    }
  }

  // ---------------------------------------------------------------------
  // Across processes and levels
  // ---------------------------------------------------------------------

  /** The gather on the I/O process: the index of the first process with
      the strictly largest positive value (0 when there is none), that
      value (0 when there is none), and the location and velocity that
      process found. */
  function ProcessPick(xs: seq<Extremum>): (r: (nat, Extremum))
    requires |xs| > 0
    ensures r.0 < |xs|
    ensures r.1.coord == xs[r.0].coord && r.1.vel == xs[r.0].vel
    ensures (forall i :: 0 <= i < |xs| ==> xs[i].value <= 0.0) ==> r.0 == 0 && r.1.value == 0.0
    ensures (exists i :: 0 <= i < |xs| && xs[i].value > 0.0) ==>
      && r.1 == xs[r.0] && r.1.value > 0.0
      && (forall i :: 0 <= i < |xs| ==> xs[i].value <= r.1.value)
      && (forall i :: 0 <= i < r.0 ==> xs[i].value < r.1.value)
  {
    var keep := AllKept(|xs|);
    var b := FirstMax(Values(xs), keep);
    FirstMaxIsFirstLargest(Values(xs), keep);
    var at := if b < 0 then 0 else b;
    (at, Extremum(if b < 0 then 0.0 else xs[b].value, xs[at].coord, xs[at].vel))
  }

  /** The scalar quantities of a summary that are summed or maximised. */
  datatype Quantity = Kinetic | Internal | Nuclear | Speed | Mach

  function Get(s: Summary, q: Quantity): real {
    match q
    case Kinetic => s.kin
    case Internal => s.internal
    case Nuclear => s.nuc
    case Speed => s.uMax
    case Mach => s.machMax
  }

  /** One quantity across a sequence of summaries. */
  function Column(xs: seq<Summary>, q: Quantity): (v: seq<real>)
    ensures |v| == |xs| && forall i :: 0 <= i < |xs| ==> v[i] == Get(xs[i], q)
  {
    seq(|xs|, i requires 0 <= i < |xs| => Get(xs[i], q))
  }

  /** What the gather of one maximum over the processes reports: when no
      process has a positive value, value 0 with process 0's location and
      velocity; otherwise the extremum of the first process holding the
      largest value. */
  predicate GatherOf(xs: seq<Extremum>, e: Extremum)
    requires |xs| > 0
  {
    if forall i :: 0 <= i < |xs| ==> xs[i].value <= 0.0 then e == Extremum(0.0, xs[0].coord, xs[0].vel)
    else
      exists b :: 0 <= b < |xs| && e == xs[b]
        && (forall i :: 0 <= i < |xs| ==> xs[i].value <= e.value)
        && (forall i :: 0 <= i < b ==> xs[i].value < e.value)
  }

  /** At most one extremum fits the description of the gather. */
  lemma GatherOfUnique(xs: seq<Extremum>, e1: Extremum, e2: Extremum)
    requires |xs| > 0 && GatherOf(xs, e1) && GatherOf(xs, e2)
    ensures e1 == e2
  {
    if exists i :: 0 <= i < |xs| && xs[i].value > 0.0 {
      var b1 :| 0 <= b1 < |xs| && e1 == xs[b1]
        && (forall i :: 0 <= i < |xs| ==> xs[i].value <= e1.value)
        && (forall i :: 0 <= i < b1 ==> xs[i].value < e1.value);
      var b2 :| 0 <= b2 < |xs| && e2 == xs[b2]
        && (forall i :: 0 <= i < |xs| ==> xs[i].value <= e2.value)
        && (forall i :: 0 <= i < b2 ==> xs[i].value < e2.value);
      assert xs[b1].value == xs[b2].value;
    }
  }

  /** The gathered extremum of one maximum, as `GatherOf` describes it. */
  function GatheredMax(xs: seq<Extremum>): (e: Extremum)
    requires |xs| > 0
    ensures GatherOf(xs, e)
    ensures forall i :: 0 <= i < |xs| ==> xs[i].value <= e.value
  {
    var r := ProcessPick(xs);
    if exists i :: 0 <= i < |xs| && xs[i].value > 0.0 then
      assert r.1 == xs[r.0];
      r.1
    else
      r.1
  }

  /** A maximum from 0: non-negative, bounding every value, and one of the
      values unless it is 0. */
  predicate MaxOrZero(vals: seq<real>, m: real) {
    && m >= 0.0
    && (forall i :: 0 <= i < |vals| ==> vals[i] <= m)
    && (m == 0.0 || exists i :: 0 <= i < |vals| && vals[i] == m)
  }

  /** The maximum from 0 over all values. */
  function AllMax(vals: seq<real>): (m: real)
    ensures MaxOrZero(vals, m)
  {
    KeptMax(vals, AllKept(|vals|))
  }

  function Maxima(xs: seq<Summary>, temperature: bool): (v: seq<Extremum>)
    ensures |v| == |xs|
    ensures forall i :: 0 <= i < |xs| ==> v[i] == if temperature then xs[i].tMax else xs[i].enucMax
  {
    seq(|xs|, i requires 0 <= i < |xs| => if temperature then xs[i].tMax else xs[i].enucMax)
  }

  /** The reductions across processes of one level: the gathered maxima
      with their locations, the sums, and the largest speed and Mach
      number. */
  function CombineProcesses(locals: seq<Summary>): (s: Summary)
    requires |locals| > 0
    ensures GatherOf(Maxima(locals, true), s.tMax) && GatherOf(Maxima(locals, false), s.enucMax)
    ensures forall i :: 0 <= i < |locals| ==>
      locals[i].tMax.value <= s.tMax.value && locals[i].enucMax.value <= s.enucMax.value
    ensures s.kin == Sum(Column(locals, Kinetic)) && s.internal == Sum(Column(locals, Internal))
      && s.nuc == Sum(Column(locals, Nuclear))
    ensures MaxOrZero(Column(locals, Speed), s.uMax) && MaxOrZero(Column(locals, Mach), s.machMax)
    ensures forall i :: 0 <= i < |locals| ==> locals[i].uMax <= s.uMax && locals[i].machMax <= s.machMax
  {
    Summary(GatheredMax(Maxima(locals, true)), GatheredMax(Maxima(locals, false)),
            Sum(Column(locals, Kinetic)), Sum(Column(locals, Internal)), Sum(Column(locals, Nuclear)),
            AllMax(Column(locals, Speed)), AllMax(Column(locals, Mach)))
  }

  /** One level after the cross-process reduction, with the centre values
      the spherical kernel accumulated (zero in planar geometry). */
  datatype LevelResult = LevelResult(summary: Summary, tCenter: real, velCenter: seq<real>, ncenter: int)

  datatype Totals = Totals(tMax: Extremum, enucMax: Extremum, kin: real, internal: real, nuc: real,
                           uMax: real, machMax: real, tCenter: real, velCenter: seq<real>, ncenter: int)

  function CenterCount(ls: seq<LevelResult>): int
    decreases |ls|
  {
    if |ls| == 0 then 0 else CenterCount(ls[..|ls| - 1]) + ls[|ls| - 1].ncenter
  }

  function CenterVelocity(ls: seq<LevelResult>, dims: nat): (v: seq<real>)
    requires forall i :: 0 <= i < |ls| ==> |ls[i].velCenter| == dims
    ensures |v| == dims
    ensures forall d :: 0 <= d < dims ==> v[d] == Sum(seq(|ls|, i requires 0 <= i < |ls| => ls[i].velCenter[d]))
  {
    seq(dims, d requires 0 <= d < dims => Sum(seq(|ls|, i requires 0 <= i < |ls| => ls[i].velCenter[d])))
  }

  function Summaries(ls: seq<LevelResult>): (v: seq<Summary>)
    ensures |v| == |ls| && forall i :: 0 <= i < |ls| ==> v[i] == ls[i].summary
  {
    seq(|ls|, i requires 0 <= i < |ls| => ls[i].summary)
  }

  function CenterTemperature(ls: seq<LevelResult>): real {
    Sum(seq(|ls|, i requires 0 <= i < |ls| => ls[i].tCenter))
  }

  /** The merge of one maximum over the levels, from a zero start. */
  function MergeMax(xs: seq<Extremum>, dims: nat): (e: Extremum)
    ensures e == Extremum(0.0, Zeros(dims), Zeros(dims)) ||
      (exists b :: 0 <= b < |xs| && e == xs[b] && forall i :: 0 <= i < b ==> xs[i].value < e.value)
    ensures forall i :: 0 <= i < |xs| ==> xs[i].value <= e.value
    ensures (forall i :: 0 <= i < |xs| ==> xs[i].value <= 0.0) ==> e == Extremum(0.0, Zeros(dims), Zeros(dims))
  {
    PickFirstMax(xs, AllKept(|xs|), Extremum(0.0, Zeros(dims), Zeros(dims)))
  }

  /** The temperature or the enuc maximum of one summary. */
  function ExtremumOf(s: Summary, temperature: bool): Extremum {
    if temperature then s.tMax else s.enucMax
  }

  /** The merge of one maximum over the levels' summaries. */
  function LevelMax(ls: seq<LevelResult>, dims: nat, temperature: bool): (e: Extremum)
    ensures e == Extremum(0.0, Zeros(dims), Zeros(dims)) ||
      (exists b :: 0 <= b < |ls| && e == ExtremumOf(ls[b].summary, temperature)
        && forall i :: 0 <= i < b ==> ExtremumOf(ls[i].summary, temperature).value < e.value)
    ensures forall i :: 0 <= i < |ls| ==> ExtremumOf(ls[i].summary, temperature).value <= e.value
    ensures (forall i :: 0 <= i < |ls| ==> ExtremumOf(ls[i].summary, temperature).value <= 0.0) ==>
      e == Extremum(0.0, Zeros(dims), Zeros(dims))
  {
    var xs := Maxima(Summaries(ls), temperature);
    assert forall i :: 0 <= i < |ls| ==> xs[i] == ExtremumOf(ls[i].summary, temperature);
    MergeMax(xs, dims)
  }

  /** The merge over levels on the I/O process: a level's maximum and its
      location replace the running one only when strictly larger, so among
      equal maxima the coarsest level's location is kept; the rest is
      summed or maximised. */
  function MergeLevels(ls: seq<LevelResult>, dims: nat): (t: Totals)
    requires forall i :: 0 <= i < |ls| ==> |ls[i].velCenter| == dims
    ensures t.tMax == Extremum(0.0, Zeros(dims), Zeros(dims)) ||
      (exists b :: 0 <= b < |ls| && t.tMax == ls[b].summary.tMax
        && forall i :: 0 <= i < b ==> ls[i].summary.tMax.value < t.tMax.value)
    ensures t.enucMax == Extremum(0.0, Zeros(dims), Zeros(dims)) ||
      (exists b :: 0 <= b < |ls| && t.enucMax == ls[b].summary.enucMax
        && forall i :: 0 <= i < b ==> ls[i].summary.enucMax.value < t.enucMax.value)
    ensures forall i :: 0 <= i < |ls| ==> ls[i].summary.tMax.value <= t.tMax.value
    ensures forall i :: 0 <= i < |ls| ==> ls[i].summary.enucMax.value <= t.enucMax.value
    ensures (forall i :: 0 <= i < |ls| ==> ls[i].summary.tMax.value <= 0.0) ==>
      t.tMax == Extremum(0.0, Zeros(dims), Zeros(dims))
    ensures (forall i :: 0 <= i < |ls| ==> ls[i].summary.enucMax.value <= 0.0) ==>
      t.enucMax == Extremum(0.0, Zeros(dims), Zeros(dims))
    ensures t.ncenter == CenterCount(ls) && |t.velCenter| == dims
    ensures t.kin == Sum(Column(Summaries(ls), Kinetic)) && t.internal == Sum(Column(Summaries(ls), Internal))
      && t.nuc == Sum(Column(Summaries(ls), Nuclear))
    ensures MaxOrZero(Column(Summaries(ls), Speed), t.uMax) && MaxOrZero(Column(Summaries(ls), Mach), t.machMax)
    ensures t.tCenter == CenterTemperature(ls) && t.velCenter == CenterVelocity(ls, dims)
  {
    var sums := Summaries(ls);
    var tMax := LevelMax(ls, dims, true);
    var enucMax := LevelMax(ls, dims, false);
    assert forall i :: 0 <= i < |ls| ==>
      ExtremumOf(ls[i].summary, true) == ls[i].summary.tMax && ExtremumOf(ls[i].summary, false) == ls[i].summary.enucMax;
    Totals(tMax, enucMax,
           Sum(Column(sums, Kinetic)), Sum(Column(sums, Internal)), Sum(Column(sums, Nuclear)),
           AllMax(Column(sums, Speed)), AllMax(Column(sums, Mach)),
           CenterTemperature(ls), CenterVelocity(ls, dims), CenterCount(ls))
  }

  // ---------------------------------------------------------------------
  // Normalisation
  // ---------------------------------------------------------------------

  function Prod(s: seq<real>): real
    decreases |s|
  {
    if |s| == 0 then 1.0 else Prod(s[..|s| - 1]) * s[|s| - 1]
  }

  /** The energies are multiplied by each coarse cell width in turn, which
      scales them by the volume of a level-0 cell. */
  method ScaleByCellVolume(e: real, dx: seq<real>) returns (r: real)
    ensures r == e * Prod(dx)
  {
    r := e;
    var i := 0;
    while i < |dx|
      invariant 0 <= i <= |dx|
      invariant r == e * Prod(dx[..i])
    {
      assert dx[..i + 1][..i] == dx[..i];
      r := r * dx[i];
      i := i + 1;
    }
    assert dx[..i] == dx;
  }

  /** An energy scaled by the volume of a level-0 cell. */
  function Scaled(e: real, dx: seq<real>): real {
    e * Prod(dx)
  }

  const NcenterMsg := "ERROR: ncenter invalid in Diag()"

  /** Only the cells touching the centre of the star contribute to its
      centre values: eight for a full star, one for an octant. */
  predicate ValidCenterCount(ncenter: int, octant: bool) {
    (ncenter == 8 && !octant) || (ncenter == 1 && octant)
  }

  /** The centre temperature and velocity as averages over the centre
      cells, or an abort for any other count. */
  function CenterAverage(ncenter: int, octant: bool, tCenter: real, velCenter: seq<real>): (r: Result<(real, seq<real>)>)
    ensures r.Ok? <==> ValidCenterCount(ncenter, octant)
    ensures r.Abort? ==> r.msg == NcenterMsg
    ensures r.Ok? ==> r.value.0 * (ncenter as real) == tCenter && |r.value.1| == |velCenter|
    ensures r.Ok? ==> forall i :: 0 <= i < |velCenter| ==> r.value.1[i] * (ncenter as real) == velCenter[i]
  {
    if !ValidCenterCount(ncenter, octant) then Abort(NcenterMsg)
    else
      var n := ncenter as real;
      Ok((Quot(tCenter, n), seq(|velCenter|, i requires 0 <= i < |velCenter| => Quot(velCenter[i], n))))
  }

  /** The end of the reduction on the I/O process: energies scaled by the
      level-0 cell volume and, for a star, the centre values averaged. */
  function Normalize(t: Totals, dx: seq<real>, spherical: bool, octant: bool): (r: Result<Totals>)
    ensures r.Abort? <==> spherical && !ValidCenterCount(t.ncenter, octant)
    ensures r.Ok? ==> (r.value.kin == Scaled(t.kin, dx) && r.value.internal == Scaled(t.internal, dx)
      && r.value.nuc == Scaled(t.nuc, dx))
    ensures r.Ok? ==> r.value.tMax == t.tMax && r.value.enucMax == t.enucMax && r.value.uMax == t.uMax
    ensures r.Ok? ==> r.value.machMax == t.machMax && r.value.ncenter == t.ncenter
    ensures r.Ok? && spherical ==> r.value.tCenter * (t.ncenter as real) == t.tCenter
    ensures r.Ok? && spherical ==>
      && |r.value.velCenter| == |t.velCenter|
      && forall i :: 0 <= i < |t.velCenter| ==> r.value.velCenter[i] * (t.ncenter as real) == t.velCenter[i]
    ensures r.Ok? && !spherical ==> r.value.tCenter == t.tCenter && r.value.velCenter == t.velCenter
  {
    var scaled := t.(kin := Scaled(t.kin, dx), internal := Scaled(t.internal, dx), nuc := Scaled(t.nuc, dx));
    if !spherical then Ok(scaled)
    else
      var c :- CenterAverage(t.ncenter, octant, t.tCenter, t.velCenter);
      Ok(scaled.(tCenter := c.0, velCenter := c.1))
  }

  // ---------------------------------------------------------------------
  // Rows and their buffers
  // ---------------------------------------------------------------------

  /** Row widths of the temperature, energy-generation and velocity
      files. */
  function TempWidth(spherical: bool): nat { if spherical then 11 else 8 }
  function EnucWidth(spherical: bool): nat { if spherical then 11 else 9 }
  function VelWidth(spherical: bool): nat { if spherical then 10 else 7 }

  /** One line of each file. */
  datatype DiagRecord = DiagRecord(time: real, dt: real, dims: nat,
                                   tMax: Extremum, rlocT: real, vrT: real, tCenter: real,
                                   enucMax: Extremum, rlocE: real, vrE: real, nucEner: real,
                                   uMax: real, machMax: real, kin: real, grav: real, internal: real,
                                   velCenter: seq<real>)

  predicate Shaped(d: DiagRecord, spherical: bool) {
    && (d.dims == 2 || d.dims == 3)
    && |d.tMax.coord| == |d.tMax.vel| == |d.enucMax.coord| == |d.enucMax.vel| == d.dims
    && (spherical ==> d.dims == 3 && |d.velCenter| == 3)
  }

  /** A vector written as three columns, the third 0 in two dimensions. */
  function Columns(c: seq<real>, dims: nat): (x: seq<real>)
    requires |c| == dims && (dims == 2 || dims == 3)
    ensures |x| == 3 && x[0] == c[0] && x[1] == c[1] && x[2] == (if dims == 2 then 0.0 else c[2])
  {
    [c[0], c[1], if dims == 2 then 0.0 else c[2]]
  }

  function TempRow(d: DiagRecord, spherical: bool): (row: seq<real>)
    requires Shaped(d, spherical)
    ensures |row| == TempWidth(spherical)
  {
    [d.time, d.tMax.value] + Columns(d.tMax.coord, d.dims) + Columns(d.tMax.vel, d.dims)
    + (if spherical then [d.rlocT, d.vrT, d.tCenter] else [])
  }

  /** The energy-generation line as the file's columns lay it out: the
      radius and radial velocity only for a star, the total nuclear energy
      last. */
  function EnucRow(d: DiagRecord, spherical: bool): (row: seq<real>)
    requires Shaped(d, spherical)
    ensures |row| == EnucWidth(spherical)
    ensures row[|row| - 1] == d.nucEner
  {
    [d.time, d.enucMax.value] + Columns(d.enucMax.coord, d.dims) + Columns(d.enucMax.vel, d.dims)
    + (if spherical then [d.rlocE, d.vrE] else []) + [d.nucEner]
  }

  function VelRow(d: DiagRecord, spherical: bool): (row: seq<real>)
    requires Shaped(d, spherical)
    ensures |row| == VelWidth(spherical)
    ensures row[|row| - 1] == d.dt
  {
    [d.time, d.uMax, d.machMax, d.kin, d.grav, d.internal]
    + (if spherical then d.velCenter[..3] else []) + [d.dt]
  }

  /** The column layout of the three lines: time first, then the maximum
      with its location and velocity (temperature and energy generation),
      or the speed and energy columns (velocity). */
  lemma RowLayout(d: DiagRecord, spherical: bool)
    requires Shaped(d, spherical)
    ensures var row := TempRow(d, spherical);
      && row[0] == d.time && row[1] == d.tMax.value
      && row[2..5] == Columns(d.tMax.coord, d.dims) && row[5..8] == Columns(d.tMax.vel, d.dims)
      && (spherical ==> row[8..] == [d.rlocT, d.vrT, d.tCenter])
    ensures var row := EnucRow(d, spherical);
      && row[0] == d.time && row[1] == d.enucMax.value
      && row[2..5] == Columns(d.enucMax.coord, d.dims) && row[5..8] == Columns(d.enucMax.vel, d.dims)
      && (spherical ==> row[8] == d.rlocE && row[9] == d.vrE)
    ensures var row := VelRow(d, spherical);
      && row[..6] == [d.time, d.uMax, d.machMax, d.kin, d.grav, d.internal]
      && (spherical ==> row[6..9] == d.velCenter[..3])
  {
  }

  /** `vals` written into `buf` from `offset` on. */
  function WriteAt(buf: seq<real>, offset: nat, vals: seq<real>): (b: seq<real>)
    requires offset + |vals| <= |buf|
    ensures |b| == |buf|
    ensures b[offset..offset + |vals|] == vals
    ensures forall j :: 0 <= j < |buf| && !(offset <= j < offset + |vals|) ==> b[j] == buf[j]
  {
    buf[..offset] + vals + buf[offset + |vals|..]
  }

  /** Where row `i` of a buffer of rows of width `w` starts: `i * w`,
      counted up one row at a time. */
  function Offset(i: nat, w: nat): nat
    decreases i
  {
    if i == 0 then 0 else Offset(i - 1, w) + w
  }

  lemma {:induction false} OffsetIsProduct(i: nat, w: nat)
    ensures Offset(i, w) == i * w
    decreases i
  {
    if i > 0 {
      OffsetIsProduct(i - 1, w);
      assert (i - 1) * w + w == i * w;
    }
  }

  lemma OffsetNext(i: nat, w: nat)
    ensures Offset(i + 1, w) == Offset(i, w) + w
  {
  }

  lemma {:induction false} OffsetMonotone(i: nat, j: nat, w: nat)
    requires i <= j
    ensures Offset(i, w) <= Offset(j, w)
    decreases j
  {
    if i < j {
      OffsetMonotone(i, j - 1, w);
    }
  }

  lemma SameOffset(x: nat, y: nat, w: nat)
    requires x == y
    ensures Offset(x, w) == Offset(y, w)
  {
  }

  /** Row `i` of a buffer of rows of width `n`. */
  function RowAt(buf: seq<real>, i: nat, n: nat): seq<real>
    requires Offset(i, n) + n <= |buf|
  {
    buf[Offset(i, n)..Offset(i, n) + n]
  }

  lemma RowsFit(i: nat, count: nat, n: nat)
    requires i < count
    ensures Offset(i, n) + n <= Offset(count, n)
  {
    OffsetNext(i, n);
    OffsetMonotone(i + 1, count, n);
  }

  /** The first `count` rows, in order. */
  function Rows(buf: seq<real>, count: nat, n: nat): (rows: seq<seq<real>>)
    requires Offset(count, n) <= |buf|
    ensures |rows| == count
    ensures forall i :: 0 <= i < count ==> Offset(i, n) + n <= |buf| && rows[i] == RowAt(buf, i, n)
    decreases count
  {
    if count == 0 then []
    else
      RowsFit(count - 1, count, n);
      Rows(buf, count - 1, n) + [RowAt(buf, count - 1, n)]
  }

  /** The buffers of the three files and the number of rows they hold. */
  datatype Buffers = Buffers(temp: seq<real>, enuc: seq<real>, vel: seq<real>, index: nat)

  /** Room for `k` more rows in each buffer. */
  predicate HasRoom(b: Buffers, spherical: bool, k: nat) {
    && Offset(b.index + k, TempWidth(spherical)) <= |b.temp|
    && Offset(b.index + k, EnucWidth(spherical)) <= |b.enuc|
    && Offset(b.index + k, VelWidth(spherical)) <= |b.vel|
  }

  /** One buffered line per file at row `index`; the index moves on by one. */
  function Store(b: Buffers, d: DiagRecord, spherical: bool): (b2: Buffers)
    requires Shaped(d, spherical) && HasRoom(b, spherical, 1)
    ensures b2.index == b.index + 1 && HasRoom(b2, spherical, 0)
    ensures |b2.temp| == |b.temp| && |b2.enuc| == |b.enuc| && |b2.vel| == |b.vel|
  {
    var n1, n2, n3 := TempWidth(spherical), EnucWidth(spherical), VelWidth(spherical);
    OffsetNext(b.index, n1);
    OffsetNext(b.index, n2);
    OffsetNext(b.index, n3);
    var b2 := Buffers(WriteAt(b.temp, Offset(b.index, n1), TempRow(d, spherical)),
                      WriteAt(b.enuc, Offset(b.index, n2), EnucRow(d, spherical)),
                      WriteAt(b.vel, Offset(b.index, n3), VelRow(d, spherical)),
                      b.index + 1);
    RoomMoves(b, b2, spherical, 1, 0);
    b2
  }

  /** The end of `DiagFile`: at step 0 the three lines go straight to the
      files and the buffers are left alone; later they are buffered. */
  function RecordStep(step: nat, d: DiagRecord, b: Buffers, spherical: bool): (r: (Buffers, seq<seq<real>>))
    requires Shaped(d, spherical) && (step > 0 ==> HasRoom(b, spherical, 1))
    ensures step == 0 ==> r.0 == b && r.1 == [TempRow(d, spherical), EnucRow(d, spherical), VelRow(d, spherical)]
    ensures step > 0 ==> r.0.index == b.index + 1 && r.1 == []
  {
    if step == 0 then (b, [TempRow(d, spherical), EnucRow(d, spherical), VelRow(d, spherical)])
    else (Store(b, d, spherical), [])
  }

  /** `WriteDiagFile`: the buffered rows of each file in order, and the
      index back to 0 (the stored values themselves stay). */
  function Flush(b: Buffers, spherical: bool): (r: (seq<seq<real>>, seq<seq<real>>, seq<seq<real>>, Buffers))
    requires HasRoom(b, spherical, 0)
    ensures |r.0| == |r.1| == |r.2| == b.index
    ensures r.3 == b.(index := 0)
  {
    (Rows(b.temp, b.index, TempWidth(spherical)), Rows(b.enuc, b.index, EnucWidth(spherical)),
     Rows(b.vel, b.index, VelWidth(spherical)), b.(index := 0))
  }

  /** A run of steps after the first, each buffering its lines. */
  function StoreAll(b: Buffers, ds: seq<DiagRecord>, spherical: bool): (b2: Buffers)
    requires forall i :: 0 <= i < |ds| ==> Shaped(ds[i], spherical)
    requires HasRoom(b, spherical, |ds|)
    ensures b2.index == b.index + |ds| && HasRoom(b2, spherical, 0)
    ensures |b2.temp| == |b.temp| && |b2.enuc| == |b.enuc| && |b2.vel| == |b.vel|
    decreases |ds|
  {
    if |ds| == 0 then b
    else
      var n := |ds| - 1;
      var b1 := StoreAll(b, ds[..n], spherical);
      Store(b1, ds[n], spherical)
  }

  /** Every level's maxima carry locations and velocities of the grid's
      dimension. */
  predicate LevelsShaped(ls: seq<LevelResult>, dims: nat) {
    forall i :: 0 <= i < |ls| ==>
      && |ls[i].velCenter| == dims
      && |ls[i].summary.tMax.coord| == |ls[i].summary.tMax.vel| == dims
      && |ls[i].summary.enucMax.coord| == |ls[i].summary.enucMax.vel| == dims
  }

  /** The lines of one step from the normalised totals. Radius and radial
      velocity of a hot spot are those of the last location taken over,
      which exists exactly when the maximum is positive. */
  function Assemble(t: Totals, time: real, dt: real, dims: nat, grav: real, spherical: bool,
                    radius: seq<real> -> real, radialVel: (seq<real>, seq<real>) -> real): (d: DiagRecord)
    ensures d.tMax == t.tMax && d.enucMax == t.enucMax && d.nucEner == t.nuc && d.tCenter == t.tCenter
    ensures d.time == time && d.dt == dt && d.dims == dims && d.grav == grav && d.velCenter == t.velCenter
    ensures d.kin == t.kin && d.internal == t.internal && d.uMax == t.uMax && d.machMax == t.machMax
    ensures !spherical ==> d.rlocT == 0.0 && d.vrT == 0.0 && d.rlocE == 0.0 && d.vrE == 0.0
  {
    var hotT := spherical && t.tMax.value > 0.0;
    var hotE := spherical && t.enucMax.value > 0.0;
    DiagRecord(time, dt, dims,
               t.tMax, if hotT then radius(t.tMax.coord) else 0.0,
               if hotT then radialVel(t.tMax.coord, t.tMax.vel) else 0.0, t.tCenter,
               t.enucMax, if hotE then radius(t.enucMax.coord) else 0.0,
               if hotE then radialVel(t.enucMax.coord, t.enucMax.vel) else 0.0, t.nuc,
               t.uMax, t.machMax, t.kin, grav, t.internal, t.velCenter)
  }

  lemma MergedShape(ls: seq<LevelResult>, dims: nat)
    requires LevelsShaped(ls, dims)
    ensures var t := MergeLevels(ls, dims);
      |t.tMax.coord| == |t.tMax.vel| == |t.enucMax.coord| == |t.enucMax.vel| == |t.velCenter| == dims
  {
  }

  /** The record of one step from the level results: merged over levels,
      normalised, and laid out with the time, dt and gravitational
      energy. */
  function StepRecord(time: real, dt: real, grav: real, ls: seq<LevelResult>, dims: nat, dx: seq<real>,
                      spherical: bool, octant: bool, radius: seq<real> -> real,
                      radialVel: (seq<real>, seq<real>) -> real): (r: Result<DiagRecord>)
    requires (dims == 2 || dims == 3) && (spherical ==> dims == 3)
    requires LevelsShaped(ls, dims)
    ensures r.Abort? <==> spherical && !ValidCenterCount(CenterCount(ls), octant)
    ensures r.Abort? ==> r.msg == NcenterMsg
    ensures r.Ok? ==> Shaped(r.value, spherical)
    ensures r.Ok? ==> r.value.time == time && r.value.dt == dt && r.value.grav == grav && r.value.dims == dims
  {
    var t :- Reduced(ls, dims, dx, spherical, octant);
    Ok(Assemble(t, time, dt, dims, grav, spherical, radius, radialVel))
  }

  /** The values a step's record carries: the energies summed over the
      levels and scaled by the level-0 cell volume, the maxima merged over
      the levels, and the largest speed and Mach number of all levels. */
  lemma StepRecordTotals(time: real, dt: real, grav: real, ls: seq<LevelResult>, dims: nat, dx: seq<real>,
                         spherical: bool, octant: bool, radius: seq<real> -> real,
                         radialVel: (seq<real>, seq<real>) -> real)
    requires (dims == 2 || dims == 3) && (spherical ==> dims == 3)
    requires LevelsShaped(ls, dims)
    ensures var r := StepRecord(time, dt, grav, ls, dims, dx, spherical, octant, radius, radialVel);
      r.Ok? ==>
      && r.value.kin == Scaled(Sum(Column(Summaries(ls), Kinetic)), dx)
      && r.value.internal == Scaled(Sum(Column(Summaries(ls), Internal)), dx)
      && r.value.nucEner == Scaled(Sum(Column(Summaries(ls), Nuclear)), dx)
      && r.value.tMax == LevelMax(ls, dims, true) && r.value.enucMax == LevelMax(ls, dims, false)
      && MaxOrZero(Column(Summaries(ls), Speed), r.value.uMax) && MaxOrZero(Column(Summaries(ls), Mach), r.value.machMax)
  {
  }

  /** The totals of one step on the I/O process: the level results merged
      and normalised. */
  function Reduced(ls: seq<LevelResult>, dims: nat, dx: seq<real>, spherical: bool, octant: bool): (r: Result<Totals>)
    requires (dims == 2 || dims == 3) && (spherical ==> dims == 3)
    requires LevelsShaped(ls, dims)
    ensures r.Abort? <==> spherical && !ValidCenterCount(CenterCount(ls), octant)
    ensures r.Abort? ==> r.msg == NcenterMsg
    ensures r.Ok? ==>
      && |r.value.tMax.coord| == |r.value.tMax.vel| == |r.value.enucMax.coord| == |r.value.enucMax.vel| == dims
      && (spherical ==> |r.value.velCenter| == 3)
    ensures r.Ok? ==>
      && r.value.kin == Scaled(Sum(Column(Summaries(ls), Kinetic)), dx)
      && r.value.internal == Scaled(Sum(Column(Summaries(ls), Internal)), dx)
      && r.value.nuc == Scaled(Sum(Column(Summaries(ls), Nuclear)), dx)
    ensures r.Ok? ==> r.value.tMax == LevelMax(ls, dims, true) && r.value.enucMax == LevelMax(ls, dims, false)
    ensures r.Ok? ==>
      MaxOrZero(Column(Summaries(ls), Speed), r.value.uMax) && MaxOrZero(Column(Summaries(ls), Mach), r.value.machMax)
  {
    var merged := MergeLevels(ls, dims);
    MergedShape(ls, dims);
    Normalize(merged, dx, spherical, octant)
  }

  /** `DiagFile` from the level results on: the step's record, its three
      lines written straight away at step 0 or buffered later. */
  function DiagFile(step: nat, time: real, dt: real, grav: real, ls: seq<LevelResult>, dims: nat,
                    dx: seq<real>, spherical: bool, octant: bool, radius: seq<real> -> real,
                    radialVel: (seq<real>, seq<real>) -> real, b: Buffers): (r: Result<(Buffers, seq<seq<real>>)>)
    requires (dims == 2 || dims == 3) && (spherical ==> dims == 3)
    requires LevelsShaped(ls, dims)
    requires step > 0 ==> HasRoom(b, spherical, 1)
    ensures r.Abort? <==> spherical && !ValidCenterCount(CenterCount(ls), octant)
    ensures r.Abort? ==> r.msg == NcenterMsg
    ensures r.Ok? && step == 0 ==> r.value.0 == b && |r.value.1| == 3
    ensures r.Ok? && step > 0 ==> r.value.0.index == b.index + 1 && r.value.1 == []
  {
    var d :- StepRecord(time, dt, grav, ls, dims, dx, spherical, octant, radius, radialVel);
    Ok(RecordStep(step, d, b, spherical))
  }

  /** What `DiagFile` writes: at step 0 the three lines of the step's
      record, later that record buffered. */
  lemma DiagFileWrites(step: nat, time: real, dt: real, grav: real, ls: seq<LevelResult>, dims: nat,
                       dx: seq<real>, spherical: bool, octant: bool, radius: seq<real> -> real,
                       radialVel: (seq<real>, seq<real>) -> real, b: Buffers)
    requires (dims == 2 || dims == 3) && (spherical ==> dims == 3)
    requires LevelsShaped(ls, dims)
    requires step > 0 ==> HasRoom(b, spherical, 1)
    ensures var r := DiagFile(step, time, dt, grav, ls, dims, dx, spherical, octant, radius, radialVel, b);
      r.Ok? ==>
      var d := StepRecord(time, dt, grav, ls, dims, dx, spherical, octant, radius, radialVel).value;
      && Shaped(d, spherical)
      && (step == 0 ==> r.value.1 == [TempRow(d, spherical), EnucRow(d, spherical), VelRow(d, spherical)])
      && (step > 0 ==> r.value.0 == Store(b, d, spherical))
  {
  }

  /** At step 0 in planar geometry the velocity line carries the kinetic
      and internal energies summed over the levels and scaled by the
      level-0 cell volume, with the gravitational energy between them, and
      the energy-generation line ends with the nuclear energy so
      obtained. */
  lemma PlanarStepLines(time: real, dt: real, grav: real, ls: seq<LevelResult>, dims: nat, dx: seq<real>,
                        octant: bool, radius: seq<real> -> real, radialVel: (seq<real>, seq<real>) -> real, b: Buffers)
    requires (dims == 2 || dims == 3) && LevelsShaped(ls, dims)
    ensures var r := DiagFile(0, time, dt, grav, ls, dims, dx, false, octant, radius, radialVel, b);
      && r.Ok? && |r.value.1| == 3
      && |r.value.1[1]| == EnucWidth(false) && |r.value.1[2]| == VelWidth(false)
      && r.value.1[2][3] == Scaled(Sum(Column(Summaries(ls), Kinetic)), dx)
      && r.value.1[2][4] == grav
      && r.value.1[2][5] == Scaled(Sum(Column(Summaries(ls), Internal)), dx)
      && r.value.1[1][8] == Scaled(Sum(Column(Summaries(ls), Nuclear)), dx)
  {
    StepRecordTotals(time, dt, grav, ls, dims, dx, false, octant, radius, radialVel);
    DiagFileWrites(0, time, dt, grav, ls, dims, dx, false, octant, radius, radialVel, b);
    var d := StepRecord(time, dt, grav, ls, dims, dx, false, octant, radius, radialVel).value;
    PlanarLineColumns(d);
  }

  /** Where the energies sit on the planar step-0 lines. */
  lemma PlanarLineColumns(d: DiagRecord)
    requires Shaped(d, false)
    ensures var lines := [TempRow(d, false), EnucRow(d, false), VelRow(d, false)];
      && |lines[1]| == EnucWidth(false) && |lines[2]| == VelWidth(false)
      && lines[2][3] == d.kin && lines[2][4] == d.grav && lines[2][5] == d.internal && lines[1][8] == d.nucEner
  {
  }

  /** The three diagnostic files. */
  datatype File = TempFile | EnucFile | VelFile

  function Width(f: File, spherical: bool): nat {
    match f
    case TempFile => TempWidth(spherical)
    case EnucFile => EnucWidth(spherical)
    case VelFile => VelWidth(spherical)
  }

  function BufferOf(b: Buffers, f: File): seq<real> {
    match f
    case TempFile => b.temp
    case EnucFile => b.enuc
    case VelFile => b.vel
  }

  function Line(f: File, d: DiagRecord, spherical: bool): (l: seq<real>)
    requires Shaped(d, spherical)
    ensures |l| == Width(f, spherical)
  {
    match f
    case TempFile => TempRow(d, spherical)
    case EnucFile => EnucRow(d, spherical)
    case VelFile => VelRow(d, spherical)
  }

  function Lines(f: File, ds: seq<DiagRecord>, spherical: bool): (ls: seq<seq<real>>)
    requires forall i :: 0 <= i < |ds| ==> Shaped(ds[i], spherical)
    ensures |ls| == |ds| && forall i :: 0 <= i < |ds| ==> ls[i] == Line(f, ds[i], spherical)
  {
    seq(|ds|, i requires 0 <= i < |ds| => Line(f, ds[i], spherical))
  }

  /** Rows lying wholly in an unchanged prefix read back unchanged. */
  lemma RowsPreserved(buf1: seq<real>, buf2: seq<real>, count: nat, n: nat)
    requires |buf1| == |buf2| && Offset(count, n) <= |buf1|
    requires forall j :: 0 <= j < Offset(count, n) ==> buf1[j] == buf2[j]
    ensures Rows(buf1, count, n) == Rows(buf2, count, n)
  {
    forall i | 0 <= i < count
      ensures Offset(i, n) + n <= |buf1| && RowAt(buf1, i, n) == RowAt(buf2, i, n)
    {
      RowsFit(i, count, n);
      SliceOfEqualPrefix(buf1, buf2, Offset(i, n), Offset(i, n) + n, Offset(count, n));
    }
  }

  /** A slice inside a prefix on which two buffers agree is the same in both. */
  lemma SliceOfEqualPrefix(buf1: seq<real>, buf2: seq<real>, lo: nat, hi: nat, m: nat)
    requires lo <= hi <= m <= |buf1| && |buf1| == |buf2|
    requires forall j :: 0 <= j < m ==> buf1[j] == buf2[j]
    ensures buf1[lo..hi] == buf2[lo..hi]
  {
    assert forall k :: 0 <= k < hi - lo ==> buf1[lo..hi][k] == buf1[lo + k] && buf2[lo..hi][k] == buf2[lo + k];
  }

  /** Buffering the lines of a run of steps from an empty buffer and then
      flushing gives back exactly those lines, in order, for each file. */
  lemma StoredRowsReadBack(b: Buffers, ds: seq<DiagRecord>, spherical: bool, f: File)
    requires forall i :: 0 <= i < |ds| ==> Shaped(ds[i], spherical)
    requires HasRoom(b, spherical, |ds|) && b.index == 0
    ensures Rows(BufferOf(StoreAll(b, ds, spherical), f), |ds|, Width(f, spherical)) == Lines(f, ds, spherical)
  {
    var buf, ls, w := BufferOf(b, f), Lines(f, ds, spherical), Width(f, spherical);
    StoreAllWrites(b, ds, spherical, f);
    SameOffset(|ds|, |ls|, w);
    StoreLinesReadBack(buf, ls, w);
  }

  /** `lines`, each `w` long, written as rows 0, 1, ... of `buf`. */
  function StoreLines(buf: seq<real>, lines: seq<seq<real>>, w: nat): (r: seq<real>)
    requires Offset(|lines|, w) <= |buf|
    requires forall i :: 0 <= i < |lines| ==> |lines[i]| == w
    ensures |r| == |buf|
    decreases |lines|
  {
    if |lines| == 0 then buf
    else
      var n := |lines| - 1;
      RowsFit(n, |lines|, w);
      assert forall i :: 0 <= i < n ==> lines[..n][i] == lines[i];
      WriteAt(StoreLines(buf, lines[..n], w), Offset(n, w), lines[n])
  }

  /** Writing `n + 1` lines is writing the first `n` and then line `n`. */
  lemma StoreLinesSnoc(buf: seq<real>, lines: seq<seq<real>>, w: nat, n: nat)
    requires |lines| == n + 1 && Offset(|lines|, w) <= |buf|
    requires forall i :: 0 <= i < |lines| ==> |lines[i]| == w
    ensures Offset(n, w) + w <= |buf| && Offset(n, w) <= |buf|
    ensures forall i :: 0 <= i < n ==> |lines[..n][i]| == w
    ensures StoreLines(buf, lines, w) == WriteAt(StoreLines(buf, lines[..n], w), Offset(n, w), lines[n])
  {
    RowsFit(n, |lines|, w);
    assert forall i :: 0 <= i < n ==> lines[..n][i] == lines[i];
  }

  /** Rows written one after the other read back as written. */
  lemma {:induction false} StoreLinesReadBack(buf: seq<real>, lines: seq<seq<real>>, w: nat)
    requires Offset(|lines|, w) <= |buf|
    requires forall i :: 0 <= i < |lines| ==> |lines[i]| == w
    ensures Rows(StoreLines(buf, lines, w), |lines|, w) == lines
    decreases |lines|
  {
    if |lines| > 0 {
      var n := |lines| - 1;
      StoreLinesSnoc(buf, lines, w, n);
      StoreLinesReadBack(buf, lines[..n], w);
      AppendRow(StoreLines(buf, lines[..n], w), lines, n, w);
    }
  }

  /** Writing row `n` after rows `0..n` appends it to what reads back. */
  lemma AppendRow(prev: seq<real>, lines: seq<seq<real>>, n: nat, w: nat)
    requires |lines| == n + 1 && |lines[n]| == w && Offset(n, w) + w <= |prev|
    requires Offset(n, w) <= |prev| && Rows(prev, n, w) == lines[..n]
    ensures Offset(n + 1, w) <= |prev|
    ensures Rows(WriteAt(prev, Offset(n, w), lines[n]), n + 1, w) == lines
  {
    var cur := WriteAt(prev, Offset(n, w), lines[n]);
    OffsetNext(n, w);
    RowsPreserved(prev, cur, n, w);
    RowsSnoc(cur, n, w);
    assert RowAt(cur, n, w) == lines[n];
    assert lines == lines[..n] + [lines[n]];
  }

  /** The buffer of file `f` after a run of steps, as the run's lines
      written row by row. */
  lemma {:induction false} StoreAllWrites(b: Buffers, ds: seq<DiagRecord>, spherical: bool, f: File)
    requires forall i :: 0 <= i < |ds| ==> Shaped(ds[i], spherical)
    requires HasRoom(b, spherical, |ds|) && b.index == 0
    ensures Offset(|ds|, Width(f, spherical)) <= |BufferOf(b, f)|
    ensures BufferOf(StoreAll(b, ds, spherical), f) == StoreLines(BufferOf(b, f), Lines(f, ds, spherical), Width(f, spherical))
    decreases |ds|
  {
    RoomFor(b, spherical, |ds|, f);
    if |ds| > 0 {
      var n := |ds| - 1;
      PrefixShaped(ds, spherical, n);
      StoreAllSnoc(b, ds, spherical, n);
      StoreAllWrites(b, ds[..n], spherical, f);
      LinesSnoc(f, ds, spherical, n);
      SameOffset(n + 1, |ds|, Width(f, spherical));
      AppendStep(StoreAll(b, ds[..n], spherical), ds[n], spherical, f, BufferOf(b, f), Lines(f, ds[..n], spherical), n);
    } else {
      assert StoreAll(b, ds, spherical) == b;
      assert StoreLines(BufferOf(b, f), Lines(f, ds, spherical), Width(f, spherical)) == BufferOf(b, f);
    }
  }

  /** Buffering one more step writes its line as the next row. */
  lemma AppendStep(b: Buffers, d: DiagRecord, spherical: bool, f: File, buf: seq<real>, prior: seq<seq<real>>, n: nat)
    requires Shaped(d, spherical) && HasRoom(b, spherical, 1) && b.index == n
    requires |prior| == n && Offset(n + 1, Width(f, spherical)) <= |buf|
    requires forall i :: 0 <= i < n ==> |prior[i]| == Width(f, spherical)
    requires Offset(n, Width(f, spherical)) <= |buf|
    requires BufferOf(b, f) == StoreLines(buf, prior, Width(f, spherical))
    ensures BufferOf(Store(b, d, spherical), f) == StoreLines(buf, prior + [Line(f, d, spherical)], Width(f, spherical))
  {
    var w := Width(f, spherical);
    var ls := prior + [Line(f, d, spherical)];
    assert ls[..n] == prior;
    StoreIsWrite(b, d, spherical, f);
    StoreLinesSnoc(buf, ls, w, n);
  }

  lemma PrefixShaped(ds: seq<DiagRecord>, spherical: bool, n: nat)
    requires n <= |ds| && forall i :: 0 <= i < |ds| ==> Shaped(ds[i], spherical)
    ensures forall i :: 0 <= i < n ==> Shaped(ds[..n][i], spherical)
  {
    assert forall i :: 0 <= i < n ==> ds[..n][i] == ds[i];
  }

  /** A run of steps is the run without its last step, then that step. */
  lemma StoreAllSnoc(b: Buffers, ds: seq<DiagRecord>, spherical: bool, n: nat)
    requires |ds| == n + 1 && forall i :: 0 <= i < |ds| ==> Shaped(ds[i], spherical)
    requires forall i :: 0 <= i < n ==> Shaped(ds[..n][i], spherical)
    requires HasRoom(b, spherical, |ds|)
    ensures HasRoom(b, spherical, n)
    ensures HasRoom(StoreAll(b, ds[..n], spherical), spherical, 1)
    ensures StoreAll(b, ds, spherical) == Store(StoreAll(b, ds[..n], spherical), ds[n], spherical)
  {
    RoomShrinks(b, spherical, n);
    var b1 := StoreAll(b, ds[..n], spherical);
    RoomMoves(b, b1, spherical, |ds|, 1);
  }

  /** Room is counted from the index: a buffer of the same sizes whose
      index plus `m` is the other's index plus `k` has room for `m`. */
  lemma RoomMoves(b: Buffers, c: Buffers, spherical: bool, k: nat, m: nat)
    requires HasRoom(b, spherical, k) && c.index + m == b.index + k
    requires |c.temp| == |b.temp| && |c.enuc| == |b.enuc| && |c.vel| == |b.vel|
    ensures HasRoom(c, spherical, m)
  {
    SameOffset(c.index + m, b.index + k, TempWidth(spherical));
    SameOffset(c.index + m, b.index + k, EnucWidth(spherical));
    SameOffset(c.index + m, b.index + k, VelWidth(spherical));
  }

  /** What one buffered step does to one file's buffer: its line written at
      row `index`. */
  lemma StoreIsWrite(b: Buffers, d: DiagRecord, spherical: bool, f: File)
    requires Shaped(d, spherical) && HasRoom(b, spherical, 1)
    ensures Offset(b.index, Width(f, spherical)) + Width(f, spherical) <= |BufferOf(b, f)|
    ensures BufferOf(Store(b, d, spherical), f)
      == WriteAt(BufferOf(b, f), Offset(b.index, Width(f, spherical)), Line(f, d, spherical))
  {
    RoomFor(b, spherical, 1, f);
    OffsetNext(b.index, Width(f, spherical));
  }

  /** One buffered step puts its line at row `index` of every file and
      leaves the earlier rows alone. */
  lemma StoreWrites(b: Buffers, d: DiagRecord, spherical: bool, f: File)
    requires Shaped(d, spherical) && HasRoom(b, spherical, 1)
    ensures var buf := BufferOf(Store(b, d, spherical), f);
      && Offset(b.index, Width(f, spherical)) + Width(f, spherical) <= |buf|
      && RowAt(buf, b.index, Width(f, spherical)) == Line(f, d, spherical)
      && forall j :: 0 <= j < Offset(b.index, Width(f, spherical)) ==> buf[j] == BufferOf(b, f)[j]
  {
    StoreIsWrite(b, d, spherical, f);
  }

  /** Room for `k` more lines in every file, stated for one file. */
  lemma RoomFor(b: Buffers, spherical: bool, k: nat, f: File)
    requires HasRoom(b, spherical, k)
    ensures Offset(b.index + k, Width(f, spherical)) <= |BufferOf(b, f)|
    ensures b.index == 0 ==> Offset(k, Width(f, spherical)) <= |BufferOf(b, f)|
  {
    if b.index == 0 {
      SameOffset(b.index + k, k, Width(f, spherical));
    }
  }

  /** Room for `k + 1` more lines leaves room for `k`. */
  lemma RoomShrinks(b: Buffers, spherical: bool, k: nat)
    requires HasRoom(b, spherical, k + 1)
    ensures HasRoom(b, spherical, k)
  {
    OffsetMonotone(b.index + k, b.index + k + 1, TempWidth(spherical));
    OffsetMonotone(b.index + k, b.index + k + 1, EnucWidth(spherical));
    OffsetMonotone(b.index + k, b.index + k + 1, VelWidth(spherical));
  }

  /** The first `n + 1` rows are the first `n` and then row `n`. */
  lemma RowsSnoc(buf: seq<real>, n: nat, w: nat)
    requires Offset(n + 1, w) <= |buf|
    ensures Offset(n, w) + w <= |buf| && Offset(n, w) <= |buf|
    ensures Rows(buf, n + 1, w) == Rows(buf, n, w) + [RowAt(buf, n, w)]
  {
    RowsFit(n, n + 1, w);
  }

  lemma LinesSnoc(f: File, ds: seq<DiagRecord>, spherical: bool, n: nat)
    requires |ds| == n + 1 && forall i :: 0 <= i < |ds| ==> Shaped(ds[i], spherical)
    requires forall i :: 0 <= i < n ==> Shaped(ds[..n][i], spherical)
    ensures Lines(f, ds, spherical) == Lines(f, ds[..n], spherical) + [Line(f, ds[n], spherical)]
  {
    var a := Lines(f, ds, spherical);
    var c := Lines(f, ds[..n], spherical) + [Line(f, ds[n], spherical)];
    forall i | 0 <= i < |ds| ensures a[i] == c[i] {
      if i < n {
        assert ds[..n][i] == ds[i];
      }
    }
  }

  /** `WriteDiagFile` after a run of buffered steps emits the lines of those
      steps in order and leaves the index at 0. */
  lemma FlushAfterRun(b: Buffers, ds: seq<DiagRecord>, spherical: bool)
    requires forall i :: 0 <= i < |ds| ==> Shaped(ds[i], spherical)
    requires HasRoom(b, spherical, |ds|) && b.index == 0
    ensures var r := Flush(StoreAll(b, ds, spherical), spherical);
      && r.0 == Lines(TempFile, ds, spherical)
      && r.1 == Lines(EnucFile, ds, spherical)
      && r.2 == Lines(VelFile, ds, spherical)
      && r.3.index == 0
  {
    StoredRowsReadBack(b, ds, spherical, TempFile);
    StoredRowsReadBack(b, ds, spherical, EnucFile);
    StoredRowsReadBack(b, ds, spherical, VelFile);
  }

  // ---------------------------------------------------------------------
  // The energy-generation line as buffered by the source
  // ---------------------------------------------------------------------

  /** The buffered energy-generation line as written: eleven values, radius
      and radial velocity included, whatever the geometry. */
  function EnucRowAsWritten(d: DiagRecord): (row: seq<real>)
    requires Shaped(d, false)
    ensures |row| == 11 && row[8] == d.rlocE && row[9] == d.vrE && row[10] == d.nucEner
  {
    [d.time, d.enucMax.value] + Columns(d.enucMax.coord, d.dims) + Columns(d.enucMax.vel, d.dims)
    + [d.rlocE, d.vrE, d.nucEner]
  }

  /** Buffering the line as written, at row `index` of width
      `EnucWidth(spherical)`; it needs room for eleven values. */
  function StoreEnucAsWritten(buf: seq<real>, index: nat, d: DiagRecord, spherical: bool): (b: seq<real>)
    requires Shaped(d, false) && Offset(index, EnucWidth(spherical)) + 11 <= |buf|
    ensures |b| == |buf|
    ensures b[Offset(index, EnucWidth(spherical))..Offset(index, EnucWidth(spherical)) + 11] == EnucRowAsWritten(d)
  {
    WriteAt(buf, Offset(index, EnucWidth(spherical)), EnucRowAsWritten(d))
  }

  /** For a star the line as written is the line of the file. */
  lemma EnucAsWrittenAgreesForStar(d: DiagRecord)
    requires Shaped(d, true)
    ensures EnucRowAsWritten(d) == EnucRow(d, true)
  {
  }

  /** In planar geometry the row read back ends with the radius instead of
      the total nuclear energy, and the radial velocity and the total spill
      into the first two slots of the next row. */
  lemma PlanarEnucAsWrittenMisplacesTotal(buf: seq<real>, index: nat, d: DiagRecord)
    requires Shaped(d, false) && Offset(index, 9) + 11 <= |buf|
    ensures var b := StoreEnucAsWritten(buf, index, d, false);
      && RowAt(b, index, 9)[8] == d.rlocE
      && Offset(index + 1, 9) + 1 < |buf|
      && b[Offset(index + 1, 9)] == d.vrE && b[Offset(index + 1, 9) + 1] == d.nucEner
  {
    var b := StoreEnucAsWritten(buf, index, d, false);
    var o := Offset(index, 9);
    OffsetNext(index, 9);
    assert b[o..o + 11][8] == d.rlocE;
    assert b[o..o + 11][9] == d.vrE;
    assert b[o..o + 11][10] == d.nucEner;
  }

  /** A planar step whose nuclear energy is 1 and whose (unused) radius is
      0: the buffered row as written differs from the file's line. */
  lemma PlanarEnucAsWrittenCounterexample()
    ensures var d := DiagRecord(0.0, 1.0, 2, Extremum(0.0, [0.0, 0.0], [0.0, 0.0]), 0.0, 0.0, 0.0,
                                Extremum(0.0, [0.0, 0.0], [0.0, 0.0]), 0.0, 0.0, 1.0,
                                0.0, 0.0, 0.0, 0.0, 0.0, []);
      RowAt(StoreEnucAsWritten(Zeros(18), 0, d, false), 0, 9) != EnucRow(d, false)
  {
    var d := DiagRecord(0.0, 1.0, 2, Extremum(0.0, [0.0, 0.0], [0.0, 0.0]), 0.0, 0.0, 0.0,
                        Extremum(0.0, [0.0, 0.0], [0.0, 0.0]), 0.0, 0.0, 1.0,
                        0.0, 0.0, 0.0, 0.0, 0.0, []);
    PlanarEnucAsWrittenMisplacesTotal(Zeros(18), 0, d);
    assert EnucRow(d, false)[8] == 1.0;
  }
}
