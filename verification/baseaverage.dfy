/** Lateral averaging of a field into a base-state profile (`Average`).

    A base-state profile is flattened over `levels` radial levels
    (`max_radial_level + 1`) and `nr` radial cells (`nr_fine`): entry
    `Flat(lev, r, levels)` holds level `lev` at height `r`. The planar
    branch sums each level's cells row by row, box by box, and divides by
    the lateral cell count of the level-0 domain. The spherical branch is
    kept to the sizes of its buffers; its summing and averaging kernels
    are not part of this model. */
module BaseAverage {
  import opened Common

  /** The cells of one box of a level: `row(r)` lists the values of the
      box's cells at height `r` (empty where the box does not reach). */
  datatype Box = Box(row: nat -> seq<real>)

  /** Shape of the planar average: radial levels, radial cells per level,
      the finest level that exists, the dimension, and the big-end indices
      of the level-0 domain in the lateral directions. */
  datatype Layout = Layout(levels: nat, nr: nat, finest: nat, dims: nat, bigEnd0: int, bigEnd1: int)

  predicate ValidLayout(g: Layout) {
    && g.finest < g.levels
    && 1 <= g.dims <= 3
    && g.bigEnd0 >= 0 && g.bigEnd1 >= 0
  }

  /** Sum of the cells of every box at height `r`, box by box. */
  function RowSum(bs: seq<Box>, r: nat): real
    decreases |bs|
  {
    if |bs| == 0 then 0.0 else RowSum(bs[..|bs| - 1], r) + Sum(bs[|bs| - 1].row(r))
  }

  /** Number of cells of every box at height `r`. */
  function RowCount(bs: seq<Box>, r: nat): nat
    decreases |bs|
  {
    if |bs| == 0 then 0 else RowCount(bs[..|bs| - 1], r) + |bs[|bs| - 1].row(r)|
  }

  /** Lateral cells at one height of the level-0 domain: one in 1-D, the
      x extent in 2-D, the x-y area in 3-D. */
  function LateralCells(g: Layout): (n: int)
    requires ValidLayout(g)
    ensures n >= 1
    ensures g.dims == 1 ==> n == 1
    ensures g.dims == 2 ==> n == g.bigEnd0 + 1
    ensures g.dims == 3 ==> n == (g.bigEnd0 + 1) * (g.bigEnd1 + 1)
  {
    if g.dims == 1 then 1
    else if g.dims == 2 then g.bigEnd0 + 1
    else (g.bigEnd0 + 1) * (g.bigEnd1 + 1)
  }

  /** `ncell`: the level-0 lateral count on every existing level, and the
      zero a fresh vector holds on levels above the finest. */
  function NcellVector(g: Layout): (ncell: seq<int>)
    requires ValidLayout(g)
    ensures |ncell| == g.levels
    ensures forall lev :: 0 <= lev <= g.finest ==> ncell[lev] == LateralCells(g)
    ensures forall lev :: g.finest < lev < g.levels ==> ncell[lev] == 0
  {
    seq(g.levels, lev => if lev <= g.finest then LateralCells(g) else 0)
  }

  /** The reference column sums: each existing level's row sums, and zero
      for levels above the finest. */
  function PhiSum(g: Layout, boxes: nat -> seq<Box>, lev: nat, r: nat): real {
    if lev <= g.finest then RowSum(boxes(lev), r) else 0.0
  }

  /** Every flat index of the profile is the position of exactly one
      (level, height) pair. */
  lemma FlatCovers(levels: nat, nr: nat, k: nat)
    requires levels >= 1 && k < levels * nr
    ensures k % levels < levels && k / levels < nr
    ensures Flat(k % levels, k / levels, levels) == k
  {
    var lev, r := k % levels, k / levels;
    FlatDivMod(lev, r, levels);
    assert k == levels * r + lev;
    if r >= nr {
      MulMonotone(levels, nr, r);
    }
  }

  /** A per-level buffer: `levels` rows of `nr` entries each. */
  predicate Shaped(p: seq<seq<real>>, levels: nat, nr: nat) {
    |p| == levels && forall l :: 0 <= l < levels ==> |p[l]| == nr
  }

  /** The flattened layout of a per-level buffer: level `lev` at height `r`
      goes to `Flat(lev, r, levels)`, and every flat slot is one of those. */
  function Flatten(p: seq<seq<real>>, levels: nat, nr: nat): (f: seq<real>)
    requires levels >= 1 && Shaped(p, levels, nr)
    ensures |f| == levels * nr
    ensures forall lev, r :: 0 <= lev < levels && 0 <= r < nr ==>
      Flat(lev, r, levels) < |f| && f[Flat(lev, r, levels)] == p[lev][r]
  {
    var f := seq(levels * nr, k requires 0 <= k < levels * nr =>
      FlatCovers(levels, nr, k); p[k % levels][k / levels]);
    forall lev, r | 0 <= lev < levels && 0 <= r < nr
      ensures Flat(lev, r, levels) < |f| && f[Flat(lev, r, levels)] == p[lev][r]
    {
      FlatInRange(levels, nr, lev, r);
      FlatDivMod(lev, r, levels);
    }
    f
  }

  /** Adds one box's row sums into level `lev` of the buffer. */
  method AddBox(phisum: seq<seq<real>>, g: Layout, lev: nat, b: Box) returns (out: seq<seq<real>>)
    requires Shaped(phisum, g.levels, g.nr) && lev < g.levels
    ensures Shaped(out, g.levels, g.nr)
    ensures forall r :: 0 <= r < g.nr ==> out[lev][r] == phisum[lev][r] + Sum(b.row(r))
    ensures forall l :: 0 <= l < g.levels && l != lev ==> out[l] == phisum[l]
  {
    var row := phisum[lev];
    var r := 0;
    while r < g.nr
      invariant 0 <= r <= g.nr && |row| == g.nr
      invariant forall s :: 0 <= s < r ==> row[s] == phisum[lev][s] + Sum(b.row(s))
      invariant forall s :: r <= s < g.nr ==> row[s] == phisum[lev][s]
    {
      row := row[r := row[r] + Sum(b.row(r))];
      r := r + 1;
    }
    out := phisum[lev := row];
  }

  /** Adds every box of level `lev`, in order. */
  method AddLevel(phisum: seq<seq<real>>, g: Layout, lev: nat, bs: seq<Box>) returns (out: seq<seq<real>>)
    requires Shaped(phisum, g.levels, g.nr) && lev < g.levels
    ensures Shaped(out, g.levels, g.nr)
    ensures forall r :: 0 <= r < g.nr ==> out[lev][r] == phisum[lev][r] + RowSum(bs, r)
    ensures forall l :: 0 <= l < g.levels && l != lev ==> out[l] == phisum[l]
  {
    out := phisum;
    var i := 0;
    while i < |bs|
      invariant 0 <= i <= |bs|
      invariant Shaped(out, g.levels, g.nr)
      invariant forall r :: 0 <= r < g.nr ==> out[lev][r] == phisum[lev][r] + RowSum(bs[..i], r)
      invariant forall l :: 0 <= l < g.levels && l != lev ==> out[l] == phisum[l]
    {
      out := AddBox(out, g, lev, bs[i]);
      assert bs[..i + 1][..i] == bs[..i];
      i := i + 1;
    }
    assert bs[..|bs|] == bs;
  }

  /** The planar summation: a zeroed buffer, then every existing level's
      boxes. Levels above the finest keep their zeros. */
  method SumPlanar(g: Layout, boxes: nat -> seq<Box>) returns (phisum: seq<seq<real>>)
    requires ValidLayout(g)
    ensures Shaped(phisum, g.levels, g.nr)
    ensures forall lev, r :: 0 <= lev < g.levels && 0 <= r < g.nr ==> phisum[lev][r] == PhiSum(g, boxes, lev, r)
  {
    phisum := seq(g.levels, _ => Zeros(g.nr));
    var lev := 0;
    while lev <= g.finest
      invariant 0 <= lev <= g.finest + 1
      invariant Shaped(phisum, g.levels, g.nr)
      invariant forall l, r :: 0 <= l < g.levels && 0 <= r < g.nr ==>
        phisum[l][r] == (if l < lev then RowSum(boxes(l), r) else 0.0)
    {
      phisum := AddLevel(phisum, g, lev, boxes(lev));
      lev := lev + 1;
    }
  }

  /** One level's column sums divided by the lateral count. */
  function DivideRow(row: seq<real>, n: real): (q: seq<real>)
    requires n != 0.0
    ensures |q| == |row|
    ensures forall r :: 0 <= r < |row| ==> q[r] == Quot(row[r], n)
  {
    seq(|row|, r requires 0 <= r < |row| => Quot(row[r], n))
  }

  /** `divide_phisum_by_ncell` on the existing levels; levels above the
      finest hold zero sums and stay zero. */
  function DivideByNcell(phisum: seq<seq<real>>, g: Layout): (phibar: seq<seq<real>>)
    requires ValidLayout(g) && Shaped(phisum, g.levels, g.nr)
    ensures Shaped(phibar, g.levels, g.nr)
    ensures forall lev, r :: 0 <= lev <= g.finest && 0 <= r < g.nr ==>
      phibar[lev][r] == Quot(phisum[lev][r], LateralCells(g) as real)
    ensures forall lev, r :: g.finest < lev < g.levels && 0 <= r < g.nr ==> phibar[lev][r] == 0.0
  {
    seq(g.levels, lev requires 0 <= lev < g.levels => DivideLevel(phisum, g, lev))
  }

  function DivideLevel(phisum: seq<seq<real>>, g: Layout, lev: nat): (row: seq<real>)
    requires ValidLayout(g) && Shaped(phisum, g.levels, g.nr) && lev < g.levels
    ensures |row| == g.nr
    ensures lev <= g.finest ==> forall r :: 0 <= r < g.nr ==> row[r] == Quot(phisum[lev][r], LateralCells(g) as real)
    ensures lev > g.finest ==> AllZero(row)
  {
    if lev <= g.finest then DivideRow(phisum[lev], LateralCells(g) as real) else Zeros(g.nr)
  }

  /** `Average` in the planar case: the column sums divided by the lateral
      count, flattened; nothing on levels above the finest. */
  method AveragePlanar(g: Layout, boxes: nat -> seq<Box>) returns (phibar: seq<real>)
    requires ValidLayout(g)
    ensures |phibar| == g.levels * g.nr
    ensures forall lev, r :: 0 <= lev <= g.finest && 0 <= r < g.nr ==>
      Flat(lev, r, g.levels) < |phibar| &&
      phibar[Flat(lev, r, g.levels)] == Quot(RowSum(boxes(lev), r), LateralCells(g) as real)
    ensures forall lev, r :: g.finest < lev < g.levels && 0 <= r < g.nr ==>
      Flat(lev, r, g.levels) < |phibar| && phibar[Flat(lev, r, g.levels)] == 0.0
  {
    var phisum := SumPlanar(g, boxes);
    var divided := DivideByNcell(phisum, g);
    phibar := Flatten(divided, g.levels, g.nr);
    forall lev, r | 0 <= lev <= g.finest && 0 <= r < g.nr
      ensures phibar[Flat(lev, r, g.levels)] == Quot(RowSum(boxes(lev), r), LateralCells(g) as real)
    {
      assert phibar[Flat(lev, r, g.levels)] == divided[lev][r];
      assert phisum[lev][r] == RowSum(boxes(lev), r);
    }
  }

  /** A constant row sums to its value times its length. */
  lemma {:induction false} SumConstant(s: seq<real>, c: real)
    requires forall i :: 0 <= i < |s| ==> s[i] == c
    ensures Sum(s) == c * (|s| as real)
  {
    if |s| > 0 {
      SumConstant(s[..|s| - 1], c);
    }
  }

  /** Every cell of every box at height `r` holds `c`. */
  predicate ConstantRow(bs: seq<Box>, r: nat, c: real) {
    forall b, i :: 0 <= b < |bs| && 0 <= i < |bs[b].row(r)| ==> bs[b].row(r)[i] == c
  }

  /** Boxes whose cells at height `r` all hold `c` sum to `c` times their
      number of cells. */
  lemma RowSumConstant(bs: seq<Box>, r: nat, c: real)
    requires ConstantRow(bs, r, c)
    ensures RowSum(bs, r) == c * (RowCount(bs, r) as real)
  {
    RowSumCopies(bs, r, c);
    CopiesIsProduct(c, RowCount(bs, r));
  }

  /** `n` copies of `c` added up. */
  function Copies(c: real, n: nat): real
    decreases n
  {
    if n == 0 then 0.0 else Copies(c, n - 1) + c
  }

  lemma {:induction false} CopiesIsProduct(c: real, n: nat)
    ensures Copies(c, n) == c * (n as real)
    decreases n
  {
    if n > 0 {
      CopiesIsProduct(c, n - 1);
      var k := (n - 1) as real;
      assert n as real == k + 1.0;
      assert c * (k + 1.0) == c * k + c;
    }
  }

  lemma {:induction false} CopiesAdd(c: real, k: nat, m: nat)
    ensures Copies(c, k + m) == Copies(c, k) + Copies(c, m)
    decreases m
  {
    if m > 0 {
      CopiesAdd(c, k, m - 1);
    }
  }

  /** The row sum of boxes holding `c` at height `r` adds `c` once per cell. */
  lemma {:induction false} RowSumCopies(bs: seq<Box>, r: nat, c: real)
    requires ConstantRow(bs, r, c)
    ensures RowSum(bs, r) == Copies(c, RowCount(bs, r))
    decreases |bs|
  {
    if |bs| > 0 {
      var last := bs[|bs| - 1];
      var init := bs[..|bs| - 1];
      assert ConstantRow(init, r, c) by {
        assert forall b :: 0 <= b < |init| ==> init[b] == bs[b];
      }
      RowSumCopies(init, r, c);
      SumCopies(last.row(r), c);
      CopiesAdd(c, RowCount(init, r), |last.row(r)|);
    }
  }

  /** A row of boxes' cells holding `c` sums to one `c` per cell. */
  lemma {:induction false} SumCopies(s: seq<real>, c: real)
    requires forall i :: 0 <= i < |s| ==> s[i] == c
    ensures Sum(s) == Copies(c, |s|)
    decreases |s|
  {
    if |s| > 0 {
      SumCopies(s[..|s| - 1], c);
    }
  }

  /** The planar result is an average at constant height: a level whose
      cells at height `r` all hold `c`, and number as many as a row of the
      level-0 domain, averages to `c`. */
  lemma AverageOfConstantRow(g: Layout, boxes: nat -> seq<Box>, lev: nat, r: nat, c: real, phibar: seq<real>)
    requires ValidLayout(g) && lev <= g.finest && r < g.nr
    requires Flat(lev, r, g.levels) < |phibar|
    requires phibar[Flat(lev, r, g.levels)] == Quot(RowSum(boxes(lev), r), LateralCells(g) as real)
    requires ConstantRow(boxes(lev), r, c)
    requires RowCount(boxes(lev), r) == LateralCells(g)
    ensures phibar[Flat(lev, r, g.levels)] == c
  {
    RowSumConstant(boxes(lev), r, c);
    QuotOfMultiple(RowSum(boxes(lev), r), c, RowCount(boxes(lev), r), LateralCells(g) as real);
  }

  /** A total of `c` per cell over `count` cells, divided by that count, is `c`. */
  lemma QuotOfMultiple(total: real, c: real, count: nat, n: real)
    requires n != 0.0 && count as real == n && total == c * (count as real)
    ensures Quot(total, n) == c
  {
    CancelFactor(Quot(total, n), c, n);
  }

  // ---------------------------------------------------------------------
  // Spherical buffers
  // ---------------------------------------------------------------------

  /** The buffers of the spherical average: column sums and counts hold
      `nr_irreg + 2` slots per level, radii one more. */
  datatype SphereBuffers = SphereBuffers(phisum: seq<real>, radii: seq<real>, ncell: seq<int>)

  function SphericalBuffers(levels: nat, nrIrreg: nat): (b: SphereBuffers)
    ensures |b.phisum| == levels * (nrIrreg + 2) && AllZero(b.phisum)
    ensures |b.radii| == levels * (nrIrreg + 3)
    ensures |b.ncell| == levels * (nrIrreg + 2)
    ensures forall i :: 0 <= i < |b.ncell| ==> b.ncell[i] == 0
  {
    SphereBuffers(Zeros(levels * (nrIrreg + 2)), Zeros(levels * (nrIrreg + 3)),
                  seq(levels * (nrIrreg + 2), _ => 0))
  }

  /** Every (level, radius) slot of the sums addresses the radii buffer
      too, and the radii buffer has one extra slot on every level. */
  lemma SphericalSlotsFit(levels: nat, nrIrreg: nat, lev: nat, r: nat)
    requires lev < levels && r < nrIrreg + 2
    ensures Flat(lev, r, levels) < |SphericalBuffers(levels, nrIrreg).phisum|
    ensures Flat(lev, r + 1, levels) < |SphericalBuffers(levels, nrIrreg).radii|
    ensures |SphericalBuffers(levels, nrIrreg).radii| == |SphericalBuffers(levels, nrIrreg).phisum| + levels
  {
    FlatInRange(levels, nrIrreg + 2, lev, r);
    FlatInRange(levels, nrIrreg + 3, lev, r + 1);
  }
}
