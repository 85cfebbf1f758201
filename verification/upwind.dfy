/** Transverse-velocity construction (`MakeUtrans`): per-face left/right
    states, the physical boundary-condition overrides at the domain edges,
    and the upwind/Riemann selection that turns the two states into one
    face velocity.

    A line of cells along one direction is modelled with fields `int -> real`
    so that ghost cells on either side can be read; faces are numbered like
    the cells to their right, so face `i` lies between cells `i-1` and `i`,
    and the domain's faces run from `ilo` to `ihi+1`. */
module Upwind {
  import opened Common

  /** Physical boundary conditions of a domain side. */
  datatype PhysBC = Inflow | SlipWall | NoSlipWall | Symmetry | Outflow | Interior

  predicate IsWall(bc: PhysBC) {
    bc == SlipWall || bc == NoSlipWall || bc == Symmetry
  }

  datatype Side = Lo | Hi

  /** Spatial dimension the solver was built for. */
  datatype Dim = Two | Three

  function NumDirs(dim: Dim): nat {
    if dim == Two then 2 else 3
  }

  /** The left and right states at one face. */
  datatype States = States(l: real, r: real)

  // ---------------------------------------------------------------------
  // The Riemann / upwind rule
  // ---------------------------------------------------------------------

  /** No information crosses the face: a rarefaction (left state moving
      left, right state moving right) or two states that nearly cancel. */
  predicate Quiescent(ul: real, ur: real, eps: real) {
    (ul <= 0.0 && ur >= 0.0) || Abs(ul + ur) < eps
  }

  /** The plain rule: zero when quiescent, otherwise the upwind state,
      chosen by the sign of the mean of the two states. */
  function Resolve(ul: real, ur: real, eps: real): (v: real)
    ensures v == 0.0 || v == ul || v == ur
    ensures v == 0.0 <==> Quiescent(ul, ur, eps)
    ensures v > 0.0 ==> v == ul
    ensures v < 0.0 ==> v == ur
    ensures v != 0.0 ==> (v > 0.0 <==> ul + ur > 0.0)
  {
    var upwind := if 0.5 * (ul + ur) > 0.0 then ul else ur;
    if (ul <= 0.0 && ur >= 0.0) || Abs(ul + ur) < eps then 0.0 else upwind
  }

  /** The rule with a background velocity `w0` added to both states before
      the tests; the value returned is still one of the unshifted states. */
  function ResolveShifted(ul: real, ur: real, w0: real, eps: real): (v: real)
    ensures v == 0.0 || v == ul || v == ur
    ensures Quiescent(ul + w0, ur + w0, eps) ==> v == 0.0
    ensures !Quiescent(ul + w0, ur + w0, eps) ==> v + w0 != 0.0
  {
    var test := (ul + w0 <= 0.0 && ur + w0 >= 0.0) || Abs(ul + ur + 2.0 * w0) < eps;
    var upwind := if 0.5 * (ul + ur) + w0 > 0.0 then ul else ur;
    if test then 0.0 else upwind
  }

  /** With no background velocity the shifted rule is the plain rule. */
  lemma ShiftedWithZeroIsPlain(ul: real, ur: real, eps: real)
    ensures ResolveShifted(ul, ur, 0.0, eps) == Resolve(ul, ur, eps)
  {
  }

  /** The shifted rule is the plain rule applied in the frame moving with
      `w0`: resolving the shifted states and shifting back gives the same
      face velocity whenever something crosses the face. */
  lemma ShiftedIsPlainInMovingFrame(ul: real, ur: real, w0: real, eps: real)
    ensures !Quiescent(ul + w0, ur + w0, eps) ==>
      ResolveShifted(ul, ur, w0, eps) + w0 == Resolve(ul + w0, ur + w0, eps)
    ensures Quiescent(ul + w0, ur + w0, eps) ==>
      ResolveShifted(ul, ur, w0, eps) == 0.0 == Resolve(ul + w0, ur + w0, eps)
  {
    assert Abs(ul + ur + 2.0 * w0) == Abs((ul + w0) + (ur + w0));
  }

  /** Which form of the rule a direction uses. */
  datatype Rule = Plain | ShiftCart | ShiftMac

  /** 2-D: x plain, y shifted by the cell-centred w0. 3-D spherical: every
      direction shifted by the face-centred w0mac. 3-D planar: x and y
      plain, z shifted by the cell-centred w0. */
  function RuleFor(dim: Dim, spherical: bool, d: nat): (rule: Rule)
    requires d < NumDirs(dim)
    ensures dim == Three && spherical ==> rule == ShiftMac
    ensures rule == Plain <==> (d < NumDirs(dim) - 1 && !(dim == Three && spherical))
    ensures rule == ShiftCart <==> (d == NumDirs(dim) - 1 && !(dim == Three && spherical))
  {
    match dim
    case Two => if d == 0 then Plain else ShiftCart
    case Three => if spherical then ShiftMac else if d == 2 then ShiftCart else Plain
  }

  function FaceValue(rule: Rule, s: States, w0cart: real, w0mac: real, eps: real): (v: real)
    ensures v == 0.0 || v == s.l || v == s.r
  {
    match rule
    case Plain => Resolve(s.l, s.r, eps)
    case ShiftCart => ResolveShifted(s.l, s.r, w0cart, eps)
    case ShiftMac => ResolveShifted(s.l, s.r, w0mac, eps)
  }

  // ---------------------------------------------------------------------
  // Boundary overrides
  // ---------------------------------------------------------------------

  /** The per-side boundary table; `g` is the ghost-cell value an inflow
      side reads. */
  function Override(bc: PhysBC, side: Side, s: States, g: real): (o: States)
    ensures bc == Interior ==> o == s
    ensures IsWall(bc) ==> o == States(0.0, 0.0)
    ensures bc == Inflow ==> o == States(g, g)
    ensures bc == Outflow ==> o.l == o.r
    ensures bc == Outflow && side == Lo ==> o.l <= 0.0 && (s.r <= 0.0 ==> o.l == s.r)
    ensures bc == Outflow && side == Hi ==> o.l >= 0.0 && (s.l >= 0.0 ==> o.l == s.l)
    // an incoming state on an outflow side is clamped to 0
    ensures bc == Outflow && side == Lo && s.r > 0.0 ==> o == States(0.0, 0.0)
    ensures bc == Outflow && side == Hi && s.l < 0.0 ==> o == States(0.0, 0.0)
  {
    match bc
    case Inflow => States(g, g)
    case SlipWall => States(0.0, 0.0)
    case NoSlipWall => States(0.0, 0.0)
    case Symmetry => States(0.0, 0.0)
    case Outflow =>
      if side == Lo then States(Min(s.r, 0.0), Min(s.r, 0.0))
      else States(Max(s.l, 0.0), Max(s.l, 0.0))
    case Interior => s
  }

  /** The 2-D y lo-side table as written: on a wall it assigns the right
      state to zero twice and leaves the left state as reconstructed. */
  function OverrideYLo2DAsWritten(bc: PhysBC, s: States, g: real): (o: States)
    ensures !IsWall(bc) ==> o == Override(bc, Lo, s, g)
    ensures IsWall(bc) ==> o == States(s.l, 0.0)
  {
    if IsWall(bc) then States(s.l, 0.0) else Override(bc, Lo, s, g)
  }

  // ---------------------------------------------------------------------
  // One line of faces
  // ---------------------------------------------------------------------

  /** Per-direction settings of one `MakeUtrans` pass. */
  datatype Config = Config(dim: Dim, spherical: bool, d: nat, ppm: int,
                           dt: real, h: real, eps: real)

  predicate ValidConfig(c: Config) {
    c.d < NumDirs(c.dim) && c.h != 0.0
  }

  /** The cells along one direction: domain bounds, the side conditions,
      the cell fields with their ghost cells, the slope (ppm_type 0) or the
      parabolic edge traces Ip/Im (ppm_type 1, 2), and the background
      velocities at each face. */
  datatype Line = Line(ilo: int, ihi: int, bcLo: PhysBC, bcHi: PhysBC,
                       utilde: int -> real, ufull: int -> real, slope: int -> real,
                       ip: int -> real, im: int -> real,
                       w0cart: int -> real, w0mac: int -> real)

  /** Reconstructed states at face `i` before any boundary override. */
  function EdgeStates(c: Config, L: Line, i: int): (s: States)
    requires ValidConfig(c)
    ensures c.ppm == 0 ==>
      var dt2h := (0.5 * c.dt) / c.h;
      && s.l == L.utilde(i - 1) + (0.5 - dt2h * Max(0.0, L.ufull(i - 1))) * L.slope(i - 1)
      && s.r == L.utilde(i) - (0.5 + dt2h * Min(0.0, L.ufull(i))) * L.slope(i)
    ensures c.ppm == 1 || c.ppm == 2 ==> s == States(L.ip(i - 1), L.im(i))
    ensures c.ppm != 0 && c.ppm != 1 && c.ppm != 2 ==> s == States(0.0, 0.0)
  {
    if c.ppm == 0 then
      var dt2h := (0.5 * c.dt) / c.h;
      States(L.utilde(i - 1) + (0.5 - dt2h * Max(0.0, L.ufull(i - 1))) * L.slope(i - 1),
             L.utilde(i) - (0.5 + dt2h * Min(0.0, L.ufull(i))) * L.slope(i))
    else if c.ppm == 1 || c.ppm == 2 then
      States(L.ip(i - 1), L.im(i))
    else
      States(0.0, 0.0)
  }

  /** With zero slopes the piecewise-linear traces are the cell values. */
  lemma FlatSlopesGiveCellValues(c: Config, L: Line, i: int)
    requires ValidConfig(c) && c.ppm == 0
    requires L.slope(i - 1) == 0.0 && L.slope(i) == 0.0
    ensures EdgeStates(c, L, i) == States(L.utilde(i - 1), L.utilde(i))
  {
  }

  /** Under a Courant condition the left trace stays between the cell value
      and that cell's linear profile at its right face. */
  lemma LeftTraceBounded(c: Config, L: Line, i: int)
    requires ValidConfig(c) && c.ppm == 0 && c.dt >= 0.0 && c.h > 0.0
    requires c.dt * Max(0.0, L.ufull(i - 1)) <= c.h
    ensures var u := L.utilde(i - 1); var s := L.slope(i - 1);
      var ul := EdgeStates(c, L, i).l;
      Min(u, u + 0.5 * s) <= ul <= Max(u, u + 0.5 * s)
  {
    var dt2h := (0.5 * c.dt) / c.h;
    var m := Max(0.0, L.ufull(i - 1));
    var k := 0.5 - dt2h * m;
    assert dt2h * m == 0.5 * (c.dt * m / c.h);
    assert c.dt * m / c.h <= 1.0;
    assert 0.0 <= dt2h * m;
    assert 0.0 <= k <= 0.5;
    var s := L.slope(i - 1);
    if s >= 0.0 {
      assert 0.0 <= k * s <= 0.5 * s;
    } else {
      assert 0.5 * s <= k * s <= 0.0;
    }
  }

  /** Boundary overrides as they should act on face `i`: the lo face of the
      domain reads the ghost cell `ilo-1`, the hi face the ghost cell `ihi+1`. */
  function BoundaryStates(L: Line, i: int, s: States): (o: States)
    ensures i != L.ilo && i != L.ihi + 1 ==> o == s
  {
    if i == L.ilo then Override(L.bcLo, Lo, s, L.utilde(i - 1))
    else if i == L.ihi + 1 then Override(L.bcHi, Hi, s, L.utilde(i))
    else s
  }

  /** Index of the ghost cell a hi-side inflow face reads, as written: the
      first ghost cell in 2-D, the second one in 3-D. */
  function HiInflowCellAsWritten(dim: Dim, i: int): (j: int)
    ensures dim == Two ==> j == i
    ensures dim == Three ==> j == i + 1
  {
    if dim == Two then i else i + 1
  }

  /** Boundary overrides exactly as the source applies them. */
  function BoundaryStatesAsWritten(c: Config, L: Line, i: int, s: States): (o: States)
    ensures !(i == L.ilo && c.dim == Two && c.d == 1) && !(i == L.ihi + 1 && i != L.ilo && c.dim == Three)
      ==> o == BoundaryStates(L, i, s)
  {
    if i == L.ilo then
      (if c.dim == Two && c.d == 1 then OverrideYLo2DAsWritten(L.bcLo, s, L.utilde(i - 1))
       else Override(L.bcLo, Lo, s, L.utilde(i - 1)))
    else if i == L.ihi + 1 then
      Override(L.bcHi, Hi, s, L.utilde(HiInflowCellAsWritten(c.dim, i)))
    else s
  }

  /** The transverse velocity at face `i` (corrected boundary table). */
  function UtransFace(c: Config, L: Line, i: int): (v: real)
    requires ValidConfig(c)
    ensures (i == L.ilo && IsWall(L.bcLo)) || (i == L.ihi + 1 && i != L.ilo && IsWall(L.bcHi)) ==> v == 0.0
  {
    FaceValue(RuleFor(c.dim, c.spherical, c.d), BoundaryStates(L, i, EdgeStates(c, L, i)),
              L.w0cart(i), L.w0mac(i), c.eps)
  }

  /** The transverse velocity at face `i` as the source computes it. */
  function UtransFaceAsWritten(c: Config, L: Line, i: int): (v: real)
    requires ValidConfig(c)
    ensures i != L.ilo && i != L.ihi + 1 ==> v == UtransFace(c, L, i)
  {
    FaceValue(RuleFor(c.dim, c.spherical, c.d), BoundaryStatesAsWritten(c, L, i, EdgeStates(c, L, i)),
              L.w0cart(i), L.w0mac(i), c.eps)
  }

  // ---------------------------------------------------------------------
  // Properties of the face value
  // ---------------------------------------------------------------------

  /** Faces away from the domain boundary, and sides marked Interior, keep
      the reconstructed states. */
  lemma InteriorFacesUntouched(c: Config, L: Line, i: int)
    requires ValidConfig(c)
    requires (i != L.ilo && i != L.ihi + 1)
          || (i == L.ilo && L.bcLo == Interior)
          || (i == L.ihi + 1 && i != L.ilo && L.bcHi == Interior)
    ensures UtransFace(c, L, i)
         == FaceValue(RuleFor(c.dim, c.spherical, c.d), EdgeStates(c, L, i), L.w0cart(i), L.w0mac(i), c.eps)
  {
  }

  /** A wall or symmetry side produces exactly zero velocity through it. */
  lemma WallFaceIsZero(c: Config, L: Line, i: int)
    requires ValidConfig(c)
    requires (i == L.ilo && IsWall(L.bcLo)) || (i == L.ihi + 1 && i != L.ilo && IsWall(L.bcHi))
    ensures UtransFace(c, L, i) == 0.0
  {
    assert BoundaryStates(L, i, EdgeStates(c, L, i)) == States(0.0, 0.0);
  }

  /** An inflow side passes the ghost value g through, except that the
      plain rule drops it to zero when |2g| is below the threshold. */
  lemma InflowFaceIsGhostValue(c: Config, L: Line, i: int)
    requires ValidConfig(c)
    requires (i == L.ilo && L.bcLo == Inflow) || (i == L.ihi + 1 && i != L.ilo && L.bcHi == Inflow)
    ensures var g := if i == L.ilo then L.utilde(i - 1) else L.utilde(i);
      var v := UtransFace(c, L, i);
      (v == g || v == 0.0)
      && (RuleFor(c.dim, c.spherical, c.d) == Plain ==> (v == g <==> Abs(2.0 * g) >= c.eps || g == 0.0))
  {
    var g := if i == L.ilo then L.utilde(i - 1) else L.utilde(i);
    assert BoundaryStates(L, i, EdgeStates(c, L, i)) == States(g, g);
    assert g + g == 2.0 * g;
  }

  /** An outflow side never lets flow enter the domain: the lo face is
      non-positive and the hi face non-negative, whatever the rule. */
  lemma OutflowFaceSign(c: Config, L: Line, i: int)
    requires ValidConfig(c)
    ensures i == L.ilo && L.bcLo == Outflow ==> UtransFace(c, L, i) <= 0.0
    ensures i == L.ihi + 1 && i != L.ilo && L.bcHi == Outflow ==> UtransFace(c, L, i) >= 0.0
  {
  }

  /** The corrected and the as-written face values agree everywhere except
      on a 2-D y lo wall and on a 3-D hi inflow side. */
  lemma AsWrittenAgreesElsewhere(c: Config, L: Line, i: int)
    requires ValidConfig(c)
    requires !(i == L.ilo && c.dim == Two && c.d == 1 && IsWall(L.bcLo))
    requires !(i == L.ihi + 1 && i != L.ilo && c.dim == Three && L.bcHi == Inflow)
    ensures UtransFaceAsWritten(c, L, i) == UtransFace(c, L, i)
  {
  }

  /** Finding: on a 2-D y lo wall the as-written table lets a positive left
      state through, so the face velocity into the wall is not zero. */
  lemma YLoWallLeaksAsWritten()
    ensures var c := Config(Two, false, 1, 0, 0.0, 1.0, 1.0e-10);
      var L := Line(0, 7, SlipWall, SlipWall, _ => 0.0, _ => 0.0,
                    (j: int) => if j == -1 then 2.0 else 0.0,
                    _ => 0.0, _ => 0.0, _ => 0.0, _ => 0.0);
      UtransFaceAsWritten(c, L, 0) == 1.0 && UtransFace(c, L, 0) == 0.0
  {
    var c := Config(Two, false, 1, 0, 0.0, 1.0, 1.0e-10);
    var L := Line(0, 7, SlipWall, SlipWall, _ => 0.0, _ => 0.0,
                  (j: int) => if j == -1 then 2.0 else 0.0,
                  _ => 0.0, _ => 0.0, _ => 0.0, _ => 0.0);
    assert EdgeStates(c, L, 0) == States(1.0, 0.0);
    assert BoundaryStatesAsWritten(c, L, 0, States(1.0, 0.0)) == States(1.0, 0.0);
  }

  /** Finding: a 3-D hi inflow face reads the second ghost cell, so when the
      two ghost cells differ it does not carry the first ghost value that
      the 2-D code and the lo side use. */
  lemma HiInflowReadsSecondGhostAsWritten()
    ensures var c := Config(Three, false, 0, 1, 0.0, 1.0, 1.0e-10);
      var L := Line(0, 7, Interior, Inflow, (j: int) => if j == 8 then 3.0 else 5.0, _ => 0.0,
                    _ => 0.0, _ => 0.0, _ => 0.0, _ => 0.0, _ => 0.0);
      UtransFaceAsWritten(c, L, 8) == 5.0 && UtransFace(c, L, 8) == 3.0
  {
    var c := Config(Three, false, 0, 1, 0.0, 1.0, 1.0e-10);
    var L := Line(0, 7, Interior, Inflow, (j: int) => if j == 8 then 3.0 else 5.0, _ => 0.0,
                  _ => 0.0, _ => 0.0, _ => 0.0, _ => 0.0, _ => 0.0);
    assert BoundaryStatesAsWritten(c, L, 8, EdgeStates(c, L, 8)) == States(5.0, 5.0);
    assert BoundaryStates(L, 8, EdgeStates(c, L, 8)) == States(3.0, 3.0);
  }

  /** Computes the transverse velocity on every face `ilo..ihi+1` of a line,
      with the corrected boundary table. */
  method MakeUtransLine(c: Config, L: Line) returns (faces: seq<real>)
    requires ValidConfig(c) && L.ilo <= L.ihi
    ensures |faces| == L.ihi - L.ilo + 2
    ensures forall k :: 0 <= k < |faces| ==> faces[k] == UtransFace(c, L, L.ilo + k)
    ensures IsWall(L.bcLo) ==> faces[0] == 0.0
    ensures IsWall(L.bcHi) ==> faces[|faces| - 1] == 0.0
    ensures L.bcLo == Outflow ==> faces[0] <= 0.0
    ensures L.bcHi == Outflow ==> faces[|faces| - 1] >= 0.0
  {
    faces := [];
    var i := L.ilo;
    while i <= L.ihi + 1
      invariant L.ilo <= i <= L.ihi + 2
      invariant |faces| == i - L.ilo
      invariant forall k :: 0 <= k < |faces| ==> faces[k] == UtransFace(c, L, L.ilo + k)
    {
      faces := faces + [UtransFace(c, L, i)];
      i := i + 1;
    }
    if IsWall(L.bcLo) { WallFaceIsZero(c, L, L.ilo); }
    if IsWall(L.bcHi) { WallFaceIsZero(c, L, L.ihi + 1); }
    OutflowFaceSign(c, L, L.ilo);
    OutflowFaceSign(c, L, L.ihi + 1);
  }
}
