# MAESTRO time-step logic in Dafny

This project models the decision rules and index conventions of MAESTRO's
low-Mach-number time step, and the arithmetic the modelled source files
carry out themselves. All arithmetic is over mathematical reals.

What the modelled files compute inline is computed concretely, for example:
- the lateral average of `Average`;
- the beta0 multiply and divide and the B coefficients of the MAC projection;
- the face velocity rules of `MakeUtrans`;
- the forces;
- the reductions, weights, scaling and planar gravitational energy of `Diag`.

The kernels these files call are uninterpreted functions, passed as a
parameter or as a field of a record of kernels. Examples are the elliptic
solver, the equation of state, the reactions, PPM and slope reconstruction,
`make_w0`, `make_beta0` and the Fortran helpers.

One module per source file:

- `Upwind` (`upwind.dfy`, MaestroMakeUtrans.cpp): the transverse face
  velocity of `MakeUtrans`. It has three parts:
  - the edge states (piecewise-linear traces, or the PPM traces Ip/Im);
  - the per-side boundary table (Inflow, wall/symmetry, Outflow, Interior);
  - the upwind/Riemann rule, plain or shifted by the base-state velocity w0.
- `MacProjection` (`macproj.dfy`, MaestroMacProj.cpp): the set-up of the MAC
  projection:
  - the map from velocity boundary codes to solver boundary types, which
    aborts on any other code;
  - the solver tolerances;
  - the time at which density is sampled;
  - the A and B coefficients;
  - the multiply-by-beta0 / correct / divide sequence on face velocities.
- `Forces` (`forces.dfy`, MaestroForce.cpp):
  - the planar and spherical velocity force, with the buoyancy cutoff and
    the utilde correction;
  - `gradw0`, and the spherical `divu` profile of `ModifyScalForce`;
  - the enthalpy force of `MakeRhoHForce`, planar and spherical, with its
    source-term flags;
  - the preconditions of `MakeRhoHForce` and `MakeTempForce`.
- `BaseAverage` (`baseaverage.dfy`, MaestroAverage.cpp): the planar lateral
  average. It covers the flattened multilevel profile, the per-level lateral
  cell count, the per-row sum and the division. It also covers the sizes of
  the spherical buffers.
- `Advance` (`advance.dfy`, MaestroAdvance.cpp): `AdvanceTimeStep` as one
  function from a record of inputs to a record of outputs. It covers:
  - how `evolve_base_state`, `use_thermal_diffusion` and `dpdt_factor`
    switch stages off;
  - the time-centred expansion S_cc_nph;
  - the arguments of the `make_w0` and reaction calls;
  - beta0 at the half step;
  - the flux-register operations of the level loop;
  - the reflux / average-down synchronisation order.
- `Diagnostics` (`diag.dfy`, MaestroDiag.cpp): the reductions of `DiagFile`
  and the row buffering of `DiagFile` / `WriteDiagFile`. This covers:
  - the first-strict-maximum scans, with location and velocity, over cells,
    processes and levels;
  - masking of covered cells;
  - level weights and cell-volume scaling;
  - the `ncenter` check;
  - row layout and the buffer index.
- `PlanarDiagnostics` (`planar.dfy`, MaestroDiag.cpp): a planar grid as a
  whole, given as cells by level and process. It proves that the energy
  columns of the step-0 lines are the cell-volume-scaled weighted sums over
  the grid's uncovered cells. It also holds the planar gravitational-energy
  loop.
- `Common` (`common.dfy`): `Result`, sums, powers, the flat
  `lev + levels * r` index of multilevel radial profiles, and small
  arithmetic facts.

## Model

| member | source | states |
|---|---|---|
| Upwind.Resolve | Source/MaestroMakeUtrans.cpp:193-196 | The face velocity is 0, ul or ur. It is 0 exactly on a rarefaction (ul <= 0 <= ur) or when abs(ul+ur) is below rel_eps. A positive value is ul and a negative one is ur. A non-zero value is positive exactly when ul+ur > 0, so it is the upwind state. |
| Upwind.ResolveShifted | Source/MaestroMakeUtrans.cpp:280-285 | The w0-shifted rule returns 0, ul or ur. It is 0 when the shifted states form a rarefaction or nearly cancel. Otherwise the shifted result ul+w0 or ur+w0 is non-zero. |
| Upwind.ShiftedWithZeroIsPlain | Source/MaestroMakeUtrans.cpp:372-383 | With w0 = 0 the shifted rule coincides with the plain rule on every input. |
| Upwind.ShiftedIsPlainInMovingFrame | Source/MaestroMakeUtrans.cpp:567-571 | The shifted rule is the plain rule applied in the frame that moves with w0. Resolving the shifted states and shifting back gives the same face velocity. Both are 0 in the same cases. |
| Upwind.RuleFor | Source/MaestroMakeUtrans.cpp:565-578 | Which rule a direction uses. Spherical 3-D shifts every direction by the face w0. Otherwise only the vertical (last) direction is shifted, by the cell w0, and every other direction is plain. |
| Upwind.FaceValue | Source/MaestroMakeUtrans.cpp:466-481 | Whatever rule is used, the face velocity is one of 0, ul and ur. |
| Upwind.Override | Source/MaestroMakeUtrans.cpp:149-190 | The boundary table. Interior keeps the states. Any wall or symmetry side zeroes both states. Inflow sets both states to the ghost value. Outflow makes the states equal, non-positive on the lo side and non-negative on the hi side. Outflow keeps an outgoing state (ur <= 0 on the lo side, ul >= 0 on the hi side) and clamps an incoming one to 0. |
| Upwind.OverrideYLo2DAsWritten | Source/MaestroMakeUtrans.cpp:238-257 | The 2-D y lo table as written agrees with the table except on a wall. On a wall only the right state is zeroed and the left state is kept. |
| Upwind.EdgeStates | Source/MaestroMakeUtrans.cpp:136-147 | The traces are Ip(i-1) and Im(i) for ppm_type 1 and 2, and zero for any other type except 0. For type 0 they are the piecewise-linear traces: the cell value plus or minus (1/2 minus dt/(2h) times the upwind part of the full velocity) times the slope. |
| Upwind.FlatSlopesGiveCellValues | Source/MaestroMakeUtrans.cpp:136-141 | With zero slopes the ppm_type-0 traces are the two cell values next to the face. |
| Upwind.LeftTraceBounded | Source/MaestroMakeUtrans.cpp:136-139 | Under a Courant condition, the left ppm_type-0 trace lies between the cell value and the value of that cell's linear profile at its right face. |
| Upwind.BoundaryStates | Source/MaestroMakeUtrans.cpp:148-190 | Faces that are neither the lo face nor the hi face of the domain keep their reconstructed states. |
| Upwind.BoundaryStatesAsWritten | Source/MaestroMakeUtrans.cpp:238-353 | The overrides as the source applies them equal the corrected table on every face except a 2-D y lo face and a 3-D hi face. |
| Upwind.UtransFace | Source/MaestroMakeUtrans.cpp:131-197 | With the corrected table, the face velocity at the lo or hi face of a line is 0 whenever that side is a wall or symmetry side. |
| Upwind.UtransFaceAsWritten | Source/MaestroMakeUtrans.cpp:329-365 | On every face that is not one of the line's two domain faces, the face velocity as written equals the corrected one. |
| Upwind.HiInflowCellAsWritten | Source/MaestroMakeUtrans.cpp:350-353 | As written, a hi-side inflow face reads ghost cell i in 2-D and ghost cell i+1 in 3-D. |
| Upwind.InteriorFacesUntouched | Source/MaestroMakeUtrans.cpp:166-167 | Faces away from the domain boundary, and boundary faces on an Interior side, get the rule applied to the reconstructed states. |
| Upwind.WallFaceIsZero | Source/MaestroMakeUtrans.cpp:156-161 | The face velocity through a slip wall, no-slip wall or symmetry side is exactly 0, whatever the states and the rule. |
| Upwind.InflowFaceIsGhostValue | Source/MaestroMakeUtrans.cpp:152-155 | An inflow face carries the ghost value g or 0. Under the plain rule it carries g exactly when abs(2g) >= rel_eps or g = 0. |
| Upwind.OutflowFaceSign | Source/MaestroMakeUtrans.cpp:162-186 | No flow enters through an outflow side. The lo face velocity is <= 0 and the hi face velocity is >= 0, under every rule. |
| Upwind.AsWrittenAgreesElsewhere | Source/MaestroMakeUtrans.cpp:329-365 | The as-written and the corrected face velocities are equal on every face except a 2-D y lo wall and a 3-D hi inflow side. |
| Upwind.YLoWallLeaksAsWritten | Source/MaestroMakeUtrans.cpp:243-248 | A concrete 2-D slip wall where the face velocity as written is 1. The corrected table gives 0 there. |
| Upwind.HiInflowReadsSecondGhostAsWritten | Source/MaestroMakeUtrans.cpp:351-353 | A concrete 3-D hi inflow face that carries the second ghost value (5) as written. The corrected table gives the first ghost value (3). |
| Upwind.MakeUtransLine | Source/MaestroMakeUtrans.cpp:131-197 | Computes every face ilo..ihi+1 of a line. Each face is the face velocity at that index. Wall ends are 0, and outflow ends point out of the domain. |
| MacProjection.LinOpFor | Source/MaestroMacProj.cpp:283-294 | A side maps to a solver boundary type exactly when its code is int_dir, foextrap or ext_dir. Any other code is an error. |
| MacProjection.LinOpForRoundTrip | Source/MaestroMacProj.cpp:283-308 | The map is a bijection between the three supported codes and Periodic, Neumann and Dirichlet. |
| MacProjection.SolverBCsFrom | Source/MaestroMacProj.cpp:280-308 | Succeeds exactly when every remaining side is supported, and then maps each lo and hi side independently. Otherwise it aborts at the first unsupported side, with the message of that side. |
| MacProjection.SetMacSolverBCs | Source/MaestroMacProj.cpp:273-311 | Succeeds exactly when all sides are supported. The result has one type per direction and side, and each type maps back to that side's velocity code. |
| MacProjection.MacTolRel | Source/MaestroMacProj.cpp:135-139 | The relative tolerance is positive and never exceeds 1e-8. It equals 1e-10 * 10^finest_level up to finest_level 2, and is the 1e-8 cap from level 2 on. |
| MacProjection.MacTolRelMonotone | Source/MaestroMacProj.cpp:139 | A finer hierarchy never gets a tighter relative tolerance. |
| MacProjection.SolverTolerances | Source/MaestroMacProj.cpp:135-141 | The solver gets a negative absolute tolerance, which switches that criterion off, and the relative tolerance above. |
| MacProjection.RhoFillFor | Source/MaestroMacProj.cpp:43-53 | The predictor samples density at t_old, and the corrector at the midpoint of t_old and t_new. The second fill source is sold exactly on the first predictor (t_old = 0). |
| MacProjection.RhoFillSamplesIntendedDensity | Source/MaestroMacProj.cpp:36-53 | If the fill interpolates linearly in time, the predictor sees rho^n and the corrector sees (rho^n + rho^{n+1,*})/2. |
| MacProjection.FilledRho | Source/MaestroMacProj.cpp:36-53 | There is one filled density per cell. Each is filled at the fill time from the cell's old value and a second source. The second source is the old value exactly on the first predictor, and the new value otherwise. |
| MacProjection.FirstPredictorFillsFromOldOnly | Source/MaestroMacProj.cpp:44-47 | On the first predictor every density cell is filled from the old state alone. |
| MacProjection.MultFaces | Source/MaestroMacProj.cpp:29-31 | Each face velocity is multiplied by its beta0 edge value. |
| MacProjection.DivFaces | Source/MaestroMacProj.cpp:158-161 | Each result times its beta0 edge value gives back the input face value. |
| MacProjection.DivUndoesMult | Source/MaestroMacProj.cpp:29-161 | With non-zero beta0 edges, dividing after multiplying gives back the original face velocities. |
| MacProjection.CellB | Source/MaestroMacProj.cpp:73-78 | The cell B coefficient is the reciprocal of the density, and positive where the density is. |
| MacProjection.FaceB | Source/MaestroMacProj.cpp:80-90 | The face B coefficient is beta0 at the edge times the face average of the two neighbouring cell coefficients. |
| MacProjection.FaceBPositive | Source/MaestroMacProj.cpp:73-90 | With positive density and beta0, and arithmetic face averaging, every face coefficient is positive, so the operator is elliptic. |
| MacProjection.CorrectFaces | Source/MaestroMacProj.cpp:151-161 | After the correction, beta0*u equals beta0*u* minus B times the solver flux. A face with zero flux keeps its velocity. |
| MacProjection.MacRequest | Source/MaestroMacProj.cpp:56-112 | The request the solver gets: the RHS is built from beta0-weighted velocities, A = 0, alpha = 0 and beta = 1. B is 1/rho in cells and beta0 times the face average on faces. It also carries the tolerances and the boundary types. |
| MacProjection.Project | Source/MaestroMacProj.cpp:141-161 | The face velocities are corrected by the fluxes that the solver returns for the request. Faces with zero flux are unchanged. |
| MacProjection.MacProj | Source/MaestroMacProj.cpp:12-161 | The projection succeeds exactly when every boundary code is supported, and is then the correction with that request. Otherwise it aborts with one of the two boundary messages. |
| Forces.RhoPert | Source/MaestroForce.cpp:131-136 | The buoyancy perturbation is 0 below the cutoff density and rho - rho0 otherwise. |
| Forces.UtildeCorrection | Source/MaestroForce.cpp:145-154 | The utilde correction is non-zero only when the flag is 1 and 0 <= row < domhi. It vanishes where w0 is flat. In range it is the face-averaged vertical velocity times dw0/dz. |
| Forces.PlanarVelForce | Source/MaestroForce.cpp:140-154 | Horizontal components times rho are -gpi. The vertical component plus w0force plus the utilde correction, times rho, is rhopert*g - gpi. |
| Forces.UtildeForceOnlyInsideDomain | Source/MaestroForce.cpp:145-154 | Ghost rows and the top row get the same force as with the correction switched off. |
| Forces.NoBuoyancyOutsideStar | Source/MaestroForce.cpp:131-143 | Below the cutoff density the force does not depend on the base density. |
| Forces.SphericalVelForce | Source/MaestroForce.cpp:192-219 | In each of the three components, the force plus w0force plus (when the flag is 1) Ut.er * gradw0 * normal, times rho, is rhopert*g - gpi. |
| Forces.RadialVelocity | Source/MaestroForce.cpp:209-211 | Ut.er is the mean of the radial components of the cell's lo-edge and hi-edge velocities. |
| Forces.SphericalCorrectionIsRadial | Source/MaestroForce.cpp:209-217 | The spherical utilde correction acts only along the normal. Along any direction orthogonal to it, the force is the same with or without the correction. |
| Forces.GradW0 | Source/MaestroForce.cpp:36-48 | gradw0 stays all zero for an exact or averaged base state. Otherwise gradw0[i]*dr = w0[i+1] - w0[i] on flat indices. |
| Forces.GradW0SingleLevelIsRadial | Source/MaestroForce.cpp:36-48 | With one radial level, flat neighbours are neighbouring radii, so gradw0 is the radial derivative of w0. |
| Forces.GradW0MultiLevelCrossesLevels | Source/MaestroForce.cpp:44-47 | With several radial levels, the flat neighbour of (lev, r) is (lev+1, r), so the difference is taken across levels at one radius. |
| Forces.CellDivU | Source/MaestroForce.cpp:269-272 | For every cell but the last, divu times dr*rcc^2 is the change of r^2 w0 across the cell. Only those cells need a non-zero shell weight. |
| Forces.SphericalDivU | Source/MaestroForce.cpp:264-274 | There is one entry per radial cell. All entries are 0 for an exact base state. The last entry is 0. Every other entry is the cell divergence of w0. |
| Forces.DivUIsConservative | Source/MaestroForce.cpp:264-274 | Discrete divergence theorem: the volume-weighted divu summed over the cells it fills equals the outer minus the inner area-weighted flux. |
| Forces.RhoHForceCheck | Source/MaestroForce.cpp:375-379 | MakeRhoHForce aborts exactly for a prediction whose type is not rhoh', h or rhoh. |
| Forces.TempForceCheck | Source/MaestroForce.cpp:605-609 | MakeTempForce runs exactly when one of the three temperature-based types is predicted. |
| Forces.PredictionBuildersPartition | Source/MaestroForce.cpp:375-379 | For a prediction no type is accepted by both builders. Every named type is accepted by exactly one of them, and an unknown type by neither. |
| Forces.StepBase | Source/MaestroForce.cpp:388-397 | which_step 1 uses the old base state. Any other value uses the elementwise midpoint of old and new. |
| Forces.StepBaseOfSteadyState | Source/MaestroForce.cpp:388-397 | An unchanged base state is used as is by either step. |
| Forces.PsiOmittedOnlyForPerturbation | Source/MaestroForce.cpp:510-516 | Among the predictions allowed through, exactly the rhoh' prediction leaves psi out. |
| Forces.PsiIncluded | Source/MaestroForce.cpp:510-516 | psi enters exactly for the update (is_prediction 0) and for a prediction of h or rhoh. |
| Forces.WithSources | Source/MaestroForce.cpp:509-520 | The force exceeds its advective part by psi exactly when psi is enabled, plus thermal exactly when add_thermal = 1. |
| Forces.GradP0 | Source/MaestroForce.cpp:496-506 | The base-pressure gradient is rho0*g inside the star. Above the cutoff it is the one-sided difference of p0 over dz: backward (p0(k) - p0(k-1)) in the top cell, forward (p0(k+1) - p0(k)) elsewhere. It vanishes where p0 is constant. |
| Forces.VelAdv | Source/MaestroForce.cpp:508 | The advecting velocity is the midpoint of the two vertical face velocities. |
| Forces.PlanarRhoHForce | Source/MaestroForce.cpp:494-521 | Inside the star the planar enthalpy force is the advecting velocity times rho0*g, plus the enabled source terms. Above the cutoff it is the advecting velocity times the backward p0 difference over dz in the top cell and the forward one elsewhere, plus the same source terms. |
| Forces.PlanarRhoHForceAboveStar | Source/MaestroForce.cpp:500-506 | Where p0 is constant above the star, the force is just the enabled source terms. |
| Forces.PlanarRhoHForce3DAsWritten | Source/MaestroForce.cpp:526-553 | The 3-D kernel as written averages the face velocity of the cell with that of its j-neighbour. |
| Forces.PlanarRhoHForce3DAsWrittenDiffers | Source/MaestroForce.cpp:530-541 | A concrete cell where the intended force is 1 and the force as written is 0. |
| Forces.PlanarRhoHForce3DAgreesAboveStar | Source/MaestroForce.cpp:530-541 | Above the star, on a layered base pressure, the as-written and intended kernels agree. |
| Forces.FaceTerm | Source/MaestroForce.cpp:558-568 | One direction's share of divup - p0divu. It is 0 when the face pressures equal the cell pressure. |
| Forces.ShareOfPerturbation | Source/MaestroForce.cpp:558-568 | One direction's share equals the flux of the face pressure perturbation p0_face - p0_cell. |
| Forces.SphericalRhoHBase | Source/MaestroForce.cpp:556-566 | divup - p0divu is, direction by direction, the flux of the face pressure perturbation p0_face - p0_cell. So a base pressure equal on the faces and in the cell gives no advective force. |
| Forces.MakeRhoHForcePlanar | Source/MaestroForce.cpp:362-521 | Aborts exactly when the precondition fails, with its message. Otherwise it is the planar enthalpy force. |
| Forces.MakeRhoHForceSpherical | Source/MaestroForce.cpp:375-580 | Aborts exactly when the precondition fails. Otherwise it is the spherical kernel plus the enabled source terms. |
| BaseAverage.LateralCells | Source/MaestroAverage.cpp:35-43 | The lateral cell count is 1, nx or nx*ny by dimension, taken from the level-0 domain. It is always at least 1. |
| BaseAverage.NcellVector | Source/MaestroAverage.cpp:26-43 | Levels 0..finest_level get the lateral count. Levels above stay 0. |
| BaseAverage.FlatCovers | Source/MaestroAverage.cpp:23 | Every slot of the (max_radial_level+1)*nr_fine profile is the flat index of exactly one (level, row) pair. |
| BaseAverage.Flatten | Source/MaestroAverage.cpp:23 | Slot lev + levels*r of the flat profile holds row r of level lev. |
| BaseAverage.AddBox | Source/MaestroAverage.cpp:59-61 | Adding one box adds that box's row sums to its level and leaves every other level unchanged. |
| BaseAverage.AddLevel | Source/MaestroAverage.cpp:49-62 | Adding all boxes of a level adds their row sums to that level only. |
| BaseAverage.SumPlanar | Source/MaestroAverage.cpp:23-66 | Each level up to finest_level holds the sum of its boxes' rows. Levels above hold 0. |
| BaseAverage.DivideRow | Source/MaestroAverage.cpp:69 | Each row entry is divided by the count. |
| BaseAverage.DivideByNcell | Source/MaestroAverage.cpp:69 | Existing levels are divided by the lateral count. Levels above finest_level stay 0. |
| BaseAverage.DivideLevel | Source/MaestroAverage.cpp:69 | One level's row divided by the lateral count, or zero above finest_level. |
| BaseAverage.AveragePlanar | Source/MaestroAverage.cpp:17-72 | The flat result holds, for each existing level and row, the row sum over the level's boxes divided by the lateral cell count. Levels above finest_level hold 0. |
| BaseAverage.SumConstant | Source/MaestroAverage.cpp:59-61 | A row of equal values sums to the value times its length. |
| BaseAverage.RowSumConstant | Source/MaestroAverage.cpp:49-62 | Equal values across all boxes sum to the value times the cell count. |
| BaseAverage.RowSumCopies | Source/MaestroAverage.cpp:49-62 | Summing the boxes of a level at one height, where every cell holds the same value, adds that value exactly once per cell of every box. |
| BaseAverage.AverageOfConstantRow | Source/MaestroAverage.cpp:6-8 | A field that is constant at a given height, and whose boxes tile the level laterally, averages to that constant. |
| BaseAverage.SphericalBuffers | Source/MaestroAverage.cpp:81-83 | The spherical sum and count buffers have (max_radial_level+1)*(nr_irreg+2) entries and the radii buffer (max_radial_level+1)*(nr_irreg+3). Sums and counts start at 0. |
| BaseAverage.SphericalSlotsFit | Source/MaestroAverage.cpp:81-126 | Every radial slot, and the radius above it, lies inside these buffers. The radii buffer is one slot per level longer. |
| Advance.PredictorScc | Source/MaestroAdvance.cpp:211-223 | On the first step S_cc_nph is the midpoint of S_old and S_new. Later it is S_old advanced half a step along dSdt. |
| Advance.PredictorSccConsistent | Source/MaestroAdvance.cpp:211-223 | When S changes linearly over the step, both branches give the same time-centred value. |
| Advance.SeedTemperature | Source/MaestroAdvance.cpp:319-321 | The state handed to the second reaction has the temperature of the first reaction's output. |
| Advance.Predict | Source/MaestroAdvance.cpp:197-251 | The first reaction uses sold, p0_old and dt/2. S_cc_nph is time-centred. The predictor make_w0 call has flag 1 and the old base state in both slots. w0_old is snapshotted before it. Without base-state evolution w0 is untouched. |
| Advance.Correct | Source/MaestroAdvance.cpp:383-450 | The second reaction gets the temperature-seeded state, p0_new and dt/2. Without evolution gamma1bar and beta0 pass through, and Sbar and w0_force are zero. With evolution they are rebuilt from the second reaction's state and p0_new, and w0 and w0_force come from the corrector make_w0 call. That call has flag 0, the old and new base state, the rebuilt gamma1bar and the predictor's p0_minus_peosbar. thermal2 is zero exactly without diffusion, and S_cc_nph is the midpoint of S_old and S_new. |
| Advance.Finish | Source/MaestroAdvance.cpp:510-559 | The third reaction gets the seeded state, the new-time pressure and dt/2. The new-time pressure is p0_new with evolution and p0_old without. With evolution gamma1bar and beta0 are rebuilt from the final state. Without it they are the corrector's values. |
| Advance.AdvanceTimeStep | Source/MaestroAdvance.cpp:8-559 | Without base-state evolution, Sbar and w0_force are zero, no make_w0 call is made, and rho0, p0, rhoh0, beta0, gamma1bar and w0 pass through. With evolution there is a predictor and then a corrector make_w0 call. The predictor gets the old base state in both slots, and the incoming w0 as both its w0 and its w0_old. The corrector gets the predictor's w0, the old and new base state and the rebuilt gamma1bar. Both get the same p0_minus_peosbar, which is zero. w0, w0_force and Sbar are the corrector's. delta_p_term is zero exactly when dpdt_factor <= 0, and thermal1/2 are zero exactly without diffusion. There are three half-step reactions, and beta0_nph is the midpoint of old and new. |
| Advance.StepReactions | Source/MaestroAdvance.cpp:194-548 | The three reactions all advance dt/2. The first gets sold and p0_old, the second the seeded state and p0_new, the third the seeded state and the new-time pressure. s1 and snew are the first and third reactions' states, and the seeded state has s1's temperature. |
| Advance.EvolvedBaseState | Source/MaestroAdvance.cpp:292-559 | With the base state evolving, rho0, p0 and rhoh0 of the new time are the profiles held on entry. gamma1bar and beta0 are rebuilt from the final state and those profiles. |
| Advance.SteadyBaseKeepsBeta0 | Source/MaestroAdvance.cpp:550-559 | Without base-state evolution beta0 at the half step is beta0_old. |
| Advance.LevelRegOps | Source/MaestroAdvance.cpp:606-621 | A level below finest adds one coarse-side operation per direction. A level above 0 adds one fine-side operation per direction. |
| Advance.RegOpsShape | Source/MaestroAdvance.cpp:606-621 | Every operation is either CrseInit on register lev+1 with scale -1 or FineAdd on register lev with scale +1, in a valid direction and register. |
| Advance.RegOpsComplete | Source/MaestroAdvance.cpp:606-621 | With refluxing on, every register between two existing levels gets both its CrseInit(-1) and its FineAdd(+1) in every direction. |
| Advance.RegOpsCrseInit | Source/MaestroAdvance.cpp:608-613 | The coarse-side initialisation of a register is issued as soon as the level below it has been visited. |
| Advance.FillFluxRegisters | Source/MaestroAdvance.cpp:578-624 | The level loop issues exactly the per-level operations, level by level, with refluxing on, and nothing otherwise. |
| Advance.SyncPair | Source/MaestroAdvance.cpp:629-635 | One level pair takes a reflux (when enabled) followed by an average-down of lev+1 onto lev. |
| Advance.Synchronize | Source/MaestroAdvance.cpp:627-635 | The synchronisation loop issues exactly the reference sequence of pairs from finest_level-1 down to 0. |
| Advance.SyncLength | Source/MaestroAdvance.cpp:627-635 | The sequence has one or two operations per level pair. |
| Advance.SyncOrder | Source/MaestroAdvance.cpp:627-635 | Pair j occupies its own contiguous slice, and pairs appear from the finest down. Each pair appears exactly once, with its reflux before its average-down. |
| Advance.SyncPairAt | Source/MaestroAdvance.cpp:627-635 | For one level pair j below `top`, the operations starting at its computed offset are exactly that pair's reflux (when enabled) followed by its average-down. |
| Advance.SyncOnlyAdjacent | Source/MaestroAdvance.cpp:627-635 | Every operation refluxes register lev+1 into lev or averages lev+1 onto lev, for some lev below finest_level. |
| Diagnostics.FirstMax | Source/MaestroDiag.cpp:240-269 | The first-strict-maximum scan over the kept entries. |
| Diagnostics.FirstMaxIsFirstLargest | Source/MaestroDiag.cpp:240-269 | The scan finds nothing exactly when no kept value is positive. Otherwise it returns a kept index that holds the largest kept value, and every kept entry before it is strictly smaller. |
| Diagnostics.FirstMaxOnlyReadsKept | Source/MaestroDiag.cpp:221-227 | The scan ignores entries that are not kept. |
| Diagnostics.ScanFirstMax | Source/MaestroDiag.cpp:240-269 | The loop with the strict > test computes the first strictly largest kept entry and its value. |
| Diagnostics.PickFirstMax | Source/MaestroDiag.cpp:240-269 | The reported extremum (value, location, velocity) is the default when no kept value is positive. Otherwise it is the first kept cell attaining the largest value. |
| Diagnostics.KeptMax | Source/MaestroDiag.cpp:288-289 | The running maximum of the kept values, from 0: it bounds every kept value and is attained, or is 0. |
| Diagnostics.MaskedOnlyReadsKept | Source/MaestroDiag.cpp:221-227 | Values of masked-out cells never reach the reductions. |
| Diagnostics.KeptMaxOnlyReadsKept | Source/MaestroDiag.cpp:221-227 | The maximum ignores cells that are not kept. |
| Diagnostics.HotSpotVelocity | Source/MaestroDiag.cpp:247-251 | The recorded velocity is the cell velocity, except that the vertical component adds the average of w0 on the cell's two vertical faces. |
| Diagnostics.Keep | Source/MaestroDiag.cpp:143-158 | A cell takes part unless the mask is used and the cell is covered by a finer level. |
| Diagnostics.TempCandidates | Source/MaestroDiag.cpp:240-252 | Each cell offers its temperature with its location and velocity. |
| Diagnostics.EnucCandidates | Source/MaestroDiag.cpp:256-269 | Each kept cell offers the specific energy generation rate, whose value times rho is rho_Hnuc. |
| Diagnostics.MachNumbers | Source/MaestroDiag.cpp:288-289 | The Mach number of each kept cell times its sound speed is its speed. |
| Diagnostics.Weight | Source/MaestroDiag.cpp:212-214 | The level weight is positive. |
| Diagnostics.WeightIsReciprocal | Source/MaestroDiag.cpp:212-214 | The level weight times 4^lev in 2-D, or 8^lev in 3-D, is 1: the volume of a level-lev cell relative to a level-0 cell. |
| Diagnostics.WeightedSum | Source/MaestroDiag.cpp:282-285 | Summing a tile's masked, weighted terms is the cell-by-cell sum over its kept cells of the weight times the cell's density. |
| Diagnostics.LocalEnergy | Source/MaestroDiag.cpp:282-285 | A tile's energy is the reference sum over its kept cells of the weight times rho*vel^2, rho*e or rho_Hnuc. |
| Diagnostics.LocalSummary | Source/MaestroDiag.cpp:212-289 | A process's summary of one level uses the level's weight. Below the finest level it masks out covered cells. Each energy is the reference weighted sum over the cells taking part. The speed maximum bounds every such cell's speed and is 0 or one of them. The Mach maximum is the maximum from 0 over the same cells' Mach numbers. The T and enuc maxima are the first-largest selection over the same cells' candidates, from the zero default. |
| Diagnostics.PickOnlyReadsKept | Source/MaestroDiag.cpp:221-227 | Selection reads only the kept candidates. |
| Diagnostics.CoveredCellsIgnored | Source/MaestroDiag.cpp:143-158 | Below the finest level, whatever covered cells hold, the process's level summary is the same: maxima, locations, energies, speed and Mach number. |
| Diagnostics.EnergiesOnlyReadKept | Source/MaestroDiag.cpp:283-285 | The weighted terms of the energy sums are the same for two tiles that agree on their kept cells. |
| Diagnostics.ProcessPick | Source/MaestroDiag.cpp:323-330 | The gathered argmax is the lowest process with the strictly largest value. It stays at process 0 with value 0 when all values are <= 0. Location and velocity come from the chosen process. |
| Diagnostics.GatherOfUnique | Source/MaestroDiag.cpp:323-357 | At most one extremum fits that description of the gather, so it determines the gathered location and velocity. |
| Diagnostics.GatheredMax | Source/MaestroDiag.cpp:323-357 | The gathered extremum is, when no process has a positive value, value 0 with process 0's location and velocity. Otherwise it is the extremum of the first process holding the largest value. It bounds every process's value. |
| Diagnostics.AllMax | Source/MaestroDiag.cpp:304-305 | The maximum from 0 over a set of values is non-negative, bounds every value, and is one of the values unless it is 0. |
| Diagnostics.CombineProcesses | Source/MaestroDiag.cpp:294-378 | The level summary after the cross-process reduction. T_max and enuc_max with their locations are the gathered extrema. The three energies are the sums of the processes' energies. U_max and Mach_max are the maxima from 0 of the processes' values. |
| Diagnostics.MergeMax | Source/MaestroDiag.cpp:416-422 | The merge over levels is the zero default or the value of the first level with the strictly largest maximum, and bounds every level. When no level's value is positive it is exactly the zero default. |
| Diagnostics.LevelMax | Source/MaestroDiag.cpp:415-447 | The T or enuc maximum merged over the levels is the zero default or the extremum of the first level with the strictly largest value, and bounds every level's value. When no level's value is positive it is exactly the zero default, with zero location and velocity. |
| Diagnostics.MergeLevels | Source/MaestroDiag.cpp:405-469 | The merged T and enuc maxima are each the default or the first strictly largest level's extremum, and bound every level. Each is exactly the zero default when no level's value is positive. The energies, T_center, vel_center and ncenter are the sums over the levels. U_max and Mach_max are the maxima from 0 over the levels. |
| Diagnostics.ScaleByCellVolume | Source/MaestroDiag.cpp:491-496 | Multiplying by each coarse cell width in turn scales by the volume of a level-0 cell. |
| Diagnostics.CenterAverage | Source/MaestroDiag.cpp:498-510 | Succeeds exactly when ncenter is 8 for a full star or 1 for an octant (`ValidCenterCount`). Otherwise it aborts with the ncenter message. On success T_center and vel_center times ncenter give back the sums. |
| Diagnostics.Normalize | Source/MaestroDiag.cpp:486-510 | Aborts exactly for a star with an invalid ncenter. The three energies are multiplied by the volume of a level-0 cell. The maxima with their locations, U_max, Mach_max and ncenter are kept. For a star, T_center and each component of vel_center times ncenter give back the sums. In planar geometry they are unchanged. |
| Diagnostics.Columns | Source/MaestroDiag.cpp:666-682 | A vector is written as three columns, the third 0 in 2-D. |
| Diagnostics.TempRow | Source/MaestroDiag.cpp:666-682 | A temperature row has width `TempWidth`: 11 for a star and 8 in planar geometry. |
| Diagnostics.EnucRow | Source/MaestroDiag.cpp:600-623 | An energy row has width `EnucWidth`, 11 or 9, and ends with the total nuclear energy. |
| Diagnostics.VelRow | Source/MaestroDiag.cpp:702-714 | A velocity row has width `VelWidth`, 10 or 7, and ends with dt. |
| Diagnostics.RowLayout | Source/MaestroDiag.cpp:584-714 | Column layout. The temperature and energy rows hold time, the maximum, its three location columns and three velocity columns, then for a star the radius and radial velocity (and T_center). The velocity row holds time, U_max, Mach_max, kinetic, gravitational and internal energy, then for a star vel_center. |
| Diagnostics.WriteAt | Source/MaestroDiag.cpp:666-714 | Writing a row sets exactly the slice at its offset and nothing else. |
| Diagnostics.Rows | Source/MaestroDiag.cpp:748-753 | The first count rows of a buffer are read in order, each inside the buffer. |
| Diagnostics.Store | Source/MaestroDiag.cpp:666-716 | Buffering one step grows the index by exactly 1. The buffers keep their sizes and still hold the rows written so far. |
| Diagnostics.OffsetIsProduct | Source/MaestroDiag.cpp:665-666 | The row offset `Offset(index, width)` is `index*width`. |
| Diagnostics.StoreIsWrite | Source/MaestroDiag.cpp:666-716 | In each file's buffer, one buffered step writes that file's line at row `index`. |
| Diagnostics.StoreWrites | Source/MaestroDiag.cpp:666-716 | After one buffered step, row `index` of each file reads back as the step's line. Everything before that row is unchanged. |
| Diagnostics.RecordStep | Source/MaestroDiag.cpp:584-716 | Step 0 emits the three lines directly and leaves the buffers alone. Later steps buffer one row per file. |
| Diagnostics.Flush | Source/MaestroDiag.cpp:723-805 | WriteDiagFile emits index rows per file and resets index to 0. |
| Diagnostics.StoreAll | Source/MaestroDiag.cpp:666-716 | A run of buffered steps moves the index by the number of steps. |
| Diagnostics.Assemble | Source/MaestroDiag.cpp:584-716 | The record carries the merged maxima and the energies, U_max, Mach_max, T_center and vel_center of the totals, with time, dt, dimension and the gravitational energy handed in. Radius and radial velocity are 0 in planar geometry. |
| Diagnostics.Reduced | Source/MaestroDiag.cpp:405-510 | Aborts exactly for a star with an invalid ncenter. Otherwise the energies are the level sums scaled by the level-0 cell volume. The maxima are `LevelMax` of the levels. U_max and Mach_max are the maxima from 0 over the levels. |
| Diagnostics.StepRecord | Source/MaestroDiag.cpp:405-623 | The record of a step aborts exactly for a star with an invalid ncenter. Otherwise it is well shaped and carries the step's time, dt, dimension and gravitational energy. |
| Diagnostics.StepRecordTotals | Source/MaestroDiag.cpp:405-510 | The record's energies are the level sums scaled by the level-0 cell volume. Its maxima are merged over the levels, and U_max and Mach_max are maxima from 0 over the levels. |
| Diagnostics.DiagFile | Source/MaestroDiag.cpp:17-719 | Aborts exactly for a star with an invalid ncenter, with that message. Otherwise step 0 writes three lines and leaves the buffers unchanged, and a later step grows the index by 1 and writes no line. |
| Diagnostics.DiagFileWrites | Source/MaestroDiag.cpp:584-716 | Step 0 writes the temperature, energy and velocity rows of the step's record. A later step buffers that record. |
| Diagnostics.PlanarStepLines | Source/MaestroDiag.cpp:584-623 | At step 0 in planar geometry the velocity line holds, in columns 3, 4 and 5, the kinetic energy summed over levels and scaled by the cell volume, the gravitational energy, and the internal energy. The energy line ends with the nuclear energy so obtained. |
| Diagnostics.Lines | Source/MaestroDiag.cpp:584-623 | The reference lines of one file for a run of steps. |
| Diagnostics.RowsPreserved | Source/MaestroDiag.cpp:666-716 | Rows lying wholly in an unchanged prefix read back unchanged. |
| Diagnostics.StoreAllWrites | Source/MaestroDiag.cpp:666-716 | From index 0, a run of buffered steps writes each file's lines as consecutive rows 0, 1, ... |
| Diagnostics.StoreLinesReadBack | Source/MaestroDiag.cpp:748-753 | Lines written as consecutive rows read back as those lines, in order. |
| Diagnostics.StoredRowsReadBack | Source/MaestroDiag.cpp:666-716 | Buffering a run of steps and reading the rows back gives exactly those steps' lines, in order, for each file. |
| Diagnostics.FlushAfterRun | Source/MaestroDiag.cpp:723-805 | Flushing after a run of buffered steps emits exactly the lines of those steps, in order, for all three files, and leaves the index at 0. |
| Diagnostics.EnucRowAsWritten | Source/MaestroDiag.cpp:685-699 | The buffered energy row as written has eleven values whatever the geometry. Radius, radial velocity and the total sit at 8, 9 and 10. |
| Diagnostics.StoreEnucAsWritten | Source/MaestroDiag.cpp:685-699 | As written, eleven values are stored from offset index*width. |
| Diagnostics.EnucAsWrittenAgreesForStar | Source/MaestroDiag.cpp:685-699 | For a star, the row as written is the file's line. |
| Diagnostics.PlanarEnucAsWrittenMisplacesTotal | Source/MaestroDiag.cpp:697-699 | In planar geometry, row slot 8 read back holds the radius, not the total nuclear energy. Radial velocity and the total overwrite the first two slots of the next row. |
| Diagnostics.PlanarEnucAsWrittenCounterexample | Source/MaestroDiag.cpp:697-699 | A concrete planar step with total 1 whose buffered row read back differs from the file's line. |
| PlanarDiagnostics.PlanarLevel | Source/MaestroDiag.cpp:106-378 | A planar level after the cross-process reduction has no centre cells, and its maxima and centre velocity have the grid's dimension. |
| PlanarDiagnostics.PlanarLevels | Source/MaestroDiag.cpp:100-378 | There is one level result per level, each the reduction of that level's processes, and every level's maxima and centre velocity have the grid's dimension. |
| PlanarDiagnostics.ProcessesSumOf | Source/MaestroDiag.cpp:294-298 | Per-process energies that match the reference process by process sum to the reference sum over the processes' kept cells. |
| PlanarDiagnostics.ProcessesSum | Source/MaestroDiag.cpp:212-298 | Summing the processes' energies of one level gives the sum over every process's kept cells of the level weight times the cell's density. |
| PlanarDiagnostics.LevelEnergy | Source/MaestroDiag.cpp:212-298 | A level's energy after the cross-process sum is that weighted sum, with covered cells masked out below the finest level. |
| PlanarDiagnostics.LevelsSum | Source/MaestroDiag.cpp:405-410 | Per-level energies that match the reference level by level sum, over levels 0..n-1, to the grid reference. |
| PlanarDiagnostics.GridEnergyOf | Source/MaestroDiag.cpp:100-410 | An energy summed over the planar levels is the sum over levels, processes and cells taking part of the level weight times the cell's density. |
| PlanarDiagnostics.PlanarLinesCarryIntegrals | Source/MaestroDiag.cpp:100-623 | At step 0 in planar geometry the kinetic, internal and nuclear columns of the lines are that whole-grid weighted sum scaled by the level-0 cell volume. The gravitational column is the value handed in. |
| PlanarDiagnostics.LevelZero | Source/MaestroDiag.cpp:479-481 | The level-0 entries `a[max_lev*r]` of the first n radii of a flattened profile, in order. |
| PlanarDiagnostics.PlanarGravSnoc | Source/MaestroDiag.cpp:479-482 | One more radius adds its term -rho0*r_cc*g*dr to the reference. |
| PlanarDiagnostics.PlanarGravEnergy | Source/MaestroDiag.cpp:476-483 | The planar loop over nr_fine radii computes minus the sum of rho0*r_cc*g*dr over the level-0 entries, with dr the difference of consecutive level-0 edges. |
| PlanarDiagnostics.GravNotPositive | Source/MaestroDiag.cpp:476-483 | With non-negative density, radius and gravitational constant and rising edges, the planar gravitational energy is <= 0. |
| PlanarDiagnostics.GravNotNegative | Source/MaestroDiag.cpp:476-483 | With non-negative density and radius, rising edges and a non-positive gravitational constant, the planar gravitational energy is >= 0. |

## Left out

- The numerical kernels are uninterpreted functions, with no property assumed of them:
  - the elliptic solve, `getFluxes` and `average_cellcenter_to_face`;
  - `mac_solver_rhs`, `Slope*` and `PPM`;
  - `React`, `make_w0`, `make_beta0`, `MakeGamma1bar`, `Make_S_cc`, `Average` as called from the step, and `make_grav_cell`;
  - the equation of state, `diag_sphr`, `sqrt`, and the spherical gravitational energy `diag_grav_energy_sphr`.

  Their bodies are not part of this model.
- Mesh infrastructure is not modelled, because it moves data between boxes and ghost cells without a decision rule of its own. This covers `FillPatch`, `FillBoundary`, `FillUmacGhost`, `AverageDown*` (only its order is modelled), `Put1dArrayOnCart` and `MakeS0mac`.
- MPI reductions and gathers, OpenMP/GPU regions and tiling: every reduction is a plain fold over a sequence of per-process or per-box values.
- Diagnostic file I/O: stream formatting, widths and precision, and file opening/appending. Lines are modelled as sequences of reals. The header lines are not modelled.
- Floating-point rounding and accuracy. Everything is over `real`, with no convergence or stability claim.
- Divisions the source performs unguarded are required to have non-zero divisors. These are by rho, dr, cell sizes, beta0 edges, the shell weight and the sound speed. A zero divisor there is a floating-point fault in the source and not a modelled path.
- Source/MaestroRhoHT.cpp is not part of this model. Its functions are thin wrappers over EOS kernels and fills.
- The spherical branch of `Average` beyond its buffer sizes is left out. `compute_radii_sphr`, `sum_phi_3d_sphr` and `average_sphr` are kernels.
- `ModifyScalForce` is modelled only for its spherical `divu` profile. The `modify_scal_force*` kernels are external.
- `MakeTempForce` is modelled only for its precondition. `mktempforce` is a kernel.
- `MakeVelForce` is modelled pointwise on a column or cell, not over boxes.
- `Advance.AdvanceTimeStep`:
  - Fields the step allocates but never writes are a caller-supplied scratch value, or `None` when the step leaves them unset. Examples are the state handed to the second reaction apart from its temperature, `thermal1`/`thermal2` with diffusion on, and `delta_p_term` with `dpdt_factor > 0`.
  - The diffusion, density, enthalpy and velocity advection stages are left out. They are kernel calls with no gating beyond the flags modelled here.
  - The state and profiles produced by the advection and diffusion stages are kernel outputs. The stage's own decisions about them are specified. These are the base-state pass-through or hand-over, the gamma1bar/beta0 rebuild, and the arguments of `make_w0` and `React`.
- `Diagnostics.DiagFile`: the gravitational energy is a parameter. Its planar value is the loop `PlanarDiagnostics.PlanarGravEnergy` models (MaestroDiag.cpp:476-483). The spherical value comes from `diag_grav_energy_sphr`, a kernel.
- `Diagnostics.LocalSummary`: a cell's speed, internal energy and sound speed are inputs. The source takes the speed from `u` with the cell average of w0 added to the vertical component (MaestroDiag.cpp:228-236), and the other two from the equation of state. `Diagnostics.HotSpotVelocity` states how that vertical component is formed for the recorded hot-spot velocity. The spherical per-cell scan `diag_sphr` is a kernel, so only the planar grid has a whole-grid energy lemma.
- `Diagnostics.TempCandidates` (and `Diagnostics.EnucCandidates`): a candidate's location and velocity have exactly the grid's dimension. In a 2-D build the source still writes a third component into the two-component vectors `coord_Tmax_local`, `vel_Tmax_local`, `coord_enucmax_local` and `vel_enucmax_local` (MaestroDiag.cpp:109-110, 244, 247, 260, 263). It also reads `prob_lo[2]`, `dx[2]` (line 219) and `u(i,j,k,2)`. This is out-of-bounds access in C++, whose effect the model does not represent. The model keeps only the in-bounds components, so its 2-D locations and velocities are what the source evidently means.
- `Diagnostics.Store`: the capacity of the three buffers is a precondition (`HasRoom`). The source sizes them elsewhere.
- `Diagnostics.Assemble`: the spherical radius and radial velocity of a hot spot are abstract functions of its location and velocity. The source computes them with `sqrt`.
- `BaseAverage.NcellVector`: every level uses the level-0 lateral count, as the source does (MaestroAverage.cpp:32, 39-42). On a refined level this is not that level's lateral cell count. Whether this is intended cannot be decided from this code alone, so it is modelled as written and not claimed as a finding.

## Findings

| source | as written | input that shows it | evidently intended | confidence | as-written member | corrected member |
|---|---|---|---|---|---|---|
| Source/MaestroMakeUtrans.cpp:243-248 | On a 2-D y lo wall, `vry = 0.0` is assigned twice and `vly` is never zeroed. | Slip wall at jlo, ppm_type 0, all cell values 0 and slope 2 in the ghost cell below the face: the left trace is 1 and the face velocity is 1. | Both states zeroed, so the face velocity into the wall is 0, as in every other wall case. | not executed | Upwind.YLoWallLeaksAsWritten | Upwind.WallFaceIsZero |
| Source/MaestroMakeUtrans.cpp:351-353 | A 3-D hi inflow face reads ghost cell i+1; the same pattern is at 450-451 and 547-548. | ihi = 7, inflow hi side, utilde(8) = 3 and utilde(9) = 5: the face velocity is 5. | The first ghost cell utilde(i), as the 2-D code and the lo side read. | not executed | Upwind.HiInflowReadsSecondGhostAsWritten | Upwind.InflowFaceIsGhostValue |
| Source/MaestroForce.cpp:530-541 | The 3-D planar enthalpy force averages `wmac(i,j,k)` with `wmac(i,j+1,k)` and differences `p0cart` in j while dividing by dx[2]. | Below the cutoff, rho0*g = 1, wmac = 2 only on the top face of cell (0,0): intended force 1, as written 0. | The vertical neighbours (k and k+1), as in the 2-D kernel. | not executed | Forces.PlanarRhoHForce3DAsWrittenDiffers | Forces.PlanarRhoHForce |
| Source/MaestroDiag.cpp:697-699 | The planar enuc row writes offsets 8 to 10 while the planar row width is 9. | Planar step with total nuclear energy 1 and radius 0: slot 8 of the row reads back 0, and the next row's first two slots are overwritten. | Eight values plus the total, matching the step-0 line. | not executed | Diagnostics.PlanarEnucAsWrittenCounterexample | Diagnostics.FlushAfterRun |
