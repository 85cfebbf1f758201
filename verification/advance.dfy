/** One time step (`AdvanceTimeStep`) as a function from the state on
    entry to the state on exit.

    The numerical stages (reactions, averaging, the base-state evolution
    `make_w0`, `make_beta0`, `MakeGamma1bar`, `Make_S_cc`) are kernels
    passed in; the model fixes what each is called with, in which order,
    and which stages the run-time flags switch to pass-through or zero.
    The calls to `make_w0` and `React` are returned as traces so that their
    arguments can be stated. Cell fields and base-state profiles are
    sequences of reals. The end of the step, where flux registers are
    filled and the levels synchronised, is modelled by two loops that
    produce the sequence of register operations. */
module Advance {
  import opened Common

  /** A value that may never have been written. */
  datatype Option<T> = None | Some(value: T)

  /** The state components the step touches: temperature, the perturbational
      pressure that travels along, and everything else. */
  datatype Scal = Scal(temp: seq<real>, pi: seq<real>, other: seq<real>)

  datatype Flags = Flags(evolveBaseState: bool, useThermalDiffusion: bool, dpdtFactor: real, doReflux: bool)

  /** Arguments of one `make_w0` call; `predictor` is its last argument. */
  datatype W0Call = W0Call(w0: seq<real>, w0Old: seq<real>, sbar: seq<real>,
                           rho0Old: seq<real>, rho0New: seq<real>, p0Old: seq<real>, p0New: seq<real>,
                           gamma1barOld: seq<real>, gamma1barNew: seq<real>,
                           p0MinusPeosbar: seq<real>, predictor: int)

  datatype W0Out = W0Out(w0: seq<real>, w0Force: seq<real>, deltaChiW0: seq<real>)

  /** Arguments of one `React` call over half a step. */
  datatype ReactCall = ReactCall(input: Scal, p0: seq<real>, dtReact: real)

  /** The reacted state and the reaction terms `Make_S_cc` reads. */
  datatype ReactOut = ReactOut(state: Scal, terms: seq<real>)

  datatype Kernels = Kernels(
    react: ReactCall -> ReactOut,
    average: seq<real> -> seq<real>,
    makeW0: W0Call -> W0Out,
    makeGamma1bar: (Scal, seq<real>) -> seq<real>,
    makeBeta0: (seq<real>, seq<real>, seq<real>, seq<real>) -> seq<real>,
    makeScc: (Scal, seq<real>, seq<real>) -> seq<real>)

  /** The state on entry. `rho0New`, `p0New`, `rhoh0New`, `beta0New` and
      `gamma1barNew` are whatever those profiles held before the step;
      `scratch` stands for the contents of a freshly defined state. */
  datatype StepIn = StepIn(tOld: real, dt: real, sold: Scal, sccOld: seq<real>, sccNew: seq<real>,
                           dSdt: seq<real>, rho0Old: seq<real>, p0Old: seq<real>, rhoh0Old: seq<real>,
                           beta0Old: seq<real>, gamma1barOld: seq<real>, w0: seq<real>,
                           rho0New: seq<real>, p0New: seq<real>, rhoh0New: seq<real>,
                           beta0New: seq<real>, gamma1barNew: seq<real>, gravCellNew: seq<real>,
                           profileSize: nat, scratch: Scal)

  /** Cell fields agree in size, the beta0 profiles and every profile
      `make_beta0` returns have the base-state size, and so do the
      cell-centred buffers the step allocates. */
  ghost predicate WellFormed(s: StepIn, k: Kernels) {
    && |s.sccOld| == |s.sccNew| == |s.dSdt|
    && |s.beta0Old| == |s.beta0New| == s.profileSize
    && forall a, b, c, d :: |k.makeBeta0(a, b, c, d)| == s.profileSize
  }

  datatype StepOut = StepOut(
    sccNphPredictor: seq<real>, sccNph: seq<real>, sccNew: seq<real>,
    p0MinusPeosbar: seq<real>, deltaPTerm: Option<seq<real>>,
    sbar: seq<real>, w0Force: seq<real>, w0Old: seq<real>, w0: seq<real>,
    rho0New: seq<real>, p0New: seq<real>, rhoh0New: seq<real>,
    beta0New: seq<real>, gamma1barNew: seq<real>, beta0Nph: seq<real>,
    thermal1: Option<seq<real>>, thermal2: Option<seq<real>>,
    s1: Scal, s2: Scal, snew: Scal,
    w0Calls: seq<W0Call>, reactCalls: seq<ReactCall>)

  // ---------------------------------------------------------------------
  // Stages
  // ---------------------------------------------------------------------

  /** The first time-centred expansion: the average of old and new on the
      first step (or a pressure iteration), the old value pushed half a
      step along `dSdt` afterwards. */
  function PredictorScc(tOld: real, dt: real, sOld: seq<real>, sNew: seq<real>, dSdt: seq<real>): (s: seq<real>)
    requires |sOld| == |sNew| == |dSdt|
    ensures |s| == |sOld|
    ensures tOld == 0.0 ==> forall i :: 0 <= i < |s| ==> s[i] - sOld[i] == sNew[i] - s[i]
    ensures tOld != 0.0 ==> forall i :: 0 <= i < |s| ==> s[i] - sOld[i] == 0.5 * dt * dSdt[i]
  {
    if tOld == 0.0 then Midpoint(sOld, sNew)
    else seq(|sOld|, i requires 0 <= i < |sOld| => 1.0 * sOld[i] + 0.5 * dt * dSdt[i])
  }

  /** When the expansion changes linearly over the step, extrapolating half a
      step gives the same time-centred value as averaging old and new. */
  lemma PredictorSccConsistent(tOld: real, dt: real, sOld: seq<real>, sNew: seq<real>, dSdt: seq<real>)
    requires |sOld| == |sNew| == |dSdt|
    requires forall i :: 0 <= i < |sOld| ==> sNew[i] == sOld[i] + dt * dSdt[i]
    ensures PredictorScc(tOld, dt, sOld, sNew, dSdt) == PredictorScc(0.0, dt, sOld, sNew, dSdt)
  {
    var a := PredictorScc(tOld, dt, sOld, sNew, dSdt);
    var b := PredictorScc(0.0, dt, sOld, sNew, dSdt);
    forall i | 0 <= i < |sOld| ensures a[i] == b[i] {
      assert b[i] - sOld[i] == sOld[i] + dt * dSdt[i] - b[i];
    }
  }

  /** The state handed to the second reaction: temperature seeded from the
      first reaction, the rest as allocated. */
  function SeedTemperature(s1: Scal, scratch: Scal): (s2: Scal)
    ensures s2.temp == s1.temp
  {
    scratch.(temp := s1.temp)
  }

  // ---------------------------------------------------------------------
  // The step
  // ---------------------------------------------------------------------

  /** Steps 1 and 2: react the old state for half a step, time-centre the
      expansion, and call `make_w0` as a predictor with the old base state
      in both the old and the new slots. */
  datatype Predicted = Predicted(react: ReactCall, s1: Scal, sccNph: seq<real>, call: W0Call,
                                 w0: seq<real>, w0Old: seq<real>)

  function Predict(f: Flags, k: Kernels, s: StepIn): (p: Predicted)
    requires |s.sccOld| == |s.sccNew| == |s.dSdt|
    ensures p.react == ReactCall(s.sold, s.p0Old, 0.5 * s.dt) && p.s1 == k.react(p.react).state
    ensures |p.sccNph| == |s.sccOld|
    ensures s.tOld == 0.0 ==> forall i :: 0 <= i < |s.sccOld| ==>
      p.sccNph[i] - s.sccOld[i] == s.sccNew[i] - p.sccNph[i]
    ensures p.call.predictor == 1 && p.call.w0 == s.w0 && p.call.w0Old == s.w0
    ensures p.call.sbar == k.average(p.sccNph)
    ensures p.call.rho0Old == s.rho0Old && p.call.rho0New == s.rho0Old
    ensures p.call.p0Old == s.p0Old && p.call.p0New == s.p0Old
    ensures p.call.gamma1barOld == s.gamma1barOld && p.call.gamma1barNew == s.gamma1barOld
    ensures AllZero(p.call.p0MinusPeosbar) && |p.call.p0MinusPeosbar| == s.profileSize
    ensures f.evolveBaseState ==> p.w0Old == s.w0 && p.w0 == k.makeW0(p.call).w0
    ensures !f.evolveBaseState ==> p.w0 == s.w0
  {
    var react1 := ReactCall(s.sold, s.p0Old, 0.5 * s.dt);
    var sccNph := PredictorScc(s.tOld, s.dt, s.sccOld, s.sccNew, s.dSdt);
    var call := W0Call(s.w0, s.w0, k.average(sccNph), s.rho0Old, s.rho0Old, s.p0Old, s.p0Old,
                       s.gamma1barOld, s.gamma1barOld, Zeros(s.profileSize), 1);
    Predicted(react1, k.react(react1).state, sccNph, call,
              if f.evolveBaseState then k.makeW0(call).w0 else s.w0,
              if f.evolveBaseState then s.w0 else Zeros(s.profileSize))
  }

  /** Steps 4 to 6: seed the temperature, react for the second half step
      with the pressure held on entry, rebuild gamma1bar and beta0 when the
      base state evolves, recompute the expansion and call `make_w0` as a
      corrector with the old and the new base state. */
  datatype Corrected = Corrected(rho0New: seq<real>, s2: Scal, react: ReactCall, gamma1barNew: seq<real>,
                                 beta0New: seq<real>, thermal2: Option<seq<real>>, sccNew: seq<real>,
                                 sccNph: seq<real>, call: W0Call, w0: seq<real>, w0Force: seq<real>,
                                 sbar: seq<real>)

  function Correct(f: Flags, k: Kernels, s: StepIn, p: Predicted): (c: Corrected)
    requires |s.sccOld| == |s.sccNew| == |s.dSdt|
    ensures c.rho0New == (if f.evolveBaseState then s.rho0New else s.rho0Old)
    ensures c.s2.temp == p.s1.temp
    ensures c.react == ReactCall(c.s2, s.p0New, 0.5 * s.dt)
    ensures !f.evolveBaseState ==> c.gamma1barNew == s.gamma1barOld && c.beta0New == s.beta0Old
    ensures !f.useThermalDiffusion <==> c.thermal2.Some?
    ensures c.thermal2.Some? ==> (AllZero(c.thermal2.value)
      && c.sccNew == k.makeScc(k.react(c.react).state, k.react(c.react).terms, c.thermal2.value))
    ensures |c.sccNph| == |s.sccOld| == |c.sccNew| ==> forall i :: 0 <= i < |s.sccOld| ==>
      c.sccNph[i] - s.sccOld[i] == c.sccNew[i] - c.sccNph[i]
    ensures c.call.predictor == 0 && c.call.w0 == p.w0 && c.call.w0Old == p.w0Old
    ensures c.call.sbar == k.average(c.sccNph) && c.call.p0MinusPeosbar == p.call.p0MinusPeosbar
    ensures c.call.rho0Old == s.rho0Old && c.call.rho0New == c.rho0New
    ensures c.call.p0Old == s.p0Old && c.call.p0New == s.p0New
    ensures c.call.gamma1barOld == s.gamma1barOld && c.call.gamma1barNew == c.gamma1barNew
    ensures f.evolveBaseState ==> c.w0 == k.makeW0(c.call).w0 && c.sbar == c.call.sbar
    ensures f.evolveBaseState ==> c.w0Force == k.makeW0(c.call).w0Force
    // gamma1bar and beta0 rebuilt from the second reaction's state and the entry pressure
    ensures f.evolveBaseState ==>
      && c.gamma1barNew == k.makeGamma1bar(k.react(c.react).state, s.p0New)
      && c.beta0New == k.makeBeta0(c.rho0New, s.p0New, c.gamma1barNew, s.gravCellNew)
    ensures !f.evolveBaseState ==> (c.w0 == p.w0
      && AllZero(c.sbar) && |c.sbar| == s.profileSize
      && AllZero(c.w0Force) && |c.w0Force| == s.profileSize)
  {
    var rho0New := if f.evolveBaseState then s.rho0New else s.rho0Old;
    var s2 := SeedTemperature(p.s1, s.scratch);
    var react2 := ReactCall(s2, s.p0New, 0.5 * s.dt);
    var out2 := k.react(react2);
    var gamma1barNew := if f.evolveBaseState then k.makeGamma1bar(out2.state, s.p0New) else s.gamma1barOld;
    var beta0New := if f.evolveBaseState then k.makeBeta0(rho0New, s.p0New, gamma1barNew, s.gravCellNew)
                    else s.beta0Old;
    var thermal2: Option<seq<real>> := if f.useThermalDiffusion then None else Some(Zeros(|s.sccOld|));
    var sccNew := k.makeScc(out2.state, out2.terms, if thermal2.Some? then thermal2.value else s.scratch.other);
    var sccNph := if |sccNew| == |s.sccOld| then Midpoint(s.sccOld, sccNew) else sccNew;
    var call := W0Call(p.w0, p.w0Old, k.average(sccNph), s.rho0Old, rho0New, s.p0Old, s.p0New,
                       s.gamma1barOld, gamma1barNew, p.call.p0MinusPeosbar, 0);
    var w0Out := k.makeW0(call);
    Corrected(rho0New, s2, react2, gamma1barNew, beta0New, thermal2, sccNew, sccNph, call,
              if f.evolveBaseState then w0Out.w0 else p.w0,
              if f.evolveBaseState then w0Out.w0Force else Zeros(s.profileSize),
              if f.evolveBaseState then call.sbar else Zeros(s.profileSize))
  }

  /** Steps 8 and 9: the final half-step reaction with the pressure of the
      new time, then gamma1bar and beta0 from its result when the base
      state evolves. */
  datatype Finished = Finished(p0New: seq<real>, react: ReactCall, snew: Scal,
                               gamma1barNew: seq<real>, beta0New: seq<real>)

  function Finish(f: Flags, k: Kernels, s: StepIn, c: Corrected): (e: Finished)
    ensures e.p0New == (if f.evolveBaseState then s.p0New else s.p0Old)
    ensures e.react == ReactCall(c.s2, e.p0New, 0.5 * s.dt) && e.snew == k.react(e.react).state
    ensures f.evolveBaseState ==>
      && e.gamma1barNew == k.makeGamma1bar(e.snew, e.p0New)
      && e.beta0New == k.makeBeta0(c.rho0New, e.p0New, e.gamma1barNew, s.gravCellNew)
    ensures !f.evolveBaseState ==> e.gamma1barNew == c.gamma1barNew && e.beta0New == c.beta0New
  {
    var p0New := if f.evolveBaseState then s.p0New else s.p0Old;
    var react3 := ReactCall(c.s2, p0New, 0.5 * s.dt);
    var snew := k.react(react3).state;
    var gamma1barNew := if f.evolveBaseState then k.makeGamma1bar(snew, p0New) else c.gamma1barNew;
    Finished(p0New, react3, snew, gamma1barNew,
             if f.evolveBaseState then k.makeBeta0(c.rho0New, p0New, gamma1barNew, s.gravCellNew)
             else c.beta0New)
  }

  /** `AdvanceTimeStep`: the two halves above, then steps 8 and 9 (the
      pressure and enthalpy profiles, the final reaction with the pressure
      of the new time, gamma1bar and beta0 once more, beta0 at the half
      step). */
  function AdvanceTimeStep(f: Flags, k: Kernels, s: StepIn): (o: StepOut)
    requires WellFormed(s, k)
    ensures |o.reactCalls| == 3
    // base-state evolution switched off: the base state passes through
    ensures !f.evolveBaseState ==>
      && AllZero(o.sbar) && |o.sbar| == s.profileSize
      && AllZero(o.w0Force) && |o.w0Force| == s.profileSize
      && o.rho0New == s.rho0Old && o.p0New == s.p0Old && o.rhoh0New == s.rhoh0Old
      && o.beta0New == s.beta0Old && o.gamma1barNew == s.gamma1barOld
      && o.w0Calls == [] && o.w0 == s.w0
    // base-state evolution on: a predictor and a corrector call of make_w0
    ensures f.evolveBaseState ==>
      && |o.w0Calls| == 2
      && o.w0Old == s.w0
      && o.w0Calls[0].predictor == 1 && o.w0Calls[1].predictor == 0
      && o.w0Calls[0].w0Old == s.w0 && o.w0Calls[1].w0Old == s.w0 && o.w0Calls[0].w0 == s.w0
      && o.w0Calls[0].rho0Old == s.rho0Old && o.w0Calls[0].rho0New == s.rho0Old
      && o.w0Calls[0].p0Old == s.p0Old && o.w0Calls[0].p0New == s.p0Old
      && o.w0Calls[0].gamma1barOld == s.gamma1barOld && o.w0Calls[0].gamma1barNew == s.gamma1barOld
      && o.w0Calls[1].rho0Old == s.rho0Old && o.w0Calls[1].rho0New == o.rho0New
      && o.w0Calls[1].p0Old == s.p0Old && o.w0Calls[1].p0New == o.p0New
      && o.w0Calls[1].gamma1barOld == s.gamma1barOld
      && o.w0Calls[0].sbar == k.average(o.sccNphPredictor)
      && o.w0Calls[1].sbar == k.average(o.sccNph) && o.sbar == o.w0Calls[1].sbar
      && o.w0Calls[1].w0 == k.makeW0(o.w0Calls[0]).w0
      && o.w0 == k.makeW0(o.w0Calls[1]).w0
      && o.w0Force == k.makeW0(o.w0Calls[1]).w0Force
      && o.w0Calls[0].p0MinusPeosbar == o.p0MinusPeosbar && o.w0Calls[1].p0MinusPeosbar == o.p0MinusPeosbar
      && o.w0Calls[1].gamma1barNew == k.makeGamma1bar(k.react(o.reactCalls[1]).state, s.p0New)
    // without the dp/dt correction its terms are zero
    ensures AllZero(o.p0MinusPeosbar) && |o.p0MinusPeosbar| == s.profileSize
    ensures f.dpdtFactor <= 0.0 <==> o.deltaPTerm.Some?
    ensures o.deltaPTerm.Some? ==> AllZero(o.deltaPTerm.value)
    // without thermal diffusion there is no thermal forcing
    ensures !f.useThermalDiffusion <==> o.thermal1.Some?
    ensures !f.useThermalDiffusion <==> o.thermal2.Some?
    ensures o.thermal1.Some? ==> AllZero(o.thermal1.value)
    ensures o.thermal2.Some? ==> (AllZero(o.thermal2.value)
      && o.sccNew == k.makeScc(k.react(o.reactCalls[1]).state, k.react(o.reactCalls[1]).terms, o.thermal2.value))
    // the expansion is time-centred twice
    ensures |o.sccNphPredictor| == |s.sccOld|
    ensures s.tOld == 0.0 ==> forall i :: 0 <= i < |s.sccOld| ==>
      o.sccNphPredictor[i] - s.sccOld[i] == s.sccNew[i] - o.sccNphPredictor[i]
    ensures |o.sccNph| == |s.sccOld| == |o.sccNew| ==> forall i :: 0 <= i < |s.sccOld| ==>
      o.sccNph[i] - s.sccOld[i] == o.sccNew[i] - o.sccNph[i]
    // beta0 at the half step
    ensures |o.beta0Nph| == s.profileSize == |o.beta0New|
    ensures forall i :: 0 <= i < s.profileSize ==> o.beta0Nph[i] - s.beta0Old[i] == o.beta0New[i] - o.beta0Nph[i]
  {
    var p := Predict(f, k, s);
    var c := Correct(f, k, s, p);
    var e := Finish(f, k, s, c);
    StepOut(p.sccNph, c.sccNph, c.sccNew, p.call.p0MinusPeosbar,
            if f.dpdtFactor <= 0.0 then Some(Zeros(|s.sccOld|)) else None,
            c.sbar, c.w0Force, p.w0Old, c.w0,
            c.rho0New, e.p0New, if f.evolveBaseState then s.rhoh0New else s.rhoh0Old,
            e.beta0New, e.gamma1barNew, Midpoint(s.beta0Old, e.beta0New),
            if f.useThermalDiffusion then None else Some(Zeros(|s.sccOld|)), c.thermal2,
            p.s1, c.s2, e.snew, if f.evolveBaseState then [p.call, c.call] else [], [p.react, c.react, e.react])
  }

  /** The three half-step reactions of a step: the old state with the old
      pressure, then the temperature-seeded state twice, first with the
      pressure held on entry and last with the pressure of the new time. */
  lemma StepReactions(f: Flags, k: Kernels, s: StepIn)
    requires WellFormed(s, k)
    ensures var o := AdvanceTimeStep(f, k, s);
      && (forall j :: 0 <= j < 3 ==> o.reactCalls[j].dtReact == 0.5 * s.dt)
      && o.reactCalls[0].input == s.sold && o.reactCalls[0].p0 == s.p0Old
      && o.reactCalls[1].input == o.s2 && o.reactCalls[1].p0 == s.p0New
      && o.reactCalls[2].input == o.s2 && o.reactCalls[2].p0 == o.p0New
      && o.s1 == k.react(o.reactCalls[0]).state && o.s2.temp == o.s1.temp
      && o.snew == k.react(o.reactCalls[2]).state
  {
  }

  /** With the base state evolving, the new-time profiles are the ones held
      on entry, and step 9 rebuilds gamma1bar and beta0 from the final
      state. */
  lemma EvolvedBaseState(f: Flags, k: Kernels, s: StepIn)
    requires WellFormed(s, k) && f.evolveBaseState
    ensures var o := AdvanceTimeStep(f, k, s);
      && o.rho0New == s.rho0New && o.p0New == s.p0New && o.rhoh0New == s.rhoh0New
      && o.gamma1barNew == k.makeGamma1bar(o.snew, o.p0New)
      && o.beta0New == k.makeBeta0(o.rho0New, o.p0New, o.gamma1barNew, s.gravCellNew)
  {
  }

  /** Without base-state evolution beta0 at the half step is beta0 itself. */
  lemma SteadyBaseKeepsBeta0(f: Flags, k: Kernels, s: StepIn)
    requires WellFormed(s, k) && !f.evolveBaseState
    ensures AdvanceTimeStep(f, k, s).beta0Nph == s.beta0Old
  {
    MidpointOfEqual(s.beta0Old);
  }

  // ---------------------------------------------------------------------
  // Flux registers and synchronisation
  // ---------------------------------------------------------------------

  /** An operation on flux register `reg` (the one between levels `reg` and
      `reg - 1`) in direction `dir`, with the scale it is applied with. */
  datatype RegOp = CrseInit(reg: nat, dir: nat, scale: real) | FineAdd(reg: nat, dir: nat, scale: real)

  /** The register operations of one level: as the coarse side of the
      register above it, then as the fine side of its own register. */
  function LevelRegOps(lev: nat, finest: nat, dims: nat): (ops: seq<RegOp>)
    ensures |ops| == (if lev < finest then dims else 0) + (if lev > 0 then dims else 0)
  {
    (if lev < finest then CrseOps(lev, dims) else []) + (if lev > 0 then FineOps(lev, dims) else [])
  }

  /** Level `lev` as the coarse side of register `lev + 1`, direction by direction. */
  function CrseOps(lev: nat, dims: nat): (ops: seq<RegOp>)
    ensures |ops| == dims && forall i :: 0 <= i < dims ==> ops[i] == CrseInit(lev + 1, i, -1.0)
  {
    seq(dims, i requires 0 <= i < dims => CrseInit(lev + 1, i, -1.0))
  }

  /** Level `lev` as the fine side of its own register, direction by direction. */
  function FineOps(lev: nat, dims: nat): (ops: seq<RegOp>)
    ensures |ops| == dims && forall i :: 0 <= i < dims ==> ops[i] == FineAdd(lev, i, 1.0)
  {
    seq(dims, i requires 0 <= i < dims => FineAdd(lev, i, 1.0))
  }

  /** The register operations of levels `0..upTo-1`, level by level. */
  function RegOpsUpTo(upTo: nat, finest: nat, dims: nat): seq<RegOp>
    decreases upTo
  {
    if upTo == 0 then [] else RegOpsUpTo(upTo - 1, finest, dims) + LevelRegOps(upTo - 1, finest, dims)
  }

  /** Every operation of the level loop is a coarse-side initialisation of
      register `lev + 1` with scale -1 from a level below the finest, or a
      fine-side addition to register `lev` with scale +1 from a level above
      0, in a direction of the grid. */
  lemma {:induction false} RegOpsShape(upTo: nat, finest: nat, dims: nat)
    ensures forall op :: op in RegOpsUpTo(upTo, finest, dims) ==>
      && op.dir < dims
      && (op.CrseInit? ==> op.scale == -1.0 && 1 <= op.reg <= finest && op.reg <= upTo)
      && (op.FineAdd? ==> op.scale == 1.0 && 1 <= op.reg < upTo)
  {
    if upTo > 0 {
      RegOpsShape(upTo - 1, finest, dims);
      LevelRegOpsShape(upTo - 1, finest, dims);
    }
  }

  /** The operations of level `lev` alone. */
  lemma LevelRegOpsShape(lev: nat, finest: nat, dims: nat)
    ensures forall op :: op in LevelRegOps(lev, finest, dims) ==>
      && op.dir < dims
      && (op.CrseInit? ==> op.scale == -1.0 && 1 <= op.reg <= finest && op.reg == lev + 1)
      && (op.FineAdd? ==> op.scale == 1.0 && 1 <= op.reg == lev)
  {
  }

  /** With refluxing on, every register between two existing levels gets
      both its coarse-side and its fine-side contribution in every
      direction. */
  lemma {:induction false} RegOpsComplete(upTo: nat, finest: nat, dims: nat, reg: nat, dir: nat)
    requires 1 <= reg <= finest && dir < dims && reg < upTo
    ensures CrseInit(reg, dir, -1.0) in RegOpsUpTo(upTo, finest, dims)
    ensures FineAdd(reg, dir, 1.0) in RegOpsUpTo(upTo, finest, dims)
  {
    if upTo - 1 == reg {
      assert FineAdd(reg, dir, 1.0) == LevelRegOps(reg, finest, dims)[(if reg < finest then dims else 0) + dir];
      RegOpsCrseInit(upTo - 1, finest, dims, reg, dir);
    } else {
      RegOpsComplete(upTo - 1, finest, dims, reg, dir);
    }
  }

  lemma {:induction false} RegOpsCrseInit(upTo: nat, finest: nat, dims: nat, reg: nat, dir: nat)
    requires 1 <= reg <= finest && dir < dims && reg <= upTo
    ensures CrseInit(reg, dir, -1.0) in RegOpsUpTo(upTo, finest, dims)
  {
    if upTo == reg {
      assert CrseInit(reg, dir, -1.0) == LevelRegOps(reg - 1, finest, dims)[dir];
    } else {
      RegOpsCrseInit(upTo - 1, finest, dims, reg, dir);
    }
  }

  /** The direction loop of a level below the finest: `CrseInit` of the
      register above in each direction. */
  method AppendCrseInits(before: seq<RegOp>, lev: nat, dims: nat) returns (ops: seq<RegOp>)
    ensures ops == before + CrseOps(lev, dims)
  {
    ops := before;
    var i := 0;
    while i < dims
      invariant 0 <= i <= dims
      invariant ops == before + CrseOps(lev, dims)[..i]
    {
      assert CrseOps(lev, dims)[..i + 1] == CrseOps(lev, dims)[..i] + [CrseInit(lev + 1, i, -1.0)];
      ops := ops + [CrseInit(lev + 1, i, -1.0)];
      i := i + 1;
    }
    assert CrseOps(lev, dims)[..i] == CrseOps(lev, dims);
  }

  /** The direction loop of a level above 0: `FineAdd` to its own register
      in each direction. */
  method AppendFineAdds(before: seq<RegOp>, lev: nat, dims: nat) returns (ops: seq<RegOp>)
    ensures ops == before + FineOps(lev, dims)
  {
    ops := before;
    var i := 0;
    while i < dims
      invariant 0 <= i <= dims
      invariant ops == before + FineOps(lev, dims)[..i]
    {
      assert FineOps(lev, dims)[..i + 1] == FineOps(lev, dims)[..i] + [FineAdd(lev, i, 1.0)];
      ops := ops + [FineAdd(lev, i, 1.0)];
      i := i + 1;
    }
    assert FineOps(lev, dims)[..i] == FineOps(lev, dims);
  }

  /** The level loop at the end of the step: with refluxing on, each level
      from 0 to the finest adds its register operations in turn. */
  method FillFluxRegisters(finest: nat, dims: nat, doReflux: bool) returns (ops: seq<RegOp>)
    ensures doReflux ==> ops == RegOpsUpTo(finest + 1, finest, dims)
    ensures !doReflux ==> ops == []
  {
    ops := [];
    var lev := 0;
    while lev <= finest
      invariant 0 <= lev <= finest + 1
      invariant ops == (if doReflux then RegOpsUpTo(lev, finest, dims) else [])
    {
      if doReflux {
        ops := LevelOps(ops, lev, finest, dims);
      }
      lev := lev + 1;
    }
  }

  /** The body of the level loop with refluxing on: level `lev`'s
      coarse-side operations, then its fine-side ones. */
  method LevelOps(before: seq<RegOp>, lev: nat, finest: nat, dims: nat) returns (ops: seq<RegOp>)
    ensures ops == before + LevelRegOps(lev, finest, dims)
  {
    var crse := if lev < finest then CrseOps(lev, dims) else [];
    var fine := if lev > 0 then FineOps(lev, dims) else [];
    ops := before;
    if lev < finest {
      ops := AppendCrseInits(ops, lev, dims);
    }
    assert ops == before + crse;
    if lev > 0 {
      ops := AppendFineAdds(ops, lev, dims);
    }
    assert ops == before + crse + fine;
  }

  /** A synchronisation operation: refluxing register `reg` into level
      `target`, or averaging level `from` down onto level `to`. */
  datatype SyncOp = Reflux(reg: nat, target: nat) | AverageDown(from: nat, to: nat)

  /** The synchronisation of one level pair `lev + 1 / lev`. */
  function SyncPair(lev: nat, doReflux: bool): (ops: seq<SyncOp>)
    ensures |ops| == (if doReflux then 2 else 1)
    ensures ops[|ops| - 1] == AverageDown(lev + 1, lev)
  {
    (if doReflux then [Reflux(lev + 1, lev)] else []) + [AverageDown(lev + 1, lev)]
  }

  /** Reference order: level pairs from `top - 1` down to 0. */
  function SyncFrom(top: nat, doReflux: bool): seq<SyncOp>
    decreases top
  {
    if top == 0 then [] else SyncPair(top - 1, doReflux) + SyncFrom(top - 1, doReflux)
  }

  /** The synchronisation loop, from the finest pair down to level 0. */
  method Synchronize(finest: nat, doReflux: bool) returns (ops: seq<SyncOp>)
    ensures ops == SyncFrom(finest, doReflux)
  {
    ops := [];
    var top: nat := finest;
    while top > 0
      invariant top <= finest
      invariant ops + SyncFrom(top, doReflux) == SyncFrom(finest, doReflux)
    {
      var lev := top - 1;
      var pair := SyncLevel(lev, doReflux);
      SyncFromStep(ops, top, doReflux);
      ops := ops + pair;
      top := lev;
    }
  }

  /** The body of the synchronisation loop for the pair `lev + 1 / lev`. */
  method SyncLevel(lev: nat, doReflux: bool) returns (pair: seq<SyncOp>)
    ensures pair == SyncPair(lev, doReflux)
  {
    pair := [];
    if doReflux {
      pair := pair + [Reflux(lev + 1, lev)];
    }
    pair := pair + [AverageDown(lev + 1, lev)];
  }

  lemma SyncFromStep(ops: seq<SyncOp>, top: nat, doReflux: bool)
    requires top > 0
    ensures ops + SyncFrom(top, doReflux) == ops + SyncPair(top - 1, doReflux) + SyncFrom(top - 1, doReflux)
  {
    assert SyncFrom(top, doReflux) == SyncPair(top - 1, doReflux) + SyncFrom(top - 1, doReflux);
  }

  /** Where the pair `j + 1 / j` starts in `SyncFrom(top, doReflux)`. */
  function PairStart(top: nat, j: nat, doReflux: bool): nat
    requires j < top
  {
    if doReflux then 2 * (top - 1 - j) else top - 1 - j
  }

  /** Each level pair takes one or two operations. */
  lemma {:induction false} SyncLength(top: nat, doReflux: bool)
    ensures |SyncFrom(top, doReflux)| == top * (if doReflux then 2 else 1)
  {
    if top > 0 {
      SyncLength(top - 1, doReflux);
    }
  }

  /** The pairs are visited from the finest down, each exactly once, and
      within a pair the reflux into level `j` comes right before the
      average-down onto it. */
  lemma SyncOrder(top: nat, doReflux: bool)
    ensures forall j :: 0 <= j < top ==>
      var w := if doReflux then 2 else 1;
      PairStart(top, j, doReflux) + w <= |SyncFrom(top, doReflux)| &&
      SyncFrom(top, doReflux)[PairStart(top, j, doReflux)..PairStart(top, j, doReflux) + w] == SyncPair(j, doReflux)
  {
    forall j | 0 <= j < top
      ensures var w := if doReflux then 2 else 1;
        PairStart(top, j, doReflux) + w <= |SyncFrom(top, doReflux)| &&
        SyncFrom(top, doReflux)[PairStart(top, j, doReflux)..PairStart(top, j, doReflux) + w] == SyncPair(j, doReflux)
    {
      SyncPairAt(top, j, doReflux);
    }
  }

  /** The pair `j + 1 / j` sits at `PairStart(top, j, doReflux)`. */
  lemma {:induction false} SyncPairAt(top: nat, j: nat, doReflux: bool)
    requires j < top
    ensures var w := if doReflux then 2 else 1;
      PairStart(top, j, doReflux) + w <= |SyncFrom(top, doReflux)| &&
      SyncFrom(top, doReflux)[PairStart(top, j, doReflux)..PairStart(top, j, doReflux) + w] == SyncPair(j, doReflux)
    decreases top
  {
    var w := if doReflux then 2 else 1;
    var head := SyncPair(top - 1, doReflux);
    var rest := SyncFrom(top - 1, doReflux);
    var all := SyncFrom(top, doReflux);
    assert all == head + rest;
    assert |head| == w;
    if j == top - 1 {
      assert PairStart(top, j, doReflux) == 0;
      SliceOfConcat(head, rest, 0, w);
    } else {
      SyncPairAt(top - 1, j, doReflux);
      var p := PairStart(top - 1, j, doReflux);
      assert PairStart(top, j, doReflux) == p + w;
      SliceOfConcat(head, rest, p + w, w);
    }
  }

  /** A slice of `head + rest` lying wholly in `head` or wholly in `rest`. */
  lemma SliceOfConcat<T>(head: seq<T>, rest: seq<T>, at: nat, w: nat)
    requires at + w <= |head| || (|head| <= at && at + w <= |head| + |rest|)
    ensures at + w <= |head| ==> (head + rest)[at..at + w] == head[at..at + w]
    ensures |head| <= at ==> (head + rest)[at..at + w] == rest[at - |head|..at - |head| + w]
  {
    if |head| <= at {
      assert (head + rest)[at..at + w] == rest[at - |head|..at - |head| + w];
    }
  }

  /** Nothing else happens: every operation refluxes a register into the
      level just below it or averages a level onto the one just below it,
      and only levels below `top` receive anything. */
  lemma {:induction false} SyncOnlyAdjacent(top: nat, doReflux: bool)
    ensures forall q :: 0 <= q < |SyncFrom(top, doReflux)| ==>
      match SyncFrom(top, doReflux)[q]
      case Reflux(reg, target) => doReflux && reg == target + 1 && target < top
      case AverageDown(from, to) => from == to + 1 && to < top
  {
    if top > 0 {
      SyncOnlyAdjacent(top - 1, doReflux);
      var w := if doReflux then 2 else 1;
      var rest := SyncFrom(top - 1, doReflux);
      var all := SyncFrom(top, doReflux);
      assert all == SyncPair(top - 1, doReflux) + rest;
      forall q | 0 <= q < |all|
        ensures match all[q]
          case Reflux(reg, target) => doReflux && reg == target + 1 && target < top
          case AverageDown(from, to) => from == to + 1 && to < top
      {
        if q >= w {
          assert all[q] == rest[q - w];
        }
      }
    }
  }
}
