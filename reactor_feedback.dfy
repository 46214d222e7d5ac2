/** The simulated reactor feedback of the heater client: the heater inlet
    temperature deviation drives three transfer functions, one in parallel
    (part 1) and two in series (part 2 feeding part 3); their gained outputs
    plus an 8 kW bias give the heater power, clamped at zero. A fourth
    transfer function gives the reference outlet temperature. Powers are in
    watts, temperatures in degrees Celsius, intervals in kelvin. */
module ReactorFeedback {
  import opened Wrappers
  import opened TransferFunctions

  /** Gain of the parallel (second-order) branch, in W/K. */
  const Part1GainWPerK: real := 3401.36
  /** Gain of the series (first-order then second-order) branch, in W/K. */
  const Part3GainWPerK: real := -340.136
  /** The interval that makes the deviation dimensionless. */
  const OneKelvin: real := 1.0
  /** The constant power added to both branches: 8 kW. */
  const PowerBiasW: real := 8000.0
  /** The reference outlet temperature at zero deviation. */
  const ReferenceOutletDegC: real := 102.41
  /** The outlet temperature the deviation is measured from. */
  const Bt12SteadyStateDegC: real := 79.12

  /** The deviation fed to the transfer functions: measured from the outlet
      temperature bt12, although the source names it after the inlet bt11. */
  function Deviation(bt12DegC: real): (dev: real)
    ensures dev + Bt12SteadyStateDegC == bt12DegC
  {
    bt12DegC - Bt12SteadyStateDegC
  }

  /** The deviation as a ratio to one kelvin. */
  function DimensionlessInput(deviationK: real): (u: real)
    ensures u * OneKelvin == deviationK
  {
    deviationK / OneKelvin
  }

  /** The unclamped power signal for the outputs `y1` of part 1 and `y3` of
      part 3. */
  function PowerSignalW(y1: real, y3: real): (s: real)
    ensures s - PowerBiasW == Part1GainWPerK * y1 + Part3GainWPerK * y3
  {
    Part1GainWPerK * OneKelvin * y1 + Part3GainWPerK * OneKelvin * y3 + PowerBiasW
  }

  /** The returned power: the signal, or exactly zero when it is negative. */
  function ReactorPowerW(y1: real, y3: real): (p: real)
    ensures p >= 0.0 && p >= PowerSignalW(y1, y3)
    ensures p == PowerSignalW(y1, y3) || p == 0.0
  {
    var signal := PowerSignalW(y1, y3);
    if signal < 0.0 then 0.0 else signal
  }

  /** The reference outlet temperature for the output `y` of its transfer
      function. */
  function ExpectedOutletDegC(y: real): (t: real)
    ensures t - ReferenceOutletDegC == y * OneKelvin
  {
    ReferenceOutletDegC + y * OneKelvin
  }

  /** The power is never negative, and it is zero exactly when the signal is
      at or below zero; above zero it is the signal itself. */
  lemma PowerClamp(y1: real, y3: real)
    ensures ReactorPowerW(y1, y3) == 0.0 <==> PowerSignalW(y1, y3) <= 0.0
    ensures PowerSignalW(y1, y3) > 0.0 ==> ReactorPowerW(y1, y3) == PowerSignalW(y1, y3)
  {
  }

  /** Whenever the gained outputs of the two branches cancel, in particular
      with both transfer functions at rest, the heater gets the bias, 8 kW. */
  lemma BalancedBranchesGiveBias(y1: real, y3: real)
    requires Part1GainWPerK * y1 + Part3GainWPerK * y3 == 0.0
    ensures ReactorPowerW(y1, y3) == PowerBiasW
    ensures ReactorPowerW(0.0, 0.0) == PowerBiasW
  {
  }

  /** The power rises with the parallel branch's output and falls with the
      series branch's output (its gain is negative). */
  lemma PowerMonotone(y1: real, y3: real, y1': real, y3': real)
    requires y1 <= y1' && y3' <= y3
    ensures ReactorPowerW(y1, y3) <= ReactorPowerW(y1', y3')
  {
    assert Part1GainWPerK * y1 <= Part1GainWPerK * y1';
    assert Part3GainWPerK * y3 <= Part3GainWPerK * y3';
  }

  /** A parallel-branch output at or below -2.36, with a series-branch
      output that is not negative, drives the signal below zero (3401.36 *
      2.36 exceeds 8000), so the heater is switched off rather than given
      negative power. */
  lemma StrongNegativeFeedbackSwitchesOff(y1: real, y3: real)
    requires y1 <= -2.36 && y3 >= 0.0
    ensures PowerSignalW(y1, y3) < 0.0
    ensures ReactorPowerW(y1, y3) == 0.0
  {
    assert Part1GainWPerK * y1 <= Part1GainWPerK * -2.36;
    assert Part3GainWPerK * y3 <= 0.0;
  }

  /** The histories of the three transfer functions of the feedback. */
  datatype Branches = Branches(h1: seq<Sample>, h2: seq<Sample>, h3: seq<Sample>)

  /** One call of `get_reactor_feedback` on transfer functions with the
      responses `r1`, `r2`, `r3` and the histories `b`: the new histories and
      the power, `None` when a transfer function reports an error (the
      source panics there, before advancing the later parts). */
  function FeedbackStep(u: real, t: real, r1: seq<Sample> -> Option<real>, r2: seq<Sample> -> Option<real>,
                        r3: seq<Sample> -> Option<real>, b: Branches): (r: (Branches, Option<real>))
    ensures r.0.h1 == b.h1 + [Sample(u, t)]
    ensures r.0.h2 == b.h2 || r.0.h2 == b.h2 + [Sample(u, t)]
    ensures r.0.h3 == b.h3 || (|r.0.h3| == |b.h3| + 1 && r.0.h3[..|b.h3|] == b.h3)
    ensures r.1.Some? ==> r.1.value >= 0.0 && r.0.h2 == b.h2 + [Sample(u, t)] && |r.0.h3| == |b.h3| + 1
  {
    var h1 := b.h1 + [Sample(u, t)];
    if r1(h1).None? then (Branches(h1, b.h2, b.h3), None)
    else
      var h2 := b.h2 + [Sample(u, t)];
      if r2(h2).None? then (Branches(h1, h2, b.h3), None)
      else
        var h3 := b.h3 + [Sample(r2(h2).value, t)];
        if r3(h3).None? then (Branches(h1, h2, h3), None)
        else (Branches(h1, h2, h3), Some(ReactorPowerW(r1(h1).value, r3(h3).value)))
  }

  /** The wiring of the feedback: parts 1 and 2 receive the same input `u`,
      part 3 receives part 2's output and not `u`, each part is advanced by
      one sample exactly when every part before it succeeded, and the power
      is the clamped gained sum of the outputs of parts 1 and 3, so never
      negative. */
  lemma FeedbackWiring(u: real, t: real, r1: seq<Sample> -> Option<real>, r2: seq<Sample> -> Option<real>,
                       r3: seq<Sample> -> Option<real>, b: Branches)
    ensures var (b', power) := FeedbackStep(u, t, r1, r2, r3, b);
      && b'.h1 == b.h1 + [Sample(u, t)]
      && (r1(b'.h1).Some? ==> b'.h2 == b.h2 + [Sample(u, t)])
      && (r1(b'.h1).None? ==> b'.h2 == b.h2 && b'.h3 == b.h3 && power.None?)
      && (r1(b'.h1).Some? && r2(b'.h2).Some? ==> b'.h3 == b.h3 + [Sample(r2(b'.h2).value, t)])
      && (r1(b'.h1).Some? && r2(b'.h2).None? ==> b'.h3 == b.h3 && power.None?)
      && (power.Some? <==> r1(b'.h1).Some? && r2(b'.h2).Some? && r3(b'.h3).Some?)
      && (power.Some? ==> power.value == ReactorPowerW(r1(b'.h1).value, r3(b'.h3).value))
      && (power.Some? ==> power.value >= 0.0)
  {
  }

  /** `get_reactor_feedback`: feeds `u = deviation / 1 K` to parts 1 and 2,
      part 2's output to part 3, and returns the clamped power. `None`
      stands for the panic of a transfer function reporting an error. */
  method GetReactorFeedback(deviationK: real, timeS: real, part1: TransferFn, part2: TransferFn, part3: TransferFn)
    returns (powerW: Option<real>)
    requires part1 != part2 && part2 != part3 && part1 != part3
    modifies part1, part2, part3
    ensures (Branches(part1.history, part2.history, part3.history), powerW)
         == FeedbackStep(DimensionlessInput(deviationK), timeS, part1.response, part2.response, part3.response,
                         Branches(old(part1.history), old(part2.history), old(part3.history)))
  {
    var u := DimensionlessInput(deviationK);
    var y1 := part1.SetUserInputAndCalc(u, timeS);
    if y1.None? {
      return None;
    }
    var y2 := part2.SetUserInputAndCalc(u, timeS);
    if y2.None? {
      return None;
    }
    var y3 := part3.SetUserInputAndCalc(y2.value, timeS);
    if y3.None? {
      return None;
    }
    powerW := Some(ReactorPowerW(y1.value, y3.value));
  }

  /** `get_expected_temperature`: feeds `u = deviation / 1 K` to the
      reference transfer function and returns 102.41 degrees Celsius plus its
      output in kelvin; `None` stands for the panic of a failed step. */
  method GetExpectedTemperature(deviationK: real, timeS: real, reference: TransferFn)
    returns (outletDegC: Option<real>)
    modifies reference
    ensures reference.history == old(reference.history) + [Sample(DimensionlessInput(deviationK), timeS)]
    ensures var y := reference.response(reference.history);
      && (outletDegC.Some? <==> y.Some?)
      && (outletDegC.Some? ==> outletDegC.value == ExpectedOutletDegC(y.value))
  {
    var y := reference.SetUserInputAndCalc(DimensionlessInput(deviationK), timeS);
    if y.None? {
      return None;
    }
    outletDegC := Some(ExpectedOutletDegC(y.value));
  }
}
