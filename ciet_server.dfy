/** The server's polling actions, as far as they are not foreign numerics:
    the decoding of the three valve switches, the valve-gated pressure-drop
    error budget (squares of the branch errors, summed under the valve
    combinations that open each branch), the `u16` timing arithmetic, and
    the one-decimal rounding of the published heater outlet temperature.
    The flowrate solvers, the error estimates for a branch and the heater
    simulation are parameters. Square roots are not taken: the budget is
    stated on the squared quantities. */
module CietServer {
  import opened Wrappers
  import opened Rounding
  import opened Telemetry

  const HeaterBranchValveOpen: string := "heater_branch_valve_open"
  const DhxBranchValveOpen: string := "dhx_branch_valve_open"
  const CtahBranchValveOpen: string := "ctah_branch_valve_open"
  const CiEtObjConstructionTime: string := "ciet_obj_construction_time"
  const ConstructionTimePlusCalcTime: string := "construction_time_plus_calc_time"

  // ---------------------------------------------------------------------
  // Valves
  // ---------------------------------------------------------------------

  /** `match_true_false`: a `Boolean` variant gives its value; any other
      variant panics, here `None`. */
  function MatchTrueFalse(v: Variant): (r: Option<bool>)
    ensures r.Some? <==> v.Boolean?
    ensures r.Some? ==> (r.value <==> v == Boolean(true))
  {
    match v
    case Boolean(b) => Some(b)
    case _ => None
  }

  /** Which branch valves are open. */
  datatype Valves = Valves(ctah: bool, heater: bool, dhx: bool)

  /** The value a node holds, `None` for the `unwrap` of a missing node. */
  function NodeValue(space: AddressSpace, node: NodeId): Option<Variant>
  {
    if node in space then Some(space[node]) else None
  }

  /** The three valve switches as the polling action reads them, in the
      order heater, DHX, CTAH; `None` for a missing node or a non-Boolean
      value, where the action panics. */
  function ReadValves(space: AddressSpace, ns: nat): (r: Option<Valves>)
    ensures r.Some? <==>
      && NodeValue(space, NodeId(ns, HeaterBranchValveOpen)).Some? && NodeValue(space, NodeId(ns, HeaterBranchValveOpen)).value.Boolean?
      && NodeValue(space, NodeId(ns, DhxBranchValveOpen)).Some? && NodeValue(space, NodeId(ns, DhxBranchValveOpen)).value.Boolean?
      && NodeValue(space, NodeId(ns, CtahBranchValveOpen)).Some? && NodeValue(space, NodeId(ns, CtahBranchValveOpen)).value.Boolean?
  {
    var heater := NodeValue(space, NodeId(ns, HeaterBranchValveOpen));
    if heater.None? || MatchTrueFalse(heater.value).None? then None
    else
      var dhx := NodeValue(space, NodeId(ns, DhxBranchValveOpen));
      if dhx.None? || MatchTrueFalse(dhx.value).None? then None
      else
        var ctah := NodeValue(space, NodeId(ns, CtahBranchValveOpen));
        if ctah.None? || MatchTrueFalse(ctah.value).None? then None
        else Some(Valves(MatchTrueFalse(ctah.value).value, MatchTrueFalse(heater.value).value, MatchTrueFalse(dhx.value).value))
  }

  /** Writing the switches as `Boolean` variants and reading them back gives
      the same valve settings. */
  lemma ValvesRoundTrip(space: AddressSpace, ns: nat, v: Valves)
    ensures ReadValves(space[NodeId(ns, HeaterBranchValveOpen) := Boolean(v.heater)]
                           [NodeId(ns, DhxBranchValveOpen) := Boolean(v.dhx)]
                           [NodeId(ns, CtahBranchValveOpen) := Boolean(v.ctah)], ns) == Some(v)
  {
    var heater, dhx, ctah := NodeId(ns, HeaterBranchValveOpen), NodeId(ns, DhxBranchValveOpen), NodeId(ns, CtahBranchValveOpen);
    assert HeaterBranchValveOpen[0] != DhxBranchValveOpen[0] && HeaterBranchValveOpen[0] != CtahBranchValveOpen[0];
    assert DhxBranchValveOpen[0] != CtahBranchValveOpen[0];
    var s := space[heater := Boolean(v.heater)][dhx := Boolean(v.dhx)][ctah := Boolean(v.ctah)];
    assert s[heater] == Boolean(v.heater) && s[dhx] == Boolean(v.dhx) && s[ctah] == Boolean(v.ctah);
  }

  // ---------------------------------------------------------------------
  // Pressure-drop error budget
  // ---------------------------------------------------------------------

  /** The fldk error of each branch in Pa, at 10 % of its flowrate, as the
      foreign estimators give them. */
  datatype BranchErrors = BranchErrors(ctahPa: real, heaterPa: real, dhxPa: real)

  function Square(x: real): (s: real)
    ensures s >= 0.0
  {
    x * x
  }

  /** The squared fldk error: the CTAH branch always, the heater branch when
      the CTAH and heater valves are both open, the DHX branch when the CTAH
      and DHX valves are both open. */
  function FldkSquared(v: Valves, e: BranchErrors): (f: real)
    ensures Square(e.ctahPa) <= f <= Square(e.ctahPa) + Square(e.heaterPa) + Square(e.dhxPa)
  {
    Square(e.ctahPa)
    + (if v.ctah && v.heater then Square(e.heaterPa) else 0.0)
    + (if v.ctah && v.dhx then Square(e.dhxPa) else 0.0)
  }

  /** The squared total error: flowmeter error, manometer error and fldk
      error summed in quadrature. */
  function TotalSquared(flowmeterPa: real, manometerPa: real, fldkSquared: real): (t: real)
    ensures t >= fldkSquared && t - fldkSquared >= Square(flowmeterPa) && t - fldkSquared >= Square(manometerPa)
  {
    Square(flowmeterPa) + Square(manometerPa) + fldkSquared
  }

  /** Step 5 of the isothermal polling action: the squared fldk error is
      accumulated with `+=` under the valve conditions, then the squared
      total is formed. */
  method ErrorBudget(v: Valves, e: BranchErrors, flowmeterPa: real, manometerPa: real)
    returns (fldkSquared: real, totalSquared: real)
    ensures fldkSquared == FldkSquared(v, e)
    ensures totalSquared == TotalSquared(flowmeterPa, manometerPa, FldkSquared(v, e))
  {
    fldkSquared := e.ctahPa * e.ctahPa;
    if v.ctah && v.heater {
      fldkSquared := fldkSquared + e.heaterPa * e.heaterPa;
    }
    if v.ctah && v.dhx {
      fldkSquared := fldkSquared + e.dhxPa * e.dhxPa;
    }
    totalSquared := flowmeterPa * flowmeterPa + manometerPa * manometerPa + fldkSquared;
  }

  /** The CTAH-branch term is always in the budget, whatever the valves. */
  lemma CtahTermAlwaysIncluded(v: Valves, e: BranchErrors)
    ensures FldkSquared(v, e) >= Square(e.ctahPa)
    ensures !v.ctah ==> FldkSquared(v, e) == Square(e.ctahPa)
  {
  }

  /** The heater-branch error enters the budget if and only if the CTAH and
      heater valves are both open: it then contributes its square, and
      otherwise changing it changes nothing; an error with a nonzero square
      changes the budget exactly when both valves are open. */
  lemma HeaterTermIffBothOpen(v: Valves, e: BranchErrors, heaterPa: real)
    ensures FldkSquared(v, e) - FldkSquared(v, e.(heaterPa := 0.0))
         == (if v.ctah && v.heater then Square(e.heaterPa) else 0.0)
    ensures !(v.ctah && v.heater) ==> FldkSquared(v, e.(heaterPa := heaterPa)) == FldkSquared(v, e)
    ensures Square(e.heaterPa) > 0.0 ==> (FldkSquared(v, e) != FldkSquared(v, e.(heaterPa := 0.0)) <==> v.ctah && v.heater)
  {
  }

  /** The DHX-branch error enters the budget if and only if the CTAH and
      DHX valves are both open. */
  lemma DhxTermIffBothOpen(v: Valves, e: BranchErrors, dhxPa: real)
    ensures FldkSquared(v, e) - FldkSquared(v, e.(dhxPa := 0.0))
         == (if v.ctah && v.dhx then Square(e.dhxPa) else 0.0)
    ensures !(v.ctah && v.dhx) ==> FldkSquared(v, e.(dhxPa := dhxPa)) == FldkSquared(v, e)
    ensures Square(e.dhxPa) > 0.0 ==> (FldkSquared(v, e) != FldkSquared(v, e.(dhxPa := 0.0)) <==> v.ctah && v.dhx)
  {
  }

  /** Opening more valves never lowers the squared fldk error. */
  lemma FldkMonotoneInValves(v: Valves, v': Valves, e: BranchErrors)
    requires v.ctah ==> v'.ctah
    requires v.heater ==> v'.heater
    requires v.dhx ==> v'.dhx
    ensures FldkSquared(v, e) <= FldkSquared(v', e)
  {
  }

  /** The squared total dominates each of its components. */
  lemma TotalDominatesComponents(flowmeterPa: real, manometerPa: real, v: Valves, e: BranchErrors)
    ensures var total := TotalSquared(flowmeterPa, manometerPa, FldkSquared(v, e));
      && total >= Square(flowmeterPa)
      && total >= Square(manometerPa)
      && total >= FldkSquared(v, e)
      && total >= Square(e.ctahPa)
  {
  }

  /** For nonnegative roots, a smaller square has a smaller root: so the
      published total error (the root of the squared total) is at least the
      published fldk error, the flowmeter error and the manometer error. */
  lemma RootOrder(a: real, b: real)
    requires a >= 0.0 && b >= 0.0 && Square(a) <= Square(b)
    ensures a <= b
  {
    assert Square(b) - Square(a) == (b - a) * (b + a);
    if a + b > 0.0 {
      NonnegativeFactor(b - a, b + a);
    }
  }

  /** The published errors are the nonnegative roots of the squared budget:
      the published total is at least the published fldk error and at least
      the magnitudes of the flowmeter and manometer errors. */
  lemma PublishedTotalDominates(v: Valves, e: BranchErrors, flowmeterPa: real, manometerPa: real, fldk: real, total: real)
    requires fldk >= 0.0 && Square(fldk) == FldkSquared(v, e)
    requires total >= 0.0 && Square(total) == TotalSquared(flowmeterPa, manometerPa, FldkSquared(v, e))
    ensures total >= fldk
    ensures total >= flowmeterPa && total >= -flowmeterPa
    ensures total >= manometerPa && total >= -manometerPa
  {
    TotalDominatesComponents(flowmeterPa, manometerPa, v, e);
    RootOrder(fldk, total);
    var f, m := if flowmeterPa >= 0.0 then flowmeterPa else -flowmeterPa, if manometerPa >= 0.0 then manometerPa else -manometerPa;
    assert Square(f) == Square(flowmeterPa) && Square(m) == Square(manometerPa);
    RootOrder(f, total);
    RootOrder(m, total);
  }

  /** A nonnegative product with a positive factor has a nonnegative other
      factor. */
  lemma NonnegativeFactor(p: real, q: real)
    requires q > 0.0 && p * q >= 0.0
    ensures p >= 0.0
  {
  }

  // ---------------------------------------------------------------------
  // Timing arithmetic
  // ---------------------------------------------------------------------

  newtype u16 = x: int | 0 <= x < 0x1_0000

  /** `u128::try_into::<u16>()`: `None` when the value does not fit. */
  function TryIntoU16(ms: nat): (r: Option<u16>)
    ensures r.Some? <==> ms < 0x1_0000
    ensures r.Some? ==> r.value as int == ms
  {
    if ms < 0x1_0000 then Some(ms as u16) else None
  }

  /** `u16 + u16` in a debug build: an overflow panics, here `None`. */
  function CheckedAddU16(a: u16, b: u16): (r: Option<u16>)
    ensures r.Some? <==> a as int + b as int < 0x1_0000
    ensures r.Some? ==> r.value as int == a as int + b as int
  {
    if a as int + b as int < 0x1_0000 then Some((a as int + b as int) as u16) else None
  }

  /** `u16 + u16` in a release build: the sum modulo 2^16. */
  function WrappingAddU16(a: u16, b: u16): (r: u16)
    ensures r as int == (a as int + b as int) % 0x1_0000
  {
    ((a as int + b as int) % 0x1_0000) as u16
  }

  /** Steps 3 and 4 of the isothermal polling action: the calculation time
      is converted and published, then the initiation time, then their sum;
      a failed conversion or an overflow panics (`ok` false) and stops the
      action, leaving the nodes published before it. Values are published
      as `Double`. The sum is that of a debug build, where a `u16` overflow
      panics. */
  function PublishTiming(space: AddressSpace, ns: nat, calcMs: nat, initMs: nat): (r: (AddressSpace, bool))
    ensures r.1 <==> calcMs + initMs < 0x1_0000
    ensures calcMs >= 0x1_0000 ==> r.0 == space
  {
    var calcU16 := TryIntoU16(calcMs);
    if calcU16.None? then (space, false)
    else
      var s1 := space[NodeId(ns, CalculationTime) := Double(calcU16.value as real)];
      var initU16 := TryIntoU16(initMs);
      if initU16.None? then (s1, false)
      else
        var s2 := s1[NodeId(ns, CiEtObjConstructionTime) := Double(initU16.value as real)];
        var total := CheckedAddU16(calcU16.value, initU16.value);
        if total.None? then (s2, false)
        else (s2[NodeId(ns, ConstructionTimePlusCalcTime) := Double(total.value as real)], true)
  }

  /** The action completes exactly when the two durations sum to less than
      2^16 ms, and then publishes both durations and their exact sum; when
      the calculation time alone does not fit, nothing is published. */
  lemma PublishTimingContract(space: AddressSpace, ns: nat, calcMs: nat, initMs: nat)
    ensures var (space', ok) := PublishTiming(space, ns, calcMs, initMs);
      && (ok <==> calcMs + initMs < 0x1_0000)
      && (ok ==> Stored(space', NodeId(ns, CalculationTime)) == Some(calcMs as real))
      && (ok ==> Stored(space', NodeId(ns, CiEtObjConstructionTime)) == Some(initMs as real))
      && (ok ==> Stored(space', NodeId(ns, ConstructionTimePlusCalcTime)) == Some((calcMs + initMs) as real))
      && (calcMs >= 0x1_0000 ==> space' == space)
      && (calcMs < 0x1_0000 ==> Stored(space', NodeId(ns, CalculationTime)) == Some(calcMs as real))
      && (forall n ::
            (n in space && n != NodeId(ns, CalculationTime) && n != NodeId(ns, CiEtObjConstructionTime)
             && n != NodeId(ns, ConstructionTimePlusCalcTime)) ==> n in space' && space'[n] == space[n])
  {
    var calcNode, initNode, totalNode := NodeId(ns, CalculationTime), NodeId(ns, CiEtObjConstructionTime), NodeId(ns, ConstructionTimePlusCalcTime);
    assert CalculationTime[0] != CiEtObjConstructionTime[1];
    assert CalculationTime[1] != CiEtObjConstructionTime[1];
    assert calcNode != initNode;
    assert CalculationTime[0] != ConstructionTimePlusCalcTime[0] || CalculationTime[1] != ConstructionTimePlusCalcTime[1];
    assert calcNode != totalNode;
    assert CiEtObjConstructionTime[0] == ConstructionTimePlusCalcTime[0];
    assert CiEtObjConstructionTime[1] != ConstructionTimePlusCalcTime[1];
    assert initNode != totalNode;
  }

  /** Below the limit the release-build sum is the true sum; above it the
      published total is smaller than the calculation time alone. */
  lemma WrappingAddUnderstates(a: u16, b: u16)
    ensures a as int + b as int < 0x1_0000 ==> WrappingAddU16(a, b) as int == a as int + b as int
    ensures a as int + b as int >= 0x1_0000 ==> WrappingAddU16(a, b) < a && WrappingAddU16(a, b) < b
  {
  }

  // ---------------------------------------------------------------------
  // Published outlet temperature
  // ---------------------------------------------------------------------

  /** The heater polling action publishes the outlet temperature rounded to
      one decimal place. */
  function PublishBt12(space: AddressSpace, ns: nat, bt12DegC: real): (space': AddressSpace)
    ensures var published := Stored(space', NodeId(ns, Bt12Temperature));
      && published == Some(RoundTo(bt12DegC, 10.0))
      && bt12DegC - 0.05 <= published.value <= bt12DegC + 0.05
    ensures forall n :: n in space && n != NodeId(ns, Bt12Temperature) ==> n in space' && space'[n] == space[n]
    ensures forall n :: n in space' ==> n in space || n == NodeId(ns, Bt12Temperature)
  {
    RoundToError(bt12DegC, 10.0);
    space[NodeId(ns, Bt12Temperature) := Double(RoundTo(bt12DegC, 10.0))]
  }

  /** What the heater client reads at index 6 after the outlet temperature
      was published is within 0.05 degrees of the simulated temperature,
      and publishing what was read changes nothing. */
  lemma PublishedBt12Reading(space: AddressSpace, ns: nat, bt12DegC: real)
    ensures var read := ValueAt(Read(PublishBt12(space, ns, bt12DegC), HeaterReadNodes(ns)), 6);
      && read == Some(RoundTo(bt12DegC, 10.0))
      && bt12DegC - 0.05 <= read.value <= bt12DegC + 0.05
      && PublishBt12(space, ns, read.value) == PublishBt12(space, ns, bt12DegC)
  {
    ReadIndexContract(PublishBt12(space, ns, bt12DegC), ns);
    RoundToError(bt12DegC, 10.0);
    RoundToIdempotent(bt12DegC, 10.0);
  }
}
