/** The heater client with simulated reactor feedback: its GUI state (the
    cells the panels and threads share, and the plot buffers), the two
    panels that display and prune the buffers, one iteration of the polling
    loop that exchanges values with the server, one iteration of the
    supervisor loop that reconnects, computes the feedback and appends to
    the buffers, and one iteration of the transfer-function demo loop.
    Each loop iteration is taken on its own, sequentially. */
module HeaterReactorClient {
  import opened Wrappers
  import opened SeriesBuffer
  import opened Rounding
  import opened Telemetry
  import opened TransferFunctions
  import opened ReactorFeedback
  import opened Supervision

  /** The payload of a `[time, bt11, heater power, bt12]` row. */
  datatype HeaterReading = HeaterReading(bt11DegC: real, heaterPowerKw: real, bt12DegC: real)

  /** The isothermal panel shows the last 10 seconds. */
  const IsothermalWindowS: real := 10.0
  /** The heater panel shows the last 45 seconds. */
  const HeaterWindowS: real := 45.0

  /** What the heater panel shows: the current time, the power diagnostic
      and the plotted power go into labels; the last inlet and outlet
      temperatures only keep the temperature plot's bounds in view. */
  datatype HeaterDisplay = HeaterDisplay(currentTime: ExtReal, powerDiagnosticKw: real,
                                         bt11DegC: real, bt12DegC: real, heaterPowerKw: real)

  class GuiClient {
    /** The loop pressure drop the user sets, in Pa (written to the pump). */
    var pumpPressurePa: real
    /** The mass flowrate the poller reads, in kg/s. */
    var massFlowKgPerS: real
    /** The heater inlet temperature the user sets. */
    var bt11DegC: real
    /** The heater outlet temperature the poller reads. */
    var bt12DegC: real
    /** The heater power the supervisor computes and the poller writes. */
    var heaterPowerKw: real
    /** The server address the user types. */
    var serverIp: string
    var isothermalPlots: seq<Timed<LoopReading>>
    var heaterPlots: seq<Timed<HeaterReading>>
    var reactorFeedbackPlots: seq<Timed<real>>
    /** The demo loop's cells and buffers. */
    var radValue: real
    var userInput: real
    var plotPoints: seq<Timed<real>>
    var inputOutputPlots: seq<Timed<InputOutput>>

    /** A client with zeroed cells and empty buffers. */
    constructor (serverIp: string)
      ensures this.serverIp == serverIp
      ensures isothermalPlots == [] && heaterPlots == [] && reactorFeedbackPlots == []
      ensures plotPoints == [] && inputOutputPlots == []
    {
      pumpPressurePa, massFlowKgPerS, bt11DegC, bt12DegC, heaterPowerKw := 0.0, 0.0, 0.0, 0.0, 0.0;
      this.serverIp := serverIp;
      isothermalPlots, heaterPlots, reactorFeedbackPlots := [], [], [];
      radValue, userInput := 0.0, 0.0;
      plotPoints, inputOutputPlots := [], [];
    }

    /** `ciet_isothermal_panel_ui`: shows the current time, the last pressure
        and the last mass flowrate to four decimals (zero for an empty plot),
        then evicts at most one point older than 10 seconds. */
    method IsothermalPanelUi() returns (display: LoopDisplay)
      modifies this`isothermalPlots
      ensures isothermalPlots == Prune(old(isothermalPlots), IsothermalWindowS)
      ensures display == LoopPanelDisplay(old(isothermalPlots))
    {
      var snapshot := isothermalPlots;
      var maxTime := MaxTime(snapshot);
      if maxTime.Exceeds(IsothermalWindowS) {
        var index := FirstOlder(snapshot, maxTime.value - IsothermalWindowS);
        if index.Some? {
          isothermalPlots := RemoveAt(isothermalPlots, index.value);
        }
      }
      display := LoopPanelDisplay(snapshot);
    }

    /** `ciet_heater_bare_panel_ui` as written: evicts at most one point
        older than 45 seconds from the heater plot, then removes the point at
        the same index from the reactor-feedback plot. When that plot is too
        short `Vec::remove` panics (`ok` false): the heater plot has then
        already been pruned and the reactor-feedback plot is left as it was. */
    method HeaterPanelUi() returns (display: HeaterDisplay, ok: bool)
      modifies this`heaterPlots, this`reactorFeedbackPlots
      ensures var i := PruneIndex(old(heaterPlots), HeaterWindowS);
        ok <==> i.None? || i.value < |old(reactorFeedbackPlots)|
      ensures heaterPlots == Prune(old(heaterPlots), HeaterWindowS)
      ensures ok ==> reactorFeedbackPlots == PruneAt(old(reactorFeedbackPlots), PruneIndex(old(heaterPlots), HeaterWindowS))
      ensures !ok ==> reactorFeedbackPlots == old(reactorFeedbackPlots)
      ensures ok ==> display == HeaterPanelDisplay(old(heaterPlots), heaterPowerKw)
    {
      var snapshot := heaterPlots;
      var maxTime := MaxTime(snapshot);
      if maxTime.Exceeds(HeaterWindowS) {
        var index := FirstOlder(snapshot, maxTime.value - HeaterWindowS);
        if index.Some? {
          heaterPlots := RemoveAt(heaterPlots, index.value);
        }
      }
      if maxTime.Exceeds(HeaterWindowS) {
        var index := FirstOlder(snapshot, maxTime.value - HeaterWindowS);
        if index.Some? {
          if index.value >= |reactorFeedbackPlots| {
            return HeaterDisplay(maxTime, 0.0, 0.0, 0.0, 0.0), false;
          }
          reactorFeedbackPlots := RemoveAt(reactorFeedbackPlots, index.value);
        }
      }
      display, ok := HeaterPanelDisplay(snapshot, heaterPowerKw), true;
    }

    /** The heater panel with the reactor-feedback plot evicted by its own
        time column, as the heater plot is: defined on every state. */
    method HeaterPanelUiOwnWindow() returns (display: HeaterDisplay)
      modifies this`heaterPlots, this`reactorFeedbackPlots
      ensures heaterPlots == Prune(old(heaterPlots), HeaterWindowS)
      ensures reactorFeedbackPlots == Prune(old(reactorFeedbackPlots), HeaterWindowS)
      ensures display == HeaterPanelDisplay(old(heaterPlots), heaterPowerKw)
    {
      var snapshot := heaterPlots;
      heaterPlots := PruneAt(heaterPlots, PruneIndex(snapshot, HeaterWindowS));
      var feedback := reactorFeedbackPlots;
      reactorFeedbackPlots := PruneAt(reactorFeedbackPlots, PruneIndex(feedback, HeaterWindowS));
      display := HeaterPanelDisplay(snapshot, heaterPowerKw);
    }

    /** One iteration of the polling loop: reads the seven nodes, stores the
        heater-branch flowrate (index 3) and the outlet temperature (index 6)
        in their cells, then writes the pump pressure, inlet temperature and
        heater power cells back. `None` stands for the panic of a missing or
        non-numeric value, after which nothing more happens. */
    method PollTick(ns: nat, server: AddressSpace) returns (server': Option<AddressSpace>)
      modifies this`massFlowKgPerS, this`bt12DegC
      ensures var results := Read(server, HeaterReadNodes(ns));
              var flow, bt12 := ValueAt(results, 3), ValueAt(results, 6);
        && massFlowKgPerS == (if flow.Some? then flow.value else old(massFlowKgPerS))
        && bt12DegC == (if flow.Some? && bt12.Some? then bt12.value else old(bt12DegC))
        && (server'.Some? <==> flow.Some? && bt12.Some?)
        && (server'.Some? ==> server'.value == Write(server, HeaterWrites(ns, pumpPressurePa, bt11DegC, heaterPowerKw)))
    {
      var results := Read(server, HeaterReadNodes(ns));
      var flow := ValueAt(results, 3);
      if flow.None? {
        return None;
      }
      massFlowKgPerS := flow.value;
      var bt12 := ValueAt(results, 6);
      if bt12.None? {
        return None;
      }
      bt12DegC := bt12.value;
      server' := Some(Write(server, HeaterWrites(ns, pumpPressurePa, bt11DegC, heaterPowerKw)));
    }

    /** The supervisor thread's first, unconditional attempt: made to the
        endpoint of the machine's own address `localIp` (looking it up is
        I/O), not to the address cell. */
    method StartSupervisor(localIp: string, net: Network) returns (sup: Supervisor)
      ensures sup.attempts == [Endpoint(localIp)] && sup.Consistent()
      ensures sup.result.Connected? <==> net(0, Endpoint(localIp))
      ensures HostOf(sup.attempts[0]) == Some(localIp)
    {
      sup := Start(Endpoint(localIp), net);
      HostOfEndpoint(localIp);
    }

    /** One iteration of the supervisor loop: retries the connection if the
        last attempt failed, appends `[t, pressure, flowrate]` to the
        isothermal plot, feeds the deviation `bt12 - 79.12` to the reference
        and feedback transfer functions, sets the heater power cell to the
        feedback in kW and appends `[t, bt11, power, bt12]` to the heater
        plot. `ok` is false for the panic of a transfer function error. */
    method SupervisorTick(sup: Supervisor, net: Network, elapsedMs: nat,
                          reference: TransferFn, part1: TransferFn, part2: TransferFn, part3: TransferFn)
      returns (sup': Supervisor, ok: bool)
      requires part1 != part2 && part2 != part3 && part1 != part3
      requires reference != part1 && reference != part2 && reference != part3
      modifies this`isothermalPlots, this`heaterPlots, this`heaterPowerKw, reference, part1, part2, part3
      ensures sup' == RetryIfFailed(sup, Endpoint(serverIp), net)
      ensures var t := ElapsedSeconds(elapsedMs);
        isothermalPlots == old(isothermalPlots) + [Timed(t, LoopReading(pumpPressurePa, massFlowKgPerS))]
      ensures var s := Sample(DimensionlessInput(Deviation(bt12DegC)), ElapsedSeconds(elapsedMs));
        reference.history == old(reference.history) + [s]
      ensures reference.response(reference.history).None? ==>
        && !ok && heaterPlots == old(heaterPlots) && heaterPowerKw == old(heaterPowerKw)
        && part1.history == old(part1.history) && part2.history == old(part2.history)
        && part3.history == old(part3.history)
      ensures reference.response(reference.history).Some? ==>
        var t := ElapsedSeconds(elapsedMs);
        var (b, power) := FeedbackStep(DimensionlessInput(Deviation(bt12DegC)), t,
                                       part1.response, part2.response, part3.response,
                                       Branches(old(part1.history), old(part2.history), old(part3.history)));
        && Branches(part1.history, part2.history, part3.history) == b
        && (ok <==> power.Some?)
        && (power.Some? ==> heaterPowerKw == power.value / 1000.0)
        && (power.Some? ==> heaterPlots == old(heaterPlots) + [Timed(t, HeaterReading(bt11DegC, power.value / 1000.0, bt12DegC))])
        && (power.None? ==> heaterPlots == old(heaterPlots) && heaterPowerKw == old(heaterPowerKw))
    {
      sup' := RetryIfFailed(sup, Endpoint(serverIp), net);
      var t := ElapsedSeconds(elapsedMs);
      isothermalPlots := isothermalPlots + [Timed(t, LoopReading(pumpPressurePa, massFlowKgPerS))];
      var deviation := Deviation(bt12DegC);
      var expected := GetExpectedTemperature(deviation, t, reference);
      if expected.None? {
        return sup', false;
      }
      var power := GetReactorFeedback(deviation, t, part1, part2, part3);
      if power.None? {
        return sup', false;
      }
      heaterPowerKw := power.value / 1000.0;
      heaterPlots := heaterPlots + [Timed(t, HeaterReading(bt11DegC, heaterPowerKw, bt12DegC))];
      ok := true;
    }

    /** One iteration of the demo loop: appends `[t, rad]` to the simple
        plot, feeds the user input to both demo transfer functions and
        appends `[t, input, sum of their outputs]` to the input/output plot. */
    method TransferFnTick(elapsedMs: nat, decayingSine: LocalTransferFn, secondOrder: LocalTransferFn)
      returns (output: real)
      requires decayingSine != secondOrder
      modifies this`plotPoints, this`inputOutputPlots, decayingSine, secondOrder
      ensures var t := ElapsedSeconds(elapsedMs);
        && plotPoints == old(plotPoints) + [Timed(t, radValue)]
        && decayingSine.history == old(decayingSine.history) + [Sample(userInput, t)]
        && secondOrder.history == old(secondOrder.history) + [Sample(userInput, t)]
        && output == decayingSine.response(decayingSine.history) + secondOrder.response(secondOrder.history)
        && inputOutputPlots == old(inputOutputPlots) + [Timed(t, InputOutput(userInput, output))]
    {
      var t := ElapsedSeconds(elapsedMs);
      plotPoints := plotPoints + [Timed(t, radValue)];
      var out1 := decayingSine.SetUserInputAndCalcOutput(t, userInput);
      var out2 := secondOrder.SetUserInputAndCalcOutput(t, userInput);
      output := out1 + out2;
      inputOutputPlots := inputOutputPlots + [Timed(t, InputOutput(userInput, output))];
    }
  }

  /** The heater panel's view: labels with the current time, the heater
      power cell to three decimals and the last plotted power to four
      decimals; the last inlet and outlet temperatures, which the plot bounds
      are made to include (zeros for an empty plot). */
  function HeaterPanelDisplay(plots: seq<Timed<HeaterReading>>, heaterPowerKw: real): (d: HeaterDisplay)
    ensures d.currentTime == MaxTime(plots)
    ensures plots == [] ==> d.bt11DegC == 0.0 && d.bt12DegC == 0.0 && d.heaterPowerKw == 0.0
    ensures plots != [] ==> d.bt11DegC == plots[|plots| - 1].data.bt11DegC && d.bt12DegC == plots[|plots| - 1].data.bt12DegC
    ensures d.powerDiagnosticKw == RoundTo(heaterPowerKw, 1000.0)
    ensures heaterPowerKw - 0.0005 <= d.powerDiagnosticKw <= heaterPowerKw + 0.0005
    ensures var p := LatestOr(plots, HeaterReading(0.0, 0.0, 0.0)).heaterPowerKw;
      && d.heaterPowerKw == RoundTo(p, 10000.0)
      && p - 0.00005 <= d.heaterPowerKw <= p + 0.00005
  {
    var latest := LatestOr(plots, HeaterReading(0.0, 0.0, 0.0));
    RoundToError(heaterPowerKw, 1000.0);
    RoundToError(latest.heaterPowerKw, 10000.0);
    HeaterDisplay(MaxTime(plots), RoundTo(heaterPowerKw, 1000.0), latest.bt11DegC, latest.bt12DegC,
                  RoundTo(latest.heaterPowerKw, 10000.0))
  }

  /** The reactor-feedback plot is pruned at an index found in the heater
      plot. Nothing appends to the reactor-feedback plot, so as soon as the
      heater plot spans more than 45 seconds the index is out of range and
      the heater panel panics. */
  lemma ReactorPlotIndexOutOfRange(h: HeaterReading)
    ensures var heater, feedback: seq<Timed<real>> := [Timed(0.0, h), Timed(50.0, h)], [];
      var i := PruneIndex(heater, HeaterWindowS);
      i == Some(0) && !(i.value < |feedback|)
  {
    var heater := [Timed(0.0, h), Timed(50.0, h)];
    assert MaxTime(heater) == Finite(50.0);
    assert FirstOlder(heater, 5.0) == Some(0);
  }

  /** Whatever the reactor-feedback plot holds, evicting it by its own time
      column needs no precondition, keeps its newest time stamp, and after as
      many frames as it has stale points leaves exactly its points of the
      last 45 seconds. */
  lemma ReactorPlotOwnWindowCatchesUp(feedback: seq<Timed<real>>, frames: nat)
    requires MaxTime(feedback).Exceeds(HeaterWindowS)
    requires frames >= CountOlder(feedback, MaxTime(feedback).value - HeaterWindowS)
    ensures MaxTime(Prune(feedback, HeaterWindowS)) == MaxTime(feedback)
    ensures PruneFrames(feedback, HeaterWindowS, frames) == KeepRecent(feedback, MaxTime(feedback).value - HeaterWindowS)
  {
    PruneKeepsMaxTime(feedback, HeaterWindowS);
    PruneFramesCatchUp(feedback, HeaterWindowS, frames);
  }
}
