/** The isothermal client: its GUI state, the panel that displays and
    prunes the loop plot, one iteration of the polling loop, one iteration
    of the supervisor loop that reconnects and appends to the loop plot, and
    one iteration of the first-order transfer-function demo loop. Each loop
    iteration is taken on its own, sequentially. */
module IsothermalClient {
  import opened Wrappers
  import opened SeriesBuffer
  import opened Telemetry
  import opened TransferFunctions
  import opened Supervision

  /** The panel shows the last 10 seconds. */
  const WindowS: real := 10.0

  class GuiClient {
    /** The loop pressure drop the user sets, in Pa (written to the pump). */
    var opcuaInput: real
    /** The heater-branch flowrate the poller reads, in kg/s. */
    var opcuaOutput: real
    /** The server address the user types. */
    var serverIp: string
    var opcuaPlots: seq<Timed<LoopReading>>
    /** The demo loop's cells and buffers. */
    var radValue: real
    var userInput: real
    var plotPoints: seq<Timed<real>>
    var inputOutputPlots: seq<Timed<InputOutput>>

    /** `GuiClient::default`: zero cells, 3.6 on the dial, empty buffers and
        the loopback address. */
    constructor ()
      ensures opcuaInput == 0.0 && opcuaOutput == 0.0 && serverIp == "127.0.0.1"
      ensures radValue == 3.6 && userInput == 0.0
      ensures opcuaPlots == [] && plotPoints == [] && inputOutputPlots == []
    {
      opcuaInput, opcuaOutput := 0.0, 0.0;
      serverIp := "127.0.0.1";
      opcuaPlots := [];
      radValue, userInput := 3.6, 0.0;
      plotPoints, inputOutputPlots := [], [];
    }

    /** `opcua_panel_ui`: shows the current time, the last pressure and the
        last flowrate to four decimals (zero for an empty plot), then evicts
        at most one point older than 10 seconds. */
    method OpcuaPanelUi() returns (display: LoopDisplay)
      modifies this`opcuaPlots
      ensures opcuaPlots == Prune(old(opcuaPlots), WindowS)
      ensures display == LoopPanelDisplay(old(opcuaPlots))
    {
      var snapshot := opcuaPlots;
      var maxTime := MaxTime(snapshot);
      if maxTime.Exceeds(WindowS) {
        var index := FirstOlder(snapshot, maxTime.value - WindowS);
        if index.Some? {
          opcuaPlots := RemoveAt(opcuaPlots, index.value);
        }
      }
      display := LoopPanelDisplay(snapshot);
    }

    /** One iteration of the polling loop: reads the four nodes, stores the
        heater-branch flowrate (index 3) in the output cell, then writes the
        input cell to the pump pressure node. `None` stands for the panic of
        a missing or non-numeric value, after which nothing more happens. */
    method PollTick(ns: nat, server: AddressSpace) returns (server': Option<AddressSpace>)
      modifies this`opcuaOutput
      ensures var flow := ValueAt(Read(server, IsothermalReadNodes(ns)), 3);
        && opcuaOutput == (if flow.Some? then flow.value else old(opcuaOutput))
        && (server'.Some? <==> flow.Some?)
        && (server'.Some? ==> server'.value == Write(server, IsothermalWrites(ns, opcuaInput)))
    {
      var results := Read(server, IsothermalReadNodes(ns));
      var flow := ValueAt(results, 3);
      if flow.None? {
        return None;
      }
      opcuaOutput := flow.value;
      server' := Some(Write(server, IsothermalWrites(ns, opcuaInput)));
    }

    /** The supervisor thread's first, unconditional attempt: made to a
        hard-coded endpoint rather than to the address cell, and one that is
        not the endpoint of any address. */
    method StartSupervisor(net: Network) returns (sup: Supervisor)
      ensures sup.attempts == [IsothermalFirstEndpoint] && sup.Consistent()
      ensures sup.result.Connected? <==> net(0, IsothermalFirstEndpoint)
      ensures HostOf(sup.attempts[0]).None?
    {
      sup := Start(IsothermalFirstEndpoint, net);
      FirstEndpointIsMalformed();
    }

    /** One iteration of the supervisor loop: retries the connection to the
        endpoint built from the address cell if the last attempt failed, then
        appends `[t, input, output]` from the cells to the loop plot. */
    method SupervisorTick(sup: Supervisor, net: Network, elapsedMs: nat) returns (sup': Supervisor)
      modifies this`opcuaPlots
      ensures sup' == RetryIfFailed(sup, Endpoint(serverIp), net)
      ensures opcuaPlots == old(opcuaPlots) + [Timed(ElapsedSeconds(elapsedMs), LoopReading(opcuaInput, opcuaOutput))]
    {
      sup' := RetryIfFailed(sup, Endpoint(serverIp), net);
      opcuaPlots := opcuaPlots + [Timed(ElapsedSeconds(elapsedMs), LoopReading(opcuaInput, opcuaOutput))];
    }

    /** One iteration of the demo loop: appends `[t, rad]` to the simple
        plot, feeds the user input to the first-order transfer function and
        appends `[t, input, output]` to the input/output plot. */
    method TransferFnTick(elapsedMs: nat, firstOrder: LocalTransferFn) returns (output: real)
      modifies this`plotPoints, this`inputOutputPlots, firstOrder
      ensures var t := ElapsedSeconds(elapsedMs);
        && plotPoints == old(plotPoints) + [Timed(t, radValue)]
        && firstOrder.history == old(firstOrder.history) + [Sample(userInput, t)]
        && output == firstOrder.response(firstOrder.history)
        && inputOutputPlots == old(inputOutputPlots) + [Timed(t, InputOutput(userInput, output))]
    {
      var t := ElapsedSeconds(elapsedMs);
      plotPoints := plotPoints + [Timed(t, radValue)];
      output := firstOrder.SetUserInputAndCalcOutput(t, userInput);
      inputOutputPlots := inputOutputPlots + [Timed(t, InputOutput(userInput, output))];
    }
  }
}
