# CIET OPC-UA demonstrator: a Dafny model of its client and server logic

This project models the logic of the CIET (Compact Integral Effects Test)
OPC-UA demonstrator that is not UI rendering, networking or foreign numerics:

- **Plot buffers and panels.** The two client GUIs keep plot buffers of
  time-stamped rows. On every frame each panel:
  - shows the newest time, the last value of each column (zero for an empty
    buffer) and some values rounded to 3 or 4 decimals;
  - evicts at most one point: the first point older than the window (10 s
    for loop plots, 45 s for the heater plot), and only when the newest
    time exceeds the window (`SeriesBuffer`, and the panel methods of both
    `GuiClient` classes).
- **Polling loops.** Each client reads a fixed list of nodes from the server
  on every tick. It copies fixed result indices into its cells (index 3;
  also index 6 for the heater client), then writes its setpoint cells back
  (`Telemetry`, and the `PollTick` methods). The server is an ideal address
  space: a map from node id to value.
- **Reactor feedback** of the heater client:
  - The deviation `bt12 - 79.12` (in K) is divided by one kelvin.
  - It drives transfer function part 1 in parallel, and part 2 feeding part 3
    in series.
  - The power is `3401.36·y1 - 340.136·y3 + 8000` W, clamped at zero.
  - A fourth transfer function gives the reference outlet temperature
    `102.41 + y`.

  Transfer functions are objects whose output is an arbitrary function of
  their input history (`TransferFunctions`, `ReactorFeedback`).
- **Connection supervisor** of both clients:
  - One attempt is made at start-up.
  - After that, each tick makes a new attempt only while the last one
    failed. It goes to the endpoint rebuilt from the IP-address cell.
  - Each tick also appends the cells to the plot buffers (`Supervision`, and
    the `SupervisorTick` methods).

  Whether an attempt succeeds is a parameter (`Network`).
- **Server polling actions** (`CietServer`):
  - decoding the valve switches (`match_true_false`);
  - the valve-gated squared error budget for the loop pressure drop;
  - the `u16` timing sums;
  - publishing the heater outlet temperature rounded to one decimal.

Numbers are `real`s: `f64::round` is modelled as rounding half away from
zero. Each loop iteration is a separate method, run sequentially.

One naming oddity is modelled as the code has it: the deviation fed to the
reactor transfer functions is named after the heater inlet (`bt_11`) but is
computed from the outlet temperature bt12
(src/client/heater-with-reactor-feedback/main.rs:270-272).

## Model

| member | source | states |
|---|---|---|
| Rounding.Round | src/server/isothermal-and-heater/examples/ciet_server_old_with_deviation.rs:706-710 | `f64::round` on reals: the result is within 0.5 of the input, and a tie goes away from zero |
| Rounding.RoundTo | src/server/isothermal-and-heater/examples/ciet_server_old_with_deviation.rs:706-710 | `(x*scale).round()/scale` times `scale` is the rounded integer, so the result has at most the requested number of decimals |
| Rounding.RoundInteger | src/server/isothermal-and-heater/examples/ciet_server_old_with_deviation.rs:706-710 | rounding leaves integers unchanged |
| Rounding.RoundToError | src/server/isothermal-and-heater/examples/ciet_server_old_with_deviation.rs:706-710 | `(x*scale).round()/scale` is within `0.5/scale` of `x` |
| Rounding.RoundToIdempotent | src/server/isothermal-and-heater/examples/ciet_server_old_with_deviation.rs:706-710 | rounding an already rounded value to the same number of decimals changes nothing |
| SeriesBuffer.MaxTime | src/client/isothermal-and-heater/app/panels/opcua_panel.rs:85 | the fold from negative infinity over the time column is negative infinity exactly for an empty buffer, and otherwise at least every time in the buffer |
| SeriesBuffer.MaxTimeAttained | src/client/isothermal-and-heater/app/panels/opcua_panel.rs:85 | the fold of a nonempty buffer is the time of one of its points |
| SeriesBuffer.FirstOlder | src/client/isothermal-and-heater/app/panels/opcua_panel.rs:111-118 | `position(time < cutoff)` finds the lowest index older than the cutoff, and finds none exactly when no point is older |
| SeriesBuffer.PruneIndex | src/client/isothermal-and-heater/app/panels/opcua_panel.rs:108-118 | the index the panel evicts is the first point older than `max_time - window`, and there is one only when `max_time` exceeds the window |
| SeriesBuffer.RemoveAt | src/client/isothermal-and-heater/app/panels/opcua_panel.rs:119-127 | `Vec::remove(i)`: one element shorter, the elements before `i` unchanged and those after it shifted down in order |
| SeriesBuffer.PruneAt | src/client/isothermal-and-heater/app/panels/opcua_panel.rs:119-127 | no index leaves the buffer as it is; an index removes exactly that element, leaving the elements before and after it in order |
| SeriesBuffer.Prune | src/client/isothermal-and-heater/app/panels/opcua_panel.rs:108-129 | a frame removes at most one point, and keeps the length exactly when there is no eviction index |
| SeriesBuffer.LatestOr | src/client/isothermal-and-heater/app/panels/opcua_panel.rs:87-92 | `last()` with a zero default: the data of the newest appended row, or zero for an empty buffer |
| SeriesBuffer.PruneOnlyPastWindow | src/client/isothermal-and-heater/app/panels/opcua_panel.rs:108-109 | nothing is removed unless `max_time` exceeds the window, which covers the empty buffer |
| SeriesBuffer.PruneRemovesFirstOlder | src/client/heater-with-reactor-feedback/app/panels/opcua_panel.rs:116-137 | a frame either leaves the buffer as it is or removes exactly the first point older than the window; it removes one point if and only if such a point exists |
| SeriesBuffer.PruneIdempotentWhenCaughtUp | src/client/heater-with-reactor-feedback/app/panels/opcua_panel.rs:116-137 | once no point is older than the window, frames leave the buffer unchanged, so repeated frames are idempotent |
| SeriesBuffer.PruneKeepsMaxTime | src/client/heater-with-reactor-feedback/app/panels/opcua_panel.rs:116-137 | evicting an old point never removes the newest time stamp |
| SeriesBuffer.PruneAtStableUnderAppend | src/client/heater-with-reactor-feedback/app/panels/opcua_panel.rs:116-137 | an index found on a snapshot removes the same point from the live buffer after a concurrent append |
| SeriesBuffer.RemoveOlderKeepsRecent | src/client/heater-with-reactor-feedback/app/panels/opcua_panel.rs:116-137 | removing one stale point keeps every recent point and lowers the stale count by one |
| SeriesBuffer.KeepRecentAll | src/client/heater-with-reactor-feedback/app/panels/opcua_panel.rs:116-137 | with no stale point, the points of the window are the whole buffer |
| SeriesBuffer.PruneStep | src/client/heater-with-reactor-feedback/app/panels/opcua_panel.rs:116-137 | one frame past the window keeps the newest time and the recent points, and removes one stale point if there is one |
| SeriesBuffer.PruneFramesCatchUp | src/client/heater-with-reactor-feedback/app/panels/opcua_panel.rs:116-137 | after at least as many frames as there are stale points, with no append between them, the buffer is exactly its points of the last window, in order |
| SeriesBuffer.PruneFramesCaughtUp | src/client/heater-with-reactor-feedback/app/panels/opcua_panel.rs:116-137 | with no stale point, any number of frames leaves exactly the points of the window |
| SeriesBuffer.CountZeroMeansNoneOlder | src/client/heater-with-reactor-feedback/app/panels/opcua_panel.rs:116-137 | a stale count of zero means that no point is older than the cutoff |
| SeriesBuffer.PruneFramesFixed | src/client/heater-with-reactor-feedback/app/panels/opcua_panel.rs:116-137 | a buffer that one frame leaves unchanged stays unchanged for any number of frames |
| SeriesBuffer.LatestIsLastAppended | src/client/isothermal-and-heater/app/panels/opcua_panel.rs:87-92 | the value shown is the one appended last, or zero for an empty buffer |
| SeriesBuffer.LoopPanelDisplay | src/client/heater-with-reactor-feedback/app/panels/opcua_panel.rs:93-163 | the loop panel shows the newest time, the last pressure (zero if empty), and the last flowrate rounded to four decimals, hence within 0.00005 of it |
| Telemetry.AsF64 | src/client/heater-with-reactor-feedback/app/panels/opcua_panel.rs:561-580 | `as_f64` succeeds exactly on the numeric variants |
| Telemetry.ValueAt | src/client/heater-with-reactor-feedback/app/panels/opcua_panel.rs:561-580 | `results[i].value.unwrap().as_f64().unwrap()` is defined exactly when the index is in range, the value is present and it is numeric |
| Telemetry.IsothermalReadNodes | src/client/isothermal-and-heater/app/panels/opcua_panel.rs:262-290 | the isothermal read request has four nodes of the client's namespace, with the heater-branch flowrate at index 3 |
| Telemetry.HeaterReadNodes | src/client/heater-with-reactor-feedback/app/panels/opcua_panel.rs:526-552 | the heater read request has seven nodes of the client's namespace, starts with the isothermal request, and has the heater-branch flowrate at index 3 and bt12 at index 6 |
| Telemetry.IsothermalWrites | src/client/isothermal-and-heater/app/panels/opcua_panel.rs:299-311 | the isothermal client writes the input cell, as a `Float`, to the pump-pressure node it also reads, and never to the flowrate it reads |
| Telemetry.HeaterWrites | src/client/heater-with-reactor-feedback/app/panels/opcua_panel.rs:603-634 | the heater client writes pump pressure, bt11 and heater power, as `Float`s, to nodes it also reads (indices 1, 4, 5), and never to the flowrate or bt12 it reads |
| Telemetry.Read | src/client/heater-with-reactor-feedback/app/panels/opcua_panel.rs:541-552 | an ideal read returns one result per requested node, in request order, empty for an unknown node |
| Telemetry.ReadIndexContract | src/client/heater-with-reactor-feedback/app/panels/opcua_panel.rs:526-580 | result index 3 is the heater-branch flowrate and index 6 is bt12, in both clients' read lists |
| Telemetry.HeaterWriteThenRead | src/client/heater-with-reactor-feedback/app/panels/opcua_panel.rs:541-634 | the three setpoints written (pump pressure, bt11, heater power) are read back unchanged on the next tick, and the two values the client reads are untouched |
| Telemetry.IsothermalWriteThenRead | src/client/isothermal-and-heater/app/panels/opcua_panel.rs:267-311 | the pump pressure written is read back unchanged, and the flowrate read is untouched |
| Telemetry.DistinctNames | src/client/heater-with-reactor-feedback/app/panels/opcua_panel.rs:526-532 | the node names the polling loops use are pairwise different |
| TransferFunctions.TransferFn.SetUserInputAndCalc | src/client/heater-with-reactor-feedback/main.rs:379-401 | each call appends one sample to the operator's history and returns its response to that history |
| TransferFunctions.LocalTransferFn.SetUserInputAndCalcOutput | src/client/isothermal-and-heater/main.rs:69-72 | each call appends one sample to the history and returns the response |
| ReactorFeedback.Deviation | src/client/heater-with-reactor-feedback/main.rs:270-272 | the deviation is bt12 minus 79.12 |
| ReactorFeedback.DimensionlessInput | src/client/heater-with-reactor-feedback/main.rs:368-371 | the input is the deviation divided by one kelvin |
| ReactorFeedback.PowerSignalW | src/client/heater-with-reactor-feedback/main.rs:379-404 | the signal exceeds the 8 kW bias by 3401.36 W per unit of part 1's output and -340.136 W per unit of part 3's output |
| ReactorFeedback.ReactorPowerW | src/client/heater-with-reactor-feedback/main.rs:402-411 | the power is never negative, is at least the signal, and is either the signal or zero |
| ReactorFeedback.ExpectedOutletDegC | src/client/heater-with-reactor-feedback/main.rs:420-434 | the reference temperature exceeds 102.41 °C by the transfer-function output |
| ReactorFeedback.PowerClamp | src/client/heater-with-reactor-feedback/main.rs:406-409 | the power is zero if and only if the signal is at most zero; a positive signal is passed through |
| ReactorFeedback.BalancedBranchesGiveBias | src/client/heater-with-reactor-feedback/main.rs:402-411 | whenever the gained outputs of the two branches cancel, the heater gets the 8 kW bias; in particular with both outputs at zero |
| ReactorFeedback.PowerMonotone | src/client/heater-with-reactor-feedback/main.rs:362-411 | the power rises with part 1's output and falls with part 3's output |
| ReactorFeedback.StrongNegativeFeedbackSwitchesOff | src/client/heater-with-reactor-feedback/main.rs:406-409 | every part 1 output at or below -2.36 with a nonnegative part 3 output gives a negative signal and exactly zero power |
| ReactorFeedback.FeedbackStep | src/client/heater-with-reactor-feedback/main.rs:356-413 | one feedback call appends one sample `(u, t)` to part 1; parts 2 and 3 grow by at most one sample; a power is returned only after all three advanced, and it is never negative |
| ReactorFeedback.FeedbackWiring | src/client/heater-with-reactor-feedback/main.rs:356-413 | parts 1 and 2 receive the same input and part 3 receives part 2's output; each part advances only if the parts before it succeeded; the power is the clamped gained sum, never negative |
| ReactorFeedback.GetReactorFeedback | src/client/heater-with-reactor-feedback/main.rs:356-413 | the new histories of the three parts and the returned power are those of one feedback step |
| ReactorFeedback.GetExpectedTemperature | src/client/heater-with-reactor-feedback/main.rs:415-438 | the reference operator advances by one sample; the result is 102.41 °C plus its output, or a panic when it reports an error |
| Supervision.Endpoint | src/client/isothermal-and-heater/main.rs:103-106 | the endpoint is `opc.tcp://` + ip + `:4840/rust_ciet_opcua_server` |
| Supervision.HostOf | src/client/isothermal-and-heater/main.rs:103-106 | the address recovered from an endpoint-shaped URL |
| Supervision.HostOfEndpoint | src/client/isothermal-and-heater/main.rs:103-106 | the address can be recovered from the endpoint built from it |
| Supervision.EndpointOfHost | src/client/isothermal-and-heater/main.rs:103-106 | every endpoint-shaped URL is the endpoint of its address |
| Supervision.EndpointInjective | src/client/isothermal-and-heater/main.rs:103-106 | different addresses give different endpoints |
| Supervision.FirstEndpointIsMalformed | src/client/isothermal-and-heater/main.rs:93-97 | the hard-coded first endpoint (port `4840abcde`) is not the endpoint of any address |
| Supervision.Attempt | src/client/isothermal-and-heater/main.rs:108-115 | an attempt records its endpoint, and succeeds and starts one poller exactly when the network accepts it |
| Supervision.Start | src/client/isothermal-and-heater/main.rs:93-97 | the start-up attempt is the only attempt so far, it succeeds exactly when the network accepts it, and a poller runs exactly when it succeeded |
| Supervision.RetryIfFailed | src/client/heater-with-reactor-feedback/main.rs:229-246 | a tick reconnects only while the last result is an error; once connected nothing changes |
| Supervision.Endpoints | src/client/isothermal-and-heater/main.rs:101-106 | the endpoint of each IP-cell reading, in order |
| Supervision.Run | src/client/isothermal-and-heater/main.rs:101-115 | ticks only ever add attempts, at most one per IP-cell reading, and keep the earlier attempts as they were |
| Supervision.ConnectedIsFinal | src/client/isothermal-and-heater/main.rs:101-115 | after the first success no further attempt is ever made |
| Supervision.RunKeepsOnePoller | src/client/heater-with-reactor-feedback/main.rs:218-246 | however many ticks run, exactly one polling loop runs once connected and none before |
| Supervision.RunAttempts | src/client/isothermal-and-heater/main.rs:101-115 | the attempts are the endpoints of the successive IP-cell readings, in order, up to the first success; a still-failing supervisor has tried every one |
| Supervision.ElapsedSeconds | src/client/isothermal-and-heater/main.rs:117-118 | elapsed seconds are elapsed milliseconds divided by 1000 |
| Supervision.ElapsedSecondsMonotone | src/client/isothermal-and-heater/main.rs:117-118 | a later clock reading gives a later time stamp |
| IsothermalClient.GuiClient.constructor | src/client/isothermal-and-heater/app.rs:51-75 | the default cells: zeros, 3.6 on the dial, the loopback address and empty buffers |
| IsothermalClient.GuiClient.OpcuaPanelUi | src/client/isothermal-and-heater/app/panels/opcua_panel.rs:85-160 | the plot is pruned once with the 10 s window; the labels are those of the plot before pruning |
| IsothermalClient.GuiClient.PollTick | src/client/isothermal-and-heater/app/panels/opcua_panel.rs:262-311 | result index 3 goes to the output cell; the pump pressure is then written from the input cell; a bad value panics before the write |
| IsothermalClient.GuiClient.StartSupervisor | src/client/isothermal-and-heater/main.rs:93-97 | the first attempt goes to the hard-coded endpoint, which is not the endpoint of any address; a poller runs exactly when it succeeded |
| IsothermalClient.GuiClient.SupervisorTick | src/client/isothermal-and-heater/main.rs:101-127 | a retry only after a failure, to the endpoint of the IP cell, then exactly one `[t, input, output]` row appended from the cells |
| IsothermalClient.GuiClient.TransferFnTick | src/client/isothermal-and-heater/main.rs:49-78 | one `[t, rad]` row and one `[t, input, output]` row appended, where the output is the first-order operator's response to the input |
| HeaterReactorClient.GuiClient.IsothermalPanelUi | src/client/heater-with-reactor-feedback/app/panels/opcua_panel.rs:93-163 | the isothermal plot is pruned once with the 10 s window; the labels are those of the plot before pruning |
| HeaterReactorClient.GuiClient.HeaterPanelUi | src/client/heater-with-reactor-feedback/app/panels/opcua_panel.rs:186-413 | the heater plot is pruned with the 45 s window; the reactor-feedback plot loses the point at the heater plot's index; the panel panics exactly when that index is out of range |
| HeaterReactorClient.GuiClient.HeaterPanelUiOwnWindow | src/client/heater-with-reactor-feedback/app/panels/opcua_panel.rs:357-376 | the corrected variant of the Findings row: each of the two plots is pruned by its own time column with the 45 s window, whatever their lengths, so it never panics |
| HeaterReactorClient.GuiClient.PollTick | src/client/heater-with-reactor-feedback/app/panels/opcua_panel.rs:537-634 | index 3 goes to the flow cell and index 6 to the bt12 cell; then pump pressure, bt11 and heater power are written from their cells; a bad value panics before the write |
| HeaterReactorClient.GuiClient.StartSupervisor | src/client/heater-with-reactor-feedback/main.rs:213-225 | the first attempt goes to the endpoint of the machine's own address, from which that address is recoverable; a poller runs exactly when it succeeded |
| HeaterReactorClient.GuiClient.SupervisorTick | src/client/heater-with-reactor-feedback/main.rs:229-334 | a retry only after a failure; one isothermal row appended; the reference and the three feedback operators advanced with `bt12 - 79.12`; the heater power cell set to the feedback in kW; one heater row appended; a transfer-function error panics |
| HeaterReactorClient.GuiClient.TransferFnTick | src/client/heater-with-reactor-feedback/main.rs:160-202 | one `[t, rad]` row and one `[t, input, output]` row appended, where the output is the sum of the two demo operators' responses |
| HeaterReactorClient.HeaterPanelDisplay | src/client/heater-with-reactor-feedback/app/panels/opcua_panel.rs:202-419 | the labels show the newest time, the power cell rounded to three decimals (hence within 0.0005) and the last plotted power rounded to four decimals (hence within 0.00005); the last bt11 and bt12 (zero if empty) are the values the plot bounds are made to include |
| HeaterReactorClient.ReactorPlotIndexOutOfRange | src/client/heater-with-reactor-feedback/app/panels/opcua_panel.rs:357-376 | a heater plot spanning 50 s with an empty reactor-feedback plot gives an eviction index beyond the reactor-feedback plot |
| HeaterReactorClient.ReactorPlotOwnWindowCatchesUp | src/client/heater-with-reactor-feedback/app/panels/opcua_panel.rs:357-376 | pruning the reactor-feedback plot by its own time keeps its newest time and, after enough frames, leaves exactly its last 45 s |
| CietServer.MatchTrueFalse | src/server/isothermal-and-heater/examples/ciet_server_old_with_deviation.rs:275-284 | `Boolean(true)` gives true and `Boolean(false)` gives false; every other variant panics |
| CietServer.ReadValves | src/server/isothermal-and-heater/examples/ciet_server_old_with_deviation.rs:266-296 | the three valve switches are read exactly when each node exists and holds a Boolean |
| CietServer.ValvesRoundTrip | src/server/isothermal-and-heater/examples/ciet_server_old_with_deviation.rs:266-296 | valve settings stored as Booleans are read back unchanged |
| CietServer.FldkSquared | src/server/isothermal-and-heater/examples/ciet_server_old_with_deviation.rs:420-453 | the squared fldk error is at least the CTAH-branch square and at most the sum of all three branch squares |
| CietServer.TotalSquared | src/server/isothermal-and-heater/examples/ciet_server_old_with_deviation.rs:464-478 | the squared total exceeds the squared fldk error by at least the squared flowmeter error and at least the squared manometer error |
| CietServer.ErrorBudget | src/server/isothermal-and-heater/examples/ciet_server_old_with_deviation.rs:420-472 | the `+=` accumulation gives the squared fldk error and the squared total of the valve-gated budget |
| CietServer.CtahTermAlwaysIncluded | src/server/isothermal-and-heater/examples/ciet_server_old_with_deviation.rs:420-426 | the squared fldk error always contains the CTAH-branch term, and is only that term when the CTAH valve is shut |
| CietServer.HeaterTermIffBothOpen | src/server/isothermal-and-heater/examples/ciet_server_old_with_deviation.rs:430-438 | the heater-branch term contributes its square if and only if the CTAH and heater valves are both open |
| CietServer.DhxTermIffBothOpen | src/server/isothermal-and-heater/examples/ciet_server_old_with_deviation.rs:442-450 | the DHX-branch term contributes its square if and only if the CTAH and DHX valves are both open |
| CietServer.FldkMonotoneInValves | src/server/isothermal-and-heater/examples/ciet_server_old_with_deviation.rs:420-450 | opening more valves never lowers the squared fldk error |
| CietServer.TotalDominatesComponents | src/server/isothermal-and-heater/examples/ciet_server_old_with_deviation.rs:464-472 | the squared total is at least the squared flowmeter error, the squared manometer error and the squared fldk error |
| CietServer.RootOrder | src/server/isothermal-and-heater/examples/ciet_server_old_with_deviation.rs:452-472 | for nonnegative roots, a smaller square has a smaller root |
| CietServer.PublishedTotalDominates | src/server/isothermal-and-heater/examples/ciet_server_old_with_deviation.rs:452-478 | the published total error, the root of the squared total, is at least the published fldk error and at least the magnitude of the flowmeter and of the manometer error |
| CietServer.TryIntoU16 | src/server/isothermal-and-heater/examples/ciet_server_old_with_deviation.rs:328-329 | the conversion to `u16` succeeds exactly below 65536 ms and keeps the value |
| CietServer.CheckedAddU16 | src/server/isothermal-and-heater/examples/ciet_server_old_with_deviation.rs:348-349 | the `u16` sum succeeds exactly when it does not overflow, and is then the exact sum |
| CietServer.WrappingAddU16 | src/server/isothermal-and-heater/examples/ciet_server_old_with_deviation.rs:348-349 | a release build's `u16` sum is the sum modulo 2^16 |
| CietServer.PublishTiming | src/server/isothermal-and-heater/examples/ciet_server_old_with_deviation.rs:328-356 | the timing step completes exactly when the two durations sum to less than 65536 ms, and a calculation time that does not fit publishes nothing |
| CietServer.PublishTimingContract | src/server/isothermal-and-heater/examples/ciet_server_old_with_deviation.rs:328-356 | the timing step completes if and only if the two durations sum to less than 65536 ms, and then publishes both and their exact sum; a calculation time that does not fit publishes nothing; every other node keeps its value |
| CietServer.WrappingAddUnderstates | src/server/isothermal-and-heater/examples/ciet_server_old_with_deviation.rs:348-349 | without the overflow check the published total would be smaller than either duration |
| CietServer.PublishBt12 | src/server/isothermal-and-heater/examples/ciet_server_old_with_deviation.rs:706-720 | the bt12 node then holds the temperature rounded to one decimal, within 0.05 °C of it, and every other node is unchanged and none is added |
| CietServer.PublishedBt12Reading | src/server/isothermal-and-heater/examples/ciet_server_old_with_deviation.rs:706-720 | the published bt12 is the temperature rounded to one decimal, within 0.05 °C; it is what the heater client reads at index 6; republishing it changes nothing |

## Left out

- The OPC-UA stack is not modelled: sessions, endpoints, security, subscriptions, `subscribe_to_variables` and `print_value`. The server is an ideal map from node ids to values. A read or write that returns an error status is not modelled; only missing or non-numeric values are.
- A dropped connection is not modelled: after a success the supervisor never retries, as in the source.
- Mutex poisoning is not modelled. A poller that panics on a bad value (`PollTick` returning `None`) still holds the lock of the cell it was filling (src/client/isothermal-and-heater/app/panels/opcua_panel.rs:278-288; src/client/heater-with-reactor-feedback/app/panels/opcua_panel.rs:556-575). That poisons the cell, and the supervisor's next lock of it panics too (src/client/isothermal-and-heater/main.rs:122-123; src/client/heater-with-reactor-feedback/main.rs:254-267): no more rows are appended and no reconnect is made. The model does not carry this, so `SupervisorTick` stays callable after `PollTick` returned `None`.
- The egui rendering, sliders, legends and the plot widgets are left out. The panels are modelled by the values they show (labels and the values the plot bounds include) and the buffer edits they make.
- Threads, `thread::sleep` and the `Arc<Mutex<…>>` cells are left out. Each loop iteration is one sequential method. Lock ordering and interleavings between threads are not captured, beyond `SeriesBuffer.PruneAtStableUnderAppend`.
- Floating point is modelled with `real`: `f32` casts, NaN, infinities and IEEE rounding are not. Ties in `f64::round` round away from zero.
- The transfer-function crate and the demo operators are opaque. Each is an arbitrary function of its input history. CSV logging is left out.
- The thermal-hydraulics simulation, the flowrate solvers and the error estimators for each branch are parameters of the error budget.
- Square roots are not taken. The error budget is stated on squared quantities, and `CietServer.RootOrder` relates roots to squares.
- `local_ip()` is not modelled: `HeaterReactorClient.GuiClient.StartSupervisor` builds the first endpoint from an address passed in, and the panic of a failed lookup is left out.
- The heater client's own `app.rs` is not part of this model, so `HeaterReactorClient.GuiClient.constructor` takes the address and zeroes the other cells.
- The server's address-space construction, the remaining polling actions and the server launcher are not part of this model.
- CietServer.PublishTiming: models the debug build, where an overflowing `u16` sum panics (`CheckedAddU16`). In a release build the sum wraps (`WrappingAddU16`, with `WrappingAddUnderstates`) and the step always completes.
- CietServer.PublishBt12: a map update inserts the bt12 node if it is missing, while the server's `set_variable_value` leaves an absent node absent and its result is discarded. The two agree on the server's address space, which creates that node at start-up; "none is added" holds for every other node. `PublishTiming` updates its three nodes the same way.
- CietServer.HeaterTermIffBothOpen: the third property is stated for a heater-branch error whose square is positive, rather than for a nonzero error.
- CietServer.DhxTermIffBothOpen: stated for a positive square in the same way.

## Findings

| source | as written | input that shows it | evidently intended | confidence | as-written member | corrected member |
|---|---|---|---|---|---|---|
| src/client/heater-with-reactor-feedback/app/panels/opcua_panel.rs:357-376 | the reactor-feedback plot is pruned at the index found in the heater plot's time column, and nothing ever appends to it | heater plot times `[0, 50]` with an empty reactor-feedback plot: the eviction index is 0, `Vec::remove(0)` panics on the empty vector | each plot is evicted by its own time column | not executed | HeaterReactorClient.ReactorPlotIndexOutOfRange | HeaterReactorClient.GuiClient.HeaterPanelUiOwnWindow, HeaterReactorClient.ReactorPlotOwnWindowCatchesUp |
