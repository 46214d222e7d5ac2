/** The slice of OPC UA the clients and the server exchange: variants,
    node ids in namespace `ns`, the fixed read lists and write batches of
    the two clients' polling loops, and an ideal server that answers reads
    from, and applies writes to, its address space. */
module Telemetry {
  import opened Wrappers

  /** The `Variant` kinds the programs produce or inspect. */
  datatype Variant =
    | Empty
    | Boolean(b: bool)
    | Float(f: real)
    | Double(d: real)
    | Int32(i: int)
    | String(s: string)

  /** A string node id inside a namespace. */
  datatype NodeId = NodeId(ns: nat, name: string)

  /** One result of a read: `DataValue::value` is absent when the server
      reports no value for the node. */
  datatype DataValue = DataValue(value: Option<Variant>)

  /** One element of a write batch: the `Value` attribute of `node`. */
  datatype WriteValue = WriteValue(node: NodeId, value: Variant)

  const CtahBranchMassFlowrate: string := "ctah_branch_mass_flowrate"
  const HeaterBranchFlowrate: string := "heater_branch_flowrate"
  const CalculationTime: string := "calculation_time"
  const CtahPumpPressure: string := "ctah_pump_pressure"
  const Bt11Temperature: string := "bt11_temperature_degC"
  const Bt12Temperature: string := "bt12_temperature_degC"
  const HeaterPowerKilowatts: string := "heater_power_kilowatts"

  /** `Variant::as_f64`: the numeric variants convert, the others do not. */
  function AsF64(v: Variant): (r: Option<real>)
    ensures r.Some? <==> v.Float? || v.Double? || v.Int32?
  {
    match v
    case Float(f) => Some(f)
    case Double(d) => Some(d)
    case Int32(i) => Some(i as real)
    case _ => None
  }

  /** `results[i].value.clone().unwrap().as_f64().unwrap()`: `None` stands
      for the panic of an index out of range, a missing value or a
      non-numeric variant. */
  function ValueAt(results: seq<DataValue>, i: nat): (r: Option<real>)
    ensures r.Some? <==> i < |results| && results[i].value.Some? && AsF64(results[i].value.value).Some?
    ensures r.Some? ==> r == AsF64(results[i].value.value)
  {
    if i < |results| && results[i].value.Some? then AsF64(results[i].value.value) else None
  }

  /** The read request of the isothermal client's polling loop. */
  function IsothermalReadNodes(ns: nat): (nodes: seq<NodeId>)
    ensures |nodes| == 4
    ensures forall i :: 0 <= i < |nodes| ==> nodes[i].ns == ns
    ensures nodes[3] == NodeId(ns, HeaterBranchFlowrate)
  {
    [ NodeId(ns, CtahBranchMassFlowrate), NodeId(ns, CtahPumpPressure),
      NodeId(ns, CalculationTime), NodeId(ns, HeaterBranchFlowrate) ]
  }

  /** The read request of the heater client's polling loop. */
  function HeaterReadNodes(ns: nat): (nodes: seq<NodeId>)
    ensures |nodes| == 7 && nodes[..4] == IsothermalReadNodes(ns)
    ensures forall i :: 0 <= i < |nodes| ==> nodes[i].ns == ns
    ensures nodes[3] == NodeId(ns, HeaterBranchFlowrate) && nodes[6] == NodeId(ns, Bt12Temperature)
  {
    [ NodeId(ns, CtahBranchMassFlowrate), NodeId(ns, CtahPumpPressure),
      NodeId(ns, CalculationTime), NodeId(ns, HeaterBranchFlowrate),
      NodeId(ns, Bt11Temperature), NodeId(ns, HeaterPowerKilowatts),
      NodeId(ns, Bt12Temperature) ]
  }

  /** The isothermal client's write batch: the pump pressure alone. */
  function IsothermalWrites(ns: nat, pumpPressurePa: real): (writes: seq<WriteValue>)
    ensures forall w :: w in writes ==> w.node in IsothermalReadNodes(ns) && w.node != NodeId(ns, HeaterBranchFlowrate)
    ensures writes == [WriteValue(IsothermalReadNodes(ns)[1], Float(pumpPressurePa))]
  {
    [ WriteValue(NodeId(ns, CtahPumpPressure), Float(pumpPressurePa)) ]
  }

  /** The heater client's write batch: pump pressure, inlet temperature and
      heater power, in that order. */
  function HeaterWrites(ns: nat, pumpPressurePa: real, bt11DegC: real, heaterPowerKw: real): (writes: seq<WriteValue>)
    ensures |writes| == 3
    ensures forall w :: w in writes ==>
      && w.node in HeaterReadNodes(ns)
      && w.node != NodeId(ns, HeaterBranchFlowrate) && w.node != NodeId(ns, Bt12Temperature)
    ensures writes[0] == WriteValue(HeaterReadNodes(ns)[1], Float(pumpPressurePa))
    ensures writes[1] == WriteValue(HeaterReadNodes(ns)[4], Float(bt11DegC))
    ensures writes[2] == WriteValue(HeaterReadNodes(ns)[5], Float(heaterPowerKw))
  {
    [ WriteValue(NodeId(ns, CtahPumpPressure), Float(pumpPressurePa)),
      WriteValue(NodeId(ns, Bt11Temperature), Float(bt11DegC)),
      WriteValue(NodeId(ns, HeaterPowerKilowatts), Float(heaterPowerKw)) ]
  }

  /** The server's variables and their current values. */
  type AddressSpace = map<NodeId, Variant>

  /** The numeric value a node holds, if any. */
  function Stored(space: AddressSpace, node: NodeId): Option<real>
  {
    if node in space then AsF64(space[node]) else None
  }

  /** An ideal server's answer to a read: one result per requested node, in
      request order, with no value for a node it does not have. */
  function Read(space: AddressSpace, nodes: seq<NodeId>): (results: seq<DataValue>)
    ensures |results| == |nodes|
    ensures forall i :: 0 <= i < |nodes| ==>
      results[i] == (if nodes[i] in space then DataValue(Some(space[nodes[i]])) else DataValue(None))
  {
    seq(|nodes|, i requires 0 <= i < |nodes| =>
      if nodes[i] in space then DataValue(Some(space[nodes[i]])) else DataValue(None))
  }

  /** An ideal server applying a write batch, element by element. */
  function Write(space: AddressSpace, writes: seq<WriteValue>): AddressSpace
    decreases writes
  {
    if writes == [] then space
    else Write(space[writes[0].node := writes[0].value], writes[1..])
  }

  /** Reading what was requested gives each position the value of the node
      requested there: so the fixed indices the polling loops use (3 and 6)
      are the heater-branch flowrate and the outlet temperature. */
  lemma {:induction false} ReadIndexContract(space: AddressSpace, ns: nat)
    ensures ValueAt(Read(space, HeaterReadNodes(ns)), 3) == Stored(space, NodeId(ns, HeaterBranchFlowrate))
    ensures ValueAt(Read(space, HeaterReadNodes(ns)), 6) == Stored(space, NodeId(ns, Bt12Temperature))
    ensures ValueAt(Read(space, IsothermalReadNodes(ns)), 3) == Stored(space, NodeId(ns, HeaterBranchFlowrate))
  {
  }

  /** The heater client's three setpoints, written and then read back on
      the next tick from an ideal echoing server, come back unchanged;
      the two values the client reads for itself are untouched. */
  lemma {:induction false} HeaterWriteThenRead(space: AddressSpace, ns: nat, pumpPressurePa: real, bt11DegC: real, heaterPowerKw: real)
    ensures var after := Read(Write(space, HeaterWrites(ns, pumpPressurePa, bt11DegC, heaterPowerKw)), HeaterReadNodes(ns));
      && ValueAt(after, 1) == Some(pumpPressurePa)
      && ValueAt(after, 4) == Some(bt11DegC)
      && ValueAt(after, 5) == Some(heaterPowerKw)
      && ValueAt(after, 3) == Stored(space, NodeId(ns, HeaterBranchFlowrate))
      && ValueAt(after, 6) == Stored(space, NodeId(ns, Bt12Temperature))
  {
    var pump, bt11, power := NodeId(ns, CtahPumpPressure), NodeId(ns, Bt11Temperature), NodeId(ns, HeaterPowerKilowatts);
    var flow, bt12 := NodeId(ns, HeaterBranchFlowrate), NodeId(ns, Bt12Temperature);
    var writes := HeaterWrites(ns, pumpPressurePa, bt11DegC, heaterPowerKw);
    DistinctNames();
    var s1 := space[pump := Float(pumpPressurePa)];
    var s2 := s1[bt11 := Float(bt11DegC)];
    var s3 := s2[power := Float(heaterPowerKw)];
    assert Write(space, writes) == Write(s1, writes[1..]);
    assert Write(s1, writes[1..]) == Write(s2, writes[2..]);
    assert Write(s2, writes[2..]) == Write(s3, writes[3..]);
    assert writes[3..] == [];
    ReadIndexContract(s3, ns);
  }

  /** The isothermal client's pump pressure, written and read back on the
      next tick from an ideal echoing server, comes back unchanged, and the
      flowrate it reads is untouched. */
  lemma {:induction false} IsothermalWriteThenRead(space: AddressSpace, ns: nat, pumpPressurePa: real)
    ensures var after := Read(Write(space, IsothermalWrites(ns, pumpPressurePa)), IsothermalReadNodes(ns));
      && ValueAt(after, 1) == Some(pumpPressurePa)
      && ValueAt(after, 3) == Stored(space, NodeId(ns, HeaterBranchFlowrate))
  {
    var pump := NodeId(ns, CtahPumpPressure);
    DistinctNames();
    assert Write(space, IsothermalWrites(ns, pumpPressurePa)) == space[pump := Float(pumpPressurePa)];
  }

  /** The node names the polling loops use are pairwise different. */
  lemma DistinctNames()
    ensures CtahPumpPressure != HeaterBranchFlowrate && CtahPumpPressure != Bt12Temperature
    ensures Bt11Temperature != HeaterBranchFlowrate && Bt11Temperature != Bt12Temperature
    ensures HeaterPowerKilowatts != HeaterBranchFlowrate && HeaterPowerKilowatts != Bt12Temperature
    ensures CtahPumpPressure != Bt11Temperature && CtahPumpPressure != HeaterPowerKilowatts
    ensures Bt11Temperature != HeaterPowerKilowatts
  {
    assert CtahPumpPressure[0] != HeaterBranchFlowrate[0];
    assert CtahPumpPressure[0] != Bt12Temperature[0];
    assert Bt11Temperature[0] != HeaterBranchFlowrate[0];
    assert Bt11Temperature[3] != Bt12Temperature[3];
    assert HeaterPowerKilowatts[7] != HeaterBranchFlowrate[7];
    assert HeaterPowerKilowatts[0] != Bt12Temperature[0];
    assert CtahPumpPressure[0] != Bt11Temperature[0];
    assert CtahPumpPressure[0] != HeaterPowerKilowatts[0];
    assert Bt11Temperature[0] != HeaterPowerKilowatts[0];
  }
}
