/** The clients' connection supervisor: one attempt at start-up, then on
    every tick a new attempt while (and only while) the last one failed,
    each to the endpoint rebuilt from the IP-address cell at that tick.
    A successful attempt starts one polling loop and is never retried.
    Whether an attempt succeeds is decided by the network, a parameter. */
module Supervision {
  import opened Wrappers

  const EndpointScheme: string := "opc.tcp://"
  const EndpointSuffix: string := ":4840/rust_ciet_opcua_server"

  /** The isothermal client's first endpoint: its port is malformed. */
  const IsothermalFirstEndpoint: string := "opc.tcp://10.25.199.152:4840abcde/rust_ciet_opcua_server"

  /** The endpoint URL the supervisors build from an IPv4 address. */
  function Endpoint(ip: string): (e: string)
    ensures |e| == |EndpointScheme| + |ip| + |EndpointSuffix|
    ensures e[..|EndpointScheme|] == EndpointScheme
    ensures e[|e| - |EndpointSuffix|..] == EndpointSuffix
  {
    EndpointScheme + ip + EndpointSuffix
  }

  /** The address an endpoint URL of that shape was built from. */
  function HostOf(endpoint: string): (ip: Option<string>)
    ensures ip.Some? ==> |endpoint| == |EndpointScheme| + |ip.value| + |EndpointSuffix|
  {
    if |endpoint| >= |EndpointScheme| + |EndpointSuffix|
       && endpoint[..|EndpointScheme|] == EndpointScheme
       && endpoint[|endpoint| - |EndpointSuffix|..] == EndpointSuffix
    then Some(endpoint[|EndpointScheme|..|endpoint| - |EndpointSuffix|])
    else None
  }

  /** The address can be recovered from the endpoint built from it. */
  lemma HostOfEndpoint(ip: string)
    ensures HostOf(Endpoint(ip)) == Some(ip)
  {
    var e := Endpoint(ip);
    assert e[|EndpointScheme|..|e| - |EndpointSuffix|] == ip;
  }

  /** Every URL of endpoint shape is the endpoint of its address. */
  lemma EndpointOfHost(endpoint: string)
    requires HostOf(endpoint).Some?
    ensures Endpoint(HostOf(endpoint).value) == endpoint
  {
    var ip := HostOf(endpoint).value;
    var n, k := |EndpointScheme|, |endpoint| - |EndpointSuffix|;
    assert endpoint == endpoint[..n] + endpoint[n..k] + endpoint[k..];
  }

  /** Different addresses give different endpoints. */
  lemma EndpointInjective(a: string, b: string)
    requires Endpoint(a) == Endpoint(b)
    ensures a == b
  {
    HostOfEndpoint(a);
    HostOfEndpoint(b);
  }

  /** The isothermal client's hard-coded first endpoint is not the endpoint
      of any address: its port reads `4840abcde`. */
  lemma FirstEndpointIsMalformed()
    ensures HostOf(IsothermalFirstEndpoint).None?
    ensures forall ip :: Endpoint(ip) != IsothermalFirstEndpoint
  {
    var e := IsothermalFirstEndpoint;
    assert e[|e| - |EndpointSuffix|] == 'a' != EndpointSuffix[0];
    assert e[|e| - |EndpointSuffix|..] != EndpointSuffix;
    forall ip
      ensures Endpoint(ip) != e
    {
      HostOfEndpoint(ip);
    }
  }

  /** `Result<(), StatusCode>` of `try_connect_to_server_and_run_client`. */
  datatype ConnectionResult = Connected | Failed

  /** The network's answer to the attempt with the given sequence number,
      made to the given endpoint. */
  type Network = (nat, string) -> bool

  /** The supervisor's state: the last connection result, the endpoints
      attempted so far, and the number of polling loops started. */
  datatype Supervisor = Supervisor(result: ConnectionResult, attempts: seq<string>, pollers: nat)
  {
    /** Exactly one polling loop runs once connected, none before. */
    predicate Consistent() {
      pollers == (if result.Connected? then 1 else 0)
    }
  }

  /** One call of `try_connect_to_server_and_run_client`: a success starts
      a polling loop. */
  function Attempt(s: Supervisor, endpoint: string, net: Network): (s': Supervisor)
    ensures s'.attempts == s.attempts + [endpoint]
    ensures s'.result.Connected? <==> net(|s.attempts|, endpoint)
    ensures s'.pollers == s.pollers + (if net(|s.attempts|, endpoint) then 1 else 0)
  {
    if net(|s.attempts|, endpoint)
    then Supervisor(Connected, s.attempts + [endpoint], s.pollers + 1)
    else Supervisor(Failed, s.attempts + [endpoint], s.pollers)
  }

  /** The state after the unconditional attempt at start-up. */
  function Start(firstEndpoint: string, net: Network): (s: Supervisor)
    ensures s.attempts == [firstEndpoint] && s.Consistent()
    ensures s.result.Connected? <==> net(0, firstEndpoint)
  {
    Attempt(Supervisor(Failed, [], 0), firstEndpoint, net)
  }

  /** One tick of the supervisor loop: reconnect only if the last result is
      an error. */
  function RetryIfFailed(s: Supervisor, endpoint: string, net: Network): (s': Supervisor)
    ensures s.result.Connected? ==> s' == s
    ensures s.result.Failed? ==> s' == Attempt(s, endpoint, net)
  {
    if s.result.Failed? then Attempt(s, endpoint, net) else s
  }

  /** The endpoints built from a sequence of IP-cell readings. */
  function Endpoints(ips: seq<string>): (es: seq<string>)
    ensures |es| == |ips|
    ensures forall i :: 0 <= i < |ips| ==> es[i] == Endpoint(ips[i])
  {
    seq(|ips|, i requires 0 <= i < |ips| => Endpoint(ips[i]))
  }

  /** The supervisor after one tick per IP-cell reading, in order. */
  function Run(s: Supervisor, ips: seq<string>, net: Network): (r: Supervisor)
    ensures |s.attempts| <= |r.attempts| <= |s.attempts| + |ips|
    ensures r.attempts[..|s.attempts|] == s.attempts
    decreases |ips|
  {
    if ips == [] then s else Run(RetryIfFailed(s, Endpoint(ips[0]), net), ips[1..], net)
  }

  /** Once connected the supervisor never attempts again. */
  lemma {:induction false} ConnectedIsFinal(s: Supervisor, ips: seq<string>, net: Network)
    requires s.result.Connected?
    ensures Run(s, ips, net) == s
    decreases |ips|
  {
    if ips != [] {
      ConnectedIsFinal(s, ips[1..], net);
    }
  }

  /** However many ticks run, at most one polling loop is ever started, and
      one is running exactly when the supervisor is connected. */
  lemma {:induction false} RunKeepsOnePoller(s: Supervisor, ips: seq<string>, net: Network)
    requires s.Consistent()
    ensures Run(s, ips, net).Consistent()
    decreases |ips|
  {
    if ips != [] {
      RunKeepsOnePoller(RetryIfFailed(s, Endpoint(ips[0]), net), ips[1..], net);
    }
  }

  /** From a failed state, the attempts made are the endpoints of the IP-cell
      readings, in order, up to and including the first success; and the
      supervisor is still failing only if every one of them was made. */
  lemma {:induction false} RunAttempts(s: Supervisor, ips: seq<string>, net: Network)
    requires s.result.Failed?
    ensures var r := Run(s, ips, net);
      && |s.attempts| <= |r.attempts| <= |s.attempts| + |ips|
      && r.attempts == s.attempts + Endpoints(ips)[..|r.attempts| - |s.attempts|]
      && (r.result.Failed? ==> r.attempts == s.attempts + Endpoints(ips))
      && (|r.attempts| < |s.attempts| + |ips| ==> r.result.Connected?)
    decreases |ips|
  {
    if ips != [] {
      var next := RetryIfFailed(s, Endpoint(ips[0]), net);
      assert next.attempts == s.attempts + [Endpoint(ips[0])];
      var r := Run(s, ips, net);
      assert r == Run(next, ips[1..], net);
      var rest := Endpoints(ips[1..]);
      assert Endpoints(ips) == [Endpoint(ips[0])] + rest;
      if next.result.Connected? {
        ConnectedIsFinal(next, ips[1..], net);
        assert r.attempts == s.attempts + Endpoints(ips)[..1];
      } else {
        RunAttempts(next, ips[1..], net);
        var k := |r.attempts| - |next.attempts|;
        assert r.attempts == next.attempts + rest[..k];
        assert Endpoints(ips)[..k + 1] == [Endpoint(ips[0])] + rest[..k];
      }
    }
  }

  /** Elapsed seconds from elapsed milliseconds. */
  function ElapsedSeconds(ms: nat): (s: real)
    ensures s >= 0.0 && s * 1000.0 == ms as real
  {
    ms as real / 1000.0
  }

  /** A later clock reading gives a later time stamp, so the buffers the
      supervisors append to are ordered by time. */
  lemma ElapsedSecondsMonotone(ms: nat, ms': nat)
    requires ms <= ms'
    ensures ElapsedSeconds(ms) <= ElapsedSeconds(ms')
  {
  }
}
