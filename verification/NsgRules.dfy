/**
 Network security group rules: what the load balancer controller generates for a service, and how
 generated and existing rules are compared.
 */
module NsgRules {
  import opened Common
  import opened SecurityRules
  import opened SecurityListCalculators

  datatype Direction = Ingress | Egress

  datatype EndpointType = NoEndpoint | CidrBlock | SecurityGroup

  /** `extra` stands for the fields that are neither generated nor compared. */
  datatype NsgRule = NsgRule(
    description: Option<string>, protocol: Option<string>, source: Option<string>, sourceType: EndpointType,
    destination: Option<string>, destinationType: EndpointType, tcp: Option<TcpOptions>, direction: Direction,
    stateless: Option<bool>, extra: string)

  function Deref(s: Option<string>): string {
    if s.Some? then s.value else ""
  }

  /** What findSecurityRule compares. */
  datatype Key = Key(description: string, protocol: string, source: string, sourceType: EndpointType,
                     destination: string, destinationType: EndpointType, tcp: Option<TcpOptions>, direction: Direction)

  /** `fold` maps a string to the canonical form under which case-insensitive comparison is equality. */
  function KeyOf(fold: string -> string, r: NsgRule): Key {
    Key(fold(Deref(r.description)), fold(Deref(r.protocol)), fold(Deref(r.source)), r.sourceType,
        fold(Deref(r.destination)), r.destinationType, r.tcp, r.direction)
  }

  /** The eight comparisons of findSecurityRule: four strings up to case, the rest exactly. */
  predicate ComparesEqual(fold: string -> string, a: NsgRule, b: NsgRule) {
    && fold(Deref(a.description)) == fold(Deref(b.description)) && fold(Deref(a.protocol)) == fold(Deref(b.protocol))
    && fold(Deref(a.source)) == fold(Deref(b.source)) && fold(Deref(a.destination)) == fold(Deref(b.destination))
    && a.sourceType == b.sourceType && a.destinationType == b.destinationType
    && a.tcp == b.tcp && a.direction == b.direction
  }

  function Keys(fold: string -> string, rules: seq<NsgRule>): set<Key> {
    set r | r in rules :: KeyOf(fold, r)
  }

  /** makeNsgSecurityRule. */
  function MakeNsgRule(direction: Direction, endpoint: string, serviceUid: string, port: int,
                       endpointType: EndpointType): (r: NsgRule)
    ensures r.description == Some(serviceUid) && r.direction == direction && EndpointOf(r) == endpoint &&
            PortOf(r) == port && r.stateless == Some(false)
    ensures forall dir, t, e, q :: Lets(Exactly(), r, dir, t, e, q) <==>
                                   dir == direction && t == endpointType && e == endpoint && q == port
  {
    var tcp := Some(TcpOptions(Some(PortRange(port, port)), None));
    match direction
    case Egress => NsgRule(Some(serviceUid), Some("6"), None, NoEndpoint, Some(endpoint), endpointType, tcp, Egress,
                           Some(false), "")
    case Ingress => NsgRule(Some(serviceUid), Some("6"), Some(endpoint), endpointType, None, NoEndpoint, tcp, Ingress,
                            Some(false), "")
  }

  /** The rule lets TCP traffic through in this direction, with this kind of endpoint, to port q; names
      count up to `fold`. */
  predicate Lets(fold: string -> string, r: NsgRule, dir: Direction, t: EndpointType, endpoint: string, q: int) {
    && r.direction == dir && fold(Deref(r.protocol)) == fold("6")
    && (if dir == Ingress then fold(Deref(r.source)) == fold(endpoint) && r.sourceType == t
        else fold(Deref(r.destination)) == fold(endpoint) && r.destinationType == t)
    && r.tcp.Some? && r.tcp.value.source.None? && r.tcp.value.destination.Some?
    && r.tcp.value.destination.value.min <= q <= r.tcp.value.destination.value.max
  }

  /** Names count exactly. */
  function Exactly(): string -> string {
    (s: string) => s
  }

  /** Some rule lets the traffic through. */
  ghost predicate Opens(rules: seq<NsgRule>, dir: Direction, t: EndpointType, endpoint: string, q: int) {
    exists r :: r in rules && Lets(Exactly(), r, dir, t, endpoint, q)
  }

  function EndpointOf(r: NsgRule): string {
    if r.direction == Egress then Deref(r.destination) else Deref(r.source)
  }

  function PortOf(r: NsgRule): int {
    if r.tcp.Some? && r.tcp.value.destination.Some? then r.tcp.value.destination.value.min else 0
  }

  /** The rule is the one made for some of these endpoints and ports. */
  predicate IsMade(r: NsgRule, direction: Direction, uid: string, t: EndpointType, endpoints: set<string>,
                   ports: set<int>) {
    r == MakeNsgRule(direction, EndpointOf(r), uid, PortOf(r), t) && EndpointOf(r) in endpoints && PortOf(r) in ports
  }

  // ---------- Generation. `ports` is the port map in the order it is iterated ----------

  function ListenerPorts(ports: seq<PortSpec>): set<int> {
    set p | p in ports && p.listener != 0 :: p.listener
  }

  function BackendPorts(ports: seq<PortSpec>): set<int> {
    set p | p in ports && p.backend != 0 :: p.backend
  }

  function HealthPorts(ports: seq<PortSpec>): set<int> {
    set p | p in ports && p.health != 0 :: p.health
  }

  /** The health-check port that is seen first; no port if none is set. */
  function FirstHealth(ports: seq<PortSpec>): (h: set<int>)
    ensures h <= HealthPorts(ports) && (h == {} <==> HealthPorts(ports) == {})
    ensures forall x, y | x in h && y in h :: x == y
  {
    if ports == [] then {}
    else
      var n := |ports| - 1;
      assert ports == ports[..n] + [ports[n]];
      var h := FirstHealth(ports[..n]);
      if h != {} then h else if ports[n].health != 0 then {ports[n].health} else {}
  }

  /** The ports on which a backend must be reachable. */
  function BackendTargets(ports: seq<PortSpec>): set<int> {
    BackendPorts(ports) + FirstHealth(ports)
  }

  predicate IsBackendIngress(r: NsgRule, ports: seq<PortSpec>, sources: seq<string>, preserve: bool, frontend: string,
                             uid: string) {
    (preserve && IsMade(r, Ingress, uid, CidrBlock, ToSet(sources), BackendPorts(ports))) ||
    IsMade(r, Ingress, uid, SecurityGroup, {frontend}, BackendTargets(ports))
  }

  predicate IsLbIngress(r: NsgRule, ports: seq<PortSpec>, sources: seq<string>, uid: string) {
    IsMade(r, Ingress, uid, CidrBlock, ToSet(sources), ListenerPorts(ports))
  }

  predicate IsLbEgress(r: NsgRule, ports: seq<PortSpec>, backends: seq<string>, uid: string) {
    IsMade(r, Egress, uid, SecurityGroup, ToSet(backends), BackendTargets(ports))
  }

  // ---------- What the generated rules open, in terms of the port map ----------

  ghost predicate IsListener(ports: seq<PortSpec>, q: int) {
    q != 0 && exists p :: p in ports && p.listener == q
  }

  ghost predicate IsBackend(ports: seq<PortSpec>, q: int) {
    q != 0 && exists p :: p in ports && p.backend == q
  }

  /** The first health-check port that is set, in iteration order. */
  ghost predicate IsFirstHealth(ports: seq<PortSpec>, q: int) {
    q != 0 && exists i :: 0 <= i < |ports| && ports[i].health == q && forall j | 0 <= j < i :: ports[j].health == 0
  }

  /** A port on which backends must be reachable. */
  ghost predicate IsTarget(ports: seq<PortSpec>, q: int) {
    IsBackend(ports, q) || IsFirstHealth(ports, q)
  }

  /** What a backend group is to let in: the frontend group on the target ports, and preserved sources
      on the backend ports. */
  ghost predicate BackendOpens(ports: seq<PortSpec>, sources: seq<string>, preserve: bool, frontend: string,
                               dir: Direction, t: EndpointType, e: string, q: int) {
    && dir == Ingress
    && ((preserve && t == CidrBlock && e in sources && IsBackend(ports, q)) ||
        (t == SecurityGroup && e == frontend && IsTarget(ports, q)))
  }

  lemma {:induction false} FirstHealthMeans(ports: seq<PortSpec>, q: int)
    ensures q in FirstHealth(ports) <==> IsFirstHealth(ports, q)
    ensures FirstHealth(ports) == {} <==> forall i | 0 <= i < |ports| :: ports[i].health == 0
  {
    if ports != [] {
      var n := |ports| - 1;
      FirstHealthMeans(ports[..n], q);
      assert forall i | 0 <= i < n :: ports[i] == ports[..n][i];
      if IsFirstHealth(ports[..n], q) {
        var i :| 0 <= i < n && ports[..n][i].health == q && forall j | 0 <= j < i :: ports[..n][j].health == 0;
        assert ports[i].health == q;
      }
      if FirstHealth(ports[..n]) == {} && ports[n].health == q {
        assert forall j | 0 <= j < n :: ports[j].health == 0;
      }
    }
  }

  lemma TargetsMean(ports: seq<PortSpec>, q: int)
    ensures q in ListenerPorts(ports) <==> IsListener(ports, q)
    ensures q in BackendPorts(ports) <==> IsBackend(ports, q)
    ensures q in BackendTargets(ports) <==> IsTarget(ports, q)
  {
    FirstHealthMeans(ports, q);
  }

  /** Rules made for endpoints and ports open exactly these. */
  lemma MadeOpens(rules: seq<NsgRule>, direction: Direction, uid: string, kind: EndpointType, endpoints: set<string>,
                  ports: set<int>, dir: Direction, t: EndpointType, e: string, q: int)
    requires forall r :: r in rules <==> IsMade(r, direction, uid, kind, endpoints, ports)
    ensures Opens(rules, dir, t, e, q) <==> dir == direction && t == kind && e in endpoints && q in ports
  {
    if dir == direction && t == kind && e in endpoints && q in ports {
      var r := MakeNsgRule(direction, e, uid, q, kind);
      assert IsMade(r, direction, uid, kind, endpoints, ports);
      assert r in rules && Lets(Exactly(), r, dir, t, e, q);
    }
    if r :| r in rules && Lets(Exactly(), r, dir, t, e, q) {
      assert IsMade(r, direction, uid, kind, endpoints, ports);
    }
  }

  lemma OpensConcat(a: seq<NsgRule>, b: seq<NsgRule>, dir: Direction, t: EndpointType, e: string, q: int)
    ensures Opens(a + b, dir, t, e, q) <==> Opens(a, dir, t, e, q) || Opens(b, dir, t, e, q)
  {
    if r :| r in a && Lets(Exactly(), r, dir, t, e, q) { assert r in a + b; }
    if r :| r in b && Lets(Exactly(), r, dir, t, e, q) { assert r in a + b; }
  }

  lemma PortsStep(ports: seq<PortSpec>, i: nat)
    requires i < |ports|
    ensures BackendPorts(ports[..i + 1]) ==
            BackendPorts(ports[..i]) + (if ports[i].backend != 0 then {ports[i].backend} else {})
    ensures FirstHealth(ports[..i + 1]) ==
            if FirstHealth(ports[..i]) != {} then FirstHealth(ports[..i])
                else if ports[i].health != 0 then {ports[i].health} else {}
    ensures BackendTargets(ports[..i + 1]) ==
            BackendTargets(ports[..i]) + (if ports[i].backend != 0 then {ports[i].backend} else {}) +
            (if FirstHealth(ports[..i]) == {} && ports[i].health != 0 then {ports[i].health} else {})
  {
    assert ports[..i + 1] == ports[..i] + [ports[i]] && ports[..i + 1][..i] == ports[..i];
  }

  lemma ListenerStep(ports: seq<PortSpec>, i: nat)
    requires i < |ports|
    ensures ListenerPorts(ports[..i + 1]) ==
            ListenerPorts(ports[..i]) + (if ports[i].listener != 0 then {ports[i].listener} else {})
  {
    assert ports[..i + 1] == ports[..i] + [ports[i]];
  }

  /** An inner loop: a rule for each endpoint on one port. */
  method MakeForEach(direction: Direction, endpoints: seq<string>, uid: string, port: int, t: EndpointType)
      returns (rules: seq<NsgRule>)
    ensures forall r :: r in rules <==> IsMade(r, direction, uid, t, ToSet(endpoints), {port})
  {
    rules := [];
    for i := 0 to |endpoints|
      invariant forall r :: r in rules <==> IsMade(r, direction, uid, t, ToSet(endpoints[..i]), {port})
    {
      var made := MakeNsgRule(direction, endpoints[i], uid, port, t);
      assert ToSet(endpoints[..i + 1]) == ToSet(endpoints[..i]) + {endpoints[i]};
      rules := rules + [made];
    }
    assert endpoints[..|endpoints|] == endpoints;
  }

  /** The first loop of generateNsgBackendIngressRules: preserved sources reach the backend ports. */
  method GenerateSourceRules(ports: seq<PortSpec>, sourceCIDRs: seq<string>, serviceUid: string)
      returns (rules: seq<NsgRule>)
    ensures forall r :: r in rules <==>
            IsMade(r, Ingress, serviceUid, CidrBlock, ToSet(sourceCIDRs), BackendPorts(ports))
  {
    rules := [];
    for i := 0 to |ports|
      invariant forall r :: r in rules <==>
                IsMade(r, Ingress, serviceUid, CidrBlock, ToSet(sourceCIDRs), BackendPorts(ports[..i]))
    {
      PortsStep(ports, i);
      if ports[i].backend != 0 {
        var more := MakeForEach(Ingress, sourceCIDRs, serviceUid, ports[i].backend, CidrBlock);
        rules := rules + more;
      }
    }
    assert ports[..|ports|] == ports;
  }

  /** One iteration of the loops with the health-check flag. */
  method MakeForPort(direction: Direction, endpoints: seq<string>, port: PortSpec, healthCheckPortFound: bool,
                     uid: string)
    returns (rules: seq<NsgRule>, found: bool)
    ensures found == (healthCheckPortFound || port.health != 0)
    ensures forall r :: r in rules <==>
                        IsMade(r, direction, uid, SecurityGroup, ToSet(endpoints),
                               (if port.backend != 0 then {port.backend} else {}) +
                               (if !healthCheckPortFound && port.health != 0 then {port.health} else {}))
  {
    rules, found := [], healthCheckPortFound;
    if port.backend != 0 {
      rules := MakeForEach(direction, endpoints, uid, port.backend, SecurityGroup);
    }
    if !found && port.health != 0 {
      found := true;
      var more := MakeForEach(direction, endpoints, uid, port.health, SecurityGroup);
      rules := rules + more;
    }
  }

  /** The loop shared by backend ingress, whose one endpoint is the frontend group, and load
      balancer egress, whose endpoints are the backend groups. */
  method MakeForTargets(direction: Direction, endpoints: seq<string>, ports: seq<PortSpec>, uid: string)
      returns (rules: seq<NsgRule>)
    ensures forall r :: r in rules <==>
            IsMade(r, direction, uid, SecurityGroup, ToSet(endpoints), BackendTargets(ports))
  {
    rules := [];
    var healthCheckPortFound := false;
    for i := 0 to |ports|
      invariant healthCheckPortFound <==> FirstHealth(ports[..i]) != {}
      invariant forall r :: r in rules <==>
                IsMade(r, direction, uid, SecurityGroup, ToSet(endpoints), BackendTargets(ports[..i]))
    {
      PortsStep(ports, i);
      var more, found := MakeForPort(direction, endpoints, ports[i], healthCheckPortFound, uid);
      rules, healthCheckPortFound := rules + more, found;
    }
    assert ports[..|ports|] == ports;
  }

  method GenerateNsgBackendIngressRules(ports: seq<PortSpec>, sourceCIDRs: seq<string>, isPreserveSource: bool,
                                        frontendNsgId: string, serviceUid: string)
    returns (ingressRules: seq<NsgRule>)
    ensures forall r :: r in ingressRules <==>
            IsBackendIngress(r, ports, sourceCIDRs, isPreserveSource, frontendNsgId, serviceUid)
    ensures forall dir, t, e, q :: Opens(ingressRules, dir, t, e, q) <==>
                                   BackendOpens(ports, sourceCIDRs, isPreserveSource, frontendNsgId, dir, t, e, q)
  {
    ingressRules := [];
    if isPreserveSource {
      ingressRules := GenerateSourceRules(ports, sourceCIDRs, serviceUid);
    }
    assert ToSet([frontendNsgId]) == {frontendNsgId};
    var more := MakeForTargets(Ingress, [frontendNsgId], ports, serviceUid);
    forall dir, t, e, q ensures Opens(ingressRules + more, dir, t, e, q) <==>
                                BackendOpens(ports, sourceCIDRs, isPreserveSource, frontendNsgId, dir, t, e, q) {
      OpensConcat(ingressRules, more, dir, t, e, q);
      TargetsMean(ports, q);
      MadeOpens(more, Ingress, serviceUid, SecurityGroup, {frontendNsgId}, BackendTargets(ports), dir, t, e, q);
      if isPreserveSource {
        MadeOpens(ingressRules, Ingress, serviceUid, CidrBlock, ToSet(sourceCIDRs), BackendPorts(ports), dir, t, e, q);
      }
    }
    ingressRules := ingressRules + more;
  }

  method GenerateNsgLoadBalancerIngressRules(sourceCIDRs: seq<string>, ports: seq<PortSpec>, serviceUid: string)
    returns (ingressRules: seq<NsgRule>)
    ensures forall r :: r in ingressRules <==> IsLbIngress(r, ports, sourceCIDRs, serviceUid)
    ensures forall dir, t, e, q :: Opens(ingressRules, dir, t, e, q) <==>
                                   dir == Ingress && t == CidrBlock && e in sourceCIDRs && IsListener(ports, q)
  {
    ingressRules := [];
    if |sourceCIDRs| == 0 {
      return;
    }
    for i := 0 to |ports|
      invariant forall r :: r in ingressRules <==> IsLbIngress(r, ports[..i], sourceCIDRs, serviceUid)
    {
      ListenerStep(ports, i);
      if ports[i].listener != 0 {
        var more := MakeForEach(Ingress, sourceCIDRs, serviceUid, ports[i].listener, CidrBlock);
        ingressRules := ingressRules + more;
      }
    }
    assert ports[..|ports|] == ports;
    LbIngressOpens(ingressRules, ports, sourceCIDRs, serviceUid);
  }

  lemma LbIngressOpens(rules: seq<NsgRule>, ports: seq<PortSpec>, sources: seq<string>, uid: string)
    requires forall r :: r in rules <==> IsLbIngress(r, ports, sources, uid)
    ensures forall dir, t, e, q :: Opens(rules, dir, t, e, q) <==>
                                   dir == Ingress && t == CidrBlock && e in sources && IsListener(ports, q)
  {
    forall dir, t, e, q ensures Opens(rules, dir, t, e, q) <==>
                                dir == Ingress && t == CidrBlock && e in sources && IsListener(ports, q) {
      MadeOpens(rules, Ingress, uid, CidrBlock, ToSet(sources), ListenerPorts(ports), dir, t, e, q);
      TargetsMean(ports, q);
    }
  }

  method GenerateNsgLoadBalancerEgressRules(ports: seq<PortSpec>, backendNsgIds: seq<string>, serviceUid: string)
    returns (egressRules: seq<NsgRule>)
    ensures forall r :: r in egressRules <==> IsLbEgress(r, ports, backendNsgIds, serviceUid)
    ensures forall dir, t, e, q :: Opens(egressRules, dir, t, e, q) <==>
                                   dir == Egress && t == SecurityGroup && e in backendNsgIds && IsTarget(ports, q)
  {
    egressRules := [];
    if |backendNsgIds| == 0 {
      return;
    }
    egressRules := MakeForTargets(Egress, backendNsgIds, ports, serviceUid);
    forall dir, t, e, q ensures Opens(egressRules, dir, t, e, q) <==>
                                dir == Egress && t == SecurityGroup && e in backendNsgIds && IsTarget(ports, q) {
      MadeOpens(egressRules, Egress, serviceUid, SecurityGroup, ToSet(backendNsgIds), BackendTargets(ports),
                dir, t, e, q);
      TargetsMean(ports, q);
    }
  }

  // ---------- Iteration order ----------

  /** Two iterations of one port map. */
  ghost predicate SamePorts(a: seq<PortSpec>, b: seq<PortSpec>) {
    multiset(a) == multiset(b)
  }

  lemma SamePortSets(a: seq<PortSpec>, b: seq<PortSpec>)
    requires SamePorts(a, b)
    ensures ListenerPorts(a) == ListenerPorts(b) && BackendPorts(a) == BackendPorts(b) &&
            HealthPorts(a) == HealthPorts(b)
  {
    assert forall p :: p in a <==> p in multiset(a);
    assert forall p :: p in b <==> p in multiset(b);
  }

  /** Every iteration order leads to the same targets. */
  ghost predicate OrderIndependent(ports: seq<PortSpec>) {
    forall other | SamePorts(ports, other) :: BackendTargets(other) == BackendTargets(ports)
  }

  /** The first-seen health-check flag is harmless exactly when the set health-check ports agree or
      are all backend ports anyway. */
  lemma OrderIndependentIff(ports: seq<PortSpec>)
    ensures OrderIndependent(ports) <==>
            (forall x, y | x in HealthPorts(ports) && y in HealthPorts(ports) :: x == y) ||
                HealthPorts(ports) <= BackendPorts(ports)
  {
    var agree := forall x, y | x in HealthPorts(ports) && y in HealthPorts(ports) :: x == y;
    if agree || HealthPorts(ports) <= BackendPorts(ports) {
      forall other | SamePorts(ports, other) ensures BackendTargets(other) == BackendTargets(ports) {
        SamePortSets(ports, other);
        if agree { AgreedHealth(ports); AgreedHealth(other); }
      }
    } else {
      var x :| x in HealthPorts(ports) && x !in BackendPorts(ports);
      var y :| y in HealthPorts(ports) && x != y;
      var first := PutFirst(ports, x);
      var second := PutFirst(ports, y);
      SamePortSets(ports, first);
      SamePortSets(ports, second);
      assert x in BackendTargets(first) && x !in BackendTargets(second);
    }
  }

  lemma AgreedHealth(ports: seq<PortSpec>)
    requires forall x, y | x in HealthPorts(ports) && y in HealthPorts(ports) :: x == y
    ensures FirstHealth(ports) == HealthPorts(ports)
  {
    var h := FirstHealth(ports);
    if h != {} {
      var x :| x in h;
      assert HealthPorts(ports) == {x};
    }
  }

  /** An order that meets a given health-check port first. */
  lemma PutFirst(ports: seq<PortSpec>, h: int) returns (other: seq<PortSpec>)
    requires h in HealthPorts(ports)
    ensures SamePorts(ports, other) && FirstHealth(other) == {h}
  {
    var i :| 0 <= i < |ports| && ports[i].health == h;
    var rest := ports[..i] + ports[i + 1..];
    other := [ports[i]] + rest;
    assert ports == ports[..i] + [ports[i]] + ports[i + 1..];
    HeadHealth(ports[i], rest);
  }

  lemma {:induction false} HeadHealth(p: PortSpec, rest: seq<PortSpec>)
    requires p.health != 0
    ensures FirstHealth([p] + rest) == {p.health}
  {
    var all := [p] + rest;
    if rest == [] {
      assert all[..0] == [];
    } else {
      HeadHealth(p, rest[..|rest| - 1]);
      assert all[..|all| - 1] == [p] + rest[..|rest| - 1];
    }
  }

  /** When the set health-check ports agree, all three generated rule sets are independent of the
      iteration order. */
  lemma GeneratedIndependent(ports: seq<PortSpec>, other: seq<PortSpec>, sources: seq<string>, preserve: bool,
                             frontend: string,
                             backends: seq<string>, uid: string)
    requires SamePorts(ports, other)
    requires forall x, y | x in HealthPorts(ports) && y in HealthPorts(ports) :: x == y
    ensures forall r :: IsBackendIngress(r, ports, sources, preserve, frontend, uid) <==>
            IsBackendIngress(r, other, sources, preserve, frontend, uid)
    ensures forall r :: IsLbIngress(r, ports, sources, uid) <==> IsLbIngress(r, other, sources, uid)
    ensures forall r :: IsLbEgress(r, ports, backends, uid) <==> IsLbEgress(r, other, backends, uid)
  {
    SamePortSets(ports, other);
    OrderIndependentIff(ports);
  }
}
