/**
 The three rule calculators of the security-list manager. Each method is the one-pass loop of the
 source; its contract equates the result with filters and single-port merges.
 */
module SecurityListCalculators {
  import opened Common
  import opened SortedStrings
  import opened SecurityRules

  const IPV4 := "IPv4"
  const IPV6 := "IPv6"

  /** kube-proxy's health port, shared by every service with the Cluster traffic policy. */
  const LB_NODES_HEALTH_CHECK_PORT := 10256

  datatype PortSpec = PortSpec(listener: int, backend: int, health: int)

  datatype Subnet = Subnet(id: string, cidrBlock: Option<string>, ipv6CidrBlocks: seq<string>,
                           securityListIds: seq<string>)

  datatype TrafficPolicy = Cluster | Local | Unset

  datatype Service = Service(deleting: bool, isLoadBalancer: bool, ports: seq<int>, policy: TrafficPolicy,
                             healthCheckNodePort: int)

  /** What the service lister answers; None when listing fails. */
  type Listing = Option<seq<Service>>

  function ToSet(s: seq<string>): set<string> {
    set x | x in s
  }

  // ---------- Ports in use ----------

  predicate UsesPort(s: Service, port: int) {
    !s.deleting && s.isLoadBalancer && port in s.ports
  }

  predicate UsesHealthPort(s: Service, port: int) {
    && !s.deleting && s.isLoadBalancer
    && ((s.policy == Cluster && port == LB_NODES_HEALTH_CHECK_PORT) ||
        (s.policy == Local && port == s.healthCheckNodePort))
  }

  /** Unwanted rules of a listener port stay while a service uses it, or when nobody can tell. */
  predicate ListenerNeeded(listing: Listing, port: int) {
    listing.None? || exists s | s in listing.value :: UsesPort(s, port)
  }

  predicate HealthNeeded(listing: Listing, port: int) {
    listing.None? || exists s | s in listing.value :: UsesHealthPort(s, port)
  }

  method PortInUse(listing: Listing, port: int) returns (inUse: bool, failed: bool)
    ensures failed == listing.None?
    ensures (inUse || failed) == ListenerNeeded(listing, port)
    ensures inUse <==> listing.Some? && exists s :: && s in listing.value && !s.deleting && s.isLoadBalancer
                                                   && port in s.ports
  {
    if listing.None? { return false, true; }
    failed := false;
    var services := listing.value;
    for i := 0 to |services|
      invariant forall k | 0 <= k < i :: !UsesPort(services[k], port)
    {
      var service := services[i];
      if service.deleting || !service.isLoadBalancer { continue; }
      for j := 0 to |service.ports|
        invariant port !in service.ports[..j]
      {
        if service.ports[j] == port {
          assert UsesPort(service, port);
          return true, false;
        }
      }
      assert service.ports[..|service.ports|] == service.ports;
    }
    return false, false;
  }

  method HealthCheckPortInUse(listing: Listing, port: int) returns (inUse: bool, failed: bool)
    ensures failed == listing.None?
    ensures (inUse || failed) == HealthNeeded(listing, port)
    ensures inUse <==> listing.Some? && exists s :: && s in listing.value && !s.deleting && s.isLoadBalancer
                                                   && (s.policy == Cluster ==> port == 10256)
                                                   && (s.policy == Local ==> port == s.healthCheckNodePort)
                                                   && s.policy != Unset
  {
    if listing.None? { return false, true; }
    failed := false;
    var services := listing.value;
    for i := 0 to |services|
      invariant forall k | 0 <= k < i :: !UsesHealthPort(services[k], port)
    {
      var service := services[i];
      if service.deleting || !service.isLoadBalancer { continue; }
      if service.policy == Cluster {
        if port == LB_NODES_HEALTH_CHECK_PORT {
          assert UsesHealthPort(service, port);
          return true, false;
        }
      } else if service.policy == Local {
        if port == service.healthCheckNodePort {
          assert UsesHealthPort(service, port);
          return true, false;
        }
      }
    }
    return false, false;
  }

  // ---------- Subnet CIDRs ----------

  function OwnCidrs(s: Subnet, families: seq<string>): set<string> {
    (if IPV4 in families && s.cidrBlock.Some? then {s.cidrBlock.value} else {}) +
    (if IPV6 in families then ToSet(s.ipv6CidrBlocks) else {})
  }

  function SubnetCidrs(subnets: seq<Subnet>, families: seq<string>): set<string> {
    set s, c | s in subnets && c in OwnCidrs(s, families) :: c
  }

  /** A block of the subnet in a requested family. */
  predicate HasBlock(s: Subnet, families: seq<string>, cidr: string) {
    ("IPv4" in families && s.cidrBlock == Some(cidr)) || ("IPv6" in families && cidr in s.ipv6CidrBlocks)
  }

  /** Every block of every subnet in a requested family is collected, and nothing else. */
  lemma CidrsMean(subnets: seq<Subnet>, families: seq<string>, cidr: string)
    ensures cidr in SubnetCidrs(subnets, families) <==> exists s :: s in subnets && HasBlock(s, families, cidr)
  {
    forall s | s in subnets ensures cidr in OwnCidrs(s, families) <==> HasBlock(s, families, cidr) {}
  }

  method CollectCidrs(subnets: seq<Subnet>, families: seq<string>) returns (cidrs: set<string>)
    ensures cidrs == SubnetCidrs(subnets, families)
  {
    cidrs := {};
    for i := 0 to |subnets|
      invariant cidrs == SubnetCidrs(subnets[..i], families)
    {
      var subnet := subnets[i];
      ghost var before := cidrs;
      if IPV4 in families && subnet.cidrBlock.Some? {
        cidrs := cidrs + {subnet.cidrBlock.value};
      }
      ghost var mid := cidrs;
      if IPV6 in families {
        for j := 0 to |subnet.ipv6CidrBlocks|
          invariant cidrs == mid + ToSet(subnet.ipv6CidrBlocks[..j])
        {
          cidrs := cidrs + {subnet.ipv6CidrBlocks[j]};
        }
        assert subnet.ipv6CidrBlocks[..|subnet.ipv6CidrBlocks|] == subnet.ipv6CidrBlocks;
      }
      assert cidrs == before + OwnCidrs(subnet, families);
      assert subnets[..i + 1] == subnets[..i] + [subnet];
    }
    assert subnets[..|subnets|] == subnets;
  }

  // ---------- Load balancer ingress ----------

  /** The guard under which the load balancer calculators keep a rule unseen. */
  predicate IsUnrelated(rule: Rule, port: int) {
    rule.tcp.None? || rule.tcp.value.source.Some? || rule.tcp.value.destination.None? ||
    rule.tcp.value.destination.value.min != port || rule.tcp.value.destination.value.max != port
  }

  /** One iteration of getLoadBalancerIngressRules: is the rule kept, and which CIDRs stay unmatched. */
  method VisitListenerRule(rule: Rule, desired: set<string>, port: int, listing: Listing)
      returns (keep: bool, left: set<string>)
    ensures keep == Keeps(rule, desired, port, ListenerNeeded(listing, port))
    ensures left == if Applies(rule, port) then desired - {rule.peer} else desired
  {
    if IsUnrelated(rule, port) {
      return true, desired;
    }
    if rule.peer in desired {
      return true, desired - {rule.peer};
    }
    var inUse, failed := PortInUse(listing, port);
    if failed {
      return true, desired;
    }
    if inUse {
      return true, desired;
    }
    return false, desired;
  }

  method WalkListenerRules(rules: seq<Rule>, wanted: set<string>, port: int, listing: Listing)
      returns (kept: seq<Rule>, desired: set<string>)
    ensures kept == Kept(rules, wanted, port, ListenerNeeded(listing, port))
    ensures desired == wanted - PeerSet(rules, port)
  {
    kept, desired := [], wanted;
    ghost var needed := ListenerNeeded(listing, port);
    for i := 0 to |rules|
      invariant kept == Kept(rules[..i], wanted, port, needed)
      invariant desired == wanted - PeerSet(rules[..i], port)
    {
      KeptStep(rules, i, wanted, port, needed);
      var keep, left := VisitListenerRule(rules[i], desired, port, listing);
      if keep {
        kept := kept + [rules[i]];
      }
      desired := left;
    }
    assert rules[..|rules|] == rules;
  }

  lemma AddedNothing(port: int)
    ensures Added({}, port) == []
  {}

  method GetLoadBalancerIngressRules(rules: seq<Rule>, sourceCIDRs: seq<string>, port: int, listing: Listing)
    returns (ingressRules: seq<Rule>)
    ensures ingressRules == Merge(rules, ToSet(sourceCIDRs), port, ListenerNeeded(listing, port), true)
  {
    var desired;
    ingressRules, desired := WalkListenerRules(rules, ToSet(sourceCIDRs), port, listing);
    if desired == {} {
      AddedNothing(port);
      return;
    }
    var made := MakeRules(desired, port);
    ingressRules := ingressRules + made;
  }

  /** The final loop of every calculator: a new rule for each CIDR, in sorted order. */
  method MakeRules(cidrs: set<string>, port: int) returns (made: seq<Rule>)
    ensures made == Added(cidrs, port)
  {
    var list := SortedList(cidrs);
    made := [];
    for i := 0 to |list|
      invariant |made| == i && forall k | 0 <= k < i :: made[k] == MakeRule(list[k], port)
    {
      made := made + [MakeRule(list[i], port)];
    }
  }

  lemma KeptStep(rules: seq<Rule>, i: nat, wanted: set<string>, p: int, inUse: bool)
    requires i < |rules|
    ensures Kept(rules[..i + 1], wanted, p, inUse) ==
            if Keeps(rules[i], wanted - PeerSet(rules[..i], p), p, inUse)
            then Kept(rules[..i], wanted, p, inUse) + [rules[i]] else Kept(rules[..i], wanted, p, inUse)
    ensures wanted - PeerSet(rules[..i + 1], p) ==
            wanted - PeerSet(rules[..i], p) - (if Applies(rules[i], p) then {rules[i].peer} else {})
  {
    assert rules[..i + 1][..i] == rules[..i];
  }

  lemma FilterStep(f: Rule -> bool, rules: seq<Rule>, i: nat)
    requires i < |rules|
    ensures Filter(f, rules[..i + 1]) == if f(rules[i]) then Filter(f, rules[..i]) + [rules[i]]
            else Filter(f, rules[..i])
  {
    assert rules[..i + 1][..i] == rules[..i];
  }

  lemma FilteredKeptStep(f: Rule -> bool, rules: seq<Rule>, i: nat, wanted: set<string>, p: int, inUse: bool)
    requires i < |rules|
    ensures var before, after := Filter(f, rules[..i]), Filter(f, rules[..i + 1]);
            && Kept(after, wanted, p, inUse) ==
               (if f(rules[i]) && Keeps(rules[i], wanted - PeerSet(before, p), p, inUse)
                then Kept(before, wanted, p, inUse) + [rules[i]] else Kept(before, wanted, p, inUse))
            && wanted - PeerSet(after, p) ==
               wanted - PeerSet(before, p) - (if f(rules[i]) && Applies(rules[i], p) then {rules[i].peer} else {})
  {
    FilterStep(f, rules, i);
    var before, after := Filter(f, rules[..i]), Filter(f, rules[..i + 1]);
    if f(rules[i]) {
      KeptStep(after, |before|, wanted, p, inUse);
      assert after[..|before|] == before && after[..|before| + 1] == after;
    }
  }

  // ---------- Load balancer egress ----------

  /** The rule is not a single-port rule of a port that is being replaced. */
  function Fresh(actual: int, desired: int): Rule -> bool {
    r => actual == desired || !SinglePort(r, actual)
  }

  /** The guard under which the egress calculator drops a rule. */
  predicate IsReplaced(rule: Rule, actualPort: int, desiredPort: int) {
    rule.tcp.Some? && rule.tcp.value.destination.Some? &&
    var range := rule.tcp.value.destination.value;
    range.min == range.max && range.min != desiredPort && range.max != desiredPort && range.min == actualPort &&
        range.max == actualPort
  }

  function EgressRules(rules: seq<Rule>, wanted: set<string>, actual: int, desired: int, inUse: bool): seq<Rule> {
    Merge(Filter(Fresh(actual, desired), rules), wanted, desired, inUse, true)
  }

  /** One iteration of getLoadBalancerEgressRules. */
  method VisitEgressRule(rule: Rule, nodeCIDRs: set<string>, actualPort: int, desiredPort: int, listing: Listing)
    returns (keep: bool, left: set<string>)
    ensures keep == (Fresh(actualPort, desiredPort)(rule) &&
                     Keeps(rule, nodeCIDRs, desiredPort, HealthNeeded(listing, desiredPort)))
    ensures left == if Fresh(actualPort, desiredPort)(rule) && Applies(rule, desiredPort) then nodeCIDRs - {rule.peer}
            else nodeCIDRs
  {
    if IsReplaced(rule, actualPort, desiredPort) {
      return false, nodeCIDRs;
    }
    if IsUnrelated(rule, desiredPort) {
      return true, nodeCIDRs;
    }
    if rule.peer in nodeCIDRs {
      return true, nodeCIDRs - {rule.peer};
    }
    var inUse, failed := HealthCheckPortInUse(listing, desiredPort);
    if failed {
      return true, nodeCIDRs;
    }
    if inUse {
      return true, nodeCIDRs;
    }
    return false, nodeCIDRs;
  }

  method WalkEgressRules(rules: seq<Rule>, wanted: set<string>, actualPort: int, desiredPort: int, listing: Listing)
    returns (kept: seq<Rule>, nodeCIDRs: set<string>)
    ensures var left := Filter(Fresh(actualPort, desiredPort), rules);
            kept == Kept(left, wanted, desiredPort, HealthNeeded(listing, desiredPort)) &&
                nodeCIDRs == wanted - PeerSet(left, desiredPort)
  {
    kept, nodeCIDRs := [], wanted;
    ghost var f, needed := Fresh(actualPort, desiredPort), HealthNeeded(listing, desiredPort);
    for i := 0 to |rules|
      invariant kept == Kept(Filter(f, rules[..i]), wanted, desiredPort, needed)
      invariant nodeCIDRs == wanted - PeerSet(Filter(f, rules[..i]), desiredPort)
    {
      FilteredKeptStep(f, rules, i, wanted, desiredPort, needed);
      var keep, left := VisitEgressRule(rules[i], nodeCIDRs, actualPort, desiredPort, listing);
      if keep {
        kept := kept + [rules[i]];
      }
      nodeCIDRs := left;
    }
    assert rules[..|rules|] == rules;
  }

  method GetLoadBalancerEgressRules(rules: seq<Rule>, nodeSubnets: seq<Subnet>, actualPort: int, desiredPort: int,
                                    listing: Listing, families: seq<string>)
    returns (egressRules: seq<Rule>)
    ensures egressRules ==
            EgressRules(rules, SubnetCidrs(nodeSubnets, families), actualPort, desiredPort,
                        HealthNeeded(listing, desiredPort))
  {
    var nodeCIDRs := CollectCidrs(nodeSubnets, families);
    egressRules, nodeCIDRs := WalkEgressRules(rules, nodeCIDRs, actualPort, desiredPort, listing);
    if nodeCIDRs == {} {
      AddedNothing(desiredPort);
      return;
    }
    var made := MakeRules(nodeCIDRs, desiredPort);
    egressRules := egressRules + made;
  }

  // ---------- Node ingress ----------

  function CurrentBackend(actual: Option<PortSpec>): int {
    if actual.Some? then actual.value.backend else 0
  }

  function CurrentHealth(actual: Option<PortSpec>): int {
    if actual.Some? then actual.value.health else 0
  }

  /** The rule is not a single-port rule of a current port that is no longer desired. */
  function NodeFresh(actual: Option<PortSpec>, desired: PortSpec): Rule -> bool {
    r => !exists p | p in {CurrentBackend(actual), CurrentHealth(actual)} - {desired.backend, desired.health} ::
        SinglePort(r, p)
  }

  /** The kept rules and the CIDRs still unmatched on the two desired ports. */
  datatype Walk = Walk(kept: seq<Rule>, backend: set<string>, health: set<string>)

  function Visit(w: Walk, r: Rule, d: PortSpec, inUse: bool): Walk {
    if Applies(r, d.backend) && r.peer in w.backend then Walk(w.kept + [r], w.backend - {r.peer}, w.health)
    else if Applies(r, d.health) && r.peer in w.health then Walk(w.kept + [r], w.backend, w.health - {r.peer})
    else if Applies(r, d.health) && inUse then w.(kept := w.kept + [r])
    else if Applies(r, d.health) || Applies(r, d.backend) then w
    else w.(kept := w.kept + [r])
  }

  function NodeWalk(rules: seq<Rule>, backend: set<string>, health: set<string>, d: PortSpec, inUse: bool): Walk {
    if rules == [] then Walk([], backend, health)
    else Visit(NodeWalk(rules[..|rules| - 1], backend, health, d, inUse), rules[|rules| - 1], d, inUse)
  }

  function NodeIngress(rules: seq<Rule>, backend: set<string>, health: set<string>,
                       actual: Option<PortSpec>, d: PortSpec, inUse: bool): seq<Rule> {
    Finish(NodeWalk(Filter(NodeFresh(actual, d), rules), backend, health, d, inUse), d)
  }

  function Finish(w: Walk, d: PortSpec): seq<Rule> {
    w.kept + (if d.backend != 0 then Added(w.backend, d.backend) else []) +
    (if d.health != 0 then Added(w.health, d.health) else [])
  }

  /** The CIDRs that may reach a node on the backend port; source CIDRs count when a network load
      balancer preserves the source address. */
  function BackendCidrs(lbSubnets: seq<Subnet>, families: seq<string>, sourceCIDRs: seq<string>,
                        isPreserveSource: bool): set<string> {
    SubnetCidrs(lbSubnets, families) + (if isPreserveSource then ToSet(sourceCIDRs) else {})
  }

  lemma NodeWalkStep(f: Rule -> bool, rules: seq<Rule>, i: nat, wb: set<string>, wh: set<string>, d: PortSpec,
                     inUse: bool)
    requires i < |rules|
    ensures var before := NodeWalk(Filter(f, rules[..i]), wb, wh, d, inUse);
            NodeWalk(Filter(f, rules[..i + 1]), wb, wh, d, inUse) ==
                if f(rules[i]) then Visit(before, rules[i], d, inUse) else before
  {
    FilterStep(f, rules, i);
    var after := Filter(f, rules[..i + 1]);
    assert f(rules[i]) ==> after[..|after| - 1] == Filter(f, rules[..i]);
  }

  lemma NodeFreshMeans(r: Rule, actual: Option<PortSpec>, d: PortSpec)
    ensures NodeFresh(actual, d)(r) <==>
            && (SinglePort(r, CurrentBackend(actual)) ==> CurrentBackend(actual) in {d.backend, d.health})
            && (SinglePort(r, CurrentHealth(actual)) ==> CurrentHealth(actual) in {d.backend, d.health})
  {
    var stale := {CurrentBackend(actual), CurrentHealth(actual)} - {d.backend, d.health};
    assert NodeFresh(actual, d)(r) <==> !exists p | p in stale :: SinglePort(r, p);
  }

  predicate PortRangeMatchesSpec(r: PortRange, ports: Option<PortSpec>) {
    ports.Some? &&
    ((r.min == ports.value.backend && r.max == ports.value.backend) ||
     (r.min == ports.value.health && r.max == ports.value.health))
  }

  /** A fresh rule without a source range matches the old or new ports exactly when it is on a desired port. */
  lemma FreshMatch(r: Rule, actual: Option<PortSpec>, d: PortSpec)
    requires NodeFresh(actual, d)(r) && r.tcp.Some? && r.tcp.value.source.None? && r.tcp.value.destination.Some?
    ensures PortRangeMatchesSpec(r.tcp.value.destination.value, Some(d)) ||
            PortRangeMatchesSpec(r.tcp.value.destination.value, actual)
            <==> Applies(r, d.backend) || Applies(r, d.health)
  {
    NodeFreshMeans(r, actual, d);
  }

  /** One iteration of getNodeIngressRules on a rule that is not being replaced. */
  method VisitNodeRule(rule: Rule, w: Walk, actualPorts: Option<PortSpec>, desiredPorts: PortSpec, listing: Listing)
      returns (after: Walk)
    requires NodeFresh(actualPorts, desiredPorts)(rule)
    ensures after == Visit(w, rule, desiredPorts, HealthNeeded(listing, desiredPorts.health))
  {
    if rule.tcp.None? || rule.tcp.value.source.Some? || rule.tcp.value.destination.None? {
      return w.(kept := w.kept + [rule]);
    }
    var r := rule.tcp.value.destination.value;
    FreshMatch(rule, actualPorts, desiredPorts);
    if !(PortRangeMatchesSpec(r, Some(desiredPorts)) || PortRangeMatchesSpec(r, actualPorts)) {
      return w.(kept := w.kept + [rule]);
    }
    if r.max == desiredPorts.backend && rule.peer in w.backend {
      return w.(kept := w.kept + [rule], backend := w.backend - {rule.peer});
    }
    if r.max == desiredPorts.health && rule.peer in w.health {
      return w.(kept := w.kept + [rule], health := w.health - {rule.peer});
    } else if r.max == desiredPorts.health {
      var inUse, failed := HealthCheckPortInUse(listing, desiredPorts.health);
      if failed {
        return w.(kept := w.kept + [rule]);
      } else if inUse {
        return w.(kept := w.kept + [rule]);
      }
    }
    return w;
  }

  /** The guard under which getNodeIngressRules considers dropping a rule outright. */
  predicate IsOffDesired(rule: Rule, d: PortSpec) {
    rule.tcp.Some? && rule.tcp.value.destination.Some? &&
    var range := rule.tcp.value.destination.value;
    range.min == range.max && range.min != d.backend && range.max != d.backend && range.min != d.health &&
        range.max != d.health
  }

  /** The loop of getNodeIngressRules. */
  method WalkNodeIngressRules(rules: seq<Rule>, backend: set<string>, health: set<string>,
                              actualPorts: Option<PortSpec>, desiredPorts: PortSpec, listing: Listing)
    returns (w: Walk)
    ensures w == NodeWalk(Filter(NodeFresh(actualPorts, desiredPorts), rules), backend, health, desiredPorts,
                          HealthNeeded(listing, desiredPorts.health))
  {
    var currentBackEndPort, currentHealthCheckPort := 0, 0;
    if actualPorts.Some? {
      currentBackEndPort := actualPorts.value.backend;
      currentHealthCheckPort := actualPorts.value.health;
    }
    ghost var needed, f := HealthNeeded(listing, desiredPorts.health), NodeFresh(actualPorts, desiredPorts);
    w := Walk([], backend, health);
    for i := 0 to |rules|
      invariant w == NodeWalk(Filter(f, rules[..i]), backend, health, desiredPorts, needed)
    {
      var rule := rules[i];
      NodeWalkStep(f, rules, i, backend, health, desiredPorts, needed);
      NodeFreshMeans(rule, actualPorts, desiredPorts);
      if IsOffDesired(rule, desiredPorts) {
        var rulePort := rule.tcp.value.destination.value.min;
        if rulePort == currentBackEndPort || rulePort == currentHealthCheckPort {
          continue;
        }
      }
      w := VisitNodeRule(rule, w, actualPorts, desiredPorts, listing);
    }
    assert rules[..|rules|] == rules;
  }

  /** The end of getNodeIngressRules: rules for the CIDRs that had none. */
  method AppendNodeIngressRules(w: Walk, desiredPorts: PortSpec) returns (ingressRules: seq<Rule>)
    ensures ingressRules == Finish(w, desiredPorts)
  {
    ingressRules := w.kept;
    if |w.backend| == 0 && |w.health| == 0 {
      return;
    }
    if desiredPorts.backend != 0 {
      var made := MakeRules(w.backend, desiredPorts.backend);
      ingressRules := ingressRules + made;
    }
    if desiredPorts.health != 0 {
      var made := MakeRules(w.health, desiredPorts.health);
      ingressRules := ingressRules + made;
    }
  }

  method GetNodeIngressRules(rules: seq<Rule>, lbSubnets: seq<Subnet>, actualPorts: Option<PortSpec>,
                             desiredPorts: PortSpec,
                             listing: Listing, sourceCIDRs: seq<string>, isPreserveSource: bool, families: seq<string>)
    returns (ingressRules: seq<Rule>)
    ensures ingressRules ==
            NodeIngress(rules, BackendCidrs(lbSubnets, families, sourceCIDRs, isPreserveSource),
                        SubnetCidrs(lbSubnets, families),
                        actualPorts, desiredPorts, HealthNeeded(listing, desiredPorts.health))
  {
    var desiredHealthChecker := CollectCidrs(lbSubnets, families);
    var desiredBackend := desiredHealthChecker;
    if isPreserveSource {
      desiredBackend := desiredBackend + ToSet(sourceCIDRs);
    }
    assert desiredBackend == BackendCidrs(lbSubnets, families, sourceCIDRs, isPreserveSource);
    var w := WalkNodeIngressRules(rules, desiredBackend, desiredHealthChecker, actualPorts, desiredPorts, listing);
    ingressRules := AppendNodeIngressRules(w, desiredPorts);
  }

  // ---------- The node walk is two merges ----------

  lemma KeptSnoc(rules: seq<Rule>, r: Rule, wanted: set<string>, p: int, inUse: bool)
    ensures Kept(rules + [r], wanted, p, inUse) ==
            if Keeps(r, wanted - PeerSet(rules, p), p, inUse) then Kept(rules, wanted, p, inUse) + [r]
                else Kept(rules, wanted, p, inUse)
  {
    assert (rules + [r])[..|rules|] == rules;
  }

  lemma Associative(a: seq<Rule>, b: seq<Rule>, c: seq<Rule>)
    ensures a + (b + c) == (a + b) + c
  {}

  lemma {:induction false} KeptConcatOff(a: seq<Rule>, b: seq<Rule>, wanted: set<string>, p: int, inUse: bool)
    requires forall r | r in b :: !Applies(r, p)
    ensures Kept(a + b, wanted, p, inUse) == Kept(a, wanted, p, inUse) + b
  {
    if b == [] {
      assert a + b == a;
    } else {
      var b', y, k := b[..|b| - 1], b[|b| - 1], Kept(a, wanted, p, inUse);
      assert b == b' + [y];
      KeptConcatOff(a, b', wanted, p, inUse);
      KeptSnoc(a + b', y, wanted, p, inUse);
      Associative(a, b', [y]);
      Associative(k, b', [y]);
    }
  }

  lemma VisitIsTwoKeeps(w: Walk, r: Rule, d: PortSpec, inUse: bool)
    requires d.backend != d.health
    ensures Visit(w, r, d, inUse) ==
            Walk(if Keeps(r, w.backend, d.backend, false) && Keeps(r, w.health, d.health, inUse) then w.kept + [r]
                 else w.kept,
                 if Applies(r, d.backend) then w.backend - {r.peer} else w.backend,
                 if Applies(r, d.health) then w.health - {r.peer} else w.health)
  {}

  lemma {:induction false} NodeWalkUnmatched(rules: seq<Rule>, wb: set<string>, wh: set<string>, d: PortSpec,
                                             inUse: bool)
    requires d.backend != d.health
    ensures NodeWalk(rules, wb, wh, d, inUse).backend == wb - PeerSet(rules, d.backend)
    ensures NodeWalk(rules, wb, wh, d, inUse).health == wh - PeerSet(rules, d.health)
  {
    if rules != [] {
      var n := |rules| - 1;
      NodeWalkUnmatched(rules[..n], wb, wh, d, inUse);
      VisitIsTwoKeeps(NodeWalk(rules[..n], wb, wh, d, inUse), rules[n], d, inUse);
    }
  }

  lemma {:induction false} NodeWalkKept(rules: seq<Rule>, wb: set<string>, wh: set<string>, d: PortSpec, inUse: bool)
    requires d.backend != d.health
    ensures NodeWalk(rules, wb, wh, d, inUse).kept == Kept(Kept(rules, wb, d.backend, false), wh, d.health, inUse)
  {
    if rules != [] {
      var n := |rules| - 1;
      var init, r := rules[..n], rules[n];
      NodeWalkKept(init, wb, wh, d, inUse);
      NodeWalkUnmatched(init, wb, wh, d, inUse);
      var w, k := NodeWalk(init, wb, wh, d, inUse), Kept(init, wb, d.backend, false);
      VisitIsTwoKeeps(w, r, d, inUse);
      KeptFrame(OnPort(d.health), init, wb, d.backend, false);
      SettledCongruent(k, init, {}, d.health, true, false);
      KeptSnoc(k, r, wh, d.health, inUse);
      if !Keeps(r, w.backend, d.backend, false) { assert Kept(rules, wb, d.backend, false) == k; }
    }
  }

  /** With distinct ports, the one-pass calculator is a filter followed by a merge per port. */
  lemma NodeIngressIsTwoMerges(rules: seq<Rule>, wb: set<string>, wh: set<string>, actual: Option<PortSpec>,
                               d: PortSpec, inUse: bool)
    requires d.backend != d.health
    ensures NodeIngress(rules, wb, wh, actual, d, inUse) ==
            Merge(Merge(Filter(NodeFresh(actual, d), rules), wb, d.backend, false, d.backend != 0), wh, d.health,
                  inUse, d.health != 0)
  {
    var f := Filter(NodeFresh(actual, d), rules);
    NodeWalkUnmatched(f, wb, wh, d, inUse);
    NodeWalkKept(f, wb, wh, d, inUse);
    var a := if d.backend != 0 then Added(wb - PeerSet(f, d.backend), d.backend) else [];
    KeptConcatOff(Kept(f, wb, d.backend, false), a, wh, d.health, inUse);
    MergeElsewhere(f, wb, d.backend, false, d.backend != 0, d.health);
  }
}
