/**
 Many services sharing security lists: over every run of Update and Delete calls, the rules that a
 live service's latest Update asked for stay in place until that service is itself called again.
 */
module SecurityListRuns {
  import opened Common
  import opened SecurityRules
  import opened SecurityListCalculators
  import opened SecurityListChanges
  import opened SecurityListPasses
  import opened SecurityListFixedPoint
  import SecurityListManager

  // ---------- Calls ----------

  /** The lists each subnet resolves to. */
  type Home = Subnet -> Option<string>

  function Ids(home: Home, subnets: seq<Subnet>): seq<Option<string>> {
    seq(|subnets|, i requires 0 <= i < |subnets| => home(subnets[i]))
  }

  /** The lists that the manager resolves subnets to. */
  function ManagerHome(configured: map<string, string>, created: map<string, int>): Home {
    (subnet: Subnet) => SecurityListManager.SelectList(subnet, configured, created)
  }

  /** The runs below are runs of the manager: its resolution is one such home. */
  lemma ManagerResolves(subnets: seq<Subnet>, configured: map<string, string>, created: map<string, int>)
    ensures SecurityListManager.Resolve(subnets, configured, created) == Ids(ManagerHome(configured, created), subnets)
  {}

  /** An Update or Delete on behalf of one listener of one service. A call may stop anywhere
      (`lbReach`, `nodeReach`) and may have taken effect although it reports failure (`acked`). */
  datatype Call = Call(key: string, isUpdate: bool, c: Components, listing: Listing, lbReach: nat, nodeReach: nat,
                       acked: bool)

  /** `live`: the arguments of each service's latest successful Update. */
  datatype State = State(lists: Lists, live: map<string, Components>)

  function LbOf(call: Call): SecurityList -> SecurityList {
    if call.isUpdate then LbUpdate(call.c, call.listing) else LbDelete(call.c.desiredPorts, call.listing)
  }

  function NodeOf(call: Call): SecurityList -> SecurityList {
    if call.isUpdate then NodeUpdate(call.c, call.listing) else NodeDelete(call.c.desiredPorts, call.listing)
  }

  function Effect(home: Home, lists: Lists, call: Call): Outcome {
    TwoPasses(lists, Ids(home, call.c.lbSubnets), LbOf(call), call.lbReach, Ids(home, call.c.backendSubnets),
              NodeOf(call), call.nodeReach)
  }

  function Step(home: Home, s: State, call: Call): State {
    var o := Effect(home, s.lists, call);
    State(o.lists, if call.isUpdate && o.ok && call.acked then s.live[call.key := call.c] else s.live - {call.key})
  }

  function Run(home: Home, s: State, calls: seq<Call>): State
    decreases |calls|
  {
    if calls == [] then s else Run(home, Step(home, s, calls[0]), calls[1..])
  }

  // ---------- Assumptions on the cluster ----------

  /** Backend ports are unique and never health-check ports; listener ports are neither. Health
      and listener ports may be shared. Zero is an unset port. */
  ghost predicate Disciplined(ports: map<string, PortSpec>) {
    forall j, k | j in ports && k in ports ::
      && ports[j].backend != ports[j].health
      && (ports[j].backend != 0 ==>
          ports[j].backend != ports[k].health && (j != k ==> ports[j].backend != ports[k].backend))
      && (ports[j].listener != 0 ==> ports[j].listener !in {ports[k].backend, ports[k].health})
  }

  /** Arguments name the service's own fixed ports; a call for a backend set leaves the listener unset. */
  ghost predicate Owns(ports: map<string, PortSpec>, key: string, c: Components) {
    && key in ports
    && c.desiredPorts.backend == ports[key].backend && c.desiredPorts.health == ports[key].health
    && c.desiredPorts.listener in {0, ports[key].listener}
    && (c.actualPorts.Some? ==>
        c.actualPorts.value.backend == ports[key].backend && c.actualPorts.value.health == ports[key].health)
  }

  /** The lister fails or reports every other live service. */
  ghost predicate Reports(listing: Listing, live: map<string, Components>, key: string) {
    forall k | k in live && k != key ::
      && (live[k].desiredPorts.listener != 0 ==> ListenerNeeded(listing, live[k].desiredPorts.listener))
      && (live[k].desiredPorts.health != 0 ==> HealthNeeded(listing, live[k].desiredPorts.health))
  }

  ghost predicate Allowed(ports: map<string, PortSpec>, s: State, call: Call) {
    Owns(ports, call.key, call.c) && Reports(call.listing, s.live, call.key)
  }

  ghost predicate AllowedRun(home: Home, ports: map<string, PortSpec>, s: State, calls: seq<Call>)
    decreases |calls|
  {
    calls == [] || (Allowed(ports, s, calls[0]) && AllowedRun(home, ports, Step(home, s, calls[0]), calls[1..]))
  }

  // ---------- What a service needs ----------

  /** Load balancer subnets: sources reach the listener, and nodes can be reached on both ports. */
  ghost function LbServed(c: Components): SecurityList -> bool {
    (l: SecurityList) =>
      var d, nodes := c.desiredPorts, SubnetCidrs(c.backendSubnets, c.families);
      && (d.listener != 0 ==> ToSet(c.sourceCIDRs) <= PeerSet(l.ingress, d.listener))
      && (d.backend != 0 ==> nodes <= PeerSet(l.egress, d.backend))
      && (d.health != 0 ==> nodes <= PeerSet(l.egress, d.health))
  }

  /** Node subnets: the load balancer, and preserved sources, reach the backend and health ports. */
  ghost function NodeServed(c: Components): SecurityList -> bool {
    (l: SecurityList) =>
      var d := c.desiredPorts;
      && (d.backend != 0 ==>
          BackendCidrs(c.lbSubnets, c.families, c.sourceCIDRs, c.isPreserveSource) <= PeerSet(l.ingress, d.backend))
      && (d.health != 0 ==> SubnetCidrs(c.lbSubnets, c.families) <= PeerSet(l.ingress, d.health))
  }

  ghost predicate Present(home: Home, lists: Lists, c: Components) {
    && (forall id | Some(id) in Ids(home, c.lbSubnets) :: id in lists && LbServed(c)(lists[id]))
    && (forall id | Some(id) in Ids(home, c.backendSubnets) :: id in lists && NodeServed(c)(lists[id]))
  }

  ghost predicate Safe(home: Home, ports: map<string, PortSpec>, s: State) {
    forall k | k in s.live :: Owns(ports, k, s.live[k]) && Present(home, s.lists, s.live[k])
  }

  // ---------- Peers survive single calculators ----------

  lemma MergeKeepsPeers(rules: seq<Rule>, wanted: set<string>, p: int, inUse: bool, add: bool, q: int)
    requires p == q ==> inUse
    ensures PeerSet(rules, q) <= PeerSet(Merge(rules, wanted, p, inUse, add), q)
  {
    if p == q { MergePeers(rules, wanted, p, inUse, add); } else { MergeElsewhere(rules, wanted, p, inUse, add, q); }
  }

  lemma EgressPairKeepsPeers(rules: seq<Rule>, wanted: set<string>, aB: int, aH: int, d: PortSpec, useB: bool,
                             useH: bool, q: int)
    requires q != 0 && aB in {0, d.backend} && aH in {0, d.health}
    requires (q == d.backend ==> useB) && (q == d.health ==> useH)
    ensures PeerSet(rules, q) <= PeerSet(EgressPair(rules, wanted, aB, aH, d, useB, useH), q)
  {
    FilterKeepsPeers(Fresh(aB, d.backend), rules, q);
    MergeKeepsPeers(Filter(Fresh(aB, d.backend), rules), wanted, d.backend, useB, true, q);
    var m := EgressRules(rules, wanted, aB, d.backend, useB);
    FilterKeepsPeers(Fresh(aH, d.health), m, q);
    MergeKeepsPeers(Filter(Fresh(aH, d.health), m), wanted, d.health, useH, true, q);
  }

  lemma NodeIngressKeepsPeers(rules: seq<Rule>, wb: set<string>, wh: set<string>, actual: Option<PortSpec>,
                              d: PortSpec, inUse: bool, q: int)
    requires d.backend != d.health && q != 0
    requires CurrentBackend(actual) in {0, d.backend} && CurrentHealth(actual) in {0, d.health}
    requires q != d.backend && (q == d.health ==> inUse)
    ensures PeerSet(rules, q) <= PeerSet(NodeIngress(rules, wb, wh, actual, d, inUse), q)
  {
    NodeIngressIsTwoMerges(rules, wb, wh, actual, d, inUse);
    forall r | Applies(r, q) ensures NodeFresh(actual, d)(r) { NodeFreshMeans(r, actual, d); }
    FilterKeepsPeers(NodeFresh(actual, d), rules, q);
    var f := Filter(NodeFresh(actual, d), rules);
    MergeKeepsPeers(f, wb, d.backend, false, d.backend != 0, q);
    MergeKeepsPeers(Merge(f, wb, d.backend, false, d.backend != 0), wh, d.health, inUse, d.health != 0, q);
  }

  // ---------- Another service's call ----------

  /** The caller's ports cannot hurt the rules of a live service with other arguments `c`. */
  ghost predicate Harmless(listing: Listing, actual: Option<PortSpec>, d: PortSpec, c: Components) {
    var e := c.desiredPorts;
    && d.backend != d.health
    && CurrentBackend(actual) in {0, d.backend} && CurrentHealth(actual) in {0, d.health}
    && (e.listener != 0 ==> e.listener !in {d.backend, d.health} && ListenerNeeded(listing, e.listener))
    && (e.backend != 0 ==> e.backend !in {d.backend, d.health} && (d.listener != 0 ==> e.backend != d.listener))
    && (e.health != 0 ==>
        e.health != d.backend && (d.listener != 0 ==> e.health != d.listener) && HealthNeeded(listing, e.health))
  }

  lemma LbStepKeepsIngress(nodes: set<string>, sources: set<string>, actual: Option<PortSpec>, d: PortSpec,
                           listing: Listing,
                           l: SecurityList, q: int)
    requires d.listener == q ==> ListenerNeeded(listing, q)
    ensures PeerSet(l.ingress, q) <= PeerSet(Store(LbStep(nodes, sources, actual, d, listing), l).ingress, q)
  {
    MergeKeepsPeers(l.ingress, sources, d.listener, ListenerNeeded(listing, d.listener), true, q);
  }

  lemma LbStepKeepsEgress(nodes: set<string>, sources: set<string>, actual: Option<PortSpec>, d: PortSpec,
                          listing: Listing,
                          l: SecurityList, q: int)
    requires q != 0 && CurrentBackend(actual) in {0, d.backend} && CurrentHealth(actual) in {0, d.health}
    requires q in {d.backend, d.health} ==> HealthNeeded(listing, q)
    ensures PeerSet(l.egress, q) <= PeerSet(Store(LbStep(nodes, sources, actual, d, listing), l).egress, q)
  {
    EgressPairKeepsPeers(l.egress, nodes, CurrentBackend(actual), CurrentHealth(actual), d,
                         HealthNeeded(listing, d.backend), HealthNeeded(listing, d.health), q);
  }

  lemma NodeStepKeepsIngress(backend: set<string>, health: set<string>, actual: Option<PortSpec>, d: PortSpec,
                             listing: Listing,
                             l: SecurityList, q: int)
    requires d.backend != d.health && q != 0 && CurrentBackend(actual) in {0, d.backend} &&
             CurrentHealth(actual) in {0, d.health}
    requires q != d.backend && (q == d.health ==> HealthNeeded(listing, q))
    ensures PeerSet(l.ingress, q) <= PeerSet(Store(NodeStep(backend, health, actual, d, listing), l).ingress, q)
    ensures Store(NodeStep(backend, health, actual, d, listing), l).egress == l.egress
  {
    NodeIngressKeepsPeers(l.ingress, backend, health, actual, d, HealthNeeded(listing, d.health), q);
  }

  /** What a service needs depends on the peers of its set ports only. */
  lemma ServedMonotone(c: Components, l: SecurityList, m: SecurityList)
    requires c.desiredPorts.listener != 0 ==>
             PeerSet(l.ingress, c.desiredPorts.listener) <= PeerSet(m.ingress, c.desiredPorts.listener)
    requires c.desiredPorts.backend != 0 ==>
             PeerSet(l.ingress, c.desiredPorts.backend) <= PeerSet(m.ingress, c.desiredPorts.backend)
    requires c.desiredPorts.health != 0 ==>
             PeerSet(l.ingress, c.desiredPorts.health) <= PeerSet(m.ingress, c.desiredPorts.health)
    requires c.desiredPorts.backend != 0 ==>
             PeerSet(l.egress, c.desiredPorts.backend) <= PeerSet(m.egress, c.desiredPorts.backend)
    requires c.desiredPorts.health != 0 ==>
             PeerSet(l.egress, c.desiredPorts.health) <= PeerSet(m.egress, c.desiredPorts.health)
    ensures LbServed(c)(l) ==> LbServed(c)(m)
    ensures NodeServed(c)(l) ==> NodeServed(c)(m)
  {}

  lemma LbStepHarmless(nodes: set<string>, sources: set<string>, actual: Option<PortSpec>, d: PortSpec,
                       listing: Listing,
                       c: Components, l: SecurityList)
    requires Harmless(listing, actual, d, c)
    ensures LbServed(c)(l) ==> LbServed(c)(Store(LbStep(nodes, sources, actual, d, listing), l))
    ensures NodeServed(c)(l) ==> NodeServed(c)(Store(LbStep(nodes, sources, actual, d, listing), l))
  {
    var e := c.desiredPorts;
    if e.listener != 0 { LbStepKeepsIngress(nodes, sources, actual, d, listing, l, e.listener); }
    if e.backend != 0 {
      LbStepKeepsIngress(nodes, sources, actual, d, listing, l, e.backend);
      LbStepKeepsEgress(nodes, sources, actual, d, listing, l, e.backend);
    }
    if e.health != 0 {
      LbStepKeepsIngress(nodes, sources, actual, d, listing, l, e.health);
      LbStepKeepsEgress(nodes, sources, actual, d, listing, l, e.health);
    }
    ServedMonotone(c, l, Store(LbStep(nodes, sources, actual, d, listing), l));
  }

  lemma NodeStepHarmless(backend: set<string>, health: set<string>, actual: Option<PortSpec>, d: PortSpec,
                         listing: Listing,
                         c: Components, l: SecurityList)
    requires Harmless(listing, actual, d, c)
    ensures LbServed(c)(l) ==> LbServed(c)(Store(NodeStep(backend, health, actual, d, listing), l))
    ensures NodeServed(c)(l) ==> NodeServed(c)(Store(NodeStep(backend, health, actual, d, listing), l))
  {
    var e := c.desiredPorts;
    if e.listener != 0 { NodeStepKeepsIngress(backend, health, actual, d, listing, l, e.listener); }
    if e.backend != 0 { NodeStepKeepsIngress(backend, health, actual, d, listing, l, e.backend); }
    if e.health != 0 { NodeStepKeepsIngress(backend, health, actual, d, listing, l, e.health); }
    ServedMonotone(c, l, Store(NodeStep(backend, health, actual, d, listing), l));
  }

  ghost function CallActual(call: Call): Option<PortSpec> {
    if call.isUpdate then call.c.actualPorts else Some(call.c.desiredPorts)
  }

  lemma StepsHarmless(call: Call, c: Components)
    requires Harmless(call.listing, CallActual(call), call.c.desiredPorts, c)
    ensures forall l | LbServed(c)(l) :: LbServed(c)(Store(LbOf(call), l))
    ensures forall l | LbServed(c)(l) :: LbServed(c)(Store(NodeOf(call), l))
    ensures forall l | NodeServed(c)(l) :: NodeServed(c)(Store(LbOf(call), l))
    ensures forall l | NodeServed(c)(l) :: NodeServed(c)(Store(NodeOf(call), l))
  {
    var a, k := CallActual(call), call.c;
    var nodes := if call.isUpdate then SubnetCidrs(k.backendSubnets, k.families) else {};
    var sources := if call.isUpdate then ToSet(k.sourceCIDRs) else {};
    var wb := if call.isUpdate then BackendCidrs(k.lbSubnets, k.families, k.sourceCIDRs, k.isPreserveSource) else {};
    var wh := if call.isUpdate then SubnetCidrs(k.lbSubnets, k.families) else {};
    assert LbOf(call) == LbStep(nodes, sources, a, k.desiredPorts, call.listing);
    assert NodeOf(call) == NodeStep(wb, wh, a, k.desiredPorts, call.listing);
    forall l: SecurityList
      ensures LbServed(c)(l) ==> LbServed(c)(Store(LbOf(call), l)) && LbServed(c)(Store(NodeOf(call), l))
      ensures NodeServed(c)(l) ==> NodeServed(c)(Store(LbOf(call), l)) && NodeServed(c)(Store(NodeOf(call), l))
    {
      LbStepHarmless(nodes, sources, a, k.desiredPorts, call.listing, c, l);
      NodeStepHarmless(wb, wh, a, k.desiredPorts, call.listing, c, l);
    }
  }

  /** Two passes keep what their stored results keep, in every list. */
  lemma TwoPassesKeep(lists: Lists, lbIds: seq<Option<string>>, lb: SecurityList -> SecurityList, lbReach: nat,
                      nodeIds: seq<Option<string>>, node: SecurityList -> SecurityList, nodeReach: nat, id: string,
                      P: SecurityList -> bool)
    requires id in lists && P(lists[id])
    requires forall l | P(l) :: P(Store(lb, l))
    requires forall l | P(l) :: P(Store(node, l))
    ensures P(TwoPasses(lists, lbIds, lb, lbReach, nodeIds, node, nodeReach).lists[id])
  {
    PassKeeps(lists, lbIds, lb, lbReach, id, P);
    var a := Pass(lists, lbIds, lb, lbReach);
    if a.ok { PassKeeps(a.lists, nodeIds, node, nodeReach, id, P); }
  }

  lemma CallKeepsPresent(home: Home, lists: Lists, call: Call, c: Components)
    requires Harmless(call.listing, CallActual(call), call.c.desiredPorts, c)
    requires Present(home, lists, c)
    ensures Present(home, Effect(home, lists, call).lists, c)
  {
    StepsHarmless(call, c);
    var lbIds, nodeIds := Ids(home, call.c.lbSubnets), Ids(home, call.c.backendSubnets);
    forall id | Some(id) in Ids(home, c.lbSubnets) ensures LbServed(c)(Effect(home, lists, call).lists[id]) {
      TwoPassesKeep(lists, lbIds, LbOf(call), call.lbReach, nodeIds, NodeOf(call), call.nodeReach, id, LbServed(c));
    }
    forall id | Some(id) in Ids(home, c.backendSubnets) ensures NodeServed(c)(Effect(home, lists, call).lists[id]) {
      TwoPassesKeep(lists, lbIds, LbOf(call), call.lbReach, nodeIds, NodeOf(call), call.nodeReach, id, NodeServed(c));
    }
  }

  // ---------- The service's own Update ----------

  lemma MembersKeepPeers(a: seq<Rule>, b: seq<Rule>, p: int)
    requires forall r | r in b :: r in a
    ensures PeerSet(b, p) <= PeerSet(a, p)
  {
    PeerSetMeans(a, p);
    PeerSetMeans(b, p);
  }

  /** A skipped write loses nothing: every computed rule is already stored. */
  lemma StoreKeepsPeers(step: SecurityList -> SecurityList, l: SecurityList, p: int)
    ensures PeerSet(step(l).ingress, p) <= PeerSet(Store(step, l).ingress, p)
    ensures PeerSet(step(l).egress, p) <= PeerSet(Store(step, l).egress, p)
  {
    if !Differs(l, step(l)) {
      MembersKeepPeers(l.ingress, step(l).ingress, p);
      MembersKeepPeers(l.egress, step(l).egress, p);
    }
  }

  /** The second egress call takes away what the first one added on the backend port. */
  ghost predicate Reclosed(actual: Option<PortSpec>, d: PortSpec) {
    CurrentHealth(actual) == d.backend && d.backend !in {0, d.health}
  }

  lemma OwnEgressServed(rules: seq<Rule>, nodes: set<string>, aB: int, aH: int, d: PortSpec, useB: bool, useH: bool)
    ensures aH == d.backend != d.health || nodes <= PeerSet(EgressPair(rules, nodes, aB, aH, d, useB, useH), d.backend)
    ensures nodes <= PeerSet(EgressPair(rules, nodes, aB, aH, d, useB, useH), d.health)
  {
    var m := EgressRules(rules, nodes, aB, d.backend, useB);
    MergePeers(Filter(Fresh(aB, d.backend), rules), nodes, d.backend, useB, true);
    MergePeers(Filter(Fresh(aH, d.health), m), nodes, d.health, useH, true);
    if d.backend != d.health && aH != d.backend {
      FilterKeepsPeers(Fresh(aH, d.health), m, d.backend);
      MergeKeepsPeers(Filter(Fresh(aH, d.health), m), nodes, d.health, useH, true, d.backend);
    }
  }

  lemma OwnLbServed(c: Components, listing: Listing, l: SecurityList)
    requires !Reclosed(c.actualPorts, c.desiredPorts)
    ensures LbServed(c)(Store(LbUpdate(c, listing), l))
  {
    var d, nodes, sources, step := c.desiredPorts, SubnetCidrs(c.backendSubnets, c.families), ToSet(c.sourceCIDRs),
        LbUpdate(c, listing);
    StoreKeepsPeers(step, l, d.listener);
    StoreKeepsPeers(step, l, d.backend);
    StoreKeepsPeers(step, l, d.health);
    MergePeers(l.ingress, sources, d.listener, ListenerNeeded(listing, d.listener), true);
    OwnEgressServed(l.egress, nodes, CurrentBackend(c.actualPorts), CurrentHealth(c.actualPorts), d,
                    HealthNeeded(listing, d.backend), HealthNeeded(listing, d.health));
  }

  /** What the walk has matched is among the rules it kept. */
  lemma {:induction false} WalkServes(rules: seq<Rule>, wb: set<string>, wh: set<string>, d: PortSpec, inUse: bool)
    ensures var w := NodeWalk(rules, wb, wh, d, inUse);
            && w.backend <= wb && wb - w.backend <= PeerSet(w.kept, d.backend)
            && w.health <= wh && wh - w.health <= PeerSet(w.kept, d.health)
  {
    if rules != [] {
      var n := |rules| - 1;
      WalkServes(rules[..n], wb, wh, d, inUse);
      var w := NodeWalk(rules[..n], wb, wh, d, inUse);
      assert (w.kept + [rules[n]])[..|w.kept|] == w.kept;
    }
  }

  lemma NodeIngressServes(rules: seq<Rule>, wb: set<string>, wh: set<string>, actual: Option<PortSpec>, d: PortSpec,
                          inUse: bool)
    ensures d.backend != 0 ==> wb <= PeerSet(NodeIngress(rules, wb, wh, actual, d, inUse), d.backend)
    ensures d.health != 0 ==> wh <= PeerSet(NodeIngress(rules, wb, wh, actual, d, inUse), d.health)
  {
    var f := Filter(NodeFresh(actual, d), rules);
    var w := NodeWalk(f, wb, wh, d, inUse);
    WalkServes(f, wb, wh, d, inUse);
    var b := if d.backend != 0 then Added(w.backend, d.backend) else [];
    var h := if d.health != 0 then Added(w.health, d.health) else [];
    PeerSetConcat(w.kept, b, d.backend);
    PeerSetConcat(w.kept, b, d.health);
    PeerSetConcat(w.kept + b, h, d.backend);
    PeerSetConcat(w.kept + b, h, d.health);
    PeerSetAdded(w.backend, d.backend, d.backend);
    PeerSetAdded(w.health, d.health, d.health);
  }

  lemma OwnNodeServed(c: Components, listing: Listing, l: SecurityList)
    ensures NodeServed(c)(Store(NodeUpdate(c, listing), l))
  {
    var d, step := c.desiredPorts, NodeUpdate(c, listing);
    StoreKeepsPeers(step, l, d.backend);
    StoreKeepsPeers(step, l, d.health);
    NodeIngressServes(l.ingress, BackendCidrs(c.lbSubnets, c.families, c.sourceCIDRs, c.isPreserveSource),
                      SubnetCidrs(c.lbSubnets, c.families),
                      c.actualPorts, d, HealthNeeded(listing, d.health));
  }

  lemma OwnNodeKeepsLb(c: Components, listing: Listing, l: SecurityList)
    requires ListenerApart(c.actualPorts, c.desiredPorts) && LbServed(c)(l)
    ensures LbServed(c)(Store(NodeUpdate(c, listing), l))
  {
    var d := c.desiredPorts;
    if d.listener != 0 {
      var wb, wh := BackendCidrs(c.lbSubnets, c.families, c.sourceCIDRs, c.isPreserveSource),
          SubnetCidrs(c.lbSubnets, c.families);
      var m := NodeIngress(l.ingress, wb, wh, c.actualPorts, d, HealthNeeded(listing, d.health));
      NodeIngressElsewhere(l.ingress, wb, wh, c.actualPorts, d, HealthNeeded(listing, d.health), d.listener);
      SettledCongruent(m, l.ingress, {}, d.listener, true, false);
    }
  }

  /** A successful Update puts everything it needs in place, whichever ports replace whichever, except
      where the outgoing health-check port becomes the backend port. */
  lemma UpdateEstablishes(home: Home, lists: Lists, call: Call)
    requires call.isUpdate && Effect(home, lists, call).ok
    requires ListenerApart(call.c.actualPorts, call.c.desiredPorts)
    requires !Reclosed(call.c.actualPorts, call.c.desiredPorts)
    ensures Present(home, Effect(home, lists, call).lists, call.c)
  {
    var c, lb, node := call.c, LbUpdate(call.c, call.listing), NodeUpdate(call.c, call.listing);
    var lbIds, nodeIds := Ids(home, c.lbSubnets), Ids(home, c.backendSubnets);
    var a := Pass(lists, lbIds, lb, call.lbReach);
    forall l: SecurityList ensures LbServed(c)(Store(lb, l)) { OwnLbServed(c, call.listing, l); }
    forall l: SecurityList ensures NodeServed(c)(Store(node, l)) { OwnNodeServed(c, call.listing, l); }
    forall l | LbServed(c)(l) ensures LbServed(c)(Store(node, l)) { OwnNodeKeepsLb(c, call.listing, l); }
    PassOk(lists, lbIds, lb, call.lbReach);
    PassOk(a.lists, nodeIds, node, call.nodeReach);
    forall id | Some(id) in lbIds ensures id in lists && LbServed(c)(Effect(home, lists, call).lists[id]) {
      PassReaches(lists, lbIds, lb, call.lbReach, id, LbServed(c));
      PassKeeps(a.lists, nodeIds, node, call.nodeReach, id, LbServed(c));
    }
    forall id | Some(id) in nodeIds ensures id in lists && NodeServed(c)(Effect(home, lists, call).lists[id]) {
      PassReaches(a.lists, nodeIds, node, call.nodeReach, id, NodeServed(c));
    }
  }

  // ---------- Runs ----------

  lemma OthersHarmless(home: Home, ports: map<string, PortSpec>, s: State, call: Call, k: string)
    requires Disciplined(ports) && Safe(home, ports, s) && Allowed(ports, s, call)
    requires k in s.live && k != call.key
    ensures Harmless(call.listing, CallActual(call), call.c.desiredPorts, s.live[k])
  {
    var mine, theirs := ports[call.key], ports[k];
    assert mine.backend != mine.health;
    assert theirs.backend != 0 ==> theirs.backend != mine.health && theirs.backend != mine.backend;
    assert mine.backend != 0 ==> mine.backend != theirs.health;
    assert mine.listener != 0 ==> mine.listener !in {theirs.backend, theirs.health};
    assert theirs.listener != 0 ==> theirs.listener !in {mine.backend, mine.health};
  }

  lemma StepIsSafe(home: Home, ports: map<string, PortSpec>, s: State, call: Call)
    requires Disciplined(ports) && Safe(home, ports, s) && Allowed(ports, s, call)
    ensures Safe(home, ports, Step(home, s, call))
  {
    var t := Step(home, s, call);
    forall k | k in t.live ensures Owns(ports, k, t.live[k]) && Present(home, t.lists, t.live[k]) {
      if k == call.key {
        assert ports[k].backend != ports[k].health;
        UpdateEstablishes(home, s.lists, call);
      } else {
        OthersHarmless(home, ports, s, call, k);
        CallKeepsPresent(home, s.lists, call, s.live[k]);
      }
    }
  }

  /** In every run, whatever calls fail and wherever they stop, each live service keeps every rule
      of its latest successful Update. */
  lemma {:induction false} RunIsSafe(home: Home, ports: map<string, PortSpec>, s: State, calls: seq<Call>)
    requires Disciplined(ports) && Safe(home, ports, s) && AllowedRun(home, ports, s, calls)
    ensures Safe(home, ports, Run(home, s, calls))
    decreases |calls|
  {
    if calls != [] {
      StepIsSafe(home, ports, s, calls[0]);
      RunIsSafe(home, ports, Step(home, s, calls[0]), calls[1..]);
    }
  }
}
