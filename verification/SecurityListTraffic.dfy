/**
 What a successful Update opens and closes, in terms of the blocks of the subnets, the source CIDRs
 and single ports.
 */
module SecurityListTraffic {
  import opened Common
  import opened SecurityRules
  import opened SecurityListCalculators
  import opened SecurityListChanges
  import opened SecurityListPasses
  import opened SecurityListFixedPoint
  import opened SecurityListRuns

  /** A rule for exactly this port and peer, from any source port. */
  ghost predicate OpenTo(rules: seq<Rule>, peer: string, port: int) {
    exists r :: r in rules && r.peer == peer && r.tcp == Some(TcpOptions(Some(PortRange(port, port)), None))
  }

  /** A rule whose destination is exactly this port. */
  ghost predicate OnSinglePort(r: Rule, port: int) {
    r.tcp.Some? && r.tcp.value.destination == Some(PortRange(port, port))
  }

  lemma PeersMean(rules: seq<Rule>, peer: string, port: int)
    ensures peer in PeerSet(rules, port) <==> OpenTo(rules, peer, port)
  {
    PeerSetMeans(rules, port);
    if peer in PeerSet(rules, port) {
      var r :| r in rules && Applies(r, port) && r.peer == peer;
      assert r.tcp.value == TcpOptions(Some(PortRange(port, port)), None);
    }
    if r :| r in rules && r.peer == peer && r.tcp == Some(TcpOptions(Some(PortRange(port, port)), None)) {
      assert Applies(r, port);
    }
  }

  // ---------- What is opened ----------

  /** Some subnet has the block in a requested family. */
  ghost predicate InSubnets(subnets: seq<Subnet>, families: seq<string>, cidr: string) {
    exists s :: s in subnets && HasBlock(s, families, cidr)
  }

  /** May reach the nodes on the backend port: the load balancer, and preserved sources. */
  ghost predicate ReachesBackend(c: Components, cidr: string) {
    InSubnets(c.lbSubnets, c.families, cidr) || (c.isPreserveSource && cidr in c.sourceCIDRs)
  }

  ghost predicate LbListOpens(c: Components, l: SecurityList, cidr: string) {
    var d := c.desiredPorts;
    && (d.listener != 0 && cidr in c.sourceCIDRs ==> OpenTo(l.ingress, cidr, d.listener))
    && (d.backend != 0 && InSubnets(c.backendSubnets, c.families, cidr) ==> OpenTo(l.egress, cidr, d.backend))
    && (d.health != 0 && InSubnets(c.backendSubnets, c.families, cidr) ==> OpenTo(l.egress, cidr, d.health))
  }

  ghost predicate NodeListOpens(c: Components, l: SecurityList, cidr: string) {
    var d := c.desiredPorts;
    && (d.backend != 0 && ReachesBackend(c, cidr) ==> OpenTo(l.ingress, cidr, d.backend))
    && (d.health != 0 && InSubnets(c.lbSubnets, c.families, cidr) ==> OpenTo(l.ingress, cidr, d.health))
  }

  lemma LbServedOpens(c: Components, l: SecurityList, cidr: string)
    requires LbServed(c)(l)
    ensures LbListOpens(c, l, cidr)
  {
    var d := c.desiredPorts;
    CidrsMean(c.backendSubnets, c.families, cidr);
    PeersMean(l.ingress, cidr, d.listener);
    PeersMean(l.egress, cidr, d.backend);
    PeersMean(l.egress, cidr, d.health);
  }

  lemma BackendCidrsMean(c: Components, cidr: string)
    ensures cidr in BackendCidrs(c.lbSubnets, c.families, c.sourceCIDRs, c.isPreserveSource) <==>
            ReachesBackend(c, cidr)
  {
    CidrsMean(c.lbSubnets, c.families, cidr);
  }

  lemma NodeServedOpens(c: Components, l: SecurityList, cidr: string)
    requires NodeServed(c)(l)
    ensures NodeListOpens(c, l, cidr)
  {
    var d := c.desiredPorts;
    CidrsMean(c.lbSubnets, c.families, cidr);
    BackendCidrsMean(c, cidr);
    PeersMean(l.ingress, cidr, d.backend);
    PeersMean(l.ingress, cidr, d.health);
  }

  /** After a successful Update, every list of a load balancer subnet lets the sources in on the
      listener port and the load balancer out to every block of the node subnets on both ports, and
      every list of a node subnet lets every block of the load balancer subnets, and preserved
      sources, in on the backend port and those blocks in on the health-check port. */
  lemma UpdateOpens(home: Home, lists: Lists, call: Call, id: string, cidr: string)
    requires call.isUpdate && Effect(home, lists, call).ok
    requires ListenerApart(call.c.actualPorts, call.c.desiredPorts)
    requires !Reclosed(call.c.actualPorts, call.c.desiredPorts)
    ensures var after := Effect(home, lists, call).lists;
            && (Some(id) in Ids(home, call.c.lbSubnets) ==> id in after && LbListOpens(call.c, after[id], cidr))
            && (Some(id) in Ids(home, call.c.backendSubnets) ==> id in after && NodeListOpens(call.c, after[id], cidr))
  {
    var after := Effect(home, lists, call).lists;
    UpdateEstablishes(home, lists, call);
    if Some(id) in Ids(home, call.c.lbSubnets) {
      LbServedOpens(call.c, after[id], cidr);
    }
    if Some(id) in Ids(home, call.c.backendSubnets) {
      NodeServedOpens(call.c, after[id], cidr);
    }
  }

  /** Both egress calls together open the backend port to the nodes exactly when the outgoing
      health-check port is not the new backend port, or stays the health-check port. */
  lemma EgressOpensIff(rules: seq<Rule>, nodes: set<string>, cidr: string, aB: int, aH: int, d: PortSpec, useB: bool,
                       useH: bool)
    requires cidr in nodes
    ensures OpenTo(EgressPair(rules, nodes, aB, aH, d, useB, useH), cidr, d.backend) <==>
            aH != d.backend || d.backend == d.health
  {
    OwnEgressServed(rules, nodes, aB, aH, d, useB, useH);
    PeersMean(EgressPair(rules, nodes, aB, aH, d, useB, useH), cidr, d.backend);
    EgressDrops(rules, nodes, aB, aH, d, useB, useH);
  }

  // ---------- Nothing else is opened ----------

  /** A stateful TCP rule for exactly this port. */
  ghost predicate TcpFor(r: Rule, port: int) {
    r.stateless == Some(false) && forall q :: LetsTcp(r, q) <==> q == port
  }

  ghost predicate ToListener(c: Components, r: Rule) {
    c.desiredPorts.listener != 0 && r.peer in c.sourceCIDRs && TcpFor(r, c.desiredPorts.listener)
  }

  ghost predicate ToNodes(c: Components, r: Rule) {
    && InSubnets(c.backendSubnets, c.families, r.peer)
    && (TcpFor(r, c.desiredPorts.backend) || TcpFor(r, c.desiredPorts.health))
  }

  ghost predicate FromLoadBalancer(c: Components, r: Rule) {
    var d := c.desiredPorts;
    || (d.backend != 0 && ReachesBackend(c, r.peer) && TcpFor(r, d.backend))
    || (d.health != 0 && InSubnets(c.lbSubnets, c.families, r.peer) && TcpFor(r, d.health))
  }

  lemma MergeAdds(rules: seq<Rule>, wanted: set<string>, p: int, inUse: bool, r: Rule)
    requires r in Merge(rules, wanted, p, inUse, true)
    ensures r in rules || (r.peer in wanted && TcpFor(r, p))
  {
    KeptSubsequence(rules, wanted, p, inUse);
    SubsequenceLength(Kept(rules, wanted, p, inUse), rules);
  }

  lemma EgressAdds(rules: seq<Rule>, wanted: set<string>, actual: int, desired: int, inUse: bool, r: Rule)
    requires r in EgressRules(rules, wanted, actual, desired, inUse)
    ensures r in rules || (r.peer in wanted && TcpFor(r, desired))
  {
    FilterMembers(Fresh(actual, desired), rules);
    MergeAdds(Filter(Fresh(actual, desired), rules), wanted, desired, inUse, r);
  }

  lemma NodeIngressAdds(rules: seq<Rule>, wb: set<string>, wh: set<string>, actual: Option<PortSpec>, d: PortSpec,
                        inUse: bool, r: Rule)
    requires r in NodeIngress(rules, wb, wh, actual, d, inUse)
    ensures r in rules || (d.backend != 0 && r.peer in wb && TcpFor(r, d.backend)) ||
            (d.health != 0 && r.peer in wh && TcpFor(r, d.health))
  {
    var f := Filter(NodeFresh(actual, d), rules);
    FilterMembers(NodeFresh(actual, d), rules);
    NodeWalkSubsequence(f, wb, wh, d, inUse);
    SubsequenceLength(NodeWalk(f, wb, wh, d, inUse).kept, f);
    WalkServes(f, wb, wh, d, inUse);
  }

  /** The rule is in the list only if it may be. */
  ghost function Only(r: Rule, ingress: bool, egress: bool): SecurityList -> bool {
    (l: SecurityList) => (r in l.ingress ==> ingress) && (r in l.egress ==> egress)
  }

  lemma LbStoreAdds(c: Components, listing: Listing, r: Rule, ingress: bool, egress: bool)
    requires (ToListener(c, r) ==> ingress) && (ToNodes(c, r) ==> egress)
    ensures forall l | Only(r, ingress, egress)(l) :: Only(r, ingress, egress)(Store(LbUpdate(c, listing), l))
  {
    var d, nodes, step := c.desiredPorts, SubnetCidrs(c.backendSubnets, c.families), LbUpdate(c, listing);
    CidrsMean(c.backendSubnets, c.families, r.peer);
    forall l | Only(r, ingress, egress)(l) ensures Only(r, ingress, egress)(Store(step, l)) {
      if d.listener != 0 && r in step(l).ingress {
        MergeAdds(l.ingress, ToSet(c.sourceCIDRs), d.listener, ListenerNeeded(listing, d.listener), r);
      }
      if r in step(l).egress {
        var aB, aH := CurrentBackend(c.actualPorts), CurrentHealth(c.actualPorts);
        var m := EgressRules(l.egress, nodes, aB, d.backend, HealthNeeded(listing, d.backend));
        EgressAdds(m, nodes, aH, d.health, HealthNeeded(listing, d.health), r);
        if r in m {
          EgressAdds(l.egress, nodes, aB, d.backend, HealthNeeded(listing, d.backend), r);
        }
      }
    }
  }

  lemma NodeStoreAdds(c: Components, listing: Listing, r: Rule, ingress: bool, egress: bool)
    requires FromLoadBalancer(c, r) ==> ingress
    ensures forall l | Only(r, ingress, egress)(l) :: Only(r, ingress, egress)(Store(NodeUpdate(c, listing), l))
  {
    var d, step := c.desiredPorts, NodeUpdate(c, listing);
    CidrsMean(c.lbSubnets, c.families, r.peer);
    BackendCidrsMean(c, r.peer);
    forall l | Only(r, ingress, egress)(l) ensures Only(r, ingress, egress)(Store(step, l)) {
      if r in step(l).ingress {
        NodeIngressAdds(l.ingress, BackendCidrs(c.lbSubnets, c.families, c.sourceCIDRs, c.isPreserveSource),
                        SubnetCidrs(c.lbSubnets, c.families), c.actualPorts, d, HealthNeeded(listing, d.health), r);
      }
    }
  }

  lemma PassAdds(lists: Lists, ids: seq<Option<string>>, step: SecurityList -> SecurityList, reach: nat, id: string,
                 P: SecurityList -> bool)
    requires id in lists && P(lists[id])
    requires Some(id) in ids ==> forall l | P(l) :: P(Store(step, l))
    ensures P(Pass(lists, ids, step, reach).lists[id])
  {
    if Some(id) in ids {
      PassKeeps(lists, ids, step, reach, id, P);
    } else {
      PassElsewhere(lists, ids, step, reach, id);
    }
  }

  /** Wherever an Update stops, a rule that was not in a list before lets a source in on the listener
      port of a load balancer list, the load balancer out to a block of the nodes on one of their
      ports, or a block of the load balancer or a preserved source in on a node list. */
  lemma UpdateOpensNothingElse(home: Home, lists: Lists, call: Call, id: string, r: Rule)
    requires call.isUpdate && id in lists
    ensures var c, after := call.c, Effect(home, lists, call).lists[id];
            var atLb, atNode := Some(id) in Ids(home, c.lbSubnets), Some(id) in Ids(home, c.backendSubnets);
            && (r in after.ingress ==>
                  r in lists[id].ingress || (atLb && ToListener(c, r)) || (atNode && FromLoadBalancer(c, r)))
            && (r in after.egress ==> r in lists[id].egress || (atLb && ToNodes(c, r)))
  {
    var c, lbIds, nodeIds := call.c, Ids(home, call.c.lbSubnets), Ids(home, call.c.backendSubnets);
    var ingress := || r in lists[id].ingress || (Some(id) in lbIds && ToListener(c, r))
                   || (Some(id) in nodeIds && FromLoadBalancer(c, r));
    var egress := r in lists[id].egress || (Some(id) in lbIds && ToNodes(c, r));
    var P, lb, node := Only(r, ingress, egress), LbUpdate(c, call.listing), NodeUpdate(c, call.listing);
    if Some(id) in lbIds { LbStoreAdds(c, call.listing, r, ingress, egress); }
    if Some(id) in nodeIds { NodeStoreAdds(c, call.listing, r, ingress, egress); }
    PassAdds(lists, lbIds, lb, call.lbReach, id, P);
    PassAdds(Pass(lists, lbIds, lb, call.lbReach).lists, nodeIds, node, call.nodeReach, id, P);
  }

  // ---------- Exactly what is opened to the nodes ----------

  ghost function BackendExactly(wanted: set<string>, port: int): SecurityList -> bool {
    (l: SecurityList) => PeerSet(l.ingress, port) == wanted
  }

  /** And nothing more: the backend port of a node subnet's list is open to a CIDR exactly when the
      load balancer or a preserved source has it. */
  lemma UpdateOpensExactly(home: Home, lists: Lists, call: Call, id: string, cidr: string)
    requires call.isUpdate && Effect(home, lists, call).ok && Some(id) in Ids(home, call.c.backendSubnets)
    requires call.c.desiredPorts.backend !in {0, call.c.desiredPorts.health}
    ensures var after := Effect(home, lists, call).lists;
            && id in after
            && (OpenTo(after[id].ingress, cidr, call.c.desiredPorts.backend) <==> ReachesBackend(call.c, cidr))
  {
    var c, d := call.c, call.c.desiredPorts;
    var wb, wh := BackendCidrs(c.lbSubnets, c.families, c.sourceCIDRs, c.isPreserveSource),
        SubnetCidrs(c.lbSubnets, c.families);
    var step, exactly := NodeUpdate(c, call.listing), BackendExactly(wb, d.backend);
    NodeStepExact(wb, wh, c.actualPorts, d, call.listing);
    forall l: SecurityList ensures exactly(Store(step, l)) {
      NodeIngressSettles(l.ingress, wb, wh, c.actualPorts, d, HealthNeeded(call.listing, d.health));
    }
    var a := Pass(lists, Ids(home, c.lbSubnets), LbOf(call), call.lbReach);
    PassOk(a.lists, Ids(home, c.backendSubnets), NodeOf(call), call.nodeReach);
    var i :| 0 <= i < |Ids(home, c.backendSubnets)| && Ids(home, c.backendSubnets)[i] == Some(id);
    PassReaches(a.lists, Ids(home, c.backendSubnets), step, call.nodeReach, id, exactly);
    PeersMean(Effect(home, lists, call).lists[id].ingress, cidr, d.backend);
    BackendCidrsMean(c, cidr);
  }

  // ---------- What is closed ----------

  /** Both egress steps leave no rule on a replaced health-check port, and none on a replaced backend
      port that is not the new health-check port. */
  lemma EgressDrops(rules: seq<Rule>, wanted: set<string>, aB: int, aH: int, d: PortSpec, useB: bool, useH: bool)
    ensures forall r | r in EgressPair(rules, wanted, aB, aH, d, useB, useH) ::
              && (aH != d.health ==> !OnSinglePort(r, aH))
              && (aB !in {d.backend, d.health} ==> !OnSinglePort(r, aB))
  {
    EgressMembers(rules, wanted, aB, d.backend, useB);
    EgressMembers(EgressRules(rules, wanted, aB, d.backend, useB), wanted, aH, d.health, useH);
  }

  /** Node ingress rules leave none on a port that is replaced. */
  lemma NodeIngressDrops(rules: seq<Rule>, wb: set<string>, wh: set<string>, actual: Option<PortSpec>, d: PortSpec,
                         inUse: bool, p: int)
    requires p in {CurrentBackend(actual), CurrentHealth(actual)} && p !in {d.backend, d.health}
    ensures forall r | r in NodeIngress(rules, wb, wh, actual, d, inUse) :: !OnSinglePort(r, p)
  {
    NodeIngressMembers(rules, wb, wh, actual, d, inUse);
    forall r | r in NodeIngress(rules, wb, wh, actual, d, inUse) ensures !OnSinglePort(r, p) {
      NodeFreshMeans(r, actual, d);
    }
  }

  ghost function NoIngressOn(p: int): SecurityList -> bool {
    (l: SecurityList) => forall r | r in l.ingress :: !OnSinglePort(r, p)
  }

  ghost function NoEgressOn(p: int): SecurityList -> bool {
    (l: SecurityList) => forall r | r in l.egress :: !OnSinglePort(r, p)
  }

  /** After a successful Update no node list has a rule on a replaced port. */
  lemma UpdateClosesIngress(home: Home, lists: Lists, call: Call, id: string, p: int)
    requires call.isUpdate && Effect(home, lists, call).ok && Some(id) in Ids(home, call.c.backendSubnets)
    requires call.c.desiredPorts.backend != call.c.desiredPorts.health || call.c.desiredPorts.backend == 0
    requires p in {CurrentBackend(call.c.actualPorts), CurrentHealth(call.c.actualPorts)}
    requires p !in {call.c.desiredPorts.backend, call.c.desiredPorts.health}
    ensures id in Effect(home, lists, call).lists && NoIngressOn(p)(Effect(home, lists, call).lists[id])
  {
    var c, d := call.c, call.c.desiredPorts;
    var wb, wh := BackendCidrs(c.lbSubnets, c.families, c.sourceCIDRs, c.isPreserveSource),
        SubnetCidrs(c.lbSubnets, c.families);
    var step := NodeUpdate(c, call.listing);
    NodeStepExact(wb, wh, c.actualPorts, d, call.listing);
    forall l: SecurityList ensures NoIngressOn(p)(Store(step, l)) {
      NodeIngressDrops(l.ingress, wb, wh, c.actualPorts, d, HealthNeeded(call.listing, d.health), p);
      assert Store(step, l) == step(l);
    }
    var a := Pass(lists, Ids(home, c.lbSubnets), LbOf(call), call.lbReach);
    PassOk(a.lists, Ids(home, c.backendSubnets), NodeOf(call), call.nodeReach);
    var i :| 0 <= i < |Ids(home, c.backendSubnets)| && Ids(home, c.backendSubnets)[i] == Some(id);
    PassReaches(a.lists, Ids(home, c.backendSubnets), step, call.nodeReach, id, NoIngressOn(p));
  }

  lemma LbStoreCloses(c: Components, listing: Listing, p: int)
    requires CurrentBackend(c.actualPorts) == c.desiredPorts.health ==>
             CurrentBackend(c.actualPorts) == c.desiredPorts.backend
    requires (p == CurrentHealth(c.actualPorts) && p != c.desiredPorts.health) ||
             (p == CurrentBackend(c.actualPorts) && p !in {c.desiredPorts.backend, c.desiredPorts.health})
    ensures forall l :: NoEgressOn(p)(Store(LbUpdate(c, listing), l))
  {
    var d, lb := c.desiredPorts, LbUpdate(c, listing);
    var nodes, sources := SubnetCidrs(c.backendSubnets, c.families), ToSet(c.sourceCIDRs);
    LbStepExact(nodes, sources, c.actualPorts, d, listing);
    forall l: SecurityList ensures NoEgressOn(p)(Store(lb, l)) {
      EgressDrops(l.egress, nodes, CurrentBackend(c.actualPorts), CurrentHealth(c.actualPorts), d,
                  HealthNeeded(listing, d.backend), HealthNeeded(listing, d.health));
      assert Store(lb, l) == lb(l);
    }
  }

  lemma NodeStoreKeepsEgress(c: Components, listing: Listing, p: int)
    ensures forall l | NoEgressOn(p)(l) :: NoEgressOn(p)(Store(NodeUpdate(c, listing), l))
  {}

  /** After a successful Update no load balancer list has an egress rule on a replaced port. */
  lemma UpdateClosesEgress(home: Home, lists: Lists, call: Call, id: string, p: int)
    requires call.isUpdate && Effect(home, lists, call).ok && Some(id) in Ids(home, call.c.lbSubnets)
    requires CurrentBackend(call.c.actualPorts) == call.c.desiredPorts.health ==>
             CurrentBackend(call.c.actualPorts) == call.c.desiredPorts.backend
    requires (p == CurrentHealth(call.c.actualPorts) && p != call.c.desiredPorts.health) ||
             (p == CurrentBackend(call.c.actualPorts) &&
              p !in {call.c.desiredPorts.backend, call.c.desiredPorts.health})
    ensures id in Effect(home, lists, call).lists && NoEgressOn(p)(Effect(home, lists, call).lists[id])
  {
    var lb, node := LbUpdate(call.c, call.listing), NodeUpdate(call.c, call.listing);
    var lbIds, nodeIds := Ids(home, call.c.lbSubnets), Ids(home, call.c.backendSubnets);
    LbStoreCloses(call.c, call.listing, p);
    NodeStoreKeepsEgress(call.c, call.listing, p);
    PassOk(lists, lbIds, lb, call.lbReach);
    var i :| 0 <= i < |lbIds| && lbIds[i] == Some(id);
    PassReaches(lists, lbIds, lb, call.lbReach, id, NoEgressOn(p));
    PassKeeps(Pass(lists, lbIds, lb, call.lbReach).lists, nodeIds, node, call.nodeReach, id, NoEgressOn(p));
  }
}
