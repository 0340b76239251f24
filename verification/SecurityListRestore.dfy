/** Update followed by Delete gives every list back exactly when it held no rule on the ports involved. */
module SecurityListRestore {
  import opened Common
  import opened SecurityRules
  import opened SecurityListCalculators
  import opened SecurityListChanges
  import opened SecurityListPasses
  import opened SecurityListFixedPoint

  // ---------- Rules the service has no claim on ----------

  ghost function OffListener(d: PortSpec): Rule -> bool {
    r => d.listener == 0 || !Applies(r, d.listener)
  }

  ghost function OffBackend(d: PortSpec): Rule -> bool {
    r => !Applies(r, d.backend) && !Applies(r, d.health)
  }

  ghost function EgressStaysFresh(actual: Option<PortSpec>, d: PortSpec): Rule -> bool {
    r => Fresh(CurrentBackend(actual), d.backend)(r) && Fresh(CurrentHealth(actual), d.health)(r)
  }

  /** Ingress rules that survive in a list used for load balancer subnets, node subnets or both. */
  ghost function IngressFree(isLb: bool, isNode: bool, actual: Option<PortSpec>, d: PortSpec): Rule -> bool {
    r => (isLb ==> OffListener(d)(r)) && (isNode ==> NodeFresh(actual, d)(r) && OffBackend(d)(r))
  }

  ghost function EgressFree(isLb: bool, actual: Option<PortSpec>, d: PortSpec): Rule -> bool {
    r => isLb ==> EgressStaysFresh(actual, d)(r) && OffBackend(d)(r)
  }

  // ---------- Frame: unclaimed rules keep their order and multiplicity ----------

  ghost function SameFree(gi: Rule -> bool, ge: Rule -> bool, x: SecurityList): SecurityList -> bool {
    (l: SecurityList) => Filter(gi, l.ingress) == Filter(gi, x.ingress) && Filter(ge, l.egress) == Filter(ge, x.egress)
  }

  lemma EgressPairFrame(g: Rule -> bool, rules: seq<Rule>, wanted: set<string>, aB: int, aH: int, d: PortSpec,
                        useB: bool, useH: bool)
    requires forall r | g(r) :: Fresh(aB, d.backend)(r) && Fresh(aH, d.health)(r) && OffBackend(d)(r)
    ensures Filter(g, EgressPair(rules, wanted, aB, aH, d, useB, useH)) == Filter(g, rules)
  {
    FilterFilter(g, Fresh(aB, d.backend), rules);
    MergeFrame(g, Filter(Fresh(aB, d.backend), rules), wanted, d.backend, useB, true);
    var m := EgressRules(rules, wanted, aB, d.backend, useB);
    FilterFilter(g, Fresh(aH, d.health), m);
    MergeFrame(g, Filter(Fresh(aH, d.health), m), wanted, d.health, useH, true);
  }

  lemma NodeIngressFrame(g: Rule -> bool, rules: seq<Rule>, wb: set<string>, wh: set<string>, actual: Option<PortSpec>,
                         d: PortSpec, inUse: bool)
    requires d.backend != d.health
    requires forall r | g(r) :: NodeFresh(actual, d)(r) && OffBackend(d)(r)
    ensures Filter(g, NodeIngress(rules, wb, wh, actual, d, inUse)) == Filter(g, rules)
  {
    NodeIngressIsTwoMerges(rules, wb, wh, actual, d, inUse);
    var f := Filter(NodeFresh(actual, d), rules);
    FilterFilter(g, NodeFresh(actual, d), rules);
    MergeFrame(g, f, wb, d.backend, false, d.backend != 0);
    MergeFrame(g, Merge(f, wb, d.backend, false, d.backend != 0), wh, d.health, inUse, d.health != 0);
  }

  lemma LbStepFrame(nodes: set<string>, sources: set<string>, actual: Option<PortSpec>, d: PortSpec, listing: Listing,
                    gi: Rule -> bool, ge: Rule -> bool, x: SecurityList)
    requires forall r | gi(r) :: OffListener(d)(r)
    requires forall r | ge(r) :: EgressStaysFresh(actual, d)(r) && OffBackend(d)(r)
    ensures var step := LbStep(nodes, sources, actual, d, listing);
            forall l | SameFree(gi, ge, x)(l) :: SameFree(gi, ge, x)(Store(step, l))
  {
    var step := LbStep(nodes, sources, actual, d, listing);
    forall l | SameFree(gi, ge, x)(l) ensures SameFree(gi, ge, x)(Store(step, l)) {
      LbStepFrameAt(nodes, sources, actual, d, listing, gi, ge, l);
    }
  }

  lemma LbStepFrameAt(nodes: set<string>, sources: set<string>, actual: Option<PortSpec>, d: PortSpec, listing: Listing,
                      gi: Rule -> bool, ge: Rule -> bool, l: SecurityList)
    requires forall r | gi(r) :: OffListener(d)(r)
    requires forall r | ge(r) :: EgressStaysFresh(actual, d)(r) && OffBackend(d)(r)
    ensures Filter(gi, LbStep(nodes, sources, actual, d, listing)(l).ingress) == Filter(gi, l.ingress)
    ensures Filter(ge, LbStep(nodes, sources, actual, d, listing)(l).egress) == Filter(ge, l.egress)
  {
    EgressPairFrame(ge, l.egress, nodes, CurrentBackend(actual), CurrentHealth(actual), d,
                    HealthNeeded(listing, d.backend), HealthNeeded(listing, d.health));
    if d.listener != 0 {
      MergeFrame(gi, l.ingress, sources, d.listener, ListenerNeeded(listing, d.listener), true);
    }
  }

  lemma NodeStepFrame(backend: set<string>, health: set<string>, actual: Option<PortSpec>, d: PortSpec,
                      listing: Listing,
                      gi: Rule -> bool, ge: Rule -> bool, x: SecurityList)
    requires d.backend != d.health
    requires forall r | gi(r) :: NodeFresh(actual, d)(r) && OffBackend(d)(r)
    ensures var step := NodeStep(backend, health, actual, d, listing);
            forall l | SameFree(gi, ge, x)(l) :: SameFree(gi, ge, x)(Store(step, l))
  {
    var step := NodeStep(backend, health, actual, d, listing);
    forall l | SameFree(gi, ge, x)(l) ensures SameFree(gi, ge, x)(Store(step, l)) {
      NodeIngressFrame(gi, l.ingress, backend, health, actual, d, HealthNeeded(listing, d.health));
    }
  }

  // ---------- Cleanup: Delete leaves no claimed rule ----------

  ghost function AllIn(gi: Rule -> bool, ge: Rule -> bool): SecurityList -> bool {
    (l: SecurityList) => (forall r | r in l.ingress :: gi(r)) && (forall r | r in l.egress :: ge(r))
  }

  ghost function Anything(): Rule -> bool {
    r => true
  }

  lemma MergeNothing(rules: seq<Rule>, p: int, inUse: bool, add: bool)
    ensures forall r | r in Merge(rules, {}, p, inUse, add) :: r in rules && (!inUse ==> !Applies(r, p))
  {
    KeptSubsequence(rules, {}, p, inUse);
    SubsequenceLength(Kept(rules, {}, p, inUse), rules);
    var left: set<string> := {} - PeerSet(rules, p);
    assert left == {};
    var m := Merge(rules, {}, p, inUse, add);
    assert m == Kept(rules, {}, p, inUse);
    MergePeers(rules, {}, p, inUse, add);
    PeerSetMeans(m, p);
    forall r | r in m && !inUse ensures !Applies(r, p) {
      assert Applies(r, p) ==> r.peer in PeerSet(m, p);
    }
  }

  lemma SomeFresh(d: PortSpec)
    ensures forall r :: Fresh(d.backend, d.backend)(r) && Fresh(d.health, d.health)(r) && NodeFresh(Some(d), d)(r)
  {
    forall r ensures NodeFresh(Some(d), d)(r) { NodeFreshMeans(r, Some(d), d); }
  }

  /** What the Delete steps leave of a list was there before and, if nobody needs the ports, is
      off the service's ports. */
  lemma LbDeleteCleans(d: PortSpec, listing: Listing, l: SecurityList)
    ensures var m := LbDelete(d, listing)(l);
            && (forall r | r in m.ingress ::
                r in l.ingress && (!ListenerNeeded(listing, d.listener) ==> OffListener(d)(r)))
            && (forall r | r in m.egress :: r in l.egress &&
                  (!HealthNeeded(listing, d.backend) && !HealthNeeded(listing, d.health) ==> OffBackend(d)(r)))
  {
    SomeFresh(d);
    var useB, useH := HealthNeeded(listing, d.backend), HealthNeeded(listing, d.health);
    FilterLength(Fresh(d.backend, d.backend), l.egress);
    MergeNothing(l.egress, d.backend, useB, true);
    var m := Merge(l.egress, {}, d.backend, useB, true);
    FilterLength(Fresh(d.health, d.health), m);
    MergeNothing(m, d.health, useH, true);
    MergeNothing(l.ingress, d.listener, ListenerNeeded(listing, d.listener), true);
  }

  lemma NodeDeleteCleans(d: PortSpec, listing: Listing, l: SecurityList)
    requires d.backend != d.health
    ensures forall r | r in NodeDelete(d, listing)(l).ingress ::
              r in l.ingress && (!HealthNeeded(listing, d.health) ==> OffBackend(d)(r))
  {
    SomeFresh(d);
    NodeIngressIsTwoMerges(l.ingress, {}, {}, Some(d), d, HealthNeeded(listing, d.health));
    FilterLength(NodeFresh(Some(d), d), l.ingress);
    MergeNothing(l.ingress, d.backend, false, d.backend != 0);
    MergeNothing(Merge(l.ingress, {}, d.backend, false, d.backend != 0), d.health, HealthNeeded(listing, d.health),
                 d.health != 0);
  }

  ghost predicate Shrinks(step: SecurityList -> SecurityList) {
    forall l: SecurityList ::
        (forall r | r in Store(step, l).ingress :: r in l.ingress) &&
            (forall r | r in Store(step, l).egress :: r in l.egress)
  }

  lemma DeletesShrink(d: PortSpec, listing: Listing)
    requires d.backend != d.health
    ensures Shrinks(LbDelete(d, listing)) && Shrinks(NodeDelete(d, listing))
  {
    forall l: SecurityList
      ensures (forall r | r in Store(LbDelete(d, listing), l).ingress :: r in l.ingress) &&
              (forall r | r in Store(LbDelete(d, listing), l).egress :: r in l.egress)
    {
      LbDeleteCleans(d, listing, l);
    }
    forall l: SecurityList
      ensures (forall r | r in Store(NodeDelete(d, listing), l).ingress :: r in l.ingress) &&
              (forall r | r in Store(NodeDelete(d, listing), l).egress :: r in l.egress)
    {
      NodeDeleteCleans(d, listing, l);
    }
  }

  lemma ShrinkKeepsAllIn(step: SecurityList -> SecurityList, gi: Rule -> bool, ge: Rule -> bool)
    requires Shrinks(step)
    ensures forall l | AllIn(gi, ge)(l) :: AllIn(gi, ge)(Store(step, l))
  {}

  /** Egress rules after Update: fresh, or on one of the new ports. */
  ghost function EgressTraced(actual: Option<PortSpec>, d: PortSpec): Rule -> bool {
    r => EgressStaysFresh(actual, d)(r) || !OffBackend(d)(r)
  }

  lemma EgressPairTraced(rules: seq<Rule>, wanted: set<string>, actual: Option<PortSpec>, d: PortSpec, useB: bool,
                         useH: bool)
    ensures forall r | r in EgressPair(rules, wanted, CurrentBackend(actual), CurrentHealth(actual), d, useB, useH) ::
              EgressTraced(actual, d)(r)
  {
    var m := EgressRules(rules, wanted, CurrentBackend(actual), d.backend, useB);
    EgressMembers(rules, wanted, CurrentBackend(actual), d.backend, useB);
    EgressMembers(m, wanted, CurrentHealth(actual), d.health, useH);
    forall r | r in EgressRules(m, wanted, CurrentHealth(actual), d.health, useH) ensures EgressTraced(actual, d)(r) {
      var clear, stays := OffBackend(d)(r), EgressStaysFresh(actual, d)(r);
      assert clear == (!Applies(r, d.backend) && !Applies(r, d.health));
      assert clear ==> r in m && Fresh(CurrentHealth(actual), d.health)(r);
      assert clear ==> Fresh(CurrentBackend(actual), d.backend)(r);
      assert clear ==> stays;
    }
  }

  lemma LbUpdateTraces(nodes: set<string>, sources: set<string>, actual: Option<PortSpec>, d: PortSpec,
                       listing: Listing)
    requires CurrentBackend(actual) == d.health ==> CurrentBackend(actual) == d.backend
    ensures forall l :: AllIn(Anything(), EgressTraced(actual, d))(Store(LbStep(nodes, sources, actual, d, listing), l))
  {
    var step := LbStep(nodes, sources, actual, d, listing);
    LbStepExact(nodes, sources, actual, d, listing);
    forall l: SecurityList ensures AllIn(Anything(), EgressTraced(actual, d))(Store(step, l)) {
      EgressPairTraced(l.egress, nodes, actual, d, HealthNeeded(listing, d.backend), HealthNeeded(listing, d.health));
      assert Store(step, l) == step(l);
    }
  }

  lemma NodeUpdateTraces(backend: set<string>, health: set<string>, actual: Option<PortSpec>, d: PortSpec,
                         listing: Listing)
    requires d.backend != d.health
    ensures forall l :: AllIn(NodeFresh(actual, d), Anything())(Store(NodeStep(backend, health, actual, d, listing), l))
    ensures forall l, ge | AllIn(Anything(), ge)(l) ::
            AllIn(Anything(), ge)(Store(NodeStep(backend, health, actual, d, listing), l))
  {
    var step := NodeStep(backend, health, actual, d, listing);
    NodeStepExact(backend, health, actual, d, listing);
    forall l: SecurityList ensures AllIn(NodeFresh(actual, d), Anything())(Store(step, l)) {
      assert Store(step, l) == step(l);
      NodeIngressMembers(l.ingress, backend, health, actual, d, HealthNeeded(listing, d.health));
    }
  }

  // ---------- A whole Update and Delete ----------

  /** The two calls, with what each of them resolves and reaches. */
  datatype Roundtrip = Roundtrip(lbIds: seq<Option<string>>, nodeIds: seq<Option<string>>, c: Components,
                                 atUpdate: Listing, atDelete: Listing, reach: nat)

  ghost function Updated(lists: Lists, t: Roundtrip): Outcome {
    TwoPasses(lists, t.lbIds, LbUpdate(t.c, t.atUpdate), t.reach, t.nodeIds, NodeUpdate(t.c, t.atUpdate), t.reach)
  }

  ghost function Deleted(lists: Lists, t: Roundtrip): Outcome {
    TwoPasses(lists, t.lbIds, LbDelete(t.c.desiredPorts, t.atDelete), t.reach, t.nodeIds,
              NodeDelete(t.c.desiredPorts, t.atDelete), t.reach)
  }

  /** The ports differ, and at deletion no live service needs them. */
  ghost predicate Restorable(t: Roundtrip) {
    var d := t.c.desiredPorts;
    && d.backend != d.health && CurrentBackend(t.c.actualPorts) != d.health
    && !ListenerNeeded(t.atDelete, d.listener) && !HealthNeeded(t.atDelete, d.backend) &&
       !HealthNeeded(t.atDelete, d.health)
  }

  ghost function KeptIngress(t: Roundtrip, id: string): Rule -> bool {
    IngressFree(Some(id) in t.lbIds, Some(id) in t.nodeIds, t.c.actualPorts, t.c.desiredPorts)
  }

  ghost function KeptEgress(t: Roundtrip, id: string): Rule -> bool {
    EgressFree(Some(id) in t.lbIds, t.c.actualPorts, t.c.desiredPorts)
  }

  lemma UpdateFrame(lists: Lists, t: Roundtrip, id: string)
    requires id in lists && t.c.desiredPorts.backend != t.c.desiredPorts.health
    ensures SameFree(KeptIngress(t, id), KeptEgress(t, id), lists[id])(Updated(lists, t).lists[id])
  {
    var gi, ge, x, c := KeptIngress(t, id), KeptEgress(t, id), lists[id], t.c;
    var P, lb, node := SameFree(gi, ge, x), LbUpdate(c, t.atUpdate), NodeUpdate(c, t.atUpdate);
    var a := Pass(lists, t.lbIds, lb, t.reach);
    if Some(id) in t.lbIds {
      LbStepFrame(SubnetCidrs(c.backendSubnets, c.families), ToSet(c.sourceCIDRs), c.actualPorts, c.desiredPorts,
                  t.atUpdate, gi, ge, x);
      PassKeeps(lists, t.lbIds, lb, t.reach, id, P);
    } else {
      PassElsewhere(lists, t.lbIds, lb, t.reach, id);
    }
    if a.ok {
      if Some(id) in t.nodeIds {
        NodeStepFrame(BackendCidrs(c.lbSubnets, c.families, c.sourceCIDRs, c.isPreserveSource),
                      SubnetCidrs(c.lbSubnets, c.families),
                      c.actualPorts, c.desiredPorts, t.atUpdate, gi, ge, x);
        PassKeeps(a.lists, t.nodeIds, node, t.reach, id, P);
      } else {
        PassElsewhere(a.lists, t.nodeIds, node, t.reach, id);
      }
    }
  }

  lemma DeleteFrame(lists: Lists, t: Roundtrip, id: string, x: SecurityList)
    requires id in lists && t.c.desiredPorts.backend != t.c.desiredPorts.health
    requires SameFree(KeptIngress(t, id), KeptEgress(t, id), x)(lists[id])
    ensures SameFree(KeptIngress(t, id), KeptEgress(t, id), x)(Deleted(lists, t).lists[id])
  {
    var gi, ge, d := KeptIngress(t, id), KeptEgress(t, id), t.c.desiredPorts;
    var P, lb, node := SameFree(gi, ge, x), LbDelete(d, t.atDelete), NodeDelete(d, t.atDelete);
    SomeFresh(d);
    var a := Pass(lists, t.lbIds, lb, t.reach);
    if Some(id) in t.lbIds {
      LbStepFrame({}, {}, Some(d), d, t.atDelete, gi, ge, x);
      PassKeeps(lists, t.lbIds, lb, t.reach, id, P);
    } else {
      PassElsewhere(lists, t.lbIds, lb, t.reach, id);
    }
    if a.ok {
      if Some(id) in t.nodeIds {
        NodeStepFrame({}, {}, Some(d), d, t.atDelete, gi, ge, x);
        PassKeeps(a.lists, t.nodeIds, node, t.reach, id, P);
      } else {
        PassElsewhere(a.lists, t.nodeIds, node, t.reach, id);
      }
    }
  }

  /** After Update, replaced ports are gone from the lists it used. */
  lemma UpdateTraces(lists: Lists, t: Roundtrip, id: string)
    requires id in lists && Restorable(t) && Updated(lists, t).ok
    ensures Some(id) in t.lbIds ==>
            AllIn(Anything(), EgressTraced(t.c.actualPorts, t.c.desiredPorts))(Updated(lists, t).lists[id])
    ensures Some(id) in t.nodeIds ==>
            AllIn(NodeFresh(t.c.actualPorts, t.c.desiredPorts), Anything())(Updated(lists, t).lists[id])
  {
    var c := t.c;
    var lb, node := LbUpdate(c, t.atUpdate), NodeUpdate(c, t.atUpdate);
    LbUpdateTraces(SubnetCidrs(c.backendSubnets, c.families), ToSet(c.sourceCIDRs), c.actualPorts, c.desiredPorts,
                   t.atUpdate);
    NodeUpdateTraces(BackendCidrs(c.lbSubnets, c.families, c.sourceCIDRs, c.isPreserveSource),
                     SubnetCidrs(c.lbSubnets, c.families),
                     c.actualPorts, c.desiredPorts, t.atUpdate);
    var a := Pass(lists, t.lbIds, lb, t.reach);
    if Some(id) in t.lbIds {
      var P := AllIn(Anything(), EgressTraced(c.actualPorts, c.desiredPorts));
      PassReaches(lists, t.lbIds, lb, t.reach, id, P);
      PassKeeps(a.lists, t.nodeIds, node, t.reach, id, P);
    }
    if Some(id) in t.nodeIds {
      PassReaches(a.lists, t.nodeIds, node, t.reach, id, AllIn(NodeFresh(c.actualPorts, c.desiredPorts), Anything()));
    }
  }

  /** Delete keeps what all rules of a list have in common. */
  lemma DeleteKeepsAllIn(lists: Lists, t: Roundtrip, id: string, gi: Rule -> bool, ge: Rule -> bool)
    requires id in lists && t.c.desiredPorts.backend != t.c.desiredPorts.health && AllIn(gi, ge)(lists[id])
    ensures AllIn(gi, ge)(Deleted(lists, t).lists[id])
  {
    var d := t.c.desiredPorts;
    DeletesShrink(d, t.atDelete);
    ShrinkKeepsAllIn(LbDelete(d, t.atDelete), gi, ge);
    ShrinkKeepsAllIn(NodeDelete(d, t.atDelete), gi, ge);
    var a := Pass(lists, t.lbIds, LbDelete(d, t.atDelete), t.reach);
    PassKeeps(lists, t.lbIds, LbDelete(d, t.atDelete), t.reach, id, AllIn(gi, ge));
    if a.ok { PassKeeps(a.lists, t.nodeIds, NodeDelete(d, t.atDelete), t.reach, id, AllIn(gi, ge)); }
  }

  lemma LbDeleteEstablishes(d: PortSpec, listing: Listing)
    requires !ListenerNeeded(listing, d.listener) && !HealthNeeded(listing, d.backend) &&
             !HealthNeeded(listing, d.health)
    ensures forall l :: AllIn(OffListener(d), OffBackend(d))(Store(LbDelete(d, listing), l))
  {
    LbStepExact({}, {}, Some(d), d, listing);
    forall l: SecurityList ensures AllIn(OffListener(d), OffBackend(d))(Store(LbDelete(d, listing), l)) {
      LbDeleteCleans(d, listing, l);
      assert Store(LbDelete(d, listing), l) == LbDelete(d, listing)(l);
    }
  }

  lemma NodeDeleteEstablishes(d: PortSpec, listing: Listing)
    requires d.backend != d.health && !HealthNeeded(listing, d.health)
    ensures forall l :: AllIn(OffBackend(d), Anything())(Store(NodeDelete(d, listing), l))
  {
    NodeStepExact({}, {}, Some(d), d, listing);
    forall l: SecurityList ensures AllIn(OffBackend(d), Anything())(Store(NodeDelete(d, listing), l)) {
      NodeDeleteCleans(d, listing, l);
      assert Store(NodeDelete(d, listing), l) == NodeDelete(d, listing)(l);
    }
  }

  /** Delete takes the service's ports out of the lists it uses. */
  lemma DeleteCleans(lists: Lists, t: Roundtrip, id: string)
    requires id in lists && Restorable(t) && Deleted(lists, t).ok
    ensures Some(id) in t.lbIds ==>
            AllIn(OffListener(t.c.desiredPorts), OffBackend(t.c.desiredPorts))(Deleted(lists, t).lists[id])
    ensures Some(id) in t.nodeIds ==> AllIn(OffBackend(t.c.desiredPorts), Anything())(Deleted(lists, t).lists[id])
  {
    var d := t.c.desiredPorts;
    var lb, node := LbDelete(d, t.atDelete), NodeDelete(d, t.atDelete);
    DeletesShrink(d, t.atDelete);
    LbDeleteEstablishes(d, t.atDelete);
    NodeDeleteEstablishes(d, t.atDelete);
    var a := Pass(lists, t.lbIds, lb, t.reach);
    if Some(id) in t.lbIds {
      PassReaches(lists, t.lbIds, lb, t.reach, id, AllIn(OffListener(d), OffBackend(d)));
      ShrinkKeepsAllIn(node, OffListener(d), OffBackend(d));
      PassKeeps(a.lists, t.nodeIds, node, t.reach, id, AllIn(OffListener(d), OffBackend(d)));
    }
    if Some(id) in t.nodeIds {
      PassReaches(a.lists, t.nodeIds, node, t.reach, id, AllIn(OffBackend(d), Anything()));
    }
  }

  /** What Update and Delete leave of a list: the rules the service has no claim on, in order. */
  lemma CleanIsFree(l: SecurityList, isLb: bool, isNode: bool, actual: Option<PortSpec>, d: PortSpec)
    requires isLb ==> AllIn(Anything(), EgressTraced(actual, d))(l) && AllIn(OffListener(d), OffBackend(d))(l)
    requires isNode ==> AllIn(NodeFresh(actual, d), Anything())(l) && AllIn(OffBackend(d), Anything())(l)
    ensures AllIn(IngressFree(isLb, isNode, actual, d), EgressFree(isLb, actual, d))(l)
  {
    forall r | r in l.ingress ensures IngressFree(isLb, isNode, actual, d)(r) {
      assert isLb ==> OffListener(d)(r);
      assert isNode ==> NodeFresh(actual, d)(r) && OffBackend(d)(r);
    }
    forall r | r in l.egress ensures EgressFree(isLb, actual, d)(r) {
      assert isLb ==> EgressTraced(actual, d)(r) && OffBackend(d)(r);
    }
  }

  lemma LbTraceStays(lists: Lists, t: Roundtrip, id: string)
    requires id in lists && Restorable(t) && Updated(lists, t).ok && Some(id) in t.lbIds
    ensures AllIn(Anything(),
                  EgressTraced(t.c.actualPorts, t.c.desiredPorts))(Deleted(Updated(lists, t).lists, t).lists[id])
  {
    UpdateTraces(lists, t, id);
    DeleteKeepsAllIn(Updated(lists, t).lists, t, id, Anything(), EgressTraced(t.c.actualPorts, t.c.desiredPorts));
  }

  lemma NodeTraceStays(lists: Lists, t: Roundtrip, id: string)
    requires id in lists && Restorable(t) && Updated(lists, t).ok && Some(id) in t.nodeIds
    ensures AllIn(NodeFresh(t.c.actualPorts, t.c.desiredPorts),
                  Anything())(Deleted(Updated(lists, t).lists, t).lists[id])
  {
    UpdateTraces(lists, t, id);
    DeleteKeepsAllIn(Updated(lists, t).lists, t, id, NodeFresh(t.c.actualPorts, t.c.desiredPorts), Anything());
  }

  /** After the round trip no rule on a claimed port is left. */
  lemma RoundtripCleans(lists: Lists, t: Roundtrip, id: string)
    requires id in lists && Restorable(t)
    requires Updated(lists, t).ok && Deleted(Updated(lists, t).lists, t).ok
    ensures AllIn(KeptIngress(t, id), KeptEgress(t, id))(Deleted(Updated(lists, t).lists, t).lists[id])
  {
    DeleteCleans(Updated(lists, t).lists, t, id);
    if Some(id) in t.lbIds { LbTraceStays(lists, t, id); }
    if Some(id) in t.nodeIds { NodeTraceStays(lists, t, id); }
    CleanIsFree(Deleted(Updated(lists, t).lists, t).lists[id], Some(id) in t.lbIds, Some(id) in t.nodeIds,
                t.c.actualPorts, t.c.desiredPorts);
  }

  lemma RoundtripLeaves(lists: Lists, t: Roundtrip, id: string)
    requires id in lists && Restorable(t)
    requires Updated(lists, t).ok && Deleted(Updated(lists, t).lists, t).ok
    ensures Deleted(Updated(lists, t).lists, t).lists[id] ==
            SecurityList(Filter(KeptIngress(t, id), lists[id].ingress), Filter(KeptEgress(t, id), lists[id].egress))
  {
    var u := Updated(lists, t).lists;
    var l := Deleted(u, t).lists[id];
    UpdateFrame(lists, t, id);
    DeleteFrame(u, t, id, lists[id]);
    RoundtripCleans(lists, t, id);
    FilterLength(KeptIngress(t, id), l.ingress);
    FilterLength(KeptEgress(t, id), l.egress);
  }

  /** No rule of the list is on a port the service claims in it. */
  ghost predicate Unclaimed(l: SecurityList, t: Roundtrip, id: string) {
    AllIn(KeptIngress(t, id), KeptEgress(t, id))(l)
  }

  lemma RestoreListIff(lists: Lists, t: Roundtrip, id: string)
    requires id in lists && Restorable(t)
    requires Updated(lists, t).ok && Deleted(Updated(lists, t).lists, t).ok
    ensures Deleted(Updated(lists, t).lists, t).lists[id] == lists[id] <==> Unclaimed(lists[id], t, id)
  {
    RoundtripLeaves(lists, t, id);
    FilterLength(KeptIngress(t, id), lists[id].ingress);
    FilterLength(KeptEgress(t, id), lists[id].egress);
  }

  ghost predicate AllUnclaimed(lists: Lists, t: Roundtrip) {
    forall id | id in lists :: Unclaimed(lists[id], t, id)
  }

  ghost predicate RestoredAt(lists: Lists, v: Lists, t: Roundtrip, id: string) {
    id in lists && id in v && (v[id] == lists[id] <==> Unclaimed(lists[id], t, id))
  }

  lemma SameMapIff(lists: Lists, v: Lists, t: Roundtrip)
    requires v.Keys == lists.Keys && forall id | id in lists :: RestoredAt(lists, v, t, id)
    ensures v == lists <==> AllUnclaimed(lists, t)
  {}

  /** Update followed by Delete restores every list exactly when no list it uses started with a
      rule on the service's ports. */
  lemma RestoreIff(lists: Lists, t: Roundtrip)
    requires Restorable(t)
    requires Updated(lists, t).ok && Deleted(Updated(lists, t).lists, t).ok
    ensures Deleted(Updated(lists, t).lists, t).lists == lists <==> AllUnclaimed(lists, t)
  {
    var v := Deleted(Updated(lists, t).lists, t).lists;
    forall id | id in lists ensures RestoredAt(lists, v, t, id) {
      RestoreListIff(lists, t, id);
    }
    SameMapIff(lists, v, t);
  }
}
