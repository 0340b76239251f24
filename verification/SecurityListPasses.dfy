/**
 Updating many subnets' security lists: what one list becomes, and a pass over subnets whose lists
 may coincide. A pass stops at the first subnet that cannot be resolved or reached.
 */
module SecurityListPasses {
  import opened Common
  import opened SecurityRules
  import opened SecurityListCalculators
  import opened SecurityListChanges

  datatype SecurityList = SecurityList(ingress: seq<Rule>, egress: seq<Rule>)

  type Lists = map<string, SecurityList>

  /** The arguments of Update and Delete that concern security lists. */
  datatype Components = Components(lbSubnets: seq<Subnet>, backendSubnets: seq<Subnet>, sourceCIDRs: seq<string>,
                                   isPreserveSource: bool,
                                   actualPorts: Option<PortSpec>, desiredPorts: PortSpec, families: seq<string>)

  // ---------- One list ----------

  /** What updateLoadBalancerRules computes for a load balancer subnet's list. */
  function LbStep(nodes: set<string>, sources: set<string>, actual: Option<PortSpec>, d: PortSpec, listing: Listing)
    : SecurityList -> SecurityList
  {
    (l: SecurityList) => SecurityList(
        if d.listener != 0 then Merge(l.ingress, sources, d.listener, ListenerNeeded(listing, d.listener), true)
            else l.ingress,
        EgressPair(l.egress, nodes, CurrentBackend(actual), CurrentHealth(actual), d,
                   HealthNeeded(listing, d.backend), HealthNeeded(listing, d.health)))
  }

  /** What updateBackendRules computes for a node subnet's list. */
  function NodeStep(backend: set<string>, health: set<string>, actual: Option<PortSpec>, d: PortSpec, listing: Listing)
    : SecurityList -> SecurityList
  {
    (l: SecurityList) => SecurityList(NodeIngress(l.ingress, backend, health, actual, d,
                                                  HealthNeeded(listing, d.health)), l.egress)
  }

  function LbUpdate(c: Components, listing: Listing): SecurityList -> SecurityList {
    LbStep(SubnetCidrs(c.backendSubnets, c.families), ToSet(c.sourceCIDRs), c.actualPorts, c.desiredPorts, listing)
  }

  function NodeUpdate(c: Components, listing: Listing): SecurityList -> SecurityList {
    NodeStep(BackendCidrs(c.lbSubnets, c.families, c.sourceCIDRs, c.isPreserveSource),
             SubnetCidrs(c.lbSubnets, c.families),
             c.actualPorts, c.desiredPorts, listing)
  }

  function LbDelete(d: PortSpec, listing: Listing): SecurityList -> SecurityList {
    LbStep({}, {}, Some(d), d, listing)
  }

  function NodeDelete(d: PortSpec, listing: Listing): SecurityList -> SecurityList {
    NodeStep({}, {}, Some(d), d, listing)
  }

  predicate Differs(l: SecurityList, m: SecurityList) {
    Changed(l.ingress, l.egress, m.ingress, m.egress)
  }

  /** The list after one subnet: written only when the detector sees a change. */
  function Store(step: SecurityList -> SecurityList, l: SecurityList): SecurityList {
    if Differs(l, step(l)) then step(l) else l
  }

  /** The detector acts as equality on the results of this step. */
  ghost predicate Exact(step: SecurityList -> SecurityList) {
    forall l: SecurityList :: Store(step, l) == step(l)
  }

  // ---------- Passes ----------

  datatype Outcome = Outcome(lists: Lists, ok: bool, writes: seq<string>)

  /** Handle each subnet in turn; `ids` are the lists the subnets resolve to and the remote calls
      of the first `reach` subnets succeed. */
  function Pass(lists: Lists, ids: seq<Option<string>>, step: SecurityList -> SecurityList, reach: nat): (o: Outcome)
    ensures o.lists.Keys == lists.Keys
  {
    if ids == [] then Outcome(lists, true, [])
    else
      var n := |ids| - 1;
      var o := Pass(lists, ids[..n], step, reach);
      if !o.ok then o
      else if n >= reach || ids[n].None? || ids[n].value !in o.lists then o.(ok := false)
      else
        var id := ids[n].value;
        Outcome(o.lists[id := Store(step, o.lists[id])], true,
                if Differs(o.lists[id], step(o.lists[id])) then o.writes + [id] else o.writes)
  }

  function TwoPasses(lists: Lists, lbIds: seq<Option<string>>, lb: SecurityList -> SecurityList, lbReach: nat,
                     nodeIds: seq<Option<string>>, node: SecurityList -> SecurityList, nodeReach: nat): Outcome {
    var a := Pass(lists, lbIds, lb, lbReach);
    if !a.ok then a
    else
      var b := Pass(a.lists, nodeIds, node, nodeReach);
      Outcome(b.lists, b.ok, a.writes + b.writes)
  }

  /** A list no subnet resolves to is left alone. */
  lemma {:induction false} PassElsewhere(lists: Lists, ids: seq<Option<string>>, step: SecurityList -> SecurityList,
                                         reach: nat, id: string)
    requires id in lists && Some(id) !in ids
    ensures Pass(lists, ids, step, reach).lists[id] == lists[id]
  {
    if ids != [] { PassElsewhere(lists, ids[..|ids| - 1], step, reach, id); }
  }

  /** What every stored result keeps, a pass keeps. */
  lemma {:induction false} PassKeeps(lists: Lists, ids: seq<Option<string>>, step: SecurityList -> SecurityList,
                                     reach: nat,
                                     id: string, P: SecurityList -> bool)
    requires id in lists && P(lists[id])
    requires forall l | P(l) :: P(Store(step, l))
    ensures P(Pass(lists, ids, step, reach).lists[id])
  {
    if ids != [] { PassKeeps(lists, ids[..|ids| - 1], step, reach, id, P); }
  }

  /** What every stored result has, every list of a successful pass has. */
  lemma {:induction false} PassReaches(lists: Lists, ids: seq<Option<string>>, step: SecurityList -> SecurityList,
                                       reach: nat,
                                       id: string, P: SecurityList -> bool)
    requires id in lists && Some(id) in ids && Pass(lists, ids, step, reach).ok
    requires forall l :: P(Store(step, l))
    ensures P(Pass(lists, ids, step, reach).lists[id])
  {
    var n := |ids| - 1;
    assert ids == ids[..n] + [ids[n]];
    if ids[n] != Some(id) { PassReaches(lists, ids[..n], step, reach, id, P); }
  }

  /** A pass over lists that the step leaves alone writes nothing. */
  lemma {:induction false} PassIdle(lists: Lists, ids: seq<Option<string>>, step: SecurityList -> SecurityList,
                                    reach: nat)
    requires |ids| <= reach
    requires forall i | 0 <= i < |ids| ::
               ids[i].Some? && ids[i].value in lists && !Differs(lists[ids[i].value], step(lists[ids[i].value]))
    ensures Pass(lists, ids, step, reach) == Outcome(lists, true, [])
  {
    if ids != [] {
      var n := |ids| - 1;
      PassIdle(lists, ids[..n], step, reach);
      assert lists[ids[n].value := lists[ids[n].value]] == lists;
    }
  }

  /** Every list that a pass changes is among the reported writes, and every reported list was written
      because the detector saw a change at some visit. */
  lemma {:induction false} PassReports(lists: Lists, ids: seq<Option<string>>, step: SecurityList -> SecurityList,
                                       reach: nat, id: string)
    requires id in lists
    ensures var o := Pass(lists, ids, step, reach);
            && (o.lists[id] != lists[id] ==> id in o.writes)
            && (id in o.writes ==> Some(id) in ids && exists l :: Differs(l, step(l)))
  {
    if ids != [] {
      PassReports(lists, ids[..|ids| - 1], step, reach, id);
    }
  }

  /** A pass succeeds exactly when every subnet resolves to a list and can be reached. */
  lemma {:induction false} PassOk(lists: Lists, ids: seq<Option<string>>, step: SecurityList -> SecurityList,
                                  reach: nat)
    ensures Pass(lists, ids, step, reach).ok <==>
            |ids| <= reach && forall i | 0 <= i < |ids| :: ids[i].Some? && ids[i].value in lists
  {
    if ids != [] {
      var n := |ids| - 1;
      PassOk(lists, ids[..n], step, reach);
      assert forall i | 0 <= i < n :: ids[i] == ids[..n][i];
    }
  }

  // ---------- Exactness of the steps ----------

  lemma LbStepExact(nodes: set<string>, sources: set<string>, actual: Option<PortSpec>, d: PortSpec, listing: Listing)
    requires CurrentBackend(actual) == d.health ==> CurrentBackend(actual) == d.backend
    ensures Exact(LbStep(nodes, sources, actual, d, listing))
  {
    var step := LbStep(nodes, sources, actual, d, listing);
    EgressDetectorExactIff(CurrentBackend(actual), CurrentHealth(actual), d);
    forall l: SecurityList ensures Store(step, l) == step(l) {
      if !Differs(l, step(l)) {
        ListenerPatches(l.ingress, sources, d.listener, ListenerNeeded(listing, d.listener));
        if d.listener != 0 { PatchLooksSame(l.ingress, step(l).ingress); }
        assert step(l).egress == l.egress;
      }
    }
  }

  lemma NodeStepExact(backend: set<string>, health: set<string>, actual: Option<PortSpec>, d: PortSpec,
                      listing: Listing)
    requires d.backend != d.health || d.backend == 0
    ensures Exact(NodeStep(backend, health, actual, d, listing))
  {
    var step := NodeStep(backend, health, actual, d, listing);
    forall l: SecurityList ensures Store(step, l) == step(l) {
      if !Differs(l, step(l)) {
        NodeIngressPatches(l.ingress, backend, health, actual, d, HealthNeeded(listing, d.health));
        PatchLooksSame(l.ingress, step(l).ingress);
      }
    }
  }
}
