/**
 The manager that owns all security-list rules of load balancer services. It holds the remote
 lists, which its methods overwrite one subnet at a time.
 */
module SecurityListManager {
  import opened Common
  import opened SecurityRules
  import opened SecurityListCalculators
  import opened SecurityListChanges
  import opened SecurityListPasses

  // ---------- Which list serves a subnet ----------

  predicate Known(ids: seq<string>, created: map<string, int>, n: nat)
    requires n <= |ids|
  {
    forall i | 0 <= i < n :: ids[i] in created
  }

  /** The place of the first of the oldest among the first n lists. */
  function OldestAt(ids: seq<string>, created: map<string, int>, n: nat): (k: nat)
    requires 0 < n <= |ids| && Known(ids, created, n)
    ensures k < n
  {
    if n == 1 then 0
    else
      var best := OldestAt(ids, created, n - 1);
      if created[ids[n - 1]] < created[ids[best]] then n - 1 else best
  }

  lemma {:induction false} OldestMeans(ids: seq<string>, created: map<string, int>, n: nat)
    requires 0 < n <= |ids| && Known(ids, created, n)
    ensures var k := OldestAt(ids, created, n);
            && (forall j | 0 <= j < n :: created[ids[k]] <= created[ids[j]])
            && (forall j | 0 <= j < k :: created[ids[k]] < created[ids[j]])
  {
    if n > 1 {
      OldestMeans(ids, created, n - 1);
    }
  }

  /** A configured list wins if the subnet has it; otherwise the oldest of the subnet's lists. None
      when the subnet has no list or a list cannot be fetched. */
  function SelectList(subnet: Subnet, configured: map<string, string>, created: map<string, int>): (id: Option<string>)
    ensures id.Some? ==> id.value in subnet.securityListIds && id.value in created
  {
    if subnet.securityListIds == [] then None
    else if subnet.id in configured && configured[subnet.id] in subnet.securityListIds then
      if configured[subnet.id] in created then Some(configured[subnet.id]) else None
    else if Known(subnet.securityListIds, created, |subnet.securityListIds|) then
      Some(subnet.securityListIds[OldestAt(subnet.securityListIds, created, |subnet.securityListIds|)])
    else None
  }

  /** A configured list of the subnet wins, even over older ones; without one it is the oldest list,
      the first of several, if all lists can be fetched. */
  lemma SelectMeans(subnet: Subnet, configured: map<string, string>, created: map<string, int>) returns (k: nat)
    ensures var own := subnet.securityListIds;
            var id := SelectList(subnet, configured, created);
            if subnet.id in configured && configured[subnet.id] in own
            then id == if configured[subnet.id] in created then Some(configured[subnet.id]) else None
            else if own == [] || !Known(own, created, |own|) then id == None
            else && k < |own| && id == Some(own[k])
                 && (forall j | 0 <= j < |own| :: created[own[k]] <= created[own[j]])
                 && (forall j | 0 <= j < k :: created[own[k]] < created[own[j]])
  {
    var own := subnet.securityListIds;
    k := 0;
    if own != [] && Known(own, created, |own|) {
      OldestMeans(own, created, |own|);
      k := OldestAt(own, created, |own|);
    }
  }

  function Resolve(subnets: seq<Subnet>, configured: map<string, string>, created: map<string, int>)
    : (ids: seq<Option<string>>)
    ensures |ids| == |subnets|
  {
    seq(|subnets|, i requires 0 <= i < |subnets| => SelectList(subnets[i], configured, created))
  }

  /** The body of the load balancer loop: both egress calls, then ingress if there is a listener. */
  method ComputeLbList(secList: SecurityList, nodeSubnets: seq<Subnet>, sourceCIDRs: seq<string>,
                       actualPorts: Option<PortSpec>,
                       desiredPorts: PortSpec, families: seq<string>, listing: Listing)
    returns (computed: SecurityList)
    ensures computed == LbStep(SubnetCidrs(nodeSubnets, families), ToSet(sourceCIDRs), actualPorts, desiredPorts,
                               listing)(secList)
  {
    var currentBackEndPort, currentHealthCheck := 0, 0;
    if actualPorts.Some? {
      currentBackEndPort := actualPorts.value.backend;
      currentHealthCheck := actualPorts.value.health;
    }
    var egress := GetLoadBalancerEgressRules(secList.egress, nodeSubnets, currentBackEndPort, desiredPorts.backend,
                                             listing, families);
    egress := GetLoadBalancerEgressRules(egress, nodeSubnets, currentHealthCheck, desiredPorts.health, listing,
                                         families);
    var ingress := secList.ingress;
    if desiredPorts.listener != 0 {
      ingress := GetLoadBalancerIngressRules(ingress, sourceCIDRs, desiredPorts.listener, listing);
    }
    return SecurityList(ingress, egress);
  }

  /** The body of the node loop. */
  method ComputeNodeList(secList: SecurityList, lbSubnets: seq<Subnet>, actualPorts: Option<PortSpec>,
                         desiredPorts: PortSpec,
                         sourceCIDRs: seq<string>, isPreserveSource: bool, families: seq<string>, listing: Listing)
    returns (computed: SecurityList)
    ensures computed == NodeStep(BackendCidrs(lbSubnets, families, sourceCIDRs, isPreserveSource),
                                 SubnetCidrs(lbSubnets, families),
                                 actualPorts, desiredPorts, listing)(secList)
  {
    var ingress := GetNodeIngressRules(secList.ingress, lbSubnets, actualPorts, desiredPorts, listing, sourceCIDRs,
                                       isPreserveSource, families);
    return SecurityList(ingress, secList.egress);
  }

  /** Fetch every list and pick the oldest; None when one of them cannot be fetched. */
  method FindOldest(ids: seq<string>, created: map<string, int>) returns (id: Option<string>)
    requires ids != []
    ensures id.Some? <==> Known(ids, created, |ids|)
    ensures id.Some? ==> id.value == ids[OldestAt(ids, created, |ids|)]
  {
    if ids[0] !in created {
      return None;
    }
    var best := ids[0];
    for i := 1 to |ids|
      invariant Known(ids, created, i) && best == ids[OldestAt(ids, created, i)]
    {
      if ids[i] !in created {
        return None;
      }
      if created[ids[i]] < created[best] {
        best := ids[i];
      }
    }
    return Some(best);
  }

  class Manager {
    /** The remote security lists. */
    var lists: Lists
    /** Creation times of the lists and the lists configured for some subnets. */
    const created: map<string, int>
    const configured: map<string, string>

    ghost predicate Valid()
      reads this
    {
      lists.Keys == created.Keys
    }

    constructor (lists: Lists, created: map<string, int>, configured: map<string, string>)
      requires lists.Keys == created.Keys
      ensures Valid() && this.lists == lists && this.created == created && this.configured == configured
    {
      this.lists, this.created, this.configured := lists, created, configured;
    }

    method GetSecurityList(subnet: Subnet) returns (id: Option<string>)
      requires Valid()
      ensures id == SelectList(subnet, configured, created)
      ensures id.Some? ==> id.value in lists
    {
      if |subnet.securityListIds| < 1 {
        return None;
      }
      var ids := subnet.securityListIds;
      if subnet.id in configured && configured[subnet.id] in ids {
        return if configured[subnet.id] in lists then Some(configured[subnet.id]) else None;
      }
      id := FindOldest(ids, created);
    }

    /** The end of both loops: skip the remote write when the detector sees no change. */
    method WriteIfChanged(id: string, computed: SecurityList) returns (wrote: bool)
      requires Valid() && id in lists
      modifies this`lists
      ensures Valid()
      ensures wrote == Differs(old(lists)[id], computed)
      ensures lists == old(lists)[id := if wrote then computed else old(lists)[id]]
    {
      var secList := lists[id];
      wrote := SecurityListRulesChanged(secList.ingress, secList.egress, computed.ingress, computed.egress);
      if wrote {
        lists := lists[id := computed];
      }
    }

    /** updateLoadBalancerRules. `reach`: how many subnets are handled before a remote call fails. */
    method UpdateLoadBalancerRules(lbSubnets: seq<Subnet>, nodeSubnets: seq<Subnet>, sourceCIDRs: seq<string>,
                                   actualPorts: Option<PortSpec>,
                                   desiredPorts: PortSpec, families: seq<string>, listing: Listing, reach: nat)
      returns (ok: bool, writes: seq<string>)
      requires Valid()
      modifies this`lists
      ensures Valid()
      ensures Outcome(lists, ok, writes) ==
              Pass(old(lists), Resolve(lbSubnets, configured, created),
                   LbStep(SubnetCidrs(nodeSubnets, families), ToSet(sourceCIDRs), actualPorts, desiredPorts, listing),
                   reach)
    {
      ghost var ids := Resolve(lbSubnets, configured, created);
      ghost var step := LbStep(SubnetCidrs(nodeSubnets, families), ToSet(sourceCIDRs), actualPorts, desiredPorts,
                               listing);
      writes := [];
      for i := 0 to |lbSubnets|
        invariant Valid()
        invariant Outcome(lists, true, writes) == Pass(old(lists), ids[..i], step, reach)
      {
        PassStep(old(lists), ids, step, reach, i);
        var id := GetSecurityList(lbSubnets[i]);
        if id.None? || i >= reach {
          ok := false;
          PassStuck(old(lists), ids, step, reach, i + 1);
          return;
        }
        var secList := lists[id.value];
        var computed := ComputeLbList(secList, nodeSubnets, sourceCIDRs, actualPorts, desiredPorts, families, listing);
        var wrote := WriteIfChanged(id.value, computed);
        if wrote {
          writes := writes + [id.value];
        }
      }
      assert ids[..|lbSubnets|] == ids;
      ok := true;
    }

    /** updateBackendRules. */
    method UpdateBackendRules(lbSubnets: seq<Subnet>, nodeSubnets: seq<Subnet>, actualPorts: Option<PortSpec>,
                              desiredPorts: PortSpec,
                              sourceCIDRs: seq<string>, isPreserveSource: bool, families: seq<string>,
                              listing: Listing, reach: nat)
      returns (ok: bool, writes: seq<string>)
      requires Valid()
      modifies this`lists
      ensures Valid()
      ensures Outcome(lists, ok, writes) ==
              Pass(old(lists), Resolve(nodeSubnets, configured, created),
                   NodeStep(BackendCidrs(lbSubnets, families, sourceCIDRs, isPreserveSource),
                            SubnetCidrs(lbSubnets, families),
                            actualPorts, desiredPorts, listing), reach)
    {
      ghost var ids := Resolve(nodeSubnets, configured, created);
      ghost var step := NodeStep(BackendCidrs(lbSubnets, families, sourceCIDRs, isPreserveSource),
                                 SubnetCidrs(lbSubnets, families),
                                 actualPorts, desiredPorts, listing);
      writes := [];
      for i := 0 to |nodeSubnets|
        invariant Valid()
        invariant Outcome(lists, true, writes) == Pass(old(lists), ids[..i], step, reach)
      {
        PassStep(old(lists), ids, step, reach, i);
        var id := GetSecurityList(nodeSubnets[i]);
        if id.None? || i >= reach {
          ok := false;
          PassStuck(old(lists), ids, step, reach, i + 1);
          return;
        }
        var secList := lists[id.value];
        var computed := ComputeNodeList(secList, lbSubnets, actualPorts, desiredPorts, sourceCIDRs, isPreserveSource,
                                        families, listing);
        var wrote := WriteIfChanged(id.value, computed);
        if wrote {
          writes := writes + [id.value];
        }
      }
      assert ids[..|nodeSubnets|] == ids;
      ok := true;
    }

    method Update(c: Components, listing: Listing, lbReach: nat, nodeReach: nat) returns (ok: bool, writes: seq<string>)
      requires Valid()
      modifies this`lists
      ensures Valid()
      ensures Outcome(lists, ok, writes) ==
              TwoPasses(old(lists), Resolve(c.lbSubnets, configured, created), LbUpdate(c, listing), lbReach,
                        Resolve(c.backendSubnets, configured, created), NodeUpdate(c, listing), nodeReach)
    {
      ok, writes := UpdateLoadBalancerRules(c.lbSubnets, c.backendSubnets, c.sourceCIDRs, c.actualPorts,
                                            c.desiredPorts, c.families, listing, lbReach);
      if !ok {
        return;
      }
      var more;
      ok, more := UpdateBackendRules(c.lbSubnets, c.backendSubnets, c.actualPorts, c.desiredPorts, c.sourceCIDRs,
                                     c.isPreserveSource,
                                     c.families, listing, nodeReach);
      writes := writes + more;
    }

    method Delete(c: Components, listing: Listing, lbReach: nat, nodeReach: nat) returns (ok: bool, writes: seq<string>)
      requires Valid()
      modifies this`lists
      ensures Valid()
      ensures Outcome(lists, ok, writes) ==
              TwoPasses(old(lists), Resolve(c.lbSubnets, configured, created), LbDelete(c.desiredPorts, listing),
                        lbReach,
                        Resolve(c.backendSubnets, configured, created), NodeDelete(c.desiredPorts, listing), nodeReach)
    {
      NoCidrs(c.families, c.isPreserveSource);
      ok, writes := UpdateLoadBalancerRules(c.lbSubnets, [], [], Some(c.desiredPorts), c.desiredPorts, c.families,
                                            listing, lbReach);
      if !ok {
        return;
      }
      var more;
      ok, more := UpdateBackendRules([], c.backendSubnets, Some(c.desiredPorts), c.desiredPorts, [], c.isPreserveSource,
                                     c.families, listing, nodeReach);
      writes := writes + more;
    }
  }

  lemma NoCidrs(families: seq<string>, isPreserveSource: bool)
    ensures SubnetCidrs([], families) == {} && ToSet([]) == {} && BackendCidrs([], families, [], isPreserveSource) == {}
  {}

  lemma PassStep(lists: Lists, ids: seq<Option<string>>, step: SecurityList -> SecurityList, reach: nat, i: nat)
    requires i < |ids|
    ensures var o := Pass(lists, ids[..i], step, reach);
            Pass(lists, ids[..i + 1], step, reach) ==
            if !o.ok then o
            else if i >= reach || ids[i].None? || ids[i].value !in o.lists then o.(ok := false)
            else
              Outcome(o.lists[ids[i].value := Store(step, o.lists[ids[i].value])], true,
                      if Differs(o.lists[ids[i].value], step(o.lists[ids[i].value])) then o.writes + [ids[i].value]
                          else o.writes)
  {
    assert ids[..i + 1][..i] == ids[..i];
  }

  /** Once a pass has failed, the remaining subnets change nothing. */
  lemma {:induction false} PassStuck(lists: Lists, ids: seq<Option<string>>, step: SecurityList -> SecurityList,
                                     reach: nat, i: nat)
    requires i <= |ids| && !Pass(lists, ids[..i], step, reach).ok
    ensures Pass(lists, ids, step, reach) == Pass(lists, ids[..i], step, reach)
    decreases |ids| - i
  {
    if i == |ids| {
      assert ids[..i] == ids;
    } else {
      PassStep(lists, ids, step, reach, i);
      PassStuck(lists, ids, step, reach, i + 1);
    }
  }
}
