/**
 Delete is a filter: whichever ports other services still need and however the ports overlap, it
 removes exactly the rules on the service's ports that nobody needs, and leaves the others in order.
 */
module SecurityListDelete {
  import opened Common
  import opened SecurityRules
  import opened SecurityListCalculators
  import opened SecurityListChanges
  import opened SecurityListPasses
  import opened SecurityListFixedPoint
  import opened SecurityListRestore

  // ---------- Calculators without wanted CIDRs ----------

  /** Off the port, or the port is needed. */
  ghost function OffOrNeeded(p: int, needed: bool): Rule -> bool {
    r => !Applies(r, p) || needed
  }

  lemma {:induction false} KeptNothing(rules: seq<Rule>, p: int, needed: bool)
    ensures Kept(rules, {}, p, needed) == Filter(OffOrNeeded(p, needed), rules)
  {
    if rules != [] {
      KeptNothing(rules[..|rules| - 1], p, needed);
    }
  }

  lemma MergeNothingFilters(rules: seq<Rule>, p: int, needed: bool)
    ensures Merge(rules, {}, p, needed, true) == Filter(OffOrNeeded(p, needed), rules)
  {
    KeptNothing(rules, p, needed);
    var left: set<string> := {} - PeerSet(rules, p);
    assert left == {};
    AddedNothing(p);
  }

  lemma {:induction false} FilterBoth(f: Rule -> bool, g: Rule -> bool, h: Rule -> bool, rules: seq<Rule>)
    requires forall r :: h(r) <==> f(r) && g(r)
    ensures Filter(f, Filter(g, rules)) == Filter(h, rules)
  {
    if rules != [] {
      var n := |rules| - 1;
      FilterBoth(f, g, h, rules[..n]);
      FilterConcat(f, Filter(g, rules[..n]), if g(rules[n]) then [rules[n]] else []);
    }
  }

  /** Egress rules that are on neither port, or on a needed one. */
  ghost function EgressStays(d: PortSpec, listing: Listing): Rule -> bool {
    r => OffOrNeeded(d.backend, HealthNeeded(listing, d.backend))(r) &&
        OffOrNeeded(d.health, HealthNeeded(listing, d.health))(r)
  }

  lemma EgressDeleteFilters(rules: seq<Rule>, d: PortSpec, listing: Listing)
    ensures EgressPair(rules, {}, d.backend, d.health, d, HealthNeeded(listing, d.backend),
                       HealthNeeded(listing, d.health)) ==
            Filter(EgressStays(d, listing), rules)
  {
    var useB, useH := HealthNeeded(listing, d.backend), HealthNeeded(listing, d.health);
    SomeFresh(d);
    FilterLength(Fresh(d.backend, d.backend), rules);
    MergeNothingFilters(rules, d.backend, useB);
    var m := EgressRules(rules, {}, d.backend, d.backend, useB);
    FilterLength(Fresh(d.health, d.health), m);
    MergeNothingFilters(m, d.health, useH);
    FilterBoth(OffOrNeeded(d.health, useH), OffOrNeeded(d.backend, useB), EgressStays(d, listing), rules);
  }

  /** Ingress rules of a node list that are on neither port, or on a needed health-check port. */
  ghost function NodeStays(d: PortSpec, listing: Listing): Rule -> bool {
    r => Applies(r, d.backend) || Applies(r, d.health) ==> Applies(r, d.health) && HealthNeeded(listing, d.health)
  }

  lemma {:induction false} NodeWalkNothing(rules: seq<Rule>, d: PortSpec, listing: Listing)
    ensures NodeWalk(rules, {}, {}, d, HealthNeeded(listing, d.health)) ==
            Walk(Filter(NodeStays(d, listing), rules), {}, {})
  {
    if rules != [] {
      NodeWalkNothing(rules[..|rules| - 1], d, listing);
    }
  }

  lemma NodeDeleteFilters(rules: seq<Rule>, d: PortSpec, listing: Listing)
    ensures NodeIngress(rules, {}, {}, Some(d), d, HealthNeeded(listing, d.health)) ==
            Filter(NodeStays(d, listing), rules)
  {
    SomeFresh(d);
    FilterLength(NodeFresh(Some(d), d), rules);
    NodeWalkNothing(rules, d, listing);
    FinishNothing(Walk(Filter(NodeStays(d, listing), rules), {}, {}), d);
  }

  // ---------- Lists ----------

  ghost function ListenerStays(d: PortSpec, listing: Listing): Rule -> bool {
    r => d.listener == 0 || OffOrNeeded(d.listener, ListenerNeeded(listing, d.listener))(r)
  }

  /** The list filtered in both directions. */
  ghost function Sieve(gi: Rule -> bool, ge: Rule -> bool): SecurityList -> SecurityList {
    (l: SecurityList) => SecurityList(Filter(gi, l.ingress), Filter(ge, l.egress))
  }

  lemma LbDeleteSieves(d: PortSpec, listing: Listing, l: SecurityList)
    ensures LbDelete(d, listing)(l) == Sieve(ListenerStays(d, listing), EgressStays(d, listing))(l)
  {
    EgressDeleteFilters(l.egress, d, listing);
    MergeNothingFilters(l.ingress, d.listener, ListenerNeeded(listing, d.listener));
    if d.listener == 0 {
      FilterLength(ListenerStays(d, listing), l.ingress);
    } else {
      SameFilter(ListenerStays(d, listing), OffOrNeeded(d.listener, ListenerNeeded(listing, d.listener)), l.ingress);
    }
  }

  lemma {:induction false} SameFilter(f: Rule -> bool, g: Rule -> bool, rules: seq<Rule>)
    requires forall r :: f(r) <==> g(r)
    ensures Filter(f, rules) == Filter(g, rules)
  {
    if rules != [] {
      SameFilter(f, g, rules[..|rules| - 1]);
    }
  }

  lemma NodeDeleteSieves(d: PortSpec, listing: Listing, l: SecurityList)
    ensures NodeDelete(d, listing)(l) == Sieve(NodeStays(d, listing), Anything())(l)
  {
    NodeDeleteFilters(l.ingress, d, listing);
    FilterLength(Anything(), l.egress);
  }

  lemma {:induction false} FilterFull(f: Rule -> bool, rules: seq<Rule>)
    requires |Filter(f, rules)| == |rules|
    ensures Filter(f, rules) == rules
  {
    if rules != [] {
      var n := |rules| - 1;
      FilterLength(f, rules[..n]);
      FilterFull(f, rules[..n]);
    }
  }

  /** A filtered list is written exactly when something was filtered out. */
  lemma StoreSieves(step: SecurityList -> SecurityList, gi: Rule -> bool, ge: Rule -> bool, l: SecurityList)
    requires step(l) == Sieve(gi, ge)(l)
    ensures Store(step, l) == Sieve(gi, ge)(l)
  {
    if |Filter(gi, l.ingress)| == |l.ingress| && |Filter(ge, l.egress)| == |l.egress| {
      FilterFull(gi, l.ingress);
      FilterFull(ge, l.egress);
    }
  }

  lemma SieveAgain(gi: Rule -> bool, ge: Rule -> bool, l: SecurityList)
    ensures Sieve(gi, ge)(Sieve(gi, ge)(l)) == Sieve(gi, ge)(l)
  {
    FilterBoth(gi, gi, gi, l.ingress);
    FilterBoth(ge, ge, ge, l.egress);
  }

  /** A pass of a filtering step filters every list it visits, however often it does. */
  lemma {:induction false} PassSieves(lists: Lists, ids: seq<Option<string>>, step: SecurityList -> SecurityList,
                                      reach: nat,
                                      gi: Rule -> bool, ge: Rule -> bool, id: string)
    requires forall l :: step(l) == Sieve(gi, ge)(l)
    requires id in lists && Pass(lists, ids, step, reach).ok
    ensures Pass(lists, ids, step, reach).lists[id] == if Some(id) in ids then Sieve(gi, ge)(lists[id]) else lists[id]
  {
    if ids != [] {
      var n := |ids| - 1;
      PassSieves(lists, ids[..n], step, reach, gi, ge, id);
      assert ids == ids[..n] + [ids[n]];
      SieveAgain(gi, ge, lists[id]);
      StoreSieves(step, gi, ge, lists[id]);
      StoreSieves(step, gi, ge, Sieve(gi, ge)(lists[id]));
    }
  }

  // ---------- A whole Delete ----------

  ghost function StaysIngress(t: Roundtrip, id: string): Rule -> bool {
    r => && (Some(id) in t.lbIds ==> ListenerStays(t.c.desiredPorts, t.atDelete)(r))
         && (Some(id) in t.nodeIds ==> NodeStays(t.c.desiredPorts, t.atDelete)(r))
  }

  ghost function StaysEgress(t: Roundtrip, id: string): Rule -> bool {
    r => Some(id) in t.lbIds ==> EgressStays(t.c.desiredPorts, t.atDelete)(r)
  }

  lemma SieveTwice(l: SecurityList, t: Roundtrip, id: string)
    ensures var d := t.c.desiredPorts;
            var a := if Some(id) in t.lbIds then Sieve(ListenerStays(d, t.atDelete), EgressStays(d, t.atDelete))(l)
                else l;
            var b := if Some(id) in t.nodeIds then Sieve(NodeStays(d, t.atDelete), Anything())(a) else a;
            b == Sieve(StaysIngress(t, id), StaysEgress(t, id))(l)
  {
    var d := t.c.desiredPorts;
    var lb, node := ListenerStays(d, t.atDelete), NodeStays(d, t.atDelete);
    if Some(id) in t.lbIds {
      SameFilter(StaysEgress(t, id), EgressStays(d, t.atDelete), l.egress);
      FilterLength(Anything(), Filter(EgressStays(d, t.atDelete), l.egress));
      if Some(id) in t.nodeIds {
        FilterBoth(node, lb, StaysIngress(t, id), l.ingress);
      } else {
        SameFilter(StaysIngress(t, id), lb, l.ingress);
      }
    } else {
      FilterLength(StaysEgress(t, id), l.egress);
      FilterLength(Anything(), l.egress);
      if Some(id) in t.nodeIds {
        SameFilter(StaysIngress(t, id), node, l.ingress);
      } else {
        FilterLength(StaysIngress(t, id), l.ingress);
      }
    }
  }

  /** A successful Delete leaves of every list exactly the rules that are on none of the service's
      ports there, and those on a port that a live service needs, in order. */
  lemma DeleteLeaves(lists: Lists, t: Roundtrip, id: string)
    requires id in lists && Deleted(lists, t).ok
    ensures Deleted(lists, t).lists[id] == Sieve(StaysIngress(t, id), StaysEgress(t, id))(lists[id])
  {
    var d := t.c.desiredPorts;
    forall l: SecurityList
        ensures LbDelete(d, t.atDelete)(l) == Sieve(ListenerStays(d, t.atDelete), EgressStays(d, t.atDelete))(l) {
      LbDeleteSieves(d, t.atDelete, l);
    }
    forall l: SecurityList ensures NodeDelete(d, t.atDelete)(l) == Sieve(NodeStays(d, t.atDelete), Anything())(l) {
      NodeDeleteSieves(d, t.atDelete, l);
    }
    var a := Pass(lists, t.lbIds, LbDelete(d, t.atDelete), t.reach);
    PassSieves(lists, t.lbIds, LbDelete(d, t.atDelete), t.reach, ListenerStays(d, t.atDelete),
               EgressStays(d, t.atDelete), id);
    PassSieves(a.lists, t.nodeIds, NodeDelete(d, t.atDelete), t.reach, NodeStays(d, t.atDelete), Anything(), id);
    SieveTwice(lists[id], t, id);
  }

  lemma RoundtripFrame(lists: Lists, t: Roundtrip, id: string)
    requires id in lists && t.c.desiredPorts.backend != t.c.desiredPorts.health
    ensures SameFree(KeptIngress(t, id), KeptEgress(t, id), lists[id])(Deleted(Updated(lists, t).lists, t).lists[id])
  {
    UpdateFrame(lists, t, id);
    DeleteFrame(Updated(lists, t).lists, t, id, lists[id]);
  }

  lemma StaysMeans(r: Rule, d: PortSpec, listing: Listing)
    ensures ListenerStays(d, listing)(r) <==>
            d.listener == 0 || !Applies(r, d.listener) || ListenerNeeded(listing, d.listener)
    ensures NodeStays(d, listing)(r) <==>
            (Applies(r, d.backend) || Applies(r, d.health) ==> Applies(r, d.health) && HealthNeeded(listing, d.health))
    ensures EgressStays(d, listing)(r) <==>
            && (Applies(r, d.backend) ==> HealthNeeded(listing, d.backend))
            && (Applies(r, d.health) ==> HealthNeeded(listing, d.health))
  {
    var useL, useB, useH := ListenerNeeded(listing, d.listener), HealthNeeded(listing, d.backend),
        HealthNeeded(listing, d.health);
    assert ListenerStays(d, listing)(r) == (d.listener == 0 || OffOrNeeded(d.listener, useL)(r));
    assert EgressStays(d, listing)(r) == (OffOrNeeded(d.backend, useB)(r) && OffOrNeeded(d.health, useH)(r));
  }

  /** On a needed health-check port nothing is filtered out. */
  lemma NeededHealthStays(l: SecurityList, t: Roundtrip, id: string)
    requires HealthNeeded(t.atDelete, t.c.desiredPorts.health)
    requires t.c.desiredPorts.health !in {t.c.desiredPorts.backend, t.c.desiredPorts.listener}
    ensures var onPort := OnPort(t.c.desiredPorts.health);
            && Filter(onPort, Filter(StaysIngress(t, id), l.ingress)) == Filter(onPort, l.ingress)
            && Filter(onPort, Filter(StaysEgress(t, id), l.egress)) == Filter(onPort, l.egress)
  {
    var onPort, d := OnPort(t.c.desiredPorts.health), t.c.desiredPorts;
    forall r | onPort(r) ensures StaysIngress(t, id)(r) && StaysEgress(t, id)(r) {
      StaysMeans(r, d, t.atDelete);
      assert StaysIngress(t, id)(r) == ((Some(id) in t.lbIds ==> ListenerStays(d, t.atDelete)(r)) &&
                                        (Some(id) in t.nodeIds ==> NodeStays(d, t.atDelete)(r)));
      assert StaysEgress(t, id)(r) == (Some(id) in t.lbIds ==> EgressStays(d, t.atDelete)(r));
    }
    FilterFilter(onPort, StaysIngress(t, id), l.ingress);
    FilterFilter(onPort, StaysEgress(t, id), l.egress);
  }

  /** Update and then Delete while other services may still need the ports: the rules off the ports
      are as they were, and on a needed health-check port every rule stays as Update left it. */
  lemma RoundtripWhileNeeded(lists: Lists, t: Roundtrip, id: string)
    requires id in lists && t.c.desiredPorts.backend != t.c.desiredPorts.health
    requires Updated(lists, t).ok && Deleted(Updated(lists, t).lists, t).ok
    ensures var u, l := Updated(lists, t).lists[id], Deleted(Updated(lists, t).lists, t).lists[id];
            var health := t.c.desiredPorts.health;
            && l == Sieve(StaysIngress(t, id), StaysEgress(t, id))(u)
            && SameFree(KeptIngress(t, id), KeptEgress(t, id), lists[id])(l)
            && (HealthNeeded(t.atDelete, health) && t.c.desiredPorts.listener != health ==>
                  && Filter(OnPort(health), l.ingress) == Filter(OnPort(health), u.ingress)
                  && Filter(OnPort(health), l.egress) == Filter(OnPort(health), u.egress))
  {
    var u, health := Updated(lists, t).lists, t.c.desiredPorts.health;
    DeleteLeaves(u, t, id);
    RoundtripFrame(lists, t, id);
    if HealthNeeded(t.atDelete, health) && t.c.desiredPorts.listener != health {
      NeededHealthStays(u[id], t, id);
    }
  }
}
