/** One successful Update settles every list: a second one with the same arguments writes nothing. */
module SecurityListFixedPoint {
  import opened Common
  import opened SecurityRules
  import opened SecurityListCalculators
  import opened SecurityListChanges
  import opened SecurityListPasses

  /** The listener port is none of the backend and health-check ports. */
  predicate ListenerApart(actual: Option<PortSpec>, d: PortSpec) {
    d.listener != 0 ==> d.listener !in {CurrentBackend(actual), CurrentHealth(actual), d.backend, d.health}
  }

  // ---------- Egress ----------

  lemma EgressMembers(rules: seq<Rule>, wanted: set<string>, actual: int, desired: int, inUse: bool)
    ensures forall r | r in EgressRules(rules, wanted, actual, desired, inUse) ::
              (r in rules && Fresh(actual, desired)(r)) || Applies(r, desired)
  {
    FilterMembers(Fresh(actual, desired), rules);
    MergeMembers(Filter(Fresh(actual, desired), rules), wanted, desired, inUse, true);
  }

  /** A list already free of the replaced port and settled on the new one stays as it is. */
  lemma EgressSettled(rules: seq<Rule>, wanted: set<string>, actual: int, desired: int, inUse: bool)
    requires forall r | r in rules :: Fresh(actual, desired)(r)
    requires Settled(rules, wanted, desired, inUse, true)
    ensures EgressRules(rules, wanted, actual, desired, inUse) == rules
  {
    FilterLength(Fresh(actual, desired), rules);
    SettledIsFixed(rules, wanted, desired, inUse, true);
  }

  /** The rules of another port pass through an egress call, unless that port is being replaced. */
  lemma EgressElsewhere(rules: seq<Rule>, wanted: set<string>, actual: int, desired: int, inUse: bool, q: int)
    requires q != desired && (q == actual ==> actual == desired)
    ensures Filter(OnPort(q), EgressRules(rules, wanted, actual, desired, inUse)) == Filter(OnPort(q), rules)
  {
    FilterFilter(OnPort(q), Fresh(actual, desired), rules);
    MergeElsewhere(Filter(Fresh(actual, desired), rules), wanted, desired, inUse, true, q);
  }

  /** Computing both egress steps again changes nothing, whatever ports are replaced by whatever. */
  lemma EgressPairIdempotent(rules: seq<Rule>, wanted: set<string>, aB: int, aH: int, d: PortSpec, useB: bool,
                             useH: bool)
    requires d.backend == d.health ==> useB == useH
    ensures var e := EgressPair(rules, wanted, aB, aH, d, useB, useH);
            EgressPair(e, wanted, aB, aH, d, useB, useH) == e
  {
    if d.backend == d.health {
      EgressSamePort(rules, wanted, aB, aH, d, useB);
    } else if aB == d.health {
      EgressDroppedAndAdded(rules, wanted, aH, d, useB, useH);
    } else {
      EgressApart(rules, wanted, aB, aH, d, useB, useH);
    }
  }

  lemma EgressSamePort(rules: seq<Rule>, wanted: set<string>, aB: int, aH: int, d: PortSpec, use: bool)
    requires d.backend == d.health
    ensures var e := EgressPair(rules, wanted, aB, aH, d, use, use);
            EgressPair(e, wanted, aB, aH, d, use, use) == e
  {
    var m := EgressRules(rules, wanted, aB, d.backend, use);
    var e := EgressPair(rules, wanted, aB, aH, d, use, use);
    EgressMembers(rules, wanted, aB, d.backend, use);
    EgressMembers(m, wanted, aH, d.health, use);
    MergeSettles(Filter(Fresh(aH, d.health), m), wanted, d.health, use, true);
    EgressSettled(e, wanted, aB, d.backend, use);
    EgressSettled(e, wanted, aH, d.health, use);
  }

  /** Merging into a list without a rule on the port appends all wanted rules. */
  lemma MergeAbsent(rules: seq<Rule>, wanted: set<string>, p: int, inUse: bool)
    requires forall r | r in rules :: !Applies(r, p)
    ensures Merge(rules, wanted, p, inUse, true) == rules + Added(wanted, p)
  {
    PeerSetMeans(rules, p);
    assert PeerSet(rules, p) == {};
    KeptIsAll(rules, wanted, p, inUse);
    assert wanted - {} == wanted;
  }

  lemma FilterConcatFresh(actual: int, desired: int, kept: seq<Rule>, wanted: set<string>, p: int)
    requires forall r | r in kept :: Fresh(actual, desired)(r)
    ensures Filter(Fresh(actual, desired), kept + Added(wanted, p)) ==
            if actual == p && actual != desired then kept else kept + Added(wanted, p)
  {
    FilterConcat(Fresh(actual, desired), kept, Added(wanted, p));
    FilterLength(Fresh(actual, desired), kept);
    if actual == p && actual != desired {
      FilterNone(Fresh(actual, desired), Added(wanted, p));
    } else {
      FilterLength(Fresh(actual, desired), Added(wanted, p));
    }
  }

  /** The old backend port became the health-check port: the first step drops its rules and the
      second appends them again. */
  lemma EgressDroppedAndAdded(rules: seq<Rule>, wanted: set<string>, aH: int, d: PortSpec, useB: bool, useH: bool)
    requires d.backend != d.health
    ensures var e := EgressPair(rules, wanted, d.health, aH, d, useB, useH);
            EgressPair(e, wanted, d.health, aH, d, useB, useH) == e
  {
    var m := EgressRules(rules, wanted, d.health, d.backend, useB);
    var kept := Filter(Fresh(aH, d.health), m);
    EgressMembers(rules, wanted, d.health, d.backend, useB);
    FilterMembers(Fresh(aH, d.health), m);
    MergeAbsent(kept, wanted, d.health, useH);
    FilterConcatFresh(d.health, d.backend, kept, wanted, d.health);
    FilterLength(Fresh(aH, d.health), kept);
    if aH == d.backend {
      MergeAbsent(kept, wanted, d.backend, useB);
      FilterConcatFresh(aH, d.health, kept, wanted, d.backend);
    } else {
      MergeSettles(Filter(Fresh(d.health, d.backend), rules), wanted, d.backend, useB, true);
      FilterFilter(OnPort(d.backend), Fresh(aH, d.health), m);
      SettledCongruent(kept, m, wanted, d.backend, useB, true);
      SettledIsFixed(kept, wanted, d.backend, useB, true);
    }
  }

  lemma EgressApart(rules: seq<Rule>, wanted: set<string>, aB: int, aH: int, d: PortSpec, useB: bool, useH: bool)
    requires d.backend != d.health && aB != d.health
    ensures var e := EgressPair(rules, wanted, aB, aH, d, useB, useH);
            EgressPair(e, wanted, aB, aH, d, useB, useH) == e
  {
    var m := EgressRules(rules, wanted, aB, d.backend, useB);
    var e := EgressPair(rules, wanted, aB, aH, d, useB, useH);
    EgressPairMembers(rules, wanted, aB, aH, d, useB, useH);
    MergeSettles(Filter(Fresh(aH, d.health), m), wanted, d.health, useH, true);
    EgressSettled(e, wanted, aH, d.health, useH);
    if aH == d.backend {
      EgressReplacedAgain(e, wanted, aB, d, useB, useH);
    } else {
      MergeSettles(Filter(Fresh(aB, d.backend), rules), wanted, d.backend, useB, true);
      EgressElsewhere(m, wanted, aH, d.health, useH, d.backend);
      SettledCongruent(e, m, wanted, d.backend, useB, true);
      EgressSettled(e, wanted, aB, d.backend, useB);
    }
  }

  lemma EgressPairMembers(rules: seq<Rule>, wanted: set<string>, aB: int, aH: int, d: PortSpec, useB: bool, useH: bool)
    requires d.backend != d.health && aB != d.health
    ensures forall r | r in EgressPair(rules, wanted, aB, aH, d, useB, useH) ::
              Fresh(aB, d.backend)(r) && Fresh(aH, d.health)(r)
  {
    EgressMembers(rules, wanted, aB, d.backend, useB);
    EgressMembers(EgressRules(rules, wanted, aB, d.backend, useB), wanted, aH, d.health, useH);
  }

  /** The old health-check port became the backend port: the first call adds rules that the second
      call takes away again. */
  lemma EgressReplacedAgain(e: seq<Rule>, wanted: set<string>, aB: int, d: PortSpec, useB: bool, useH: bool)
    requires d.backend != d.health
    requires forall r | r in e :: Fresh(aB, d.backend)(r) && Fresh(d.backend, d.health)(r)
    requires EgressRules(e, wanted, d.backend, d.health, useH) == e
    ensures EgressPair(e, wanted, aB, d.backend, d, useB, useH) == e
  {
    var f := Fresh(d.backend, d.health);
    FilterLength(Fresh(aB, d.backend), e);
    FilterLength(f, e);
    var m := Merge(e, wanted, d.backend, useB, true);
    FilterLength(f, e);
    MergeFrame(f, e, wanted, d.backend, useB, true);
    assert Filter(f, m) == e;
  }

  // ---------- Node ingress ----------

  lemma {:induction false} NodeWalkElsewhere(rules: seq<Rule>, wb: set<string>, wh: set<string>, d: PortSpec,
                                             inUse: bool, q: int)
    requires q != d.backend && q != d.health
    ensures Filter(OnPort(q), NodeWalk(rules, wb, wh, d, inUse).kept) == Filter(OnPort(q), rules)
  {
    if rules != [] {
      var n := |rules| - 1;
      var before := NodeWalk(rules[..n], wb, wh, d, inUse).kept;
      NodeWalkElsewhere(rules[..n], wb, wh, d, inUse, q);
      FilterSnoc(OnPort(q), before, rules[n]);
    }
  }

  lemma FilterSnoc(f: Rule -> bool, rules: seq<Rule>, r: Rule)
    ensures Filter(f, rules + [r]) == if f(r) then Filter(f, rules) + [r] else Filter(f, rules)
  {
    assert (rules + [r])[..|rules|] == rules;
  }

  lemma FinishElsewhere(w: Walk, d: PortSpec, q: int)
    requires q != d.backend && q != d.health
    ensures Filter(OnPort(q), Finish(w, d)) == Filter(OnPort(q), w.kept)
  {
    var b := if d.backend != 0 then Added(w.backend, d.backend) else [];
    var h := if d.health != 0 then Added(w.health, d.health) else [];
    FilterConcat(OnPort(q), w.kept + b, h);
    FilterConcat(OnPort(q), w.kept, b);
    FilterNone(OnPort(q), b);
    FilterNone(OnPort(q), h);
  }

  /** The rules of an unrelated port pass through the node calculator. */
  lemma NodeIngressElsewhere(rules: seq<Rule>, wb: set<string>, wh: set<string>, actual: Option<PortSpec>, d: PortSpec,
                             inUse: bool, q: int)
    requires q !in {CurrentBackend(actual), CurrentHealth(actual), d.backend, d.health}
    ensures Filter(OnPort(q), NodeIngress(rules, wb, wh, actual, d, inUse)) == Filter(OnPort(q), rules)
  {
    forall r | Applies(r, q) ensures NodeFresh(actual, d)(r) { NodeFreshMeans(r, actual, d); }
    FilterFilter(OnPort(q), NodeFresh(actual, d), rules);
    var f := Filter(NodeFresh(actual, d), rules);
    NodeWalkElsewhere(f, wb, wh, d, inUse, q);
    FinishElsewhere(NodeWalk(f, wb, wh, d, inUse), d, q);
  }

  lemma NodeIngressMembers(rules: seq<Rule>, wb: set<string>, wh: set<string>, actual: Option<PortSpec>, d: PortSpec,
                           inUse: bool)
    ensures forall r | r in NodeIngress(rules, wb, wh, actual, d, inUse) ::
              NodeFresh(actual, d)(r) && (r in rules || Applies(r, d.backend) || Applies(r, d.health))
  {
    var f := Filter(NodeFresh(actual, d), rules);
    FilterMembers(NodeFresh(actual, d), rules);
    NodeWalkSubsequence(f, wb, wh, d, inUse);
    SubsequenceLength(NodeWalk(f, wb, wh, d, inUse).kept, f);
    NodeFreshOnDesired(actual, d);
  }

  /** Both ports end up settled: the backend port holds exactly the wanted CIDRs, once each. */
  lemma NodeIngressSettles(rules: seq<Rule>, wb: set<string>, wh: set<string>, actual: Option<PortSpec>, d: PortSpec,
                           inUse: bool)
    requires d.backend != d.health
    ensures Settled(NodeIngress(rules, wb, wh, actual, d, inUse), wb, d.backend, false, d.backend != 0)
    ensures Settled(NodeIngress(rules, wb, wh, actual, d, inUse), wh, d.health, inUse, d.health != 0)
    ensures d.backend != 0 ==> PeerSet(NodeIngress(rules, wb, wh, actual, d, inUse), d.backend) == wb
    ensures OncePerPeer(NodeIngress(rules, wb, wh, actual, d, inUse), d.backend)
  {
    NodeIngressIsTwoMerges(rules, wb, wh, actual, d, inUse);
    var f := Filter(NodeFresh(actual, d), rules);
    var m := Merge(f, wb, d.backend, false, d.backend != 0);
    MergeSettles(f, wb, d.backend, false, d.backend != 0);
    MergeElsewhere(m, wh, d.health, inUse, d.health != 0, d.backend);
    SettledCongruent(Merge(m, wh, d.health, inUse, d.health != 0), m, wb, d.backend, false, d.backend != 0);
    MergeSettles(m, wh, d.health, inUse, d.health != 0);
  }

  /** Walking again over what a walk kept keeps it all and matches the same CIDRs. */
  lemma {:induction false} NodeWalkAgain(rules: seq<Rule>, wb: set<string>, wh: set<string>, d: PortSpec, inUse: bool)
    ensures var w := NodeWalk(rules, wb, wh, d, inUse); NodeWalk(w.kept, wb, wh, d, inUse) == w
  {
    if rules != [] {
      var n := |rules| - 1;
      NodeWalkAgain(rules[..n], wb, wh, d, inUse);
      NodeWalkSnoc(NodeWalk(rules[..n], wb, wh, d, inUse).kept, rules[n], wb, wh, d, inUse);
    }
  }

  lemma NodeWalkSnoc(rules: seq<Rule>, r: Rule, wb: set<string>, wh: set<string>, d: PortSpec, inUse: bool)
    ensures NodeWalk(rules + [r], wb, wh, d, inUse) == Visit(NodeWalk(rules, wb, wh, d, inUse), r, d, inUse)
  {
    assert (rules + [r])[..|rules|] == rules;
  }

  function Peers(rules: seq<Rule>): set<string> {
    set r | r in rules :: r.peer
  }

  /** The new rules are made for one port, one for each CIDR. */
  ghost predicate OneEach(rules: seq<Rule>, p: int) {
    && (forall r | r in rules :: Applies(r, p))
    && (forall i, j | 0 <= i < j < |rules| :: rules[i].peer != rules[j].peer)
  }

  lemma AddedOneEach(cidrs: set<string>, p: int)
    ensures OneEach(Added(cidrs, p), p) && Peers(Added(cidrs, p)) == cidrs
  {
    AddedOnce(cidrs, p);
    var a := Added(cidrs, p);
    assert forall i | 0 <= i < |a| :: a[i] in a && Applies(a[i], p);
    forall c | c in cidrs ensures c in Peers(a) { assert MakeRule(c, p) in a; }
  }

  lemma VisitNew(w: Walk, r: Rule, d: PortSpec, inUse: bool)
    ensures Applies(r, d.backend) && r.peer in w.backend ==>
              Visit(w, r, d, inUse) == Walk(w.kept + [r], w.backend - {r.peer}, w.health)
    ensures Applies(r, d.health) && r.peer in w.health && (d.backend == d.health ==> w.backend == {}) ==>
              Visit(w, r, d, inUse) == Walk(w.kept + [r], w.backend, w.health - {r.peer})
  {}

  /** New backend rules appended to a list are each matched by their CIDR. */
  lemma {:induction false} WalkNewBackend(kept: seq<Rule>, made: seq<Rule>, wb: set<string>, wh: set<string>,
                                          d: PortSpec, inUse: bool)
    requires NodeWalk(kept, wb, wh, d, inUse).kept == kept
    requires OneEach(made, d.backend) && Peers(made) <= NodeWalk(kept, wb, wh, d, inUse).backend
    ensures var w := NodeWalk(kept, wb, wh, d, inUse);
            NodeWalk(kept + made, wb, wh, d, inUse) == Walk(kept + made, w.backend - Peers(made), w.health)
  {
    var w := NodeWalk(kept, wb, wh, d, inUse);
    if made == [] {
      assert kept + made == kept;
    } else {
      var n := |made| - 1;
      var r, some := made[n], made[..n];
      SplitLast(made, d.backend);
      WalkNewBackend(kept, some, wb, wh, d, inUse);
      NodeWalkSnoc(kept + some, r, wb, wh, d, inUse);
      VisitNew(Walk(kept + some, w.backend - Peers(some), w.health), r, d, inUse);
      RejoinLast(kept, made);
      assert w.backend - Peers(some) - {r.peer} == w.backend - Peers(made);
    }
  }

  /** So are new health-check rules, when they cannot be taken for backend rules. */
  lemma {:induction false} WalkNewHealth(kept: seq<Rule>, made: seq<Rule>, wb: set<string>, wh: set<string>,
                                         d: PortSpec, inUse: bool)
    requires NodeWalk(kept, wb, wh, d, inUse).kept == kept
    requires d.backend == d.health ==> NodeWalk(kept, wb, wh, d, inUse).backend == {}
    requires OneEach(made, d.health) && Peers(made) <= NodeWalk(kept, wb, wh, d, inUse).health
    ensures var w := NodeWalk(kept, wb, wh, d, inUse);
            NodeWalk(kept + made, wb, wh, d, inUse) == Walk(kept + made, w.backend, w.health - Peers(made))
  {
    var w := NodeWalk(kept, wb, wh, d, inUse);
    if made == [] {
      assert kept + made == kept;
    } else {
      var n := |made| - 1;
      var r, some := made[n], made[..n];
      SplitLast(made, d.health);
      WalkNewHealth(kept, some, wb, wh, d, inUse);
      NodeWalkSnoc(kept + some, r, wb, wh, d, inUse);
      VisitNew(Walk(kept + some, w.backend, w.health - Peers(some)), r, d, inUse);
      RejoinLast(kept, made);
      assert w.health - Peers(some) - {r.peer} == w.health - Peers(made);
    }
  }

  lemma RejoinLast(kept: seq<Rule>, made: seq<Rule>)
    requires made != []
    ensures kept + made[..|made| - 1] + [made[|made| - 1]] == kept + made
  {}

  lemma SplitLast(made: seq<Rule>, p: int)
    requires made != [] && OneEach(made, p)
    ensures var n := |made| - 1;
            && OneEach(made[..n], p) && Applies(made[n], p)
            && Peers(made) == Peers(made[..n]) + {made[n].peer} && made[n].peer !in Peers(made[..n])
  {
    var n := |made| - 1;
    assert made == made[..n] + [made[n]];
    assert made[n] in made;
  }

  /** Computing node ingress rules again changes nothing, for any ports. */
  lemma NodeIngressIdempotent(rules: seq<Rule>, wb: set<string>, wh: set<string>, actual: Option<PortSpec>,
                              d: PortSpec, inUse: bool)
    ensures var y := NodeIngress(rules, wb, wh, actual, d, inUse);
            NodeIngress(y, wb, wh, actual, d, inUse) == y
  {
    var y := NodeIngress(rules, wb, wh, actual, d, inUse);
    var f := Filter(NodeFresh(actual, d), rules);
    var w := NodeWalk(f, wb, wh, d, inUse);
    NodeIngressMembers(rules, wb, wh, actual, d, inUse);
    FilterLength(NodeFresh(actual, d), y);
    NodeWalkAgain(f, wb, wh, d, inUse);
    FinishedWalk(w, wb, wh, d, inUse);
  }

  /** Walking over a finished list keeps it and leaves nothing to add. */
  lemma FinishedWalk(w: Walk, wb: set<string>, wh: set<string>, d: PortSpec, inUse: bool)
    requires NodeWalk(w.kept, wb, wh, d, inUse) == w
    ensures Finish(NodeWalk(Finish(w, d), wb, wh, d, inUse), d) == Finish(w, d)
  {
    var b := if d.backend != 0 then Added(w.backend, d.backend) else [];
    var h := if d.health != 0 then Added(w.health, d.health) else [];
    AddedOneEach(w.backend, d.backend);
    AddedOneEach(w.health, d.health);
    WalkNewBackend(w.kept, b, wb, wh, d, inUse);
    var m := NodeWalk(w.kept + b, wb, wh, d, inUse);
    assert d.backend != 0 ==> m.backend == {};
    if d.health != 0 {
      WalkNewHealth(w.kept + b, h, wb, wh, d, inUse);
    } else {
      assert w.kept + b + h == w.kept + b;
    }
    FinishNothing(NodeWalk(w.kept + b + h, wb, wh, d, inUse), d);
  }

  lemma FinishNothing(w: Walk, d: PortSpec)
    requires (d.backend != 0 ==> w.backend == {}) && (d.health != 0 ==> w.health == {})
    ensures Finish(w, d) == w.kept
  {
    AddedNothing(d.backend);
    AddedNothing(d.health);
  }

  // ---------- Lists ----------

  /** The detector sees no change, so that nothing is written. */
  ghost function FixedBy(step: SecurityList -> SecurityList): SecurityList -> bool {
    l => !Differs(l, step(l))
  }

  /** After a step that computes the same again there is nothing to write: what was written is not
      changed again, and what the detector missed it misses again. */
  lemma IdempotentIsFixed(step: SecurityList -> SecurityList, l: SecurityList)
    requires step(step(l)) == step(l)
    ensures FixedBy(step)(Store(step, l))
  {}

  lemma LbStepIdempotent(nodes: set<string>, sources: set<string>, actual: Option<PortSpec>, d: PortSpec,
                         listing: Listing)
    ensures var step := LbStep(nodes, sources, actual, d, listing);
            forall l :: FixedBy(step)(Store(step, l))
  {
    var step := LbStep(nodes, sources, actual, d, listing);
    forall l: SecurityList ensures FixedBy(step)(Store(step, l)) {
      var inUse := ListenerNeeded(listing, d.listener);
      MergeSettles(l.ingress, sources, d.listener, inUse, true);
      SettledIsFixed(Merge(l.ingress, sources, d.listener, inUse, true), sources, d.listener, inUse, true);
      EgressPairIdempotent(l.egress, nodes, CurrentBackend(actual), CurrentHealth(actual), d,
                           HealthNeeded(listing, d.backend), HealthNeeded(listing, d.health));
      IdempotentIsFixed(step, l);
    }
  }

  lemma NodeStepIdempotent(backend: set<string>, health: set<string>, actual: Option<PortSpec>, d: PortSpec,
                           listing: Listing)
    ensures var step := NodeStep(backend, health, actual, d, listing);
            forall l :: FixedBy(step)(Store(step, l))
  {
    var step := NodeStep(backend, health, actual, d, listing);
    forall l: SecurityList ensures FixedBy(step)(Store(step, l)) {
      NodeIngressIdempotent(l.ingress, backend, health, actual, d, HealthNeeded(listing, d.health));
      IdempotentIsFixed(step, l);
    }
  }

  /** A listener port that the detector finds settled is settled, and stays so through node rules. */
  lemma ListenerStaysSettled(ingress: seq<Rule>, sources: set<string>, backend: set<string>, health: set<string>,
                             actual: Option<PortSpec>, d: PortSpec, inUse: bool, needed: bool)
    requires ListenerApart(actual, d) && d.listener != 0
    requires LooksSame(ingress, Merge(ingress, sources, d.listener, needed, true))
    ensures var m := NodeIngress(ingress, backend, health, actual, d, inUse);
            Merge(m, sources, d.listener, needed, true) == m
  {
    var m := NodeIngress(ingress, backend, health, actual, d, inUse);
    ListenerPatches(ingress, sources, d.listener, needed);
    PatchLooksSame(ingress, Merge(ingress, sources, d.listener, needed, true));
    NodeIngressElsewhere(ingress, backend, health, actual, d, inUse, d.listener);
    SettledCongruent(ingress, m, sources, d.listener, needed, true);
    SettledIsFixed(ingress, sources, d.listener, needed, true);
    SettledIsFixed(m, sources, d.listener, needed, true);
  }

  lemma NodeStepKeepsLbAt(nodes: set<string>, sources: set<string>, backend: set<string>, health: set<string>,
                          actual: Option<PortSpec>, d: PortSpec, listing: Listing, l: SecurityList)
    requires ListenerApart(actual, d) && !Differs(l, LbStep(nodes, sources, actual, d, listing)(l))
    ensures var m := NodeStep(backend, health, actual, d, listing)(l);
            !Differs(m, LbStep(nodes, sources, actual, d, listing)(m))
  {
    var lb := LbStep(nodes, sources, actual, d, listing);
    var m := NodeStep(backend, health, actual, d, listing)(l);
    if d.listener != 0 {
      ListenerStaysSettled(l.ingress, sources, backend, health, actual, d, HealthNeeded(listing, d.health),
                           ListenerNeeded(listing, d.listener));
    }
    assert lb(m).ingress == m.ingress;
    assert lb(m).egress == lb(l).egress && m.egress == l.egress;
  }

  /** The node step does not unsettle a list that also serves a load balancer subnet. */
  lemma NodeStepKeepsLb(nodes: set<string>, sources: set<string>, backend: set<string>, health: set<string>,
                        actual: Option<PortSpec>, d: PortSpec, listing: Listing)
    requires ListenerApart(actual, d)
    ensures var lb, node := LbStep(nodes, sources, actual, d, listing), NodeStep(backend, health, actual, d, listing);
            forall l | FixedBy(lb)(l) :: FixedBy(lb)(Store(node, l))
  {
    var lb, node := LbStep(nodes, sources, actual, d, listing), NodeStep(backend, health, actual, d, listing);
    forall l: SecurityList | FixedBy(lb)(l) ensures FixedBy(lb)(Store(node, l)) {
      NodeStepKeepsLbAt(nodes, sources, backend, health, actual, d, listing, l);
    }
  }

  /** Two steps that settle lists and do not unsettle each other's leave nothing for a second run. */
  lemma TwoPassesSettle(lists: Lists, lbIds: seq<Option<string>>, lb: SecurityList -> SecurityList, lbReach: nat,
                        nodeIds: seq<Option<string>>, node: SecurityList -> SecurityList, nodeReach: nat)
    requires forall l :: FixedBy(lb)(Store(lb, l))
    requires forall l :: FixedBy(node)(Store(node, l))
    requires forall l | FixedBy(lb)(l) :: FixedBy(lb)(Store(node, l))
    requires TwoPasses(lists, lbIds, lb, lbReach, nodeIds, node, nodeReach).ok
    ensures var o := TwoPasses(lists, lbIds, lb, lbReach, nodeIds, node, nodeReach);
            TwoPasses(o.lists, lbIds, lb, lbReach, nodeIds, node, nodeReach) == Outcome(o.lists, true, [])
  {
    var a := Pass(lists, lbIds, lb, lbReach);
    var o := Pass(a.lists, nodeIds, node, nodeReach);
    PassOk(lists, lbIds, lb, lbReach);
    PassOk(a.lists, nodeIds, node, nodeReach);
    forall i | 0 <= i < |lbIds| ensures !Differs(o.lists[lbIds[i].value], lb(o.lists[lbIds[i].value])) {
      LbListSettles(lists, lbIds, lb, lbReach, nodeIds, node, nodeReach, lbIds[i].value);
    }
    forall i | 0 <= i < |nodeIds| ensures !Differs(o.lists[nodeIds[i].value], node(o.lists[nodeIds[i].value])) {
      PassReaches(a.lists, nodeIds, node, nodeReach, nodeIds[i].value, FixedBy(node));
    }
    PassIdle(o.lists, lbIds, lb, lbReach);
    PassIdle(o.lists, nodeIds, node, nodeReach);
  }

  /** A list the first pass reached stays fixed through the second. */
  lemma LbListSettles(lists: Lists, lbIds: seq<Option<string>>, lb: SecurityList -> SecurityList, lbReach: nat,
                      nodeIds: seq<Option<string>>, node: SecurityList -> SecurityList, nodeReach: nat, id: string)
    requires forall l :: FixedBy(lb)(Store(lb, l))
    requires forall l | FixedBy(lb)(l) :: FixedBy(lb)(Store(node, l))
    requires id in lists && Some(id) in lbIds && Pass(lists, lbIds, lb, lbReach).ok
    ensures FixedBy(lb)(Pass(Pass(lists, lbIds, lb, lbReach).lists, nodeIds, node, nodeReach).lists[id])
  {
    PassReaches(lists, lbIds, lb, lbReach, id, FixedBy(lb));
    PassKeeps(Pass(lists, lbIds, lb, lbReach).lists, nodeIds, node, nodeReach, id, FixedBy(lb));
  }

  /** After a successful Update, updating again with the same arguments and service listing
      succeeds and writes no list, whatever lists the subnets share and however the backend and
      health-check ports overlap. */
  lemma UpdateIsFixedPoint(lists: Lists, lbIds: seq<Option<string>>, lbReach: nat, nodeIds: seq<Option<string>>,
                           nodeReach: nat,
                           c: Components, listing: Listing)
    requires ListenerApart(c.actualPorts, c.desiredPorts)
    requires TwoPasses(lists, lbIds, LbUpdate(c, listing), lbReach, nodeIds, NodeUpdate(c, listing), nodeReach).ok
    ensures var o := TwoPasses(lists, lbIds, LbUpdate(c, listing), lbReach, nodeIds, NodeUpdate(c, listing), nodeReach);
            TwoPasses(o.lists, lbIds, LbUpdate(c, listing), lbReach, nodeIds, NodeUpdate(c, listing), nodeReach) ==
                Outcome(o.lists, true, [])
  {
    var nodes, sources := SubnetCidrs(c.backendSubnets, c.families), ToSet(c.sourceCIDRs);
    var backend, health := BackendCidrs(c.lbSubnets, c.families, c.sourceCIDRs, c.isPreserveSource),
        SubnetCidrs(c.lbSubnets, c.families);
    LbStepIdempotent(nodes, sources, c.actualPorts, c.desiredPorts, listing);
    NodeStepIdempotent(backend, health, c.actualPorts, c.desiredPorts, listing);
    NodeStepKeepsLb(nodes, sources, backend, health, c.actualPorts, c.desiredPorts, listing);
    TwoPassesSettle(lists, lbIds, LbUpdate(c, listing), lbReach, nodeIds, NodeUpdate(c, listing), nodeReach);
  }
}
