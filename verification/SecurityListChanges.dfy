/**
 securityListRulesChanged compares lengths and one-way membership only. This module determines
 exactly for which ports that cheap comparison acts as equality on the calculators' outputs.
 */
module SecurityListChanges {
  import opened Common
  import opened SecurityRules
  import opened SecurityListCalculators

  /** What the detector checks of one direction. */
  predicate LooksSame(before: seq<Rule>, after: seq<Rule>) {
    |after| == |before| && forall r | r in after :: r in before
  }

  predicate Changed(ingress: seq<Rule>, egress: seq<Rule>, newIngress: seq<Rule>, newEgress: seq<Rule>) {
    !(LooksSame(ingress, newIngress) && LooksSame(egress, newEgress))
  }

  method AllFound(rules: seq<Rule>, existing: seq<Rule>) returns (all: bool)
    ensures all <==> forall r | r in rules :: r in existing
  {
    for i := 0 to |rules|
      invariant forall k | 0 <= k < i :: rules[k] in existing
    {
      var found := false;
      for j := 0 to |existing|
        invariant !found
        invariant rules[i] !in existing[..j]
      {
        if existing[j] == rules[i] {
          found := true;
          break;
        }
      }
      if !found {
        assert existing[..|existing|] == existing;
        return false;
      }
    }
    return true;
  }

  method SecurityListRulesChanged(ingress: seq<Rule>, egress: seq<Rule>, newIngress: seq<Rule>, newEgress: seq<Rule>)
      returns (changed: bool)
    ensures changed == Changed(ingress, egress, newIngress, newEgress)
    ensures !changed <==> && |newIngress| == |ingress| && |newEgress| == |egress|
                          && (forall r | r in newIngress :: r in ingress) && (forall r | r in newEgress :: r in egress)
  {
    if |newIngress| != |ingress| || |newEgress| != |egress| {
      return true;
    }
    var found := AllFound(newIngress, ingress);
    if !found {
      return true;
    }
    found := AllFound(newEgress, egress);
    return !found;
  }

  // ---------- Patches: what remains of the old rules is a subsequence of them ----------

  ghost function Among(rules: seq<Rule>): Rule -> bool {
    r => r in rules
  }

  ghost predicate Patch(before: seq<Rule>, after: seq<Rule>) {
    Subsequence(Filter(Among(before), after), before)
  }

  /** On a patch, equal length and one-way membership mean equality. */
  lemma PatchLooksSame(before: seq<Rule>, after: seq<Rule>)
    requires Patch(before, after) && LooksSame(before, after)
    ensures after == before
  {
    FilterLength(Among(before), after);
    SubsequenceLength(after, before);
  }

  lemma SubsequenceUnsnoc(a: seq<Rule>, b: seq<Rule>)
    requires Subsequence(a, b) && a != []
    ensures b != []
    ensures Subsequence(a, b[..|b| - 1]) || (a[|a| - 1] == b[|b| - 1] && Subsequence(a[..|a| - 1], b[..|b| - 1]))
  {}

  lemma {:induction false} SubsequenceFilter(f: Rule -> bool, a: seq<Rule>, b: seq<Rule>)
    requires Subsequence(a, b)
    ensures Subsequence(Filter(f, a), Filter(f, b))
    decreases |b|
  {
    if a != [] {
      SubsequenceUnsnoc(a, b);
      var b', y := b[..|b| - 1], b[|b| - 1];
      if Subsequence(a, b') {
        SubsequenceFilter(f, a, b');
        SubsequenceSnoc(Filter(f, a), Filter(f, b'), y);
        assert Filter(f, b) == if f(y) then Filter(f, b') + [y] else Filter(f, b');
      } else {
        var a' := a[..|a| - 1];
        SubsequenceFilter(f, a', b');
        SubsequenceSnoc(Filter(f, a'), Filter(f, b'), y);
        assert Filter(f, b) == if f(y) then Filter(f, b') + [y] else Filter(f, b');
        assert Filter(f, a) == if f(y) then Filter(f, a') + [y] else Filter(f, a');
      }
    }
  }

  /** Dropping rules from a patch and adding unseen ones gives a patch again. */
  lemma PatchCompose(before: seq<Rule>, mid: seq<Rule>, kept: seq<Rule>, added: seq<Rule>)
    requires Patch(before, mid) && Subsequence(kept, mid)
    requires forall r | r in added :: r !in before
    ensures Patch(before, kept + added)
  {
    var f := Among(before);
    SubsequenceFilter(f, kept, mid);
    SubsequenceTransitive(Filter(f, kept), Filter(f, mid), before);
    FilterConcat(f, kept, added);
    FilterNone(f, added);
    assert Filter(f, kept + added) == Filter(f, kept);
  }

  lemma PatchRefl(before: seq<Rule>)
    ensures Patch(before, before)
  {
    FilterSubsequence(Among(before), before);
  }

  /** One calculator call: filter, then merge. It patches `before` if it starts from a patch and
      every wanted CIDR that has a rule in `before` still has one after the filter. */
  lemma MergePatches(before: seq<Rule>, mid: seq<Rule>, f: Rule -> bool, wanted: set<string>, p: int, inUse: bool,
                     add: bool)
    requires Patch(before, mid)
    requires PeerSet(before, p) * wanted <= PeerSet(Filter(f, mid), p)
    ensures Patch(before, Merge(Filter(f, mid), wanted, p, inUse, add))
  {
    var rules := Filter(f, mid);
    FilterSubsequence(f, mid);
    KeptSubsequence(rules, wanted, p, inUse);
    SubsequenceTransitive(Kept(rules, wanted, p, inUse), rules, mid);
    var added := if add then Added(wanted - PeerSet(rules, p), p) else [];
    PeerSetMeans(before, p);
    forall r | r in added ensures r !in before {
      assert r in before ==> r.peer in PeerSet(before, p);
    }
    PatchCompose(before, mid, Kept(rules, wanted, p, inUse), added);
  }

  lemma FilterKeepsPeers(f: Rule -> bool, rules: seq<Rule>, p: int)
    requires forall r | Applies(r, p) :: f(r)
    ensures PeerSet(Filter(f, rules), p) == PeerSet(rules, p)
  {
    FilterMembers(f, rules);
    PeerSetMeans(rules, p);
    PeerSetMeans(Filter(f, rules), p);
  }

  // ---------- Egress ----------

  /** The two egress calls of updateLoadBalancerRules, for the backend and the health-check port. */
  function EgressPair(rules: seq<Rule>, wanted: set<string>, aB: int, aH: int, d: PortSpec, useB: bool,
                      useH: bool): seq<Rule> {
    EgressRules(EgressRules(rules, wanted, aB, d.backend, useB), wanted, aH, d.health, useH)
  }

  lemma EgressPairPatches(rules: seq<Rule>, wanted: set<string>, aB: int, aH: int, d: PortSpec, useB: bool, useH: bool)
    requires aB == d.health ==> aB == d.backend
    ensures Patch(rules, EgressPair(rules, wanted, aB, aH, d, useB, useH))
  {
    PatchRefl(rules);
    FilterKeepsPeers(Fresh(aB, d.backend), rules, d.backend);
    MergePatches(rules, rules, Fresh(aB, d.backend), wanted, d.backend, useB, true);
    var first, mid := Filter(Fresh(aB, d.backend), rules), EgressRules(rules, wanted, aB, d.backend, useB);
    FilterKeepsPeers(Fresh(aB, d.backend), rules, d.health);
    if d.backend == d.health {
      MergePeers(first, wanted, d.backend, useB, true);
    } else {
      MergeElsewhere(first, wanted, d.backend, useB, true, d.health);
    }
    FilterKeepsPeers(Fresh(aH, d.health), mid, d.health);
    MergePatches(rules, mid, Fresh(aH, d.health), wanted, d.health, useH, true);
  }

  /** An old backend port that becomes the health-check port defeats the detector. */
  lemma EgressBlindSpot(aB: int, aH: int, d: PortSpec) returns (rules: seq<Rule>)
    requires aB == d.health && aB != d.backend
    ensures LooksSame(rules, EgressPair(rules, {"a"}, aB, aH, d, false, false))
    ensures EgressPair(rules, {"a"}, aB, aH, d, false, false) != rules
  {
    var onHealth, onBackend := MakeRule("a", d.health), MakeRule("a", d.backend);
    var bystander := if aH == d.backend then Rule("", "", None, None, "") else onBackend;
    rules := [onHealth, bystander];
    var mid := EgressBlindSpotFirst(aB, aH, d, onHealth, bystander);
    EgressBlindSpotSecond(aH, d, bystander, mid);
  }

  lemma EgressBlindSpotFirst(aB: int, aH: int, d: PortSpec, onHealth: Rule, r: Rule) returns (mid: seq<Rule>)
    requires aB == d.health && aB != d.backend && onHealth == MakeRule("a", d.health)
    requires r == if aH == d.backend then Rule("", "", None, None, "") else MakeRule("a", d.backend)
    ensures mid == EgressRules([onHealth, r], {"a"}, aB, d.backend, false)
    ensures mid == if aH == d.backend then [r, MakeRule("a", d.backend)] else [r]
  {
    mid := EgressRules([onHealth, r], {"a"}, aB, d.backend, false);
    FilterPair(Fresh(aB, d.backend), onHealth, r);
    assert Filter(Fresh(aB, d.backend), [onHealth, r]) == [r];
    MergeOne(r, {"a"}, d.backend);
    SingleAdded("a", d.backend);
    assert {"a"} - {"a"} == {} && {"a"} - {} == {"a"};
  }

  lemma EgressBlindSpotSecond(aH: int, d: PortSpec, r: Rule, mid: seq<Rule>)
    requires d.health != d.backend
    requires r == if aH == d.backend then Rule("", "", None, None, "") else MakeRule("a", d.backend)
    requires mid == if aH == d.backend then [r, MakeRule("a", d.backend)] else [r]
    ensures EgressRules(mid, {"a"}, aH, d.health, false) == [r, MakeRule("a", d.health)]
  {
    FilterPair(Fresh(aH, d.health), r, if aH == d.backend then MakeRule("a", d.backend) else r);
    assert Filter(Fresh(aH, d.health), mid) == [r];
    MergeOneOff(r, "a", d.health);
  }

  lemma MergeOneOff(r: Rule, c: string, p: int)
    requires !Applies(r, p)
    ensures Merge([r], {c}, p, false, true) == [r, MakeRule(c, p)]
  {
    MergeOne(r, {c}, p);
    SingleAdded(c, p);
    assert {c} - {} == {c};
  }

  lemma FilterPair(f: Rule -> bool, r: Rule, s: Rule)
    ensures Filter(f, [r, s]) == (if f(r) then [r] else []) + (if f(s) then [s] else [])
    ensures Filter(f, [s]) == if f(s) then [s] else []
  {
    assert [r, s][..1] == [r];
    assert Filter(f, [r]) == if f(r) then [r] else [];
    assert Filter(f, [r, s]) == Filter(f, [r]) + if f(s) then [s] else [];
  }

  lemma MergeOne(r: Rule, wanted: set<string>, p: int)
    requires Applies(r, p) ==> r.peer in wanted
    ensures Merge([r], wanted, p, false, true) == [r] + Added(wanted - (if Applies(r, p) then {r.peer} else {}), p)
  {
    assert [r][..0] == [];
    assert wanted - {} == wanted;
    assert PeerSet([r], p) == if Applies(r, p) then {r.peer} else {};
    assert Kept([r], wanted, p, false) == [r];
  }

  lemma SingleAdded(c: string, p: int)
    ensures Added({c}, p) == [MakeRule(c, p)]
    ensures Added({}, p) == []
  {
    var a := Added({c}, p);
    assert |{c}| == 1;
    assert a[0] in a;
  }

  ghost predicate EgressDetectorExact(aB: int, aH: int, d: PortSpec) {
    forall rules, wanted, useB, useH ::
      LooksSame(rules, EgressPair(rules, wanted, aB, aH, d, useB, useH)) ==>
          EgressPair(rules, wanted, aB, aH, d, useB, useH) == rules
  }

  /** For egress the cheap comparison is equality exactly when the old backend port is not
      turned into the health-check port. */
  lemma EgressDetectorExactIff(aB: int, aH: int, d: PortSpec)
    ensures EgressDetectorExact(aB, aH, d) <==> (aB == d.health ==> aB == d.backend)
  {
    if aB == d.health ==> aB == d.backend {
      forall rules, wanted, useB, useH | LooksSame(rules, EgressPair(rules, wanted, aB, aH, d, useB, useH))
        ensures EgressPair(rules, wanted, aB, aH, d, useB, useH) == rules
      {
        EgressPairPatches(rules, wanted, aB, aH, d, useB, useH);
        PatchLooksSame(rules, EgressPair(rules, wanted, aB, aH, d, useB, useH));
      }
    } else {
      var rules := EgressBlindSpot(aB, aH, d);
    }
  }

  // ---------- Ingress ----------

  lemma ListenerPatches(rules: seq<Rule>, wanted: set<string>, p: int, inUse: bool)
    ensures Patch(rules, Merge(rules, wanted, p, inUse, true))
  {
    PatchRefl(rules);
    FilterLength(r => true, rules);
    MergePatches(rules, rules, r => true, wanted, p, inUse, true);
  }

  lemma NodeFreshOnDesired(actual: Option<PortSpec>, d: PortSpec)
    ensures forall r | Applies(r, d.backend) || Applies(r, d.health) :: NodeFresh(actual, d)(r)
  {
    forall r | Applies(r, d.backend) || Applies(r, d.health) ensures NodeFresh(actual, d)(r) {
      NodeFreshMeans(r, actual, d);
    }
  }

  lemma NodeIngressPatches(rules: seq<Rule>, wb: set<string>, wh: set<string>, actual: Option<PortSpec>, d: PortSpec,
                           inUse: bool)
    requires d.backend != d.health || d.backend == 0
    ensures Patch(rules, NodeIngress(rules, wb, wh, actual, d, inUse))
  {
    var f := NodeFresh(actual, d);
    PatchRefl(rules);
    if d.backend == d.health {
      FilterSubsequence(f, rules);
      NodeWalkSubsequence(Filter(f, rules), wb, wh, d, inUse);
      var kept := NodeWalk(Filter(f, rules), wb, wh, d, inUse).kept;
      SubsequenceTransitive(kept, Filter(f, rules), rules);
      PatchCompose(rules, rules, kept, []);
      assert kept + [] + [] == kept + [];
    } else {
      NodeIngressIsTwoMerges(rules, wb, wh, actual, d, inUse);
      NodeFreshOnDesired(actual, d);
      FilterKeepsPeers(f, rules, d.backend);
      FilterKeepsPeers(f, rules, d.health);
      MergePatches(rules, rules, f, wb, d.backend, false, d.backend != 0);
      var mid := Merge(Filter(f, rules), wb, d.backend, false, d.backend != 0);
      MergeElsewhere(Filter(f, rules), wb, d.backend, false, d.backend != 0, d.health);
      FilterLength(r => true, mid);
      MergePatches(rules, mid, r => true, wh, d.health, inUse, d.health != 0);
    }
  }

  lemma {:induction false} NodeWalkSubsequence(rules: seq<Rule>, wb: set<string>, wh: set<string>, d: PortSpec,
                                               inUse: bool)
    ensures Subsequence(NodeWalk(rules, wb, wh, d, inUse).kept, rules)
  {
    if rules != [] {
      var n := |rules| - 1;
      NodeWalkSubsequence(rules[..n], wb, wh, d, inUse);
      SubsequenceSnoc(NodeWalk(rules[..n], wb, wh, d, inUse).kept, rules[..n], rules[n]);
      assert rules == rules[..n] + [rules[n]];
    }
  }

  /** A backend port equal to the health-check port defeats the detector. */
  lemma NodeBlindSpot(actual: Option<PortSpec>, d: PortSpec) returns (rules: seq<Rule>)
    requires d.backend == d.health != 0
    ensures LooksSame(rules, NodeIngress(rules, {"a"}, {"a"}, actual, d, false))
    ensures NodeIngress(rules, {"a"}, {"a"}, actual, d, false) != rules
  {
    var a, b := MakeRule("a", d.backend), MakeRule("b", d.backend);
    rules := [a, b];
    NodeFreshOnDesired(actual, d);
    FilterLength(NodeFresh(actual, d), rules);
    assert rules[..1] == [a];
    assert NodeWalk([a], {"a"}, {"a"}, d, false) == Walk([a], {}, {"a"});
    assert NodeWalk(rules, {"a"}, {"a"}, d, false) == Walk([a], {}, {"a"});
    SingleAdded("a", d.backend);
    assert NodeIngress(rules, {"a"}, {"a"}, actual, d, false) == [a, a];
  }

  ghost predicate NodeDetectorExact(actual: Option<PortSpec>, d: PortSpec) {
    forall rules, wb, wh, inUse ::
      wh <= wb && LooksSame(rules, NodeIngress(rules, wb, wh, actual, d, inUse)) ==>
          NodeIngress(rules, wb, wh, actual, d, inUse) == rules
  }

  /** For node ingress the cheap comparison is equality exactly when the two desired ports differ
      or are both unset. */
  lemma NodeDetectorExactIff(actual: Option<PortSpec>, d: PortSpec)
    ensures NodeDetectorExact(actual, d) <==> d.backend != d.health || d.backend == 0
  {
    if d.backend != d.health || d.backend == 0 {
      forall rules, wb, wh, inUse | wh <= wb && LooksSame(rules, NodeIngress(rules, wb, wh, actual, d, inUse))
        ensures NodeIngress(rules, wb, wh, actual, d, inUse) == rules
      {
        NodeIngressPatches(rules, wb, wh, actual, d, inUse);
        PatchLooksSame(rules, NodeIngress(rules, wb, wh, actual, d, inUse));
      }
    } else {
      var rules := NodeBlindSpot(actual, d);
    }
  }
}
