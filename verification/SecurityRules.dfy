/**
 Security-list rules and the single-port merge that underlies the three rule calculators:
 walk the existing rules, keep those that are unrelated or still wanted, and append a rule for
 every wanted CIDR that had none.
 */
module SecurityRules {
  import opened Common
  import opened SortedStrings

  datatype PortRange = PortRange(min: int, max: int)

  datatype TcpOptions = TcpOptions(destination: Option<PortRange>, source: Option<PortRange>)

  /** An ingress or an egress rule. `peer` is the Source of an ingress rule and the Destination of
      an egress rule; `extra` stands for the fields the reconciler never looks into. */
  datatype Rule = Rule(peer: string, protocol: string, tcp: Option<TcpOptions>, stateless: Option<bool>, extra: string)

  /** The destination range is exactly port p, whatever the source range. */
  predicate SinglePort(r: Rule, p: int) {
    r.tcp.Some? && r.tcp.value.destination == Some(PortRange(p, p))
  }

  /** The rule belongs to port p: single destination port p and no source range. */
  predicate Applies(r: Rule, p: int) {
    SinglePort(r, p) && r.tcp.value.source.None?
  }

  /** TCP traffic to port q passes, from whatever port. */
  predicate LetsTcp(r: Rule, q: int) {
    r.protocol == "6" && r.tcp.Some? && r.tcp.value.source.None? && r.tcp.value.destination.Some? &&
    r.tcp.value.destination.value.min <= q <= r.tcp.value.destination.value.max
  }

  /** makeIngressSecurityRule and makeEgressSecurityRule: a stateful TCP rule for one port. */
  function MakeRule(cidr: string, p: int): (r: Rule)
    ensures r.peer == cidr && r.stateless == Some(false)
    ensures forall q :: (Applies(r, q) <==> q == p) && (SinglePort(r, q) <==> q == p)
    ensures forall q :: LetsTcp(r, q) <==> q == p
  {
    Rule(cidr, "6", Some(TcpOptions(Some(PortRange(p, p)), None)), Some(false), "")
  }

  // ---------- Filtering and subsequences ----------

  function Filter(f: Rule -> bool, rules: seq<Rule>): seq<Rule> {
    if rules == [] then []
    else
      var n := |rules| - 1;
      Filter(f, rules[..n]) + (if f(rules[n]) then [rules[n]] else [])
  }

  lemma {:induction false} FilterMembers(f: Rule -> bool, rules: seq<Rule>)
    ensures forall r :: r in Filter(f, rules) <==> r in rules && f(r)
  {
    if rules != [] {
      FilterMembers(f, rules[..|rules| - 1]);
      assert rules == rules[..|rules| - 1] + [rules[|rules| - 1]];
    }
  }

  lemma {:induction false} FilterConcat(f: Rule -> bool, a: seq<Rule>, b: seq<Rule>)
    ensures Filter(f, a + b) == Filter(f, a) + Filter(f, b)
  {
    if b == [] {
      assert a + b == a;
    } else {
      FilterConcat(f, a, b[..|b| - 1]);
      assert (a + b)[..|a + b| - 1] == a + b[..|b| - 1];
    }
  }

  lemma {:induction false} FilterFilter(f: Rule -> bool, g: Rule -> bool, rules: seq<Rule>)
    requires forall r :: f(r) ==> g(r)
    ensures Filter(f, Filter(g, rules)) == Filter(f, rules)
  {
    if rules != [] {
      var n := |rules| - 1;
      FilterFilter(f, g, rules[..n]);
      FilterConcat(f, Filter(g, rules[..n]), if g(rules[n]) then [rules[n]] else []);
    }
  }

  lemma {:induction false} FilterLength(f: Rule -> bool, rules: seq<Rule>)
    ensures |Filter(f, rules)| <= |rules|
    ensures Filter(f, rules) == rules <==> forall r | r in rules :: f(r)
  {
    if rules != [] {
      var init, r := rules[..|rules| - 1], rules[|rules| - 1];
      FilterLength(f, init);
      assert rules == init + [r];
      assert Filter(f, rules) == if f(r) then Filter(f, init) + [r] else Filter(f, init);
    }
  }

  lemma {:induction false} FilterNone(f: Rule -> bool, rules: seq<Rule>)
    requires forall r | r in rules :: !f(r)
    ensures Filter(f, rules) == []
  {
    if rules != [] { FilterNone(f, rules[..|rules| - 1]); }
  }

  predicate Subsequence(a: seq<Rule>, b: seq<Rule>) {
    a == [] ||
    (b != [] &&
     ((a[|a| - 1] == b[|b| - 1] && Subsequence(a[..|a| - 1], b[..|b| - 1])) || Subsequence(a, b[..|b| - 1])))
  }

  lemma {:induction false} SubsequenceLength(a: seq<Rule>, b: seq<Rule>)
    requires Subsequence(a, b)
    ensures |a| <= |b|
    ensures |a| == |b| ==> a == b
    ensures forall r | r in a :: r in b
  {
    if a != [] {
      var a', b' := a[..|a| - 1], b[..|b| - 1];
      assert a == a' + [a[|a| - 1]] && b == b' + [b[|b| - 1]];
      if a[|a| - 1] == b[|b| - 1] && Subsequence(a', b') {
        SubsequenceLength(a', b');
      } else {
        SubsequenceLength(a, b');
      }
    }
  }

  lemma {:induction false} SubsequenceTransitive(a: seq<Rule>, b: seq<Rule>, c: seq<Rule>)
    requires Subsequence(a, b) && Subsequence(b, c)
    ensures Subsequence(a, c)
    decreases |b| + |c|
  {
    if a != [] {
      var a', b', c' := a[..|a| - 1], b[..|b| - 1], c[..|c| - 1];
      if b[|b| - 1] == c[|c| - 1] && Subsequence(b', c') {
        if a[|a| - 1] == b[|b| - 1] && Subsequence(a', b') {
          SubsequenceTransitive(a', b', c');
        } else {
          SubsequenceTransitive(a, b', c');
        }
      } else {
        SubsequenceTransitive(a, b, c');
      }
    }
  }

  lemma SubsequenceSnoc(a: seq<Rule>, b: seq<Rule>, r: Rule)
    requires Subsequence(a, b)
    ensures Subsequence(a + [r], b + [r])
    ensures Subsequence(a, b + [r])
  {
    assert (a + [r])[..|a|] == a && (b + [r])[..|b|] == b;
  }

  lemma {:induction false} FilterSubsequence(f: Rule -> bool, rules: seq<Rule>)
    ensures Subsequence(Filter(f, rules), rules)
  {
    if rules != [] {
      var n := |rules| - 1;
      FilterSubsequence(f, rules[..n]);
      SubsequenceSnoc(Filter(f, rules[..n]), rules[..n], rules[n]);
      assert !f(rules[n]) ==> Filter(f, rules) == Filter(f, rules[..n]);
      assert rules == rules[..n] + [rules[n]];
    }
  }

  // ---------- The single-port merge ----------

  /** The CIDRs that have a rule for port p. */
  function PeerSet(rules: seq<Rule>, p: int): set<string> {
    if rules == [] then {}
    else
      var n := |rules| - 1;
      PeerSet(rules[..n], p) + (if Applies(rules[n], p) then {rules[n].peer} else {})
  }

  lemma {:induction false} PeerSetMeans(rules: seq<Rule>, p: int)
    ensures PeerSet(rules, p) == set r | r in rules && Applies(r, p) :: r.peer
  {
    if rules != [] {
      var n := |rules| - 1;
      PeerSetMeans(rules[..n], p);
      assert rules == rules[..n] + [rules[n]];
    }
  }

  /** No CIDR has two rules for port p. */
  predicate OncePerPeer(rules: seq<Rule>, p: int) {
    forall i, j | 0 <= i < j < |rules| && Applies(rules[i], p) && Applies(rules[j], p) :: rules[i].peer != rules[j].peer
  }

  /** The walk's verdict on a rule, given the CIDRs not yet matched by an earlier rule. */
  predicate Keeps(r: Rule, unmatched: set<string>, p: int, inUse: bool) {
    !Applies(r, p) || r.peer in unmatched || inUse
  }

  /** The rules that survive the walk, in order. */
  function Kept(rules: seq<Rule>, wanted: set<string>, p: int, inUse: bool): seq<Rule> {
    if rules == [] then []
    else
      var n := |rules| - 1;
      Kept(rules[..n], wanted, p, inUse) +
      (if Keeps(rules[n], wanted - PeerSet(rules[..n], p), p, inUse) then [rules[n]] else [])
  }

  /** The appended rules, one for each CIDR in sorted order. */
  function Added(cidrs: set<string>, p: int): (a: seq<Rule>)
    ensures forall r :: r in a <==> r.peer in cidrs && r == MakeRule(r.peer, p)
    ensures |a| == |cidrs|
  {
    var l := SortedList(cidrs);
    var a := seq(|l|, i requires 0 <= i < |l| => MakeRule(l[i], p));
    assert forall r: Rule | r.peer in cidrs && r == MakeRule(r.peer, p) :: r in a by {
      forall r: Rule | r.peer in cidrs && r == MakeRule(r.peer, p) ensures r in a {
        assert r.peer in l;
        var i :| 0 <= i < |l| && l[i] == r.peer;
        assert a[i] == r;
      }
    }
    a
  }

  /** Rules after reconciling port p with the wanted CIDRs. `inUse`: unwanted rules of the port
      must stay; `add`: missing CIDRs get a rule. */
  function Merge(rules: seq<Rule>, wanted: set<string>, p: int, inUse: bool, add: bool): seq<Rule> {
    Kept(rules, wanted, p, inUse) + (if add then Added(wanted - PeerSet(rules, p), p) else [])
  }

  lemma {:induction false} PeerSetConcat(a: seq<Rule>, b: seq<Rule>, p: int)
    ensures PeerSet(a + b, p) == PeerSet(a, p) + PeerSet(b, p)
  {
    if b == [] {
      assert a + b == a;
    } else {
      PeerSetConcat(a, b[..|b| - 1], p);
      assert (a + b)[..|a + b| - 1] == a + b[..|b| - 1];
    }
  }

  lemma PeerSetAdded(cidrs: set<string>, p: int, q: int)
    ensures PeerSet(Added(cidrs, p), q) == if p == q then cidrs else {}
  {
    PeerSetMeans(Added(cidrs, p), q);
    forall c | c in cidrs ensures MakeRule(c, p) in Added(cidrs, p) {}
  }

  lemma {:induction false} KeptSubsequence(rules: seq<Rule>, wanted: set<string>, p: int, inUse: bool)
    ensures Subsequence(Kept(rules, wanted, p, inUse), rules)
  {
    if rules != [] {
      var n := |rules| - 1;
      KeptSubsequence(rules[..n], wanted, p, inUse);
      var k := Kept(rules[..n], wanted, p, inUse);
      SubsequenceSnoc(k, rules[..n], rules[n]);
      assert Kept(rules, wanted, p, inUse) == k || Kept(rules, wanted, p, inUse) == k + [rules[n]];
      assert rules == rules[..n] + [rules[n]];
    }
  }

  lemma {:induction false} KeptPeers(rules: seq<Rule>, wanted: set<string>, p: int, inUse: bool)
    ensures PeerSet(Kept(rules, wanted, p, inUse), p) == if inUse then PeerSet(rules, p) else PeerSet(rules, p) * wanted
  {
    if rules != [] {
      var n := |rules| - 1;
      KeptPeers(rules[..n], wanted, p, inUse);
      var tail := if Keeps(rules[n], wanted - PeerSet(rules[..n], p), p, inUse) then [rules[n]] else [];
      PeerSetConcat(Kept(rules[..n], wanted, p, inUse), tail, p);
    }
  }

  lemma OnceSnoc(rules: seq<Rule>, r: Rule, p: int)
    ensures OncePerPeer(rules + [r], p) <==> OncePerPeer(rules, p) && (Applies(r, p) ==> r.peer !in PeerSet(rules, p))
  {
    var all := rules + [r];
    if OncePerPeer(all, p) {
      forall i, j | 0 <= i < j < |rules| && Applies(rules[i], p) && Applies(rules[j], p)
          ensures rules[i].peer != rules[j].peer {
        assert all[i] == rules[i] && all[j] == rules[j];
      }
      forall i | 0 <= i < |rules| && Applies(r, p) && Applies(rules[i], p) ensures rules[i].peer != r.peer {
        assert all[i] == rules[i] && all[|rules|] == r;
      }
    }
    PeerSetMeans(rules, p);
  }

  lemma {:induction false} KeptOnce(rules: seq<Rule>, wanted: set<string>, p: int)
    ensures OncePerPeer(Kept(rules, wanted, p, false), p)
  {
    if rules != [] {
      var n := |rules| - 1;
      KeptOnce(rules[..n], wanted, p);
      KeptPeers(rules[..n], wanted, p, false);
      OnceSnoc(Kept(rules[..n], wanted, p, false), rules[n], p);
    }
  }

  lemma {:induction false} KeptIsAll(rules: seq<Rule>, wanted: set<string>, p: int, inUse: bool)
    ensures |Kept(rules, wanted, p, inUse)| <= |rules|
    ensures Kept(rules, wanted, p, inUse) == rules <==> inUse || (PeerSet(rules, p) <= wanted && OncePerPeer(rules, p))
  {
    if rules != [] {
      var n := |rules| - 1;
      KeptIsAll(rules[..n], wanted, p, inUse);
      assert rules == rules[..n] + [rules[n]];
      OnceSnoc(rules[..n], rules[n], p);
    }
  }

  lemma {:induction false} KeptFrame(f: Rule -> bool, rules: seq<Rule>, wanted: set<string>, p: int, inUse: bool)
    requires forall r | f(r) :: !Applies(r, p)
    ensures Filter(f, Kept(rules, wanted, p, inUse)) == Filter(f, rules)
  {
    if rules != [] {
      var n := |rules| - 1;
      KeptFrame(f, rules[..n], wanted, p, inUse);
      FilterConcat(f, Kept(rules[..n], wanted, p, inUse),
                   if Keeps(rules[n], wanted - PeerSet(rules[..n], p), p, inUse) then [rules[n]] else []);
    }
  }

  /** Rules unrelated to the port keep their order and multiplicity. */
  lemma MergeFrame(f: Rule -> bool, rules: seq<Rule>, wanted: set<string>, p: int, inUse: bool, add: bool)
    requires forall r | f(r) :: !Applies(r, p)
    ensures Filter(f, Merge(rules, wanted, p, inUse, add)) == Filter(f, rules)
  {
    KeptFrame(f, rules, wanted, p, inUse);
    var a := if add then Added(wanted - PeerSet(rules, p), p) else [];
    FilterConcat(f, Kept(rules, wanted, p, inUse), a);
    FilterNone(f, a);
  }

  /** The CIDRs that port p is left with. */
  lemma MergePeers(rules: seq<Rule>, wanted: set<string>, p: int, inUse: bool, add: bool)
    ensures PeerSet(Merge(rules, wanted, p, inUse, add), p) ==
            (if inUse then PeerSet(rules, p) else PeerSet(rules, p) * wanted) + (if add then wanted else {})
  {
    KeptPeers(rules, wanted, p, inUse);
    PeerSetAdded(wanted - PeerSet(rules, p), p, p);
    PeerSetConcat(Kept(rules, wanted, p, inUse), if add then Added(wanted - PeerSet(rules, p), p) else [], p);
  }

  lemma {:induction false} OnceConcat(a: seq<Rule>, b: seq<Rule>, p: int)
    requires OncePerPeer(a, p) && OncePerPeer(b, p) && PeerSet(a, p) !! PeerSet(b, p)
    ensures OncePerPeer(a + b, p)
  {
    var s := a + b;
    PeerSetMeans(a, p);
    PeerSetMeans(b, p);
    forall i, j | 0 <= i < j < |s| && Applies(s[i], p) && Applies(s[j], p) ensures s[i].peer != s[j].peer {
      if i < |a| <= j {
        assert s[i] in a && s[j] in b;
        assert s[i].peer in PeerSet(a, p) && s[j].peer in PeerSet(b, p);
      }
    }
  }

  lemma AddedOnce(cidrs: set<string>, p: int)
    ensures OncePerPeer(Added(cidrs, p), p)
  {}

  ghost function PeersInOrder(rules: seq<Rule>): seq<string> {
    seq(|rules|, i requires 0 <= i < |rules| => rules[i].peer)
  }

  /** A merge keeps some of the rules in order and appends one stateful TCP rule for exactly the port
      for every wanted CIDR that had none, in increasing order. */
  lemma MergeShape(rules: seq<Rule>, wanted: set<string>, p: int, inUse: bool)
    ensures var m := Merge(rules, wanted, p, inUse, true);
            var kept := Kept(rules, wanted, p, inUse);
            var made := m[|kept|..];
            && m == kept + made && Subsequence(kept, rules)
            && StrictlySorted(PeersInOrder(made))
            && (forall c :: c in PeersInOrder(made) <==> c in wanted - PeerSet(rules, p))
            && (forall r | r in made :: r.stateless == Some(false) && forall q :: LetsTcp(r, q) <==> q == p)
  {
    var kept, left := Kept(rules, wanted, p, inUse), wanted - PeerSet(rules, p);
    var made := Added(left, p);
    KeptSubsequence(rules, wanted, p, inUse);
    assert Merge(rules, wanted, p, inUse, true)[|kept|..] == made;
    AddedInOrder(left, p);
  }

  lemma AddedInOrder(cidrs: set<string>, p: int)
    ensures PeersInOrder(Added(cidrs, p)) == SortedList(cidrs)
    ensures forall r | r in Added(cidrs, p) :: r.stateless == Some(false) && forall q :: LetsTcp(r, q) <==> q == p
  {
    var l, a := SortedList(cidrs), Added(cidrs, p);
    assert forall i | 0 <= i < |l| :: a[i] == MakeRule(l[i], p);
    assert forall i | 0 <= i < |l| :: PeersInOrder(a)[i] == l[i];
  }

  /** When no other service needs the port, it ends up with exactly the wanted CIDRs, once each. */
  lemma MergeExact(rules: seq<Rule>, wanted: set<string>, p: int)
    ensures PeerSet(Merge(rules, wanted, p, false, true), p) == wanted
    ensures OncePerPeer(Merge(rules, wanted, p, false, true), p)
  {
    MergePeers(rules, wanted, p, false, true);
    MergeOnce(rules, wanted, p, true);
  }

  lemma MergeOnce(rules: seq<Rule>, wanted: set<string>, p: int, add: bool)
    ensures OncePerPeer(Merge(rules, wanted, p, false, add), p)
  {
    KeptOnce(rules, wanted, p);
    KeptPeers(rules, wanted, p, false);
    var left := wanted - PeerSet(rules, p);
    AddedOnce(left, p);
    PeerSetAdded(left, p, p);
    OnceConcat(Kept(rules, wanted, p, false), if add then Added(left, p) else [], p);
  }

  /** The merge leaves a list alone exactly when port p already has what is wanted. */
  ghost predicate Settled(rules: seq<Rule>, wanted: set<string>, p: int, inUse: bool, add: bool) {
    (inUse || (PeerSet(rules, p) <= wanted && OncePerPeer(rules, p))) && (add ==> wanted <= PeerSet(rules, p))
  }

  lemma SettledIsFixed(rules: seq<Rule>, wanted: set<string>, p: int, inUse: bool, add: bool)
    ensures Settled(rules, wanted, p, inUse, add) <==> Merge(rules, wanted, p, inUse, add) == rules
  {
    KeptIsAll(rules, wanted, p, inUse);
    PeerSetMeans(rules, p);
    var left := wanted - PeerSet(rules, p);
    assert wanted <= PeerSet(rules, p) ==> left == {};
    assert left == {} ==> forall c | c in wanted :: c in PeerSet(rules, p) by {
      assert forall c | c in wanted && c !in PeerSet(rules, p) :: c in left;
    }
    forall r | r in Added(left, p) ensures r !in rules {
      assert r in rules ==> r.peer in PeerSet(rules, p);
    }
    assert add && Added(left, p) != [] ==> Added(left, p)[0] in Merge(rules, wanted, p, inUse, add);
  }

  lemma MergeSettles(rules: seq<Rule>, wanted: set<string>, p: int, inUse: bool, add: bool)
    ensures Settled(Merge(rules, wanted, p, inUse, add), wanted, p, inUse, add)
  {
    MergePeers(rules, wanted, p, inUse, add);
    if !inUse { MergeOnce(rules, wanted, p, add); }
  }

  /** The rules of port p. */
  ghost function OnPort(p: int): Rule -> bool {
    r => Applies(r, p)
  }

  lemma {:induction false} OnceFiltered(rules: seq<Rule>, p: int)
    ensures OncePerPeer(Filter(OnPort(p), rules), p) <==> OncePerPeer(rules, p)
    ensures PeerSet(Filter(OnPort(p), rules), p) == PeerSet(rules, p)
  {
    if rules != [] {
      var n := |rules| - 1;
      var init, r := rules[..n], rules[n];
      OnceFiltered(init, p);
      OnceSnoc(init, r, p);
      OnceSnoc(Filter(OnPort(p), init), r, p);
      PeerSetConcat(Filter(OnPort(p), init), [r], p);
      assert rules == init + [r];
      assert Filter(OnPort(p), rules) == if Applies(r, p) then Filter(OnPort(p), init) + [r]
          else Filter(OnPort(p), init);
    }
  }

  /** Being settled depends on the rules of port p only. */
  lemma SettledCongruent(a: seq<Rule>, b: seq<Rule>, wanted: set<string>, p: int, inUse: bool, add: bool)
    requires Filter(OnPort(p), a) == Filter(OnPort(p), b)
    ensures Settled(a, wanted, p, inUse, add) <==> Settled(b, wanted, p, inUse, add)
    ensures PeerSet(a, p) == PeerSet(b, p)
  {
    OnceFiltered(a, p);
    OnceFiltered(b, p);
  }

  /** A merge on one port does not disturb another port. */
  lemma MergeElsewhere(rules: seq<Rule>, wanted: set<string>, p: int, inUse: bool, add: bool, q: int)
    requires p != q
    ensures Filter(OnPort(q), Merge(rules, wanted, p, inUse, add)) == Filter(OnPort(q), rules)
    ensures PeerSet(Merge(rules, wanted, p, inUse, add), q) == PeerSet(rules, q)
  {
    MergeFrame(OnPort(q), rules, wanted, p, inUse, add);
    SettledCongruent(Merge(rules, wanted, p, inUse, add), rules, {}, q, true, false);
  }

  /** Every rule of a merge was there before or belongs to the port. */
  lemma MergeMembers(rules: seq<Rule>, wanted: set<string>, p: int, inUse: bool, add: bool)
    ensures forall r | r in Merge(rules, wanted, p, inUse, add) :: r in rules || (add && Applies(r, p))
    ensures forall r | r in rules && !Applies(r, p) :: r in Merge(rules, wanted, p, inUse, add)
  {
    KeptSubsequence(rules, wanted, p, inUse);
    SubsequenceLength(Kept(rules, wanted, p, inUse), rules);
    var off := (r: Rule) => !Applies(r, p);
    KeptFrame(off, rules, wanted, p, inUse);
    FilterMembers(off, rules);
    FilterMembers(off, Kept(rules, wanted, p, inUse));
  }
}
