/**
 The reconciler against remote network security groups. Remote calls are numbered, and any of them
 may fail; `at` is the number of the next one. Stating the results for all failures describes the
 groups between any two remote calls.
 */
module NsgCloud {
  import opened Common
  import opened SecurityListCalculators
  import opened NsgRules
  import opened NsgReconcile

  /** All groups and the next unused rule id. */
  datatype World = World(groups: map<string, Group>, next: nat) {
    ghost predicate Valid() {
      forall n | n in groups :: Bounded(groups[n], next)
    }
  }

  /** One reconciliation of one group. */
  datatype Write = Write(nsg: string, target: Target)

  /** The write finished and changed no other group. */
  ghost predicate Written(fold: string -> string, v: World, w: World, x: Write) {
    && v.Valid() && w.Valid() && v.next <= w.next
    && x.nsg in v.groups && x.nsg in w.groups && w.groups == v.groups[x.nsg := w.groups[x.nsg]]
    && Done(fold, v.groups[x.nsg], w.groups[x.nsg], v.next, x.target)
  }

  /** The write stopped somewhere, possibly before doing anything. */
  ghost predicate Interrupted(fold: string -> string, v: World, w: World, x: Write) {
    && v.Valid() && w.Valid() && v.next <= w.next
    && (w == v ||
        (x.nsg in v.groups && x.nsg in w.groups && w.groups == v.groups[x.nsg := w.groups[x.nsg]] &&
         Progress(fold, v.groups[x.nsg], w.groups[x.nsg], v.next, x.target)))
  }

  /** Consecutive finished writes. */
  ghost predicate Chain(fold: string -> string, trace: seq<World>, writes: seq<Write>) {
    |trace| == |writes| + 1 && forall i | 0 <= i < |writes| :: Written(fold, trace[i], trace[i + 1], writes[i])
  }

  // ---------- The targets of a service ----------

  /** The arguments of the reconciler. The source ranges over the port map afresh for every list of
      rules it generates: `ports(0)` and `ports(1)` are the orders met for the frontend group's ingress
      and egress rules, `ports(2 + i)` the one met for the i-th backend group. */
  datatype NsgComponents = NsgComponents(
    frontendNsgOcid: string, backendNsgOcids: seq<string>, ports: nat -> seq<PortSpec>, sourceCIDRs: seq<string>,
    isPreserveSource: bool, serviceUid: string)

  function MadeKeys(fold: string -> string, direction: Direction, uid: string, t: EndpointType,
                    endpoints: set<string>, ports: set<int>): set<Key> {
    set e, p | e in endpoints && p in ports :: KeyOf(fold, MakeNsgRule(direction, e, uid, p, t))
  }

  function LbIngressKeys(fold: string -> string, c: NsgComponents): set<Key> {
    MadeKeys(fold, Ingress, c.serviceUid, CidrBlock, ToSet(c.sourceCIDRs), ListenerPorts(c.ports(0)))
  }

  function LbEgressKeys(fold: string -> string, c: NsgComponents): set<Key> {
    MadeKeys(fold, Egress, c.serviceUid, SecurityGroup, ToSet(c.backendNsgOcids), BackendTargets(c.ports(1)))
  }

  /** What the i-th backend group is to hold. */
  function BackendKeys(fold: string -> string, c: NsgComponents, i: nat): set<Key> {
    var ports := c.ports(2 + i);
    (if c.isPreserveSource
     then MadeKeys(fold, Ingress, c.serviceUid, CidrBlock, ToSet(c.sourceCIDRs), BackendPorts(ports)) else {}) +
    MadeKeys(fold, Ingress, c.serviceUid, SecurityGroup, {c.frontendNsgOcid}, BackendTargets(ports))
  }

  function FrontendWrite(fold: string -> string, c: NsgComponents): Write {
    Write(c.frontendNsgOcid, Target(c.serviceUid, {Ingress, Egress}, LbIngressKeys(fold, c) + LbEgressKeys(fold, c)))
  }

  function BackendWrite(fold: string -> string, c: NsgComponents, i: nat): Write
    requires i < |c.backendNsgOcids|
  {
    Write(c.backendNsgOcids[i], Target(c.serviceUid, {Ingress}, BackendKeys(fold, c, i)))
  }

  function BackendWrites(fold: string -> string, c: NsgComponents): seq<Write> {
    seq(|c.backendNsgOcids|, i requires 0 <= i < |c.backendNsgOcids| => BackendWrite(fold, c, i))
  }

  /** What reconcileSecurityGroup sets out to do. */
  function ReconcileWrites(fold: string -> string, c: NsgComponents): seq<Write> {
    [FrontendWrite(fold, c)] + BackendWrites(fold, c)
  }

  /** What removeBackendSecurityGroupRules sets out to do. */
  function RemovalWrites(c: NsgComponents): seq<Write> {
    seq(|c.backendNsgOcids|,
        i requires 0 <= i < |c.backendNsgOcids| => Write(c.backendNsgOcids[i], Target(c.serviceUid, {Ingress}, {})))
  }

  lemma ReconcileWritesAt(fold: string -> string, c: NsgComponents, i: nat)
    requires i < |c.backendNsgOcids|
    ensures |ReconcileWrites(fold, c)| == |c.backendNsgOcids| + 1
    ensures ReconcileWrites(fold, c)[i + 1] == BackendWrite(fold, c, i)
  {}

  lemma MadeKeysAre(fold: string -> string, direction: Direction, uid: string, t: EndpointType, endpoints: set<string>,
                    ports: set<int>, rules: seq<NsgRule>)
    requires forall r :: r in rules <==> IsMade(r, direction, uid, t, endpoints, ports)
    ensures Keys(fold, rules) == MadeKeys(fold, direction, uid, t, endpoints, ports)
    ensures forall r | r in rules :: Owned(r, uid, {direction})
    ensures forall k | k in Keys(fold, rules) :: k.direction == direction
  {
    forall e, p | e in endpoints && p in ports ensures MakeNsgRule(direction, e, uid, p, t) in rules {
      assert IsMade(MakeNsgRule(direction, e, uid, p, t), direction, uid, t, endpoints, ports);
    }
  }

  // ---------- Plans ----------

  /** Diffing a service's listed rules against generated ones gives a plan. */
  lemma PlanOne(fold: string -> string, g: Group, uid: string, dir: Direction, generated: seq<NsgRule>,
                listed: seq<Listed>, mine: seq<Listed>,
                adds: seq<NsgRule>, removes: seq<nat>)
    requires IsListing(g, dir, listed)
    requires forall e :: e in mine <==> e in listed && e.rule.description == Some(uid)
    requires forall r | r in generated :: Owned(r, uid, {dir})
    requires forall r :: r in adds <==> r in generated && KeyOf(fold, r) !in Keys(fold, RulesOf(mine))
    requires forall id :: id in removes <==>
             exists e :: e in mine && e.id == id && KeyOf(fold, e.rule) !in Keys(fold, generated)
    ensures Plan(fold, g, Target(uid, {dir}, Keys(fold, generated)), adds, removes)
  {
    var t := Target(uid, {dir}, Keys(fold, generated));
    forall k | k in t.want ensures k in Slice(fold, g, uid, {dir}) || k in Keys(fold, adds) {
      var r :| r in generated && KeyOf(fold, r) == k;
      if k in Keys(fold, RulesOf(mine)) {
        var i :| 0 <= i < |mine| && KeyOf(fold, RulesOf(mine)[i]) == k;
        assert mine[i] in mine && g[mine[i].id] == mine[i].rule;
      } else {
        assert r in adds;
      }
    }
    forall id ensures id in removes <==> id in g && Owned(g[id], uid, {dir}) && KeyOf(fold, g[id]) !in t.want {
      if id in g && Owned(g[id], uid, {dir}) && KeyOf(fold, g[id]) !in t.want {
        assert Listed(id, g[id]) in mine;
      }
    }
  }

  lemma PlanRemoveAll(fold: string -> string, g: Group, uid: string, listed: seq<Listed>, removes: seq<nat>)
    requires IsListing(g, Ingress, listed)
    requires forall id :: id in removes <==> exists e :: e in listed && e.id == id && e.rule.description == Some(uid)
    ensures Plan(fold, g, Target(uid, {Ingress}, {}), [], removes)
  {
    forall id ensures id in removes <==> id in g && Owned(g[id], uid, {Ingress}) {
      if id in g && Owned(g[id], uid, {Ingress}) {
        assert Listed(id, g[id]) in listed;
      }
    }
  }

  /** The ingress and the egress plan of the frontend group are carried out together. */
  lemma PlanBoth(fold: string -> string, g: Group, uid: string, ingress: set<Key>, egress: set<Key>,
                 adds1: seq<NsgRule>, removes1: seq<nat>, adds2: seq<NsgRule>, removes2: seq<nat>)
    requires (forall k | k in ingress :: k.direction == Ingress) && (forall k | k in egress :: k.direction == Egress)
    requires Plan(fold, g, Target(uid, {Ingress}, ingress), adds1, removes1)
    requires Plan(fold, g, Target(uid, {Egress}, egress), adds2, removes2)
    ensures Plan(fold, g, Target(uid, {Ingress, Egress}, ingress + egress), adds1 + adds2, removes1 + removes2)
  {
    forall k | k in ingress + egress
        ensures k in Slice(fold, g, uid, {Ingress, Egress}) || k in Keys(fold, adds1 + adds2) {
      var dir := if k in ingress then Ingress else Egress;
      if k in Slice(fold, g, uid, {dir}) {
        var id := Holder(fold, g, uid, {dir}, k);
      }
    }
  }

  lemma {:induction false} GrowGrow(g: Group, next: nat, a: seq<NsgRule>, b: seq<NsgRule>)
    ensures Grow(Grow(g, next, a), next + |a|, b) == Grow(g, next, a + b)
  {
    if b == [] {
      assert a + b == a;
    } else {
      GrowGrow(g, next, a, b[..|b| - 1]);
      assert (a + b)[..|a + b| - 1] == a + b[..|b| - 1];
    }
  }

  // ---------- Remote groups ----------

  class Cloud {
    var groups: map<string, Group>
    var next: nat
    /** Which remote calls fail, and whether one that does takes effect although it reports an error. */
    const fails: nat -> bool
    const applied: bool

    constructor (w: World, fails: nat -> bool, applied: bool)
      ensures groups == w.groups && next == w.next && this.fails == fails && this.applied == applied
    {
      groups, next, this.fails, this.applied := w.groups, w.next, fails, applied;
    }

    ghost predicate NoneFails() {
      forall k: nat :: !fails(k)
    }

    /** The group exists under a proper id. */
    predicate Exists(nsg: string)
      reads this
    {
      nsg != "" && nsg in groups
    }

    ghost function Now(): (w: World)
      reads this
    {
      World(groups, next)
    }

    /** listNsgRules, in whatever order the service answers. */
    method ListNsgRules(nsg: string, dir: Direction) returns (l: seq<Listed>)
      requires nsg in groups
      ensures IsListing(groups[nsg], dir, l)
    {
      var g, todo := groups[nsg], groups[nsg].Keys;
      l := [];
      while todo != {}
        invariant todo <= g.Keys
        invariant forall e | e in l :: e.id in g && g[e.id] == e.rule && e.rule.direction == dir
        invariant forall id | id in g && id !in todo && g[id].direction == dir :: Listed(id, g[id]) in l
        decreases todo
      {
        var id :| id in todo;
        if g[id].direction == dir {
          l := l + [Listed(id, g[id])];
        }
        todo := todo - {id};
      }
    }

    /** addNetworkSecurityGroupSecurityRules: batch after batch, up to the first failure. */
    method AddRules(nsg: string, rules: seq<NsgRule>, at: nat) returns (ok: bool, following: nat, done: nat)
      requires nsg in groups
      modifies this
      ensures done <= |rules| && (ok ==> done == |rules|)
      ensures Now() == Plus(old(Now()), nsg, rules[..done])
      ensures NoneFails() ==> ok
    {
      var rulesInBatches := SplitIntoBatches(rules);
      following, done := at, 0;
      PlusNothing(Now(), nsg);
      for i := 0 to |rulesInBatches|
        invariant done == |Concat(rulesInBatches[..i])| <= |rules|
        invariant rules[..done] == Concat(rulesInBatches[..i])
        invariant nsg in groups && Now() == Plus(old(Now()), nsg, rules[..done])
      {
        var failing := fails(following);
        if failing && !applied {
          return false, following, done;
        }
        ConcatStep(rulesInBatches, i);
        ConcatPrefix(rulesInBatches, i + 1);
        var batch := rulesInBatches[i];
        PlusPlus(old(Now()), nsg, rules[..done], batch);
        groups, next := groups[nsg := Grow(groups[nsg], next, batch)], next + |batch|;
        done := done + |batch|;
        if failing {
          return false, following, done;
        }
        following := following + 1;
      }
      assert rulesInBatches[..|rulesInBatches|] == rulesInBatches;
      ok := true;
    }

    /** removeNetworkSecurityGroupSecurityRules. */
    method RemoveRules(nsg: string, ids: seq<nat>, at: nat) returns (ok: bool, following: nat, done: nat)
      requires nsg in groups
      modifies this
      ensures done <= |ids| && (ok ==> done == |ids|)
      ensures Now() == Minus(old(Now()), nsg, ids[..done])
      ensures NoneFails() ==> ok
    {
      var idsInBatches := SplitIntoBatches(ids);
      following, done := at, 0;
      MinusNothing(Now(), nsg);
      for i := 0 to |idsInBatches|
        invariant done == |Concat(idsInBatches[..i])| <= |ids|
        invariant ids[..done] == Concat(idsInBatches[..i])
        invariant nsg in groups && Now() == Minus(old(Now()), nsg, ids[..done])
      {
        var failing := fails(following);
        if failing && !applied {
          return false, following, done;
        }
        ConcatStep(idsInBatches, i);
        ConcatPrefix(idsInBatches, i + 1);
        var batch := idsInBatches[i];
        MinusMinus(old(Now()), nsg, ids[..done], batch);
        groups := groups[nsg := groups[nsg] - ToNatSet(batch)];
        done := done + |batch|;
        if failing {
          return false, following, done;
        }
        following := following + 1;
      }
      assert idsInBatches[..|idsInBatches|] == idsInBatches;
      ok := true;
    }

    /** getNsg: an empty or unknown id is an error. */
    method GetNsg(nsg: string, at: nat) returns (ok: bool, following: nat)
      ensures ok ==> Exists(nsg)
      ensures NoneFails() && Exists(nsg) ==> ok
    {
      if nsg == "" {
        return false, at;
      }
      return !fails(at) && nsg in groups, at + 1;
    }

    /** List one direction and compare the service's rules with the generated ones. */
    method Diff(fold: string -> string, nsg: string, uid: string, dir: Direction, generated: seq<NsgRule>, at: nat)
      returns (ok: bool, following: nat, adds: seq<NsgRule>, removes: seq<nat>)
      requires nsg in groups && forall r | r in generated :: Owned(r, uid, {dir})
      ensures ok ==> Plan(fold, groups[nsg], Target(uid, {dir}, Keys(fold, generated)), adds, removes)
      ensures NoneFails() ==> ok
    {
      if fails(at) {
        return false, at + 1, [], [];
      }
      ok, following := true, at + 1;
      var listed := ListNsgRules(nsg, dir);
      var mine := FilterSecurityRulesForService(listed, uid);
      adds, removes := ReconcileSecurityRules(fold, generated, mine);
      PlanOne(fold, groups[nsg], uid, dir, generated, listed, mine, adds, removes);
    }

    /** Add, then remove. */
    method ApplyPlan(fold: string -> string, nsg: string, adds: seq<NsgRule>, removes: seq<nat>, at: nat,
                     ghost t: Target)
      returns (ok: bool, following: nat)
      requires Now().Valid() && nsg in groups && Plan(fold, groups[nsg], t, adds, removes)
      modifies this
      ensures Interrupted(fold, old(Now()), Now(), Write(nsg, t))
      ensures ok ==> Written(fold, old(Now()), Now(), Write(nsg, t))
      ensures NoneFails() ==> ok
    {
      ok, following := true, at;
      ghost var w := Now();
      PlusNothing(w, nsg);
      if |adds| > 0 {
        var done;
        ok, following, done := AddRules(nsg, adds, following);
        if !ok {
          PlusInterrupts(fold, w, nsg, t, adds, removes, done);
          return;
        }
        assert adds[..done] == adds;
      }
      assert Now() == Plus(w, nsg, adds);
      MinusNothing(Now(), nsg);
      if |removes| > 0 {
        var done;
        ok, following, done := RemoveRules(nsg, removes, following);
        MinusInterrupts(fold, w, nsg, t, adds, removes, done);
      } else {
        MinusInterrupts(fold, w, nsg, t, adds, removes, 0);
      }
    }

    /** The frontend group: both directions are compared first, then changed together. */
    method ReconcileFrontend(fold: string -> string, c: NsgComponents, at: nat) returns (ok: bool, following: nat)
      requires Now().Valid()
      modifies this
      ensures Interrupted(fold, old(Now()), Now(), FrontendWrite(fold, c))
      ensures ok ==> Written(fold, old(Now()), Now(), FrontendWrite(fold, c))
      ensures ok ==> old(Exists(c.frontendNsgOcid))
      ensures NoneFails() && old(Exists(c.frontendNsgOcid)) ==> ok
    {
      var nsg, uid := c.frontendNsgOcid, c.serviceUid;
      ok, following := GetNsg(nsg, at);
      if !ok { return; }
      var ingress := GenerateNsgLoadBalancerIngressRules(c.sourceCIDRs, c.ports(0), uid);
      MadeKeysAre(fold, Ingress, uid, CidrBlock, ToSet(c.sourceCIDRs), ListenerPorts(c.ports(0)), ingress);
      var adds1, removes1;
      ok, following, adds1, removes1 := Diff(fold, nsg, uid, Ingress, ingress, following);
      if !ok { return; }
      var egress := GenerateNsgLoadBalancerEgressRules(c.ports(1), c.backendNsgOcids, uid);
      MadeKeysAre(fold, Egress, uid, SecurityGroup, ToSet(c.backendNsgOcids), BackendTargets(c.ports(1)), egress);
      var adds2, removes2;
      ok, following, adds2, removes2 := Diff(fold, nsg, uid, Egress, egress, following);
      if !ok { return; }
      PlanBoth(fold, groups[nsg], uid, Keys(fold, ingress), Keys(fold, egress), adds1, removes1, adds2, removes2);
      ok, following := ApplyPlan(fold, nsg, adds1 + adds2, removes1 + removes2, following,
                                 FrontendWrite(fold, c).target);
    }

    /** One backend group: ingress only. */
    method ReconcileBackend(fold: string -> string, c: NsgComponents, i: nat, at: nat)
        returns (ok: bool, following: nat)
      requires Now().Valid() && i < |c.backendNsgOcids|
      modifies this
      ensures Interrupted(fold, old(Now()), Now(), BackendWrite(fold, c, i))
      ensures ok ==> Written(fold, old(Now()), Now(), BackendWrite(fold, c, i))
      ensures ok ==> old(Exists(c.backendNsgOcids[i]))
      ensures NoneFails() && old(Exists(c.backendNsgOcids[i])) ==> ok
    {
      var nsg := c.backendNsgOcids[i];
      ok, following := GetNsg(nsg, at);
      if !ok { return; }
      var ingress := GenerateNsgBackendIngressRules(c.ports(2 + i), c.sourceCIDRs, c.isPreserveSource,
                                                    c.frontendNsgOcid, c.serviceUid);
      BackendKeysAre(fold, c, i, ingress);
      var adds, removes;
      ok, following, adds, removes := Diff(fold, nsg, c.serviceUid, Ingress, ingress, following);
      if !ok { return; }
      ok, following := ApplyPlan(fold, nsg, adds, removes, following, BackendWrite(fold, c, i).target);
    }

    /** The backend groups one after the other. `trace`: the world after each finished write. */
    method ReconcileBackends(fold: string -> string, c: NsgComponents, at: nat)
        returns (ok: bool, ghost trace: seq<World>)
      requires Now().Valid()
      modifies this
      ensures Tracked(fold, old(Now()), Now(), ok, trace, BackendWrites(fold, c))
      ensures ok ==> forall b | b in c.backendNsgOcids :: old(Exists(b))
      ensures NoneFails() && (forall b | b in c.backendNsgOcids :: old(Exists(b))) ==> ok
    {
      ghost var writes := BackendWrites(fold, c);
      trace := [Now()];
      var following := at;
      for i := 0 to |c.backendNsgOcids|
        invariant Now().Valid() && |trace| == i + 1 && trace[0] == old(Now()) && trace[i] == Now()
        invariant Chain(fold, trace, writes[..i])
        invariant groups.Keys == old(groups.Keys) && forall j | 0 <= j < i :: old(Exists(c.backendNsgOcids[j]))
      {
        assert c.backendNsgOcids[i] in c.backendNsgOcids;
        ok, following := ReconcileBackend(fold, c, i, following);
        if !ok { return; }
        ChainSnoc(fold, trace, writes, Now());
        trace := trace + [Now()];
      }
      assert writes[..|c.backendNsgOcids|] == writes;
      ok := true;
    }

    /** reconcileSecurityGroup: the frontend group, then the backend groups. */
    method ReconcileSecurityGroup(fold: string -> string, c: NsgComponents, at: nat)
        returns (ok: bool, ghost trace: seq<World>)
      requires Now().Valid()
      modifies this
      ensures Tracked(fold, old(Now()), Now(), ok, trace, ReconcileWrites(fold, c))
      ensures ok ==> old(Exists(c.frontendNsgOcid)) && forall b | b in c.backendNsgOcids :: old(Exists(b))
      ensures (&& NoneFails() && old(Exists(c.frontendNsgOcid))
               && forall b | b in c.backendNsgOcids :: old(Exists(b))) ==> ok
    {
      ghost var v := Now();
      trace := [v];
      var following;
      ok, following := ReconcileFrontend(fold, c, at);
      if !ok {
        InterruptedFirst(fold, v, Now(), FrontendWrite(fold, c), BackendWrites(fold, c));
        return;
      }
      ghost var w := Now();
      ok, trace := ReconcileBackends(fold, c, following);
      TrackedCons(fold, v, w, Now(), ok, trace, FrontendWrite(fold, c), BackendWrites(fold, c));
      trace := [v] + trace;
    }

    /** One backend group of a removal: every ingress rule of the service. */
    method RemoveFromBackend(fold: string -> string, c: NsgComponents, i: nat, at: nat)
        returns (ok: bool, following: nat)
      requires Now().Valid() && i < |c.backendNsgOcids|
      modifies this
      ensures Interrupted(fold, old(Now()), Now(), RemovalWrites(c)[i])
      ensures ok ==> Written(fold, old(Now()), Now(), RemovalWrites(c)[i])
      ensures ok ==> old(Exists(c.backendNsgOcids[i]))
      ensures NoneFails() && old(Exists(c.backendNsgOcids[i])) ==> ok
    {
      var nsg := c.backendNsgOcids[i];
      ok, following := GetNsg(nsg, at);
      if !ok { return; }
      if fails(following) {
        return false, following + 1;
      }
      var listed := ListNsgRules(nsg, Ingress);
      var removes := FilterSecurityRulesIdsForService(listed, c.serviceUid);
      PlanRemoveAll(fold, groups[nsg], c.serviceUid, listed, removes);
      ok, following := ApplyPlan(fold, nsg, [], removes, following + 1, Target(c.serviceUid, {Ingress}, {}));
    }

    /** removeBackendSecurityGroupRules. */
    method RemoveBackendSecurityGroupRules(fold: string -> string, c: NsgComponents, at: nat)
        returns (ok: bool, ghost trace: seq<World>)
      requires Now().Valid()
      modifies this
      ensures Tracked(fold, old(Now()), Now(), ok, trace, RemovalWrites(c))
      ensures ok ==> forall b | b in c.backendNsgOcids :: old(Exists(b))
      ensures NoneFails() && (forall b | b in c.backendNsgOcids :: old(Exists(b))) ==> ok
    {
      ghost var writes := RemovalWrites(c);
      trace := [Now()];
      var following := at;
      for i := 0 to |c.backendNsgOcids|
        invariant Now().Valid() && |trace| == i + 1 && trace[0] == old(Now()) && trace[i] == Now()
        invariant Chain(fold, trace, writes[..i])
        invariant groups.Keys == old(groups.Keys) && forall j | 0 <= j < i :: old(Exists(c.backendNsgOcids[j]))
      {
        assert c.backendNsgOcids[i] in c.backendNsgOcids;
        ok, following := RemoveFromBackend(fold, c, i, following);
        if !ok { return; }
        ChainSnoc(fold, trace, writes, Now());
        trace := trace + [Now()];
      }
      assert writes[..|c.backendNsgOcids|] == writes;
      ok := true;
    }
  }

  /** What a call leaves behind: finished writes and, on failure, one interrupted write. */
  ghost predicate Tracked(fold: string -> string, v: World, w: World, ok: bool, trace: seq<World>, writes: seq<Write>) {
    && w.Valid() && trace != [] && trace[0] == v
    && (ok ==> Chain(fold, trace, writes) && trace[|trace| - 1] == w)
    && (!ok ==> |trace| <= |writes| && Chain(fold, trace, writes[..|trace| - 1]) &&
                Interrupted(fold, trace[|trace| - 1], w, writes[|trace| - 1]))
  }

  lemma InterruptedFirst(fold: string -> string, v: World, w: World, x: Write, writes: seq<Write>)
    requires Interrupted(fold, v, w, x)
    ensures Tracked(fold, v, w, false, [v], [x] + writes)
  {
    assert ([x] + writes)[..0] == [];
  }

  /** A finished write before a tracked sequence of writes. */
  lemma TrackedCons(fold: string -> string, v: World, w: World, end: World, ok: bool, trace: seq<World>, x: Write,
                    writes: seq<Write>)
    requires Written(fold, v, w, x) && Tracked(fold, w, end, ok, trace, writes)
    ensures Tracked(fold, v, end, ok, [v] + trace, [x] + writes)
  {
    var n := |trace|;
    var done := if ok then writes else writes[..n - 1];
    ChainCons(fold, v, w, trace, x, done);
    if !ok {
      assert ([x] + writes)[..n] == [x] + done;
      assert ([v] + trace)[n] == trace[n - 1] && ([x] + writes)[n] == writes[n - 1];
    }
  }

  lemma ChainCons(fold: string -> string, v: World, w: World, trace: seq<World>, x: Write, writes: seq<Write>)
    requires Written(fold, v, w, x) && Chain(fold, trace, writes) && trace[0] == w
    ensures Chain(fold, [v] + trace, [x] + writes)
  {
    forall i | 0 <= i < |writes| + 1 ensures Written(fold, ([v] + trace)[i], ([v] + trace)[i + 1], ([x] + writes)[i]) {
      if i > 0 {
        assert ([v] + trace)[i] == trace[i - 1] && ([v] + trace)[i + 1] == trace[i];
        assert ([x] + writes)[i] == writes[i - 1];
      }
    }
  }

  lemma ChainSnoc(fold: string -> string, trace: seq<World>, writes: seq<Write>, w: World)
    requires 0 < |trace| <= |writes| && Chain(fold, trace, writes[..|trace| - 1])
    requires Written(fold, trace[|trace| - 1], w, writes[|trace| - 1])
    ensures Chain(fold, trace + [w], writes[..|trace|])
  {
    var longer, n := trace + [w], |trace|;
    forall i | 0 <= i < n ensures Written(fold, longer[i], longer[i + 1], writes[..n][i]) {
      if i < n - 1 { assert writes[..n - 1][i] == writes[i]; }
    }
  }

  lemma BackendKeysAre(fold: string -> string, c: NsgComponents, i: nat, rules: seq<NsgRule>)
    requires forall r :: r in rules <==>
                         IsBackendIngress(r, c.ports(2 + i), c.sourceCIDRs, c.isPreserveSource, c.frontendNsgOcid,
                                          c.serviceUid)
    ensures Keys(fold, rules) == BackendKeys(fold, c, i)
    ensures forall r | r in rules :: Owned(r, c.serviceUid, {Ingress})
  {
    var uid, sources, bp, targets := c.serviceUid, ToSet(c.sourceCIDRs), BackendPorts(c.ports(2 + i)),
        BackendTargets(c.ports(2 + i));
    forall e, p | c.isPreserveSource && e in sources && p in bp
        ensures MakeNsgRule(Ingress, e, uid, p, CidrBlock) in rules {
      assert IsMade(MakeNsgRule(Ingress, e, uid, p, CidrBlock), Ingress, uid, CidrBlock, sources, bp);
    }
    forall p | p in targets ensures MakeNsgRule(Ingress, c.frontendNsgOcid, uid, p, SecurityGroup) in rules {
      assert IsMade(MakeNsgRule(Ingress, c.frontendNsgOcid, uid, p, SecurityGroup), Ingress, uid, SecurityGroup,
                    {c.frontendNsgOcid}, targets);
    }
  }

  lemma PlusInterrupts(fold: string -> string, w: World, nsg: string, t: Target, adds: seq<NsgRule>, removes: seq<nat>,
                       k: nat)
    requires w.Valid() && nsg in w.groups && Plan(fold, w.groups[nsg], t, adds, removes) && k <= |adds|
    ensures Interrupted(fold, w, Plus(w, nsg, adds[..k]), Write(nsg, t))
  {
    AddsProgress(fold, w.groups[nsg], w.next, t, adds, removes, k);
  }

  lemma MinusInterrupts(fold: string -> string, w: World, nsg: string, t: Target, adds: seq<NsgRule>,
                        removes: seq<nat>, k: nat)
    requires w.Valid() && nsg in w.groups && Plan(fold, w.groups[nsg], t, adds, removes) && k <= |removes|
    ensures Interrupted(fold, w, Minus(Plus(w, nsg, adds), nsg, removes[..k]), Write(nsg, t))
    ensures k == |removes| ==> Written(fold, w, Minus(Plus(w, nsg, adds), nsg, removes[..k]), Write(nsg, t))
  {
    var h := Minus(Plus(w, nsg, adds), nsg, removes[..k]);
    AddsProgress(fold, w.groups[nsg], w.next, t, adds, removes, |adds|);
    assert adds[..|adds|] == adds;
    RemovesProgress(fold, w.groups[nsg], w.next, t, adds, removes, k);
    assert h.groups == w.groups[nsg := h.groups[nsg]];
  }

  // ---------- Worlds after additions and removals ----------

  ghost function Plus(w: World, nsg: string, rules: seq<NsgRule>): World
    requires nsg in w.groups
  {
    World(w.groups[nsg := Grow(w.groups[nsg], w.next, rules)], w.next + |rules|)
  }

  ghost function Minus(w: World, nsg: string, ids: seq<nat>): World
    requires nsg in w.groups
  {
    World(w.groups[nsg := w.groups[nsg] - ToNatSet(ids)], w.next)
  }

  lemma PlusNothing(w: World, nsg: string)
    requires nsg in w.groups
    ensures Plus(w, nsg, []) == w
  {
    assert w.groups[nsg := w.groups[nsg]] == w.groups;
  }

  lemma PlusPlus(w: World, nsg: string, a: seq<NsgRule>, b: seq<NsgRule>)
    requires nsg in w.groups
    ensures Plus(Plus(w, nsg, a), nsg, b) == Plus(w, nsg, a + b)
  {
    GrowGrow(w.groups[nsg], w.next, a, b);
    assert Plus(Plus(w, nsg, a), nsg, b).groups == Plus(w, nsg, a + b).groups;
  }

  lemma MinusNothing(w: World, nsg: string)
    requires nsg in w.groups
    ensures Minus(w, nsg, []) == w
  {
    assert w.groups[nsg] - ToNatSet([]) == w.groups[nsg];
    assert w.groups[nsg := w.groups[nsg]] == w.groups;
  }

  lemma MinusMinus(w: World, nsg: string, a: seq<nat>, b: seq<nat>)
    requires nsg in w.groups
    ensures Minus(Minus(w, nsg, a), nsg, b) == Minus(w, nsg, a + b)
  {
    assert w.groups[nsg] - ToNatSet(a) - ToNatSet(b) == w.groups[nsg] - ToNatSet(a + b);
    assert Minus(Minus(w, nsg, a), nsg, b).groups == Minus(w, nsg, a + b).groups;
  }

  lemma {:induction false} ConcatPrefix<T>(batches: seq<seq<T>>, i: nat)
    requires i <= |batches|
    ensures |Concat(batches[..i])| <= |Concat(batches)| &&
            Concat(batches)[..|Concat(batches[..i])|] == Concat(batches[..i])
    decreases |batches| - i
  {
    if i == |batches| {
      assert batches[..i] == batches;
    } else {
      ConcatPrefix(batches, i + 1);
      ConcatStep(batches, i);
      var a, b := Concat(batches[..i]), Concat(batches[..i + 1]);
      assert b[..|a|] == a;
      assert Concat(batches)[..|b|][..|a|] == Concat(batches)[..|a|];
    }
  }
}
