/**
 What the network security groups let through after a successful call, in terms of the sources, the
 groups and the port map of the service.
 */
module NsgTraffic {
  import opened Common
  import opened SecurityRules
  import opened SecurityListCalculators
  import opened NsgRules
  import opened NsgReconcile
  import opened NsgCloud
  import opened NsgRuns

  /** Some rule of the service in the group lets the traffic through. */
  ghost predicate GroupOpens(fold: string -> string, g: Group, uid: string,
                             dir: Direction, t: EndpointType, e: string, q: int) {
    exists id :: id in g && g[id].description == Some(uid) && Lets(fold, g[id], dir, t, e, q)
  }

  /** One of the names, up to case. */
  ghost predicate Named(fold: string -> string, names: seq<string>, e: string) {
    exists n :: n in names && fold(n) == fold(e)
  }

  /** What a call is to open in a group for its service. */
  ghost predicate CallOpens(fold: string -> string, call: NsgCall, nsg: string,
                            dir: Direction, t: EndpointType, e: string, q: int) {
    var c := call.c;
    && call.Reconcile?
    && (if nsg == c.frontendNsgOcid then
          if dir == Ingress then t == CidrBlock && Named(fold, c.sourceCIDRs, e) && IsListener(c.ports(0), q)
          else t == SecurityGroup && Named(fold, c.backendNsgOcids, e) && IsTarget(c.ports(1), q)
        else
          && nsg in c.backendNsgOcids && dir == Ingress
          && var ports := c.ports(2 + LastPlace(c.backendNsgOcids, nsg));
             || (c.isPreserveSource && t == CidrBlock && Named(fold, c.sourceCIDRs, e) && IsBackend(ports, q))
             || (t == SecurityGroup && fold(c.frontendNsgOcid) == fold(e) && IsTarget(ports, q)))
  }

  // ---------- Keys ----------

  predicate KeyLets(fold: string -> string, k: Key, dir: Direction, t: EndpointType, e: string, q: int) {
    && k.direction == dir && k.protocol == fold("6")
    && (if dir == Ingress then k.source == fold(e) && k.sourceType == t
        else k.destination == fold(e) && k.destinationType == t)
    && k.tcp.Some? && k.tcp.value.source.None? && k.tcp.value.destination.Some?
    && k.tcp.value.destination.value.min <= q <= k.tcp.value.destination.value.max
  }

  ghost predicate KeysLet(fold: string -> string, keys: set<Key>, dir: Direction, t: EndpointType, e: string, q: int) {
    exists k :: k in keys && KeyLets(fold, k, dir, t, e, q)
  }

  lemma SliceLets(fold: string -> string, g: Group, uid: string, dir: Direction, t: EndpointType, e: string, q: int)
    ensures GroupOpens(fold, g, uid, dir, t, e, q) <==> KeysLet(fold, Slice(fold, g, uid, {dir}), dir, t, e, q)
  {
    if id :| id in g && g[id].description == Some(uid) && Lets(fold, g[id], dir, t, e, q) {
      assert KeyOf(fold, g[id]) in Slice(fold, g, uid, {dir}) && KeyLets(fold, KeyOf(fold, g[id]), dir, t, e, q);
    }
    if k :| k in Slice(fold, g, uid, {dir}) && KeyLets(fold, k, dir, t, e, q) {
      var id := Holder(fold, g, uid, {dir}, k);
      assert Lets(fold, g[id], dir, t, e, q);
    }
  }

  lemma MadeKeysLet(fold: string -> string, direction: Direction, uid: string, kind: EndpointType,
                    endpoints: set<string>, ports: set<int>, dir: Direction, t: EndpointType, e: string, q: int)
    ensures KeysLet(fold, MadeKeys(fold, direction, uid, kind, endpoints, ports), dir, t, e, q) <==>
            dir == direction && t == kind && q in ports && exists n :: n in endpoints && fold(n) == fold(e)
  {
    var keys := MadeKeys(fold, direction, uid, kind, endpoints, ports);
    if dir == direction && t == kind && q in ports {
      if n :| n in endpoints && fold(n) == fold(e) {
        MadeKeyLets(fold, direction, n, uid, q, kind, dir, t, e, q);
        assert KeyOf(fold, MakeNsgRule(direction, n, uid, q, kind)) in keys;
      }
    }
    if k :| k in keys && KeyLets(fold, k, dir, t, e, q) {
      LetByMade(fold, direction, uid, kind, endpoints, ports, dir, t, e, q, k);
    }
  }

  lemma LetByMade(fold: string -> string, direction: Direction, uid: string, kind: EndpointType,
                  endpoints: set<string>, ports: set<int>, dir: Direction, t: EndpointType, e: string, q: int, k: Key)
    requires k in MadeKeys(fold, direction, uid, kind, endpoints, ports) && KeyLets(fold, k, dir, t, e, q)
    ensures dir == direction && t == kind && q in ports && exists n :: n in endpoints && fold(n) == fold(e)
  {
    var n, p :| n in endpoints && p in ports && k == KeyOf(fold, MakeNsgRule(direction, n, uid, p, kind));
    MadeKeyLets(fold, direction, n, uid, p, kind, dir, t, e, q);
  }

  lemma MadeKeyLets(fold: string -> string, direction: Direction, n: string, uid: string, p: int, kind: EndpointType,
                    dir: Direction, t: EndpointType, e: string, q: int)
    ensures KeyLets(fold, KeyOf(fold, MakeNsgRule(direction, n, uid, p, kind)), dir, t, e, q) <==>
            dir == direction && t == kind && q == p && fold(n) == fold(e)
  {}

  lemma KeysLetUnion(fold: string -> string, a: set<Key>, b: set<Key>, dir: Direction, t: EndpointType, e: string,
                     q: int)
    ensures KeysLet(fold, a + b, dir, t, e, q) <==> KeysLet(fold, a, dir, t, e, q) || KeysLet(fold, b, dir, t, e, q)
  {
    if k :| k in a && KeyLets(fold, k, dir, t, e, q) { assert k in a + b; }
    if k :| k in b && KeyLets(fold, k, dir, t, e, q) { assert k in a + b; }
  }

  // ---------- What a call leaves ----------

  lemma FrontendKeysLet(fold: string -> string, c: NsgComponents, dir: Direction, t: EndpointType, e: string, q: int)
    ensures KeysLet(fold, if dir == Ingress then LbIngressKeys(fold, c) else LbEgressKeys(fold, c), dir, t, e, q) <==>
            CallOpens(fold, Reconcile(c), c.frontendNsgOcid, dir, t, e, q)
  {
    if dir == Ingress {
      TargetsMean(c.ports(0), q);
      MadeKeysLet(fold, Ingress, c.serviceUid, CidrBlock, ToSet(c.sourceCIDRs), ListenerPorts(c.ports(0)), dir, t,
                  e, q);
    } else {
      TargetsMean(c.ports(1), q);
      MadeKeysLet(fold, Egress, c.serviceUid, SecurityGroup, ToSet(c.backendNsgOcids), BackendTargets(c.ports(1)),
                  dir, t, e, q);
    }
  }

  lemma BackendKeysLet(fold: string -> string, c: NsgComponents, i: nat, t: EndpointType, e: string, q: int)
    ensures var ports := c.ports(2 + i);
            KeysLet(fold, BackendKeys(fold, c, i), Ingress, t, e, q) <==>
            || (c.isPreserveSource && t == CidrBlock && Named(fold, c.sourceCIDRs, e) && IsBackend(ports, q))
            || (t == SecurityGroup && fold(c.frontendNsgOcid) == fold(e) && IsTarget(ports, q))
  {
    var ports, uid := c.ports(2 + i), c.serviceUid;
    var front := MadeKeys(fold, Ingress, uid, SecurityGroup, {c.frontendNsgOcid}, BackendTargets(ports));
    var sources := if c.isPreserveSource
                   then MadeKeys(fold, Ingress, uid, CidrBlock, ToSet(c.sourceCIDRs), BackendPorts(ports)) else {};
    TargetsMean(ports, q);
    KeysLetUnion(fold, sources, front, Ingress, t, e, q);
    MadeKeysLet(fold, Ingress, uid, SecurityGroup, {c.frontendNsgOcid}, BackendTargets(ports), Ingress, t, e, q);
    MadeKeysLet(fold, Ingress, uid, CidrBlock, ToSet(c.sourceCIDRs), BackendPorts(ports), Ingress, t, e, q);
  }

  lemma LeavesLet(fold: string -> string, call: NsgCall, nsg: string, dir: Direction, t: EndpointType, e: string,
                  q: int)
    requires Separate(call) && Leaves(fold, call, nsg, call.c.serviceUid, dir).Some?
    ensures KeysLet(fold, Leaves(fold, call, nsg, call.c.serviceUid, dir).value, dir, t, e, q) <==>
            CallOpens(fold, call, nsg, dir, t, e, q)
  {
    if call.Reconcile? && nsg == call.c.frontendNsgOcid {
      FrontendKeysLet(fold, call.c, dir, t, e, q);
    } else if call.Reconcile? {
      BackendKeysLet(fold, call.c, LastPlace(call.c.backendNsgOcids, nsg), t, e, q);
    }
  }

  /** The call is to say what the service's rules of this direction in the group are. */
  predicate Concerns(call: NsgCall, nsg: string, uid: string, dir: Direction) {
    && call.c.serviceUid == uid
    && ((call.Reconcile? && nsg == call.c.frontendNsgOcid) || (nsg in call.c.backendNsgOcids && dir == Ingress))
  }

  lemma {:induction false} LastTouchAt(fold: string -> string, attempts: seq<Attempt>, k: nat, nsg: string, uid: string,
                                       dir: Direction)
    requires k <= |attempts| && forall i | k <= i < |attempts| :: !Concerns(attempts[i].call, nsg, uid, dir)
    requires k > 0 ==> Concerns(attempts[k - 1].call, nsg, uid, dir)
    ensures LastTouch(fold, attempts, nsg, uid, dir) == if k == 0 then None else Some(attempts[k - 1])
  {
    var n := |attempts| - 1;
    if k <= n {
      LastTouchAt(fold, attempts[..n], k, nsg, uid, dir);
    }
  }

  /** Over every run of calls, failing anywhere: where the last call that concerns the service's rules
      of a direction in a group has succeeded, these rules let through exactly what that call is to
      open: from the sources to the listener ports, to the backend groups on the target ports, and
      from the frontend group and preserved sources to the backends. After a removal it is nothing,
      and without such a call it is what it was before the run. */
  lemma RunOpens(fold: string -> string, worlds: seq<World>, attempts: seq<Attempt>, k: nat, nsg: string, uid: string,
                 dir: Direction, t: EndpointType, e: string, q: int)
    requires IsRun(fold, worlds, attempts) && nsg in worlds[0].groups
    requires k <= |attempts| && forall i | k <= i < |attempts| :: !Concerns(attempts[i].call, nsg, uid, dir)
    requires k > 0 ==> Concerns(attempts[k - 1].call, nsg, uid, dir)
    ensures nsg in worlds[|attempts|].groups
    ensures k > 0 && attempts[k - 1].ok ==>
              (GroupOpens(fold, worlds[|attempts|].groups[nsg], uid, dir, t, e, q) <==>
               CallOpens(fold, attempts[k - 1].call, nsg, dir, t, e, q))
    ensures k == 0 ==> (GroupOpens(fold, worlds[|attempts|].groups[nsg], uid, dir, t, e, q) <==>
                        GroupOpens(fold, worlds[0].groups[nsg], uid, dir, t, e, q))
  {
    LastTouchAt(fold, attempts, k, nsg, uid, dir);
    RunLeaves(fold, worlds, attempts, nsg, uid, dir);
    SliceLets(fold, worlds[|attempts|].groups[nsg], uid, dir, t, e, q);
    SliceLets(fold, worlds[0].groups[nsg], uid, dir, t, e, q);
    if k > 0 {
      LeavesLet(fold, attempts[k - 1].call, nsg, dir, t, e, q);
    }
  }
}
