/**
 Runs of calls by many services, failing anywhere: each slice of group, service and direction holds
 what the last call that touches it generated once that call has succeeded, and every rule that
 nobody claims keeps its id and content.
 */
module NsgRuns {
  import opened Common
  import opened SecurityListCalculators
  import opened NsgRules
  import opened NsgReconcile
  import opened NsgCloud

  function Along(want: set<Key>, dir: Direction): set<Key> {
    set k | k in want && k.direction == dir
  }

  predicate Touches(x: Write, nsg: string, uid: string, dir: Direction) {
    x.nsg == nsg && x.target.uid == uid && dir in x.target.dirs
  }

  /** What the last write of a slice asked for; None if no write touches it. */
  function Last(writes: seq<Write>, nsg: string, uid: string, dir: Direction): Option<set<Key>> {
    if writes == [] then None
    else
      var x := writes[|writes| - 1];
      if Touches(x, nsg, uid, dir) then Some(Along(x.target.want, dir)) else Last(writes[..|writes| - 1], nsg, uid, dir)
  }

  lemma SliceAlong(fold: string -> string, g: Group, uid: string, dirs: set<Direction>, dir: Direction)
    requires dir in dirs
    ensures Slice(fold, g, uid, {dir}) == Along(Slice(fold, g, uid, dirs), dir)
  {
    forall k | k in Slice(fold, g, uid, {dir}) ensures k in Along(Slice(fold, g, uid, dirs), dir) {
      var id := Holder(fold, g, uid, {dir}, k);
    }
    forall k | k in Along(Slice(fold, g, uid, dirs), dir) ensures k in Slice(fold, g, uid, {dir}) {
      var id := Holder(fold, g, uid, dirs, k);
    }
  }

  /** A finished write fixes its slices and leaves all others alone. */
  lemma WriteSlice(fold: string -> string, v: World, w: World, x: Write, nsg: string, uid: string, dir: Direction)
    requires Written(fold, v, w, x) && nsg in v.groups
    ensures nsg in w.groups
    ensures Slice(fold, w.groups[nsg], uid, {dir}) ==
            if Touches(x, nsg, uid, dir) then Along(x.target.want, dir) else Slice(fold, v.groups[nsg], uid, {dir})
  {
    if Touches(x, nsg, uid, dir) {
      SliceAlong(fold, w.groups[nsg], uid, x.target.dirs, dir);
    } else if nsg == x.nsg {
      UntouchedSlice(fold, v.groups[nsg], w.groups[nsg], v.next, x.target, uid, dir);
    }
  }

  lemma UntouchedSlice(fold: string -> string, g: Group, h: Group, next: nat, t: Target, uid: string, dir: Direction)
    requires Progress(fold, g, h, next, t) && !(t.uid == uid && dir in t.dirs)
    ensures Slice(fold, h, uid, {dir}) == Slice(fold, g, uid, {dir})
  {
    forall k | k in Slice(fold, g, uid, {dir}) ensures k in Slice(fold, h, uid, {dir}) {
      var id := Holder(fold, g, uid, {dir}, k);
      assert id in h && h[id] == g[id];
    }
    forall k | k in Slice(fold, h, uid, {dir}) ensures k in Slice(fold, g, uid, {dir}) {
      var id := Holder(fold, h, uid, {dir}, k);
      assert id in g && h[id] == g[id];
    }
  }

  lemma {:induction false} RunSlices(fold: string -> string, trace: seq<World>, writes: seq<Write>, nsg: string,
                                     uid: string, dir: Direction)
    requires Chain(fold, trace, writes) && nsg in trace[0].groups
    ensures nsg in trace[|writes|].groups
    ensures Slice(fold, trace[|writes|].groups[nsg], uid, {dir}) ==
            match Last(writes, nsg, uid, dir)
            case Some(keys) => keys
            case None => Slice(fold, trace[0].groups[nsg], uid, {dir})
  {
    if writes != [] {
      var n := |writes| - 1;
      ChainPrefix(fold, trace, writes);
      RunSlices(fold, trace[..n + 1], writes[..n], nsg, uid, dir);
      WriteSlice(fold, trace[n], trace[n + 1], writes[n], nsg, uid, dir);
    }
  }

  lemma ChainPrefix(fold: string -> string, trace: seq<World>, writes: seq<Write>)
    requires Chain(fold, trace, writes) && writes != []
    ensures Chain(fold, trace[..|writes|], writes[..|writes| - 1])
    ensures Written(fold, trace[|writes| - 1], trace[|writes|], writes[|writes| - 1])
  {}

  /** A rule that no write claims keeps its id and content, whoever else is reconciled. */
  lemma {:induction false} RunKeepsForeign(fold: string -> string, trace: seq<World>, writes: seq<Write>, nsg: string,
                                           id: nat)
    requires Chain(fold, trace, writes) && nsg in trace[0].groups && id in trace[0].groups[nsg]
    requires forall i | 0 <= i < |writes| && writes[i].nsg == nsg ::
               !Owned(trace[0].groups[nsg][id], writes[i].target.uid, writes[i].target.dirs)
    ensures nsg in trace[|writes|].groups && id in trace[|writes|].groups[nsg]
    ensures trace[|writes|].groups[nsg][id] == trace[0].groups[nsg][id]
  {
    if writes != [] {
      var n := |writes| - 1;
      ChainPrefix(fold, trace, writes);
      RunKeepsForeign(fold, trace[..n + 1], writes[..n], nsg, id);
      assert writes[n].nsg == nsg ==> !Owned(trace[0].groups[nsg][id], writes[n].target.uid, writes[n].target.dirs);
    }
  }

  /** And conversely: a rule that no write claims was there before, as it is. */
  lemma {:induction false} ForeignWasThere(fold: string -> string, trace: seq<World>, writes: seq<Write>, nsg: string,
                                           id: nat)
    requires Chain(fold, trace, writes) && nsg in trace[0].groups
    requires nsg in trace[|writes|].groups && id in trace[|writes|].groups[nsg]
    requires forall i | 0 <= i < |writes| && writes[i].nsg == nsg ::
               !Owned(trace[|writes|].groups[nsg][id], writes[i].target.uid, writes[i].target.dirs)
    ensures id in trace[0].groups[nsg] && trace[0].groups[nsg][id] == trace[|writes|].groups[nsg][id]
  {
    if writes != [] {
      var n := |writes| - 1;
      ChainPrefix(fold, trace, writes);
      assert writes[n].nsg == nsg ==> !Owned(trace[n + 1].groups[nsg][id], writes[n].target.uid, writes[n].target.dirs);
      assert nsg in trace[n].groups && id in trace[n].groups[nsg] &&
          trace[n].groups[nsg][id] == trace[n + 1].groups[nsg][id];
      ForeignWasThere(fold, trace[..n + 1], writes[..n], nsg, id);
    }
  }

  lemma {:induction false} LastConcat(a: seq<Write>, b: seq<Write>, nsg: string, uid: string, dir: Direction)
    ensures Last(a + b, nsg, uid, dir) == if Last(b, nsg, uid, dir).Some? then Last(b, nsg, uid, dir)
            else Last(a, nsg, uid, dir)
  {
    if b == [] {
      assert a + b == a;
    } else {
      LastConcat(a, b[..|b| - 1], nsg, uid, dir);
      assert (a + b)[..|a + b| - 1] == a + b[..|b| - 1];
    }
  }

  /** The last place of a group among the backend groups. */
  function LastPlace(ids: seq<string>, nsg: string): (i: nat)
    requires nsg in ids
    ensures i < |ids| && ids[i] == nsg
  {
    if ids[|ids| - 1] == nsg then |ids| - 1
    else
      assert ids == ids[..|ids| - 1] + [ids[|ids| - 1]];
      LastPlace(ids[..|ids| - 1], nsg)
  }

  /** Ingress writes of one service to a list of groups: the last one to a group decides. */
  lemma {:induction false} LastBackend(writes: seq<Write>, ids: seq<string>, me: string, nsg: string, uid: string,
                                       dir: Direction)
    requires |writes| == |ids|
    requires forall i | 0 <= i < |ids| ::
             writes[i].nsg == ids[i] && writes[i].target.uid == me && writes[i].target.dirs == {Ingress}
    ensures Last(writes, nsg, uid, dir) ==
            if uid == me && dir == Ingress &&
                nsg in ids then Some(Along(writes[LastPlace(ids, nsg)].target.want, Ingress)) else None
  {
    if writes != [] {
      var n := |ids| - 1;
      assert ids == ids[..n] + [ids[n]];
      LastBackend(writes[..n], ids[..n], me, nsg, uid, dir);
    }
  }

  lemma MadeAlong(fold: string -> string, direction: Direction, uid: string, t: EndpointType, endpoints: set<string>,
                  ports: set<int>, dir: Direction)
    ensures Along(MadeKeys(fold, direction, uid, t, endpoints, ports), dir) ==
            if dir == direction then MadeKeys(fold, direction, uid, t, endpoints, ports) else {}
  {}

  lemma FrontAlong(fold: string -> string, c: NsgComponents, dir: Direction)
    ensures Along(FrontendWrite(fold, c).target.want, dir) == if dir == Ingress then LbIngressKeys(fold, c)
            else LbEgressKeys(fold, c)
  {
    var i, e := LbIngressKeys(fold, c), LbEgressKeys(fold, c);
    MadeAlong(fold, Ingress, c.serviceUid, CidrBlock, ToSet(c.sourceCIDRs), ListenerPorts(c.ports(0)), dir);
    MadeAlong(fold, Egress, c.serviceUid, SecurityGroup, ToSet(c.backendNsgOcids), BackendTargets(c.ports(1)), dir);
    assert Along(i + e, dir) == Along(i, dir) + Along(e, dir);
    assert dir == Ingress || dir == Egress;
  }

  lemma BackAlong(fold: string -> string, c: NsgComponents, i: nat)
    ensures Along(BackendKeys(fold, c, i), Ingress) == BackendKeys(fold, c, i)
  {
    var ports := c.ports(2 + i);
    MadeAlong(fold, Ingress, c.serviceUid, CidrBlock, ToSet(c.sourceCIDRs), BackendPorts(ports), Ingress);
    MadeAlong(fold, Ingress, c.serviceUid, SecurityGroup, {c.frontendNsgOcid}, BackendTargets(ports), Ingress);
  }

  // ---------- Calls ----------

  datatype NsgCall = Reconcile(c: NsgComponents) | RemoveBackend(c: NsgComponents)

  function CallWrites(fold: string -> string, call: NsgCall): seq<Write> {
    match call
    case Reconcile(c) => ReconcileWrites(fold, c)
    case RemoveBackend(c) => RemovalWrites(c)
  }

  /** What a finished call leaves in a slice; None when it is none of the call's. */
  function Leaves(fold: string -> string, call: NsgCall, nsg: string, uid: string, dir: Direction): Option<set<Key>> {
    var c := call.c;
    if uid != c.serviceUid then None
    else if call.Reconcile? && nsg == c.frontendNsgOcid then
      Some(if dir == Ingress then LbIngressKeys(fold, c) else LbEgressKeys(fold, c))
    else if nsg in c.backendNsgOcids && dir == Ingress then
      Some(if call.Reconcile? then BackendKeys(fold, c, LastPlace(c.backendNsgOcids, nsg)) else {})
    else None
  }

  /** The frontend group is never among the same call's backend groups. */
  predicate Separate(call: NsgCall) {
    call.Reconcile? ==> call.c.frontendNsgOcid !in call.c.backendNsgOcids
  }

  lemma ReconcileSlices(fold: string -> string, c: NsgComponents, nsg: string, uid: string, dir: Direction)
    requires Separate(Reconcile(c))
    ensures Last(ReconcileWrites(fold, c), nsg, uid, dir) == Leaves(fold, Reconcile(c), nsg, uid, dir)
  {
    var front, back := [FrontendWrite(fold, c)], BackendWrites(fold, c);
    LastConcat(front, back, nsg, uid, dir);
    LastBackend(back, c.backendNsgOcids, c.serviceUid, nsg, uid, dir);
    FrontAlong(fold, c, dir);
    if nsg in c.backendNsgOcids {
      BackAlong(fold, c, LastPlace(c.backendNsgOcids, nsg));
    }
    assert front[..0] == [];
    assert Last(front, nsg, uid, dir) ==
           if Touches(front[0], nsg, uid, dir) then Some(Along(front[0].target.want, dir))
               else Last(front[..0], nsg, uid, dir);
  }

  lemma RemovalSlices(fold: string -> string, c: NsgComponents, nsg: string, uid: string, dir: Direction)
    ensures Last(RemovalWrites(c), nsg, uid, dir) == Leaves(fold, RemoveBackend(c), nsg, uid, dir)
  {
    LastBackend(RemovalWrites(c), c.backendNsgOcids, c.serviceUid, nsg, uid, dir);
    assert Along({}, Ingress) == {};
  }

  lemma CallSlices(fold: string -> string, call: NsgCall, nsg: string, uid: string, dir: Direction)
    requires Separate(call)
    ensures Last(CallWrites(fold, call), nsg, uid, dir) == Leaves(fold, call, nsg, uid, dir)
  {
    if call.Reconcile? {
      ReconcileSlices(fold, call.c, nsg, uid, dir);
    } else {
      RemovalSlices(fold, call.c, nsg, uid, dir);
    }
  }

  // ---------- One attempt at a call ----------

  /** A call was made and returned, successfully or not. */
  datatype Attempt = Attempt(call: NsgCall, ok: bool)

  ghost predicate Made(fold: string -> string, v: World, w: World, a: Attempt) {
    exists trace :: Tracked(fold, v, w, a.ok, trace, CallWrites(fold, a.call))
  }

  lemma {:induction false} NoneTouches(writes: seq<Write>, nsg: string, uid: string, dir: Direction)
    requires Last(writes, nsg, uid, dir).None?
    ensures forall i | 0 <= i < |writes| :: !Touches(writes[i], nsg, uid, dir)
  {
    if writes != [] {
      NoneTouches(writes[..|writes| - 1], nsg, uid, dir);
      assert forall i | 0 <= i < |writes| - 1 :: writes[i] == writes[..|writes| - 1][i];
    }
  }

  lemma {:induction false} LastOfUntouched(writes: seq<Write>, nsg: string, uid: string, dir: Direction)
    requires forall i | 0 <= i < |writes| :: !Touches(writes[i], nsg, uid, dir)
    ensures Last(writes, nsg, uid, dir).None?
  {
    if writes != [] {
      LastOfUntouched(writes[..|writes| - 1], nsg, uid, dir);
    }
  }

  /** A slice that an interrupted sequence of writes does not touch stays as it is. */
  lemma InterruptedSlices(fold: string -> string, v: World, w: World, trace: seq<World>, writes: seq<Write>,
                          nsg: string, uid: string, dir: Direction)
    requires Tracked(fold, v, w, false, trace, writes) && nsg in v.groups
    ensures nsg in w.groups
    ensures Last(writes, nsg, uid, dir).None? ==>
            Slice(fold, w.groups[nsg], uid, {dir}) == Slice(fold, v.groups[nsg], uid, {dir})
  {
    var n := |trace| - 1;
    var done := writes[..n];
    RunSlices(fold, trace, done, nsg, uid, dir);
    if Last(writes, nsg, uid, dir).None? {
      NoneTouches(writes, nsg, uid, dir);
      LastOfUntouched(done, nsg, uid, dir);
      var u := trace[n];
      if w != u && writes[n].nsg == nsg {
        UntouchedSlice(fold, u.groups[nsg], w.groups[nsg], u.next, writes[n].target, uid, dir);
      }
    }
  }

  /** A finished attempt fixes the slices of its call; no attempt changes any other slice. */
  lemma AttemptSlices(fold: string -> string, v: World, w: World, a: Attempt, nsg: string, uid: string, dir: Direction)
    requires Made(fold, v, w, a) && Separate(a.call) && nsg in v.groups
    ensures nsg in w.groups
    ensures match Leaves(fold, a.call, nsg, uid, dir)
            case Some(keys) => a.ok ==> Slice(fold, w.groups[nsg], uid, {dir}) == keys
            case None => Slice(fold, w.groups[nsg], uid, {dir}) == Slice(fold, v.groups[nsg], uid, {dir})
  {
    var writes := CallWrites(fold, a.call);
    var trace: seq<World> :| Tracked(fold, v, w, a.ok, trace, writes);
    CallSlices(fold, a.call, nsg, uid, dir);
    if a.ok {
      RunSlices(fold, trace, writes, nsg, uid, dir);
    } else {
      InterruptedSlices(fold, v, w, trace, writes, nsg, uid, dir);
    }
  }

  /** The call reconciles rules like this one in this group. */
  predicate Claims(call: NsgCall, nsg: string, r: NsgRule) {
    var c := call.c;
    && r.description == Some(c.serviceUid)
    && ((call.Reconcile? && nsg == c.frontendNsgOcid) || (nsg in c.backendNsgOcids && r.direction == Ingress))
  }

  lemma UnclaimedByWrites(fold: string -> string, call: NsgCall, nsg: string, r: NsgRule)
    requires !Claims(call, nsg, r)
    ensures var writes := CallWrites(fold, call);
            forall i | 0 <= i < |writes| && writes[i].nsg == nsg ::
                !Owned(r, writes[i].target.uid, writes[i].target.dirs)
  {
    var writes := CallWrites(fold, call);
    forall i | 0 <= i < |writes| && writes[i].nsg == nsg
        ensures !Owned(r, writes[i].target.uid, writes[i].target.dirs) {
      if call.Reconcile? && i > 0 {
        ReconcileWritesAt(fold, call.c, i - 1);
      }
    }
  }

  /** An interrupted write neither takes nor adds a rule that it does not claim. */
  lemma InterruptedForeign(fold: string -> string, u: World, w: World, x: Write, nsg: string, id: nat)
    requires Interrupted(fold, u, w, x) && nsg in u.groups
    ensures nsg in w.groups
    ensures id in u.groups[nsg] && (x.nsg == nsg ==> !Owned(u.groups[nsg][id], x.target.uid, x.target.dirs)) ==>
              id in w.groups[nsg] && w.groups[nsg][id] == u.groups[nsg][id]
    ensures id in w.groups[nsg] && (x.nsg == nsg ==> !Owned(w.groups[nsg][id], x.target.uid, x.target.dirs)) ==>
              id in u.groups[nsg] && u.groups[nsg][id] == w.groups[nsg][id]
  {}

  lemma {:induction false} ChainKeepsGroups(fold: string -> string, trace: seq<World>, writes: seq<Write>, nsg: string)
    requires Chain(fold, trace, writes) && nsg in trace[0].groups
    ensures nsg in trace[|writes|].groups
  {
    if writes != [] {
      ChainPrefix(fold, trace, writes);
      ChainKeepsGroups(fold, trace[..|writes|], writes[..|writes| - 1], nsg);
    }
  }

  /** Rules that a call does not claim keep their ids and contents, even when it fails. */
  lemma AttemptKeepsForeign(fold: string -> string, v: World, w: World, a: Attempt, nsg: string, id: nat)
    requires Made(fold, v, w, a) && nsg in v.groups && id in v.groups[nsg] && !Claims(a.call, nsg, v.groups[nsg][id])
    ensures nsg in w.groups && id in w.groups[nsg] && w.groups[nsg][id] == v.groups[nsg][id]
  {
    var writes := CallWrites(fold, a.call);
    var trace: seq<World> :| Tracked(fold, v, w, a.ok, trace, writes);
    UnclaimedByWrites(fold, a.call, nsg, v.groups[nsg][id]);
    if a.ok {
      RunKeepsForeign(fold, trace, writes, nsg, id);
    } else {
      var n := |trace| - 1;
      RunKeepsForeign(fold, trace, writes[..n], nsg, id);
      InterruptedForeign(fold, trace[n], w, writes[n], nsg, id);
    }
  }

  lemma InterruptedAddsClaimed(fold: string -> string, v: World, w: World, trace: seq<World>, writes: seq<Write>,
                               nsg: string, id: nat)
    requires Tracked(fold, v, w, false, trace, writes) && nsg in v.groups && nsg in w.groups && id in w.groups[nsg]
    requires forall i | 0 <= i < |writes| && writes[i].nsg == nsg ::
               !Owned(w.groups[nsg][id], writes[i].target.uid, writes[i].target.dirs)
    ensures id in v.groups[nsg] && v.groups[nsg][id] == w.groups[nsg][id]
  {
    var n := |trace| - 1;
    ChainKeepsGroups(fold, trace, writes[..n], nsg);
    InterruptedForeign(fold, trace[n], w, writes[n], nsg, id);
    ForeignWasThere(fold, trace, writes[..n], nsg, id);
  }

  /** And a call adds only rules that it claims, even when it fails. */
  lemma AttemptAddsClaimed(fold: string -> string, v: World, w: World, a: Attempt, nsg: string, id: nat)
    requires Made(fold, v, w, a) && nsg in v.groups && nsg in w.groups && id in w.groups[nsg]
    requires !Claims(a.call, nsg, w.groups[nsg][id])
    ensures id in v.groups[nsg] && v.groups[nsg][id] == w.groups[nsg][id]
  {
    var writes := CallWrites(fold, a.call);
    var trace: seq<World> :| Tracked(fold, v, w, a.ok, trace, writes);
    UnclaimedByWrites(fold, a.call, nsg, w.groups[nsg][id]);
    if a.ok {
      ForeignWasThere(fold, trace, writes, nsg, id);
    } else {
      InterruptedAddsClaimed(fold, v, w, trace, writes, nsg, id);
    }
  }

  // ---------- Runs of calls ----------

  /** Calls one after the other, each of which may fail anywhere. */
  ghost predicate IsRun(fold: string -> string, worlds: seq<World>, attempts: seq<Attempt>) {
    && |worlds| == |attempts| + 1
    && forall i | 0 <= i < |attempts| :: Made(fold, worlds[i], worlds[i + 1], attempts[i]) && Separate(attempts[i].call)
  }

  /** The last attempt whose call touches the slice. */
  function LastTouch(fold: string -> string, attempts: seq<Attempt>, nsg: string, uid: string,
                     dir: Direction): Option<Attempt> {
    if attempts == [] then None
    else
      var n := |attempts| - 1;
      if Leaves(fold, attempts[n].call, nsg, uid, dir).Some? then Some(attempts[n])
      else LastTouch(fold, attempts[..n], nsg, uid, dir)
  }

  lemma RunPrefix(fold: string -> string, worlds: seq<World>, attempts: seq<Attempt>)
    requires IsRun(fold, worlds, attempts) && attempts != []
    ensures IsRun(fold, worlds[..|attempts|], attempts[..|attempts| - 1])
    ensures var n := |attempts| - 1;
            Made(fold, worlds[n], worlds[n + 1], attempts[n]) && Separate(attempts[n].call)
  {}

  /** The slice is as it was if no call touches it, and holds exactly what the last call to touch it
      generated if that call succeeded. */
  ghost predicate LeftBy(fold: string -> string, first: World, w: World, last: Option<Attempt>, nsg: string,
                         uid: string, dir: Direction) {
    && nsg in first.groups && nsg in w.groups
    && var slice := Slice(fold, w.groups[nsg], uid, {dir});
       match last
       case Some(a) => a.ok ==> Leaves(fold, a.call, nsg, uid, dir) == Some(slice)
       case None => slice == Slice(fold, first.groups[nsg], uid, {dir})
  }

  lemma LeftByStep(fold: string -> string, first: World, v: World, w: World, a: Attempt, last: Option<Attempt>,
                   nsg: string, uid: string, dir: Direction)
    requires LeftBy(fold, first, v, last, nsg, uid, dir) && Made(fold, v, w, a) && Separate(a.call)
    ensures LeftBy(fold, first, w, if Leaves(fold, a.call, nsg, uid, dir).Some? then Some(a) else last, nsg, uid, dir)
  {
    AttemptSlices(fold, v, w, a, nsg, uid, dir);
  }

  /** Over every run of calls, failing anywhere: a slice that no call touches is as it was, and one
      whose last call succeeded holds exactly what that call generated, whatever failed before. */
  lemma {:induction false} RunLeaves(fold: string -> string, worlds: seq<World>, attempts: seq<Attempt>,
                                     nsg: string, uid: string, dir: Direction)
    requires IsRun(fold, worlds, attempts) && nsg in worlds[0].groups
    ensures LeftBy(fold, worlds[0], worlds[|attempts|], LastTouch(fold, attempts, nsg, uid, dir), nsg, uid, dir)
    decreases |attempts|
  {
    if attempts != [] {
      var n := |attempts| - 1;
      var last := LastTouch(fold, attempts[..n], nsg, uid, dir);
      RunPrefix(fold, worlds, attempts);
      RunLeaves(fold, worlds[..n + 1], attempts[..n], nsg, uid, dir);
      LeftByStep(fold, worlds[0], worlds[n], worlds[n + 1], attempts[n], last, nsg, uid, dir);
    }
  }

  /** Over every run of calls, failing anywhere, a rule that none of them claims keeps its id and
      content. */
  lemma {:induction false} RunForeign(fold: string -> string, worlds: seq<World>, attempts: seq<Attempt>, nsg: string,
                                      id: nat)
    requires IsRun(fold, worlds, attempts) && nsg in worlds[0].groups && id in worlds[0].groups[nsg]
    requires forall i | 0 <= i < |attempts| :: !Claims(attempts[i].call, nsg, worlds[0].groups[nsg][id])
    ensures nsg in worlds[|attempts|].groups && id in worlds[|attempts|].groups[nsg]
    ensures worlds[|attempts|].groups[nsg][id] == worlds[0].groups[nsg][id]
    decreases |attempts|
  {
    if attempts != [] {
      var n := |attempts| - 1;
      var before, calls := worlds[..n + 1], attempts[..n];
      RunPrefix(fold, worlds, attempts);
      assert before[0] == worlds[0] && before[n] == worlds[n] && |calls| == n;
      assert forall i | 0 <= i < n :: calls[i] == attempts[i];
      RunForeign(fold, before, calls, nsg, id);
      AttemptKeepsForeign(fold, worlds[n], worlds[n + 1], attempts[n], nsg, id);
    }
  }

  // ---------- Reruns ----------

  /** The same arguments, with the port map met in any orders. */
  ghost predicate SameArguments(a: NsgCall, b: NsgCall) {
    && (a.Reconcile? <==> b.Reconcile?)
    && a.c == b.c.(ports := a.c.ports)
    && forall i: nat, j: nat :: SamePorts(a.c.ports(i), b.c.ports(j))
  }

  /** The health-check ports agree or are all backend ports too: by OrderIndependentIff exactly the
      port maps whose iteration order does not matter. */
  ghost predicate OrderFree(call: NsgCall) {
    var ports := call.c.ports(0);
    || (forall x, y | x in HealthPorts(ports) && y in HealthPorts(ports) :: x == y)
    || HealthPorts(ports) <= BackendPorts(ports)
  }

  lemma SameTargets(a: NsgCall, b: NsgCall, i: nat, j: nat)
    requires SameArguments(a, b) && OrderFree(a)
    ensures ListenerPorts(a.c.ports(i)) == ListenerPorts(b.c.ports(j))
    ensures BackendPorts(a.c.ports(i)) == BackendPorts(b.c.ports(j))
    ensures BackendTargets(a.c.ports(i)) == BackendTargets(b.c.ports(j))
  {
    SamePortSets(a.c.ports(i), b.c.ports(j));
    OrderIndependentIff(a.c.ports(0));
    assert SamePorts(a.c.ports(0), a.c.ports(i)) by {
      assert SamePorts(a.c.ports(0), b.c.ports(j)) && SamePorts(a.c.ports(i), b.c.ports(j));
    }
  }

  lemma SameFrontendKeys(fold: string -> string, a: NsgCall, b: NsgCall)
    requires SameArguments(a, b) && OrderFree(a)
    ensures LbIngressKeys(fold, a.c) == LbIngressKeys(fold, b.c) && LbEgressKeys(fold, a.c) == LbEgressKeys(fold, b.c)
  {
    SameTargets(a, b, 0, 0);
    SameTargets(a, b, 1, 1);
  }

  lemma SameBackendKeys(fold: string -> string, a: NsgCall, b: NsgCall, i: nat)
    requires SameArguments(a, b) && OrderFree(a)
    ensures BackendKeys(fold, a.c, i) == BackendKeys(fold, b.c, i)
  {
    SameTargets(a, b, 2 + i, 2 + i);
  }

  /** Where order does not matter, what a call leaves does not depend on the orders it meets. */
  lemma SameLeaves(fold: string -> string, a: NsgCall, b: NsgCall, nsg: string, uid: string, dir: Direction)
    requires SameArguments(a, b) && OrderFree(a)
    ensures Leaves(fold, a, nsg, uid, dir) == Leaves(fold, b, nsg, uid, dir)
  {
    SameFrontendKeys(fold, a, b);
    if nsg in a.c.backendNsgOcids {
      SameBackendKeys(fold, a, b, LastPlace(a.c.backendNsgOcids, nsg));
    }
  }

  /** Attempts at one call, of which the last succeeds. */
  ghost predicate Retries(call: NsgCall, attempts: seq<Attempt>) {
    && attempts != [] && attempts[|attempts| - 1].ok
    && forall i | 0 <= i < |attempts| :: SameArguments(call, attempts[i].call)
  }

  lemma {:induction false} RetriesTouch(fold: string -> string, call: NsgCall, attempts: seq<Attempt>,
                                        nsg: string, uid: string, dir: Direction)
    requires OrderFree(call) && forall i | 0 <= i < |attempts| :: SameArguments(call, attempts[i].call)
    ensures Leaves(fold, call, nsg, uid, dir).None? ==> LastTouch(fold, attempts, nsg, uid, dir).None?
    ensures Leaves(fold, call, nsg, uid, dir).Some? && attempts != [] ==>
              LastTouch(fold, attempts, nsg, uid, dir) == Some(attempts[|attempts| - 1])
  {
    if attempts != [] {
      SameLeaves(fold, call, attempts[|attempts| - 1].call, nsg, uid, dir);
      RetriesTouch(fold, call, attempts[..|attempts| - 1], nsg, uid, dir);
    }
  }

  /** A call that fails any number of times, anywhere, and is then repeated to success: every slice of
      every group ends up as after one uninterrupted call, whatever orders the attempts meet. */
  lemma RerunReachesSame(fold: string -> string, call: NsgCall, worlds: seq<World>, attempts: seq<Attempt>, y: World,
                         nsg: string, uid: string, dir: Direction)
    requires IsRun(fold, worlds, attempts) && Retries(call, attempts) && OrderFree(call)
    requires Made(fold, worlds[0], y, Attempt(call, true)) && Separate(call) && nsg in worlds[0].groups
    ensures nsg in worlds[|attempts|].groups && nsg in y.groups
    ensures Slice(fold, worlds[|attempts|].groups[nsg], uid, {dir}) == Slice(fold, y.groups[nsg], uid, {dir})
  {
    var a := attempts[|attempts| - 1];
    RunLeaves(fold, worlds, attempts, nsg, uid, dir);
    RetriesTouch(fold, call, attempts, nsg, uid, dir);
    SameLeaves(fold, call, a.call, nsg, uid, dir);
    AttemptSlices(fold, worlds[0], y, Attempt(call, true), nsg, uid, dir);
  }

  lemma {:induction false} RunAddsClaimed(fold: string -> string, call: NsgCall, worlds: seq<World>,
                                          attempts: seq<Attempt>,
                                          nsg: string, id: nat)
    requires IsRun(fold, worlds, attempts) && forall i | 0 <= i < |attempts| :: SameArguments(call, attempts[i].call)
    requires nsg in worlds[0].groups && nsg in worlds[|attempts|].groups && id in worlds[|attempts|].groups[nsg]
    requires !Claims(call, nsg, worlds[|attempts|].groups[nsg][id])
    ensures id in worlds[0].groups[nsg] && worlds[0].groups[nsg][id] == worlds[|attempts|].groups[nsg][id]
    decreases |attempts|
  {
    if attempts != [] {
      var n := |attempts| - 1;
      RunPrefix(fold, worlds, attempts);
      RunLeaves(fold, worlds[..n + 1], attempts[..n], nsg, "", Ingress);
      AttemptAddsClaimed(fold, worlds[n], worlds[n + 1], attempts[n], nsg, id);
      RunAddsClaimed(fold, call, worlds[..n + 1], attempts[..n], nsg, id);
    }
  }

  /** And the rules that the call does not claim are, by id and content, the same after both. */
  lemma RerunForeign(fold: string -> string, call: NsgCall, worlds: seq<World>, attempts: seq<Attempt>, y: World,
                     nsg: string, id: nat)
    requires IsRun(fold, worlds, attempts) && Retries(call, attempts)
    requires Made(fold, worlds[0], y, Attempt(call, true)) && Separate(call)
    requires nsg in worlds[0].groups && nsg in worlds[|attempts|].groups && nsg in y.groups
    ensures var x := worlds[|attempts|];
            && (id in x.groups[nsg] && !Claims(call, nsg, x.groups[nsg][id]) ==>
                  id in y.groups[nsg] && y.groups[nsg][id] == x.groups[nsg][id])
            && (id in y.groups[nsg] && !Claims(call, nsg, y.groups[nsg][id]) ==>
                  id in x.groups[nsg] && x.groups[nsg][id] == y.groups[nsg][id])
  {
    var v, x, one := worlds[0], worlds[|attempts|], Attempt(call, true);
    if id in x.groups[nsg] && !Claims(call, nsg, x.groups[nsg][id]) {
      RunAddsClaimed(fold, call, worlds, attempts, nsg, id);
      AttemptKeepsForeign(fold, v, y, one, nsg, id);
    }
    if id in y.groups[nsg] && !Claims(call, nsg, y.groups[nsg][id]) {
      AttemptAddsClaimed(fold, v, y, one, nsg, id);
      RunForeign(fold, worlds, attempts, nsg, id);
    }
  }
}
