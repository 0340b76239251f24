/**
 Attempts in which nothing goes wrong: no call fails and no resource the cloud is creating becomes
 unusable. A create attempt then hands out a volume exactly when the resources that already carry
 its name are usable, and reuses them; a delete attempt always finishes.
 */
module FileStorageOutcomes {
  import opened Common
  import opened FileStorage
  import opened FileStorageRuns

  /** The event is none in which something goes wrong, nor the start of another attempt. */
  predicate Smooth(e: Event) {
    match e
    case Answers(pick) => true
    case Creates(id, es, acked) => acked
    case Deletes(acked) => acked
    case FileSystemMoves(id, to) => to != Some(Unusable)
    case MountTargetMoves(id, to) => to != Some(Unusable)
    case ExportMoves(id, to) => to != Some(Unusable)
    case _ => false
  }

  predicate IsMove(e: Event) {
    e.FileSystemMoves? || e.MountTargetMoves? || e.ExportMoves?
  }

  ghost predicate SmoothRun(states: seq<State>, events: seq<Event>, p: Params) {
    && |states| == |events| + 1
    && forall i | 0 <= i < |events| :: Smooth(events[i]) && Step(states[i], p, events[i]) == Some(states[i + 1])
  }

  // ---------- When a create attempt must fail ----------

  /** Neither usable nor on the way to it. */
  predicate InTheWay(l: Life) {
    l == Unusable || l == Deleting || l == Deleted
  }

  /** The mount target to use is missing or unusable. */
  ghost predicate BlockedMt(c: Cloud, p: Params) {
    if p.mountTarget.Some? then p.mountTarget.value !in c.mts || InTheWay(c.mts[p.mountTarget.value].life)
    else exists m :: NamedMt(c, p, m) && InTheWay(c.mts[m].life)
  }

  ghost predicate BlockedFs(c: Cloud, p: Params) {
    exists f :: NamedFs(c, p, f) && InTheWay(c.fss[f].life)
  }

  ghost predicate BlockedExport(c: Cloud, p: Params) {
    exists f, e :: NamedFs(c, p, f) && ExportOf(c, f, e) && InTheWay(c.exports[e].life)
  }

  ghost predicate Blocked(c: Cloud, p: Params) {
    BlockedMt(c, p) || BlockedFs(c, p) || BlockedExport(c, p)
  }

  /** A volume handed out is not blocked. */
  lemma CreatedIsFree(s: State, p: Params)
    requires Inv(s, p) && s.phase.Created?
    ensures !Blocked(s.cloud, p)
  {}

  // ---------- Smooth steps ----------

  /** Smooth moves keep usable what is usable, and in the way what is. */
  ghost predicate SameUse(c: Cloud, d: Cloud) {
    && (forall i | i in c.fss && i in d.fss :: InTheWay(c.fss[i].life) <==> InTheWay(d.fss[i].life))
    && (forall i | i in c.mts && i in d.mts :: InTheWay(c.mts[i].life) <==> InTheWay(d.mts[i].life))
    && (forall i | i in c.exports && i in d.exports :: InTheWay(c.exports[i].life) <==> InTheWay(d.exports[i].life))
    && (forall i | i in c.mts && i !in d.mts :: InTheWay(c.mts[i].life))
  }

  lemma MoveSameUse(s: State, e: Event)
    requires Smooth(e) && Move(s, e).Some?
    ensures SameUse(s.cloud, Move(s, e).value)
  {}

  lemma MoveKeepsBlocked(c: Cloud, d: Cloud, p: Params)
    requires Ages(c, d) && Spares(c, d) && SameUse(c, d) && Early(c, p)
    ensures Blocked(d, p) <==> Blocked(c, p)
  {
    AgesNames(c, d, p);
    SparesEarly(c, d, p);
    BlockedThrough(c, d, p);
    BlockedBack(c, d, p);
  }

  lemma BlockedThrough(c: Cloud, d: Cloud, p: Params)
    requires Ages(c, d) && Spares(c, d) && SameUse(c, d) && Early(c, p)
    ensures Blocked(c, p) ==> Blocked(d, p)
  {
    if p.mountTarget.None? {
      if m :| NamedMt(c, p, m) && InTheWay(c.mts[m].life) { assert NamedMt(d, p, m) && InTheWay(d.mts[m].life); }
    }
    if f :| NamedFs(c, p, f) && InTheWay(c.fss[f].life) { assert NamedFs(d, p, f) && InTheWay(d.fss[f].life); }
    if f, e :| NamedFs(c, p, f) && ExportOf(c, f, e) && InTheWay(c.exports[e].life) {
      assert NamedFs(d, p, f) && ExportOf(d, f, e) && InTheWay(d.exports[e].life);
    }
  }

  lemma BlockedBack(c: Cloud, d: Cloud, p: Params)
    requires Ages(c, d) && Spares(c, d) && SameUse(c, d) && Early(c, p)
    ensures Blocked(d, p) ==> Blocked(c, p)
  {
    if p.mountTarget.None? {
      if m :| NamedMt(d, p, m) && InTheWay(d.mts[m].life) { assert NamedMt(c, p, m) && InTheWay(c.mts[m].life); }
    }
    if f :| NamedFs(d, p, f) && InTheWay(d.fss[f].life) { assert NamedFs(c, p, f) && InTheWay(c.fss[f].life); }
    if f, e :| NamedFs(d, p, f) && ExportOf(d, f, e) && InTheWay(d.exports[e].life) {
      assert NamedFs(c, p, f) && ExportOf(c, f, e) && InTheWay(c.exports[e].life);
    }
  }

  /** A new resource is usable and was missing: it blocks nothing and unblocks nothing. */
  lemma CreateKeepsBlocked(s: State, p: Params, id: nat, es: nat)
    requires Inv(s, p) && Create(s, p, id, es).Some?
    ensures Blocked(Create(s, p, id, es).value.0, p) <==> Blocked(s.cloud, p)
  {
    var c, d := s.cloud, Create(s, p, id, es).value.0;
    match s.phase
    case CreateMountTarget =>
      assert forall m | NamedMt(d, p, m) :: m == id || NamedMt(c, p, m);
      assert forall f :: NamedFs(d, p, f) <==> NamedFs(c, p, f);
      assert forall f, e :: ExportOf(d, f, e) <==> ExportOf(c, f, e);
    case CreateFileSystem(mt, set_) =>
      assert forall m :: NamedMt(d, p, m) <==> NamedMt(c, p, m);
      assert forall f | NamedFs(d, p, f) :: f == id || NamedFs(c, p, f);
      assert forall f, e :: ExportOf(d, f, e) <==> ExportOf(c, f, e);
      assert forall e :: !ExportOf(c, id, e);
    case CreateExport(fs, set_) =>
      assert forall m :: NamedMt(d, p, m) <==> NamedMt(c, p, m);
      assert forall f :: NamedFs(d, p, f) <==> NamedFs(c, p, f);
      assert forall f, e | ExportOf(d, f, e) :: e == id || ExportOf(c, f, e);
      assert forall f, e | ExportOf(c, f, e) :: ExportOf(d, f, e) && d.exports[e] == c.exports[e];
  }

  // ---------- A create attempt ----------

  /** The resource that the attempt waits for is usable, unless it is a mount target of the user. */
  ghost predicate WaitsForUsable(c: Cloud, p: Params, ph: Phase) {
    match ph
    case AwaitMountTarget(mt) => p.mountTarget.None? ==> mt in c.mts && Usable(c.mts[mt].life)
    case AwaitFileSystem(fs, es) => fs in c.fss && Usable(c.fss[fs].life)
    case AwaitExport(fs, e) => e in c.exports && Usable(c.exports[e].life)
    case _ => true
  }

  ghost predicate CreatingInv(s: State, p: Params, blocked: bool) {
    && Inv(s, p) && !s.deleting && (Blocked(s.cloud, p) <==> blocked)
    && (CreatePhase(s.phase) || s.phase.Failed?) && WaitsForUsable(s.cloud, p, s.phase)
    && (s.phase.Failed? ==> blocked)
  }

  lemma CreateMoveKeeps(s: State, p: Params, e: Event, blocked: bool)
    requires CreatingInv(s, p, blocked) && Smooth(e) && IsMove(e) && Step(s, p, e).Some?
    ensures CreatingInv(Step(s, p, e).value, p, blocked)
  {
    var c, d := s.cloud, Move(s, e).value;
    StepKeeps(s, p, e);
    MoveAges(s, e);
    MoveSpares(s, e);
    MoveSameUse(s, e);
    MoveKeepsBlocked(c, d, p);
  }

  /** A read fails only when the attempt is blocked. */
  lemma CreateReadOutcome(s: State, p: Params, pick: Option<nat>, blocked: bool)
    requires CreatingInv(s, p, blocked) && Read(s, p, pick).Some?
    ensures var ph := Read(s, p, pick).value;
            (CreatePhase(ph) || ph.Failed?) && WaitsForUsable(s.cloud, p, ph) && (ph.Failed? ==> blocked)
  {
    var c := s.cloud;
    match s.phase
    case SearchExport(fs, es) =>
      if pick.Some? && Matches(c, pick.value, fs, es, p.path) && !Usable(c.exports[pick.value].life) {
        assert NamedFs(c, p, fs) && ExportOf(c, fs, pick.value);
      }
    case AwaitExport(fs, e) => assert NamedFs(c, p, fs) && ExportOf(c, fs, e);
    case _ =>
  }

  lemma CreateStepKeeps(s: State, p: Params, e: Event, blocked: bool)
    requires CreatingInv(s, p, blocked) && Smooth(e) && Step(s, p, e).Some?
    ensures CreatingInv(Step(s, p, e).value, p, blocked)
  {
    if IsMove(e) {
      CreateMoveKeeps(s, p, e, blocked);
    } else {
      StepKeeps(s, p, e);
      match e
      case Answers(pick) => CreateReadOutcome(s, p, pick, blocked);
      case Creates(id, es, acked) => CreateKeepsBlocked(s, p, id, es);
      case _ =>
    }
  }

  lemma {:induction false} CreateRunInv(states: seq<State>, events: seq<Event>, p: Params, blocked: bool, n: nat)
    requires SmoothRun(states, events, p) && CreatingInv(states[0], p, blocked) && n < |states|
    ensures CreatingInv(states[n], p, blocked)
  {
    if n > 0 {
      CreateRunInv(states, events, p, blocked, n - 1);
      assert Step(states[n - 1], p, events[n - 1]) == Some(states[n]);
      CreateStepKeeps(states[n - 1], p, events[n - 1], blocked);
    }
  }

  predicate Ended(ph: Phase) {
    ph.Created? || ph.Gone? || ph.Failed?
  }

  /** However the moves of the cloud are interleaved: a create attempt in which nothing goes wrong,
      first or repeated, never ends otherwise than with a volume handed out when the named resources
      are usable at its start, and in an error when one of them is not. */
  lemma CreateOutcome(s: State, p: Params, states: seq<State>, events: seq<Event>)
    requires Inv(s, p) && s.phase == Idle && SmoothRun(states, events, p)
    requires Step(s, p, BeginCreate) == Some(states[0]) && Ended(states[|events|].phase)
    ensures if Blocked(s.cloud, p) then states[|events|].phase == Failed else states[|events|].phase.Created?
  {
    CreateRunInv(states, events, p, Blocked(s.cloud, p), |events|);
    if states[|events|].phase.Created? {
      CreatedIsFree(states[|events|], p);
    }
  }

  // ---------- A repeated create attempt reuses what is there ----------

  /** The named resources and the exports of the file system are still there. */
  ghost predicate Keeps(c: Cloud, d: Cloud, p: Params) {
    && (forall f | NamedFs(c, p, f) :: NamedFs(d, p, f))
    && (p.mountTarget.None? ==> forall m | NamedMt(c, p, m) :: NamedMt(d, p, m))
    && (forall f, e | NamedFs(c, p, f) && ExportOf(c, f, e) :: ExportOf(d, f, e))
  }

  lemma CreateStepReuses(s: State, p: Params, e: Event, blocked: bool)
    requires CreatingInv(s, p, blocked) && Smooth(e) && Step(s, p, e).Some?
    ensures Keeps(s.cloud, Step(s, p, e).value.cloud, p)
  {
    if IsMove(e) {
      MoveAges(s, e);
      MoveSpares(s, e);
      SparesEarly(s.cloud, Move(s, e).value, p);
    }
  }

  lemma {:induction false} CreateRunReuses(states: seq<State>, events: seq<Event>, p: Params, blocked: bool, n: nat)
    requires SmoothRun(states, events, p) && CreatingInv(states[0], p, blocked) && n < |states|
    ensures Keeps(states[0].cloud, states[n].cloud, p)
  {
    if n > 0 {
      CreateRunReuses(states, events, p, blocked, n - 1);
      CreateRunInv(states, events, p, blocked, n - 1);
      assert Step(states[n - 1], p, events[n - 1]) == Some(states[n]);
      CreateStepReuses(states[n - 1], p, events[n - 1], blocked);
    }
  }

  /** The volume handed out is made of the file system, export and mount target that earlier attempts
      left, if they did, and of the user's mount target if there is one. */
  lemma CreateReuses(s: State, p: Params, states: seq<State>, events: seq<Event>)
    requires Inv(s, p) && s.phase == Idle && SmoothRun(states, events, p)
    requires Step(s, p, BeginCreate) == Some(states[0]) && states[|events|].phase.Created?
    ensures var (c, d, ph) := (s.cloud, states[|events|].cloud, states[|events|].phase);
            && (forall f | NamedFs(c, p, f) :: ph.fs == f)
            && (forall f, e | NamedFs(c, p, f) && ExportOf(c, f, e) :: ph.ex == e)
            && ph.fs in d.fss
            && (p.mountTarget.Some? ==> d.fss[ph.fs].mountTargetOcid == p.mountTarget.value)
            && (p.mountTarget.None? ==> forall m | NamedMt(c, p, m) :: d.fss[ph.fs].mountTargetOcid == m)
  {
    var blocked := Blocked(s.cloud, p);
    CreateRunInv(states, events, p, blocked, |events|);
    CreateRunReuses(states, events, p, blocked, |events|);
  }

  // ---------- The attempts can always go on ----------

  ghost predicate LeadsToEnd(s: State, p: Params, states: seq<State>, events: seq<Event>) {
    SmoothRun(states, events, p) && states[0] == s && Ended(states[|events|].phase)
  }

  lemma Prepend(s: State, p: Params, e: Event, states: seq<State>, events: seq<Event>)
    requires Smooth(e) && Step(s, p, e).Some? && LeadsToEnd(Step(s, p, e).value, p, states, events)
    ensures LeadsToEnd(s, p, [s] + states, [e] + events)
  {
    var t, f := [s] + states, [e] + events;
    forall i | 0 <= i < |f| ensures Smooth(f[i]) && Step(t[i], p, f[i]) == Some(t[i + 1]) {
      if i > 0 {
        assert t[i] == states[i - 1] && f[i] == events[i - 1] && t[i + 1] == states[i];
      }
    }
  }

  predicate StillCreating(c: Cloud, ph: Phase) {
    match ph
    case AwaitMountTarget(mt) => mt in c.mts && c.mts[mt].life == Creating
    case AwaitFileSystem(fs, es) => fs in c.fss && c.fss[fs].life == Creating
    case AwaitExport(fs, e) => e in c.exports && c.exports[e].life == Creating
    case _ => false
  }

  function Left(ph: Phase): nat {
    match ph
    case FindMountTarget => 9
    case CreateMountTarget => 8
    case AwaitMountTarget(mt) => 7
    case FindFileSystem(mt, es) => 6
    case CreateFileSystem(mt, es) => 5
    case AwaitFileSystem(fs, es) => 4
    case SearchExport(fs, es) => 3
    case CreateExport(fs, es) => 2
    case AwaitExport(fs, e) => 1
    case GetFileSystem => 5
    case DeleteMountTarget(mt, es) => 4
    case FindExportToDelete(es) => 3
    case DeleteExport(e) => 2
    case DeleteFileSystem => 1
    case _ => 0
  }

  /** How far the attempt has to go; a resource that is still being created costs one more step. */
  function Rank(s: State): nat {
    2 * Left(s.phase) + if StillCreating(s.cloud, s.phase) then 1 else 0
  }

  lemma CreateWaitNext(s: State, p: Params, blocked: bool) returns (e: Event)
    requires CreatingInv(s, p, blocked)
    requires s.phase.AwaitMountTarget? || s.phase.AwaitFileSystem? || s.phase.AwaitExport?
    ensures Smooth(e) && Step(s, p, e).Some? && Rank(Step(s, p, e).value) < Rank(s)
  {
    if StillCreating(s.cloud, s.phase) {
      match s.phase
      case AwaitMountTarget(mt) => e := MountTargetMoves(mt, Some(Active));
      case AwaitFileSystem(fs, es) => e := FileSystemMoves(fs, Some(Active));
      case AwaitExport(fs, ex) => e := ExportMoves(ex, Some(Active));
    } else {
      e := Answers(None);
    }
  }

  lemma CreateFindNext(s: State, p: Params, blocked: bool) returns (e: Event)
    requires CreatingInv(s, p, blocked)
    requires s.phase.FindMountTarget? || s.phase.FindFileSystem? || s.phase.SearchExport?
    ensures Smooth(e) && Step(s, p, e).Some? && Rank(Step(s, p, e).value) < Rank(s)
  {
    e := Answers(None);
    match s.phase
    case FindMountTarget =>
      if p.mountTarget.None? {
        if m :| NamedMt(s.cloud, p, m) { e := Answers(Some(m)); }
      }
    case FindFileSystem(mt, es) =>
      if f :| NamedFs(s.cloud, p, f) { e := Answers(Some(f)); }
    case SearchExport(fs, es) =>
      if x :| Matches(s.cloud, x, fs, es, p.path) { e := Answers(Some(x)); }
  }

  lemma CreateNewNext(s: State, p: Params, blocked: bool) returns (e: Event)
    requires CreatingInv(s, p, blocked)
    requires s.phase.CreateMountTarget? || s.phase.CreateFileSystem? || s.phase.CreateExport?
    ensures Smooth(e) && Step(s, p, e).Some? && Rank(Step(s, p, e).value) < Rank(s)
  {
    var c := s.cloud;
    var used := set x | x in c.exports :: c.exports[x].fileSystem;
    var handle: set<nat> := if s.handle.Some? then {s.handle.value} else {};
    var id := BoundAbove(c.mts.Keys + c.fss.Keys + c.exports.Keys + used + handle);
    assert id !in c.mts.Keys && id !in c.fss.Keys && id !in c.exports.Keys && id !in used && id !in handle;
    assert forall x | x in c.exports :: c.exports[x].fileSystem in used;
    e := Creates(id, 0, true);
  }

  /** From wherever a create attempt has come when nothing went wrong, there are steps to its end. */
  lemma {:induction false} CreateCanEnd(s: State, p: Params, blocked: bool)
      returns (states: seq<State>, events: seq<Event>)
    requires CreatingInv(s, p, blocked)
    ensures LeadsToEnd(s, p, states, events)
    decreases Rank(s)
  {
    if Ended(s.phase) {
      states, events := [s], [];
    } else {
      var e;
      if s.phase.AwaitMountTarget? || s.phase.AwaitFileSystem? || s.phase.AwaitExport? {
        e := CreateWaitNext(s, p, blocked);
      } else if s.phase.FindMountTarget? || s.phase.FindFileSystem? || s.phase.SearchExport? {
        e := CreateFindNext(s, p, blocked);
      } else {
        e := CreateNewNext(s, p, blocked);
      }
      CreateStepKeeps(s, p, e, blocked);
      states, events := CreateCanEnd(Step(s, p, e).value, p, blocked);
      Prepend(s, p, e, states, events);
      states, events := [s] + states, [e] + events;
    }
  }

  /** A create attempt, first or repeated, that meets no failure can be carried to its end: a volume
      handed out exactly when no named resource is unusable. */
  lemma CreateEnds(s: State, p: Params) returns (states: seq<State>, events: seq<Event>)
    requires Inv(s, p) && s.phase == Idle && !s.deleting
    ensures SmoothRun(states, events, p) && Step(s, p, BeginCreate) == Some(states[0])
    ensures if Blocked(s.cloud, p) then states[|events|].phase == Failed else states[|events|].phase.Created?
  {
    states, events := CreateCanEnd(Step(s, p, BeginCreate).value, p, Blocked(s.cloud, p));
    CreateOutcome(s, p, states, events);
  }

  // ---------- A delete attempt ----------

  ghost predicate DeletingInv(s: State, p: Params) {
    && Inv(s, p) && s.deleting && DeletePhase(s.phase)
    && (s.phase.DeleteExport? ==> s.phase.ex in s.cloud.exports && Usable(s.cloud.exports[s.phase.ex].life))
  }

  lemma DeletingStepKeeps(s: State, p: Params, e: Event)
    requires DeletingInv(s, p) && Smooth(e) && Step(s, p, e).Some?
    ensures DeletingInv(Step(s, p, e).value, p)
  {
    StepKeeps(s, p, e);
    if IsMove(e) {
      MoveSpares(s, e);
      MoveSameUse(s, e);
    }
  }

  lemma {:induction false} DeletingRunInv(states: seq<State>, events: seq<Event>, p: Params, n: nat)
    requires SmoothRun(states, events, p) && DeletingInv(states[0], p) && n < |states|
    ensures DeletingInv(states[n], p)
  {
    if n > 0 {
      DeletingRunInv(states, events, p, n - 1);
      assert Step(states[n - 1], p, events[n - 1]) == Some(states[n]);
      DeletingStepKeeps(states[n - 1], p, events[n - 1]);
    }
  }

  /** A delete attempt in which nothing goes wrong, first or repeated, never ends but in success. */
  lemma DeleteOutcome(s: State, p: Params, states: seq<State>, events: seq<Event>)
    requires Inv(s, p) && s.phase == Idle && SmoothRun(states, events, p)
    requires Step(s, p, BeginDelete) == Some(states[0]) && Ended(states[|events|].phase)
    ensures states[|events|].phase == Gone
  {
    DeletingRunInv(states, events, p, |events|);
  }

  lemma DeleteNext(s: State, p: Params) returns (e: Event)
    requires DeletingInv(s, p) && !Ended(s.phase)
    ensures Smooth(e) && Step(s, p, e).Some? && Rank(Step(s, p, e).value) < Rank(s)
  {
    match s.phase
    case GetFileSystem => e := Answers(None);
    case FindExportToDelete(es) =>
      e := Answers(None);
      if x :| Matches(s.cloud, x, s.handle.value, es, p.path) { e := Answers(Some(x)); }
    case _ => e := Deletes(true);
  }

  lemma {:induction false} DeleteCanEnd(s: State, p: Params) returns (states: seq<State>, events: seq<Event>)
    requires DeletingInv(s, p)
    ensures LeadsToEnd(s, p, states, events)
    decreases Rank(s)
  {
    if Ended(s.phase) {
      states, events := [s], [];
    } else {
      var e := DeleteNext(s, p);
      DeletingStepKeeps(s, p, e);
      states, events := DeleteCanEnd(Step(s, p, e).value, p);
      Prepend(s, p, e, states, events);
      states, events := [s] + states, [e] + events;
    }
  }

  /** A delete attempt, first or repeated, that meets no failure can be carried to its end, in success. */
  lemma DeleteEnds(s: State, p: Params) returns (states: seq<State>, events: seq<Event>)
    requires Inv(s, p) && s.phase == Idle && s.handle.Some?
    ensures SmoothRun(states, events, p) && Step(s, p, BeginDelete) == Some(states[0])
    ensures states[|events|].phase == Gone
  {
    states, events := DeleteCanEnd(Step(s, p, BeginDelete).value, p);
    DeleteOutcome(s, p, states, events);
  }
}
