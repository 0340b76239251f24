/**
 Provisioning and deleting one file-storage volume, as a state machine. Create attempts repeat with
 one name and one set of parameters until the volume is handed out; then delete attempts repeat.
 Every remote call may fail, with or without having taken effect, and the cloud moves resources
 through their lifecycles between any two calls.
 */
module FileStorage {
  import opened Common

  datatype Life = Creating | Active | Unusable | Deleting | Deleted

  /** The three freeform tags written at creation are the record that deletion works from. */
  datatype FileSystem = FileSystem(name: string, life: Life, mountTargetOcid: nat, isDeleteMountTarget: bool,
                                   exportSetId: nat)

  datatype MountTarget = MountTarget(name: string, life: Life, exportSetId: nat)

  datatype Export = Export(fileSystem: nat, exportSetId: nat, path: string, life: Life)

  datatype Cloud = Cloud(fss: map<nat, FileSystem>, mts: map<nat, MountTarget>, exports: map<nat, Export>)

  /** Storage class parameters: the volume name, the export path and a mount target to reuse. */
  datatype Params = Params(name: string, path: string, mountTarget: Option<nat>)

  predicate Usable(l: Life) {
    l == Active || l == Creating
  }

  // ---------- Lookups ----------

  /** GetFileSystemSummaryByDisplayName and GetMountTargetSummaryByDisplayName over the one page they
      read: usable items, or a conflict when any item is in another state. */
  method LookUpByDisplayName(items: seq<(nat, Life)>) returns (conflict: bool, found: seq<nat>)
    ensures conflict <==> exists i :: 0 <= i < |items| && items[i].1 != Active && items[i].1 != Creating
    ensures !conflict ==> |found| == |items| && forall i | 0 <= i < |items| :: found[i] == items[i].0
  {
    found, conflict := [], false;
    for i := 0 to |items|
      invariant conflict <==> exists j :: 0 <= j < i && !Usable(items[j].1)
      invariant !conflict ==> |found| == i && forall j | 0 <= j < i :: found[j] == items[j].0
    {
      if items[i].1 == Active || items[i].1 == Creating {
        found := found + [items[i].0];
      } else {
        conflict := true;
      }
    }
  }

  /** FindExport on the exports of one file system and export set: the first one with the path
      decides. */
  method FindExport(items: seq<(nat, Export)>, path: string) returns (found: Option<nat>, usable: bool)
    ensures found.None? <==> forall i | 0 <= i < |items| :: items[i].1.path != path
    ensures found.Some? ==>
            exists i :: && 0 <= i < |items| && items[i].0 == found.value && items[i].1.path == path
                        && (usable <==> items[i].1.life == Creating || items[i].1.life == Active)
                        && forall j | 0 <= j < i :: items[j].1.path != path
  {
    for i := 0 to |items|
      invariant forall j | 0 <= j < i :: items[j].1.path != path
    {
      if items[i].1.path == path {
        return Some(items[i].0), items[i].1.life == Creating || items[i].1.life == Active;
      }
    }
    return None, false;
  }

  // ---------- The driver ----------

  datatype Phase =
    | Idle
    | FindMountTarget
    | CreateMountTarget
    | AwaitMountTarget(mt: nat)
    | FindFileSystem(mt: nat, es: nat)
    | CreateFileSystem(mt: nat, es: nat)
    | AwaitFileSystem(fs: nat, es: nat)
    | SearchExport(fs: nat, es: nat)
    | CreateExport(fs: nat, es: nat)
    | AwaitExport(fs: nat, ex: nat)
    | Created(fs: nat, ex: nat)
    | GetFileSystem
    | DeleteMountTarget(mt: nat, es: nat)
    | FindExportToDelete(es: nat)
    | DeleteExport(ex: nat)
    | DeleteFileSystem
    | Gone
    | Failed

  /** `handle`: the file system of the volume handed out; `deleting`: deletion has begun. */
  datatype State = State(cloud: Cloud, phase: Phase, handle: Option<nat>, deleting: bool)

  datatype Event =
    | BeginCreate
    | BeginDelete
    | Answers(pick: Option<nat>)
    | Creates(id: nat, es: nat, acked: bool)
    | Deletes(acked: bool)
    | CallFails
    | Returns
    | FileSystemMoves(id: nat, to: Option<Life>)
    | MountTargetMoves(id: nat, to: Option<Life>)
    | ExportMoves(id: nat, to: Option<Life>)

  /** Lifecycles move forward by themselves; a deleted resource may vanish. */
  predicate CanMove(from: Life, to: Option<Life>) {
    || (from == Creating && to in {Some(Active), Some(Unusable)})
    || (from == Deleting && to == Some(Deleted))
    || (from == Deleted && to == None)
  }

  /** A delete request: DELETED stays DELETED, everything else starts DELETING. */
  function Dying(l: Life): Life {
    if l == Deleted then Deleted else Deleting
  }

  predicate NamedMt(c: Cloud, p: Params, id: nat) {
    id in c.mts && c.mts[id].name == p.name
  }

  predicate NamedFs(c: Cloud, p: Params, id: nat) {
    id in c.fss && c.fss[id].name == p.name
  }

  /** The export that FindExport looks for. */
  predicate Matches(c: Cloud, id: nat, fs: nat, es: nat, path: string) {
    id in c.exports && c.exports[id].fileSystem == fs && c.exports[id].exportSetId == es && c.exports[id].path == path
  }

  /** What a lookup by name leads to: nothing there, the one usable item, or an error. `pick` is an
      item that carries the name, if there is one. */
  ghost function MtLookup(c: Cloud, p: Params, pick: Option<nat>): Option<Phase> {
    if pick.None? then if forall id :: !NamedMt(c, p, id) then Some(CreateMountTarget) else None
    else if !NamedMt(c, p, pick.value) then None
    else if Usable(c.mts[pick.value].life) && (forall id | NamedMt(c, p, id) :: id == pick.value) then
      Some(AwaitMountTarget(pick.value))
    else Some(Failed)
  }

  ghost function FsLookup(c: Cloud, p: Params, pick: Option<nat>, mt: nat, es: nat): Option<Phase> {
    if pick.None? then if forall id :: !NamedFs(c, p, id) then Some(CreateFileSystem(mt, es)) else None
    else if !NamedFs(c, p, pick.value) then None
    else if Usable(c.fss[pick.value].life) && (forall id | NamedFs(c, p, id) :: id == pick.value) then
      Some(AwaitFileSystem(pick.value, es))
    else Some(Failed)
  }

  /** The listed items are those that carry the name, each once. */
  ghost predicate ListsFs(c: Cloud, p: Params, items: seq<(nat, Life)>) {
    && (forall i | 0 <= i < |items| :: NamedFs(c, p, items[i].0) && c.fss[items[i].0].life == items[i].1)
    && (forall id | NamedFs(c, p, id) :: exists i :: 0 <= i < |items| && items[i].0 == id)
    && (forall i, j | 0 <= i < j < |items| :: items[i].0 != items[j].0)
  }

  ghost predicate ListsMt(c: Cloud, p: Params, items: seq<(nat, Life)>) {
    && (forall i | 0 <= i < |items| :: NamedMt(c, p, items[i].0) && c.mts[items[i].0].life == items[i].1)
    && (forall id | NamedMt(c, p, id) :: exists i :: 0 <= i < |items| && items[i].0 == id)
    && (forall i, j | 0 <= i < j < |items| :: items[i].0 != items[j].0)
  }

  /** What getOrCreateFileSystem does with its lookup is a step of the state machine. */
  method DecideFileSystem(ghost c: Cloud, ghost p: Params, items: seq<(nat, Life)>, mt: nat, es: nat)
      returns (next: Phase)
    requires ListsFs(c, p, items)
    ensures exists pick :: FsLookup(c, p, pick, mt, es) == Some(next)
  {
    var conflict, found := LookUpByDisplayName(items);
    if conflict || |found| > 1 {
      ghost var i :| 0 <= i < |items| && (!Usable(items[i].1) || |items| > 1);
      assert |items| > 1 ==> items[0].0 != items[1].0;
      assert FsLookup(c, p, Some(items[i].0), mt, es) == Some(Failed);
      return Failed;
    }
    if |found| > 0 {
      assert FsLookup(c, p, Some(found[0]), mt, es) == Some(AwaitFileSystem(found[0], es));
      return AwaitFileSystem(found[0], es);
    }
    assert FsLookup(c, p, None, mt, es) == Some(CreateFileSystem(mt, es));
    return CreateFileSystem(mt, es);
  }

  /** What getOrCreateMountTarget does with its lookup is a step of the state machine. */
  method DecideMountTarget(ghost c: Cloud, ghost p: Params, items: seq<(nat, Life)>) returns (next: Phase)
    requires ListsMt(c, p, items)
    ensures exists pick :: MtLookup(c, p, pick) == Some(next)
  {
    var conflict, found := LookUpByDisplayName(items);
    if conflict || |found| > 1 {
      ghost var i :| 0 <= i < |items| && (!Usable(items[i].1) || |items| > 1);
      assert |items| > 1 ==> items[0].0 != items[1].0;
      assert MtLookup(c, p, Some(items[i].0)) == Some(Failed);
      return Failed;
    }
    if |found| > 0 {
      assert MtLookup(c, p, Some(found[0])) == Some(AwaitMountTarget(found[0]));
      return AwaitMountTarget(found[0]);
    }
    assert MtLookup(c, p, None) == Some(CreateMountTarget);
    return CreateMountTarget;
  }

  /** How the driver continues after a read, given what the cloud holds now. */
  ghost function Read(s: State, p: Params, pick: Option<nat>): Option<Phase> {
    var c := s.cloud;
    match s.phase
    case FindMountTarget =>
      if p.mountTarget.Some? then Some(AwaitMountTarget(p.mountTarget.value)) else MtLookup(c, p, pick)
    case AwaitMountTarget(mt) =>
      if mt !in c.mts then Some(Failed)
      else if c.mts[mt].life == Active then Some(FindFileSystem(mt, c.mts[mt].exportSetId))
      else if c.mts[mt].life == Creating then Some(s.phase) else Some(Failed)
    case FindFileSystem(mt, es) => FsLookup(c, p, pick, mt, es)
    case AwaitFileSystem(fs, es) =>
      if fs !in c.fss then Some(Failed)
      else if c.fss[fs].life == Active then Some(SearchExport(fs, es))
      else if c.fss[fs].life == Deleting || c.fss[fs].life == Deleted then Some(Failed) else Some(s.phase)
    case SearchExport(fs, es) =>
      if pick.None? then if forall id :: !Matches(c, id, fs, es, p.path) then Some(CreateExport(fs, es)) else None
      else if !Matches(c, pick.value, fs, es, p.path) then None
      else if Usable(c.exports[pick.value].life) then Some(AwaitExport(fs, pick.value)) else Some(Failed)
    case AwaitExport(fs, e) =>
      if e !in c.exports then Some(Failed)
      else if c.exports[e].life == Active then Some(Created(fs, e))
      else if c.exports[e].life == Deleting || c.exports[e].life == Deleted then Some(Failed) else Some(s.phase)
    case GetFileSystem =>
      if s.handle.None? then None
      else if s.handle.value !in c.fss then Some(Gone)
      else
        var f := c.fss[s.handle.value];
        if f.isDeleteMountTarget then Some(DeleteMountTarget(f.mountTargetOcid, f.exportSetId))
        else Some(FindExportToDelete(f.exportSetId))
    case FindExportToDelete(es) =>
      if s.handle.None? then None
      else if pick.None? then
        if forall id :: !Matches(c, id, s.handle.value, es, p.path) then Some(DeleteFileSystem) else None
      else if !Matches(c, pick.value, s.handle.value, es, p.path) then None
      else if Usable(c.exports[pick.value].life) then Some(DeleteExport(pick.value)) else Some(DeleteFileSystem)
    case _ => None
  }

  /** The listed exports are those of the file system in the export set. */
  ghost predicate ListsExports(c: Cloud, fs: nat, es: nat, items: seq<(nat, Export)>) {
    && (forall i | 0 <= i < |items| :: items[i].0 in c.exports && c.exports[items[i].0] == items[i].1)
    && (forall i | 0 <= i < |items| :: items[i].1.fileSystem == fs && items[i].1.exportSetId == es)
    && (forall id | id in c.exports && c.exports[id].fileSystem == fs && c.exports[id].exportSetId == es ::
          exists i :: 0 <= i < |items| && items[i].0 == id)
  }

  /** What getOrCreateExport does with its search is a step of the state machine. */
  method DecideExport(ghost s: State, ghost p: Params, items: seq<(nat, Export)>, fs: nat, es: nat, path: string)
      returns (next: Phase)
    requires s.phase == SearchExport(fs, es) && p.path == path && ListsExports(s.cloud, fs, es, items)
    ensures exists pick :: Read(s, p, pick) == Some(next)
  {
    var found, usable := FindExport(items, path);
    if found.None? {
      assert Read(s, p, None) == Some(CreateExport(fs, es));
      return CreateExport(fs, es);
    }
    next := if usable then AwaitExport(fs, found.value) else Failed;
    assert Read(s, p, found) == Some(next);
  }

  /** What DeleteVolume does with its search is a step of the state machine. */
  method DecideExportToDelete(ghost s: State, ghost p: Params, items: seq<(nat, Export)>, fs: nat, es: nat,
                              path: string)
      returns (next: Phase)
    requires s.phase == FindExportToDelete(es) && s.handle == Some(fs) && p.path == path
    requires ListsExports(s.cloud, fs, es, items)
    ensures exists pick :: Read(s, p, pick) == Some(next)
  {
    var found, usable := FindExport(items, path);
    if found.None? || !usable {
      next := DeleteFileSystem;
    } else {
      next := DeleteExport(found.value);
    }
    assert Read(s, p, found) == Some(next);
  }

  /** A create request with its new id, and the phase a confirmed one leads to. */
  ghost function Create(s: State, p: Params, id: nat, es: nat): Option<(Cloud, Phase)> {
    var c := s.cloud;
    match s.phase
    case CreateMountTarget =>
      if id in c.mts then None
      else Some((c.(mts := c.mts[id := MountTarget(p.name, Creating, es)]), AwaitMountTarget(id)))
    case CreateFileSystem(mt, es) =>
      if id in c.fss || s.handle == Some(id) || (exists e :: e in c.exports && c.exports[e].fileSystem == id) then None
      else Some((c.(fss := c.fss[id := FileSystem(p.name, Creating, mt, p.mountTarget.None?, es)]),
                 AwaitFileSystem(id, es)))
    case CreateExport(fs, es) =>
      if id in c.exports then None
      else Some((c.(exports := c.exports[id := Export(fs, es, p.path, Creating)]), AwaitExport(fs, id)))
    case _ => None
  }

  /** A delete request; a missing resource counts as deleted, except for an export. */
  ghost function Delete(s: State): Option<(Cloud, Phase)> {
    var c := s.cloud;
    match s.phase
    case DeleteMountTarget(mt, es) =>
      Some((if mt in c.mts then c.(mts := c.mts[mt := c.mts[mt].(life := Dying(c.mts[mt].life))]) else c,
            FindExportToDelete(es)))
    case DeleteExport(e) =>
      if e !in c.exports then Some((c, Failed))
      else
        Some((c.(exports := c.exports[e := c.exports[e].(life := Dying(c.exports[e].life))]), DeleteFileSystem))
    case DeleteFileSystem =>
      if s.handle.None? then None
      else
        var f := s.handle.value;
        Some((if f in c.fss then c.(fss := c.fss[f := c.fss[f].(life := Dying(c.fss[f].life))]) else c, Gone))
    case _ => None
  }

  ghost function Move(s: State, e: Event): Option<Cloud> {
    var c := s.cloud;
    match e
    case FileSystemMoves(id, to) =>
      if id in c.fss && CanMove(c.fss[id].life, to) then
        Some(c.(fss := if to.None? then c.fss - {id} else c.fss[id := c.fss[id].(life := to.value)]))
      else None
    case MountTargetMoves(id, to) =>
      if id in c.mts && CanMove(c.mts[id].life, to) then
        Some(c.(mts := if to.None? then c.mts - {id} else c.mts[id := c.mts[id].(life := to.value)]))
      else None
    case ExportMoves(id, to) =>
      if id in c.exports && CanMove(c.exports[id].life, to) then
        Some(c.(exports := if to.None? then c.exports - {id} else c.exports[id := c.exports[id].(life := to.value)]))
      else None
    case _ => None
  }

  /** The state after an event; None when the event cannot happen. */
  ghost function Step(s: State, p: Params, e: Event): Option<State> {
    match e
    case BeginCreate => if s.phase.Idle? && !s.deleting then Some(s.(phase := FindMountTarget)) else None
    case BeginDelete =>
      if s.phase.Idle? && s.handle.Some? then Some(s.(phase := GetFileSystem, deleting := true)) else None
    case Answers(pick) => var ph := Read(s, p, pick); if ph.Some? then Some(s.(phase := ph.value)) else None
    case Creates(id, es, acked) =>
      var r := Create(s, p, id, es);
      if r.Some? then Some(s.(cloud := r.value.0, phase := if acked then r.value.1 else Failed)) else None
    case Deletes(acked) =>
      var r := Delete(s);
      if r.Some? then Some(s.(cloud := r.value.0, phase := if acked then r.value.1 else Failed)) else None
    case CallFails => if s.phase.Idle? then None else Some(s.(phase := Failed))
    case Returns =>
      if s.phase.Created? then Some(s.(phase := Idle, handle := Some(s.phase.fs)))
      else if s.phase.Gone? || s.phase.Failed? then Some(s.(phase := Idle)) else None
    case _ => var c := Move(s, e); if c.Some? then Some(s.(cloud := c.value)) else None
  }
}
