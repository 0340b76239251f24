/**
 Safety of every run of the file-storage state machine: repeated create attempts never leave more
 than one file system, one driver-made mount target or one export for a volume, a volume handed out
 is backed by active resources, and a delete that reports success leaves none of them.
 */
module FileStorageRuns {
  import opened Common
  import opened FileStorage

  predicate Alive(l: Life) {
    l != Deleting && l != Deleted
  }

  // ---------- The invariant ----------

  ghost predicate ExportOf(c: Cloud, fs: nat, e: nat) {
    e in c.exports && c.exports[e].fileSystem == fs
  }

  ghost predicate AtMostOneExport(c: Cloud, fs: nat) {
    forall a, b | ExportOf(c, fs, a) && ExportOf(c, fs, b) :: a == b
  }

  /** At most one mount target carries the volume name when the driver makes it, at most one file
      system does, and that has at most one export. */
  ghost predicate Unique(c: Cloud, p: Params) {
    && (p.mountTarget.None? ==> forall a, b | NamedMt(c, p, a) && NamedMt(c, p, b) :: a == b)
    && (forall a, b | NamedFs(c, p, a) && NamedFs(c, p, b) :: a == b)
    && (forall f | NamedFs(c, p, f) :: AtMostOneExport(c, f))
  }

  /** The mount target that the volume uses. */
  ghost predicate IsMt(c: Cloud, p: Params, mt: nat) {
    if p.mountTarget.Some? then p.mountTarget == Some(mt) else forall m | NamedMt(c, p, m) :: m == mt
  }

  /** Every export of the file system is in this export set, under the volume's path. */
  ghost predicate ExportsIn(c: Cloud, p: Params, fs: nat, es: nat) {
    forall e | ExportOf(c, fs, e) :: c.exports[e].exportSetId == es && c.exports[e].path == p.path
  }

  /** The tags of the file system name the mount target in use and its export set. */
  ghost predicate Tagged(c: Cloud, p: Params, f: nat)
    requires f in c.fss
  {
    var t := c.fss[f];
    && t.isDeleteMountTarget == p.mountTarget.None?
    && IsMt(c, p, t.mountTargetOcid)
    && (t.mountTargetOcid in c.mts ==> c.mts[t.mountTargetOcid].exportSetId == t.exportSetId)
    && (t.mountTargetOcid in c.mts && p.mountTarget.None? ==> NamedMt(c, p, t.mountTargetOcid))
    && ExportsIn(c, p, f, t.exportSetId)
  }

  ghost predicate MtGone(c: Cloud, p: Params) {
    p.mountTarget.None? ==> forall m | NamedMt(c, p, m) :: c.mts[m].life == Deleting || c.mts[m].life == Deleted
  }

  ghost predicate ExportsGone(c: Cloud, fs: nat) {
    forall e | ExportOf(c, fs, e) :: c.exports[e].life != Creating && c.exports[e].life != Active
  }

  ghost predicate FsGone(c: Cloud, fs: nat) {
    fs in c.fss ==> c.fss[fs].life == Deleting || c.fss[fs].life == Deleted
  }

  ghost predicate ActiveMt(c: Cloud, p: Params, mt: nat, es: nat) {
    && mt in c.mts && c.mts[mt].exportSetId == es && c.mts[mt].life == Active
    && (if p.mountTarget.Some? then p.mountTarget == Some(mt) else NamedMt(c, p, mt))
  }

  /** A file system of the volume whose tagged mount target is active. */
  ghost predicate Served(c: Cloud, p: Params, fs: nat, es: nat) {
    NamedFs(c, p, fs) && c.fss[fs].exportSetId == es && ActiveMt(c, p, c.fss[fs].mountTargetOcid, es)
  }

  ghost predicate ServedActive(c: Cloud, p: Params, fs: nat, es: nat) {
    Served(c, p, fs, es) && c.fss[fs].life == Active
  }

  ghost predicate CreateInv(c: Cloud, p: Params, ph: Phase) {
    match ph
    case CreateMountTarget => p.mountTarget.None? && forall m :: !NamedMt(c, p, m)
    case AwaitMountTarget(mt) => if p.mountTarget.Some? then p.mountTarget == Some(mt) else NamedMt(c, p, mt)
    case FindFileSystem(mt, es) => ActiveMt(c, p, mt, es)
    case CreateFileSystem(mt, es) => ActiveMt(c, p, mt, es) && forall f :: !NamedFs(c, p, f)
    case AwaitFileSystem(fs, es) => Served(c, p, fs, es)
    case SearchExport(fs, es) => ServedActive(c, p, fs, es)
    case CreateExport(fs, es) => ServedActive(c, p, fs, es) && forall e :: !ExportOf(c, fs, e)
    case AwaitExport(fs, e) => fs in c.fss && ServedActive(c, p, fs, c.fss[fs].exportSetId) && ExportOf(c, fs, e)
    case Created(fs, e) =>
      fs in c.fss && ServedActive(c, p, fs, c.fss[fs].exportSetId) && ExportOf(c, fs, e) && c.exports[e].life == Active
    case _ => true
  }

  ghost predicate DeleteInv(c: Cloud, p: Params, ph: Phase, fs: nat) {
    match ph
    case DeleteMountTarget(mt, es) =>
      p.mountTarget.None? && ExportsIn(c, p, fs, es) && IsMt(c, p, mt) && (mt in c.mts ==> NamedMt(c, p, mt))
    case FindExportToDelete(es) => MtGone(c, p) && ExportsIn(c, p, fs, es)
    case DeleteExport(e) =>
      MtGone(c, p) && (e in c.exports ==> ExportOf(c, fs, e)) && forall x | ExportOf(c, fs, x) :: x == e
    case DeleteFileSystem => MtGone(c, p) && ExportsGone(c, fs)
    case Gone => MtGone(c, p) && ExportsGone(c, fs) && FsGone(c, fs)
    case _ => true
  }

  predicate CreatePhase(ph: Phase) {
    ph.FindMountTarget? || ph.CreateMountTarget? || ph.AwaitMountTarget? || ph.FindFileSystem? ||
    ph.CreateFileSystem? || ph.AwaitFileSystem? || ph.SearchExport? || ph.CreateExport? || ph.AwaitExport? ||
    ph.Created?
  }

  predicate DeletePhase(ph: Phase) {
    ph.GetFileSystem? || ph.DeleteMountTarget? || ph.FindExportToDelete? || ph.DeleteExport? || ph.DeleteFileSystem? ||
    ph.Gone?
  }

  /** Before deletion begins nothing of the volume is going away. */
  ghost predicate Early(c: Cloud, p: Params) {
    && (forall f | NamedFs(c, p, f) :: Alive(c.fss[f].life))
    && (p.mountTarget.None? ==> forall m | NamedMt(c, p, m) :: Alive(c.mts[m].life))
    && (forall f, e | NamedFs(c, p, f) && ExportOf(c, f, e) :: Alive(c.exports[e].life))
    && (p.mountTarget.None? ==> forall f | NamedFs(c, p, f) :: NamedMt(c, p, c.fss[f].mountTargetOcid))
  }

  /** The file system goes last: once it is going, the rest is gone. */
  ghost predicate Late(c: Cloud, p: Params, fs: nat) {
    && (fs in c.fss ==> NamedFs(c, p, fs))
    && AtMostOneExport(c, fs)
    && (FsGone(c, fs) ==> MtGone(c, p) && ExportsGone(c, fs))
  }

  ghost predicate CloudInv(c: Cloud, p: Params) {
    Unique(c, p) && forall f | NamedFs(c, p, f) :: Tagged(c, p, f)
  }

  ghost predicate Inv(s: State, p: Params) {
    && CloudInv(s.cloud, p)
    && CreateInv(s.cloud, p, s.phase)
    && (CreatePhase(s.phase) ==> !s.deleting)
    && (DeletePhase(s.phase) ==> s.deleting)
    && (if s.deleting then s.handle.Some? && DeleteInv(s.cloud, p, s.phase, s.handle.value) else Early(s.cloud, p))
    && (s.handle.Some? ==> Late(s.cloud, p, s.handle.value) && (!s.deleting ==> NamedFs(s.cloud, p, s.handle.value)))
  }

  // ---------- Ageing: lifecycles move forward, nothing else changes ----------

  ghost predicate Fades(l: Life, m: Life) {
    (Alive(m) ==> Alive(l)) && (Usable(m) ==> Usable(l))
  }

  ghost predicate FsAges(c: map<nat, FileSystem>, d: map<nat, FileSystem>) {
    forall i | i in d :: i in c && d[i] == c[i].(life := d[i].life) && Fades(c[i].life, d[i].life)
  }

  ghost predicate MtAges(c: map<nat, MountTarget>, d: map<nat, MountTarget>) {
    forall i | i in d :: i in c && d[i] == c[i].(life := d[i].life) && Fades(c[i].life, d[i].life)
  }

  ghost predicate ExAges(c: map<nat, Export>, d: map<nat, Export>) {
    forall i | i in d :: i in c && d[i] == c[i].(life := d[i].life) && Fades(c[i].life, d[i].life)
  }

  ghost predicate Ages(c: Cloud, d: Cloud) {
    FsAges(c.fss, d.fss) && MtAges(c.mts, d.mts) && ExAges(c.exports, d.exports)
  }

  lemma AgesSelf(c: Cloud)
    ensures Ages(c, c)
  {}

  ghost predicate Stays(l: Life, m: Life) {
    Alive(m) && (l == Active ==> m == Active)
  }

  /** What is alive stays there and alive, and what is active stays active. */
  ghost predicate Spares(c: Cloud, d: Cloud) {
    && (forall i | i in c.fss && Alive(c.fss[i].life) :: i in d.fss && Stays(c.fss[i].life, d.fss[i].life))
    && (forall i | i in c.mts && Alive(c.mts[i].life) :: i in d.mts && Stays(c.mts[i].life, d.mts[i].life))
    && (forall i | i in c.exports && Alive(c.exports[i].life) ::
        i in d.exports && Stays(c.exports[i].life, d.exports[i].life))
  }

  lemma MoveAges(s: State, e: Event)
    requires Move(s, e).Some?
    ensures Ages(s.cloud, Move(s, e).value)
  {
    AgesSelf(s.cloud);
  }

  lemma MoveSpares(s: State, e: Event)
    requires Move(s, e).Some?
    ensures Spares(s.cloud, Move(s, e).value)
  {}

  lemma AgesNames(c: Cloud, d: Cloud, p: Params)
    requires Ages(c, d)
    ensures forall i | NamedFs(d, p, i) :: NamedFs(c, p, i)
    ensures forall i | NamedMt(d, p, i) :: NamedMt(c, p, i)
    ensures forall f, i | ExportOf(d, f, i) :: ExportOf(c, f, i)
  {}

  lemma AgesUnique(c: Cloud, d: Cloud, p: Params)
    requires Ages(c, d) && Unique(c, p)
    ensures Unique(d, p)
  {
    AgesNames(c, d, p);
  }

  lemma AgesTagged(c: Cloud, d: Cloud, p: Params, f: nat)
    requires Ages(c, d) && NamedFs(c, p, f) && Tagged(c, p, f) && f in d.fss
    ensures Tagged(d, p, f)
  {
    AgesNames(c, d, p);
  }

  lemma AgesCloudInv(c: Cloud, d: Cloud, p: Params)
    requires Ages(c, d) && CloudInv(c, p)
    ensures CloudInv(d, p)
  {
    AgesUnique(c, d, p);
    forall f | NamedFs(d, p, f) ensures Tagged(d, p, f) {
      AgesNames(c, d, p);
      AgesTagged(c, d, p, f);
    }
  }

  lemma AgesGone(c: Cloud, d: Cloud, p: Params, fs: nat)
    requires Ages(c, d)
    ensures MtGone(c, p) ==> MtGone(d, p)
    ensures ExportsGone(c, fs) ==> ExportsGone(d, fs)
    ensures FsGone(c, fs) ==> FsGone(d, fs)
    ensures forall es :: ExportsIn(c, p, fs, es) ==> ExportsIn(d, p, fs, es)
    ensures AtMostOneExport(c, fs) ==> AtMostOneExport(d, fs)
  {
    AgesNames(c, d, p);
  }

  lemma SparesEarly(c: Cloud, d: Cloud, p: Params)
    requires Ages(c, d) && Spares(c, d) && Early(c, p)
    ensures Early(d, p)
    ensures forall f | NamedFs(c, p, f) :: NamedFs(d, p, f)
    ensures p.mountTarget.None? ==> forall m | NamedMt(c, p, m) :: NamedMt(d, p, m)
  {
    AgesNames(c, d, p);
  }

  lemma SparesServed(c: Cloud, d: Cloud, p: Params, mt: nat, es: nat)
    requires Ages(c, d) && Spares(c, d) && ActiveMt(c, p, mt, es)
    ensures ActiveMt(d, p, mt, es)
  {}

  lemma SparesCreateInv(c: Cloud, d: Cloud, p: Params, ph: Phase)
    requires Ages(c, d) && Spares(c, d) && Early(c, p) && CreateInv(c, p, ph)
    ensures CreateInv(d, p, ph)
  {
    SparesEarly(c, d, p);
    AgesNames(c, d, p);
    match ph
    case FindFileSystem(mt, es) => SparesServed(c, d, p, mt, es);
    case CreateFileSystem(mt, es) => SparesServed(c, d, p, mt, es);
    case AwaitFileSystem(fs, es) => SparesServed(c, d, p, c.fss[fs].mountTargetOcid, es);
    case SearchExport(fs, es) => SparesServed(c, d, p, c.fss[fs].mountTargetOcid, es);
    case CreateExport(fs, es) => SparesServed(c, d, p, c.fss[fs].mountTargetOcid, es);
    case AwaitExport(fs, e) => SparesServed(c, d, p, c.fss[fs].mountTargetOcid, c.fss[fs].exportSetId);
    case Created(fs, e) => SparesServed(c, d, p, c.fss[fs].mountTargetOcid, c.fss[fs].exportSetId);
    case _ =>
  }

  lemma AgesDeleteInv(c: Cloud, d: Cloud, p: Params, ph: Phase, fs: nat)
    requires Ages(c, d) && DeleteInv(c, p, ph, fs)
    ensures DeleteInv(d, p, ph, fs)
  {
    AgesNames(c, d, p);
    AgesGone(c, d, p, fs);
  }

  lemma AgesLate(c: Cloud, d: Cloud, p: Params, fs: nat)
    requires Ages(c, d) && Late(c, p, fs)
    requires FsGone(d, fs) ==> FsGone(c, fs) || (MtGone(c, p) && ExportsGone(c, fs))
    ensures Late(d, p, fs)
  {
    AgesGone(c, d, p, fs);
  }

  // ---------- Every step keeps the invariant ----------

  lemma MoveKeeps(s: State, p: Params, e: Event)
    requires Inv(s, p) && Move(s, e).Some?
    ensures Inv(s.(cloud := Move(s, e).value), p)
  {
    var c, d := s.cloud, Move(s, e).value;
    MoveAges(s, e);
    MoveSpares(s, e);
    AgesCloudInv(c, d, p);
    if s.deleting {
      AgesDeleteInv(c, d, p, s.phase, s.handle.value);
    } else {
      SparesEarly(c, d, p);
      SparesCreateInv(c, d, p, s.phase);
    }
    if s.handle.Some? {
      AgesLate(c, d, p, s.handle.value);
    }
  }

  /** FindExport searches one export set and path; the tags make that a search of all exports. */
  lemma SearchIsComplete(c: Cloud, p: Params, fs: nat, es: nat, pick: Option<nat>)
    requires ExportsIn(c, p, fs, es) && AtMostOneExport(c, fs)
    ensures (forall id :: !Matches(c, id, fs, es, p.path)) ==> forall e :: !ExportOf(c, fs, e)
    ensures pick.Some? && Matches(c, pick.value, fs, es, p.path) ==>
            ExportOf(c, fs, pick.value) && forall e | ExportOf(c, fs, e) :: e == pick.value
  {
    forall e | ExportOf(c, fs, e) ensures Matches(c, e, fs, es, p.path) {}
  }

  /** A file system found by name was tagged with the mount target in use. */
  lemma FoundIsServed(c: Cloud, p: Params, f: nat, mt: nat, es: nat)
    requires NamedFs(c, p, f) && Tagged(c, p, f) && ActiveMt(c, p, mt, es)
    ensures Served(c, p, f, es)
  {
    assert c.fss[f].mountTargetOcid == mt;
  }

  lemma CreateReadKeeps(s: State, p: Params, pick: Option<nat>)
    requires Inv(s, p) && !s.deleting && Read(s, p, pick).Some?
    ensures CreateInv(s.cloud, p, Read(s, p, pick).value) && !DeletePhase(Read(s, p, pick).value)
  {
    match s.phase
    case FindFileSystem(mt, es) =>
      if pick.Some? {
        FoundIsServed(s.cloud, p, pick.value, mt, es);
      }
    case SearchExport(fs, es) => SearchIsComplete(s.cloud, p, fs, es, pick);
    case _ =>
  }

  lemma DeleteReadKeeps(s: State, p: Params, pick: Option<nat>)
    requires Inv(s, p) && s.deleting && Read(s, p, pick).Some?
    ensures DeleteInv(s.cloud, p, Read(s, p, pick).value, s.handle.value) && !CreatePhase(Read(s, p, pick).value)
  {
    match s.phase
    case FindExportToDelete(es) => SearchIsComplete(s.cloud, p, s.handle.value, es, pick);
    case _ =>
  }

  lemma ReadKeeps(s: State, p: Params, pick: Option<nat>)
    requires Inv(s, p) && Read(s, p, pick).Some?
    ensures Inv(s.(phase := Read(s, p, pick).value), p)
  {
    if s.deleting {
      DeleteReadKeeps(s, p, pick);
    } else {
      CreateReadKeeps(s, p, pick);
    }
  }

  // A new resource: nothing of its kind was there before.

  lemma NewMountTarget(c: Cloud, p: Params, id: nat, es: nat)
    requires CloudInv(c, p) && Early(c, p) && CreateInv(c, p, CreateMountTarget) && id !in c.mts
    ensures var d := c.(mts := c.mts[id := MountTarget(p.name, Creating, es)]);
            CloudInv(d, p) && Early(d, p) && NamedMt(d, p, id) && forall f :: !NamedFs(c, p, f)
  {
    var d := c.(mts := c.mts[id := MountTarget(p.name, Creating, es)]);
    forall f ensures !NamedFs(c, p, f) && !NamedFs(d, p, f) {
      assert NamedFs(c, p, f) ==> NamedMt(c, p, c.fss[f].mountTargetOcid);
    }
    forall m | NamedMt(d, p, m) ensures m == id {
      assert !NamedMt(c, p, m);
    }
  }

  lemma NewFileSystem(c: Cloud, p: Params, mt: nat, es: nat, id: nat)
    requires CloudInv(c, p) && Early(c, p) && CreateInv(c, p, CreateFileSystem(mt, es)) && id !in c.fss
    requires forall e :: !ExportOf(c, id, e)
    ensures var d := c.(fss := c.fss[id := FileSystem(p.name, Creating, mt, p.mountTarget.None?, es)]);
            CloudInv(d, p) && Early(d, p) && Served(d, p, id, es)
  {
    var d := c.(fss := c.fss[id := FileSystem(p.name, Creating, mt, p.mountTarget.None?, es)]);
    forall f | NamedFs(d, p, f) ensures f == id {
      assert !NamedFs(c, p, f);
    }
    assert forall m :: NamedMt(d, p, m) <==> NamedMt(c, p, m);
    assert forall e :: !ExportOf(d, id, e) by {
      assert forall e :: ExportOf(d, id, e) <==> ExportOf(c, id, e);
    }
  }

  lemma NewExport(c: Cloud, p: Params, fs: nat, es: nat, id: nat)
    requires CloudInv(c, p) && Early(c, p) && CreateInv(c, p, CreateExport(fs, es)) && id !in c.exports
    ensures var d := c.(exports := c.exports[id := Export(fs, es, p.path, Creating)]);
            CloudInv(d, p) && Early(d, p) && ServedActive(d, p, fs, es) && ExportOf(d, fs, id) && AtMostOneExport(d, fs)
  {
    var d := c.(exports := c.exports[id := Export(fs, es, p.path, Creating)]);
    assert forall f :: NamedFs(d, p, f) <==> NamedFs(c, p, f);
    assert forall m :: NamedMt(d, p, m) <==> NamedMt(c, p, m);
    assert forall e :: ExportOf(d, fs, e) <==> e == id by {
      assert forall e :: ExportOf(d, fs, e) && e != id ==> ExportOf(c, fs, e);
    }
    assert Tagged(d, p, fs);
  }

  lemma CreateKeeps(s: State, p: Params, id: nat, es: nat)
    requires Inv(s, p) && Create(s, p, id, es).Some?
    ensures var r := Create(s, p, id, es).value;
            && Inv(s.(cloud := r.0, phase := r.1), p) && Inv(s.(cloud := r.0, phase := Failed), p)
  {
    match s.phase
    case CreateMountTarget => NewMountTarget(s.cloud, p, id, es);
    case CreateFileSystem(mt, set_) =>
      assert forall e :: !ExportOf(s.cloud, id, e);
      NewFileSystem(s.cloud, p, mt, set_, id);
    case CreateExport(fs, set_) => NewExport(s.cloud, p, fs, set_, id);
  }

  // Deleting: the resource fades, and what it leaves behind is what the next phase relies on.

  lemma DeleteAges(s: State)
    requires Delete(s).Some?
    ensures Ages(s.cloud, Delete(s).value.0)
  {
    AgesSelf(s.cloud);
  }

  lemma DeleteAdvances(s: State, p: Params)
    requires Inv(s, p) && Delete(s).Some?
    ensures DeleteInv(Delete(s).value.0, p, Delete(s).value.1, s.handle.value)
  {
    var c, d := s.cloud, Delete(s).value.0;
    DeleteAges(s);
    AgesNames(c, d, p);
    AgesGone(c, d, p, s.handle.value);
  }

  lemma DeleteFadesLast(s: State, p: Params)
    requires Inv(s, p) && Delete(s).Some?
    ensures Late(Delete(s).value.0, p, s.handle.value)
  {
    DeleteAges(s);
    AgesLate(s.cloud, Delete(s).value.0, p, s.handle.value);
  }

  lemma DeleteKeeps(s: State, p: Params)
    requires Inv(s, p) && Delete(s).Some?
    ensures var r := Delete(s).value;
            && Inv(s.(cloud := r.0, phase := r.1), p) && Inv(s.(cloud := r.0, phase := Failed), p)
  {
    DeleteAges(s);
    AgesCloudInv(s.cloud, Delete(s).value.0, p);
    DeleteAdvances(s, p);
    DeleteFadesLast(s, p);
  }

  lemma StepKeeps(s: State, p: Params, e: Event)
    requires Inv(s, p) && Step(s, p, e).Some?
    ensures Inv(Step(s, p, e).value, p)
  {
    match e
    case Answers(pick) => ReadKeeps(s, p, pick);
    case Creates(id, es, acked) => CreateKeeps(s, p, id, es);
    case Deletes(acked) => DeleteKeeps(s, p);
    case FileSystemMoves(id, to) => MoveKeeps(s, p, e);
    case MountTargetMoves(id, to) => MoveKeeps(s, p, e);
    case ExportMoves(id, to) => MoveKeeps(s, p, e);
    case _ =>
  }

  // ---------- Whole runs ----------

  predicate ByTheDriver(e: Event) {
    !e.FileSystemMoves? && !e.MountTargetMoves? && !e.ExportMoves?
  }

  /** Resources of other volumes and a mount target supplied by the user are left as they are. */
  ghost predicate TouchesOwn(c: Cloud, d: Cloud, p: Params, handle: Option<nat>) {
    && (forall f | f in c.fss && !NamedFs(c, p, f) :: f in d.fss && d.fss[f] == c.fss[f])
    && (forall m | m in c.mts && (p.mountTarget.Some? || !NamedMt(c, p, m)) :: m in d.mts && d.mts[m] == c.mts[m])
    && (forall e | e in c.exports && !NamedFs(c, p, c.exports[e].fileSystem) &&
        handle != Some(c.exports[e].fileSystem) ::
          e in d.exports && d.exports[e] == c.exports[e])
  }

  lemma CreateTouchesOwn(s: State, p: Params, id: nat, es: nat)
    requires Create(s, p, id, es).Some?
    ensures TouchesOwn(s.cloud, Create(s, p, id, es).value.0, p, s.handle)
  {}

  lemma DeleteTouchesOwn(s: State, p: Params)
    requires Inv(s, p) && Delete(s).Some?
    ensures TouchesOwn(s.cloud, Delete(s).value.0, p, s.handle)
  {}

  lemma DriverTouchesOwn(s: State, p: Params, e: Event)
    requires Inv(s, p) && Step(s, p, e).Some? && ByTheDriver(e)
    ensures TouchesOwn(s.cloud, Step(s, p, e).value.cloud, p, s.handle)
  {
    match e
    case Creates(id, es, acked) => CreateTouchesOwn(s, p, id, es);
    case Deletes(acked) => DeleteTouchesOwn(s, p);
    case _ =>
  }

  /** No resource carries the volume's name yet. */
  ghost predicate Init(s: State, p: Params) {
    && s.phase.Idle? && s.handle.None? && !s.deleting
    && (forall f :: !NamedFs(s.cloud, p, f))
    && (p.mountTarget.None? ==> forall m :: !NamedMt(s.cloud, p, m))
  }

  ghost predicate IsRun(states: seq<State>, events: seq<Event>, p: Params) {
    && |states| == |events| + 1 && Init(states[0], p)
    && forall i | 0 <= i < |events| :: Step(states[i], p, events[i]) == Some(states[i + 1])
  }

  /** What holds of every reachable state. */
  ghost predicate Safe(s: State, p: Params) {
    && Unique(s.cloud, p)
    && (s.phase.Created? ==>
          var fs, e := s.phase.fs, s.phase.ex;
          && fs in s.cloud.fss && ServedActive(s.cloud, p, fs, s.cloud.fss[fs].exportSetId)
          && Matches(s.cloud, e, fs, s.cloud.fss[fs].exportSetId, p.path) && s.cloud.exports[e].life == Active)
    && (s.phase.Gone? ==>
          s.handle.Some? && FsGone(s.cloud, s.handle.value) && ExportsGone(s.cloud, s.handle.value) &&
              MtGone(s.cloud, p))
  }

  lemma {:induction false} RunInv(states: seq<State>, events: seq<Event>, p: Params, k: nat)
    requires IsRun(states, events, p) && k < |states|
    ensures Inv(states[k], p)
    decreases k
  {
    if k > 0 {
      RunInv(states, events, p, k - 1);
      assert Step(states[k - 1], p, events[k - 1]) == Some(states[k]);
      StepKeeps(states[k - 1], p, events[k - 1]);
    }
  }

  /** Over every run: never two file systems, driver-made mount targets or exports for the volume; a
      volume handed out is served by active resources; a successful delete leaves none of its own;
      and the driver never touches anything else. */
  lemma RunIsSafe(states: seq<State>, events: seq<Event>, p: Params, k: nat)
    requires IsRun(states, events, p) && k < |states|
    ensures Safe(states[k], p)
    ensures k < |events| && ByTheDriver(events[k]) ==>
            TouchesOwn(states[k].cloud, states[k + 1].cloud, p, states[k].handle)
  {
    RunInv(states, events, p, k);
    if k < |events| && ByTheDriver(events[k]) {
      assert Step(states[k], p, events[k]) == Some(states[k + 1]);
      DriverTouchesOwn(states[k], p, events[k]);
    }
  }
}
