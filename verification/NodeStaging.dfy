/**
 Staging and unstaging one iSCSI block volume on a node: the node record, the session and the mount,
 and what each failing step leaves behind. A failing call may still have taken effect where iscsiadm
 can do so; the `left` parameters say what a failing one leaves.
 */
module NodeStaging {

  /** What the node holds of the volume. */
  datatype Disk = Disk(record: bool, session: bool, mounted: bool)

  /** A cleanup error is the one reported when logging out after a failure itself fails. */
  datatype Reply = Ok | Error | CleanupError

  /** How logging out and removing the record go. */
  datatype Cleanup = Cleanup(logoutFails: bool, sessionLeft: bool, removeFails: bool, recordLeft: bool)

  /** The request and what its steps meet. `existingFs` is empty when the disk is blank or its
      format cannot be read. */
  datatype Staging = Staging(
    raw: bool, fsType: string, isMountedFails: bool, addFails: bool, badPerformanceLevel: bool, higherPerformance: bool,
    queueDepthFails: bool, automaticLoginFails: bool, loginFails: bool, loginLeft: bool, devicePathMissing: bool,
    loginTimesOut: bool, pathTimesOut: bool, createFileFails: bool, statFails: bool, pathExists: bool, mkdirFails: bool,
    existingFs: string, mountFails: bool, cleanup: Cleanup)

  /** What a mount handler makes of the three waits after login: whether it looks for the device
      path at all, and whether the waits for the login and for the path succeed. */
  datatype Mounter = Mounter(waitsForDevice: bool, loginWait: Staging -> bool, pathWait: Staging -> bool)

  /** The iSCSI mounter: it looks for the device path, and its other two waits are constants. */
  const ISCSI: Mounter := Mounter(true, (e: Staging) => true, (e: Staging) => true)

  datatype Unstaging = Unstaging(
    raw: bool, deviceCheckFails: bool, lookupFails: bool, unknownType: bool, infoFails: bool, noInfo: bool,
    openCheckFails: bool, notOpened: bool, unmountFails: bool, cleanup: Cleanup)

  // ---------- Specification ----------

  /** Logout, then RemoveFromDB; the second is not tried when the first fails. */
  function CleanedUp(d: Disk, c: Cleanup): Disk {
    if c.logoutFails then d.(session := d.session && c.sessionLeft)
    else Disk(d.record && c.removeFails && c.recordLeft, false, d.mounted)
  }

  predicate CleanupFails(c: Cleanup) {
    c.logoutFails || c.removeFails
  }

  /** The staging ends before login: on an earlier error, or because the volume is mounted. */
  predicate StopsBeforeLogin(d: Disk, e: Staging) {
    || (!e.raw && (e.isMountedFails || d.mounted))
    || e.addFails || e.badPerformanceLevel || (e.higherPerformance && e.queueDepthFails) || e.automaticLoginFails
  }

  predicate MissesDevice(m: Mounter, e: Staging) {
    m.waitsForDevice && e.devicePathMissing
  }

  /** The first step to fail after login is one of the two waits whose exits do not roll back. */
  predicate FailsInWait(m: Mounter, e: Staging) {
    !MissesDevice(m, e) && !(m.loginWait(e) && m.pathWait(e))
  }

  /** A step after login fails. */
  predicate FailsAfterLogin(m: Mounter, e: Staging) {
    || MissesDevice(m, e) || FailsInWait(m, e)
    || (if e.raw then e.createFileFails
        else e.statFails || (!e.pathExists && e.mkdirFails) || (e.existingFs != "" && e.existingFs != e.fsType))
    || e.mountFails
  }

  /** The staging gets past the login. */
  predicate LogsIn(d: Disk, e: Staging) {
    !StopsBeforeLogin(d, e) && !e.loginFails
  }

  predicate AlreadyMounted(d: Disk, e: Staging) {
    !e.raw && !e.isMountedFails && d.mounted
  }

  function Recorded(d: Disk, e: Staging): Disk {
    if (!e.raw && (e.isMountedFails || d.mounted)) || e.addFails then d else d.(record := true)
  }

  function Stage(m: Mounter, d: Disk, e: Staging): (Disk, Reply) {
    if AlreadyMounted(d, e) then (d, Ok)
    else if StopsBeforeLogin(d, e) then (Recorded(d, e), Error)
    else if e.loginFails then (Disk(true, d.session || e.loginLeft, d.mounted), Error)
    else if !FailsAfterLogin(m, e) then (Disk(true, true, true), Ok)
    else if FailsInWait(m, e) then (Disk(true, true, d.mounted), Error)
    else (CleanedUp(Disk(true, true, d.mounted), e.cleanup), if CleanupFails(e.cleanup) then CleanupError else Error)
  }

  /** Unstaging sees the mount: as a device file in raw mode, as a mount point otherwise. */
  predicate SeesMount(d: Disk, e: Unstaging) {
    d.mounted && (e.raw ==> !e.deviceCheckFails)
  }

  function Unstage(d: Disk, e: Unstaging): (Disk, Reply) {
    if e.lookupFails then (d, Error)
    else if !SeesMount(d, e) then (d, Ok)
    else if e.unknownType || e.infoFails then (d, Error)
    else if e.noInfo then (d, Ok)
    else if !e.raw && e.openCheckFails then (d, Error)
    else if !e.raw && e.notOpened then (d, Ok)
    else if e.unmountFails then (d, Error)
    else (CleanedUp(d.(mounted := false), e.cleanup), if CleanupFails(e.cleanup) then Error else Ok)
  }

  // ---------- The driver ----------

  class Node {
    var record: bool
    var session: bool
    var mounted: bool

    function State(): Disk
      reads this
    {
      Disk(record, session, mounted)
    }

    constructor ()
      ensures State() == Disk(false, false, false)
    {
      record, session, mounted := false, false, false;
    }

    method Logout(c: Cleanup) returns (ok: bool)
      modifies this
      ensures ok == !c.logoutFails
      ensures State() == old(State()).(session := !ok && old(session) && c.sessionLeft)
    {
      if c.logoutFails {
        session := session && c.sessionLeft;
        return false;
      }
      session := false;
      return true;
    }

    method RemoveFromDB(c: Cleanup) returns (ok: bool)
      modifies this
      ensures ok == !c.removeFails
      ensures State() == old(State()).(record := !ok && old(record) && c.recordLeft)
    {
      if c.removeFails {
        record := record && c.recordLeft;
        return false;
      }
      record := false;
      return true;
    }

    method ISCSILogoutOnFailure(c: Cleanup) returns (reply: Reply)
      modifies this
      ensures State() == CleanedUp(old(State()), c)
      ensures reply == if CleanupFails(c) then CleanupError else Error
    {
      var ok := Logout(c);
      if !ok {
        return CleanupError;
      }
      ok := RemoveFromDB(c);
      if !ok {
        return CleanupError;
      }
      return Error;
    }

    /** From the IsMounted check to the automatic login setting. */
    method PrepareRecord(e: Staging) returns (reply: Reply, go: bool)
      modifies this
      ensures go == !StopsBeforeLogin(old(State()), e)
      ensures State() == Recorded(old(State()), e)
      ensures !go ==> reply == if AlreadyMounted(old(State()), e) then Ok else Error
    {
      if !e.raw {
        if e.isMountedFails {
          return Error, false;
        } else if mounted {
          return Ok, false;
        }
      }
      if e.addFails {
        return Error, false;
      }
      record := true;
      if e.badPerformanceLevel {
        return Error, false;
      }
      if e.higherPerformance {
        if e.queueDepthFails {
          return Error, false;
        }
      }
      if e.automaticLoginFails {
        return Error, false;
      }
      return Ok, true;
    }

    /** NodeStageVolume. Every exit after login makes its own call to the cleanup, except those of
        the two waits; an error after login leaves neither session nor record, short of an error of
        the cleanup itself, exactly when neither of these waits is what failed. */
    method NodeStageVolume(m: Mounter, e: Staging) returns (reply: Reply)
      modifies this
      ensures (State(), reply) == Stage(m, old(State()), e)
      ensures LogsIn(old(State()), e) && reply == Error ==> (!session && !record <==> !FailsInWait(m, e))
    {
      var go;
      reply, go := PrepareRecord(e);
      if !go {
        return;
      }
      if e.loginFails {
        session := session || e.loginLeft;
        return Error;
      }
      session := true;
      if m.waitsForDevice {
        if e.devicePathMissing {
          reply := ISCSILogoutOnFailure(e.cleanup);
          return;
        }
      }
      if !m.loginWait(e) {
        return Error;
      }
      if !m.pathWait(e) {
        return Error;
      }
      if e.raw {
        if e.createFileFails {
          reply := ISCSILogoutOnFailure(e.cleanup);
          return;
        }
        if e.mountFails {
          reply := ISCSILogoutOnFailure(e.cleanup);
          return;
        }
        mounted := true;
        return Ok;
      }
      if e.statFails {
        reply := ISCSILogoutOnFailure(e.cleanup);
        return;
      }
      if !e.pathExists {
        if e.mkdirFails {
          reply := ISCSILogoutOnFailure(e.cleanup);
          return;
        }
      }
      if e.existingFs != "" && e.existingFs != e.fsType {
        reply := ISCSILogoutOnFailure(e.cleanup);
        return;
      }
      if e.mountFails {
        reply := ISCSILogoutOnFailure(e.cleanup);
        return;
      }
      mounted := true;
      return Ok;
    }

    method NodeUnstageVolume(e: Unstaging) returns (reply: Reply)
      modifies this
      ensures (State(), reply) == Unstage(old(State()), e)
    {
      var isRaw := e.raw && mounted && !e.deviceCheckFails;
      if e.lookupFails {
        return Error;
      }
      if !isRaw && (e.raw || !mounted) {
        return Ok;
      }
      if e.unknownType || e.infoFails {
        return Error;
      }
      if e.noInfo {
        return Ok;
      }
      if !isRaw {
        if e.openCheckFails {
          return Error;
        } else if e.notOpened {
          return Ok;
        }
      }
      if e.unmountFails {
        return Error;
      }
      mounted := false;
      var ok := Logout(e.cleanup);
      if !ok {
        return Error;
      }
      ok := RemoveFromDB(e.cleanup);
      if !ok {
        return Error;
      }
      return Ok;
    }
  }

  // ---------- What staging and unstaging keep ----------

  /** A mount has a session under it and a session has a node record. */
  predicate Layered(d: Disk) {
    (d.mounted ==> d.session) && (d.session ==> d.record)
  }

  datatype Call = StageCall(s: Staging) | UnstageCall(u: Unstaging)

  function Apply(m: Mounter, d: Disk, c: Call): (Disk, Reply) {
    match c
    case StageCall(s) => Stage(m, d, s)
    case UnstageCall(u) => Unstage(d, u)
  }

  function Run(m: Mounter, d: Disk, calls: seq<Call>): Disk
    decreases |calls|
  {
    if calls == [] then d else Run(m, Apply(m, d, calls[0]).0, calls[1..])
  }

  /** One volume is always used in the same mode. */
  predicate OneMode(calls: seq<Call>, raw: bool) {
    forall i | 0 <= i < |calls| :: (if calls[i].StageCall? then calls[i].s.raw else calls[i].u.raw) == raw
  }

  /** A raw-block staging does not ask whether the volume is mounted, so its rollback can pull the
      session from under an earlier mount. */
  predicate PullsSession(m: Mounter, d: Disk, c: Call) {
    && c.StageCall? && c.s.raw && d.mounted && LogsIn(d, c.s)
    && FailsAfterLogin(m, c.s) && !FailsInWait(m, c.s)
    && !(c.s.cleanup.logoutFails && c.s.cleanup.sessionLeft)
  }

  /** A call keeps the layers exactly when it is not such a rollback. */
  lemma LayeredIff(m: Mounter, d: Disk, c: Call)
    requires Layered(d)
    ensures Layered(Apply(m, d, c).0) <==> !PullsSession(m, d, c)
  {}

  /** In filesystem mode the layers hold over every run of stage and unstage calls. */
  lemma {:induction false} RunLayered(m: Mounter, d: Disk, calls: seq<Call>)
    requires Layered(d) && OneMode(calls, false)
    ensures Layered(Run(m, d, calls))
    decreases |calls|
  {
    if calls != [] {
      assert OneMode(calls[..1], false) && !PullsSession(m, d, calls[0]);
      LayeredIff(m, d, calls[0]);
      assert OneMode(calls[1..], false) by {
        assert forall i | 0 <= i < |calls| - 1 :: calls[1..][i] == calls[i + 1];
      }
      RunLayered(m, Apply(m, d, calls[0]).0, calls[1..]);
    }
  }

  /** No step before the mount fails: neither those up to the login nor the waits after it. */
  predicate GetsToMount(m: Mounter, e: Staging) {
    && !e.addFails && !e.badPerformanceLevel && (e.higherPerformance ==> !e.queueDepthFails)
    && !e.automaticLoginFails && !e.loginFails
    && (m.waitsForDevice ==> !e.devicePathMissing) && m.loginWait(e) && m.pathWait(e)
  }

  /** Exactly when staging succeeds. In filesystem mode: the volume is mounted already, or no step
      fails, the staging path is there or can be made, and the disk is blank or holds the requested
      file system. In raw mode: no step fails. */
  lemma StageSucceedsIff(m: Mounter, d: Disk, e: Staging)
    ensures !e.raw ==>
              (Stage(m, d, e).1 == Ok <==>
               && !e.isMountedFails
               && (d.mounted ||
                   (&& GetsToMount(m, e) && !e.statFails && (e.pathExists || !e.mkdirFails)
                    && (e.existingFs == "" || e.existingFs == e.fsType) && !e.mountFails)))
    ensures e.raw ==> (Stage(m, d, e).1 == Ok <==> GetsToMount(m, e) && !e.createFileFails && !e.mountFails)
  {}

  /** For the iSCSI mounter no wait but that for the device path matters. */
  lemma IscsiStageSucceedsIff(d: Disk, e: Staging)
    requires !e.raw
    ensures Stage(ISCSI, d, e).1 == Ok <==>
            && !e.isMountedFails
            && (d.mounted ||
                (&& !e.addFails && !e.badPerformanceLevel && !(e.higherPerformance && e.queueDepthFails)
                 && !e.automaticLoginFails && !e.loginFails && !e.devicePathMissing && !e.statFails
                 && (e.pathExists || !e.mkdirFails)
                 && (e.existingFs == "" || e.existingFs == e.fsType) && !e.mountFails))
  {
    StageSucceedsIff(ISCSI, d, e);
  }

  /** For every mount handler: success means staged, and an error after login leaves neither session
      nor record exactly when it is not the error of one of the two waits. The cleanup's own error
      is told apart, and names exactly a failed logout or removal. */
  lemma StageRollsBackIff(m: Mounter, d: Disk, e: Staging)
    requires Layered(d)
    ensures var (n, reply) := Stage(m, d, e);
            && (reply == Ok ==> n == Disk(true, true, true))
            && (reply == Error && LogsIn(d, e) ==> (!n.session && !n.record <==> !FailsInWait(m, e)))
            && (reply == CleanupError ==>
                  CleanupFails(e.cleanup) && (n.session ==> e.cleanup.logoutFails))
  {}

  /** The iSCSI mounter's waits never fail, so every error after login leaves neither. */
  lemma IscsiStageRollsBack(d: Disk, e: Staging)
    requires Layered(d) && Stage(ISCSI, d, e).1 == Error && LogsIn(d, e)
    ensures !Stage(ISCSI, d, e).0.session && !Stage(ISCSI, d, e).0.record
  {
    StageRollsBackIff(ISCSI, d, e);
  }

  /** With a mount handler whose wait can fail, the session is left: the exit has no rollback. */
  lemma WaitLeavesSession(m: Mounter, e: Staging)
    requires LogsIn(Disk(false, false, false), e) && FailsInWait(m, e)
    ensures Stage(m, Disk(false, false, false), e) == (Disk(true, true, false), Error)
  {}

  /** A failed staging of a clean volume leaves it clean exactly when the record was never written,
      or login succeeded, no wait failed and the rollback took both away. */
  lemma StageLeavesCleanIff(m: Mounter, e: Staging)
    requires Stage(m, Disk(false, false, false), e).1 != Ok
    ensures Stage(m, Disk(false, false, false), e).0 == Disk(false, false, false) <==>
            || (!e.raw && e.isMountedFails) || e.addFails
            || (&& LogsIn(Disk(false, false, false), e) && !FailsInWait(m, e) && !e.cleanup.logoutFails
                && (e.cleanup.removeFails ==> !e.cleanup.recordLeft))
  {}

  /** Exactly when unstaging succeeds, and when that takes the mount, the session and the record away:
      a mount that is seen, known and open is unmounted, logged out and forgotten; one that is not is
      left with success. */
  lemma UnstageSucceedsIff(d: Disk, e: Unstaging)
    ensures var seen := d.mounted && !(e.raw && e.deviceCheckFails);
            var known := !e.unknownType && !e.infoFails;
            var worked := && known && !e.noInfo && (e.raw || (!e.openCheckFails && !e.notOpened)) && !e.unmountFails
                          && !e.cleanup.logoutFails && !e.cleanup.removeFails;
            && (Unstage(d, e).1 == Ok <==>
                  && !e.lookupFails
                  && (!seen || (known && (e.noInfo || (!e.raw && !e.openCheckFails && e.notOpened))) || worked))
            && (Unstage(d, e).1 == Ok ==> Unstage(d, e).0 == if seen && worked then Disk(false, false, false) else d)
  {}

  /** A successful unstage takes the session away exactly when it saw the mount, the iSCSI
      information and an open device, or there was no session. */
  lemma UnstageEndsSessionIff(d: Disk, e: Unstaging)
    requires Unstage(d, e).1 == Ok
    ensures !Unstage(d, e).0.session <==> (SeesMount(d, e) && !e.noInfo && (e.raw || !e.notOpened)) || !d.session
  {}

  // ---------- Retrying an unstage until it succeeds ----------

  function Unstages(d: Disk, tries: seq<Unstaging>): Disk
    decreases |tries|
  {
    if tries == [] then d else Unstages(Unstage(d, tries[0]).0, tries[1..])
  }

  predicate Unmounts(e: Unstaging) {
    && !e.lookupFails && !(e.raw && e.deviceCheckFails) && !e.unknownType && !e.infoFails && !e.noInfo
    && (!e.raw ==> !e.openCheckFails && !e.notOpened) && !e.unmountFails
  }

  /** The attempt that unmounts, if there is one. */
  function FirstUnmount(tries: seq<Unstaging>): nat
    ensures FirstUnmount(tries) <= |tries|
    decreases |tries|
  {
    if tries == [] || Unmounts(tries[0]) then 0 else 1 + FirstUnmount(tries[1..])
  }

  lemma {:induction false} UnmountedStays(d: Disk, tries: seq<Unstaging>)
    requires !d.mounted
    ensures Unstages(d, tries) == d
    decreases |tries|
  {
    if tries != [] {
      UnmountedStays(d, tries[1..]);
    }
  }

  /** The attempt that unmounts is the only one that logs out: what it leaves stays, whatever is
      tried afterwards and whatever is replied. */
  lemma {:induction false} OnlyOneLogout(d: Disk, tries: seq<Unstaging>)
    requires d == Disk(true, true, true)
    ensures var k := FirstUnmount(tries);
            Unstages(d, tries) == if k == |tries| then d else CleanedUp(Disk(true, true, false), tries[k].cleanup)
    decreases |tries|
  {
    if tries != [] {
      if Unmounts(tries[0]) {
        UnmountedStays(Unstage(d, tries[0]).0, tries[1..]);
      } else {
        assert Unstage(d, tries[0]).0 == d;
        OnlyOneLogout(d, tries[1..]);
      }
    }
  }

  /** Retrying a staged volume's unstage until the mount is gone leaves a live session exactly when
      the attempt that unmounted failed to log out, although a later attempt reports success. */
  lemma RetriedUnstageLeavesSessionIff(tries: seq<Unstaging>)
    requires FirstUnmount(tries) < |tries|
    ensures Unstages(Disk(true, true, true), tries).session <==>
            var c := tries[FirstUnmount(tries)].cleanup; c.logoutFails && c.sessionLeft
  {
    OnlyOneLogout(Disk(true, true, true), tries);
  }

  /** Such a retry: logout fails once, and the next attempt succeeds with the session still live. */
  lemma RetriedUnstageExample()
    ensures var t := Unstaging(false, false, false, false, false, false, false, false, false,
                               Cleanup(true, true, false, false));
            var d := Unstage(Disk(true, true, true), t).0;
            Unstage(d, t).1 == Ok && Unstage(d, t).0.session
  {}
}
