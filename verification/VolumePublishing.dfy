/**
 ControllerPublishVolume and ControllerUnpublishVolume on one volume that is not shareable, as a
 state machine. The driver handles one request at a time; every remote call may fail, with or
 without having taken effect, and the cloud moves attachments between any two calls.
 */
module VolumePublishing {
  import opened Common
  import opened VolumeAttachments

  type Cloud = map<nat, Attachment>

  /** Where the driver is. `todo` holds the attachments a paged listing has not delivered yet. */
  datatype Phase =
    | Idle
    | PublishListing(instance: string, todo: set<nat>, first: Option<Entry>)
    | PublishAwaitDetach(instance: string, id: nat)
    | PublishAttach(instance: string)
    | PublishAwaitAttach(instance: string, id: nat)
    | Published(instance: string, id: nat)
    | UnpublishFinding(instance: string, todo: set<nat>)
    | UnpublishDetach(instance: string, id: nat)
    | UnpublishAwait(instance: string, id: nat)
    | Unpublished(instance: string)
    | Failed

  datatype State = State(cloud: Cloud, phase: Phase)

  datatype Event =
    | CloudMoves(id: nat, to: Lifecycle)
    | BeginPublish(instance: string)
    | BeginUnpublish(instance: string)
    | Delivers(id: nat)
    | ListingEnds
    | Polls(p: Poll)
    | Attaches(id: nat, acked: bool)
    | Detaches(acked: bool)
    | CallFails
    | Returns

  // ---------- Steps ----------

  /** Attachments only move forward, and only a request takes an attached volume off. */
  predicate CanMove(from: Lifecycle, to: Lifecycle) {
    (from == Attaching && to in {Attached, Detaching, Detached}) || (from == Detaching && to == Detached)
  }

  /** The branch ControllerPublishVolume takes on the first attachment of the listing. */
  function Decide(first: Option<Entry>, instance: string): Phase {
    if first.None? then PublishAttach(instance)
    else
      var e := first.value;
      if e.attachment.state == Detaching then PublishAwaitDetach(instance, e.id)
      else if e.attachment.instance != instance then Failed
      else if e.attachment.state == Attaching then PublishAwaitAttach(instance, e.id)
      else Published(instance, e.id)
  }

  predicate Listing(ph: Phase) {
    ph.PublishListing? || ph.UnpublishFinding?
  }

  /** A listing delivers one attachment as it stands. */
  function Deliver(ph: Phase, e: Entry): Phase
    requires Listing(ph)
  {
    if ph.PublishListing? then
      PublishListing(ph.instance, ph.todo - {e.id}, if ph.first.None? && Live(e.attachment) then Some(e) else ph.first)
    else if e.attachment.instance == ph.instance && Live(e.attachment) then
      if e.attachment.state == Detaching then UnpublishAwait(ph.instance, e.id) else UnpublishDetach(ph.instance, e.id)
    else UnpublishFinding(ph.instance, ph.todo - {e.id})
  }

  predicate Awaiting(ph: Phase) {
    ph.PublishAwaitDetach? || ph.PublishAwaitAttach? || ph.UnpublishAwait?
  }

  /** Where a poll leads. */
  function Polled(ph: Phase, p: Poll): Phase
    requires Awaiting(ph)
  {
    match if ph.PublishAwaitAttach? then AttachVerdict(p) else DetachVerdict(p)
    case Wait => ph
    case Fail => Failed
    case Succeed => Reached(ph)
  }

  /** Where a successful wait leads. */
  function Reached(ph: Phase): Phase
    requires Awaiting(ph)
  {
    if ph.PublishAwaitAttach? then Published(ph.instance, ph.id)
    else if ph.PublishAwaitDetach? then PublishAttach(ph.instance)
    else Unpublished(ph.instance)
  }

  /** The state after an event; None when the event cannot happen. */
  function Step(s: State, e: Event): Option<State> {
    var c := s.cloud;
    match e
    case CloudMoves(id, to) =>
      if id in c && CanMove(c[id].state, to) then Some(s.(cloud := c[id := c[id].(state := to)])) else None
    case BeginPublish(i) => if s.phase.Idle? then Some(s.(phase := PublishListing(i, c.Keys, None))) else None
    case BeginUnpublish(i) => if s.phase.Idle? then Some(s.(phase := UnpublishFinding(i, c.Keys))) else None
    case Delivers(id) =>
      if Listing(s.phase) && id in s.phase.todo && id in c then Some(s.(phase := Deliver(s.phase, Entry(id, c[id]))))
          else None
    case ListingEnds =>
      if s.phase.PublishListing? && s.phase.todo == {} then Some(s.(phase := Decide(s.phase.first, s.phase.instance)))
      else if s.phase.UnpublishFinding? && s.phase.todo == {} then Some(s.(phase := Unpublished(s.phase.instance)))
      else None
    case Polls(p) => PollStep(s, p)
    case Attaches(id, acked) =>
      if s.phase.PublishAttach? && id !in c then
        Some(State(c[id := Attachment(s.phase.instance, Attaching)],
                   if acked then PublishAwaitAttach(s.phase.instance, id) else Failed))
      else None
    case Detaches(acked) =>
      if s.phase.UnpublishDetach? && s.phase.id in c then
        var a := c[s.phase.id];
        Some(State(if Live(a) then c[s.phase.id := a.(state := Detaching)] else c,
                   if acked then UnpublishAwait(s.phase.instance, s.phase.id) else Failed))
      else None
    case CallFails => if s.phase.Idle? then None else Some(s.(phase := Failed))
    case Returns => if s.phase.Published? || s.phase.Unpublished? || s.phase.Failed? then Some(s.(phase := Idle))
        else None
  }

  /** A poll reports the present state or an error. */
  function PollStep(s: State, p: Poll): Option<State> {
    if !Awaiting(s.phase) || s.phase.id !in s.cloud then None
    else if p.Saw? && p.state != s.cloud[s.phase.id].state then None
    else Some(s.(phase := Polled(s.phase, p)))
  }

  // ---------- The invariant ----------

  ghost predicate NoneLive(c: Cloud) {
    forall id | id in c :: c[id].state == Detached
  }

  ghost predicate OnlyLive(c: Cloud, id: nat) {
    forall other | other in c && other != id :: !Live(c[other])
  }

  ghost predicate AtMostOneLive(c: Cloud) {
    forall x, y | x in c && y in c && c[x].state != Detached && c[y].state != Detached :: x == y
  }

  ghost predicate NoneOn(c: Cloud, instance: string) {
    forall id | id in c && c[id].instance == instance :: c[id].state == Detached
  }

  ghost predicate PhaseInv(c: Cloud, phase: Phase) {
    match phase
    case PublishListing(i, todo, first) =>
      if first.None? then forall id | id in c && id !in todo :: !Live(c[id])
      else SeenStill(c, first.value) && Live(first.value.attachment)
    case PublishAwaitDetach(i, id) => id in c && OnlyLive(c, id)
    case PublishAttach(i) => NoneLive(c)
    case PublishAwaitAttach(i, id) => id in c && c[id].instance == i && OnlyLive(c, id)
    case Published(i, id) => id in c && c[id] == Attachment(i, Attached)
    case UnpublishFinding(i, todo) => forall id | id in c && id !in todo && c[id].instance == i :: !Live(c[id])
    case UnpublishDetach(i, id) => id in c && OnlyLive(c, id)
    case UnpublishAwait(i, id) => id in c && OnlyLive(c, id)
    case Unpublished(i) => NoneOn(c, i)
    case Idle => true
    case Failed => true
  }

  /** What was seen of the only live attachment still stands, apart from later moves. */
  ghost predicate SeenStill(c: Cloud, e: Entry) {
    && e.id in c && OnlyLive(c, e.id) && c[e.id].instance == e.attachment.instance
    && (e.attachment.state == Attached ==> c[e.id].state == Attached)
  }

  ghost predicate Inv(s: State) {
    AtMostOneLive(s.cloud) && PhaseInv(s.cloud, s.phase)
  }

  lemma CloudStepKeeps(s: State, e: Event)
    requires Inv(s) && e.CloudMoves? && Step(s, e).Some?
    ensures Inv(Step(s, e).value)
  {}

  lemma ListingStepKeeps(s: State, e: Event)
    requires Inv(s) && (e.Delivers? || e.ListingEnds?) && Step(s, e).Some?
    ensures Inv(Step(s, e).value)
  {}

  lemma RequestStepKeeps(s: State, e: Event)
    requires Inv(s) && (e.Polls? || e.Attaches? || e.Detaches?) && Step(s, e).Some?
    ensures Inv(Step(s, e).value)
  {}

  lemma StepKeeps(s: State, e: Event)
    requires Inv(s) && Step(s, e).Some?
    ensures Inv(Step(s, e).value)
  {
    if e.CloudMoves? {
      CloudStepKeeps(s, e);
    } else if e.Delivers? || e.ListingEnds? {
      ListingStepKeeps(s, e);
    } else if e.Polls? || e.Attaches? || e.Detaches? {
      RequestStepKeeps(s, e);
    }
  }

  /** An attachment is requested only when the volume has no live one. */
  lemma AttachOnlyWhenFree(s: State, e: Event)
    requires Inv(s) && e.Attaches? && Step(s, e).Some?
    ensures NoneLive(s.cloud)
  {}

  // ---------- Runs ----------

  /** A run from an idle driver. */
  ghost predicate IsRun(states: seq<State>, events: seq<Event>) {
    && |states| == |events| + 1
    && states[0].phase == Idle && AtMostOneLive(states[0].cloud)
    && forall i | 0 <= i < |events| :: Step(states[i], events[i]) == Some(states[i + 1])
  }

  lemma {:induction false} RunInv(states: seq<State>, events: seq<Event>, n: nat)
    requires IsRun(states, events) && n < |states|
    ensures Inv(states[n])
  {
    if n != 0 {
      RunInv(states, events, n - 1);
      assert Step(states[n - 1], events[n - 1]) == Some(states[n]);
      StepKeeps(states[n - 1], events[n - 1]);
    }
  }

  /** In every run: at most one attachment is ever live, one is requested only when none is, a
      successful publish finds its attachment ATTACHED to the requested instance, and a successful
      unpublish leaves nothing live there. */
  lemma RunIsSafe(states: seq<State>, events: seq<Event>)
    requires IsRun(states, events)
    ensures forall n | 0 <= n < |states| :: AtMostOneLive(states[n].cloud)
    ensures forall n | 0 <= n < |events| && events[n].Attaches? :: NoneLive(states[n].cloud)
    ensures forall n | 0 <= n < |states| && states[n].phase.Published? ::
              states[n].phase.id in states[n].cloud &&
                  states[n].cloud[states[n].phase.id] == Attachment(states[n].phase.instance, Attached)
    ensures forall n | 0 <= n < |states| && states[n].phase.Unpublished? ::
            NoneOn(states[n].cloud, states[n].phase.instance)
  {
    forall n | 0 <= n < |states| ensures Inv(states[n]) { RunInv(states, events, n); }
    forall n | 0 <= n < |events| && events[n].Attaches? ensures NoneLive(states[n].cloud) {
      assert Step(states[n], events[n]) == Some(states[n + 1]);
      AttachOnlyWhenFree(states[n], events[n]);
    }
  }
}
