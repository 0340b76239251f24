/**
 Runs in which nothing goes wrong: no call fails, every poll shows the present state or asks to try
 again, and the cloud brings ATTACHING to ATTACHED and DETACHING to DETACHED. Publishing then ends
 in success exactly when the volume is not held by another instance, and unpublishing always does.
 */
module VolumePublishingRuns {
  import opened Common
  import opened VolumeAttachments
  import opened VolumePublishing

  /** The event is none in which something goes wrong, nor the start of another request. */
  predicate Smooth(s: State, e: Event) {
    match e
    case CloudMoves(id, to) => id in s.cloud && to == (if s.cloud[id].state == Attaching then Attached else Detached)
    case Polls(p) => p != Fatal
    case Attaches(id, acked) => acked
    case Detaches(acked) => acked
    case Delivers(id) => true
    case ListingEnds => true
    case _ => false
  }

  /** Steps of one request, from its start to wherever it has come. */
  ghost predicate SmoothRun(states: seq<State>, events: seq<Event>) {
    && |states| == |events| + 1
    && forall i | 0 <= i < |events| :: Smooth(states[i], events[i]) && Step(states[i], events[i]) == Some(states[i + 1])
  }

  /** Another instance holds the volume: attached or being attached there. */
  ghost predicate HeldElsewhere(c: Cloud, instance: string) {
    exists id :: id in c && c[id].instance != instance && (c[id].state == Attaching || c[id].state == Attached)
  }

  /** The states that a state leads to when nothing goes wrong. */
  function Onward(state: Lifecycle): set<Lifecycle> {
    match state
    case Attaching => {Attaching, Attached}
    case Attached => {Attached}
    case Detaching => {Detaching, Detached}
    case Detached => {Detached}
  }

  // ---------- Publishing ----------

  /** Where a publish request can be, held elsewhere or not. */
  ghost predicate PublishInv(s: State, instance: string, held: bool) {
    && Inv(s) && (HeldElsewhere(s.cloud, instance) <==> held)
    && match s.phase
       case PublishListing(i, todo, first) =>
         && i == instance && todo <= s.cloud.Keys
         && (first.Some? ==>
               && (held <==> first.value.attachment.instance != instance && first.value.attachment.state != Detaching)
               && s.cloud[first.value.id].state in Onward(first.value.attachment.state))
       case PublishAwaitDetach(i, id) => i == instance && !held && s.cloud[id].state in Onward(Detaching)
       case PublishAttach(i) => i == instance && !held
       case PublishAwaitAttach(i, id) => i == instance && !held && s.cloud[id].state in Onward(Attaching)
       case Published(i, id) => i == instance && !held
       case Failed => held
       case _ => false
  }

  lemma PublishStarts(s: State, instance: string)
    requires Inv(s) && s.phase == Idle
    ensures Step(s, BeginPublish(instance)).Some?
    ensures PublishInv(Step(s, BeginPublish(instance)).value, instance, HeldElsewhere(s.cloud, instance))
  {}

  lemma SmoothMoveKeepsHeld(s: State, e: Event, instance: string)
    requires Smooth(s, e) && e.CloudMoves? && Step(s, e).Some?
    ensures HeldElsewhere(Step(s, e).value.cloud, instance) <==> HeldElsewhere(s.cloud, instance)
  {
    var c, d := s.cloud, Step(s, e).value.cloud;
    if id :| id in c && c[id].instance != instance && (c[id].state == Attaching || c[id].state == Attached) {
      assert id in d && d[id].instance != instance && (d[id].state == Attaching || d[id].state == Attached);
    }
    if id :| id in d && d[id].instance != instance && (d[id].state == Attaching || d[id].state == Attached) {
      assert id in c && c[id].instance != instance;
    }
  }

  lemma PublishMoveKeeps(s: State, e: Event, instance: string, held: bool)
    requires PublishInv(s, instance, held) && Smooth(s, e) && e.CloudMoves? && Step(s, e).Some?
    ensures PublishInv(Step(s, e).value, instance, held)
  {
    StepKeeps(s, e);
    SmoothMoveKeepsHeld(s, e, instance);
  }

  lemma PublishListingKeeps(s: State, e: Event, instance: string, held: bool)
    requires PublishInv(s, instance, held) && (e.Delivers? || e.ListingEnds?) && Step(s, e).Some?
    ensures PublishInv(Step(s, e).value, instance, held)
  {
    StepKeeps(s, e);
  }

  lemma PublishRequestKeeps(s: State, e: Event, instance: string, held: bool)
    requires PublishInv(s, instance, held) && Smooth(s, e) && Step(s, e).Some?
    requires e.Polls? || e.Attaches? || e.Detaches?
    ensures PublishInv(Step(s, e).value, instance, held)
  {
    StepKeeps(s, e);
  }

  lemma PublishStepKeeps(s: State, e: Event, instance: string, held: bool)
    requires PublishInv(s, instance, held) && Smooth(s, e) && Step(s, e).Some?
    ensures PublishInv(Step(s, e).value, instance, held)
  {
    if e.CloudMoves? {
      PublishMoveKeeps(s, e, instance, held);
    } else if e.Delivers? || e.ListingEnds? {
      PublishListingKeeps(s, e, instance, held);
    } else {
      PublishRequestKeeps(s, e, instance, held);
    }
  }

  lemma {:induction false} PublishRunInv(states: seq<State>, events: seq<Event>, instance: string, held: bool, n: nat)
    requires SmoothRun(states, events) && PublishInv(states[0], instance, held) && n < |states|
    ensures PublishInv(states[n], instance, held)
  {
    if n > 0 {
      PublishRunInv(states, events, instance, held, n - 1);
      assert Step(states[n - 1], events[n - 1]) == Some(states[n]);
      PublishStepKeeps(states[n - 1], events[n - 1], instance, held);
    }
  }

  predicate Ended(ph: Phase) {
    ph.Published? || ph.Unpublished? || ph.Failed?
  }

  /** However the deliveries, polls and moves of the cloud are interleaved: a publish request in which
      nothing goes wrong never ends otherwise than published on the requested instance when no other
      instance holds the volume at its start, and in an error when one does. */
  lemma PublishOutcome(s: State, instance: string, states: seq<State>, events: seq<Event>)
    requires Inv(s) && s.phase == Idle && SmoothRun(states, events)
    requires Step(s, BeginPublish(instance)) == Some(states[0]) && Ended(states[|events|].phase)
    ensures if HeldElsewhere(s.cloud, instance) then states[|events|].phase == Failed
            else states[|events|].phase.Published? && states[|events|].phase.instance == instance
  {
    PublishStarts(s, instance);
    PublishRunInv(states, events, instance, HeldElsewhere(s.cloud, instance), |events|);
  }

  // ---------- The request can always go on ----------

  /** Steps that lead on from a state to the end of the request. */
  ghost predicate LeadsToEnd(s: State, states: seq<State>, events: seq<Event>) {
    SmoothRun(states, events) && states[0] == s && Ended(states[|events|].phase)
  }

  lemma Prepend(s: State, e: Event, states: seq<State>, events: seq<Event>)
    requires Smooth(s, e) && Step(s, e).Some? && LeadsToEnd(Step(s, e).value, states, events)
    ensures LeadsToEnd(s, [s] + states, [e] + events)
  {
    var t, f := [s] + states, [e] + events;
    forall i | 0 <= i < |f| ensures Smooth(t[i], f[i]) && Step(t[i], f[i]) == Some(t[i + 1]) {
      if i > 0 {
        assert t[i] == states[i - 1] && f[i] == events[i - 1] && t[i + 1] == states[i];
      }
    }
  }

  /** How far the driver has to go. */
  function Rank(ph: Phase): nat {
    match ph
    case PublishListing(i, todo, first) => 10 + |todo|
    case PublishAwaitDetach(i, id) => 6
    case PublishAttach(i) => 5
    case PublishAwaitAttach(i, id) => 4
    case UnpublishFinding(i, todo) => 10 + |todo|
    case UnpublishDetach(i, id) => 4
    case UnpublishAwait(i, id) => 3
    case _ => 0
  }

  /** A wait for an attachment ends once the cloud has moved it. */
  lemma WaitEnds(s: State, id: nat, from: Lifecycle, to: Lifecycle) returns (moved: State, e: Event, next: State)
    requires Awaiting(s.phase) && s.phase.id == id && id in s.cloud && s.cloud[id].state in {from, to}
    requires (s.phase.PublishAwaitAttach? && from == Attaching && to == Attached) ||
             (!s.phase.PublishAwaitAttach? && from == Detaching && to == Detached)
    ensures moved == s || (Smooth(s, e) && Step(s, e) == Some(moved))
    ensures Smooth(moved, Polls(Saw(to))) && Step(moved, Polls(Saw(to))) == Some(next)
    ensures next.phase == Reached(s.phase)
  {
    e := CloudMoves(id, to);
    moved := if s.cloud[id].state == to then s else Step(s, e).value;
    next := Step(moved, Polls(Saw(to))).value;
  }

  /** From wherever a publish request has come when nothing went wrong, there are steps to its end. */
  lemma {:induction false} PublishCanEnd(s: State, instance: string, held: bool)
      returns (states: seq<State>, events: seq<Event>)
    requires PublishInv(s, instance, held)
    ensures LeadsToEnd(s, states, events)
    decreases Rank(s.phase)
  {
    if Ended(s.phase) {
      states, events := [s], [];
      return;
    }
    if Awaiting(s.phase) {
      var from, to := if s.phase.PublishAwaitAttach? then Attaching else Detaching,
          if s.phase.PublishAwaitAttach? then Attached else Detached;
      var moved, e, next := WaitEnds(s, s.phase.id, from, to);
      if moved != s {
        PublishStepKeeps(s, e, instance, held);
      }
      PublishStepKeeps(moved, Polls(Saw(to)), instance, held);
      states, events := PublishCanEnd(next, instance, held);
      Prepend(moved, Polls(Saw(to)), states, events);
      states, events := [moved] + states, [Polls(Saw(to))] + events;
      if moved != s {
        Prepend(s, e, states, events);
        states, events := [s] + states, [e] + events;
      }
      return;
    }
    var e := PublishNext(s, instance, held);
    PublishStepKeeps(s, e, instance, held);
    states, events := PublishCanEnd(Step(s, e).value, instance, held);
    Prepend(s, e, states, events);
    states, events := [s] + states, [e] + events;
  }

  /** A step of the driver itself that takes the request further. */
  lemma PublishNext(s: State, instance: string, held: bool) returns (e: Event)
    requires PublishInv(s, instance, held) && !Ended(s.phase) && !Awaiting(s.phase)
    ensures Smooth(s, e) && Step(s, e).Some? && Rank(Step(s, e).value.phase) < Rank(s.phase)
  {
    if s.phase.PublishListing? {
      if s.phase.todo == {} {
        e := ListingEnds;
      } else {
        var id :| id in s.phase.todo;
        e := Delivers(id);
      }
    } else {
      var id := BoundAbove(s.cloud.Keys);
      e := Attaches(id, true);
    }
  }

  /** A publish request that meets no failure can be carried to its end, and ends as PublishOutcome says. */
  lemma PublishEnds(s: State, instance: string) returns (states: seq<State>, events: seq<Event>)
    requires Inv(s) && s.phase == Idle
    ensures SmoothRun(states, events) && Step(s, BeginPublish(instance)) == Some(states[0])
    ensures if HeldElsewhere(s.cloud, instance) then states[|events|].phase == Failed
            else states[|events|].phase.Published? && states[|events|].phase.instance == instance
  {
    PublishStarts(s, instance);
    states, events := PublishCanEnd(Step(s, BeginPublish(instance)).value, instance, HeldElsewhere(s.cloud, instance));
    PublishOutcome(s, instance, states, events);
  }

  // ---------- Unpublishing ----------

  ghost predicate UnpublishInv(s: State, instance: string) {
    && Inv(s)
    && match s.phase
       case UnpublishFinding(i, todo) => i == instance && todo <= s.cloud.Keys
       case UnpublishDetach(i, id) => i == instance && id in s.cloud
       case UnpublishAwait(i, id) => i == instance && id in s.cloud && s.cloud[id].state in Onward(Detaching)
       case Unpublished(i) => i == instance
       case _ => false
  }

  lemma UnpublishStepKeeps(s: State, e: Event, instance: string)
    requires UnpublishInv(s, instance) && Smooth(s, e) && Step(s, e).Some?
    ensures UnpublishInv(Step(s, e).value, instance)
  {
    StepKeeps(s, e);
  }

  lemma {:induction false} UnpublishRunInv(states: seq<State>, events: seq<Event>, instance: string, n: nat)
    requires SmoothRun(states, events) && UnpublishInv(states[0], instance) && n < |states|
    ensures UnpublishInv(states[n], instance)
  {
    if n > 0 {
      UnpublishRunInv(states, events, instance, n - 1);
      assert Step(states[n - 1], events[n - 1]) == Some(states[n]);
      UnpublishStepKeeps(states[n - 1], events[n - 1], instance);
    }
  }

  /** An unpublish request in which nothing goes wrong never ends otherwise than unpublished. */
  lemma UnpublishOutcome(s: State, instance: string, states: seq<State>, events: seq<Event>)
    requires Inv(s) && s.phase == Idle && SmoothRun(states, events)
    requires Step(s, BeginUnpublish(instance)) == Some(states[0]) && Ended(states[|events|].phase)
    ensures states[|events|].phase == Unpublished(instance)
  {
    UnpublishRunInv(states, events, instance, |events|);
  }

  lemma UnpublishNext(s: State, instance: string) returns (e: Event)
    requires UnpublishInv(s, instance) && !Ended(s.phase) && !Awaiting(s.phase)
    ensures Smooth(s, e) && Step(s, e).Some? && Rank(Step(s, e).value.phase) < Rank(s.phase)
  {
    if s.phase.UnpublishFinding? {
      if s.phase.todo == {} {
        e := ListingEnds;
      } else {
        var id :| id in s.phase.todo;
        e := Delivers(id);
      }
    } else {
      e := Detaches(true);
    }
  }

  /** And from wherever it has come there are steps to its end. */
  lemma {:induction false} UnpublishCanEnd(s: State, instance: string) returns (states: seq<State>, events: seq<Event>)
    requires UnpublishInv(s, instance)
    ensures LeadsToEnd(s, states, events)
    decreases Rank(s.phase)
  {
    if Ended(s.phase) {
      states, events := [s], [];
      return;
    }
    if Awaiting(s.phase) {
      var moved, e, next := WaitEnds(s, s.phase.id, Detaching, Detached);
      states, events := [next], [];
      Prepend(moved, Polls(Saw(Detached)), states, events);
      states, events := [moved] + states, [Polls(Saw(Detached))] + events;
      if moved != s {
        Prepend(s, e, states, events);
        states, events := [s] + states, [e] + events;
      }
      return;
    }
    var e := UnpublishNext(s, instance);
    UnpublishStepKeeps(s, e, instance);
    states, events := UnpublishCanEnd(Step(s, e).value, instance);
    Prepend(s, e, states, events);
    states, events := [s] + states, [e] + events;
  }

  /** An unpublish request that meets no failure can be carried to its end, and succeeds. */
  lemma UnpublishEnds(s: State, instance: string) returns (states: seq<State>, events: seq<Event>)
    requires Inv(s) && s.phase == Idle
    ensures SmoothRun(states, events) && Step(s, BeginUnpublish(instance)) == Some(states[0])
    ensures states[|events|].phase == Unpublished(instance)
  {
    states, events := UnpublishCanEnd(Step(s, BeginUnpublish(instance)).value, instance);
    UnpublishOutcome(s, instance, states, events);
  }
}
