/**
 The per-volume lock set of the node driver, and the interleavings of the five node RPCs that take
 a lock on entry, give up when it is taken, and release it on every return after acquiring it.
 */
module VolumeLocks {
  import opened Common

  class Locks {
    var locks: set<string>

    constructor ()
      ensures locks == {}
    {
      locks := {};
    }

    method TryAcquire(volume: string) returns (acquired: bool)
      modifies this
      ensures acquired <==> volume !in old(locks)
      ensures locks == if acquired then old(locks) + {volume} else old(locks)
    {
      if volume in locks {
        return false;
      }
      locks := locks + {volume};
      return true;
    }

    method Release(volume: string)
      modifies this
      ensures locks == old(locks) - {volume}
    {
      locks := locks - {volume};
    }
  }

  /** `inside`: the calls between a successful acquire and their deferred release. */
  datatype State = State(locks: set<string>, inside: map<nat, string>)

  datatype Event = Enter(call: nat, volume: string) | Leave(call: nat)

  predicate Accepted(s: State, e: Event) {
    e.Enter? && e.volume !in s.locks
  }

  /** A rejected call returns at once: it is never inside, so it releases nothing. */
  function Step(s: State, e: Event): Option<State> {
    match e
    case Enter(call, volume) =>
      if call in s.inside then None
      else if volume in s.locks then Some(s)
      else Some(State(s.locks + {volume}, s.inside[call := volume]))
    case Leave(call) =>
      if call in s.inside then Some(State(s.locks - {s.inside[call]}, s.inside - {call})) else None
  }

  /** The lock set shared by the calls of a driver: entering and leaving are steps of the state
      machine. */
  class Driver {
    const volumeLocks: Locks
    ghost var inside: map<nat, string>

    constructor ()
      ensures fresh(volumeLocks) && Now() == State({}, map[])
    {
      volumeLocks := new Locks();
      inside := map[];
    }

    ghost function Now(): State
      reads this, volumeLocks
    {
      State(volumeLocks.locks, inside)
    }

    /** The entry of every locking call: it goes on exactly when it acquires the lock. */
    method Enter(ghost call: nat, volume: string) returns (entered: bool)
      requires call !in inside
      modifies this, volumeLocks
      ensures entered == Accepted(old(Now()), Event.Enter(call, volume))
      ensures Step(old(Now()), Event.Enter(call, volume)) == Some(Now())
    {
      entered := volumeLocks.TryAcquire(volume);
      if !entered {
        return;
      }
      inside := inside[call := volume];
    }

    /** The deferred release of a call that acquired the lock of this volume. */
    method Leave(ghost call: nat, volume: string)
      requires call in inside && inside[call] == volume
      modifies this, volumeLocks
      ensures Step(old(Now()), Event.Leave(call)) == Some(Now())
    {
      volumeLocks.Release(volume);
      inside := inside - {call};
    }
  }

  /** The lock set is exactly the volumes of the calls inside, and no two of those share a volume. */
  ghost predicate Inv(s: State) {
    && (forall v :: v in s.locks <==> exists c :: c in s.inside && s.inside[c] == v)
    && (forall a, b | a in s.inside && b in s.inside && s.inside[a] == s.inside[b] :: a == b)
  }

  lemma StepKeeps(s: State, e: Event)
    requires Inv(s) && Step(s, e).Some?
    ensures Inv(Step(s, e).value)
  {
    var t := Step(s, e).value;
    forall v ensures v in t.locks <==> exists c :: c in t.inside && t.inside[c] == v {
      if v in t.locks {
        if !(v in s.locks) {
          assert t.inside[e.call] == v;
        } else {
          var c :| c in s.inside && s.inside[c] == v;
          assert c in t.inside && t.inside[c] == v;
        }
      }
    }
  }

  ghost predicate IsRun(states: seq<State>, events: seq<Event>) {
    && |states| == |events| + 1 && states[0] == State({}, map[])
    && forall i | 0 <= i < |events| :: Step(states[i], events[i]) == Some(states[i + 1])
  }

  lemma {:induction false} RunInv(states: seq<State>, events: seq<Event>, k: nat)
    requires IsRun(states, events) && k < |states|
    ensures Inv(states[k])
    decreases k
  {
    if k > 0 {
      RunInv(states, events, k - 1);
      assert Step(states[k - 1], events[k - 1]) == Some(states[k]);
      StepKeeps(states[k - 1], events[k - 1]);
    }
  }

  /** A call is turned away exactly when another call is inside for its volume, and with no call
      inside every lock is free. */
  lemma LocksAreExact(states: seq<State>, events: seq<Event>, k: nat)
    requires IsRun(states, events) && k < |events|
    ensures events[k].Enter? ==>
            (Accepted(states[k], events[k]) <==>
             forall c | c in states[k].inside :: states[k].inside[c] != events[k].volume)
    ensures states[k].inside == map[] ==> states[k].locks == {}
  {
    RunInv(states, events, k);
  }

  /** A call stays inside, holding its lock, until it leaves. */
  lemma {:induction false} HoldsUntilLeave(states: seq<State>, events: seq<Event>, i: nat, j: nat)
    requires IsRun(states, events) && i < j < |states| && Accepted(states[i], events[i])
    requires forall k | i < k < j :: events[k] != Leave(events[i].call)
    ensures events[i].call in states[j].inside && states[j].inside[events[i].call] == events[i].volume
    decreases j - i
  {
    assert Step(states[i], events[i]) == Some(states[i + 1]);
    if j > i + 1 {
      HoldsUntilLeave(states, events, i, j - 1);
      assert Step(states[j - 1], events[j - 1]) == Some(states[j]);
    }
  }

  /** Operations on one volume never overlap: between two that get in, the first has left. */
  lemma NeverOverlap(states: seq<State>, events: seq<Event>, i: nat, j: nat)
    requires IsRun(states, events) && i < j < |events|
    requires Accepted(states[i], events[i]) && Accepted(states[j], events[j]) && events[i].volume == events[j].volume
    ensures exists k :: i < k < j && events[k] == Leave(events[i].call)
  {
    if forall k | i < k < j :: events[k] != Leave(events[i].call) {
      HoldsUntilLeave(states, events, i, j);
      RunInv(states, events, j);
      assert false;
    }
  }
}
