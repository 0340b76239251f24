/**
 The branches that publishing and unpublishing take on the results of the paged listings and of the
 polling loops are the steps of the state machine: a listing is its deliveries one after the other,
 and a wait is its polls one after the other.
 */
module VolumePublishingCalls {
  import opened Common
  import opened VolumeAttachments
  import opened VolumePublishing

  // ---------- Listings ----------

  /** Deliveries one after the other; unpublishing stops at the attachment it looks for. */
  function DeliverAll(ph: Phase, entries: seq<Entry>): Phase
    requires Listing(ph)
    decreases |entries|
  {
    if entries == [] then ph
    else
      var next := Deliver(ph, entries[0]);
      if Listing(next) then DeliverAll(next, entries[1..]) else next
  }

  function FirstLiveOf(entries: seq<Entry>): Option<Entry> {
    var live := LiveEntries(entries);
    if live == [] then None else Some(live[0])
  }

  /** A publish listing ends with the first live attachment delivered. */
  lemma {:induction false} DeliveredFirst(ph: Phase, entries: seq<Entry>)
    requires ph.PublishListing?
    ensures var end := DeliverAll(ph, entries);
            && end.PublishListing? && end.instance == ph.instance
            && end.first == if ph.first.Some? then ph.first else FirstLiveOf(entries)
    decreases |entries|
  {
    if entries != [] {
      DeliveredFirst(Deliver(ph, entries[0]), entries[1..]);
    }
  }

  /** Where an unpublish request goes from the first live attachment of the instance. */
  function AfterFinding(instance: string, first: Option<Entry>): Phase {
    if first.None? then Unpublished(instance)
    else if first.value.attachment.state == Detaching then UnpublishAwait(instance, first.value.id)
    else UnpublishDetach(instance, first.value.id)
  }

  /** Deliveries of an instance's attachments lead there, the end of the listing included. */
  lemma {:induction false} DeliveredFound(ph: Phase, entries: seq<Entry>)
    requires ph.UnpublishFinding? && forall e | e in entries :: e.attachment.instance == ph.instance
    ensures var end := DeliverAll(ph, entries);
            if FirstLiveOf(entries).None? then end.UnpublishFinding? && end.instance == ph.instance
            else end == AfterFinding(ph.instance, FirstLiveOf(entries))
    decreases |entries|
  {
    if entries != [] {
      assert entries[0] in entries;
      if !Live(entries[0].attachment) {
        DeliveredFound(Deliver(ph, entries[0]), entries[1..]);
      }
    }
  }

  lemma AllFromStart(pages: seq<seq<Entry>>)
    ensures LiveFrom(pages, 0) == LiveEntries(Flatten(pages))
  {
    assert pages[0..] == pages;
  }

  /** ControllerPublishVolume up to its decision: an error of the listing fails the request, and
      otherwise it goes where the state machine goes when the listing ends. */
  method ListAndDecide(ph: Phase, pages: seq<seq<Entry>>, reach: nat) returns (next: Phase)
    requires ph.PublishListing? && ph.first.None?
    ensures reach < |pages| ==> next == Failed
    ensures reach >= |pages| ==>
              var end := DeliverAll(ph, Flatten(pages)); end.PublishListing? && next == Decide(end.first, ph.instance)
    ensures reach >= |pages| ==>
              var live := LiveEntries(Flatten(pages));
              && (live == [] ==> next == PublishAttach(ph.instance))
              && (live != [] ==>
                    var first := live[0];
                    match first.attachment.state
                    case Detaching => next == PublishAwaitDetach(ph.instance, first.id)
                    case _ =>
                      && (first.attachment.instance != ph.instance ==> next == Failed)
                      && (first.attachment == Attachment(ph.instance, Attaching) ==>
                            next == PublishAwaitAttach(ph.instance, first.id))
                      && (first.attachment == Attachment(ph.instance, Attached) ==>
                            next == Published(ph.instance, first.id)))
  {
    var attachments := ListVolumeAttachments(pages, reach);
    AllFromStart(pages);
    DeliveredFirst(ph, Flatten(pages));
    match attachments {
      case Error => return Failed;
      case NotFound => return PublishAttach(ph.instance);
      case Found(live) =>
        var first := live[0];
        if first.attachment.state == Detaching {
          return PublishAwaitDetach(ph.instance, first.id);
        }
        if first.attachment.instance != ph.instance {
          return Failed;
        }
        if first.attachment.state == Attaching {
          return PublishAwaitAttach(ph.instance, first.id);
        }
        return Published(ph.instance, first.id);
    }
  }

  /** ControllerUnpublishVolume up to its decision, on the pages of one instance: where the state
      machine goes by the deliveries, or at the end of the listing, or an error. */
  method FindAndDecide(ph: Phase, pages: seq<seq<Entry>>, reach: nat) returns (next: Phase)
    requires ph.UnpublishFinding? && forall e | e in Flatten(pages) :: e.attachment.instance == ph.instance
    ensures next == Failed ==> reach < |pages|
    ensures next != Failed ==>
              var end := DeliverAll(ph, Flatten(pages));
              if end.UnpublishFinding? then next == Unpublished(ph.instance) else next == end
    ensures next != Failed ==>
              var live := LiveEntries(Flatten(pages));
              && (live == [] ==> next == Unpublished(ph.instance))
              && (live != [] && live[0].attachment.state == Detaching ==>
                    next == UnpublishAwait(ph.instance, live[0].id))
              && (live != [] && live[0].attachment.state != Detaching ==>
                    next == UnpublishDetach(ph.instance, live[0].id))
    ensures reach >= |pages| ==> next != Failed
  {
    var attachment, r := FindVolumeAttachment(pages, reach);
    AllFromStart(pages);
    DeliveredFound(ph, Flatten(pages));
    if r != Found(()) {
      if r == Error {
        return Failed;
      }
      if attachment.None? {
        return Unpublished(ph.instance);
      }
    }
    if attachment.value.attachment.state != Detaching {
      return UnpublishDetach(ph.instance, attachment.value.id);
    }
    return UnpublishAwait(ph.instance, attachment.value.id);
  }

  // ---------- Waits ----------

  /** Polls one after the other, until one of them decides. */
  function PollAll(ph: Phase, polls: seq<Poll>): Phase
    requires Awaiting(ph)
    decreases |polls|
  {
    if polls == [] then ph
    else
      var next := Polled(ph, polls[0]);
      if Awaiting(next) then PollAll(next, polls[1..]) else next
  }

  function VerdictOf(ph: Phase, p: Poll): Verdict {
    if ph.PublishAwaitAttach? then AttachVerdict(p) else DetachVerdict(p)
  }

  ghost predicate SucceedsAt(ph: Phase, polls: seq<Poll>, k: nat) {
    k < |polls| && VerdictOf(ph, polls[k]) == Succeed && forall j | 0 <= j < k :: VerdictOf(ph, polls[j]) == Wait
  }

  /** The polls lead to success exactly when one of them succeeds and all before it ask to wait. */
  lemma {:induction false} PollAllIff(ph: Phase, polls: seq<Poll>)
    requires Awaiting(ph)
    ensures PollAll(ph, polls) == Reached(ph) <==> exists k: nat :: SucceedsAt(ph, polls, k)
    ensures PollAll(ph, polls) in {Reached(ph), Failed, ph}
    decreases |polls|
  {
    if polls != [] && VerdictOf(ph, polls[0]) == Wait {
      PollAllIff(ph, polls[1..]);
      if k: nat :| SucceedsAt(ph, polls[1..], k) {
        assert forall j | 0 <= j < k :: polls[1..][j] == polls[j + 1];
        assert forall j | 0 < j < k + 1 :: VerdictOf(ph, polls[j]) == VerdictOf(ph, polls[1..][j - 1]);
        assert SucceedsAt(ph, polls, k + 1);
      }
      if k: nat :| SucceedsAt(ph, polls, k) {
        assert SucceedsAt(ph, polls[1..], k - 1);
      }
    } else if polls != [] && VerdictOf(ph, polls[0]) == Succeed {
      assert SucceedsAt(ph, polls, 0);
    }
  }

  /** A wait of a request: where its polls lead, and an error when they run out or fail. */
  method Await(ph: Phase, polls: seq<Poll>) returns (next: Phase)
    requires Awaiting(ph)
    ensures next == var end := PollAll(ph, polls); if end == Reached(ph) then end else Failed
  {
    PollAllIff(ph, polls);
    var ok;
    if ph.PublishAwaitAttach? {
      ok := WaitForVolumeAttached(polls);
    } else {
      ok := WaitForVolumeDetached(polls);
    }
    if ok {
      ghost var k: nat :| 0 <= k < |polls| && VerdictOf(ph, polls[k]) == Succeed && forall j | 0 <= j < k ::
          VerdictOf(ph, polls[j]) == Wait;
      assert SucceedsAt(ph, polls, k);
      return Reached(ph);
    }
    return Failed;
  }
}
