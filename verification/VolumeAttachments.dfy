/**
 Attachments of one volume and the client calls on them: paged listings and polling waits.
 */
module VolumeAttachments {
  import opened Common

  datatype Lifecycle = Attaching | Attached | Detaching | Detached

  datatype Attachment = Attachment(instance: string, state: Lifecycle)

  datatype Entry = Entry(id: nat, attachment: Attachment)

  predicate Live(a: Attachment) {
    a.state != Detached
  }

  datatype Answer<T> = Found(value: T) | NotFound | Error

  // ---------- Listings ----------

  function Flatten(pages: seq<seq<Entry>>): seq<Entry> {
    if pages == [] then [] else pages[0] + Flatten(pages[1..])
  }

  function LiveOnly(e: Entry): seq<Entry> {
    if Live(e.attachment) then [e] else []
  }

  function LiveEntries(entries: seq<Entry>): seq<Entry> {
    if entries == [] then [] else LiveOnly(entries[0]) + LiveEntries(entries[1..])
  }

  lemma Associate(a: seq<Entry>, b: seq<Entry>, c: seq<Entry>)
    ensures (a + b) + c == a + (b + c)
  {}

  lemma LiveFirst(e: Entry, rest: seq<Entry>)
    ensures LiveEntries([e] + rest) == LiveOnly(e) + LiveEntries(rest)
  {
    assert ([e] + rest)[1..] == rest;
  }

  lemma {:induction false} LiveConcat(a: seq<Entry>, b: seq<Entry>)
    ensures LiveEntries(a + b) == LiveEntries(a) + LiveEntries(b)
  {
    if a == [] {
      assert a + b == b;
    } else {
      LiveConcat(a[1..], b);
      Associate([a[0]], a[1..], b);
      assert [a[0]] + a[1..] == a;
      LiveFirst(a[0], a[1..] + b);
      Associate(LiveOnly(a[0]), LiveEntries(a[1..]), LiveEntries(b));
    }
  }

  /** The attachments that are not DETACHED, in order: the first has only DETACHED ones before it. */
  lemma {:induction false} LiveMeans(entries: seq<Entry>)
    ensures forall e :: e in LiveEntries(entries) <==> e in entries && e.attachment.state != Detached
    ensures var live := LiveEntries(entries);
            live != [] ==> exists i :: && 0 <= i < |entries| && entries[i] == live[0]
                                       && forall j | 0 <= j < i :: entries[j].attachment.state == Detached
  {
    if entries != [] {
      LiveMeans(entries[1..]);
      assert entries == [entries[0]] + entries[1..];
      if Live(entries[0].attachment) {
        assert LiveEntries(entries)[0] == entries[0];
      } else if LiveEntries(entries) != [] {
        var i :| && 0 <= i < |entries| - 1 && entries[1..][i] == LiveEntries(entries)[0]
                 && forall j | 0 <= j < i :: entries[1..][j].attachment.state == Detached;
        assert entries[i + 1] == LiveEntries(entries)[0];
        assert forall j | 0 < j < i + 1 :: entries[j] == entries[1..][j - 1];
      }
    }
  }

  /** The live attachments of the pages from the i-th on. */
  function LiveFrom(pages: seq<seq<Entry>>, i: nat): seq<Entry>
    requires i <= |pages|
  {
    LiveEntries(Flatten(pages[i..]))
  }

  lemma LiveFromStep(pages: seq<seq<Entry>>, i: nat)
    requires i < |pages|
    ensures LiveFrom(pages, i) == LiveEntries(pages[i]) + LiveFrom(pages, i + 1)
  {
    assert pages[i..][1..] == pages[i + 1..];
    LiveConcat(pages[i], Flatten(pages[i + 1..]));
  }

  /** ListVolumeAttachments: all attachments that are not DETACHED, over all pages. The first
      `reach` page requests succeed. */
  method ListVolumeAttachments(pages: seq<seq<Entry>>, reach: nat) returns (r: Answer<seq<Entry>>)
    ensures r == if reach < |pages| then Error
                 else if LiveFrom(pages, 0) == [] then NotFound else Found(LiveFrom(pages, 0))
  {
    var attachments := [];
    for i := 0 to |pages|
      invariant i <= reach && attachments + LiveFrom(pages, i) == LiveFrom(pages, 0)
    {
      if i >= reach {
        return Error;
      }
      LiveFromStep(pages, i);
      var live := KeepLive(pages[i]);
      Associate(attachments, live, LiveFrom(pages, i + 1));
      attachments := attachments + live;
    }
    assert attachments + [] == attachments;
    return if |attachments| == 0 then NotFound else Found(attachments);
  }

  /** The inner loop of ListVolumeAttachments. */
  method KeepLive(items: seq<Entry>) returns (live: seq<Entry>)
    ensures live == LiveEntries(items)
  {
    live := [];
    for j := 0 to |items|
      invariant live + LiveEntries(items[j..]) == LiveEntries(items)
    {
      ghost var rest := LiveEntries(items[j + 1..]);
      assert items[j..][1..] == items[j + 1..];
      assert live + LiveEntries(items[j..]) == if Live(items[j].attachment) then live + [items[j]] + rest
          else live + rest;
      var state := items[j].attachment.state;
      if state == Attaching || state == Attached || state == Detaching {
        live := live + [items[j]];
      }
    }
  }

  /** The inner loop of FindVolumeAttachment. */
  method FirstLive(items: seq<Entry>) returns (first: Option<Entry>, r: Answer<()>)
    ensures first == if LiveEntries(items) == [] then None else Some(LiveEntries(items)[0])
    ensures first.Some? ==> r == if first.value.attachment.state == Detaching then NotFound else Found(())
  {
    for j := 0 to |items|
      invariant LiveEntries(items[j..]) == LiveEntries(items)
    {
      assert items[j..][1..] == items[j + 1..];
      var state := items[j].attachment.state;
      if state == Attaching || state == Attached {
        return Some(items[j]), Found(());
      }
      if state == Detaching {
        return Some(items[j]), NotFound;
      }
    }
    return None, NotFound;
  }

  /** FindVolumeAttachment on the pages of one instance: the first attachment that is not DETACHED,
      found when it is (being) attached and merely reported when it is being detached. A failing
      page request matters only before that attachment. */
  method FindVolumeAttachment(pages: seq<seq<Entry>>, reach: nat) returns (attachment: Option<Entry>, r: Answer<()>)
    ensures attachment.Some? ==>
              && LiveFrom(pages, 0) != [] && attachment.value == LiveFrom(pages, 0)[0]
              && r == if attachment.value.attachment.state == Detaching then NotFound else Found(())
    ensures attachment.None? ==> (r == NotFound && LiveFrom(pages, 0) == []) || (r == Error && reach < |pages|)
    ensures r == Error ==> forall k | 0 <= k < reach :: LiveEntries(pages[k]) == []
  {
    for i := 0 to |pages|
      invariant i <= reach && LiveFrom(pages, i) == LiveFrom(pages, 0)
      invariant forall k | 0 <= k < i :: LiveEntries(pages[k]) == []
    {
      if i >= reach {
        return None, Error;
      }
      LiveFromStep(pages, i);
      attachment, r := FirstLive(pages[i]);
      if attachment.Some? {
        return;
      }
    }
    return None, NotFound;
  }

  // ---------- Waits ----------

  /** One poll of an attachment. */
  datatype Poll = Retryable | Fatal | Saw(state: Lifecycle)

  datatype Verdict = Wait | Succeed | Fail

  function AttachVerdict(p: Poll): Verdict {
    match p
    case Retryable => Wait
    case Fatal => Fail
    case Saw(s) => if s == Attached then Succeed else if s == Attaching then Wait else Fail
  }

  function DetachVerdict(p: Poll): Verdict {
    match p
    case Retryable => Wait
    case Fatal => Fail
    case Saw(s) => if s == Detached then Succeed else Wait
  }

  /** WaitForVolumeAttached: polls until a verdict; running out of polls is a timeout. */
  method WaitForVolumeAttached(polls: seq<Poll>) returns (ok: bool)
    ensures ok <==> exists k :: && 0 <= k < |polls| && polls[k] == Saw(Attached)
                                && forall j | 0 <= j < k :: polls[j] == Retryable || polls[j] == Saw(Attaching)
  {
    for i := 0 to |polls|
      invariant forall j | 0 <= j < i :: AttachVerdict(polls[j]) == Wait
    {
      match polls[i] {
        case Retryable =>
        case Fatal => return false;
        case Saw(state) =>
          if state == Attached { return true; }
          if state == Detaching || state == Detached { return false; }
      }
    }
    return false;
  }

  /** WaitForVolumeDetached. */
  method WaitForVolumeDetached(polls: seq<Poll>) returns (ok: bool)
    ensures ok <==> exists k :: && 0 <= k < |polls| && polls[k] == Saw(Detached)
                                && forall j | 0 <= j < k :: polls[j] != Fatal && polls[j] != Saw(Detached)
  {
    for i := 0 to |polls|
      invariant forall j | 0 <= j < i :: DetachVerdict(polls[j]) == Wait
    {
      match polls[i] {
        case Retryable =>
        case Fatal => return false;
        case Saw(state) =>
          if state == Detached { return true; }
      }
    }
    return false;
  }
}
