/**
 Looking up a load balancer by name through the name-to-OCID cache, for load balancers and network
 load balancers alike. The cloud may change arbitrarily between two lookups, so an entry may be stale.
 */
module LoadBalancerNames {
  import opened Common

  /** Display name and compartment may be missing in a response. */
  datatype Lb = Lb(name: Option<string>, compartment: Option<string>)

  datatype Outcome = Found(ocid: string) | NotFound | Failed

  type Cloud = map<string, Lb>

  /** One lookup: the cloud it meets, the pages its listing would return, how many of the page
      requests succeed, and whether reading one load balancer fails other than by 404. */
  datatype Request = Request(cloud: Cloud, compartment: string, name: string, pages: seq<seq<string>>, reach: nat,
                             getFails: bool)

  predicate Matches(r: Request, ocid: string) {
    ocid in r.cloud && r.cloud[ocid] == Lb(Some(r.name), Some(r.compartment))
  }

  ghost predicate AnyMatch(r: Request) {
    exists o :: Matches(r, o)
  }

  ghost predicate UniqueMatch(r: Request) {
    forall a, b | Matches(r, a) && Matches(r, b) :: a == b
  }

  ghost predicate Listed(pages: seq<seq<string>>, ocid: string) {
    exists i :: 0 <= i < |pages| && ocid in pages[i]
  }

  /** The pages hold load balancers of the compartment, and all of those with the name. */
  ghost predicate IsListing(r: Request) {
    && (forall i, o | 0 <= i < |r.pages| && o in r.pages[i] ::
          o in r.cloud && r.cloud[o].name.Some? && r.cloud[o].compartment == Some(r.compartment))
    && (forall o | o in r.cloud && r.cloud[o].name == Some(r.name) && r.cloud[o].compartment == Some(r.compartment) ::
          Listed(r.pages, o))
    && |r.pages| > 0
  }

  // ---------- The search without a cache ----------

  function FirstIn(r: Request, page: seq<string>): Option<string> {
    if page == [] then None else if Matches(r, page[0]) then Some(page[0]) else FirstIn(r, page[1..])
  }

  function SearchFrom(r: Request, i: nat): Outcome
    requires i <= |r.pages|
    decreases |r.pages| - i
  {
    if i == |r.pages| then NotFound
    else if i >= r.reach then Failed
    else var f := FirstIn(r, r.pages[i]); if f.Some? then Found(f.value) else SearchFrom(r, i + 1)
  }

  function Search(r: Request): Outcome {
    SearchFrom(r, 0)
  }

  /** The cached entry is confirmed by reading the load balancer it names. */
  predicate Confirmed(cache: map<string, string>, r: Request) {
    r.name in cache && !r.getFails && Matches(r, cache[r.name])
  }

  /** Only a 404 removes an entry. */
  function Pruned(cache: map<string, string>, r: Request): map<string, string> {
    if r.name in cache && !r.getFails && cache[r.name] !in r.cloud then cache - {r.name} else cache
  }

  function Lookup(cache: map<string, string>, r: Request): (map<string, string>, Outcome) {
    if Confirmed(cache, r) then (cache, Found(cache[r.name]))
    else
      var o := Search(r);
      (if o.Found? then Pruned(cache, r)[r.name := o.ocid] else Pruned(cache, r), o)
  }

  class Client {
    var nameToOcid: map<string, string>

    constructor ()
      ensures nameToOcid == map[]
    {
      nameToOcid := map[];
    }

    method ScanPage(r: Request, page: seq<string>) returns (found: Option<string>)
      requires forall o | o in page ::
               o in r.cloud && r.cloud[o].name.Some? && r.cloud[o].compartment == Some(r.compartment)
      ensures found == FirstIn(r, page)
    {
      for i := 0 to |page|
        invariant FirstIn(r, page) == FirstIn(r, page[i..])
      {
        assert page[i..][1..] == page[i + 1..];
        assert page[i] in page;
        if r.cloud[page[i]].name.value == r.name {
          return Some(page[i]);
        }
      }
      return None;
    }

    method GetLoadBalancerByName(r: Request) returns (outcome: Outcome)
      requires IsListing(r)
      modifies this
      ensures (nameToOcid, outcome) == Lookup(old(nameToOcid), r)
    {
      if r.name in nameToOcid {
        var ocid := nameToOcid[r.name];
        if !r.getFails && ocid in r.cloud {
          var lb := r.cloud[ocid];
          if lb.name.Some? && lb.compartment.Some? {
            if lb.name.value == r.name && lb.compartment.value == r.compartment {
              return Found(ocid);
            }
          }
        }
        if !r.getFails && ocid !in r.cloud {
          nameToOcid := nameToOcid - {r.name};
        }
      }
      var page := 0;
      while true
        invariant page < |r.pages|
        invariant Search(r) == SearchFrom(r, page)
        invariant nameToOcid == Pruned(old(nameToOcid), r) && !Confirmed(old(nameToOcid), r)
        decreases |r.pages| - page
      {
        if page >= r.reach {
          return Failed;
        }
        var found := ScanPage(r, r.pages[page]);
        if found.Some? {
          nameToOcid := nameToOcid[r.name := found.value];
          return Found(found.value);
        }
        page := page + 1;
        if page == |r.pages| {
          break;
        }
      }
      return NotFound;
    }
  }

  // ---------- What a lookup means ----------

  lemma {:induction false} FirstInMeans(r: Request, page: seq<string>)
    ensures var f := FirstIn(r, page);
            if f.Some? then f.value in page && Matches(r, f.value) else forall o | o in page :: !Matches(r, o)
  {
    if page != [] && !Matches(r, page[0]) {
      FirstInMeans(r, page[1..]);
      assert page == [page[0]] + page[1..];
    }
  }

  /** No page from the i-th up to the j-th lists a match. */
  ghost predicate NoneIn(r: Request, i: nat, j: nat)
    requires i <= j <= |r.pages|
  {
    forall k, o | i <= k < j && o in r.pages[k] :: !Matches(r, o)
  }

  /** The j-th page is the first one from the i-th on with a match, and this is one of its matches. */
  ghost predicate FirstAt(r: Request, i: nat, j: nat, ocid: string)
    requires i <= j < |r.pages|
  {
    NoneIn(r, i, j) && ocid in r.pages[j]
  }

  lemma {:induction false} SearchFromMeans(r: Request, i: nat)
    requires i <= |r.pages|
    ensures match SearchFrom(r, i)
            case Found(o) => Matches(r, o) && exists j :: i <= j < r.reach && j < |r.pages| && FirstAt(r, i, j, o)
            case NotFound => NoneIn(r, i, |r.pages|)
            case Failed => r.reach < |r.pages| && (i <= r.reach ==> NoneIn(r, i, r.reach))
    decreases |r.pages| - i
  {
    if i < |r.pages| && i < r.reach {
      FirstInMeans(r, r.pages[i]);
      SearchFromMeans(r, i + 1);
      var f := FirstIn(r, r.pages[i]);
      if f.Some? {
        assert FirstAt(r, i, i, f.value);
      } else if SearchFrom(r, i + 1).Found? {
        var o := SearchFrom(r, i + 1).ocid;
        var j :| i + 1 <= j < r.reach && j < |r.pages| && FirstAt(r, i + 1, j, o);
        assert FirstAt(r, i, j, o);
      }
    }
  }

  /** Whatever the cache holds: a load balancer returned has the name and compartment now, not found
      means that none has, and a failure is that of a page request with no match on the pages before. */
  lemma LookupIsCurrent(cache: map<string, string>, r: Request)
    requires IsListing(r)
    ensures match Lookup(cache, r).1
            case Found(o) => && o in r.cloud && r.cloud[o].name == Some(r.name)
                             && r.cloud[o].compartment == Some(r.compartment)
            case NotFound => forall o | o in r.cloud :: r.cloud[o] != Lb(Some(r.name), Some(r.compartment))
            case Failed => && r.reach < |r.pages|
                           && forall k, o | 0 <= k < r.reach && o in r.pages[k] :: r.cloud[o].name != Some(r.name)
  {
    SearchFromMeans(r, 0);
    if Lookup(cache, r).1.NotFound? {
      forall o | o in r.cloud ensures r.cloud[o] != Lb(Some(r.name), Some(r.compartment)) {
        assert Matches(r, o) ==> Listed(r.pages, o);
      }
    }
    if Lookup(cache, r).1.Failed? {
      forall k, o | 0 <= k < r.reach && o in r.pages[k] ensures r.cloud[o].name != Some(r.name) {
        assert !Matches(r, o);
        assert r.cloud[o].compartment == Some(r.compartment);
      }
    }
  }

  /** An entry that is read and still has the name and compartment is the answer without a search. */
  lemma CacheAnswers(cache: map<string, string>, r: Request)
    requires r.name in cache && !r.getFails
    requires cache[r.name] in r.cloud && r.cloud[cache[r.name]] == Lb(Some(r.name), Some(r.compartment))
    ensures Lookup(cache, r) == (cache, Found(cache[r.name]))
  {}

  /** With a unique match the cache cannot be observed, except that it may answer where the listing
      would fail. */
  lemma CacheIsInvisible(cache: map<string, string>, r: Request)
    requires IsListing(r) && UniqueMatch(r)
    ensures Lookup(cache, r).1 == Search(r) || (Search(r).Failed? && Confirmed(cache, r))
  {
    LookupIsCurrent(cache, r);
    SearchFromMeans(r, 0);
  }

  /** An entry disappears exactly when reading it gives 404 and the search finds nothing to replace
      it with; no other entry changes. */
  lemma ForgetsOnlyOn404(cache: map<string, string>, r: Request, n: string)
    requires IsListing(r) && n in cache
    ensures n !in Lookup(cache, r).0 <==> n == r.name && !r.getFails && cache[n] !in r.cloud && !Search(r).Found?
    ensures n != r.name ==> n in Lookup(cache, r).0 && Lookup(cache, r).0[n] == cache[n]
  {}

  /** What a search finds is remembered; what is confirmed is kept; nothing else is added. */
  lemma RemembersFound(cache: map<string, string>, r: Request, n: string)
    ensures var (after, o) := Lookup(cache, r);
            && (o.Found? ==> r.name in after && after[r.name] == o.ocid)
            && (n in after && n !in cache ==> n == r.name && o.Found?)
  {}

  // ---------- Runs ----------

  function Outcomes(cache: map<string, string>, rs: seq<Request>): seq<Outcome>
    decreases |rs|
  {
    if rs == [] then [] else var (c, o) := Lookup(cache, rs[0]); [o] + Outcomes(c, rs[1..])
  }

  /** The answer of a search without a cache, or a current match where that search fails. */
  predicate SearchOrBetter(r: Request, o: Outcome) {
    || o == Search(r)
    || (&& Search(r).Failed? && o.Found? && o.ocid in r.cloud
        && r.cloud[o.ocid] == Lb(Some(r.name), Some(r.compartment)))
  }

  /** Over any sequence of lookups against a changing cloud, starting from any cache and with page
      requests failing anywhere, every answer is the one a search without a cache gives when matches
      are unique, except that a current match may be found where that search fails. */
  lemma {:induction false} RunsMatchSearches(cache: map<string, string>, rs: seq<Request>)
    requires forall i | 0 <= i < |rs| :: IsListing(rs[i]) && UniqueMatch(rs[i])
    ensures |Outcomes(cache, rs)| == |rs| && forall i | 0 <= i < |rs| :: SearchOrBetter(rs[i], Outcomes(cache, rs)[i])
    decreases |rs|
  {
    if rs != [] {
      var c := Lookup(cache, rs[0]).0;
      RunsMatchSearches(c, rs[1..]);
      CacheIsInvisible(cache, rs[0]);
      forall i | 0 <= i < |rs| ensures SearchOrBetter(rs[i], Outcomes(cache, rs)[i]) {
        if i > 0 {
          assert rs[i] == rs[1..][i - 1];
        }
      }
    }
  }
}
