/** The publication URLs of one category: the listing pages walked from page 1 until
    one fails, and the URL-list cache file in front of that walk. */
module ListingCrawler {
  import opened Wrappers
  import opened Text
  import opened Publication
  import opened Site
  import opened Cache

  function ListingUrl(cat: Category, page: int): string
  {
    DefaultBaseUrl + cat.url + "/" + Itoa(page)
  }

  /** A listing page the walk goes past: it was read with status 200. */
  predicate Accepted(r: Response)
  {
    r.Reply? && r.status == 200
  }

  /** The walk comes to an end: some listing page is not accepted. */
  ghost predicate ListingEnds(web: Web, cat: Category)
  {
    exists n :: 1 <= n && !Accepted(web(ListingUrl(cat, n)))
  }

  /** The first listing page that is not accepted. */
  ghost function FirstStop(web: Web, cat: Category): (n: int)
    requires ListingEnds(web, cat)
    ensures 1 <= n && !Accepted(web(ListingUrl(cat, n)))
    ensures forall m :: 1 <= m < n ==> Accepted(web(ListingUrl(cat, m)))
  {
    var k :| 1 <= k && !Accepted(web(ListingUrl(cat, k)));
    LeastStop(web, cat, k);
    var n :| 1 <= n && !Accepted(web(ListingUrl(cat, n))) && forall m :: 1 <= m < n ==> Accepted(web(ListingUrl(cat, m)));
    n
  }

  lemma {:induction false} LeastStop(web: Web, cat: Category, k: int)
    requires 1 <= k && !Accepted(web(ListingUrl(cat, k)))
    ensures exists n :: 1 <= n && !Accepted(web(ListingUrl(cat, n))) && forall m :: 1 <= m < n ==> Accepted(web(ListingUrl(cat, m)))
    decreases k
  {
    if forall m :: 1 <= m < k ==> Accepted(web(ListingUrl(cat, m))) {
    } else {
      var m :| 1 <= m < k && !Accepted(web(ListingUrl(cat, m)));
      LeastStop(web, cat, m);
    }
  }

  /** A page up to the first stop is accepted exactly when it comes before it. */
  lemma BeforeFirstStop(web: Web, cat: Category, n: int)
    requires ListingEnds(web, cat) && 1 <= n <= FirstStop(web, cat)
    ensures Accepted(web(ListingUrl(cat, n))) <==> n < FirstStop(web, cat)
  {
  }

  /** The links a listing page adds: those of its result buttons when it parses, none otherwise. */
  function LinksOn(r: Response): seq<string>
  {
    if r.Reply? && r.body.Html? then ListingLinksIn(r.body.doc) else []
  }

  /** The links of listing pages `lo` up to but not including `hi`. */
  function Listings(web: Web, cat: Category, lo: int, hi: int): seq<string>
    decreases hi - lo
  {
    if hi <= lo then [] else Listings(web, cat, lo, hi - 1) + LinksOn(web(ListingUrl(cat, hi - 1)))
  }

  /** The requests for listing pages `lo` up to but not including `hi`. */
  function ListingRequests(cat: Category, lo: int, hi: int): (rs: seq<Request>)
    ensures lo <= hi ==> |rs| == hi - lo
    decreases hi - lo
  {
    if hi <= lo then [] else ListingRequests(cat, lo, hi - 1) + [ListingRequest(ListingUrl(cat, hi - 1))]
  }

  /** The page loop of `getPublicationUrlListByCategory`. The source loops for as long
      as pages are accepted, so the model asks that some page is not. */
  method WalkListing(web: Web, cat: Category) returns (urls: seq<string>, fetched: seq<Request>)
    requires ListingEnds(web, cat)
    ensures urls == Listings(web, cat, 1, FirstStop(web, cat))
    ensures fetched == ListingRequests(cat, 1, FirstStop(web, cat) + 1)
  {
    ghost var last := FirstStop(web, cat);
    urls, fetched := [], [];
    var pageNumber := 1;
    while true
      invariant 1 <= pageNumber <= last
      invariant urls == Listings(web, cat, 1, pageNumber)
      invariant fetched == ListingRequests(cat, 1, pageNumber)
      decreases last - pageNumber
    {
      var url := ListingUrl(cat, pageNumber);
      var response := web(url);
      BeforeFirstStop(web, cat, pageNumber);
      fetched := fetched + [ListingRequest(url)];
      if response.TransportError? || response.status != 200 {
        break;
      }
      if response.body.Html? {
        urls := urls + ListingLinksIn(response.body.doc);
      }
      pageNumber := pageNumber + 1;
    }
  }

  /** The result of `getPublicationUrlListByCategory`: the URLs, the directory after it,
      and the listing pages requested. */
  datatype UrlList = UrlList(urls: seq<string>, disk: Disk, fetched: seq<Request>)

  /** The list the URL-list cache gives, empty when the policy does not read it. */
  function CachedUrls(cat: Category, policy: CachePolicy, disk: Disk): seq<string>
  {
    if policy.useCacheForCategoriesPublications then Lookup(disk.urlListFiles, PubsFileName(cat)) else []
  }

  /** The walk of a category's listing comes to an end, or is not needed because the
      URL-list cache gives a list that is not empty. */
  ghost predicate UrlListEnds(web: Web, cat: Category, policy: CachePolicy, disk: Disk)
  {
    CachedUrls(cat, policy, disk) == [] ==> ListingEnds(web, cat)
  }

  ghost function UrlListOf(web: Web, cat: Category, policy: CachePolicy, disk: Disk): UrlList
    requires UrlListEnds(web, cat, policy, disk)
  {
    var cached := CachedUrls(cat, policy, disk);
    if cached != [] then UrlList(cached, disk, [])
    else
      var last := FirstStop(web, cat);
      var urls := Listings(web, cat, 1, last);
      UrlList(urls, SavedUrls(disk, PubsFileName(cat), urls, policy), ListingRequests(cat, 1, last + 1))
  }

  /** The directory after saving a walked list, which happens only under the policy. */
  function SavedUrls(disk: Disk, key: string, urls: seq<string>, policy: CachePolicy): Disk
  {
    if policy.useCacheForCategoriesPublications && disk.writable
    then disk.(urlListFiles := disk.urlListFiles[key := Intact(urls)])
    else disk
  }

  /** `getPublicationUrlListByCategory`: a cached list that is not empty is used as it
      is, otherwise the listing is walked and, under the policy, its links are saved.
      The walk has no bound in the source, so the model asks that it ends when it is needed. */
  method GetPublicationUrlListByCategory(web: Web, cat: Category, policy: CachePolicy, disk: Disk)
    returns (urls: seq<string>, disk': Disk, fetched: seq<Request>)
    requires UrlListEnds(web, cat, policy, disk)
    ensures UrlList(urls, disk', fetched) == UrlListOf(web, cat, policy, disk)
  {
    var key := PubsFileName(cat);
    urls := [];
    if policy.useCacheForCategoriesPublications && key in disk.urlListFiles {
      urls := Contents(disk.urlListFiles[key]);
    }
    if |urls| == 0 {
      urls, fetched := WalkListing(web, cat);
      disk' := disk;
      if policy.useCacheForCategoriesPublications && disk.writable {
        disk' := disk.(urlListFiles := disk.urlListFiles[key := Intact(urls)]);
      }
    } else {
      disk', fetched := disk, [];
    }
  }

  // ---------------------------------------------------------------------------
  // Properties

  /** The walk requests pages `lo`, `lo + 1`, ... in turn. */
  lemma {:induction false} ListingRequestsAt(cat: Category, lo: int, hi: int)
    requires lo <= hi
    ensures forall k :: 0 <= k < hi - lo ==> ListingRequests(cat, lo, hi)[k] == ListingRequest(ListingUrl(cat, lo + k))
    decreases hi - lo
  {
    if lo < hi {
      ListingRequestsAt(cat, lo, hi - 1);
    }
  }

  /** Different pages of a category have different URLs. */
  lemma ListingUrlsDiffer(cat: Category, a: int, b: int)
    requires a != b
    ensures ListingUrl(cat, a) != ListingUrl(cat, b)
  {
    ItoaDiffer(a, b);
    AfterPrefixDiffer(DefaultBaseUrl + cat.url + "/", Itoa(a), Itoa(b));
  }

  /** A listing walk requests each of its URLs once. */
  lemma ListingFetchedOnce(cat: Category, lo: int, hi: int)
    requires lo <= hi
    ensures forall i, j :: 0 <= i < j < hi - lo ==> ListingRequests(cat, lo, hi)[i] != ListingRequests(cat, lo, hi)[j]
  {
    ListingRequestsAt(cat, lo, hi);
    forall i, j | 0 <= i < j < hi - lo
      ensures ListingRequests(cat, lo, hi)[i] != ListingRequests(cat, lo, hi)[j]
    {
      ListingUrlsDiffer(cat, lo + i, lo + j);
    }
  }

  /** The URLs a walk collects are exactly the links on the pages it read. */
  lemma {:induction false} ListingsMembers(web: Web, cat: Category, lo: int, hi: int, u: string)
    ensures u in Listings(web, cat, lo, hi) <==> exists p :: lo <= p < hi && u in LinksOn(web(ListingUrl(cat, p)))
    decreases hi - lo
  {
    if lo < hi {
      ListingsMembers(web, cat, lo, hi - 1, u);
      var extra := LinksOn(web(ListingUrl(cat, hi - 1)));
      assert Listings(web, cat, lo, hi) == Listings(web, cat, lo, hi - 1) + extra;
      if u in extra {
        assert lo <= hi - 1 < hi && u in LinksOn(web(ListingUrl(cat, hi - 1)));
      }
      if exists p :: lo <= p < hi && u in LinksOn(web(ListingUrl(cat, p))) {
        var p :| lo <= p < hi && u in LinksOn(web(ListingUrl(cat, p)));
        if p < hi - 1 {
          assert lo <= p < hi - 1 && u in LinksOn(web(ListingUrl(cat, p)));
        }
      }
    }
  }

  /** A walk over pages `lo` to `hi` has the walk to `mid` as a prefix: links are only added. */
  lemma {:induction false} ListingsGrow(web: Web, cat: Category, lo: int, mid: int, hi: int)
    requires lo <= mid <= hi
    ensures Listings(web, cat, lo, mid) <= Listings(web, cat, lo, hi)
    decreases hi - mid
  {
    if mid < hi {
      ListingsGrow(web, cat, lo, mid, hi - 1);
    }
  }

  /** With a cached list that is not empty, nothing is fetched and nothing is written. */
  lemma UrlListCacheHit(web: Web, cat: Category, policy: CachePolicy, disk: Disk)
    requires CachedUrls(cat, policy, disk) != []
    ensures UrlListOf(web, cat, policy, disk) == UrlList(CachedUrls(cat, policy, disk), disk, [])
  {
  }

  /** Otherwise, including a cache file that is empty or does not decode, the listing is
      walked: pages 1 up to the first page not accepted are requested, that page last,
      and the links of those before it are returned. */
  lemma UrlListWalked(web: Web, cat: Category, policy: CachePolicy, disk: Disk)
    requires ListingEnds(web, cat)
    requires CachedUrls(cat, policy, disk) == []
    ensures var l := UrlListOf(web, cat, policy, disk);
            var last := FirstStop(web, cat);
            && |l.fetched| == last
            && l.fetched[last - 1] == ListingRequest(ListingUrl(cat, last))
            && !Accepted(web(ListingUrl(cat, last)))
            && (forall m :: 1 <= m < last ==> Accepted(web(ListingUrl(cat, m))))
            && forall u :: u in l.urls <==> exists p :: 1 <= p < last && u in LinksOn(web(ListingUrl(cat, p)))
  {
    var last := FirstStop(web, cat);
    ListingRequestsAt(cat, 1, last + 1);
    forall u ensures u in UrlListOf(web, cat, policy, disk).urls <==> exists p :: 1 <= p < last && u in LinksOn(web(ListingUrl(cat, p))) {
      ListingsMembers(web, cat, 1, last, u);
    }
  }

  /** A walked list that is saved is what the next call returns, without fetching, when
      it is not empty. */
  lemma UrlListSecondCall(web: Web, cat: Category, policy: CachePolicy, disk: Disk)
    requires UrlListEnds(web, cat, policy, disk)
    requires policy.useCacheForCategoriesPublications && disk.writable
    requires UrlListOf(web, cat, policy, disk).urls != []
    ensures var l := UrlListOf(web, cat, policy, disk);
            UrlListOf(web, cat, policy, l.disk) == UrlList(l.urls, l.disk, [])
  {
  }

  /** A list that is not empty, stored under any key, stays as it is: the walk saves
      its list only under a key whose list is empty. */
  lemma UrlListKeeps(web: Web, cat: Category, policy: CachePolicy, disk: Disk, key: string)
    requires UrlListEnds(web, cat, policy, disk)
    requires policy.useCacheForCategoriesPublications && Lookup(disk.urlListFiles, key) != []
    ensures Lookup(UrlListOf(web, cat, policy, disk).disk.urlListFiles, key) == Lookup(disk.urlListFiles, key)
  {
    if CachedUrls(cat, policy, disk) == [] {
      var own := PubsFileName(cat);
      assert key != own by {
        assert Lookup(disk.urlListFiles, own) == [];
      }
      SavedUrlsKeeps(disk, own, UrlListOf(web, cat, policy, disk).urls, policy, key);
    }
  }

  /** Saving a list under one key leaves the lists under the other keys as they were. */
  lemma SavedUrlsKeeps(disk: Disk, key: string, urls: seq<string>, policy: CachePolicy, other: string)
    requires other != key
    ensures Lookup(SavedUrls(disk, key, urls, policy).urlListFiles, other) == Lookup(disk.urlListFiles, other)
  {
  }
}
