/** `Scrap`: the category list, then for each category its publications, read from
    the publications cache file when there is one and otherwise fetched from the URLs
    of its listing, each URL at most once over the whole run. */
module Scraper {
  import opened Wrappers
  import opened Text
  import opened Publication
  import opened Site
  import opened Cache
  import opened CategoryCrawler
  import opened ListingCrawler

  /** The detail requests for a list of publication paths. */
  function Requested(paths: seq<string>): (rs: seq<Request>)
    ensures |rs| == |paths|
    ensures forall k :: 0 <= k < |paths| ==> rs[k] == DetailRequest(DefaultBaseUrl + paths[k])
  {
    if paths == [] then [] else Requested(paths[..|paths| - 1]) + [DetailRequest(DefaultBaseUrl + paths[|paths| - 1])]
  }

  /** The publications read, the visited set after them, and the paths fetched. */
  datatype Detail = Detail(pubs: seq<Publication>, visited: set<string>, paths: seq<string>)

  /** The detail loop of `Scrap` over `urls`: a visited URL is skipped, any other is
      marked visited and fetched, and it adds a publication when the fetch succeeds. */
  function Details(web: Web, urls: seq<string>, visited: set<string>): Detail
  {
    if urls == [] then Detail([], visited, [])
    else
      var prev := Details(web, urls[..|urls| - 1], visited);
      var u := urls[|urls| - 1];
      if u in prev.visited then prev
      else
        var r := FetchPublication(web, u);
        Detail(prev.pubs + (if r.Ok? then [r.value] else []), prev.visited + {u}, prev.paths + [u])
  }

  method ReadPublications(web: Web, urls: seq<string>, visited0: set<string>)
    returns (pubs: seq<Publication>, visited: set<string>, fetched: seq<Request>, ghost paths: seq<string>)
    ensures Detail(pubs, visited, paths) == Details(web, urls, visited0)
    ensures fetched == Requested(paths)
  {
    pubs, visited, fetched, paths := [], visited0, [], [];
    for i := 0 to |urls|
      invariant Detail(pubs, visited, paths) == Details(web, urls[..i], visited0)
      invariant fetched == Requested(paths)
    {
      DetailsStep(web, urls, visited0, i);
      var pubUrl := urls[i];
      if pubUrl in visited {
        continue;
      }
      visited := visited + {pubUrl};
      fetched, paths := fetched + [DetailRequest(DefaultBaseUrl + pubUrl)], paths + [pubUrl];
      var r := GetPublicationByUrl(web, pubUrl);
      if r.Err? {
        continue;
      }
      pubs := pubs + [r.value];
    }
    assert urls[..|urls|] == urls;
  }

  /** One more URL of the detail loop. */
  lemma DetailsStep(web: Web, urls: seq<string>, visited: set<string>, i: nat)
    requires i < |urls|
    ensures var prev := Details(web, urls[..i], visited);
            var u := urls[i];
            Details(web, urls[..i + 1], visited)
            == if u in prev.visited then prev
               else
                 var r := FetchPublication(web, u);
                 Detail(prev.pubs + (if r.Ok? then [r.value] else []), prev.visited + {u}, prev.paths + [u])
  {
    assert urls[..i + 1][..i] == urls[..i];
  }

  /** The directory after saving a category's publications, which happens only for a
      list that is not empty and under the policy. */
  function Saved(disk: Disk, key: string, pubs: seq<Publication>, policy: CachePolicy): Disk
  {
    if |pubs| > 0 && policy.useCacheForPublications && disk.writable
    then disk.(publicationFiles := disk.publicationFiles[key := Intact(pubs)])
    else disk
  }

  /** What one category adds: its publications, the directory and visited set after
      it, the paths it fetched and all its requests. */
  datatype Step = Step(pubs: seq<Publication>, disk: Disk, visited: set<string>, paths: seq<string>, fetched: seq<Request>)

  /** Whether the policy gives a category's publications from its cache file. */
  predicate PublicationsCached(cat: Category, policy: CachePolicy, disk: Disk)
  {
    policy.useCacheForPublications && PubsFileName(cat) in disk.publicationFiles
  }

  /** A category's pass comes to an end: it is read from its publications file, or its
      URL list is cached and not empty, or its listing walk ends. */
  ghost predicate CategoryEnds(web: Web, cat: Category, policy: CachePolicy, disk: Disk)
  {
    !PublicationsCached(cat, policy, disk) ==> UrlListEnds(web, cat, policy, disk)
  }

  ghost function CategoryRun(web: Web, cat: Category, policy: CachePolicy, disk: Disk, visited: set<string>): Step
    requires CategoryEnds(web, cat, policy, disk)
  {
    var key := PubsFileName(cat);
    if PublicationsCached(cat, policy, disk) then
      var pubs := Contents(disk.publicationFiles[key]);
      Step(pubs, Saved(disk, key, pubs, policy), visited, [], [])
    else
      var l := UrlListOf(web, cat, policy, disk);
      var d := Details(web, l.urls, visited);
      Step(d.pubs, Saved(l.disk, key, d.pubs, policy), d.visited, d.paths, l.fetched + Requested(d.paths))
  }

  /** The body of the category loop of `Scrap`, past the log line. */
  method ScrapCategory(web: Web, cat: Category, policy: CachePolicy, disk: Disk, visited0: set<string>)
    returns (pubs: seq<Publication>, disk': Disk, visited: set<string>, fetched: seq<Request>, ghost paths: seq<string>)
    requires CategoryEnds(web, cat, policy, disk)
    ensures Step(pubs, disk', visited, paths, fetched) == CategoryRun(web, cat, policy, disk, visited0)
  {
    var key := PubsFileName(cat);
    pubs, visited, fetched, paths := [], visited0, [], [];
    var existCatPubListInFile := policy.useCacheForPublications && key in disk.publicationFiles;
    var listDisk := disk;
    if existCatPubListInFile {
      pubs := Contents(disk.publicationFiles[key]);
    } else {
      var pubList, listFetched;
      pubList, listDisk, listFetched := GetPublicationUrlListByCategory(web, cat, policy, disk);
      var detailFetched;
      pubs, visited, detailFetched, paths := ReadPublications(web, pubList, visited0);
      fetched := listFetched + detailFetched;
    }
    disk' := listDisk;
    if |pubs| > 0 && policy.useCacheForPublications && listDisk.writable {
      disk' := listDisk.(publicationFiles := listDisk.publicationFiles[key := Intact(pubs)]);
    }
  }

  /** Why the category loop stopped early: the short name of a category could not be
      taken (the source panics), or the listing walk of a category never ends (the
      source loops forever). */
  datatype Halt = NoShortName(cat: Category) | EndlessListing(cat: Category)

  /** The category loop so far: why it stopped, if it did, the aggregate, the directory
      and visited set, the paths fetched and all requests. */
  datatype Walk = Walk(halt: Option<Halt>, pubs: seq<Publication>, disk: Disk, visited: set<string>,
                       paths: seq<string>, fetched: seq<Request>)

  /** The categories loop of `Scrap`. Its log line takes each category's short name,
      which stops the run at a category whose URL has no "q_"; a category whose pass
      does not end stops it too. */
  ghost function Walked(web: Web, cats: seq<Category>, policy: CachePolicy, disk: Disk): Walk
  {
    if cats == [] then Walk(None, [], disk, {}, [], [])
    else
      var prev := Walked(web, cats[..|cats| - 1], policy, disk);
      var cat := cats[|cats| - 1];
      if prev.halt.Some? then prev
      else if !Contains(cat.url, "q_") then prev.(halt := Some(NoShortName(cat)))
      else if !CategoryEnds(web, cat, policy, prev.disk) then prev.(halt := Some(EndlessListing(cat)))
      else
        var c := CategoryRun(web, cat, policy, prev.disk, prev.visited);
        Walk(None, prev.pubs + c.pubs, c.disk, c.visited, prev.paths + c.paths, prev.fetched + c.fetched)
  }

  datatype Outcome =
    | Failed(failure: Failure)
    | Crashed(at: Category)
    | Hangs(at: Category)
    | Completed(publications: seq<Publication>)

  /** The outcome a category loop gives. */
  function OutcomeOf(w: Walk): Outcome
  {
    match w.halt
    case None => Completed(w.pubs)
    case Some(NoShortName(cat)) => Crashed(cat)
    case Some(EndlessListing(cat)) => Hangs(cat)
  }

  datatype Run = Run(outcome: Outcome, disk: Disk, fetched: seq<Request>)

  /** A whole run: the category-list error, or the category loop's outcome after the
      category list. */
  ghost function ScrapOf(start: Page, stop: Page, policy: CachePolicy, disk: Disk, web: Web): Run
    requires stop.word < MaxInt32
  {
    var cl := CategoryListOf(start, stop, policy, disk, web);
    if cl.result.Err? then Run(Failed(cl.result.error), cl.disk, cl.fetched)
    else
      var w := Walked(web, cl.result.value, policy, cl.disk);
      Run(OutcomeOf(w), w.disk, cl.fetched + w.fetched)
  }

  /** `Scrap`, up to the aggregate that goes to the CSV report. A run of the source
      that never ends has no counterpart here, so the model asks that the run ends. */
  method Scrap(start: Page, stop: Page, policy: CachePolicy, disk: Disk, web: Web)
    returns (outcome: Outcome, disk': Disk, fetched: seq<Request>)
    requires stop.word < MaxInt32
    requires !ScrapOf(start, stop, policy, disk, web).outcome.Hangs?
    ensures Run(outcome, disk', fetched) == ScrapOf(start, stop, policy, disk, web)
  {
    var catList, listFetched;
    catList, disk', listFetched := GetCategoryList(start, stop, policy, disk, web);
    if catList.Err? {
      return Failed(catList.error), disk', listFetched;
    }
    var halt, allCatPubList, catFetched;
    halt, allCatPubList, disk', catFetched := ScrapCategories(web, catList.value, policy, disk');
    outcome := if halt.Some? then Crashed(halt.value.cat) else Completed(allCatPubList);
    fetched := listFetched + catFetched;
  }

  /** The category loop of `Scrap`, for a loop that ends. */
  method ScrapCategories(web: Web, cats: seq<Category>, policy: CachePolicy, disk0: Disk)
    returns (halt: Option<Halt>, allCatPubList: seq<Publication>, disk: Disk, fetched: seq<Request>)
    requires !OutcomeOf(Walked(web, cats, policy, disk0)).Hangs?
    ensures var w := Walked(web, cats, policy, disk0);
            halt == w.halt && allCatPubList == w.pubs && disk == w.disk && fetched == w.fetched
    ensures halt.None? || halt.value.NoShortName?
  {
    allCatPubList, disk, fetched := [], disk0, [];
    var visited: set<string> := {};
    ghost var paths: seq<string> := [];
    for i := 0 to |cats|
      invariant Walk(None, allCatPubList, disk, visited, paths, fetched) == Walked(web, cats[..i], policy, disk0)
    {
      var category := cats[i];
      WalkedStep(web, cats, policy, disk0, i);
      if !Contains(category.url, "q_") {
        StaysCrashed(web, cats, policy, disk0, i + 1);
        return Some(NoShortName(category)), allCatPubList, disk, fetched;
      }
      EndsAt(web, cats, policy, disk0, i);
      var catPubList, catFetched;
      ghost var catPaths;
      catPubList, disk, visited, catFetched, catPaths := ScrapCategory(web, category, policy, disk, visited);
      allCatPubList, paths, fetched := allCatPubList + catPubList, paths + catPaths, fetched + catFetched;
    }
    assert cats[..|cats|] == cats;
    halt := None;
  }

  /** One more category of the loop, from a walk that has not stopped. */
  lemma WalkedStep(web: Web, cats: seq<Category>, policy: CachePolicy, disk: Disk, i: nat)
    requires i < |cats| && Walked(web, cats[..i], policy, disk).halt.None?
    ensures var prev := Walked(web, cats[..i], policy, disk);
            var cat := cats[i];
            Walked(web, cats[..i + 1], policy, disk)
            == if !Contains(cat.url, "q_") then prev.(halt := Some(NoShortName(cat)))
               else if !CategoryEnds(web, cat, policy, prev.disk) then prev.(halt := Some(EndlessListing(cat)))
               else
                 var c := CategoryRun(web, cat, policy, prev.disk, prev.visited);
                 Walk(None, prev.pubs + c.pubs, c.disk, c.visited, prev.paths + c.paths, prev.fetched + c.fetched)
  {
    assert cats[..i + 1][..i] == cats[..i];
  }

  /** Once a category stops the loop, the run ends as it was then. */
  lemma {:induction false} StaysCrashed(web: Web, cats: seq<Category>, policy: CachePolicy, disk: Disk, n: nat)
    requires 1 <= n <= |cats| && Walked(web, cats[..n], policy, disk).halt.Some?
    ensures Walked(web, cats, policy, disk) == Walked(web, cats[..n], policy, disk)
  {
    if n < |cats| {
      assert cats[..|cats|] == cats;
      var front := cats[..|cats| - 1];
      assert front[..n] == cats[..n];
      StaysCrashed(web, front, policy, disk, n);
    } else {
      assert cats[..n] == cats;
    }
  }

  /** In a loop that ends, each category it reaches past its short name ends too. */
  lemma EndsAt(web: Web, cats: seq<Category>, policy: CachePolicy, disk: Disk, i: nat)
    requires i < |cats| && Walked(web, cats[..i], policy, disk).halt.None? && Contains(cats[i].url, "q_")
    requires !OutcomeOf(Walked(web, cats, policy, disk)).Hangs?
    ensures CategoryEnds(web, cats[i], policy, Walked(web, cats[..i], policy, disk).disk)
  {
    if !CategoryEnds(web, cats[i], policy, Walked(web, cats[..i], policy, disk).disk) {
      WalkedStep(web, cats, policy, disk, i);
      StaysCrashed(web, cats, policy, disk, i + 1);
      assert false;
    }
  }

  // ---------------------------------------------------------------------------
  // Properties

  predicate NoDup<T(==)>(s: seq<T>)
  {
    forall i, j :: 0 <= i < j < |s| ==> s[i] != s[j]
  }

  lemma NoDupAppend<T>(a: seq<T>, b: seq<T>)
    requires NoDup(a) && NoDup(b)
    requires forall x :: x in b ==> x !in a
    ensures NoDup(a + b)
  {
    forall i, j | 0 <= i < j < |a + b| ensures (a + b)[i] != (a + b)[j] {
      if j < |a| {
        assert (a + b)[i] == a[i] && (a + b)[j] == a[j];
      } else if i < |a| {
        assert (a + b)[i] == a[i] && (a + b)[j] == b[j - |a|];
        assert b[j - |a|] in b;
      } else {
        assert (a + b)[i] == b[i - |a|] && (a + b)[j] == b[j - |a|];
      }
    }
  }

  /** The URLs of the publication pages among a list of requests, in order. */
  function DetailUrls(rs: seq<Request>): seq<string>
  {
    if rs == [] then []
    else DetailUrls(rs[..|rs| - 1]) + (if rs[|rs| - 1].DetailRequest? then [rs[|rs| - 1].url] else [])
  }

  lemma {:induction false} DetailUrlsAppend(a: seq<Request>, b: seq<Request>)
    ensures DetailUrls(a + b) == DetailUrls(a) + DetailUrls(b)
    decreases |b|
  {
    if b == [] {
      assert a + b == a;
    } else {
      assert (a + b)[..|a + b| - 1] == a + b[..|b| - 1];
      DetailUrlsAppend(a, b[..|b| - 1]);
    }
  }

  lemma {:induction false} NoDetailUrls(rs: seq<Request>)
    requires forall k :: 0 <= k < |rs| ==> !rs[k].DetailRequest?
    ensures DetailUrls(rs) == []
  {
    if rs != [] {
      NoDetailUrls(rs[..|rs| - 1]);
    }
  }

  /** The full URLs of a list of publication paths. */
  function Prefixed(paths: seq<string>): (urls: seq<string>)
    ensures |urls| == |paths|
    ensures forall k :: 0 <= k < |paths| ==> urls[k] == DefaultBaseUrl + paths[k]
  {
    if paths == [] then [] else Prefixed(paths[..|paths| - 1]) + [DefaultBaseUrl + paths[|paths| - 1]]
  }

  lemma {:induction false} DetailUrlsRequested(paths: seq<string>)
    ensures DetailUrls(Requested(paths)) == Prefixed(paths)
  {
    if paths != [] {
      var front := paths[..|paths| - 1];
      DetailUrlsRequested(front);
      assert Requested(paths)[..|paths| - 1] == Requested(front);
    }
  }

  lemma PrefixedAppend(a: seq<string>, b: seq<string>)
    ensures Prefixed(a + b) == Prefixed(a) + Prefixed(b)
  {
  }

  lemma NoDupPrefixed(paths: seq<string>)
    requires NoDup(paths)
    ensures NoDup(Prefixed(paths))
  {
    forall i, j | 0 <= i < j < |paths| ensures Prefixed(paths)[i] != Prefixed(paths)[j] {
      AfterPrefixDiffer(DefaultBaseUrl, paths[i], paths[j]);
    }
  }

  lemma {:induction false} ListingNoDetails(cat: Category, lo: int, hi: int)
    ensures DetailUrls(ListingRequests(cat, lo, hi)) == []
    decreases hi - lo
  {
    if lo < hi {
      ListingNoDetails(cat, lo, hi - 1);
    }
  }

  /** The publications the reads of a list of paths give, in order: one per successful read. */
  function Successes(web: Web, paths: seq<string>): seq<Publication>
  {
    if paths == [] then []
    else
      var r := FetchPublication(web, paths[|paths| - 1]);
      Successes(web, paths[..|paths| - 1]) + (if r.Ok? then [r.value] else [])
  }

  lemma {:induction false} SuccessesAppend(web: Web, a: seq<string>, b: seq<string>)
    ensures Successes(web, a + b) == Successes(web, a) + Successes(web, b)
    decreases |b|
  {
    if b == [] {
      assert a + b == a;
    } else {
      assert (a + b)[..|a + b| - 1] == a + b[..|b| - 1];
      SuccessesAppend(web, a, b[..|b| - 1]);
    }
  }

  /** The paths fetched after `visited`, leaving `visited'`: each at most once, none
      visited before, and afterwards visited are the ones before and the ones fetched. */
  ghost predicate Fresh(visited: set<string>, paths: seq<string>, visited': set<string>)
  {
    && NoDup(paths)
    && (forall p :: p in paths ==> p !in visited)
    && (forall p :: p in visited' <==> p in visited || p in paths)
  }

  /** The detail loop fetches every listed path that was not visited before, each once
      and in list order, and afterwards every listed path is visited. */
  lemma {:induction false} DetailsPaths(web: Web, urls: seq<string>, visited: set<string>)
    ensures var d := Details(web, urls, visited);
            && (forall p :: p in d.paths <==> p in urls && p !in visited)
            && (forall p :: p in d.visited <==> p in visited || p in urls)
            && Fresh(visited, d.paths, d.visited)
  {
    if urls != [] {
      var front := urls[..|urls| - 1];
      var u := urls[|urls| - 1];
      assert urls == front + [u];
      DetailsPaths(web, front, visited);
      var prev := Details(web, front, visited);
      assert forall p :: p in urls <==> p in front || p == u;
      if u !in prev.visited {
        assert u !in prev.paths;
        NoDupAppend(prev.paths, [u]);
        assert Details(web, urls, visited).paths == prev.paths + [u];
        assert Details(web, urls, visited).visited == prev.visited + {u};
      } else {
        assert Details(web, urls, visited) == prev;
      }
    }
  }

  /** The publications of the detail loop are those of the fetches that succeeded, so a
      failed fetch adds nothing. */
  lemma {:induction false} DetailsPubs(web: Web, urls: seq<string>, visited: set<string>)
    ensures var d := Details(web, urls, visited); d.pubs == Successes(web, d.paths)
  {
    if urls != [] {
      var front := urls[..|urls| - 1];
      var u := urls[|urls| - 1];
      DetailsPubs(web, front, visited);
      var prev := Details(web, front, visited);
      if u !in prev.visited {
        assert (prev.paths + [u])[..|prev.paths|] == prev.paths;
      }
    }
  }

  /** A listing walk or a cache hit requests no publication page. */
  lemma UrlListNoDetails(web: Web, cat: Category, policy: CachePolicy, disk: Disk)
    requires UrlListEnds(web, cat, policy, disk)
    ensures DetailUrls(UrlListOf(web, cat, policy, disk).fetched) == []
  {
    if UrlListOf(web, cat, policy, disk).fetched != [] {
      ListingNoDetails(cat, 1, FirstStop(web, cat) + 1);
    }
  }

  /** Listing requests followed by the detail requests of `paths` request the
      publication pages of `paths` and no others. */
  lemma ThenDetails(listed: seq<Request>, paths: seq<string>)
    requires DetailUrls(listed) == []
    ensures DetailUrls(listed + Requested(paths)) == Prefixed(paths)
  {
    DetailUrlsAppend(listed, Requested(paths));
    DetailUrlsRequested(paths);
  }

  /** One category: a cached one fetches nothing and visits nothing; any other fetches,
      besides its listing pages, each of its unvisited paths once and adds them to the
      visited set. */
  lemma CategoryRunEffect(web: Web, cat: Category, policy: CachePolicy, disk: Disk, visited: set<string>)
    requires CategoryEnds(web, cat, policy, disk)
    ensures var c := CategoryRun(web, cat, policy, disk, visited);
            && (PublicationsCached(cat, policy, disk) ==> c.fetched == [] && c.paths == [] && c.visited == visited)
            && Fresh(visited, c.paths, c.visited)
            && DetailUrls(c.fetched) == Prefixed(c.paths)
  {
    if !PublicationsCached(cat, policy, disk) {
      var l := UrlListOf(web, cat, policy, disk);
      UrlListNoDetails(web, cat, policy, disk);
      DetailsPaths(web, l.urls, visited);
      ThenDetails(l.fetched, Details(web, l.urls, visited).paths);
    }
  }

  /** The publications of one category: a cached one's are its cache file's records,
      any other's those of the reads that succeeded. */
  lemma CategoryRunPubs(web: Web, cat: Category, policy: CachePolicy, disk: Disk, visited: set<string>)
    requires CategoryEnds(web, cat, policy, disk)
    ensures var c := CategoryRun(web, cat, policy, disk, visited);
            && (PublicationsCached(cat, policy, disk) ==> c.pubs == Lookup(disk.publicationFiles, PubsFileName(cat)))
            && (!PublicationsCached(cat, policy, disk) ==> c.pubs == Successes(web, c.paths))
  {
    if !PublicationsCached(cat, policy, disk) {
      DetailsPubs(web, UrlListOf(web, cat, policy, disk).urls, visited);
    }
  }

  /** Fresh paths after distinct paths that were all the visited ones keep them distinct
      and all the visited ones. */
  lemma FreshAppend(paths: seq<string>, visited: set<string>, more: seq<string>, visited': set<string>)
    requires NoDup(paths) && (forall p :: p in visited <==> p in paths)
    requires Fresh(visited, more, visited')
    ensures NoDup(paths + more)
    ensures forall p :: p in visited' <==> p in paths + more
  {
    NoDupAppend(paths, more);
  }

  /** A loop state whose fetched paths are distinct, are exactly the visited ones, and
      are exactly the publication pages it requested. */
  ghost predicate FetchedOnce(w: Walk)
  {
    && NoDup(w.paths)
    && (forall p :: p in w.visited <==> p in w.paths)
    && DetailUrls(w.fetched) == Prefixed(w.paths)
  }

  lemma FetchedOnceStep(prev: Walk, c: Step)
    requires FetchedOnce(prev)
    requires Fresh(prev.visited, c.paths, c.visited) && DetailUrls(c.fetched) == Prefixed(c.paths)
    ensures FetchedOnce(Walk(None, prev.pubs + c.pubs, c.disk, c.visited, prev.paths + c.paths, prev.fetched + c.fetched))
  {
    FreshAppend(prev.paths, prev.visited, c.paths, c.visited);
    DetailUrlsAppend(prev.fetched, c.fetched);
    PrefixedAppend(prev.paths, c.paths);
  }

  /** Over the whole category loop, the paths fetched are distinct, they are exactly
      the visited ones, and the publication requests are for exactly those paths. */
  lemma {:induction false} WalkedEffect(web: Web, cats: seq<Category>, policy: CachePolicy, disk: Disk)
    ensures FetchedOnce(Walked(web, cats, policy, disk))
  {
    if cats != [] {
      var front := cats[..|cats| - 1];
      var cat := cats[|cats| - 1];
      WalkedEffect(web, front, policy, disk);
      var prev := Walked(web, front, policy, disk);
      if prev.halt.None? && Contains(cat.url, "q_") && CategoryEnds(web, cat, policy, prev.disk) {
        CategoryRunEffect(web, cat, policy, prev.disk, prev.visited);
        FetchedOnceStep(prev, CategoryRun(web, cat, policy, prev.disk, prev.visited));
      }
    }
  }

  /** `Scrap` requests each publication page at most once over the whole run. */
  lemma ScrapFetchesEachOnce(start: Page, stop: Page, policy: CachePolicy, disk: Disk, web: Web)
    requires stop.word < MaxInt32
    ensures NoDup(DetailUrls(ScrapOf(start, stop, policy, disk, web).fetched))
  {
    var cl := CategoryListOf(start, stop, policy, disk, web);
    CategoryListIndexOnly(start, stop, policy, disk, web);
    NoDetailUrls(cl.fetched);
    if cl.result.Ok? {
      var w := Walked(web, cl.result.value, policy, cl.disk);
      WalkedEffect(web, cl.result.value, policy, cl.disk);
      NoDupPrefixed(w.paths);
      DetailUrlsAppend(cl.fetched, w.fetched);
      assert ScrapOf(start, stop, policy, disk, web).fetched == cl.fetched + w.fetched;
    } else {
      assert ScrapOf(start, stop, policy, disk, web).fetched == cl.fetched;
    }
  }

  /** Without the publications cache, the aggregate is exactly the publications of the
      reads that succeeded, in the order of the requests. */
  lemma {:induction false} WalkedUncached(web: Web, cats: seq<Category>, policy: CachePolicy, disk: Disk)
    requires !policy.useCacheForPublications
    ensures var w := Walked(web, cats, policy, disk); w.pubs == Successes(web, w.paths)
  {
    if cats != [] {
      var front := cats[..|cats| - 1];
      var cat := cats[|cats| - 1];
      WalkedUncached(web, front, policy, disk);
      var prev := Walked(web, front, policy, disk);
      if prev.halt.None? && Contains(cat.url, "q_") && CategoryEnds(web, cat, policy, prev.disk) {
        var c := CategoryRun(web, cat, policy, prev.disk, prev.visited);
        CategoryRunPubs(web, cat, policy, prev.disk, prev.visited);
        SuccessesAppend(web, prev.paths, c.paths);
      }
    }
  }

  /** The aggregate and the requests only grow, category after category: those after the
      first `i` categories begin those of the whole loop. */
  lemma {:induction false} WalkedGrows(web: Web, cats: seq<Category>, policy: CachePolicy, disk: Disk, i: nat)
    requires i <= |cats|
    ensures Walked(web, cats[..i], policy, disk).pubs <= Walked(web, cats, policy, disk).pubs
    ensures Walked(web, cats[..i], policy, disk).fetched <= Walked(web, cats, policy, disk).fetched
  {
    if i < |cats| {
      var front := cats[..|cats| - 1];
      assert front[..i] == cats[..i];
      WalkedGrows(web, front, policy, disk, i);
    } else {
      assert cats[..i] == cats;
    }
  }

  /** A category removes no publication file. */
  lemma CategoryRunKeeps(web: Web, cat: Category, policy: CachePolicy, disk: Disk, visited: set<string>)
    requires CategoryEnds(web, cat, policy, disk)
    ensures disk.publicationFiles.Keys <= CategoryRun(web, cat, policy, disk, visited).disk.publicationFiles.Keys
  {
  }

  /** The loop removes no publication file. */
  lemma {:induction false} WalkedKeeps(web: Web, cats: seq<Category>, policy: CachePolicy, disk: Disk)
    ensures disk.publicationFiles.Keys <= Walked(web, cats, policy, disk).disk.publicationFiles.Keys
  {
    if cats != [] {
      var front := cats[..|cats| - 1];
      var cat := cats[|cats| - 1];
      WalkedKeeps(web, front, policy, disk);
      var prev := Walked(web, front, policy, disk);
      if prev.halt.None? && Contains(cat.url, "q_") && CategoryEnds(web, cat, policy, prev.disk) {
        CategoryRunKeeps(web, cat, policy, prev.disk, prev.visited);
      }
    }
  }

  /** When the publications cache holds a file for every category, the loop fetches nothing. */
  lemma {:induction false} WalkedFullyCached(web: Web, cats: seq<Category>, policy: CachePolicy, disk: Disk)
    requires forall cat :: cat in cats ==> PublicationsCached(cat, policy, disk)
    ensures Walked(web, cats, policy, disk).fetched == []
    ensures !OutcomeOf(Walked(web, cats, policy, disk)).Hangs?
  {
    WalkedEnds(web, cats, policy, disk);
    if cats != [] {
      var front := cats[..|cats| - 1];
      var cat := cats[|cats| - 1];
      forall c | c in front ensures PublicationsCached(c, policy, disk) {
        assert c in cats;
      }
      WalkedFullyCached(web, front, policy, disk);
      WalkedKeeps(web, front, policy, disk);
      assert PublicationsCached(cat, policy, Walked(web, front, policy, disk).disk) by {
        assert cat in cats;
      }
      CachedLast(web, cats, policy, disk);
    }
  }

  /** A last category read from its cache file adds no request. */
  lemma CachedLast(web: Web, cats: seq<Category>, policy: CachePolicy, disk: Disk)
    requires cats != []
    requires Walked(web, cats[..|cats| - 1], policy, disk).fetched == []
    requires PublicationsCached(cats[|cats| - 1], policy, Walked(web, cats[..|cats| - 1], policy, disk).disk)
    ensures Walked(web, cats, policy, disk).fetched == []
  {
    var prev := Walked(web, cats[..|cats| - 1], policy, disk);
    var cat := cats[|cats| - 1];
    if prev.halt.None? && Contains(cat.url, "q_") && CategoryEnds(web, cat, policy, prev.disk) {
      var c := CategoryRun(web, cat, policy, prev.disk, prev.visited);
      assert c.fetched == [] by {
        CachedFetchesNothing(web, cat, policy, prev.disk, prev.visited);
      }
      assert Walked(web, cats, policy, disk).fetched == prev.fetched + c.fetched;
    } else {
      assert Walked(web, cats, policy, disk).fetched == prev.fetched;
    }
  }

  /** A category read from its cache file fetches nothing. */
  lemma CachedFetchesNothing(web: Web, cat: Category, policy: CachePolicy, disk: Disk, visited: set<string>)
    requires PublicationsCached(cat, policy, disk)
    ensures CategoryRun(web, cat, policy, disk, visited).fetched == []
  {
  }

  /** A category keeps every URL list the cache holds that is not empty. */
  lemma CategoryRunKeepsUrls(web: Web, cat: Category, policy: CachePolicy, disk: Disk, visited: set<string>, key: string)
    requires CategoryEnds(web, cat, policy, disk)
    requires policy.useCacheForCategoriesPublications && Lookup(disk.urlListFiles, key) != []
    ensures Lookup(CategoryRun(web, cat, policy, disk, visited).disk.urlListFiles, key) == Lookup(disk.urlListFiles, key)
  {
    if !PublicationsCached(cat, policy, disk) {
      UrlListKeeps(web, cat, policy, disk, key);
    }
  }

  /** So does the loop. */
  lemma {:induction false} WalkedKeepsUrls(web: Web, cats: seq<Category>, policy: CachePolicy, disk: Disk, key: string)
    requires policy.useCacheForCategoriesPublications && Lookup(disk.urlListFiles, key) != []
    ensures Lookup(Walked(web, cats, policy, disk).disk.urlListFiles, key) == Lookup(disk.urlListFiles, key)
  {
    if cats != [] {
      var front := cats[..|cats| - 1];
      var cat := cats[|cats| - 1];
      WalkedKeepsUrls(web, front, policy, disk, key);
      var prev := Walked(web, front, policy, disk);
      if prev.halt.None? && Contains(cat.url, "q_") && CategoryEnds(web, cat, policy, prev.disk) {
        CategoryRunKeepsUrls(web, cat, policy, prev.disk, prev.visited, key);
      }
    }
  }

  /** Every listed category that the directory does not answer, by a publications file
      or by a URL list that is not empty, has a listing walk that ends. */
  ghost predicate ListingsEnd(web: Web, cats: seq<Category>, policy: CachePolicy, disk: Disk)
  {
    forall cat :: cat in cats && !PublicationsCached(cat, policy, disk) && CachedUrls(cat, policy, disk) == [] ==> ListingEnds(web, cat)
  }

  /** The loop ends when every category the directory leaves to the listing walk has a
      listing that ends: the files that answer a category stay in place. */
  lemma {:induction false} WalkedEnds(web: Web, cats: seq<Category>, policy: CachePolicy, disk: Disk)
    requires ListingsEnd(web, cats, policy, disk)
    ensures !OutcomeOf(Walked(web, cats, policy, disk)).Hangs?
  {
    if cats != [] {
      var front := cats[..|cats| - 1];
      var cat := cats[|cats| - 1];
      assert cats == front + [cat];
      WalkedEnds(web, front, policy, disk);
      var prev := Walked(web, front, policy, disk);
      if prev.halt.None? && Contains(cat.url, "q_") {
        assert CategoryEnds(web, cat, policy, prev.disk) by {
          WalkedKeeps(web, front, policy, disk);
          if CachedUrls(cat, policy, disk) != [] {
            WalkedKeepsUrls(web, front, policy, disk, PubsFileName(cat));
          }
          assert cat in cats;
        }
      }
    }
  }

  /** The loop hangs only at a listed category whose listing walk never ends. */
  lemma {:induction false} WalkedHangs(web: Web, cats: seq<Category>, policy: CachePolicy, disk: Disk)
    ensures var w := Walked(web, cats, policy, disk);
            w.halt.Some? && w.halt.value.EndlessListing? ==> w.halt.value.cat in cats && !ListingEnds(web, w.halt.value.cat)
  {
    if cats != [] {
      var front := cats[..|cats| - 1];
      assert cats == front + [cats[|cats| - 1]];
      WalkedHangs(web, front, policy, disk);
    }
  }

  /** A run ends when every category of its list that the directory leaves to the
      listing walk has a listing that ends. */
  lemma ScrapEnds(start: Page, stop: Page, policy: CachePolicy, disk: Disk, web: Web)
    requires stop.word < MaxInt32
    requires var cl := CategoryListOf(start, stop, policy, disk, web);
             cl.result.Ok? ==> ListingsEnd(web, cl.result.value, policy, cl.disk)
    ensures !ScrapOf(start, stop, policy, disk, web).outcome.Hangs?
  {
    var cl := CategoryListOf(start, stop, policy, disk, web);
    if cl.result.Ok? {
      WalkedEnds(web, cl.result.value, policy, cl.disk);
    }
  }
}
