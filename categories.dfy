/** Collecting the category list: the index pages walked letter by letter and page by
    page, and the categories cache file in front of that walk. */
module CategoryCrawler {
  import opened Wrappers
  import opened Text
  import opened Publication
  import opened Site
  import opened Cache

  const MaxInt32 := 0x7fff_ffff

  /** A Go `rune`: a 32-bit signed integer. */
  type Rune = w: int | -0x8000_0000 <= w < 0x8000_0000

  /** A position in the category index: a letter and a page number. */
  datatype Page = Page(word: Rune, number: int)

  function BeginPage(): Page
  {
    Page('A' as int, 1)
  }

  /** The last letter, and the page number that stands for "no page limit". */
  function EndPage(): Page
  {
    Page('Z' as int, -1)
  }

  /** The page number the page loop stops before: -1 stands for the largest 32-bit integer. */
  function StopNumber(stop: Page): int
  {
    if stop.number == -1 then MaxInt32 else stop.number
  }

  /** Go's conversion of a rune to a string: the character itself, or U+FFFD when
      the rune is not a Unicode scalar value. */
  function RuneString(w: Rune): (s: string)
    ensures |s| == 1
  {
    if 0 <= w < 0xD800 || 0xE000 <= w < 0x11_0000 then [w as char] else "\U{FFFD}"
  }

  function IndexPageUrl(w: Rune, n: int): string
  {
    DefaultBaseUrl + "/categorias/" + RuneString(w) + "/" + Itoa(n)
  }

  datatype Failure = CacheDirUnusable | CategoryPageUnparsable(url: string) | CacheWriteFailed

  /** Part of the index walk: the URL of a page that did not parse, if one stopped
      the walk, the categories found and the pages requested. */
  datatype Scan = Scan(failure: Option<string>, found: seq<Category>, fetched: seq<Request>)

  /** A walk that went on from where `a` left off into `b`. */
  function Then(a: Scan, b: Scan): Scan
  {
    Scan(b.failure, a.found + b.found, a.fetched + b.fetched)
  }

  /** A reply whose status the walk ignores, with a page that parses and lists categories. */
  predicate Grows(r: Response)
  {
    r.Reply? && r.body.Html? && CategoriesIn(r.body.doc) != []
  }

  /** The pages of letter `w` from `n` on, below `stop`: a transport failure or a page
      without categories ends the letter, a page that does not parse ends the walk. */
  function LetterScan(web: Web, w: Rune, n: int, stop: int): Scan
    decreases stop - n
  {
    if n >= stop then Scan(None, [], [])
    else
      var url := IndexPageUrl(w, n);
      var r := web(url);
      if r.TransportError? then Scan(None, [], [IndexRequest(url)])
      else if r.body.Unparsable? then Scan(Some(url), [], [IndexRequest(url)])
      else if CategoriesIn(r.body.doc) == [] then Scan(None, [], [IndexRequest(url)])
      else Then(Scan(None, CategoriesIn(r.body.doc), [IndexRequest(url)]), LetterScan(web, w, n + 1, stop))
  }

  /** The letters from `w` to `last`, each walked from page `n0`. */
  function LettersScan(web: Web, w: int, last: int, n0: int, stop: int): Scan
    requires -0x8000_0000 <= w && last < MaxInt32
    decreases last - w
  {
    if w > last then Scan(None, [], [])
    else
      var s := LetterScan(web, w, n0, stop);
      if s.failure.Some? then s else Then(s, LettersScan(web, w + 1, last, n0, stop))
  }

  /** What `scrapCategoryList` returns after a walk. */
  function Outcome(s: Scan): Result<seq<Category>, Failure>
  {
    if s.failure.Some? then Err(CategoryPageUnparsable(s.failure.value)) else Ok(s.found)
  }

  /** `scrapCategoryList`. The letter loop of the source never ends when the last
      letter is the largest rune, so the model asks for a smaller one. */
  method ScrapCategoryList(start: Page, stop: Page, web: Web)
    returns (r: Result<seq<Category>, Failure>, fetched: seq<Request>)
    requires stop.word < MaxInt32
    ensures var s := LettersScan(web, start.word, stop.word, start.number, StopNumber(stop));
            fetched == s.fetched && r == Outcome(s)
  {
    var stopNumber := if stop.number == -1 then MaxInt32 else stop.number;
    ghost var whole := LettersScan(web, start.word, stop.word, start.number, stopNumber);
    var categories := [];
    fetched := [];
    var word: int := start.word;
    while word <= stop.word
      invariant start.word <= word && (word <= stop.word + 1 || word == start.word)
      invariant Then(Scan(None, categories, fetched), LettersScan(web, word, stop.word, start.number, stopNumber)) == whole
      decreases stop.word - word
    {
      var failure, found, pages := ScrapLetter(web, word, start.number, stopNumber);
      LettersAdvance(web, Scan(None, categories, fetched), word, stop.word, start.number, stopNumber, whole);
      LetterDone(Scan(None, categories, fetched), Scan(failure, found, pages), whole);
      categories, fetched := categories + found, fetched + pages;
      if failure.Some? {
        r := Err(CategoryPageUnparsable(failure.value));
        return;
      }
      word := word + 1;
    }
    LettersEnd(web, word, stop.word, start.number, stopNumber);
    assert categories + [] == categories && fetched + [] == fetched;
    r := Ok(categories);
  }

  /** One letter of the walk, from the walk so far to the walk with that letter done. */
  lemma LettersAdvance(web: Web, acc: Scan, w: int, last: int, n0: int, stop: int, whole: Scan)
    requires -0x8000_0000 <= w <= last < MaxInt32
    requires Then(acc, LettersScan(web, w, last, n0, stop)) == whole
    ensures var s := LetterScan(web, w, n0, stop);
            if s.failure.Some? then Then(acc, s) == whole
            else Then(Then(acc, s), LettersScan(web, w + 1, last, n0, stop)) == whole
  {
    var s := LetterScan(web, w, n0, stop);
    if s.failure.None? {
      ThenAssoc(acc, s, LettersScan(web, w + 1, last, n0, stop));
    }
  }

  /** A letter that stops the walk ends it with the failure it found. */
  lemma LetterDone(acc: Scan, s: Scan, whole: Scan)
    requires acc.failure.None?
    requires s.failure.Some? ==> Then(acc, s) == whole
    ensures s.failure.Some? ==> whole.fetched == acc.fetched + s.fetched
                                && Outcome(whole) == Err(CategoryPageUnparsable(s.failure.value))
  {
  }

  lemma LettersEnd(web: Web, w: int, last: int, n0: int, stop: int)
    requires -0x8000_0000 <= w && last < w && last < MaxInt32
    ensures LettersScan(web, w, last, n0, stop) == Scan(None, [], [])
  {
  }

  /** The page loop of `scrapCategoryList` for one letter. */
  method ScrapLetter(web: Web, w: Rune, n0: int, stop: int)
    returns (failure: Option<string>, found: seq<Category>, fetched: seq<Request>)
    ensures Scan(failure, found, fetched) == LetterScan(web, w, n0, stop)
  {
    found, fetched := [], [];
    var number := n0;
    while number < stop
      invariant Then(Scan(None, found, fetched), LetterScan(web, w, number, stop)) == LetterScan(web, w, n0, stop)
      decreases stop - number
    {
      var url := IndexPageUrl(w, number);
      var response := web(url);
      ThenAssoc(Scan(None, found, fetched), Scan(None, [], [IndexRequest(url)]), LetterScan(web, w, number + 1, stop));
      fetched := fetched + [IndexRequest(url)];
      if response.TransportError? {
        return None, found + [], fetched;
      }
      if response.body.Unparsable? {
        return Some(url), found + [], fetched;
      }
      var prevLen := |found|;
      ThenAssoc(Scan(None, found, fetched[..|fetched| - 1]), Scan(None, CategoriesIn(response.body.doc), [IndexRequest(url)]),
                LetterScan(web, w, number + 1, stop));
      found := found + CategoriesIn(response.body.doc);
      if prevLen == |found| {
        return None, found, fetched;
      }
      number := number + 1;
    }
    failure := None;
  }

  lemma ThenAssoc(a: Scan, b: Scan, c: Scan)
    ensures Then(a, Then(b, c)) == Then(Then(a, b), c)
  {
    assert a.found + (b.found + c.found) == a.found + b.found + c.found;
    assert a.fetched + (b.fetched + c.fetched) == a.fetched + b.fetched + c.fetched;
  }

  // ---------------------------------------------------------------------------
  // getCategoryList

  /** The result of `getCategoryList`: the categories or the error, the directory
      after it, and the index pages requested. */
  datatype CategoryList = CategoryList(result: Result<seq<Category>, Failure>, disk: Disk, fetched: seq<Request>)

  /** The list the categories cache gives, empty when the policy does not read it. */
  function CachedCategories(policy: CachePolicy, disk: Disk): seq<Category>
  {
    if policy.useCacheForCategories && disk.categoryFile.Some? then Contents(disk.categoryFile.value) else []
  }

  function CategoryListOf(start: Page, stop: Page, policy: CachePolicy, disk: Disk, web: Web): CategoryList
    requires stop.word < MaxInt32
  {
    if policy.useCacheForCategories && !disk.outDirUsable then CategoryList(Err(CacheDirUnusable), disk, [])
    else
      var cached := CachedCategories(policy, disk);
      if cached != [] then CategoryList(Ok(cached), disk, [])
      else
        var s := LettersScan(web, start.word, stop.word, start.number, StopNumber(stop));
        if s.failure.Some? then CategoryList(Outcome(s), disk, s.fetched)
        else if !policy.useCacheForCategories then CategoryList(Ok(s.found), disk, s.fetched)
        else if disk.writable then CategoryList(Ok(s.found), disk.(categoryFile := Some(Intact(s.found))), s.fetched)
        else CategoryList(Err(CacheWriteFailed), disk, s.fetched)
  }

  /** `getCategoryList`: under the policy, a usable output directory is required and a
      cached list that is not empty is used as it is; otherwise the index is walked
      and, under the policy, the list is saved. */
  method GetCategoryList(start: Page, stop: Page, policy: CachePolicy, disk: Disk, web: Web)
    returns (r: Result<seq<Category>, Failure>, disk': Disk, fetched: seq<Request>)
    requires stop.word < MaxInt32
    ensures CategoryList(r, disk', fetched) == CategoryListOf(start, stop, policy, disk, web)
  {
    var catList := [];
    if policy.useCacheForCategories {
      if !disk.outDirUsable {
        return Err(CacheDirUnusable), disk, [];
      }
      if disk.categoryFile.Some? {
        catList := Contents(disk.categoryFile.value);
      }
    }
    disk', fetched := disk, [];
    if |catList| == 0 {
      var scanned;
      scanned, fetched := ScrapCategoryList(start, stop, web);
      if scanned.Err? {
        return scanned, disk, fetched;
      }
      catList := scanned.value;
      if policy.useCacheForCategories {
        if !disk.writable {
          return Err(CacheWriteFailed), disk, fetched;
        }
        disk' := disk.(categoryFile := Some(Intact(catList)));
      }
    }
    r := Ok(catList);
  }

  // ---------------------------------------------------------------------------
  // Properties

  /** The categories a reply contributes: those of a page that parses, none otherwise. */
  function FoundOn(r: Response): seq<Category>
  {
    if r.Reply? && r.body.Html? then CategoriesIn(r.body.doc) else []
  }

  /** The categories on the pages of a list of requests, in request order. */
  function FoundAlong(web: Web, rs: seq<Request>): seq<Category>
  {
    if rs == [] then [] else FoundOn(web(rs[0].url)) + FoundAlong(web, rs[1..])
  }

  lemma {:induction false} FoundAlongAppend(web: Web, a: seq<Request>, b: seq<Request>)
    ensures FoundAlong(web, a + b) == FoundAlong(web, a) + FoundAlong(web, b)
  {
    if a != [] {
      assert (a + b)[1..] == a[1..] + b;
      FoundAlongAppend(web, a[1..], b);
    } else {
      assert a + b == b;
    }
  }

  /** One letter of the walk requests at least one page when there is a page below
      `stop`, and no more than there are. */
  lemma {:induction false} LetterScanLength(web: Web, w: Rune, n: int, stop: int)
    ensures var s := LetterScan(web, w, n, stop);
            && (n >= stop ==> s == Scan(None, [], []))
            && (n < stop ==> 1 <= |s.fetched| <= stop - n)
    decreases stop - n
  {
    if n < stop {
      LetterScanLength(web, w, n + 1, stop);
    }
  }

  /** The requests for the index pages of letter `w` from `n` up to but not including `m`. */
  function IndexRequests(w: Rune, n: int, m: int): (rs: seq<Request>)
    ensures n <= m ==> |rs| == m - n
    decreases m - n
  {
    if m <= n then [] else [IndexRequest(IndexPageUrl(w, n))] + IndexRequests(w, n + 1, m)
  }

  lemma IndexRequestsAt(w: Rune, n: int, m: int)
    requires n <= m
    ensures forall k :: 0 <= k < m - n ==> IndexRequests(w, n, m)[k] == IndexRequest(IndexPageUrl(w, n + k))
  {
    forall k | 0 <= k < m - n ensures IndexRequests(w, n, m)[k] == IndexRequest(IndexPageUrl(w, n + k)) {
      IndexRequestAt(w, n, m, n + k);
    }
  }

  /** The request for page `j` sits at position `j - n`. */
  lemma {:induction false} IndexRequestAt(w: Rune, n: int, m: int, j: int)
    requires n <= j < m
    ensures IndexRequests(w, n, m)[j - n] == IndexRequest(IndexPageUrl(w, j))
    decreases j - n
  {
    var rest := IndexRequests(w, n + 1, m);
    assert IndexRequests(w, n, m) == [IndexRequest(IndexPageUrl(w, n))] + rest;
    if n < j {
      IndexRequestAt(w, n + 1, m, j);
    }
  }

  /** Every letter's page loop requests its index pages from the start page on, one by
      one, and none at or past the stop page, where a stop of -1 lets the loop run up to
      the largest 32-bit integer. */
  lemma LetterPagesBelowStop(web: Web, w: Rune, start: Page, stop: Page)
    ensures var f := LetterScan(web, w, start.number, StopNumber(stop)).fetched;
            forall k :: 0 <= k < |f| ==>
              && f[k] == IndexRequest(IndexPageUrl(w, start.number + k))
              && start.number + k < (if stop.number == -1 then MaxInt32 else stop.number)
  {
    var n, last := start.number, StopNumber(stop);
    LetterScanPages(web, w, n, last);
    LetterScanLength(web, w, n, last);
    IndexRequestsAt(w, n, n + |LetterScan(web, w, n, last).fetched|);
  }

  /** One page of a letter: a page that adds categories goes on to the next one, any
      other page is the letter's last, and fails the walk when it does not parse. */
  lemma LetterScanStep(web: Web, w: Rune, n: int, stop: int)
    requires n < stop
    ensures var url := IndexPageUrl(w, n);
            var r := web(url);
            var s := LetterScan(web, w, n, stop);
            && (Grows(r) ==> s == Then(Scan(None, CategoriesIn(r.body.doc), [IndexRequest(url)]), LetterScan(web, w, n + 1, stop)))
            && (!Grows(r) ==> s == Scan(if r.Reply? && r.body.Unparsable? then Some(url) else None, [], [IndexRequest(url)]))
  {
  }

  /** A walk that requests pages `n`, `n + 1`, ... of letter `w` in turn. */
  predicate PagesFrom(w: Rune, n: int, s: Scan)
  {
    s.fetched == IndexRequests(w, n, n + |s.fetched|)
  }

  lemma ThenPagesFrom(w: Rune, n: int, a: Scan, b: Scan)
    requires a.fetched == [IndexRequest(IndexPageUrl(w, n))] && PagesFrom(w, n + 1, b)
    ensures PagesFrom(w, n, Then(a, b))
  {
    assert n + 1 + |b.fetched| == n + |Then(a, b).fetched|;
  }

  /** One letter of the walk requests pages `n`, `n + 1`, ... in turn. */
  lemma {:induction false} LetterScanPages(web: Web, w: Rune, n: int, stop: int)
    ensures PagesFrom(w, n, LetterScan(web, w, n, stop))
    decreases stop - n
  {
    if n < stop {
      var url := IndexPageUrl(w, n);
      var r := web(url);
      var first := Scan(if Grows(r) then None else if r.Reply? && r.body.Unparsable? then Some(url) else None,
                        if Grows(r) then CategoriesIn(r.body.doc) else [], [IndexRequest(url)]);
      LetterScanStep(web, w, n, stop);
      if Grows(r) {
        LetterScanPages(web, w, n + 1, stop);
        ThenPagesFrom(w, n, first, LetterScan(web, w, n + 1, stop));
      } else {
        assert IndexRequests(w, n, n + 1) == [IndexRequest(url)] + IndexRequests(w, n + 1, n + 1);
      }
    }
  }

  /** Every request of a walk is for an index page, and its categories are those of the
      pages requested, in request order. */
  predicate IndexOnly(web: Web, s: Scan)
  {
    && (forall k :: 0 <= k < |s.fetched| ==> s.fetched[k].IndexRequest?)
    && s.found == FoundAlong(web, s.fetched)
  }

  /** A walk that goes on into another keeps to index pages. */
  lemma ThenIndexOnly(web: Web, a: Scan, b: Scan)
    requires IndexOnly(web, a) && IndexOnly(web, b)
    ensures IndexOnly(web, Then(a, b))
  {
    FoundAlongAppend(web, a.fetched, b.fetched);
    var all := a.fetched + b.fetched;
    forall k | 0 <= k < |all| ensures all[k].IndexRequest? {
      if k >= |a.fetched| {
        assert all[k] == b.fetched[k - |a.fetched|];
      }
    }
  }

  lemma {:induction false} LetterScanFound(web: Web, w: Rune, n: int, stop: int)
    ensures IndexOnly(web, LetterScan(web, w, n, stop))
    decreases stop - n
  {
    var s := LetterScan(web, w, n, stop);
    if n < stop {
      var url := IndexPageUrl(w, n);
      var r := web(url);
      var first := Scan(None, if Grows(r) then CategoriesIn(r.body.doc) else [], [IndexRequest(url)]);
      assert first.fetched[1..] == [];
      assert IndexOnly(web, first);
      LetterScanStep(web, w, n, stop);
      if Grows(r) {
        LetterScanFound(web, w, n + 1, stop);
        ThenIndexOnly(web, first, LetterScan(web, w, n + 1, stop));
      }
    }
  }

  /** In a walk with `room` pages below the stop, every page but the last added
      categories and the last one did not unless the walk used up the room; the walk
      fails exactly when the last page did not parse, and names that page. */
  predicate StopsRight(web: Web, s: Scan, room: int)
  {
    var f := s.fetched;
    && (forall k :: 0 <= k < |f| - 1 ==> Grows(web(f[k].url)))
    && (f != [] && |f| < room ==> !Grows(web(f[|f| - 1].url)))
    && (s.failure.Some? <==> f != [] && web(f[|f| - 1].url).Reply? && web(f[|f| - 1].url).body.Unparsable?)
    && (s.failure.Some? ==> s.failure.value == f[|f| - 1].url)
  }

  /** A page that added categories, followed by a walk that stops right, stops right. */
  lemma ThenStopsRight(web: Web, url: string, found: seq<Category>, b: Scan, room: int)
    requires Grows(web(url)) && StopsRight(web, b, room - 1)
    requires b.fetched == [] ==> room <= 1
    ensures StopsRight(web, Then(Scan(None, found, [IndexRequest(url)]), b), room)
  {
    var f := [IndexRequest(url)] + b.fetched;
    assert Then(Scan(None, found, [IndexRequest(url)]), b).fetched == f;
    forall k | 1 <= k < |f| ensures f[k] == b.fetched[k - 1] {
    }
    if b.fetched != [] {
      assert f[|f| - 1] == b.fetched[|b.fetched| - 1];
    }
  }

  lemma {:induction false} LetterScanStops(web: Web, w: Rune, n: int, stop: int)
    ensures StopsRight(web, LetterScan(web, w, n, stop), stop - n)
    decreases stop - n
  {
    if n < stop {
      var url := IndexPageUrl(w, n);
      var r := web(url);
      LetterScanStep(web, w, n, stop);
      if Grows(r) {
        LetterScanStops(web, w, n + 1, stop);
        LetterScanLength(web, w, n + 1, stop);
        ThenStopsRight(web, url, CategoriesIn(r.body.doc), LetterScan(web, w, n + 1, stop), stop - n);
      } else {
        var s := LetterScan(web, w, n, stop);
        assert s.fetched == [IndexRequest(url)];
      }
    }
  }

  /** The whole walk requests only index pages and finds the categories of the pages it
      requested, in request order. */
  lemma {:induction false} LettersScanFound(web: Web, w: int, last: int, n0: int, stop: int)
    requires -0x8000_0000 <= w && last < MaxInt32
    ensures IndexOnly(web, LettersScan(web, w, last, n0, stop))
    decreases last - w
  {
    if w <= last {
      var s := LetterScan(web, w, n0, stop);
      LetterScanFound(web, w, n0, stop);
      if s.failure.None? {
        LettersScanFound(web, w + 1, last, n0, stop);
        ThenIndexOnly(web, s, LettersScan(web, w + 1, last, n0, stop));
      }
    }
  }

  /** A walk that fails names its last page, and that page did not parse. */
  predicate FailsRight(web: Web, s: Scan)
  {
    s.failure.Some? ==> s.fetched != [] && s.failure.value == s.fetched[|s.fetched| - 1].url
                        && web(s.failure.value).Reply? && web(s.failure.value).body.Unparsable?
  }

  lemma ThenFailsRight(web: Web, a: Scan, b: Scan)
    requires FailsRight(web, b)
    ensures FailsRight(web, Then(a, b))
  {
    if b.failure.Some? {
      var all := a.fetched + b.fetched;
      assert all[|all| - 1] == b.fetched[|b.fetched| - 1];
    }
  }

  /** The whole walk fails exactly when its last page did not parse, and names it. */
  lemma {:induction false} LettersScanFailure(web: Web, w: int, last: int, n0: int, stop: int)
    requires -0x8000_0000 <= w && last < MaxInt32
    ensures FailsRight(web, LettersScan(web, w, last, n0, stop))
    decreases last - w
  {
    if w <= last {
      var s := LetterScan(web, w, n0, stop);
      LetterScanStops(web, w, n0, stop);
      assert FailsRight(web, s);
      if s.failure.None? {
        LettersScanFailure(web, w + 1, last, n0, stop);
        ThenFailsRight(web, s, LettersScan(web, w + 1, last, n0, stop));
      }
    }
  }

  /** `getCategoryList` requests nothing but index pages. */
  lemma CategoryListIndexOnly(start: Page, stop: Page, policy: CachePolicy, disk: Disk, web: Web)
    requires stop.word < MaxInt32
    ensures var c := CategoryListOf(start, stop, policy, disk, web);
            forall k :: 0 <= k < |c.fetched| ==> c.fetched[k].IndexRequest?
  {
    LettersScanFound(web, start.word, stop.word, start.number, StopNumber(stop));
  }

  /** Under the policy, a usable directory and a cached list that is not empty, the
      list is returned as it is, nothing is fetched and nothing is written. */
  lemma CategoryCacheHit(start: Page, stop: Page, policy: CachePolicy, disk: Disk, web: Web)
    requires stop.word < MaxInt32
    requires policy.useCacheForCategories && disk.outDirUsable && CachedCategories(policy, disk) != []
    ensures CategoryListOf(start, stop, policy, disk, web) == CategoryList(Ok(CachedCategories(policy, disk)), disk, [])
  {
  }

  /** A categories file that is empty or does not decode is walked past: the index is
      fetched again. */
  lemma CategoryCacheEmpty(start: Page, stop: Page, policy: CachePolicy, disk: Disk, web: Web)
    requires stop.word < MaxInt32
    requires disk.outDirUsable
    requires disk.categoryFile == Some(Corrupt) || disk.categoryFile == Some(Intact([]))
    ensures CategoryListOf(start, stop, policy, disk, web).fetched
         == LettersScan(web, start.word, stop.word, start.number, StopNumber(stop)).fetched
  {
  }

  /** A list that was walked and saved is what the next call returns, without fetching. */
  lemma CategoryListSecondCall(start: Page, stop: Page, policy: CachePolicy, disk: Disk, web: Web)
    requires stop.word < MaxInt32
    requires policy.useCacheForCategories
    requires var c := CategoryListOf(start, stop, policy, disk, web); c.result.Ok? && c.result.value != []
    ensures var c := CategoryListOf(start, stop, policy, disk, web);
            CategoryListOf(start, stop, policy, c.disk, web) == CategoryList(c.result, c.disk, [])
  {
  }
}
