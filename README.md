# Uruguay yellow-pages crawler, modelled in Dafny

The crawler reads the Uruguayan business directory at
`https://www.paginasamarillas.com.uy` in three stages:

1. It discovers categories by walking the index pages `/categorias/<letter>/<page>`, letter by letter and page by page.
2. For each category it collects the publication URLs by walking the listing pages `<category>/<page>` from page 1.
3. It fetches each publication page and extracts the publication's fields.

Each stage can read and write a JSON cache file under the output directory. The
aggregate of all publications is what the run hands to its CSV report.

This project models that core:

- the string normalisers (`cleanField`, `nameForCategoryPubsFile`, `toDayOfWeek`, `Category.CleanName`);
- the phone-list renderer of the report (`phoneListToString`);
- the extraction of contacts and opening hours from a publication page;
- the crawl loops (`scrapCategoryList`, `getCategoryList`, the page loop of `getPublicationUrlListByCategory`, `getPublicationByUrl` and `Scrap`).

The web site is a function from URL to response:

- a response is a transport failure, or a status code with a body;
- a body that parses is given as what the crawler's selectors find on it.

The output directory is a value handed in and returned, with its three kinds of cache file. Every request the crawler makes is returned as a trace, tagged by kind: index, listing or detail page.

Modules, one per file:

| file | module | models |
|---|---|---|
| `wrappers.dfy` | `Wrappers` | `Option`, `Result` |
| `text.dfy` | `Text` | the Go string functions the core calls (`Replace`, `Trim`, `Index`, `Split`, `Itoa`) and `Join` |
| `publication.dfy` | `Publication` | the records and constants of `publication.go`, `Category.CleanName` |
| `normalize.dfy` | `FieldNormalizer` | `cleanField`, `nameForCategoryPubsFile`, `toDayOfWeek` |
| `report.dfy` | `ReportWriter` | `phoneListToString`, and a parser of its output to state the round trip |
| `contacts.dfy` | `ContactsExtractor` | `getContacts` over abstract contact items |
| `timetable.dfy` | `TimetableExtractor` | `getTimetableForPublication` over abstract table rows |
| `site.dfy` | `Site` | responses, requests, `respToCategoriesList`, `respToPublicationList`, `getPublicationByUrl` |
| `cache.dfy` | `Cache` | `CachePolicy`, the output directory and its cache files |
| `categories.dfy` | `CategoryCrawler` | `Page`, `BeginPage`, `EndPage`, `scrapCategoryList`, `getCategoryList` |
| `listing.dfy` | `ListingCrawler` | `getPublicationUrlListByCategory` and its page loop |
| `scraper.dfy` | `Scraper` | `Scrap`: categories, the visited set, the aggregate |

The loops of the source are methods with loop invariants. Each is proved equal to a
specification function: `LettersScan`, `UrlListOf`, `Details`, `CategoryRun`,
`Walked`, `TimetableOf` and `ContactsOf`. The properties the source promises are
proved about those functions as lemmas.

Where the specification text and the code disagree, the model follows the code:

- The index walk ignores the HTTP status (`yp_uruguay_scraper.go:249`). Only a transport error, or a page that adds no categories, ends a letter. A non-200 reply does not end it.
- A category index page that cannot be parsed aborts the category walk with an error (`yp_uruguay_scraper.go:254-257`). It is not skipped.
- `Scrap` takes every category's short name for its log line (`Category.CleanName`, `yp_uruguay_scraper.go:533`). A category URL without "q_" therefore stops the whole run: the outcome `Crashed`.
- The listing walk of a category has no page bound (`yp_uruguay_scraper.go:162-172`). A run that reaches a category whose listing never ends never ends either: the outcome `Hangs`.

One case departs from the code on purpose. As written, a publication URL that answers with a status other than 200 gives neither a publication nor an error, and `Scrap` then dereferences a nil pointer (`yp_uruguay_scraper.go:499-502` and `561`). That behaviour is `Site.FetchAsWritten`. The model's `Scrap` uses the corrected fetch instead, which makes such a reply an error that is skipped; see "## Findings" and the `Site.GetPublicationByUrl` line under "## Left out".

## Model

| member | source | states |
|---|---|---|
| Publication.Category.CleanName | scrapers/uruguay/src/publication.go:14-16 | defined only when the URL contains "q_"; the short name has no '/' and no "q_"; it is the prefix of the text after the first "q_", ending at the first '/', at the next "q_" or at the end |
| Publication.CleanNameShape | scrapers/uruguay/src/publication.go:15 | splitting at "q_" gives at least two parts, and the first '/'-part of the second one has the shape above |
| Publication.ConstantValuesDistinct | scrapers/uruguay/src/publication.go:20-44 | the three phone-type strings are pairwise distinct, and so are the eight day strings |
| FieldNormalizer.CleanField | scrapers/uruguay/src/yp_uruguay_scraper.go:303-313 | the cleaned field has no '-', '.', tab, CR or LF, and neither starts nor ends with a space |
| FieldNormalizer.CleanFieldKeepsSignificant | scrapers/uruguay/src/yp_uruguay_scraper.go:303-313 | apart from spaces, the cleaned field is the input with every space, '-', '.', tab, CR and LF removed and nothing else changed |
| FieldNormalizer.CleanFieldOfSingleLine | scrapers/uruguay/src/yp_uruguay_scraper.go:303-313 | an input without tab, CR or LF is cleaned to exactly its characters other than space, '-' and '.' |
| FieldNormalizer.CleanFieldTwice | scrapers/uruguay/src/yp_uruguay_scraper.go:303-313 | cleaning twice leaves exactly the significant characters, with no space left |
| FieldNormalizer.CleanFieldIdempotentIff | scrapers/uruguay/src/yp_uruguay_scraper.go:303-313 | cleaning is idempotent on an input exactly when its cleaned form holds no space |
| FieldNormalizer.CleanFieldExample | scrapers/uruguay/src/yp_uruguay_scraper.go:303-313 | " 099 123-456.\t" is cleaned to "099123456" |
| FieldNormalizer.CleanFieldNotIdempotent | scrapers/uruguay/src/yp_uruguay_scraper.go:308-311 | "1\t2" is cleaned to "1 2", which is cleaned again to "12": a tab becomes an inner space after spaces were removed |
| FieldNormalizer.NameForCategoryPubsFile | scrapers/uruguay/src/yp_uruguay_scraper.go:134-142 | the file name has the category name's length; each of ' ', '(', ')', '+', '.', '%' becomes '_' and every other character stays in place |
| FieldNormalizer.NameForCategoryPubsFileIdempotent | scrapers/uruguay/src/yp_uruguay_scraper.go:134-142 | building the file name of a file name changes nothing |
| FieldNormalizer.CacheFileNamesShared | scrapers/uruguay/src/yp_uruguay_scraper.go:134-147 | two category names get the same cache file exactly when they have the same length and agree position by position up to the six replaced characters |
| FieldNormalizer.CacheFileNamesCollide | scrapers/uruguay/src/yp_uruguay_scraper.go:134-142 | "a b" and "a.b" share a cache file |
| FieldNormalizer.ToDayOfWeek | scrapers/uruguay/src/yp_uruguay_scraper.go:428-447 | a known day is returned only for its Spanish name; UnknownDay is returned exactly when the label is none of the seven names |
| FieldNormalizer.ToDayOfWeekRoundTrip | scrapers/uruguay/src/yp_uruguay_scraper.go:428-447 | each of the seven days is read back from its Spanish name, so the seven names map to seven distinct days |
| ReportWriter.Token | scrapers/uruguay/src/yp_uruguay_scraper.go:579-585 | a phone's token is at least four characters long and ends with ')' |
| ReportWriter.PhoneListToString | scrapers/uruguay/src/yp_uruguay_scraper.go:576-591 | the loop's output is the phones' tokens joined by the separator (space, vertical bar, space); it is empty exactly when there are no phones |
| ReportWriter.ReportEmpty | scrapers/uruguay/src/yp_uruguay_scraper.go:576-591 | the rendering is "" exactly for the empty list |
| ReportWriter.ReportShape | scrapers/uruguay/src/yp_uruguay_scraper.go:586-588 | with two or more phones, the rendering is that of all but the last, one separator and the last token: no trailing separator, n-1 separators in all |
| ReportWriter.ParseTokenRoundTrip | scrapers/uruguay/src/yp_uruguay_scraper.go:579-585 | a token reads back as its phone's main flag, WhatsApp flag and number: optional "M", then optional "W", then "( number )" |
| ReportWriter.ReportRoundTrip | scrapers/uruguay/src/yp_uruguay_scraper.go:576-591 | for numbers without a vertical bar, the rendering splits at the separator into exactly one token per phone, the k-th showing the k-th phone |
| TimetableExtractor.GetTimetable | scrapers/uruguay/src/yp_uruguay_scraper.go:449-485 | the table built row by row gives each day the ranges of the rows whose last day cell names it, in row order |
| TimetableExtractor.ReadRow | scrapers/uruguay/src/yp_uruguay_scraper.go:451-483 | reading one row in place yields the table after that row |
| TimetableExtractor.ScanSpans | scrapers/uruguay/src/yp_uruguay_scraper.go:462-478 | the span loop of one time cell yields the state after those spans |
| TimetableExtractor.SpansScanEffect | scrapers/uruguay/src/yp_uruguay_scraper.go:462-478 | scanning spans keeps the day, sets start and end to the last "opens" and "closes" texts, changes no day's ranges, and adds a key for the current day exactly when some span has an itemprop |
| TimetableExtractor.CellsScanKeys | scrapers/uruguay/src/yp_uruguay_scraper.go:454-481 | while a row's cells are read, a day gets a key exactly when it was current at some time cell and some span of the row has an itemprop |
| TimetableExtractor.AddRowEffect | scrapers/uruguay/src/yp_uruguay_scraper.go:451-483 | a row appends exactly one range, possibly empty, to the day its last day cell names (UnknownDay when none); other days keep their ranges; the keys added are that day and the days touched by its spans |
| TimetableExtractor.TimetableRanges | scrapers/uruguay/src/yp_uruguay_scraper.go:449-485 | each day's ranges are those of its rows, in row order |
| TimetableExtractor.EveryRowCounted | scrapers/uruguay/src/yp_uruguay_scraper.go:482 | summed over all eight days, the rows counted are exactly the table's rows: each row lands under exactly one day |
| ContactsExtractor.PhoneKind | scrapers/uruguay/src/yp_uruguay_scraper.go:345-350 | "Tel." gives a fixed phone, "Fax" a fax, "Cel." a mobile, each in both directions |
| ContactsExtractor.LastSpan | scrapers/uruguay/src/yp_uruguay_scraper.go:327-333 | the span loop leaves the main (or WhatsApp) number as the last matching span, cleaned, and "" when there is none |
| ContactsExtractor.GetContacts | scrapers/uruguay/src/yp_uruguay_scraper.go:321-377 | the loops collect the contacts of the items; every phone is marked main exactly when its number is the main number, and WhatsApp exactly when it is the WhatsApp number |
| ContactsExtractor.ReadItem | scrapers/uruguay/src/yp_uruguay_scraper.go:335-369 | one item's title loop yields its phones, its mail links and its web links |
| ContactsExtractor.ReadPhones | scrapers/uruguay/src/yp_uruguay_scraper.go:344-359 | the value loop makes one phone per value span, in order |
| ContactsExtractor.PhonesFlagged | scrapers/uruguay/src/yp_uruguay_scraper.go:351-358 | every phone collected carries the right main and WhatsApp flags |
| ContactsExtractor.ItemPhonesLength | scrapers/uruguay/src/yp_uruguay_scraper.go:338-359 | an item yields its number of phone titles times its number of value spans phones |
| ContactsExtractor.PhonesCounted | scrapers/uruguay/src/yp_uruguay_scraper.go:334-371 | a page yields exactly as many phones as its items' phone titles times value spans |
| ContactsExtractor.LinksMembers | scrapers/uruguay/src/yp_uruguay_scraper.go:360-367 | a text is among the mails (or webs) exactly when some item has an "Email" (or "Web") title and that link |
| ContactsExtractor.NoPhoneTitleNoPhones | scrapers/uruguay/src/yp_uruguay_scraper.go:338-368 | items without a "Fax", "Tel." or "Cel." title yield no phone |
| Site.CategoriesInEmpty | scrapers/uruguay/src/yp_uruguay_scraper.go:98-112 | an index page yields no more categories than links, and none exactly when no link has an href |
| Site.ListingLinksIn | scrapers/uruguay/src/yp_uruguay_scraper.go:123-129 | a listing page yields at most one URL per result button |
| Site.GetPublicationByUrl | scrapers/uruguay/src/yp_uruguay_scraper.go:497-523 | a publication is returned exactly for a 200 reply that parses; it carries the full URL, and its phones are flagged against the page's main and WhatsApp numbers |
| Site.FetchAsWritten | scrapers/uruguay/src/yp_uruguay_scraper.go:497-502 | as written, neither a publication nor an error is returned exactly for a reply other than 200 |
| Site.NotFoundBreaksScrap | scrapers/uruguay/src/yp_uruguay_scraper.go:556-561 | a site answering 404 gets past the error check of `Scrap` with no publication behind it |
| CategoryCrawler.RuneString | scrapers/uruguay/src/yp_uruguay_scraper.go:249 | a letter becomes a one-character path segment |
| CategoryCrawler.ScrapCategoryList | scrapers/uruguay/src/yp_uruguay_scraper.go:242-264 | the nested letter and page loops request the pages of the specified walk and return its categories, or the error of the page that did not parse |
| CategoryCrawler.ScrapLetter | scrapers/uruguay/src/yp_uruguay_scraper.go:248-261 | the page loop of one letter yields that letter's walk |
| CategoryCrawler.LetterScanLength | scrapers/uruguay/src/yp_uruguay_scraper.go:248 | a letter requests nothing when the start page is not below the stop, and otherwise between one page and the pages below the stop |
| CategoryCrawler.IndexRequestsAt | scrapers/uruguay/src/yp_uruguay_scraper.go:248-249 | the k-th request of a run of pages is for page start + k |
| CategoryCrawler.LetterScanPages | scrapers/uruguay/src/yp_uruguay_scraper.go:248-249 | a letter requests its index pages from the start page on, one by one, in order |
| CategoryCrawler.LetterPagesBelowStop | scrapers/uruguay/src/yp_uruguay_scraper.go:243-249 | every letter requests its index pages from the start page on, one by one, and none at or past the stop page; a stop page of -1 lets the pages run up to the largest 32-bit integer |
| CategoryCrawler.LetterScanStops | scrapers/uruguay/src/yp_uruguay_scraper.go:250-260 | every page of a letter but the last added categories; the last did not, unless the walk reached the stop; the walk fails exactly when the last page did not parse, and names it |
| CategoryCrawler.LettersScanFound | scrapers/uruguay/src/yp_uruguay_scraper.go:246-263 | the walk requests only index pages, and its list is the categories of the pages requested, in letter-then-page order |
| CategoryCrawler.LettersScanFailure | scrapers/uruguay/src/yp_uruguay_scraper.go:254-257 | a failed walk names its last request, and that page did not parse |
| CategoryCrawler.GetCategoryList | scrapers/uruguay/src/yp_uruguay_scraper.go:206-240 | the result, the directory after the call and the requests are those of the specified cache fallback |
| CategoryCrawler.CategoryListIndexOnly | scrapers/uruguay/src/yp_uruguay_scraper.go:206-240 | getting the category list requests only index pages |
| CategoryCrawler.CategoryCacheHit | scrapers/uruguay/src/yp_uruguay_scraper.go:208-225 | a cached list that is not empty is returned as it is, with nothing requested and nothing written |
| CategoryCrawler.CategoryCacheEmpty | scrapers/uruguay/src/yp_uruguay_scraper.go:218-227 | a cache file that is empty or does not decode falls through to the full index walk |
| CategoryCrawler.CategoryListSecondCall | scrapers/uruguay/src/yp_uruguay_scraper.go:231-236 | a walked list that is saved is returned by the next call without a request |
| ListingCrawler.FirstStop | scrapers/uruguay/src/yp_uruguay_scraper.go:162-167 | the page the listing walk stops at: not accepted, and every page before it accepted |
| ListingCrawler.WalkListing | scrapers/uruguay/src/yp_uruguay_scraper.go:162-172 | the page loop collects the links of pages 1 up to the first page not answered with 200, and requests pages 1 up to and including that one |
| ListingCrawler.GetPublicationUrlListByCategory | scrapers/uruguay/src/yp_uruguay_scraper.go:144-193 | the URLs, the directory after the call and the requests are those of the specified cache fallback, whenever the call ends |
| ListingCrawler.ListingRequestsAt | scrapers/uruguay/src/yp_uruguay_scraper.go:162-164 | the k-th listing request is for page lo + k |
| ListingCrawler.ListingUrlsDiffer | scrapers/uruguay/src/yp_uruguay_scraper.go:163 | two page numbers give two different listing URLs |
| ListingCrawler.ListingFetchedOnce | scrapers/uruguay/src/yp_uruguay_scraper.go:162-172 | a listing walk requests no URL twice |
| ListingCrawler.ListingsMembers | scrapers/uruguay/src/yp_uruguay_scraper.go:168 | a URL is collected exactly when it is a link on one of the pages read |
| ListingCrawler.ListingsGrow | scrapers/uruguay/src/yp_uruguay_scraper.go:168 | the walk only appends: its list at an earlier page is a prefix of its list at a later one |
| ListingCrawler.UrlListCacheHit | scrapers/uruguay/src/yp_uruguay_scraper.go:149-161 | a cached URL list that is not empty is returned with nothing requested and nothing written |
| ListingCrawler.UrlListWalked | scrapers/uruguay/src/yp_uruguay_scraper.go:161-172 | otherwise, including an empty or corrupt cache file, pages 1 up to the first not accepted are requested, that one last, and the links of those before it are returned |
| ListingCrawler.UrlListKeeps | scrapers/uruguay/src/yp_uruguay_scraper.go:173-190 | the walk saves its list only under the category's own key, whose list was empty, so every list that is not empty stays as it was |
| ListingCrawler.UrlListSecondCall | scrapers/uruguay/src/yp_uruguay_scraper.go:173-190 | a walked list that is saved is returned by the next call without a request, when it is not empty |
| Scraper.Requested | scrapers/uruguay/src/yp_uruguay_scraper.go:498-499 | one detail request per path, for the base URL followed by that path |
| Scraper.ReadPublications | scrapers/uruguay/src/yp_uruguay_scraper.go:550-562 | the visited-set loop yields the specified publications, visited set and paths, and requests exactly the paths it fetched |
| Scraper.ScrapCategory | scrapers/uruguay/src/yp_uruguay_scraper.go:534-569 | one category's pass yields the specified publications, directory, visited set and requests |
| Scraper.ScrapCategories | scrapers/uruguay/src/yp_uruguay_scraper.go:532-571 | a category loop that ends yields the specified aggregate, directory and requests, or the category it crashed at |
| Scraper.Scrap | scrapers/uruguay/src/yp_uruguay_scraper.go:525-571 | a run that ends fails with the category-list error, or crashes at a category, or completes with the aggregate, as specified |
| Scraper.StaysCrashed | scrapers/uruguay/src/yp_uruguay_scraper.go:533 | a category whose URL has no "q_" ends the run: later categories change nothing |
| Scraper.DetailsPaths | scrapers/uruguay/src/yp_uruguay_scraper.go:550-562 | the listed paths not visited before are fetched, each once; afterwards every listed path is visited |
| Scraper.DetailsPubs | scrapers/uruguay/src/yp_uruguay_scraper.go:556-561 | the publications added are those of the fetches that succeeded, in order: a failed fetch adds nothing and is not retried |
| Scraper.CategoryRunEffect | scrapers/uruguay/src/yp_uruguay_scraper.go:537-563 | a category with a publications cache file requests nothing and visits nothing; every category fetches only unvisited paths, each once, and its detail requests are those paths |
| Scraper.CategoryRunPubs | scrapers/uruguay/src/yp_uruguay_scraper.go:543-562 | a cached category contributes its cached records; any other contributes its successful fetches |
| Scraper.WalkedEffect | scrapers/uruguay/src/yp_uruguay_scraper.go:531-571 | over the category loop, the fetched paths are distinct, are exactly the visited ones, and are exactly the detail pages requested |
| Scraper.ScrapFetchesEachOnce | scrapers/uruguay/src/yp_uruguay_scraper.go:531-562 | over a whole run, no publication URL is requested twice |
| Scraper.WalkedUncached | scrapers/uruguay/src/yp_uruguay_scraper.go:550-570 | without the publications cache, the aggregate is the successful fetches in fetch order |
| Scraper.WalkedGrows | scrapers/uruguay/src/yp_uruguay_scraper.go:570 | the aggregate and the requests only grow: those after some categories are a prefix of those after all |
| Scraper.CategoryRunKeeps | scrapers/uruguay/src/yp_uruguay_scraper.go:564-569 | a category's pass removes no publications cache file |
| Scraper.WalkedKeeps | scrapers/uruguay/src/yp_uruguay_scraper.go:564-569 | the category loop removes no publications cache file |
| Scraper.WalkedFullyCached | scrapers/uruguay/src/yp_uruguay_scraper.go:537-547 | when every category has a publications cache file, the loop requests nothing and ends |
| Scraper.CategoryRunKeepsUrls | scrapers/uruguay/src/yp_uruguay_scraper.go:549 | a category's pass keeps every URL list that is not empty |
| Scraper.WalkedKeepsUrls | scrapers/uruguay/src/yp_uruguay_scraper.go:532-571 | the category loop keeps every URL list that is not empty |
| Scraper.WalkedEnds | scrapers/uruguay/src/yp_uruguay_scraper.go:532-571 | the loop ends when every category answered neither by a publications file nor by a URL list that is not empty has a listing walk that ends |
| Scraper.WalkedHangs | scrapers/uruguay/src/yp_uruguay_scraper.go:162-172 | the loop hangs only at a listed category whose listing walk never ends |
| Scraper.ScrapEnds | scrapers/uruguay/src/yp_uruguay_scraper.go:525-571 | a run ends when every category of its list that the directory leaves to the listing walk has a listing that ends |
| Scraper.CachedFetchesNothing | scrapers/uruguay/src/yp_uruguay_scraper.go:543-547 | a category read from its cache file requests nothing |
| Text.StripMembers | scrapers/uruguay/src/yp_uruguay_scraper.go:305-307 | replacing characters by "" leaves only characters of the input, none of the removed ones |
| Text.SubstAt | scrapers/uruguay/src/yp_uruguay_scraper.go:308-310 | replacing one character by another changes exactly the positions holding it |
| Text.TrimLeft | scrapers/uruguay/src/yp_uruguay_scraper.go:304 | trimming on the left leaves a suffix of the input that does not start with the cut character |
| Text.TrimRight | scrapers/uruguay/src/yp_uruguay_scraper.go:311 | trimming on the right leaves a prefix of the input that does not end with the cut character |
| Text.IndexOfFirst | scrapers/uruguay/src/publication.go:15 | the index found is an occurrence with none before it, and there is none exactly when the text does not occur |
| Text.SplitFirst | scrapers/uruguay/src/publication.go:15 | the first part ends at the first separator, and the second part starts after it |
| Text.SplitPartsFree | scrapers/uruguay/src/publication.go:15 | no part of a split holds the separator |
| Text.ItoaRoundTrip | scrapers/uruguay/src/yp_uruguay_scraper.go:163 | the decimal text of a page number reads back as that number |

## Left out

- `httpGet` and the network (`yp_uruguay_scraper.go:28-41`) are replaced by the response function. Its nil-response dereference on a transport error is not modelled; a transport error is a returned error.
- HTML parsing and CSS selection (`_getQueryDoc` and the selectors) are replaced by what the selectors find. `getAddress`, `getNameForPublication`, `getCategoriesForPublication`, `getInformationForPublication` and `getCoordinatesForPublication` only read the page, so their results are given fields of the page.
- JSON encoding, file existence checks, `MkdirAll`, `IsDir` and `WriteFile` are replaced by the directory value. A file that does not decode reads as an empty list. `MkdirAll` and `IsDir` together become one flag, and failed writes another.
- `getRealCachePath`, `OutPath` and the path joins are left out: the directory value is already the resolved output directory.
- `saveCategoryList`, `saveCategoryPublicationsInJson` and `saveCategoryPublicationsInCSV` are reduced to their effect on the directory: the list is stored. The CSV report itself, `removeAccents`, `timeTableToStr` and `Coordinates.String` are not part of this model; they format text for the report and need Unicode normalisation and float formatting.
- Coordinates are `real`: float precision is not modelled.
- `MaxThreads`, `setup`, `main.go` and the log statements are left out: no state of the core depends on them.
- A nil slice and an empty slice are both the empty sequence.
- A nil `cachePolicy` is not modelled. `Scrap` dereferences it unconditionally, so the policy is a plain value.
- CategoryCrawler.ScrapCategoryList: requires the last letter to be below the largest rune. The source's 32-bit letter counter never passes that letter, so its loop would not end.
- ListingCrawler.WalkListing: requires that some listing page of the category is not answered with 200. The source's page loop has no bound, so otherwise it never returns.
- ListingCrawler.GetPublicationUrlListByCategory: requires the listing walk to end only when the URL-list cache gives no list that is not empty, which is when the source walks it.
- Scraper.Scrap: requires the run not to hang. The specification `ScrapOf` records a run that reaches an endless listing as the outcome `Hangs`, and `Scraper.ScrapEnds` shows what suffices: every listed category answered neither by a publications file nor by a URL list that is not empty has a listing that ends. For a hanging run the model keeps the requests made before the endless walk, not the endless ones.
- CategoryCrawler.RuneString: a rune that is not a Unicode scalar value becomes U+FFFD, and the model keeps `string` as a sequence of characters, not UTF-8 bytes. Every character the core cuts or replaces is ASCII.
- Site.GetPublicationByUrl: models the corrected behaviour, in which a reply other than 200 is an error that `Scrap` skips. The source's behaviour is `Site.FetchAsWritten`; see "## Findings".

## Findings

| source | as written | input that shows it | evidently intended | confidence | as-written member | corrected member |
|---|---|---|---|---|---|---|
| scrapers/uruguay/src/yp_uruguay_scraper.go:499-502 | for a reply other than 200, `getPublicationByUrl` returns no publication and no error; `Scrap` (line 557-561) sees no error and appends the publication behind a nil pointer | a publication URL answered with 404 | the URL counts as a failed fetch and is skipped, like a transport error | not executed | Site.FetchAsWritten, Site.NotFoundBreaksScrap | Site.GetPublicationByUrl, Site.FetchPublication |
