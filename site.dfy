/** The directory web site as the crawler sees it, and the reading of one publication.

    The network is a function from URL to response: a transport failure, or a status
    code with a body. A body that parses is given as what the crawler's selectors
    find on it: the category links of an index page, the result buttons of a listing
    page, and the parts of a publication page. */
module Site {
  import opened Wrappers
  import opened Text
  import opened Publication
  import opened ContactsExtractor
  import opened TimetableExtractor

  const DefaultBaseUrl := "https://www.paginasamarillas.com.uy"

  /** A link: its `href` attribute when present, and its text. */
  datatype Anchor = Anchor(href: Option<string>, text: string)

  /** What the selectors of a publication page find. */
  datatype DetailPage = DetailPage(
    name: string,
    mainPhoneSpans: seq<string>,
    whatsappSpans: seq<string>,
    contactItems: seq<ContactItem>,
    address: Address,
    coordinates: Coordinates,
    categories: seq<string>,
    openingHours: seq<Row>,
    information: string)

  datatype Document = Document(categoryLinks: seq<Anchor>, resultButtons: seq<Option<string>>, detail: DetailPage)

  datatype Body = Unparsable | Html(doc: Document)

  datatype Response = TransportError | Reply(status: int, body: Body)

  /** The response every URL gets. */
  type Web = string -> Response

  /** Every request the crawler makes, by kind, with its full URL. */
  datatype Request = IndexRequest(url: string) | ListingRequest(url: string) | DetailRequest(url: string)

  /** `respToCategoriesList` on a parsed page: one category per link with an `href`,
      its URL with every "/1/" deleted. */
  function CategoriesIn(doc: Document): seq<Category>
  {
    LinkedCategories(doc.categoryLinks)
  }

  function LinkedCategories(links: seq<Anchor>): seq<Category>
  {
    if links == [] then []
    else
      var rest := LinkedCategories(links[1..]);
      match links[0].href
      case None => rest
      case Some(href) => [Category(RemoveAll(href, "/1/"), links[0].text)] + rest
  }

  /** A page lists no category exactly when none of its links has an `href`, and it
      lists no more categories than it has links. */
  lemma {:induction false} CategoriesInEmpty(links: seq<Anchor>)
    ensures |LinkedCategories(links)| <= |links|
    ensures LinkedCategories(links) == [] <==> forall k :: 0 <= k < |links| ==> links[k].href.None?
  {
    if links != [] {
      CategoriesInEmpty(links[1..]);
      assert forall k :: 1 <= k < |links| ==> links[k] == links[1..][k - 1];
    }
  }

  /** `respToPublicationList` on a parsed page: the `href` of every result button that has one. */
  function ListingLinksIn(doc: Document): (urls: seq<string>)
    ensures |urls| <= |doc.resultButtons|
  {
    Hrefs(doc.resultButtons)
  }

  function Hrefs(buttons: seq<Option<string>>): (urls: seq<string>)
    ensures |urls| <= |buttons|
  {
    if buttons == [] then []
    else (if buttons[0].Some? then [buttons[0].value] else []) + Hrefs(buttons[1..])
  }

  // ---------------------------------------------------------------------------
  // getPublicationByUrl

  datatype FetchError = TransportFailed | NotOk(status: int) | NotParsed

  /** The record a parsed publication page yields under the URL it was fetched from. */
  function PublicationOf(url: string, page: DetailPage): Publication
  {
    var contacts := ContactsOf(page.contactItems, LastCleaned(page.mainPhoneSpans), LastCleaned(page.whatsappSpans));
    Publication(
      page.name, contacts.phones, contacts.emails, page.address, page.coordinates,
      contacts.webs, page.categories, TimetableOf(page.openingHours), url, page.information)
  }

  /** The result of reading the publication at `path`, with a non-200 reply reported
      as an error. */
  function FetchPublication(web: Web, path: string): Result<Publication, FetchError>
  {
    var url := DefaultBaseUrl + path;
    match web(url)
    case TransportError => Err(TransportFailed)
    case Reply(status, body) =>
      if status != 200 then Err(NotOk(status))
      else if body.Unparsable? then Err(NotParsed)
      else Ok(PublicationOf(url, body.doc.detail))
  }

  /** `getPublicationByUrl`, with the non-200 case reported as an error so that the
      caller skips it. */
  method GetPublicationByUrl(web: Web, path: string) returns (r: Result<Publication, FetchError>)
    ensures r == FetchPublication(web, path)
    ensures r.Ok? ==> r.value.publicationUrl == DefaultBaseUrl + path
    ensures r.Ok? <==> (web(DefaultBaseUrl + path).Reply? && web(DefaultBaseUrl + path).status == 200
                        && web(DefaultBaseUrl + path).body.Html?)
    ensures r.Ok? ==> forall k :: 0 <= k < |r.value.phones| ==>
              var page := web(DefaultBaseUrl + path).body.doc.detail;
              Flagged(r.value.phones[k], LastCleaned(page.mainPhoneSpans), LastCleaned(page.whatsappSpans))
  {
    var url := DefaultBaseUrl + path;
    var response := web(url);
    if response.TransportError? {
      return Err(TransportFailed);
    }
    if response.status != 200 {
      return Err(NotOk(response.status));
    }
    if response.body.Unparsable? {
      return Err(NotParsed);
    }
    var page := response.body.doc.detail;
    var contacts := GetContacts(page.mainPhoneSpans, page.whatsappSpans, page.contactItems);
    var timetable := GetTimetable(page.openingHours);
    r := Ok(Publication(
      page.name, contacts.phones, contacts.emails, page.address, page.coordinates,
      contacts.webs, page.categories, timetable, url, page.information));
  }

  /** `getPublicationByUrl` as written: the publication, or the error, or, for a reply
      other than 200, neither. */
  function FetchAsWritten(web: Web, path: string): (r: (Option<Publication>, Option<FetchError>))
    ensures r.0.None? && r.1.None? <==> web(DefaultBaseUrl + path).Reply? && web(DefaultBaseUrl + path).status != 200
    ensures r.0.Some? <==> FetchPublication(web, path).Ok?
    ensures r.0.Some? ==> FetchPublication(web, path) == Ok(r.0.value)
    ensures r.1.Some? ==> FetchPublication(web, path) == Err(r.1.value)
  {
    match FetchPublication(web, path)
    case Ok(p) => (Some(p), None)
    case Err(e) => if e.NotOk? then (None, None) else (None, Some(e))
  }

  /** `Scrap` takes a missing error to mean that there is a publication to add. */
  predicate DereferenceSafe(web: Web, path: string)
  {
    var (pub, err) := FetchAsWritten(web, path);
    err.Some? || pub.Some?
  }

  /** A site that answers 404 makes `Scrap` add a publication that does not exist. */
  lemma NotFoundBreaksScrap()
    ensures var web: Web := _ => Reply(404, Unparsable);
            !DereferenceSafe(web, "/detalle/x")
  {
    var web: Web := _ => Reply(404, Unparsable);
    assert web(DefaultBaseUrl + "/detalle/x") == Reply(404, Unparsable);
  }
}
