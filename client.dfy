/**
 * ArxivApiClient: the harvester's client for the arXiv query API. The HTTP exchange is a
 * transport function from the request URL to what the server (or the network) answers,
 * and the answer arrives already decoded from JSON or Atom XML. Time is an integer
 * number of milliseconds read from the caller's clock.
 */
module ArxivClient {
  import opened Wrappers
  import opened Strings
  import opened Dates
  import opened Papers

  // ---------------------------------------------------------------- decoded responses

  /** An ElementTree element: its qualified tag ("{namespace}local"), text, attributes, children. */
  datatype XmlElement = XmlElement(tag: string, text: Option<string>, attrs: map<string, string>, children: seq<XmlElement>)

  /** The Atom namespace, as ElementTree writes it in front of local tag names. */
  const Atom := "{http://www.w3.org/2005/Atom}"

  /** One JSON author object; name is None when the key is absent. */
  datatype JsonAuthor = JsonAuthor(name: Option<string>)

  /** One JSON link object. */
  datatype JsonLink = JsonLink(href: Option<string>)

  /** One JSON entry object; every field is None when its key is absent. */
  datatype JsonEntry = JsonEntry(
    id: Option<string>,
    title: Option<string>,
    summary: Option<string>,
    author: Option<seq<JsonAuthor>>,
    published: Option<string>,
    link: Option<seq<JsonLink>>)

  /** The value of feed.entry: a list of entries, or a single entry object. */
  datatype JsonEntries = Many(list: seq<JsonEntry>) | One(single: JsonEntry)

  /** A decoded response body. */
  datatype Content =
    | Json(feed: Option<Option<JsonEntries>>)   // None: no "feed" key; Some(None): no "entry" key
    | Xml(root: XmlElement)
    | Undecodable(detail: string)               // neither JSON nor XML; detail is the parser's message

  /** An entry of either format, as _parse_response iterates over them. */
  datatype Entry = FromJson(json: JsonEntry) | FromXml(xml: XmlElement)

  // ---------------------------------------------------------------- ElementTree helpers

  /** The children of e whose tag is t, in document order (Element.findall). */
  function FindAll(e: XmlElement, t: string): (r: seq<XmlElement>)
    ensures forall i :: 0 <= i < |r| ==> r[i] in e.children && r[i].tag == t
  {
    FindAllIn(e.children, t)
  }

  function FindAllIn(es: seq<XmlElement>, t: string): (r: seq<XmlElement>)
    ensures forall i :: 0 <= i < |r| ==> r[i] in es && r[i].tag == t
    ensures |r| <= |es|
  {
    if es == [] then []
    else (if es[0].tag == t then [es[0]] else []) + FindAllIn(es[1..], t)
  }

  /** findall misses no child carrying the tag. */
  lemma {:induction false} FindAllInComplete(es: seq<XmlElement>, t: string)
    ensures forall i :: 0 <= i < |es| && es[i].tag == t ==> es[i] in FindAllIn(es, t)
  {
    if es != [] {
      FindAllInComplete(es[1..], t);
      forall i | 0 < i < |es| && es[i].tag == t ensures es[i] in FindAllIn(es, t) {
        assert es[i] == es[1..][i - 1];
      }
    }
  }

  /** findall keeps document order: the matches of a + b are those of a, then those of b. */
  lemma {:induction false} FindAllInAppend(a: seq<XmlElement>, b: seq<XmlElement>, t: string)
    ensures FindAllIn(a + b, t) == FindAllIn(a, t) + FindAllIn(b, t)
  {
    if a != [] {
      assert (a + b)[0] == a[0] && (a + b)[1..] == a[1..] + b;
      FindAllInAppend(a[1..], b, t);
    } else {
      assert a + b == b;
    }
  }

  /** Element.find(path) for "." (the element itself) or a tag (its first child with that tag). */
  function Find(e: XmlElement, path: string): (r: Option<XmlElement>)
    ensures path == "." ==> r == Some(e)
    ensures path != "." && r.Some? ==> r.value in e.children && r.value.tag == path
    ensures path != "." && r.None? ==> forall c :: c in e.children ==> c.tag != path
  {
    if path == "." then Some(e)
    else FirstWithTag(e.children, path)
  }

  function FirstWithTag(es: seq<XmlElement>, t: string): (r: Option<XmlElement>)
    ensures r.Some? ==> r.value in es && r.value.tag == t
    ensures r.None? ==> forall c :: c in es ==> c.tag != t
  {
    if es == [] then None
    else if es[0].tag == t then Some(es[0])
    else
      FirstWithTag(es[1..], t)
  }

  /** find returns the first child with the tag: no earlier child carries it. */
  lemma {:induction false} FirstWithTagIsFirst(es: seq<XmlElement>, t: string)
    ensures FirstWithTag(es, t).Some? ==>
      exists i :: 0 <= i < |es| && es[i] == FirstWithTag(es, t).value && forall j :: 0 <= j < i ==> es[j].tag != t
  {
    if es != [] && es[0].tag != t && FirstWithTag(es[1..], t).Some? {
      FirstWithTagIsFirst(es[1..], t);
      var i :| 0 <= i < |es[1..]| && es[1..][i] == FirstWithTag(es[1..], t).value && forall j :: 0 <= j < i ==> es[1..][j].tag != t;
      assert es[i + 1] == FirstWithTag(es, t).value;
      assert forall j :: 0 <= j < i + 1 ==> es[j].tag != t by {
        forall j | 0 <= j < i + 1 ensures es[j].tag != t {
          if j > 0 { assert es[j] == es[1..][j - 1]; }
        }
      }
    } else if es != [] && es[0].tag == t {
      assert es[0] == FirstWithTag(es, t).value;
    }
  }

  /** Element.find on a tag gives the first child carrying it. */
  lemma FindFirst(e: XmlElement, path: string)
    requires path != "."
    ensures Find(e, path).Some? ==>
      exists i :: 0 <= i < |e.children| && e.children[i] == Find(e, path).value && forall j :: 0 <= j < i ==> e.children[j].tag != path
  {
    FirstWithTagIsFirst(e.children, path);
  }

  /**
   * _get_xml_text: the stripped text of the element the path finds, or "" when the
   * element, the match or its text is missing (None or empty).
   */
  function GetXmlText(element: Option<XmlElement>, path: string): (r: string)
    ensures element.None? ==> r == ""
    ensures element.Some? && Find(element.value, path).None? ==> r == ""
    ensures r == "" || (!IsSpace(r[0]) && !IsSpace(r[|r| - 1]))
  {
    if element.None? then ""
    else
      var m := Find(element.value, path);
      if m.None? || m.value.text.None? || m.value.text.value == "" then ""
      else StripTrims(m.value.text.value); Strip(m.value.text.value)
  }

  /** What strip leaves neither starts nor ends with whitespace. */
  lemma StripTrims(s: string)
    ensures Strip(s) == "" || (!IsSpace(Strip(s)[0]) && !IsSpace(Strip(s)[|Strip(s)| - 1]))
  {
    var r := RStrip(s);
    var l := LStrip(r);
    if l != "" {
      assert |l| <= |r| && l == r[|r| - |l|..];
      assert l[|l| - 1] == r[|r| - 1];
    }
  }

  /** The text of a found element is what _get_xml_text reports, stripped. */
  lemma GetXmlTextFound(e: XmlElement, path: string, text: string)
    requires Find(e, path).Some? && Find(e, path).value.text == Some(text)
    ensures GetXmlText(Some(e), path) == Strip(text)
  {
  }

  // ---------------------------------------------------------------- normalisation

  /** The first href containing "pdf", or "" (next((h for h in hrefs if 'pdf' in h), '')). */
  function FirstPdfHref(hrefs: seq<string>): (r: string)
    ensures r == "" <==> forall i :: 0 <= i < |hrefs| ==> !Contains(hrefs[i], "pdf")
    ensures r != "" ==> exists i :: (0 <= i < |hrefs| && hrefs[i] == r && Contains(r, "pdf")
      && forall j :: 0 <= j < i ==> !Contains(hrefs[j], "pdf"))
  {
    if hrefs == [] then ""
    else if Contains(hrefs[0], "pdf") then
      assert hrefs[0] != "" by { NoPdfInEmpty(); }
      hrefs[0]
    else
      var r := FirstPdfHref(hrefs[1..]);
      assert forall i :: 1 <= i < |hrefs| ==> hrefs[i] == hrefs[1..][i - 1];
      if r != "" then
        var k :| 0 <= k < |hrefs[1..]| && hrefs[1..][k] == r && Contains(r, "pdf")
          && forall j :: 0 <= j < k ==> !Contains(hrefs[1..][j], "pdf");
        assert hrefs[k + 1] == r;
        r
      else r
  }

  lemma NoPdfInEmpty()
    ensures !Contains("", "pdf")
  {
  }

  /** The hrefs of JSON link objects, "" where the key is absent. */
  function JsonHrefs(links: seq<JsonLink>): (r: seq<string>)
    ensures |r| == |links|
    ensures forall i :: 0 <= i < |r| ==> r[i] == links[i].href.GetOr("")
  {
    seq(|links|, i requires 0 <= i < |links| => links[i].href.GetOr(""))
  }

  /** The href attributes of XML link elements, "" where the attribute is absent. */
  function XmlHrefs(links: seq<XmlElement>): (r: seq<string>)
    ensures |r| == |links|
    ensures forall i :: 0 <= i < |r| ==> r[i] == (if "href" in links[i].attrs then links[i].attrs["href"] else "")
  {
    seq(|links|, i requires 0 <= i < |links| => if "href" in links[i].attrs then links[i].attrs["href"] else "")
  }

  /** The canonical record of one entry: id, title, summary, authors, published_date, pdf_url. */
  function Normalise(e: Entry): (p: Paper)
    ensures HasRequiredFields(p)
    ensures p.summary.Some? && p.authors.Some? && p.publishedDate.Some? && p.pdfUrl.Some?
    ensures p.category.None?
  {
    match e
    case FromJson(j) =>
      var names := j.author.GetOr([]);
      Paper(
        Some(j.id.GetOr("")), Some(j.title.GetOr("")), Some(j.summary.GetOr("")),
        Some(seq(|names|, i requires 0 <= i < |names| => names[i].name.GetOr(""))),
        Some(j.published.GetOr("")), Some(FirstPdfHref(JsonHrefs(j.link.GetOr([])))), None)
    case FromXml(x) =>
      var authors := FindAll(x, Atom + "author");
      Paper(
        Some(GetXmlText(Some(x), Atom + "id")), Some(GetXmlText(Some(x), Atom + "title")),
        Some(GetXmlText(Some(x), Atom + "summary")),
        Some(seq(|authors|, i requires 0 <= i < |authors| => GetXmlText(Some(authors[i]), "."))),
        Some(GetXmlText(Some(x), Atom + "published")),
        Some(FirstPdfHref(XmlHrefs(FindAll(x, Atom + "link")))), None)
  }

  /** A JSON entry keeps what it carries and defaults what it lacks to "" or []. */
  lemma NormaliseJsonDefaults(j: JsonEntry)
    ensures Normalise(FromJson(j)).id == Some(if j.id.Some? then j.id.value else "")
    ensures Normalise(FromJson(j)).title == Some(if j.title.Some? then j.title.value else "")
    ensures j.author.None? ==> Normalise(FromJson(j)).authors == Some([])
    ensures j.author.Some? ==> |Normalise(FromJson(j)).authors.value| == |j.author.value|
    ensures j.link.None? ==> Normalise(FromJson(j)).pdfUrl == Some("")
  {
    if j.author.None? {
      assert |Normalise(FromJson(j)).authors.value| == 0;
    }
  }

  /** The entries of a decoded body, in order; a single entry object is a one-entry list. */
  function Entries(c: Content): (r: Result<seq<Entry>, string>)
    ensures c.Undecodable? <==> r.Err?
    ensures c.Json? && c.feed.Some? && c.feed.value.Some? && c.feed.value.value.One? ==>
      r == Ok([FromJson(c.feed.value.value.single)])
    ensures c.Json? && (c.feed.None? || c.feed.value.None?) ==> r == Ok([])
  {
    match c
    case Json(feed) =>
      if feed.None? || feed.value.None? then Ok([])
      else
        (match feed.value.value
         case Many(list) => Ok(seq(|list|, i requires 0 <= i < |list| => FromJson(list[i])))
         case One(single) => Ok([FromJson(single)]))
    case Xml(root) =>
      var es := FindAll(root, Atom + "entry");
      Ok(seq(|es|, i requires 0 <= i < |es| => FromXml(es[i])))
    case Undecodable(detail) => Err("Failed to parse response: " + detail)
  }

  /** The records _parse_response returns for a body: one per entry, in order. */
  function Parsed(c: Content): (r: Result<seq<Paper>, string>)
    ensures r.Err? <==> Entries(c).Err?
    ensures r.Err? ==> r == Err(Entries(c).error)
    ensures r.Ok? ==> (|r.value| == |Entries(c).value|
      && forall i :: 0 <= i < |r.value| ==> r.value[i] == Normalise(Entries(c).value[i]))
  {
    var es := Entries(c);
    if es.Err? then Err(es.error)
    else Ok(seq(|es.value|, i requires 0 <= i < |es.value| => Normalise(es.value[i])))
  }

  /** Every record the client produces passes the store's required-field check. */
  lemma ParsedComplete(c: Content)
    requires Parsed(c).Ok?
    ensures forall i :: 0 <= i < |Parsed(c).value| ==> HasRequiredFields(Parsed(c).value[i])
  {
  }

  // ---------------------------------------------------------------- requests

  /** What the transport gives back for a GET of a URL. */
  datatype Response =
    | Reply(status: int, body: string, content: Content)   // body is the text of str(response.content)
    | ConnectionLost(reason: string)                        // requests.exceptions.ConnectionError
    | TimedOut(reason: string)                              // requests.exceptions.Timeout

  /** The exceptions the client raises. */
  datatype ApiError =
    | ConnectionError(reason: string)   // re-raised unchanged
    | Timeout(reason: string)           // re-raised unchanged
    | Failure(message: string)          // Exception(message)

  const BaseUrl := "http://export.arxiv.org/api/query"

  /** The message of a non-200 reply. */
  function StatusMessage(status: int, body: string): string {
    "API request failed with status " + IntToString(status) + ": " + body
  }

  /** " AND cat:<c>" when a category is given and non-empty, else nothing. */
  function CategoryClause(category: Option<string>): (r: string)
    ensures r == "" <==> category.None? || category.value == ""
    ensures r != "" ==> r == " AND cat:" + category.value
  {
    if category.Some? && category.value != "" then " AND cat:" + category.value else ""
  }

  /** " AND submittedDate:[<start> TO <end>]" when both dates are given, else nothing. */
  function DateClause(start: Option<DateTime>, end: Option<DateTime>): (r: string)
    requires start.Some? ==> ValidDateTime(start.value)
    requires end.Some? ==> ValidDateTime(end.value)
    ensures r == "" <==> start.None? || end.None?
    ensures r != "" ==> r == " AND submittedDate:[" + FormatCompact(start.value) + " TO " + FormatCompact(end.value) + "]"
  {
    if start.Some? && end.Some? then
      " AND submittedDate:[" + FormatCompact(start.value) + " TO " + FormatCompact(end.value) + "]"
    else ""
  }

  /** The search_query parameter: the query, then the category clause, then the date clause. */
  function SearchQuery(query: string, category: Option<string>, start: Option<DateTime>, end: Option<DateTime>): (r: string)
    requires start.Some? ==> ValidDateTime(start.value)
    requires end.Some? ==> ValidDateTime(end.value)
    ensures IsPrefix(query, r)
    ensures r == query + CategoryClause(category) + DateClause(start, end)
    ensures r == query <==> CategoryClause(category) == "" && DateClause(start, end) == ""
  {
    var q := query + CategoryClause(category) + DateClause(start, end);
    assert q[..|query|] == query;
    q
  }

  /** The four parameters of a search request, in order. */
  function SearchParams(searchQuery: string, maxResults: int, sortBy: string, sortOrder: string): seq<string> {
    ["search_query=" + searchQuery, "max_results=" + IntToString(maxResults),
     "sortBy=" + sortBy, "sortOrder=" + sortOrder]
  }

  /**
   * The search URL: the base URL, '?', and the parameters joined by '&' (the source's
   * f-string spells out the same characters).
   */
  function SearchUrl(searchQuery: string, maxResults: int, sortBy: string, sortOrder: string): string {
    BaseUrl + "?" + Join(SearchParams(searchQuery, maxResults, sortBy, sortOrder), "&")
  }

  lemma IntToStringNoAmpersand(i: int)
    ensures '&' !in IntToString(i)
  {
    var s := IntToString(i);
    if i < 0 {
      var n := NatToString(-i);
      assert s == "-" + n;
      forall k | 0 <= k < |s| ensures s[k] != '&' {
        if k > 0 {
          assert s[k] == n[k - 1];
        }
      }
    }
  }

  /**
   * Read back, the query string of a search URL carries exactly its four parameters with
   * the given values, as long as no value itself contains '&'.
   */
  lemma SearchUrlParams(searchQuery: string, maxResults: int, sortBy: string, sortOrder: string)
    requires '&' !in searchQuery && '&' !in sortBy && '&' !in sortOrder
    ensures var url := SearchUrl(searchQuery, maxResults, sortBy, sortOrder);
      |url| > |BaseUrl| && url[..|BaseUrl| + 1] == BaseUrl + "?"
      && Split(url[|BaseUrl| + 1..], '&') == SearchParams(searchQuery, maxResults, sortBy, sortOrder)
  {
    var params := SearchParams(searchQuery, maxResults, sortBy, sortOrder);
    var url := SearchUrl(searchQuery, maxResults, sortBy, sortOrder);
    IntToStringNoAmpersand(maxResults);
    assert '&' !in params[0] && '&' !in params[1] && '&' !in params[2] && '&' !in params[3];
    SplitJoin(params, '&');
    assert url[|BaseUrl| + 1..] == Join(params, "&");
  }

  /** search's outcome for what the transport answered. */
  function SearchOutcome(r: Response): (o: Result<seq<Paper>, ApiError>)
    ensures r.ConnectionLost? ==> o == Err(ConnectionError(r.reason))
    ensures r.TimedOut? ==> o == Err(Timeout(r.reason))
    ensures r.Reply? && r.status != 200 ==>
      o == Err(Failure("Error during API request: " + StatusMessage(r.status, r.body)))
    ensures r.Reply? && r.status == 200 ==>
      (o.Ok? <==> Parsed(r.content).Ok?) && (o.Ok? ==> o.value == Parsed(r.content).value)
  {
    match r
    case ConnectionLost(reason) => Err(ConnectionError(reason))
    case TimedOut(reason) => Err(Timeout(reason))
    case Reply(status, body, content) =>
      if status != 200 then Err(Failure("Error during API request: " + StatusMessage(status, body)))
      else
        var parsed := Parsed(content);
        if parsed.Err? then Err(Failure("Error during API request: " + parsed.error)) else Ok(parsed.value)
  }

  /** A non-200 reply to a search is an error that says so. */
  lemma SearchBadStatus(r: Response)
    requires r.Reply? && r.status != 200
    ensures SearchOutcome(r).Err? && SearchOutcome(r).error.Failure?
    ensures Contains(SearchOutcome(r).error.message, "API request failed with status")
  {
    var m := SearchOutcome(r).error.message;
    assert m == "Error during API request: " + "API request failed with status" + (" " + IntToString(r.status) + ": " + r.body);
    ContainsInfix("Error during API request: ", "API request failed with status", " " + IntToString(r.status) + ": " + r.body);
  }

  /** get_paper_by_id's outcome for what the transport answered on its id_list URL. */
  function PaperOutcome(paperId: string, r: Response): (o: Result<Paper, ApiError>)
    ensures o.Err? ==> o.error.Failure? && IsPrefix("Error retrieving paper: ", o.error.message)
    ensures o.Ok? <==> r.Reply? && r.status == 200 && Parsed(r.content).Ok? && |Parsed(r.content).value| > 0
    ensures o.Ok? ==> o.value == Parsed(r.content).value[0]
  {
    var wrap := "Error retrieving paper: ";
    match r
    case ConnectionLost(reason) => Err(Failure(wrap + reason))
    case TimedOut(reason) => Err(Failure(wrap + reason))
    case Reply(status, body, content) =>
      if status != 200 then Err(Failure(wrap + StatusMessage(status, body)))
      else
        var parsed := Parsed(content);
        if parsed.Err? then Err(Failure(wrap + parsed.error))
        else if parsed.value == [] then Err(Failure(wrap + "Paper with ID " + paperId + " not found"))
        else Ok(parsed.value[0])
  }

  /** An empty result for an id is an error that says the paper was not found. */
  lemma PaperNotFound(paperId: string, r: Response)
    requires r.Reply? && r.status == 200 && Parsed(r.content) == Ok([])
    ensures PaperOutcome(paperId, r).Err?
    ensures Contains(PaperOutcome(paperId, r).error.message, " not found")
  {
    var front := "Error retrieving paper: " + "Paper with ID " + paperId;
    assert PaperOutcome(paperId, r) == Err(Failure(front + " not found"));
    assert front + " not found" == front + " not found" + "";
    ContainsInfix(front, " not found", "");
  }

  // ---------------------------------------------------------------- rate limiting

  /** The time _enforce_rate_limit sleeps: the whole delay when the last request was too recent. */
  function SleepFor(delay: int, last: int, now: int): (t: int)
    ensures t == 0 || t == delay
    ensures last <= 0 ==> t == 0
    ensures now - last >= delay ==> t == 0
  {
    if now - last < delay && last > 0 then delay else 0
  }

  /**
   * After the first request, requests are at least the delay apart: the time a request is
   * sent (its clock reading plus the sleep) is at least delay after the previous one.
   */
  lemma RequestsSpaced(delay: int, last: int, now: int)
    requires 0 < last <= now
    ensures now + SleepFor(delay, last, now) - last >= delay
  {
  }

  class ArxivApiClient {
    const delay: int
    const timeout: int
    var lastRequestTime: int

    /** __init__: the delay and timeout are kept; no request has been made yet. */
    constructor (delay: int, timeout: int)
      ensures this.delay == delay && this.timeout == timeout && lastRequestTime == 0
    {
      this.delay := delay;
      this.timeout := timeout;
      lastRequestTime := 0;
    }

    /**
     * _enforce_rate_limit at clock reading now: sleep, then record the clock, which has
     * moved on by exactly the sleep.
     */
    method EnforceRateLimit(now: int) returns (slept: int)
      modifies this
      ensures slept == SleepFor(delay, old(lastRequestTime), now)
      ensures lastRequestTime == now + slept
    {
      var elapsed := now - lastRequestTime;
      slept := 0;
      if elapsed < delay && lastRequestTime > 0 {
        slept := delay;
      }
      lastRequestTime := now + slept;
    }

    /** search: rate-limit, build the URL, send it, and classify the answer. */
    method Search(now: int, transport: string -> Response, query: string, category: Option<string>,
                  start: Option<DateTime>, end: Option<DateTime>, maxResults: int,
                  sortBy: string, sortOrder: string)
      returns (r: Result<seq<Paper>, ApiError>)
      requires start.Some? ==> ValidDateTime(start.value)
      requires end.Some? ==> ValidDateTime(end.value)
      modifies this
      ensures lastRequestTime == now + SleepFor(delay, old(lastRequestTime), now)
      ensures r == SearchOutcome(transport(SearchUrl(SearchQuery(query, category, start, end), maxResults, sortBy, sortOrder)))
    {
      var _ := EnforceRateLimit(now);
      var searchQuery := query;
      if category.Some? && category.value != "" {
        searchQuery := searchQuery + (" AND cat:" + category.value);
      }
      if start.Some? && end.Some? {
        searchQuery := searchQuery + DateClause(start, end);
      }
      assert searchQuery == SearchQuery(query, category, start, end);
      var url := SearchUrl(searchQuery, maxResults, sortBy, sortOrder);
      var response := transport(url);
      match response {
        case ConnectionLost(reason) => r := Err(ConnectionError(reason));
        case TimedOut(reason) => r := Err(Timeout(reason));
        case Reply(status, body, content) =>
          if status != 200 {
            r := Err(Failure("Error during API request: " + StatusMessage(status, body)));
          } else {
            var parsed := ParseResponse(content);
            r := if parsed.Err? then Err(Failure("Error during API request: " + parsed.error)) else Ok(parsed.value);
          }
      }
    }

    /** get_paper_by_id: rate-limit, request the id list URL, and return the first record. */
    method GetPaperById(now: int, transport: string -> Response, paperId: string)
      returns (r: Result<Paper, ApiError>)
      modifies this
      ensures lastRequestTime == now + SleepFor(delay, old(lastRequestTime), now)
      ensures r == PaperOutcome(paperId, transport(BaseUrl + "?id_list=" + paperId))
    {
      var _ := EnforceRateLimit(now);
      var response := transport(BaseUrl + "?id_list=" + paperId);
      var wrap := "Error retrieving paper: ";
      match response {
        case ConnectionLost(reason) => r := Err(Failure(wrap + reason));
        case TimedOut(reason) => r := Err(Failure(wrap + reason));
        case Reply(status, body, content) =>
          if status != 200 {
            r := Err(Failure(wrap + StatusMessage(status, body)));
          } else {
            var parsed := ParseResponse(content);
            if parsed.Err? {
              r := Err(Failure(wrap + parsed.error));
            } else if parsed.value == [] {
              r := Err(Failure(wrap + "Paper with ID " + paperId + " not found"));
            } else {
              r := Ok(parsed.value[0]);
            }
          }
      }
    }
  }

  /** _parse_response: one record appended per entry, in order. */
  method ParseResponse(content: Content) returns (r: Result<seq<Paper>, string>)
    ensures r == Parsed(content)
  {
    var entries := Entries(content);
    if entries.Err? {
      return Err(entries.error);
    }
    var results := NormaliseEach(Normalise, entries.value);
    assert results == Parsed(content).value;
    r := Ok(results);
  }

  /**
   * _parse_response's loop: one record appended per entry, in order. The record of an
   * entry is normalise's; the loop is stated for any such function.
   */
  method NormaliseEach(normalise: Entry -> Paper, es: seq<Entry>) returns (results: seq<Paper>)
    ensures |results| == |es|
    ensures forall j :: 0 <= j < |es| ==> results[j] == normalise(es[j])
  {
    results := [];
    var i := 0;
    while i < |es|
      invariant 0 <= i <= |es|
      invariant |results| == i
      invariant forall j :: 0 <= j < i ==> results[j] == normalise(es[j])
      decreases |es| - i
    {
      results := results + [normalise(es[i])];
      i := i + 1;
    }
  }
}
