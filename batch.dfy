/**
 * The batch search driver: turning the command line's period options into a search
 * window, paging through the arXiv search 100 results at a time, and naming the PDF
 * file of each paper it downloads.
 *
 * The clock and calendar arithmetic stay symbolic: a period's ends are Moments ("now",
 * "now minus n units", or a fixed date), and a caller that wants dates passes the current
 * time and a calendar function.
 */
module BatchSearch {
  import opened Wrappers
  import opened Strings
  import opened Dates
  import opened Papers

  // ---------------------------------------------------------------------------------
  // Periods
  // ---------------------------------------------------------------------------------

  /** The units of a relative period: day and week steps, calendar months and years. */
  datatype Unit = Days | Weeks | Months | Years

  /** One end of a search window. */
  datatype Moment =
    | At(date: DateTime)
    | Now
    | Before(amount: nat, unit: Unit)   // the current time minus amount units

  datatype Period = Period(start: Moment, end: Moment)

  /** The start the driver falls back to: 2023-01-01 at midnight. */
  const DefaultStart := Midnight(2023, 1, 1)

  /** The unit letters of the relative pattern, either case. */
  function UnitOf(c: char): Option<Unit> {
    if c == 'd' || c == 'D' then Some(Days)
    else if c == 'w' || c == 'W' then Some(Weeks)
    else if c == 'm' || c == 'M' then Some(Months)
    else if c == 'y' || c == 'Y' then Some(Years)
    else None
  }

  predicate AllDigits(s: string) {
    forall i :: 0 <= i < |s| ==> IsDigit(s[i])
  }

  /**
   * A match of ^(\d+)([dDwWmMyY])$: one or more digits and a unit letter. As with
   * Python's re.match, the final '$' also matches just before a trailing newline.
   */
  function RelativePeriod(s: string): Option<(nat, Unit)> {
    var body := if |s| > 0 && s[|s| - 1] == '\n' then s[..|s| - 1] else s;
    if |body| >= 2 && AllDigits(body[..|body| - 1]) && UnitOf(body[|body| - 1]).Some? then
      Some((DigitsValue(body[..|body| - 1]), UnitOf(body[|body| - 1]).value))
    else None
  }

  /** "A~B" split at its first '~', both halves stripped and read as YYYY-MM-DD. */
  function RangePeriod(s: string): (r: Option<Period>)
    ensures r.Some? ==> '~' in s && r.value.start.At? && r.value.end.At?
  {
    var tilde := IndexOf(s, '~');
    if tilde.None? then None
    else
      var first := ParseYmd(Strip(s[..tilde.value]));
      var second := ParseYmd(Strip(s[tilde.value + 1..]));
      if first.Some? && second.Some? then Some(Period(At(first.value), At(second.value))) else None
  }

  /**
   * parse_time_period: a valid date range, else a relative period ending now, else a
   * single date up to now, else 2023-01-01 up to now.
   */
  function ParseTimePeriod(s: string): (p: Period)
    ensures p.end != Now ==> '~' in s && RangePeriod(s) == Some(p)
    ensures p.start.Before? ==> p.end == Now && RelativePeriod(s) == Some((p.start.amount, p.start.unit))
  {
    if RangePeriod(s).Some? then RangePeriod(s).value
    else if RelativePeriod(s).Some? then Period(Before(RelativePeriod(s).value.0, RelativePeriod(s).value.1), Now)
    else if ParseYmd(s).Some? then Period(At(ParseYmd(s).value), Now)
    else Period(At(DefaultStart), Now)
  }

  /** Stripping a string that neither starts nor ends with whitespace changes nothing. */
  lemma StripUnchanged(s: string)
    requires |s| > 0 && !IsSpace(s[0]) && !IsSpace(s[|s| - 1])
    ensures Strip(s) == s
  {
    assert RStrip(s) == s;
  }

  /** Every character of a string strptime reads as YYYY-MM-DD is a digit, '-' or ' '. */
  lemma YmdCharacters(s: string)
    requires ParseYmd(s).Some?
    ensures forall i :: 0 <= i < |s| ==> IsDigit(s[i]) || s[i] == '-' || s[i] == ' '
    ensures IsDigit(s[0]) && IsDigit(s[|s| - 1])
  {
    var rest := s[5..];
    var dash := IndexOf(rest, '-').value;
    var m := rest[..dash];
    var d := rest[dash + 1..];
    assert IsMonthField(m) && IsDayField(d);
    forall i | 0 <= i < |s|
      ensures IsDigit(s[i]) || s[i] == '-' || s[i] == ' '
    {
      if i >= 5 {
        if i - 5 < dash {
          assert s[i] == m[i - 5];
        } else if i - 5 > dash {
          assert s[i] == d[i - 5 - dash - 1];
        }
      }
    }
    assert s[|s| - 1] == d[|d| - 1];
  }

  /** A string that reads as a date neither contains '~' nor has surrounding whitespace. */
  lemma YmdPlain(s: string)
    requires ParseYmd(s).Some?
    ensures '~' !in s && Strip(s) == s
  {
    YmdCharacters(s);
    StripUnchanged(s);
  }

  /** Joining two texts with '~' splits back at the join when the first has no '~'. */
  lemma SplitAtTilde(a: string, b: string)
    requires '~' !in a
    ensures IndexOf(a + "~" + b, '~') == Some(|a|)
    ensures (a + "~" + b)[..|a|] == a && (a + "~" + b)[|a| + 1..] == b
  {
    var s := a + "~" + b;
    assert s[|a|] == '~';
    assert s[..|a|] == a;
  }

  /** "A~B" with two valid dates is exactly the window (A, B). */
  lemma {:induction false} ParseRange(a: string, b: string)
    requires '~' !in a
    requires ParseYmd(Strip(a)).Some? && ParseYmd(Strip(b)).Some?
    ensures ParseTimePeriod(a + "~" + b) == Period(At(ParseYmd(Strip(a)).value), At(ParseYmd(Strip(b)).value))
  {
    SplitAtTilde(a, b);
  }

  /** Digits and a unit letter are the window from that many units ago up to now. */
  lemma {:induction false} ParseRelative(digits: string, c: char)
    requires |digits| >= 1 && AllDigits(digits) && UnitOf(c).Some?
    ensures ParseTimePeriod(digits + [c]) == Period(Before(DigitsValue(digits), UnitOf(c).value), Now)
  {
    var s := digits + [c];
    assert '~' !in s by {
      forall i | 0 <= i < |s| ensures s[i] != '~' {
        if i < |digits| { assert s[i] == digits[i]; }
      }
    }
    assert s[..|s| - 1] == digits;
    assert RangePeriod(s).None?;
  }

  /** A single valid date is the window from that date up to now. */
  lemma {:induction false} ParseSingleDate(s: string)
    requires ParseYmd(s).Some?
    ensures ParseTimePeriod(s) == Period(At(ParseYmd(s).value), Now)
  {
    YmdCharacters(s);
    YmdPlain(s);
    assert RangePeriod(s).None?;
    assert RelativePeriod(s).None? by {
      assert UnitOf(s[|s| - 1]).None?;
    }
  }

  // ---------------------------------------------------------------------------------
  // Choosing the period from the command line
  // ---------------------------------------------------------------------------------

  /** The period options of the batch driver's command line. */
  datatype PeriodArgs = PeriodArgs(
    lastWeek: bool, lastMonth: bool, last3Months: bool, last6Months: bool, lastYear: bool,
    period: Option<string>, dateRange: Option<string>, fromDate: Option<string>, toDate: Option<string>)

  /** An option that Python treats as true: present and not empty. */
  predicate Given(o: Option<string>) {
    o.Some? && o.value != ""
  }

  const DefaultPeriod := "2023-01-01"

  /** main's choice of period text: presets first, then --period, --date-range, the from/to dates, the default. */
  function PeriodString(a: PeriodArgs): string {
    if a.lastWeek then "1w"
    else if a.lastMonth then "1m"
    else if a.last3Months then "3m"
    else if a.last6Months then "6m"
    else if a.lastYear then "1y"
    else if Given(a.period) then a.period.value
    else if Given(a.dateRange) then a.dateRange.value
    else if Given(a.fromDate) && Given(a.toDate) then a.fromDate.value + "~" + a.toDate.value
    else if Given(a.fromDate) then a.fromDate.value
    else if Given(a.toDate) then DefaultPeriod + "~" + a.toDate.value
    else DefaultPeriod
  }

  /** No period option at all in effect other than the presets. */
  predicate NoPeriodText(a: PeriodArgs) {
    !Given(a.period) && !Given(a.dateRange)
  }

  predicate NoPreset(a: PeriodArgs) {
    !a.lastWeek && !a.lastMonth && !a.last3Months && !a.last6Months && !a.lastYear
  }

  /** The first preset set is the window: a week, one, three or six months, or a year back from now. */
  lemma PresetWindow(a: PeriodArgs)
    requires !NoPreset(a)
    ensures var p := ParseTimePeriod(PeriodString(a));
      p.end == Now && p.start == (
        if a.lastWeek then Before(1, Weeks)
        else if a.lastMonth then Before(1, Months)
        else if a.last3Months then Before(3, Months)
        else if a.last6Months then Before(6, Months)
        else Before(1, Years))
  {
    var s := PeriodString(a);
    if a.lastWeek {
      assert s == "1" + ['w'];
      ParseRelative("1", 'w');
    } else if a.lastMonth {
      assert s == "1" + ['m'];
      ParseRelative("1", 'm');
    } else if a.last3Months {
      assert s == "3" + ['m'];
      ParseRelative("3", 'm');
    } else if a.last6Months {
      assert s == "6" + ['m'];
      ParseRelative("6", 'm');
    } else {
      assert s == "1" + ['y'];
      ParseRelative("1", 'y');
    }
  }

  /** A valid --from-date and --to-date together are exactly the window between them. */
  lemma FromToWindow(a: PeriodArgs)
    requires NoPreset(a) && NoPeriodText(a)
    requires a.fromDate.Some? && a.toDate.Some?
    requires ParseYmd(a.fromDate.value).Some? && ParseYmd(a.toDate.value).Some?
    ensures ParseTimePeriod(PeriodString(a)) == Period(At(ParseYmd(a.fromDate.value).value), At(ParseYmd(a.toDate.value).value))
  {
    YmdPlain(a.fromDate.value);
    YmdPlain(a.toDate.value);
    ParseRange(a.fromDate.value, a.toDate.value);
  }

  /** A valid --from-date alone runs from that date up to now. */
  lemma FromOnlyWindow(a: PeriodArgs)
    requires NoPreset(a) && NoPeriodText(a) && !Given(a.toDate)
    requires a.fromDate.Some? && ParseYmd(a.fromDate.value).Some?
    ensures ParseTimePeriod(PeriodString(a)) == Period(At(ParseYmd(a.fromDate.value).value), Now)
  {
    ParseSingleDate(a.fromDate.value);
  }

  /** A valid --to-date alone runs from 2023-01-01 to that date. */
  lemma ToOnlyWindow(a: PeriodArgs)
    requires NoPreset(a) && NoPeriodText(a) && !Given(a.fromDate)
    requires a.toDate.Some? && ParseYmd(a.toDate.value).Some?
    ensures ParseTimePeriod(PeriodString(a)) == Period(At(DefaultStart), At(ParseYmd(a.toDate.value).value))
  {
    assert ParseYmd(DefaultPeriod) == Some(DefaultStart) by {
      assert IndexOf(DefaultPeriod[5..], '-') == Some(2);
    }
    YmdPlain(DefaultPeriod);
    YmdPlain(a.toDate.value);
    ParseRange(DefaultPeriod, a.toDate.value);
  }

  /** With no period option at all, the window is 2023-01-01 up to now. */
  lemma DefaultWindow(a: PeriodArgs)
    requires NoPreset(a) && NoPeriodText(a) && !Given(a.fromDate) && !Given(a.toDate)
    ensures ParseTimePeriod(PeriodString(a)) == Period(At(DefaultStart), Now)
  {
    assert ParseYmd(DefaultPeriod) == Some(DefaultStart) by {
      assert IndexOf(DefaultPeriod[5..], '-') == Some(2);
    }
    ParseSingleDate(DefaultPeriod);
  }

  /** The text --period or --date-range names is parsed as it stands, whatever follows it. */
  lemma PeriodTextWins(a: PeriodArgs)
    requires NoPreset(a) && !NoPeriodText(a)
    ensures PeriodString(a) == if Given(a.period) then a.period.value else a.dateRange.value
  {
  }

  // ---------------------------------------------------------------------------------
  // From a window to search dates
  // ---------------------------------------------------------------------------------

  /**
   * The date a Moment denotes, given the current time and a calendar for going back;
   * None where going back leaves the datetime range and the source raises.
   */
  function Instant(m: Moment, now: DateTime, earlier: (DateTime, nat, Unit) -> Option<DateTime>): Option<DateTime> {
    match m
    case At(d) => Some(d)
    case Now => Some(now)
    case Before(n, u) => earlier(now, n, u)
  }

  /** format_date: strftime("%Y-%m-%d"). */
  function FormatDate(d: DateTime): string
    requires ValidDateTime(d)
  {
    FormatYmd(d)
  }

  /** A formatted date reads back as midnight of the same day: the search covers whole days. */
  lemma FormatDateDay(d: DateTime)
    requires ValidDateTime(d)
    ensures ParseYmd(FormatDate(d)) == Some(Midnight(d.year, d.month, d.day))
  {
    var m := Midnight(d.year, d.month, d.day);
    assert FormatYmd(d) == FormatYmd(m);
    ParseFormatYmd(m);
  }

  /**
   * The two date strings main hands to the paging loop: each names the day of the
   * moment it came from. None where a relative period reaches before year 1 and the
   * source raises (OverflowError or ValueError), which ends the program.
   */
  function WindowDates(p: Period, now: DateTime, earlier: (DateTime, nat, Unit) -> Option<DateTime>)
    : (r: Option<(string, string)>)
    requires ValidDateTime(now)
    requires forall n: nat, u: Unit :: earlier(now, n, u).Some? ==> ValidDateTime(earlier(now, n, u).value)
    requires p.start.At? ==> ValidDateTime(p.start.date)
    requires p.end.At? ==> ValidDateTime(p.end.date)
    ensures r.Some? <==> Instant(p.start, now, earlier).Some? && Instant(p.end, now, earlier).Some?
    ensures r.Some? ==>
      var s, e := Instant(p.start, now, earlier).value, Instant(p.end, now, earlier).value;
      && ParseYmd(r.value.0) == Some(Midnight(s.year, s.month, s.day))
      && ParseYmd(r.value.1) == Some(Midnight(e.year, e.month, e.day))
  {
    var s := Instant(p.start, now, earlier);
    var e := Instant(p.end, now, earlier);
    if s.None? || e.None? then None
    else
      FormatDateDay(s.value);
      FormatDateDay(e.value);
      Some((FormatDate(s.value), FormatDate(e.value)))
  }

  // ---------------------------------------------------------------------------------
  // Sorting options
  // ---------------------------------------------------------------------------------

  const SortOptions := ["relevance", "lastUpdatedDate", "submittedDate"]
  const SortDirections := ["ascending", "descending"]

  /** An unknown sort field becomes "submittedDate". */
  function CheckedSortBy(s: string): (r: string)
    ensures r in SortOptions
    ensures s in SortOptions ==> r == s
    ensures s !in SortOptions ==> r == "submittedDate"
  {
    if s in SortOptions then s else "submittedDate"
  }

  /** An unknown sort direction becomes "descending". */
  function CheckedSortOrder(s: string): (r: string)
    ensures r in SortDirections
    ensures s in SortDirections ==> r == s
    ensures s !in SortDirections ==> r == "descending"
  {
    if s in SortDirections then s else "descending"
  }

  // ---------------------------------------------------------------------------------
  // Paging
  // ---------------------------------------------------------------------------------

  const BatchSize := 100

  /** One call of the search: the window, a page of at most BatchSize, and its offset. */
  datatype PageRequest = PageRequest(
    query: string, category: Option<string>, startDate: DateTime, endDate: DateTime,
    maxResults: int, start: nat, sortBy: string, sortOrder: string)

  /**
   * The search as the loop sees it: the n-th call (counting from 0, retries included)
   * with its request returns a page, or None when the call raises.
   */
  type Search = (nat, PageRequest) -> Option<seq<Paper>>

  function PageAt(base: PageRequest, offset: nat): PageRequest {
    base.(start := offset)
  }

  /** Where paging ended: the loop finished, or it was still going when the calls ran out. */
  datatype Pagination = Done(papers: seq<Paper>) | Exhausted(papers: seq<Paper>)

  /** Pages fetched before the rest of the paging. */
  function Prepend(ps: seq<Paper>, rest: Pagination): (r: Pagination)
    ensures r.Done? == rest.Done? && r.papers == ps + rest.papers
  {
    match rest
    case Done(qs) => Done(ps + qs)
    case Exhausted(qs) => Exhausted(ps + qs)
  }

  lemma PrependAssociative(ps: seq<Paper>, qs: seq<Paper>, rest: Pagination)
    ensures Prepend(ps, Prepend(qs, rest)) == Prepend(ps + qs, rest)
  {
    assert ps + (qs + rest.papers) == ps + qs + rest.papers;
  }

  /**
   * The paging loop from the given offset and call number, allowed `calls` more calls:
   * an empty page ends it, a short page is the last one, a full page moves the offset on
   * by BatchSize, and a call that raises is retried at the same offset.
   */
  function Paginate(search: Search, base: PageRequest, offset: nat, attempt: nat, calls: nat): Pagination
    decreases calls
  {
    if calls == 0 then Exhausted([])
    else
      match search(attempt, PageAt(base, offset))
      case None => Paginate(search, base, offset, attempt + 1, calls - 1)
      case Some(page) =>
        if page == [] then Done([])
        else if |page| < BatchSize then Done(page)
        else Prepend(page, Paginate(search, base, offset + BatchSize, attempt + 1, calls - 1))
  }

  /** A call that raises leaves the offset and what has been collected as they were. */
  lemma RetrySameOffset(search: Search, base: PageRequest, offset: nat, attempt: nat, calls: nat)
    requires search(attempt, PageAt(base, offset)).None?
    ensures Paginate(search, base, offset, attempt, calls + 1) == Paginate(search, base, offset, attempt + 1, calls)
  {
  }

  /** The page at an offset of a fixed result list. */
  function Window(all: seq<Paper>, offset: nat): (r: seq<Paper>)
    ensures |r| <= BatchSize
  {
    if offset >= |all| then []
    else if offset + BatchSize < |all| then all[offset..offset + BatchSize]
    else all[offset..]
  }

  /** A search that answers every call with the page of `all` at the requested offset. */
  ghost predicate Serves(search: Search, base: PageRequest, all: seq<Paper>) {
    forall attempt: nat, offset: nat :: search(attempt, PageAt(base, offset)) == Some(Window(all, offset))
  }

  /**
   * Against a search that serves a fixed result list, paging from any offset collects
   * exactly the rest of that list, given one call per full page and one more.
   */
  lemma {:induction false} FetchesEverything(search: Search, base: PageRequest, all: seq<Paper>, offset: nat, attempt: nat, calls: nat)
    requires Serves(search, base, all)
    requires offset <= |all| && calls > (|all| - offset) / BatchSize
    ensures Paginate(search, base, offset, attempt, calls) == Done(all[offset..])
    decreases calls
  {
    var page := Window(all, offset);
    assert search(attempt, PageAt(base, offset)) == Some(page);
    if offset + BatchSize < |all| {
      FetchesEverything(search, base, all, offset + BatchSize, attempt + 1, calls - 1);
      assert page + all[offset + BatchSize..] == all[offset..];
    } else if offset + BatchSize == |all| {
      FetchesEverything(search, base, all, offset + BatchSize, attempt + 1, calls - 1);
      assert page + [] == all[offset..];
    }
  }

  /**
   * The search as the source calls it: ArxivApiClient.search takes no `start` argument,
   * so every call raises TypeError before any request is made.
   */
  function RejectsStart(attempt: nat, request: PageRequest): Option<seq<Paper>> {
    None
  }

  /** Against that search the loop collects nothing and never finishes, however many calls it makes. */
  lemma {:induction false} RetriesForever(base: PageRequest, offset: nat, attempt: nat, calls: nat)
    ensures Paginate(RejectsStart, base, offset, attempt, calls) == Exhausted([])
    decreases calls
  {
    if calls > 0 {
      RetriesForever(base, offset, attempt + 1, calls - 1);
    }
  }

  /** The request fetch_all_papers sends for its first page. */
  function FirstRequest(query: string, category: Option<string>, from: DateTime, to: DateTime, sortBy: string, sortOrder: string): PageRequest {
    PageRequest(query, category, from, to, BatchSize, 0, CheckedSortBy(sortBy), CheckedSortOrder(sortOrder))
  }

  /**
   * fetch_all_papers with at most `calls` calls of the search: None when a date does not
   * read as YYYY-MM-DD (strptime raises), else the paging from offset 0.
   */
  method FetchAllPapers(search: Search, query: string, dateFrom: string, dateTo: string,
                        category: Option<string>, sortBy: string, sortOrder: string, calls: nat)
    returns (r: Option<Pagination>)
    ensures ParseYmd(dateFrom).None? || ParseYmd(dateTo).None? ==> r.None?
    ensures ParseYmd(dateFrom).Some? && ParseYmd(dateTo).Some? ==>
      r == Some(Paginate(search, FirstRequest(query, category, ParseYmd(dateFrom).value, ParseYmd(dateTo).value, sortBy, sortOrder), 0, 0, calls))
  {
    var checkedBy := CheckedSortBy(sortBy);
    var checkedOrder := CheckedSortOrder(sortOrder);
    var from := ParseYmd(dateFrom);
    var to := ParseYmd(dateTo);
    if from.None? || to.None? {
      return None;
    }
    var base := PageRequest(query, category, from.value, to.value, BatchSize, 0, checkedBy, checkedOrder);
    ghost var whole := Paginate(search, base, 0, 0, calls);
    var all: seq<Paper> := [];
    var start: nat := 0;
    var total := 0;
    var made: nat := 0;
    while made < calls
      invariant made <= calls
      invariant total == |all|
      invariant whole == Prepend(all, Paginate(search, base, start, made, calls - made))
      decreases calls - made
    {
      var answer := search(made, PageAt(base, start));
      ghost var rest := Paginate(search, base, start, made, calls - made);
      made := made + 1;
      if answer.Some? {
        var page := answer.value;
        if page == [] {
          assert rest == Done([]) && all + [] == all;
          return Some(Done(all));
        }
        PrependAssociative(all, page, Paginate(search, base, start + BatchSize, made, calls - made));
        all := all + page;
        total := total + |page|;
        if |page| < BatchSize {
          assert rest == Done(page);
          return Some(Done(all));
        }
        start := start + BatchSize;
      }
    }
    assert all + [] == all;
    return Some(Exhausted(all));
  }

  // ---------------------------------------------------------------------------------
  // Downloads
  // ---------------------------------------------------------------------------------

  /** --max-downloads: a positive value is a limit, zero or less means every paper. */
  function ToDownload(papers: seq<Paper>, maxDownloads: int): (r: seq<Paper>)
    ensures |r| <= |papers| && r == papers[..|r|]
    ensures maxDownloads <= 0 ==> r == papers
    ensures maxDownloads > 0 ==> |r| == if maxDownloads < |papers| then maxDownloads else |papers|
  {
    PyTake(papers, if maxDownloads > 0 then maxDownloads else |papers|)
  }

  const PdfUrlPrefix := "http://arxiv.org/pdf/"

  /** Where one paper's PDF comes from and where it goes. */
  datatype PdfTarget = PdfTarget(url: string, filename: string, path: string)

  /** os.path.join(dir, name) for a name that does not start with '/'. */
  function JoinPath(dir: string, name: string): string {
    if dir == [] || dir[|dir| - 1] == '/' then dir + name else dir + "/" + name
  }

  /** Different names give different paths in the same directory. */
  lemma JoinPathInjective(dir: string, a: string, b: string)
    ensures JoinPath(dir, a) == JoinPath(dir, b) ==> a == b
  {
    var prefix := if dir == [] || dir[|dir| - 1] == '/' then dir else dir + "/";
    assert JoinPath(dir, a) == prefix + a && (prefix + a)[|prefix|..] == a;
    assert JoinPath(dir, b) == prefix + b && (prefix + b)[|prefix|..] == b;
  }

  /**
   * download_pdf's naming: the short id plus ".pdf" in the output directory, fetched from
   * pdf_url or, when that is missing or empty, from the arXiv PDF address of the short id.
   * None when the paper has no id (the source raises KeyError).
   */
  function DownloadTarget(p: Paper, outputDir: string): (r: Option<PdfTarget>)
    ensures r.Some? <==> p.id.Some?
    ensures r.Some? ==> '/' !in r.value.filename && r.value.path == JoinPath(outputDir, r.value.filename)
  {
    if p.id.None? then None
    else
      var shortId := ShortId(p.id.value);
      var url := if p.pdfUrl.None? || p.pdfUrl.value == "" then PdfUrlPrefix + shortId + ".pdf" else p.pdfUrl.value;
      var filename := shortId + ".pdf";
      assert '/' !in ".pdf";
      Some(PdfTarget(url, filename, JoinPath(outputDir, filename)))
  }

  /** Without a pdf_url the file is fetched from the PDF address carrying its own name; with one, from that URL. */
  lemma DownloadUrl(p: Paper, outputDir: string)
    requires p.id.Some?
    ensures var t := DownloadTarget(p, outputDir).value;
      if p.pdfUrl.None? || p.pdfUrl.value == "" then t.url == PdfUrlPrefix + t.filename else t.url == p.pdfUrl.value
  {
    assert PdfUrlPrefix + ShortId(p.id.value) + ".pdf" == PdfUrlPrefix + (ShortId(p.id.value) + ".pdf");
  }

  /** Two papers share a PDF file exactly when their short ids agree. */
  lemma SameFileIffSameShortId(p: Paper, q: Paper, outputDir: string)
    requires p.id.Some? && q.id.Some?
    ensures DownloadTarget(p, outputDir).value.path == DownloadTarget(q, outputDir).value.path
        <==> ShortId(p.id.value) == ShortId(q.id.value)
  {
    var a := ShortId(p.id.value) + ".pdf";
    var b := ShortId(q.id.value) + ".pdf";
    JoinPathInjective(outputDir, a, b);
    if a == b {
      assert ShortId(p.id.value) == a[..|a| - 4];
    }
  }

  /** A full abs URL and its bare short id name the same PDF file. */
  lemma AbsUrlSameFile(p: Paper, x: string, outputDir: string)
    requires '/' !in x && p.id == Some(AbsUrlPrefix + x)
    ensures DownloadTarget(p, outputDir).value.filename == x + ".pdf"
  {
    ShortIdOfAbsUrl(x);
  }
}
