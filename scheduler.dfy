/**
 * The harvest scheduler: it holds the search, notification and schedule settings, decides
 * when a harvest is due, and runs one harvest as fetch, filter, store, notify and save.
 * The wall clock (datetime.now() and the client's time.time()), the arXiv transport, the
 * Slack webhook and the state file's directory are parameters: the file system is a map
 * from path to what the file holds.
 */
module Harvest {
  import opened Wrappers
  import opened Strings
  import opened Dates
  import opened Papers
  import opened StoreModel
  import Store
  import ArxivClient
  import Slack

  // ---------------------------------------------------------------- schedule

  const DaySeconds := 86400
  const DayMicroseconds := DaySeconds * 1000000

  /** The interval of a schedule type in days: daily 1, weekly 7, monthly 30, anything else 7. */
  function IntervalDays(scheduleType: string): nat {
    if scheduleType == "daily" then 1
    else if scheduleType == "weekly" then 7
    else if scheduleType == "monthly" then 30
    else 7
  }

  /** is_time_to_run: always before the first run, afterwards once the interval has passed. */
  function IsDue(lastRunTime: Option<DateTime>, scheduleType: string, now: DateTime): bool
    requires lastRunTime.Some? ==> ValidDateTime(lastRunTime.value)
    requires ValidDateTime(now)
  {
    lastRunTime.None? || Microseconds(now) - Microseconds(lastRunTime.value) >= IntervalDays(scheduleType) * DayMicroseconds
  }

  /** The schedule table: one day, thirty days, and seven for weekly and every other type. */
  lemma DueIntervals(last: DateTime, scheduleType: string, now: DateTime)
    requires ValidDateTime(last) && ValidDateTime(now)
    ensures IsDue(None, scheduleType, now)
    ensures scheduleType == "daily" ==>
      (IsDue(Some(last), scheduleType, now) <==> Microseconds(now) >= Microseconds(last) + 86400 * 1000000)
    ensures scheduleType == "monthly" ==>
      (IsDue(Some(last), scheduleType, now) <==> Microseconds(now) >= Microseconds(last) + 30 * 86400 * 1000000)
    ensures scheduleType != "daily" && scheduleType != "monthly" ==>
      (IsDue(Some(last), scheduleType, now) <==> Microseconds(now) >= Microseconds(last) + 7 * 86400 * 1000000)
  {
  }

  /** A harvest is never due at the instant of the previous one, and stays due once due. */
  lemma DueMonotone(last: DateTime, scheduleType: string, now: DateTime, later: DateTime)
    requires ValidDateTime(last) && ValidDateTime(now) && ValidDateTime(later)
    requires Microseconds(now) <= Microseconds(later)
    ensures !IsDue(Some(now), scheduleType, now)
    ensures IsDue(Some(last), scheduleType, now) ==> IsDue(Some(last), scheduleType, later)
  {
  }

  /** A monthly harvest due is a weekly one due, and a weekly one due is a daily one due. */
  lemma DueOrdering(last: DateTime, now: DateTime)
    requires ValidDateTime(last) && ValidDateTime(now)
    ensures IsDue(Some(last), "monthly", now) ==> IsDue(Some(last), "weekly", now)
    ensures IsDue(Some(last), "weekly", now) ==> IsDue(Some(last), "daily", now)
  {
  }

  // ---------------------------------------------------------------- fetch_papers

  /** The URL of the client call fetch_papers makes: no dates, the default sort, relevance ascending. */
  function SearchRequest(query: string, category: Option<string>, maxResults: int): string {
    ArxivClient.SearchUrl(ArxivClient.SearchQuery(query, category, None, None), maxResults, "relevance", "ascending")
  }

  /** What the client's search gives for that call. */
  function SearchResult(transport: string -> ArxivClient.Response, query: string, category: Option<string>,
                        maxResults: int): Result<seq<Paper>, ArxivClient.ApiError>
  {
    ArxivClient.SearchOutcome(transport(SearchRequest(query, category, maxResults)))
  }

  /** Two searches in turn: the first failure, else both results concatenated. */
  function Then(r1: Result<seq<Paper>, ArxivClient.ApiError>, r2: Result<seq<Paper>, ArxivClient.ApiError>)
    : Result<seq<Paper>, ArxivClient.ApiError>
  {
    if r1.Err? then r1 else if r2.Err? then r2 else Ok(r1.value + r2.value)
  }

  lemma ThenAssociative(r1: Result<seq<Paper>, ArxivClient.ApiError>, r2: Result<seq<Paper>, ArxivClient.ApiError>,
                        r3: Result<seq<Paper>, ArxivClient.ApiError>)
    ensures Then(Then(r1, r2), r3) == Then(r1, Then(r2, r3))
  {
    if r1.Ok? && r2.Ok? && r3.Ok? {
      assert r1.value + r2.value + r3.value == r1.value + (r2.value + r3.value);
    }
  }

  /** One search per category in order, the results concatenated; the first failure stops it. */
  function SearchEach(transport: string -> ArxivClient.Response, query: string, categories: seq<string>,
                      maxResults: int): Result<seq<Paper>, ArxivClient.ApiError>
    decreases |categories|
  {
    if categories == [] then Ok([])
    else Then(SearchEach(transport, query, categories[..|categories| - 1], maxResults),
              SearchResult(transport, query, Some(categories[|categories| - 1]), maxResults))
  }

  /**
   * The number of searches the category loop sends: every one up to and including the
   * first that fails.
   */
  function SearchesSent(transport: string -> ArxivClient.Response, query: string, categories: seq<string>,
                        maxResults: int): (n: nat)
    ensures n <= |categories|
    ensures SearchEach(transport, query, categories, maxResults).Ok? ==> n == |categories|
    decreases |categories|
  {
    if categories == [] then 0
    else
      var init := categories[..|categories| - 1];
      if SearchEach(transport, query, init, maxResults).Err? then SearchesSent(transport, query, init, maxResults)
      else |categories|
  }

  /** After a prefix has failed, no later category is searched. */
  lemma {:induction false} SearchesSentStops(transport: string -> ArxivClient.Response, query: string,
                                             categories: seq<string>, k: nat, maxResults: int)
    requires k <= |categories|
    requires SearchEach(transport, query, categories[..k], maxResults).Err?
    ensures SearchesSent(transport, query, categories, maxResults) == SearchesSent(transport, query, categories[..k], maxResults)
    decreases |categories|
  {
    if k < |categories| {
      var init := categories[..|categories| - 1];
      assert init[..k] == categories[..k];
      SearchesSentStops(transport, query, init, k, maxResults);
      SearchEachStops(transport, query, init, k, maxResults);
    } else {
      assert categories[..k] == categories;
    }
  }

  /** With every category before position i found, the loop's next search is sent. */
  lemma SearchesSentNext(transport: string -> ArxivClient.Response, query: string, categories: seq<string>,
                         i: nat, maxResults: int)
    requires i < |categories|
    requires SearchEach(transport, query, categories[..i], maxResults).Ok?
    ensures SearchesSent(transport, query, categories[..i + 1], maxResults) == i + 1
  {
    assert categories[..i + 1][..i] == categories[..i];
  }

  /** Where the loop stops: after the first failure, or after every category. */
  lemma SearchesSentAt(transport: string -> ArxivClient.Response, query: string, categories: seq<string>,
                       i: nat, maxResults: int)
    requires i <= |categories|
    requires var r := SearchEach(transport, query, categories[..i], maxResults);
      && (r.Ok? ==> i == |categories|)
      && (r.Err? ==> 0 < i && SearchEach(transport, query, categories[..i - 1], maxResults).Ok?)
    ensures SearchesSent(transport, query, categories, maxResults) == i
    ensures SearchEach(transport, query, categories, maxResults) == SearchEach(transport, query, categories[..i], maxResults)
  {
    if SearchEach(transport, query, categories[..i], maxResults).Err? {
      SearchesSentStops(transport, query, categories, i, maxResults);
      SearchEachStops(transport, query, categories, i, maxResults);
      SearchesSentNext(transport, query, categories, i - 1, maxResults);
      assert SearchesSent(transport, query, categories[..i], maxResults) == i;
    } else {
      assert categories[..i] == categories;
    }
  }

  /** The searches fetch_papers sends: one without categories, else the category loop's. */
  function FetchSearches(transport: string -> ArxivClient.Response, query: string, categories: seq<string>,
                         maxResults: int): nat
  {
    if categories == [] then 1 else SearchesSent(transport, query, categories, maxResults)
  }

  /**
   * The client's last request time after n searches from last request time last, the
   * k-th search (from 0) rate-limiting at the client's clock reading ticks(k).
   */
  function ClockAfter(delay: int, last: int, ticks: nat -> int, n: nat): int {
    if n == 0 then last
    else
      var before := ClockAfter(delay, last, ticks, n - 1);
      ticks(n - 1) + ArxivClient.SleepFor(delay, before, ticks(n - 1))
  }

  /**
   * The rate limit over a run: when the clock never reads earlier than the last request
   * time, the requests from the k-th to the l-th are at least delay apart each, once a
   * request has been made.
   */
  lemma {:induction false} ClockSpacing(delay: int, last: int, ticks: nat -> int, k: nat, l: nat)
    requires 0 <= delay && k <= l
    requires ClockAfter(delay, last, ticks, k) > 0
    requires forall j: nat :: k <= j < l ==> ticks(j) >= ClockAfter(delay, last, ticks, j)
    ensures ClockAfter(delay, last, ticks, l) - ClockAfter(delay, last, ticks, k) >= (l - k) * delay
    decreases l - k
  {
    if k < l {
      var before := ClockAfter(delay, last, ticks, k);
      ArxivClient.RequestsSpaced(delay, before, ticks(k));
      ClockSpacing(delay, last, ticks, k + 1, l);
      assert (l - k) * delay == (l - (k + 1)) * delay + delay;
    }
  }

  /** str() of what the client raises. */
  function ErrorText(e: ArxivClient.ApiError): string {
    match e
    case ConnectionError(reason) => reason
    case Timeout(reason) => reason
    case Failure(message) => message
  }

  const FetchErrorPrefix := "Error fetching papers: "

  /**
   * fetch_papers: a search per category when there are categories, one uncategorised
   * search otherwise; a failure is raised again as "Error fetching papers: ...".
   */
  function Fetched(transport: string -> ArxivClient.Response, query: string, categories: seq<string>,
                   maxResults: int): Result<seq<Paper>, string>
  {
    var r := if categories == [] then SearchResult(transport, query, None, maxResults)
             else SearchEach(transport, query, categories, maxResults);
    if r.Err? then Err(FetchErrorPrefix + ErrorText(r.error)) else Ok(r.value)
  }

  /**
   * Searching two lists of categories one after the other is searching their
   * concatenation: the results are concatenated in order, and the first failure wins.
   */
  lemma {:induction false} SearchEachAppend(transport: string -> ArxivClient.Response, query: string,
                                            c1: seq<string>, c2: seq<string>, maxResults: int)
    ensures SearchEach(transport, query, c1 + c2, maxResults) ==
      Then(SearchEach(transport, query, c1, maxResults), SearchEach(transport, query, c2, maxResults))
    decreases |c2|
  {
    var r1 := SearchEach(transport, query, c1, maxResults);
    if c2 == [] {
      assert c1 + c2 == c1;
      if r1.Ok? {
        assert r1.value + [] == r1.value;
      }
    } else {
      var init := c2[..|c2| - 1];
      var last := SearchResult(transport, query, Some(c2[|c2| - 1]), maxResults);
      assert (c1 + c2)[..|c1 + c2| - 1] == c1 + init;
      assert (c1 + c2)[|c1 + c2| - 1] == c2[|c2| - 1];
      SearchEachAppend(transport, query, c1, init, maxResults);
      ThenAssociative(r1, SearchEach(transport, query, init, maxResults), last);
    }
  }

  /** Once a prefix of the categories has failed, the whole loop fails with that error. */
  lemma SearchEachStops(transport: string -> ArxivClient.Response, query: string, categories: seq<string>,
                        i: nat, maxResults: int)
    requires i <= |categories|
    requires SearchEach(transport, query, categories[..i], maxResults).Err?
    ensures SearchEach(transport, query, categories, maxResults) == SearchEach(transport, query, categories[..i], maxResults)
  {
    assert categories == categories[..i] + categories[i..];
    SearchEachAppend(transport, query, categories[..i], categories[i..], maxResults);
  }

  /** The loop's next step: one more category, searched after the ones before it. */
  lemma SearchEachSnoc(transport: string -> ArxivClient.Response, query: string, categories: seq<string>,
                       i: nat, maxResults: int)
    requires i < |categories|
    ensures SearchEach(transport, query, categories[..i + 1], maxResults) ==
      Then(SearchEach(transport, query, categories[..i], maxResults),
           SearchResult(transport, query, Some(categories[i]), maxResults))
  {
    assert categories[..i + 1][..i] == categories[..i];
  }

  predicate AllComplete(papers: seq<Paper>) {
    forall i :: 0 <= i < |papers| ==> HasRequiredFields(papers[i])
  }

  /** Every paper a search returns has an id and a title. */
  lemma SearchResultComplete(transport: string -> ArxivClient.Response, query: string, category: Option<string>,
                             maxResults: int)
    requires SearchResult(transport, query, category, maxResults).Ok?
    ensures AllComplete(SearchResult(transport, query, category, maxResults).value)
  {
    var response := transport(SearchRequest(query, category, maxResults));
    assert response.Reply? && response.status == 200;
    ArxivClient.ParsedComplete(response.content);
  }

  lemma {:induction false} SearchEachComplete(transport: string -> ArxivClient.Response, query: string,
                                              categories: seq<string>, maxResults: int)
    requires SearchEach(transport, query, categories, maxResults).Ok?
    ensures AllComplete(SearchEach(transport, query, categories, maxResults).value)
    decreases |categories|
  {
    if categories != [] {
      var init := categories[..|categories| - 1];
      SearchEachComplete(transport, query, init, maxResults);
      SearchResultComplete(transport, query, Some(categories[|categories| - 1]), maxResults);
    }
  }

  /** Every fetched paper has an id and a title, so the store and the notifier accept it. */
  lemma FetchedComplete(transport: string -> ArxivClient.Response, query: string, categories: seq<string>,
                        maxResults: int)
    requires Fetched(transport, query, categories, maxResults).Ok?
    ensures AllComplete(Fetched(transport, query, categories, maxResults).value)
  {
    if categories == [] {
      SearchResultComplete(transport, query, None, maxResults);
    } else {
      SearchEachComplete(transport, query, categories, maxResults);
    }
  }

  // ---------------------------------------------------------------- filter_new_papers

  /** The store holds a row with the paper's short id. */
  predicate Known(db: Db, p: Paper)
    requires p.id.Some?
  {
    ShortId(p.id.value) in ArxivIds(db)
  }

  /** get_paper_by_id on a short id finds a paper exactly when some row carries that short id. */
  lemma ResolveShortId(db: Db, x: string)
    requires Consistent(db) && '/' !in x
    ensures Resolve(db, x).Some? <==> x in ArxivIds(db)
  {
    if Resolve(db, x).Some? {
      var k := Resolve(db, x).value;
      ShortIdOfAbsUrl(x);
      assert db.papers[k].arxivId == x;
    }
  }

  /** One paper more: a KeyError without an id, dropped when known, kept otherwise. */
  function Keep(db: Db, before: Option<seq<Paper>>, p: Paper): Option<seq<Paper>> {
    if before.None? || p.id.None? then None
    else if Known(db, p) then before
    else Some(before.value + [p])
  }

  /**
   * filter_new_papers: the papers the store does not know, in input order. None stands
   * for the KeyError a paper without an id raises.
   */
  function NewPapers(db: Db, papers: seq<Paper>): Option<seq<Paper>>
    decreases |papers|
  {
    if papers == [] then Some([])
    else Keep(db, NewPapers(db, papers[..|papers| - 1]), papers[|papers| - 1])
  }

  /** The loop's next step. */
  lemma NewPapersSnoc(db: Db, papers: seq<Paper>, i: nat)
    requires i < |papers|
    ensures NewPapers(db, papers[..i + 1]) == Keep(db, NewPapers(db, papers[..i]), papers[i])
  {
    assert papers[..i + 1][..i] == papers[..i];
  }

  /** The filter fails exactly when some paper has no id; otherwise it keeps exactly the unknown papers. */
  lemma NewPapersMembers(db: Db, papers: seq<Paper>)
    ensures NewPapers(db, papers).Some? <==> forall i :: 0 <= i < |papers| ==> papers[i].id.Some?
    ensures NewPapers(db, papers).Some? ==>
      (forall q :: q in NewPapers(db, papers).value <==> q in papers && q.id.Some? && !Known(db, q))
    ensures NewPapers(db, papers).Some? ==> |NewPapers(db, papers).value| <= |papers|
  {
    NewPapersDefined(db, papers);
    if NewPapers(db, papers).Some? {
      NewPapersContents(db, papers);
    }
  }

  lemma {:induction false} NewPapersDefined(db: Db, papers: seq<Paper>)
    ensures NewPapers(db, papers).Some? <==> forall i :: 0 <= i < |papers| ==> papers[i].id.Some?
    decreases |papers|
  {
    if papers != [] {
      var init := papers[..|papers| - 1];
      var p := papers[|papers| - 1];
      NewPapersDefined(db, init);
      KeepDefined(db, NewPapers(db, init), p);
      if NewPapers(db, papers).Some? {
        forall i | 0 <= i < |papers| ensures papers[i].id.Some? {
          if i < |init| {
            assert init[i] == papers[i];
          }
        }
      } else if NewPapers(db, init).None? {
        var i :| 0 <= i < |init| && init[i].id.None?;
        assert papers[i] == init[i];
      }
    }
  }

  lemma KeepDefined(db: Db, before: Option<seq<Paper>>, p: Paper)
    ensures Keep(db, before, p).Some? <==> before.Some? && p.id.Some?
  {
  }

  lemma {:induction false} NewPapersContents(db: Db, papers: seq<Paper>)
    requires NewPapers(db, papers).Some?
    ensures forall q :: q in NewPapers(db, papers).value <==> q in papers && q.id.Some? && !Known(db, q)
    ensures |NewPapers(db, papers).value| <= |papers|
    decreases |papers|
  {
    if papers != [] {
      var init := papers[..|papers| - 1];
      var p := papers[|papers| - 1];
      assert NewPapers(db, init).Some?;
      NewPapersContents(db, init);
      LastMembers(papers);
    }
  }

  lemma LastMembers<T>(s: seq<T>)
    requires s != []
    ensures forall q :: q in s <==> q in s[..|s| - 1] || q == s[|s| - 1]
  {
    assert s == s[..|s| - 1] + [s[|s| - 1]];
  }

  /** Filtering a concatenation is concatenating the filtered parts: the input order is kept. */
  lemma {:induction false} NewPapersAppend(db: Db, a: seq<Paper>, b: seq<Paper>)
    requires NewPapers(db, a).Some? && NewPapers(db, b).Some?
    ensures NewPapers(db, a + b) == Some(NewPapers(db, a).value + NewPapers(db, b).value)
    decreases |b|
  {
    var ra := NewPapers(db, a).value;
    if b == [] {
      AppendEmpty(a);
      AppendEmpty(ra);
    } else {
      var init := b[..|b| - 1];
      var p := b[|b| - 1];
      SplitLast(a, b);
      assert NewPapers(db, b) == Keep(db, NewPapers(db, init), p);
      assert NewPapers(db, init).Some?;
      NewPapersAppend(db, a, init);
      var ri := NewPapers(db, init).value;
      if !Known(db, p) {
        AppendAssociative(ra, ri, [p]);
      }
    }
  }

  lemma AppendEmpty<T>(a: seq<T>)
    ensures a + [] == a
  {
  }

  lemma SplitLast<T>(a: seq<T>, b: seq<T>)
    requires b != []
    ensures (a + b)[..|a + b| - 1] == a + b[..|b| - 1] && (a + b)[|a + b| - 1] == b[|b| - 1]
  {
  }

  lemma AppendAssociative<T>(a: seq<T>, b: seq<T>, c: seq<T>)
    ensures a + (b + c) == a + b + c
  {
  }

  /** When the store knows every paper, nothing is new. */
  lemma {:induction false} NewPapersNoneNew(db: Db, papers: seq<Paper>)
    requires forall i :: 0 <= i < |papers| ==> papers[i].id.Some? && Known(db, papers[i])
    ensures NewPapers(db, papers) == Some([])
    decreases |papers|
  {
    if papers != [] {
      var init := papers[..|papers| - 1];
      assert forall i :: 0 <= i < |init| ==> init[i] == papers[i];
      NewPapersNoneNew(db, init);
    }
  }

  /**
   * Harvesting the same answers again right after a harvest finds nothing new: every
   * fetched paper was either known before or has just been stored, and storing only
   * adds short ids.
   */
  lemma SecondHarvestFindsNothing(db: Db, fetched: seq<Paper>)
    requires Consistent(db) && AllComplete(fetched)
    ensures NewPapers(db, fetched).Some?
    ensures AllComplete(NewPapers(db, fetched).value)
    ensures Consistent(StoreAll(db, NewPapers(db, fetched).value))
    ensures NewPapers(StoreAll(db, NewPapers(db, fetched).value), fetched) == Some([])
  {
    NewPapersMembers(db, fetched);
    var unseen := NewPapers(db, fetched).value;
    assert AllComplete(unseen) by {
      forall i | 0 <= i < |unseen| ensures HasRequiredFields(unseen[i]) {
        assert unseen[i] in fetched;
      }
    }
    StoreAllConsistent(db, unseen);
    StoreAllArxivIds(db, unseen);
    BatchShortIdsHasEach(unseen);
    var after := StoreAll(db, unseen);
    forall i | 0 <= i < |fetched| ensures Known(after, fetched[i]) {
      var p := fetched[i];
      if !Known(db, p) {
        assert p in unseen;
      }
    }
    NewPapersNoneNew(after, fetched);
  }

  /**
   * The papers a harvest finds new, or None when the fetch fails. Every one of them has
   * an id and a title, so the filter cannot raise and storing them succeeds.
   */
  function Harvested(db: Db, transport: string -> ArxivClient.Response, query: string, categories: seq<string>,
                     maxResults: int): (r: Option<seq<Paper>>)
    requires Consistent(db)
    ensures r.Some? <==> Fetched(transport, query, categories, maxResults).Ok?
    ensures r.Some? ==> r == NewPapers(db, Fetched(transport, query, categories, maxResults).value)
    ensures r.Some? ==> AllComplete(r.value) && StoreBatch(db, r.value) == Ok(StoreAll(db, r.value))
  {
    var fetched := Fetched(transport, query, categories, maxResults);
    if fetched.Err? then None
    else
      FetchedComplete(transport, query, categories, maxResults);
      SecondHarvestFindsNothing(db, fetched.value);
      NewPapers(db, fetched.value)
  }

  // ---------------------------------------------------------------- state file

  /** The settings save_state writes and load_state reads. */
  datatype Settings = Settings(
    query: string,
    categories: seq<string>,
    maxResults: int,
    webhook: Option<string>,
    scheduleType: string,
    lastRunTime: Option<DateTime>)

  /** A new scheduler's settings. */
  const DefaultSettings := Settings("", [], 50, None, "weekly", None)

  /** A last run time isoformat can write. */
  predicate Persistable(s: Settings) {
    s.lastRunTime.Some? ==> ValidDateTime(s.lastRunTime.value)
  }

  /**
   * The JSON object of a state file. Each field is None when its key is absent; for the
   * webhook and the last run time None is also a JSON null.
   */
  datatype StateDoc = StateDoc(
    query: Option<string>,
    categories: Option<seq<string>>,
    maxResults: Option<int>,
    slackWebhook: Option<string>,
    scheduleType: Option<string>,
    lastRunTime: Option<string>)

  /** What a state file holds: a JSON object, or something json.load cannot read as one. */
  datatype StateFile = Document(doc: StateDoc) | Unreadable

  type Files = map<string, StateFile>

  /** The object save_state writes: every key, the last run time as isoformat text or null. */
  function Snapshot(s: Settings): StateDoc
    requires Persistable(s)
  {
    StateDoc(Some(s.query), Some(s.categories), Some(s.maxResults), s.webhook, Some(s.scheduleType),
             if s.lastRunTime.Some? then Some(Isoformat(s.lastRunTime.value)) else None)
  }

  /**
   * load_state applied to the current settings: an unreadable file changes nothing; a
   * document sets each setting from its key or the default, then the last run time from
   * its text. A text fromisoformat rejects raises after the other settings are set, so
   * only the last run time keeps its old value.
   */
  function Loaded(current: Settings, file: StateFile): Settings {
    match file
    case Unreadable => current
    case Document(d) =>
      var s := Settings(d.query.GetOr(""), d.categories.GetOr([]), d.maxResults.GetOr(50), d.slackWebhook,
                        d.scheduleType.GetOr("weekly"), current.lastRunTime);
      if d.lastRunTime.None? || d.lastRunTime.value == "" then s.(lastRunTime := None)
      else
        var t := ParseIsoformat(d.lastRunTime.value);
        if t.None? then s else s.(lastRunTime := t)
  }

  /** Loading what was saved gives back every saved setting, whatever the settings were before. */
  lemma LoadSnapshot(current: Settings, s: Settings)
    requires Persistable(s)
    ensures Loaded(current, Document(Snapshot(s))) == s
  {
    if s.lastRunTime.Some? {
      ParseFormatIsoformat(s.lastRunTime.value);
      assert |Isoformat(s.lastRunTime.value)| >= 19;
    }
  }

  /** Missing keys load as the defaults, and loading keeps the last run time writable. */
  lemma LoadDefaults(current: Settings, file: StateFile)
    requires Persistable(current)
    ensures Loaded(current, Document(StateDoc(None, None, None, None, None, None))) == DefaultSettings
    ensures Persistable(Loaded(current, file))
  {
  }

  /** state_file or self.state_file, when it is set and not empty. */
  function Target(argument: Option<string>, field: Option<string>): Option<string> {
    if argument.Some? && argument.value != "" then argument
    else if field.Some? && field.value != "" then field
    else None
  }

  // ---------------------------------------------------------------- arguments

  /** The parsed command line; None is an option not given. */
  datatype Arguments = Arguments(
    query: Option<string>,
    categories: Option<string>,
    maxResults: Option<int>,
    webhook: Option<string>,
    stateFile: Option<string>,
    schedule: Option<string>,
    forceRun: bool)

  /** A string option that is given and not empty (Python's truth test). */
  predicate Given(option: Option<string>) {
    option.Some? && option.value != ""
  }

  /** The settings and the state file path the scheduler holds. */
  datatype Config = Config(settings: Settings, stateFile: Option<string>)

  /** load_state on the configured state file, if it is set and exists. */
  function LoadedConfig(c: Config, files: Files): Config {
    var target := Target(None, c.stateFile);
    if target.Some? && target.value in files then c.(settings := Loaded(c.settings, files[target.value])) else c
  }

  /** The search parameters a query option sets: comma-separated categories, the current maximum unless given. */
  function WithSearch(s: Settings, args: Arguments): Settings {
    if Given(args.query) then
      s.(query := args.query.value,
         categories := if Given(args.categories) then Split(args.categories.value, ',') else [],
         maxResults := args.maxResults.GetOr(s.maxResults))
    else s
  }

  function WithWebhook(s: Settings, args: Arguments): Settings {
    if Given(args.webhook) then s.(webhook := args.webhook) else s
  }

  /** A state file option is set, then loaded. */
  function WithStateFile(c: Config, args: Arguments, files: Files): Config {
    if Given(args.stateFile) then LoadedConfig(c.(stateFile := args.stateFile), files) else c
  }

  function WithSchedule(c: Config, args: Arguments): Config {
    if Given(args.schedule) then c.(settings := c.settings.(scheduleType := args.schedule.value)) else c
  }

  /** apply_arguments: the search parameters, then the webhook, then the state file, then the schedule. */
  function Applied(c: Config, args: Arguments, files: Files): Config {
    WithSchedule(WithStateFile(c.(settings := WithWebhook(WithSearch(c.settings, args), args)), args, files), args)
  }

  /**
   * A readable state file named on the command line overrides the query, categories,
   * maximum and webhook given beside it, while a schedule given beside it overrides the
   * file's.
   */
  lemma StateFileWins(c: Config, args: Arguments, files: Files)
    requires Given(args.stateFile) && args.stateFile.value in files
    requires files[args.stateFile.value].Document?
    ensures var d := files[args.stateFile.value].doc;
      var r := Applied(c, args, files).settings;
      && r.query == d.query.GetOr("")
      && r.categories == d.categories.GetOr([])
      && r.maxResults == d.maxResults.GetOr(50)
      && r.webhook == d.slackWebhook
      && r.scheduleType == (if Given(args.schedule) then args.schedule.value else d.scheduleType.GetOr("weekly"))
    ensures Applied(c, args, files).stateFile == args.stateFile
  {
  }

  /**
   * Without a state file option, the query option sets the search parameters (the
   * categories split at commas) and the other options set what they name.
   */
  lemma ArgumentsApplied(c: Config, args: Arguments, files: Files)
    requires !Given(args.stateFile) && Given(args.query)
    ensures var r := Applied(c, args, files);
      && r.settings.query == args.query.value
      && (Given(args.categories) ==> Join(r.settings.categories, ",") == args.categories.value)
      && (!Given(args.categories) ==> r.settings.categories == [])
      && r.settings.maxResults == (if args.maxResults.Some? then args.maxResults.value else c.settings.maxResults)
      && r.settings.webhook == (if Given(args.webhook) then args.webhook else c.settings.webhook)
      && r.settings.lastRunTime == c.settings.lastRunTime
      && r.stateFile == c.stateFile
  {
    if Given(args.categories) {
      JoinSplit(args.categories.value, ',');
    }
  }

  // ---------------------------------------------------------------- the scheduler

  const PreMessage := "New arXiv papers matching your criteria:"

  class Scheduler {
    const apiClient: ArxivClient.ArxivApiClient
    const db: Store.DatabaseManager
    const notifier: Slack.SlackNotifier
    var query: string
    var categories: seq<string>
    var maxResults: int
    var webhook: Option<string>
    var scheduleType: string
    var lastRunTime: Option<DateTime>
    var stateFile: Option<string>

    function Current(): Settings
      reads this
    {
      Settings(query, categories, maxResults, webhook, scheduleType, lastRunTime)
    }

    function CurrentConfig(): Config
      reads this
    {
      Config(Current(), stateFile)
    }

    ghost predicate Valid()
      reads this, db
    {
      db.Valid() && Persistable(Current())
    }

    /** __init__: an empty query, no categories, 50 results, no webhook, weekly, never run. */
    constructor (apiClient: ArxivClient.ArxivApiClient, db: Store.DatabaseManager, notifier: Slack.SlackNotifier)
      requires db.Valid()
      ensures Valid() && Current() == DefaultSettings && stateFile.None?
      ensures this.apiClient == apiClient && this.db == db && this.notifier == notifier
    {
      this.apiClient := apiClient;
      this.db := db;
      this.notifier := notifier;
      query, categories, maxResults := "", [], 50;
      webhook, scheduleType, lastRunTime, stateFile := None, "weekly", None, None;
    }

    /** set_search_parameters: missing categories become the empty list. */
    method SetSearchParameters(query: string, categories: Option<seq<string>>, maxResults: int)
      modifies this
      ensures Current() == old(Current()).(query := query, categories := categories.GetOr([]), maxResults := maxResults)
      ensures stateFile == old(stateFile)
    {
      this.query := query;
      this.categories := if categories.Some? then categories.value else [];
      this.maxResults := maxResults;
    }

    method SetSlackWebhook(webhookUrl: string)
      modifies this
      ensures Current() == old(Current()).(webhook := Some(webhookUrl)) && stateFile == old(stateFile)
    {
      webhook := Some(webhookUrl);
    }

    method SetSchedule(scheduleType: string)
      modifies this
      ensures Current() == old(Current()).(scheduleType := scheduleType) && stateFile == old(stateFile)
    {
      this.scheduleType := scheduleType;
    }

    method SetLastRunTime(runTime: DateTime)
      modifies this
      ensures Current() == old(Current()).(lastRunTime := Some(runTime)) && stateFile == old(stateFile)
    {
      lastRunTime := Some(runTime);
    }

    method SetStateFile(path: string)
      modifies this
      ensures Current() == old(Current()) && stateFile == Some(path)
    {
      stateFile := Some(path);
    }

    /** The loop's i-th search, rate-limiting at the client's clock reading ticks(i). */
    method SearchNext(ticks: nat -> int, transport: string -> ArxivClient.Response, q: string, category: string, m: int,
                      ghost last0: int, i: nat)
      returns (r: Result<seq<Paper>, ArxivClient.ApiError>)
      requires apiClient.lastRequestTime == ClockAfter(apiClient.delay, last0, ticks, i)
      modifies apiClient
      ensures apiClient.lastRequestTime == ClockAfter(apiClient.delay, last0, ticks, i + 1)
      ensures r == SearchResult(transport, q, Some(category), m)
    {
      r := apiClient.Search(ticks(i), transport, q, Some(category), None, None, m, "relevance", "ascending");
    }

    /**
     * fetch_papers' loop over the categories, the k-th search rate-limiting at the
     * client's clock reading ticks(k).
     */
    method SearchCategories(ticks: nat -> int, transport: string -> ArxivClient.Response)
      returns (r: Result<seq<Paper>, ArxivClient.ApiError>)
      modifies apiClient
      ensures r == SearchEach(transport, query, categories, maxResults)
      ensures apiClient.lastRequestTime ==
        ClockAfter(apiClient.delay, old(apiClient.lastRequestTime), ticks, SearchesSent(transport, query, categories, maxResults))
    {
      var cats, q, m := categories, query, maxResults;
      ghost var last0, d := apiClient.lastRequestTime, apiClient.delay;
      r := Ok([]);
      var i := 0;
      while i < |cats| && r.Ok?
        invariant 0 <= i <= |cats|
        invariant r == SearchEach(transport, q, cats[..i], m)
        invariant r.Err? ==> 0 < i && SearchEach(transport, q, cats[..i - 1], m).Ok?
        invariant apiClient.lastRequestTime == ClockAfter(d, last0, ticks, i)
        decreases |cats| - i
      {
        var found := SearchNext(ticks, transport, q, cats[i], m, last0, i);
        SearchEachSnoc(transport, q, cats, i, m);
        r := Then(r, found);
        i := i + 1;
      }
      SearchesSentAt(transport, q, cats, i, m);
    }

    /**
     * fetch_papers, the k-th search rate-limiting at the client's clock reading ticks(k); a failure
     * is raised again with the fetch error prefix.
     */
    method FetchPapers(ticks: nat -> int, transport: string -> ArxivClient.Response) returns (r: Result<seq<Paper>, string>)
      modifies apiClient
      ensures r == Fetched(transport, query, categories, maxResults)
      ensures apiClient.lastRequestTime ==
        ClockAfter(apiClient.delay, old(apiClient.lastRequestTime), ticks, FetchSearches(transport, query, categories, maxResults))
    {
      var found;
      if categories == [] {
        found := apiClient.Search(ticks(0), transport, query, None, None, None, maxResults, "relevance", "ascending");
      } else {
        found := SearchCategories(ticks, transport);
      }
      r := if found.Err? then Err(FetchErrorPrefix + ErrorText(found.error)) else Ok(found.value);
    }

    /**
     * filter_new_papers: one get_paper_by_id per paper, on its short id, in order; the
     * ghost lookups are the ids looked up, which stop at a paper without an id.
     */
    method FilterNewPapers(papers: seq<Paper>) returns (r: Option<seq<Paper>>, ghost lookups: seq<string>)
      requires Valid()
      ensures r == NewPapers(db.State(), papers)
      ensures |lookups| <= |papers| && (r.Some? ==> |lookups| == |papers|)
      ensures forall i :: 0 <= i < |lookups| ==> papers[i].id.Some? && lookups[i] == ShortId(papers[i].id.value)
    {
      var unseen: seq<Paper> := [];
      var i := 0;
      while i < |papers|
        invariant 0 <= i <= |papers|
        invariant NewPapers(db.State(), papers[..i]) == Some(unseen)
        decreases |papers| - i
      {
        NewPapersSnoc(db.State(), papers, i);
        var p := papers[i];
        if p.id.None? {
          NewPapersMembers(db.State(), papers);
          lookups := LookedUp(db.State(), papers, i);
          return None, lookups;
        }
        var known := IsStored(p);
        if !known {
          unseen := unseen + [p];
        }
        i := i + 1;
      }
      assert papers[..i] == papers;
      lookups := LookedUp(db.State(), papers, i);
      r := Some(unseen);
    }

    /** The short ids looked up for the first n papers, which the filter got past. */
    ghost function LookedUp(db: Db, papers: seq<Paper>, n: nat): (ids: seq<string>)
      requires n <= |papers| && NewPapers(db, papers[..n]).Some?
      ensures |ids| == n
      ensures forall j :: 0 <= j < n ==> papers[j].id.Some? && ids[j] == ShortId(papers[j].id.value)
    {
      NewPapersDefined(db, papers[..n]);
      assert forall j :: 0 <= j < n ==> papers[..n][j] == papers[j];
      seq(n, j requires 0 <= j < n => ShortId(papers[j].id.value))
    }

    /** filter_new_papers' lookup: get_paper_by_id on the paper's short id finds a paper. */
    method IsStored(p: Paper) returns (known: bool)
      requires Valid() && p.id.Some?
      ensures known <==> Known(db.State(), p)
    {
      var arxivId := ShortId(p.id.value);
      var existing := db.GetPaperById(arxivId);
      ResolveShortId(db.State(), arxivId);
      known := existing.Some?;
    }

    /** store_papers: the store's own transaction. */
    method StorePapers(papers: seq<Paper>) returns (err: Option<StoreModel.StoreError>)
      requires Valid()
      modifies db
      ensures Valid()
      ensures StoreBatch(old(db.State()), papers).Err? ==>
        err == Some(StoreBatch(old(db.State()), papers).error) && db.State() == old(db.State())
      ensures StoreBatch(old(db.State()), papers).Ok? ==>
        err == None && db.State() == StoreBatch(old(db.State()), papers).value
    {
      err := db.StorePapers(papers);
    }

    /**
     * send_notifications: nothing is sent for an empty list or without a webhook;
     * otherwise the papers go out as blocks, and only a 200 answer is a success.
     */
    method SendNotifications(papers: seq<Paper>, deliver: (string, Slack.Payload) -> Option<int>)
      returns (ok: bool, sent: Option<Slack.Payload>)
      requires Slack.AllTitled(papers)
      ensures papers == [] || !Given(webhook) ==> !ok && sent.None?
      ensures papers != [] && Given(webhook) ==>
        sent == Some(Slack.BlocksPayload(Slack.PapersBlocks(notifier.CurrentStyle(), papers, None)))
      ensures ok <==> sent.Some? && deliver(webhook.value, sent.value) == Some(200)
    {
      if papers == [] || webhook.None? || webhook.value == "" {
        return false, None;
      }
      ok, sent := notifier.PostPapers(papers, webhook.value, true, None, PreMessage, "", deliver);
    }

    /** is_time_to_run at clock reading now. */
    function IsTimeToRun(now: DateTime): bool
      requires Persistable(Current()) && ValidDateTime(now)
      reads this
    {
      IsDue(lastRunTime, scheduleType, now)
    }

    /** save_state: nothing without a target; otherwise the target holds the snapshot. */
    method SaveState(path: Option<string>, files: Files) returns (files': Files)
      requires Persistable(Current())
      ensures Target(path, stateFile).None? ==> files' == files
      ensures Target(path, stateFile).Some? ==> files' == files[Target(path, stateFile).value := Document(Snapshot(Current()))]
    {
      var target := Target(path, stateFile);
      if target.None? {
        return files;
      }
      files' := files[target.value := Document(Snapshot(Current()))];
    }

    /** load_state: nothing without a target or when it does not exist. */
    method LoadState(path: Option<string>, files: Files)
      requires Persistable(Current())
      modifies this
      ensures Persistable(Current()) && stateFile == old(stateFile)
      ensures var target := Target(path, old(stateFile));
        Current() == if target.Some? && target.value in files then Loaded(old(Current()), files[target.value]) else old(Current())
    {
      var target := Target(path, stateFile);
      if target.None? || target.value !in files {
        return;
      }
      match files[target.value] {
        case Unreadable =>
        case Document(d) =>
          query := d.query.GetOr("");
          categories := d.categories.GetOr([]);
          maxResults := d.maxResults.GetOr(50);
          webhook := d.slackWebhook;
          scheduleType := d.scheduleType.GetOr("weekly");
          var text := d.lastRunTime;
          if text.Some? && text.value != "" {
            var t := ParseIsoformat(text.value);
            if t.Some? {
              lastRunTime := t;
            }
          } else {
            lastRunTime := None;
          }
      }
    }

    /** apply_arguments */
    method ApplyArguments(args: Arguments, files: Files)
      requires Persistable(Current())
      modifies this
      ensures Persistable(Current())
      ensures CurrentConfig() == Applied(old(CurrentConfig()), args, files)
    {
      ghost var c0 := CurrentConfig();
      if Given(args.query) {
        var split := if Given(args.categories) then Split(args.categories.value, ',') else [];
        var m := if args.maxResults.Some? then args.maxResults.value else maxResults;
        SetSearchParameters(args.query.value, Some(split), m);
      }
      assert Current() == WithSearch(c0.settings, args);
      if Given(args.webhook) {
        SetSlackWebhook(args.webhook.value);
      }
      ghost var c1 := CurrentConfig();
      assert c1 == c0.(settings := WithWebhook(WithSearch(c0.settings, args), args));
      if Given(args.stateFile) {
        SetStateFile(args.stateFile.value);
        LoadState(None, files);
      }
      assert CurrentConfig() == WithStateFile(c1, args, files);
      if Given(args.schedule) {
        SetSchedule(args.schedule.value);
      }
    }

    /**
     * run_harvest at clock readings now (datetime.now()) and ticks(k) (the client's clock
     * at its k-th search):
     * the last run time is set first; when the fetch and the filter succeed, the new
     * papers (if any) are stored and announced, and the state is saved when a state
     * file is set. Any failure ends the run with false, after the last run time and
     * whatever the store committed.
     */
    method RunHarvest(now: DateTime, ticks: nat -> int, transport: string -> ArxivClient.Response,
                      deliver: (string, Slack.Payload) -> Option<int>, files: Files)
      returns (ok: bool, files': Files, sent: Option<Slack.Payload>)
      requires Valid() && ValidDateTime(now)
      modifies this, db, apiClient
      ensures Valid()
      ensures Current() == old(Current()).(lastRunTime := Some(now)) && stateFile == old(stateFile)
      ensures var unseen := Harvested(old(db.State()), transport, old(query), old(categories), old(maxResults));
        && (ok <==> unseen.Some?)
        && (ok ==> db.State() == StoreAll(old(db.State()), unseen.value))
        && (!ok ==> db.State() == old(db.State()))
        && (ok && unseen.value != [] && Given(webhook) ==>
              sent == Some(Slack.BlocksPayload(Slack.PapersBlocks(notifier.CurrentStyle(), unseen.value, None))))
        && (!(ok && unseen.value != [] && Given(webhook)) ==> sent.None?)
        && (ok && Given(stateFile) ==> files' == files[stateFile.value := Document(Snapshot(Current()))])
        && (!(ok && Given(stateFile)) ==> files' == files)
      ensures apiClient.lastRequestTime == ClockAfter(apiClient.delay, old(apiClient.lastRequestTime), ticks,
                                                      FetchSearches(transport, old(query), old(categories), old(maxResults)))
    {
      files', sent := files, None;
      ghost var start := db.State();
      SetLastRunTime(now);
      var fetched := FetchPapers(ticks, transport);
      if fetched.Err? {
        return false, files', sent;
      }
      // Fetched papers all have ids (Harvested), so the filter's KeyError cannot occur here.
      var unseen, _ := FilterNewPapers(fetched.value);
      assert unseen == Harvested(start, transport, query, categories, maxResults);
      if unseen.value != [] {
        var _ := StorePapers(unseen.value);
        var _, posted := SendNotifications(unseen.value, deliver);
        sent := posted;
      } else {
        assert StoreAll(db.State(), []) == db.State();
      }
      if stateFile.Some? && stateFile.value != "" {
        files' := SaveState(stateFile, files);
      }
      ok := true;
    }

    /**
     * The command-line entry point after parsing: apply the arguments, then harvest when
     * forced or due.
     */
    method RunFromArguments(args: Arguments, now: DateTime, ticks: nat -> int, transport: string -> ArxivClient.Response,
                            deliver: (string, Slack.Payload) -> Option<int>, files: Files)
      returns (ran: bool, ok: bool, files': Files, sent: Option<Slack.Payload>)
      requires Valid() && ValidDateTime(now)
      modifies this, db, apiClient
      ensures Valid()
      ensures var c := Applied(old(CurrentConfig()), args, files);
        ran <==> args.forceRun || IsDue(c.settings.lastRunTime, c.settings.scheduleType, now)
      ensures !ran ==> !ok && files' == files && sent.None? && CurrentConfig() == Applied(old(CurrentConfig()), args, files)
      ensures !ran ==> db.State() == old(db.State()) && apiClient.lastRequestTime == old(apiClient.lastRequestTime)
      ensures ran ==>
        var c := Applied(old(CurrentConfig()), args, files);
        var s := c.settings;
        var unseen := Harvested(old(db.State()), transport, s.query, s.categories, s.maxResults);
        && CurrentConfig() == c.(settings := s.(lastRunTime := Some(now)))
        && (ok <==> unseen.Some?)
        && (ok ==> db.State() == StoreAll(old(db.State()), unseen.value))
        && (!ok ==> db.State() == old(db.State()))
        && (ok && unseen.value != [] && Given(s.webhook) ==>
              sent == Some(Slack.BlocksPayload(Slack.PapersBlocks(notifier.CurrentStyle(), unseen.value, None))))
        && (!(ok && unseen.value != [] && Given(s.webhook)) ==> sent.None?)
        && (ok && Given(c.stateFile) ==> files' == files[c.stateFile.value := Document(Snapshot(Current()))])
        && (!(ok && Given(c.stateFile)) ==> files' == files)
        && apiClient.lastRequestTime == ClockAfter(apiClient.delay, old(apiClient.lastRequestTime), ticks,
                                                   FetchSearches(transport, s.query, s.categories, s.maxResults))
    {
      ApplyArguments(args, files);
      ran := args.forceRun || IsTimeToRun(now);
      ok, files', sent := false, files, None;
      if ran {
        ok, files', sent := RunHarvest(now, ticks, transport, deliver, files);
      }
    }
  }
}
