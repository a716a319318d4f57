/**
 * DatabaseManager: the harvester's paper store. Its state is the three tables of
 * StoreModel; each method issues the statements of the corresponding Python method and is
 * proved to leave the tables as the StoreModel function of the old tables says, or to
 * return the rows the SELECT it issues selects, in that SELECT's order.
 */
module Store {
  import opened Wrappers
  import opened Strings
  import opened Dates
  import opened Papers
  import opened StoreModel
  import opened Listings

  /** A paper as the store hands it back: its row plus its author names in name order. */
  datatype StoredPaper = StoredPaper(row: Row, authors: seq<string>)

  /** The WHERE clauses of the store's SELECT statements on papers. */
  datatype Query =
    | AllPapers
    | PublishedBetween(start: string, end: string)
    | ByAuthor(name: string)
    | Keywords(title: Option<string>, summary: Option<string>)

  /** A keyword argument that counts (Python truthiness: neither None nor ''). */
  predicate Given(k: Option<string>) {
    k.Some? && k.value != ""
  }

  /** Whether a row of db satisfies the query's WHERE clause. */
  predicate Selects(db: Db, q: Query, r: Row) {
    match q
    case AllPapers => true
    case PublishedBetween(start, end) => LexLe(start, r.publishedDate) && LexLe(r.publishedDate, end)
    case ByAuthor(name) => name in db.authors && Link(r.id, db.authors[name]) in db.links
    case Keywords(title, summary) =>
      && (Given(title) ==> Like("%" + title.value + "%", r.title))
      && (Given(summary) ==> Like("%" + summary.value + "%", r.summary))
  }

  /** The rows a query selects. */
  function Pool(db: Db, q: Query): set<Row> {
    set k | k in db.papers && Selects(db, q, db.papers[k]) :: db.papers[k]
  }

  lemma PoolIdsDistinct(db: Db, q: Query)
    requires Consistent(db)
    ensures IdsDistinct(Pool(db, q))
  {
  }

  /** The rows of a query in the given order. */
  ghost function Answer(db: Db, q: Query, ascending: bool): seq<Row>
    requires Consistent(db)
  {
    PoolIdsDistinct(db, q);
    Listing(Pool(db, q), ascending)
  }

  /** out is rows, each with the names of its linked authors in name order. */
  ghost predicate Hydrated(db: Db, rows: seq<Row>, out: seq<StoredPaper>) {
    && |out| == |rows|
    && forall i :: 0 <= i < |rows| ==> out[i].row == rows[i] && IsNameListing(out[i].authors, LinkedNames(db, rows[i].id))
  }

  /** The sqlite3.OperationalError of an OFFSET without a LIMIT. */
  datatype QueryError = OffsetWithoutLimit

  /** The papers of one category. */
  function InCategory(db: Db, keys: set<string>, c: string): set<string> {
    set k | k in keys && k in db.papers && db.papers[k].category == Some(c)
  }

  /** The categories some paper among keys is filed under. */
  function CategoriesOf(db: Db, keys: set<string>): set<string> {
    set k | k in keys && k in db.papers && db.papers[k].category.Some? :: db.papers[k].category.value
  }

  class DatabaseManager {
    var papers: map<string, Row>
    var authors: map<string, int>
    var links: set<Link>
    var authorSeq: nat

    function State(): Db
      reads this
    {
      Db(papers, authors, links, authorSeq)
    }

    ghost predicate Valid()
      reads this
    {
      Consistent(State())
    }

    /** __init__ followed by initialize_database on a new database file. */
    constructor ()
      ensures Valid() && State() == EmptyDb
    {
      papers, authors, links, authorSeq := map[], map[], {}, 0;
    }

    /**
     * store_papers: all papers in one transaction. A paper without id or title raises
     * ValueError and rolls the whole batch back.
     */
    method StorePapers(batch: seq<Paper>) returns (err: Option<StoreError>)
      requires Valid()
      modifies this
      ensures Valid()
      ensures StoreBatch(old(State()), batch).Err? ==>
        err == Some(StoreBatch(old(State()), batch).error) && State() == old(State())
      ensures StoreBatch(old(State()), batch).Ok? ==>
        err == None && State() == StoreBatch(old(State()), batch).value
    {
      var saved := State();
      var i := 0;
      while i < |batch|
        invariant 0 <= i <= |batch|
        invariant forall j :: 0 <= j < i ==> HasRequiredFields(batch[j])
        invariant State() == StoreAll(saved, batch[..i])
        decreases |batch| - i
      {
        var p := batch[i];
        if !HasRequiredFields(p) {
          Restore(saved);
          StoreBatchFails(saved, batch, i);
          return Some(MissingRequiredFields(p));
        }
        StoreAllSnoc(saved, batch, i);
        StorePaper(p);
        i := i + 1;
      }
      assert batch[..i] == batch;
      StoreBatchSucceeds(saved, batch);
      err := None;
    }

    /** The transaction's rollback: the tables return to what they were at its start. */
    method Restore(saved: Db)
      modifies this
      ensures State() == saved
    {
      papers, authors, links, authorSeq := saved.papers, saved.authors, saved.links, saved.authorSeq;
    }

    /** The body of store_papers' loop for a paper that has an id and a title. */
    method StorePaper(p: Paper)
      requires HasRequiredFields(p)
      modifies this
      ensures State() == StoreOne(old(State()), p)
    {
      var fullId := p.id.value;
      var row := Row(fullId, ShortId(fullId), p.title.value, p.summary.GetOr(""),
                     p.publishedDate.GetOr(""), p.pdfUrl.GetOr(""), p.category);
      papers := Upsert(papers, row);
      if p.authors.Some? && |p.authors.value| > 0 {
        links := set l | l in links && l.paperId != fullId;
        LinkPaperAuthors(fullId, p.authors.value);
      }
    }

    /** The author loop of store_papers. */
    method LinkPaperAuthors(fullId: string, names: seq<string>)
      modifies this
      ensures State() == LinkAuthors(old(State()), fullId, names)
    {
      ghost var start := State();
      var j := 0;
      while j < |names|
        invariant 0 <= j <= |names|
        invariant State() == LinkAuthors(start, fullId, names[..j])
        decreases |names| - j
      {
        assert names[..j + 1][..j] == names[..j];
        var authorId := InsertAuthor(names[j]);
        links := links + {Link(fullId, authorId)};
        j := j + 1;
      }
      assert names[..j] == names;
    }

    /** _insert_author: INSERT OR IGNORE the name, then SELECT its id. */
    method InsertAuthor(name: string) returns (authorId: int)
      modifies this
      ensures State() == FindOrCreateAuthor(old(State()), name)
      ensures authorId == authors[name]
    {
      if name !in authors {
        authorSeq := authorSeq + 1;
        authors := authors[name := authorSeq];
      }
      authorId := authors[name];
    }

    /** _get_paper_authors: the names joined to a paper id, ORDER BY name. */
    method GetPaperAuthors(paperId: string) returns (names: seq<string>)
      ensures IsNameListing(names, LinkedNames(State(), paperId))
    {
      var joined := set n | n in authors && Link(paperId, authors[n]) in links;
      names := SortNames(joined);
    }

    /** The author loop every listing method runs over its rows. */
    method Hydrate(rows: seq<Row>) returns (out: seq<StoredPaper>)
      ensures Hydrated(State(), rows, out)
    {
      out := [];
      var i := 0;
      while i < |rows|
        invariant 0 <= i <= |rows|
        invariant Hydrated(State(), rows[..i], out)
        decreases |rows| - i
      {
        var names := GetPaperAuthors(rows[i].id);
        out := out + [StoredPaper(rows[i], names)];
        i := i + 1;
      }
      assert rows[..i] == rows;
    }

    /** SELECT * FROM papers WHERE ... ORDER BY published_date ASC|DESC */
    method Select(q: Query, ascending: bool) returns (rows: seq<Row>)
      requires Valid()
      ensures rows == Answer(State(), q, ascending)
    {
      var pool := set k | k in papers && Selects(State(), q, papers[k]) :: papers[k];
      PoolIdsDistinct(State(), q);
      rows := SortRows(pool, ascending);
    }

    /**
     * get_papers ordered by published_date: LIMIT only when a limit is given, OFFSET only
     * when the offset is positive; an OFFSET without a LIMIT is an SQL syntax error.
     */
    method GetPapers(limit: Option<int>, offset: int, ascending: bool) returns (r: Result<seq<StoredPaper>, QueryError>)
      requires Valid()
      ensures limit.None? && offset > 0 ==> r == Err(OffsetWithoutLimit)
      ensures limit.Some? || offset <= 0 ==>
        r.Ok? && Hydrated(State(), Window(Answer(State(), AllPapers, ascending), limit, offset), r.value)
    {
      if limit.None? && offset > 0 {
        return Err(OffsetWithoutLimit);
      }
      var rows := Select(AllPapers, ascending);
      rows := ApplyWindow(rows, limit, offset);
      var out := Hydrate(rows);
      r := Ok(out);
    }

    /** get_all_papers: every paper, oldest first. */
    method GetAllPapers() returns (out: seq<StoredPaper>)
      requires Valid()
      ensures Hydrated(State(), Answer(State(), AllPapers, true), out)
    {
      var r := GetPapers(None, 0, true);
      out := r.value;
    }

    /** get_recent_papers: the newest limit papers (10 by default in the source). */
    method GetRecentPapers(limit: int) returns (out: seq<StoredPaper>)
      requires Valid()
      ensures Hydrated(State(), Window(Answer(State(), AllPapers, false), Some(limit), 0), out)
    {
      var r := GetPapers(Some(limit), 0, false);
      out := r.value;
    }

    /** get_paper_by_id: by short id, else by "http://arxiv.org/abs/" + id. */
    method GetPaperById(x: string) returns (r: Option<StoredPaper>)
      requires Valid()
      ensures r.None? <==> Resolve(State(), x).None?
      ensures r.Some? ==> r.value.row == papers[Resolve(State(), x).value]
      ensures r.Some? ==> IsNameListing(r.value.authors, LinkedNames(State(), r.value.row.id))
    {
      var byShort := FindByArxivId(State(), x);
      var fullId: string;
      if byShort.Some? {
        fullId := byShort.value;
      } else {
        fullId := AbsUrlPrefix + x;
        if fullId !in papers {
          return None;
        }
      }
      var row := papers[fullId];
      var names := GetPaperAuthors(row.id);
      r := Some(StoredPaper(row, names));
    }

    /** get_papers_by_date_range: both ends rendered "%Y-%m-%dT%H:%M:%S", inclusive, newest first. */
    method GetPapersByDateRange(start: DateTime, end: DateTime) returns (out: seq<StoredPaper>)
      requires Valid() && ValidDateTime(start) && ValidDateTime(end)
      ensures Hydrated(State(), Answer(State(), PublishedBetween(FormatIsoSeconds(start), FormatIsoSeconds(end)), false), out)
    {
      var rows := Select(PublishedBetween(FormatIsoSeconds(start), FormatIsoSeconds(end)), false);
      out := Hydrate(rows);
    }

    /** get_papers_by_author: the papers joined to the named author, newest first. */
    method GetPapersByAuthor(name: string) returns (out: seq<StoredPaper>)
      requires Valid()
      ensures Hydrated(State(), Answer(State(), ByAuthor(name), false), out)
    {
      var rows := Select(ByAuthor(name), false);
      out := Hydrate(rows);
    }

    /** search_papers: title LIKE '%k%' and/or summary LIKE '%k%', newest first. */
    method SearchPapers(title: Option<string>, summary: Option<string>) returns (out: seq<StoredPaper>)
      requires Valid()
      ensures Hydrated(State(), Answer(State(), Keywords(title, summary), false), out)
    {
      var rows := Select(Keywords(title, summary), false);
      out := Hydrate(rows);
    }

    /**
     * delete_paper: resolve the id, delete the join rows and the row, then prune orphaned
     * authors; the result is whether that last statement deleted anything.
     */
    method DeletePaper(x: string) returns (result: bool)
      requires Valid()
      modifies this
      ensures Valid()
      ensures (State(), result) == Delete(old(State()), x)
    {
      ghost var before := State();
      var byShort := FindByArxivId(State(), x);
      var fullId: string;
      if byShort.Some? {
        fullId := byShort.value;
      } else {
        fullId := AbsUrlPrefix + x;
        if fullId !in papers {
          return false;
        }
      }
      assert Resolve(before, x) == Some(fullId);
      DeleteResolved(before, x, fullId);
      result := RemoveResolved(fullId);
    }

    /** The three DELETE statements of delete_paper once the id has resolved to a stored paper. */
    method RemoveResolved(fullId: string) returns (result: bool)
      requires Valid() && fullId in papers
      modifies this
      ensures State() == PruneOrphans(RemovePaper(old(State()), fullId))
      ensures result == (|Orphans(RemovePaper(old(State()), fullId))| > 0)
    {
      ghost var before := State();
      links := set l | l in links && l.paperId != fullId;
      papers := papers - {fullId};
      assert State() == RemovePaper(before, fullId);
      result := PruneOrphanAuthors();
    }

    /** The orphan delete of delete_paper; the result is whether it deleted any row. */
    method PruneOrphanAuthors() returns (deleted: bool)
      modifies this
      ensures State() == PruneOrphans(old(State()))
      ensures deleted == (|Orphans(old(State()))| > 0)
    {
      var orphans := set n | n in authors && authors[n] !in LinkedAuthorIds(links);
      authors := map n | n in authors && authors[n] in LinkedAuthorIds(links) :: authors[n];
      deleted := |orphans| > 0;
    }

    /** count_papers_by_category: the number of papers filed under each non-NULL category. */
    method CountPapersByCategory() returns (counts: map<string, nat>)
      ensures Tally(State(), papers.Keys, counts)
    {
      counts := map[];
      var todo := papers.Keys;
      ghost var done: set<string> := {};
      while todo != {}
        invariant todo !! done && todo + done == papers.Keys
        invariant Tally(State(), done, counts)
        decreases |todo|
      {
        var k :| k in todo;
        TallyStep(State(), done, k, counts);
        counts := Counted(counts, papers[k].category);
        todo := todo - {k};
        done := done + {k};
      }
    }
  }

  /** counts holds, for each category some paper among keys is filed under, how many are. */
  ghost predicate Tally(db: Db, keys: set<string>, counts: map<string, nat>) {
    && counts.Keys == CategoriesOf(db, keys)
    && forall c :: c in counts ==> counts[c] == |InCategory(db, keys, c)|
  }

  /**
   * The rows a keyword search returns are exactly the stored rows whose title (and
   * summary) contain each given wildcard-free keyword, ignoring ASCII case.
   */
  lemma KeywordSearchFinds(db: Db, title: Option<string>, summary: Option<string>, r: Row)
    requires Consistent(db)
    requires Given(title) ==> WildcardFree(title.value)
    requires Given(summary) ==> WildcardFree(summary.value)
    ensures r in Answer(db, Keywords(title, summary), false) <==>
      && r in db.papers.Values
      && (Given(title) ==> ContainsFolded(title.value, r.title))
      && (Given(summary) ==> ContainsFolded(summary.value, r.summary))
  {
    if Given(title) {
      LikeInfixIff(title.value, r.title);
    }
    if Given(summary) {
      LikeInfixIff(summary.value, r.summary);
    }
    if r in db.papers.Values {
      var k :| k in db.papers && db.papers[k] == r;
      assert Selects(db, Keywords(title, summary), r) ==> r in Pool(db, Keywords(title, summary));
    }
  }

  /** One more paper of the given category in the count. */
  function Counted(counts: map<string, nat>, category: Option<string>): map<string, nat> {
    if category.None? then counts
    else
      var c := category.value;
      counts[c := if c in counts then counts[c] + 1 else 1]
  }

  /** Counting one more paper keeps the tally. */
  lemma TallyStep(db: Db, done: set<string>, k: string, counts: map<string, nat>)
    requires k in db.papers && k !in done
    requires Tally(db, done, counts)
    ensures Tally(db, done + {k}, Counted(counts, db.papers[k].category))
  {
    var category := db.papers[k].category;
    var next := Counted(counts, category);
    CategoriesStep(db, done, k);
    forall c | c in next ensures next[c] == |InCategory(db, done + {k}, c)| {
      InCategoryStep(db, done, k, c);
      if category == Some(c) && c !in counts {
        EmptyCategory(db, done, c);
      }
    }
  }

  lemma CategoriesStep(db: Db, done: set<string>, k: string)
    requires k in db.papers
    ensures CategoriesOf(db, done + {k}) ==
      CategoriesOf(db, done) + (if db.papers[k].category.Some? then {db.papers[k].category.value} else {})
  {
  }

  lemma InCategoryStep(db: Db, done: set<string>, k: string, c: string)
    requires k in db.papers && k !in done
    ensures |InCategory(db, done + {k}, c)| ==
      |InCategory(db, done, c)| + (if db.papers[k].category == Some(c) then 1 else 0)
  {
    if db.papers[k].category == Some(c) {
      assert InCategory(db, done + {k}, c) == InCategory(db, done, c) + {k};
    } else {
      assert InCategory(db, done + {k}, c) == InCategory(db, done, c);
    }
  }

  /** A category no paper among keys is filed under has no papers among keys. */
  lemma EmptyCategory(db: Db, keys: set<string>, c: string)
    requires c !in CategoriesOf(db, keys)
    ensures InCategory(db, keys, c) == {}
  {
    forall k | k in keys && k in db.papers && db.papers[k].category.Some?
      ensures db.papers[k].category.value in CategoriesOf(db, keys)
    {
    }
  }

  /** LIMIT/OFFSET applied to the selected rows. */
  method ApplyWindow(rows: seq<Row>, limit: Option<int>, offset: int) returns (page: seq<Row>)
    ensures page == Window(rows, limit, offset)
  {
    var start := if offset > 0 then offset else 0;
    page := if start <= |rows| then rows[start..] else [];
    if limit.Some? && 0 <= limit.value < |page| {
      page := page[..limit.value];
    }
  }
}
