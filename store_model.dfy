/**
 * The three tables of the paper store (papers, authors, paper_authors) as one value,
 * and the effect of each SQL statement the store issues as a function on that value.
 * Timestamps (created_at, updated_at) are not modelled.
 */
module StoreModel {
  import opened Wrappers
  import opened Papers

  /** A row of the papers table. */
  datatype Row = Row(
    id: string,
    arxivId: string,
    title: string,
    summary: string,
    publishedDate: string,
    pdfUrl: string,
    category: Option<string>)

  /** A row of paper_authors. */
  datatype Link = Link(paperId: string, authorId: int)

  /**
   * The store: papers keyed by full identifier, authors as name -> id (names are UNIQUE,
   * so the authors table is a function of the name), the join rows, and the largest
   * author id AUTOINCREMENT has handed out.
   */
  datatype Db = Db(papers: map<string, Row>, authors: map<string, int>, links: set<Link>, authorSeq: nat)

  /** Freshly initialised tables. */
  const EmptyDb := Db(map[], map[], {}, 0)

  /** The author ids the join table refers to. */
  function LinkedAuthorIds(links: set<Link>): set<int> {
    set l | l in links :: l.authorId
  }

  /** Rows are keyed by their id and carry the short id derived from it. */
  ghost predicate RowsKeyed(papers: map<string, Row>) {
    forall k :: k in papers ==> papers[k].id == k && papers[k].arxivId == ShortId(k)
  }

  /** The arxiv_id column is UNIQUE. */
  ghost predicate ShortIdsUnique(papers: map<string, Row>) {
    forall k1, k2 :: k1 in papers && k2 in papers && k1 != k2 ==> papers[k1].arxivId != papers[k2].arxivId
  }

  /** Author ids are ones AUTOINCREMENT has handed out. */
  ghost predicate AuthorIdsIssued(authors: map<string, int>, authorSeq: nat) {
    forall n :: n in authors ==> 1 <= authors[n] <= authorSeq
  }

  /** The author id is the primary key. */
  ghost predicate AuthorIdsDistinct(authors: map<string, int>) {
    forall n1, n2 :: n1 in authors && n2 in authors && n1 != n2 ==> authors[n1] != authors[n2]
  }

  /**
   * Every join row names an existing author. Join rows may name a paper that no longer
   * exists: foreign keys are never switched on, so nothing cascades.
   */
  ghost predicate LinksResolve(links: set<Link>, authors: map<string, int>) {
    forall l :: l in links ==> l.authorId in authors.Values
  }

  /** What the schema and the store's statements keep true. */
  ghost predicate Consistent(db: Db) {
    && RowsKeyed(db.papers)
    && ShortIdsUnique(db.papers)
    && AuthorIdsIssued(db.authors, db.authorSeq)
    && AuthorIdsDistinct(db.authors)
    && LinksResolve(db.links, db.authors)
  }

  lemma EmptyDbConsistent()
    ensures Consistent(EmptyDb)
  {
  }

  /** The short ids present in the papers table. */
  function ArxivIds(db: Db): set<string> {
    ShortIdsOf(db.papers)
  }

  function ShortIdsOf(papers: map<string, Row>): set<string> {
    set k | k in papers :: papers[k].arxivId
  }

  /** The names of the authors linked to a paper id. */
  function LinkedNames(db: Db, paperId: string): set<string> {
    set n | n in db.authors && Link(paperId, db.authors[n]) in db.links
  }

  /** The elements of a sequence, as a set. */
  function Elems<T>(s: seq<T>): set<T> {
    set i | 0 <= i < |s| :: s[i]
  }

  lemma ElemsSnoc<T>(s: seq<T>)
    requires |s| > 0
    ensures Elems(s) == Elems(s[..|s| - 1]) + {s[|s| - 1]}
  {
    assert forall i :: 0 <= i < |s| - 1 ==> s[..|s| - 1][i] == s[i];
  }

  // ---------------------------------------------------------------- store_papers

  /** The row store_papers writes for a paper: optional fields default to '' and category to NULL. */
  function MakeRow(p: Paper): (r: Row)
    requires HasRequiredFields(p)
    ensures r.id == p.id.value && r.arxivId == ShortId(p.id.value) && r.title == p.title.value
    ensures r.summary == p.summary.GetOr("") && r.publishedDate == p.publishedDate.GetOr("")
    ensures r.pdfUrl == p.pdfUrl.GetOr("") && r.category == p.category
  {
    Row(p.id.value, ShortId(p.id.value), p.title.value, p.summary.GetOr(""),
        p.publishedDate.GetOr(""), p.pdfUrl.GetOr(""), p.category)
  }

  /**
   * INSERT OR REPLACE INTO papers: every row that clashes with the new one on the primary
   * key or on the UNIQUE arxiv_id column is deleted, then the new row is inserted.
   */
  function Upsert(papers: map<string, Row>, row: Row): (r: map<string, Row>)
    ensures row.id in r && r[row.id] == row
    ensures forall k :: k in r && k != row.id ==> k in papers && r[k] == papers[k] && papers[k].arxivId != row.arxivId
    ensures forall k :: k in papers && k != row.id && papers[k].arxivId != row.arxivId ==> k in r
  {
    (map k | k in papers && k != row.id && papers[k].arxivId != row.arxivId :: papers[k])[row.id := row]
  }

  /** INSERT OR REPLACE keeps rows keyed and short ids unique. */
  lemma UpsertConsistent(papers: map<string, Row>, row: Row)
    requires RowsKeyed(papers) && ShortIdsUnique(papers) && row.arxivId == ShortId(row.id)
    ensures RowsKeyed(Upsert(papers, row)) && ShortIdsUnique(Upsert(papers, row))
  {
    UpsertKeyed(papers, row);
    UpsertShortIdsUnique(papers, row);
  }

  lemma UpsertKeyed(papers: map<string, Row>, row: Row)
    requires RowsKeyed(papers) && row.arxivId == ShortId(row.id)
    ensures RowsKeyed(Upsert(papers, row))
  {
    var r := Upsert(papers, row);
    forall k | k in r ensures r[k].id == k && r[k].arxivId == ShortId(k) {
      if k != row.id {
        assert r[k] == papers[k];
      }
    }
  }

  lemma UpsertShortIdsUnique(papers: map<string, Row>, row: Row)
    requires ShortIdsUnique(papers)
    ensures ShortIdsUnique(Upsert(papers, row))
  {
  }

  /**
   * INSERT OR IGNORE INTO authors (name): a new name gets the next AUTOINCREMENT id;
   * a known name keeps its row.
   */
  function FindOrCreateAuthor(db: Db, name: string): (r: Db)
    ensures r.papers == db.papers && r.links == db.links
    ensures r.authors.Keys == db.authors.Keys + {name}
    ensures forall n :: n in db.authors ==> r.authors[n] == db.authors[n]
    ensures name in db.authors ==> r == db
    ensures name !in db.authors ==> r.authors[name] == r.authorSeq == db.authorSeq + 1
  {
    if name in db.authors then db
    else db.(authors := db.authors[name := db.authorSeq + 1], authorSeq := db.authorSeq + 1)
  }

  /** Looking an author up twice hands out the same row: find-or-create is idempotent. */
  lemma FindOrCreateAuthorIdempotent(db: Db, name: string)
    ensures FindOrCreateAuthor(FindOrCreateAuthor(db, name), name) == FindOrCreateAuthor(db, name)
  {
  }

  /** A fresh AUTOINCREMENT id is referred to by no join row. */
  lemma FreshIdUnlinked(db: Db)
    requires AuthorIdsIssued(db.authors, db.authorSeq) && LinksResolve(db.links, db.authors)
    ensures db.authorSeq + 1 !in LinkedAuthorIds(db.links)
  {
    forall l | l in db.links ensures l.authorId <= db.authorSeq {
      var n :| n in db.authors && db.authors[n] == l.authorId;
    }
  }

  lemma FindOrCreateAuthorConsistent(db: Db, name: string)
    requires Consistent(db)
    ensures Consistent(FindOrCreateAuthor(db, name))
  {
    var r := FindOrCreateAuthor(db, name);
    if name !in db.authors {
      assert AuthorIdsIssued(r.authors, r.authorSeq) by {
        forall n | n in r.authors ensures 1 <= r.authors[n] <= r.authorSeq {
          if n != name {
            assert r.authors[n] == db.authors[n];
          }
        }
      }
      assert AuthorIdsDistinct(r.authors) by {
        forall n1, n2 | n1 in r.authors && n2 in r.authors && n1 != n2
          ensures r.authors[n1] != r.authors[n2]
        {
          if n1 != name && n2 != name {
            assert r.authors[n1] == db.authors[n1] && r.authors[n2] == db.authors[n2];
          } else if n1 != name {
            assert r.authors[n1] == db.authors[n1] <= db.authorSeq;
          } else {
            assert r.authors[n2] == db.authors[n2] <= db.authorSeq;
          }
        }
      }
      assert LinksResolve(r.links, r.authors) by {
        forall l | l in r.links ensures l.authorId in r.authors.Values {
          var n :| n in db.authors && db.authors[n] == l.authorId;
          assert r.authors[n] == l.authorId;
        }
      }
    }
  }

  /** One iteration of the author loop: find or create the author, then link it. */
  function LinkOne(db: Db, paperId: string, name: string): Db {
    var d := FindOrCreateAuthor(db, name);
    d.(links := d.links + {Link(paperId, d.authors[name])})
  }

  /**
   * The author loop of store_papers: for each name in turn, find or create the author and
   * INSERT OR IGNORE the join row (paperId, author id).
   */
  function LinkAuthors(db: Db, paperId: string, names: seq<string>): (r: Db)
    ensures r.papers == db.papers
    ensures r.authors.Keys == db.authors.Keys + Elems(names)
    ensures forall n :: n in db.authors ==> r.authors[n] == db.authors[n]
    ensures db.links <= r.links
    ensures forall l :: l in r.links && l.paperId != paperId ==> l in db.links
    decreases |names|
  {
    if names == [] then db
    else
      ElemsSnoc(names);
      LinkOne(LinkAuthors(db, paperId, names[..|names| - 1]), paperId, names[|names| - 1])
  }

  /** One step of the author loop adds exactly the one name to the paper's linked names. */
  lemma LinkOneSound(d: Db, paperId: string, name: string)
    requires Consistent(d)
    ensures Consistent(LinkOne(d, paperId, name))
    ensures LinkedNames(LinkOne(d, paperId, name), paperId) == LinkedNames(d, paperId) + {name}
  {
    var d' := FindOrCreateAuthor(d, name);
    var r := LinkOne(d, paperId, name);
    FindOrCreateAuthorConsistent(d, name);
    FreshIdUnlinked(d);
    assert d'.authors[name] in d'.authors.Values;
    assert LinkedNames(d', paperId) == LinkedNames(d, paperId) by {
      if name !in d.authors {
        assert Link(paperId, d.authorSeq + 1) !in d.links;
      }
    }
    forall n | n in LinkedNames(r, paperId) && n != name
      ensures n in LinkedNames(d', paperId)
    {
      assert d'.authors[n] != d'.authors[name];
    }
  }

  /** The whole author loop links exactly the listed names, on top of the existing links. */
  lemma {:induction false} LinkAuthorsSound(db: Db, paperId: string, names: seq<string>)
    requires Consistent(db)
    ensures Consistent(LinkAuthors(db, paperId, names))
    ensures LinkedNames(LinkAuthors(db, paperId, names), paperId) == LinkedNames(db, paperId) + Elems(names)
    decreases |names|
  {
    if names != [] {
      var init := names[..|names| - 1];
      LinkAuthorsSound(db, paperId, init);
      LinkOneSound(LinkAuthors(db, paperId, init), paperId, names[|names| - 1]);
      ElemsSnoc(names);
    }
  }

  /** DELETE FROM paper_authors WHERE paper_id = ? */
  function UnlinkPaper(db: Db, paperId: string): (r: Db)
    ensures r.papers == db.papers && r.authors == db.authors && r.authorSeq == db.authorSeq
    ensures forall l :: l in r.links <==> l in db.links && l.paperId != paperId
  {
    db.(links := set l | l in db.links && l.paperId != paperId)
  }

  /** A paper whose dictionary carries a non-empty author list. */
  predicate HasAuthors(p: Paper) {
    p.authors.Some? && |p.authors.value| > 0
  }

  /**
   * The effect of store_papers on one paper that has an id and a title: upsert its row
   * and, only when it carries a non-empty author list, replace its join rows.
   */
  function StoreOne(db: Db, p: Paper): (r: Db)
    requires HasRequiredFields(p)
    ensures r.papers == Upsert(db.papers, MakeRow(p))
    ensures !HasAuthors(p) ==> r.authors == db.authors && r.links == db.links
    ensures db.authors.Keys <= r.authors.Keys
    ensures forall l: Link :: l.paperId != p.id.value ==> (l in r.links <==> l in db.links)
  {
    var d := db.(papers := Upsert(db.papers, MakeRow(p)));
    if HasAuthors(p) then LinkAuthors(UnlinkPaper(d, p.id.value), p.id.value, p.authors.value) else d
  }

  /**
   * Storing a paper keeps the store consistent, and a non-empty author list becomes
   * exactly the paper's set of linked authors.
   */
  lemma StoreOneSound(db: Db, p: Paper)
    requires Consistent(db) && HasRequiredFields(p)
    ensures Consistent(StoreOne(db, p))
    ensures HasAuthors(p) ==> LinkedNames(StoreOne(db, p), p.id.value) == Elems(p.authors.value)
  {
    if HasAuthors(p) {
      StoreWithAuthors(db, p);
    } else {
      StoreWithoutAuthors(db, p);
    }
  }

  lemma StoreWithAuthors(db: Db, p: Paper)
    requires Consistent(db) && HasRequiredFields(p) && HasAuthors(p)
    ensures Consistent(StoreOne(db, p))
    ensures LinkedNames(StoreOne(db, p), p.id.value) == Elems(p.authors.value)
  {
    var row := MakeRow(p);
    var cleared := UnlinkPaper(db.(papers := Upsert(db.papers, row)), row.id);
    ClearedConsistent(db, row);
    LinkAuthorsSound(cleared, row.id, p.authors.value);
    assert StoreOne(db, p) == LinkAuthors(cleared, row.id, p.authors.value);
  }

  /** Upserting the row and clearing its join rows leaves a consistent store with no authors for it. */
  lemma ClearedConsistent(db: Db, row: Row)
    requires Consistent(db) && row.arxivId == ShortId(row.id)
    ensures Consistent(UnlinkPaper(db.(papers := Upsert(db.papers, row)), row.id))
    ensures LinkedNames(UnlinkPaper(db.(papers := Upsert(db.papers, row)), row.id), row.id) == {}
  {
    UpsertRowConsistent(db, row);
    UnlinkPaperConsistent(db.(papers := Upsert(db.papers, row)), row.id);
  }

  lemma StoreWithoutAuthors(db: Db, p: Paper)
    requires Consistent(db) && HasRequiredFields(p) && !HasAuthors(p)
    ensures Consistent(StoreOne(db, p))
  {
    var row := MakeRow(p);
    UpsertRowConsistent(db, row);
    assert StoreOne(db, p) == db.(papers := Upsert(db.papers, row));
  }

  /** The row written by INSERT OR REPLACE leaves the store consistent. */
  lemma UpsertRowConsistent(db: Db, row: Row)
    requires Consistent(db) && row.arxivId == ShortId(row.id)
    ensures Consistent(db.(papers := Upsert(db.papers, row)))
  {
    UpsertConsistent(db.papers, row);
  }

  /** Clearing a paper's join rows leaves the store consistent and the paper with no authors. */
  lemma UnlinkPaperConsistent(db: Db, paperId: string)
    requires Consistent(db)
    ensures Consistent(UnlinkPaper(db, paperId))
    ensures LinkedNames(UnlinkPaper(db, paperId), paperId) == {}
  {
  }

  /** Storing a paper never loses a short id and always adds the paper's own. */
  lemma StoreOneArxivIds(db: Db, p: Paper)
    requires Consistent(db) && HasRequiredFields(p)
    ensures ArxivIds(StoreOne(db, p)) == ArxivIds(db) + {ShortId(p.id.value)}
  {
    UpsertShortIds(db.papers, MakeRow(p));
  }

  /** INSERT OR REPLACE never loses a short id and always adds the new row's. */
  lemma UpsertShortIds(papers: map<string, Row>, row: Row)
    requires RowsKeyed(papers) && row.arxivId == ShortId(row.id)
    ensures ShortIdsOf(Upsert(papers, row)) == ShortIdsOf(papers) + {row.arxivId}
  {
    var r := Upsert(papers, row);
    forall x | x in ShortIdsOf(papers) ensures x in ShortIdsOf(r) {
      var k :| k in papers && papers[k].arxivId == x;
      if x != row.arxivId && k != row.id {
        assert k in r && r[k] == papers[k];
      }
    }
  }

  /** Re-storing a paper whose full id is already present never changes the number of rows. */
  lemma StoreExistingKeepsRowCount(db: Db, p: Paper)
    requires Consistent(db) && HasRequiredFields(p) && p.id.value in db.papers
    ensures StoreOne(db, p).papers.Keys == db.papers.Keys
    ensures |StoreOne(db, p).papers| == |db.papers|
  {
    var r := StoreOne(db, p);
    var full := p.id.value;
    forall k | k in db.papers ensures k in r.papers {
      if k != full {
        assert db.papers[k].arxivId != db.papers[full].arxivId;
      }
    }
    assert r.papers.Keys == db.papers.Keys;
  }

  /** A paper whose short id matches a different stored paper's displaces that paper's row. */
  lemma StoreDisplacesSameShortId(db: Db, p: Paper, other: string)
    requires HasRequiredFields(p) && other in db.papers && other != p.id.value
    requires db.papers[other].arxivId == ShortId(p.id.value)
    ensures other !in StoreOne(db, p).papers
  {
  }

  /** store_papers applied to a batch of papers that all have an id and a title, in order. */
  function StoreAll(db: Db, batch: seq<Paper>): (r: Db)
    requires forall i :: 0 <= i < |batch| ==> HasRequiredFields(batch[i])
    decreases |batch|
  {
    if batch == [] then db
    else StoreOne(StoreAll(db, batch[..|batch| - 1]), batch[|batch| - 1])
  }

  /** One more paper of the batch is one more StoreOne. */
  lemma StoreAllSnoc(db: Db, batch: seq<Paper>, i: nat)
    requires i < |batch|
    requires forall j :: 0 <= j <= i ==> HasRequiredFields(batch[j])
    ensures StoreAll(db, batch[..i + 1]) == StoreOne(StoreAll(db, batch[..i]), batch[i])
  {
    assert batch[..i + 1][..i] == batch[..i];
  }

  /** Storing a batch keeps the store consistent. */
  lemma {:induction false} StoreAllConsistent(db: Db, batch: seq<Paper>)
    requires Consistent(db)
    requires forall i :: 0 <= i < |batch| ==> HasRequiredFields(batch[i])
    ensures Consistent(StoreAll(db, batch))
    decreases |batch|
  {
    if batch != [] {
      var init := batch[..|batch| - 1];
      assert forall i :: 0 <= i < |init| ==> init[i] == batch[i];
      StoreAllConsistent(db, init);
      StoreOneSound(StoreAll(db, init), batch[|batch| - 1]);
    }
  }

  /** The short ids of a batch of papers that all have an id. */
  function BatchShortIds(batch: seq<Paper>): set<string>
    requires forall i :: 0 <= i < |batch| ==> HasRequiredFields(batch[i])
    decreases |batch|
  {
    if batch == [] then {}
    else
      var last := batch[|batch| - 1];
      assert HasRequiredFields(last);
      BatchShortIds(batch[..|batch| - 1]) + {ShortId(last.id.value)}
  }

  lemma {:induction false} BatchShortIdsHasEach(batch: seq<Paper>)
    requires forall i :: 0 <= i < |batch| ==> HasRequiredFields(batch[i])
    ensures forall i :: 0 <= i < |batch| ==> HasRequiredFields(batch[i]) && ShortId(batch[i].id.value) in BatchShortIds(batch)
    decreases |batch|
  {
    if batch != [] {
      var init := batch[..|batch| - 1];
      assert forall i :: 0 <= i < |init| ==> init[i] == batch[i];
      BatchShortIdsHasEach(init);
    }
  }

  /** The short ids after storing a batch are exactly the old ones and the batch's. */
  lemma {:induction false} StoreAllArxivIds(db: Db, batch: seq<Paper>)
    requires Consistent(db)
    requires forall i :: 0 <= i < |batch| ==> HasRequiredFields(batch[i])
    ensures ArxivIds(StoreAll(db, batch)) == ArxivIds(db) + BatchShortIds(batch)
    decreases |batch|
  {
    if batch != [] {
      var init := batch[..|batch| - 1];
      assert forall i :: 0 <= i < |init| ==> init[i] == batch[i];
      StoreAllArxivIds(db, init);
      StoreAllConsistent(db, init);
      StoreOneArxivIds(StoreAll(db, init), batch[|batch| - 1]);
    }
  }

  /** The position of the first paper lacking an id or a title. */
  function FirstIncomplete(batch: seq<Paper>): (r: Option<nat>)
    ensures r.None? ==> forall i :: 0 <= i < |batch| ==> HasRequiredFields(batch[i])
    ensures r.Some? ==> r.value < |batch| && !HasRequiredFields(batch[r.value])
    ensures r.Some? ==> forall i :: 0 <= i < r.value ==> HasRequiredFields(batch[i])
  {
    if batch == [] then None
    else if !HasRequiredFields(batch[0]) then Some(0)
    else
      var r := FirstIncomplete(batch[1..]);
      if r.None? then None
      else
        assert forall i :: 1 <= i <= r.value ==> batch[i] == batch[1..][i - 1];
        Some(r.value + 1)
  }

  /** The ValueError store_papers raises: "Missing required fields in paper data: ...". */
  datatype StoreError = MissingRequiredFields(paper: Paper)

  /**
   * store_papers as one transaction: the first paper without id or title aborts the whole
   * batch and leaves the store as it was; otherwise every paper is applied in order.
   */
  function StoreBatch(db: Db, batch: seq<Paper>): (r: Result<Db, StoreError>)
    ensures r.Err? <==> exists i :: 0 <= i < |batch| && !HasRequiredFields(batch[i])
    ensures r.Err? ==> r.error.paper in batch && !HasRequiredFields(r.error.paper)
  {
    var bad := FirstIncomplete(batch);
    if bad.Some? then Err(MissingRequiredFields(batch[bad.value])) else Ok(StoreAll(db, batch))
  }

  /** A batch whose i-th paper is the first without id or title fails on that paper. */
  lemma StoreBatchFails(db: Db, batch: seq<Paper>, i: nat)
    requires i < |batch| && !HasRequiredFields(batch[i])
    requires forall j :: 0 <= j < i ==> HasRequiredFields(batch[j])
    ensures StoreBatch(db, batch) == Err(MissingRequiredFields(batch[i]))
  {
    assert FirstIncomplete(batch) == Some(i);
  }

  /** A batch of complete papers is stored in order and leaves the store consistent. */
  lemma StoreBatchSucceeds(db: Db, batch: seq<Paper>)
    requires Consistent(db)
    requires forall j :: 0 <= j < |batch| ==> HasRequiredFields(batch[j])
    ensures StoreBatch(db, batch) == Ok(StoreAll(db, batch))
    ensures Consistent(StoreAll(db, batch))
  {
    assert FirstIncomplete(batch) == None;
    StoreAllConsistent(db, batch);
  }

  // ---------------------------------------------------------------- lookups

  /** SELECT id FROM papers WHERE arxiv_id = ? (the column is UNIQUE, so at most one row). */
  function FindByArxivId(db: Db, x: string): (r: Option<string>)
    requires Consistent(db)
    ensures r.Some? <==> x in ArxivIds(db)
    ensures r.Some? ==> r.value in db.papers && db.papers[r.value].arxivId == x
  {
    if exists k :: k in db.papers && db.papers[k].arxivId == x then
      var k :| k in db.papers && db.papers[k].arxivId == x;
      Some(k)
    else None
  }

  /**
   * The two-step lookup of get_paper_by_id and delete_paper: first by short id, then by
   * the full URL "http://arxiv.org/abs/" + x.
   */
  function Resolve(db: Db, x: string): (r: Option<string>)
    requires Consistent(db)
    ensures r.Some? ==> r.value in db.papers
    ensures x in ArxivIds(db) ==> r.Some? && db.papers[r.value].arxivId == x
    ensures x !in ArxivIds(db) ==> r == (if AbsUrlPrefix + x in db.papers then Some(AbsUrlPrefix + x) else None)
  {
    var byShort := FindByArxivId(db, x);
    if byShort.Some? then byShort
    else if AbsUrlPrefix + x in db.papers then Some(AbsUrlPrefix + x)
    else None
  }

  /** After a batch is stored, every paper of it is found by its short id. */
  lemma StoredPapersResolve(db: Db, batch: seq<Paper>)
    requires Consistent(db)
    requires forall i :: 0 <= i < |batch| ==> HasRequiredFields(batch[i])
    ensures Consistent(StoreAll(db, batch))
    ensures forall i :: 0 <= i < |batch| ==> Resolve(StoreAll(db, batch), ShortId(batch[i].id.value)).Some?
  {
    StoreAllConsistent(db, batch);
    StoreAllArxivIds(db, batch);
    BatchShortIdsHasEach(batch);
  }

  // ---------------------------------------------------------------- delete_paper

  /** DELETE FROM paper_authors WHERE paper_id = ?; DELETE FROM papers WHERE id = ? */
  function RemovePaper(db: Db, fullId: string): Db {
    UnlinkPaper(db, fullId).(papers := db.papers - {fullId})
  }

  /** The authors no join row refers to. */
  function Orphans(db: Db): set<string> {
    set n | n in db.authors && db.authors[n] !in LinkedAuthorIds(db.links)
  }

  /** DELETE FROM authors WHERE id NOT IN (SELECT DISTINCT author_id FROM paper_authors) */
  function PruneOrphans(db: Db): (r: Db)
    ensures r.papers == db.papers && r.links == db.links
    ensures forall n :: n in r.authors <==> n in db.authors && n !in Orphans(db)
    ensures forall n :: n in r.authors ==> r.authors[n] == db.authors[n]
  {
    db.(authors := map n | n in db.authors && db.authors[n] in LinkedAuthorIds(db.links) :: db.authors[n])
  }

  lemma PruneOrphansConsistent(db: Db)
    requires Consistent(db)
    ensures Consistent(PruneOrphans(db))
  {
    var r := PruneOrphans(db);
    forall l | l in r.links ensures l.authorId in r.authors.Values {
      var n :| n in db.authors && db.authors[n] == l.authorId;
      assert n in r.authors;
    }
  }

  /**
   * delete_paper: the resolved paper's join rows and row go, then every orphaned author.
   * The boolean is the row count of the last statement, the orphan delete, as the source
   * returns it; it is false when the paper is not found.
   */
  function Delete(db: Db, x: string): (r: (Db, bool))
    requires Consistent(db)
  {
    var target := Resolve(db, x);
    if target.None? then (db, false)
    else
      var removed := RemovePaper(db, target.value);
      (PruneOrphans(removed), |Orphans(removed)| > 0)
  }

  /** Deleting an unknown id changes nothing and reports false. */
  lemma DeleteUnknown(db: Db, x: string)
    requires Consistent(db) && x !in ArxivIds(db) && AbsUrlPrefix + x !in db.papers
    ensures Delete(db, x) == (db, false)
  {
  }

  /**
   * After delete_paper the store is consistent, the paper and its join rows are gone, the
   * other papers are untouched and no author is left without a join row.
   */
  lemma DeleteRemoves(db: Db, x: string)
    requires Consistent(db) && Resolve(db, x).Some?
    ensures Consistent(Delete(db, x).0)
    ensures Resolve(db, x).value !in Delete(db, x).0.papers
    ensures forall l :: l in Delete(db, x).0.links ==> l.paperId != Resolve(db, x).value
    ensures forall k :: k in db.papers && k != Resolve(db, x).value ==>
      k in Delete(db, x).0.papers && Delete(db, x).0.papers[k] == db.papers[k]
    ensures Orphans(Delete(db, x).0) == {}
  {
    var removed := RemovePaper(db, Resolve(db, x).value);
    PruneOrphansConsistent(removed);
  }

  /** delete_paper once the id has resolved: the paper and its join rows go, then the orphans. */
  lemma DeleteResolved(db: Db, x: string, fullId: string)
    requires Consistent(db) && Resolve(db, x) == Some(fullId)
    ensures Delete(db, x) == (PruneOrphans(RemovePaper(db, fullId)), |Orphans(RemovePaper(db, fullId))| > 0)
    ensures Consistent(PruneOrphans(RemovePaper(db, fullId)))
  {
    DeleteRemoves(db, x);
  }

  /** An author still linked to another paper keeps its row and id through delete_paper. */
  lemma DeleteKeepsSharedAuthors(db: Db, x: string, n: string, l: Link)
    requires Consistent(db) && Resolve(db, x).Some?
    requires n in db.authors && l in db.links && l.paperId != Resolve(db, x).value && l.authorId == db.authors[n]
    ensures n in Delete(db, x).0.authors && Delete(db, x).0.authors[n] == db.authors[n]
  {
    var removed := RemovePaper(db, Resolve(db, x).value);
    assert l in removed.links;
    assert db.authors[n] in LinkedAuthorIds(removed.links);
  }

  /**
   * The value delete_paper returns is not "the paper was found": when every author is
   * also linked to some other paper, the paper is deleted and false is reported.
   */
  lemma DeleteReportsOrphanPruning(db: Db, x: string)
    requires Consistent(db) && Resolve(db, x).Some?
    requires forall n :: n in db.authors ==>
      exists l :: l in db.links && l.paperId != Resolve(db, x).value && l.authorId == db.authors[n]
    ensures Resolve(db, x).value !in Delete(db, x).0.papers
    ensures !Delete(db, x).1
  {
    var removed := RemovePaper(db, Resolve(db, x).value);
    forall n | n in removed.authors ensures n !in Orphans(removed) {
      var l :| l in db.links && l.paperId != Resolve(db, x).value && l.authorId == db.authors[n];
      assert l in removed.links;
    }
    assert Orphans(removed) == {};
  }
}
