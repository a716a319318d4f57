# arXiv harvester, modelled in Dafny

The arXiv harvester searches the arXiv query API for papers. It keeps them in a small
SQLite store (papers, authors, and the links between them), tells a Slack webhook about
papers it has not seen before, and runs on a daily, weekly or monthly schedule. A batch
script pages through every result of a search in a date window and can download the
PDFs. A second script cleans trailing whitespace out of source files.

This project models these parts in Dafny and proves properties of the model:

- the store (`Store`, over the table model `StoreModel` and the orderings in `Listings`);
- the API client (`ArxivClient`);
- the Slack notifier (`Slack`);
- the scheduler (`Harvest`);
- the batch search script (`BatchSearch`);
- the whitespace fixer (`Whitespace`).

Shared modules hold the Python built-ins these parts rely on (`Strings`), dates as
strftime, strptime and fromisoformat render and read them (`Dates`), a paper dictionary
(`Papers`), and Option/Result (`Wrappers`).

Objects whose fields the source updates are classes:

- `Store.DatabaseManager` holds the three tables as fields;
- `ArxivClient.ArxivApiClient` holds the time of its last request;
- `Slack.SlackNotifier` holds its important categories and its markdown switch;
- `Harvest.Scheduler` holds its settings and its state file.

Each method is proved against a function on values: the new tables, the rows a SELECT
returns, the message or blocks payload, the settings after loading a state file. The
lemmas state what the source promises about those functions. Requests to arXiv, posts
to Slack, the clock and the file system are parameters of the methods that use them:

- a transport from URL to response;
- a delivery from webhook and payload to status code;
- the current time;
- a map from path to file contents.

Python's raising of an exception becomes an `Err` or `None` result that names the error.

## Model

| member | source | states |
|---|---|---|
| Papers.ShortId | src/arxiv_harvester/store/database.py:95 | the short arXiv id is the part of the full id after its last '/', has no '/', and is the whole id when there is none |
| Papers.ShortIdOfAbsUrl | src/arxiv_harvester/store/database.py:361-362 | the short id of `http://arxiv.org/abs/<x>` is `x`, for an `x` without '/': the fallback lookup of delete_paper and the short id agree |
| StoreModel.MakeRow | src/arxiv_harvester/store/database.py:99-111 | the row written for a paper holds its full id, its short id and title, and the empty-string defaults for a missing summary, date or PDF URL; a missing category stays NULL |
| StoreModel.Upsert | src/arxiv_harvester/store/database.py:99-111 | INSERT OR REPLACE: the new row is present under its id, and every other row survives unchanged exactly when it shares neither the id nor the arxiv_id |
| StoreModel.UpsertConsistent | src/arxiv_harvester/store/database.py:99-111 | INSERT OR REPLACE keeps each row keyed by its id and keeps the UNIQUE arxiv_id column unique |
| StoreModel.UpsertShortIds | src/arxiv_harvester/store/database.py:99-111 | after INSERT OR REPLACE the stored short ids are the old ones plus the new row's |
| StoreModel.EmptyDbConsistent | src/arxiv_harvester/store/database.py:29-69 | a freshly initialised store satisfies the store invariant: rows keyed by id, unique short ids, author ids distinct and issued, links resolving to authors |
| StoreModel.FindOrCreateAuthor | src/arxiv_harvester/store/database.py:136-144 | _insert_author leaves the papers and links alone, adds the name if absent with the next AUTOINCREMENT id, and keeps every existing author's id |
| StoreModel.FindOrCreateAuthorIdempotent | src/arxiv_harvester/store/database.py:136-144 | inserting the same author twice is the same as once (INSERT OR IGNORE) |
| StoreModel.FindOrCreateAuthorConsistent | src/arxiv_harvester/store/database.py:136-144 | _insert_author keeps the store invariant |
| StoreModel.FreshIdUnlinked | src/arxiv_harvester/store/database.py:136-144 | the next AUTOINCREMENT id is not yet used by any link, so a new author starts with no papers |
| StoreModel.LinkAuthors | src/arxiv_harvester/store/database.py:119-124 | linking names adds exactly those names to the author table, keeps existing author ids, only adds links, and adds links only for this paper |
| StoreModel.LinkOneSound | src/arxiv_harvester/store/database.py:120-124 | one author insert plus INSERT OR IGNORE of the link keeps the invariant and adds exactly that name to the paper's authors |
| StoreModel.LinkAuthorsSound | src/arxiv_harvester/store/database.py:119-124 | the author loop keeps the invariant and the paper's author names grow by exactly the set of names linked |
| StoreModel.UnlinkPaper | src/arxiv_harvester/store/database.py:116 | DELETE FROM paper_authors for one paper removes exactly that paper's links and nothing else |
| StoreModel.UnlinkPaperConsistent | src/arxiv_harvester/store/database.py:116 | removing a paper's links keeps the invariant and leaves that paper with no author names |
| StoreModel.ClearedConsistent | src/arxiv_harvester/store/database.py:99-116 | after the upsert and the link delete the store is consistent and the paper has no linked names |
| StoreModel.UpsertRowConsistent | src/arxiv_harvester/store/database.py:99-111 | writing a row whose short id is derived from its id keeps the invariant |
| StoreModel.StoreOne | src/arxiv_harvester/store/database.py:93-124 | storing one paper upserts its row; a paper without authors leaves authors and links untouched; authors only grow; links of other papers are unchanged |
| StoreModel.StoreOneSound | src/arxiv_harvester/store/database.py:93-124 | storing one paper keeps the invariant, and a paper with a non-empty author list ends up linked to exactly the names in that list |
| StoreModel.StoreWithAuthors | src/arxiv_harvester/store/database.py:114-124 | with authors: old links replaced, the invariant kept, the linked names those of the list |
| StoreModel.StoreWithoutAuthors | src/arxiv_harvester/store/database.py:114 | without authors (absent or empty list) the old links stay and the invariant is kept |
| StoreModel.StoreOneArxivIds | src/arxiv_harvester/store/database.py:93-111 | after storing a paper the stored short ids are the old ones plus the paper's own |
| StoreModel.StoreExistingKeepsRowCount | src/arxiv_harvester/store/database.py:99-111 | re-storing a paper already present under its full id keeps the same set of rows: the store never duplicates a paper |
| StoreModel.StoreDisplacesSameShortId | src/arxiv_harvester/store/database.py:99-111 | a different stored row with the same short id is replaced, as the UNIQUE arxiv_id constraint makes INSERT OR REPLACE do |
| StoreModel.StoreAll | src/arxiv_harvester/store/database.py:88-124 | the store after a batch: each paper of the batch stored in turn, in list order, by StoreOne |
| StoreModel.StoreAllSnoc | src/arxiv_harvester/store/database.py:88-124 | the batch loop stores its papers one after another in list order |
| StoreModel.StoreAllConsistent | src/arxiv_harvester/store/database.py:88-124 | storing any complete batch keeps the invariant |
| StoreModel.BatchShortIdsHasEach | src/arxiv_harvester/store/database.py:95 | every paper of a batch contributes its short id to the batch's short-id set |
| StoreModel.StoreAllArxivIds | src/arxiv_harvester/store/database.py:88-124 | after a batch the stored short ids are the old ones plus exactly those of the batch |
| StoreModel.FirstIncomplete | src/arxiv_harvester/store/database.py:88-91 | finds the first paper lacking 'id' or 'title', with every earlier paper complete, or reports that all are complete |
| StoreModel.StoreBatch | src/arxiv_harvester/store/database.py:71-134 | store_papers fails exactly when some paper lacks a required field, and the error names such a paper |
| StoreModel.StoreBatchFails | src/arxiv_harvester/store/database.py:88-132 | the error names the first paper of the batch that lacks a required field |
| StoreModel.StoreBatchSucceeds | src/arxiv_harvester/store/database.py:88-127 | a batch of complete papers commits the papers stored in order and keeps the invariant |
| StoreModel.FindByArxivId | src/arxiv_harvester/store/database.py:354-359 | the lookup by arxiv_id finds a row exactly when that short id is stored, and the row found carries it |
| StoreModel.Resolve | src/arxiv_harvester/store/database.py:354-367 | an id resolves by short id first, else to the abs-URL full id when that row exists, else not at all |
| StoreModel.StoredPapersResolve | src/arxiv_harvester/store/database.py:88-124 | every paper just stored can be looked up again by its short id |
| StoreModel.PruneOrphans | src/arxiv_harvester/store/database.py:375-379 | the orphan delete removes exactly the authors no link refers to, leaving papers, links and the other ids alone |
| StoreModel.PruneOrphansConsistent | src/arxiv_harvester/store/database.py:375-379 | the orphan delete keeps the invariant |
| StoreModel.DeleteUnknown | src/arxiv_harvester/store/database.py:360-367 | deleting an id that resolves to nothing changes nothing and reports false |
| StoreModel.Delete | src/arxiv_harvester/store/database.py:337-391 | delete_paper: resolves the id (arxiv_id first, then the abs URL); an unknown id leaves the store alone and answers false; a known one removes the paper, its join rows and every author left without a join row, and answers whether any such author was removed (the rowcount of the last statement) |
| StoreModel.DeleteRemoves | src/arxiv_harvester/store/database.py:369-379 | deleting a resolved paper keeps the invariant, removes the paper and all its links, keeps every other paper, and leaves no orphan author |
| StoreModel.DeleteResolved | src/arxiv_harvester/store/database.py:369-383 | once the id has resolved, delete is the three DELETE statements, and its result is whether the orphan delete removed a row |
| StoreModel.DeleteKeepsSharedAuthors | src/arxiv_harvester/store/database.py:375-379 | an author still linked to another paper survives the delete with the same id |
| StoreModel.DeleteReportsOrphanPruning | src/arxiv_harvester/store/database.py:383 | a paper whose authors all have other papers is removed, yet delete_paper reports false |
| Listings.LeastNameExists | src/arxiv_harvester/store/database.py:192-202 | a non-empty set of names has a least one in byte order |
| Listings.SortNames | src/arxiv_harvester/store/database.py:192-202 | the listing of a set of author names is that set, strictly ascending (ORDER BY a.name) |
| Listings.RowBeforeTransitive | src/arxiv_harvester/store/database.py:171 | the ORDER BY published_date order, ties broken by id, is transitive |
| Listings.RowBeforeTotal | src/arxiv_harvester/store/database.py:171 | any two rows with different ids are ordered one way or the other |
| Listings.RowBeforeAsymmetric | src/arxiv_harvester/store/database.py:171 | no two rows are ordered both ways |
| Listings.FirstRowExists | src/arxiv_harvester/store/database.py:171 | every non-empty set of rows has a first row |
| Listings.ListingExists | src/arxiv_harvester/store/database.py:171 | every set of rows with distinct ids has a listing, sorted and without repeats, holding exactly that set |
| Listings.ConsListing | src/arxiv_harvester/store/database.py:171 | the first row followed by a listing of the rest is a listing of the whole set |
| Listings.ListingUnique | src/arxiv_harvester/store/database.py:171 | two listings of the same rows are equal: the SELECT's order is determined |
| Listings.Listing | src/arxiv_harvester/store/database.py:171 | the answer of a SELECT … ORDER BY is a listing of the selected rows |
| Listings.SortRows | src/arxiv_harvester/store/database.py:171 | sorting the selected rows gives exactly the listing of them |
| Listings.Window | src/arxiv_harvester/store/database.py:174-180 | LIMIT/OFFSET: at most the limit (none when the limit is negative or absent), the rows from the offset on, in order, no more than remain |
| Listings.ConsecutivePages | src/arxiv_harvester/store/database.py:174-180 | two consecutive pages of size k are the page of size 2k at the same offset |
| Listings.PagesDisjoint | src/arxiv_harvester/store/database.py:174-180 | non-overlapping pages of a sorted listing share no row |
| Store.PoolIdsDistinct | src/arxiv_harvester/store/database.py:146-190 | the rows any SELECT picks have distinct ids, so they always have a listing |
| Store.DatabaseManager.constructor | src/arxiv_harvester/store/database.py:29-69 | a new manager holds empty, consistent tables |
| Store.DatabaseManager.StorePapers | src/arxiv_harvester/store/database.py:71-134 | when a paper is incomplete the tables are as before and the error is returned; otherwise the tables are the batch's result; the invariant holds either way |
| Store.DatabaseManager.Restore | src/arxiv_harvester/store/database.py:129-132 | rollback puts back the saved tables |
| Store.DatabaseManager.StorePaper | src/arxiv_harvester/store/database.py:93-124 | one paper's statements leave the tables as StoreOne says |
| Store.DatabaseManager.LinkPaperAuthors | src/arxiv_harvester/store/database.py:119-124 | the author loop leaves the tables as LinkAuthors says |
| Store.DatabaseManager.InsertAuthor | src/arxiv_harvester/store/database.py:136-144 | _insert_author's table change, and the id it returns is the name's id after it |
| Store.DatabaseManager.GetPaperAuthors | src/arxiv_harvester/store/database.py:192-202 | returns exactly the paper's linked author names, ascending, each once |
| Store.DatabaseManager.Hydrate | src/arxiv_harvester/store/database.py:186-187 | each returned row is paired with its sorted author list |
| Store.DatabaseManager.Select | src/arxiv_harvester/store/database.py:146-335 | the rows a WHERE clause selects, in ORDER BY order |
| Store.DatabaseManager.GetPapers | src/arxiv_harvester/store/database.py:154-190 | OFFSET without LIMIT is an SQL error; otherwise the LIMIT/OFFSET window of all papers in the chosen direction, each with its authors |
| Store.DatabaseManager.GetAllPapers | src/arxiv_harvester/store/database.py:146-152 | all papers ascending by published date, each with its authors |
| Store.DatabaseManager.GetRecentPapers | src/arxiv_harvester/store/database.py:393-402 | the first `limit` papers by descending published date |
| Store.DatabaseManager.GetPaperById | src/arxiv_harvester/store/database.py:204-235 | found exactly when the id resolves, by short id then by abs URL; the row is that paper's, with its sorted authors |
| Store.DatabaseManager.GetPapersByDateRange | src/arxiv_harvester/store/database.py:237-268 | the papers whose published_date lies, as text, between the two dates written as %Y-%m-%dT%H:%M:%S, newest first |
| Store.DatabaseManager.GetPapersByAuthor | src/arxiv_harvester/store/database.py:270-298 | the papers linked to the named author, newest first |
| Store.DatabaseManager.SearchPapers | src/arxiv_harvester/store/database.py:300-335 | the papers whose title and summary contain the given keywords by LIKE (an empty or missing keyword imposes nothing), newest first |
| Store.DatabaseManager.DeletePaper | src/arxiv_harvester/store/database.py:337-391 | the new tables and the result are Delete's: an unknown id changes nothing and gives false, a known one removes the paper, its links and orphan authors; the invariant holds |
| Store.DatabaseManager.RemoveResolved | src/arxiv_harvester/store/database.py:369-383 | the three DELETE statements for a stored full id, and the rowcount of the last |
| Store.DatabaseManager.PruneOrphanAuthors | src/arxiv_harvester/store/database.py:375-379 | removes exactly the orphan authors, and reports whether there were any |
| Store.DatabaseManager.CountPapersByCategory | src/arxiv_harvester/store/database.py:404-424 | maps each category some paper has to the number of papers in it; papers without a category are not counted |
| Store.TallyStep | src/arxiv_harvester/store/database.py:413-421 | counting one more paper keeps the count of every category exact |
| Store.EmptyCategory | src/arxiv_harvester/store/database.py:413-421 | a category no paper has counts no paper |
| Store.ApplyWindow | src/arxiv_harvester/store/database.py:174-180 | the page taken is the LIMIT/OFFSET window |
| ArxivClient.Find | src/arxiv_harvester/api/client.py:176 | Element.find: "." is the element itself, else a child with that tag, and none when no child has it |
| ArxivClient.FirstWithTagIsFirst | src/arxiv_harvester/api/client.py:176 | the child found is the first with the tag: no earlier child carries it |
| ArxivClient.FindFirst | src/arxiv_harvester/api/client.py:176 | Element.find on a tag gives the first child carrying it |
| ArxivClient.FindAll | src/arxiv_harvester/api/client.py:157-161 | Element.findall returns children of the element carrying the tag |
| ArxivClient.FindAllInComplete | src/arxiv_harvester/api/client.py:157-161 | findall misses no child carrying the tag |
| ArxivClient.FindAllInAppend | src/arxiv_harvester/api/client.py:157-161 | findall keeps document order: the matches among two runs of children are those of the first run followed by those of the second |
| ArxivClient.GetXmlText | src/arxiv_harvester/api/client.py:172-177 | empty for a missing element or child; otherwise stripped text, which neither starts nor ends with whitespace |
| ArxivClient.GetXmlTextFound | src/arxiv_harvester/api/client.py:176-177 | a found child's text comes back stripped |
| ArxivClient.FirstPdfHref | src/arxiv_harvester/api/client.py:144-162 | the first link href containing "pdf", and empty exactly when no href contains it |
| ArxivClient.Normalise | src/arxiv_harvester/api/client.py:133-163 | every parsed entry carries all six keys, so it can be stored, and has no category |
| ArxivClient.NormaliseJsonDefaults | src/arxiv_harvester/api/client.py:135-146 | missing JSON keys become empty strings and empty lists; one author name per author object |
| ArxivClient.Entries | src/arxiv_harvester/api/client.py:118-129 | undecodable content is the only error; a single JSON entry object is one entry; a missing feed or entry gives none |
| ArxivClient.Parsed | src/arxiv_harvester/api/client.py:106-170 | fails exactly when the content cannot be decoded; otherwise one normalised paper per entry, in order |
| ArxivClient.ParsedComplete | src/arxiv_harvester/api/client.py:131-167 | every paper the parser returns has the fields the store requires |
| ArxivClient.CategoryClause | src/arxiv_harvester/api/client.py:67-68 | " AND cat:<c>" exactly when a non-empty category is given |
| ArxivClient.DateClause | src/arxiv_harvester/api/client.py:70-73 | a submittedDate range in %Y%m%d%H%M%S form exactly when both dates are given |
| ArxivClient.SearchQuery | src/arxiv_harvester/api/client.py:64-73 | the query extended by the category clause and then the date clause, and unchanged exactly when neither applies |
| ArxivClient.SearchUrlParams | src/arxiv_harvester/api/client.py:78-82 | the URL is the base URL and '?', and splitting the rest at '&' gives back the four parameters |
| ArxivClient.SearchOutcome | src/arxiv_harvester/api/client.py:84-104 | connection errors and timeouts pass through unchanged, a non-200 status becomes a wrapped failure, and a 200 reply gives what the parser gives |
| ArxivClient.SearchBadStatus | src/arxiv_harvester/api/client.py:90-104 | a non-200 reply fails with the status message inside the wrapper |
| ArxivClient.PaperOutcome | src/arxiv_harvester/api/client.py:195-218 | succeeds exactly on a 200 reply parsing to at least one paper and returns the first; every failure reads "Error retrieving paper: …" |
| ArxivClient.PaperNotFound | src/arxiv_harvester/api/client.py:212-213 | a 200 reply with no entries fails with "… not found" |
| ArxivClient.SleepFor | src/arxiv_harvester/api/client.py:30-39 | sleeps the whole delay or nothing; nothing before the first request and nothing once the delay has passed |
| ArxivClient.RequestsSpaced | src/arxiv_harvester/api/client.py:30-39 | after the first request, consecutive requests go out at least the delay apart |
| ArxivClient.ArxivApiClient.constructor | src/arxiv_harvester/api/client.py:18-28 | keeps delay and timeout; no request made yet |
| ArxivClient.ArxivApiClient.EnforceRateLimit | src/arxiv_harvester/api/client.py:30-39 | sleeps as SleepFor says and records the time after the sleep |
| ArxivClient.ArxivApiClient.Search | src/arxiv_harvester/api/client.py:41-104 | rate-limits, sends the URL of the built query, and returns SearchOutcome of the transport's answer |
| ArxivClient.ArxivApiClient.GetPaperById | src/arxiv_harvester/api/client.py:179-218 | rate-limits, sends the id_list URL, and returns PaperOutcome of the answer |
| ArxivClient.ParseResponse | src/arxiv_harvester/api/client.py:106-170 | the entry loop returns what Parsed specifies |
| ArxivClient.NormaliseEach | src/arxiv_harvester/api/client.py:132-166 | the loop appends one record per entry: as many records as entries, the k-th the record of the k-th entry (ParseResponse passes Normalise) |
| Strings.RStrip | scripts/fix_whitespace.py:21 | str.rstrip(): the longest prefix not ending in whitespace, the cut being all whitespace |
| Strings.StripEmptyIffBlank | scripts/fix_whitespace.py:25 | `strip() == ''` exactly when the string is all whitespace |
| Strings.SplitJoin | src/arxiv_harvester/scheduler/scheduler.py:293 | splitting a joined list of separator-free parts gives back the parts |
| Strings.JoinSplit | src/arxiv_harvester/scheduler/scheduler.py:293 | joining the parts of a split gives back the string |
| Strings.Split | src/arxiv_harvester/scheduler/scheduler.py:293 | str.split(sep) gives at least one part, none containing the separator |
| Strings.DigitsValueOfNatToString | scripts/search_prompt_engineering.py:109-110 | int() reads back the decimal that str() writes |
| Strings.PyTake | src/arxiv_harvester/notify/slack.py:130 | Python's s[:k], including a negative k counting from the end |
| Strings.LexLeTotal | src/arxiv_harvester/store/database.py:252-258 | SQLite's text comparison orders any two strings |
| Strings.LexLeTransitive | src/arxiv_harvester/store/database.py:252-258 | text comparison is transitive |
| Strings.LexLeAntisymmetric | src/arxiv_harvester/store/database.py:252-258 | text comparison both ways means equal strings |
| Strings.LikePrefixIff | src/arxiv_harvester/store/database.py:314-323 | a wildcard-free `k%` matches a text exactly when the text starts with k up to ASCII case |
| Strings.LikeInfixIff | src/arxiv_harvester/store/database.py:314-323 | a wildcard-free `%k%` matches a text exactly when k occurs in it up to ASCII case, in both directions |
| Store.KeywordSearchFinds | src/arxiv_harvester/store/database.py:300-335 | for wildcard-free keywords, search_papers' rows are exactly the stored rows whose title, and summary, contain each given keyword up to ASCII case |
| Dates.ParseYmd | scripts/search_prompt_engineering.py:100-101 | strptime("%Y-%m-%d") gives a valid calendar date at midnight, or fails |
| Dates.ParseFormatYmd | scripts/search_prompt_engineering.py:139-141 | strptime reads back the midnight that strftime("%Y-%m-%d") writes |
| Dates.ParseIsoformat | src/arxiv_harvester/scheduler/scheduler.py:254-255 | fromisoformat accepts the YYYY-MM-DDTHH:MM:SS shape, with microsecond zero, or that shape followed by '.' and six digits, and only a valid datetime |
| Dates.ParseFormatIsoSeconds | src/arxiv_harvester/store/database.py:252-253 | the text strftime("%Y-%m-%dT%H:%M:%S") writes reads back as the same datetime with its fraction of a second dropped |
| Dates.ParseFormatFraction | src/arxiv_harvester/scheduler/scheduler.py:220-255 | the seconds form followed by '.' and the six-digit microsecond reads back as the whole datetime |
| Dates.ParseFormatIsoformat | src/arxiv_harvester/scheduler/scheduler.py:220-255 | fromisoformat reads back exactly what isoformat writes, for every datetime, with a fraction or without one |
| Slack.Truncate | src/arxiv_harvester/notify/slack.py:40-53 | a short message is unchanged; a long one keeps its first max−25 characters and gets the truncation note |
| Slack.TruncateFits | src/arxiv_harvester/notify/slack.py:40-53 | the result fits the limit, and truncating twice changes nothing more |
| Slack.CleanIsoDate | src/arxiv_harvester/notify/slack.py:88-93 | without the 'Z' and the fraction, the date has no '.' and is no longer than before |
| Slack.LinkLine | src/arxiv_harvester/notify/slack.py:74-106 | the PDF line ends each entry with a blank line |
| Slack.PaperMessage | src/arxiv_harvester/notify/slack.py:55-108 | format_paper_message: the IMPORTANT marker when the category is important, then the title, authors, dates, category, abstract and links in the Markdown or plain style |
| Slack.PaperMessageMarker | src/arxiv_harvester/notify/slack.py:55-108 | a paper's message starts with the IMPORTANT marker exactly when its category is important, and ends with a blank line |
| Slack.DisplayedCount | src/arxiv_harvester/notify/slack.py:127-130 | the first max_papers papers are shown when there are more than that, otherwise all |
| Slack.EntriesSnoc | src/arxiv_harvester/notify/slack.py:139-141 | the message loop appends one paper's message at a time, in order |
| Slack.PapersMessage | src/arxiv_harvester/notify/slack.py:110-148 | format_papers_message: the no-papers text for an empty list, else the pre-message, at most max_papers paper messages and the post-message, cut to the Slack limit |
| Slack.DigestFrame | src/arxiv_harvester/notify/slack.py:110-148 | a digest that fits is sent unchanged, beginning with the pre-message and ending with the post-message |
| Slack.DigestBanner | src/arxiv_harvester/notify/slack.py:133-137 | a capped digest without a pre-message begins with "Showing k of n papers" |
| Slack.ShownAbstract | src/arxiv_harvester/notify/slack.py:214-218 | the abstract shown is at most 2900 characters plus the truncation mark |
| Slack.PaperBlocks | src/arxiv_harvester/notify/slack.py:150-247 | format_paper_blocks: a header of the title cut to 150 characters, a metadata section, an abstract section, an actions block when there is a PDF URL, and a divider |
| Slack.PaperBlocksShape | src/arxiv_harvester/notify/slack.py:150-247 | header (within 150 characters), metadata, abstract, a PDF button exactly when there is a PDF URL, and a closing divider, with no other divider |
| Slack.PaperBlocksHeader | src/arxiv_harvester/notify/slack.py:161-177 | an important paper's header starts with the marker; another's is its title cut to 150 characters |
| Slack.PaperBlocksOneDivider | src/arxiv_harvester/notify/slack.py:244-245 | each paper's blocks hold exactly one divider |
| Slack.AllPaperBlocksDividers | src/arxiv_harvester/notify/slack.py:286-289 | the blocks of n papers hold n dividers, one per paper |
| Slack.DividersAppend | src/arxiv_harvester/notify/slack.py:286-289 | divider counts add up over concatenation |
| Slack.PapersBlocks | src/arxiv_harvester/notify/slack.py:260-267 | no papers gives the single "No papers to display." section |
| Slack.PapersBlocksShape | src/arxiv_harvester/notify/slack.py:249-291 | a capped list starts with the "Showing k of n" section; then every shown paper's blocks in order, one divider per shown paper |
| Slack.SlackNotifier.constructor | src/arxiv_harvester/notify/slack.py:18-22 | the limit is 3000, no important categories, markdown off |
| Slack.SlackNotifier.SetImportantCategories | src/arxiv_harvester/notify/slack.py:24-30 | replaces the important categories and nothing else |
| Slack.SlackNotifier.SetUseMarkdown | src/arxiv_harvester/notify/slack.py:32-38 | sets the markdown switch and nothing else |
| Slack.SlackNotifier.FormatPapersMessage | src/arxiv_harvester/notify/slack.py:110-148 | the message loop builds the truncated digest PapersMessage describes |
| Slack.SlackNotifier.FormatPapersBlocks | src/arxiv_harvester/notify/slack.py:249-291 | the block loop builds the list PapersBlocks describes |
| Slack.SlackNotifier.PostMessage | src/arxiv_harvester/notify/slack.py:293-319 | nothing is sent for an empty message or webhook; otherwise the truncated text is posted, and success means status 200 |
| Slack.SlackNotifier.PostBlocks | src/arxiv_harvester/notify/slack.py:321-344 | nothing is sent for no blocks or no webhook; otherwise the blocks are posted, and success means status 200 |
| Slack.SlackNotifier.PostPapers | src/arxiv_harvester/notify/slack.py:346-376 | nothing is sent for no papers or no webhook; otherwise the blocks or the truncated digest is posted, and success means status 200 |
| Harvest.IsDue | src/arxiv_harvester/scheduler/scheduler.py:176-201 | is_time_to_run: due when never run, else when the microseconds since the last run reach the schedule's number of days |
| Harvest.DueIntervals | src/arxiv_harvester/scheduler/scheduler.py:176-201 | never run means due; otherwise due once 1 day (daily), 30 days (monthly) or 7 days (weekly or anything else) have passed, counted to the microsecond |
| Harvest.DueMonotone | src/arxiv_harvester/scheduler/scheduler.py:176-201 | a harvest just run is not due, and once due it stays due |
| Harvest.DueOrdering | src/arxiv_harvester/scheduler/scheduler.py:189-198 | due monthly implies due weekly, which implies due daily |
| Harvest.ThenAssociative | src/arxiv_harvester/scheduler/scheduler.py:108-118 | chaining searches, stopping at the first error, is associative |
| Harvest.SearchEachAppend | src/arxiv_harvester/scheduler/scheduler.py:108-118 | searching two lists of categories is searching the first, then the second |
| Harvest.SearchEachStops | src/arxiv_harvester/scheduler/scheduler.py:108-123 | an error in a category stops the loop with that error |
| Harvest.SearchEachSnoc | src/arxiv_harvester/scheduler/scheduler.py:108-118 | one more category adds one more search at the end |
| Harvest.Fetched | src/arxiv_harvester/scheduler/scheduler.py:92-123 | fetch_papers: one search without categories, else one search per category with the results concatenated in category order; a failed search is the run's error |
| Harvest.FetchedComplete | src/arxiv_harvester/scheduler/scheduler.py:92-123 | every fetched paper has the fields the store requires |
| Harvest.SearchEachComplete | src/arxiv_harvester/scheduler/scheduler.py:108-118 | the papers of all category searches have the required fields |
| Harvest.ResolveShortId | src/arxiv_harvester/scheduler/scheduler.py:139-142 | a short id finds a stored paper exactly when it is stored |
| Harvest.NewPapers | src/arxiv_harvester/scheduler/scheduler.py:125-147 | filter_new_papers: the papers whose short id is not stored, in input order, or no answer when some paper has no id |
| Harvest.NewPapersMembers | src/arxiv_harvester/scheduler/scheduler.py:125-147 | filtering fails exactly when some paper has no id; otherwise it keeps exactly the papers whose short id is not stored, never more than given |
| Harvest.NewPapersSnoc | src/arxiv_harvester/scheduler/scheduler.py:136-145 | the filter looks at one paper at a time, in order |
| Harvest.NewPapersAppend | src/arxiv_harvester/scheduler/scheduler.py:125-147 | filtering two lists is filtering each and concatenating |
| Harvest.NewPapersNoneNew | src/arxiv_harvester/scheduler/scheduler.py:125-147 | when every paper is known the filter keeps none |
| Harvest.SecondHarvestFindsNothing | src/arxiv_harvester/scheduler/scheduler.py:324-328 | after storing the new papers, filtering the same fetch again finds nothing new |
| Harvest.Harvested | src/arxiv_harvester/scheduler/scheduler.py:316-339 | a harvest yields new papers exactly when fetching succeeds; they are the filtered ones, and they always store without error |
| Harvest.Loaded | src/arxiv_harvester/scheduler/scheduler.py:230-260 | load_state: an unreadable file keeps the current settings; a document gives each field its saved value or its default (empty query, no categories, 50, weekly); a missing or empty last run time clears it, an unparseable one keeps the current value |
| Harvest.LoadSnapshot | src/arxiv_harvester/scheduler/scheduler.py:203-260 | loading a saved state gives back the saved settings |
| Harvest.LoadDefaults | src/arxiv_harvester/scheduler/scheduler.py:246-257 | an empty state file gives the default settings, and loading any file keeps the settings storable |
| Harvest.StateFileWins | src/arxiv_harvester/scheduler/scheduler.py:285-308 | with a --state-file, the file's settings replace the query, categories, limit and webhook, and --schedule still wins |
| Harvest.ArgumentsApplied | src/arxiv_harvester/scheduler/scheduler.py:285-299 | without a state file, --query sets the query, categories split at commas, the limit and webhook, with the rest unchanged |
| Harvest.Scheduler.constructor | src/arxiv_harvester/scheduler/scheduler.py:19-44 | the default settings, no state file, the given collaborators |
| Harvest.Scheduler.SetSearchParameters | src/arxiv_harvester/scheduler/scheduler.py:46-58 | sets query, categories (none means an empty list) and limit only |
| Harvest.Scheduler.SetSlackWebhook | src/arxiv_harvester/scheduler/scheduler.py:60-66 | sets the webhook only |
| Harvest.Scheduler.SetSchedule | src/arxiv_harvester/scheduler/scheduler.py:68-74 | sets the schedule type only |
| Harvest.Scheduler.SetLastRunTime | src/arxiv_harvester/scheduler/scheduler.py:76-82 | sets the last run time only |
| Harvest.Scheduler.SetStateFile | src/arxiv_harvester/scheduler/scheduler.py:84-90 | sets the state file only |
| Harvest.SearchesSent | src/arxiv_harvester/scheduler/scheduler.py:104-110 | the category loop sends every search up to and including the first that fails, and all of them when none fails |
| Harvest.SearchesSentStops | src/arxiv_harvester/scheduler/scheduler.py:104-110 | once a prefix of the categories has failed, no later category is searched |
| Harvest.SearchesSentNext | src/arxiv_harvester/scheduler/scheduler.py:104-110 | while the categories before position i were found, the search for category i is sent |
| Harvest.SearchesSentAt | src/arxiv_harvester/scheduler/scheduler.py:104-110 | the loop stops after the first failure or after the last category, with the result and count of the whole list |
| Harvest.ClockSpacing | src/arxiv_harvester/api/client.py:32-39 | when the client's clock never reads earlier than its last request time, the requests of a run after the first recorded one are at least the delay apart each |
| Harvest.Scheduler.SearchNext | src/arxiv_harvester/scheduler/scheduler.py:105-109 | one category search, rate-limiting at the client's own clock reading for that search, moves the client's last request time one search on |
| Harvest.Scheduler.SearchCategories | src/arxiv_harvester/scheduler/scheduler.py:104-110 | one search per category in order, the first failure ending the loop; the client's last request time is that of the last search sent, each search rate-limiting at its own clock reading |
| Harvest.Scheduler.FetchPapers | src/arxiv_harvester/scheduler/scheduler.py:92-123 | one search without a category, or one per category in order; the first failure ends the loop with the wrapped message; the client's last request time afterwards is that of the last search sent, each search rate-limiting at its own clock reading |
| Harvest.Scheduler.FilterNewPapers | src/arxiv_harvester/scheduler/scheduler.py:125-147 | the filtered list NewPapers specifies, looking up each paper's short id in turn |
| Harvest.Scheduler.IsStored | src/arxiv_harvester/scheduler/scheduler.py:138-144 | get_paper_by_id on a paper's short id finds a record exactly when that short id is stored |
| Harvest.Scheduler.StorePapers | src/arxiv_harvester/scheduler/scheduler.py:149-155 | the store's batch result: unchanged with the error, or the stored batch |
| Harvest.Scheduler.SendNotifications | src/arxiv_harvester/scheduler/scheduler.py:157-174 | nothing is sent without papers or webhook; otherwise the papers' blocks are posted to the webhook |
| Harvest.Scheduler.SaveState | src/arxiv_harvester/scheduler/scheduler.py:203-228 | the argument or the own state file receives the settings snapshot; with neither, no file changes |
| Harvest.Scheduler.LoadState | src/arxiv_harvester/scheduler/scheduler.py:230-260 | an existing target file's settings are loaded, otherwise nothing changes |
| Harvest.Applied | src/arxiv_harvester/scheduler/scheduler.py:285-308 | apply_arguments: search settings, then webhook, then state file, then schedule, each taken from the arguments when given |
| Harvest.Scheduler.ApplyArguments | src/arxiv_harvester/scheduler/scheduler.py:285-308 | the configuration becomes Applied's, which StateFileWins and ArgumentsApplied describe |
| Harvest.Scheduler.RunHarvest | src/arxiv_harvester/scheduler/scheduler.py:310-339 | records the run time; on success stores exactly the new papers, notifies about them when there are any and a webhook is set, and saves the state when a state file is set; on failure changes no table or file; the client's clock ends where fetch_papers' searches left it |
| Harvest.Scheduler.RunFromArguments | src/arxiv_harvester/scheduler/scheduler.py:341-353 | runs exactly when forced or due once the arguments are applied; when it runs, it harvests with the applied settings (the new papers stored and announced, the run time recorded, the snapshot saved to the applied state file, the client's clock moved on); when it does not, it reports failure, changes no table, client or file, and leaves the configuration as the arguments made it |
| BatchSearch.RangePeriod | scripts/search_prompt_engineering.py:97-104 | a range is recognised only from a '~' and gives two fixed dates |
| BatchSearch.ParseTimePeriod | scripts/search_prompt_engineering.py:74-137 | the end is fixed only for a valid '~' range; a relative start pairs with an end of now |
| BatchSearch.ParseRange | scripts/search_prompt_engineering.py:97-102 | "A~B" is the window from the stripped A to the stripped B |
| BatchSearch.ParseRelative | scripts/search_prompt_engineering.py:107-127 | a count and a unit letter (either case) is that many units back from now |
| BatchSearch.ParseSingleDate | scripts/search_prompt_engineering.py:129-132 | a single date runs from that date to now |
| BatchSearch.PeriodString | scripts/search_prompt_engineering.py:415-434 | the period text: the first preset flag (1w, 1m, 3m, 6m, 1y), else --period, else --date-range, else the from/to dates |
| BatchSearch.PresetWindow | scripts/search_prompt_engineering.py:419-428 | each preset flag is its window: a week, one, three or six months, a year, the first set winning |
| BatchSearch.PeriodTextWins | scripts/search_prompt_engineering.py:430-434 | --period, then --date-range, is passed on as written |
| BatchSearch.FromToWindow | scripts/search_prompt_engineering.py:436-437 | --from-date with --to-date is exactly that window |
| BatchSearch.FromOnlyWindow | scripts/search_prompt_engineering.py:438-439 | --from-date alone runs to now |
| BatchSearch.ToOnlyWindow | scripts/search_prompt_engineering.py:440-442 | --to-date alone starts on 2023-01-01 |
| BatchSearch.DefaultWindow | scripts/search_prompt_engineering.py:443-445 | no period option is 2023-01-01 up to now |
| BatchSearch.FormatDateDay | scripts/search_prompt_engineering.py:139-141 | a formatted date reads back as midnight of that day |
| BatchSearch.WindowDates | scripts/search_prompt_engineering.py:448-450 | both date strings exist exactly when both ends of the period denote a datetime, and each then reads back in fetch_all_papers as midnight of its end's day |
| BatchSearch.CheckedSortBy | scripts/search_prompt_engineering.py:235-237 | an allowed sort field is kept, any other becomes submittedDate |
| BatchSearch.CheckedSortOrder | scripts/search_prompt_engineering.py:239-241 | an allowed direction is kept, any other becomes descending |
| BatchSearch.RetrySameOffset | scripts/search_prompt_engineering.py:298-303 | a failed call is retried at the same offset, keeping what was collected |
| BatchSearch.Paginate | scripts/search_prompt_engineering.py:257-303 | the paging loop: each full page is followed by the pages from the offset one page size further; an empty or short page ends it; a failed reply retries at the same offset; running out of calls ends it marked Exhausted, with what was collected |
| BatchSearch.FetchesEverything | scripts/search_prompt_engineering.py:257-296 | against a search that serves a fixed result list page by page, paging collects exactly that list |
| BatchSearch.RetriesForever | scripts/search_prompt_engineering.py:262-303 | against the search as called (every call rejected), paging collects nothing and never stops |
| BatchSearch.FetchAllPapers | scripts/search_prompt_engineering.py:217-305 | an unreadable date is an error; otherwise the loop's outcome is the paging from offset 0 with checked sort options |
| BatchSearch.ToDownload | scripts/search_prompt_engineering.py:484-485 | a positive --max-downloads limits the papers to that many, in order; otherwise all are downloaded |
| BatchSearch.JoinPathInjective | scripts/search_prompt_engineering.py:165 | different file names give different paths in one directory |
| BatchSearch.DownloadTarget | scripts/search_prompt_engineering.py:155-165 | a paper with an id gets a file named after its short id in the output directory; without an id there is none |
| BatchSearch.DownloadUrl | scripts/search_prompt_engineering.py:155-160 | a missing or empty pdf_url falls back to the PDF address named like the file |
| BatchSearch.SameFileIffSameShortId | scripts/search_prompt_engineering.py:162-165 | two papers share a PDF file exactly when their short ids agree |
| BatchSearch.AbsUrlSameFile | scripts/search_prompt_engineering.py:162-164 | an abs-URL id and the bare id name the same file |
| Whitespace.CleanLine | scripts/fix_whitespace.py:21 | a cleaned line ends in exactly one newline |
| Whitespace.CleanLineEnd | scripts/fix_whitespace.py:21 | no whitespace is left before that newline |
| Whitespace.CleanLineBlank | scripts/fix_whitespace.py:21-26 | a cleaned line is blank exactly when the original is, and a blank line becomes a bare newline |
| Whitespace.CleanLineIdempotent | scripts/fix_whitespace.py:21 | cleaning a clean line changes nothing |
| Whitespace.CleanedAt | scripts/fix_whitespace.py:21 | line i of the cleaned file is line i cleaned |
| Whitespace.LastContent | scripts/fix_whitespace.py:29-31 | the position of the last non-blank line, with only blank lines after it |
| Whitespace.LastContentCleaned | scripts/fix_whitespace.py:21-26 | cleaning does not move the last non-blank line |
| Whitespace.Fixed | scripts/fix_whitespace.py:15-36 | every line right-stripped and ended with a newline, and the run of blank lines at the end cut to one |
| Whitespace.FixWhitespaceIssues | scripts/fix_whitespace.py:15-36 | the lines written are exactly Fixed of the lines read |
| Whitespace.DropTrailingBlankLines | scripts/fix_whitespace.py:29-31 | the pop loop keeps the prefix up to one line after the last non-blank line |
| Whitespace.FixedKeepsLines | scripts/fix_whitespace.py:15-36 | no more lines than before; each kept line is its original right-stripped plus newline; every non-blank line is kept; only blank lines are dropped |
| Whitespace.FixedLinesEndCleanly | scripts/fix_whitespace.py:21-26 | every output line ends in one newline with no whitespace before it |
| Whitespace.FixedTail | scripts/fix_whitespace.py:28-31 | the output is empty only for an empty file, and a file ending in a blank line still ends in one |
| Whitespace.FixedEndsOnce | scripts/fix_whitespace.py:28-31 | the output never ends in two blank lines |
| Whitespace.AllBlankFile | scripts/fix_whitespace.py:28-31 | a file of blank lines becomes a single newline |
| Whitespace.CleanedFixpoint | scripts/fix_whitespace.py:21 | a file of clean lines is unchanged by the comprehension |
| Whitespace.FixedKeptAll | scripts/fix_whitespace.py:28-31 | the pop loop drops nothing from an already fixed file |
| Whitespace.FixIdempotent | scripts/fix_whitespace.py:15-36 | fixing a fixed file changes nothing |
| Whitespace.OneBlankLineStays | scripts/fix_whitespace.py:28-31 | "a\n" followed by a blank line is left as it is: one trailing blank line survives |

## Where the code and its comments differ

The model follows the code in each of these places.

- delete_paper (src/arxiv_harvester/store/database.py:337-391): the docstring says it
  returns whether the paper was deleted. The code returns the row count of its last
  statement, the orphan-author delete. `StoreModel.DeleteReportsOrphanPruning` shows a
  deleted paper reported as false.
- fix_whitespace_issues (scripts/fix_whitespace.py:28-31): the comment promises exactly
  one newline at the end of the file. The loop stops with one blank line left after the
  last content line, so a file ending "a\n\n\n" becomes "a\n\n".
  `Whitespace.OneBlankLineStays` and `Whitespace.FixedTail` state this.
- get_papers (src/arxiv_harvester/store/database.py:154-190): it accepts an offset
  without a limit. SQLite rejects OFFSET without LIMIT, so the model returns
  `Err(OffsetWithoutLimit)` there.

## Left out

- SQLite itself is not modelled: connections, DDL, indexes, the created_at and
  updated_at timestamps, and backup_database (file copy).
- ORDER BY published_date leaves the order of equal dates to SQLite. The model breaks
  such ties by full id, so every listing is determined.
- Store.DatabaseManager.CountPapersByCategory: the count of each category is exact, but
  the model returns a map, so the dict's key order, count descending from ORDER BY count
  DESC (database.py:413-422), is not kept.
- Store.DatabaseManager.GetPapers: order_by is fixed to published_date, and
  order_direction is a bool for ASC or DESC. The source puts both strings into the SQL
  text unchecked, so any other direction is an SQL error there; the model has no such case.
- Strings.LikePrefixIff, Strings.LikeInfixIff, Store.KeywordSearchFinds:
  SQLite LIKE is modelled with ASCII-only case folding. These lemmas are stated for
  keywords without wildcards; `Like` itself also gives `%` and `_` in a keyword their
  wildcard meaning.
- Python's `\d` also matches non-ASCII digits. The model accepts ASCII digits only.
- JSON and XML decoding, and bytes-to-text, are left out: the client receives content
  that is already decoded. A JSON value of an unexpected type (null, a number where a
  string is expected) is not modelled.
- HTTP is not modelled. requests.get and requests.post become transport and delivery
  functions, and the timeout argument is kept but has no effect.
- The wall clock and sleep are not modelled. Each clock reading is a parameter, and
  sleeping is returned as a duration. A run's searches get one reading each: `ticks(k)`
  is time.time() when the k-th search rate-limits, however long the searches before it
  took. The model does not require the readings to increase; `Harvest.ClockSpacing`
  states the rate limit for readings that do.
- Harvest.Scheduler.RunFromArguments: one datetime `now` stands for both datetime.now()
  calls, the one in is_time_to_run (src/arxiv_harvester/scheduler/scheduler.py:186) and
  the one in run_harvest (src/arxiv_harvester/scheduler/scheduler.py:318). The time
  that passes between them is not modelled.
- Calendar arithmetic (timedelta and relativedelta going back from now) is a function
  parameter of `BatchSearch.WindowDates`. It gives a valid datetime, or None where the
  source raises. Relative periods remain symbolic in `BatchSearch.ParseTimePeriod`.
- BatchSearch.WindowDates: a relative period reaching before year 1 raises in the
  source (OverflowError or ValueError at scripts/search_prompt_engineering.py:118-125),
  which ends the program. The model gives None there; the traceback is not modelled.
- fromisoformat and strftime in the Slack date display are one function the notifier
  is given. Only the 'Z' and fraction clean-up is concrete.
- Dates.ParseIsoformat: only the two forms isoformat writes are read: the seconds form,
  and the seconds form with a six-digit fraction. Other forms fromisoformat accepts
  (three-digit fractions, offsets, a date alone, and more in newer Python versions)
  count as unreadable, so a state file holding one keeps the previous last run time.
- Slack.PaperMessageMarker, Slack.PaperBlocksShape, Slack.PapersMessage,
  Slack.PapersBlocks, Slack.SlackNotifier.FormatPapersMessage,
  Slack.SlackNotifier.FormatPapersBlocks, Slack.SlackNotifier.PostPapers,
  Harvest.Scheduler.SendNotifications: a paper without a title is excluded by a
  precondition. The source raises KeyError there and does not handle it. The
  scheduler only passes papers that have a title.
- BatchSearch.FetchAllPapers: the paging loop is given a number of calls. An outcome of
  `Exhausted` means those calls ran out while the loop was still going. The unbounded
  loop of the source is therefore shown only up to any number of calls.
- download_pdfs (a thread pool) is not modelled, nor is the file writing of download_pdf.
  The model keeps the naming and URL choice of download_pdf.
- argparse is not modelled (parsing, its mutually exclusive period group, choices,
  help), nor are list_categories and all printing.
- The file system is not modelled: file reads and writes, readlines' newline
  translation, os.makedirs, os.path.exists (a path is in the map or not),
  process_directory, and the command-line entry points of both scripts.
- setup.py is not part of this model.

## Findings

| source | as written | input that shows it | evidently intended | confidence | as-written member | corrected member |
|---|---|---|---|---|---|---|
| scripts/search_prompt_engineering.py:262-303 | fetch_all_papers passes `start=start` to ArxivApiClient.search, which has no `start` parameter (src/arxiv_harvester/api/client.py:41-43). Every call raises TypeError, which the `except Exception` branch catches and retries forever | any call of fetch_all_papers with valid dates | each call fetches the page at `start`, and the loop ends after the last short or empty page with every result collected | not executed | BatchSearch.RetriesForever | BatchSearch.FetchesEverything |
