/**
 * The paper record that flows between the harvester's components. The source passes
 * papers around as dictionaries whose keys may be missing; each field here is None
 * exactly when its key is absent.
 */
module Papers {
  import opened Wrappers

  /** A paper dictionary: id, title, summary, authors, published_date, pdf_url, category. */
  datatype Paper = Paper(
    id: Option<string>,
    title: Option<string>,
    summary: Option<string>,
    authors: Option<seq<string>>,
    publishedDate: Option<string>,
    pdfUrl: Option<string>,
    category: Option<string>)

  /** A paper with both keys the store insists on. */
  predicate HasRequiredFields(p: Paper) {
    p.id.Some? && p.title.Some?
  }

  /**
   * The short arXiv identifier: the text after the last '/' of the full identifier, or
   * the whole identifier when it has no '/' (Python's full_id.split('/')[-1]).
   */
  function ShortId(fullId: string): (r: string)
    ensures |r| <= |fullId| && r == fullId[|fullId| - |r|..]
    ensures '/' !in r
    ensures |r| < |fullId| ==> fullId[|fullId| - |r| - 1] == '/'
    ensures '/' !in fullId ==> r == fullId
    decreases |fullId|
  {
    if '/' in fullId then
      var r := ShortId(fullId[1..]);
      assert fullId[1..][|fullId| - 1 - |r|..] == fullId[|fullId| - |r|..];
      r
    else fullId
  }

  /** The prefix the store and the batch driver put in front of a bare short identifier. */
  const AbsUrlPrefix := "http://arxiv.org/abs/"

  /** Whatever ends in '/' in front of a slash-free identifier leaves that identifier as the short id. */
  lemma {:induction false} ShortIdAfterSlash(p: string, x: string)
    requires |p| > 0 && p[|p| - 1] == '/' && '/' !in x
    ensures ShortId(p + x) == x
    decreases |p|
  {
    assert (p + x)[|p| - 1] == '/';
    assert (p + x)[1..] == p[1..] + x;
    if |p| > 1 {
      ShortIdAfterSlash(p[1..], x);
    } else {
      assert p[1..] + x == x;
    }
  }

  /** A full identifier built from a slash-free short identifier has that short identifier. */
  lemma ShortIdOfAbsUrl(x: string)
    requires '/' !in x
    ensures ShortId(AbsUrlPrefix + x) == x
  {
    ShortIdAfterSlash(AbsUrlPrefix, x);
  }
}
