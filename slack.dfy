/**
 * SlackNotifier: renders harvested papers as a Slack text message or as Slack blocks and
 * posts them to a webhook. The HTTP POST is a delivery function from the webhook and the
 * payload to the status code it returns (None when the request raises), and the
 * calendar step of the date display (datetime.fromisoformat followed by
 * strftime("%Y-%m-%d")) is a function the notifier is given.
 */
module Slack {
  import opened Wrappers
  import opened Strings
  import opened Papers

  /** s ends with suffix (Python's s.endswith(suffix)). */
  predicate EndsWith(s: string, suffix: string) {
    |suffix| <= |s| && s[|s| - |suffix|..] == suffix
  }

  // ---------------------------------------------------------------- truncation

  const TruncationNote := "... (message truncated)"

  /** truncate_message: messages longer than max keep their first max - 25 characters and a note. */
  function Truncate(max: int, message: string): (r: string)
    ensures |message| <= max ==> r == message
    ensures |message| > max && max >= 25 ==>
      r == message[..max - 25] + TruncationNote && |r| == max - 2
  {
    if |message| <= max then message else PyTake(message, max - 25) + TruncationNote
  }

  /** With room for the note, a truncated message fits, and truncating it again changes nothing. */
  lemma TruncateFits(max: int, message: string)
    requires max >= 25
    ensures |Truncate(max, message)| <= max
    ensures Truncate(max, Truncate(max, message)) == Truncate(max, message)
  {
  }

  // ---------------------------------------------------------------- appearance settings

  /**
   * What format_paper_message and format_paper_blocks read from the notifier: the
   * important categories, the markdown flag, and the date rendering, which gives the
   * YYYY-MM-DD form of an ISO timestamp or None where fromisoformat raises ValueError.
   */
  datatype Style = Style(important: seq<string>, markdown: bool, isoDate: string -> Option<string>)

  /** The paper has a category and it is one of the important ones. */
  predicate IsImportant(style: Style, p: Paper) {
    p.category.Some? && p.category.value in style.important
  }

  /** The published date with a trailing 'Z' and any fractional part removed, as fed to fromisoformat. */
  function CleanIsoDate(date: string): (r: string)
    ensures '.' !in r
    ensures |r| <= |date|
  {
    var noZ := if |date| > 0 && date[|date| - 1] == 'Z' then date[..|date| - 1] else date;
    if '.' in noZ then SplitHeadShorter(noZ); Split(noZ, '.')[0] else noZ
  }

  lemma SplitHeadShorter(s: string)
    ensures |Split(s, '.')[0]| <= |s|
  {
    JoinSplit(s, '.');
    var parts := Split(s, '.');
    if |parts| > 1 {
      assert Join(parts, ".") == parts[0] + "." + Join(parts[1..], ".");
    }
  }

  /** The published date as shown: YYYY-MM-DD when fromisoformat accepts it, else as stored. */
  function ShownDate(style: Style, date: string): string {
    style.isoDate(CleanIsoDate(date)).GetOr(date)
  }

  /** ', '.join(paper.get('authors', ['Unknown'])) */
  function AuthorList(p: Paper): string {
    Join(if p.authors.Some? then p.authors.value else ["Unknown"], ", ")
  }

  // ---------------------------------------------------------------- text messages

  const ImportantMarker := "*IMPORTANT* "

  /** The link line's target: a markdown link or the bare URL, "No PDF available" without one. */
  function PdfLink(style: Style, p: Paper): string {
    if style.markdown then (if p.pdfUrl.Some? then "[PDF](" + p.pdfUrl.value + ")" else "No PDF available")
    else p.pdfUrl.GetOr("No PDF available")
  }

  function TitleLine(style: Style, title: string): string {
    (if style.markdown then "**Title:**" else "Title:") + " " + title + "\n"
  }

  function AuthorsLine(style: Style, p: Paper): string {
    (if style.markdown then "**Authors:**" else "Authors:") + " " + AuthorList(p) + "\n"
  }

  function PublishedLine(style: Style, p: Paper): string {
    if p.publishedDate.Some? then "Published: " + ShownDate(style, p.publishedDate.value) + "\n" else ""
  }

  function CategoryLine(p: Paper): string {
    if p.category.Some? then "Category: " + p.category.value + "\n" else ""
  }

  function AbstractLine(style: Style, p: Paper): string {
    (if style.markdown then "**Abstract:**" else "Abstract:") + " " + p.summary.GetOr("No abstract available") + "\n"
  }

  /** The closing line; the entry ends in a blank line. */
  function LinkLine(style: Style, p: Paper): (r: string)
    ensures EndsWith(r, "\n\n")
  {
    var r := "Link: " + PdfLink(style, p) + "\n\n";
    assert r[|r| - 2..] == "\n\n";
    r
  }

  /** The text after the importance marker: the title line and the rest of the paper's entry. */
  function PaperLines(style: Style, p: Paper): string
    requires p.title.Some?
  {
    TitleLine(style, p.title.value) + EntryBody(style, p)
  }

  /** The lines after the title line. */
  function EntryBody(style: Style, p: Paper): string {
    AuthorsLine(style, p) + PublishedLine(style, p) + CategoryLine(p) + AbstractLine(style, p) + LinkLine(style, p)
  }

  /** format_paper_message */
  function PaperMessage(style: Style, p: Paper): string
    requires p.title.Some?
  {
    (if IsImportant(style, p) then ImportantMarker else "") + PaperLines(style, p)
  }

  lemma PrefixExtend(a: string, b: string, c: string)
    requires IsPrefix(a, b)
    ensures IsPrefix(a, b + c)
  {
    assert (b + c)[..|a|] == b[..|a|];
  }

  lemma SuffixExtend(a: string, b: string, c: string)
    requires EndsWith(b, a)
    ensures EndsWith(c + b, a)
  {
    assert (c + b)[|c + b| - |a|..] == b[|b| - |a|..];
  }

  /** A title line begins with 'T' or with "**", so never with the marker. */
  lemma TitleLineUnmarked(style: Style, title: string, rest: string)
    ensures !IsPrefix(ImportantMarker, TitleLine(style, title) + rest)
  {
    var t := TitleLine(style, title) + rest;
    assert ImportantMarker[0] == '*' && ImportantMarker[1] == 'I';
    if style.markdown {
      assert t[1] == '*';
    } else {
      assert t[0] == 'T';
    }
  }

  /** The entry of a paper begins with the importance marker exactly when the paper is important. */
  lemma PaperMessageMarker(style: Style, p: Paper)
    requires p.title.Some?
    ensures IsPrefix(ImportantMarker, PaperMessage(style, p)) <==> IsImportant(style, p)
    ensures EndsWith(PaperMessage(style, p), "\n\n")
  {
    var title := TitleLine(style, p.title.value);
    var rest := AuthorsLine(style, p) + PublishedLine(style, p) + CategoryLine(p) + AbstractLine(style, p);
    var body := EntryBody(style, p);
    var lines := PaperLines(style, p);
    var m := PaperMessage(style, p);
    SuffixExtend("\n\n", LinkLine(style, p), rest);
    SuffixExtend("\n\n", body, title);
    if IsImportant(style, p) {
      assert m == ImportantMarker + lines;
      PrefixOfConcat(ImportantMarker, lines);
      SuffixExtend("\n\n", lines, ImportantMarker);
    } else {
      assert m == lines;
      TitleLineUnmarked(style, p.title.value, body);
    }
  }

  /** The papers shown: the first max_papers when that is less than the count, else all. */
  function Displayed(papers: seq<Paper>, maxPapers: Option<int>): seq<Paper> {
    if maxPapers.Some? && maxPapers.value < |papers| then PyTake(papers, maxPapers.value) else papers
  }

  /** Whether the list is capped, which is when the "Showing K of N" banner appears. */
  predicate Capped(papers: seq<Paper>, maxPapers: Option<int>) {
    maxPapers.Some? && maxPapers.value < |papers|
  }

  /** A cap between 0 and the count shows exactly that many papers, the first ones. */
  lemma DisplayedCount(papers: seq<Paper>, maxPapers: Option<int>)
    ensures Capped(papers, maxPapers) && maxPapers.value >= 0 ==>
      Displayed(papers, maxPapers) == papers[..maxPapers.value]
    ensures !Capped(papers, maxPapers) ==> Displayed(papers, maxPapers) == papers
  {
  }

  predicate AllTitled(papers: seq<Paper>) {
    forall i :: 0 <= i < |papers| ==> papers[i].title.Some?
  }

  /** The entries of the displayed papers, one after the other. */
  function Entries(style: Style, papers: seq<Paper>): string
    requires AllTitled(papers)
  {
    if papers == [] then "" else Entries(style, papers[..|papers| - 1]) + PaperMessage(style, papers[|papers| - 1])
  }

  /** "Showing K of N papers" followed by the given end. */
  function Banner(shown: int, total: int): string {
    "Showing " + IntToString(shown) + " of " + IntToString(total) + " papers"
  }

  /** Appending the next paper's entry to what precedes the first i papers' entries. */
  lemma EntriesStep(style: Style, papers: seq<Paper>, i: nat, head: string, message: string)
    requires i < |papers| && AllTitled(papers)
    requires message == head + Entries(style, papers[..i])
    ensures message + PaperMessage(style, papers[i]) == head + Entries(style, papers[..i + 1])
  {
    EntriesSnoc(style, papers, i);
  }

  lemma EntriesSnoc(style: Style, papers: seq<Paper>, i: nat)
    requires i < |papers| && AllTitled(papers)
    ensures Entries(style, papers[..i + 1]) == Entries(style, papers[..i]) + PaperMessage(style, papers[i])
  {
    assert papers[..i + 1][..i] == papers[..i];
  }

  /** What precedes the entries: the pre-message paragraph, then the banner paragraph when capped. */
  function DigestHead(papers: seq<Paper>, pre: string, maxPapers: Option<int>): string {
    (if pre != "" then pre + "\n\n" else "")
      + (if Capped(papers, maxPapers) then Banner(|Displayed(papers, maxPapers)|, |papers|) + "\n\n" else "")
  }

  /** What follows the entries: a newline and the post-message, when there is one. */
  function DigestTail(post: string): string {
    if post != "" then "\n" + post else ""
  }

  /** format_papers_message before truncation, for a non-empty list. */
  function Digest(style: Style, papers: seq<Paper>, pre: string, post: string, maxPapers: Option<int>): string
    requires AllTitled(Displayed(papers, maxPapers))
  {
    DigestHead(papers, pre, maxPapers) + Entries(style, Displayed(papers, maxPapers)) + DigestTail(post)
  }

  lemma PrefixOfConcat(a: string, b: string)
    ensures IsPrefix(a, a + b)
  {
    assert (a + b)[..|a|] == a;
  }

  lemma SuffixOfConcat(a: string, b: string)
    ensures EndsWith(a + b, b)
  {
    assert (a + b)[|a + b| - |b|..] == b;
  }

  const NoPapers := "No papers to display."

  /** format_papers_message */
  function PapersMessage(max: int, style: Style, papers: seq<Paper>, pre: string, post: string, maxPapers: Option<int>): string
    requires AllTitled(Displayed(papers, maxPapers))
  {
    if papers == [] then NoPapers else Truncate(max, Digest(style, papers, pre, post, maxPapers))
  }

  /** Short enough not to be truncated, the digest starts with the pre-message and ends with the post-message. */
  lemma DigestFrame(max: int, style: Style, papers: seq<Paper>, pre: string, post: string, maxPapers: Option<int>)
    requires AllTitled(Displayed(papers, maxPapers)) && papers != []
    requires |Digest(style, papers, pre, post, maxPapers)| <= max
    ensures var m := PapersMessage(max, style, papers, pre, post, maxPapers);
      m == Digest(style, papers, pre, post, maxPapers)
      && (pre != "" ==> IsPrefix(pre, m))
      && (post != "" ==> EndsWith(m, post))
  {
    var head := DigestHead(papers, pre, maxPapers);
    var entries := Entries(style, Displayed(papers, maxPapers));
    var tail := DigestTail(post);
    HeadStartsWithPre(papers, pre, maxPapers);
    if pre != "" {
      PrefixExtend(pre, head, entries + tail);
      ConcatAssoc(head, entries, tail);
    }
    if post != "" {
      SuffixOfConcat("\n", post);
      SuffixExtend(post, tail, head + entries);
    }
  }

  lemma HeadStartsWithPre(papers: seq<Paper>, pre: string, maxPapers: Option<int>)
    ensures pre != "" ==> IsPrefix(pre, DigestHead(papers, pre, maxPapers))
  {
    if pre != "" {
      var banner := if Capped(papers, maxPapers) then Banner(|Displayed(papers, maxPapers)|, |papers|) + "\n\n" else "";
      assert DigestHead(papers, pre, maxPapers) == pre + ("\n\n" + banner);
      PrefixOfConcat(pre, "\n\n" + banner);
    }
  }

  lemma ConcatAssoc(a: string, b: string, c: string)
    ensures a + b + c == a + (b + c)
  {
  }

  /** The banner shows the number of papers displayed and the number given. */
  lemma DigestBanner(style: Style, papers: seq<Paper>, post: string, k: nat)
    requires k < |papers|
    requires AllTitled(Displayed(papers, Some(k)))
    ensures IsPrefix(Banner(k, |papers|) + "\n\n", Digest(style, papers, "", post, Some(k)))
  {
    var b := Banner(k, |papers|) + "\n\n";
    assert |Displayed(papers, Some(k))| == k;
    assert DigestHead(papers, "", Some(k)) == b;
    PrefixOfConcat(b, Entries(style, Displayed(papers, Some(k))) + DigestTail(post));
  }

  // ---------------------------------------------------------------- blocks

  /** The Slack blocks the notifier builds (their "type" fields are the constructors). */
  datatype Block =
    | Header(plainText: string)     // plain_text header
    | Section(mrkdwn: string)       // mrkdwn section
    | Actions(pdfUrl: string)       // one "View PDF" button linking to the URL
    | Divider

  /** The header marker of an important paper: a bell emoji as the source file spells it (bytes read as cp1252), then " *IMPORTANT* - ". */
  const HeaderMarker := "ðŸ”” *IMPORTANT* - "

  const HeaderLimit := 150
  const AbstractLimit := 2900

  /** The header text before it is cut to 150 characters. */
  function TitleText(style: Style, p: Paper): string
    requires p.title.Some?
  {
    if IsImportant(style, p) then HeaderMarker + p.title.value else p.title.value
  }

  /** The authors, date and category lines of the metadata section. */
  function Metadata(style: Style, p: Paper): string {
    var dateText := if p.publishedDate.Some? then "*Published:* " + ShownDate(style, p.publishedDate.value) else "";
    var categoryText := if p.category.Some? then "*Category:* " + p.category.value else "";
    "*Authors:* " + AuthorList(p) + "\n" + dateText + (if categoryText != "" then "\n" + categoryText else "")
  }

  /** The abstract, cut to 2900 characters and marked when it was longer. */
  function ShownAbstract(p: Paper): (r: string)
    ensures |r| <= AbstractLimit + 15
  {
    var summary := p.summary.GetOr("No abstract available");
    if |summary| > AbstractLimit then summary[..AbstractLimit] + "... (truncated)" else summary
  }

  /** format_paper_blocks */
  function PaperBlocks(style: Style, p: Paper): seq<Block>
    requires p.title.Some?
  {
    [Header(PyTake(TitleText(style, p), HeaderLimit)),
     Section(Metadata(style, p)),
     Section("*Abstract:*\n" + ShownAbstract(p))]
    + (if p.pdfUrl.Some? then [Actions(p.pdfUrl.value)] else [])
    + [Divider]
  }

  /**
   * A paper's blocks: a header of at most 150 characters, the metadata section, the
   * capped abstract, a "View PDF" button exactly when the paper has a PDF URL, and a
   * closing divider, the only one.
   */
  lemma PaperBlocksShape(style: Style, p: Paper)
    requires p.title.Some?
    ensures var bs := PaperBlocks(style, p);
      && |bs| == (if p.pdfUrl.Some? then 5 else 4)
      && bs[0].Header? && |bs[0].plainText| <= HeaderLimit
      && bs[1] == Section(Metadata(style, p))
      && bs[2] == Section("*Abstract:*\n" + ShownAbstract(p))
      && (p.pdfUrl.Some? <==> Actions(p.pdfUrl.GetOr("")) in bs)
      && bs[|bs| - 1] == Divider
      && forall i :: 0 <= i < |bs| - 1 ==> bs[i] != Divider
  {
  }

  /** An important paper's header starts with the marker; any other paper's header is its title, cut. */
  lemma PaperBlocksHeader(style: Style, p: Paper)
    requires p.title.Some?
    ensures IsImportant(style, p) ==> IsPrefix(HeaderMarker, PaperBlocks(style, p)[0].plainText)
    ensures !IsImportant(style, p) ==> PaperBlocks(style, p)[0].plainText == PyTake(p.title.value, HeaderLimit)
  {
    if IsImportant(style, p) {
      var t := TitleText(style, p);
      assert |HeaderMarker| <= HeaderLimit;
      assert PyTake(t, HeaderLimit)[..|HeaderMarker|] == t[..|HeaderMarker|];
    }
  }

  /** The blocks of the displayed papers, one paper after the other. */
  function AllPaperBlocks(style: Style, papers: seq<Paper>): seq<Block>
    requires AllTitled(papers)
  {
    if papers == [] then [] else AllPaperBlocks(style, papers[..|papers| - 1]) + PaperBlocks(style, papers[|papers| - 1])
  }

  /** Appending the next paper's blocks to what precedes the first i papers' blocks. */
  lemma AllPaperBlocksStep(style: Style, papers: seq<Paper>, i: nat, head: seq<Block>, blocks: seq<Block>)
    requires i < |papers| && AllTitled(papers)
    requires blocks == head + AllPaperBlocks(style, papers[..i])
    ensures blocks + PaperBlocks(style, papers[i]) == head + AllPaperBlocks(style, papers[..i + 1])
  {
    AllPaperBlocksSnoc(style, papers, i);
  }

  lemma AllPaperBlocksSnoc(style: Style, papers: seq<Paper>, i: nat)
    requires i < |papers| && AllTitled(papers)
    ensures AllPaperBlocks(style, papers[..i + 1]) == AllPaperBlocks(style, papers[..i]) + PaperBlocks(style, papers[i])
  {
    assert papers[..i + 1][..i] == papers[..i];
  }

  /** format_papers_blocks */
  function PapersBlocks(style: Style, papers: seq<Paper>, maxPapers: Option<int>): (bs: seq<Block>)
    requires AllTitled(Displayed(papers, maxPapers))
    ensures papers == [] ==> bs == [Section(NoPapers)]
  {
    if papers == [] then [Section(NoPapers)]
    else
      var shown := Displayed(papers, maxPapers);
      (if Capped(papers, maxPapers) then [Section(Banner(|shown|, |papers|))] else [])
        + AllPaperBlocks(style, shown)
  }

  /** The number of dividers in a block list. */
  function Dividers(bs: seq<Block>): nat {
    if bs == [] then 0 else Dividers(bs[..|bs| - 1]) + (if bs[|bs| - 1] == Divider then 1 else 0)
  }

  lemma {:induction false} DividersAppend(a: seq<Block>, b: seq<Block>)
    ensures Dividers(a + b) == Dividers(a) + Dividers(b)
    decreases |b|
  {
    if b == [] {
      assert a + b == a;
    } else {
      assert (a + b)[..|a + b| - 1] == a + b[..|b| - 1];
      DividersAppend(a, b[..|b| - 1]);
    }
  }

  lemma {:induction false} PaperBlocksOneDivider(style: Style, p: Paper)
    requires p.title.Some?
    ensures Dividers(PaperBlocks(style, p)) == 1
  {
    PaperBlocksShape(style, p);
    var bs := PaperBlocks(style, p);
    var i := |bs| - 1;
    assert Dividers(bs[..i]) == 0 by {
      var j := 0;
      while j < i
        invariant 0 <= j <= i
        invariant Dividers(bs[..j]) == 0
      {
        assert bs[..j + 1][..j] == bs[..j];
        j := j + 1;
      }
    }
    assert bs[..|bs|][..i] == bs[..i];
  }

  /** Each rendered paper ends in exactly one divider, so the dividers count the papers shown. */
  lemma {:induction false} AllPaperBlocksDividers(style: Style, papers: seq<Paper>)
    requires AllTitled(papers)
    ensures Dividers(AllPaperBlocks(style, papers)) == |papers|
    decreases |papers|
  {
    if papers != [] {
      var init := papers[..|papers| - 1];
      AllPaperBlocksDividers(style, init);
      PaperBlocksOneDivider(style, papers[|papers| - 1]);
      DividersAppend(AllPaperBlocks(style, init), PaperBlocks(style, papers[|papers| - 1]));
    }
  }

  /**
   * A non-empty list renders as one banner section when capped, then the displayed
   * papers' blocks, one divider per displayed paper.
   */
  lemma PapersBlocksShape(style: Style, papers: seq<Paper>, maxPapers: Option<int>)
    requires AllTitled(Displayed(papers, maxPapers)) && papers != []
    ensures var bs := PapersBlocks(style, papers, maxPapers);
      var shown := Displayed(papers, maxPapers);
      && (Capped(papers, maxPapers) ==> bs[0] == Section(Banner(|shown|, |papers|)) && bs[1..] == AllPaperBlocks(style, shown))
      && (!Capped(papers, maxPapers) ==> bs == AllPaperBlocks(style, shown))
      && Dividers(bs) == |shown|
  {
    var shown := Displayed(papers, maxPapers);
    AllPaperBlocksDividers(style, shown);
    if Capped(papers, maxPapers) {
      var banner := [Section(Banner(|shown|, |papers|))];
      DividersAppend(banner, AllPaperBlocks(style, shown));
      assert Dividers(banner) == 0 by { assert banner[..0] == []; }
      assert (banner + AllPaperBlocks(style, shown))[1..] == AllPaperBlocks(style, shown);
    } else {
      assert [] + AllPaperBlocks(style, shown) == AllPaperBlocks(style, shown);
    }
  }

  // ---------------------------------------------------------------- posting

  /** The JSON body of a webhook POST. */
  datatype Payload = TextPayload(text: string) | BlocksPayload(blocks: seq<Block>)

  class SlackNotifier {
    const maxMessageLength: int
    const isoDate: string -> Option<string>
    var importantCategories: seq<string>
    var useMarkdown: bool

    /** __init__: a 3000-character limit, no important categories, no markdown. */
    constructor (isoDate: string -> Option<string>)
      ensures maxMessageLength == 3000 && this.isoDate == isoDate
      ensures importantCategories == [] && !useMarkdown
    {
      maxMessageLength := 3000;
      this.isoDate := isoDate;
      importantCategories := [];
      useMarkdown := false;
    }

    function CurrentStyle(): Style
      reads this
    {
      Style(importantCategories, useMarkdown, isoDate)
    }

    /** set_important_categories */
    method SetImportantCategories(categories: seq<string>)
      modifies this
      ensures importantCategories == categories && useMarkdown == old(useMarkdown)
    {
      importantCategories := categories;
    }

    /** set_use_markdown */
    method SetUseMarkdown(useMarkdown: bool)
      modifies this
      ensures this.useMarkdown == useMarkdown && importantCategories == old(importantCategories)
    {
      this.useMarkdown := useMarkdown;
    }

    /** format_papers_message: the entries are appended one paper at a time. */
    method FormatPapersMessage(papers: seq<Paper>, pre: string, post: string, maxPapers: Option<int>)
      returns (message: string)
      requires AllTitled(Displayed(papers, maxPapers))
      ensures message == PapersMessage(maxMessageLength, CurrentStyle(), papers, pre, post, maxPapers)
    {
      if papers == [] {
        return NoPapers;
      }
      var style := CurrentStyle();
      var shown := Displayed(papers, maxPapers);
      message := if pre != "" then pre + "\n\n" else "";
      if maxPapers.Some? && maxPapers.value < |papers| {
        message := message + (Banner(|shown|, |papers|) + "\n\n");
      }
      assert message == DigestHead(papers, pre, maxPapers);
      var i := 0;
      while i < |shown|
        invariant 0 <= i <= |shown|
        invariant message == DigestHead(papers, pre, maxPapers) + Entries(style, shown[..i])
        decreases |shown| - i
      {
        EntriesStep(style, shown, i, DigestHead(papers, pre, maxPapers), message);
        message := message + PaperMessage(style, shown[i]);
        i := i + 1;
      }
      assert shown[..i] == shown;
      if post != "" {
        message := message + ("\n" + post);
      }
      assert message == Digest(style, papers, pre, post, maxPapers);
      message := Truncate(maxMessageLength, message);
    }

    /** format_papers_blocks: each paper's blocks extend the list in turn. */
    method FormatPapersBlocks(papers: seq<Paper>, maxPapers: Option<int>) returns (blocks: seq<Block>)
      requires AllTitled(Displayed(papers, maxPapers))
      ensures blocks == PapersBlocks(CurrentStyle(), papers, maxPapers)
    {
      if papers == [] {
        return [Section(NoPapers)];
      }
      var style := CurrentStyle();
      var shown := Displayed(papers, maxPapers);
      blocks := [];
      if maxPapers.Some? && maxPapers.value < |papers| {
        blocks := blocks + [Section(Banner(|shown|, |papers|))];
      }
      ghost var head := blocks;
      var i := 0;
      while i < |shown|
        invariant 0 <= i <= |shown|
        invariant blocks == head + AllPaperBlocks(style, shown[..i])
        decreases |shown| - i
      {
        AllPaperBlocksStep(style, shown, i, head, blocks);
        blocks := blocks + PaperBlocks(style, shown[i]);
        i := i + 1;
      }
      assert shown[..i] == shown;
    }

    /**
     * post_message_to_slack: an empty message or webhook is refused without a request;
     * otherwise the truncated text is posted and only a 200 status counts as success.
     */
    method PostMessage(message: string, webhookUrl: string, deliver: (string, Payload) -> Option<int>)
      returns (ok: bool, sent: Option<Payload>)
      ensures message == "" || webhookUrl == "" ==> !ok && sent.None?
      ensures message != "" && webhookUrl != "" ==> sent == Some(TextPayload(Truncate(maxMessageLength, message)))
      ensures ok <==> sent.Some? && deliver(webhookUrl, sent.value) == Some(200)
    {
      if message == "" || webhookUrl == "" {
        return false, None;
      }
      var payload := TextPayload(Truncate(maxMessageLength, message));
      var status := deliver(webhookUrl, payload);
      ok := status == Some(200);
      sent := Some(payload);
    }

    /** post_blocks_to_slack: an empty block list or webhook is refused without a request. */
    method PostBlocks(blocks: seq<Block>, webhookUrl: string, deliver: (string, Payload) -> Option<int>)
      returns (ok: bool, sent: Option<Payload>)
      ensures blocks == [] || webhookUrl == "" ==> !ok && sent.None?
      ensures blocks != [] && webhookUrl != "" ==> sent == Some(BlocksPayload(blocks))
      ensures ok <==> sent.Some? && deliver(webhookUrl, sent.value) == Some(200)
    {
      if blocks == [] || webhookUrl == "" {
        return false, None;
      }
      var payload := BlocksPayload(blocks);
      var status := deliver(webhookUrl, payload);
      ok := status == Some(200);
      sent := Some(payload);
    }

    /**
     * post_papers_to_slack: an empty list or webhook is refused without a request;
     * otherwise the papers are rendered as blocks or as text and posted.
     */
    method PostPapers(papers: seq<Paper>, webhookUrl: string, useBlocks: bool, maxPapers: Option<int>,
                      pre: string, post: string, deliver: (string, Payload) -> Option<int>)
      returns (ok: bool, sent: Option<Payload>)
      requires AllTitled(Displayed(papers, maxPapers))
      ensures papers == [] || webhookUrl == "" ==> !ok && sent.None?
      ensures papers != [] && webhookUrl != "" && useBlocks ==>
        sent == Some(BlocksPayload(PapersBlocks(CurrentStyle(), papers, maxPapers)))
      ensures papers != [] && webhookUrl != "" && !useBlocks ==>
        sent == Some(TextPayload(Truncate(maxMessageLength, PapersMessage(maxMessageLength, CurrentStyle(), papers, pre, post, maxPapers))))
      ensures ok <==> sent.Some? && deliver(webhookUrl, sent.value) == Some(200)
    {
      if papers == [] || webhookUrl == "" {
        return false, None;
      }
      if useBlocks {
        var blocks := FormatPapersBlocks(papers, maxPapers);
        PapersBlocksShape(CurrentStyle(), papers, maxPapers);
        ok, sent := PostBlocks(blocks, webhookUrl, deliver);
      } else {
        var message := FormatPapersMessage(papers, pre, post, maxPapers);
        ok, sent := PostMessage(message, webhookUrl, deliver);
      }
    }
  }
}
