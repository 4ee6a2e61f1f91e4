/**
  `scrape_listing`: the search URL for a term, and the notices read from the blocks of a
  search-results page. Each block arrives with the texts the HTML navigation found in it
  (the published-date label, the first heading, each definition list with its preceding
  paragraph, and the candidate link targets); the model covers what the scraper does
  with those texts.
 */
module Listing {
  import opened Wrappers
  import opened Text
  import opened Dates
  import opened Notices
  import opened Seqs

  const BaseUrl := "https://publishednotices.asic.gov.au/browsesearch-notices"
  const NoticeBase := "https://publishednotices.asic.gov.au"

  /** The search terms queried on every run, already URL-encoded (`+` for a space). */
  const SearchTerms: seq<string> := ["solar", "renewable", "photovoltaic", "battery",
    "wind+energy", "wind+farm", "energy+storage", "green+energy", "clean+energy",
    "hydrogen", "EV+charging", "electric+vehicle", "inverter", "geothermal"]

  // ---------------------------------------------------------------------------
  // Search URL
  // ---------------------------------------------------------------------------

  const SearchPrefix := BaseUrl + "?appointment=All&noticestate=All&companynameoracn="
  const SearchSuffix := "&court=&district=&dnotice="

  /** `build_search_url`: the term goes, unencoded, into the company-name-or-ACN filter;
      every other filter is left open. */
  function BuildSearchUrl(term: string): (url: string)
    ensures StartsWith(url, SearchPrefix)
    ensures |url| == |SearchPrefix| + |term| + |SearchSuffix|
    ensures url[|url| - |SearchSuffix|..] == SearchSuffix
  {
    SearchPrefix + term + SearchSuffix
  }

  /** The term a search URL queries. */
  function SearchTermOf(url: string): string
    requires |url| >= |SearchPrefix| + |SearchSuffix|
  {
    url[|SearchPrefix|..|url| - |SearchSuffix|]
  }

  /** The term can be read back from its URL, so distinct terms give distinct URLs. */
  lemma SearchUrlRoundTrip(term: string)
    ensures SearchTermOf(BuildSearchUrl(term)) == term
  {
    var url := BuildSearchUrl(term);
    assert url[|SearchPrefix|..|url| - |SearchSuffix|] == term;
  }

  lemma SearchUrlInjective(a: string, b: string)
    requires BuildSearchUrl(a) == BuildSearchUrl(b)
    ensures a == b
  {
    SearchUrlRoundTrip(a);
    SearchUrlRoundTrip(b);
  }

  // ---------------------------------------------------------------------------
  // Companies
  // ---------------------------------------------------------------------------

  /** A `<dl>` of a block: its `<dt>` and `<dd>` texts (each already stripped), the text
      of the `<p>` found before it, and the text of that paragraph's first `<span>`. */
  datatype DefList = DefList(
    dts: seq<string>,
    dds: seq<string>,
    prevParagraph: Option<string>,
    spanText: Option<string>)

  /** `zip(dts, dds)`: pairs up to the shorter of the two. */
  function Zip(dts: seq<string>, dds: seq<string>): (r: seq<(string, string)>)
    ensures |r| == if |dts| <= |dds| then |dts| else |dds|
    ensures forall i :: 0 <= i < |r| ==> r[i] == (dts[i], dds[i])
  {
    if dts == [] || dds == [] then [] else [(dts[0], dds[0])] + Zip(dts[1..], dds[1..])
  }

  /** A pair whose label, trailing colons removed, is `key`. */
  predicate Labelled(p: (string, string), key: string)
  {
    RStripChar(p.0, ':') == key
  }

  /** The value the dt/dd loop leaves for `key`: that of the last pair with that label,
      or "" when no pair has it. */
  function LastLabelled(pairs: seq<(string, string)>, key: string): string
  {
    if pairs == [] then ""
    else if Labelled(pairs[|pairs| - 1], key) then pairs[|pairs| - 1].1
    else LastLabelled(pairs[..|pairs| - 1], key)
  }

  /** The last pair with the label decides its value; without one the value is "". */
  lemma {:induction false} LastLabelledWins(pairs: seq<(string, string)>, key: string, i: int)
    requires 0 <= i < |pairs| && Labelled(pairs[i], key)
    requires forall j :: i < j < |pairs| ==> !Labelled(pairs[j], key)
    ensures LastLabelled(pairs, key) == pairs[i].1
  {
    if i < |pairs| - 1 {
      LastLabelledWins(pairs[..|pairs| - 1], key, i);
    }
  }

  lemma {:induction false} LastLabelledAbsent(pairs: seq<(string, string)>, key: string)
    requires forall i :: 0 <= i < |pairs| ==> !Labelled(pairs[i], key)
    ensures LastLabelled(pairs, key) == ""
  {
    if pairs != [] {
      LastLabelledAbsent(pairs[..|pairs| - 1], key);
    }
  }

  lemma LastLabelledStep(pairs: seq<(string, string)>, key: string, i: int)
    requires 0 <= i < |pairs|
    ensures LastLabelled(pairs[..i + 1], key)
         == if Labelled(pairs[i], key) then pairs[i].1 else LastLabelled(pairs[..i], key)
  {
    assert pairs[..i + 1][..i] == pairs[..i];
  }

  /** The loop over the dt/dd pairs of one list, keeping the last ACN and Status. */
  method ReadLabels(dl: DefList) returns (acn: string, status: string)
    ensures acn == LastLabelled(Zip(dl.dts, dl.dds), "ACN")
    ensures status == LastLabelled(Zip(dl.dts, dl.dds), "Status")
  {
    var pairs := Zip(dl.dts, dl.dds);
    acn, status := "", "";
    var i := 0;
    while i < |pairs|
      invariant 0 <= i <= |pairs|
      invariant acn == LastLabelled(pairs[..i], "ACN")
      invariant status == LastLabelled(pairs[..i], "Status")
    {
      LastLabelledStep(pairs, "ACN", i);
      LastLabelledStep(pairs, "Status", i);
      var k := RStripChar(pairs[i].0, ':');
      if k == "ACN" {
        acn := pairs[i].1;
      } else if k == "Status" {
        status := pairs[i].1;
      }
      i := i + 1;
    }
    assert pairs[..i] == pairs;
  }

  /** The paragraph's `<span>` says "trading as", in any letter case. */
  predicate MentionsTradingAs(dl: DefList)
  {
    dl.spanText.Some? && Contains(LowerAscii(dl.spanText.value), "trading as")
  }

  /** The name is split from a trading name only when the span mentions it and the
      paragraph text splits on "trading as" into exactly two parts. */
  predicate SplitsTradingAs(dl: DefList)
  {
    dl.prevParagraph.Some? && MentionsTradingAs(dl)
    && |Split(dl.prevParagraph.value, "trading as")| == 2
  }

  /** The company name and trading name taken from the preceding paragraph. */
  function Names(dl: DefList): (string, string)
  {
    if SplitsTradingAs(dl) then
      var parts := Split(dl.prevParagraph.value, "trading as");
      (Strip(parts[0]), Strip(parts[1]))
    else if dl.prevParagraph.Some? then (dl.prevParagraph.value, "")
    else ("", "")
  }

  /** The company a list describes: none exactly when no pair is labelled "ACN" with a
      non-empty value last; otherwise the names from the preceding paragraph and the
      values of the last "ACN" and "Status" pairs. */
  function CompanyOf(dl: DefList): (r: Option<Company>)
    ensures r.Some? <==> LastLabelled(Zip(dl.dts, dl.dds), "ACN") != ""
    ensures r.Some? ==> r.value.acn != ""
    ensures r.Some? ==> && r.value.acn == LastLabelled(Zip(dl.dts, dl.dds), "ACN")
                        && r.value.status == LastLabelled(Zip(dl.dts, dl.dds), "Status")
                        && (r.value.name, r.value.tradingAs) == Names(dl)
  {
    var pairs := Zip(dl.dts, dl.dds);
    var acn := LastLabelled(pairs, "ACN");
    var (name, tradingAs) := Names(dl);
    if acn == "" then None
    else Some(Company(name, tradingAs, acn, LastLabelled(pairs, "Status")))
  }

  /** The companies of a block, in list order, skipping lists without an ACN: exactly
      the companies its lists describe. */
  function CompaniesOf(lists: seq<DefList>): (cs: seq<Company>)
    ensures |cs| <= |lists|
    ensures forall c :: c in cs <==> exists k :: 0 <= k < |lists| && CompanyOf(lists[k]) == Some(c)
    ensures forall c :: c in cs ==> c.acn != ""
  {
    CollectExactly(CompanyOf, lists);
    Collect(CompanyOf, lists)
  }

  /** The companies keep list order: two runs of lists give their companies one run
      after the other, and a single list gives its own company, if any. */
  lemma CompaniesInListOrder(a: seq<DefList>, b: seq<DefList>, dl: DefList)
    ensures CompaniesOf(a + b) == CompaniesOf(a) + CompaniesOf(b)
    ensures CompaniesOf([dl]) == if CompanyOf(dl).Some? then [CompanyOf(dl).value] else []
  {
    CollectAppend(CompanyOf, a, b);
    CollectOne(CompanyOf, dl);
  }

  /** The `for dl in block.find_all("dl")` loop. */
  method ParseCompanies(lists: seq<DefList>) returns (companies: seq<Company>)
    ensures companies == CompaniesOf(lists)
  {
    companies := [];
    var i := 0;
    while i < |lists|
      invariant 0 <= i <= |lists|
      invariant companies == CompaniesOf(lists[..i])
    {
      CollectStep(CompanyOf, lists, i);
      var dl := lists[i];
      var acn, status := ReadLabels(dl);
      var name := if dl.prevParagraph.Some? then dl.prevParagraph.value else "";
      var tradingAs := "";
      if dl.prevParagraph.Some? && MentionsTradingAs(dl) {
        var parts := Split(dl.prevParagraph.value, "trading as");
        if |parts| == 2 {
          name, tradingAs := Strip(parts[0]), Strip(parts[1]);
        }
      }
      if acn != "" {
        companies := companies + [Company(name, tradingAs, acn, status)];
      }
      i := i + 1;
    }
    assert lists[..i] == lists;
  }

  lemma JoinTwo(a: string, b: string, sep: string)
    ensures Join([a, b], sep) == a + sep + b
  {
    assert [a, b][1..] == [b];
  }

  /** A split into a company and a trading name happens at the only occurrence of
      "trading as" in the paragraph; the two names are what surrounds it, stripped.
      Without a split the name is the paragraph text and there is no trading name. */
  lemma TradingAsSplit(dl: DefList)
    ensures SplitsTradingAs(dl) ==>
      var p := dl.prevParagraph.value;
      exists i: nat :: OccursAt(p, "trading as", i)
        && !Contains(p[..i], "trading as") && !Contains(p[i + 10..], "trading as")
        && Names(dl) == (Strip(p[..i]), Strip(p[i + 10..]))
    ensures !SplitsTradingAs(dl) ==>
      Names(dl) == (if dl.prevParagraph.Some? then dl.prevParagraph.value else "", "")
  {
    if SplitsTradingAs(dl) {
      var p := dl.prevParagraph.value;
      var parts := Split(p, "trading as");
      assert parts == [parts[0], parts[1]];
      JoinTwo(parts[0], parts[1], "trading as");
      var i := |parts[0]|;
      assert p == parts[0] + "trading as" + parts[1];
      assert p[..i] == parts[0];
      assert p[i + 10..] == parts[1];
      assert OccursAt(p, "trading as", i);
    }
  }

  // ---------------------------------------------------------------------------
  // Link
  // ---------------------------------------------------------------------------

  /** `href.split("?")[0]`: the longest prefix of `href` without a "?". */
  function BeforeQuery(href: string): (h: string)
    ensures StartsWith(href, h)
    ensures forall k :: 0 <= k < |h| ==> h[k] != '?'
    ensures h == href || href[|h|] == '?'
  {
    var parts := Split(href, "?");
    forall k | 0 <= k < |parts[0]|
      ensures parts[0][k] != '?'
    {
      if parts[0][k] == '?' {
        ContainsAt(parts[0], "?", k);
      }
    }
    if |parts| == 1 then
      assert Join(parts, "?") == parts[0];
      parts[0]
    else
      assert href == parts[0] + "?" + Join(parts[1..], "?");
      parts[0]
  }

  /** The link target the block offers: the first `notice-details` link, otherwise the
      first `a.button` (whose `href` may be missing). */
  function ChosenHref(detailsHref: Option<string>, buttonHref: Option<string>): Option<string>
  {
    if detailsHref.Some? then detailsHref else buttonHref
  }

  /** The notice's link: "" without a non-empty target; otherwise the target without its
      query string, made absolute on the notices site when it is a root-relative path. */
  function ViewLink(href: Option<string>): (link: string)
    ensures forall k :: 0 <= k < |link| ==> link[k] != '?'
    ensures href.Some? && href.value != "" && StartsWith(href.value, "/") ==>
              link == NoticeBase + BeforeQuery(href.value)
    ensures href.Some? && href.value != "" && !StartsWith(href.value, "/") ==>
              link == BeforeQuery(href.value)
    ensures link == "" <==> href.None? || BeforeQuery(href.value) == ""
  {
    if href.None? || href.value == "" then ""
    else
      var h := BeforeQuery(href.value);
      BeforeQueryKeepsSlash(href.value);
      if StartsWith(h, "/") then NoticeBase + h else h
  }

  /** Removing the query string keeps a leading "/" and adds none. */
  lemma BeforeQueryKeepsSlash(href: string)
    ensures StartsWith(BeforeQuery(href), "/") <==> StartsWith(href, "/")
  {
    var h := BeforeQuery(href);
    if StartsWith(href, "/") && h != href {
      assert |h| > 0 by {
        assert href[|h|] == '?';
      }
    }
  }

  // ---------------------------------------------------------------------------
  // Blocks
  // ---------------------------------------------------------------------------

  /** A notice block of the listing page, as the HTML navigation leaves it: the text of
      its published-date element, that of its first `<h3>`, its definition lists, and
      the `href`s of its first `notice-details` link and of its first button. */
  datatype Block = Block(
    dateLabel: Option<string>,
    heading: Option<string>,
    lists: seq<DefList>,
    detailsHref: Option<string>,
    buttonHref: Option<string>)

  /** The date text: the label without any "Published:" and without surrounding space. */
  function DateText(text: string): string
  {
    Strip(RemoveAll(text, "Published:"))
  }

  /** What a listed notice always satisfies: its date text parses to its date, it names
      only companies with an ACN, its link carries no query string, and it comes from the
      given search term without a detail record yet. */
  predicate Listed(n: Notice, term: string)
  {
    && ValidDate(n.date)
    && ParseDate(n.dateStr) == Some(n.date)
    && (forall c :: c in n.companies ==> c.acn != "")
    && (forall k :: 0 <= k < |n.viewLink| ==> n.viewLink[k] != '?')
    && n.searchTerm == term
    && n.detail.None?
  }

  /** The notice a block yields; none when it has no date label or its date text does
      not parse. */
  function NoticeOfBlock(b: Block, term: string): (r: Option<Notice>)
    ensures r.None? <==> b.dateLabel.None? || ParseDate(DateText(b.dateLabel.value)).None?
    ensures r.Some? ==> Listed(r.value, term)
    ensures r.Some? ==> && r.value.dateStr == DateText(b.dateLabel.value)
                        && r.value.date == ParseDate(DateText(b.dateLabel.value)).value
                        && r.value.noticeType == (if b.heading.Some? then b.heading.value else "Unknown")
                        && r.value.companies == CompaniesOf(b.lists)
                        && r.value.viewLink == ViewLink(ChosenHref(b.detailsHref, b.buttonHref))
  {
    if b.dateLabel.None? then None
    else
      var text := DateText(b.dateLabel.value);
      match ParseDate(text)
      case None => None
      case Some(date) =>
        Some(Notice(date, text, if b.heading.Some? then b.heading.value else "Unknown",
                    CompaniesOf(b.lists), ViewLink(ChosenHref(b.detailsHref, b.buttonHref)),
                    term, None))
  }

  /** The loop body of `scrape_listing` for one block. */
  method ParseBlock(b: Block, term: string) returns (r: Option<Notice>)
    ensures r == NoticeOfBlock(b, term)
  {
    if b.dateLabel.None? {
      return None;
    }
    var dateText := DateText(b.dateLabel.value);
    var pubDate := ParseDate(dateText);
    if pubDate.None? {
      return None;
    }
    var noticeType := if b.heading.Some? then b.heading.value else "Unknown";
    var companies := ParseCompanies(b.lists);
    var viewLink := ViewLink(ChosenHref(b.detailsHref, b.buttonHref));
    r := Some(Notice(pubDate.value, dateText, noticeType, companies, viewLink, term, None));
  }

  /** `NoticeOfBlock` for a fixed search term. */
  function BlockNotice(term: string): Block -> Option<Notice>
  {
    b => NoticeOfBlock(b, term)
  }

  /** The notices of a run of blocks, in block order: exactly the notices its blocks
      yield. */
  function NoticesOf(blocks: seq<Block>, term: string): (ns: seq<Notice>)
    ensures |ns| <= |blocks|
    ensures forall n :: n in ns <==> exists k :: 0 <= k < |blocks| && NoticeOfBlock(blocks[k], term) == Some(n)
    ensures forall n :: n in ns ==> Listed(n, term)
  {
    CollectExactly(BlockNotice(term), blocks);
    Collect(BlockNotice(term), blocks)
  }

  /** The notices keep block order: two runs of blocks give their notices one run after
      the other, and a single block gives its own notice, if any. */
  lemma NoticesInBlockOrder(a: seq<Block>, b: seq<Block>, blk: Block, term: string)
    ensures NoticesOf(a + b, term) == NoticesOf(a, term) + NoticesOf(b, term)
    ensures NoticesOf([blk], term)
         == if NoticeOfBlock(blk, term).Some? then [NoticeOfBlock(blk, term).value] else []
  {
    CollectAppend(BlockNotice(term), a, b);
    CollectOne(BlockNotice(term), blk);
  }

  lemma NoticesOfStep(blocks: seq<Block>, i: int, term: string)
    requires 0 <= i < |blocks|
    ensures var r := NoticeOfBlock(blocks[i], term);
      NoticesOf(blocks[..i + 1], term)
        == NoticesOf(blocks[..i], term) + (if r.Some? then [r.value] else [])
  {
    CollectStep(BlockNotice(term), blocks, i);
  }

  /** A page with neither "article-block" nor "published-date" in it has no notices. */
  predicate HasNoticeContent(html: string)
  {
    Contains(html, "article-block") || Contains(html, "published-date")
  }

  /** `scrape_listing(term)`, given the fetched page and the blocks found on it. */
  function ListingOf(html: string, blocks: seq<Block>, term: string): (ns: seq<Notice>)
    ensures !HasNoticeContent(html) ==> ns == []
    ensures HasNoticeContent(html) ==>
      forall n :: n in ns <==> exists k :: 0 <= k < |blocks| && NoticeOfBlock(blocks[k], term) == Some(n)
    ensures |ns| <= |blocks|
    ensures forall n :: n in ns ==> Listed(n, term)
  {
    if !HasNoticeContent(html) then [] else NoticesOf(blocks, term)
  }

  method ScrapeListing(html: string, blocks: seq<Block>, term: string) returns (notices: seq<Notice>)
    ensures notices == ListingOf(html, blocks, term)
  {
    if !Contains(html, "article-block") && !Contains(html, "published-date") {
      return [];
    }
    notices := [];
    var i := 0;
    while i < |blocks|
      invariant 0 <= i <= |blocks|
      invariant notices == NoticesOf(blocks[..i], term)
    {
      NoticesOfStep(blocks, i, term);
      var r := ParseBlock(blocks[i], term);
      if r.Some? {
        notices := notices + [r.value];
      }
      i := i + 1;
    }
    assert blocks[..i] == blocks;
  }

  /** A block is skipped exactly when it has no date label or its date does not parse;
      a kept block's notice has the block's date, read back from its own date text. */
  lemma BlockKeptIffDated(b: Block, term: string)
    ensures NoticeOfBlock(b, term).Some? <==>
      b.dateLabel.Some? && ParseDate(DateText(b.dateLabel.value)).Some?
    ensures NoticeOfBlock(b, term).Some? ==>
      NoticeOfBlock(b, term).value.date == ParseDate(DateText(b.dateLabel.value)).value
  {
  }
}
