/**
  One run of the monitor (`main`): list every search term, deduplicate, keep the recent
  notices, read the detail pages of the new ones, stamp all recent notices as seen and
  prune the store for saving. The fetched pages and the clock reading are inputs.
 */
module Run {
  import opened Wrappers
  import opened Dates
  import opened Notices
  import opened Seqs
  import opened Details
  import opened Listing
  import opened Filter

  /** A listing page as fetched for one term: its HTML and the notice blocks found in it;
      `None` when fetching or parsing it failed and the term was skipped. */
  type Fetched = Option<(string, seq<Block>)>

  /** The notices one fetched page contributes: none when the page failed. */
  function PageNotices(page: Fetched, term: string): seq<Notice>
  {
    if page.Some? then ListingOf(page.value.0, page.value.1, term) else []
  }

  /** The notices of each fetched page, page by page. */
  function PageLists(pages: seq<Fetched>, terms: seq<string>): (r: seq<seq<Notice>>)
    requires |pages| == |terms|
    ensures |r| == |pages|
    ensures forall k :: 0 <= k < |pages| ==> r[k] == PageNotices(pages[k], terms[k])
  {
    seq(|pages|, k requires 0 <= k < |pages| => PageNotices(pages[k], terms[k]))
  }

  /** The notices of all terms, term after term, in the order each page lists them:
      exactly the notices of the fetched pages, each listed for its page's term. */
  function AllListed(pages: seq<Fetched>, terms: seq<string>): (ns: seq<Notice>)
    requires |pages| == |terms|
    ensures forall n :: n in ns <==> exists k :: 0 <= k < |pages| && n in PageNotices(pages[k], terms[k])
    ensures forall n :: n in ns ==> exists t :: t in terms && Listed(n, t)
  {
    var lists := PageLists(pages, terms);
    ConcatMembers(lists);
    forall n | n in Concat(lists)
      ensures exists t :: t in terms && Listed(n, t)
    {
      var k :| 0 <= k < |lists| && n in lists[k];
      assert terms[k] in terms && Listed(n, terms[k]);
    }
    Concat(lists)
  }

  /** The listing keeps term order: two runs of terms give their notices one run after
      the other. */
  lemma AllListedInOrder(p1: seq<Fetched>, t1: seq<string>, p2: seq<Fetched>, t2: seq<string>)
    requires |p1| == |t1| && |p2| == |t2|
    ensures AllListed(p1 + p2, t1 + t2) == AllListed(p1, t1) + AllListed(p2, t2)
  {
    assert PageLists(p1 + p2, t1 + t2) == PageLists(p1, t1) + PageLists(p2, t2);
    ConcatAppend(PageLists(p1, t1), PageLists(p2, t2));
  }

  /** A single term gives its page's notices, in the page's order. */
  lemma AllListedOne(page: Fetched, term: string)
    ensures AllListed([page], [term]) == PageNotices(page, term)
  {
    assert PageLists([page], [term]) == [PageNotices(page, term)];
    ConcatOne(PageNotices(page, term));
  }

  /** The notice after its detail page is read: a link whose page could be read yields
      that page's record; no link, or a page that could not be read, an empty one. */
  function WithDetail(n: Notice, pages: map<string, DetailPage>): (m: Notice)
    ensures NoticeKey(m) == NoticeKey(n) && DedupKey(m) == DedupKey(n)
    ensures m.detail.Some?
  {
    var d := if n.viewLink != "" && n.viewLink in pages then DetailOf(pages[n.viewLink]) else Blank;
    KeysIgnoreDetail(n, n.searchTerm, Some(d));
    n.(detail := Some(d))
  }

  /** The loop that sets `notice["detail"]` on each new notice. */
  method AttachDetails(ns: seq<Notice>, pages: map<string, DetailPage>) returns (out: seq<Notice>)
    ensures |out| == |ns|
    ensures forall i :: 0 <= i < |ns| ==> out[i] == WithDetail(ns[i], pages)
  {
    out := [];
    var i := 0;
    while i < |ns|
      invariant 0 <= i <= |ns|
      invariant |out| == i
      invariant forall j :: 0 <= j < i ==> out[j] == WithDetail(ns[j], pages)
    {
      var n := ns[i];
      var d: Detail;
      if n.viewLink != "" {
        if n.viewLink in pages {
          d := ScrapeDetailPage(pages[n.viewLink]);
        } else {
          d := Blank;
        }
      } else {
        d := Blank;
      }
      out := out + [n.(detail := Some(d))];
      i := i + 1;
    }
  }

  /** The loop over the search terms, skipping a term whose page failed. */
  method ListAll(pages: seq<Fetched>) returns (all: seq<Notice>)
    requires |pages| == |SearchTerms|
    ensures all == AllListed(pages, SearchTerms)
  {
    all := [];
    var i := 0;
    while i < |SearchTerms|
      invariant 0 <= i <= |SearchTerms|
      invariant all == AllListed(pages[..i], SearchTerms[..i])
    {
      AllListedStep(pages, SearchTerms, i);
      if pages[i].Some? {
        var ns := ScrapeListing(pages[i].value.0, pages[i].value.1, SearchTerms[i]);
        all := all + ns;
      }
      i := i + 1;
    }
    assert pages[..i] == pages && SearchTerms[..i] == SearchTerms;
  }

  lemma AllListedStep(pages: seq<Fetched>, terms: seq<string>, i: int)
    requires |pages| == |terms| && 0 <= i < |pages|
    ensures AllListed(pages[..i + 1], terms[..i + 1])
         == AllListed(pages[..i], terms[..i]) + PageNotices(pages[i], terms[i])
  {
    var lists := PageLists(pages, terms);
    assert PageLists(pages[..i + 1], terms[..i + 1]) == lists[..i + 1];
    assert PageLists(pages[..i], terms[..i]) == lists[..i];
    ConcatStep(lists, i);
  }

  /** `main` from the listings to the save: returns the new notices with their details
      (what the e-mail reports), leaves the store refreshed, and returns what would be
      written back and how many entries were pruned. */
  method RunOnce(pages: seq<Fetched>, details: map<string, DetailPage>, now: DateTime, store: SeenStore)
    returns (reported: seq<Notice>, written: map<string, DateTime>, prunedCount: int)
    requires |pages| == |SearchTerms| && NowInRange(now)
    modifies store
    ensures var recent := Recent(Dedup(AllListed(pages, SearchTerms)), now);
      && |reported| == |Unseen(recent, old(store.entries))|
      && (forall i :: 0 <= i < |reported| ==>
            reported[i] == WithDetail(Unseen(recent, old(store.entries))[i], details))
      && store.entries == Refreshed(old(store.entries), recent, now)
      && written == Pruned(store.entries, SeenCutoff(now))
      && prunedCount == |store.entries| - |written|
  {
    var all := ListAll(pages);
    var unique := Deduplicate(all);
    var recent := Recent(unique, now);
    var newNotices := Unseen(recent, store.entries);
    reported := AttachDetails(newNotices, details);
    store.Refresh(recent, now);
    written := Pruned(store.entries, SeenCutoff(now));
    prunedCount := |store.entries| - |written|;
  }

  /** What a run reports: each notice of the last seven days, once per deduplication key,
      that was not in the store, with its detail attached; and afterwards every recent
      notice is in the written store, stamped with the run's time. */
  lemma RunReportsOnlyNew(pages: seq<Fetched>, details: map<string, DetailPage>, now: DateTime,
                          seen: map<string, DateTime>)
    requires |pages| == |SearchTerms| && NowInRange(now)
    ensures var all := AllListed(pages, SearchTerms);
      var recent := Recent(Dedup(all), now);
      var newOnes := Unseen(recent, seen);
      var written := Pruned(Refreshed(seen, recent, now), SeenCutoff(now));
      && Subseq(newOnes, all)
      && DistinctKeys(newOnes)
      && (forall n :: n in newOnes ==> IsRecent(n, now) && NoticeKey(n) !in seen)
      && (forall n :: n in recent ==> NoticeKey(n) in written && written[NoticeKey(n)] == now)
  {
    var all := AllListed(pages, SearchTerms);
    NewNoticesDistinct(all, now, seen);
    FilterChain(all, now, seen);
    RefreshedSurvivesSave(seen, Recent(Dedup(all), now), now);
  }

  lemma NewNoticesDistinct(all: seq<Notice>, now: DateTime, seen: map<string, DateTime>)
    requires NowInRange(now)
    ensures DistinctKeys(Unseen(Recent(Dedup(all), now), seen))
  {
    var recent := Recent(Dedup(all), now);
    FilterChain(all, now, seen);
    DedupFirstWins(all);
    SubseqTrans(Unseen(recent, seen), recent, Dedup(all));
    SubseqKeepsDistinct(Unseen(recent, seen), Dedup(all));
  }
}
