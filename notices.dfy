/** The notice record a listing block becomes, and the two keys that identify it. */
module Notices {
  import opened Wrappers
  import opened Text
  import opened Dates
  import Details

  /** One company named on a notice. */
  datatype Company = Company(name: string, tradingAs: string, acn: string, status: string)

  /** A notice scraped from a search listing. `detail` stays `None` until the detail page
      of a new notice has been read; a notice without a link, or whose page could not be
      read, then carries `Details.Blank`. */
  datatype Notice = Notice(
    date: Date,
    dateStr: string,
    noticeType: string,
    companies: seq<Company>,
    viewLink: string,
    searchTerm: string,
    detail: Option<Details.Detail>)

  /** The companies' ACNs, in order. */
  function Acns(cs: seq<Company>): (r: seq<string>)
    ensures |r| == |cs| && forall i :: 0 <= i < |cs| ==> r[i] == cs[i].acn
  {
    if cs == [] then [] else [cs[0].acn] + Acns(cs[1..])
  }

  /** `notice_key`: the identity under which a notice is remembered between runs — its
      link, or the published date, type and all ACNs joined with "|" when it has none. */
  function NoticeKey(n: Notice): string
  {
    if n.viewLink != "" then n.viewLink
    else n.dateStr + "|" + n.noticeType + "|" + Join(Acns(n.companies), "|")
  }

  /** The key `deduplicate` compares: the link, or only date and type when there is none. */
  function DedupKey(n: Notice): string
  {
    if n.viewLink != "" then n.viewLink else n.dateStr + "|" + n.noticeType
  }

  /** The two keys coincide exactly when the notice has a link; without one, the
      remembered key extends the deduplication key by "|" and the joined ACNs. */
  lemma KeysAgree(n: Notice)
    ensures NoticeKey(n) == DedupKey(n) <==> n.viewLink != ""
    ensures n.viewLink != "" ==> NoticeKey(n) == n.viewLink
    ensures n.viewLink == "" ==>
      NoticeKey(n) == DedupKey(n) + "|" + Join(Acns(n.companies), "|")
  {
    if n.viewLink == "" {
      assert |NoticeKey(n)| > |DedupKey(n)|;
    }
  }

  /** Neither key looks at the search term or the detail record, so attaching details or
      finding the notice under another term does not change its identity. */
  lemma KeysIgnoreDetail(n: Notice, term: string, d: Option<Details.Detail>)
    ensures NoticeKey(n.(searchTerm := term, detail := d)) == NoticeKey(n)
    ensures DedupKey(n.(searchTerm := term, detail := d)) == DedupKey(n)
  {
  }
}
