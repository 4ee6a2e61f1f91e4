/**
  The grouping behind the daily e-mail: notices in liquidation, in administration and the
  rest; the set of distinct ACNs; the severity a notice card is coloured by; and the rule
  that an empty field yields no table row.
 */
module Digest {
  import opened Wrappers
  import opened Text
  import opened Notices
  import opened Seqs
  import opened Filter
  import Details

  /** Some company of the notice has a status containing `word`. */
  predicate AnyStatus(n: Notice, word: string)
  {
    exists c :: c in n.companies && Contains(c.status, word)
  }

  /** The test of a group's comprehension: some company's status mentions `word`. */
  function StatusTest(word: string): Notice -> bool
  {
    n => AnyStatus(n, word)
  }

  /** The notices with a company whose status mentions `word`, in order, each as often as
      it occurs. */
  function WithStatus(ns: seq<Notice>, word: string): (r: seq<Notice>)
    ensures Subseq(r, ns)
    ensures forall n :: n in r <==> n in ns && AnyStatus(n, word)
    ensures forall n :: multiset(r)[n] == if AnyStatus(n, word) then multiset(ns)[n] else 0
  {
    Keep(StatusTest(word), ns)
  }

  /** The "in liquidation" group. */
  function Liquidations(ns: seq<Notice>): seq<Notice>
  {
    WithStatus(ns, "Liquidation")
  }

  /** The "in administration" group. */
  function Administrations(ns: seq<Notice>): seq<Notice>
  {
    WithStatus(ns, "Administrator")
  }

  /** The test of the "other" comprehension: in neither list. */
  function OutsideTest(lq: seq<Notice>, ad: seq<Notice>): Notice -> bool
  {
    n => n !in lq && n !in ad
  }

  /** The notices of `ns` found in neither list, in order, each as often as it occurs. */
  function Outside(ns: seq<Notice>, lq: seq<Notice>, ad: seq<Notice>): (r: seq<Notice>)
    ensures Subseq(r, ns)
    ensures forall n :: n in r <==> n in ns && n !in lq && n !in ad
    ensures forall n :: multiset(r)[n] == if n !in lq && n !in ad then multiset(ns)[n] else 0
  {
    Keep(OutsideTest(lq, ad), ns)
  }

  /** The "other notices" group: those in neither of the two lists above. */
  function Others(ns: seq<Notice>): seq<Notice>
  {
    Outside(ns, Liquidations(ns), Administrations(ns))
  }

  /** The groups cover every notice; "other" holds exactly the notices with no company in
      liquidation or administration, and shares no notice with the other two groups. A
      notice with companies in both states is listed under both. */
  lemma GroupsCover(ns: seq<Notice>)
    ensures forall n :: n in ns ==> n in Liquidations(ns) || n in Administrations(ns) || n in Others(ns)
    ensures forall n :: n in Others(ns) <==>
      n in ns && !AnyStatus(n, "Liquidation") && !AnyStatus(n, "Administrator")
    ensures forall n :: n in Others(ns) ==> n !in Liquidations(ns) && n !in Administrations(ns)
  {
  }

  /** The distinct non-empty ACNs over all notices. */
  function UniqueAcns(ns: seq<Notice>): set<string>
  {
    set n, c | n in ns && c in n.companies && c.acn != "" :: c.acn
  }

  /** The ACN count of the summary line is that of the three groups together. */
  lemma UniqueAcnsOfGroups(ns: seq<Notice>)
    ensures UniqueAcns(ns)
         == UniqueAcns(Liquidations(ns)) + UniqueAcns(Administrations(ns)) + UniqueAcns(Others(ns))
  {
    var lq, ad, ot := Liquidations(ns), Administrations(ns), Others(ns);
    UniqueAcnsOfMembers(lq, ns);
    UniqueAcnsOfMembers(ad, ns);
    UniqueAcnsOfMembers(ot, ns);
    forall a | a in UniqueAcns(ns)
      ensures a in UniqueAcns(lq) + UniqueAcns(ad) + UniqueAcns(ot)
    {
      var n, c :| n in ns && c in n.companies && c.acn != "" && c.acn == a;
      GroupsCover(ns);
      if n in lq {
        assert a in UniqueAcns(lq);
      } else if n in ad {
        assert a in UniqueAcns(ad);
      } else {
        assert a in UniqueAcns(ot);
      }
    }
  }

  /** Notices drawn from `b` have no ACN that `b` lacks. */
  lemma UniqueAcnsOfMembers(a: seq<Notice>, b: seq<Notice>)
    requires forall n :: n in a ==> n in b
    ensures UniqueAcns(a) <= UniqueAcns(b)
  {
  }

  /** The card colour, from the most to the least severe state named in the status. */
  datatype Severity = InLiquidation | InAdministration | InRestructuring | Neutral

  function SeverityOf(status: string): Severity
  {
    if Contains(status, "Liquidation") then InLiquidation
    else if Contains(status, "Administrator") then InAdministration
    else if Contains(status, "Restructuring") then InRestructuring
    else Neutral
  }

  /** The status a card shows: the detail page's, else the first company's, else "". */
  function CardStatus(n: Notice): string
  {
    var fromDetail := match n.detail
      case Some(Parsed(_, _, _, status, _, _, _, _, _, _, _, _, _, _, _, _, _, _, _, _, _, _, _, _, _)) => status
      case _ => "";
    if fromDetail != "" then fromDetail
    else if n.companies != [] then n.companies[0].status
    else ""
  }

  /** A card coloured as a liquidation by its first company's status belongs to the
      liquidation group; one coloured as an administration, to the administration group
      (and also to the liquidation group when another company is in liquidation). */
  lemma CardSeverityMatchesGroup(ns: seq<Notice>, n: Notice)
    requires n in ns && n.companies != [] && CardStatus(n) == n.companies[0].status
    ensures SeverityOf(CardStatus(n)) == InLiquidation ==> n in Liquidations(ns)
    ensures SeverityOf(CardStatus(n)) == InAdministration ==> n in Administrations(ns)
    ensures SeverityOf(CardStatus(n)) == Neutral || SeverityOf(CardStatus(n)) == InRestructuring
            ==> !Contains(n.companies[0].status, "Liquidation")
                && !Contains(n.companies[0].status, "Administrator")
  {
    assert n.companies[0] in n.companies;
  }

  const RowOpen := "<tr><td style=\"padding:2px 8px 2px 0;color:#888;font-size:12px;vertical-align:top;white-space:nowrap;\">"
  const RowMiddle := "</td><td style=\"padding:2px 0;font-size:12px;\">"
  const RowClose := "</td></tr>"

  /** `fmt`: a two-cell table row naming a field, or nothing when the value is empty. */
  function Fmt(name: string, value: string): (row: string)
    ensures row == "" <==> value == ""
    ensures value != "" ==> StartsWith(row, RowOpen + name + RowMiddle)
    ensures value != "" ==> OccursAt(row, value, |RowOpen + name + RowMiddle|)
    ensures value != "" ==> |row| == |RowOpen + name + RowMiddle| + |value| + |RowClose|
    ensures value != "" ==> row[|row| - |RowClose|..] == RowClose
  {
    if value == "" then "" else RowOpen + name + RowMiddle + value + RowClose
  }
}
