/**
  The detail-page half of the scraper: `extract_table_pairs` and the field, alias and
  fallback logic of `scrape_detail_page`. The HTML tree is not modelled; each element
  that follows the page's "Notice" heading is given as the texts BeautifulSoup would
  extract from it, in document order.
 */
module Details {
  import opened Wrappers
  import opened Text
  import opened Seqs

  /** A `<strong>` element: its stripped text, and the stripped text of the `<p>` that
      precedes (as a sibling) the `<p>` enclosing it; None when either `<p>` is missing. */
  datatype Strong = Strong(text: string, previousParagraph: Option<string>)

  /** A text node: its text, and the stripped text of its parent's next sibling, if any. */
  datatype TextNode = TextNode(text: string, parentNextSibling: Option<string>)

  /** One element following the "Notice" heading. `isAboutUsList` marks a `<ul>` holding
      a link to "/about-us". `tables` holds, per `<table>`, the stripped texts of the
      `<td>` cells of each `<tr>`. */
  datatype Sibling = Sibling(
    isAboutUsList: bool,
    tables: seq<seq<seq<string>>>,
    headings: seq<string>,
    paragraphs: seq<string>,
    listItems: seq<string>,
    textNodes: seq<TextNode>,
    strongs: seq<Strong>)

  /** A fetched detail page: whether it has an `<h2>` whose whole text is "Notice" in any
      letter case, and the elements that follow that heading. */
  datatype DetailPage = DetailPage(hasNoticeHeading: bool, siblings: seq<Sibling>)

  /** The `detail` dictionary. `Blank` is the empty dictionary returned when the page
      could not be fetched or has no "Notice" heading. Optional fields are the keys the
      source only sometimes sets. */
  datatype Detail =
    | Blank
    | Parsed(
        allFields: map<string, string>,
        company: string,
        acn: string,
        status: string,
        appointmentDate: string,
        appointor: string,
        dateOfNotice: string,
        practitionerName: string,
        practitionerAddress: string,
        contactPerson: string,
        contactNumber: string,
        contactEmail: string,
        meetingLocation: string,
        meetingDate: string,
        meetingTime: string,
        proofOfDebtDeadline: Option<string>,
        hearingDate: string,
        hearingTime: string,
        court: string,
        dividendDate: string,
        noticeTitle: Option<string>,
        bodyText: seq<string>,
        agendaItems: seq<string>,
        specialInstructions: string,
        practitionerRole: Option<string>)

  // ---------------------------------------------------------------------------
  // The content region
  // ---------------------------------------------------------------------------

  /** The elements after the heading up to, not including, the first "about-us" list. */
  function Region(sibs: seq<Sibling>): (r: seq<Sibling>)
    ensures |r| <= |sibs| && r == sibs[..|r|]
    ensures forall k :: 0 <= k < |r| ==> !r[k].isAboutUsList
    ensures |r| < |sibs| ==> sibs[|r|].isAboutUsList
  {
    if sibs == [] || sibs[0].isAboutUsList then [] else [sibs[0]] + Region(sibs[1..])
  }

  /** The loop over `find_next_siblings()` that stops at the "about-us" list. */
  method ContentRegion(sibs: seq<Sibling>) returns (content: seq<Sibling>)
    ensures content == Region(sibs)
  {
    content := [];
    var i := 0;
    while i < |sibs|
      invariant 0 <= i <= |sibs| && content == sibs[..i]
      invariant forall k :: 0 <= k < i ==> !sibs[k].isAboutUsList
    {
      if sibs[i].isAboutUsList {
        break;
      }
      content := content + [sibs[i]];
      i := i + 1;
    }
    RegionUnique(sibs, content);
  }

  /** The three properties in Region's contract pin the region down. */
  lemma {:induction false} RegionUnique(sibs: seq<Sibling>, c: seq<Sibling>)
    requires |c| <= |sibs| && c == sibs[..|c|]
    requires forall k :: 0 <= k < |c| ==> !c[k].isAboutUsList
    requires |c| < |sibs| ==> sibs[|c|].isAboutUsList
    ensures c == Region(sibs)
  {
  }

  /** Everything BeautifulSoup's `find_all` would list in the region, in document order. */
  function Tables(sibs: seq<Sibling>): seq<seq<seq<string>>>
  {
    if sibs == [] then [] else sibs[0].tables + Tables(sibs[1..])
  }

  function Headings(sibs: seq<Sibling>): seq<string>
  {
    if sibs == [] then [] else sibs[0].headings + Headings(sibs[1..])
  }

  function Paragraphs(sibs: seq<Sibling>): seq<string>
  {
    if sibs == [] then [] else sibs[0].paragraphs + Paragraphs(sibs[1..])
  }

  function ListItems(sibs: seq<Sibling>): seq<string>
  {
    if sibs == [] then [] else sibs[0].listItems + ListItems(sibs[1..])
  }

  function TextNodes(sibs: seq<Sibling>): seq<TextNode>
  {
    if sibs == [] then [] else sibs[0].textNodes + TextNodes(sibs[1..])
  }

  function Strongs(sibs: seq<Sibling>): seq<Strong>
  {
    if sibs == [] then [] else sibs[0].strongs + Strongs(sibs[1..])
  }

  // ---------------------------------------------------------------------------
  // extract_table_pairs
  // ---------------------------------------------------------------------------

  /** The rows of all tables, table after table. */
  function Flatten(tables: seq<seq<seq<string>>>): seq<seq<string>>
  {
    if tables == [] then [] else Flatten(tables[..|tables| - 1]) + tables[|tables| - 1]
  }

  /** The label of a two-cell row: its first cell without trailing colons. */
  function RowKey(row: seq<string>): string
    requires |row| == 2
  {
    RStripChar(row[0], ':')
  }

  /** A row contributes when it has exactly two cells and both its label and value are non-empty. */
  predicate PairRow(row: seq<string>)
  {
    |row| == 2 && RowKey(row) != "" && row[1] != ""
  }

  /** The label-to-value map, row by row, a later row overwriting an earlier one. */
  function TablePairs(rows: seq<seq<string>>): (m: map<string, string>)
    ensures forall k :: k in m ==> k != "" && k[|k| - 1] != ':' && m[k] != ""
    decreases |rows|
  {
    if rows == [] then map[]
    else
      var m := TablePairs(rows[..|rows| - 1]);
      var row := rows[|rows| - 1];
      if PairRow(row) then m[RowKey(row) := row[1]] else m
  }

  /** The value kept for a label is that of the last contributing row with that label. */
  lemma {:induction false} TablePairsLastWins(rows: seq<seq<string>>, i: int)
    requires 0 <= i < |rows| && PairRow(rows[i])
    requires forall j :: i < j < |rows| && PairRow(rows[j]) ==> RowKey(rows[j]) != RowKey(rows[i])
    ensures RowKey(rows[i]) in TablePairs(rows)
    ensures TablePairs(rows)[RowKey(rows[i])] == rows[i][1]
    decreases |rows|
  {
    if i < |rows| - 1 {
      var init := rows[..|rows| - 1];
      assert init[i] == rows[i];
      forall j | i < j < |init| && PairRow(init[j]) ensures RowKey(init[j]) != RowKey(init[i]) {
        assert init[j] == rows[j];
      }
      TablePairsLastWins(init, i);
    }
  }

  /** Every entry of the map comes from a contributing row with that label and value. */
  lemma {:induction false} TablePairsFromRows(rows: seq<seq<string>>, k: string)
    requires k in TablePairs(rows)
    ensures exists i :: 0 <= i < |rows| && PairRow(rows[i]) && RowKey(rows[i]) == k
                        && rows[i][1] == TablePairs(rows)[k]
    decreases |rows|
  {
    var init := rows[..|rows| - 1];
    var row := rows[|rows| - 1];
    if PairRow(row) && RowKey(row) == k {
      assert PairRow(rows[|rows| - 1]);
    } else {
      TablePairsFromRows(init, k);
      var i :| 0 <= i < |init| && PairRow(init[i]) && RowKey(init[i]) == k
               && init[i][1] == TablePairs(init)[k];
      assert rows[i] == init[i];
    }
  }

  lemma TablePairsStep(done: seq<seq<string>>, rows: seq<seq<string>>, j: int)
    requires 0 <= j < |rows|
    ensures TablePairs(done + rows[..j + 1])
         == if PairRow(rows[j]) then TablePairs(done + rows[..j])[RowKey(rows[j]) := rows[j][1]]
            else TablePairs(done + rows[..j])
  {
    assert (done + rows[..j + 1])[..|done + rows[..j]|] == done + rows[..j];
  }

  lemma FlattenStep(tables: seq<seq<seq<string>>>, i: int)
    requires 0 <= i < |tables|
    ensures Flatten(tables[..i + 1]) == Flatten(tables[..i]) + tables[i]
  {
    assert tables[..i + 1][..i] == tables[..i];
  }

  /** `extract_table_pairs`: the nested loops over tables and rows filling `data`. */
  method ExtractTablePairs(tables: seq<seq<seq<string>>>) returns (data: map<string, string>)
    ensures data == TablePairs(Flatten(tables))
  {
    data := map[];
    var i := 0;
    while i < |tables|
      invariant 0 <= i <= |tables|
      invariant data == TablePairs(Flatten(tables[..i]))
    {
      var done := Flatten(tables[..i]);
      var rows := tables[i];
      var j := 0;
      assert done + rows[..j] == done;
      while j < |rows|
        invariant 0 <= j <= |rows|
        invariant data == TablePairs(done + rows[..j])
      {
        var cells := rows[j];
        TablePairsStep(done, rows, j);
        if |cells| == 2 {
          var key := RStripChar(cells[0], ':');
          var val := cells[1];
          assert key == RowKey(rows[j]) && val == rows[j][1];
          if key != "" && val != "" {
            data := data[key := val];
          }
        }
        j := j + 1;
      }
      assert rows[..j] == rows;
      FlattenStep(tables, i);
      i := i + 1;
    }
    assert tables[..i] == tables;
  }

  // ---------------------------------------------------------------------------
  // Named fields
  // ---------------------------------------------------------------------------

  /** `kv.get(a0, kv.get(a1, ... ""))`: the value under the first alias present. */
  function Lookup(kv: map<string, string>, aliases: seq<string>): (v: string)
    ensures forall i :: (0 <= i < |aliases| && aliases[i] in kv
                         && forall j :: 0 <= j < i ==> aliases[j] !in kv) ==> v == kv[aliases[i]]
    ensures (forall i :: 0 <= i < |aliases| ==> aliases[i] !in kv) ==> v == ""
  {
    if aliases == [] then ""
    else if aliases[0] in kv then kv[aliases[0]]
    else Lookup(kv, aliases[1..])
  }

  /** The synthesised proof-of-debt deadline, "<time> on <date>", present only when both
      the generic "Time" and "Date" values are non-empty. */
  function ProofOfDebtDeadline(kv: map<string, string>): (r: Option<string>)
  {
    var time, date := Lookup(kv, ["Time"]), Lookup(kv, ["Date"]);
    if time != "" && date != "" then Some(time + " on " + date) else None
  }

  /** Body paragraphs: those longer than 20 characters, each as often as it occurs and
      in document order; nothing else. */
  function LongParagraphs(ps: seq<string>): (r: seq<string>)
    ensures Subseq(r, ps)
    ensures forall p :: multiset(r)[p] == if |p| > 20 then multiset(ps)[p] else 0
    ensures forall p :: p in r <==> p in ps && |p| > 20
  {
    Keep(p => |p| > 20, ps)
  }

  /** Agenda items: the non-empty list-item texts, each as often as it occurs and in
      document order; nothing else. */
  function NonEmptyItems(items: seq<string>): (r: seq<string>)
    ensures Subseq(r, items)
    ensures forall t :: multiset(r)[t] == if t != "" then multiset(items)[t] else 0
    ensures forall t :: t in r <==> t in items && t != ""
  {
    Keep(t => t != "", items)
  }

  /** The first `<h2>` of the region, if any. */
  function FirstHeading(hs: seq<string>): Option<string>
  {
    if hs == [] then None else Some(hs[0])
  }

  // ---------------------------------------------------------------------------
  // Special instructions
  // ---------------------------------------------------------------------------

  /** A text node the pattern `[Ss]pecial` finds. */
  predicate MentionsSpecial(t: string)
  {
    Contains(t, "Special") || Contains(t, "special")
  }

  /** The text a matching node contributes: its parent's next sibling's text, if longer than 10. */
  function SpecialText(node: TextNode): Option<string>
  {
    if MentionsSpecial(node.text) && node.parentNextSibling.Some?
       && |node.parentNextSibling.value| > 10
    then Some(node.parentNextSibling.value)
    else None
  }

  /** All contributed texts, in document order: exactly the texts some node contributes,
      each longer than 10 characters. */
  function SpecialTexts(nodes: seq<TextNode>): (r: seq<string>)
    ensures forall t :: t in r <==> exists k :: 0 <= k < |nodes| && SpecialText(nodes[k]) == Some(t)
    ensures forall t :: t in r ==> |t| > 10
  {
    CollectExactly(SpecialText, nodes);
    Collect(SpecialText, nodes)
  }

  /** The contributed texts keep document order: two runs of nodes contribute their
      texts one run after the other, and a single node contributes its own text, if any. */
  lemma SpecialTextsInOrder(a: seq<TextNode>, b: seq<TextNode>, node: TextNode)
    ensures SpecialTexts(a + b) == SpecialTexts(a) + SpecialTexts(b)
    ensures SpecialTexts([node]) == if SpecialText(node).Some? then [SpecialText(node).value] else []
  {
    CollectAppend(SpecialText, a, b);
    CollectOne(SpecialText, node);
  }

  /** The loop accumulating `special`, then `" ".join(special) if special else ""`. */
  method SpecialInstructions(nodes: seq<TextNode>) returns (text: string)
    ensures text == Join(SpecialTexts(nodes), " ")
  {
    var special: seq<string> := [];
    var i := 0;
    while i < |nodes|
      invariant 0 <= i <= |nodes|
      invariant special == Collect(SpecialText, nodes[..i])
    {
      var node := nodes[i];
      CollectStep(SpecialText, nodes, i);
      if MentionsSpecial(node.text) {
        match node.parentNextSibling {
          case None =>
          case Some(txt) =>
            if txt != "" && |txt| > 10 {
              special := special + [txt];
            }
        }
      }
      i := i + 1;
    }
    assert nodes[..i] == nodes;
    text := if special != [] then Join(special, " ") else "";
  }

  // ---------------------------------------------------------------------------
  // Practitioner fallback
  // ---------------------------------------------------------------------------

  /** The closed set of role labels the fallback looks for in bold text. */
  const RoleKeywords: seq<string> := ["Liquidator", "Administrator", "Restructuring Practitioner",
    "Provisional Liquidator", "Solicitor for the Applicant"]

  predicate IsRole(t: string)
  {
    t in RoleKeywords
  }

  /** The index of the first bold text that is a role label. */
  function FirstRole(strongs: seq<Strong>): (r: Option<nat>)
    ensures r.Some? ==> r.value < |strongs| && IsRole(strongs[r.value].text)
    ensures r.Some? ==> forall k :: 0 <= k < r.value ==> !IsRole(strongs[k].text)
    ensures r.None? ==> forall k :: 0 <= k < |strongs| ==> !IsRole(strongs[k].text)
  {
    if strongs == [] then None
    else if IsRole(strongs[0].text) then Some(0)
    else match FirstRole(strongs[1..])
      case None => None
      case Some(i) => Some(i + 1)
  }

  /** The name the fallback takes from a role's surroundings: the preceding paragraph's
      text when it is non-empty and shorter than 100 characters. */
  function NameNear(s: Strong): (name: string)
    ensures name == "" || (Some(name) == s.previousParagraph && |name| < 100)
    ensures s.previousParagraph.Some? ==>
              var nm := s.previousParagraph.value;
              nm != "" && |nm| < 100 ==> name == nm
  {
    match s.previousParagraph
    case Some(nm) => if nm != "" && |nm| < 100 then nm else ""
    case None => ""
  }

  /** The practitioner name and role once the fallback has run: the role is the first
      bold role label whether or not the table named the practitioner; the name falls
      back to that label's neighbouring paragraph only when the table gave none. */
  function Practitioner(tableName: string, strongs: seq<Strong>): (string, Option<string>)
  {
    match FirstRole(strongs)
    case None => (tableName, None)
    case Some(i) => (if tableName != "" then tableName else NameNear(strongs[i]), Some(strongs[i].text))
  }

  /** The two loops over `<strong>` elements, each stopping at the first role label. */
  method PractitionerFallback(tableName: string, strongs: seq<Strong>)
    returns (name: string, role: Option<string>)
    ensures (name, role) == Practitioner(tableName, strongs)
  {
    name, role := tableName, None;
    if name == "" {
      var i := 0;
      while i < |strongs|
        invariant 0 <= i <= |strongs|
        invariant forall k :: 0 <= k < i ==> !IsRole(strongs[k].text)
        invariant name == "" && role == None
      {
        var text := strongs[i].text;
        if text in RoleKeywords {
          role := Some(text);
          match strongs[i].previousParagraph {
            case None =>
            case Some(nm) =>
              if nm != "" && |nm| < 100 {
                name := nm;
              }
          }
          assert FirstRole(strongs) == Some(i);
          break;
        }
        i := i + 1;
      }
    }
    if role == None {
      var i := 0;
      while i < |strongs|
        invariant 0 <= i <= |strongs|
        invariant forall k :: 0 <= k < i ==> !IsRole(strongs[k].text)
        invariant role == None
      {
        var text := strongs[i].text;
        if text in RoleKeywords {
          role := Some(text);
          assert FirstRole(strongs) == Some(i);
          break;
        }
        i := i + 1;
      }
    }
  }

  // ---------------------------------------------------------------------------
  // scrape_detail_page
  // ---------------------------------------------------------------------------

  /** The record `scrape_detail_page` builds from a region's label-to-value map, headings,
      paragraphs and list items, and what its special-instruction and practitioner loops
      found. */
  function RecordOf(kv: map<string, string>, headings: seq<string>, paragraphs: seq<string>,
                    items: seq<string>, special: string, name: string, role: Option<string>): Detail
  {
    Parsed(
      allFields := kv,
      company := Lookup(kv, ["Company"]),
      acn := Lookup(kv, ["ACN"]),
      status := Lookup(kv, ["Status"]),
      appointmentDate := Lookup(kv, ["Appointment Date", "Appointed"]),
      appointor := Lookup(kv, ["Appointor"]),
      dateOfNotice := Lookup(kv, ["Date of Notice"]),
      practitionerName := name,
      practitionerAddress := Lookup(kv, ["Address"]),
      contactPerson := Lookup(kv, ["Contact person"]),
      contactNumber := Lookup(kv, ["Contact number"]),
      contactEmail := Lookup(kv, ["Email"]),
      meetingLocation := Lookup(kv, ["Location"]),
      meetingDate := Lookup(kv, ["Meeting date"]),
      meetingTime := Lookup(kv, ["Meeting time"]),
      proofOfDebtDeadline := ProofOfDebtDeadline(kv),
      hearingDate := Lookup(kv, ["Hearing date"]),
      hearingTime := Lookup(kv, ["Hearing time"]),
      court := Lookup(kv, ["Court"]),
      dividendDate := Lookup(kv, ["Dividend Payable Date", "Dividend payable date"]),
      noticeTitle := FirstHeading(headings),
      bodyText := LongParagraphs(paragraphs),
      agendaItems := NonEmptyItems(items),
      specialInstructions := special,
      practitionerRole := role)
  }

  /** The record built from a region, with the loops' results given by their
      specifications. */
  function FieldsOf(kv: map<string, string>, headings: seq<string>, paragraphs: seq<string>,
                    items: seq<string>, nodes: seq<TextNode>, strongs: seq<Strong>): Detail
  {
    var (name, role) := Practitioner(Lookup(kv, ["Administrator(s)", "Liquidator(s)"]), strongs);
    RecordOf(kv, headings, paragraphs, items, Join(SpecialTexts(nodes), " "), name, role)
  }

  /** The detail record a page yields: nothing without a "Notice" heading, else the
      fields read from the region before the "about-us" list. */
  function DetailOf(page: DetailPage): Detail
  {
    if !page.hasNoticeHeading then Blank
    else
      var content := Region(page.siblings);
      FieldsOf(TablePairs(Flatten(Tables(content))), Headings(content), Paragraphs(content),
               ListItems(content), TextNodes(content), Strongs(content))
  }

  /** `scrape_detail_page` once the page is fetched: locate the region, read its table
      pairs, fill the named fields, then run the special-instruction and practitioner loops. */
  method ScrapeDetailPage(page: DetailPage) returns (detail: Detail)
    ensures detail == DetailOf(page)
  {
    if !page.hasNoticeHeading {
      return Blank;
    }
    var content := ContentRegion(page.siblings);
    var kv := ExtractTablePairs(Tables(content));
    var special := SpecialInstructions(TextNodes(content));
    var name, role := PractitionerFallback(Lookup(kv, ["Administrator(s)", "Liquidator(s)"]), Strongs(content));
    detail := RecordOf(kv, Headings(content), Paragraphs(content), ListItems(content), special, name, role);
  }

  // ---------------------------------------------------------------------------
  // Properties of the detail record
  // ---------------------------------------------------------------------------

  /** Only the region before the first "about-us" list matters: whatever follows that
      list can be replaced without changing the detail record. */
  lemma DetailIgnoresTrailer(hasHeading: bool, sibs: seq<Sibling>, k: nat, tail: seq<Sibling>)
    requires k < |sibs| && sibs[k].isAboutUsList
    ensures DetailOf(DetailPage(hasHeading, sibs[..k + 1] + tail)) == DetailOf(DetailPage(hasHeading, sibs))
  {
    var r := Region(sibs);
    var other := sibs[..k + 1] + tail;
    assert |r| <= k;
    assert r == other[..|r|];
    assert other[|r|] == sibs[|r|];
    RegionUnique(other, r);
  }

  /** A page with a "Notice" heading yields the record built from its region. */
  lemma DetailOfRegion(page: DetailPage)
    requires page.hasNoticeHeading
    ensures var content := Region(page.siblings);
      DetailOf(page) == FieldsOf(TablePairs(Flatten(Tables(content))), Headings(content),
                                 Paragraphs(content), ListItems(content), TextNodes(content),
                                 Strongs(content))
  {
  }

  /** Every recorded field comes from a two-cell row of the region with that label (its
      trailing colons removed) and that value; and the last such row decides the value. */
  lemma DetailFieldsFromRegion(page: DetailPage, key: string)
    requires page.hasNoticeHeading && key in DetailOf(page).allFields
    ensures var rows := Flatten(Tables(Region(page.siblings)));
      exists i :: 0 <= i < |rows| && PairRow(rows[i]) && RowKey(rows[i]) == key
                  && rows[i][1] == DetailOf(page).allFields[key]
                  && forall j :: i < j < |rows| && PairRow(rows[j]) ==> RowKey(rows[j]) != key
  {
    var rows := Flatten(Tables(Region(page.siblings)));
    var kv := TablePairs(rows);
    DetailOfRegion(page);
    TablePairsFromRows(rows, key);
    var i :| 0 <= i < |rows| && PairRow(rows[i]) && RowKey(rows[i]) == key && rows[i][1] == kv[key];
    var last := LastRowWithKey(rows, key, i);
    TablePairsLastWins(rows, last);
  }

  /** The last contributing row with a given label, at or after a known one. */
  lemma {:induction false} LastRowWithKey(rows: seq<seq<string>>, key: string, i: int) returns (last: int)
    requires 0 <= i < |rows| && PairRow(rows[i]) && RowKey(rows[i]) == key
    ensures i <= last < |rows| && PairRow(rows[last]) && RowKey(rows[last]) == key
    ensures forall j :: last < j < |rows| && PairRow(rows[j]) ==> RowKey(rows[j]) != key
    decreases |rows| - i
  {
    if j :| i < j < |rows| && PairRow(rows[j]) && RowKey(rows[j]) == key {
      last := LastRowWithKey(rows, key, j);
    } else {
      last := i;
    }
  }

  /** The proof-of-debt deadline exists exactly when both "Time" and "Date" were found,
      and then reads "<time> on <date>". */
  lemma ProofOfDebtWhenBoth(kv: map<string, string>)
    requires forall k :: k in kv ==> kv[k] != ""
    ensures ProofOfDebtDeadline(kv).Some? <==> "Time" in kv && "Date" in kv
    ensures ProofOfDebtDeadline(kv).Some? ==>
              ProofOfDebtDeadline(kv).value == kv["Time"] + " on " + kv["Date"]
  {
  }

  /** `Lookup` with two aliases: the first one present wins. */
  lemma LookupPair(kv: map<string, string>, first: string, second: string)
    ensures Lookup(kv, [first, second])
         == if first in kv then kv[first] else if second in kv then kv[second] else ""
  {
    assert [first, second][1..] == [second];
  }

  /** Alias precedence: "Appointment Date" over "Appointed", "Administrator(s)" over
      "Liquidator(s)", "Dividend Payable Date" over "Dividend payable date"; and the
      deadline exists exactly when "Time" and "Date" do. */
  lemma NamedFieldsPrecedence(kv: map<string, string>, headings: seq<string>, paragraphs: seq<string>,
                              items: seq<string>, nodes: seq<TextNode>, strongs: seq<Strong>)
    requires forall k :: k in kv ==> kv[k] != ""
    ensures var d := FieldsOf(kv, headings, paragraphs, items, nodes, strongs);
      && d.Parsed? && d.allFields == kv
      && d.appointmentDate == (if "Appointment Date" in kv then kv["Appointment Date"]
                               else if "Appointed" in kv then kv["Appointed"] else "")
      && d.dividendDate == (if "Dividend Payable Date" in kv then kv["Dividend Payable Date"]
                            else if "Dividend payable date" in kv then kv["Dividend payable date"] else "")
      && ("Administrator(s)" in kv ==> d.practitionerName == kv["Administrator(s)"])
      && ("Administrator(s)" !in kv && "Liquidator(s)" in kv ==> d.practitionerName == kv["Liquidator(s)"])
      && (d.proofOfDebtDeadline.Some? <==> "Time" in kv && "Date" in kv)
      && (d.proofOfDebtDeadline.Some? ==> d.proofOfDebtDeadline.value == kv["Time"] + " on " + kv["Date"])
  {
    LookupPair(kv, "Appointment Date", "Appointed");
    LookupPair(kv, "Dividend Payable Date", "Dividend payable date");
    LookupPair(kv, "Administrator(s)", "Liquidator(s)");
    ProofOfDebtWhenBoth(kv);
  }

  /** The alias precedence above, for the record a page yields. */
  lemma DetailNamedFields(page: DetailPage)
    requires page.hasNoticeHeading
    ensures DetailOf(page).Parsed?
    ensures var d := DetailOf(page); var kv := d.allFields;
      && d.appointmentDate == (if "Appointment Date" in kv then kv["Appointment Date"]
                               else if "Appointed" in kv then kv["Appointed"] else "")
      && d.dividendDate == (if "Dividend Payable Date" in kv then kv["Dividend Payable Date"]
                            else if "Dividend payable date" in kv then kv["Dividend payable date"] else "")
      && ("Administrator(s)" in kv ==> d.practitionerName == kv["Administrator(s)"])
      && ("Administrator(s)" !in kv && "Liquidator(s)" in kv ==> d.practitionerName == kv["Liquidator(s)"])
      && (d.proofOfDebtDeadline.Some? <==> "Time" in kv && "Date" in kv)
      && (d.proofOfDebtDeadline.Some? ==> d.proofOfDebtDeadline.value == kv["Time"] + " on " + kv["Date"])
  {
    var content := Region(page.siblings);
    DetailOfRegion(page);
    NamedFieldsPrecedence(TablePairs(Flatten(Tables(content))), Headings(content), Paragraphs(content),
                          ListItems(content), TextNodes(content), Strongs(content));
  }

  /** The role is the first bold role label of the region, if any, whatever the table
      says; the name falls back to the paragraph before that label only when the table
      names no practitioner, and then only if it is non-empty and under 100 characters. */
  lemma PractitionerRoleAndName(tableName: string, strongs: seq<Strong>)
    ensures var (name, role) := Practitioner(tableName, strongs);
      && (role.Some? <==> exists k :: 0 <= k < |strongs| && IsRole(strongs[k].text))
      && (role.Some? ==> (exists k :: 0 <= k < |strongs| && IsRole(strongs[k].text)
                            && role.value == strongs[k].text
                            && (forall j :: 0 <= j < k ==> !IsRole(strongs[j].text))))
      && (tableName != "" ==> name == tableName)
      && (tableName == "" && name != "" ==>
            (exists k :: 0 <= k < |strongs| && IsRole(strongs[k].text)
                         && strongs[k].previousParagraph == Some(name) && |name| < 100))
      && (tableName == "" ==>
            forall k :: 0 <= k < |strongs| && IsRole(strongs[k].text)
                        && (forall j :: 0 <= j < k ==> !IsRole(strongs[j].text))
                        ==> name == NameNear(strongs[k]))
  {
    match FirstRole(strongs)
    case None =>
    case Some(i) =>
      assert IsRole(strongs[i].text);
  }

  /** Body paragraphs are exactly the region's paragraphs longer than 20 characters, and
      agenda items exactly its non-empty list items. */
  lemma DetailBodyAndAgenda(page: DetailPage)
    requires page.hasNoticeHeading
    ensures var d := DetailOf(page); var content := Region(page.siblings);
      && d.Parsed?
      && Subseq(d.bodyText, Paragraphs(content))
      && (forall p :: multiset(d.bodyText)[p] == if |p| > 20 then multiset(Paragraphs(content))[p] else 0)
      && Subseq(d.agendaItems, ListItems(content))
      && (forall t :: multiset(d.agendaItems)[t] == if t != "" then multiset(ListItems(content))[t] else 0)
  {
    var content := Region(page.siblings);
    DetailOfRegion(page);
  }
}
