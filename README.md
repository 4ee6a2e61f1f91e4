# ASIC published-notices monitor — a verified model of its data processing

The monitor runs once a day. It searches the ASIC published-notices site for a fixed list
of renewable-energy terms and reads the notice blocks of each results page. It keeps the
notices published in the last seven days, drops those whose key is already in the seen
store, reads the detail page of each new one and e-mails a digest. The seen store is a
JSON file. It holds the key of each notice listed as recent on a run, with the time it
was last listed. Entries older than thirty days are dropped when the file is saved.

This project models the deterministic part of that pipeline in Dafny and proves what it
promises. The browser, the HTML parser, the mail and the file system stay out: the model
takes what they produce as inputs.

- `wrappers.dfy`: `Option`.
- `text.dfy` (`Text`): the Python string built-ins the scraper uses, over `seq<char>`.
  They are `str.isspace`, `strip`, `rstrip(c)`, `find`/`in`, `split(sep)`, `sep.join`,
  `startswith`, `replace(s, "")` and ASCII `lower`.
- `dates.dfy` (`Dates`): `parse_date`. It tries `strptime(text.strip(), "%d/%m/%Y")`, then
  `"%d %B %Y"`. The model follows CPython's strptime rules:
  - `%d` is `3[01]|[12]\d|0[1-9]|[1-9]| [1-9]`. The last alternative, a blank before one
    digit, never applies here: the text is stripped first and `%d` opens both formats, so
    the text never starts with a blank;
  - `%m` is `1[0-2]|0[1-9]|[1-9]`;
  - `%Y` is exactly four digits;
  - a blank in the format matches one or more whitespace characters;
  - `%B` is a full English month name in any letter case;
  - the whole text must match;
  - year 0 and impossible calendar days are rejected.

  The module also has day numbers (`date.toordinal()`), `date - timedelta(days=n)`, and
  UTC instants (a date plus microseconds since midnight). Instants are ordered as their
  `isoformat()` texts compare.
- `notices.dfy` (`Notices`): the notice record, `notice_key`, and the different key
  `deduplicate` uses.
- `listing.dfy` (`Listing`): `build_search_url` and the block loop of `scrape_listing`.
  Each block arrives as the texts the HTML navigation finds in it: its date label, its
  first `<h3>`, each `<dl>` with its `dt`/`dd` texts, the preceding paragraph and that
  paragraph's `<span>`, and the candidate link targets.
- `details.dfy` (`Details`): `scrape_detail_page` and `extract_table_pairs`. The page is
  its sequence of siblings after the "Notice" heading, each with its tables, headings,
  paragraphs, list items, text nodes and bold texts.
- `filter.dfy` (`Filter`): `deduplicate`, `is_recent`, the "new" filter of `main`, the
  seen store with its refresh loop (a class over a `map` field), and the pruning
  `save_seen` does before writing.
- `digest.dfy` (`Digest`): the grouping of `build_email`, the card severity of
  `build_notice_card`, and `fmt`.
- `run.dfy` (`Run`): the sequence of `main`, from the listings to the save.

Loops in the source are methods with loop invariants. Each is proved equal to a
specification function, and the lemmas state the properties of those functions.

## Model

| member | source | states |
|---|---|---|
| `Text.Strip` | scrape_asic.py:86 | `strip()` leaves an infix with no whitespace at either end and only whitespace around it |
| `Text.Split` | scrape_asic.py:227 | `split(sep)` gives at least one part; the parts joined by `sep` are the text; no part contains `sep`; the text is one part when `sep` does not occur, and otherwise the first part is the text before its leftmost occurrence |
| `Text.SplitSingle` | scrape_asic.py:227-228 | the split has a single part exactly when the separator does not occur |
| `Dates.DaysInMonth` | scrape_asic.py:85-86 | months have 28 to 31 days; February has 29 exactly in leap years |
| `Dates.DayNumberOrder` | scrape_asic.py:366 | calendar order of valid dates is the order of their day numbers, both ways |
| `Dates.MinusDays` | scrape_asic.py:365 | `date - timedelta(days=n)` is the valid date whose day number is n smaller |
| `Dates.MinusDaysAtNotLater` | scrape_asic.py:65 | an instant shifted back by whole days is not later than the instant |
| `Dates.ParseDate` | scrape_asic.py:83-89 | a parsed date is always a valid calendar date |
| `Dates.ParseFormatSlash` | scrape_asic.py:83-89 | a date written as dd/mm/yyyy parses back to itself when valid and to nothing when it is not (31/02 is rejected) |
| `Dates.ParseFormatLong` | scrape_asic.py:83-89 | a valid date written as "dd Monthname yyyy" parses back to itself |
| `Dates.ParseDateIgnoresPadding` | scrape_asic.py:86 | surrounding whitespace never changes the result |
| `Dates.SlashFormSpellings` | scrape_asic.py:84-86 | `"%d/%m/%Y"` accepts a text, both ways, exactly when it is a day token, "/", a month token, "/" and four digits naming a valid date, and yields that date |
| `Dates.NameFormSpellings` | scrape_asic.py:84-86 | `"%d %B %Y"` accepts a text, both ways, exactly when it is a day token, whitespace, a month name in any case, whitespace and four digits naming a valid date, and yields that date |
| `Dates.ParseDateSpellings` | scrape_asic.py:83-89 | `parse_date` yields a date exactly when the stripped text is one of those two spellings of it, and nothing else |
| `Dates.MonthOfNameRoundTrip` | scrape_asic.py:84 | every full month name is recognised as its own month |
| `Notices.KeysAgree` | scrape_asic.py:71-73 | of `NoticeKey` (`notice_key`) and `DedupKey` (the key of `deduplicate`, line 371): the remembered key and the deduplication key coincide exactly when the notice has a link; without one the remembered key appends "\|" and the "\|"-joined ACNs |
| `Notices.KeysIgnoreDetail` | scrape_asic.py:71-73 | neither key depends on the search term or the attached detail |
| `Listing.BuildSearchUrl` | scrape_asic.py:76-80 | the URL begins with the fixed search prefix, ends with the fixed suffix that leaves the `court`, `district` and `dnotice` filters empty, and is exactly as long as prefix, term and suffix together |
| `Listing.SearchUrlRoundTrip` | scrape_asic.py:76-80 | the term can be read back from its URL |
| `Listing.SearchUrlInjective` | scrape_asic.py:76-80 | distinct terms give distinct URLs |
| `Listing.Zip` | scrape_asic.py:213 | `zip` pairs positions up to the shorter list |
| `Listing.LastLabelledWins` | scrape_asic.py:213-217 | the last dt/dd pair whose label (colons stripped) is the key decides the value |
| `Listing.LastLabelledAbsent` | scrape_asic.py:212-217 | with no such pair the value stays "" |
| `Listing.ReadLabels` | scrape_asic.py:212-217 | the dt/dd loop yields the last ACN and the last Status |
| `Listing.CompanyOf` | scrape_asic.py:211-232 | a list yields a company exactly when its last "ACN" pair has a non-empty value; the company carries that ACN, the last "Status" value and the names `Names` takes from the preceding paragraph |
| `Listing.CompaniesOf` | scrape_asic.py:210-232 | no more companies than lists; a company is in the result exactly when one of the lists yields it; every company has a non-empty ACN |
| `Listing.CompaniesInListOrder` | scrape_asic.py:210-232 | companies keep list order: two runs of lists give their companies one after the other, and one list gives its own company if it has one |
| `Listing.ParseCompanies` | scrape_asic.py:210-232 | the `<dl>` loop builds exactly that company list |
| `Listing.TradingAsSplit` | scrape_asic.py:219-229 | for `Names` and `MentionsTradingAs`: a trading-name split happens at the only occurrence of "trading as", and the names are the stripped text on either side; without a split the name is the paragraph text and the trading name is "" |
| `Listing.BeforeQuery` | scrape_asic.py:239 | `split("?")[0]` is the longest prefix of the target without "?" |
| `Listing.BeforeQueryKeepsSlash` | scrape_asic.py:239-240 | removing the query keeps a leading "/" and adds none |
| `Listing.ViewLink` | scrape_asic.py:234-240 | the link has no "?"; the site prefix is added when the target starts with "/", and only then; an empty or missing target gives "" |
| `Listing.NoticeOfBlock` | scrape_asic.py:193-247 | a block yields a notice exactly when it has a date label whose text, without "Published:" and stripped, parses; the notice keeps that date text and the date it parses to, the heading (or "Unknown"), the block's companies and the link made from the target `ChosenHref` picks (the details link, else the button's); the link has no "?"; the search term is recorded; no detail is attached yet |
| `Listing.ParseBlock` | scrape_asic.py:193-247 | the loop body yields that notice |
| `Listing.BlockKeptIffDated` | scrape_asic.py:199-205 | a block is skipped exactly when it has no date label or its date does not parse |
| `Listing.NoticesOf` | scrape_asic.py:192-247 | at most one notice per block; a notice is in the result exactly when one of the blocks yields it; each satisfies the listed-notice invariant |
| `Listing.NoticesInBlockOrder` | scrape_asic.py:192-247 | notices keep block order: two runs of blocks give their notices one after the other, and one block gives its own notice if it has one |
| `Listing.ListingOf` | scrape_asic.py:168-249 | a page without "article-block" and "published-date" yields nothing; otherwise a notice is listed exactly when one of the blocks yields it; every notice satisfies the listed-notice invariant |
| `Listing.ScrapeListing` | scrape_asic.py:168-249 | the block loop builds exactly that list |
| `Details.Region` | scrape_asic.py:282-287 | the content region is the prefix of siblings before the first "about-us" list, and that list is excluded |
| `Details.ContentRegion` | scrape_asic.py:282-287 | the loop with `break` collects exactly that prefix |
| `Details.DetailIgnoresTrailer` | scrape_asic.py:282-287 | for `DetailOf`: whatever follows the "about-us" list cannot change the detail record |
| `Details.TablePairs` | scrape_asic.py:256-266 | every key is non-empty with no trailing ":" and every value is non-empty |
| `Details.TablePairsLastWins` | scrape_asic.py:256-266 | a contributing row not followed by another with its label gives that label's value |
| `Details.TablePairsFromRows` | scrape_asic.py:256-266 | every entry comes from a two-cell row with that label and value |
| `Details.ExtractTablePairs` | scrape_asic.py:256-266 | the nested table/row loops build exactly that map |
| `Details.Lookup` | scrape_asic.py:294-314 | `kv.get(a, kv.get(b, ""))`: the first alias present wins; "" when none is |
| `Details.LookupPair` | scrape_asic.py:297 | with two aliases, the first one present wins |
| `Details.ProofOfDebtWhenBoth` | scrape_asic.py:308-310 | `ProofOfDebtDeadline`: the deadline exists exactly when "Time" and "Date" are both in the map, and reads "<time> on <date>" |
| `Details.NamedFieldsPrecedence` | scrape_asic.py:294-314 | "Appointment Date" beats "Appointed", "Administrator(s)" beats "Liquidator(s)", "Dividend Payable Date" beats "Dividend payable date" |
| `Details.DetailNamedFields` | scrape_asic.py:289-314 | the same precedence and deadline rules, for the record a page yields |
| `Details.DetailFieldsFromRegion` | scrape_asic.py:288-291 | every recorded field comes from the region's last two-cell row with that label |
| `Seqs.Keep` | scrape_asic.py:320-323 | a filtering list comprehension keeps the passing elements in their order, each exactly as often as it occurs, and nothing else |
| `Details.LongParagraphs` | scrape_asic.py:320-321 | body paragraphs are the paragraphs longer than 20 characters, in page order, each as often as it occurs |
| `Details.NonEmptyItems` | scrape_asic.py:322-323 | agenda items are the non-empty list items, in page order, each as often as it occurs |
| `Details.DetailBodyAndAgenda` | scrape_asic.py:320-323 | the same, for the region of a page with a "Notice" heading: order and repeats kept |
| `Details.SpecialTexts` | scrape_asic.py:325-333 | the collected texts are exactly the next-sibling texts, longer than 10 characters, of nodes mentioning "Special" or "special" |
| `Details.SpecialTextsInOrder` | scrape_asic.py:325-333 | the texts keep document order: two runs of nodes give their texts one after the other, and one node gives its own text if it qualifies |
| `Details.SpecialInstructions` | scrape_asic.py:325-334 | the loop joins exactly those texts with blanks |
| `Details.FirstRole` | scrape_asic.py:339-356 | the first bold text that is one of the five role labels |
| `Details.NameNear` | scrape_asic.py:344-350 | the fallback name is the preceding paragraph's text when that text is non-empty and under 100 characters, and "" otherwise |
| `Details.PractitionerFallback` | scrape_asic.py:338-356 | the two loops with `break` give the name and role of `Practitioner` |
| `Details.PractitionerRoleAndName` | scrape_asic.py:338-356 | of `Practitioner`: the role exists iff some bold text is a role label, and is the first one; a table name is never replaced; without one the name is exactly the `NameNear` name of the first role label |
| `Details.ScrapeDetailPage` | scrape_asic.py:269-358 | the step-by-step scrape gives exactly the page's record: empty without the "Notice" heading, otherwise built from the content region (properties in the lemmas above) |
| `Seqs.SubseqTrans` | scrape_asic.py:572-580 | a subsequence of a subsequence is a subsequence |
| `Filter.DedupFrom` | scrape_asic.py:369-371 | the result is a subsequence with pairwise-distinct keys, none of them excluded |
| `Filter.Dedup` | scrape_asic.py:369-371 | `deduplicate` returns an order-preserving subsequence of its input in which no two notices share a key |
| `Filter.Deduplicate` | scrape_asic.py:369-371 | the comprehension threading its key set computes exactly `Dedup` |
| `Filter.DedupFirstWins` | scrape_asic.py:369-371 | of `Dedup`: a notice is kept iff it is the first of its key; every key survives |
| `Filter.DedupSnoc` | scrape_asic.py:369-371 | of `Dedup`: appending a notice to the input appends it to the result exactly when no earlier notice has its key, which fixes the result as the first notice of each key in order of first occurrence |
| `Filter.DedupIdempotent` | scrape_asic.py:369-371 | deduplicating twice is deduplicating once |
| `Filter.SubseqKeepsDistinct` | scrape_asic.py:369-371 | any subsequence of deduplicated notices still has distinct keys |
| `Filter.RecencyCutoff` | scrape_asic.py:365-366 | the cut-off is the day seven days before today |
| `Filter.IsRecentWithinWeek` | scrape_asic.py:365-367 | `IsRecent`: a notice is recent iff it was published at most seven days before today |
| `Filter.Recent` | scrape_asic.py:576 | an order-preserving subsequence holding exactly the recent notices, each as often as it is listed |
| `Filter.Unseen` | scrape_asic.py:580 | an order-preserving subsequence holding exactly the notices whose key is not in the store, each as often as it occurs |
| `Filter.FilterChain` | scrape_asic.py:572-580 | new ⊆ recent ⊆ deduplicated ⊆ all, as subsequences; a notice is new iff it survived deduplication, is recent and is unseen |
| `Filter.RefreshedEntries` | scrape_asic.py:598-600 | `Refreshed`: after the refresh every recent key maps to the run's time, every other entry is unchanged, and no other key appears |
| `Filter.SeenStore.Refresh` | scrape_asic.py:598-600 | the loop leaves the store equal to the refreshed map |
| `Filter.NothingNewAfterRefresh` | scrape_asic.py:598-600 | after the refresh none of the recent notices is new |
| `Filter.SeenCutoff` | scrape_asic.py:65 | the pruning cut-off is the same time of day exactly `SEEN_MAX_AGE_DAYS` (30, line 44) days before now, hence no later than now |
| `Filter.PrunedKeepsRecentEntries` | scrape_asic.py:63-68 | `Pruned`: pruning keeps exactly the entries at or after the cut-off, alters none, and the reported count is the number dropped |
| `Filter.PrunedIdempotent` | scrape_asic.py:66 | pruning twice is pruning once |
| `Filter.RefreshedSurvivesSave` | scrape_asic.py:598-601 | entries just stamped with the run's time survive the save |
| `Digest.WithStatus` | scrape_asic.py:472-473 | an order-preserving subsequence holding exactly the notices with a company status containing the word ("Liquidation" for one group, "Administrator" for the other), each as often as it occurs |
| `Digest.Outside` | scrape_asic.py:474 | an order-preserving subsequence holding exactly the notices in neither list, each as often as it occurs |
| `Digest.GroupsCover` | scrape_asic.py:472-474 | every notice is in some group; "other" holds exactly the notices with neither state, and only those |
| `Digest.UniqueAcnsOfGroups` | scrape_asic.py:472-479 | the distinct ACNs of all notices are those of the three groups together |
| `Digest.CardSeverityMatchesGroup` | scrape_asic.py:384-385 | `SeverityOf` of `CardStatus`: a card coloured as a liquidation (or administration) by its first company is in the matching group |
| `Digest.Fmt` | scrape_asic.py:378-380 | a row is "" exactly when the value is empty; otherwise it opens the row, names the field, carries the value right after the middle cell break, ends with `</td></tr>` and has no other text |
| `Run.AllListed` | scrape_asic.py:564-570 | a notice is in the run's listing exactly when one of the fetched pages lists it; each satisfies the listed-notice invariant for one of the terms |
| `Run.AllListedInOrder` | scrape_asic.py:564-570 | the listing keeps term order: two runs of terms give their notices one after the other |
| `Run.AllListedOne` | scrape_asic.py:564-570 | one term gives its own page's notices, or none when the page failed |
| `Run.ListAll` | scrape_asic.py:564-570 | the loop over the terms, skipping a failed one, concatenates their listings |
| `Run.WithDetail` | scrape_asic.py:584-592 | attaching the detail keeps both keys and always sets a detail |
| `Run.AttachDetails` | scrape_asic.py:584-592 | each new notice gets its page's record, or the empty record without a link or a readable page |
| `Run.RunOnce` | scrape_asic.py:572-601 | a run reports the new notices with details, refreshes the store with all recent ones, and writes the pruned store |
| `Run.RunReportsOnlyNew` | scrape_asic.py:572-601 | the reported notices are a subsequence of the listings with distinct keys, recent and unseen; every recent notice is in the written store, stamped now |

## Left out

- Browser fetching (`fetch_with_waf`, the warm-up loop of `main`) and the politeness
  delays: these are network I/O and wall-clock waits. A listing page is an input, and a
  term whose fetch fails is `None`. A detail page whose fetch fails is a link missing from
  the `pages` map.
- HTML navigation with BeautifulSoup: the CSS selectors, `find_previous_sibling`, the
  ancestor walk that finds blocks, and `get_text(strip=True)`. It is a foreign library,
  so its results are model inputs: blocks, definition lists, siblings, texts.
- `load_seen`/`save_seen` file reads and writes and the JSON encoding. Only the pruning
  is modelled. Store values are instants as `isoformat()` writes them. Foreign
  timestamp texts, which would compare as strings, are not modelled.
- `now_utc`: a single `now` parameter stands for the clock. The source reads the clock
  separately for the recency cut, the stamp and the pruning cut-off. Dates before
  0001-01-31, where `timedelta` subtraction raises an overflow error, are excluded by
  `NowInRange`.
- `send_email`, the subject line and the HTML templates of `build_notice_card` and
  `build_email`: these are SMTP and presentation. Only the grouping, the severity, the
  unique-ACN set and `fmt` are modelled.
- `Dates.ParseDate`: Python's `\d` also accepts non-ASCII decimal digits. That affects
  the second digit of `%d` (its `[12]\d` alternative) and the four digits of `%Y`; `%m`
  has no `\d`. The model accepts ASCII digits only. Month names are folded to lower case
  in ASCII, which gives the same result as Python for English month names.
- `Listing.MentionsTradingAs` lowers the span text in ASCII. No non-ASCII character
  lowers to text containing "trading as", so the test agrees with Python's `lower()`.
- Notices are values: setting `notice["detail"]` on the dicts shared by `recent` and
  `new_notices` is modelled as building new records. Neither key reads the detail
  (`Notices.KeysIgnoreDetail`), so the seen refresh is unaffected.
- Two keys: `notice_key` (scrape_asic.py:71-73), the key of the seen store, is the link,
  or else the date, type and "|"-joined ACNs. `deduplicate` (scrape_asic.py:369-371)
  compares the link, or else only date and type. The model keeps them as two functions,
  `Notices.NoticeKey` and `Notices.DedupKey`, and `Notices.KeysAgree` relates them.
- get_news_summary.py: a single call to a third-party chat API, with no logic to model.
