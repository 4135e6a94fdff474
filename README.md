# pmanager-scrape, modelled in Dafny

pmanager-scrape crawls the transfer market of the online football manager
pmanager.org. It reads each listed player's profile or negotiation page,
scores the player as a trade, and writes the results to CSV files and Google
Sheets tabs. Two Telegram bots start the opponent-scout run through a GitHub
workflow dispatch.

This project models the deterministic core of that pipeline and proves
properties of it:

- The paginated id crawl, with its page cap and its `&pid=<n>` next-page test (`ListingCrawl`). The three scrapers each instantiate it (`AllTransferScraper`, `HighQualityScraper`, `YoungPotentialScraper`).
- The squad-page id reader of the opponent scraper (`OpponentScraper`).
- The label and cell rules that read a player's profile (`AllTransferScraper`), a negotiation page (`NegotiationPage`) and the team-info page (`TeamInfoScraper`).
  - Pages are sequences of table rows of cells. Text nodes outside any cell are modelled too (`Html`).
- The two trade-metric variants, which disagree (`MainAllTransfer` and `MainHighQuality`), and the `parse_bids_avg` parser.
- The merge store (`Frames`):
  - the upsert by string-normalised id;
  - the priority column ordering;
  - the attribute/market column split;
  - the grid sent to a sheet.
- The filter-and-rank steps: a stable descending sort plus a cut to the first five (`StableSort`, `MainValueReport`, `MainHighQuality`, `MainAllTransfer`).
- The scout-target parser (`MainOpponentScout`).
- The message classification of the two bots, the 204-success rule and the polling offset (`BotUpdates`, `TelegramScoutBot`, `TelegramBot`).

Shared modules model the Python primitives the code relies on:

- `PyText`: `strip`, `isdigit`, `int()`, `replace`, `split`, `str(int)` and thousands grouping.
- `PyDict`: an insertion-ordered `dict` of values.
- `SeqUtil`: `list(set(...))` and the list helpers.

The browser, the spreadsheet service, Telegram, GitHub, the clock and the file system are outside the model. Pages, HTTP statuses, the time stamp and the sheet's existing records are parameters.

Where the code is imperative, the model is a method with loops, proved against a specification function. This covers:

- the crawl `while` loop;
- the skill scan and the report-label fill;
- the `_int` clean-up loop;
- the scenario union;
- the details, metrics and scoring loops;
- the in-place stable sort;
- the polling loop.

Where the code is a lookup or branch logic, the model is a function with lemmas.

`main_all_transfer.py:127` passes `search_url=` to a method that declares no such parameter, so the run as written ends in `TypeError`. The model keeps that run and uses the evident intent everywhere else; see "## Findings".

## Model

| member | source | states |
|---|---|---|
| ListingCrawl.LinkIdSome | scraper_all_transfer.py:71-79 | An anchor yields an id exactly when its href contains the negotiation link. The id is the text after the first `jg_id=`, up to any later one, so the `IndexError` branch is never taken. |
| ListingCrawl.PageIdsSpec | scraper_all_transfer.py:71-79 | An id is on a page exactly when one of the page's anchors yields it; a page yields no more ids than it has anchors. |
| ListingCrawl.NextHrefNone | scraper_all_transfer.py:87-90 | There is no next link exactly when no anchor's href contains `&pid=<n+1>`. |
| ListingCrawl.NextHrefFirst | scraper_all_transfer.py:88 | The link followed is one of the page's anchors, the first that passes the test. |
| ListingCrawl.Page20PassesForPage2 | scraper_all_transfer.py:88 | The next-page test is a substring test: a link to page 20 passes as the link to page 2. |
| ListingCrawl.ResolveSpec | scraper_all_transfer.py:91-95 | The followed URL is absolute and ends with the href. It is the href itself exactly when that starts with "http", and lies under the site root otherwise. Resolving it again changes nothing. |
| ListingCrawl.Walk | scraper_all_transfer.py:62-99 | A crawl within the cap starts at its start URL; past the cap it visits nothing. |
| ListingCrawl.WalkBound | scraper_all_transfer.py:60-62 | A crawl from page `p` visits at most `max - p + 1` pages. |
| ListingCrawl.WalkFollows | scraper_all_transfer.py:87-96 | Each visited page after the first is the resolved `&pid=<n+1>` link of the page before it: the counter moves by exactly one per followed link. |
| ListingCrawl.WalkStops | scraper_all_transfer.py:97-99 | A crawl that ends below the cap ends on a page with no link to the following page. |
| ListingCrawl.GatheredIds | scraper_all_transfer.py:81-84 | With or without the per-page `list(set(...))`, the accumulator holds exactly the ids of the visited pages. |
| ListingCrawl.Crawl | scraper_all_transfer.py:57-103 | The crawl loop fetches exactly the walk's pages and at most the cap. It returns every id of those pages, each once. |
| AllTransferScraper.SearchTransferList | scraper_all_transfer.py:41-103 | The all-players crawl visits at most 150 pages. It returns a duplicate-free list whose set is the ids of the visited pages. |
| HighQualityScraper.SearchTransferList | scraper_high_quality.py:67-135 | The high-quality crawl visits at most 100 pages and has no per-page dedup. It returns a duplicate-free list whose set is the ids of the visited pages. |
| YoungPotentialScraper.SearchTransferList | scraper_young_potential.py:44-107 | The young-potential crawl visits at most 100 pages. It returns a duplicate-free list whose set is the ids of the visited pages. |
| Html.Pieces | scraper_all_transfer.py:133 | `get_text(strip=True)` keeps only non-blank pieces. It is empty exactly when every text node is whitespace. |
| Html.CellTextBlank | scraper_all_transfer.py:136 | A cell reads blank exactly when all its text nodes are whitespace, with or without a separator. |
| Html.FirstCell | scraper_all_transfer.py:131 | `find_next_sibling` gives the first accepted cell at or after the start, or nothing when no cell there is accepted. |
| Html.FindFromFirst | scraper_all_transfer.py:125 | `soup.find` stops at the first block holding a match, and at the first match within it. A match in a loose text node is reported as outside any cell. |
| Html.FindInFirst | scraper_all_transfer.py:125 | There is no hit exactly when no block matches. A hit in a cell has no match in any earlier block or earlier cell. |
| Html.FindInAt | scraper_all_transfer.py:125 | The first match, in document order, is the hit. |
| AllTransferScraper.GeneralInfoMissing | scraper_all_transfer.py:125-140 | A label that no `<b>` carries gives "N/A". |
| AllTransferScraper.GeneralInfoFrom | scraper_all_transfer.py:129-139 | A value other than "N/A" is the text of a cell to the right of the label cell, in the same row. |
| AllTransferScraper.GeneralInfoPrefersTeamPlayers | scraper_all_transfer.py:131-133 | When a `team_players` cell follows the label, the first such cell gives the value, ahead of the blank-spacer rule. |
| AllTransferScraper.GeneralInfoSpacer | scraper_all_transfer.py:131-140 | With no `team_players` cell after the label, the value is the cell two places on exactly when the cell right after the label is blank and that cell exists, and "N/A" otherwise. |
| AllTransferScraper.AgeOfYears | scraper_all_transfer.py:144 | An age shown as "<n> Years" reads back as "<n>"; a missing age stays "N/A". |
| AllTransferScraper.SkillReading | scraper_all_transfer.py:174-183 | An accepted text becomes an int exactly when it is all digits, the value `int()` gives. Any other accepted text stays text. |
| AllTransferScraper.SkillValueFirst | scraper_all_transfer.py:172-184 | The scan takes the first sibling whose text is digits, mentions "Fit" or holds "%". It skips the others, and gives nothing when none qualifies. |
| AllTransferScraper.ScanSiblings | scraper_all_transfer.py:169-184 | The `for sib in siblings` loop with its `break`s returns what the scan specification gives. |
| AllTransferScraper.SkillEntryRule | scraper_all_transfer.py:186-192 | A bold name is written exactly when the scan finds a value, or when it mentions "Fitness" and has a sibling. The Fitness fallback writes the first sibling's text. |
| AllTransferScraper.AddSkills | scraper_all_transfer.py:155-192 | The skill loop makes exactly the page's skill assignments, in document order, on the record; a later name overwrites an earlier one. |
| AllTransferScraper.FillLabel | scraper_all_transfer.py:204-216 | One report label: a label already in the record leaves it unchanged. Otherwise the label gets the first non-blank cell after its `<b>`, if any, and no other key changes. |
| AllTransferScraper.FillReport | scraper_all_transfer.py:200-216 | The report loop keeps every key in place and never overwrites. Each missing report label gets the page's report value. |
| AllTransferScraper.GetPlayerDetails | scraper_all_transfer.py:105-218 | The record starts with id, url, name, position, age and nationality. Every key holds the last skill value written under it, if any. Otherwise a header key keeps its header value, a report label holds the report value, and no other key is present. |
| AllTransferScraper.HeaderKeys | scraper_all_transfer.py:119-145 | The record before the skills has exactly those six keys, holding the id, the profile URL, the title (or "N/A") and the three general-info values. |
| NegotiationPage.ApplyRule | scraper_high_quality.py:155-162 | One lookup block raises exactly when its label lies outside any cell. Otherwise it writes its field when the cell to the right reads, and leaves the record alone when it does not. |
| NegotiationPage.Lookup | scraper_high_quality.py:153-195 | After each block, the rest of the extraction is the rest of the lookups, unless that block raised. |
| NegotiationPage.Extract | scraper_high_quality.py:153-195 | The `try` body runs the five lookups in order and stops at the first that raises. |
| NegotiationPage.GetEstimatedValue | scraper_high_quality.py:137-200 | The record returned is the run of the five lookups on the defaults of the player's negotiation page. |
| NegotiationPage.RecordShape | scraper_high_quality.py:151 | A record always comes back, with the six keys in order and the id unchanged. |
| NegotiationPage.RecordField | scraper_high_quality.py:153-200 | Each field holds what its lookup read. It holds its default when nothing was read or some lookup up to it raised: earlier fields are kept and later ones stay default. |
| NegotiationPage.RunGet | scraper_young_potential.py:123-168 | The partial-record rule on any key list, the young-potential copy of the same code included. |
| NegotiationPage.NumberField | scraper_high_quality.py:159-162 | Estimated value and asking price are always non-negative ints. They are read from the cell's digits only when some digit is there, and are 0 otherwise. |
| NegotiationPage.RecordPrices | scraper_young_potential.py:129-142 | Both prices are always non-negative ints. |
| NegotiationPage.NoLabelsGiveDefaults | scraper_young_potential.py:121 | A page showing none of the labels gives the defaults: 0, 0, "N/A", "N/A", "0". |
| NegotiationPage.ReadGroupedPrice | scraper_high_quality.py:159-162 | A price shown as dot-grouped digits and a currency word reads as its number. |
| TeamInfoScraper.ExtractValueMissing | scraper_team_info.py:57-70 | A label the page does not mention reads "N/A". |
| TeamInfoScraper.ExtractValueLoose | scraper_team_info.py:60-63 | A first mention outside any cell has no parent cell and reads "N/A". |
| TeamInfoScraper.ExtractValueAt | scraper_team_info.py:57-70 | The first cell that mentions the label gives the next cell's space-joined text. It gives "N/A" when there is no next cell. |
| TeamInfoScraper.AddMoneyInts | scraper_team_info.py:97-105 | The clean-up loop gives the specified dict. |
| TeamInfoScraper.GetTeamInfo | scraper_team_info.py:40-107 | The info page is read into the fourteen fields, then cleaned. |
| TeamInfoScraper.MoneyIntAdded | scraper_team_info.py:97-105 | A money field's `_int` entry is added exactly when the field holds text other than "N/A", with its cleaned number. |
| TeamInfoScraper.TeamMoney | scraper_team_info.py:97-105 | On the info page, a money field's `_int` entry exists exactly when its label was read. |
| TeamInfoScraper.MoneyOtherKeys | scraper_team_info.py:103 | Every other key, the text fields included, keeps its value. |
| TeamInfoScraper.MoneyKeysAppended | scraper_team_info.py:103 | The clean-up only appends keys: the fields keep their order and the keys stay distinct. |
| TeamInfoScraper.TeamFieldsKept | scraper_team_info.py:73-107 | After the clean-up, every field still holds the text read for its label. |
| TeamInfoScraper.MoneyIntNoDigits | scraper_team_info.py:102-105 | A text with no digit before the `+` cleans to 0 instead of an error. |
| TeamInfoScraper.MoneyIntGrouped | scraper_team_info.py:100-101 | A dot-grouped amount followed by " baht (+…" cleans to the amount, whatever follows the `+`. |
| TeamInfoScraper.WagesSumExample | scraper_team_info.py:100-101 | "5.264.850 baht (+ 1.314.550 baht)" cleans to 5264850. |
| OpponentScraper.ListedRowsSpec | scraper_opponent.py:21 | Only rows with class list1 or list2 are examined, in order. |
| OpponentScraper.ProfileHrefSpec | scraper_opponent.py:26 | A row's link is its first href containing `ver_jogador.asp?jog_id=`. There is none exactly when no href does. |
| OpponentScraper.RowIdSome | scraper_opponent.py:26-34 | A row yields an id exactly when it has a profile link, so the `IndexError` branch is never taken. |
| OpponentScraper.SquadIdsSpec | scraper_opponent.py:24-34 | An id is in the squad exactly when some listed row yields it, at most one id per row. |
| OpponentScraper.GetTeamPlayers | scraper_opponent.py:6-38 | Returns the squad's ids without duplicates, and no more than the listed rows. |
| Frames.FromRecordsColumns | main_all_transfer.py:196 | `pd.DataFrame(records)` has each key of each record as a column, once. |
| Frames.PriorityOrderPermutes | main_all_transfer.py:64-67 | The priority ordering is a permutation of the columns. |
| Frames.PriorityOrderIdempotent | main_all_transfer.py:203-206 | Ordering already-ordered columns changes nothing. |
| Frames.WithinMembers | main_all_transfer.py:66 | The first comprehension keeps exactly the priority columns present, in priority order. |
| Frames.OutsideMembers | main_all_transfer.py:66 | The second comprehension keeps exactly the other columns, in their order. |
| Frames.UnclaimedMembers | main_all_transfer.py:51 | An old row survives the merge exactly when its string id is not among the new ids. |
| Frames.NormalizedIds | main_all_transfer.py:38-42 | `astype(str)` leaves the set of string ids unchanged. |
| Frames.MergeSpec | main_all_transfer.py:44-54 | The merge is every new row, in order, then each old row whose id the new rows lack. Its id set is the union of both. |
| Frames.MergeTail | main_all_transfer.py:51 | Every merged row after the new ones is an old row whose id the new rows lack. |
| Frames.UpsertSpec | main_all_transfer.py:34-57 | With no existing records the upload is the new frame. Otherwise it is the merge, with `id` first. It is refused when either side lacks an `id` column. |
| Frames.Render | main_all_transfer.py:60-72 | The grid has the columns as header and one row per frame row, each as wide as the header. |
| Frames.RenderIdColumn | main_all_transfer.py:60-72 | A frame whose first column is a string `id` in every row is written with those ids down the grid's first column. |
| Frames.MergeIds | main_all_transfer.py:39-54 | Every merged row holds its id as a string, and the new rows keep their ids. |
| MainAllTransfer.UnionOfSpec | main_all_transfer.py:125-128 | An id is in the union exactly when one of the sets holds it. |
| MainAllTransfer.FoundIdsSpec | main_all_transfer.py:101-130 | An id is found exactly when the crawl of some scenario finds it. |
| MainAllTransfer.ListOf | main_all_transfer.py:130 | `list(set)` holds every element once. |
| MainAllTransfer.CollectIds | main_all_transfer.py:101-130 | The scenario loop returns each id found by any scenario, once. |
| MainAllTransfer.ScrapeDetails | main_all_transfer.py:134-143 | The details loop keeps, in order, the record of every id whose reading does not raise. |
| MainAllTransfer.PriceMetricsSpec | main_all_transfer.py:165-182 | The buy price is the asking price when that is positive, and the bids average otherwise. It is never negative. The value difference plus the buy price is the estimate, and forecast plus buy price is `int(est * 0.4)`. |
| MainAllTransfer.RoiSpec | main_all_transfer.py:169-175 | The return times the buy price is 100 times the difference, and 0 for a buy price that is not positive. It is positive or negative exactly as the difference is, when the buy price is positive. |
| MainAllTransfer.BidAverageGrouped | main_all_transfer.py:155-159 | A comma-grouped average bid reads as its number. |
| MainAllTransfer.BidAverageOfInt | main_all_transfer.py:155-159 | An int average reads as itself when not negative, and as 0 otherwise (its text then holds a minus sign). |
| MainAllTransfer.BuyPriceNonNegative | main_all_transfer.py:165 | Whatever the record holds, its buy price is never negative. |
| MainAllTransfer.MetricsUnparsed | main_all_transfer.py:184-189 | A record whose estimate or asking price does not convert to int gets four zeros. |
| MainAllTransfer.NoPricesGiveZeros | main_all_transfer.py:151-175 | A profile record without prices gets buy price, difference and forecast 0 and return 0.0. |
| MainAllTransfer.WithMetricsSpec | main_all_transfer.py:177-182 | The four metrics land under their keys, every other key keeps its value, and the old keys keep their order. |
| MainAllTransfer.CalculateMetrics | main_all_transfer.py:148-189 | The metrics loop updates every record in place with its metrics. |
| MainAllTransfer.RankedSpec | main_all_transfer.py:192 | The ranking holds every record with its metrics, once, in descending value difference. |
| MainAllTransfer.ValueDiffKeyOf | main_all_transfer.py:192 | A record with metrics sorts by its value difference. |
| MainAllTransfer.TableSpec | main_all_transfer.py:196-206 | The table has one column per record key plus `last_updated`, each once, and one row per record. Every row holds the stamp. |
| MainAllTransfer.AttributesSpec | main_all_transfer.py:216-221 | No financial column reaches the attributes frame; every other column does. |
| MainAllTransfer.MarketSpec | main_all_transfer.py:229-232 | The market frame holds exactly the market columns present, in market order, each once. |
| MainAllTransfer.UploadToSheetsSpec | main_all_transfer.py:34-75 | With no existing records the tab receives the frame reordered. Otherwise it receives the merge, or nothing when the merge is refused. |
| MainAllTransfer.UploadIdColumn | main_all_transfer.py:39-72 | After a merge the tab's first column is `id`. The new rows' ids come first, in order, and the column holds exactly the ids of the new and the existing records. |
| MainAllTransfer.RunAllTransfer | main_all_transfer.py:100-262 | The run collects every scenario's ids once and reports nothing when no record was read. Otherwise it writes the ranked table, the upserted "All Players" tab and the replaced "Transfer Info" tab. |
| MainAllTransfer.SearchCallRaises | main_all_transfer.py:127 | The scenario call passes a keyword that `search_transfer_list` (scraper_all_transfer.py:41) does not declare, so it raises `TypeError`. |
| MainAllTransfer.RunAllTransferAsWritten | main_all_transfer.py:125-128 | As written the run ends in the handler (lines 267-268) with no ids and no report. It agrees with the intended run only when the scenarios find no player. |
| MainHighQuality.ParseBidsAvgGrouped | main_high_quality.py:49-53 | "23.133.150 baht"-style text reads as its number. |
| MainHighQuality.ParseBidsAvgDefaults | main_high_quality.py:46-55 | "", "-" and the default "N/A" all read as 0. |
| MainHighQuality.ScoresSpec | main_high_quality.py:90-92 | The buy price is the larger of asking price and bids average. The difference completes it to the estimate, and the return is 100 × difference / buy, or 0 when the buy price is not positive. |
| MainHighQuality.BuyPriceAtLeastAllTransfer | main_high_quality.py:90 | This buy price is never below the other script's, and is above it when a positive asking price is undercut by the bids. |
| MainHighQuality.WithScoresSpec | main_high_quality.py:93-95 | The three scores land under their keys and every other key keeps its value. |
| MainHighQuality.RecordPricesRead | main_high_quality.py:85-86 | A negotiation record's prices are non-negative ints, so the scores read the prices shown. |
| MainHighQuality.ScoreRecords | main_high_quality.py:83-98 | The scoring loop gives every record, scored, in the order of the ids. |
| MainHighQuality.RankedSpec | main_high_quality.py:101-108 | The ranking holds every scored record once, in descending return. The list shown has min(5, n) records. |
| MainHighQuality.BahtSpec | main_high_quality.py:132-135 | The digits of "฿ {x:,.0f}" spell the amount, and a minus sign appears exactly for a negative amount. |
| MainHighQuality.FormatKeysSpec | main_high_quality.py:131-135 | Formatting rewrites only the listed columns as baht text and keeps the keys. |
| MainHighQuality.SheetMoneyColumns | main_high_quality.py:127-138 | The sheet shows baht text in the four money columns, while the CSV keeps the ints. |
| MainHighQuality.RunHighQuality | main_high_quality.py:73-146 | The run crawls the high-quality search and reports the ranked, scored records: the top five and the CSV table. The sheet is written exactly when some record has an estimated value and some an asking price, and never when the crawl found no player. |
| MainHighQuality.SomeHasScored | main_high_quality.py:93-95 | After scoring, `buy_price` and `value_diff` are present exactly when there is a record; other keys are present exactly as before. |
| MainHighQuality.ReportSheet | main_high_quality.py:120-146 | The sheet is built exactly when the table has every money column. With no records formatting raises `KeyError` and nothing is uploaded. |
| MainHighQuality.NegotiationReportSheet | main_high_quality.py:81-146 | With negotiation records the sheet is written exactly when the crawl found a player. |
| MainValueReport.KeptCount | main.py:39-40 | A record is kept, as often as it was read, exactly when its asking price is below 1,000,000. |
| MainValueReport.KeptAppend | main.py:30-40 | Filtering two batches gives the filtered batches, in order. |
| MainValueReport.StatusKept | main.py:36-40 | The printed status is "OK" exactly for the kept records, and "FILTER FAIL" otherwise. |
| MainValueReport.RankedSpec | main.py:43-50 | The ranking holds exactly the kept records, sorted by estimated value. Equal values keep their reading order, and the list shown has min(5, n) records. |
| MainValueReport.TopAffordable | main.py:50 | Every record shown passed the filter. |
| MainValueReport.ReadAll | main.py:27-40 | The loop prints one status per record, in order, and keeps exactly the affordable records, in order. |
| MainValueReport.RunValueReport | main.py:30-61 | The run prints one status per id, shows the top five of the ranking and saves the whole ranking as CSV. |
| StableSort.SortDescSortedPermutation | main.py:43 | The descending sort is a permutation and is ordered. |
| StableSort.SortDescStable | main_all_transfer.py:192 | Records with equal keys keep their relative order. |
| StableSort.SortInPlace | main.py:43 | `list.sort(reverse=True)` in place equals the stable descending sort. |
| MainOpponentScout.TeamUrlSpec | main_opponent_scout.py:31-38 | An input naming the site is used verbatim. A team number becomes `…/ver_equipa.asp?equipa=<n>&vjog=1`, from which the number reads back. Every other input, "" included, is refused. |
| MainOpponentScout.TeamUrlIdempotent | main_opponent_scout.py:31-38 | A URL the parser gives names the site, so parsing it again changes nothing. |
| MainOpponentScout.RunOpponentScout | main_opponent_scout.py:13-89 | Missing credentials, a missing argument and an invalid input each end the run before scraping, exactly in those cases. No upload happens without players or without results. A failing id is skipped, and the upload is the upsert of the table of the records read. |
| BotUpdates.NextOffsetAppend | telegram_scout_bot.py:69-70 | Two batches in turn move the offset as far as one batch holding both. |
| BotUpdates.BatchActionsAppend | telegram_scout_bot.py:69-103 | The actions of two batches in turn are those of the batch holding both. |
| BotUpdates.HandleBatch | telegram_scout_bot.py:66-103 | A failed poll changes nothing. Otherwise the offset becomes the last update's id plus one (unchanged for an empty batch), and every update is handled in order. |
| PyText.CommandLine | telegram_scout_bot.py:82-85 | A command word, whitespace and an argument trimmed at both ends survive `strip`, start with the command and split once into command and argument. |
| TelegramScoutBot.ClassifyScout | telegram_scout_bot.py:74-81 | After trimming, a scout or its usage comes exactly for text that starts with "/scout" or mentions "pmanager.org". Text that only mentions the site is itself the target. |
| TelegramScoutBot.ClassifyUsage | telegram_scout_bot.py:82-88 | The usage reply comes exactly for a single word starting with "/scout". |
| TelegramScoutBot.ScoutRoundTrip | telegram_scout_bot.py:83-85 | "/scout", a whitespace run and a target give back that target. |
| TelegramScoutBot.BareTeamIdIgnored | telegram_scout_bot.py:79-103 | The help text offers a bare team id such as 35126, yet that message is ignored: it neither starts with "/scout" nor mentions the site. |
| TelegramScoutBot.ClassifyHelp | telegram_scout_bot.py:102-103 | The help reply comes exactly for "/start" and "/help". |
| TelegramScoutBot.CommandDispatch | telegram_scout_bot.py:90-100 | The workflow is dispatched, with the target as input, exactly for a scout. "Started" is sent exactly when the dispatch got 204, and "failed" exactly when it did not. |
| TelegramScoutBot.Poll | telegram_scout_bot.py:65-103 | One polling pass moves the offset and produces each update's actions, in order. |
| TelegramBot.ClassifyScout | telegram_bot.py:69-91 | After trimming, a scout or its usage comes exactly for text starting with "/scout"; usage exactly for a single word. |
| TelegramBot.ScoutRoundTrip | telegram_bot.py:78-80 | "/scout", a whitespace run and a target give back that target. |
| TelegramBot.ClassifyStatus | telegram_bot.py:77-94 | The status reply comes exactly for "/status". Text not starting with "/", a bare site link included, is ignored. |
| TelegramBot.CommandDispatch | telegram_bot.py:81-91 | The `opponent_scout` inputs for the target are dispatched exactly for a scout. "Failed" is sent exactly when the dispatch did not get 204. |
| TelegramBot.Poll | telegram_bot.py:60-94 | One polling pass moves the offset and produces each update's actions, in order. |

## Left out

- Browser work: starting Playwright, logging in, navigation and waits. Pages are parameters.
- `get_search_html` is a debugging aid, so it is not modelled.
- HTML parsing: a page is a sequence of rows of cells, each with its classes, its `<b>` text and its text nodes, plus loose text nodes outside any cell. Nesting deeper than that is not modelled.
- External services:
  - Google Sheets authentication and worksheet calls;
  - CSV writes;
  - the Telegram and GitHub HTTP calls;
  - `time.sleep` and the endless polling loop. One pass of it is modelled.
- The bots' token checks at start-up and the `print` output are not modelled. The reply texts are values (`ReplyText`), not messages sent.
- `main_team_info.py` is spreadsheet I/O around a fixed projection, so it is not part of this model.
- `ai_recommendation.py` is a prompt to a generative model and does not parse, so it is not part of this model. No code resolves deadlines or ranks by funds, so none is modelled.
- `scraper.py`, which `main.py` imports, is not part of this model. `MainValueReport` takes the ids and each id's record as parameters.
- The wall clock: the Thailand-time stamp is a parameter.
- MainAllTransfer.MetricsOf: `round(roi, 2)` is not modelled. The stored return is the exact rational `diff / buy * 100`. This script ranks by `value_diff`, so only the shown return differs, not the order.
- MainAllTransfer.PriceMetrics: the forecast uses the exact product `est * 0.4`, truncated toward zero. It does not model the binary floating-point evaluation of `(est / 2) * 0.8`.
- MainHighQuality.ScoresOf: `round(roi, 2)` is not modelled, as above. This script ranks by the return, so the ranking breaks ties on the exact value: two returns within 0.005 of each other tie in Python and keep their reading order, while the model orders them by their exact values. The printed top five can differ in order for that reason.
- Frames.IdText: `str()` of a float id is modelled as its integer part followed by ".0". Python's float repr for large or fractional values is not modelled.
- pandas dtype coercion is not modelled: the column types a frame would pick, and ints turned into floats by NaN in the same column. A row without a column simply lacks that key.
- The `set_index(inplace=True)` side effect on the caller's frame is not modelled.
- The high-quality sheet upload has no `fillna`. The model renders a missing cell as "" there too.
- SeqUtil.Dedup: `list(set(...))` has an order Python does not fix. The model keeps first occurrences, and the contracts promise only the element set and no duplicates.
- PyText.IsDigit: `str.isdigit` also accepts non-ASCII digits. The model accepts ASCII digits only.
- PyDict.IntAt, PyDict.NumberAt: where Python would raise on a value of the wrong type, these read 0. The records they are applied to always hold the right types (`MainHighQuality.RecordPricesRead`).
- MainHighQuality.BidsText: a `bids_avg` that is neither text nor an int (a float, say) reads as "" and so scores 0. Python would parse `str(value)` with its dots removed, so 1.5 would give 15. Negotiation records always hold text there.
- AllTransferScraper.AddSkills: the `skill_count` counter is never read, so it is not modelled.

## Findings

| source | as written | input that shows it | evidently intended | confidence | as-written member | corrected member |
|---|---|---|---|---|---|---|
| main_all_transfer.py:127 | Each scenario calls `search_transfer_list(search_url=...)`, but `search_transfer_list` (scraper_all_transfer.py:41) declares no parameter besides `self`. The first call raises `TypeError`, the handler at lines 267-268 prints it, and nothing is gathered or written. | Any run with credentials set, whatever the listing pages hold. | Each scenario crawls from its own URL, and the scenario without a URL uses the scraper's own search; the ids of all four are gathered. | not executed; high, the signature and the call site are both in view | MainAllTransfer.RunAllTransferAsWritten | MainAllTransfer.RunAllTransfer |
