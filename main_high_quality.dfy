/**
 * The high-quality report: crawl the high-quality search, read each player's
 * negotiation record, price the deal against the higher of the asking price and
 * the scouts' average bid, rank by return on investment, list the first five,
 * and write the table with the money columns as baht text.
 *
 * `fetch` gives listing pages and `details` a player's negotiation record
 * (`NegotiationPage.Record` of the player's page); `stamp` is the Bangkok time text.
 */
module MainHighQuality {
  import opened Wrappers
  import opened SeqUtil
  import opened PyText
  import opened PyDict
  import opened StableSort
  import opened Frames
  import opened ListingCrawl
  import HighQualityScraper
  import NegotiationPage
  import Html
  import MainAllTransfer

  // ---------------------------------------------------------------- parse_bids_avg

  /**
   * `parse_bids_avg`: 0 for an empty text or "-"; otherwise drop " baht", then
   * "baht", trim, drop every ".", and read an integer, with 0 where that fails.
   */
  function ParseBidsAvg(s: string): int {
    if s == "" || s == "-" then 0
    else
      var cleaned := RemoveAll(Strip(RemoveAll(RemoveAll(s, " baht"), "baht")), ".");
      match PyInt(cleaned)
      case Some(n) => n
      case None => 0
  }

  /** The text of a record's `bids_avg`; the negotiation record always holds text there. */
  function BidsText(d: Dict): string {
    match Get(d, "bids_avg")
    case Some(Text(s)) => s
    case Some(Int(i)) => PyStr(i)
    case _ => ""
  }

  /** An average shown with dots between groups of three digits and a currency word reads as its number. */
  lemma ParseBidsAvgGrouped(n: nat)
    ensures ParseBidsAvg(Grouped(n, '.') + " baht") == n
  {
    var g := Grouped(n, '.');
    var s := g + " baht";
    GroupedChars(n, '.');
    assert ' ' !in g && 'b' !in g;
    RemoveAllKeepsPrefix(g, " baht", " baht");
    assert RemoveAll(" baht", " baht") == [];
    assert RemoveAll(s, " baht") == g;
    RemoveAllKeepsPrefix(g, [], "baht");
    assert g + [] == g;
    assert RemoveAll(g, "baht") == g;
    GroupedWithoutSeparators(n, '.');
    DecimalStringDigits(n / 1000);
    GroupedEnds(n, '.');
    StripOfStripped(g);
    PyIntOfDigits(RemoveAll(g, "."));
  }

  /** A grouped number starts and ends with a digit. */
  lemma {:induction false} GroupedEnds(n: nat, sep: char)
    ensures |Grouped(n, sep)| > 0 && IsDigit(Grouped(n, sep)[0]) && IsDigit(Grouped(n, sep)[|Grouped(n, sep)| - 1])
    decreases n
  {
    if n < 1000 {
      DecimalStringDigits(n);
    } else {
      GroupedEnds(n / 1000, sep);
      var head, p := Grouped(n / 1000, sep), Pad3(n % 1000);
      assert Grouped(n, sep) == head + [sep] + p;
      assert IsDigits(p);
    }
  }

  /** No average, a dash, and the record's default "N/A" all read as 0. */
  lemma ParseBidsAvgDefaults()
    ensures ParseBidsAvg("") == 0 && ParseBidsAvg("-") == 0 && ParseBidsAvg("N/A") == 0
  {
    var s := "N/A";
    assert RemoveAll(s, " baht") == s;
    assert RemoveAll(s, "baht") == s;
    StripOfStripped(s);
    assert RemoveAll(s, ".") == s;
    assert !IntBody(s);
  }

  // ---------------------------------------------------------------- the scores

  datatype Scores = Scores(buyPrice: int, valueDiff: int, roi: Value)

  /**
   * The deal of one record: the buy price is `max(ask, bid)`, the value
   * difference the estimated value less it, and the return on investment the
   * difference as a percentage of the buy price, or the int 0 for a buy price
   * that is not positive.
   */
  function ScoresOf(est: int, ask: int, bid: int): Scores {
    var buy := if ask >= bid then ask else bid;
    var diff := est - buy;
    Scores(buy, diff, if buy > 0 then Value.Real(diff as real / buy as real * 100.0) else Value.Int(0))
  }

  /** The buy price is the larger of the two prices, the difference completes it to the estimate, and the return has the difference's sign. */
  lemma ScoresSpec(est: int, ask: int, bid: int)
    ensures ScoresOf(est, ask, bid).buyPrice >= ask && ScoresOf(est, ask, bid).buyPrice >= bid
    ensures ScoresOf(est, ask, bid).buyPrice == ask || ScoresOf(est, ask, bid).buyPrice == bid
    ensures ScoresOf(est, ask, bid).valueDiff + ScoresOf(est, ask, bid).buyPrice == est
    ensures ScoresOf(est, ask, bid).buyPrice <= 0 ==> ScoresOf(est, ask, bid).roi == Value.Int(0)
    ensures ScoresOf(est, ask, bid).buyPrice > 0 ==>
              ScoresOf(est, ask, bid).roi.Real?
              && ScoresOf(est, ask, bid).roi.x * ScoresOf(est, ask, bid).buyPrice as real == ScoresOf(est, ask, bid).valueDiff as real * 100.0
              && (ScoresOf(est, ask, bid).roi.x > 0.0 <==> ScoresOf(est, ask, bid).valueDiff > 0)
  {
    var s := ScoresOf(est, ask, bid);
    if s.buyPrice > 0 {
      var b := s.buyPrice as real;
      var q := s.valueDiff as real / b;
      assert q * b == s.valueDiff as real;
      assert q > 0.0 <==> s.valueDiff > 0;
    }
  }

  /**
   * The two reports price a deal differently: here the buy price is never below
   * the all-transfer report's, which takes the asking price whenever it is
   * positive, and an average bid above the asking price makes them differ.
   */
  lemma BuyPriceAtLeastAllTransfer(est: int, ask: int, bid: nat)
    ensures ScoresOf(est, ask, bid).buyPrice >= MainAllTransfer.PriceMetrics(est, ask, bid).buyPrice
    ensures ask > 0 && bid > ask ==> ScoresOf(est, ask, bid).buyPrice > MainAllTransfer.PriceMetrics(est, ask, bid).buyPrice
  {
    ScoresSpec(est, ask, bid);
    MainAllTransfer.PriceMetricsSpec(est, ask, bid);
  }

  /** The scores of a record, from its prices and its bids text. */
  function RecordScores(d: Dict): Scores {
    ScoresOf(IntAt(d, "estimated_value"), IntAt(d, "asking_price"), ParseBidsAvg(BidsText(d)))
  }

  /** The record with `buy_price`, `value_diff` and `roi` set, in that order. */
  function WithScores(d: Dict): Dict {
    var s := RecordScores(d);
    Set(Set(Set(d, "buy_price", Value.Int(s.buyPrice)), "value_diff", Value.Int(s.valueDiff)), "roi", s.roi)
  }

  /** The three scores land under their keys and every other key keeps its value. */
  lemma WithScoresSpec(d: Dict, k: string)
    ensures Get(WithScores(d), "buy_price") == Some(Value.Int(RecordScores(d).buyPrice))
    ensures Get(WithScores(d), "value_diff") == Some(Value.Int(RecordScores(d).valueDiff))
    ensures Get(WithScores(d), "roi") == Some(RecordScores(d).roi)
    ensures k != "buy_price" && k != "value_diff" && k != "roi" ==> Get(WithScores(d), k) == Get(d, k)
  {
    var s := RecordScores(d);
    var d1 := Set(d, "buy_price", Value.Int(s.buyPrice));
    var d2 := Set(d1, "value_diff", Value.Int(s.valueDiff));
    GetSetSame(d2, "roi", s.roi);
    GetSetSame(d1, "value_diff", Value.Int(s.valueDiff));
    GetSetOther(d2, "roi", s.roi, "value_diff");
    GetSetSame(d, "buy_price", Value.Int(s.buyPrice));
    GetSetOther(d1, "value_diff", Value.Int(s.valueDiff), "buy_price");
    GetSetOther(d2, "roi", s.roi, "buy_price");
    if k != "buy_price" && k != "value_diff" && k != "roi" {
      GetSetOther(d, "buy_price", Value.Int(s.buyPrice), k);
      GetSetOther(d1, "value_diff", Value.Int(s.valueDiff), k);
      GetSetOther(d2, "roi", s.roi, k);
    }
  }

  /** A negotiation record holds non-negative int prices, so the scores read the prices the page shows. */
  lemma RecordPricesRead(page: Html.Page, id: string)
    ensures IntAt(NegotiationPage.Record(page, id), "estimated_value") >= 0
    ensures IntAt(NegotiationPage.Record(page, id), "asking_price") >= 0
    ensures Get(NegotiationPage.Record(page, id), "estimated_value") == Some(Value.Int(IntAt(NegotiationPage.Record(page, id), "estimated_value")))
    ensures Get(NegotiationPage.Record(page, id), "asking_price") == Some(Value.Int(IntAt(NegotiationPage.Record(page, id), "asking_price")))
  {
    NegotiationPage.RecordPrices(page, id);
  }

  /** The scoring loop: each record read, scored and appended, in the order of the ids. */
  method ScoreRecords(playerIds: seq<string>, details: string -> Dict) returns (results: seq<Dict>)
    ensures results == Map(WithScores, Records(playerIds, details))
  {
    results := [];
    for i := 0 to |playerIds|
      invariant results == Map(WithScores, Map(details, playerIds[..i]))
    {
      MapMapSnoc(WithScores, details, playerIds, i);
      var data := details(playerIds[i]);
      results := results + [WithScores(data)];
    }
    assert playerIds[..|playerIds|] == playerIds;
  }

  /** `x["roi"]` as the sort key. */
  function RoiKey(d: Dict): real {
    NumberAt(d, "roi")
  }

  // ---------------------------------------------------------------- currency text

  /** `f"฿ {x:,.0f}"` of an int: the baht sign, a space, and the number with comma thousands separators. */
  function Baht(i: int): string {
    "\U{0E3F} " + (if i < 0 then "-" + Grouped(-i, ',') else Grouped(i, ','))
  }

  /** The digits of the text spell the amount, and a minus sign appears exactly for a negative amount. */
  lemma BahtSpec(i: int)
    ensures DigitsValue(OnlyDigits(Baht(i))) == if i < 0 then -i else i
    ensures '-' in Baht(i) <==> i < 0
  {
    var n: nat := if i < 0 then -i else i;
    var pre := if i < 0 then "\U{0E3F} -" else "\U{0E3F} ";
    var g := Grouped(n, ',');
    assert Baht(i) == pre + g;
    BahtDigits(pre, n);
    BahtSign(pre, n);
  }

  /** The digits of a prefix without digits followed by a grouped number spell the number. */
  lemma BahtDigits(pre: string, n: nat)
    requires forall c :: c in pre ==> !IsDigit(c)
    ensures DigitsValue(OnlyDigits(pre + Grouped(n, ','))) == n
  {
    GroupedOnlyDigits(n, ',');
    OnlyDigitsAppend(pre, Grouped(n, ','));
    NoDigitsGone(pre);
    assert OnlyDigits(pre + Grouped(n, ',')) == OnlyDigits(Grouped(n, ','));
  }

  /** A grouped number holds no minus sign, so one appears only in the prefix. */
  lemma BahtSign(pre: string, n: nat)
    ensures '-' in pre + Grouped(n, ',') <==> '-' in pre
  {
    var g := Grouped(n, ',');
    GroupedChars(n, ',');
    assert '-' !in g by {
      forall j | 0 <= j < |g| ensures g[j] != '-' {
      }
    }
    assert forall c :: c in pre + g <==> c in pre || c in g;
  }

  lemma {:induction false} NoDigitsGone(s: string)
    requires forall c :: c in s ==> !IsDigit(c)
    ensures OnlyDigits(s) == []
    decreases |s|
  {
    if s != [] {
      NoDigitsGone(s[1..]);
    }
  }

  /** The columns shown as baht on the sheet. */
  const MoneyCols: seq<string> := ["estimated_value", "asking_price", "buy_price", "value_diff"]

  /** A row with each money column present rewritten as baht text. */
  function FormatMoney(d: Dict): Dict {
    FormatKeys(d, MoneyCols)
  }

  function FormatKeys(d: Dict, ks: seq<string>): Dict
    decreases |ks|
  {
    if ks == [] then d
    else
      var d' := if HasKey(d, ks[0]) then Set(d, ks[0], Value.Text(Baht(IntAt(d, ks[0])))) else d;
      FormatKeys(d', ks[1..])
  }

  /** Formatting rewrites the listed columns as baht text, leaves every other column alone, and keeps the keys. */
  lemma {:induction false} FormatKeysSpec(d: Dict, ks: seq<string>, k: string)
    requires NoDups(ks)
    ensures Keys(FormatKeys(d, ks)) == Keys(d)
    ensures k !in ks ==> Get(FormatKeys(d, ks), k) == Get(d, k)
    ensures k in ks && HasKey(d, k) ==> Get(FormatKeys(d, ks), k) == Some(Value.Text(Baht(IntAt(d, k))))
    ensures k in ks && !HasKey(d, k) ==> Get(FormatKeys(d, ks), k).None?
    decreases |ks|
  {
    if ks != [] {
      var d' := if HasKey(d, ks[0]) then Set(d, ks[0], Value.Text(Baht(IntAt(d, ks[0])))) else d;
      assert NoDups(ks[1..]) && ks[0] !in ks[1..] by {
        forall a, b | 0 <= a < b < |ks[1..]| ensures ks[1..][a] != ks[1..][b] {
          assert ks[1..][a] == ks[a + 1] && ks[1..][b] == ks[b + 1];
        }
        forall a | 0 <= a < |ks[1..]| ensures ks[1..][a] != ks[0] {
          assert ks[1..][a] == ks[a + 1];
        }
      }
      FormatKeysSpec(d', ks[1..], k);
      if HasKey(d, ks[0]) {
        if k == ks[0] {
          GetSetSame(d, k, Value.Text(Baht(IntAt(d, k))));
        } else {
          GetSetOther(d, ks[0], Value.Text(Baht(IntAt(d, ks[0]))), k);
        }
      }
      assert k in ks ==> k == ks[0] || k in ks[1..];
    }
  }

  /** The frame the sheet shows: the same rows with the money columns formatted. */
  function Formatted(f: Frame): Frame {
    Frame(f.cols, Map(FormatMoney, f.rows))
  }

  // ---------------------------------------------------------------- the report

  /** The table saved as CSV: the ranked records with the time stamp, prices as ints. */
  function Table(ranked: seq<Dict>, stamp: string): Frame {
    WithColumn(FromRecords(ranked), "last_updated", Value.Text(stamp))
  }

  /** The records scored, best return on investment first, ties in their order. */
  function Ranked(records: seq<Dict>): seq<Dict> {
    SortDesc(Map(WithScores, records), RoiKey)
  }

  /** The ranking holds every scored record once and is ordered by return, descending; the list shown is its first five. */
  lemma RankedSpec(records: seq<Dict>)
    ensures multiset(Ranked(records)) == multiset(Map(WithScores, records))
    ensures SortedDesc(Ranked(records), RoiKey)
    ensures |Take(Ranked(records), 5)| == if |records| < 5 then |records| else 5
  {
    SortDescSortedPermutation(Map(WithScores, records), RoiKey);
  }

  /** The sheet shows baht text in the money columns while the CSV table keeps the ints. */
  lemma SheetMoneyColumns(f: Frame, i: nat, k: string)
    requires i < |f.rows| && HasKey(f.rows[i], k)
    ensures k in MoneyCols ==> Get(Formatted(f).rows[i], k) == Some(Value.Text(Baht(IntAt(f.rows[i], k))))
    ensures k !in MoneyCols ==> Get(Formatted(f).rows[i], k) == Get(f.rows[i], k)
  {
    FormatKeysSpec(f.rows[i], MoneyCols, k);
  }

  /**
   * What one run produces: the top five, the CSV table and the sheet.  The sheet
   * is `None` when the table lacks a money column: formatting that column raises
   * `KeyError`, and the handler of `main` ends the run before the upload.
   */
  datatype Report = Report(top: seq<Dict>, table: Frame, sheet: Option<Sheet>)

  predicate HasColumns(f: Frame, cs: seq<string>) {
    forall c :: c in cs ==> c in f.cols
  }

  function ReportOf(ranked: seq<Dict>, stamp: string): Report {
    var t := Table(ranked, stamp);
    Report(Take(ranked, 5), t, if HasColumns(t, MoneyCols) then Some(Render(Formatted(t))) else None)
  }

  /** The records the crawl's ids give, in the order of the ids. */
  function Records(ids: seq<string>, details: string -> Dict): seq<Dict> {
    Map(details, ids)
  }

  /** Some row has the key `c`, so the frame of the rows has the column `c`. */
  predicate SomeHas(rows: seq<Dict>, c: string) {
    exists i :: 0 <= i < |rows| && HasKey(rows[i], c)
  }

  lemma SomeHasRanked(records: seq<Dict>, c: string)
    ensures SomeHas(Ranked(records), c) <==> SomeHas(Map(WithScores, records), c)
  {
    RankedSpec(records);
    var r, m := Ranked(records), Map(WithScores, records);
    if SomeHas(r, c) {
      var i :| 0 <= i < |r| && HasKey(r[i], c);
      assert r[i] in multiset(r);
      assert r[i] in m;
    }
    if SomeHas(m, c) {
      var i :| 0 <= i < |m| && HasKey(m[i], c);
      assert m[i] in multiset(m);
      assert m[i] in r;
    }
  }

  /** Scoring adds `buy_price` and `value_diff` to every record and keeps the others' keys. */
  lemma SomeHasScored(records: seq<Dict>, c: string)
    ensures c == "buy_price" || c == "value_diff" ==> (SomeHas(Map(WithScores, records), c) <==> records != [])
    ensures c != "buy_price" && c != "value_diff" && c != "roi" ==> (SomeHas(Map(WithScores, records), c) <==> SomeHas(records, c))
  {
    var m := Map(WithScores, records);
    if c == "buy_price" || c == "value_diff" {
      if records != [] {
        WithScoresSpec(records[0], c);
        assert HasKey(m[0], c);
      }
    } else if c != "roi" {
      forall j | 0 <= j < |records| ensures HasKey(m[j], c) == HasKey(records[j], c) {
        WithScoresSpec(records[j], c);
      }
    }
  }

  /** The stamped table has a column exactly when some scored record has that key, or it is the stamp. */
  lemma TableHas(records: seq<Dict>, stamp: string, c: string)
    ensures c in Table(Ranked(records), stamp).cols <==> c == "last_updated" || SomeHas(Map(WithScores, records), c)
  {
    FromRecordsColumns(Ranked(records), c);
    SomeHasRanked(records, c);
  }

  /**
   * The sheet is written exactly when some record has an estimated value and some
   * an asking price; with no records it never is, since the empty table has no
   * `estimated_value` column to format.
   */
  lemma ReportSheet(records: seq<Dict>, stamp: string)
    ensures ReportOf(Ranked(records), stamp).sheet.Some? <==>
              SomeHas(records, "estimated_value") && SomeHas(records, "asking_price")
    ensures records == [] ==> ReportOf(Ranked(records), stamp).sheet.None?
  {
    var t := Table(Ranked(records), stamp);
    MoneyColumns(t);
    assert ReportOf(Ranked(records), stamp).sheet.Some? <==> HasColumns(t, MoneyCols);
    TableHas(records, stamp, "estimated_value");
    TableHas(records, stamp, "asking_price");
    TableHas(records, stamp, "buy_price");
    TableHas(records, stamp, "value_diff");
    SomeHasScored(records, "estimated_value");
    SomeHasScored(records, "asking_price");
    SomeHasScored(records, "buy_price");
    SomeHasScored(records, "value_diff");
  }

  lemma MoneyColumns(f: Frame)
    ensures HasColumns(f, MoneyCols) <==>
              "estimated_value" in f.cols && "asking_price" in f.cols && "buy_price" in f.cols && "value_diff" in f.cols
  {
  }

  /** With the negotiation records of the listed players the sheet is written exactly when the crawl found a player. */
  lemma NegotiationReportSheet(ids: seq<string>, open: string -> Html.Page, stamp: string)
    ensures var details := id => NegotiationPage.Record(open(NegotiationPage.NegotiationUrl(id)), id);
            ReportOf(Ranked(Records(ids, details)), stamp).sheet.Some? <==> ids != []
  {
    var details := id => NegotiationPage.Record(open(NegotiationPage.NegotiationUrl(id)), id);
    var records := Records(ids, details);
    ReportSheet(records, stamp);
    if ids != [] {
      NegotiationPage.RecordPrices(open(NegotiationPage.NegotiationUrl(ids[0])), ids[0]);
      assert records[0] == details(ids[0]);
      assert HasKey(records[0], "estimated_value") && HasKey(records[0], "asking_price");
    }
  }

  /**
   * `main` after the log-in: crawl, read and score each record, sort by return
   * on investment in place, and build the report.
   */
  method RunHighQuality(fetch: Fetch, details: string -> Dict, stamp: string)
    returns (playerIds: seq<string>, report: Report)
    ensures NoDups(playerIds) && ElemSet(playerIds) == IdsOf(fetch, Visit(fetch, HighQualityScraper.HighQualitySearch, 1, HighQualityScraper.MaxSearchPages))
    ensures report == ReportOf(Ranked(Records(playerIds, details)), stamp)
    ensures report.sheet.Some? <==>
              SomeHas(Records(playerIds, details), "estimated_value") && SomeHas(Records(playerIds, details), "asking_price")
    ensures playerIds == [] ==> report.sheet.None?
  {
    var pages;
    playerIds, pages := HighQualityScraper.SearchTransferList(fetch);
    var results := ScoreRecords(playerIds, details);
    var a := new Dict[|results|](i requires 0 <= i < |results| => results[i]);
    assert a[..] == results;
    SortInPlace(a, RoiKey);
    report := ReportOf(a[..], stamp);
    ReportSheet(Records(playerIds, details), stamp);
  }
}
