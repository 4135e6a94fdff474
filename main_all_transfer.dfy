/**
 * The all-transfer report: gather the ids of four search scenarios, read each
 * player's record, compute the value metrics, rank by value difference, and
 * write the attributes sheet (an upsert into the "All Players" tab) and the
 * market sheet (a replacement of the "Transfer Info" tab).
 *
 * The browser, the spreadsheet service and the clock are parameters: `fetch`
 * gives listing pages, `details` gives a player's record or `None` where
 * reading it raised, `stamp` is the Bangkok time text and `existing` the
 * records already in the "All Players" tab (none when the tab is missing).
 */
module MainAllTransfer {
  import opened Wrappers
  import opened SeqUtil
  import opened PyText
  import opened PyDict
  import opened StableSort
  import opened ListingCrawl
  import opened Frames
  import AllTransferScraper
  import HighQualityScraper
  import YoungPotentialScraper

  // ---------------------------------------------------------------- scenarios

  /** Age below 31, quality above 7 and price at most 20000. */
  const LowPriceSearch: string :=
    "https://www.pmanager.org/procurar.asp?action=proc_jog&nome=&pos=0&nacional=-1&lado=-1"
    + "&idd_op=%3C&idd=31&temp_op=%3C&temp=Any&expe_op=%3E%3D&expe=Any&con_op=%3C&con=Any"
    + "&pro_op=%3E&pro=Any&vel_op=%3E&vel=Any&forma_op=%3E&forma=Any&cab_op=%3E&cab=Any"
    + "&ord_op=%3C%3D&ord=Any&cul_op=%3E&cul=Any&pre_op=%3C%3D&pre=20000&forca_op=%3E&forca=Any"
    + "&lesionado=Any&prog_op=%3E&prog=Any&tack_op=%3E&tack=Any&internacional=Any&passe_op=%3E"
    + "&passe=Any&pais=-1&rem_op=%3E&rem=Any&tec_op=%3E&tec=Any&jmaos_op=%3E&jmaos=Any"
    + "&saidas_op=%3E&saidas=Any&reflexos_op=%3E&reflexos=Any&agilidade_op=%3E&agilidade=Any"
    + "&B1=Pesquisar&field=&pid=1&sort=0&pv=1&qual_op=%3E&qual=7&talento=Any"

  /** A named search; `None` for the scraper's own default search. */
  datatype Scenario = Scenario(name: string, url: Option<string>)

  const Scenarios: seq<Scenario> := [
    Scenario("High Quality", Some(HighQualityScraper.HighQualitySearch)),
    Scenario("Low Price", Some(LowPriceSearch)),
    Scenario("Young Potential", Some(YoungPotentialScraper.YoungPotentialSearch)),
    Scenario("Recent Listings (General)", None)
  ]

  function StartOf(s: Scenario): string {
    match s.url
    case Some(u) => u
    case None => AllTransferScraper.AllPlayersSearch
  }

  /** The ids the crawl from one scenario's start finds. */
  function ScenarioFinds(fetch: Fetch, s: Scenario): set<string> {
    IdsOf(fetch, Visit(fetch, StartOf(s), 1, AllTransferScraper.MaxSearchPages))
  }

  /** The union of `f(x)` over the elements `x` of `xs`. */
  function UnionOf<T>(f: T -> set<string>, xs: seq<T>): set<string> {
    if xs == [] then {} else UnionOf(f, xs[..|xs| - 1]) + f(xs[|xs| - 1])
  }

  lemma UnionOfSnoc<T>(f: T -> set<string>, xs: seq<T>, i: nat)
    requires i < |xs|
    ensures UnionOf(f, xs[..i + 1]) == UnionOf(f, xs[..i]) + f(xs[i])
  {
    assert xs[..i + 1][..i] == xs[..i];
  }

  /** An element is in the union exactly when some `f(x)` holds it. */
  lemma {:induction false} UnionOfSpec<T>(f: T -> set<string>, xs: seq<T>, id: string)
    ensures id in UnionOf(f, xs) <==> exists k :: 0 <= k < |xs| && id in f(xs[k])
    decreases |xs|
  {
    if xs != [] {
      var n := |xs| - 1;
      UnionOfSpec(f, xs[..n], id);
      assert forall k :: 0 <= k < n ==> xs[..n][k] == xs[k];
    }
  }

  function Finds(fetch: Fetch): Scenario -> set<string> {
    s => ScenarioFinds(fetch, s)
  }

  /** The ids of all the given scenarios together. */
  function FoundIds(fetch: Fetch, scenarios: seq<Scenario>): set<string> {
    UnionOf(Finds(fetch), scenarios)
  }

  /** An id is found exactly when some scenario's crawl finds it. */
  lemma FoundIdsSpec(fetch: Fetch, scenarios: seq<Scenario>, id: string)
    ensures id in FoundIds(fetch, scenarios) <==> exists k :: 0 <= k < |scenarios| && id in ScenarioFinds(fetch, scenarios[k])
  {
    UnionOfSpec(Finds(fetch), scenarios, id);
  }

  /** `list(s)` of a set: every element once, in an order the set does not fix. */
  method ListOf(s: set<string>) returns (xs: seq<string>)
    ensures NoDups(xs) && ElemSet(xs) == s
  {
    xs := [];
    var rest := s;
    while rest != {}
      invariant NoDups(xs) && ElemSet(xs) + rest == s && ElemSet(xs) !! rest
      decreases |rest|
    {
      var x :| x in rest;
      assert x !in xs;
      xs := xs + [x];
      rest := rest - {x};
    }
  }

  /** The scenario loop: every scenario's ids join one set, which becomes the list of ids. */
  method CollectIds(fetch: Fetch, scenarios: seq<Scenario>) returns (playerIds: seq<string>)
    ensures NoDups(playerIds) && ElemSet(playerIds) == FoundIds(fetch, scenarios)
  {
    var found: set<string> := {};
    for i := 0 to |scenarios|
      invariant found == UnionOf(Finds(fetch), scenarios[..i])
    {
      var ids, pages := AllTransferScraper.SearchTransferList(fetch, StartOf(scenarios[i]));
      assert ElemSet(ids) == Finds(fetch)(scenarios[i]);
      UnionOfSnoc(Finds(fetch), scenarios, i);
      found := found + ElemSet(ids);
    }
    assert scenarios[..|scenarios|] == scenarios;
    playerIds := ListOf(found);
  }

  /** The details loop: the record of every id whose reading does not raise, in order. */
  method ScrapeDetails(playerIds: seq<string>, details: string -> Option<Dict>) returns (results: seq<Dict>)
    ensures results == FilterMap(details, playerIds)
  {
    results := [];
    for i := 0 to |playerIds|
      invariant results == FilterMap(details, playerIds[..i])
    {
      FilterMapSnoc(details, playerIds, i);
      match details(playerIds[i]) {
        case Some(data) => results := results + [data];
        case None =>
      }
    }
    assert playerIds[..|playerIds|] == playerIds;
  }

  // ---------------------------------------------------------------- value metrics

  /** `int(x)` of a real: truncation toward zero. */
  function Trunc(x: real): int {
    if x >= 0.0 then x.Floor else -((-x).Floor)
  }

  /** `int(v)` of a record value; `None` where Python raises. */
  function IntOf(v: Value): Option<int> {
    match v
    case Int(i) => Some(i)
    case Text(s) => PyInt(s)
    case Real(x) => Some(Trunc(x))
  }

  /** `int(p.get(k, 0))` */
  function IntField(p: Dict, k: string): Option<int> {
    match Get(p, k)
    case None => Some(0)
    case Some(v) => IntOf(v)
  }

  /** The number a digits-only text denotes, and 0 for any other text. */
  function DigitsOrZero(t: string): nat {
    if IsDigits(t) then DigitsValue(t) else 0
  }

  /**
   * The scout's average bid: `str(p.get("bids_avg", "0"))` without commas, read
   * as a number when it is all digits and as 0 otherwise.  The text of a float
   * always holds a point, an exponent, "inf" or "nan", so a float gives 0.
   */
  function BidAverage(v: Option<Value>): nat {
    match v
    case None => DigitsOrZero("0")
    case Some(Int(i)) => DigitsOrZero(RemoveAll(PyStr(i), ","))
    case Some(Text(s)) => DigitsOrZero(RemoveAll(s, ","))
    case Some(Real(_)) => 0
  }

  datatype Metrics = Metrics(buyPrice: int, valueDiff: int, roi: Value, forecastSell: int)

  /**
   * The metrics for the numbers read from a record: the buy price is the asking
   * price when it is positive and the average bid otherwise; the value
   * difference is the estimated value less the buy price; the return on
   * investment is that difference as a percentage of the buy price; the
   * forecast is 40% of the estimated value, truncated, less the buy price.
   */
  function PriceMetrics(est: int, ask: int, bid: nat): Metrics {
    var buy := if ask > 0 then ask else bid;
    var diff := est - buy;
    Metrics(buy, diff, Value.Real(Roi(diff, buy)), Trunc(est as real / 2.0 * 0.8) - buy)
  }

  /** `(diff / buy) * 100`, and 0.0 for a buy price that is not positive. */
  function Roi(diff: int, buy: int): real {
    if buy > 0 then (diff as real / buy as real) * 100.0 else 0.0
  }

  /** The metrics of a record; where the estimated value or the asking price is not a number, all four are 0. */
  function MetricsOf(p: Dict): Metrics {
    match (IntField(p, "estimated_value"), IntField(p, "asking_price"))
    case (Some(est), Some(ask)) => PriceMetrics(est, ask, BidAverage(Get(p, "bids_avg")))
    case _ => Metrics(0, 0, Value.Int(0), 0)
  }

  /** The record with `buy_price`, `value_diff`, `roi` and `forecast_sell` set, in that order. */
  function WithMetrics(p: Dict): Dict {
    var m := MetricsOf(p);
    Set(Set(Set(Set(p, "buy_price", Value.Int(m.buyPrice)), "value_diff", Value.Int(m.valueDiff)),
            "roi", m.roi), "forecast_sell", Value.Int(m.forecastSell))
  }

  /** The return on investment measures the difference against the buy price and has the difference's sign. */
  lemma RoiSpec(diff: int, buy: int)
    ensures buy > 0 ==> Roi(diff, buy) * buy as real == diff as real * 100.0
    ensures buy <= 0 ==> Roi(diff, buy) == 0.0
    ensures Roi(diff, buy) > 0.0 <==> diff > 0 && buy > 0
    ensures Roi(diff, buy) < 0.0 <==> diff < 0 && buy > 0
  {
    if buy > 0 {
      var b := buy as real;
      var q := diff as real / b;
      assert q * b == diff as real;
      assert q > 0.0 <==> diff > 0;
      assert q < 0.0 <==> diff < 0;
    }
  }

  /**
   * How the buy price is chosen, and what the other metrics measure against it:
   * the buy price is never negative, the difference and the buy price add up
   * to the estimated value, and the forecast is 40% of the estimated value,
   * truncated, less the buy price, so for a non-negative estimate it never
   * exceeds the difference.
   */
  lemma PriceMetricsSpec(est: int, ask: int, bid: nat)
    ensures ask > 0 ==> PriceMetrics(est, ask, bid).buyPrice == ask
    ensures ask <= 0 ==> PriceMetrics(est, ask, bid).buyPrice == bid
    ensures PriceMetrics(est, ask, bid).buyPrice >= 0
    ensures PriceMetrics(est, ask, bid).valueDiff + PriceMetrics(est, ask, bid).buyPrice == est
    ensures PriceMetrics(est, ask, bid).forecastSell + PriceMetrics(est, ask, bid).buyPrice == Trunc(est as real * 0.4)
    ensures est >= 0 ==> PriceMetrics(est, ask, bid).forecastSell <= PriceMetrics(est, ask, bid).valueDiff
  {
    assert est as real / 2.0 * 0.8 == est as real * 0.4;
    if est >= 0 {
      assert (est as real * 0.4).Floor <= est;
    }
  }

  /** Whatever the record holds, the buy price is never negative. */
  lemma BuyPriceNonNegative(p: Dict)
    ensures MetricsOf(p).buyPrice >= 0
  {
    match (IntField(p, "estimated_value"), IntField(p, "asking_price"))
    case (Some(est), Some(ask)) => PriceMetricsSpec(est, ask, BidAverage(Get(p, "bids_avg")));
    case _ =>
  }

  /** A record whose estimated value or asking price does not read as a number gets zeros, with an integer `roi`. */
  lemma MetricsUnparsed(p: Dict)
    requires IntField(p, "estimated_value").None? || IntField(p, "asking_price").None?
    ensures MetricsOf(p) == Metrics(0, 0, Value.Int(0), 0)
  {
  }

  /**
   * A profile record from the all-players scraper holds no estimated value,
   * asking price or bids, so every metric is zero and `roi` is 0.0.
   */
  lemma NoPricesGiveZeros(p: Dict)
    requires !HasKey(p, "estimated_value") && !HasKey(p, "asking_price") && !HasKey(p, "bids_avg")
    ensures MetricsOf(p) == Metrics(0, 0, Value.Real(0.0), 0)
  {
    assert IsDigits("0") && DigitsValue("0") == 0;
  }

  /** An average bid written with thousands commas reads as its number. */
  lemma BidAverageGrouped(n: nat)
    ensures BidAverage(Some(Value.Text(Grouped(n, ',')))) == n
  {
    GroupedWithoutSeparators(n, ',');
  }

  /** An integer average bid reads as itself when it is not negative, and as 0 when it is. */
  lemma BidAverageOfInt(i: int)
    ensures BidAverage(Some(Value.Int(i))) == if i >= 0 then i else 0
  {
    if i >= 0 {
      DecimalStringDigits(i);
      assert ',' !in DecimalString(i);
      RemoveCharAbsent(DecimalString(i), ',');
    } else {
      var t := PyStr(i);
      assert t[0] == '-';
      assert ',' !in t by {
        DecimalStringDigits(-i);
        assert t == "-" + DecimalString(-i);
      }
      RemoveCharAbsent(t, ',');
    }
  }

  /** The four metrics land under their keys, every other key keeps its value, and the old keys keep their order. */
  lemma WithMetricsSpec(p: Dict, k: string)
    ensures Get(WithMetrics(p), "buy_price") == Some(Value.Int(MetricsOf(p).buyPrice))
    ensures Get(WithMetrics(p), "value_diff") == Some(Value.Int(MetricsOf(p).valueDiff))
    ensures Get(WithMetrics(p), "roi") == Some(MetricsOf(p).roi)
    ensures Get(WithMetrics(p), "forecast_sell") == Some(Value.Int(MetricsOf(p).forecastSell))
    ensures k !in MetricKeys ==> Get(WithMetrics(p), k) == Get(p, k)
    ensures KeysKept(p, WithMetrics(p))
  {
    var m := MetricsOf(p);
    var d1 := Set(p, "buy_price", Value.Int(m.buyPrice));
    var d2 := Set(d1, "value_diff", Value.Int(m.valueDiff));
    var d3 := Set(d2, "roi", m.roi);
    var d4 := Set(d3, "forecast_sell", Value.Int(m.forecastSell));
    GetSetSame(d3, "forecast_sell", Value.Int(m.forecastSell));
    GetSetSame(d2, "roi", m.roi);
    GetSetOther(d3, "forecast_sell", Value.Int(m.forecastSell), "roi");
    GetSetSame(d1, "value_diff", Value.Int(m.valueDiff));
    GetSetOther(d2, "roi", m.roi, "value_diff");
    GetSetOther(d3, "forecast_sell", Value.Int(m.forecastSell), "value_diff");
    GetSetSame(p, "buy_price", Value.Int(m.buyPrice));
    GetSetOther(d1, "value_diff", Value.Int(m.valueDiff), "buy_price");
    GetSetOther(d2, "roi", m.roi, "buy_price");
    GetSetOther(d3, "forecast_sell", Value.Int(m.forecastSell), "buy_price");
    if k !in MetricKeys {
      GetSetOther(p, "buy_price", Value.Int(m.buyPrice), k);
      GetSetOther(d1, "value_diff", Value.Int(m.valueDiff), k);
      GetSetOther(d2, "roi", m.roi, k);
      GetSetOther(d3, "forecast_sell", Value.Int(m.forecastSell), k);
    }
    SetKeysKept(p, "buy_price", Value.Int(m.buyPrice));
    SetKeysKept(d1, "value_diff", Value.Int(m.valueDiff));
    SetKeysKept(d2, "roi", m.roi);
    SetKeysKept(d3, "forecast_sell", Value.Int(m.forecastSell));
    KeysKeptTrans(p, d1, d2);
    KeysKeptTrans(p, d2, d3);
    KeysKeptTrans(p, d3, d4);
  }

  const MetricKeys: seq<string> := ["buy_price", "value_diff", "roi", "forecast_sell"]

  lemma SetKeysKept(d: Dict, k: string, v: Value)
    ensures KeysKept(d, Set(d, k, v))
  {
    assert (Keys(d) + [k])[..|Keys(d)|] == Keys(d);
  }

  /** The metrics loop: every record, in place, gets its metrics. */
  method CalculateMetrics(results: array<Dict>)
    modifies results
    ensures results[..] == Map(WithMetrics, old(results[..]))
  {
    ghost var orig := results[..];
    for i := 0 to results.Length
      invariant results[..] == Map(WithMetrics, orig[..i]) + orig[i..]
    {
      MapStep(WithMetrics, orig, results[..], i);
      results[i] := WithMetrics(results[i]);
    }
    assert orig[..results.Length] == orig;
  }

  /** `x.get("value_diff", 0)` as the sort key; after the metrics loop every record holds an int there. */
  function ValueDiffKey(d: Dict): real {
    NumberAt(d, "value_diff")
  }

  /** The records with their metrics, best value difference first, ties in their original order. */
  function Ranked(results: seq<Dict>): seq<Dict> {
    SortDesc(Map(WithMetrics, results), ValueDiffKey)
  }

  /** The ranking holds every record once, with its metrics, ordered by value difference, descending. */
  lemma RankedSpec(results: seq<Dict>)
    ensures multiset(Ranked(results)) == multiset(Map(WithMetrics, results))
    ensures forall i, j :: 0 <= i < j < |Ranked(results)| ==>
              ValueDiffKey(Ranked(results)[i]) >= ValueDiffKey(Ranked(results)[j])
    ensures forall d :: d in Ranked(results) ==> exists p :: p in results && d == WithMetrics(p)
  {
    var all := Map(WithMetrics, results);
    SortDescSortedPermutation(all, ValueDiffKey);
    forall d | d in Ranked(results) ensures exists p :: p in results && d == WithMetrics(p) {
      assert d in multiset(all);
      var i :| 0 <= i < |all| && all[i] == d;
      assert results[i] in results;
    }
  }

  /** The key a record with metrics sorts by is its value difference. */
  lemma ValueDiffKeyOf(p: Dict)
    ensures ValueDiffKey(WithMetrics(p)) == MetricsOf(p).valueDiff as real
  {
    WithMetricsSpec(p, "value_diff");
  }

  // ---------------------------------------------------------------- the report

  const PriorityCols: seq<string> := ["id", "name", "position", "age", "team", "nationality", "Quality", "Potential", "url"]

  /** The financial columns kept out of the attributes sheet. */
  const DropCols: seq<string> :=
    ["estimated_value", "asking_price", "buy_price", "value_diff", "roi", "deadline", "bids_count", "bids_avg", "forecast_sell"]

  const MarketCols: seq<string> :=
    ["id", "name", "position", "age", "Quality", "Potential", "estimated_value", "asking_price", "buy_price",
     "value_diff", "roi", "forecast_sell", "deadline", "last_updated", "url"]

  /** The column order `upload_to_sheets` puts first. */
  const UploadPriority: seq<string> := ["id", "name", "position", "age", "team", "Quality", "Potential", "last_updated"]

  /** The frame of the ranked records, stamped with the time and with the descriptive columns first. */
  function Table(results: seq<Dict>, stamp: string): Frame {
    var df := WithColumn(FromRecords(results), "last_updated", Value.Text(stamp));
    Select(df, PriorityOrder(df.cols, PriorityCols))
  }

  /** `df[[c for c in df.columns if c not in drop_cols]]` */
  function AttributesFrame(df: Frame): Frame {
    Select(df, Outside(df.cols, DropCols))
  }

  /** `df[[c for c in market_cols if c in df.columns]]` */
  function MarketFrame(df: Frame): Frame {
    Select(df, Within(MarketCols, df.cols))
  }

  /**
   * `upload_to_sheets`: the upsert of `df` into the existing records, its columns
   * ordered with `UploadPriority` first, as the grid written to the tab;
   * `None` where the merge raises and the function returns `False`.
   */
  function UploadToSheets(df: Frame, existing: seq<Dict>): Option<Sheet> {
    match Upsert(df, existing)
    case None => None
    case Some(merged) => Some(Render(Select(merged, PriorityOrder(merged.cols, UploadPriority))))
  }

  /** With no existing records the tab receives the frame itself, reordered; otherwise the merge or nothing. */
  lemma UploadToSheetsSpec(df: Frame, existing: seq<Dict>)
    ensures existing == [] ==> UploadToSheets(df, existing) == Some(Render(Select(df, PriorityOrder(df.cols, UploadPriority))))
    ensures UploadToSheets(df, existing).Some? <==> Upsert(df, existing).Some?
    ensures UploadToSheets(df, existing).Some? ==> |UploadToSheets(df, existing).value.body| == |Upsert(df, existing).value.rows|
  {
    UpsertSpec(df, existing);
  }

  /**
   * After a merge the tab's first column is `id`: one string id per written row,
   * the new rows' ids first and in their order, and together exactly the ids of
   * the new and the existing records.
   */
  lemma UploadIdColumn(df: Frame, existing: seq<Dict>)
    requires existing != [] && UploadToSheets(df, existing).Some?
    ensures var s := UploadToSheets(df, existing).value;
            |s.header| > 0 && s.header[0] == "id" && |s.body| >= |df.rows| &&
            forall i :: 0 <= i < |s.body| ==> |s.body[i]| > 0 && s.body[i][0].Text?
    ensures var s := UploadToSheets(df, existing).value;
            forall i :: 0 <= i < |df.rows| ==> s.body[i][0] == Value.Text(IdOf(df.rows[i]))
    ensures var s := UploadToSheets(df, existing).value;
            (set i | 0 <= i < |s.body| :: s.body[i][0]) == (set x | x in IdSet(df.rows) + IdSet(existing) :: Value.Text(x))
  {
    UpsertSpec(df, existing);
    MergeSpec(df.rows, existing);
    MergeIds(df.rows, existing);
    var merged := Upsert(df, existing).value;
    var cols := PriorityOrder(merged.cols, UploadPriority);
    assert cols[0] == "id" by {
      assert Within(UploadPriority, merged.cols) == ["id"] + Within(UploadPriority[1..], merged.cols);
    }
    RenderIdColumn(Select(merged, cols));
  }

  /** The table has one column per record key and the time stamp, each once, in every row the same stamp. */
  lemma TableSpec(results: seq<Dict>, stamp: string, c: string)
    ensures NoDups(Table(results, stamp).cols)
    ensures c in Table(results, stamp).cols <==> c == "last_updated" || exists i :: 0 <= i < |results| && HasKey(results[i], c)
    ensures |Table(results, stamp).rows| == |results|
    ensures forall i :: 0 <= i < |results| ==> Get(Table(results, stamp).rows[i], "last_updated") == Some(Value.Text(stamp))
  {
    var f := FromRecords(results);
    var df := WithColumn(f, "last_updated", Value.Text(stamp));
    FromRecordsColumns(results, c);
    assert NoDups(df.cols) by {
      if "last_updated" !in f.cols {
        ConsNoDupsRight(f.cols, "last_updated");
      }
    }
    assert c in df.cols <==> c in f.cols || c == "last_updated";
    PriorityOrderPermutes(df.cols, PriorityCols);
    var order := PriorityOrder(df.cols, PriorityCols);
    assert c in order <==> c in multiset(order);
    assert c in df.cols <==> c in multiset(df.cols);
    NoDupsByMultiset(df.cols, order);
    forall i | 0 <= i < |results| ensures Get(df.rows[i], "last_updated") == Some(Value.Text(stamp)) {
      GetSetSame(results[i], "last_updated", Value.Text(stamp));
    }
  }

  lemma ConsNoDupsRight(xs: seq<string>, x: string)
    requires NoDups(xs) && x !in xs
    ensures NoDups(xs + [x])
  {
    forall i, j | 0 <= i < j < |xs + [x]| ensures (xs + [x])[i] != (xs + [x])[j] {
      assert (xs + [x])[i] == xs[i];
      if j < |xs| {
        assert (xs + [x])[j] == xs[j];
      }
    }
  }

  /** A rearrangement of a list without repeats has none either. */
  lemma NoDupsByMultiset(xs: seq<string>, ys: seq<string>)
    requires NoDups(xs) && multiset(xs) == multiset(ys)
    ensures NoDups(ys)
  {
    NoDupsMultiset(xs);
    forall i, j | 0 <= i < j < |ys| ensures ys[i] != ys[j] {
      var x := ys[i];
      assert ys == ys[..i] + [x] + ys[i + 1..j] + [ys[j]] + ys[j + 1..];
      assert multiset(ElemSet(xs))[x] <= 1;
      assert multiset(ys)[x] >= 1 + multiset([ys[j]])[x];
    }
  }

  /** No financial column reaches the attributes frame; every other column of the table does. */
  lemma AttributesSpec(df: Frame, c: string)
    ensures c in AttributesFrame(df).cols <==> c in df.cols && c !in DropCols
    ensures AttributesFrame(df).rows == df.rows
  {
    OutsideMembers(df.cols, DropCols);
  }

  /** The market frame holds exactly the market columns the table has, in the market order. */
  lemma MarketSpec(df: Frame, c: string)
    ensures c in MarketFrame(df).cols <==> c in MarketCols && c in df.cols
    ensures NoDups(MarketFrame(df).cols)
    ensures MarketFrame(df).rows == df.rows
  {
    WithinMembers(MarketCols, df.cols);
  }

  /** What the report writes when there are results. */
  datatype Report = Report(table: Frame, allPlayers: Option<Sheet>, transferInfo: Sheet)

  function ReportOf(ranked: seq<Dict>, stamp: string, existing: seq<Dict>): Report {
    var t := Table(ranked, stamp);
    Report(t, UploadToSheets(AttributesFrame(t), existing), Render(MarketFrame(t)))
  }

  /**
   * `main` after the log-in: collect the ids, read the records, compute the
   * metrics in place, sort, and, when there is at least one record, build the
   * table and the two sheets.
   */
  method RunAllTransfer(fetch: Fetch, details: string -> Option<Dict>, stamp: string, existing: seq<Dict>)
    returns (playerIds: seq<string>, report: Option<Report>)
    ensures NoDups(playerIds) && ElemSet(playerIds) == FoundIds(fetch, Scenarios)
    ensures report.None? <==> FilterMap(details, playerIds) == []
    ensures report.Some? ==> report.value == ReportOf(Ranked(FilterMap(details, playerIds)), stamp, existing)
  {
    playerIds := CollectIds(fetch, Scenarios);
    var results := ScrapeDetails(playerIds, details);
    var a := new Dict[|results|](i requires 0 <= i < |results| => results[i]);
    assert a[..] == results;
    CalculateMetrics(a);
    SortInPlace(a, ValueDiffKey);
    var ranked := a[..];
    if |ranked| > 0 {
      report := Some(ReportOf(ranked, stamp, existing));
    } else {
      report := None;
    }
  }

  // ---------------------------------------------------------------- the scenario call as written

  /** The keyword parameters `search_transfer_list` declares besides `self`: none. */
  const SearchKeywords: seq<string> := []

  /** A call passing the keywords `given` binds only when each is declared; otherwise it raises `TypeError`. */
  predicate Binds(declared: seq<string>, given: seq<string>) {
    forall k :: k in given ==> k in declared
  }

  /** The scenario loop passes `search_url`, which `search_transfer_list` does not declare. */
  lemma SearchCallRaises()
    ensures !Binds(SearchKeywords, ["search_url"])
  {
    assert "search_url" in ["search_url"];
  }

  /**
   * `main` as written: the first scenario's call raises `TypeError`, the handler
   * of `main` prints it, and the run ends before any id is gathered, any record
   * read or any sheet written.  It agrees with `RunAllTransfer` on the ids only
   * when the scenarios find no player at all.
   */
  method RunAllTransferAsWritten(fetch: Fetch, details: string -> Option<Dict>, stamp: string, existing: seq<Dict>)
    returns (playerIds: seq<string>, report: Option<Report>)
    ensures playerIds == [] && report.None?
    ensures ElemSet(playerIds) == FoundIds(fetch, Scenarios) <==> FoundIds(fetch, Scenarios) == {}
  {
    SearchCallRaises();
    playerIds, report := [], None;
    assert ElemSet(playerIds) == {};
  }
}
