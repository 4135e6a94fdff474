/**
 * `main.py`: read the estimated value of every listed player, keep those whose
 * asking price is under one million, rank the kept records by estimated value
 * (highest first, ties in reading order) and show the first five; all kept
 * records also go to a CSV table.
 *
 * The crawl and the record reader live in `scraper.py`, which is not part of
 * this model: the ids and the record of each id are parameters.
 */
module MainValueReport {
  import opened SeqUtil
  import opened PyDict
  import opened StableSort
  import opened Frames

  /** The asking-price bound of the filter, exclusive. */
  const PriceCap: real := 1000000.0

  function AskPrice(d: Dict): real {
    NumberAt(d, "asking_price")
  }

  /** `x["estimated_value"]` as the sort key. */
  function EstimatedValue(d: Dict): real {
    NumberAt(d, "estimated_value")
  }

  /** The filter `ask_price < 1000000`. */
  predicate Affordable(d: Dict) {
    AskPrice(d) < PriceCap
  }

  /** The status printed beside each record. */
  function Status(d: Dict): string {
    if AskPrice(d) < PriceCap then "OK" else "FILTER FAIL"
  }

  /** The kept records, in reading order. */
  function Kept(records: seq<Dict>): seq<Dict> {
    if records == [] then []
    else
      var last := records[|records| - 1];
      Kept(records[..|records| - 1]) + (if Affordable(last) then [last] else [])
  }

  /** Each record is kept as often as it was read when it is affordable, and never otherwise. */
  lemma {:induction false} KeptCount(records: seq<Dict>, d: Dict)
    ensures multiset(Kept(records))[d] == if Affordable(d) then multiset(records)[d] else 0
    decreases |records|
  {
    if records != [] {
      var init, last := records[..|records| - 1], records[|records| - 1];
      KeptCount(init, d);
      assert records == init + [last];
    }
  }

  /** Keeping the records of two batches keeps each batch's records, in order. */
  lemma {:induction false} KeptAppend(a: seq<Dict>, b: seq<Dict>)
    ensures Kept(a + b) == Kept(a) + Kept(b)
    decreases |b|
  {
    if b == [] {
      assert a + b == a;
    } else {
      var init := b[..|b| - 1];
      KeptAppend(a, init);
      assert (a + b)[..|a + b| - 1] == a + init;
      var last := b[|b| - 1];
      var tail := if Affordable(last) then [last] else [];
      assert (a + b)[|a + b| - 1] == last;
      assert Kept(a + b) == Kept(a + init) + tail;
      assert Kept(b) == Kept(init) + tail;
      assert Kept(a) + Kept(init) + tail == Kept(a) + (Kept(init) + tail);
    }
  }

  /** The status is "OK" exactly for the records the filter keeps. */
  lemma StatusKept(records: seq<Dict>, k: nat)
    requires k < |records|
    ensures Status(records[k]) == "OK" <==> records[k] in Kept(records)
    ensures Status(records[k]) == "OK" || Status(records[k]) == "FILTER FAIL"
  {
    KeptCount(records, records[k]);
    assert records[k] in multiset(records);
    assert records[k] in Kept(records) <==> records[k] in multiset(Kept(records));
  }

  /** The kept records ranked by estimated value, highest first; equal values keep reading order. */
  function Ranked(records: seq<Dict>): seq<Dict> {
    SortDesc(Kept(records), EstimatedValue)
  }

  /**
   * The ranking holds exactly the affordable records, as often as they were read,
   * ordered by estimated value with ties in reading order; the list shown is its
   * first five.
   */
  lemma RankedSpec(records: seq<Dict>, d: Dict, v: real)
    ensures multiset(Ranked(records))[d] == if Affordable(d) then multiset(records)[d] else 0
    ensures SortedDesc(Ranked(records), EstimatedValue)
    ensures WithKey(Ranked(records), EstimatedValue, v) == WithKey(Kept(records), EstimatedValue, v)
    ensures |Take(Ranked(records), 5)| == if |Kept(records)| < 5 then |Kept(records)| else 5
  {
    SortDescSortedPermutation(Kept(records), EstimatedValue);
    SortDescStable(Kept(records), EstimatedValue, v);
    KeptCount(records, d);
  }

  /** Every record shown passed the filter. */
  lemma TopAffordable(records: seq<Dict>, k: nat)
    requires k < |Take(Ranked(records), 5)|
    ensures Affordable(Take(Ranked(records), 5)[k])
  {
    var d := Ranked(records)[k];
    assert Take(Ranked(records), 5)[k] == d;
    assert d in multiset(Ranked(records));
    RankedSpec(records, d, 0.0);
  }

  /** What `main` produces once logged in: the printed statuses, the five shown and the CSV table. */
  datatype Report = Report(statuses: seq<string>, top: seq<Dict>, csv: Frame)

  /** The loop of `main`: read each record, print its status, and keep it when it is affordable. */
  method ReadAll(playerIds: seq<string>, details: string -> Dict) returns (statuses: seq<string>, results: seq<Dict>)
    ensures statuses == Map(Status, Map(details, playerIds))
    ensures results == Kept(Map(details, playerIds))
  {
    ghost var records := Map(details, playerIds);
    statuses := [];
    results := [];
    for i := 0 to |playerIds|
      invariant statuses == Map(Status, records[..i])
      invariant results == Kept(records[..i])
    {
      var data := details(playerIds[i]);
      assert data == records[i];
      assert records[..i + 1][..i] == records[..i];
      MapSnoc(Status, records, i);
      statuses := statuses + [Status(data)];
      if AskPrice(data) < PriceCap {
        results := results + [data];
      }
    }
    assert records[..|playerIds|] == records;
  }

  /**
   * `main` after the log-in: read the records, sort the kept ones in place and
   * report.
   */
  method RunValueReport(playerIds: seq<string>, details: string -> Dict) returns (report: Report)
    ensures report.statuses == Map(Status, Map(details, playerIds))
    ensures report.top == Take(Ranked(Map(details, playerIds)), 5)
    ensures report.csv == FromRecords(Ranked(Map(details, playerIds)))
  {
    var statuses, results := ReadAll(playerIds, details);
    var a := new Dict[|results|](k requires 0 <= k < |results| => results[k]);
    assert a[..] == results;
    SortInPlace(a, EstimatedValue);
    report := Report(statuses, Take(a[..], 5), FromRecords(a[..]));
  }
}
