/**
 * The team information scraper: the club's info page read label by label into a
 * dict of texts, then an integer companion `<key>_int` for each money field that
 * was found.
 */
module TeamInfoScraper {
  import opened Wrappers
  import opened SeqUtil
  import opened PyText
  import opened PyDict
  import opened Html
  import opened ListingCrawl

  const InfoUrl: string := BaseUrl + "/info.asp"

  // ---------------------------------------------------------------- extract_value

  /** `soup.find(string=re.compile(re.escape(label)))` as a test on cells: a text node containing `label`. */
  function Mentioning(labelText: string): Cell -> bool {
    c => HasSubstring(c, labelText)
  }

  /**
   * `extract_value(label)`: the text, joined with spaces, of the cell after the
   * first cell that mentions the label; "N/A" when the label is missing, outside
   * any cell, or in the last cell of its row.
   */
  function ExtractValue(page: Page, labelText: string): string {
    match FindIn(page, Mentioning(labelText))
    case At(r, j) => if j + 1 < |page[r].cells| then CellSpacedText(page[r].cells[j + 1]) else "N/A"
    case _ => "N/A"
  }

  /** A label the page does not mention reads as "N/A". */
  lemma ExtractValueMissing(page: Page, labelText: string)
    requires forall k :: 0 <= k < |page| ==> !BlockHas(page[k], Mentioning(labelText))
    ensures ExtractValue(page, labelText) == "N/A"
  {
    FindInFirst(page, Mentioning(labelText));
  }

  /** A label whose first mention is a text node outside any cell reads as "N/A": it has no parent cell. */
  lemma ExtractValueLoose(page: Page, labelText: string, k: nat)
    requires k < |page| && page[k].Loose? && Mentioning(labelText)(page[k].node)
    requires forall k' :: 0 <= k' < k ==> !BlockHas(page[k'], Mentioning(labelText))
    ensures ExtractValue(page, labelText) == "N/A"
  {
    FindFromLoose(page, Mentioning(labelText), k, 0);
  }

  /**
   * A label first mentioned in cell `j` of row `r` reads as the spaced text of
   * the next cell of that row, or as "N/A" when the cell is the row's last.
   */
  lemma ExtractValueAt(page: Page, labelText: string, r: nat, j: nat)
    requires r < |page| && page[r].Row? && j < |page[r].cells| && Mentioning(labelText)(page[r].cells[j])
    requires forall k :: 0 <= k < r ==> !BlockHas(page[k], Mentioning(labelText))
    requires forall j' :: 0 <= j' < j ==> !Mentioning(labelText)(page[r].cells[j'])
    ensures ExtractValue(page, labelText) ==
              if j + 1 < |page[r].cells| then CellSpacedText(page[r].cells[j + 1]) else "N/A"
  {
    FindInAt(page, Mentioning(labelText), r, j);
  }

  // ---------------------------------------------------------------- the info dict

  const InfoKeys: seq<string> := [
    "manager", "team_name", "available_funds", "financial_situation", "wage_average", "wages_sum",
    "wage_roof", "academy", "players_count", "age_average", "players_value", "team_reputation",
    "current_division", "fan_club_size"
  ]

  /** The label searched for each key of `InfoKeys`, in the same order. */
  const InfoLabels: seq<string> := [
    "Manager", "Name", "Available Funds", "Financial Situation", "Wage Average", "Wages Sum",
    "Wage Roof of Club", "Academy", "Players", "Age Average", "Players Value", "Team Reputation",
    "Current Division", "Fan Club Size"
  ]

  function InfoValues(page: Page): seq<Value> {
    seq(|InfoLabels|, i requires 0 <= i < |InfoLabels| => Value.Text(ExtractValue(page, InfoLabels[i])))
  }

  /** The fourteen assignments `info[key] = extract_value(label)` on an empty dict. */
  function TeamFields(page: Page): Dict {
    FromPairs(InfoKeys, InfoValues(page))
  }

  // ---------------------------------------------------------------- money clean-up

  /** The money fields, in the order the clean-up visits them. */
  const MoneyKeys: seq<string> := ["available_funds", "wages_sum", "wage_roof", "players_value", "wage_average"]

  function IntKey(key: string): string {
    key + "_int"
  }

  /**
   * `int(re.sub(r'[^\d]', '', v.split('+')[0].strip()))`, with the `except`
   * branch: the digits before the first '+', or 0 when there are none.
   */
  function MoneyInt(v: string): nat {
    var clean := OnlyDigits(Strip(SplitHead(v, "+")));
    if clean != [] then DigitsValue(clean) else 0
  }

  /**
   * What the clean-up adds for `key`: `<key>_int` with the cleaned number, when
   * the key holds a text other than "N/A".  The dict holds only texts, so the
   * test `key in info and info[key] != "N/A"` is exactly this.
   */
  function MoneyEntry(info: Dict, key: string): Option<(string, Value)> {
    match Get(info, key)
    case Some(v) => if v.Text? && v.s != "N/A" then Some((IntKey(key), Int(MoneyInt(v.s)))) else None
    case None => None
  }

  function MoneyEntryOf(info: Dict): string -> Option<(string, Value)> {
    key => MoneyEntry(info, key)
  }

  /** The dict after the clean-up loop. */
  function WithMoneyInts(info: Dict): Dict {
    SetAll(info, FilterMap(MoneyEntryOf(info), MoneyKeys))
  }

  /** The clean-up loop: reads each money field and adds its `_int` companion. */
  method AddMoneyInts(info: Dict) returns (d: Dict)
    ensures d == WithMoneyInts(info)
  {
    MoneyKeysApart();
    d := info;
    for n := 0 to |MoneyKeys|
      invariant d == SetAll(info, FilterMap(MoneyEntryOf(info), MoneyKeys[..n]))
      invariant forall j :: 0 <= j < |MoneyKeys| ==> Get(d, MoneyKeys[j]) == Get(info, MoneyKeys[j])
    {
      FilterMapSnoc(MoneyEntryOf(info), MoneyKeys, n);
      ghost var done := FilterMap(MoneyEntryOf(info), MoneyKeys[..n]);
      var key := MoneyKeys[n];
      var v := Get(d, key);
      if v.Some? && v.value.Text? && v.value.s != "N/A" {
        var e := (IntKey(key), Int(MoneyInt(v.value.s)));
        assert FilterMap(MoneyEntryOf(info), MoneyKeys[..n + 1]) == done + [e];
        SetAllAppend(info, done, e);
        forall j | 0 <= j < |MoneyKeys| ensures Get(Set(d, e.0, e.1), MoneyKeys[j]) == Get(d, MoneyKeys[j]) {
          GetSetOther(d, e.0, e.1, MoneyKeys[j]);
        }
        d := Set(d, e.0, e.1);
      } else {
        assert FilterMap(MoneyEntryOf(info), MoneyKeys[..n + 1]) == done + [];
        assert done + [] == done;
      }
    }
    assert MoneyKeys[..|MoneyKeys|] == MoneyKeys;
  }

  /** `get_team_info`: the info page read into the fourteen fields, then the money clean-up. */
  method GetTeamInfo(open: string -> Page) returns (info: Dict)
    ensures info == WithMoneyInts(TeamFields(open(InfoUrl)))
  {
    var page := open(InfoUrl);
    info := TeamFields(page);
    info := AddMoneyInts(info);
  }

  // ---------------------------------------------------------------- what the clean-up promises

  lemma MoneyKeysApart()
    ensures NoDups(MoneyKeys)
    ensures forall i, j :: 0 <= i < |MoneyKeys| && 0 <= j < |MoneyKeys| ==> IntKey(MoneyKeys[i]) != MoneyKeys[j]
  {
    forall i, j | 0 <= i < |MoneyKeys| && 0 <= j < |MoneyKeys| ensures IntKey(MoneyKeys[i]) != MoneyKeys[j] {
      var k := IntKey(MoneyKeys[i]);
      assert k[|k| - 1] == 't';
      assert MoneyKeys[j][|MoneyKeys[j]| - 1] != 't';
    }
  }

  lemma IntKeyInjective(a: string, b: string)
    requires IntKey(a) == IntKey(b)
    ensures a == b
  {
    assert a == IntKey(a)[..|a|] && b == IntKey(b)[..|b|];
  }

  /** The last money key's entry, if any, comes after those of the keys before it. */
  lemma EntriesSnoc(info: Dict, ks: seq<string>, k: string)
    requires ks != []
    ensures var n := |ks| - 1;
            var before := LastFor(FilterMap(MoneyEntryOf(info), ks[..n]), k);
            LastFor(FilterMap(MoneyEntryOf(info), ks), k) ==
              match MoneyEntry(info, ks[n])
              case Some(e) => if e.0 == k then Some(e.1) else before
              case None => before
  {
    var n := |ks| - 1;
    FilterMapSnoc(MoneyEntryOf(info), ks, n);
    assert ks[..n + 1] == ks;
    var init := FilterMap(MoneyEntryOf(info), ks[..n]);
    match MoneyEntry(info, ks[n])
    case None =>
      assert init + [] == init;
    case Some(e) =>
      assert (init + [e])[..|init|] == init;
  }

  /** No money key gives `k` as its companion: the entries never assign `k`. */
  lemma {:induction false} LastForNoEntry(info: Dict, ks: seq<string>, k: string)
    requires forall j :: 0 <= j < |ks| ==> IntKey(ks[j]) != k
    ensures LastFor(FilterMap(MoneyEntryOf(info), ks), k) == None
    decreases |ks|
  {
    if ks != [] {
      var n := |ks| - 1;
      EntriesSnoc(info, ks, k);
      LastForNoEntry(info, ks[..n], k);
    }
  }

  /** The companion of the `m`-th money key is last assigned by that key's own entry. */
  lemma {:induction false} LastForEntry(info: Dict, ks: seq<string>, m: nat)
    requires NoDups(ks) && m < |ks|
    ensures LastFor(FilterMap(MoneyEntryOf(info), ks), IntKey(ks[m])) ==
              if MoneyEntry(info, ks[m]).Some? then Some(MoneyEntry(info, ks[m]).value.1) else None
    decreases |ks|
  {
    var n := |ks| - 1;
    var k := IntKey(ks[m]);
    EntriesSnoc(info, ks, k);
    if m == n {
      forall j | 0 <= j < |ks[..n]| ensures IntKey(ks[..n][j]) != k {
        if IntKey(ks[..n][j]) == k {
          IntKeyInjective(ks[..n][j], ks[m]);
        }
      }
      LastForNoEntry(info, ks[..n], k);
    } else {
      assert ks[..n][m] == ks[m];
      LastForEntry(info, ks[..n], m);
      if IntKey(ks[n]) == k {
        IntKeyInjective(ks[n], ks[m]);
      }
    }
  }

  /**
   * The `_int` companion of a money key is its cleaned number when the key holds
   * a text other than "N/A", and is left as it was otherwise.
   */
  lemma MoneyIntAdded(info: Dict, m: nat)
    requires m < |MoneyKeys|
    ensures var v := Get(info, MoneyKeys[m]);
            Get(WithMoneyInts(info), IntKey(MoneyKeys[m])) ==
              if v.Some? && v.value.Text? && v.value.s != "N/A" then Some(Int(MoneyInt(v.value.s)))
              else Get(info, IntKey(MoneyKeys[m]))
  {
    MoneyKeysApart();
    LastForEntry(info, MoneyKeys, m);
    GetSetAll(info, FilterMap(MoneyEntryOf(info), MoneyKeys), IntKey(MoneyKeys[m]));
  }

  /** Every other key, the money keys themselves included, keeps its value. */
  lemma MoneyOtherKeys(info: Dict, k: string)
    requires forall j :: 0 <= j < |MoneyKeys| ==> IntKey(MoneyKeys[j]) != k
    ensures Get(WithMoneyInts(info), k) == Get(info, k)
  {
    LastForNoEntry(info, MoneyKeys, k);
    GetSetAll(info, FilterMap(MoneyEntryOf(info), MoneyKeys), k);
  }

  /** The clean-up only appends keys: the fields keep their order and the dict keeps distinct keys. */
  lemma MoneyKeysAppended(info: Dict)
    requires WellFormed(info)
    ensures WellFormed(WithMoneyInts(info)) && KeysKept(info, WithMoneyInts(info))
  {
    SetAllKeys(info, FilterMap(MoneyEntryOf(info), MoneyKeys));
  }

  /** A text of no digit at all cleans to 0 rather than an error. */
  lemma MoneyIntNoDigits(v: string)
    requires forall i :: 0 <= i < |v| ==> !IsDigit(v[i])
    ensures MoneyInt(v) == 0
  {
    var head := SplitHead(v, "+");
    OnlyDigitsStrip(head);
    NoDigitsDropped(head);
  }

  lemma {:induction false} NoDigitsDropped(s: string)
    requires forall i :: 0 <= i < |s| ==> !IsDigit(s[i])
    ensures OnlyDigits(s) == []
    decreases |s|
  {
    if s != [] {
      NoDigitsDropped(s[1..]);
    }
  }

  lemma NoPlusBeforeAddition(n: nat)
    ensures '+' !in Grouped(n, '.') + " baht ("
  {
    var g := Grouped(n, '.');
    var a := g + " baht (";
    GroupedChars(n, '.');
    forall i | 0 <= i < |a| ensures a[i] != '+' {
      if i < |g| {
        assert a[i] == g[i];
      }
    }
  }

  /**
   * A money text with dots between groups of three digits and a bracketed
   * addition reads as the number before the addition: `5.264.850 baht (+ ...)`.
   */
  lemma MoneyIntGrouped(n: nat, rest: string)
    ensures MoneyInt(Grouped(n, '.') + " baht (+" + rest) == n
  {
    var g := Grouped(n, '.');
    AdditionCut(n, rest);
    SuffixDigitsDropped(g);
    GroupedOnlyDigits(n, '.');
  }

  /** The text before the `+` is the grouped number and ` baht (`. */
  lemma AdditionCut(n: nat, rest: string)
    ensures SplitHead(Grouped(n, '.') + " baht (+" + rest, "+") == Grouped(n, '.') + " baht ("
  {
    var a := Grouped(n, '.') + " baht (";
    NoPlusBeforeAddition(n);
    assert Grouped(n, '.') + " baht (+" + rest == a + ['+'] + rest;
    SplitHeadBefore(a, rest, '+');
  }

  /** Trimming and keeping the digits of `g baht (` keeps the digits of `g`. */
  lemma SuffixDigitsDropped(g: string)
    ensures OnlyDigits(Strip(g + " baht (")) == OnlyDigits(g)
  {
    var a := g + " baht (";
    OnlyDigitsStrip(a);
    OnlyDigitsAppend(g, " baht (");
    assert OnlyDigits(" baht (") == [] by {
      NoDigitsDropped(" baht (");
    }
    assert OnlyDigits(g) + [] == OnlyDigits(g);
  }

  /** The wages sum as the info page shows it, with the next season's addition in brackets. */
  lemma WagesSumExample()
    ensures MoneyInt("5.264.850" + " baht (+" + " 1.314.550 baht)") == 5264850
  {
    assert DecimalString(5) == "5";
    assert Pad3(264) == "264";
    assert Pad3(850) == "850";
    assert Grouped(5264, '.') == "5.264";
    assert Grouped(5264850, '.') == "5.264.850";
    MoneyIntGrouped(5264850, " 1.314.550 baht)");
  }

  // ---------------------------------------------------------------- get_team_info

  lemma InfoKeysApart()
    ensures NoDups(InfoKeys)
    ensures forall m, i :: 0 <= m < |MoneyKeys| && 0 <= i < |InfoKeys| ==> IntKey(MoneyKeys[m]) != InfoKeys[i]
  {
    forall m, i | 0 <= m < |MoneyKeys| && 0 <= i < |InfoKeys| ensures IntKey(MoneyKeys[m]) != InfoKeys[i] {
      var k := IntKey(MoneyKeys[m]);
      assert k[0] == MoneyKeys[m][0] && k[|k| - 2] == 'n' && k[|k| - 1] == 't';
    }
  }

  /** Before the clean-up, each field holds the text read for its label. */
  lemma TeamFieldsGet(page: Page, i: nat)
    requires i < |InfoKeys|
    ensures Get(TeamFields(page), InfoKeys[i]) == Some(Value.Text(ExtractValue(page, InfoLabels[i])))
  {
    InfoKeysApart();
    GetFromPairs(InfoKeys, InfoValues(page), i);
  }

  /**
   * The team info holds, for the money field `InfoKeys[i]`, its `_int` companion
   * exactly when the text read for it is not "N/A", and then the cleaned number.
   */
  lemma TeamMoney(page: Page, m: nat, i: nat)
    requires m < |MoneyKeys| && i < |InfoKeys| && MoneyKeys[m] == InfoKeys[i]
    ensures var v := ExtractValue(page, InfoLabels[i]);
            Get(WithMoneyInts(TeamFields(page)), IntKey(MoneyKeys[m])) ==
              if v != "N/A" then Some(Int(MoneyInt(v))) else None
  {
    InfoKeysApart();
    TeamFieldsGet(page, i);
    MoneyIntAdded(TeamFields(page), m);
    assert !HasKey(TeamFields(page), IntKey(MoneyKeys[m]));
  }

  /** The clean-up leaves every field read from the page as it was. */
  lemma TeamFieldsKept(page: Page, i: nat)
    requires i < |InfoKeys|
    ensures Get(WithMoneyInts(TeamFields(page)), InfoKeys[i]) == Some(Value.Text(ExtractValue(page, InfoLabels[i])))
  {
    InfoKeysApart();
    TeamFieldsGet(page, i);
    MoneyOtherKeys(TeamFields(page), InfoKeys[i]);
  }
}
