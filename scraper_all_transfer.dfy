/**
 * The "all players" scraper: the search crawl over every transfer-listed player,
 * and the player profile page, read into a record of general information, the
 * skills found next to each bold skill name, and the scout report labels.
 */
module AllTransferScraper {
  import opened Wrappers
  import opened SeqUtil
  import opened PyText
  import opened PyDict
  import opened Html
  import opened ListingCrawl

  // ---------------------------------------------------------------- the search

  /** The "All Players" search: every filter set to `Any`, results from page 1. */
  const AllPlayersSearch: string :=
    "https://www.pmanager.org/procurar.asp?action=proc_jog&nome=&pos=0&nacional=-1&lado=-1"
    + "&idd_op=%3C&idd=Any&temp_op=%3C&temp=Any&expe_op=%3E%3D&expe=Any&con_op=%3C&con=Any"
    + "&pro_op=%3E&pro=Any&vel_op=%3E&vel=Any&forma_op=%3E&forma=Any&cab_op=%3E&cab=Any"
    + "&ord_op=%3C%3D&ord=Any&cul_op=%3E&cul=Any&pre_op=%3E&pre=Any&forca_op=%3E&forca=Any"
    + "&lesionado=Any&prog_op=%3E&prog=Any&tack_op=%3E&tack=Any&internacional=Any&passe_op=%3E&passe=Any"
    + "&pais=-1&rem_op=%3E&rem=Any&tec_op=%3E&tec=Any&jmaos_op=%3E&jmaos=Any&saidas_op=%3E&saidas=Any"
    + "&reflexos_op=%3E&reflexos=Any&agilidade_op=%3E&agilidade=Any&B1=Pesquisar&field=&pid=1"
    + "&sort=0&pv=1&qual_op=%3E&qual=Any&talento=Any"

  const MaxSearchPages: nat := 150

  /**
   * `search_transfer_list`: at most 150 pages, each page's ids deduplicated before
   * they join the accumulator, and the whole list deduplicated at the end.
   *
   * The Python method takes no argument and always starts at `AllPlayersSearch`,
   * while the scenario loop of the report script calls it with a `search_url`
   * keyword, which Python rejects.  The start URL is a parameter here, as that
   * caller means it to be.
   */
  method SearchTransferList(fetch: Fetch, searchUrl: string) returns (ids: seq<string>, pages: seq<string>)
    ensures pages == Visit(fetch, searchUrl, 1, MaxSearchPages) && |pages| <= MaxSearchPages
    ensures NoDups(ids) && ElemSet(ids) == IdsOf(fetch, pages)
  {
    ids, pages := Crawl(fetch, searchUrl, MaxSearchPages, true);
  }

  // ---------------------------------------------------------------- general information

  predicate IsTeamPlayers(c: Cell) {
    "team_players" in c.classes
  }

  /** `soup.find('b', string=label)` as a test on cells. */
  function LabelCell(want: string): Cell -> bool {
    c => BoldIs(c, want)
  }

  /**
   * `get_general_info(label)`: after the first `<b>` that reads exactly `label`, the
   * first later cell of its row with class `team_players`; failing that, the cell
   * after a blank cell that immediately follows; failing that, or when the label
   * is missing or outside any cell, "N/A".
   */
  function GeneralInfo(page: Page, want: string): string {
    var h := FindIn(page, LabelCell(want));
    var sibs := SiblingsAfter(page, h);
    if !h.At? then "N/A"
    else
      match FirstCell(sibs, IsTeamPlayers, 0)
      case Some(j) => CellText(sibs[j])
      case None => if |sibs| >= 2 && CellText(sibs[0]) == [] then CellText(sibs[1]) else "N/A"
  }

  /** A label that no cell carries in bold gives "N/A". */
  lemma GeneralInfoMissing(page: Page, want: string)
    requires forall k :: 0 <= k < |page| ==> !BlockHas(page[k], LabelCell(want))
    ensures GeneralInfo(page, want) == "N/A"
  {
    FindInFirst(page, LabelCell(want));
  }

  /**
   * Any other value is the text of a cell to the right of a cell whose bold text
   * is the label, in the same row: a `team_players` cell, or the cell two places
   * on with a blank cell between.
   */
  lemma GeneralInfoFrom(page: Page, want: string)
    requires GeneralInfo(page, want) != "N/A"
    ensures exists r, i, j :: 0 <= r < |page| && page[r].Row? && 0 <= i < j < |page[r].cells|
                              && BoldIs(page[r].cells[i], want) && CellText(page[r].cells[j]) == GeneralInfo(page, want)
                              && (IsTeamPlayers(page[r].cells[j]) || (j == i + 2 && CellText(page[r].cells[i + 1]) == []))
  {
    var h := FindIn(page, LabelCell(want));
    var cells := page[h.row].cells;
    var sibs := SiblingsAfter(page, h);
    assert BoldIs(cells[h.col], want);
    match FirstCell(sibs, IsTeamPlayers, 0)
    case Some(j) =>
      assert sibs[j] == cells[h.col + 1 + j];
    case None =>
      assert sibs[0] == cells[h.col + 1] && sibs[1] == cells[h.col + 2];
  }

  /** A `team_players` cell after the label wins over the blank-cell rule: the first such cell gives the value. */
  lemma GeneralInfoPrefersTeamPlayers(page: Page, want: string)
    requires FindIn(page, LabelCell(want)).At?
    ensures var h := FindIn(page, LabelCell(want));
            var cells := page[h.row].cells;
            (exists j :: h.col < j < |cells| && IsTeamPlayers(cells[j])) ==>
              exists j :: h.col < j < |cells| && IsTeamPlayers(cells[j]) && GeneralInfo(page, want) == CellText(cells[j])
                          && forall j' :: h.col < j' < j ==> !IsTeamPlayers(cells[j'])
  {
    var h := FindIn(page, LabelCell(want));
    var cells := page[h.row].cells;
    var sibs := SiblingsAfter(page, h);
    match FirstCell(sibs, IsTeamPlayers, 0)
    case Some(j) =>
      assert sibs[j] == cells[h.col + 1 + j];
      forall j' | h.col < j' < h.col + 1 + j ensures !IsTeamPlayers(cells[j']) {
        assert cells[j'] == sibs[j' - h.col - 1];
      }
    case None =>
      forall j | h.col < j < |cells| ensures !IsTeamPlayers(cells[j]) {
        assert cells[j] == sibs[j - h.col - 1];
      }
  }

  /**
   * With no `team_players` cell after the label, the value is the cell two places
   * on exactly when the cell right after the label is blank and that cell exists;
   * otherwise "N/A".
   */
  lemma GeneralInfoSpacer(page: Page, want: string)
    requires FindIn(page, LabelCell(want)).At?
    requires var h := FindIn(page, LabelCell(want));
             forall j :: h.col < j < |page[h.row].cells| ==> !IsTeamPlayers(page[h.row].cells[j])
    ensures var h := FindIn(page, LabelCell(want));
            var cells := page[h.row].cells;
            GeneralInfo(page, want) ==
              if h.col + 2 < |cells| && CellText(cells[h.col + 1]) == [] then CellText(cells[h.col + 2]) else "N/A"
  {
    var h := FindIn(page, LabelCell(want));
    var cells := page[h.row].cells;
    var sibs := SiblingsAfter(page, h);
    assert sibs == cells[h.col + 1..];
    forall k | 0 <= k < |sibs| ensures !IsTeamPlayers(sibs[k]) {
      assert sibs[k] == cells[h.col + 1 + k];
    }
    assert FirstCell(sibs, IsTeamPlayers, 0).None?;
    if |sibs| >= 2 {
      assert sibs[0] == cells[h.col + 1] && sibs[1] == cells[h.col + 2];
    }
  }

  /** `info.replace("Years", "").strip()`. */
  function Age(info: string): string {
    Strip(RemoveAll(info, "Years"))
  }

  /** An age shown as "<n> Years" is read back as the number alone, and a missing age stays "N/A". */
  lemma AgeOfYears(n: nat)
    ensures Age(PyStr(n) + " Years") == PyStr(n)
    ensures Age("N/A") == "N/A"
  {
    var d := DecimalString(n);
    DecimalStringDigits(n);
    YearsRemoved(d);
    StripDigitsSpace(d);
    NotApplicableAge();
  }

  lemma YearsRemoved(d: string)
    requires AllDigits(d)
    ensures RemoveAll(d + " Years", "Years") == d + " "
  {
    assert 'Y' !in d + " " by {
      forall i | 0 <= i < |d + " "| ensures (d + " ")[i] != 'Y' {
        if i < |d| { assert (d + " ")[i] == d[i]; }
      }
    }
    assert d + " Years" == (d + " ") + "Years";
    RemoveAllKeepsPrefix(d + " ", "Years", "Years");
    assert "Years"[..5] == "Years" && "Years"[5..] == [];
  }

  lemma StripDigitsSpace(d: string)
    requires IsDigits(d)
    ensures Strip(d + " ") == d
  {
    assert (d + " ")[0] == d[0];
    assert TrimLeft(d + " ") == d + " ";
    assert (d + " ")[..|d|] == d;
    assert TrimRight(d + " ") == TrimRight(d);
    assert !IsSpace(d[|d| - 1]);
    assert TrimRight(d) == d;
  }

  lemma NotApplicableAge()
    ensures Age("N/A") == "N/A"
  {
    assert RemoveAll("N/A", "Years") == "N/A";
    StripOfStripped("N/A");
  }

  // ---------------------------------------------------------------- skills

  /** What a sibling cell's text must look like to be taken as a skill value. */
  predicate IsSkillText(t: string) {
    IsDigits(t) || (t != [] && Contains(t, "Fit")) || Contains(t, "%")
  }

  /** An all-digit text becomes an int, any other accepted text stays text. */
  function SkillReading(t: string): (v: Value)
    ensures v.Int? <==> IsDigits(t)
    ensures v.Int? ==> v.i >= 0 && PyInt(t) == Some(v.i)
    ensures v.Text? ==> v.s == t
  {
    if IsDigits(t) then
      PyIntOfDigits(t);
      Int(DigitsValue(t))
    else Value.Text(t)
  }

  /** The value the sibling scan settles on, visiting the cells in order. */
  function SkillValue(sibs: seq<Cell>): Option<Value> {
    if sibs == [] then None
    else if IsSkillText(CellText(sibs[0])) then Some(SkillReading(CellText(sibs[0])))
    else SkillValue(sibs[1..])
  }

  /** The scan takes the first sibling whose text is accepted, skipping the others; none accepted gives nothing. */
  lemma {:induction false} SkillValueFirst(sibs: seq<Cell>)
    ensures SkillValue(sibs).None? <==> forall k :: 0 <= k < |sibs| ==> !IsSkillText(CellText(sibs[k]))
    ensures SkillValue(sibs).Some? ==>
              exists k :: 0 <= k < |sibs| && IsSkillText(CellText(sibs[k])) && SkillValue(sibs) == Some(SkillReading(CellText(sibs[k])))
                          && forall k' :: 0 <= k' < k ==> !IsSkillText(CellText(sibs[k']))
    decreases |sibs|
  {
    if sibs != [] && !IsSkillText(CellText(sibs[0])) {
      SkillValueFirst(sibs[1..]);
      assert forall k :: 1 <= k < |sibs| ==> sibs[k] == sibs[1..][k - 1];
      if SkillValue(sibs).Some? {
        var k :| 0 <= k < |sibs[1..]| && IsSkillText(CellText(sibs[1..][k])) && SkillValue(sibs) == Some(SkillReading(CellText(sibs[1..][k])))
                 && forall k' :: 0 <= k' < k ==> !IsSkillText(CellText(sibs[1..][k']));
        assert sibs[k + 1] == sibs[1..][k];
      }
    }
  }

  /** The loop over the following siblings that stops at the first accepted text. */
  method ScanSiblings(sibs: seq<Cell>) returns (v: Option<Value>)
    ensures v == SkillValue(sibs)
  {
    v := None;
    var i := 0;
    while i < |sibs|
      invariant 0 <= i <= |sibs|
      invariant SkillValue(sibs[i..]) == SkillValue(sibs)
    {
      var text := CellText(sibs[i]);
      assert sibs[i..][1..] == sibs[i + 1..];
      if IsDigits(text) {
        v := Some(SkillReading(text));
        return;
      }
      if text != [] && Contains(text, "Fit") {
        v := Some(Value.Text(text));
        return;
      }
      if Contains(text, "%") {
        v := Some(Value.Text(text));
        return;
      }
      i := i + 1;
    }
  }

  predicate IsListCell(c: Cell) {
    "list1" in c.classes || "list2" in c.classes
  }

  /** `find_all('td', class_=['list1', 'list2'])`, each cell with the cells after it in its row. */
  function ListCells(page: Page): seq<(Cell, seq<Cell>)> {
    if page == [] then []
    else
      var here := match page[0]
        case Loose(_) => []
        case Row(_, cells) => ListCellsOfRow(cells, 0);
      here + ListCells(page[1..])
  }

  function ListCellsOfRow(cells: seq<Cell>, j: nat): seq<(Cell, seq<Cell>)>
    requires j <= |cells|
    decreases |cells| - j
  {
    if j == |cells| then []
    else (if IsListCell(cells[j]) then [(cells[j], cells[j + 1..])] else []) + ListCellsOfRow(cells, j + 1)
  }

  /**
   * What one list cell writes into the record: under its stripped bold text, the
   * scanned value; when there is none and the name contains "Fitness", the text of
   * the first sibling; otherwise nothing, and a cell without bold text writes nothing.
   */
  function SkillEntry(cell: (Cell, seq<Cell>)): Option<(string, Value)> {
    var (c, sibs) := cell;
    match c.bold
    case None => None
    case Some(b) =>
      var name := Strip(b);
      match SkillValue(sibs)
      case Some(v) => Some((name, v))
      case None =>
        if Contains(name, "Fitness") && sibs != [] then Some((name, Value.Text(CellText(sibs[0])))) else None
  }

  /** A skill name is written exactly when the scan finds a value, or for a "Fitness" name with a sibling. */
  lemma SkillEntryRule(c: Cell, sibs: seq<Cell>)
    requires c.bold.Some?
    ensures var e := SkillEntry((c, sibs));
            && (e.Some? <==> SkillValue(sibs).Some? || (Contains(Strip(c.bold.value), "Fitness") && sibs != []))
            && (e.Some? ==> e.value.0 == Strip(c.bold.value))
            && (SkillValue(sibs).Some? ==> e == Some((Strip(c.bold.value), SkillValue(sibs).value)))
            && (SkillValue(sibs).None? && e.Some? ==> e.value.1 == Value.Text(CellText(sibs[0])))
  {
  }

  /** The case split of `SkillEntry`, one arm per clause: the helper the `AddSkills` loop uses where `SkillEntryRule` states the rule. */
  lemma SkillEntryCases(c: Cell, sibs: seq<Cell>, v: Option<Value>)
    requires v == SkillValue(sibs)
    ensures c.bold.None? ==> SkillEntry((c, sibs)) == None
    ensures c.bold.Some? && v.Some? ==> SkillEntry((c, sibs)) == Some((Strip(c.bold.value), v.value))
    ensures c.bold.Some? && v.None? && Contains(Strip(c.bold.value), "Fitness") && sibs != [] ==>
              SkillEntry((c, sibs)) == Some((Strip(c.bold.value), Value.Text(CellText(sibs[0]))))
    ensures c.bold.Some? && v.None? && !(Contains(Strip(c.bold.value), "Fitness") && sibs != []) ==> SkillEntry((c, sibs)) == None
  {
  }

  /** The assignments the skill loop makes, in order. */
  function SkillEntries(page: Page): seq<(string, Value)> {
    FilterMap(SkillEntry, ListCells(page))
  }

  /** The skill loop: each list cell with bold text, in document order, adds or overwrites its entry. */
  method AddSkills(data: Dict, page: Page) returns (d: Dict)
    ensures d == SetAll(data, SkillEntries(page))
  {
    var cands := ListCells(page);
    d := data;
    for i := 0 to |cands|
      invariant d == SetAll(data, FilterMap(SkillEntry, cands[..i]))
    {
      FilterMapSnoc(SkillEntry, cands, i);
      ghost var done := FilterMap(SkillEntry, cands[..i]);
      var (c, sibs) := cands[i];
      assert cands[i] == (c, sibs);
      if c.bold.Some? {
        var name := Strip(c.bold.value);
        var v := ScanSiblings(sibs);
        SkillEntryCases(c, sibs, v);
        if v.Some? {
          assert FilterMap(SkillEntry, cands[..i + 1]) == done + [(name, v.value)];
          SetAllAppend(data, done, (name, v.value));
          d := Set(d, name, v.value);
        } else if Contains(name, "Fitness") && sibs != [] {
          assert FilterMap(SkillEntry, cands[..i + 1]) == done + [(name, Value.Text(CellText(sibs[0])))];
          SetAllAppend(data, done, (name, Value.Text(CellText(sibs[0]))));
          d := Set(d, name, Value.Text(CellText(sibs[0])));
        } else {
          assert FilterMap(SkillEntry, cands[..i + 1]) == done + [];
          assert done + [] == done;
        }
      } else {
        SkillEntryCases(c, sibs, SkillValue(sibs));
        assert FilterMap(SkillEntry, cands[..i + 1]) == done + [];
        assert done + [] == done;
      }
    }
    assert cands[..|cands|] == cands;
  }

  // ---------------------------------------------------------------- scout report

  const ReportLabels: seq<string> := ["Quality", "Potential", "Affected Quality"]

  /** After the first `<b>` reading exactly `want` inside a cell, the first later cell of its row with text. */
  function ReportValue(page: Page, want: string): Option<string> {
    var h := FindIn(page, LabelCell(want));
    var sibs := SiblingsAfter(page, h);
    match FirstCell(sibs, c => CellText(c) != [], 0)
    case Some(j) => Some(CellText(sibs[j]))
    case None => None
  }

  /** What the report loop writes for a missing label: the report value as text, if the page has one. */
  function ReportEntry(page: Page, want: string): Option<Value> {
    match ReportValue(page, want)
    case Some(t) => Some(Value.Text(t))
    case None => None
  }

  /**
   * The report-label loop: a label already in the record is left alone; a missing
   * one is set to the report value when the page has one; no other key changes.
   */
  method FillReport(data: Dict, page: Page) returns (d: Dict)
    requires WellFormed(data)
    ensures WellFormed(d)
    ensures KeysKept(data, d)
    ensures Filled(data, d, page, ReportLabels)
  {
    d := data;
    for i := 0 to |ReportLabels|
      invariant WellFormed(d)
      invariant KeysKept(data, d)
      invariant Filled(data, d, page, ReportLabels[..i])
    {
      var want := ReportLabels[i];
      ReportLabelsStep(i);
      ghost var before := d;
      d := FillLabel(d, page, want);
      KeysKeptTrans(data, before, d);
      FilledStep(data, before, d, page, ReportLabels[..i], want);
    }
    assert ReportLabels[..|ReportLabels|] == ReportLabels;
  }

  /** The report labels are distinct, so each round handles a label not handled before. */
  lemma ReportLabelsStep(i: nat)
    requires i < |ReportLabels|
    ensures ReportLabels[..i + 1] == ReportLabels[..i] + [ReportLabels[i]]
    ensures ReportLabels[i] !in ReportLabels[..i]
  {
  }

  /**
   * `d` is `data` after the report loop has handled the labels `done`: a handled
   * label that `data` has keeps its value, a handled label that `data` lacks holds
   * the page's report value (or is still absent), and every other key is as in `data`.
   */
  ghost predicate Filled(data: Dict, d: Dict, page: Page, done: seq<string>) {
    && (forall k :: k in done && HasKey(data, k) ==> Get(d, k) == Get(data, k))
    && (forall k :: k in done && !HasKey(data, k) ==> Get(d, k) == ReportEntry(page, k))
    && (forall k :: k !in done ==> Get(d, k) == Get(data, k))
  }

  lemma FilledStep(data: Dict, d: Dict, d': Dict, page: Page, done: seq<string>, want: string)
    requires Filled(data, d, page, done) && want !in done
    requires HasKey(d, want) ==> d' == d
    requires !HasKey(d, want) ==> Get(d', want) == ReportEntry(page, want)
    requires forall k :: k != want ==> Get(d', k) == Get(d, k)
    ensures Filled(data, d', page, done + [want])
  {
    assert Get(d, want) == Get(data, want);
  }

  /** One round of the report loop, for the label `want`. */
  method FillLabel(data: Dict, page: Page, want: string) returns (d: Dict)
    requires WellFormed(data)
    ensures WellFormed(d)
    ensures KeysKept(data, d)
    ensures HasKey(data, want) ==> d == data
    ensures !HasKey(data, want) ==> Get(d, want) == ReportEntry(page, want)
    ensures forall k :: k != want ==> Get(d, k) == Get(data, k)
  {
    d := data;
    assert Keys(d)[..|Keys(d)|] == Keys(d);
    if !HasKey(d, want) {
      var h := FindIn(page, LabelCell(want));
      var sibs := SiblingsAfter(page, h);
      var j := 0;
      while j < |sibs| && CellText(sibs[j]) == []
        invariant 0 <= j <= |sibs|
        invariant FirstCell(sibs, c => CellText(c) != [], j) == FirstCell(sibs, c => CellText(c) != [], 0)
      {
        j := j + 1;
      }
      if j < |sibs| {
        var v := Value.Text(CellText(sibs[j]));
        GetSetSame(d, want, v);
        forall k | k != want ensures Get(Set(d, want, v), k) == Get(d, k) {
          GetSetOther(d, want, v, k);
        }
        SetWellFormed(d, want, v);
        d := Set(d, want, v);
      }
    }
  }

  // ---------------------------------------------------------------- the profile record

  function PlayerUrl(id: string): string {
    BaseUrl + "/ver_jogador.asp?jog_id=" + id
  }

  const DetailKeys: seq<string> := ["id", "url", "name", "position", "age", "nationality"]

  /**
   * `get_player_details`.  `title` is the text of the page's `<font size="+1">`
   * element, when there is one.  The record starts with the id and URL, then the
   * name, position, age and nationality, then the skills and the report labels.
   */
  method GetPlayerDetails(page: Page, id: string, title: Option<string>) returns (data: Dict)
    ensures WellFormed(data)
    ensures |Keys(data)| >= |DetailKeys| && Keys(data)[..|DetailKeys|] == DetailKeys
    ensures forall k :: k in DetailKeys && LastFor(SkillEntries(page), k).None? ==> Get(data, k) == Get(Header(page, id, title), k)
    ensures forall k :: k in ReportLabels && LastFor(SkillEntries(page), k).Some? ==> Get(data, k) == LastFor(SkillEntries(page), k)
    ensures forall k :: k in ReportLabels && LastFor(SkillEntries(page), k).None? ==> Get(data, k) == ReportEntry(page, k)
    ensures forall k :: LastFor(SkillEntries(page), k).Some? ==> Get(data, k) == LastFor(SkillEntries(page), k)
    ensures forall k :: k !in DetailKeys && k !in ReportLabels && LastFor(SkillEntries(page), k).None? ==> Get(data, k).None?
  {
    var header := Header(page, id, title);
    HeaderKeys(page, id, title);
    var skills := AddSkills(header, page);
    ghost var es := SkillEntries(page);
    SetAllKeys(header, es);
    data := FillReport(skills, page);
    assert Filled(skills, data, page, ReportLabels);
    assert Keys(data)[..|DetailKeys|] == Keys(data)[..|Keys(skills)|][..|DetailKeys|];
    LabelsApart();
    forall k | k in DetailKeys && LastFor(es, k).None? ensures Get(data, k) == Get(header, k) {
      GetSetAll(header, es, k);
    }
    forall k | k in ReportLabels && LastFor(es, k).Some? ensures Get(data, k) == LastFor(es, k) {
      GetSetAll(header, es, k);
    }
    forall k | k in ReportLabels && LastFor(es, k).None? ensures Get(data, k) == ReportEntry(page, k) {
      GetSetAll(header, es, k);
      assert !HasKey(header, k);
    }
    forall k | LastFor(es, k).Some? ensures Get(data, k) == LastFor(es, k) {
      GetSetAll(header, es, k);
    }
    forall k | k !in DetailKeys && k !in ReportLabels && LastFor(es, k).None? ensures Get(data, k).None? {
      GetSetAll(header, es, k);
      assert !HasKey(header, k);
    }
  }

  /** No report label is one of the header keys. */
  lemma LabelsApart()
    ensures forall k :: k in ReportLabels ==> k !in DetailKeys
  {
  }

  /** The record before the skills: id, URL, name, position, age and nationality. */
  function Header(page: Page, id: string, title: Option<string>): Dict {
    FromPairs(DetailKeys, HeaderValues(page, id, title))
  }

  function HeaderValues(page: Page, id: string, title: Option<string>): seq<Value> {
    [Value.Text(id), Value.Text(PlayerUrl(id)),
     Value.Text(if title.Some? then title.value else "N/A"),
     Value.Text(GeneralInfo(page, "Position")),
     Value.Text(Age(GeneralInfo(page, "Age"))),
     Value.Text(GeneralInfo(page, "Nationality"))]
  }

  lemma HeaderKeys(page: Page, id: string, title: Option<string>)
    ensures Keys(Header(page, id, title)) == DetailKeys && WellFormed(Header(page, id, title))
    ensures forall j :: 0 <= j < |DetailKeys| ==> Get(Header(page, id, title), DetailKeys[j]) == Some(HeaderValues(page, id, title)[j])
  {
    var vs := HeaderValues(page, id, title);
    assert |vs| == |DetailKeys|;
    DetailKeysDistinct();
    forall j | 0 <= j < |DetailKeys| ensures Get(FromPairs(DetailKeys, vs), DetailKeys[j]) == Some(vs[j]) {
      GetFromPairs(DetailKeys, vs, j);
    }
  }

  lemma DetailKeysDistinct()
    ensures NoDups(DetailKeys)
  {
  }
}
