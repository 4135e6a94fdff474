/**
 * The squad page of an opposing team: the rows of class `list1` or `list2` are
 * the players, and each row's first link to a player profile,
 * `ver_jogador.asp?jog_id=<id>`, carries the player id.
 *
 * A squad page is its table rows in document order; a row is its classes and
 * the `href`s of its anchors, in order.
 */
module OpponentScraper {
  import opened Wrappers
  import opened SeqUtil
  import opened PyText

  /** What the link pattern `ver_jogador\.asp\?jog_id=` matches. */
  const ProfileLink: string := "ver_jogador.asp?jog_id="

  const PlayerMarker: string := "jog_id="

  datatype SquadRow = SquadRow(classes: set<string>, hrefs: seq<string>)

  type SquadPage = seq<SquadRow>

  /** `find_all('tr', class_=['list1', 'list2'])` keeps a row that has either class. */
  predicate Listed(row: SquadRow) {
    "list1" in row.classes || "list2" in row.classes
  }

  function ListedRows(page: SquadPage): seq<SquadRow> {
    if page == [] then []
    else (if Listed(page[0]) then [page[0]] else []) + ListedRows(page[1..])
  }

  /** The squad rows are exactly the listed rows of the page, in order. */
  lemma {:induction false} ListedRowsSpec(page: SquadPage)
    ensures forall row :: row in ListedRows(page) <==> row in page && Listed(row)
    ensures |ListedRows(page)| <= |page|
    decreases |page|
  {
    if page != [] {
      ListedRowsSpec(page[1..]);
      assert forall row :: row in page <==> row == page[0] || row in page[1..];
    }
  }

  /** `row.find('a', href=re.compile(...))`: the first href of the row that contains the profile link. */
  function ProfileHref(hrefs: seq<string>): Option<string> {
    if hrefs == [] then None
    else if Contains(hrefs[0], ProfileLink) then Some(hrefs[0])
    else ProfileHref(hrefs[1..])
  }

  /** The href found is the first one, in order, that contains the profile link; none exactly when none does. */
  lemma {:induction false} ProfileHrefSpec(hrefs: seq<string>)
    ensures ProfileHref(hrefs).None? <==> forall k :: 0 <= k < |hrefs| ==> !Contains(hrefs[k], ProfileLink)
    ensures ProfileHref(hrefs).Some? ==>
              exists k :: 0 <= k < |hrefs| && hrefs[k] == ProfileHref(hrefs).value
                          && Contains(hrefs[k], ProfileLink)
                          && forall k' :: 0 <= k' < k ==> !Contains(hrefs[k'], ProfileLink)
    decreases |hrefs|
  {
    if hrefs != [] {
      ProfileHrefSpec(hrefs[1..]);
      assert forall k :: 1 <= k < |hrefs| ==> hrefs[k] == hrefs[1..][k - 1];
      if ProfileHref(hrefs).Some? && !Contains(hrefs[0], ProfileLink) {
        var k :| 0 <= k < |hrefs[1..]| && hrefs[1..][k] == ProfileHref(hrefs).value
                 && Contains(hrefs[1..][k], ProfileLink)
                 && forall k' :: 0 <= k' < k ==> !Contains(hrefs[1..][k'], ProfileLink);
        assert hrefs[k + 1] == hrefs[1..][k];
      }
    }
  }

  /** The id a row contributes: `href.split('jog_id=')[1]` of its profile link; a row without one contributes nothing. */
  function RowId(row: SquadRow): Option<string> {
    match ProfileHref(row.hrefs)
    case None => None
    case Some(href) => SplitSecond(href, PlayerMarker)
  }

  /** A row contributes an id exactly when it has a profile link, so the `IndexError` branch is never taken. */
  lemma RowIdSome(row: SquadRow)
    ensures RowId(row).Some? <==> exists k :: 0 <= k < |row.hrefs| && Contains(row.hrefs[k], ProfileLink)
  {
    ProfileHrefSpec(row.hrefs);
    if ProfileHref(row.hrefs).Some? {
      var h := ProfileHref(row.hrefs).value;
      assert Contains(h, ProfileLink);
      var i := IndexOf(h, ProfileLink).value;
      var j := i + |ProfileLink| - |PlayerMarker|;
      assert h[j..j + |PlayerMarker|] == h[i..i + |ProfileLink|][|ProfileLink| - |PlayerMarker|..];
      ContainsAt(h, PlayerMarker, j);
    }
  }

  /** The ids of the squad, one per listed row with a profile link, in document order. */
  function SquadIds(page: SquadPage): seq<string> {
    FilterMap(RowId, ListedRows(page))
  }

  /** An id is in the squad exactly when some listed row of the page yields it. */
  lemma SquadIdsSpec(page: SquadPage, id: string)
    ensures id in SquadIds(page) <==> exists row :: row in page && Listed(row) && RowId(row) == Some(id)
    ensures |SquadIds(page)| <= |ListedRows(page)|
  {
    var rows := ListedRows(page);
    FilterMapSpec(RowId, rows, id);
    ListedRowsSpec(page);
    if id in SquadIds(page) {
      var k :| 0 <= k < |rows| && RowId(rows[k]) == Some(id);
      assert rows[k] in rows;
      assert rows[k] in page && Listed(rows[k]);
    } else {
      forall row | row in page && Listed(row) ensures RowId(row) != Some(id) {
        assert row in rows;
        var k :| 0 <= k < |rows| && rows[k] == row;
      }
    }
  }

  /**
   * `get_team_players`: open the team page, walk the listed rows collecting the
   * ids, and return them without repeats.
   */
  method GetTeamPlayers(open: string -> SquadPage, teamUrl: string) returns (ids: seq<string>)
    ensures NoDups(ids)
    ensures ElemSet(ids) == ElemSet(SquadIds(open(teamUrl)))
    ensures |ids| <= |ListedRows(open(teamUrl))|
  {
    var rows := ListedRows(open(teamUrl));
    var playerIds: seq<string> := [];
    for i := 0 to |rows|
      invariant playerIds == FilterMap(RowId, rows[..i])
    {
      FilterMapSnoc(RowId, rows, i);
      match RowId(rows[i]) {
        case Some(pid) => playerIds := playerIds + [pid];
        case None =>
      }
    }
    assert rows[..|rows|] == rows;
    ids := Dedup(playerIds);
  }
}
