/**
 * `main_opponent_scout.py`: turn the command-line argument into a team URL,
 * read the squad's player ids, read each player's details (a player whose page
 * fails is skipped), and upsert the table into the "All Players" tab.
 *
 * The environment (credentials), the squad page and the detail reader are
 * parameters; the spreadsheet is its existing records and the sheet sent.
 */
module MainOpponentScout {
  import opened Wrappers
  import opened SeqUtil
  import opened PyText
  import opened PyDict
  import opened Frames
  import OpponentScraper
  import MainAllTransfer

  const SiteName: string := "pmanager.org"
  const SiteHost: string := "https://www."
  const TeamPath: string := "/ver_equipa.asp?equipa="
  /** `https://www.pmanager.org/ver_equipa.asp?equipa=` */
  const TeamUrlPrefix: string := SiteHost + SiteName + TeamPath
  const TeamUrlSuffix: string := "&vjog=1"

  /** The team URL of the argument: a link to the site verbatim, a team number made into its squad page, anything else refused. */
  function TeamUrl(arg: string): Option<string> {
    if Contains(arg, SiteName) then Some(arg)
    else if IsDigits(arg) then Some(TeamUrlPrefix + arg + TeamUrlSuffix)
    else None
  }

  /**
   * A link to the site is taken as it is; a team number gives the squad page of
   * that team, from which the number reads back; every other text, the empty one
   * included, is refused.
   */
  lemma TeamUrlSpec(arg: string)
    ensures Contains(arg, SiteName) ==> TeamUrl(arg) == Some(arg)
    ensures !Contains(arg, SiteName) && IsDigits(arg) ==>
              TeamUrl(arg).Some? && StartsWith(TeamUrl(arg).value, TeamUrlPrefix)
              && TeamUrl(arg).value[|TeamUrlPrefix|..|TeamUrl(arg).value| - |TeamUrlSuffix|] == arg
    ensures TeamUrl(arg).None? <==> !Contains(arg, SiteName) && !IsDigits(arg)
    ensures TeamUrl("").None?
  {
    if !Contains(arg, SiteName) && IsDigits(arg) {
      var u := TeamUrlPrefix + arg + TeamUrlSuffix;
      assert u[..|TeamUrlPrefix|] == TeamUrlPrefix;
      assert u[|TeamUrlPrefix|..|u| - |TeamUrlSuffix|] == arg;
    }
    assert !IsDigits("");
    assert !Contains("", SiteName) by {
      assert IndexOf("", SiteName).None?;
    }
  }

  /** A URL the argument gives is a link to the site, so giving it back as the argument changes nothing. */
  lemma TeamUrlIdempotent(arg: string)
    requires TeamUrl(arg).Some?
    ensures Contains(TeamUrl(arg).value, SiteName)
    ensures TeamUrl(TeamUrl(arg).value) == TeamUrl(arg)
  {
    if !Contains(arg, SiteName) {
      var u := TeamUrlPrefix + arg + TeamUrlSuffix;
      var rest := TeamPath + arg + TeamUrlSuffix;
      assert u == SiteHost + SiteName + rest;
      assert u[|SiteHost|..|SiteHost| + |SiteName|] == SiteName;
      ContainsAt(u, SiteName, |SiteHost|);
    }
  }

  /** How a run ends. */
  datatype Outcome =
    | MissingCredentials
    | Usage
    | InvalidInput
    | NoPlayers
    | NoResults(teamUrl: string, playerIds: seq<string>)
    | Uploaded(teamUrl: string, playerIds: seq<string>, sheet: Option<Sheet>)

  /** `if not username or not password`: an unset or empty variable is missing. */
  predicate HasCredentials(username: Option<string>, password: Option<string>) {
    username.Some? && username.value != [] && password.Some? && password.value != []
  }

  /**
   * `main`: `argv` is the command line with the program name first. The squad
   * page comes from `open`, the details of one player from `details` (`None`
   * when reading that player fails), and the tab's existing records from
   * `existing`.
   */
  method RunOpponentScout(username: Option<string>, password: Option<string>, argv: seq<string>,
                          open: string -> OpponentScraper.SquadPage, details: string -> Option<Dict>,
                          stamp: string, existing: seq<Dict>)
    returns (outcome: Outcome)
    ensures !HasCredentials(username, password) <==> outcome == MissingCredentials
    ensures outcome == Usage <==> HasCredentials(username, password) && |argv| < 2
    ensures outcome == InvalidInput <==> HasCredentials(username, password) && |argv| >= 2 && TeamUrl(argv[1]).None?
    ensures outcome.NoResults? || outcome.Uploaded? ==>
              |argv| >= 2 && TeamUrl(argv[1]) == Some(outcome.teamUrl)
              && NoDups(outcome.playerIds) && outcome.playerIds != []
              && ElemSet(outcome.playerIds) == ElemSet(OpponentScraper.SquadIds(open(outcome.teamUrl)))
    ensures outcome == NoPlayers ==>
              |argv| >= 2 && TeamUrl(argv[1]).Some?
              && OpponentScraper.SquadIds(open(TeamUrl(argv[1]).value)) == []
    ensures outcome.NoResults? ==> FilterMap(details, outcome.playerIds) == []
    ensures outcome.Uploaded? ==>
              var results := FilterMap(details, outcome.playerIds);
              results != [] && outcome.sheet == MainAllTransfer.UploadToSheets(MainAllTransfer.Table(results, stamp), existing)
  {
    if !HasCredentials(username, password) {
      return MissingCredentials;
    }
    if |argv| < 2 {
      return Usage;
    }
    var teamUrl;
    match TeamUrl(argv[1]) {
      case None => return InvalidInput;
      case Some(u) => teamUrl := u;
    }
    var playerIds := OpponentScraper.GetTeamPlayers(open, teamUrl);
    if playerIds == [] {
      ElemSetEmpty(OpponentScraper.SquadIds(open(teamUrl)));
      return NoPlayers;
    }
    var results := MainAllTransfer.ScrapeDetails(playerIds, details);
    if results == [] {
      return NoResults(teamUrl, playerIds);
    }
    var df := MainAllTransfer.Table(results, stamp);
    outcome := Uploaded(teamUrl, playerIds, MainAllTransfer.UploadToSheets(df, existing));
  }

  lemma ElemSetEmpty<T>(s: seq<T>)
    ensures ElemSet(s) == {} <==> s == []
  {
    if s != [] {
      assert s[0] in ElemSet(s);
    }
  }
}
