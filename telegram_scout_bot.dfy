/**
 * `telegram_scout_bot.py`: the dedicated scout bot. A message that starts with
 * `/scout` or mentions the site starts the opponent-scout workflow for its
 * target; `/start` and `/help` get the help text; everything else is ignored.
 *
 * The Telegram and GitHub calls are the actions a message produces; the HTTP
 * status each dispatch receives is a parameter.
 */
module TelegramScoutBot {
  import opened Wrappers
  import opened PyText
  import opened BotUpdates

  const ScoutCommand: string := "/scout"
  const SiteName: string := "pmanager.org"
  const Workflow: string := "opponent_scout.yml"
  /** The help text up to its example team id. */
  const HelpLead: string := "\U{1F44B} I am the dedicated Scout Bot.\nSend me a Team URL or ID (e.g., "
  const ExampleTeamId: string := "35126"
  /** HTTP 204 No Content, the only status that counts as a started workflow. */
  const NoContent: int := 204

  /** What a message asks for. */
  datatype Command = Scout(target: string) | ScoutUsage | Help | Ignore

  /** The classification of the message text, after trimming. */
  function Classify(raw: string): Command {
    var text := Strip(raw);
    if StartsWith(text, ScoutCommand) || Contains(text, SiteName) then
      if StartsWith(text, ScoutCommand) then
        var parts := SplitOnce(text);
        if |parts| > 1 then Scout(parts[1]) else ScoutUsage
      else Scout(text)
    else if text == "/start" || text == "/help" then Help
    else Ignore
  }

  /**
   * The workflow is triggered, or its usage shown, exactly for trimmed text that
   * starts with `/scout` or mentions the site; text that mentions the site
   * without the command is the target itself.
   */
  lemma ClassifyScout(raw: string)
    ensures Classify(raw).Scout? || Classify(raw).ScoutUsage? <==>
              StartsWith(Strip(raw), ScoutCommand) || Contains(Strip(raw), SiteName)
    ensures !StartsWith(Strip(raw), ScoutCommand) && Contains(Strip(raw), SiteName) ==> Classify(raw) == Scout(Strip(raw))
    ensures Classify(raw).Scout? ==> Classify(raw).target != []
  {
    var text := Strip(raw);
    if StartsWith(text, ScoutCommand) {
      SplitOnceParts(text);
    } else if Contains(text, SiteName) {
      var i := IndexOf(text, SiteName).value;
      assert text[i..i + |SiteName|] == SiteName;
    }
  }

  /** The usage reply comes exactly for a single word starting with `/scout`, such as the bare command. */
  lemma ClassifyUsage(raw: string)
    ensures Classify(raw).ScoutUsage? <==> StartsWith(Strip(raw), ScoutCommand) && NonBlankWord(Strip(raw))
  {
    var text := Strip(raw);
    if StartsWith(text, ScoutCommand) {
      assert text[0] == '/';
      SplitOnceParts(text);
      assert TrimLeft(text) == text;
      SplitOnceSingle(text);
    }
  }

  /** `/scout`, a whitespace run and a target with no whitespace at either end dispatch that target. */
  lemma ScoutRoundTrip(sp: string, target: string)
    requires |sp| > 0 && forall i :: 0 <= i < |sp| ==> IsSpace(sp[i])
    requires target != [] && !IsSpace(target[0]) && !IsSpace(target[|target| - 1])
    ensures Classify(ScoutCommand + sp + target) == Scout(target)
  {
    assert NonBlankWord(ScoutCommand);
    CommandLine(ScoutCommand, sp, target);
  }

  /**
   * A bare team id, which the help text invites, is ignored: it neither starts
   * with `/scout` nor mentions the site.
   */
  lemma BareTeamIdIgnored()
    ensures IsDigits(ExampleTeamId) && Classify(ExampleTeamId) == Ignore
    ensures Contains(ReplyText(HelpReply), ExampleTeamId)
  {
    var text := ExampleTeamId;
    assert !IsSpace(text[0]) && !IsSpace(text[|text| - 1]);
    StripOfStripped(text);
    assert text[0] != ScoutCommand[0];
    assert !Contains(text, SiteName) by {
      assert |text| < |SiteName|;
    }
    var help := ReplyText(HelpReply);
    assert help[|HelpLead|..|HelpLead| + |text|] == text;
    ContainsAt(help, text, |HelpLead|);
  }

  /** The help text comes exactly for `/start` and `/help`. */
  lemma ClassifyHelp(raw: string)
    ensures Classify(raw) == Help <==> Strip(raw) == "/start" || Strip(raw) == "/help"
  {
    var text := Strip(raw);
    if text == "/start" {
      assert text[..|ScoutCommand|][2] != ScoutCommand[2];
    }
    if text == "/start" || text == "/help" {
      assert !Contains(text, SiteName);
    }
  }

  /** A workflow dispatch: the workflow file and its inputs. */
  datatype Request = Request(workflow: string, inputs: map<string, string>)

  function ScoutRequest(target: string): Request {
    Request(Workflow, map["scout_target" := target])
  }

  /** The replies the bot sends. */
  datatype Reply = UsageReply | TriggeredReply(target: string) | StartedReply | FailedReply | HelpReply

  /** The text of each reply. */
  function ReplyText(r: Reply): string {
    match r
    case UsageReply => "\U{26A0}\U{FE0F} Usage: /scout <TeamID or URL>"
    case TriggeredReply(target) => "\U{1F575}\U{FE0F}\U{200D}\U{2642}\U{FE0F} Opponent Scout triggered for: " + target
    case StartedReply => "\U{2705} Scouting started! Check Google Sheets in a few minutes."
    case FailedReply => "\U{274C} Failed to trigger scraper. Check console."
    case HelpReply =>
      HelpLead + ExampleTeamId + ") or use /scout <target> to scrape data."
  }

  datatype Action = Send(chatId: int, reply: Reply) | Dispatch(request: Request)

  /** What one command makes the bot do, given the status each dispatch receives. */
  function CommandActions(status: Request -> int, chatId: int, c: Command): seq<Action> {
    match c
    case Scout(target) =>
      var request := ScoutRequest(target);
      [Send(chatId, TriggeredReply(target)), Dispatch(request),
       Send(chatId, if status(request) == NoContent then StartedReply else FailedReply)]
    case ScoutUsage => [Send(chatId, UsageReply)]
    case Help => [Send(chatId, HelpReply)]
    case Ignore => []
  }

  /** An update without a message, or a message without text, does nothing. */
  function UpdateActions(status: Request -> int, u: Update): seq<Action> {
    match u.message
    case None => []
    case Some(m) =>
      match m.text
      case None => []
      case Some(text) => CommandActions(status, m.chatId, Classify(text))
  }

  /**
   * A command dispatches exactly the scout workflow for its target when it asks
   * for a scout, and nothing otherwise; "started" is reported exactly when the
   * dispatch got 204, "failed" exactly when it got anything else.
   */
  lemma CommandDispatch(status: Request -> int, chatId: int, c: Command, r: Request)
    ensures Dispatch(r) in CommandActions(status, chatId, c) <==>
              c.Scout? && r == ScoutRequest(c.target)
    ensures Send(chatId, StartedReply) in CommandActions(status, chatId, c) <==>
              c.Scout? && status(ScoutRequest(c.target)) == NoContent
    ensures Send(chatId, FailedReply) in CommandActions(status, chatId, c) <==>
              c.Scout? && status(ScoutRequest(c.target)) != NoContent
  {
  }

  /** One pass of the polling loop of this bot. */
  method Poll(offset: Option<int>, response: Option<seq<Update>>, status: Request -> int)
    returns (next: Option<int>, actions: seq<Action>)
    ensures response.None? ==> next == offset && actions == []
    ensures response.Some? && response.value != [] ==> next == Some(response.value[|response.value| - 1].updateId + 1)
    ensures response.Some? ==> actions == BatchActions(u => UpdateActions(status, u), response.value)
  {
    next, actions := HandleBatch(offset, response, u => UpdateActions(status, u));
  }
}
