/**
 * `telegram_bot.py`: the general bot. `/scout <target>` starts the scraper
 * workflow in opponent-scout mode for the target, `/status` gets a liveness
 * reply, and everything else, a bare link to the site included, is ignored.
 *
 * The Telegram and GitHub calls are the actions a message produces; the HTTP
 * status each dispatch receives is a parameter.
 */
module TelegramBot {
  import opened Wrappers
  import opened PyText
  import opened BotUpdates

  const ScoutCommand: string := "/scout"
  const StatusCommand: string := "/status"
  const Workflow: string := "scraper.yml"
  /** HTTP 204 No Content, the only status that counts as a started workflow. */
  const NoContent: int := 204

  /** What a message asks for. */
  datatype Command = Scout(target: string) | ScoutUsage | Status | Ignore

  /** The classification of the message text, after trimming. */
  function Classify(raw: string): Command {
    var text := Strip(raw);
    if StartsWith(text, ScoutCommand) then
      var parts := SplitOnce(text);
      if |parts| > 1 then Scout(parts[1]) else ScoutUsage
    else if text == StatusCommand then Status
    else Ignore
  }

  /** A scout, or its usage, comes exactly for trimmed text starting with `/scout`; the usage exactly when that text is a single word. */
  lemma ClassifyScout(raw: string)
    ensures Classify(raw).Scout? || Classify(raw).ScoutUsage? <==> StartsWith(Strip(raw), ScoutCommand)
    ensures Classify(raw).ScoutUsage? <==> StartsWith(Strip(raw), ScoutCommand) && NonBlankWord(Strip(raw))
    ensures Classify(raw).Scout? ==> Classify(raw).target != []
  {
    var text := Strip(raw);
    if StartsWith(text, ScoutCommand) {
      assert text[0] == '/';
      SplitOnceParts(text);
      assert TrimLeft(text) == text;
      SplitOnceSingle(text);
    }
  }

  /** `/scout`, a whitespace run and a target with no whitespace at either end dispatch that target. */
  lemma ScoutRoundTrip(sp: string, target: string)
    requires |sp| > 0 && forall i :: 0 <= i < |sp| ==> IsSpace(sp[i])
    requires target != [] && !IsSpace(target[0]) && !IsSpace(target[|target| - 1])
    ensures Classify(ScoutCommand + sp + target) == Scout(target)
  {
    assert NonBlankWord(ScoutCommand);
    CommandLine(ScoutCommand, sp, target);
  }

  /** The status reply comes exactly for `/status`; text that does not start with a slash, such as a link, is ignored. */
  lemma ClassifyStatus(raw: string)
    ensures Classify(raw) == Status <==> Strip(raw) == StatusCommand
    ensures Strip(raw) == [] || Strip(raw)[0] != '/' ==> Classify(raw) == Ignore
  {
    var text := Strip(raw);
    if text == StatusCommand {
      assert text[..|ScoutCommand|][2] != ScoutCommand[2];
    }
  }

  /** A workflow dispatch: the workflow file and its inputs. */
  datatype Request = Request(workflow: string, inputs: map<string, string>)

  function ScoutRequest(target: string): Request {
    Request(Workflow, map["scraper_type" := "opponent_scout", "scout_target" := target])
  }

  /** The replies the bot sends. */
  datatype Reply = StartingReply(target: string) | FailedReply | UsageReply | StatusReply

  /** The text of each reply. */
  function ReplyText(r: Reply): string {
    match r
    case StartingReply(target) =>
      "\U{1F575}\U{FE0F}\U{200D}\U{2642}\U{FE0F} Starting Opponent Scout for: " + target + "\nCheck GitHub Actions for progress..."
    case FailedReply => "\U{274C} Failed to trigger scraper. Check bot logs."
    case UsageReply => "\U{26A0}\U{FE0F} Usage: /scout <TeamID or URL>"
    case StatusReply => "\U{2705} Bot is running and listening."
  }

  datatype Action = Send(chatId: int, reply: Reply) | Dispatch(request: Request)

  /** What one command makes the bot do, given the status each dispatch receives. */
  function CommandActions(status: Request -> int, chatId: int, c: Command): seq<Action> {
    match c
    case Scout(target) =>
      var request := ScoutRequest(target);
      [Send(chatId, StartingReply(target)), Dispatch(request)]
        + (if status(request) != NoContent then [Send(chatId, FailedReply)] else [])
    case ScoutUsage => [Send(chatId, UsageReply)]
    case Status => [Send(chatId, StatusReply)]
    case Ignore => []
  }

  /** An update without a message, or a message without text, does nothing. */
  function UpdateActions(status: Request -> int, u: Update): seq<Action> {
    match u.message
    case None => []
    case Some(m) =>
      match m.text
      case None => []
      case Some(text) => CommandActions(status, m.chatId, Classify(text))
  }

  /**
   * A command dispatches exactly the opponent-scout inputs for its target when it
   * asks for a scout, and nothing otherwise; a failure is reported exactly when
   * the dispatch did not get 204, and success is not reported.
   */
  lemma CommandDispatch(status: Request -> int, chatId: int, c: Command, r: Request)
    ensures Dispatch(r) in CommandActions(status, chatId, c) <==>
              c.Scout? && r == ScoutRequest(c.target)
    ensures Send(chatId, FailedReply) in CommandActions(status, chatId, c) <==>
              c.Scout? && status(ScoutRequest(c.target)) != NoContent
  {
  }

  /** One pass of the polling loop of this bot. */
  method Poll(offset: Option<int>, response: Option<seq<Update>>, status: Request -> int)
    returns (next: Option<int>, actions: seq<Action>)
    ensures response.None? ==> next == offset && actions == []
    ensures response.Some? && response.value != [] ==> next == Some(response.value[|response.value| - 1].updateId + 1)
    ensures response.Some? ==> actions == BatchActions(u => UpdateActions(status, u), response.value)
  {
    next, actions := HandleBatch(offset, response, u => UpdateActions(status, u));
  }
}
