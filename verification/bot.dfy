/**
 * The bot class (bot.py): prefix resolution, the command-error handler, the
 * usage counters kept on every message and command, and the loop that loads
 * the command modules at start-up.
 */
module Bot {
  import opened Wrappers
  import opened Text
  import KeyValue

  // ---------------------------------------------------------------------------
  // Prefix resolution (bot.py:13-25)
  // ---------------------------------------------------------------------------

  const DebugPrefixes: seq<string> := ["n."]
  const DefaultPrefixes: seq<string> := ["n!", "N!"]

  /** The store key of a user's custom prefix, `"{author_id}-prefix"` */
  function PrefixKey(authorId: nat): string {
    NatToString(authorId) + "-prefix"
  }

  /** The prefix list chosen before the mention forms are put in front of it */
  function BranchPrefixes(debug: bool, store: map<string, string>, authorId: nat): seq<string> {
    if debug then DebugPrefixes
    else match KeyValue.Stored(store, PrefixKey(authorId))
      case None => DefaultPrefixes
      case Some(p) => [p] + DefaultPrefixes
  }

  /**
   * The prefixes accepted for a message by `authorId`: `when_mentioned_or`
   * puts the bot's mention forms first, then the branch's list. Outside debug
   * mode both defaults are always accepted and a stored prefix only adds to them.
   */
  function PrefixCallable(debug: bool, store: map<string, string>, authorId: nat, mentions: seq<string>): (r: seq<string>)
    ensures |r| > |mentions| && r[..|mentions|] == mentions
    ensures debug ==> r[|mentions|..] == ["n."]
    ensures !debug ==> |r| >= |mentions| + 2 && r[|r| - 2..] == ["n!", "N!"] && "n!" in r && "N!" in r
    ensures !debug && KeyValue.Stored(store, PrefixKey(authorId)).Some? ==>
              |r| == |mentions| + 3 && r[|mentions|] == store[PrefixKey(authorId)]
    ensures !debug && KeyValue.Stored(store, PrefixKey(authorId)).None? ==> |r| == |mentions| + 2
  {
    var r := mentions + BranchPrefixes(debug, store, authorId);
    assert !debug ==> r[|r| - 2] == "n!" && r[|r| - 1] == "N!";
    r
  }

  /** In debug mode the accepted list is the mentions and "n.", whatever the store holds */
  lemma DebugIgnoresStore(store1: map<string, string>, store2: map<string, string>, authorId: nat, mentions: seq<string>)
    ensures PrefixCallable(true, store1, authorId, mentions) == PrefixCallable(true, store2, authorId, mentions)
    ensures PrefixCallable(true, store1, authorId, mentions) == mentions + ["n."]
  {
  }

  /** Without a stored prefix the accepted list is the mentions, "n!" and "N!" */
  lemma DefaultPrefixesOnly(store: map<string, string>, authorId: nat, mentions: seq<string>)
    requires PrefixKey(authorId) !in store || store[PrefixKey(authorId)] == ""
    ensures PrefixCallable(false, store, authorId, mentions) == mentions + ["n!", "N!"]
  {
  }

  /** A stored prefix supplements the defaults and never replaces them */
  lemma CustomPrefixSupplements(store: map<string, string>, authorId: nat, mentions: seq<string>, p: string)
    requires PrefixKey(authorId) in store && store[PrefixKey(authorId)] == p && p != ""
    ensures PrefixCallable(false, store, authorId, mentions) == mentions + [p, "n!", "N!"]
  {
  }

  // ---------------------------------------------------------------------------
  // Command-error handling (bot.py:68-107)
  // ---------------------------------------------------------------------------

  /** The exception classes `on_command_error` tests with `isinstance`, in no particular order */
  datatype ErrorClass =
    | NoPrivateMessage | DisabledCommand | Forbidden | NotFound | CommandInvokeError
    | BadArgument | MissingRequiredArgument | CheckFailure | CommandOnCooldown | CommandNotFound

  /** The order in which the handler tests the classes */
  const Branches: seq<ErrorClass> := [
    NoPrivateMessage, DisabledCommand, Forbidden, NotFound, CommandInvokeError,
    BadArgument, MissingRequiredArgument, CheckFailure, CommandOnCooldown, CommandNotFound
  ]

  /**
   * A raised error: the handled classes it is an instance of (its own class and
   * its base classes among them, so a NoPrivateMessage is also a CheckFailure),
   * its text `str(e)`, and for a cooldown the seconds left.
   */
  datatype CommandError = CommandError(classes: set<ErrorClass>, text: string, retryAfter: real)

  /** What the handler uses of the invocation context */
  datatype Context = Context(
    command: string,            // ctx.command.qualified_name
    subcommand: Option<string>, // ctx.invoked_subcommand
    author: string,             // str(ctx.author)
    authorId: nat)

  datatype Embed = Embed(title: string, description: string, color: nat)

  /** What the handler does in answer to an error */
  datatype Response =
    | NoResponse
    | CommandHelp(command: string)
    | Notice(text: string, deleteAfter: nat)
    | CooldownNotice(retryAfter: real, deleteAfter: nat)
    | ErrorReport(notice: Embed, incident: seq<Embed>)  // the reply, and the webhook payload's "embeds"

  const EmbedColor: nat := 0xDEADBF
  const IncidentColor: nat := 16740159
  const DenialText := "You are not allowed to use that command."
  const NoticeLifetime: nat := 5

  /** `send_cmd_help` shows the invoked subcommand's help when there is one */
  function HelpTarget(ctx: Context): string {
    if ctx.subcommand.Some? then ctx.subcommand.value else ctx.command
  }

  /** The reply to the user for an error raised inside a command */
  function ErrorNotice(ctx: Context, e: CommandError): (em: Embed)
    ensures em.title == "Error" && em.color == EmbedColor
    ensures Contains(em.description, ctx.command) && Contains(em.description, e.text)
  {
    var head := "Error in command ";
    var link := ", [Support Server](https://discord.gg/q98qeYN).\n`";
    ContainsBoth(head, ctx.command, link, e.text, "`");
    Embed("Error", head + ctx.command + link + e.text + "`", EmbedColor)
  }

  /** The single embed of the incident payload posted to the webhook */
  function Incident(ctx: Context, instance: int, e: CommandError): (em: Embed)
    ensures em.title == "Command: " + ctx.command + ", Instance: " + IntToString(instance)
    ensures em.color == 16740159
    ensures Contains(em.description, e.text)
    ensures Contains(em.description, NatToString(ctx.authorId))
  {
    var id := NatToString(ctx.authorId);
    var byLine := "\n```\n By `" + ctx.author + "` (`";
    var d := "```py\n" + e.text + byLine + id + "`)";
    ContainsBoth("```py\n", e.text, byLine, id, "`)");
    Embed("Command: " + ctx.command + ", Instance: " + IntToString(instance), d, IncidentColor)
  }

  /** What the branch testing class `b` does */
  function BranchResponse(b: ErrorClass, ctx: Context, instance: int, e: CommandError): Response {
    match b
    case CommandInvokeError => ErrorReport(ErrorNotice(ctx, e), [Incident(ctx, instance, e)])
    case BadArgument => CommandHelp(HelpTarget(ctx))
    case MissingRequiredArgument => CommandHelp(HelpTarget(ctx))
    case CheckFailure => Notice(DenialText, NoticeLifetime)
    case CommandOnCooldown => CooldownNotice(e.retryAfter, NoticeLifetime)
    case _ => NoResponse
  }

  /**
   * `on_command_error`: the first branch whose class the error is an instance
   * of decides the response; an error of no handled class gets none.
   */
  function OnCommandError(ctx: Context, instance: int, e: CommandError): (r: Response)
    ensures r.ErrorReport? <==>
              CommandInvokeError in e.classes &&
              NoPrivateMessage !in e.classes && DisabledCommand !in e.classes &&
              Forbidden !in e.classes && NotFound !in e.classes
    ensures r.ErrorReport? ==>
              && |r.incident| == 1
              && r.incident[0].title == "Command: " + ctx.command + ", Instance: " + IntToString(instance)
              && r.incident[0].color == 16740159
              && Contains(r.incident[0].description, e.text)
              && Contains(r.incident[0].description, NatToString(ctx.authorId))
              && Contains(r.notice.description, ctx.command)
    ensures r.Notice? ==> r.text == DenialText && r.deleteAfter == 5
    ensures r.CooldownNotice? ==> r.retryAfter == e.retryAfter && r.deleteAfter == 5
    ensures r.CommandHelp? ==> r.command == HelpTarget(ctx)
    ensures e.classes * {NoPrivateMessage, DisabledCommand, Forbidden, NotFound} != {} ==> r == NoResponse
  {
    var c := e.classes;
    if NoPrivateMessage in c then NoResponse
    else if DisabledCommand in c then NoResponse
    else if Forbidden in c then NoResponse
    else if NotFound in c then NoResponse
    else if CommandInvokeError in c then ErrorReport(ErrorNotice(ctx, e), [Incident(ctx, instance, e)])
    else if BadArgument in c then CommandHelp(HelpTarget(ctx))
    else if MissingRequiredArgument in c then CommandHelp(HelpTarget(ctx))
    else if CheckFailure in c then Notice(DenialText, NoticeLifetime)
    else if CommandOnCooldown in c then CooldownNotice(e.retryAfter, NoticeLifetime)
    else if CommandNotFound in c then NoResponse
    else NoResponse
  }

  /** The position of the first of `branches` from `k` on that is among `classes`; |branches| when there is none */
  function FirstMatch(classes: set<ErrorClass>, branches: seq<ErrorClass>, k: nat): (i: nat)
    requires k <= |branches|
    ensures k <= i <= |branches|
    ensures i < |branches| ==> branches[i] in classes
    ensures forall j :: k <= j < i ==> branches[j] !in classes
    decreases |branches| - k
  {
    if k == |branches| then |branches|
    else if branches[k] in classes then k
    else FirstMatch(classes, branches, k + 1)
  }

  lemma BranchOrder()
    ensures |Branches| == 10
    ensures Branches[0] == NoPrivateMessage && Branches[1] == DisabledCommand && Branches[2] == Forbidden
    ensures Branches[3] == NotFound && Branches[4] == CommandInvokeError && Branches[5] == BadArgument
    ensures Branches[6] == MissingRequiredArgument && Branches[7] == CheckFailure
    ensures Branches[8] == CommandOnCooldown && Branches[9] == CommandNotFound
  {
  }

  /** The handler's chain of `elif`s is the first match over the branch list, in source order */
  lemma OnCommandErrorIsFirstMatch(ctx: Context, instance: int, e: CommandError)
    ensures OnCommandError(ctx, instance, e) ==
              var i := FirstMatch(e.classes, Branches, 0);
              if i == |Branches| then NoResponse else BranchResponse(Branches[i], ctx, instance, e)
  {
    var c := e.classes;
    if NoPrivateMessage in c || DisabledCommand in c || Forbidden in c || NotFound in c || CommandInvokeError in c {
      FirstMatchEarly(ctx, instance, e);
    } else {
      FirstMatchLate(ctx, instance, e);
    }
  }

  /** The first five branches of the chain */
  lemma FirstMatchEarly(ctx: Context, instance: int, e: CommandError)
    requires var c := e.classes;
      NoPrivateMessage in c || DisabledCommand in c || Forbidden in c || NotFound in c || CommandInvokeError in c
    ensures FirstMatch(e.classes, Branches, 0) < 5
    ensures OnCommandError(ctx, instance, e) == BranchResponse(Branches[FirstMatch(e.classes, Branches, 0)], ctx, instance, e)
  {
    var c := e.classes;
    var i := FirstMatch(c, Branches, 0);
    BranchOrder();
    if NoPrivateMessage in c { assert i == 0; }
    else if DisabledCommand in c { assert i == 1; }
    else if Forbidden in c { assert i == 2; }
    else if NotFound in c { assert i == 3; }
    else { assert i == 4; }
  }

  /** The remaining branches of the chain, and the fall-through */
  lemma FirstMatchLate(ctx: Context, instance: int, e: CommandError)
    requires var c := e.classes;
      NoPrivateMessage !in c && DisabledCommand !in c && Forbidden !in c && NotFound !in c && CommandInvokeError !in c
    ensures 5 <= FirstMatch(e.classes, Branches, 0)
    ensures OnCommandError(ctx, instance, e) ==
              var i := FirstMatch(e.classes, Branches, 0);
              if i == |Branches| then NoResponse else BranchResponse(Branches[i], ctx, instance, e)
  {
    var c := e.classes;
    var i := FirstMatch(c, Branches, 0);
    BranchOrder();
    if BadArgument in c { assert i == 5; }
    else if MissingRequiredArgument in c { assert i == 6; }
    else if CheckFailure in c { assert i == 7; }
    else if CommandOnCooldown in c { assert i == 8; }
    else if CommandNotFound in c { assert i == 9; }
    else { assert i == 10; }
  }

  /**
   * discord.py raises NoPrivateMessage as a subclass of CheckFailure; because its
   * branch comes first, it is silent instead of drawing the denial notice.
   */
  lemma NoPrivateMessageIsSilent(ctx: Context, instance: int, text: string, retryAfter: real)
    ensures OnCommandError(ctx, instance, CommandError({NoPrivateMessage, CheckFailure}, text, retryAfter)) == NoResponse
    ensures OnCommandError(ctx, instance, CommandError({CheckFailure}, text, retryAfter)) == Notice(DenialText, 5)
  {
  }

  // ---------------------------------------------------------------------------
  // Usage counters (bot.py:43-44, 109-111, 123-127)
  // ---------------------------------------------------------------------------

  /** A Python Counter's entry: zero for a key never counted */
  function Count(counter: map<string, nat>, key: string): nat {
    if key in counter then counter[key] else 0
  }

  /** `counter[key] += 1`: that entry goes up by one and no other changes */
  function Increment(counter: map<string, nat>, key: string): (r: map<string, nat>)
    ensures Count(r, key) == Count(counter, key) + 1
    ensures forall k :: k != key ==> Count(r, k) == Count(counter, k)
    ensures r.Keys == counter.Keys + {key}
  {
    counter[key := Count(counter, key) + 1]
  }

  /** A received message: whether its author is a bot account, and its text */
  datatype Message = Message(authorIsBot: bool, content: string)

  datatype LoadResult = LoadResult(loaded: seq<string>, failed: seq<string>)

  class NekoBot {
    const instance: int
    var usage: map<string, nat>
    var commandUsage: map<string, nat>
    /** The command modules that loaded at start-up */
    var extensions: seq<string>

    /**
     * Starts with empty counters and loads every module found among
     * `entries` (the listing of the "modules" directory), skipping those
     * whose `load` fails.
     */
    constructor (instance: int, entries: seq<string>, load: string -> bool)
      ensures this.instance == instance
      ensures usage == map[] && commandUsage == map[]
      ensures extensions == Attempted(ExtensionNames(entries), load, true)
    {
      this.instance := instance;
      usage := map[];
      commandUsage := map[];
      new;
      var result := LoadExtensions(entries, load);
      extensions := result.loaded;
    }

    /**
     * `on_message`: every message is counted, and only one whose author is
     * not a bot is handed on to command processing.
     */
    method OnMessage(message: Message) returns (processed: Option<Message>)
      modifies this`usage
      ensures usage == Increment(old(usage), "messages_read")
      ensures processed == if message.authorIsBot then None else Some(message)
    {
      usage := Increment(usage, "messages_read");
      if message.authorIsBot {
        return None;
      }
      processed := Some(message);
    }

    /** `on_command`: one more command used, one more use of `command` */
    method OnCommand(command: string)
      modifies this`usage, this`commandUsage
      ensures usage == Increment(old(usage), "commands_used")
      ensures commandUsage == Increment(old(commandUsage), command)
    {
      usage := Increment(usage, "commands_used");
      commandUsage := Increment(commandUsage, command);
    }
  }

  /** Counting a run of messages raises "messages_read" by their number and leaves every other entry */
  lemma {:induction false} MessagesCounted(usage: map<string, nat>, n: nat)
    ensures Count(IncrementTimes(usage, "messages_read", n), "messages_read") == Count(usage, "messages_read") + n
    ensures forall k :: k != "messages_read" ==> Count(IncrementTimes(usage, "messages_read", n), k) == Count(usage, k)
  {
    if n > 0 {
      MessagesCounted(usage, n - 1);
    }
  }

  /** `n` successive increments of one key */
  function IncrementTimes(counter: map<string, nat>, key: string, n: nat): map<string, nat> {
    if n == 0 then counter else Increment(IncrementTimes(counter, key, n - 1), key)
  }

  // ---------------------------------------------------------------------------
  // Loading the command modules (bot.py:58-66)
  // ---------------------------------------------------------------------------

  /** The module names of the ".py" entries, the suffix removed, in listing order */
  function ExtensionNames(entries: seq<string>): (names: seq<string>)
    ensures |names| <= |entries|
  {
    if entries == [] then []
    else
      var last := entries[|entries| - 1];
      ExtensionNames(entries[..|entries| - 1]) + (if EndsWith(last, ".py") then [last[..|last| - 3]] else [])
  }

  /** The names whose load reports `ok`, in order */
  function Attempted(names: seq<string>, load: string -> bool, ok: bool): seq<string> {
    if names == [] then []
    else
      var last := names[|names| - 1];
      Attempted(names[..|names| - 1], load, ok) + (if load("modules." + last) == ok then [last] else [])
  }

  /**
   * Tries `load_extension("modules.{name}")` for every ".py" entry; a failure is
   * recorded and the loop goes on with the next entry.
   */
  method LoadExtensions(entries: seq<string>, load: string -> bool) returns (result: LoadResult)
    ensures result.loaded == Attempted(ExtensionNames(entries), load, true)
    ensures result.failed == Attempted(ExtensionNames(entries), load, false)
  {
    var loaded, failed := [], [];
    var i := 0;
    while i < |entries|
      invariant 0 <= i <= |entries|
      invariant loaded == Attempted(ExtensionNames(entries[..i]), load, true)
      invariant failed == Attempted(ExtensionNames(entries[..i]), load, false)
    {
      var file := entries[i];
      ExtensionNamesStep(entries, i);
      if EndsWith(file, ".py") {
        var name := file[..|file| - 3];
        AttemptedStep(ExtensionNames(entries[..i]), name, load);
        if load("modules." + name) {
          loaded := loaded + [name];
        } else {
          failed := failed + [name];
        }
      }
      i := i + 1;
    }
    assert entries[..|entries|] == entries;
    result := LoadResult(loaded, failed);
  }

  /** Every candidate module is tried exactly once: the loaded and the failed ones partition them */
  lemma {:induction false} AttemptedPartition(names: seq<string>, load: string -> bool)
    ensures |Attempted(names, load, true)| + |Attempted(names, load, false)| == |names|
    ensures multiset(Attempted(names, load, true)) + multiset(Attempted(names, load, false)) == multiset(names)
  {
    if names != [] {
      var init, last := names[..|names| - 1], names[|names| - 1];
      AttemptedPartition(init, load);
      SplitLast(names);
      if load("modules." + last) {
        assert multiset(Attempted(init, load, true) + [last]) == multiset(Attempted(init, load, true)) + multiset{last};
      } else {
        assert multiset(Attempted(init, load, false) + [last]) == multiset(Attempted(init, load, false)) + multiset{last};
      }
    }
  }

  /** Listing one more entry adds its name when it is a ".py" file */
  lemma ExtensionNamesStep(entries: seq<string>, i: nat)
    requires i < |entries|
    ensures EndsWith(entries[i], ".py") ==>
              ExtensionNames(entries[..i + 1]) == ExtensionNames(entries[..i]) + [entries[i][..|entries[i]| - 3]]
    ensures !EndsWith(entries[i], ".py") ==> ExtensionNames(entries[..i + 1]) == ExtensionNames(entries[..i])
  {
    assert entries[..i + 1][..i] == entries[..i];
    assert ExtensionNames(entries[..i]) + [] == ExtensionNames(entries[..i]);
  }

  /** One more candidate goes to the list its load outcome selects */
  lemma AttemptedStep(names: seq<string>, name: string, load: string -> bool)
    ensures load("modules." + name) ==> Attempted(names + [name], load, true) == Attempted(names, load, true) + [name]
    ensures load("modules." + name) ==> Attempted(names + [name], load, false) == Attempted(names, load, false)
    ensures !load("modules." + name) ==> Attempted(names + [name], load, true) == Attempted(names, load, true)
    ensures !load("modules." + name) ==> Attempted(names + [name], load, false) == Attempted(names, load, false) + [name]
  {
    assert (names + [name])[..|names|] == names;
    assert Attempted(names, load, true) + [] == Attempted(names, load, true);
    assert Attempted(names, load, false) + [] == Attempted(names, load, false);
  }

  /** Only ".py" entries are tried, under their name without the suffix */
  lemma {:induction false} ExtensionNamesSound(entries: seq<string>)
    ensures forall n :: n in ExtensionNames(entries) ==> n + ".py" in entries
  {
    if entries != [] {
      var init := entries[..|entries| - 1];
      var last := entries[|entries| - 1];
      ExtensionNamesSound(init);
      assert forall e :: e in init ==> e in entries;
      if EndsWith(last, ".py") {
        assert last[..|last| - 3] + ".py" == last;
      }
    }
  }

  /** Every ".py" entry is tried, whatever happened to the ones before it */
  lemma {:induction false} ExtensionNamesComplete(entries: seq<string>)
    ensures forall e :: e in entries && EndsWith(e, ".py") ==> e[..|e| - 3] in ExtensionNames(entries)
  {
    if entries != [] {
      var init := entries[..|entries| - 1];
      ExtensionNamesComplete(init);
      assert entries == init + [entries[|entries| - 1]];
    }
  }
}
