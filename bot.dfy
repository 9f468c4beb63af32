/** The Discord front end (bot.py): which messages are validated, the reply and reactions
    built from the validator's errors, warnings and extreme flag, where the reply goes, the
    `check-lc` duplicate lookup and the `batch-validate` window and limit. Discord itself
    (fetching, sending, reacting) is replaced by the values it would carry. */
module Bot {
  import opened Common
  import opened PyStrings
  import Validator

  // ---------------------------------------------------------------------------------------
  // check-lc (bot.py:637-654)

  /** The characters `normalize_launch_command` removes: double quote, single quote, space
      and backtick. */
  const Dropped: set<char> := {'"', '\'', ' ', '`'}

  /** `launch_command.replace('"', "").replace("'", "").replace(" ", "").replace("`", "")`. */
  function NormalizeLaunchCommand(s: string): (r: string)
    ensures |r| <= |s|
    ensures forall c :: c in r <==> c in s && c !in Dropped
  {
    RemoveChar(RemoveChar(RemoveChar(RemoveChar(s, '"'), '\''), ' '), '`')
  }

  /** An independent definition: the characters of `s` outside `Dropped`, in order. */
  function KeepUndropped(s: string): string
  {
    if |s| == 0 then "" else (if s[0] in Dropped then "" else [s[0]]) + KeepUndropped(s[1..])
  }

  /** Removing a character distributes over concatenation. */
  lemma {:induction false} RemoveCharAppend(x: string, y: string, c: char)
    ensures RemoveChar(x + y, c) == RemoveChar(x, c) + RemoveChar(y, c)
  {
    if |x| > 0 {
      RemoveCharAppend(x[1..], y, c);
      assert (x + y)[0] == x[0];
      assert (x + y)[1..] == x[1..] + y;
    } else {
      assert x + y == y;
    }
  }

  /** Normalising distributes over concatenation. */
  lemma NormalizeAppend(x: string, y: string)
    ensures NormalizeLaunchCommand(x + y) == NormalizeLaunchCommand(x) + NormalizeLaunchCommand(y)
  {
    RemoveCharAppend(x, y, '"');
    var x1, y1 := RemoveChar(x, '"'), RemoveChar(y, '"');
    RemoveCharAppend(x1, y1, '\'');
    var x2, y2 := RemoveChar(x1, '\''), RemoveChar(y1, '\'');
    RemoveCharAppend(x2, y2, ' ');
    var x3, y3 := RemoveChar(x2, ' '), RemoveChar(y2, ' ');
    RemoveCharAppend(x3, y3, '`');
  }

  /** The chain of replacements keeps exactly the characters outside `Dropped`, in order. */
  lemma {:induction false} NormalizeIsKeepUndropped(s: string)
    ensures NormalizeLaunchCommand(s) == KeepUndropped(s)
  {
    if |s| > 0 {
      NormalizeIsKeepUndropped(s[1..]);
      NormalizeAppend([s[0]], s[1..]);
      assert [s[0]] + s[1..] == s;
      assert [s[0]][1..] == "";
    }
  }

  /** A string without `c` is left as it is by removing `c`. */
  lemma {:induction false} RemoveCharAbsent(s: string, c: char)
    requires c !in s
    ensures RemoveChar(s, c) == s
  {
    if |s| > 0 {
      assert s[0] in s;
      assert forall x :: x in s[1..] ==> x in s;
      RemoveCharAbsent(s[1..], c);
    }
  }

  /** Normalising twice is normalising once. */
  lemma NormalizeIdempotent(s: string)
    ensures NormalizeLaunchCommand(NormalizeLaunchCommand(s)) == NormalizeLaunchCommand(s)
  {
    var r := NormalizeLaunchCommand(s);
    RemoveCharAbsent(r, '"');
    RemoveCharAbsent(r, '\'');
    RemoveCharAbsent(r, ' ');
    RemoveCharAbsent(r, '`');
  }

  /** `"".join(parts)` is the first part followed by the rest. */
  lemma {:induction false} ConcatFront(parts: seq<string>)
    requires |parts| > 0
    ensures Concat(parts) == parts[0] + Concat(parts[1..])
  {
    if |parts| > 1 {
      ConcatFront(parts[..|parts| - 1]);
      assert parts[..|parts| - 1][1..] == parts[1..][..|parts| - 2];
      assert parts[..|parts| - 1][0] == parts[0];
    } else {
      assert parts[..0] == [];
      assert parts[1..] == [];
    }
  }

  /** Discord splits the command's text at spaces into `args`; since spaces are dropped,
      concatenating the arguments gives the same normalised command as the text itself. */
  lemma {:induction false} ArgumentSplitIrrelevant(args: seq<string>)
    ensures NormalizeLaunchCommand(Join(args, ' ')) == NormalizeLaunchCommand(Concat(args))
  {
    if |args| == 1 {
      ConcatFront(args);
      assert args[1..] == [];
      assert args[0] + "" == args[0];
    } else if |args| > 1 {
      ArgumentSplitIrrelevant(args[1..]);
      ConcatFront(args);
      NormalizeAppend(args[0] + [' '], Join(args[1..], ' '));
      NormalizeAppend(args[0], [' ']);
      NormalizeAppend(args[0], Concat(args[1..]));
      assert NormalizeLaunchCommand([' ']) == "";
      assert NormalizeLaunchCommand(args[0]) + "" == NormalizeLaunchCommand(args[0]);
    }
  }

  const FoundMsg: string := "Launch command **found** in the master database, most likely a duplicate."
  const NotFoundMsg: string := "Launch command **not found** in the master database, most likely not a duplicate."

  /** The `check-lc` command: the arguments are concatenated and normalised, and looked up
      among the normalised registry commands. */
  method CheckLc(args: seq<string>, registry: seq<string>) returns (reply: string)
    ensures reply == FoundMsg || reply == NotFoundMsg
    ensures reply == FoundMsg <==>
      exists i :: 0 <= i < |registry| && NormalizeLaunchCommand(registry[i]) == NormalizeLaunchCommand(Concat(args))
  {
    var user := "";
    var i := 0;
    while i < |args|
      invariant 0 <= i <= |args|
      invariant user == Concat(args[..i])
    {
      user := user + args[i];
      assert args[..i + 1][..i] == args[..i];
      i := i + 1;
    }
    assert args[..|args|] == args;
    user := NormalizeLaunchCommand(user);
    var normalized := set c | c in registry :: NormalizeLaunchCommand(c);
    if user in normalized {
      reply := FoundMsg;
      var c :| c in registry && NormalizeLaunchCommand(c) == user;
      var k :| 0 <= k < |registry| && registry[k] == c;
    } else {
      reply := NotFoundMsg;
      assert |FoundMsg| != |NotFoundMsg|;
    }
  }

  // ---------------------------------------------------------------------------------------
  // The attachment gate (bot.py:77-94)

  /** The channel a message was posted in, as far as the bot distinguishes them. */
  datatype ChannelKind = FlashGamesChannel | OtherGamesChannel | AnimationsChannel | AuditionsChannel | UnwatchedChannel

  /** A message: its attachments' file names, its channel, its author's mention and jump URL. */
  datatype Message = Message(attachments: seq<string>, channel: ChannelKind, mention: string, url: string)

  /** The message is validated: exactly one attachment, a watched channel, and a name
      ending in `.7z`, `.zip` or `.rar`. */
  predicate ShouldValidate(m: Message)
  {
    |m.attachments| == 1
    && m.channel != UnwatchedChannel
    && (EndsWith(m.attachments[0], ".7z") || EndsWith(m.attachments[0], ".zip") || EndsWith(m.attachments[0], ".rar"))
  }

  /** The gate lets through exactly the single attachments in watched channels that the
      validator does not reject as an unsupported file type. */
  lemma GateMatchesFormats(m: Message)
    ensures ShouldValidate(m) <==>
      |m.attachments| == 1 && m.channel != UnwatchedChannel
      && Validator.FormatOf(m.attachments[0]) != Validator.Unsupported
  {
  }

  // ---------------------------------------------------------------------------------------
  // The reply (bot.py:120-142)

  function InvalidHeader(mention: string, url: string): string
  {
    mention + " Your curation is invalid:\n\U{1F517} " + url + "\n"
  }

  function ProblemsHeader(mention: string, url: string): string
  {
    mention + " Your curation might have some problems:\n\U{1F517} " + url + "\n"
  }

  /** One message's line: `"🚫 " + x + "\n"`. */
  function Line(x: string): string
  {
    "\U{1F6AB} " + x + "\n"
  }

  /** The line of each message, in order. */
  function Lines(xs: seq<string>): string
  {
    if |xs| == 0 then "" else Lines(xs[..|xs| - 1]) + Line(xs[|xs| - 1])
  }

  /** The reply text: a header, then the errors, then the warnings (which are shown with
      the same mark as errors). */
  function Reply(mention: string, url: string, errors: seq<string>, warnings: seq<string>): string
  {
    (if |errors| > 0 then InvalidHeader(mention, url) else "")
    + (if |errors| == 0 && |warnings| > 0 then ProblemsHeader(mention, url) else "")
    + Lines(errors) + Lines(warnings)
  }

  /** Every message adds a line of its own. */
  lemma {:induction false} LinesLength(xs: seq<string>)
    ensures |Lines(xs)| >= 3 * |xs|
  {
    if |xs| > 0 {
      LinesLength(xs[..|xs| - 1]);
    }
  }

  /** Rendering two lists one after the other is rendering their concatenation. */
  lemma {:induction false} LinesAppend(xs: seq<string>, ys: seq<string>)
    ensures Lines(xs + ys) == Lines(xs) + Lines(ys)
  {
    if |ys| > 0 {
      LinesAppend(xs, ys[..|ys| - 1]);
      assert (xs + ys)[..|xs + ys| - 1] == xs + ys[..|ys| - 1];
    } else {
      assert xs + ys == xs;
    }
  }

  /** The reply is empty exactly when there is neither an error nor a warning; with an error
      it opens with the "invalid" header, with only warnings with the "problems" header, and
      the lines are the errors followed by the warnings. */
  lemma ReplyShape(mention: string, url: string, errors: seq<string>, warnings: seq<string>)
    ensures Reply(mention, url, errors, warnings) == "" <==> errors == [] && warnings == []
    ensures errors != [] ==>
      Reply(mention, url, errors, warnings) == InvalidHeader(mention, url) + Lines(errors + warnings)
    ensures errors == [] && warnings != [] ==>
      Reply(mention, url, errors, warnings) == ProblemsHeader(mention, url) + Lines(warnings)
  {
    LinesLength(errors);
    LinesLength(warnings);
    LinesAppend(errors, warnings);
    assert Lines([]) == "";
  }

  /** The message loop of the reply (bot.py:133-134, 141-142): appends the line of each
      message to `prefix`. */
  method AppendLines(prefix: string, xs: seq<string>) returns (reply: string)
    ensures reply == prefix + Lines(xs)
  {
    reply := prefix;
    var i := 0;
    while i < |xs|
      invariant 0 <= i <= |xs|
      invariant reply == prefix + Lines(xs[..i])
    {
      assert xs[..i + 1][..i] == xs[..i];
      assert Lines(xs[..i + 1]) == Lines(xs[..i]) + Line(xs[i]);
      reply := reply + Line(xs[i]);
      i := i + 1;
    }
    assert xs[..|xs|] == xs;
  }

  /** The reply, built step by step as the source does. Proved against `Reply`. */
  method ComposeReply(mention: string, url: string, errors: seq<string>, warnings: seq<string>) returns (reply: string)
    ensures reply == Reply(mention, url, errors, warnings)
  {
    reply := "";
    if |errors| > 0 {
      reply := reply + InvalidHeader(mention, url);
    }
    if |errors| == 0 && |warnings| > 0 {
      reply := reply + ProblemsHeader(mention, url);
    }
    assert reply == (if |errors| > 0 then InvalidHeader(mention, url) else "")
      + (if |errors| == 0 && |warnings| > 0 then ProblemsHeader(mention, url) else "");
    reply := AppendLines(reply, errors);
    reply := AppendLines(reply, warnings);
  }

  // ---------------------------------------------------------------------------------------
  // Reactions and routing (bot.py:129-170)

  /** The bot's reactions: 🚫, the extreme emoji, 🤖, and 💥 for a crash. */
  datatype Reaction = InvalidMark | ExtremeMark | ValidatedMark | CrashMark

  /** The channels the bot posts to. */
  datatype Destination = BotAlerts | NsfwLounge | AuditionChat | BotTesting

  /** A post: where it goes and its text. */
  datatype Post = Post(destination: Destination, text: string)

  /** What answering a validated message does: the reactions added and the reply sent. */
  datatype Response = Response(reactions: seq<Reaction>, post: Option<Post>)

  /** Where the reply goes: extreme curations to the NSFW lounge, game and animation
      submissions to the bot alerts, auditions to the audition chat. */
  function ReplyDestination(isExtreme: bool, channel: ChannelKind): Destination
  {
    if isExtreme then NsfwLounge
    else if channel == FlashGamesChannel || channel == OtherGamesChannel || channel == AnimationsChannel then BotAlerts
    else if channel == AuditionsChannel then AuditionChat
    else BotAlerts
  }

  /** The routing rules, one per case: the extreme flag wins over the channel. */
  lemma ReplyDestinationCases(isExtreme: bool, channel: ChannelKind)
    ensures ReplyDestination(isExtreme, channel) == NsfwLounge <==> isExtreme
    ensures ReplyDestination(isExtreme, channel) == AuditionChat <==> !isExtreme && channel == AuditionsChannel
    ensures ReplyDestination(isExtreme, channel) == BotAlerts <==> !isExtreme && channel != AuditionsChannel
    ensures ReplyDestination(isExtreme, channel) != BotTesting
  {
  }

  /** The reactions and the reply for a validation result. In a dry run nothing is added or
      sent (the reply is only logged). */
  function Respond(m: Message, errors: seq<string>, warnings: seq<string>, isExtreme: bool, dryRun: bool): Response
  {
    var text := Reply(m.mention, m.url, errors, warnings);
    if dryRun then Response([], None)
    else
      Response(
        (if |errors| > 0 then [InvalidMark] else [])
        + (if |warnings| > 0 then [InvalidMark] else [])
        + (if isExtreme then [ExtremeMark] else [])
        + (if |text| == 0 then [ValidatedMark] else []),
        if |text| > 0 then Some(Post(ReplyDestination(isExtreme, m.channel), text)) else None)
  }

  /** Outside a dry run a curation gets 🤖 exactly when it has neither errors nor warnings,
      gets 🚫 exactly when it has some, never both, and a reply is sent exactly when it gets
      🚫; a dry run changes nothing. */
  lemma RespondMarks(m: Message, errors: seq<string>, warnings: seq<string>, isExtreme: bool, dryRun: bool)
    ensures var r := Respond(m, errors, warnings, isExtreme, dryRun);
      (dryRun ==> r == Response([], None))
      && (!dryRun ==>
        (ValidatedMark in r.reactions <==> errors == [] && warnings == [])
        && (InvalidMark in r.reactions <==> errors != [] || warnings != [])
        && (r.post.Some? <==> InvalidMark in r.reactions)
        && (ExtremeMark in r.reactions <==> isExtreme)
        && (r.post.Some? ==> r.post.value == Post(ReplyDestination(isExtreme, m.channel), Reply(m.mention, m.url, errors, warnings))))
  {
    var text := Reply(m.mention, m.url, errors, warnings);
    ReplyShape(m.mention, m.url, errors, warnings);
    assert |text| == 0 <==> errors == [] && warnings == [];
    if !dryRun {
      var a: seq<Reaction> := if |errors| > 0 then [InvalidMark] else [];
      var b: seq<Reaction> := if |warnings| > 0 then [InvalidMark] else [];
      var c: seq<Reaction> := if isExtreme then [ExtremeMark] else [];
      var d: seq<Reaction> := if |text| == 0 then [ValidatedMark] else [];
      var r := Respond(m, errors, warnings, isExtreme, dryRun);
      assert r.reactions == a + b + c + d;
      assert r.post == if |text| > 0 then Some(Post(ReplyDestination(isExtreme, m.channel), text)) else None;
      assert ValidatedMark !in a + b + c && InvalidMark !in c + d && ExtremeMark !in a + b + d;
    }
  }

  // ---------------------------------------------------------------------------------------
  // Handling a message (bot.py:77-114)

  /** The message is ignored, the validator run ends in an exception (the 💥 reaction and a
      report to the bot testing channel), or the result is answered. */
  datatype Handling = Ignored | Crash(reactions: seq<Reaction>, report: Post) | Answered(response: Response)

  function CrashHandling(m: Message, dryRun: bool, godUser: string, trace: string): Handling
  {
    Crash(if dryRun then [] else [CrashMark],
      Post(BotTesting, "<@" + godUser + "> the curation validator has thrown an exception:\n\U{1F517} " + m.url + "\n```" + trace + "```"))
  }

  /** The handler as written: `validate_curation` returns six values on every path and the
      call site unpacks them into three names, which raises `ValueError`; so every run,
      whatever the validator found, takes the exception path. */
  function HandleAsWritten(m: Message, o: Validator.Outcome, dryRun: bool, godUser: string, trace: string): Handling
  {
    if !ShouldValidate(m) then Ignored
    else CrashHandling(m, dryRun, godUser, trace)
  }

  /** The handler with the first three of the six values taken: errors, warnings and the
      extreme flag (`None` on an early return, which is falsy). */
  function Handle(m: Message, o: Validator.Outcome, dryRun: bool, godUser: string, trace: string): Handling
  {
    if !ShouldValidate(m) then Ignored
    else
      match o
      case Crashed => CrashHandling(m, dryRun, godUser, trace)
      case Returned(r, _) => Answered(Respond(m, r.errors, r.warnings, r.isExtreme == Some(true), dryRun))
  }

  /** As written, even a curation the validator finds nothing wrong with gets 💥 and a crash
      report instead of 🤖. */
  lemma CleanCurationReportedAsCrash(m: Message, r: Validator.ValidationResult, dryRun: bool, godUser: string, trace: string)
    requires ShouldValidate(m) && r.errors == [] && r.warnings == []
    ensures HandleAsWritten(m, Validator.Returned(r, false), dryRun, godUser, trace) == CrashHandling(m, dryRun, godUser, trace)
    ensures !dryRun ==> (Handle(m, Validator.Returned(r, false), dryRun, godUser, trace).Answered?
      && ValidatedMark in Handle(m, Validator.Returned(r, false), dryRun, godUser, trace).response.reactions)
  {
    RespondMarks(m, r.errors, r.warnings, r.isExtreme == Some(true), dryRun);
  }

  /** The corrected handler answers every run that returns, from its errors, warnings and
      extreme flag, and reports only real exceptions; ignored messages stay ignored. */
  lemma HandleCases(m: Message, o: Validator.Outcome, dryRun: bool, godUser: string, trace: string)
    ensures !ShouldValidate(m) <==> Handle(m, o, dryRun, godUser, trace) == Ignored
    ensures ShouldValidate(m) && o.Returned? ==>
      Handle(m, o, dryRun, godUser, trace) == Answered(Respond(m, o.result.errors, o.result.warnings, o.result.isExtreme == Some(true), dryRun))
    ensures ShouldValidate(m) ==> (Handle(m, o, dryRun, godUser, trace).Crash? <==> o.Crashed?)
  {
  }

  // ---------------------------------------------------------------------------------------
  // batch-validate (bot.py:291-296, 357-373)

  /** Python's `xs[start:stop]` for a `start` of at least zero: a negative `stop` counts from
      the end, and a range past either end is clipped. */
  function SliceTo<T>(xs: seq<T>, start: nat, stop: int): (r: seq<T>)
    ensures var e := if stop < 0 then (if |xs| + stop >= 0 then |xs| + stop else 0) else (if stop <= |xs| then stop else |xs|);
      r == (if start <= e then xs[start..e] else [])
  {
    var e := if stop < 0 then (if |xs| + stop >= 0 then |xs| + stop else 0) else (if stop <= |xs| then stop else |xs|);
    if start <= e then xs[start..e] else []
  }

  function Reverse<T>(xs: seq<T>): (r: seq<T>)
    ensures |r| == |xs|
    ensures forall i :: 0 <= i < |xs| ==> r[i] == xs[|xs| - 1 - i]
  {
    if |xs| == 0 then [] else [xs[|xs| - 1]] + Reverse(xs[..|xs| - 1])
  }

  /** `get_messages_without_bot_reaction_from_blue`: the messages, newest first, are
      reversed to oldest first; the first one (the message with the hammer) is dropped and
      at most `maxMessages` of the following ones are kept. */
  function BatchWindow<T>(newestFirst: seq<T>, maxMessages: int): seq<T>
  {
    var all := Reverse(newestFirst);
    var fromIndex := 1;
    var toIndex := if maxMessages + fromIndex <= |all| then maxMessages + fromIndex else |all|;
    SliceTo(all, fromIndex, toIndex)
  }

  /** For a positive limit the window holds the `min(limit, n - 1)` oldest messages after
      the oldest one, oldest first. */
  lemma BatchWindowShape<T>(newestFirst: seq<T>, maxMessages: int)
    requires maxMessages > 0
    ensures var w := BatchWindow(newestFirst, maxMessages); var n := |newestFirst|;
      |w| == (if n == 0 then 0 else if maxMessages <= n - 1 then maxMessages else n - 1)
      && forall i :: 0 <= i < |w| ==> w[i] == newestFirst[n - 2 - i]
  {
  }

  /** The accepted limits: `limit <= 0 or limit > 500` is refused. */
  predicate LimitAccepted(limit: int)
  {
    !(limit <= 0 || limit > 500)
  }

  /** The channel aliases `batch-validate` accepts. */
  function AliasChannel(alias: string): (r: Option<ChannelKind>)
    ensures r.Some? <==> alias == "flash" || alias == "other" || alias == "animation"
    ensures r.Some? ==> r.value != AuditionsChannel && r.value != UnwatchedChannel
  {
    if alias == "flash" then Some(FlashGamesChannel)
    else if alias == "other" then Some(OtherGamesChannel)
    else if alias == "animation" then Some(AnimationsChannel)
    else None
  }

  /** What the command does first: refuse the alias, refuse the limit, or go on. */
  datatype BatchStart = InvalidChannel | InvalidLimit | Window(channel: ChannelKind, limit: int)

  const InvalidChannelMsg: string := "invalid channel"
  const InvalidLimitMsg: string := "limit must be > 0 and <= 500"

  function StartBatch(alias: string, limit: int): BatchStart
  {
    match AliasChannel(alias)
    case None => InvalidChannel
    case Some(ch) => if LimitAccepted(limit) then Window(ch, limit) else InvalidLimit
  }

  /** A batch goes on exactly for a known alias and a limit from 1 to 500, and then its
      window holds at most 500 messages. */
  lemma StartBatchBounds<T>(alias: string, limit: int, newestFirst: seq<T>)
    ensures StartBatch(alias, limit).Window? <==>
      (alias == "flash" || alias == "other" || alias == "animation") && 1 <= limit <= 500
    ensures StartBatch(alias, limit) == InvalidChannel <==> AliasChannel(alias).None?
    ensures StartBatch(alias, limit).Window? ==> |BatchWindow(newestFirst, limit)| <= 500
  {
    if StartBatch(alias, limit).Window? {
      BatchWindowShape(newestFirst, limit);
    }
  }
}
