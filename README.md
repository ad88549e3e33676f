# Discord bot template: message routing, command hooks, extension loading and console log format

This project models in Dafny the small decision and formatting rules in `app.py` of
a discord.py bot template. They sit inside glue code for the framework, `aiosqlite`
and Python's `logging`:

- **Message router** (`DiscordBot.on_message`, module `MessageRouter`). A message is
  reduced to three facts: was it written by the bot itself, is its author a bot
  account, and what is the author id. The handler gives an ordered list of actions:
  sends to the channel, log lines, and the hand-off to command processing. Messages
  from the bot itself or from any bot account cause nothing. Author
  `1388645311580340254` gets one ping of `<@&1388502220659494983>` and author
  `1388645310938611793` one ping of `<@&1388502800912355429>`. A failed ping is
  caught and logged. Every other message, including the two pinged ones, is then
  handed to `process_commands`, because there is no `return` after either ping
  branch (app.py:142). Because the bot-account check at app.py:123 comes first, the
  author the code calls the "stock bot" only gets its ping when that account is
  not flagged as a bot. The model keeps this order.
- **Command hooks** (`on_command_completion` and `on_command_error`, module
  `CommandHooks`). The completion hook logs the first space-separated word of the
  command's qualified name, in a guild line or a DM line. The error hook
  classifies an error as one of: cooldown, not-owner, user missing permissions,
  bot missing permissions, missing argument. Each of these sends one notice (an
  embed with an optional title and a description). Any other error is raised
  again. The cooldown text is built from two `divmod`s and a `% 24`. It shows the
  hours and minutes only when they are non-zero and always shows the seconds.
  Permission names are joined with `", "` between backticks. The missing-argument
  text is passed through `str.capitalize`.
- **Extension loading** (`DiscordBot.load_cogs`, module `ExtensionLoader`). This is
  a loop over the `cogs` directory listing. Every entry ending in `.py` is loaded as
  `cogs.<name>`, in listing order. Each load is tried on its own, and there is one log line
  per attempt, in the order of the attempts.
- **Console log template** (`LoggingFormatter.COLORS` and `format`, module
  `Logging`). A level number is looked up in a five-entry colour table; a level
  outside the table is a `KeyError`. Four successive `str.replace` calls then
  rebuild the template string.

The Python string operations the bot uses are modelled once, in module `Text`:
`split`, `join`, `replace`, `capitalize`, `endswith`, and the decimal text of a
whole number. `Wrappers` holds `Option` and `Result`.

Calls into the framework are not made. They become data instead:
- the sends of the router are returned as actions;
- the exception a ping's `send` raises is an input;
- each error raised by `load_extension` is looked up in a map from module path to
  exception;
- `retry_after` is a whole number of seconds.

`on_message`, `on_command_error` and `on_command_completion` are pure decision
trees, so they are functions with lemmas. `load_cogs` and `LoggingFormatter.format`
update local state step by step, so they are methods. `LoadCogs` has a loop
invariant, and `FormatTemplate` reassigns `format` four times. Each method is
proved against a specification function (`Extensions`/`LoadLog`, `Rendered`).

The two ping branches do not end the processing of a message, although the
comments at app.py:126 and app.py:134 present them as separate cases: line 142
runs `process_commands` for every message that was not dropped. The model follows
the code.

## Model

| member | source | states |
|---|---|---|
| `MessageRouter.OnMessage` | app.py:122-142 | a message yields no action exactly when it is dropped; otherwise the last action is the hand-off to command processing, preceded by a send and a log line for the two hard-coded authors and by nothing for anybody else (the exact actions: `OnMessageSends`, `OnMessageProcessesOnce`, `FailedPingIsLogged`, `SuccessfulPingIsLogged`, `OtherAuthorOnlyProcesses`) |
| `MessageRouter.Ping` | app.py:128-140 | one guarded ping: the send of the mention, then one log line, which is an error exactly when the send raised |
| `MessageRouter.OtherAuthorOnlyProcesses` | app.py:127-142 | a message that is not dropped and comes from neither hard-coded author yields exactly the hand-off to command processing: no send and no log line |
| `MessageRouter.Dropped` | app.py:123 | no contract of its own: the condition `message.author == self.user or message.author.bot`; what it means is stated by `MessageRouter.DroppedDoesNothing` |
| `MessageRouter.DroppedDoesNothing` | app.py:122-124 | a message of the bot itself or of any bot account yields no action at all: no send, no log line, no command processing |
| `MessageRouter.OnMessageSends` | app.py:126-140 | what `send` is called with (a send that raises still counts as called): exactly one `<@&1388502220659494983>` for author 1388645311580340254, exactly one `<@&1388502800912355429>` for author 1388645310938611793, nothing for any other author or for a dropped message |
| `MessageRouter.OnMessageProcessesOnce` | app.py:127-142 | every message that is not dropped ends with exactly one hand-off to command processing, whoever the author is and whether or not the ping raised |
| `MessageRouter.FailedPingIsLogged` | app.py:127-140 | when either role ping raises, the handler sends, logs "Failed to ping stock role: " or "Failed to ping other role: " with the exception text as an error, and still processes commands |
| `MessageRouter.SuccessfulPingIsLogged` | app.py:127-140 | when either role ping goes through, the handler sends, logs "Pinged stock role after stock bot message." or "Pinged other role after other user message." as an info line, and then processes commands |
| `CommandHooks.ExecutedCommand` | app.py:146 | no contract of its own: `qualified_name.split(" ")[0]`; what it means is stated by `CommandHooks.ExecutedCommandIsFirstWord` |
| `CommandHooks.ExecutedCommandIsFirstWord` | app.py:145-146 | the logged command name is the prefix of the qualified name before its first space (the whole name if it has none) and contains no space |
| `CommandHooks.CompletionLine` | app.py:144-154 | the completion hook logs at info level; its wording is stated by `CommandHooks.CompletionNamesGroup` |
| `CommandHooks.CompletionNamesGroup` | app.py:145-154 | for a top-level command "group" and for a subcommand "group sub" alike, the line names only "group": "Executed group in {guild} by {author}" in a guild, "Executed group by {author} in DMs" otherwise |
| `CommandHooks.CooldownParts` | app.py:157-160 | hours < 24, minutes < 60, seconds < 60, and hours·3600 + minutes·60 + seconds equals the retry time modulo one day |
| `CommandHooks.OnCommandError` | app.py:156-195 | an error is raised again, unchanged, exactly when it is none of the five handled kinds; every handled kind gives one notice, and only the missing-argument notice has a title |
| `CommandHooks.CooldownText` | app.py:158-162 | no contract of its own: the wait as the f-string spells it; what it means is stated by `CommandHooks.CooldownRoundTrip` and `CommandHooks.CooldownExamples` |
| `CommandHooks.CooldownRoundTrip` | app.py:157-165 | reading the cooldown wait back gives the retry time modulo one day; its space-separated parts are the non-zero hours, the non-zero minutes and the seconds, in that order |
| `CommandHooks.CooldownNotice` | app.py:157-165 | the cooldown notice has no title and is "**Slow down** - Try again in " followed by `CooldownText` of the retry time, a wait that reads back as the retry time modulo one day |
| `CommandHooks.NotOwnerNotice` | app.py:166-170 | a caller who is not the owner gets the untitled notice "You're not the owner of the bot!" |
| `CommandHooks.CooldownExamples` | app.py:158-162 | 3661 s shows as `1h 1m 1s`, 45 s as `45s`, 3600 s as `1h 0s`, and one day plus 61 s as `1m 1s` |
| `CommandHooks.PermissionsRoundTrip` | app.py:171-186 | both permission notices are their prefix, a backtick, the names joined by ", " and a backtick; reading the names back gives the error's list, in order |
| `CommandHooks.TwoMissingPermissions` | app.py:171-178 | a user lacking `manage_messages` and `ban_members` is told "You're missing permission(s): `manage_messages, ban_members`" |
| `CommandHooks.MissingArgumentNotice` | app.py:187-193 | the missing-argument notice is titled "Error!" and its description is `Capitalize` of the error text: same length, first letter not lower-case, no upper-case letter after it, unchanged by capitalizing again |
| `Text.Capitalize` | app.py:190 | `str.capitalize`: same length, the first character upper-cased, every later one lower-cased |
| `Text.CapitalizeIdempotent` | app.py:190 | capitalizing twice is capitalizing once; no upper-case letter is left after the first character |
| `Text.NatToString` | app.py:162 | the decimal text of a whole number is non-empty, all digits, and has no leading zero |
| `Text.ParseNatToString` | app.py:162 | reading back the decimal text of a number gives the number |
| `Text.EndsWith` | app.py:89 | no contract of its own: Python's `s.endswith(suffix)`; used by `ExtensionLoader.IsExtensionFile` |
| `Text.Join` | app.py:174 | no contract of its own: Python's `sep.join(parts)`; what it means is stated by `Text.SplitJoin` |
| `Text.Split` | app.py:146 | Python's `s.split(sep)` for a non-empty separator: there is always at least one piece; the first piece is characterized by `Text.SplitFirst` |
| `Text.SplitFirst` | app.py:146 | the first piece of a split is a prefix of the string with no occurrence of the separator starting inside it, and it is either the whole string or followed by the separator |
| `Text.SplitJoin` | app.py:174 | splitting `sep.join(parts)` on `sep` gives the parts back when the list is non-empty and no part contains the separator's first character (an empty list joins to "", which splits to [""]) |
| `Text.Replace` | app.py:43-46 | no contract of its own: Python's `s.replace(pat, rep)`; what it means is stated by `Text.ReplaceAbsent` and `Text.ReplaceFreePrefix`, and its four uses in `format` by `Logging.SubstituteTemplate` |
| `Text.ReplaceAbsent` | app.py:43-46 | a string in which the pattern starts nowhere is returned unchanged |
| `Text.ReplaceFreePrefix` | app.py:43-46 | a prefix that does not contain the pattern's first character is kept as it is |
| `ExtensionLoader.LoadCogs` | app.py:87-96 | the loop tries exactly `cogs.<name>` for the extension names of the listing, in order, and logs one line per attempt: the error text for a load that raised, "Loaded extension" otherwise |
| `ExtensionLoader.Extensions` | app.py:88-90 | the extension names of a listing, at most one per entry; which names and in what order is stated by `ExtensionLoader.ExtensionsMembers` and `ExtensionLoader.ExtensionsAppend` |
| `ExtensionLoader.ModulePath` | app.py:92 | no contract of its own: `f"cogs.{extension}"`; used by `ExtensionLoader.ModulePaths` and `ExtensionLoader.LoadLogLine` |
| `ExtensionLoader.ModulePaths` | app.py:92 | one module path per extension, the i-th being `cogs.` followed by the i-th name |
| `ExtensionLoader.LoadLog` | app.py:91-96 | one log line per extension, the i-th being the outcome line of the i-th load |
| `ExtensionLoader.IsExtensionFile` | app.py:89 | no contract of its own: `file.endswith(".py")`; what it means is stated by `ExtensionLoader.ExtensionsMembers` |
| `ExtensionLoader.EntryExtension` | app.py:89-90 | at most one name per directory entry: its name without ".py" when it ends in ".py", none otherwise; stated in full by `ExtensionLoader.ExtensionsMembers` |
| `ExtensionLoader.ExtensionName` | app.py:89-90 | the extension name is the file name with its ".py" suffix removed |
| `ExtensionLoader.ExtensionsMembers` | app.py:88-90 | a name is attempted exactly when some listing entry ends in ".py" and is that name plus ".py" |
| `ExtensionLoader.ExtensionsAppend` | app.py:88-90 | listing order is kept: the extensions of two listings one after the other are those of the first followed by those of the second |
| `ExtensionLoader.LoadLogLine` | app.py:91-96 | the line for one attempt is an error exactly when loading its module raised |
| `ExtensionLoader.OneErrorPerFailure` | app.py:91-96 | failures are isolated: the log holds exactly one error per extension whose load raised |
| `ExtensionLoader.SecondOfThreeFails` | app.py:88-96 | with three modules where the second raises, all three are attempted in order, the first and the third are loaded, and exactly one failure is logged |
| `Logging.LevelColor` | app.py:32-38 | the colour table has an entry exactly for DEBUG, INFO, WARNING, ERROR and CRITICAL |
| `Logging.LevelColorsDistinct` | app.py:32-38 | the five levels have five different colours |
| `Logging.FormatTemplate` | app.py:40-46 | a level outside the table fails with `KeyError`; otherwise the four replacements give bold black, timestamp, reset, level colour, level name, reset, bold green, logger name, reset, message, with no placeholder left |
| `Logging.Rendered` | app.py:42-46 | no contract of its own: the coloured template written out by hand; `Logging.SubstituteTemplate` proves the replacements give it |
| `Logging.ReplaceAll` | app.py:43-46 | no contract of its own: the four `str.replace` calls in the order `format` makes them; `Logging.SubstituteTemplate` states their result on the template |
| `Logging.SubstituteTemplate` | app.py:42-46 | the four successive `str.replace` calls turn the raw template into that coloured template |

## Left out

- `init_db`, `DatabaseManager` and the `aiosqlite` connections (app.py:76-85, 116-120): file and database I/O against a schema this repository does not define.
- `status_task` and `before_status_task` (app.py:98-105): a timer loop, `random.choice` and a presence update over the network.
- `setup_hook`, the `DiscordBot` constructor, `bot.run`, the environment variables and the intents (app.py:17-20, 64-74, 107-115, 197-198): framework and process set-up.
- The real `load_extension`, `send` and `process_commands` calls: foreign async framework calls. They are returned as actions, or their exceptions are given as inputs. The one exception is `context.send` in `on_command_error` (app.py:165-193): the model does not cover that send raising, which makes the hook raise.
- `logging.Formatter` itself: rendering `{asctime}`, padding `{levelname:<8}`, the file handler and its format (app.py:47-62). These are library internals and I/O. The model stops at the template string that `format` hands to `logging.Formatter`.
- Embed colours (`0xE02B2B`): a display constant with no behaviour.
- CommandHooks.CooldownText: `retry_after` is a float in discord.py and `round` is applied to each part. The model takes whole seconds, so cases such as 59.6 s showing as "60s" are not covered.
- Text.Capitalize: upper- and lower-casing is modelled for ASCII letters only. Python's Unicode case mapping and its title-casing of the first character are not.
- CommandHooks.OnCommandError: the error kinds are variants of one datatype, so they are mutually exclusive. A user-defined exception class inheriting from two of the handled discord.py classes, for which the order of the `isinstance` tests would matter, is not modelled.
- CommandHooks.PermissionsRoundTrip: stated only for a non-empty list of names that contain no comma. With an empty list, or with `", "` inside a name, the joined text need not split back into the same list: `["a, b"]` reads back as `["a", "b"]`. A comma not followed by a space would round-trip, but the lemma excludes that case too.
- ExtensionLoader.LoadCogs: whether a load raises is a fixed map from module path to exception. A load whose outcome depends on the loads before it is not modelled. The order of `os.listdir` is an input.
- MessageRouter.OnMessage: a message is reduced to whether it is the bot's own, whether its author is a bot account, and the author id. Content and command-prefix parsing belong to `process_commands` and are not part of this model.
