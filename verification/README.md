# NekoBot core rules in Dafny

NekoBot is a Discord bot built on discord.py's `AutoShardedBot`. Sharding, the
gateway, reconnection, cooldown buckets, the command registry and the dispatch
loop all come from that library. The bot's own code is a set of small,
deterministic rules, and this project models them and proves their properties:

- **Prefix resolution** (`_prefix_callable`): the prefixes accepted for a
  message. In debug mode this is "n.". Otherwise it is "n!" and "N!", with the
  user's stored custom prefix added in front. The bot's mention forms always
  come first.
- **Command-error handling** (`on_command_error`): a first-match chain over
  exception classes. Its outcomes are no response, command help, a denial notice
  or cooldown notice that deletes itself after 5 seconds, or an error reply plus
  an incident payload for the operators' webhook.
- **Usage counters** (`on_message`, `on_command`): two `Counter`s on the bot
  object. Every message is counted. A message from a bot account is never handed
  on to command processing.
- **Module loading** (`NekoBot.__init__`): every `*.py` entry of the module
  directory is tried once. A failure is logged and the loop goes on.
- **The General command module**:
  - the colour `triplet` and its hexadecimal round trip;
  - the uptime breakdown and its two text forms;
  - the argument parsing and URL of `urban`;
  - `setlang` and the fallback to "english" when no language is stored;
  - the cross-instance totals of `info`;
  - the role list of `userinfo`;
  - the online count of `serverinfo`.

Files:

- `wrappers.dfy`: `Option`.
- `text.dfy` (module `Text`): the Python string and number conversions the code
  relies on, on ASCII text: `str(int)`, `int(str)`, `format(n, '06X')`,
  `int(s, 16)`, `split`, `join`, `lower`, `title` and `endswith`.
- `keyvalue.dfy` (module `KeyValue`): the Redis store, as a map from key to
  decoded value, plus a `Store` class whose `Set` changes it.
- `bot.dfy` (module `Bot`): bot.py.
- `general.dfy` (module `General`): modules/general.py.

How the model represents the source:

- The store is passed as a `map<string, string>` wherever the code only reads
  it. `setlang`, which writes it, is a method on a `KeyValue.Store` object.
- The bot's counters are fields of the `Bot.NekoBot` class. Its methods update
  them in place.
- An error passed to `on_command_error` is the set of handled exception classes
  it is an instance of. In discord.py, `NoPrivateMessage` is a subclass of
  `CheckFailure`, so the order of the branches matters.
  `Bot.OnCommandErrorIsFirstMatch` proves that the chain of `elif`s equals a
  first-match search over the branch list.
- Python's `divmod` floors. For the positive divisors used in
  `get_bot_uptime`, that is the same as Dafny's Euclidean `/` and `%`. The
  uptime is therefore modelled for any whole number of seconds, negative ones
  included.
- `if not prefix:` and `if lang:` treat an empty stored value like a missing
  one. The model does the same.

The prefixes are a list, not a set: the mention forms come first, and a stored
custom prefix "n!" appears twice, once as the custom prefix and once as a default.

## Model

| member | source | states |
|---|---|---|
| `Bot.PrefixCallable` | bot.py:13-25 | the mention forms come first; in debug mode they are followed by "n." only; otherwise the list always ends in "n!", "N!", and a stored non-empty prefix is added before them and never replaces them |
| `Bot.DebugIgnoresStore` | bot.py:15-16 | in debug mode the list is the mentions plus "n.", whatever the store holds |
| `Bot.DefaultPrefixesOnly` | bot.py:19-21 | with no stored prefix, or an empty one, the list is the mentions plus "n!", "N!" |
| `Bot.CustomPrefixSupplements` | bot.py:22-25 | with a stored prefix p the list is the mentions plus p, "n!", "N!" |
| `Bot.ErrorNotice` | bot.py:78-82 | the error reply is titled "Error", has colour 0xDEADBF, and its description names the command and contains the error text |
| `Bot.Incident` | bot.py:84-92 | the incident embed is titled "Command: {name}, Instance: {instance}", has colour 16740159, and its description contains the error text and the author's id |
| `Bot.OnCommandError` | bot.py:68-107 | an error report is produced exactly when the error is a CommandInvokeError and none of the four earlier silent classes; the report carries exactly one incident embed (title, colour, error text, author id); the denial notice has the fixed text and deletes after 5 s; the cooldown notice carries the retry time and deletes after 5 s; help names the subcommand if one was invoked, else the command; an error of any of the first four classes gets no response |
| `Bot.OnCommandErrorIsFirstMatch` | bot.py:68-107 | the response is that of the first branch, in source order, whose class the error belongs to; an error of no handled class gets no response |
| `Bot.FirstMatchEarly` | bot.py:69-92 | an error of one of the first five handled classes is decided by the first of them it belongs to |
| `Bot.FirstMatchLate` | bot.py:96-107 | an error of none of the first five classes is decided by the first later branch it belongs to, or gets no response |
| `Bot.NoPrivateMessageIsSilent` | bot.py:69-101 | a NoPrivateMessage, which is also a CheckFailure, gets no response, while a plain CheckFailure gets the denial notice |
| `Bot.Increment` | bot.py:110-111 | `counter[key] += 1` raises that entry by one (from 0 when it was missing) and leaves every other entry |
| `Bot.NekoBot.constructor` | bot.py:29-66 | the counters start empty and the loaded modules are exactly the ".py" entries whose load succeeded, in listing order |
| `Bot.NekoBot.OnMessage` | bot.py:123-127 | "messages_read" goes up by one for every message, bot authors included; only a non-bot message is handed to command processing; the command counter is untouched |
| `Bot.NekoBot.OnCommand` | bot.py:109-111 | "commands_used" and the command's own entry each go up by one; no other entry changes |
| `Bot.MessagesCounted` | bot.py:124 | n messages raise "messages_read" by exactly n and leave every other counter |
| `Bot.LoadExtensions` | bot.py:58-66 | the loaded names are the candidates whose load succeeds and the failed names are the rest, both in listing order |
| `Bot.AttemptedPartition` | bot.py:61-66 | the loaded and failed names together are exactly the candidates: each is tried once, and a failure does not stop the later ones |
| `Bot.ExtensionNamesSound` | bot.py:58-60 | every name tried is a directory entry with ".py" removed |
| `Bot.ExtensionNamesComplete` | bot.py:58-60 | every entry ending in ".py" is tried under its name without the 3-character suffix |
| `General.Pack` | modules/general.py:26 | the OR of the shifted bytes equals r*65536 + g*256 + b |
| `General.Triplet` | modules/general.py:25-26 | exactly six upper-case hexadecimal digits, which read back in base 16 give r*65536 + g*256 + b |
| `General.AvatarColor` | modules/general.py:344 | `int(triplet(c), 16)` is the packed colour and is below 2^24 |
| `General.UptimeParts` | modules/general.py:93-96 | days*86400 + hours*3600 + minutes*60 + seconds equals the elapsed seconds; hours < 24, minutes < 60 and seconds < 60; days ≥ 0 when the elapsed time is not negative |
| `General.UptimePartsUnique` | modules/general.py:94-96 | no other breakdown within those bounds adds up to the same time |
| `General.LongTextDays` | modules/general.py:98-102 | the long form contains "days" exactly when the days field is used |
| `General.BriefTextDays` | modules/general.py:103-106 | the brief form contains "d " exactly when the days field is used, and always ends in "{h}h {m}m {s}s" |
| `General.GetBotUptime` | modules/general.py:91-108 | the long form is exactly "{d} days, {h} hours, {m} minutes, and {s} seconds" and the brief form exactly "{d}d {h}h {m}m {s}s", with the breakdown's numbers and the days field present exactly when days ≠ 0; so "days", resp. "d ", occurs exactly when days ≠ 0, and the brief form ends in the hours, minutes and seconds |
| `General.BriefUptimeReadsBack` | modules/general.py:103-108 | the brief form split on spaces has four words when days ≠ 0 and three otherwise, and each word, its unit letter removed, reads back with `int()` as its field of the breakdown |
| `General.ReadFieldOf` | modules/general.py:103-108 | a number written by `str()` followed by its unit letter reads back as that number once the letter is removed |
| `Text.Split` | modules/general.py:298 | `split(" ")` yields at least one piece, and no piece contains the separator |
| `Text.JoinSplit` | modules/general.py:298 | rejoining the pieces with the separator gives the argument back |
| `General.ParseUrbanArgs` | modules/general.py:298-308 | the position is always in 0..10; with more than one word and a last word `int()` reads, that word is dropped and the position is its value minus one if the value is 1..11, else 0; otherwise every word is kept and the position is 0; the kept words, rejoined by spaces and followed by any dropped word, give the argument back |
| `General.UrbanUrl` | modules/general.py:310-311 | the URL starts with the dictionary endpoint |
| `General.UrbanQueryRecoversWords` | modules/general.py:295-311 | when the encoded words have no "+", the query splits back on "+" into the encoded words |
| `General.GetLang` | modules/general.py:35-36 | the lookup succeeds exactly for names in the table, and for the loaded table exactly for the six listed languages |
| `General.StoredLanguage` | modules/general.py:76-80 | the stored language when one is stored and non-empty, otherwise "english" |
| `General.LanguageAlwaysLoaded` | modules/general.py:76-81 | while the store holds only listed languages, the language table of every user's language is found |
| `General.SetLang` | modules/general.py:51-70 | with no argument it shows usage and writes nothing; with an argument whose lower-case form is a listed language it writes that form under "{author_id}-lang" and confirms; otherwise it writes nothing and says "Invalid language."; it keeps the store's languages valid |
| `General.SetLangThenRead` | modules/general.py:66-67 | after a successful setlang, the user's commands use the chosen language |
| `General.TitleOfLanguage` | modules/general.py:68 | the confirmation shows the language capitalised (the title form of a listed language) |
| `General.InfoTotals` | modules/general.py:116-132 | each of the five totals is the sum of its statistic over instances 0, 1 and 2; the command fails exactly when some value is missing or not an integer |
| `General.WithoutEveryone` | modules/general.py:200 | no name is "@everyone", and every other name is kept with its number of occurrences |
| `General.RankIsIndex` | modules/general.py:203-204 | the rank used as sort key is `list.index`: the first position holding the name, or past the end exactly when the name is absent |
| `General.InsertPermutes` | modules/general.py:203-204 | inserting a name into a sorted list adds exactly that name |
| `General.SortByRank` | modules/general.py:203-204 | a permutation of the names, ordered by hierarchy position |
| `General.SortedUnique` | modules/general.py:203-204 | two hierarchy-ordered permutations of the same ranked names are equal, so the order the model produces is the one `sorted` produces |
| `General.RolesField` | modules/general.py:199-210 | "None" when the member has no role besides @everyone; otherwise the field exists exactly when every such role is in the hierarchy (`index` raises otherwise) |
| `General.RolesFieldListsRoles` | modules/general.py:200-207 | the text joins by ", " exactly the member's roles other than @everyone, each as often as it occurs, never @everyone, in hierarchy order |
| `General.OnlineCount` | modules/general.py:229-231 | at most the number of members; equal to it exactly when all are online or idle; zero exactly when none is |
| `General.OnlineCountAppend` | modules/general.py:229-231 | counting two groups separately and adding gives the count of both together |

## Left out

- Sharding, gateway sessions, reconnection, event dispatch, prefix matching against the message text, cooldown enforcement, guards and the command registry. These belong to discord.py's `AutoShardedBot` (bot.py:27, 31-40), which is not part of this model.
- Asynchronous scheduling and concurrency. Every `await` is treated as a plain call.
- Setting up and closing the Redis and MySQL connections (bot.py:46-56, 129-132). The store is only a map of keys to decoded strings, and a read never fails.
- A failed store read in `_prefix_callable` (bot.py:19). The code catches nothing there, so the exception would end the prefix lookup; the model has no failing reads.
- The HTTP POST of the incident payload (bot.py:93-94). Only the payload value is modelled.
- The log line at bot.py:95. It reads `ctx.commands`, which does not exist and would raise after the report has already been sent.
- `send_cmd_help`'s page formatting (bot.py:113-121). Only which command's help is shown is modelled.
- `on_ready` and `run` (bot.py:134-158): banner, logging and token choice, with no decisions to model.
- `millify` (modules/general.py:17-23), because it relies on floating-point `log10` and rounding. The same goes for the `{:.2f}` formatting of the cooldown notice (bot.py:103): the notice carries the retry time as a number.
- Reading the clock in `get_bot_uptime` (modules/general.py:92-94). The model takes the elapsed whole seconds as input.
- The urban dictionary request and the handling of its answer (modules/general.py:312-331). The NSFW channel check (modules/general.py:292-293). `quote_plus`, which is an opaque function parameter.
- The avatar download and ColorThief (modules/general.py:340-343). `Triplet` takes the colour's three bytes.
- Embed layouts, the language JSON files loaded at import (modules/general.py:31-33), `strftime` dates and `random.choice` in `choose` (modules/general.py:88).
- The commands `shutdown`, `cookie`, `emoteinfo` and `channelinfo`. They only format the context or a language entry and make no decisions beyond the language fallback that is modelled.
- `Text.ParseInt` follows Python's `int()` only for ASCII: white space around the number, an optional sign, and decimal digits. It does not accept underscores between digits, non-ASCII digits or non-ASCII white space, which Python does.
- `Text.ParseHex` follows `int(s, 16)` only for bare digits, which is all `triplet` produces. It does not accept a sign, a "0x" prefix or underscores.
- `Text.Lower` and `Text.Title` change the case of ASCII letters only. Python also changes the case of other Unicode letters.
- `General.RolesFieldListsRoles` states that "@everyone" is never one of the listed names. The joined text can still contain "@everyone" as part of a longer role name, such as "@everyone-fans".
