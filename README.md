# ubotvk in Dafny

A model of the core of ubotvk, a VK (VKontakte) chat bot. The bot reads events from the VK long-poll
server. It keeps a SQLite table saying which optional features are on in which group chat, and it
answers two commands, `add <feature>` and `remove <feature>`, sent to it by mention
(`[id<bot id>|...] add pidors`). Each event is handed to every installed feature that the event
code triggers and that is on in the chat.

The model has these modules:

- `Wrappers`: `Option`, `Result` and `Outcome` datatypes.
- `Text`: Python's `str.split`, `str.strip`, ASCII `str.lower` and `str(int)`, written over
  `seq<char>`.
- `Utils`: `command_in_string`. It covers the greedy mention removal `re.sub('\[id\d+\|.*\]', '', text)`,
  the normalisation, the prefix strip and the vocabulary match.
- `Store`: the `features` table of `ubotvk/database.py`.
  - The table is a sequence of `Row(chatId, features)`.
  - Every operation is a pure function returning `Result`. A failure is one of the `ValueError`s
    the source raises, or the `None` that `fetchone()` gives for an unknown chat.
  - `class Database` holds the rows. Its methods are proved to leave the rows the functions compute.
- `Poll`: the event record, the long-poll cursor `(key, server, ts)` and the failure-code branching
  of `long_poll`. It also holds the two versions of the loop step discussed under Findings.
- `Dispatch`: the dispatcher of `ubotvk/bot.py`, as functions on a `BotState`. A `BotState` holds
  the rows, `_chats`, `dict_feature_chats` and a log of the calls made into features. The module
  also has the invariant `StateValid` and the lemmas that every step keeps it.
- `BotRuntime`: `class Bot`. Its fields change in place, and each method is proved to end in the
  state the matching `Dispatch` function gives.
- `MainRevision`: `class Main` of `main.py`, the earlier loop. It has no per-chat index, and a
  VkAPIError abandons the rest of the batch.
- `Pidors`: the `Pidors` feature. It models the trigger predicate of `__call__` and the ranking
  `top_pidor` builds, as a `class PidorsFeature` whose `TopPidor` loop is proved to build the
  report, the total and the count.

Outside inputs become parameters:

- the decoded long-poll answer is a `Response`;
- what `get_long_poll_server` would return is the cursor `renewed`;
- whether a feature call raises a VkAPIError is a function `raises`;
- the rows of a Pidors chat table are the map `stored`.

Calls into features and messages sent are appended to a log (`log`, `sent`).

## Model

| member | source | states |
|---|---|---|
| Text.Split | ubotvk/utils.py:15 | `str.split()`: every token is non-empty and holds no whitespace, and the tokens joined together are exactly the non-whitespace characters of the input, in order |
| Text.SplitJoin | ubotvk/utils.py:15 | splitting non-empty words joined by any non-empty runs of whitespace, one of its own in each gap, with any whitespace before and after, gives back exactly those words |
| Text.SplitCovers | ubotvk/utils.py:15 | every string is its own tokens with a non-empty run of whitespace in each gap and whitespace around them, so the tokens are the maximal non-whitespace runs |
| Text.Lower | ubotvk/utils.py:15 | `str.lower()` keeps the length and lower-cases each character in place, ASCII `A`-`Z` moving by 32 and every other character unchanged |
| Text.SplitLowered | ubotvk/utils.py:15 | the tokens of lower-cased text are lower case |
| Text.Trim | ubotvk/bot.py:102 | `strip()` removes leading and trailing whitespace only: the result is a slice of the input that neither starts nor ends with whitespace |
| Text.NatToStringInjective | ubotvk/bot.py:102 | distinct ids give distinct `str(vk_id)` |
| Text.NatToString | ubotvk/bot.py:102 | `str(n)` for a natural: a non-empty run of decimal digits without a leading zero, which `ParseNatToString` reads back as `n` |
| Text.IntToString | ubotvk/bot_features/pidors/pidors.py:36 | `str(n)` for any integer: a `-` and the digits of `-n` when negative, the digits of `n` otherwise |
| Text.ParseNatToString | ubotvk/bot.py:102 | reading the digits of `str(n)` back gives `n` |
| Utils.MentionAt | ubotvk/utils.py:14 | the greedy regex match at a position: the longest prefix of the form `[id<digits>\|...]` with no newline in the body, and None when there is none |
| Utils.MentionNeedsBar | ubotvk/utils.py:14 | without at least one digit and then a `\|` after `[id`, nothing matches |
| Utils.MentionEndsInLine | ubotvk/utils.py:14 | every match ends on a `]` of the first line after the bar (`.` does not cross a newline) |
| Utils.StripMentions | ubotvk/utils.py:14 | `re.sub` over the whole text; never longer than the input |
| Utils.StripWithoutBracket | ubotvk/utils.py:14 | text without `[` is left unchanged |
| Utils.GreedyMention | ubotvk/utils.py:14 | removal is greedy: a mention is deleted together with everything up to the last `]` of its line |
| Utils.StripLeadingMention | ubotvk/utils.py:14 | a mention followed by bracket-free text leaves exactly that text |
| Utils.Tokens | ubotvk/utils.py:14-15 | the normalised word list: every token is non-empty, has no whitespace and is lower case |
| Utils.CommandInString | ubotvk/utils.py:14-24 | None with no tokens or a first token of length at most 1; when it returns a list, its first word is in `commands`, and the list is the normalised tokens with at most one leading `/` or `!` dropped from the first |
| Utils.TokensAfterMention | tests/test_utils.py:12-22 | a mention, then words with any non-empty run of whitespace in each gap and any whitespace around them, gives exactly the lower-cased words |
| Utils.MentionThenCommand | tests/test_utils.py:12-34 | a mention followed by a known command gives all the lower-cased words (`'[id13515\|Test] cMd2 TeST'` gives `['cmd2', 'test']`) |
| Utils.MentionThenPrefixedCommand | ubotvk/utils.py:17-22 | a first word beginning with `/` or `!` is found if and only if the word without that symbol is a command, and the rest is kept |
| Utils.FirstWordDecides | ubotvk/utils.py:17-22 | later tokens never affect whether a command is found, or which |
| Store.Find | ubotvk/database.py:48-49 | `fetchone()` on `WHERE chat_id=?`: the first row of the chat, or None exactly when the chat has no row |
| Store.Persisted | ubotvk/database.py:86-87 | `json.loads(fetchone()[0])`: present exactly when the chat has a row, and then the list of one of its rows (the first, by `Find`) |
| Store.FirstRow | ubotvk/database.py:48-49 | the position of a chat's first row: it belongs to the chat and no earlier row does |
| Store.SetFeatures | ubotvk/database.py:76 | `UPDATE ... WHERE chat_id=?` rewrites every row of the chat and no other row |
| Store.FirstIndex | ubotvk/database.py:89 | the position of the first occurrence: it holds `x` and no earlier position does |
| Store.RemoveFirstIsSlice | ubotvk/database.py:89 | `list.remove` cuts out exactly the first occurrence and keeps everything before and after it in order |
| Store.RemoveFirstCounts | ubotvk/database.py:89 | the multiset of the list loses exactly one `x` |
| Store.AddChatRows | ubotvk/database.py:43-56 | fails with ChatAlreadyKnown if and only if the chat has a row; otherwise one row `(c, [])` is appended |
| Store.AddFeatureRows | ubotvk/database.py:58-78 | an unknown chat fails (the `None` from `fetchone`); a feature already on fails with FeatureAlreadyEnabled; otherwise the chat's list gains the feature at its end, and no other chat and no chat id changes |
| Store.RemoveFeatureRows | ubotvk/database.py:80-96 | an unknown chat fails; a feature that is not on fails with FeatureNotEnabled; otherwise the first occurrence is removed, and no other chat and no chat id changes |
| Store.AddChatKeepsValid | ubotvk/database.py:43-56 | add_chat keeps one row per chat and no feature twice |
| Store.AddFeatureKeepsValid | ubotvk/database.py:58-78 | add_feature keeps the table invariant |
| Store.RemoveFeatureKeepsValid | ubotvk/database.py:80-96 | remove_feature keeps the table invariant |
| Store.RemovedIsGone | ubotvk/database.py:88-91 | after a successful remove the feature is no longer stored for the chat |
| Store.AddRemoveRoundTrip | tests/test_database.py:74-89 | on a chat without the feature, adding and then removing it gives back the original table |
| Store.Keys | ubotvk/database.py:25-27 | the dict keys: each chat of the table once, and in order of their first rows, as dict insertion order gives |
| Store.LastFeatures | ubotvk/database.py:25-27 | the dict value for a chat is the list of its last row: a row of the chat with no row of the chat after it, as later rows overwrite |
| Store.LastFeaturesOfValid | ubotvk/database.py:25-27 | under the table invariant, that value is the stored list |
| Store.Select | ubotvk/database.py:31-32 | the comprehension keeps exactly the keys whose defaults-plus-stored list holds the feature, in key order, with no duplicates when the keys have none |
| Store.ChatsWith | ubotvk/database.py:29-32 | the list for a feature holds the table's chats with the feature on, once each, in the dict's key order |
| Store.FeatureChats | ubotvk/database.py:19-34 | get_feature_chats_dict: keyed by exactly the installed features, each list without duplicates, in the dict's key order, and holding exactly the chats where the feature is a default or stored |
| Store.DefaultEverywhere | ubotvk/database.py:27 | a default feature lists every chat of the table, in table order |
| Store.EnabledNowhere | tests/test_database.py:134-154 | a feature that is not a default and is stored nowhere maps to `[]` |
| Store.ChatsWithOfValid | tests/test_database.py:134-154 | under the invariant, the list for a feature holds exactly the chats of the table whose defaults-plus-stored list holds it, in row order |
| Store.ChatsWithIsTheOrderedList | tests/test_database.py:134-154 | under the invariant the list is determined: it equals every list of exactly those chats in row order, as the tests' literal lists are |
| Store.InOrderUnique | ubotvk/database.py:29-32 | two lists in the order of a duplicate-free sequence with the same members are equal |
| Store.ChatIds | ubotvk/database.py:25-27 | the chat id of each row, in row order |
| Store.NewChatHasDefaults | ubotvk/database.py:51-52 | a chat just added has exactly the default features on |
| Store.Database.GetFeatureChatsDict | ubotvk/database.py:19-34 | the object's query: keyed by the installed features, with each list holding exactly the chats where the feature is on, once each, in the dict's key order |
| Store.Database.GetChats | ubotvk/database.py:36-41 | each chat of the table exactly once |
| Store.Database.AddChat | ubotvk/database.py:43-56 | the rows and the outcome are those of `AddChatRows`; the invariant is kept |
| Store.Database.AddFeature | ubotvk/database.py:58-78 | the rows and the outcome are those of `AddFeatureRows`; the invariant is kept |
| Store.Database.RemoveFeature | ubotvk/database.py:80-96 | the rows and the outcome are those of `RemoveFeatureRows`; the invariant is kept |
| Poll.LongPoll | ubotvk/bot.py:62-72 | an answer without `failed` is returned with the cursor untouched; failure 1 moves only `ts` (and raises without `ts`); 2 and 3 install the renewed triple; 4 raises WrongVersion; any other code raises; nothing is returned exactly on the codes that resync; key and server change only on 2 and 3 |
| Poll.AsWrittenStep | ubotvk/bot.py:37-38 | the loop step as written: every resync ends in a `TypeError` on `None['ts']` |
| Poll.AsWrittenCrashesOnExpiredKey | ubotvk/bot.py:67-68 | the concrete input: a `{'failed': 2}` answer stops the loop |
| Poll.ResyncStep | ubotvk/bot.py:36-40 | the corrected step never hits the TypeError; after a resync it polls again from the repaired cursor with no updates; failure 4 raises WrongVersion, failure 1 without `ts` and any unknown code raise; otherwise it agrees with the code as written |
| Poll.ResyncKeepsSession | ubotvk/bot.py:65-68 | after failure 1 the key and server stay and `ts` is the new one; after 2 or 3 the renewed triple is used |
| Dispatch.InitState | ubotvk/bot.py:28-30 | the state `__init__` builds keeps the table and starts with no calls |
| Dispatch.InitValid | ubotvk/bot.py:28-30 | the index and the chat list read from a valid table satisfy the bot's invariant |
| Dispatch.AppendDefaults | ubotvk/bot.py:133-134 | appending to the default features' lists adds no key to the index |
| Dispatch.AppendDefaultsMembers | ubotvk/bot.py:133-134 | exactly the default features' lists gain the chat, and the other lists are left as they are |
| Dispatch.WithHook | ubotvk/bot.py:136-140 | the features with a `new_chat` method: exactly those, in installed order |
| Dispatch.HookCalls | ubotvk/bot.py:136-140 | the calls of the hook loop, described by `HookCallsAreHooks` |
| Dispatch.HookCallsAreHooks | ubotvk/bot.py:136-140 | the kth call is `new_chat(chat)` on the kth feature that has the hook: one call each, in installed order, and no other call |
| Dispatch.NewChatState | ubotvk/bot.py:129-142 | a known chat crashes with ChatAlreadyKnown; otherwise a row is added, the chat is appended to `_chats` and to the default features' lists, and the hooks run |
| Dispatch.NewChatKeepsValid | ubotvk/bot.py:129-142 | in a valid state, new_chat on an unlisted chat succeeds and keeps the invariant |
| Dispatch.NewChatGetsDefaults | ubotvk/bot.py:133-134 | afterwards the chat is listed for a feature if and only if the feature is a default |
| Dispatch.AddState | ubotvk/bot.py:114-119 | no argument crashes (`command[0]` on `[]`); an uninstalled feature is ignored; otherwise the table's outcome decides, and on success the chat is appended to the feature's list |
| Dispatch.RemoveState | ubotvk/bot.py:121-127 | no argument crashes; an uninstalled feature is ignored; a store failure crashes; on success the chat is removed once from the feature's list |
| Dispatch.CommandState | ubotvk/bot.py:107-112 | routed on the first word: `add` is `command_add` on the rest (`AddState`), `remove` is `command_remove` on the rest (`RemoveState`), and anything else leaves the state unchanged |
| Dispatch.AddKeepsValid | ubotvk/bot.py:114-119 | command_add keeps the invariant |
| Dispatch.RemoveKeepsValid | ubotvk/bot.py:121-127 | command_remove keeps the invariant |
| Dispatch.ReplaceKeepsValid | ubotvk/bot.py:117-118 | changing one chat's stored list and one feature's index list in step keeps the invariant |
| Dispatch.CommandKeepsValid | ubotvk/bot.py:107-112 | handle_command keeps the invariant |
| Dispatch.CommandCrashesOnlyOnUserError | ubotvk/bot.py:114-127 | in a valid state a command crashes only on a missing argument, a duplicate add or a remove of a feature that is off; the `list.remove` ValueError on the index never happens |
| Dispatch.Take | ubotvk/bot.py:102 | `s[:n]`: a prefix of length `n` when the string is long enough, and the whole string otherwise |
| Dispatch.IsInbox | ubotvk/bot.py:98 | event 4 with bit 2 of the flags clear, as described by `CheckState` |
| Dispatch.ChatOf | ubotvk/bot.py:99-100 | the chat id `int(update[3] - 2e9)`, the helper of `CheckState`, `Triggered` and `FanOut` |
| Dispatch.Addressed | ubotvk/bot.py:102 | the slice comparison, described by `AddressedIsPrefix` and `AddressedToOneBot` |
| Dispatch.AddressedToOneBot | ubotvk/bot.py:102 | a message is addressed to at most one bot id |
| Dispatch.AddressedIsPrefix | ubotvk/bot.py:102 | the slice comparison holds if and only if the stripped text starts with `[id<vk_id>\|` |
| Dispatch.CheckState | ubotvk/bot.py:97-105 | a non-inbox event changes nothing; from a known chat it is the command step `AddressedStep` on the text; an unknown chat is first added by `NewChatState` (row, `_chats`, default lists and hooks), crashing as it does, and then the command step runs on that state; the index keeps its keys |
| Dispatch.AddressedStep | ubotvk/bot.py:102-105 | a text that does not start with the bot's mention, or holds no command, changes nothing; otherwise it is `handle_command` (`CommandState`) on the word list `command_in_string` returns; a command changes neither `_chats` nor the log nor the index keys |
| Dispatch.AddressedKeepsValid | ubotvk/bot.py:102-105 | on a chat of the table the command step keeps the invariant and crashes only on user errors |
| Dispatch.Triggered | ubotvk/bot.py:77-81 | a feature is called if and only if it is installed, the event code triggers it and the chat is in its list; the features come in installed order, so a list of distinct features gives each at most once |
| Dispatch.FanOut | ubotvk/bot.py:77-84 | the calls of the fan-out loop, described by `FanOutIsTriggered` and `RaisesDoNotStopOthers` |
| Dispatch.FanOutIsTriggered | ubotvk/bot.py:77-84 | one call per triggered feature, in installed order, each recording whether it raised |
| Dispatch.RaisesDoNotStopOthers | ubotvk/bot.py:83-84 | a VkAPIError is caught per feature: which features raise never changes which are called |
| Dispatch.HandleState | ubotvk/bot.py:74-84 | commands first, then the fan-out over the index as the commands left it; the update crashes exactly when the command step does |
| Dispatch.CheckKeepsValid | ubotvk/bot.py:97-105 | check_for_commands keeps the invariant, and crashes only on user errors |
| Dispatch.HandleKeepsValid | ubotvk/bot.py:74-84 | every handled update keeps the invariant |
| Dispatch.BatchState | ubotvk/bot.py:39-40 | no updates leave the state as it is, one update is `handle_update` on it, and the index keeps its keys |
| Dispatch.BatchAppend | ubotvk/bot.py:39-40 | the updates are handled in list order: `a + b` is `a`, then `b` from the state `a` left, and a crash in `a` ends the batch |
| Dispatch.AddCommandTakesEffect | ubotvk/bot.py:97-119 | under the invariant, `[id<vk_id>\|...] add f` from a known chat, with `f` installed and not stored, succeeds: the chat's stored list gains `f` at its end and `index[f]` gains the chat |
| Dispatch.RemoveCommandTakesEffect | ubotvk/bot.py:97-127 | under the invariant, `[id<vk_id>\|...] remove f` from a known chat that stores `f` succeeds: `f` is no longer stored, `index[f]` loses the chat's first occurrence, and for a non-default `f` the chat is no longer listed |
| Dispatch.RemoveStateTakesEffect | ubotvk/bot.py:121-127 | under the invariant, `command_remove([f], chat)` on a chat that stores `f` succeeds, drops `f` from the stored list and the chat's first occurrence from `index[f]` |
| Dispatch.BatchKeepsValid | ubotvk/bot.py:39-40 | a whole batch keeps the invariant |
| Dispatch.IterationState | ubotvk/bot.py:36-40 | the corrected iteration: an update answer moves `ts` and handles the batch; a resync repairs the cursor and handles nothing; a poll that raises (failure 4, an unknown code, failure 1 without `ts`) crashes with that error and keeps the cursor |
| BotRuntime.Bot.constructor | ubotvk/bot.py:28-34 | the state is the one `InitState` gives, and the invariant holds |
| BotRuntime.Bot.LongPoll | ubotvk/bot.py:46-72 | the new cursor and the result are those of `Poll.LongPoll`; nothing else changes |
| BotRuntime.Bot.NewChat | ubotvk/bot.py:129-142 | ends in the state `NewChatState` gives |
| BotRuntime.Bot.AppendToDefaults | ubotvk/bot.py:133-134 | the index becomes the one `AppendDefaults` gives; nothing else changes |
| BotRuntime.Bot.CallHooks | ubotvk/bot.py:136-140 | the log gains `HookCalls`' calls; nothing else changes |
| BotRuntime.Bot.CommandAdd | ubotvk/bot.py:114-119 | ends in the state `AddState` gives |
| BotRuntime.Bot.CommandRemove | ubotvk/bot.py:121-127 | ends in the state `RemoveState` gives |
| BotRuntime.Bot.HandleCommand | ubotvk/bot.py:107-112 | ends in the state `CommandState` gives |
| BotRuntime.Bot.CheckForCommands | ubotvk/bot.py:97-105 | ends in the state `CheckState` gives |
| BotRuntime.Bot.AddressedCommand | ubotvk/bot.py:102-105 | ends in the state `AddressedStep` gives |
| BotRuntime.Bot.CallFeatures | ubotvk/bot.py:77-84 | only the log changes, and it gains the fan-out's calls |
| BotRuntime.Bot.HandleUpdate | ubotvk/bot.py:74-84 | ends in the state `HandleState` gives, and keeps the invariant |
| BotRuntime.Bot.Iteration | ubotvk/bot.py:36-40 | ends in the state and with the cursor the corrected iteration gives, and keeps the invariant |
| MainRevision.ByCode | main.py:75-78 | the loaded features the event code triggers: exactly those, in list order |
| MainRevision.MainFanOut | main.py:75-78 | the calls of `handle_update`, described by `MainFanOutIsByCode` |
| MainRevision.MainFanOutIsByCode | main.py:75-78 | the kth call is on the kth feature the code triggers, in list order; every call but the last returned; the pass stopped exactly when the last call raised, and otherwise every triggered feature was called |
| MainRevision.StoppedStays | main.py:36-39 | once a call has raised, the remaining features are not called |
| MainRevision.SameCallsWhenEnabledEverywhere | main.py:75-78 | with every feature on in the chat and no error, `Main` and `Bot` make the same calls |
| MainRevision.MainBatch | main.py:32-39 | no updates make no calls, and one update makes the calls of `handle_update` on it |
| MainRevision.MainBatchAppend | main.py:32-39 | the updates are handled in list order: `a + b` makes the calls of `a` and, unless `a` was abandoned, the calls of `b` after them |
| MainRevision.AbandonedStays | main.py:32-39 | once a VkAPIError abandons the batch, the later updates are not handled |
| MainRevision.RestAbandoned | main.py:32-39 | after the update that raised, what follows in the batch makes no difference, and the batch counts as abandoned |
| MainRevision.MainIteration | main.py:31-40 | the corrected iteration: only the poll stops the loop, exactly when the corrected step crashes, and with that step's error (WrongVersion on failure 4); an update answer moves `ts` and runs the batch |
| MainRevision.Main.constructor | main.py:24-29 | the features and the cursor are the given ones, and no call has been made |
| MainRevision.Main.LongPoll | main.py:47-73 | the new cursor and the result are those of `Poll.LongPoll` |
| MainRevision.Main.HandleUpdate | main.py:75-78 | the log gains `MainFanOut`'s calls, and the result says whether one raised |
| MainRevision.Main.Iteration | main.py:31-40 | stops with the error, or goes on with the calls, the abandoned flag and the cursor `MainIteration` gives |
| Pidors.TriggerChat | ubotvk/bot_features/pidors/pidors.py:22-26 | `__call__` acts if and only if flag bit 2 is clear, the chat is in `enabled_in_chats` and the text is `/toppidor` or `!toppidor`; it then reports to that chat |
| Pidors.TriggerTextIsExact | ubotvk/bot_features/pidors/pidors.py:25 | a triggering text is one of the two nine-character words, with nothing to strip |
| Pidors.OutgoingDoesNothing | ubotvk/bot_features/pidors/pidors.py:23 | an outgoing message never triggers |
| Pidors.Line | ubotvk/bot_features/pidors/pidors.py:36 | the format string of one ranking line, the helper of `Lines` |
| Pidors.Lines | ubotvk/bot_features/pidors/pidors.py:35-38 | the lines the loop accumulates, described by `LinesAreNumbered`, `LinesSplit` and `OneLinePerRow` |
| Pidors.LinesAreNumbered | ubotvk/bot_features/pidors/pidors.py:35-38 | the ranking is the rows in order, numbered consecutively from 1 |
| Pidors.LinesFromConcat | ubotvk/bot_features/pidors/pidors.py:35-38 | the numbering of two tables in a row runs on from the first into the second |
| Pidors.LinesSplit | ubotvk/bot_features/pidors/pidors.py:35-38 | the rows after the first `k` are numbered on from `k + 1` |
| Pidors.OneLinePerRow | ubotvk/bot_features/pidors/pidors.py:36 | one line per row: the ranking holds exactly as many line breaks as rows, when no name holds one |
| Pidors.Total | ubotvk/bot_features/pidors/pidors.py:39 | the sum of the third column the loop accumulates, described by `TotalAppend` and `TotalBounds` |
| Pidors.TotalAppend | ubotvk/bot_features/pidors/pidors.py:39 | the total of two tables together is the sum of their totals |
| Pidors.TotalBounds | ubotvk/bot_features/pidors/pidors.py:39 | the total lies between the row count times the smallest and times the largest count |
| Pidors.PidorsFeature.constructor | ubotvk/bot_features/pidors/pidors.py:9-20 | one table per chat of the list, `triggered_by == [4]`, enabled in exactly the given chats |
| Pidors.PidorsFeature.TopPidor | ubotvk/bot_features/pidors/pidors.py:28-42 | sends one message to peer `chat_id + 2000000000`: the header then the numbered lines, the total of the third column, and the counter one past the row count |
| Pidors.PidorsFeature.Call | ubotvk/bot_features/pidors/pidors.py:22-26 | sends nothing unless `TriggerChat` holds, and then exactly the report of the message's chat |
| Pidors.AsFeature | ubotvk/bot_features/pidors/pidors.py:17 | the feature is triggered by event code 4 and no other |
| Pidors.BotCallsOnlyOnMessages | ubotvk/bot.py:79-81 | whatever the index holds, the bot calls the feature only on event code 4 |

## Left out

- HTTP, the VK API and JSON are left out. Answers come in as `Response` values, the renewed
  cursor as a parameter, and sends become log entries.
- SQLite is left out: the table is a sequence of rows, and the Pidors tables are a map given to its
  constructor. The create-table calls are not modelled.
- Loading features with `import_module` (`ubotvk/bot.py:87-95`, `main.py:80-89`) is replaced by a
  fixed sequence of `Feature` records.
- Inside a feature call, only the call itself and whether it raised are modelled. A `new_chat`
  hook is assumed not to raise (`ubotvk/bot.py:137-140` catches only AttributeError).
- The `while True` loops are modelled one iteration at a time. `print` calls are left out.
- Floats are left out:
  - `update[3] - 2e9` and `chat_id + 2e9` are exact integers;
  - the average line of `top_pidor` (`ubotvk/bot_features/pidors/pidors.py:41`) is not modelled.
    `Sent` records the total and the counter it is computed from. As written, the expression is
    `total / count - 1` with `count` one past the row count.
- Unicode is modelled only in part. `str.lower` folds ASCII letters only, and `\d` matches ASCII
  digits only. `str.split` and `str.strip` treat the Python whitespace set as whitespace.
- Store.Database.GetChats: the list comes out in table order. Python's `list(set(...))` order is
  unspecified, so only the membership and the absence of duplicates are stated.
- The `else` branch at `ubotvk/database.py:73-74` is not modelled. It cannot be reached, because
  `add_chat` always stores the truthy string `"[]"`.
- The type assertions at `ubotvk/database.py:44,59-60,81-82` are not modelled. The types rule out
  the inputs they reject.
- Events are modelled with four fields (code, flags, peer, text). An event list too short for
  `update[5]` is not modelled.
- BotRuntime.Bot.constructor requires a table that already satisfies the invariant (one row per
  chat, no feature twice). `add_chat` and `add_feature` keep that invariant, so a table written
  only by the bot satisfies it.
- BotRuntime.Bot.constructor, and every Dispatch step through `Wired`, also requires a valid
  configuration (`Dispatch.ConfigValid`): each installed feature listed once, and every default
  feature among the installed ones. `ubotvk/config.py:11-12` reads both lists from `config.json`
  without checking either. The model does not cover what the bot does otherwise:
  - A default that is not installed makes the first `new_chat` raise KeyError at
    `ubotvk/bot.py:134`. By then `db.add_chat` has stored the row and `_chats` holds the chat.
  - A repeated installed name collapses into one key of the feature dict (`ubotvk/bot.py:92-95`,
    `ubotvk/database.py:29-32`).
- Dispatch.IterationState, MainRevision.MainIteration, BotRuntime.Bot.Iteration and
  MainRevision.Main.Iteration use the corrected poll step `Poll.ResyncStep`. The step as written is `Poll.AsWrittenStep`; see Findings.
- The tests and the code disagree in two places, and the model follows the code:
  - `tests/test_database.py:57` calls `add_feature` twice with the same feature, and the second
    call raises ValueError.
  - `tests/test_database.py:93-98` expects AttributeError, but `remove_feature` raises ValueError.
  - These cases are the FeatureAlreadyEnabled and FeatureNotEnabled failures of
    `Store.AddFeatureRows` and `Store.RemoveFeatureRows`.

## Findings

| source | as written | input that shows it | evidently intended | confidence | as-written member | corrected member |
|---|---|---|---|---|---|---|
| ubotvk/bot.py:37-38 (same in main.py:33-34) | on failure codes 1, 2 and 3 `long_poll` repairs the cursor and returns `None`; the loop then evaluates `response['ts']` and stops with a TypeError, which neither loop catches | the answer `{'failed': 2}` after the key expires | poll again from the repaired cursor | not executed | Poll.AsWrittenStep, Poll.AsWrittenCrashesOnExpiredKey | Poll.ResyncStep |
