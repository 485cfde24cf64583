# discord-bot: a Dafny model of the conversation store, the credential cache and the command logic

This project models the logic of a Discord chat bot that talks to a
llama.cpp server and looks up World of Warcraft characters on the Blizzard
profile API. Discord, HTTP and SQLite are removed: each exchange is an input
to the model, and the database is an object whose fields are its tables.

- `wrappers.dfy`: the modules `Wrappers` and `Http`.
  - `Wrappers` holds Rust's `Option` and `Result`.
  - `Http` holds the outcome of one HTTP exchange: either no response, or a
    status with a decoded body or a decoding error.
- `text.dfy` (module `Text`): the parts of Rust's standard library the bot
  relies on.
  - `str::trim`, `str::trim_start_matches` and `char::is_whitespace`.
  - `u32::to_string` and `str::parse::<u32>`.
  - The UTF-8 byte length that `String::len` reports.
- `db.dfy` (module `Db`): the conversation store of `src/db.rs`.
  - The class `ConversationStore` holds the `config` table as a map and the
    `messages` table as a sequence of rows in id order.
  - `get_recent_messages` is a loop that collects rows newest first, then an
    in-place reversal of an array.
  - Both are proved against the specification "the last `limit` messages of
    the channel, oldest first".
- `auth.dfy` (module `Auth`): the Battle.net credential cache.
  - `BattleNetAuth` is a class whose fields are the cached token and its
    expiry.
  - `get_battlenet_token` is a method proved against `Acquire`, which is a
    function of the old state, two clock readings and the outcome of the
    OAuth 2.0 client-credentials grant (section 4.4 of RFC 6749).
- `chat.dfy` (module `Chat`):
  - prompt assembly in `ask_llama`, which stores the user turn, then sends
    [system?] + history + the word-cap reminder on a trailing user message;
  - reply extraction;
  - the one-shot request of `query_llm_oneshot`.
- `commands.dfy` (module `Commands`): the handler's small rules.
  - The context key.
  - `!cap`.
  - Mention stripping.
  - Truncation of a reply to 1990 bytes, with a finding, below.
  - The branch run when the bot is mentioned.
- `levelsort.dfy` (module `LevelSort`): the stable sort of the level report.
  - The sort is the reference function `SortedByLevel`.
  - Proved: the result is descending, it is a permutation of the input, and
    equal levels keep their order.
  - Also proved: any sequence with those properties is equal to
    `SortedByLevel`.
- `levelcheck.dfy` (module `LevelCheck`): `fetch_wow_character` and the
  `!levelcheck` / `!levelcheckraw` aggregation.
  - Fetches run in sequence through the shared token cache.
  - The results are split into entries and errors, and the entries are sorted.
  - Each entry gets an optional insult, then the report is rendered.

Three behaviours of the code worth knowing:
- `query_llm_oneshot` sends the system message even when it is empty;
  `ask_llama` omits an empty one.
- The cap read back by `ask_llama` is any u32 stored under `response_cap`.
  Only `!cap` restricts it to 1..=500.
- The tracked-name functions are not defined in `src/db.rs`, so the names
  are an input, taken in the order given.

## Model

| member | source | states |
|---|---|---|
| Db.SetThenGet | src/db.rs:43-50 | an upsert of a key is read back by the next lookup of that key |
| Db.Lookup | src/db.rs:34-41 | the query of `get_config` on the table as a map: None exactly when the key is absent, otherwise its value |
| Db.LastWriterWins | src/db.rs:125-140 | two upserts of one key leave the table as the second alone would, and the lookup gives the second value |
| Db.SetLeavesOtherKeys | src/db.rs:34-50 | an upsert changes the lookup of no other key |
| Db.Seeded | src/db.rs:25-29 | seeding adds `system_prompt` with the default text only when it is missing, and keeps every existing key and value |
| Db.SeededIdempotent | src/db.rs:25-29 | seeding an already seeded table changes nothing |
| Db.ModeKey | src/db.rs:52-59 | the key is "context_mode:" followed by the channel id, and the channel id can be read back from it |
| Db.ModeKeyInjective | src/db.rs:52-60 | two channels have the same context-mode key exactly when they are the same channel |
| Db.ModeKeyIsNotASetting | src/db.rs:53 | a context-mode key never collides with `system_prompt` or `response_cap` |
| Db.ContextMode | src/db.rs:52-55 | the value under the channel's mode key, or "channel" when there is none |
| Db.ContextModeDefault | src/db.rs:52-55 | with no entry for the channel the mode is "channel" |
| Db.SetContextModeThenGet | src/db.rs:52-60 | after setting a channel's mode, that channel reads it back and every other channel reads what it read before |
| Db.LastN | src/db.rs:83-84 | the result is the last `n` elements, or all of them when there are fewer |
| Db.ChannelLog | src/db.rs:81-83 | the channel's messages in insertion order, never more than the rows (what they are is stated by `Db.ChannelLogFromChannel` and `Db.ChannelLogOfAppended`) |
| Db.Recent | src/db.rs:80-97 | at most `limit` messages, a suffix of the channel's log, and the whole log when it fits |
| Db.NewestFirst | src/db.rs:80-93 | the rows the query yields before the reversal, at most `limit` of them (what they are is stated by `Db.ReversedNewestFirstIsRecent`) |
| Db.Reversed | src/db.rs:96 | the same rows in the opposite order: position `i` holds the row from position `len - 1 - i` |
| Db.ReversedNewestFirstIsRecent | src/db.rs:80-97 | reading the channel's rows newest first up to the limit, then reversing, gives exactly its last `limit` messages oldest first |
| Db.RecentFromChannel | src/db.rs:80-85 | at most `limit` messages come back, each one a row stored under the requested channel |
| Db.ChannelLogFromChannel | src/db.rs:81-82 | every message of a channel's log is a row stored under that channel |
| Db.StoreLeavesOtherChannels | src/db.rs:170-183 | storing a message on one channel changes neither the log nor the recent messages of any other channel |
| Db.ChannelLogSnoc | src/db.rs:62-68 | a stored row is appended to its own channel's log and to no other |
| Db.ChannelLogOfAppended | src/db.rs:62-97 | storing messages one by one appends them to the channel's log with their roles, contents and order |
| Db.StoreThenReadBack | src/db.rs:156-168 | after storing messages, a window no larger than what was stored reads back the last `limit` of them in order |
| Db.FreshChannelReadsBackAll | src/db.rs:142-154 | on a channel with no earlier messages, a large enough window reads back everything stored, in order |
| Db.ConversationStore.Open | src/db.rs:6-32 | a fresh database holds only the seeded system prompt and no messages |
| Db.ConversationStore.Init | src/db.rs:25-29 | the config table after `init` is the seeded table |
| Db.ConversationStore.GetConfig | src/db.rs:34-41 | the value stored under the key, or None exactly when the key was never set |
| Db.ConversationStore.SetConfig | src/db.rs:43-50 | the config table is the old one with the key bound to the new value |
| Db.ConversationStore.GetContextMode | src/db.rs:52-55 | the stored mode of the channel, or "channel" when there is none |
| Db.ConversationStore.SetContextMode | src/db.rs:57-60 | the config table is the old one with the channel's mode key bound to the mode |
| Db.ConversationStore.StoreMessage | src/db.rs:62-68 | one row with the next id is appended, and ids keep increasing |
| Db.ConversationStore.GetRecentMessages | src/db.rs:75-98 | the query loop followed by the in-place reversal returns the last `limit` messages of the channel, oldest first |
| Db.ConversationStore.QueryNewestFirst | src/db.rs:80-93 | the loop collects the channel's rows from the newest backwards and stops at `limit` |
| Db.ReverseInPlace | src/db.rs:95-96 | the array holds its old contents in reverse order |
| Text.LeadingSpace | src/main.rs:707 | the count of leading characters that are all whitespace, followed by a character that is not whitespace |
| Text.TrimmedEnd | src/main.rs:707 | the length of the text before a tail made only of whitespace, with a last kept character that is not whitespace |
| Text.Trim | src/main.rs:707 | the result is the slice between the leading and trailing whitespace, and it neither starts nor ends with whitespace |
| Text.TrimStartMatches | src/main.rs:408 | the dropped prefix is copies of the pattern, back to back, and the kept suffix does not start with the pattern |
| Text.ParseU32 | src/main.rs:423 | parses exactly when an optional '+' is followed by one or more digits whose value fits in 32 bits, and the result is that value; empty text does not parse |
| Text.NatToString | src/main.rs:424-426 | `to_string` of a number is a non-empty digit string with no leading zero (except "0" itself) |
| Text.NatToStringDigits | src/main.rs:426 | `to_string` yields a non-empty digit string whose decimal value is the number |
| Text.ParseU32OfNatToString | src/main.rs:426 | every u32 written by `to_string` parses back to itself |
| Text.Utf8Width | src/main.rs:741 | a character takes 1 to 4 bytes, and 1 exactly when it is ASCII |
| Text.ByteLen | src/main.rs:741 | the byte length is at least the character count and at most four times it |
| Text.ByteLenConcat | src/main.rs:741-742 | the byte length of a concatenation is the sum of the byte lengths |
| Auth.SaturatingSub | src/main.rs:125 | the exact difference when there is no underflow, and 0 when there is |
| Auth.Expired | src/main.rs:36-41 | with no stored expiry the token counts as expired; otherwise it is expired from the expiry instant on, that instant included |
| Auth.ExpiredStaysExpired | src/main.rs:36-41 | once expired, a cached token stays expired at every later instant until a refresh replaces it |
| Auth.Acquire | src/main.rs:101-129 | a token that has not expired is returned with the state unchanged; a success always returns the token that is now cached, with an expiry set; any error leaves the cached token and expiry as they were |
| Auth.AcquireKeepsConsistent | src/main.rs:101-127 | every call keeps the invariant that an expiry implies a cached token, so the unwrap on a cache hit never fails |
| Auth.CacheHit | src/main.rs:101-103 | while not expired, the cached token is returned, no exchange is used and the state is unchanged |
| Auth.RefreshOutcome | src/main.rs:105-129 | an expired cache is refreshed exactly when the exchange succeeds; the new expiry is `expires_in - 60` after the refresh, or the refresh instant when `expires_in <= 60`; any failure leaves both fields unchanged |
| Auth.SecondCallerReusesToken | src/main.rs:99-129 | after a successful call, a later caller that reads the clock before the expiry gets the same token and the state stays as it is |
| Auth.ShortLivedTokenExpiresAtOnce | src/main.rs:123-127 | a token granted for 60 seconds or less is stored already expired |
| Auth.BattleNetAuth.constructor | src/main.rs:27-34 | the credentials are kept and the cache starts empty |
| Auth.BattleNetAuth.IsExpired | src/main.rs:36-41 | expired when there is no expiry; otherwise expired exactly from the expiry instant on |
| Auth.GetBattlenetToken | src/main.rs:94-130 | "Battle.net not configured" without credentials; otherwise the new state and the result are those of `Acquire`, and the invariant holds |
| Chat.ResponseCap | src/main.rs:200-204 | a stored `response_cap` that parses as a u32 is the cap; it is 10 when the key is missing or its value does not parse |
| Chat.CapSuffix | src/main.rs:205-208 | the reminder text with the cap in decimal (its read-back is stated by `Commands.Cap500Reminder`) |
| Chat.SystemPart | src/main.rs:183-188 | a system message holding the stored prompt, or no message at all when the prompt is empty |
| Chat.HistoryPart | src/main.rs:190-195 | one chat message per stored row, in stored order (each message's role and content are stated by `Chat.RequestBase`) |
| Chat.WithReminder | src/main.rs:197-210 | only the last message can change, and it gains the reminder exactly when its role is "user" |
| Chat.Assembled | src/main.rs:181-210 | the request messages: one per history entry, plus the system message when the prompt is non-empty (their order and contents are stated by `Chat.AssembledShape`) |
| Chat.RequestBase | src/main.rs:181-195 | before the reminder: the system message first when the prompt is non-empty, then every history entry in stored order |
| Chat.AssembledShape | src/main.rs:174-210 | the length is the history's plus one when there is a system prompt; a system message comes first exactly when the prompt is non-empty; the history follows in order; a trailing user message alone carries the reminder |
| Chat.NoReminderUnlessUserLast | src/main.rs:197-210 | with no user message last, nothing is appended anywhere |
| Chat.UserTurnEndsPrompt | src/main.rs:170-210 | the user turn is stored before the history is read, so the history ends with that turn; the prompt ends with it plus the reminder while the stored row keeps the text unchanged |
| Chat.ReplyOf | src/main.rs:226-247 | the reply is the first choice's content exactly when the server answered 2xx with a decodable, non-empty choice list; an empty list gives "No response from model" |
| Chat.AssemblePrompt | src/main.rs:167-213 | stores exactly one user row and returns the assembled prompt for the stored system prompt, the recent history after that row and the configured cap |
| Chat.PushHistory | src/main.rs:181-195 | the pushes yield the optional system message followed by the history's messages |
| Chat.AskLlama | src/main.rs:160-258 | not configured: an error, no row stored and the id counter unchanged; otherwise the user row is stored, the assembled prompt is sent, the result is the extracted reply, a reply is stored as an assistant row right after the user row, and the id counter grows by the rows stored |
| Chat.QueryLlmOneshot | src/main.rs:260-314 | not configured: an error; otherwise the first choice's content exactly when the server answered 2xx with a non-empty choice list |
| Chat.OneShotMessages | src/main.rs:270-279 | exactly a system message with the given prompt and a user message with the given text (compared with `ask_llama` by `Chat.OneShotAgainstAssembled`) |
| Chat.OneShotAgainstAssembled | src/main.rs:270-279 | the one-shot request is the assembled prompt of a one-message history, apart from the reminder, and it keeps an empty system message that `ask_llama` drops |
| Commands.ContextKeysSeparate | src/main.rs:724-728 | with channel ids free of ':', per-user keys are equal exactly when channel and author are, and no per-user key is a channel key |
| Commands.ContextKey | src/main.rs:725-728 | in "user" mode the channel id, ':' and the author id; in any other mode the channel id alone |
| Commands.ResolveContextKey | src/main.rs:722-729 | the key follows the channel's stored mode, and it is the channel id when no mode is stored |
| Commands.ValidCap | src/main.rs:423-424 | an argument is accepted exactly when it parses as a u32 in 1..=500, and it is accepted as that number |
| Commands.ValidCapRange | src/main.rs:423-446 | every decimal number from 1 to 500 is accepted as itself, and every other number, 0 and 501 among them, is refused |
| Commands.CapIsReadBack | src/main.rs:423-426 | an accepted cap, stored as text, is the cap the next prompt uses |
| Commands.Cap500Reminder | src/main.rs:423-426 | `!cap 500` is accepted and the reminder then reads "in 500 words or less" |
| Commands.CapCommand | src/main.rs:407-450 | no argument: report the current cap and leave the config alone; a valid argument: store it and confirm; anything else: refuse and leave the config alone |
| Commands.CapArgument | src/main.rs:408 | the text after every leading "!cap", trimmed (by the contracts of `Text.TrimStartMatches` and `Text.Trim`) |
| Commands.FirstIndexOf | src/main.rs:706 | the index of the first occurrence, or None exactly when the character is absent |
| Commands.StripMention | src/main.rs:704-708 | without '>' the message is kept whole and untrimmed; otherwise the result is the trimmed text after the first '>' |
| Commands.FittingPrefix | src/main.rs:741-742 | the longest prefix whose UTF-8 bytes fit the budget: it fits, and one more character would not |
| Commands.BoundaryPrefixIsFitting | src/main.rs:742 | a prefix that ends exactly at the budget is the fitting prefix |
| Commands.TruncateAsWritten | src/main.rs:741-745 | a reply of at most 1990 bytes is unchanged; a longer one that does not panic is a prefix ending exactly at byte 1990, followed by "..." |
| Commands.AsWrittenPanicsOnlyInsideACharacter | src/main.rs:742 | whenever some prefix ends at byte 1990, the code as written does not panic |
| Commands.StraddlingCharacter | src/main.rs:742 | ASCII text followed by a multi-byte character that straddles the budget has no prefix ending at the budget |
| Commands.TruncateAsWrittenPanics | src/main.rs:741-745 | 1989 'a's followed by 'é' make the code as written panic |
| Commands.Truncate | src/main.rs:740-745 | at most 1993 bytes; a reply of at most 1990 bytes is unchanged; a longer one becomes its prefix up to the last character boundary at or before byte 1990 (1987 to 1990 bytes, and one more character would not fit), plus "..." |
| Commands.TruncateAgreesWithAsWritten | src/main.rs:741-745 | wherever the code as written does not panic, it gives the same reply as the corrected truncation |
| Commands.AsciiNeverPanics | src/main.rs:741-745 | on ASCII replies the code as written never panics |
| Commands.MentionResponse | src/main.rs:730-736 | the model's reply, or the apology followed by the error |
| Commands.HandleMention | src/main.rs:696-750 | an empty question gets the fixed reply and stores nothing, with the id counter unchanged; otherwise the reply is the cut answer or the apology; with no model configured nothing is stored; with one, the new row list is the old one followed by the stripped text as a "user" row under the resolved context key and, on success, the answer as the next "assistant" row, and the id counter grows by the rows stored |
| LevelSort.Insert | src/main.rs:641 | the entry is added once and nothing else changes: one more element and the multiset grows by the entry |
| LevelSort.SortedByLevel | src/main.rs:641 | the sorted sequence has the input's length and multiset |
| LevelSort.InsertDescending | src/main.rs:641 | inserting into a descending sequence keeps it descending |
| LevelSort.InsertAtLevel | src/main.rs:641 | insertion puts the entry after every entry of its level and changes no other level |
| LevelSort.SortedByLevelIsStableSort | src/main.rs:641 | the result descends by level, is a permutation of the input, and keeps the input order within every level |
| LevelSort.StableSortIsUnique | src/main.rs:641 | two descending sequences with the same entries of every level, in the same order, are equal |
| LevelSort.SortedByLevelIsTheStableSort | src/main.rs:641 | every stable descending sort of the entries gives exactly `SortedByLevel` |
| LevelSort.SortThree | src/main.rs:641 | entries at low, high and middle levels come out high, middle, low |
| LevelSort.SortExample | src/main.rs:641 | levels 10, 40, 25 are reported as 40, 25, 10 |
| LevelSort.TieExample | src/main.rs:641 | two entries of the same level keep their input order |
| LevelCheck.CharacterResult | src/main.rs:132-158 | a token error is passed on unchanged; the fetch succeeds exactly when the token, the status and the body all do, with the decoded profile; a 404 names the character as typed |
| LevelCheck.FetchWowCharacter | src/main.rs:132-158 | "Battle.net not configured" without credentials; otherwise the cache moves as `Acquire` says and the result is `CharacterResult` |
| LevelCheck.TokenRun | src/main.rs:620-625 | the token calls of a run of fetches keep the cache invariant and give one result per fetch |
| LevelCheck.TokenRunWhileFresh | src/main.rs:101-103 | while the cached token stays fresh, every fetch gets it and the cache does not change |
| LevelCheck.RefreshServesLaterFetches | src/main.rs:99-129 | after a successful token call, every later fetch before the expiry gets the same token |
| LevelCheck.TokenRunStep | src/main.rs:620-625 | a run of token calls is the first call followed by the run of the rest |
| LevelCheck.Results | src/main.rs:621-625 | one result per name, each the fetch of that name with its token result and profile answer |
| LevelCheck.FetchAll | src/main.rs:620-625 | the results are index-aligned with the names, and the final cache is the one the run of token calls leaves |
| LevelCheck.EntryOf | src/main.rs:632-636 | an entry of the character's name, level and "<race> <class>" |
| LevelCheck.Successes | src/main.rs:630-636 | the entries of the successful results, never more than the results (their order is stated by `LevelCheck.SuccessesInInputOrder`) |
| LevelCheck.Failures | src/main.rs:630-639 | the "<name>: <error>" lines of the failed results, never more than the results (their order is stated by `LevelCheck.FailuresInInputOrder`) |
| LevelCheck.Positions | src/main.rs:630-639 | every listed index points at a result of the requested kind |
| LevelCheck.PositionsComplete | src/main.rs:630-639 | the indices ascend, and none of the requested kind is missed |
| LevelCheck.PartitionCounts | src/main.rs:627-639 | the entries plus the error lines number exactly the names |
| LevelCheck.SuccessesInInputOrder | src/main.rs:630-636 | the entries are the successful results, one each, in input order |
| LevelCheck.FailuresInInputOrder | src/main.rs:630-639 | the error lines are "<name>: <error>" for the failed results, one each, in input order |
| LevelCheck.Partition | src/main.rs:627-639 | the loop yields exactly the successes and the failures |
| LevelCheck.InsultPrompt | src/main.rs:657-660 | the insult request for one entry, with its level, description and name |
| LevelCheck.InsultRequests | src/main.rs:645-663 | one one-shot request per entry, with the stored system prompt and that entry's insult prompt |
| LevelCheck.Annotations | src/main.rs:643-672 | one annotation per entry; all None when insults are off; otherwise an entry has an insult exactly when its request got a reply, and the insult is that reply |
| LevelCheck.Zip | src/main.rs:675 | pairs up to the shorter list, position by position |
| LevelCheck.EntryLine | src/main.rs:676-683 | an entry's line, with the trimmed insult in italics when there is one |
| LevelCheck.ErrorLine | src/main.rs:685-687 | an error's line behind the warning sign |
| LevelCheck.Report | src/main.rs:674-687 | the header, then the entry lines, then the error lines (its line count is stated by `LevelCheck.ReportLineCount`) |
| LevelCheck.Render | src/main.rs:674-687 | the message is the header, one line per entry, then one line per error |
| LevelCheck.PushEntryLines | src/main.rs:675-684 | the loop appends the entry lines in order |
| LevelCheck.PushErrorLines | src/main.rs:685-687 | the loop appends the error lines in order |
| LevelCheck.EntryLineIsOneLine | src/main.rs:676-683 | an entry whose fields and insult hold no line break makes exactly one line |
| LevelCheck.ReportLineCount | src/main.rs:674-687 | with no line breaks in the fields, the message has 1 + entries + errors lines |
| LevelCheck.LevelCheckCommand | src/main.rs:598-694 | no credentials and no tracked names each answer at once and fetch nothing; otherwise every name is fetched through the cache, the entries are sorted, insult requests go out only for `!levelcheck` with a model configured, and the report is rendered from them |

## Left out

- Discord I/O is not modelled: the gateway, `say`, the typing indicator and `mentions_me`. The mention branch starts from a message that mentions the bot.
- The HTTP requests are not modelled: reqwest, JSON decoding, the basic-auth form of the token request and the bearer header. Each exchange is an input value: no response, or a status with its display text and a decoded body or a decoding error.
- The lowercasing of the name in the profile URL (src/main.rs:136) is not modelled: the profile request is an input.
- The fixed `temperature` and stop strings of chat requests (src/main.rs:215-224) are not modelled. They are constants with no logic.
- SQL text, schema creation and the index (src/db.rs:7-23) are not modelled. The tables are a map and a sequence of rows.
- Db.ConversationStore.GetRecentMessages: the order is `ORDER BY timestamp DESC, id DESC`. The model assumes the `unixepoch()` timestamp never decreases as ids grow, so this order is reverse insertion order.
- Database errors are not modelled: the store never fails. The error paths "DB error …" of `ask_llama` and the fallbacks `unwrap_or_default` / `unwrap_or_else` on failed reads are therefore absent.
- `clear_messages`, `add_tracked_character`, `remove_tracked_character` and `get_tracked_characters` are not part of this model: they are not defined in `src/db.rs`. The tracked names are an input to `LevelCheck.LevelCheckCommand`.
- The remaining commands are not modelled: `!help`, `!ping`, `!hello`, `!systemprompt`, `!clear`, `!contextchannel`, `!contextuser`, `!addcharacter` and `!removecharacter`. Their literal replies carry no logic beyond calls already modelled.
- `main`, environment reading and logging are not modelled.
- tokio's `Mutex` and `join_all` concurrency is not modelled. The token lock is held across the whole refresh, so callers run one after the other. The fetches are modelled in the order of the names, and `join_all` returns results aligned with its requests.
- Chat.AskLlama: each handler runs atomically in the model. In the code `ask_llama` releases the database lock after storing the user turn (src/main.rs:167-213) and takes it again to store the reply (src/main.rs:250-255), so rows of other handlers can come between the user row and the reply.
- Auth.Acquire: instants are natural numbers of seconds. `Instant::now()` is two inputs, the reading before the refresh and the reading after it, with the first no later than the second. Overflow of `Instant` addition is not modelled.
- LevelCheck.LevelCheckCommand: the character level is an unbounded natural number rather than a u32.
- LevelSort.SortedByLevel: the algorithm of `sort_by` is not modelled step by step. The sort is the reference function, and `LevelSort.SortedByLevelIsTheStableSort` shows that any stable descending sort gives exactly this result.
- Commands.HandleMention uses the corrected `Commands.Truncate`, not the truncation as written. See Findings.
- LevelCheck.Header, LevelCheck.Dash, LevelCheck.Warn: the source spells the em dash and the warning sign as "â€”" and "âš" followed by a no-break space, which are UTF-8 bytes read as Windows-1252. The model keeps those characters exactly as the source text has them.

## Findings

| source | as written | input that shows it | evidently intended | confidence | as-written member | corrected member |
|---|---|---|---|---|---|---|
| src/main.rs:741-745 | a reply longer than 1990 bytes is cut with `&response[..1990]`, which panics when byte 1990 falls inside a multi-byte character | a reply of 1989 'a's followed by 'é' (1991 bytes; 'é' spans bytes 1989-1990) | cut at the last character boundary at or before byte 1990, then add "..." | not executed | Commands.TruncateAsWritten (panic shown by Commands.TruncateAsWrittenPanics) | Commands.Truncate |
