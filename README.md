# Social deduction game arena: the turn engine, modelled in Dafny

The arena runs a social deduction game between language-model players and a language-model
game master (the arbiter, "GM"). Each turn every player submits a bid in [0, 1], a message and
its recipients. The arbiter sees all submissions and picks the messages to execute. It may add
messages of its own and may declare a winner. The selected messages are then written into the
memories (`mem_log`) of the agents that may see them.

This project models the deterministic middle of that engine, from "a language-model call
returned something" to "the logs were updated":

- `Sanitizer`, `LlmUtils` and `SdgCore.CleanJsonResponse`: the response cleaner
  `clean_json_response`. It is a fixed pipeline of regular-expression rewrites, each written as
  a function on `seq<char>`. The pipeline ends with a JSON parse, a last-resort character filter
  with a second parse, and `{}`.
- `AgentBase` and the three `FromLlmResponse` wrappers: `AgentResponse.from_llm_response`, the
  defaults and the `[0, 1]` clamp on the bid.
- `Arbitration`: the validation of the arbiter's reply. It keeps the well-formed
  `selected_messages`, turns `to` into a list, and defaults `reason` and `winner`.
- `Retry`: the bounded retry loop behind `decide`, `bid`, `process_turn_with_all_submissions`
  and `announce`.
- `SdgCore.Game` and `SdgCore.RunGame`: the turn loop of sdg_core.py with visibility-scoped
  distribution. Broadcasts reach everyone. A DM reaches the sender, each named player and the
  GM. `public_log` and `dm_log` are kept as well.
- `GameCore` and `SdgArena`: the simpler loops of game_core.py and sdg_arena.py. These append
  every selected message to every memory alike.
- `LlmUtils.ParseModelSpec` (lax) and `SdgCore.ParseModelSpec` (validating): `parse_model_spec`.

What the model abstracts:

- A language-model chain is a function from a prompt value and an attempt index to a
  `CallOutcome`: the exception it raised, or the JSON value its output parser produced.
- `json.loads` is a parameter `parse: string -> Option<Json>`.
- Python's `float(str)` and `str(value)` of non-strings are the parameters in `PyConv`.
- The cleaner of utils/llm.py is a parameter `clean: string -> Json`. utils/llm.py is not part
  of this model.
- Python exceptions become `Result.Err` values, or `ok == false` for a delivery.

## Model

| member | source | states |
|---|---|---|
| Sanitizer.ExtractBracesKeepsOutermost | sdg_core.py:126-127 | when a `}` occurs after the first `{`, the result is exactly the text from the first `{` to the last `}`; otherwise the text is unchanged |
| Sanitizer.ExtractBracesIdempotent | llm_utils.py:81-82 | a second brace extraction changes nothing |
| Sanitizer.StripFencesRemovesOnly | sdg_core.py:129-130 | fence stripping only removes characters |
| Sanitizer.FencedBlock | sdg_core.py:129-130 | a block written as an opening fence with `json`, whitespace, a body, whitespace and a closing fence becomes exactly the body |
| Sanitizer.OpeningFence | sdg_core.py:130 | an opening fence and the whitespace after it are removed |
| Sanitizer.ClosingFence | sdg_core.py:130 | a closing fence and the whitespace before it are removed |
| Sanitizer.StripFencesWithoutBacktick | llm_utils.py:84-85 | text without a backtick passes through unchanged |
| Sanitizer.DropCommaBefore | sdg_core.py:132-134 | the trailing-comma step never makes the text longer |
| Sanitizer.DropCommaRemovesTrailingComma | sdg_core.py:133-134 | a comma, the whitespace after it and the closer become the closer alone |
| Sanitizer.DropCommaSinglePass | sdg_core.py:133 | the step is a single pass: `",,}"` becomes `",}"` |
| Sanitizer.DropCommaKeepsSkeleton | llm_utils.py:87-89 | the step removes only commas and whitespace |
| Sanitizer.DropCommaWithoutComma | llm_utils.py:87-89 | text without a comma is unchanged |
| Sanitizer.StripControl | sdg_core.py:136-137 | no character below 0x20 and no 0x7F is left, and nothing is added |
| Sanitizer.StripControlKeepsOthers | sdg_core.py:136-137 | a character is in the result exactly when it is in the text and is not a control character |
| Sanitizer.StripControlAppend | sdg_core.py:136-137 | stripping a concatenation strips each part, so the kept characters stay in their order |
| Sanitizer.StripControlIdempotent | llm_utils.py:91-92 | a second pass changes nothing |
| Sanitizer.StripControlOfClean | llm_utils.py:91-92 | text without control characters is unchanged |
| Sanitizer.QuoteAddsOnlyQuotes | sdg_core.py:139-140 | the only character the bare-key repair adds is `"` |
| Sanitizer.QuoteBareKeysRewritesMatch | sdg_core.py:139-140 | where `{` or `,`, optional whitespace, an identifier, optional whitespace and `:` match, the text becomes the separator, the quoted key and `:` |
| Sanitizer.QuoteBareKeysWithoutSeparators | llm_utils.py:94-95 | text without `{` or `,` is unchanged |
| Sanitizer.SingleToDouble | sdg_core.py:142-143 | every `'` becomes `"` and every other character is kept in place |
| Sanitizer.SingleToDoubleLeavesNoSingleQuote | llm_utils.py:97-98 | no `'` is left |
| Sanitizer.MergeAddsOnlySpace | sdg_core.py:145-146 | the unescaped-quote repair adds no character other than a space |
| Sanitizer.MergeRewritesMatch | sdg_core.py:145-146 | where `:`, whitespace and three quotes match, the two groups are joined into one quoted value after `: ` |
| Sanitizer.MergeJoinsAdjacentFields | sdg_core.py:146 | the repair also fires across two well-formed fields: `{"a": "x", "b"…` loses the quote closing `x` |
| Sanitizer.MergeCopiesColonFree | sdg_core.py:146 | text before the first colon is copied unchanged |
| Sanitizer.Tighten | sdg_core.py:148-150 | removing the whitespace between `"` and `:` (or `:` and `"`) never lengthens the text |
| Sanitizer.TightenRemovesSpace | sdg_core.py:148-150 | at a match, the first character, the whitespace after it and the second character become the two characters alone, and the scan goes on after them |
| Sanitizer.TightenAddsNothing | sdg_core.py:148-150 | the colon tightening adds no character |
| Sanitizer.TightenKeepsNonSpace | sdg_core.py:148-150 | only whitespace is removed: the characters that are not whitespace stay, in order |
| Sanitizer.FallbackFilter | sdg_core.py:159-160 | only `{}[]",:`, digits and whitespace are kept |
| Sanitizer.FallbackOnlyKeepsJsonPunctuation | llm_utils.py:105-106 | the filter keeps exactly the characters of that class, no others and none fewer |
| Sanitizer.CommonRepairsParseReady | llm_utils.py:81-98 | the text given to the first parse has no control character and no `'` |
| Sanitizer.ExtendedRepairsParseReady | sdg_core.py:126-150 | the same holds after the three further repairs |
| Sanitizer.FirstIndex | llm_utils.py:72 | the first occurrence of a character, or None exactly when it is absent |
| Sanitizer.LastIndex | sdg_core.py:127 | the last occurrence of a character, or None exactly when it is absent |
| LlmUtils.ParseModelSpec | llm_utils.py:67-73 | raises exactly when there is no `:`, with the format message; an accepted source has no `:` and both halves are stripped |
| LlmUtils.ParseModelSpecSplits | llm_utils.py:67-73 | a colon-free source, `:` and any rest parse to the stripped source and the stripped rest |
| LlmUtils.ParseModelSpecOfJoined | llm_utils.py:72-73 | `api:model` with a colon-free, stripped api and a stripped model parses back to the pair (a consequence of `ParseModelSpecSplits`) |
| LlmUtils.ParseModelSpecKeepsLaterColons | llm_utils.py:72 | `"a::b"` gives `("a", ":b")` |
| LlmUtils.CleanJsonResponse | llm_utils.py:76-79 | a non-string gives `{}` |
| LlmUtils.CleanJsonResponseParses | llm_utils.py:100-109 | no decode error escapes: the result is `{}` or what the parser returned on a control-free, `'`-free text or on a text of JSON punctuation only; the first parse wins when it succeeds |
| SdgCore.CleanJsonResponse | sdg_core.py:123-124 | a non-string gives `{}` |
| SdgCore.CleanJsonResponseParses | sdg_core.py:152-163 | the same guarantee for the fuller cleaner |
| PyBuiltins.TailIsLastEntries | agents.py:85-86 | for n > 0 the history window is the last min(n, length) entries, in order |
| PyBuiltins.TailZeroIsWhole | utils/agents.py:83 | a window of 0 (`xs[-0:]`) is the whole log |
| PyBuiltins.Strip | llm_utils.py:73 | `str.strip`: removes leading and trailing whitespace only |
| PyBuiltins.SplitJoin | sdg_core.py:476 | splitting a `,`-join of comma-free names gives back the names |
| PyBuiltins.JoinSplit | sdg_core.py:724 | joining the pieces of a split gives back the text |
| PyBuiltins.StripOfLower | sdg_core.py:576 | lower-casing and stripping commute |
| AgentBase.Clamp | agents.py:48 | the bid is in [0, 1], unchanged inside it, 0 below and 1 above |
| AgentBase.Inert | agents.py:35-37 | bid 0.0, msg `""`, to `"ALL"` |
| AgentBase.FromLlmResponse | utils/agents.py:33-53 | a non-dict gives the inert "Invalid response format" submission; on a dict the bid is in [0, 1], a missing msg/reason is `""`, a missing to is `"ALL"`, and it raises exactly when `float()` raises on the bid |
| AgentBase.FromLlmResponseOfDump | agents.py:40-50 | validating a dumped submission gives it back |
| AgentBase.DecisionValid | agents.py:88-103 | a decision has a bid in [0, 1] and is the inert fallback or the validated reply of one call |
| AgentBase.DecisionWhenAllThrow | agents.py:94-102 | when every call raises, the decision is the inert fallback after max_retries attempts |
| AgentBase.DecisionFirstReply | agents.py:90-92 | a first reply that validates is the decision, after one attempt |
| Retry.RunRetry | agents.py:88-103 | the loop returns what `Retried` specifies after `AttemptsFrom` attempts |
| Retry.AttemptsBounded | sdg_core.py:235 | at most max_retries attempts, and at least one when max_retries >= 1 |
| Retry.RetriedNone | sdg_core.py:235 | the loop falls off its end exactly when max_retries <= 0 |
| Retry.RetryFromSome | sdg_core.py:235-256 | from any attempt below the limit the loop returns a value |
| Retry.RetriedFirstSuccess | sdg_core.py:237-243 | the first success decides the result when every earlier attempt failed |
| Retry.RetriedExhausted | sdg_core.py:245-254 | when every attempt fails, the result is the last attempt's fallback |
| Retry.RetriedCases | sdg_core.py:235-256 | every result is a first success after failures, or the last fallback after max_retries failures |
| Arbitration.RecipientList | sdg_core.py:476 | one stripped, comma-free name per `,`-piece of the text, in order |
| Arbitration.NormaliseTo | sdg_core.py:472-478 | `"ALL"` gives `["ALL"]`; another string gives its stripped pieces; a list is kept; anything else gives `["ALL"]` |
| Arbitration.NormaliseToOfJoined | sdg_core.py:472-478 | a recipient list written `"P1,P2"` comes back as that list, `"ALL"` included |
| Arbitration.RecipientListOfAll | sdg_core.py:476 | the pieces of `"ALL"` are `["ALL"]`, the same list the `"ALL"` branch gives |
| Arbitration.Normalise | sdg_core.py:470-479 | the entry is normalised; only `to` changes and no key is added or lost |
| Arbitration.NormalisedMessages | sdg_core.py:469-479 | every kept entry is normalised and none is added |
| Arbitration.NormalisedMessagesAppend | sdg_core.py:469-479 | filtering distributes over concatenation, so survivors keep their order |
| Arbitration.NormalisedMessagesAround | sdg_core.py:469-479 | a malformed entry is dropped and a well-formed one kept, wherever it stands |
| Arbitration.NormalisedMessagesOfNormalised | sdg_core.py:469-479 | already normalised entries pass through unchanged |
| Arbitration.ValidMessages | sdg_core.py:468-483 | the loop builds exactly the normalised, well-formed entries in order |
| Arbitration.Validated | sdg_core.py:459-489 | `selected_messages` is the normalised list (`[]` when missing or not a list); `reason` defaults to "No reason provided" and `winner` to None; every other key is kept |
| Arbitration.ValidatedIdempotent | sdg_core.py:459-489 | validating a validated reply changes nothing |
| Arbitration.Validate | sdg_core.py:459-489 | the in-place updates give the validated reply |
| Arbitration.Fallback | sdg_core.py:455 | no selected message, and the given reason |
| Arbitration.ArbitrationUsable | sdg_core.py:441-494 | every arbitration result is a dict whose `selected_messages` is a list of normalised entries and which has a `reason`; it is what one attempt made of its call, the validated reply or the fallback |
| Arbitration.ArbitrationExhausted | sdg_core.py:452-456 | after max_retries failures the result selects nothing and carries the last failure's reason |
| SdgCore.FromLlmResponse | sdg_core.py:172-192 | a clamped bid; a non-string non-dict gives "Invalid response format"; a string that cleans to `{}` gives the inert submission |
| SdgCore.Decide | sdg_core.py:230-256 | at most 3 attempts on the last 30 entries; the bid is in [0, 1]; when every call raises, the inert "Error in response generation after 3 attempts" submission after 3 attempts |
| SdgCore.ProcessTurnWithAllSubmissions | sdg_core.py:413-495 | the result is the retry result and is usable; after three failed attempts it selects nothing |
| SdgCore.ProcessGameState | sdg_core.py:497-534 | a dict with a `reason`; without `winner` it holds only `reason` (a fallback) |
| SdgCore.ParseModelSpec | sdg_core.py:555-585 | no `:` raises the format error; an accepted source is `openai` or `openrouter`, and an accepted model name is non-empty and stripped |
| SdgCore.ParseModelSpecOfJoined | sdg_core.py:570-585 | a supported source and a non-empty stripped model name round-trip |
| SdgCore.ParseModelSpecRefinesLax | sdg_core.py:566-585 | accepts exactly what the lax parser accepts with a supported lower-cased source and a non-empty model, giving the same pair lower-cased |
| SdgCore.Broadcast | sdg_core.py:716-717 | every player's log gains the entry and no key changes |
| SdgCore.DmEntries | sdg_core.py:722-723 | one `dm_log` entry per recipient |
| SdgCore.ToRecipients | sdg_core.py:730-732 | the set of players is unchanged |
| SdgCore.ToRecipientsAppends | sdg_core.py:730-732 | a player's log gains the DM once per time it is named |
| SdgCore.DmVisibility | sdg_core.py:720-734 | a DM reaches the sender (if a player) with all recipients, each named player under its own name, the GM, and `dm_log` once per recipient; no other log changes |
| SdgCore.DmPrivacy | sdg_core.py:720-734 | a player neither sending nor named sees nothing of a DM |
| SdgCore.DmToSelfLoggedTwice | sdg_core.py:727-732 | a sender naming itself gets two entries |
| SdgCore.BroadcastVisibility | sdg_core.py:711-718 | a public message reaches every player and the GM once, adds `speaker: text` to `public_log` and leaves `dm_log` alone |
| SdgCore.Game.constructor | sdg_core.py:646-662 | every player starts with an empty memory, as do the GM and both logs |
| SdgCore.Game.AppendToAll | sdg_core.py:716-717 | every player's log gains the entry |
| SdgCore.Game.LogDms | sdg_core.py:722-723 | `dm_log` gains one entry per recipient |
| SdgCore.Game.AppendToRecipients | sdg_core.py:730-732 | the recipient loop gives `ToRecipients` |
| SdgCore.Game.Deliver | sdg_core.py:701-734 | the new logs are `Delivered` of the old ones: an empty message is skipped, a public one is broadcast, a DM is scoped, and a non-string message, non-string recipient or unhashable speaker raises |
| SdgCore.ParallelBidding | sdg_core.py:537-553 | one decision per player, in order, each with a bid in [0, 1]: the turn's `Bids` |
| SdgCore.TurnReplyUsable | sdg_core.py:684-699 | the arbiter's reply to a turn's bids is usable by the delivery loop |
| SdgCore.Delivered | sdg_core.py:701-734 | delivering one message adds and removes no player |
| SdgCore.DeliveredAll | sdg_core.py:699-745 | delivering a turn's messages adds and removes no player |
| SdgCore.Game.DeliverAll | sdg_core.py:699-745 | the new logs are those of delivering each selected message in order, up to the first that raises |
| SdgCore.Play | sdg_core.py:668-745 | a game run from any state adds and removes no player |
| SdgCore.Start | sdg_core.py:646-662 | a new game has a memory for every player |
| SdgCore.PlayShape | sdg_core.py:668-777 | whatever the replies: a successful result is `Finished` after at most `max_turns` turns, all of them when no winner was declared; a failure is `Aborted` at a turn that ran |
| SdgCore.PlayWithSilentArbiter | sdg_core.py:668-745 | when every arbiter call raises, all `max_turns` turns run, the game succeeds without a winner, and no log changes |
| SdgCore.Finished | sdg_core.py:748-777 | `max_turns_reached` iff turn >= max_turns; completed iff a winner was set and the limit was not reached |
| SdgCore.Aborted | sdg_core.py:849-856 | failure: no winner, not completed, the turn reached |
| SdgCore.WinnerOnLastTurnNotCompleted | sdg_core.py:748-749 | a winner declared on exactly the last turn is not a completed game |
| SdgCore.RunGame | sdg_core.py:663-777 | the result and every log are those of `Play` from a new game: each turn the players bid on their own memories, the arbiter replies, the selected messages are delivered, and the loop ends at a delivery that raises (`Aborted`), at the first reply whose `winner` is not None, or after `max_turns` turns (`Finished` with that turn and winner); the summary facts of `PlayShape` |
| Agents.FromLlmResponse | agents.py:30-50 | a clamped bid; a non-string non-dict gives "Invalid response format"; a string that cleans to `{}` gives the inert submission |
| Agents.Decide | agents.py:83-103 | at most `MAX_RETRIES` = 3 attempts on the last `MAX_HISTORY_TURNS` = 30 entries; the inert "Error after 3 attempts" submission when every call raises |
| Agents.ProcessTurnWithAllSubmissions | agents.py:176-244 | a usable result; nothing selected after three failed attempts |
| UtilsAgents.BidAsWritten | utils/agents.py:85-100 | the bid as written: the first validated reply, or the `AttributeError` of line 92 |
| UtilsAgents.BidAsWrittenAgrees | utils/agents.py:85-92 | the written bid succeeds exactly when the first attempt does, and then agrees with the corrected one |
| UtilsAgents.BidAsWrittenRaisesOnFailure | utils/agents.py:91-92 | when the model raises on every call, the written bid raises while the corrected one returns the inert submission |
| UtilsAgents.Bid | utils/agents.py:80-99 | corrected bid: at most 3 attempts on the last 100 entries; bid in [0, 1]; inert "Error after 3 attempts" when every call raises (line 100 is under Left out) |
| UtilsAgents.Unwrapped | utils/agents.py:122-127 | the submissions in order, when none is an exception |
| UtilsAgents.AnnouncementUsable | utils/agents.py:115-183 | `announce` raises exactly when a gathered submission is an exception; otherwise its result is usable and selects nothing after three failed attempts |
| UtilsAgents.Announce | utils/agents.py:115-183 | the method returns `Announcement` |
| GameCore.ParallelBidding | game_core.py:21-37 | raises the executor's `ValueError` exactly when there are no players (`max_workers=0`); otherwise one decision per player name, in order, each bid in [0, 1] |
| GameCore.RecipientsText | game_core.py:115 | the `,`-join of a list `to`, `str(to)` otherwise; raises exactly on a list with a non-string item |
| GameCore.RecipientsTextOfNormalised | game_core.py:115 | the recipient text of a normalised `to` splits back into the arbiter's recipients; a public one is `"ALL"` |
| GameCore.NonSystem | game_core.py:142 | counts at most every entry, and all of them exactly when none is sent by `"SYSTEM"` |
| GameCore.Summarise | game_core.py:130-145 | completed iff the winner is not None (even a falsy one), and `max_turns_reached` is its negation |
| GameCore.Table.constructor | game_core.py:83-88 | every memory starts empty |
| GameCore.Table.Record | game_core.py:119-121 | the same tuple goes to every player's log and to the GM's |
| GameCore.Execute | game_core.py:109-121 | records the message with its recipient text, or raises and changes nothing |
| GameCore.ExecuteAll | game_core.py:108-121 | the GM's memory becomes that of recording each selected message in order, up to the first whose `join` raises; every player's memory stays equal to it |
| GameCore.TurnReplyUsable | game_core.py:101-108 | the arbiter's reply to a turn's bids is usable by the recording loop |
| GameCore.PlayShape | game_core.py:97-145 | whatever the replies: a summary is `Summarise` of its last turn and final memory, after at most `max_turns` turns, and one that ended early had a truthy winner; with no players the first turn fails with the executor's error and nothing is recorded, and otherwise a failure is the `join` error |
| GameCore.SilentTurn | game_core.py:105-108 | when every arbiter call raises, the turn's reply selects no message and has no `winner` |
| GameCore.PlayWithSilentArbiter | game_core.py:97-145 | when every arbiter call raises and there are players, every turn up to `max_turns` runs, nothing is recorded, and the game is not completed; with no players the executor's error |
| GameCore.RunGame | game_core.py:97-160 | the result and the memory are those of `Played`: each turn the players bid on the shared memory, the arbiter replies, its selected messages are recorded, and the loop stops at a `join` that raises, after the first reply whose `winner` is truthy, or after turn `max_turns`, with that turn and winner in the summary; every player's memory equals the GM's; `max_turns < 1` fails with the unbound `turn`, and no players with `max_turns >= 1` fails with the executor's `ValueError` |
| SdgArena.ParallelBidding | sdg_arena.py:18-23 | one result per name, in order, none an exception |
| SdgArena.AsWrittenSubmissions | sdg_arena.py:18-23 | the gathered results when every player bids as written |
| SdgArena.AsWrittenBidsAnnouncement | sdg_arena.py:83-86 | with the bid as written, `announce` raises exactly when some player's first attempt fails |
| SdgArena.Submissions | sdg_arena.py:18-23 | a turn's corrected bids contain no exception |
| SdgArena.TurnReplyUsable | sdg_arena.py:82-89 | the game master's reply to a turn's bids is usable by the recording loop |
| SdgArena.PlayShape | sdg_arena.py:78-126 | whatever the replies: a summary is `Summarise` of its last turn and final memory, after at most `max_turns` turns, and one that ended early had a truthy winner |
| SdgArena.SilentTurn | sdg_arena.py:86-89 | when every game master call raises, the turn's reply selects no message and has no `winner` |
| SdgArena.PlayWithSilentMaster | sdg_arena.py:78-126 | when every game master call raises, every turn up to `max_turns` runs, nothing is recorded, and the game is not completed |
| SdgArena.RunGame | sdg_arena.py:78-141 | the result and the memory are those of `Played`: as in game_core.py, with `announce` as the reply, stopping after the first truthy `winner` or after turn `max_turns`; every player's memory equals the GM's |

## Left out

- Language-model client construction (`create_llm`) and environment lookups: foreign calls.
- The LangChain prompt templates and prompt texts, and the rendering of the history window
  into text. A chain receives the history window as entries. The turn number in the prompt
  values only tells calls on different turns apart.
- Concurrency: the `asyncio.gather` and `ThreadPoolExecutor` calls of `parallel_bidding` run
  the players' calls one after another. The calls share no state, so only the order of side
  effects is lost. The executor's refusal of zero workers (game_core.py:23 with no players) is
  modelled.
- Sleeps between attempts: they have no effect on the result.
- All file and console I/O: logger events, the summary JSON writes, rules-file reading and
  argument parsing. The loop functions model only the values `run_game` returns.
- `run_game`'s early failures before the loop (rules file missing, model specification
  invalid, client creation failing): they are parser or I/O outcomes. The parsers are
  modelled on their own.
- Regular-expression and `json.loads` semantics in general: each rewrite is written directly
  as a scan on sequences, and the parser is a parameter.
- `float()` on strings, NaN and infinity: the bid is a `real`, and `float(str)` is a
  parameter.
- `str.lower()` beyond ASCII letters: non-ASCII case mappings are not modelled.
- Exception messages: their texts are placeholders. Only which path raises is modelled.
- Player names are a list of distinct strings. Python's dict insertion order is that list's
  order.
- GameCore.ParallelBidding: the `except` branch of game_core.py:33-35 (the "Error" default) is
  not modelled. `decide` catches every exception inside its loop, so `future.result()` cannot
  raise there.
- SdgArena.RunGame: uses the corrected bid. The as-written bid is modelled by
  `UtilsAgents.BidAsWritten`, and its effect on a turn by `SdgArena.AsWrittenBidsAnnouncement`.
- Sanitizer.QuoteAddsOnlyQuotes: the bare-key repair is stated by what it does at a match and by
  the characters it may add, not by a full characterisation of the text.
- Sanitizer.MergeAddsOnlySpace: the unescaped-quote repair is stated the same way as the
  bare-key repair.
- Sanitizer.Tighten: its own contract is only the length bound. What it does at a match is
  `TightenRemovesSpace`, and that only whitespace goes is `TightenKeepsNonSpace`.
- UtilsAgents.Bid: leaves out the extra model call of utils/agents.py:100 after each failed
  attempt but the last. Its reply is discarded, and an exception it raises would escape the
  `except` handler and end the bid. The corrected bid takes attempt j from call j, as if that
  line were the pause between attempts.
- Sanitizer.DropCommaBefore: does not claim that all trailing commas are removed. The step is
  a single pass, as `DropCommaSinglePass` shows.

## Findings

| source | as written | input that shows it | evidently intended | confidence | as-written member | corrected member |
|---|---|---|---|---|---|---|
| utils/agents.py:92 | `Agent.__init__` (lines 58-62) never sets `self.name`, so the warning in the `except` branch of `Player.bid` raises `AttributeError`. The first failed attempt ends the bid with an exception, and no retry or inert default is ever reached. In sdg_arena.py the exception is gathered as a submission, and `announce` then raises on it, which ends the game. | a player chain whose first call raises | up to three attempts, then the inert submission "Error after 3 attempts" | not executed | UtilsAgents.BidAsWritten (shown by UtilsAgents.BidAsWrittenRaisesOnFailure) | UtilsAgents.Bid (proved by UtilsAgents.BidAsWrittenRaisesOnFailure and AgentBase.DecisionWhenAllThrow) |
