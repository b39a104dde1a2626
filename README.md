# Slack bot relay, modelled in Dafny

`slackbot.py` listens to Slack message events. It decides whether to answer an
event. When it does, it forwards the message to a Langflow flow as a JSON
payload, together with the rendered thread history.

This project models the decision and payload logic of the `SlackBot` class:

- the user-info cache and name lookup;
- the translation of `<@U…>` mention tokens into `@Name`;
- the thread scan that tells whether the bot has already replied in a thread;
- the transcript built from a thread;
- the engagement policy of `on_message`;
- the choice of payload fields, or of the error report, in `respond_to_message`.

Slack and Langflow are not called. Their answers are inputs:

- a fixed directory `users: string -> Result<UserInfo>` stands for `users.info`;
- `replies` stands for `conversations.replies`;
- `post` is the exception the Langflow POST raises, if any.

A Python exception is an `Err` value. Every value is immutable except the
`SlackBot` object. Its cache `user_id_to_info_cache` is a `map` field that the
methods update. It also has a ghost log `Fetched` of the user ids asked of
`users.info`.

The modules follow the code:

- `SlackData` (data.dfy) holds the records: events, messages, profiles,
  payloads and outcomes.
- `Text` (text.dfy) models Python's `in` and `str.replace`.
- `Mentions` (mentions.dfy) models `re.findall(r"<@(U[A-Z0-9]+)>", text)`.
- `Identity` (identity.dfy) gives the cache lookups as functions of the cache.
- `Translation` (translation.dfy) gives `translate_mentions_to_names` as a function.
- `History` (history.dfy) covers the thread scan and `process_thread_history`.
- `Policy` (policy.dfy) covers `respond_to_message` and `on_message` as functions.
- `Bot` (slackbot.dfy) is the `SlackBot` class. Each of its methods is proved
  to compute what the function of the same step says, and to leave the cache
  and the call log as that function says.

Every cache entry is what the directory answers for its key. This invariant
is `Valid()`, which is `Coherent(users, cache)`. Because it holds, the bot's
answers do not depend on what happens to be cached.

Where the code and its usual description disagree, the model follows the code:

- A failed name lookup during translation raises. Mentions are not
  translated on a best-effort basis. Inside `respond_to_message` the
  exception becomes the posted error report.
- A message that starts a thread gets "" as its payload's `thread_history`,
  not the "No thread history found" sentinel. No replies were fetched, so
  `process_thread_history` is not called (slackbot.py:84-87).
- A failing `conversations.replies` call is not treated as an empty history.
  It raises before the `try` of `on_message`, so the event escapes the handler.
- The thread scan runs before the own-message and subtype checks. A scan
  failure therefore surfaces even for the bot's own messages.

## Model

| member | source | states |
|---|---|---|
| Identity.Lookup | slackbot.py:43-52 | A hit answers the cached info and makes no call. A miss calls `users.info` once, for that id, and stores a successful answer under that id only. An exception leaves the cache as it was. Old entries never change, and a coherent cache stays coherent and answers what the directory says. |
| Identity.LookupTwice | slackbot.py:43-52 | A second lookup of an id the first one found is a hit: same answer, no call, no cache change. |
| Identity.NameLookup | slackbot.py:54-58 | The name lookup changes the cache and makes calls exactly as the info lookup does. A success leaves the id cached. From a coherent cache it answers the directory's own `profile['real_name']`: a missing key raises, and a null is `None`. |
| Bot.SlackBot.constructor | slackbot.py:26-31 | The bot starts with an empty cache, a coherent state and no call made. |
| Bot.SlackBot.GetUserInfoForUserId | slackbot.py:43-52 | On a hit the method returns the cached info and changes nothing. On a miss it makes exactly one call, for that id, and caches only a successful answer. The new cache and calls are those `Identity.Lookup` gives, and the cache stays coherent. |
| Bot.SlackBot.GetUsernameForUserId | slackbot.py:54-58 | Returns the directory's name for the id, whatever the cache held. The new cache and calls are those of `Identity.NameLookup`. |
| Text.ReplaceAbsent | slackbot.py:68 | `str.replace` leaves a text in which the pattern does not occur unchanged. |
| Text.ReplaceIsJoinOfSplit | slackbot.py:68 | `s.replace(p, r)` equals `r.join(s.split(p))`: every non-overlapping occurrence, found left to right, is replaced. |
| Mentions.MatchAt | slackbot.py:63 | A match of the pattern at position i yields an id of the form `U[A-Z0-9]+`, and that id's token `<@id>` occurs at i. |
| Mentions.MatchAtComplete | slackbot.py:63 | Conversely, the token of any valid id occurring at i is matched there, with that id. |
| Mentions.NoOverlap | slackbot.py:63 | Two mention tokens never overlap, so a left-to-right scan cannot skip one. |
| Mentions.FoundIff | slackbot.py:63 | An id is among `re.findall`'s captures exactly when it is valid and its token occurs in the text. |
| Mentions.NoMatchesIff | slackbot.py:63 | The captures are empty exactly when the text holds no mention token. |
| Mentions.TokensApart | slackbot.py:63 | A valid id's token never overlaps `<@x>`, where `x` is a text without angle brackets that the pattern does not capture. |
| Text.ReplaceKeepsOccurrence | slackbot.py:68 | `str.replace` keeps any occurrence of a text that no occurrence of the pattern overlaps. |
| Translation.TranslateFrom | slackbot.py:64-68 | The translation loop keeps a coherent cache coherent. |
| Translation.TranslateFromCalls | slackbot.py:64-68 | The loop never changes a cached entry. It asks `users.info` only about matched ids that were not cached, each at most once. When it succeeds, every matched id is cached. |
| Translation.TranslateCalls | slackbot.py:63-66 | Translating a text looks up only valid, uncached ids, each once. An id that does not fit `U[A-Z0-9]+` is never looked up. |
| Translation.ResolveKeepsToken | slackbot.py:65-68 | Replacing one matched token keeps every `<@x>` token the pattern does not capture. |
| Translation.TranslateFromKeepsToken | slackbot.py:64-68 | The loop keeps such a token through every resolution. |
| Translation.NonMatchingTokenKept | slackbot.py:63-68 | A token the pattern does not capture, such as `<@u1>` or `<@W1>`, is still in the text after a successful translation, whatever the users' names are. |
| Translation.MentionFreeUnchanged | slackbot.py:60-70 | A text without any mention token comes back unchanged, with no call and no cache change. |
| Translation.TranslateFromTransparent | slackbot.py:64-68 | Two coherent caches give the loop the same result. |
| Translation.TranslateTransparent | slackbot.py:60-70 | From a coherent cache, translation answers what the directory alone determines. |
| Translation.ResolvedTokensGone | slackbot.py:64-68 | If every resolved name is safe, no token of an id that resolved to a name is left after the loop. |
| Translation.TranslatedTextHasNoResolvedToken | slackbot.py:60-70 | The same guarantee for a whole translation: replace-all leaves no token of a valid id, present in the text, whose name resolved. |
| Bot.SlackBot.TranslateMentionsToNames | slackbot.py:60-70 | Returns the cache-free translation `TranslateText`. Cache and calls follow `Translation.Translate`, and the cache stays coherent. |
| History.DropLast | slackbot.py:116 | `xs[:-1]` is a prefix one element shorter, or empty for an empty list. |
| History.ScanRepliesIff | slackbot.py:117-120 | The scan reports the bot exactly when one of its messages comes before any message without an author. It raises `KeyError('user')` exactly when an authorless message comes first. |
| History.AuthoredScan | slackbot.py:117-120 | When every message has an author, the scan answers whether any message is the bot's. |
| History.ThreadStartFetchesNothing | slackbot.py:112-113 | For the first message of a thread, the answer is no history and not responded, whatever the replies would have been. |
| History.RespondedIff | slackbot.py:111-121 | For a later message whose replies all have authors, the bot has responded exactly when some reply other than the last is its own. The fetched replies are returned whole. |
| Bot.SlackBot.GetThreadHistoryAndBotResponse | slackbot.py:111-121 | The short-circuiting loop computes `History.ScanThread`. |
| History.FormatEach | slackbot.py:127-135 | The reference transcript succeeds exactly when every message formats. Then it has one entry per message, in order. Each entry holds the message's translated text and is labelled `bot` for the bot's messages, otherwise the author's name (`None` prints as "None"). |
| History.FormatFrom | slackbot.py:127-135 | The transcript loop keeps a coherent cache coherent. |
| History.FormatFromIsFormatEach | slackbot.py:127-135 | From a coherent cache, the loop builds exactly the reference transcript. |
| History.FormatHistoryShape | slackbot.py:123-135 | From a coherent cache, `process_thread_history` gives the reference transcript of all replies but the last. It has one entry per formatted reply. |
| History.Lines | slackbot.py:137 | One `"speaker: text"` line per entry, in order. |
| History.HistoryText | slackbot.py:136-137 | The rendering is the sentinel "No thread history found" exactly when the transcript is empty. It is never "". |
| History.HistoryTextAppend | slackbot.py:137 | Each further entry adds a newline and its line at the end, so the transcript's order is kept. |
| Bot.SlackBot.ProcessThreadHistory | slackbot.py:123-138 | The loop's result, new cache and calls are those of `History.FormatHistory`, and the cache stays coherent. |
| Policy.ErrorReport | slackbot.py:107 | The error text is the `:exclamation:` prefix followed by the exception's text. |
| Policy.HistoryField | slackbot.py:84-87 | Without fetched replies the history field is "" and nothing is looked up. With them it is never "". From a coherent cache it is the rendered reference transcript, and it raises exactly when that transcript does. |
| Policy.RespondFacts | slackbot.py:80-109 | Responding never raises. It forwards the payload, or it posts the error report, which starts with the prefix, to the message's channel and thread (slackbot.py:109). A failed POST always posts the report. In a forwarded payload the history is "" exactly when no replies were fetched, and files, token, channel and thread are passed through. From a coherent cache the text is the translated message and the history is the rendered transcript. |
| Policy.RespondOutcome | slackbot.py:80-109 | From a coherent cache, responding forwards exactly when the translation, the history rendering (when replies were fetched) and the POST all succeed. It then forwards the payload of the translated text, the rendered transcript (or "" without replies), the files, token, channel and thread. Otherwise it posts, to the message's channel and thread, `ErrorReport` of the first exception met (translation, else history, else POST), as `Policy.RespondError` names it. |
| Bot.SlackBot.RespondToMessage | slackbot.py:80-109 | The outcome, new cache and calls are those of `Policy.Respond`, and the cache stays coherent. |
| Policy.DecideIff | slackbot.py:158-168 | The bot engages exactly when the message is not its own, its subtype is absent, empty, `message` or `file_share`, and it is a direct message, mentions the bot, or is in a thread the bot has replied in. |
| Policy.Handle | slackbot.py:140-170 | A message without text raises the `TypeError` of `in None` before anything is looked up or fetched. Handling keeps a coherent cache coherent. |
| Policy.OwnMessageNeverAnswered | slackbot.py:158-160 | The bot's own message is ignored as such (or the scan raises), whatever its channel or mentions. No user is looked up and the cache is unchanged. |
| Policy.FilteredSubtypeNeverAnswered | slackbot.py:162-165 | Another user's message with a filtered subtype is ignored as such (or the scan raises), with no lookup. |
| Policy.AnsweredIff | slackbot.py:150-170 | Once the text is present and the scan succeeds, the event is answered (forwarded, or an error posted) exactly when the bot engages, and ignored otherwise. |
| Policy.ForwardedIff | slackbot.py:140-170 | From a coherent cache, an event is forwarded exactly when it has text, the thread scan succeeds, the bot engages, and nothing fails while responding. |
| Policy.UnthreadedMessage | slackbot.py:143 | A message outside a thread never depends on the replies. Its forwarded payload has "" as history and its own timestamp as thread. |
| Policy.DirectMessageAnswered | slackbot.py:168-170 | A direct message from another user, with text and no subtype, is always answered once the scan succeeds. |
| Policy.ForwardedPayload | slackbot.py:85-92 | A forwarded payload means the POST succeeded. It carries the translated text, the event's thread, channel, files and the token. Its history is "" exactly for the first message of a thread, and otherwise the rendering of the replies before the message. |
| Policy.ScenarioMentions | slackbot.py:63 | The only capture in "Hi <@U1>" is `U1`. |
| Policy.ScenarioReplace | slackbot.py:68 | Replacing `<@U1>` by `@Alice` in "Hi <@U1>" gives "Hi @Alice". |
| Policy.ScenarioTranslate | slackbot.py:60-70 | With U1 named Alice, translating "Hi <@U1>" from an empty cache looks U1 up once, caches it, and gives "Hi @Alice". |
| Policy.DirectMessageScenario | slackbot.py:140-170 | Take a direct message "Hi <@U1>" from U2 with timestamp 100 and no thread. It is forwarded with "Hi @Alice", an empty history, thread 100 and the given channel and token. U1 is looked up once. |
| Bot.SlackBot.OnMessage | slackbot.py:140-170 | The bot's own message is never answered. The result, new cache and calls are those of `Policy.Handle`, and the cache stays coherent. |

## Left out

- The Slack and Langflow calls are not modelled as I/O. `users.info` is a fixed directory. `conversations.replies` and the POST outcome are inputs.
- The Langflow request itself is left out: the URL, headers, `json.dumps` of the envelope, and the response text.
- `FilesField` records the files list instead of its JSON encoding.
- `SlackApiError` text is a plain message in `ApiError`, not Python's full `str(e)`.
- The directory never changes, so a stale cached profile is not modelled.
- `start`, `auth_test`, the socket-mode handler and `bot_user_name` are not modelled (slackbot.py:33-41). The bot id is a constructor argument.
- `on_member_joined_channel` and run.py are not part of this model.
- `confirm_message_received` is not modelled. The reaction it adds swallows its own failures and has no effect on the outcome.
- Logging and `print` are not modelled.
- The unused fields `threads_bot_is_participating_in` and `id_to_name_cache` are not modelled.
- Outcomes stop at posting the error report. A failing `chat_postMessage` inside `respond_to_message`'s handler is left out, and so is the outer `except` of `on_message` (slackbot.py:172-175) that would then post through `say`.
- `Event.ts` is always present, so a `KeyError` on `event['ts']` is not modelled.
- A JSON `null` is not modelled for a reply's `text` or for a profile. Either would raise `TypeError` (slackbot.py:63 via 129, and slackbot.py:57). Only a missing key is modelled, as `KeyError`.
- `process_thread_history` is modelled with `as_text=True` only as rendered text (`History.HistoryText`). Its list form is the `Entry` sequence.
- Concurrent handlers interleaving at `await` points are not modelled. Each event runs to completion.
- Translation.TranslatedTextHasNoResolvedToken: requires every resolved display name to be safe: not empty, no `<` or `>`, and not itself of the form `U[A-Z0-9]*`. A name such as `U2` placed after `@` could rebuild a token (`<@U2>` when the text continued `>`), and that case is excluded.
- Translation.TranslatedTextHasNoResolvedToken: the number of display-name occurrences in the result is not stated. Only the absence of the replaced tokens is.
- Bot.SlackBot.ProcessThreadHistory: its contract ties the method to `History.FormatHistory`. The shape of the transcript is stated by `History.FormatHistoryShape`.
