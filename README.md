# perplexity-2api-python core, modelled in Dafny

This project models the parts of the Perplexity-to-OpenAI proxy that hold the
logic, and proves what they promise.

- **Conversation manager.** This is the recency-ordered map from a client's
  conversation id to the upstream thread serving it. The model covers
  get-or-create, turn counting with rotation at `max_turns`,
  least-recently-used eviction at `max_conversations`, backend-id updates,
  reset and stats. `ConversationManager` is a class whose one field is the
  `OrderedDict`, written as a sequence of (id, session) pairs. Each method
  states its new state through the function `Resolve`, `WithBackend` or
  `Without`; the lemmas about those functions state the bookkeeping
  properties.
- **Stream translator.** This is `stream_generator`:
  - Decoded body chunks are appended to a buffer, and every complete line is
    cut off as soon as it has arrived.
  - Each `data: ` line is decoded into a cumulative text snapshot. The
    envelope decoder handles `answer`/`text` values shaped as step arrays,
    objects or plain strings, with fallbacks wherever Python raises.
  - The delta emitter sends only the new suffix of each snapshot.
  - Every exit path ends with a stop frame and `[DONE]`.
  - The loops (`TranslateStream`, `ReadBody`, `DrainBuffer`,
    `AccumulateSteps`, `DecodeEvent`) are methods proved equal to the
    functions `Translate`, `EmitAll`, `Snapshots`, `StepsText` and
    `Snapshot`. The stream properties are lemmas about those functions.
- **Initial cookies.** `Settings.get_initial_cookies_dict` parses the
  `PPLX_COOKIE` header into name/value/url records.
- **Configuration wizard.** This covers the recursive JSON walk that picks the
  longest cookie and the first user agent, the line scan, the PowerShell join,
  the order in which `process_text_content` tries its sources and cleans the
  result, and the `.env` rewrite in `write_to_env`. `ConfigWizard` keeps the
  two extracted fields.
- **Browser service.** This covers:
  - the cookie-cleaning loop of `initialize_session`;
  - the dotted key walk of `_get_session_value`;
  - the `;` split of `parse_cookie_string` and its fallback line scan;
  - the refresh throttle of `refresh_context`;
  - the two `.env` rewrites.

  `BrowserService` keeps `cached_cookies`, `cached_user_agent`,
  `last_refresh_time` and `refresh_interval`.

Modules and files:

| file | module | what it holds |
|---|---|---|
| wrappers.dfy | Wrappers | `Option` |
| text.dfy | Text | the Python string operations used: `strip`, `split`, `split(sep, 1)`, `splitlines`, `in`, `startswith`, `lower`, `replace`, `join` |
| dicts.dfy | Dicts | insertion-ordered dictionaries as pair sequences: `in`, `get`, `d[k] = v` |
| json.dfy | Json | JSON values after `json.loads`, and Python's `in`, `[]`, `.get`, `len`, iteration and `str` on them |
| cookies.dfy | Cookies | the `"; ".join(f"{k}={v}")` header and the line test both scanners use |
| env_file.dfy | EnvFile | the `.env` line rewrite shared by the wizard and the browser service |
| conversations.dfy | Conversations | `ConversationManager` |
| envelope.dfy | Envelope | the envelope decoder |
| stream.dfy | Stream | line framing, delta emitter, end framing, the streaming loop |
| settings.dfy | Settings | `get_initial_cookies_dict` |
| wizard.dfy | Wizard | `config_wizard.py` |
| browser.dfy | Browser | `browser_service.py` |

Where the program's documentation and its code differ, the model follows the code:

- **Non-200 reply.** The error is one chunk that carries both the status text
  and `finish_reason="stop"`, followed by `[DONE]`. It is not an error frame
  followed by a separate stop frame.
- **Exception while the body is being read.** The source gives one error
  chunk with `finish_reason="stop"`, then `[DONE]`. There is no no-content
  warning and no empty stop frame.
- **New conversation.** Eviction is a `while` loop over `len >= max_conversations`.
  With `max_conversations <= 0` it empties the map and `popitem` then raises
  `KeyError`.
- **Nested FINAL answer.** A nested answer that parses but has no `answer`
  key contributes nothing. An object-shaped value with neither `answer` nor
  usable `chunks` gives the empty snapshot. The raw-string fallback applies
  only where Python raises.

## Model

| member | source | states |
|---|---|---|
| Conversations.EffectiveId | app/providers/perplexity_provider.py:44-46 | a missing or empty id becomes `"default"`; a non-empty id is kept as given |
| Conversations.ConversationManager.constructor | app/providers/perplexity_provider.py:31-36 | the limits are stored and the map starts empty |
| Conversations.ConversationManager.GetOrCreateConversation | app/providers/perplexity_provider.py:38-103 | the new map and the report are those of `Resolve` on the defaulted id; ids stay distinct |
| Conversations.ConversationManager.GetOrCreateById | app/providers/perplexity_provider.py:51-103 | for an already defaulted id, the lookup, rotation, move to the end, eviction loop and append give the map and report of `Resolve` |
| Conversations.ConversationManager.UpdateBackendUuid | app/providers/perplexity_provider.py:105-110 | the new map is `WithBackend` of the old one; ids stay distinct |
| Conversations.ConversationManager.ResetConversation | app/providers/perplexity_provider.py:112-117 | the new map is `Without` of the old one; ids stay distinct |
| Conversations.ConversationManager.GetStats | app/providers/perplexity_provider.py:119-133 | the count and the limits, and for every conversation in recency order its turn count, thread prefix and backend flag |
| Conversations.EntryStats | app/providers/perplexity_provider.py:126-130 | turn count copied, backend flag set exactly when a backend id is held, thread prefix the first 8 characters of the thread id (all of a shorter one) followed by `...` |
| Conversations.RemoveAt | app/providers/perplexity_provider.py:73 | removing one entry keeps all the others in their order |
| Conversations.ResolveDistinct | app/providers/perplexity_provider.py:51-103 | every call keeps the conversation ids distinct |
| Conversations.ResolveBounded | app/providers/perplexity_provider.py:84-94 | with at least one slot, the map never grows past `max_conversations` |
| Conversations.ResolveAnswers | app/providers/perplexity_provider.py:51-103 | with at least one slot, every call answers and the id is then in the map |
| Conversations.ResolveNoCapacity | app/providers/perplexity_provider.py:84-85 | with no slot, an unknown id empties the map and the call raises |
| Conversations.NewConversation | app/providers/perplexity_provider.py:88-103 | an unknown id gets a new session at the end, reported as new, at turn 1, without a backend id |
| Conversations.EvictsLeastRecentlyUsed | app/providers/perplexity_provider.py:84-94 | at capacity exactly the first (least recently used) entry is evicted; below capacity none is |
| Conversations.RotationInPlace | app/providers/perplexity_provider.py:55-67 | at the turn limit the entry is replaced at its own position by a fresh thread with turn 0 and no backend id, reported as new |
| Conversations.ContinueMovesToEnd | app/providers/perplexity_provider.py:69-80 | below the limit the entry gains one turn, keeps its thread and backend id, and moves to the end; the report is not new |
| Conversations.ResolveOthersUnchanged | app/providers/perplexity_provider.py:51-103 | every other conversation that is kept keeps its session |
| Conversations.SourcePosition | app/providers/perplexity_provider.py:51-103 | every other entry after the call is an unchanged entry of the old map |
| Conversations.UpdateBackendEffect | app/providers/perplexity_provider.py:105-110 | only the named entry's backend id changes; keys and order are kept; an absent id changes nothing |
| Conversations.UpdateThenContinue | app/providers/perplexity_provider.py:69-80 | after an update, the next ordinary turn reports the new backend id |
| Conversations.ResetEffect | app/providers/perplexity_provider.py:112-117 | the id is gone, the other lookups are unchanged, and a second reset changes nothing |
| Conversations.ResetThenResolve | app/providers/perplexity_provider.py:112-117 | after a reset, the next call on the id opens a new conversation: reported as new at turn 1 on the fresh thread, and its entry, without a backend id, is last in the map |
| Conversations.RunContinues | app/providers/perplexity_provider.py:69-80 | successive calls below the limit keep the thread and count turns up by one each |
| Conversations.NewThenContinue | app/providers/perplexity_provider.py:82-103 | the first call on a fresh id opens a thread that the next calls keep, at turns 1, 2, ... |
| Conversations.TurnsThenRotation | app/providers/perplexity_provider.py:140 | on a fresh id, calls 1 to `max_turns` report turns 1 to `max_turns` on one thread, and the next call rotates to turn 0 on a new thread |
| Conversations.RunSplit | app/providers/perplexity_provider.py:38-103 | running calls in two batches is the same as running them in one |
| Conversations.ResolveRotates | app/providers/perplexity_provider.py:55-67 | at a known position at the turn limit, the outcome is the map with that entry rotated, reported as new at turn 0 |
| Conversations.ResolveContinues | app/providers/perplexity_provider.py:69-80 | at a known position below the limit, the outcome is the map without that entry plus the entry with one more turn at the end |
| Conversations.ResolveUnknown | app/providers/perplexity_provider.py:82-103 | for an unknown id: no slot empties the map and raises; otherwise the newest `max_conversations - 1` entries are kept and the new session appended |
| Conversations.RotatedThreadServesFullTurns | app/providers/perplexity_provider.py:55-80 | a rotated thread then serves turns 1 to `max_turns` before rotating again |
| Envelope.ClassifyStep | app/providers/perplexity_provider.py:286-287 | a step that is not a dict raises; `step_type` and `content` are read with their defaults |
| Envelope.QueryStrings | app/providers/perplexity_provider.py:290-291 | the query list exists exactly when every element has a string `query`, and it lists those strings in order |
| Envelope.AllStrings | app/providers/perplexity_provider.py:341-342 | `"".join` succeeds exactly when every chunk is a string |
| Envelope.DecodeObject | app/providers/perplexity_provider.py:311-314 | no snapshot exactly when the value parses and its inner answer is not text; a value that does not parse is the snapshot verbatim |
| Envelope.AccumulateSteps | app/providers/perplexity_provider.py:285-309 | the `+=` loop over the steps computes `StepsText` |
| Envelope.DecodeEvent | app/providers/perplexity_provider.py:278-346 | the decoder as the stream runs it computes `Snapshot` |
| Envelope.DecodeRaw | app/providers/perplexity_provider.py:283-318 | the shape test on the stripped value and its branches compute `DecodeValue` |
| Envelope.StepsTextRaisedStays | app/providers/perplexity_provider.py:285-309 | once a step raises, the whole array falls back |
| Envelope.StepsTextAppend | app/providers/perplexity_provider.py:285-309 | the text of `a + b` is the text of `a` followed by that of `b`, unless either raises |
| Envelope.Combine | app/providers/perplexity_provider.py:292 | the combined text exists exactly when both parts do |
| Envelope.CombineAssoc | app/providers/perplexity_provider.py:285-309 | combining step texts is associative |
| Envelope.StepsTextSingle | app/providers/perplexity_provider.py:285-309 | a one-step array decodes to that step's text |
| Envelope.StepsTextExtends | app/providers/perplexity_provider.py:285-309 | adding steps only extends the text: the earlier text is a prefix |
| Envelope.TextPathIgnoresSearchSteps | app/providers/perplexity_provider.py:325-336 | under `text`, search steps add nothing |
| Envelope.SearchWebRendering | app/providers/perplexity_provider.py:289-292 | SEARCH_WEB renders `> 🔍 Searching: ` plus the queries joined by `, ` plus two newlines |
| Envelope.SearchResultsRendering | app/providers/perplexity_provider.py:294-297 | SEARCH_RESULTS renders `> 📚 Found N sources` and two newlines for N > 0 results, and nothing for none |
| Envelope.FinalWithoutAnswer | app/providers/perplexity_provider.py:299-309 | a FINAL step without an answer appends `None` under `answer` and nothing under `text` |
| Envelope.NestedAnswerCases | app/providers/perplexity_provider.py:300-307 | the nested answer is the inner `answer` when present, nothing when absent, and the raw string when parsing fails |
| Envelope.PlainValueVerbatim | app/providers/perplexity_provider.py:315-316 | a value that opens with neither bracket is the snapshot verbatim |
| Envelope.UnparsableValueVerbatim | app/providers/perplexity_provider.py:317-318 | a value that does not parse is the snapshot verbatim |
| Envelope.DecodeValueTotal | app/providers/perplexity_provider.py:282-318 | decoding gives up only for an object-shaped value whose inner answer is not text |
| Envelope.ObjectShapedValue | app/providers/perplexity_provider.py:311-314 | a value opening with `{` after stripping is decoded as an object |
| Envelope.ObjectNonTextAnswer | app/providers/perplexity_provider.py:311-314 | an object-shaped value gives no snapshot exactly when it parses and its inner `answer` exists and is not a string |
| Envelope.ObjectUnparsable | app/providers/perplexity_provider.py:311-318 | an object-shaped value that does not parse is the snapshot verbatim |
| Envelope.ObjectInnerAnswer | app/providers/perplexity_provider.py:311-314 | a string inner `answer` is the snapshot, under either field |
| Envelope.ObjectNoAnswerUnderAnswer | app/providers/perplexity_provider.py:311-314 | under `answer`, a parsed dict without an inner `answer` gives the empty snapshot |
| Envelope.ObjectChunksUnderText | app/providers/perplexity_provider.py:337-342 | under `text`, a list of string `chunks` stands in for a missing inner `answer`, joined in order |
| Envelope.ObjectBadChunksUnderText | app/providers/perplexity_provider.py:337-346 | under `text`, `chunks` holding a non-string makes the join raise, and the raw value is the snapshot |
| Envelope.ObjectNeitherUnderText | app/providers/perplexity_provider.py:337-342 | under `text`, a parsed dict with neither `answer` nor `chunks` gives the empty snapshot |
| Envelope.AnswerBeforeText | app/providers/perplexity_provider.py:280-320 | an event holding both keys is decoded from `answer` alone |
| Envelope.PlainTextSnapshot | app/providers/perplexity_provider.py:320-344 | `{"text": raw}` carries `raw` itself when `raw` is trimmed and opens with neither bracket |
| Envelope.TrimmedPlainValue | app/providers/perplexity_provider.py:315-316 | a trimmed value opening with neither bracket decodes to itself |
| Envelope.TextOnlySnapshot | app/providers/perplexity_provider.py:320-346 | an event with just a string `text` carries what that value decodes to |
| Envelope.ArrayAnswerSnapshot | app/providers/perplexity_provider.py:283-309 | an array-shaped `answer` carries its steps' text, or the raw string if a step raises |
| Envelope.AnswerOnlySnapshot | app/providers/perplexity_provider.py:280-318 | an event with just a string `answer` carries what that value decodes to |
| Envelope.ArrayValueSteps | app/providers/perplexity_provider.py:284-309 | a parsed step array decodes to its steps' text, or to the raw string when a step raises |
| Envelope.ArrayShapedValue | app/providers/perplexity_provider.py:283 | a value opening with `[` after stripping is decoded as a step array |
| Envelope.BracketedStrip | app/providers/perplexity_provider.py:283 | a value opening with `[` and closing with `]` is array-shaped |
| Envelope.SearchWebStepExample | app/providers/perplexity_provider.py:289-292 | the SEARCH_WEB step for "cats" renders as the searching notice for "cats" |
| Envelope.SearchWebExample | app/providers/perplexity_provider.py:280-309 | an `answer` holding the one-step SEARCH_WEB array for "cats" decodes to `> 🔍 Searching: cats` and two newlines |
| Stream.CompleteLines | app/providers/perplexity_provider.py:267-268 | no line handed out holds a newline |
| Stream.Payload | app/providers/perplexity_provider.py:269-274 | a stripped line starting with `data: ` whose stripped rest is not `[DONE]` gives that stripped rest; any other line gives nothing |
| Stream.EmitStep | app/providers/perplexity_provider.py:348-355 | a non-empty, longer snapshot emits exactly its suffix past the last length and becomes the last text with content set; any other snapshot changes nothing |
| Stream.DeltaFrames | app/providers/perplexity_provider.py:354-355 | one content frame per delta, in order, without a finish reason |
| Stream.HandleLine | app/providers/perplexity_provider.py:269-359 | handling one line is one `LineStep` |
| Stream.DrainBuffer | app/providers/perplexity_provider.py:267-359 | every complete line in the buffer is cut off and handled in order; the rest holds no newline |
| Stream.ReadBody | app/providers/perplexity_provider.py:259-359 | the emitter state and frames after the body are those of the complete lines of the whole body, however it was chunked |
| Stream.TranslateStream | app/providers/perplexity_provider.py:227-370 | the frames sent are those `Translate` describes |
| Stream.EmitAllSnoc | app/providers/perplexity_provider.py:348-355 | one more snapshot runs one more emitter step |
| Stream.EmitAllLine | app/providers/perplexity_provider.py:276-359 | one more line runs one more `LineStep` |
| Stream.EmittedLine | app/providers/perplexity_provider.py:348-355 | handling a line keeps the loop invariant, with its delta sent as one more frame |
| Stream.SplitTerminated | app/providers/perplexity_provider.py:267-268 | splitting terminated lines followed by a rest gives those lines, then the rest's pieces |
| Stream.CompleteLinesOfBuffer | app/providers/perplexity_provider.py:267-268 | once the buffer holds no newline, the lines handled are exactly the complete lines so far |
| Stream.ChunkAppended | app/providers/perplexity_provider.py:264-266 | appending a chunk keeps the buffer the unprocessed end of the body |
| Stream.LineCut | app/providers/perplexity_provider.py:268 | cutting the first line off the buffer moves it to the handled lines |
| Stream.UnterminatedTailIgnored | app/providers/perplexity_provider.py:267 | a final piece without a newline is never handled |
| Stream.SplitAsTerminated | app/providers/perplexity_provider.py:267-268 | every buffer is its complete lines, each newline-terminated, followed by a rest without a newline |
| Stream.TerminatedJoin | app/providers/perplexity_provider.py:268 | joining by newlines is terminating every piece but the last |
| Stream.TerminatedCons | app/providers/perplexity_provider.py:268 | terminating a leading line puts it in front followed by a newline |
| Stream.LineSelection | app/providers/perplexity_provider.py:269-274 | lines not starting with `data: ` after stripping, and `[DONE]` payloads, carry nothing |
| Stream.SnapshotsAppend | app/providers/perplexity_provider.py:267-359 | lines are decoded independently: the snapshots of concatenated lines are concatenated |
| Stream.FailedLineSkipped | app/providers/perplexity_provider.py:357-359 | a line that raises or is skipped changes nothing about what is emitted |
| Stream.DeltaLengths | app/providers/perplexity_provider.py:348-355 | the delta lengths add up to the last text's length, and something was emitted exactly when `has_content` |
| Stream.GrowingReconstructs | app/providers/perplexity_provider.py:348-355 | when each snapshot extends the previous one, the deltas put together are the last snapshot |
| Stream.ShorterSnapshotIgnored | app/providers/perplexity_provider.py:349 | an equal or shorter snapshot emits nothing and changes nothing |
| Stream.DeltaExample | app/providers/perplexity_provider.py:348-355 | snapshots `Hel`, `Hello`, `Hell` give the deltas `Hel` and `lo` |
| Stream.NonOkReply | app/providers/perplexity_provider.py:246-257 | a non-200 reply gives exactly the status error chunk with `stop`, then `[DONE]` |
| Stream.AlwaysClosed | app/providers/perplexity_provider.py:246-370 | every stream ends with a stop chunk and `[DONE]`, and `[DONE]` appears nowhere else |
| Stream.ClosingClosed | app/providers/perplexity_provider.py:361-370 | both endings are closed |
| Stream.ClosedAfterChunks | app/providers/perplexity_provider.py:354-365 | content frames followed by a closed ending form a closed stream |
| Stream.NormalEnd | app/providers/perplexity_provider.py:361-365 | an uninterrupted 200 reply sends the deltas, a warning if there were none, an empty stop chunk, and `[DONE]` |
| Settings.ItemRecord | app/core/config.py:43-50 | an item without `=` gives nothing; a record is the stripped item cut at its first `=` (the name holds no `=`), with a non-empty name and value and the target url |
| Settings.ItemRecords | app/core/config.py:42-50 | at most one record per item, each with a non-empty name and value and the target url |
| Settings.InitialCookies | app/core/config.py:35-36 | an empty header gives no records |
| Settings.GetInitialCookiesDict | app/core/config.py:30-51 | the method computes `InitialCookies` |
| Settings.ParseItems | app/core/config.py:42-50 | the loop over the items computes `ItemRecords` |
| Settings.EqualsSurvivesStrip | app/core/config.py:43-44 | an item holding `=` still holds one after `strip()`, so the split always succeeds |
| Settings.ItemRecordsAppend | app/core/config.py:42-50 | items are parsed independently and their order is kept |
| Settings.ItemWithPadding | app/core/config.py:44 | whitespace around the item goes, the value may contain `=`, and the name is not trimmed on its own |
| Settings.QuotedHeader | app/core/config.py:39-40 | one pair of surrounding double quotes is removed before the split |
| Settings.HalfQuotedHeader | app/core/config.py:39-40 | a quote at only one end is kept |
| Settings.RecordsOfPieces | app/core/config.py:42-50 | items that strip to well-formed pair texts give those pairs' records |
| Settings.HeaderRoundTrip | app/core/config.py:30-51 | a header joined from well-formed pairs parses back to those pairs, in order, with the target url |
| Settings.HeaderStart | app/core/config.py:39 | a header joined from pairs is never taken for quoted |
| Cookies.PairTexts | app/services/browser_service.py:450 | one `k=v` text per pair, in order |
| Cookies.CookiePieces | app/services/browser_service.py:450 | a joined header splits on `;` into one piece per pair, each stripping back to the pair's text |
| Cookies.LineCookie | config_wizard.py:218-222 | a line gives nothing exactly when it holds neither `Cookie:` nor `;`; without `Cookie:` it gives the stripped line; a result is trimmed |
| Cookies.LineCookieAfterFirst | config_wizard.py:218-220 | a line holding `Cookie:` gives the stripped text after the first occurrence |
| EnvFile.RewriteLines | config_wizard.py:252-269 | the loop with its two flags computes `Rewrite` |
| EnvFile.RewriteKeepsOthers | config_wizard.py:256-264 | every line not starting with a rewritten key survives unchanged and in order |
| EnvFile.RewriteSetsValues | config_wizard.py:256-269 | afterwards there is a cookie line, every cookie line carries the new cookie, and the same holds for the user agent when one is written |
| EnvFile.RewriteIdempotent | config_wizard.py:252-269 | rewriting a second time with the same values changes nothing |
| EnvFile.AppendedInOrder | config_wizard.py:266-269 | a file without either line keeps its lines and gains the cookie line, then the user-agent line |
| EnvFile.KeysExclusive | config_wizard.py:257-260 | no line starts with both keys |
| Wizard.Walk | config_wizard.py:167-180 | every cookie candidate contains the visitor id |
| Wizard.WalkMembersAppend | config_wizard.py:168-177 | candidates from consecutive members are appended in member order |
| Wizard.WalkItemsAppend | config_wizard.py:178-180 | candidates from consecutive list items are appended in item order |
| Wizard.StringItemsIgnored | config_wizard.py:176-180 | the walk never looks inside strings: a list of strings gives nothing |
| Wizard.MemberCandidate | config_wizard.py:170-175 | a string value under a key containing `cookie` that holds the visitor id is a candidate; a key containing `user-agent` makes it a user agent |
| Wizard.Longest | config_wizard.py:185-188 | the result is at least as long as every candidate, and it is the first candidate of that length, or empty |
| Wizard.BestCookie | config_wizard.py:185-191 | the loop picks the longest candidate, the first on ties, and gives nothing when there is none |
| Wizard.ExtractFromJson | config_wizard.py:162-191 | computes the walk's best cookie and first user agent |
| Wizard.JsonCookieFound | config_wizard.py:185-191 | a cookie is found exactly when there is a candidate, and it is one of the candidates |
| Wizard.RegexScan | config_wizard.py:213-223 | nothing exactly when no line qualifies and yields; otherwise the cookie of the first line that does |
| Wizard.PowershellCredentials | config_wizard.py:198-207 | no match gives `(None, None)`; otherwise the matches joined as `k=v` with `; ` and the user agent found |
| Wizard.CleanEnds | config_wizard.py:137-138 | a cleaned value neither starts nor ends with `'` |
| Wizard.CleanUnquotes | config_wizard.py:137 | surrounding whitespace and then one pair of double quotes come off |
| Wizard.CleanQuoteOrder | config_wizard.py:137 | double quotes are stripped before single quotes, so double quotes inside single ones stay |
| Wizard.ExtractCredentials | config_wizard.py:112-132 | computes `Extract`: JSON first, then PowerShell, then the line scan, then the user-agent regex |
| Wizard.ExtractStageOrder | config_wizard.py:112-132 | a JSON cookie wins, with the JSON user agent unless it is empty; otherwise PowerShell matches give their joined header; otherwise the line scan decides; without a JSON cookie the user agent is the regex one |
| Wizard.ConfigWizard.constructor | config_wizard.py:63-64 | nothing has been extracted yet |
| Wizard.ConfigWizard.ProcessTextContent | config_wizard.py:105-141 | with a cookie found, the fields hold the cleaned cookie and the cleaned user agent (or empty); otherwise the fields are unchanged |
| Wizard.ConfigWizard.WriteToEnv | config_wizard.py:237-269 | nothing is written without a cookie; otherwise the file is rewritten with the cookie and the extracted or default user agent |
| Browser.CleanKey | app/services/browser_service.py:236-244 | a cleaned key holds no quotes and has no surrounding whitespace |
| Browser.CleanKeyPlain | app/services/browser_service.py:236-244 | a trimmed key without quotes, `^` or a switch prefix is kept as it is |
| Browser.CleanKeySwitched | app/services/browser_service.py:238-244 | a key written as a `-x` switch, padding, and `^"`-quoted plain name cleans to the name: the switch and both escapes go |
| Browser.CleanKeyPercent | app/services/browser_service.py:240-244 | a `^%` escape between plain parts becomes `%` |
| Browser.NormaliseKeyFirstMatch | app/services/browser_service.py:254-264 | a key containing a canonical name becomes the first such name in the listed order; any other key stays cleaned |
| Browser.CleanText | app/services/browser_service.py:248-252 | a cleaned string value holds no `^` and does not end with `'` |
| Browser.CleanValue | app/services/browser_service.py:247-252 | only string values are cleaned; other values are kept |
| Browser.CleanCookies | app/services/browser_service.py:231-266 | the loop assigns every cleaned pair in order |
| Browser.FirstOfFive | app/services/browser_service.py:255-264 | an `if`/`elif` chain of containment tests over five names yields the first name contained, or the key when none is |
| Browser.DropSwitched | app/services/browser_service.py:238 | the switch pattern removes `-x`, the padding, one `^` and one `"` from the front |
| Browser.CanonicalClean | app/services/browser_service.py:255-264 | the canonical names hold no quotes and no surrounding whitespace |
| Browser.CleanedCookies | app/services/browser_service.py:231-266 | the cleaned keys are distinct, quote-free and trimmed, and each holds the value of the last original entry that cleans to it |
| Browser.GetSessionValue | app/services/browser_service.py:702-719 | a missing file gives the default; otherwise the value at the end of the dotted path, or the default as soon as a step is not a dict holding the key |
| Browser.DescendAppend | app/services/browser_service.py:712-716 | following a path in two parts is following the first part, then the second from where it ended |
| Browser.DottedPath | app/services/browser_service.py:710-716 | a path `p.q` reaches what `q` reaches from where `p` led |
| Browser.SingleKey | app/services/browser_service.py:710-717 | a one-key path is a lookup that gives the default unless the value is a dict holding the key |
| Browser.PieceEntry | app/services/browser_service.py:975-978 | a piece gives an entry exactly when it holds `=` after stripping; an entry's key and value are trimmed |
| Browser.PieceEntrySplit | app/services/browser_service.py:975-978 | a piece that strips to `k=v` with no `=` in `k` gives the stripped `k` and the stripped `v` |
| Browser.ParseCookieString | app/services/browser_service.py:973-978 | the split and the loop build `ParsedCookies` |
| Browser.AssignPieces | app/services/browser_service.py:974-978 | every piece's entry is assigned in order |
| Browser.LaterPairWins | app/services/browser_service.py:978 | each key holds the value of its last piece |
| Browser.PieceEntryOfPair | app/services/browser_service.py:975-978 | a piece that strips to a well-formed pair's text gives that pair |
| Browser.EntriesOfPieces | app/services/browser_service.py:974-978 | pieces that strip to well-formed pair texts give exactly those pairs |
| Browser.HeaderRoundTrip | app/services/browser_service.py:450 | a header joined from well-formed pairs with distinct names parses back to exactly those pairs |
| Browser.FirstQualifying | app/services/browser_service.py:944-946 | the position of the first line holding both `pplx.visitor-id` and `=`, or none |
| Browser.FallbackScan | app/services/browser_service.py:906-951 | the text is stripped, split into lines, and the scan settles on the first qualifying line |
| Browser.ScanLines | app/services/browser_service.py:945-951 | the loop with its `break` computes `FallbackCookie` |
| Browser.FallbackAt | app/services/browser_service.py:945-951 | the first qualifying line decides the scan, whether or not it gives a cookie |
| Browser.FallbackVersusWizard | app/services/browser_service.py:944-951 | where this scan finds a cookie the wizard's scan finds the same one; only this scan is empty exactly when the first qualifying line gives none but a later line would |
| Browser.BrowserService.constructor | app/services/browser_service.py:190-194 | no cookies, the configured user agent, never refreshed, a 300-second interval |
| Browser.BrowserService.UpdateEnvFile | app/services/browser_service.py:444-469 | no file means nothing written; otherwise only the cookie lines are rewritten, with the dictionary joined in order |
| Browser.BrowserService.UpdateEnvWithCookiesAndUa | app/services/browser_service.py:559-590 | like the cookie rewrite, also for the user agent, which falls back to the cached one |
| Browser.BrowserService.RefreshContext | app/services/browser_service.py:479-522 | throttled: success with nothing changed; a failed browser run: failure with nothing changed; otherwise the new cookies and refresh time are stored and written back |
| Dicts.Put | app/services/browser_service.py:266 | the key now maps to the value, other keys are untouched, and a new key goes last |
| Dicts.PutAllGet | app/services/browser_service.py:978 | after assigning pairs in order, each key holds its last value |
| Dicts.PutAllDistinct | app/services/browser_service.py:266 | assignments keep the keys distinct |
| Dicts.PutAllFresh | app/services/browser_service.py:978 | assigning pairs with distinct keys into an empty dict yields exactly those pairs |
| Dicts.LastValue | app/services/browser_service.py:978 | the value of the last pair with the key, or nothing when no pair has it |
| Json.PyIndex | app/providers/perplexity_provider.py:305 | indexing answers only for a dict holding the key, and then with that key's value |
| Json.PyGet | app/providers/perplexity_provider.py:286-287 | `.get` raises unless on a dict, and gives the member or the default |
| Text.JoinSplit | app/core/config.py:42 | splitting on a separator and joining back gives the original string |
| Text.SplitOnceAt | app/core/config.py:44 | `split(c, 1)` cuts at the first occurrence of `c` |

## Left out

- File I/O is not modelled: every `.env` or session file is the list `readlines()` returns, or the value `json.load` returns, passed in as an `Option` (None when the file is missing or unreadable), and what would be written is returned. `writelines` concatenates the lines, so a last line without a newline runs into an appended line; the model keeps the lines as a list and does not model that concatenation.
- `json.loads` is a function-valued parameter; the JSON text format itself is not modelled, and JSON numbers are integers (no floating point).
- Regular expressions are not modelled: the PowerShell `System.Net.Cookie` matches and the user-agent regex result are parameters of the wizard. The anchored switch removal `^-[a-z]\s*\^?"?` in key cleaning is written out by hand as `DropSwitch`.
- `parse_cookie_string` is modelled only in its fallback line scan and the final `;` split of the header; its JSON, PowerShell-regex, raw-candidate regex and user-agent regex steps, and the account saving around it, are left out.
- `uuid.uuid4()` and `time.time()` are parameters: the caller supplies the fresh thread id and the clock. `last_used` is kept but nothing reads it.
- The `asyncio.Lock` and the async generators are not modelled: each manager call is one atomic method, and the body is a finite sequence of already decoded string chunks (`chunk.decode('utf-8', errors='ignore')` is left out).
- The httpx branch of `stream_generator` (app/providers/perplexity_provider.py:371-470) is not modelled. Its line source, `aiter_lines` (line 398), also breaks lines at `\r` and hands out a final line without a newline, so `UnterminatedTailIgnored` and the `\n` framing hold only for the curl_cffi branch.
- The browser automation behind `refresh_context` is a parameter: what it produced (None when it returned None, a non-dict, or raised) and the clock when it returned.
- Logging, the tkinter GUI and its message boxes, and `pydantic_settings` loading are left out.
- `create_sse_data`, `create_chat_completion_chunk` and `DONE_CHUNK` are not part of this model: frames are the datatype `Frame` holding content and finish reason, or `Done`.
- A top-level `answer` or `text` that is not a string is treated as carrying no snapshot, and so is an object-shaped value whose inner `answer` is not a string (lines 313-314 and 339-340). In the source, a non-empty list in either place would be forwarded as a list-valued delta (lines 348-355).
- `str()` of a non-string FINAL answer uses a simplified `repr`: strings inside lists and dicts are quoted with `'` without escaping.
- `str.lower()` is modelled for ASCII letters only, and `str.strip()` uses a fixed whitespace set.
- With `max_conversations <= 0`, the `KeyError` from `popitem` is a None report with an emptied map; nothing else of the exception is modelled.
- Browser.CleanText: the contract states the shape of the result (no `^`, no trailing `'`); the cleaning chain itself is the function body.
- Wizard.CleanEnds: states that no `'` is left at either end; the stripping chain is the body of `Clean`, with `CleanUnquotes` and `CleanQuoteOrder` stating its effect on quoted values.
- Browser.CleanKey: its effect is stated for plain keys, `-x` switch-quoted keys and `^%` escapes; keys mixing other escapes with quotes are covered only by the shape of the result.
