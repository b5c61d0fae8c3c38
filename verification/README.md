# ChatBank client core in Dafny

A model of the logic at the centre of the ChatBank chat client, with the
properties its code promises proved about it. It covers:

- the fenced-code scanner the client uses three ways: the last block of a
  reply for the preview button, the first block of a repair reply, and the
  marker-stripping `cleanCode` of the preview;
- the generation facade: mode routing, request construction, the streamed
  cumulative yields, the local completion endpoint, the code-repair call;
- the application shell's session collection: load, persist, get-or-create,
  replace-by-id;
- the chat window's send handler, with every session update it emits;
- the live voice channel: connection flags, gapless scheduling of inbound
  audio, flushing on interruption, the byte/binary-string loops;
- the typewriter that reveals replies character by character;
- the project sandbox: the preview document, the scripted audit and the
  GitHub deploy the audit gates. The component defines the audit, download
  and deploy handlers, but the markup it renders wires none of them to a
  control (only the close button is); the model describes what each handler
  does when called.

Files, one module each: `basics.dfy` (Option, JavaScript `trim`, decimal
strings, `slice(-n)`), `types.dfy`, `fenced_code.dfy`, `gemini_service.dfy`,
`session_store.dfy`, `messenger.dfy`, `voice.dfy`, `typewriter.dfy`,
`digits.dfy` (the last digits of a clock reading), `sandbox.dfy`.

Every asynchronous handler is modelled as one atomic step run to its end.
What the outside world answers (the cloud stream, the local server, the
GitHub API, the audio clock, browser storage) is an input. Clock reads inside
one handler are a single value `now`.

Where the documented behaviour and the code disagree, the model follows the
code:

- the LOCAL_X1 mode does not fall back to the cloud when the local server is
  unreachable; it yields a fixed offline text (`GeminiService.Generate`);
- there is no session title derivation, and there is no create-session or
  delete-session operation;
- `lastUpdated` does not increase monotonically: every update after the first
  spreads the session the window was rendered with, so the bump is undone
  (`Messenger.LaterUpdatesRevertTimestamp`);
- after an interruption the schedule clock is 0, not the playback clock; the
  next unit starts at `max(0, clock)` (`Voice.InterruptionFlushes`, `Voice.SchedulesAtMax`);
- a failing stream is swallowed: no error message is appended
  (`Messenger.StreamErrorSwallowed`);
- there is no image-generation keyword path.

## Model

| member | source | states |
|---|---|---|
| Basics.Trim | components/ProjectSandbox.tsx:22 | the result is the input with exactly its leading and trailing ECMAScript white space removed |
| Basics.TrimOfTrimmed | components/MessengerWindow.tsx:31 | trimming text that has no white space at either end leaves it unchanged |
| Basics.NatToString | components/ProjectSandbox.tsx:17 | `toString()` of a non-negative number is a non-empty string of decimal digits |
| Basics.ParseNatToString | components/ProjectSandbox.tsx:17 | reading the decimal rendering back gives the number: the rendering is invertible |
| Basics.NatToStringInjective | components/MessengerWindow.tsx:34 | different clock values render to different ids |
| Basics.LastN | components/ProjectSandbox.tsx:17 | `slice(-4)` keeps the last four characters, or the whole string when shorter |
| Types.ModeNameInjective | core/types.ts:2-6 | the three engine modes carry three different string values |
| FencedCode.FindFence | components/MessengerWindow.tsx:90 | the lazy body stops at the first closing fence at or after the given index; none exists when the result is absent |
| FencedCode.TagAt | core/engine/geminiService.ts:121 | the optional group takes the first listed tag present at the index, and none exactly when no tag is present |
| FencedCode.MatchAt | components/MessengerWindow.tsx:90 | one attempt of the pattern at a position yields a well-formed block starting there, and fails exactly when no fence opens there or none closes after it |
| FencedCode.NoFenceInsideTag | core/engine/geminiService.ts:121 | no fence can start inside a language tag |
| FencedCode.MatchTakesGreedyTag | components/MessengerWindow.tsx:90 | backtracking never changes the outcome: a match always carries the tag the greedy group takes first |
| FencedCode.BodyHasNoFence | components/MessengerWindow.tsx:90 | a captured body never contains a fence |
| FencedCode.MatchSpelling | components/MessengerWindow.tsx:90 | a match spells exactly fence, tag, body, fence |
| FencedCode.FirstFrom | core/engine/geminiService.ts:121 | `exec` returns the leftmost position where the pattern matches, and nothing matches before it |
| FencedCode.AllFrom | components/MessengerWindow.tsx:90 | `matchAll` returns well-formed, ordered, non-overlapping matches: the `exec` match first, each next one the `exec` match from the previous one's end, and nothing matching after the last |
| FencedCode.AllFromShape | components/MessengerWindow.tsx:90 | the `matchAll` list spelled out: matches at or after the start index, in order, empty exactly when `exec` finds nothing, headed by the `exec` match, each next one found by `exec` from the previous end, nothing after the last |
| FencedCode.AllFromUnique | components/MessengerWindow.tsx:90 | any chain of `exec` calls, each resuming where the previous match ended until one finds nothing, is exactly the `matchAll` list |
| FencedCode.ExtractLast | components/MessengerWindow.tsx:89-92 | `extractCode` returns a fence-free body, the body of the last `matchAll` match, and null exactly when the reply has no block |
| FencedCode.ExtractFirst | core/engine/geminiService.ts:121-122 | the repair reply's capture group is a fence-free body |
| FencedCode.FirstIsHeadOfAll | components/MessengerWindow.tsx:89-92 | first-match and last-match agree on whether a block exists; the first block heads the match list |
| FencedCode.LastHasNoSuccessor | components/MessengerWindow.tsx:89-92 | following the `exec` chain from the start, `extractCode` returns the body of its last match, the one after which a search finds nothing, and null when the chain is empty |
| FencedCode.SingleBlockAgrees | components/MessengerWindow.tsx:89-92 | with exactly one block, the preview and the repair extract the same code |
| FencedCode.TagAtPresent | core/engine/geminiService.ts:121 | the tags differ in their first letter, so the tag present is the tag taken |
| FencedCode.FencedBlockMatch | components/MessengerWindow.tsx:90 | in fence + tag + backtick-free body + fence the pattern matches at 0 and captures exactly the body |
| FencedCode.FenceAfterPlainText | components/MessengerWindow.tsx:90 | scanning backtick-free text finds the fence right after it |
| FencedCode.FenceRoundTrip | components/MessengerWindow.tsx:89-92 | fencing a backtick-free body under any tag and extracting it again gives the body back, on the first-match and last-match paths |
| FencedCode.StripMarkers | components/ProjectSandbox.tsx:22 | the global `replace` never makes the text longer |
| FencedCode.StripKeepsHead | components/ProjectSandbox.tsx:22 | where no fence starts, the first character is kept and removal continues after it |
| FencedCode.StripWithoutBacktick | components/ProjectSandbox.tsx:22 | text without a backtick passes unchanged |
| FencedCode.StripAppend | components/ProjectSandbox.tsx:22 | removal distributes over a split point with no backtick before it |
| FencedCode.StripLeavesNoFence | components/ProjectSandbox.tsx:22 | no fence survives the removal, even one assembled from backticks on both sides of a removed marker |
| FencedCode.CleanCode | components/ProjectSandbox.tsx:22 | `cleanCode` has no white space at either end and contains no fence |
| FencedCode.CleanWithoutBacktick | components/ProjectSandbox.tsx:22 | code without backticks is only trimmed |
| FencedCode.StripWithoutFence | components/ProjectSandbox.tsx:22 | text without a fence has no marker to remove |
| FencedCode.CleanCodeIdempotent | components/ProjectSandbox.tsx:22 | cleaning cleaned code changes nothing |
| FencedCode.CleanExtractedOnlyTrims | components/MessengerWindow.tsx:89-92 | for a body the chat window extracted, `cleanCode` only trims |
| FencedCode.StripTaggedFence | components/ProjectSandbox.tsx:22 | a fence opening an html, javascript or css block is removed together with its tag word, and removal resumes right after the word |
| FencedCode.StripMarkerAt | components/ProjectSandbox.tsx:22 | each of the three tagged markers at the start is removed as a whole, the alternatives tried in the pattern's order |
| FencedCode.CleanStripsTaggedBlock | components/ProjectSandbox.tsx:22 | of an html, javascript or css block around backtick-free code, `cleanCode` keeps only the trimmed code |
| FencedCode.StripBareFence | components/ProjectSandbox.tsx:22 | a bare fence not followed by html, javascript or css is removed on its own |
| FencedCode.CleanKeepsReactTag | components/ProjectSandbox.tsx:22 | `react` is not among the removed markers: of a react block only the fences go and the word `react` stays in front |
| GeminiService.ModelRouter | core/engine/geminiService.ts:6-10 | every mode routes to a non-empty model identifier |
| GeminiService.RouterDistinct | core/engine/geminiService.ts:6-10 | the router sends the three modes to three different models |
| GeminiService.ContextLine | core/engine/geminiService.ts:45 | the context line is the given context when truthy, the default context otherwise |
| GeminiService.BuildConfig | core/engine/geminiService.ts:58-69 | temperature is 0.7 exactly in ULTRA and 0.3 otherwise; a thinking budget of 32768 exactly in ULTRA; the search tool exactly when search is requested |
| GeminiService.IndexOf | core/engine/geminiService.ts:51 | the first occurrence of a character at or after an index, or none |
| GeminiService.SecondField | core/engine/geminiService.ts:51 | `split(',')[1]` is absent exactly when the string has no comma, and otherwise is the comma-free text from just after the first comma to the next comma or the end |
| GeminiService.SecondFieldUnique | core/engine/geminiService.ts:51 | any text sitting between the first comma and the next comma (or the end) is what `split(',')[1]` returns |
| GeminiService.InlinePayload | core/engine/geminiService.ts:51 | the image payload is the non-empty second field when there is one, and the whole string when the field is missing or empty |
| GeminiService.DataUriPayload | core/engine/geminiService.ts:51 | a data URI with a comma-free header and a non-empty comma-free payload sends exactly the payload |
| GeminiService.Contents | core/engine/geminiService.ts:48-55 | the prompt is always the last part; there is an inline part, in front, exactly when an image is truthy, and it carries the extracted payload as JPEG |
| GeminiService.ContentsSendPayload | core/engine/geminiService.ts:48-55 | an attached data URI reaches the request as its payload alone, followed by the prompt |
| GeminiService.AccumulatedSnoc | core/engine/geminiService.ts:81 | the accumulated text after one more chunk is the previous text followed by that chunk's text |
| GeminiService.ChunkText | core/engine/geminiService.ts:80-81 | computes the text one chunk adds to `fullText`: its text, or "undefined" when the chunk has none (stated through `GeminiService.AccumulatedSnoc`) |
| GeminiService.Accumulated | core/engine/geminiService.ts:77-81 | computes `fullText` after a run of chunks, their texts in order (stated through `GeminiService.AccumulatedSnoc` and `GeminiService.AccumulatedGrows`) |
| GeminiService.SourceOf | core/engine/geminiService.ts:87 | a source keeps the web URI and takes the title, or the default title when it is empty or missing |
| GeminiService.WebSources | core/engine/geminiService.ts:83-89 | sources come only from grounding chunks with a web entry, there are none exactly when no chunk has one, and every title is non-empty |
| GeminiService.WebSourcesSingle | core/engine/geminiService.ts:86-88 | one grounding chunk gives the source of its web entry, or nothing when it has none |
| GeminiService.WebSourcesOrigin | core/engine/geminiService.ts:83-89 | every source is the source of some grounding chunk's web entry, titled by the default label when that title is falsy |
| GeminiService.WebSourcesAppend | core/engine/geminiService.ts:86-88 | source extraction keeps the order of the grounding chunks; with the single-chunk lemma this determines the list |
| GeminiService.ChunkSources | core/engine/geminiService.ts:94 | a yield's sources are absent exactly when no web source was found, and otherwise non-empty |
| GeminiService.Progress | core/engine/geminiService.ts:77-97 | the k-th yield carries the concatenation of the first k+1 chunk texts, is unfinished, and carries that chunk's sources and the routing metadata |
| GeminiService.LocalX1Request | core/engine/geminiService.ts:126-144 | the local result is the server's content, or the offline text when the call threw; its latency is the clock difference |
| GeminiService.Generate | core/engine/geminiService.ts:12-105 | LOCAL_X1 makes exactly one local call and one finished yield; the other modes send the routed model, contents and config, and yield one cumulative item per chunk carrying that chunk's own web sources; then comes a final item with the full text and no sources or metadata, or a rethrow |
| GeminiService.LocalIgnoresCloud | core/engine/geminiService.ts:24-29 | the local mode's run does not depend on the cloud at all: there is no fallback |
| GeminiService.AccumulatedGrows | core/engine/geminiService.ts:81 | each accumulated text is a prefix of the next |
| GeminiService.YieldsGrow | core/engine/geminiService.ts:91-99 | each yield's text extends the previous one, the final yield included |
| GeminiService.RepairRequest | core/engine/geminiService.ts:110-119 | the repair request goes to the flash model at temperature 0.1, embeds the code verbatim, and is longer than the code line exactly when an error is given |
| GeminiService.RepairCode | core/engine/geminiService.ts:107-124 | repair returns the first block's body, else the reply text when non-empty, else the original code; the original code when the call throws |
| GeminiService.RepairResultOrigin | core/engine/geminiService.ts:121-123 | repair is never destructive: the result is the original code, the whole reply, or a fence-free block body from the reply |
| GeminiService.RepairUnwrapsBlock | core/engine/geminiService.ts:121-122 | a reply that is exactly one tagged block repairs to that block's body |
| SessionStore.Load | App.tsx:45-53 | the loaded collection is the stored one when the text parses to an object with sessions, and empty otherwise |
| SessionStore.Persist | App.tsx:55-57 | persisting writes the collection under the storage key and leaves every other key as it was |
| SessionStore.LoadPersist | App.tsx:45-57 | what is persisted is what the next load reads back |
| SessionStore.Mount | App.tsx:45-57 | mounting yields the loaded collection and leaves it persisted |
| SessionStore.MountNormalizesStorage | App.tsx:45-57 | after mounting, storage reads back what was loaded, and unreadable storage is replaced by an empty collection |
| SessionStore.StrictMount | App.tsx:45-57 | under strict mode's double run of the effects, the shell ends with what storage then holds |
| SessionStore.StrictMountErases | App.tsx:45-57 | under strict mode's double run the shell ends with no sessions and storage holds none, so stored sessions are lost |
| SessionStore.LazyMount | App.tsx:45-57 | reading storage while the state is initialised yields the loaded collection and, after any run of the persist effect, storage reads it back |
| SessionStore.LazyMountKeeps | App.tsx:45-57 | the lazily initialised shell under a double run ends exactly as the single mount does |
| SessionStore.GetOrCreateSession | App.tsx:59-64 | the head of a non-empty collection, or a fresh default session that becomes the whole collection |
| SessionStore.GetOrCreateStable | App.tsx:59-64 | on the next render the collection left behind gives back the same session unchanged, whatever the clock reads: a session is created at most once |
| SessionStore.UpdateSession | App.tsx:66-68 | every session with the updated id, and only those, is replaced; the length is kept |
| SessionStore.UpdateAbsentId | App.tsx:66-68 | an update for an absent id changes nothing |
| SessionStore.UpdateTwice | App.tsx:66-68 | two updates for one id: only the last one counts |
| SessionStore.ApplyUpdates | App.tsx:66-68 | a series of updates keeps the length of the collection |
| SessionStore.ApplyUpdatesSameId | App.tsx:66-68 | a series of updates to one session leaves the collection as the last update alone would |
| Messenger.UserMessage | components/MessengerWindow.tsx:33-38 | the user message holds the raw input as text, followed by the image exactly when one is selected |
| Messenger.SendBlocked | components/MessengerWindow.tsx:31 | computes the early return: a blank input without an image, or a send already in progress (stated through `Messenger.HandleSend`) |
| Messenger.SendOptions | components/MessengerWindow.tsx:63-67 | the image is passed exactly when one is selected and truthy, search is requested exactly in ULTRA, and the system line becomes the messenger context |
| Messenger.Placeholder | components/MessengerWindow.tsx:49-57 | the placeholder is an empty model message with the next id and the mode as its model name |
| Messenger.Filled | components/MessengerWindow.tsx:70-78 | a stream item keeps the placeholder's id, role and mode, and replaces its text, sources and model name with the item's |
| Messenger.HandleSend | components/MessengerWindow.tsx:30-87 | a blocked send does nothing; an accepted one emits two updates plus one per stream item |
| Messenger.SendUpdates | components/MessengerWindow.tsx:40-80 | an accepted send hands up two sessions plus one per stream item |
| Messenger.UpdatesShape | components/MessengerWindow.tsx:40-80 | the first update bumps the timestamp, the second holds the old messages, the user message and the empty placeholder, and update k + 2 holds the placeholder as item k leaves it |
| Messenger.SendShape | components/MessengerWindow.tsx:30-87 | an accepted send streams the raw input with the window's options, appends the user message and the empty placeholder, keeps one model message with a fixed id that each item refills, and clears the composer |
| Messenger.StreamReplacesText | components/MessengerWindow.tsx:69-80 | each stream item replaces the model message's text rather than appending to it |
| Messenger.LaterUpdatesRevertTimestamp | components/MessengerWindow.tsx:41-80 | only the first update bumps `lastUpdated`; every later one carries the old id, title and timestamp |
| Messenger.FinishedMessageLosesMeta | components/MessengerWindow.tsx:63-80 | search is requested exactly in ULTRA; a completed cloud stream leaves the full text and no sources or model name |
| Messenger.StreamErrorSwallowed | components/MessengerWindow.tsx:82-86 | a stream that throws appends no error message and still ends processing |
| Messenger.SendThenApply | App.tsx:66-68 | applying a send's updates in turn equals applying its last update alone |
| Messenger.MessageIdsDiffer | components/MessengerWindow.tsx:34-49 | the user message and the model message get different ids |
| Voice.BinaryOf | components/VoiceInterface.tsx:6-13 | the binary string has one character per byte, with that byte's code |
| Voice.BytesOf | components/VoiceInterface.tsx:15-23 | the byte array has one byte per character, its code modulo 256 |
| Voice.EncodeLoop | components/VoiceInterface.tsx:7-11 | the `encode` loop computes the binary string of the bytes |
| Voice.DecodeLoop | components/VoiceInterface.tsx:16-21 | the `decode` loop computes the bytes of the binary string |
| Voice.DecodeEncode | components/VoiceInterface.tsx:6-23 | decoding inverts encoding on every byte sequence |
| Voice.EncodeDecode | components/VoiceInterface.tsx:6-23 | encoding inverts decoding on binary strings |
| Voice.Schedule | components/VoiceInterface.tsx:102-120 | one start call at `max(nextStart, clock)` is appended, `nextStart` moves to its end, and the new source is tracked under a fresh id |
| Voice.Interrupt | components/VoiceInterface.tsx:123-129 | every tracked source is stopped, the set is empty and the schedule is back at 0; the start calls, the session and the active flag are untouched |
| Voice.OnMessage | components/VoiceInterface.tsx:98-130 | a message adds one start call exactly when it is playable and keeps the earlier ones; an interruption empties the tracked set and resets the schedule, otherwise nothing tracked is dropped; the connection is untouched |
| Voice.Stop | components/VoiceInterface.tsx:145-151 | afterwards no session is stored and the channel is inactive; the stored session, if any, is closed once; playback is untouched |
| Voice.Press | components/VoiceInterface.tsx:163-164 | a press while connecting changes nothing; otherwise the channel ends up inactive and connecting exactly when it was not active, and at most one session is closed |
| Voice.Step | components/VoiceInterface.tsx:83-151 | any one event keeps the earlier start calls and adds at most one; a source is tracked only if it was already tracked or is the one just created |
| Voice.SchedulesAtMax | components/VoiceInterface.tsx:99-121 | each playable unit starts at the later of the schedule and the clock, never before the clock; without an interruption the schedule moves to its end |
| Voice.NothingToPlay | components/VoiceInterface.tsx:99-100 | a message without audio, or one with no output context, schedules nothing |
| Voice.InterruptionFlushes | components/VoiceInterface.tsx:123-129 | an interruption stops every tracked source, including one from the same message, empties the set and resets the schedule to 0 |
| Voice.TrackedOnlyLeaveByEndOrInterrupt | components/VoiceInterface.tsx:114-129 | tracked sources leave the set only through their ended event or an interruption |
| Voice.ConnectionFlags | components/VoiceInterface.tsx:83-142 | open clears connecting and sets active; close clears both; a setup failure clears connecting only |
| Voice.PressCases | components/VoiceInterface.tsx:163-164 | a press while connecting does nothing, a press on an active channel stops it, any other press starts connecting |
| Voice.StopIdempotent | components/VoiceInterface.tsx:145-151 | stopping twice is stopping once; the session is closed once, and only when one was stored |
| Voice.StepKeepsChained | components/VoiceInterface.tsx:98-135 | outside an interruption every event keeps scheduled buffers non-overlapping and ending by the schedule |
| Voice.RunKeepsChained | components/VoiceInterface.tsx:98-130 | within a turn, however audio arrives, the scheduled buffers never overlap |
| Voice.BackToBack | components/VoiceInterface.tsx:102-119 | a unit that arrives before the clock overtakes the schedule starts exactly where the previous one ends |
| Typewriter.DynamicSpeed | components/TypewriterText.tsx:16 | a non-zero speed is used as given; otherwise the delay is 1 above 500 characters, 2 above 100, and 5 up to 100 |
| Typewriter.LongerTypesFaster | components/TypewriterText.tsx:16 | without an explicit speed, a longer text never types slower |
| Typewriter.Tick | components/TypewriterText.tsx:18-30 | a tick with characters left appends the next one and advances the index; otherwise it changes nothing |
| Typewriter.SetText | components/TypewriterText.tsx:37-42 | a new text restarts typing exactly when it is non-empty and does not start with what is shown |
| Typewriter.MountedInv | components/TypewriterText.tsx:12-13 | a fresh typewriter shows a prefix of its text, with the cursor exactly when the text is non-empty |
| Typewriter.Mounted | components/TypewriterText.tsx:11-13 | computes the first render: the given text, nothing displayed, index 0 (stated through `Typewriter.MountedInv`) |
| Typewriter.TickKeepsInv | components/TypewriterText.tsx:18-30 | ticking keeps the shown text equal to the text up to the index |
| Typewriter.SetTextInv | components/TypewriterText.tsx:37-42 | a text update keeps that invariant exactly when the new text is non-empty or nothing was typed yet |
| Typewriter.ExtensionKeepsProgress | components/TypewriterText.tsx:37-42 | a streamed extension of the text never restarts the typing |
| Typewriter.NewReplyRestarts | components/TypewriterText.tsx:37-42 | a reply that differs from what is shown in its first character restarts from nothing |
| Typewriter.TypesOut | components/TypewriterText.tsx:18-48 | the remaining ticks show the whole text and hide the cursor; completion is reported exactly for a non-empty text; further ticks change nothing |
| Sandbox.SrcDoc | components/ProjectSandbox.tsx:24-45 | the preview document is as long as the template's head, the cleaned code and the template's tail together |
| Sandbox.SrcDocEmbedsCleanCode | components/ProjectSandbox.tsx:24-45 | the document starts with the template's head and ends with its tail; the cleaned code is recovered from between them; two codes give the same document exactly when they clean to the same text |
| Sandbox.DefaultRepoName | components/ProjectSandbox.tsx:17 | the default name is the fixed prefix and four digits once the clock reaches 1000 |
| Digits.NatToStringLength | components/ProjectSandbox.tsx:17 | a number's decimal rendering has at least four digits exactly from 1000 on |
| Digits.ParseAppend | components/ProjectSandbox.tsx:17 | a concatenation of digit strings reads as its front shifted by one digit per character of its back, plus its back |
| Digits.ParseBound | components/ProjectSandbox.tsx:17 | a string of k digits reads as a number below 10^k |
| Digits.LastDigits | components/ProjectSandbox.tsx:17 | the last k digits of n read back as n modulo 10^k |
| Sandbox.RepoNameSuffix | components/ProjectSandbox.tsx:17 | the default name ends in the clock reading modulo 10000 |
| Sandbox.DownloadName | components/ProjectSandbox.tsx:79 | the download is the repository name followed by `.html` |
| Sandbox.ApplyChecks | components/ProjectSandbox.tsx:58-67 | checks add one log line each and leave the flags alone |
| Sandbox.ApplyCheck | components/ProjectSandbox.tsx:60-66 | computes one check: its message appended to the log, its score added to `iq` and 25 to the other three statistics (stated through `Sandbox.ApplyChecksEffect`) |
| Sandbox.ApplyChecksEffect | components/ProjectSandbox.tsx:58-67 | checks log their messages in order and add their scores to the statistics |
| Sandbox.RunAudit | components/ProjectSandbox.tsx:47-72 | the audit ends passed and not running, with the two opening lines, four check lines and the closing line |
| Sandbox.AuditAddsHundred | components/ProjectSandbox.tsx:47-72 | each run adds exactly 100 to every statistic, and the checks are logged in order |
| Sandbox.AuditFromScratch | components/ProjectSandbox.tsx:20 | statistics are never reset: one run reaches 100, a second 200 |
| Sandbox.Open | components/ProjectSandbox.tsx:11-20 | the sandbox opens with the saved token or none, not audited, with no status and no calls, and with a repository name whose suffix reads the clock modulo 10000 |
| Sandbox.DeployAttempt | components/ProjectSandbox.tsx:96-140 | the deploy starts with the create call, and succeeds exactly when creation is accepted, the user is read and the upload is ok |
| Sandbox.HandleGithubDeploy | components/ProjectSandbox.tsx:86-94 | without a passed audit only the audit runs; with an empty token or repository name nothing happens |
| Sandbox.AuditGatesDeploy | components/ProjectSandbox.tsx:86-91 | the first press touches neither network nor storage, and a second press with a token and a name deploys |
| Sandbox.DeployOutcome | components/ProjectSandbox.tsx:92-140 | a deploy saves the token, records a status and ends not deploying; the upload carries the rendered document and comes only after an accepted creation and a user lookup |
| Sandbox.ExistingRepoProceeds | components/ProjectSandbox.tsx:112-114 | a 422 (existing repository) proceeds like a success; any other failed creation stops with the token message |

## Left out

- The generative API, the live audio API, the local completion server and the GitHub API are not called. Their replies are inputs: `CloudReply`, the local reply, `RepairReply`, `Reply` and `UserReply`.
- The Arabic persona text of the system instruction is abstracted to `PersonaFraming(context)`, because only its context line varies. The live session's persona, voice and model constants are not modelled.
- The Web Audio graph is not modelled: decoding PCM16 into float samples, `createBuffer`, and the microphone capture path with its float-to-Int16 conversion. A buffer's duration is an input, and floating point is out of scope.
- `btoa`/`atob`, `encodeURIComponent` and base64 itself are not modelled; only the byte/binary-string loops around them are.
- JSON parsing and serialisation are abstracted: the stored text is a `StoredText` as the parser would see it. A `sessions` field that is truthy but not an array of sessions is not modelled.
- React rendering, timers and effect scheduling are not modelled beyond the shell's mount. A tick is one timer firing, and a text update is seen as the reset effect sees it.
- SessionStore.Mount: assumes the effects run once, as in a production build. The entry point renders the shell in strict mode, so a development build runs them twice; `SessionStore.StrictMount` models that run and `SessionStore.StrictMountErases` shows the stored sessions are lost (see Findings).
- Interleavings of asynchronous handlers are not modelled. Examples: two overlapping `onmessage` calls awaiting decode; a press during the audit; the stale `nextStart` read across the decode await.
- The release of microphone and audio contexts is not modelled; the code does not release them either.
- The Dashboard component, the feed, the notifications and the entry point are not part of the model, except for the strict-mode wrapper the entry point puts around the shell.
- The session handed to the chat window is always the head of the collection. Selecting another session is not modelled; the code has no way to do it.
- Messenger.HandleSend: the user id, the model id and the timestamps come from one clock value, `now` and `now + 1`. The code reads the clock several times.
- GeminiService.LocalX1Request: a response without `choices[0].message.content` is treated like a transport failure. The code would throw inside the try and reach the same offline branch. An undefined content that does not throw is not modelled.
- GeminiService.SourceOf: a missing `uri` is modelled as a string.
- Sandbox.DeployAttempt: the base64 upload body is represented by the preview document it encodes.
- Sandbox.DeployAttempt: a missing `login` becomes the text "undefined" in the path, as the template literal renders it.
- Typewriter.DynamicSpeed: the 100- and 500-character thresholds count Unicode scalar values, because a Dafny string is a sequence of those; JavaScript counts UTF-16 code units, so a reply with characters outside the Basic Multilingual Plane may pick a different delay.
- Typewriter.Tick: one tick reveals one Unicode scalar value; JavaScript reveals one UTF-16 code unit, so the half-character intermediate display of a character outside the Basic Multilingual Plane is not modelled.
- Voice.DecodeLoop: `atob` yields only codes below 256, so the character model does not matter there.
- Voice.OnMessage: a throw from `atob` or from the PCM conversion of an odd byte count after the schedule clock was raised is not modelled; the code then schedules nothing, keeps the raised `nextStart`, and skips that message's interruption flush.
- SessionStore.Persist: a throwing `localStorage.setItem` (quota exceeded) is not modelled; the write always succeeds here.
- Sandbox.DeployAttempt: `encodeURIComponent` throwing on a lone surrogate is not modelled; a Dafny string cannot hold one.
- Sandbox.HandleGithubDeploy: the handler, like `runSovereignAudit` (Sandbox.RunAudit) and `handleDownload` (Sandbox.DownloadName), is reachable from no control in the rendered markup; the model states what it does when called.
- `Message.modelName` is not declared in the shared message type. The chat window sets it anyway, so the model carries it as an optional field.

## Findings

| source | as written | input that shows it | evidently intended | confidence | as-written member | corrected member |
|---|---|---|---|---|---|---|
| App.tsx:45-57 with index.tsx:22 | the collection is loaded in an effect, and a persist effect writes the state, still empty, in the same commit; strict mode runs both effects twice, so the second load reads the empty collection back and its update lands last | any stored collection with at least one session, opened in a development build | load the collection while initialising the state, so every persist writes back what was loaded | not executed | SessionStore.StrictMountErases | SessionStore.LazyMountKeeps |
