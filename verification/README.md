# Verified models of the repository's algorithms and protocols

This project models the parts of the repository that compute, remember or negotiate something
and proves what they keep, for every input and every run.

* **Snippet synchroniser** (`Text`, `FencePatterns`, `FenceSyntax`, `FenceScan`, `SyncLines`,
  `FenceShift`, `NestedSplice`, `Regions`, `SnippetSync`, `ProcessFile`, `SyncRun`). The scan for labelled code fences with its character
  offsets, region extraction and dedenting, the region cache, the reverse splice, and what one run
  over a file, and the script over all files, writes and reports. The reference is a replacement of all fence bodies line by line
  (`SyncLines.Sync`); the run is proved to compute it for disjoint fences, and a second run to find
  nothing to do exactly when no snippet line closes a fence.
* **Host loop and provider requests** (`Conversation`, `TurnEncoding`, `Anthropic`, `Gemini`,
  `OpenAI`). The bounded tool loop over the conversation history and the three encodings of a
  history. Anthropic and Gemini share one generic encoding with different rules; the OpenAI one
  stands alone. All three carry the same calls and results.
* **Event store** (`EventStore`, `Delivery`). Replay by sorted event ids against a plain log per
  stream, and exactly-once delivery over any pattern of disconnects and resumes.
* **Multi-round handlers and the board** (`SealedRounds`, `Brainstorm`, `Ranking`, `TodoBoard`,
  `BoardPriorities`, `BoardRuns`). Handlers that carry their state in a sealed token, and the todo board under
  handlers that interleave at every await.
* **Reference host** (`TerminalText`, `PromptArgs`, `ToolRouting`, `FormInput`,
  `FormPresence`). The terminal
  escape scanner (sections 5.4 and 5.6 of ECMA-48), the prompt-argument printer and parser, tool
  routing and key allocation, form collection.
* **Small servers** (`Grants`, `VerdictCache`). Authorization codes (section 4.1.2 of RFC 6749),
  client credentials with expiry, and the verdict cache of the gateway.

Objects the source updates in place are classes whose methods are proved against functions of the
old state; loops that fill a local value are methods with loops. What the source promises is then
proved of those functions. `Seqs`, `Text` and `Wrappers` hold shared facts about sequences, the
string operations and `Option`/`Result`.

## Where the code falls short of what it is for

Each point is proved with an input that fails, with the exact condition, or with both.

* When one fence opens inside another, the reverse splice leaves the inner snippet in the outer
  body (`SyncLines.NestedFencesLeaveInnerSnippet`); it is right for all snippets exactly when no
  fence does (`NestedSplice.SplicesRightIff`).
* A snippet line that closes a fence makes the next run change the file again
  (`ProcessFile.SecondRunIsCleanIff`).
* Beside a path `p`, a path `p#q` lets a region and a whole file share one cache key
  (`SnippetSync.ExtendedPathCollides`, exactly when: `SnippetSync.TransparentIffApart`).
* A cached region is answered under a path whose ending extraction would refuse
  (`SnippetSync.CachedRegionHidesEnding`, exactly when: `SnippetSync.LookupsAreTransparentIff`).
* A file that is cached as a snippet source and then written by the same run is still read from the
  cache (`SnippetSync.CachedFileHidesWrite`).
* An underscore in a stream id, or two events of one clock reading whose random parts sort the
  wrong way, makes replay lose events (`EventStore.UnderscoreStreamNotReplayed`,
  `EventStore.SameReadingLosesEvent`).
* Stripping escapes need not be idempotent once U+009B occurs (`TerminalText.NotIdempotentWithCsi`,
  exactly when: `TerminalText.IdempotentIff`).
* A server key that extends another one by an underscore captures some of its tool calls
  (`ToolRouting.AlwaysReachedIff`).
* Form collection checks for a required field with `in`, which also finds the names every plain
  object inherits; its comment (`examples/cli-client/host/ui.ts:315`) promises more
  (`FormPresence.EmptyAnswersAcceptIff`, exactly when: `FormPresence.MissedRequiredIff`).
* A tool result that succeeded with a text starting with the error mark cannot be told from a
  failure in an OpenAI request (`OpenAI.ErrorIsReadableIff`, for a whole request: `OpenAI.FlagsAreReadableIff`).
* An image of an unsupported type in a tool result reads differently in the Anthropic request than
  in the other two (`OpenAI.EncodingsAgree`).
* A prompt-argument value that is empty, starts or ends with a quote, or holds white space and a
  quote does not come back (`PromptArgs.ParsePrintedIff`).

## Model

| member | source | states |
|---|---|---|
| FenceSyntax.OpenerIff | scripts/sync-snippets.ts:106-115 | A line matches an opening pattern with given parts if and only if it is put together from exactly these parts: prefix, backticks, language word, white space, optional display name, source path and region; the display name is taken whenever one can be read |
| FenceSyntax.CloserIff | scripts/sync-snippets.ts:108-116 | A line closes a fence if and only if it is a prefix of its mode, three backticks and white space |
| FencePatterns.OpenerIsNotCloser | scripts/sync-snippets.ts:106-116 | No line both opens and closes a fence |
| FencePatterns.PatternsAreSound | scripts/sync-snippets.ts:134-142 | In both modes openers never close, the prefix reported is where the line starts, and the path reported holds no `#` |
| FenceScan.FindLabeledCodeFences | scripts/sync-snippets.ts:125-203 | The scan returns every fence with its offsets, or the error of the first opener without a closer |
| FenceScan.ScanLines | scripts/sync-snippets.ts:144-200 | The loop over lines with its running character index computes the fences whose offsets are sums of line lengths |
| FenceScan.UnclosedIsUnique | scripts/sync-snippets.ts:181-185 | The opener an error names is the only first one that nothing closes |
| FenceScan.FencesDisjointOrNested | scripts/sync-snippets.ts:144-200 | Of any two fences found, either the first ends before the second starts or the second opens in the first one's body and shares its closing line, never both |
| FenceScan.DisjointIffNoNesting | scripts/sync-snippets.ts:144-200 | The offsets of all fences are disjoint if and only if no opener stands in the body of another fence |
| Text.SpaceIff | scripts/sync-snippets.ts:324-324 | Trimming takes exactly the white space and line terminators of sections 12.2 and 12.3 of ECMA-262 for space |
| Text.SlicesAreParts | scripts/sync-snippets.ts:415-419 | The two slices around any index are the text, and the first one ends at the index or at the end of the text |
| SyncLines.ReverseSpliceIsSync | scripts/sync-snippets.ts:400-438 | For disjoint fences the splice in reverse order gives the text with all bodies replaced at once and every other line kept |
| SyncLines.NestedFencesLeaveInnerSnippet | scripts/sync-snippets.ts:400-419 | Counterexample for nested fences: the inner snippet stays in the outer body |
| NestedSplice.SplicesRightIff | scripts/sync-snippets.ts:400-438 | The splice in reverse order gives the text with all bodies replaced, whatever the snippets, if and only if no fence opens inside another one |
| SyncLines.SyncTwice | scripts/sync-snippets.ts:365-441 | With snippets that open no fence, replacing twice is replacing once when no snippet line closes a fence, and makes the text longer otherwise |
| FenceShift.SyncedFencesMove | scripts/sync-snippets.ts:125-203 | Scanning a synced text whose snippets open and close nothing finds the same fences in the same order, each offset moved by what the earlier bodies grew, the closing one also by its own body |
| ProcessFile.Workspace.ProcessFile | scripts/sync-snippets.ts:365-441 | One run with the shared cache reports and writes what the specification without a cache says, and keeps the cache coherent; asked only of the sources the openers of this file name |
| ProcessFile.Workspace.SpliceFences | scripts/sync-snippets.ts:400-438 | The reverse loop with lookups, errors and counters yields the splice of all fences, written only without errors and outside check mode |
| ProcessFile.ErrorsEmptyIff | scripts/sync-snippets.ts:422-433 | No error is collected if and only if every fence's snippet is found |
| ProcessFile.RunSucceedsIff | scripts/sync-snippets.ts:379-433 | A run reports no error if and only if the file exists, every opener has a closer and every opener's snippet is found |
| ProcessFile.FailedRunWritesNothing | scripts/sync-snippets.ts:429-440 | A run with an error is not reported as modifying; such a run, a check run and an unmodified run leave every file as it is; no run touches another file |
| ProcessFile.RunSyncs | scripts/sync-snippets.ts:394-440 | Over a syncable file a run succeeds, writes the file with every body replaced, and reports a modification exactly when the text changed |
| ProcessFile.FormatCodeLinesIs | scripts/sync-snippets.ts:345-352 | Formatted code has one line for each line of the code: the prefix and the line, or for an empty line the prefix without its trailing white space |
| ProcessFile.WrittenBody | scripts/sync-snippets.ts:365-441 | In the file a run writes, behind each opener stands the code looked up for it, line by line formatted with its prefix, up to the closing line |
| ProcessFile.RunReports | scripts/sync-snippets.ts:371-433 | A run reports a missing file, or the first opener that nothing closes, or the error of each fence; found and failed snippets together are the fences |
| ProcessFile.ErrorsAre | scripts/sync-snippets.ts:400-427 | Each fence whose snippet fails adds its own error, the last fence first |
| ProcessFile.SyncableAgain | scripts/sync-snippets.ts:365-441 | After a run the file is syncable again, and what a second run makes of it is the first result synced again |
| ProcessFile.SecondScanFindsTheSame | scripts/sync-snippets.ts:365-441 | After a run whose snippets open and close nothing, a second scan finds the same fences in the same order at the shifted offsets |
| ProcessFile.SecondRunIsCleanIff | scripts/sync-snippets.ts:365-441 | After a run over a syncable file whose snippets open nothing, a check run has no error, and reports unmodified if and only if no snippet line closes a fence |
| ProcessFile.SnippetSeparated | scripts/sync-snippets.ts:345-352 | The formatted lines of a snippet hold no newline, so they are the lines a later scan sees |
| SyncRun.SyncSnippets | scripts/sync-snippets.ts:567-615 | The script, with one cache over all files and their writes, reports and writes what cacheless jobs one after the other do, and exits without an error if and only if no file has one and, in check mode, none is modified |
| SyncRun.RunAgrees | scripts/sync-snippets.ts:365-441 | What a job reports and leaves depends only on its file and on the sources that the openers in that file name |
| SyncRun.RunIsLocal | scripts/sync-snippets.ts:567-585 | When no opener of a target names a target, every file is reported and left as if it were synced alone, in whatever order, and other files stay |
| SyncRun.OnlyTargetsWritten | scripts/sync-snippets.ts:567-585 | Whatever the targets, a run leaves every other file as it is |
| SyncRun.RunExitsWellIff | scripts/sync-snippets.ts:567-615 | A run exits without an error if and only if every file exists, every opener has a closer and every snippet is found |
| SyncRun.RunnableAgain | scripts/sync-snippets.ts:559-615 | After a run over syncable files the conditions for running the script hold again |
| SyncRun.CheckPassesAfterRunIff | scripts/sync-snippets.ts:559-615 | After a run over syncable files whose snippets open nothing, the check run passes if and only if no snippet line closes a fence |
| Regions.Dedent | scripts/sync-snippets.ts:211-233 | The loops that dedent and drop trailing blank lines compute the dedented text |
| Regions.ExtractEmbedded | scripts/sync-snippets.ts:242-289 | Code indented like its opening marker, whatever white space stands before the closing one, comes back line for line, in LF and CRLF files, blank lines emptied, lines indented less as they stand, trailing blank lines dropped |
| Regions.ExtractFailsIff | scripts/sync-snippets.ts:247-283 | Extraction fails if and only if the file kind is unsupported, no opening marker occurs, or no closing one occurs behind the first opening one, each with its own error |
| Regions.LineEndingIff | scripts/sync-snippets.ts:256-256 | Markers end in CRLF if and only if the file holds a CRLF anywhere |
| Regions.DropTrailingEmptyIs | scripts/sync-snippets.ts:222-232 | Exactly the empty lines at the end are dropped |
| SnippetSync.RegionCache.GetOrLoadRegion | scripts/sync-snippets.ts:299-337 | A lookup returns what is cached or loads the file and then the region, and leaves exactly the entries of the specification |
| SnippetSync.WholeFileIff | scripts/sync-snippets.ts:310-325 | A whole file is found as a text if and only if the file is there and is that text between white space, the text neither starting nor ending with any; otherwise the error names the missing file |
| SnippetSync.RegionIff | scripts/sync-snippets.ts:310-336 | A region is found if and only if the file is there and extraction finds it in the file |
| SnippetSync.LoadIsTransparent | scripts/sync-snippets.ts:299-337 | Through a coherent cache a lookup returns what the uncached lookup returns, errors included, if and only if it does not find a region cached that it asks for under a name without the `.ts` ending; the cache stays coherent |
| SnippetSync.LookupsAreTransparentIff | scripts/sync-snippets.ts:299-337 | In any sequence of lookups through a fresh cache, a lookup gives the uncached result if and only if it does not ask, under another ending, for a region that an earlier one got |
| SnippetSync.TransparentIffApart | scripts/sync-snippets.ts:299-337 | For a set of paths, with regions asked for only as those of `.ts` files: over every file system every sequence of lookups is answered as without a cache if and only if no path extends another one behind a `#` |
| SnippetSync.KeysCollideIff | scripts/sync-snippets.ts:309-334 | Two cache keys are equal if and only if they are made of the same parts, or one path goes on behind the other and a `#` and takes over the start of its region |
| SnippetSync.CacheKeyInjective | scripts/sync-snippets.ts:309-334 | Among paths of which none extends another one behind a `#`, a key determines its path and region |
| SnippetSync.HashFreeIsApart | scripts/sync-snippets.ts:309-334 | Paths without `#` are such paths |
| SnippetSync.WriteKeepsCoherent | scripts/sync-snippets.ts:433-436 | Writing a file that is no snippet source keeps the shared cache coherent |
| SnippetSync.CachedFileHidesWrite | scripts/sync-snippets.ts:310-316 | Once a file is cached, a lookup of it misses what is written to it if and only if the new text reads otherwise |
| SnippetSync.ExtendedPathCollides | scripts/sync-snippets.ts:309-334 | Counterexample for a path `p#q` beside `p`: once region `q#` of `p` is cached, the whole file `p#q` is answered with it, wrongly if and only if that file does not hold the same text |
| SnippetSync.CachedRegionHidesEnding | scripts/sync-snippets.ts:249-253 | Counterexample for endings: a region got as that of `x.ts` is answered from the cache when asked for as that of `x.ts/`, which extraction refuses |
| Conversation.RoundsKeepPairing | examples/cli-client/host/loop.ts:43-98 | However model and tools behave, also when the model call throws, the rounds only extend the history, keep every assistant turn followed at once by the tool messages of its calls in order, and call the model at most 8 times |
| Conversation.AnsweredWithoutCalls | examples/cli-client/host/loop.ts:62-74 | A turn that neither throws nor meets the limit ends with an assistant message without tool calls |
| Conversation.HandedIsPaired | examples/cli-client/host/loop.ts:50-61 | Every history the rounds hand to the model is well paired and extends the one before the turn, one for each call |
| Conversation.HandedGrows | examples/cli-client/host/loop.ts:50-95 | Each history handed to the model is the one before, the model's turn with exactly its text and calls, and for each call in order what the tool returned for it, parts and error flag |
| Conversation.TurnEnds | examples/cli-client/host/loop.ts:50-98 | A turn ends at the first answer without calls, at the first error, or after exactly 8 calls of the model; its history is the one handed last and what came of it |
| Conversation.SessionGoesOn | examples/cli-client/host/loop.ts:43-105 | Each turn of a session hands the model what the turns before it left with its own input behind it, and leaves the history handed last and what came of it |
| Conversation.InputIs | examples/cli-client/host/loop.ts:101-104 | A chat input is one user message of the attachments and the text, a prompt its messages as they are |
| Conversation.PartsAreLines | examples/cli-client/providers/provider.ts:65-67 | As plain text, parts of one line each are its lines in order, an image as a placeholder that names its type |
| Conversation.SessionHandsPaired | examples/cli-client/host/loop.ts:43-105 | In any session, failing turns included, every history handed to the model is well paired |
| Conversation.SessionIsWellPaired | examples/cli-client/host/loop.ts:43-105 | After any session of turns, failing ones included, the history is well paired |
| Conversation.ChatSession.RunModelRounds | examples/cli-client/host/loop.ts:43-98 | The loop computes the specified rounds, hands the specified histories to the model, extends the history, keeps it well paired and stays within 8 model calls; the model shown is that of the last call it answered |
| Conversation.ChatSession.RunToolCalls | examples/cli-client/host/loop.ts:76-95 | One tool message a call is appended in order, with the call's id and name and the parts and error flag that the tool returned |
| Conversation.ChatSession.RunConversationTurn | examples/cli-client/host/loop.ts:101-105 | A turn appends the attachments and the text as one user message, then the rounds; every history handed to the model is well paired |
| Conversation.WellPairedAppend | examples/cli-client/host/loop.ts:62-95 | Well-paired histories one after the other are well paired |
| TurnEncoding.EncodeKeepsBlocks | examples/cli-client/providers/anthropic.ts:38-66 | For every history the encoded turns say exactly the history's blocks, in order and each in its own role, whatever is dropped or grouped |
| TurnEncoding.EncodingKeepsEvents | examples/cli-client/providers/gemini.ts:26-51 | Calls and results read back out of the encoded turns are the history's own sequence |
| TurnEncoding.EncodingKeepsContents | examples/cli-client/providers/anthropic.ts:22-66 | Texts and images read back out of the encoded turns are the history's own, in their roles and in order |
| TurnEncoding.EncodeByExchange | examples/cli-client/providers/anthropic.ts:38-66 | A well-paired history is encoded exchange by exchange |
| TurnEncoding.AnswersShareOneTurn | examples/cli-client/providers/anthropic.ts:46-52 | The results behind an assistant turn form one single user turn |
| TurnEncoding.CallsAreAnswered | examples/cli-client/providers/anthropic.ts:38-66 | In the encoding of a well-paired history every call is answered in the very next user turn |
| Anthropic.ToAnthropicRequest | examples/cli-client/providers/anthropic.ts:35-66 | The request loop computes the encoding of the history, and its texts and images are the history's |
| Anthropic.AddMessage | examples/cli-client/providers/anthropic.ts:38-66 | One pass appends a message's blocks, joining a tool result to a preceding user message |
| Anthropic.RequestKeepsEvents | examples/cli-client/providers/anthropic.ts:35-66 | Calls and results with ids, contents and error flags can be read back out of the request |
| Anthropic.RequestKeepsContents | examples/cli-client/providers/anthropic.ts:7-66 | Texts and images read back out of a request are the history's, in their roles and in order: texts verbatim unless empty, images of the four supported types with their data, others as the placeholder naming their type |
| Anthropic.ResultBlocksAre | examples/cli-client/providers/anthropic.ts:40-45 | A tool result holds one block for each part the tool returned, in order |
| Anthropic.ResultsJoinUsers | examples/cli-client/providers/anthropic.ts:46-52 | A user message that starts with a tool result is the first message or stands behind an assistant one; no message is empty |
| Anthropic.RequestAnswersCalls | examples/cli-client/providers/anthropic.ts:35-66 | Every tool_use of a well-paired history is answered, by id, in the very next single user message |
| Anthropic.EveryRequestAnswersCalls | examples/cli-client/providers/anthropic.ts:35-66 | Every request of any session, failing turns included, answers every tool_use in the very next single user message |
| Gemini.ToGeminiRequest | examples/cli-client/providers/gemini.ts:24-51 | The request loop computes the encoding of the history, and its texts and images are the history's |
| Gemini.AddMessage | examples/cli-client/providers/gemini.ts:26-51 | One pass appends a message's parts, joining a function response only to a user turn of nothing but responses |
| Gemini.RequestKeepsEvents | examples/cli-client/providers/gemini.ts:24-51 | Calls and results can be read back out of the request, all but the ids this API has no place for |
| Gemini.RequestKeepsContents | examples/cli-client/providers/gemini.ts:24-51 | Texts and images read back out of a request are the history's, in their roles and in order, texts verbatim unless empty |
| Gemini.ResponsesStandApart | examples/cli-client/providers/gemini.ts:34-39 | Function responses share a user content with responses only, all that follow one another share one, and no content is empty |
| Gemini.RequestAnswersCalls | examples/cli-client/providers/gemini.ts:24-51 | Every functionCall of a well-paired history is answered, by name and in order, in the very next single user content |
| OpenAI.ToOpenAIRequest | examples/cli-client/providers/openai.ts:16-53 | The request loop computes the encoding of system prompt and history |
| OpenAI.RequestIsOneToOne | examples/cli-client/providers/openai.ts:16-53 | Behind the system prompt the request holds one message for each turn that is not an empty assistant turn, in order, in the same role and saying the same |
| OpenAI.RequestKeepsEvents | examples/cli-client/providers/openai.ts:16-53 | Calls and results can be read back out of the request, the error flag only as a mark |
| OpenAI.RequestAnswersCalls | examples/cli-client/providers/openai.ts:21-53 | In the request of a well-paired history each assistant message with calls is followed at once by one tool message a call, ids in order |
| OpenAI.ErrorIsReadableIff | examples/cli-client/providers/openai.ts:23-28 | For one result, the mark tells failure from success if and only if it failed or its text does not start with the mark |
| OpenAI.FlagsAreReadableIff | examples/cli-client/providers/openai.ts:21-53 | The error flags of a history can be read back out of its request if and only if no success text starts with the mark |
| OpenAI.EncodingsAgree | examples/cli-client/providers/openai.ts:21-53 | For every history the three requests carry the same calls and results in the same order; the OpenAI and the Gemini request always give the results the same text, failures marked, the Anthropic request if and only if no result holds an image type its API does not take |
| EventStore.StreamIdRecovered | examples/shared/src/inMemoryEventStore.ts:14-24 | The stream id is read back out of an event id if and only if it holds no underscore |
| EventStore.LaterIdIsGreater | examples/shared/src/inMemoryEventStore.ts:14-16 | Within a stream a later clock reading of the same width gives a greater id |
| EventStore.LogOfSort | examples/shared/src/inMemoryEventStore.ts:57-63 | Sorting the store and filtering a stream is sorting that stream's log |
| EventStore.ReplayIsLogIff | examples/shared/src/inMemoryEventStore.ts:40-76 | Replay after event k is the log from k+1 on, for every k, if and only if the stream's ids ascend in store order; if not, already the first replay point is wrong |
| EventStore.UnderscoreStreamNotReplayed | examples/shared/src/inMemoryEventStore.ts:21-49 | A stream id with an underscore is never replayed |
| EventStore.SameReadingLosesEvent | examples/shared/src/inMemoryEventStore.ts:14-16 | Two events of one clock reading with falling random parts: replay misses the second |
| EventStore.InMemoryEventStore.StoreEvent | examples/shared/src/inMemoryEventStore.ts:30-34 | An event is put under its id, and the id is returned |
| EventStore.InMemoryEventStore.ReplayEventsAfter | examples/shared/src/inMemoryEventStore.ts:40-76 | The loop with its found flag sends the specified events, and the stream id or the empty string is returned |
| Delivery.PublishIs | examples/shared/src/inMemoryEventStore.ts:30-34 | A publication goes last in its own stream's log, reaches a connected client, and changes no other log |
| Delivery.ConnectionIs | examples/shared/src/inMemoryEventStore.ts:40-76 | A client that comes back is sent what it missed, as far as the connection carries it, and follows the stream again once it has all |
| Delivery.EveryRunDelivers | examples/shared/src/inMemoryEventStore.ts:30-76 | Over any run of publications, disconnects and resumes, broken ones included, the client holds a prefix of the stream's log, the whole log while connected, and no event twice |
| SealedRounds.ConfirmedBefore | examples/guides/servers/input-required.examples.ts:134-171 | Whoever holds a sealed state, a confirmation was accepted no later |
| SealedRounds.WipeIsConfirmed | examples/guides/servers/input-required.examples.ts:134-171 | Over every run a wipe follows an accepted confirmation of an earlier round |
| SealedRounds.WipeIff | examples/guides/servers/input-required.examples.ts:157-169 | A scope is wiped if and only if the call presents the confirmed state and accepts that scope |
| SealedRounds.WipeHappens | examples/guides/servers/input-required.examples.ts:134-171 | Confirming hands out the state with which the next call wipes the scope it names, and asks again without one |
| SealedRounds.DeployIsConfirmed | examples/mrtr/server.ts:59-103 | Over every run a deployment to an environment comes with an accepted sign-in and follows an accepted confirmation of an earlier round that named that environment |
| SealedRounds.DeployHappens | examples/mrtr/server.ts:59-103 | Confirming hands out the state with which the next call deploys to the environment confirmed if and only if it is signed in |
| SealedRounds.RefusalAsksAgain | examples/mrtr/server.ts:64-81 | While nobody has accepted, every round asks for the confirmation again |
| Brainstorm.ParseBrainstormCount | examples/todos-server/todos.ts:192-195 | An accepted count is from 1 to 100 |
| Brainstorm.CountRoundTrip | examples/todos-server/todos.ts:192-195 | A number in decimal is read back, and accepted if and only if it is from 1 to 100 |
| Brainstorm.ParseIntIs | examples/todos-server/todos.ts:192-195 | White space, a sign or none, digits and whatever follows are read as the signed number of the digits |
| Brainstorm.ParseIntNeedsDigit | examples/todos-server/todos.ts:192-195 | Without a digit no number is read |
| Brainstorm.TitlesAreNotEmpty | examples/todos-server/todos.ts:425-429 | No cleaned title is empty |
| Brainstorm.CleanTitleIff | examples/todos-server/todos.ts:425-427 | Cleaning a line gives a title if and only if the line is bullets, that title and white space, the title with no bullet in front and no white space behind |
| Brainstorm.CleanTitlesAre | examples/todos-server/todos.ts:425-429 | The titles are those of the lines in order, the empty ones left out |
| Brainstorm.ResolvedTopicIs | examples/todos-server/todos.ts:420-421 | The topic is the answer without white space around it unless blank, else the theme, else the default |
| Brainstorm.CountRounds | examples/todos-server/todos.ts:464-498 | The first call asks for a count; an accepted one from 1 to 100 leads on to the ideas with the resolved topic, "custom" to another question, anything else adds nothing |
| Brainstorm.IdeasRound | examples/todos-server/todos.ts:424-502 | The first ideas up to the count carried are added under the topic carried; without any nothing is added |
| Brainstorm.AddsAtMostAccepted | examples/todos-server/todos.ts:424-502 | Over every run, tasks are added only for a count from 1 to 100 that an earlier round accepted and handed out in its state, at most that many and at least one |
| Brainstorm.AskingLowersRank | examples/todos-server/todos.ts:464-502 | A round that asks again hands out a state of lower rank |
| Brainstorm.ConversationEnds | examples/todos-server/todos.ts:457-502 | With a client that echoes the state the conversation ends within one call more than the rank, four in all from the start, and only its last call can touch the board |
| Ranking.ApplyRanking | examples/todos-server/todos.ts:198-207 | The loop over lines that splices tasks out computes the specified ranking |
| Ranking.MentionsIff | examples/todos-server/todos.ts:203 | A line mentions a task if and only if the title stands somewhere in it, whatever the case |
| Ranking.RankedIff | examples/todos-server/todos.ts:198-207 | The ranking is the one order in which each line in turn chooses the first candidate it mentions that no earlier line chose, and the candidates that no line chose follow as they stood |
| Ranking.RankingReorders | examples/todos-server/todos.ts:198-207 | The ranking is a permutation of the candidates: those chosen line by line, then the others as they stood |
| Ranking.LeftOverWasPassedOver | examples/todos-server/todos.ts:198-207 | A candidate is left over only when every line that mentions it chose another one that stands before it |
| Ranking.PickKeepsTasks | examples/todos-server/todos.ts:198-207 | Picked and remaining tasks together are the candidates |
| Ranking.PickKeepsOrder | examples/todos-server/todos.ts:198-207 | The remaining tasks keep their order |
| Ranking.PickedAreMentioned | examples/todos-server/todos.ts:198-207 | Only mentioned tasks are picked |
| Ranking.PickFollowsLines | examples/todos-server/todos.ts:198-207 | Each picked task has a mentioning line of its own, the lines ascending |
| Ranking.CountsUpTo | examples/todos-server/todos.ts:209-213 | How many of the first k ranks get each priority |
| Ranking.PrioritiesAreEven | examples/todos-server/todos.ts:209-213 | For every n, high is at least medium is at least low, they sum to n and differ by at most one |
| TodoBoard.AddKeeps | examples/todos-server/todos.ts:77-81 | Adding a task issues one new id and keeps the board well formed |
| TodoBoard.AddAllKeeps | examples/todos-server/todos.ts:433-434 | Adding several tasks leaves the others untouched and puts exactly the newly issued ids on the board |
| TodoBoard.MarkDoneKeeps | examples/todos-server/todos.ts:580-581 | Marking done changes no key, also for a task that is gone |
| TodoBoard.ClearKeeps | examples/todos-server/todos.ts:595-622 | Clearing removes exactly the done tasks |
| TodoBoard.StampKeeps | examples/todos-server/todos.ts:655-658 | Stamping priorities changes nothing else of any task |
| TodoBoard.StampSets | examples/todos-server/todos.ts:655-658 | Every ranked task ends with the priority of its rank |
| BoardPriorities.RankedOpenIs | examples/todos-server/todos.ts:632-655 | The ranking a prioritize call stamps holds each open task exactly once and nothing else |
| BoardPriorities.OpenTasksGetTheirRank | examples/todos-server/todos.ts:655-658 | After a prioritize call every open task has the priority of its rank and is otherwise as before |
| BoardPriorities.BoardPrioritiesAreEven | examples/todos-server/todos.ts:655-658 | After a prioritize call the open tasks of high, medium and low priority number high >= medium >= low, sum to the open tasks, and differ by at most one |
| TodoBoard.TodoBoard.AddTask | examples/todos-server/todos.ts:77-81 | The task is created under a fresh id that the board did not hold |
| TodoBoard.CreatedIs | examples/todos-server/todos.ts:77-81 | A new task is open and holds what was given, under its id |
| TodoBoard.AddAllAre | examples/todos-server/todos.ts:433-434 | Several tasks stand behind the others in their order, each under the next id and as it was given |
| TodoBoard.FindTaskIff | examples/todos-server/todos.ts:538-543 | A query names the task with that id, or else the first one on the board whose lowered title holds the lowered query; it names none if and only if neither is there |
| TodoBoard.CompleteIs | examples/todos-server/todos.ts:538-547 | Completing marks exactly the task that the query names |
| TodoBoard.MarkDoneIs | examples/todos-server/todos.ts:544-544 | Marking done changes the status of one task and nothing else |
| TodoBoard.ClearedIs | examples/todos-server/todos.ts:595-622 | Clearing leaves the tasks that are not done as they are, in their order |
| TodoBoard.TodoBoard.CompleteTask | examples/todos-server/todos.ts:538-547 | The task that the query names is marked done, nothing else changes, and no task is found if and only if the query names none |
| TodoBoard.TodoBoard.ClearDone | examples/todos-server/todos.ts:595-622 | Deletes exactly the done tasks and returns their number |
| TodoBoard.TodoBoard.DeleteTasks | examples/todos-server/todos.ts:618-618 | The loop deletes the listed ids and no other |
| TodoBoard.TodoBoard.Prioritize | examples/todos-server/todos.ts:628-660 | The open tasks are ranked and stamped, nothing else changes |
| BoardRuns.BoardStep | examples/todos-server/todos.ts:77-107 | Every atomic stretch of a handler keeps keys equal to ids, reopens nothing, deletes done tasks only, and issued ids are those on the board plus those deleted |
| BoardRuns.WorkerAdvances | examples/todos-server/todos.ts:559-589 | A worker's next segment keeps its record: the first tasks of its queue finished, progress 1, 2, ... reported |
| BoardRuns.WorkersStep | examples/todos-server/todos.ts:559-589 | Whatever another handler does, every worker's record stays right |
| BoardRuns.StartedWorkerIs | examples/todos-server/todos.ts:559-577 | A worker starts on exactly the open tasks in the order of the board, and stops at once when aborted before |
| BoardRuns.StartStepIs | examples/todos-server/todos.ts:559-568 | A worker starts, behind those at work, if and only if a task is open |
| BoardRuns.AdvanceStepIs | examples/todos-server/todos.ts:568-586 | A segment finishes the worker's next task and reports it, or goes on from one just finished; the other workers stay |
| BoardRuns.SegmentEnds | examples/todos-server/todos.ts:568-586 | Behind a finished task a worker stops if and only if it is aborted and tasks are left, and ends if and only if none are |
| BoardRuns.UndisturbedFinishes | examples/todos-server/todos.ts:568-589 | A worker that nobody aborts finishes its whole queue and reports 1, 2, ... up to its length |
| BoardRuns.AddStepIs | examples/todos-server/todos.ts:77-81 | An added task stands last on the board as it was given, the others unchanged |
| BoardRuns.IdeasStepIs | examples/todos-server/todos.ts:433-434 | Brainstormed tasks stand behind the others in their order |
| BoardRuns.DoneStepsAre | examples/todos-server/todos.ts:538-584 | A query marks the task it names done, a worker's segment the next task of its queue, and nothing else changes |
| BoardRuns.ClearStepIs | examples/todos-server/todos.ts:596-619 | Clearing keeps just the tasks that are not done, as they were and in their order |
| BoardRuns.PrioritizeStepIs | examples/todos-server/todos.ts:632-658 | After a prioritize step each open task has the priority of its rank |
| BoardRuns.EveryRunKeepsInv | examples/todos-server/todos.ts:559-622 | Over every interleaving the board's invariant holds and each worker has finished exactly the first tasks of its queue, all of them unless it was aborted |
| BoardRuns.RunsFromStartKeepInv | examples/todos-server/todos.ts:75-107 | So it does from the empty board on |
| BoardRuns.IdsAreNeverReused | examples/todos-server/todos.ts:77-107 | Over every interleaving a done task stays done or deleted, and a deleted id never comes back |
| TerminalText.StripIsSafe | examples/cli-client/host/content.ts:19-25 | The result is a subsequence of the input without ESC, DEL and C0 controls other than tab, newline and return |
| TerminalText.PlainTextKept | examples/cli-client/host/content.ts:19-25 | Text without controls is kept whatever follows |
| TerminalText.ControlSequenceRemoved | examples/cli-client/host/content.ts:19-25 | A complete control sequence, in its two-character or one-byte form, disappears as a whole |
| TerminalText.CommandRemoved | examples/cli-client/host/content.ts:19-25 | An operating system command with its bell or string terminator disappears as a whole |
| TerminalText.OpenCommandRemoved | examples/cli-client/host/content.ts:19-25 | One that is not terminated disappears up to the next escape character or the end |
| TerminalText.ControlRemoved | examples/cli-client/host/content.ts:19-25 | Any other escape character disappears with the character that makes a sequence with it, else alone, and any stray control alone |
| TerminalText.UnchangedIffClean | examples/cli-client/host/content.ts:19-25 | Stripping changes nothing if and only if the text is clean |
| TerminalText.IdempotentIff | examples/cli-client/host/content.ts:19-25 | Stripping twice is stripping once if and only if the scan of the input keeps no U+009B behind which the kept characters go on as parameters, intermediates and a final one |
| TerminalText.IdempotentWithoutCsi | examples/cli-client/host/content.ts:19-25 | On text without U+009B stripping is idempotent |
| TerminalText.NotIdempotentWithCsi | examples/cli-client/host/content.ts:19-25 | With U+009B it need not be |
| PromptArgs.ParsePromptArgs | examples/cli-client/host/loop.ts:114-122 | The loop over matches computes the parsed record |
| PromptArgs.ParsePrinted | examples/cli-client/host/ui.ts:357-361 | Arguments with distinct names and printable values, printed as the completer does and joined by spaces, are parsed back, also when a quoted value holds `k=v` text |
| PromptArgs.MatchesAreAttainable | examples/cli-client/host/loop.ts:116-120 | Whatever the text, a value read from it does not start with a quote and does not hold both white space and quotes |
| PromptArgs.ParsePrintedIff | examples/cli-client/host/ui.ts:357-361 | Named arguments with distinct names, printed and joined by spaces, come back if and only if every value is not empty and free of the quotes that the parser would take |
| ToolRouting.RouteIff | examples/cli-client/host/naming.ts:10-22 | The route found is the longest key that owns the name, with the tool that re-namespaces to the name; none is found if and only if no key owns it |
| ToolRouting.SanitizedIs | examples/cli-client/host/naming.ts:6-8 | A sanitised name keeps letters, digits, underscores and hyphens in place and has an underscore for every other character |
| ToolRouting.RouteIgnoresOrder | examples/cli-client/host/naming.ts:14-22 | The route does not depend on the order of the keys |
| ToolRouting.AlwaysReachedIff | examples/cli-client/host/naming.ts:10-22 | Every tool of a server is routed back to it if and only if no key is its key with an underscore or starts with its key and two |
| ToolRouting.SuffixDoesNotExtend | examples/cli-client/host/host.ts:142-144 | A key made by suffixing never captures calls of the unsuffixed one |
| ToolRouting.McpHost.AllocateKey | examples/cli-client/host/host.ts:139-144 | The suffix loop ends, with the first candidate that is not in use |
| ToolRouting.McpHost.Connect | examples/cli-client/host/host.ts:134-156 | Each configured server that came up is set under its first free key; the call fails exactly when none is connected |
| ToolRouting.ConnectedServers | examples/cli-client/host/host.ts:134-156 | From scratch, exactly the servers that came up are connected, in order and under pairwise distinct keys |
| ToolRouting.McpHost.RouteToolCall | examples/cli-client/host/host.ts:182-190 | A call goes to the connected server with the longest owning key, and is unknown if and only if no key owns it |
| FormInput.ParsedMeets | examples/cli-client/host/ui.ts:257-280 | A parsed answer meets its field's type, range and enum; numbers and texts are parsed if and only if they do |
| FormInput.BooleanIff | examples/cli-client/host/ui.ts:257-263 | Yes and no are read in exactly three spellings each, whatever their case |
| FormInput.NumberAndTextAre | examples/cli-client/host/ui.ts:264-280 | A number is read as the runtime reads it, if and only if it is whole where asked and within both bounds; a text is taken as it stands, a list split at commas |
| FormInput.ItemsAre | examples/cli-client/host/ui.ts:272-277 | A list holds the parts without white space around them, in order, blank ones left out |
| FormInput.FormEnds | examples/cli-client/host/ui.ts:296-299 | The first question answered with "decline" declines the form and nothing else does; "cancel" or a failure cancels it at once |
| FormInput.CollectFormInput | examples/cli-client/host/ui.ts:287-324 | The nested loops compute the specified outcome and number of questions |
| FormInput.AskOneField | examples/cli-client/host/ui.ts:293-313 | The three attempts at one field compute the specified end |
| FormInput.AcceptIsSound | examples/cli-client/host/ui.ts:287-324 | For every user: at most three questions a field, and an accepted form holds only schema fields, each with what the last question for that very field was answered with, its default or a parsed text that meets it, and every required field whose name is not inherited |
| FormPresence.MissedRequiredIff | examples/cli-client/host/ui.ts:287-324 | Some user gets a form accepted that misses a required field if and only if every field can be passed (it is not required, has a default or an inherited name, or parses some answer) and some required field has an inherited name and is `__proto__`, has no default, or rejects some answer |
| FormPresence.OrdinaryNamesAreNotMissed | examples/cli-client/host/ui.ts:287-324 | When no required field has an inherited name, no user gets a form accepted that misses one |
| FormPresence.EmptyAnswersAcceptIff | examples/cli-client/host/ui.ts:300-317 | The simplest instance: one required field without default, and a user who answers nothing |
| Grants.CodeServer.Register | examples/scoped-tools/server.ts:86-105 | A client is registered if and only if it names at least one redirect URI and all are allowed |
| Grants.CodeServer.Authorize | examples/scoped-tools/server.ts:106-124 | A code is issued for the requested scope if and only if the redirect URI is registered for the client |
| Grants.CodeServer.Token | examples/scoped-tools/server.ts:125-138 | A pending code is exchanged for a token of its scope and is gone; any other code changes nothing |
| Grants.CodeServer.VerifyBearer | examples/scoped-tools/server.ts:146-152 | A header is accepted if and only if it bears an issued token, with that token's scopes |
| Grants.NonEmptyIs | examples/scoped-tools/server.ts:151-151 | Scopes are the words between the spaces, in order, the empty ones left out |
| Grants.ClientGetsToken | examples/scoped-tools/server.ts:86-138 | Whatever else happens in between, a client gets a code for exactly the redirect URIs it registered, and for the code a token that keeps the scope it asked for |
| Grants.UnknownCodeGivesNothing | examples/scoped-tools/server.ts:125-130 | An unknown or used code gives no token |
| Grants.CodeStepKeeps | examples/scoped-tools/server.ts:86-138 | Every step keeps: one token a code at most, with its scope, and pending codes are unused |
| Grants.EveryCodeRunConserves | examples/scoped-tools/server.ts:86-138 | With fresh random values, over every run each code yields at most one token, with exactly the scope it was issued for |
| Grants.RunsFromStartConserve | examples/scoped-tools/server.ts:86-138 | So it does from the empty maps on |
| Grants.CredentialsServer.Issue | examples/shared/src/clientCredentialsAuthServer.ts:79-114 | A token is issued if and only if id and secret are those of a client, with the granted scopes and a lifetime of 3600 seconds |
| Grants.CredentialsServer.VerifyAccessToken | examples/shared/src/clientCredentialsAuthServer.ts:123-135 | Unknown tokens are rejected, expired ones rejected and deleted, others accepted with their record |
| Grants.GrantedIs | examples/shared/src/clientCredentialsAuthServer.ts:103-104 | A scope is granted if and only if it is requested and, for a limited client, allowed |
| Grants.GrantedKeepsOrder | examples/shared/src/clientCredentialsAuthServer.ts:103-104 | Granted scopes keep the order of the request |
| Grants.VerifiedIff | examples/shared/src/clientCredentialsAuthServer.ts:123-135 | A token is accepted with the record it was issued with if and only if the clock shows less than its end |
| Grants.IssuedIsAccepted | examples/shared/src/clientCredentialsAuthServer.ts:103-135 | An issued token is accepted with its record up to its end, whatever is issued under other tokens and verified before |
| Grants.ExpiredStaysRejected | examples/shared/src/clientCredentialsAuthServer.ts:123-135 | A token rejected as expired stays rejected whatever is issued or verified meanwhile and whatever the clock shows |
| VerdictCache.Gateway.ConnectCached | examples/guides/advanced/gateway.examples.ts:167-187 | A connect is given the fresh verdict, if any, and fills the cache if and only if it was given none |
| VerdictCache.FillsAreSpaced | examples/guides/advanced/gateway.examples.ts:154-187 | Under a monotone clock two fills of one key in a row lie at least one horizon apart |
| VerdictCache.FillsNeedTime | examples/guides/advanced/gateway.examples.ts:154-187 | k fills of one key need a span of at least k-1 horizons |
| VerdictCache.FreshEntryIsSupplied | examples/guides/advanced/gateway.examples.ts:158-187 | Under a monotone clock, within the horizon of a fill every later connect with that key is given its verdict, whatever connects come between |
| VerdictCache.PriorIff | examples/guides/advanced/gateway.examples.ts:154-171 | A verdict is supplied if and only if it is stored and less than 24 hours old |
| VerdictCache.SuppliedWasFound | examples/guides/advanced/gateway.examples.ts:158-187 | Over any run, a supplied verdict was found by an earlier connect with that key less than 24 hours before |

## Left out

- ProcessFile.SecondRunIsCleanIff: asks that no snippet line opens a fence and that no opener of the file names the file itself; a snippet that opens a fence changes what the next scan finds, and what becomes of it depends on the snippet the new fence names.
- ProcessFile.Workspace.ProcessFile: asks that, of the sources the openers name, no path extends another one behind a `#`, and that no region is asked for both under a `.ts` ending and under another one; otherwise the lookups differ as `SnippetSync.LookupsAreTransparentIff` and `SnippetSync.TransparentIffApart` say, and what a run makes of it depends on the order of its fences.
- Delivery.EveryRunDelivers: asks that the followed stream's name is not empty and holds no `_`, and that its clock readings rise and have 13 digits; random parts hold no `_`, as base 36 writes none; an empty name is never replayed, since the source takes it for no stream; live delivery while connected is taken as immediate.
- Conversation.ChatSession.RunModelRounds: an error thrown between two tool calls is not modelled, since executing a call turns failures into error results.
- FormInput.AcceptIsSound: array items and text lengths or formats are not constrained, because the source does not check them.
- BoardRuns.EveryRunKeepsInv: the loop of a work-through call is modelled segment by segment between its awaits, as a step of a run, and the requests are taken to carry a progress token.
- SyncRun.SyncSnippets: asks the same of all openers of the targets together, and that none of them names a target, as leaving example files out of the walk intends; otherwise `SnippetSync.CachedFileHidesWrite` applies. The walk that finds the files and the printed report are left out.
- Strings are sequences of characters, not UTF-16 code units; `toLowerCase`, `Number` and path resolution are parameters; event ids are compared character by character, not by locale.
- HTTP, stdio, processes and file I/O: the file system is a map, requests are step inputs.
- Request fields other than the messages (tools, token limits, temperature), the readers of provider responses, and the JSON text of tool arguments, which is carried as a value.
- Appending to the content of the last request message happens on values: aliasing between the request and its last message is not captured.
- Sealed state and random tokens are ideal: unforgeable, fresh, and without expiry of the seal.
- The allowed-redirect test of the code server is a parameter; building redirect locations is URL parsing.
- The provision handler of the input-required guide and the one-round handlers beside it: one question each, nothing carried.
- Resource references, mention extraction, truncation, board rendering and tool definitions: formatting without state.
- An array-valued answer for a form field named `__proto__` would replace the prototype of the content; the model only says that no entry is added.
- The SDK's own protocol engine (client, server, transports, middleware) is not part of this model.
