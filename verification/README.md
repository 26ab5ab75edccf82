# Verified models of the agent runtime

Dafny models of seven parts of the runtime, each with the properties that hold over all inputs, all runs or all
interleavings. `dafny verify dfyconfig.toml` checks everything.

| part | modules |
|---|---|
| Shared | Basics, Text |
| Message splitter | SplitScan, Splitter, SplitTermination, SplitFences, SplitExact, SplitInput, SplitTags, SplitPutIn, SplitConservation, SplitResult, SplitCuts |
| Tool-call history | Messages, Sanitizer, Coherence, SanitizerResults, Survivors, EmergencyTrim, TrimResults, Dispatch, DispatchProofs, DispatchResults, Compaction |
| Path globs | Glob, GlobSegments, GlobBytes |
| Session store and migration | JsonlStore, JsonlProofs, Migration, MigrationProofs |
| Schedulers | ActiveHours, Heartbeat, HeartbeatProofs, Cron, CronProofs, CronWaits |
| Run control | RunControl, RunControlProofs |
| Indexed stores and merge | MediaStore, HistoryStore, HistoryRuns, MergePatch, MergeInPlace |

How things are modelled:

- Text is a sequence of runes, time an integer, a message its role, content, media, reasoning, call ids and result id.
- A method follows its source loop by loop and is proved against a function of its inputs or of the old state; the
  lemmas speak about those functions. What such a function computes is also told without it, in the numbers, windows
  and conditions of the source: SplitCuts, Survivors, TrimResults, DispatchResults, CronWaits and single lemmas beside
  the other models.
- The session store carries the number of writes that still succeed. A write behind the last one fails, which stands
  for a failed write and for a crash alike; every operation is specified for every such number.
- The heartbeat loop and the cron service are state machines over their steps. Their own methods are proved equal to
  the functions the steps use. Each lock-protected section is one step.
- File writes are atomic, ids are fresh, map iteration takes any order, and time never goes back.

Where the code does less than its documentation says, the code is modelled and the exact condition proved:

- SplitMessage (split.go:112-120) puts a long header back in front of the text it came from and can run for ever:
  `SplitResult.SplitterCanRunForEver`, `SplitInput.EndsIffNothingStalls`, `SplitTermination.EndsIffHeaderFits`.
- The sanitizer trims result ids but not call ids (context.go:1166-1179), so a call turn whose ids have outer white
  space is dropped: `DispatchProofs.TurnIsWellFormedIff`.
- wildcardPatternToRegexp compiles literals byte by byte, so patterns outside ASCII lose their meaning:
  `GlobBytes.KeepsMeaningIff`.
- TruncateHistory counts lines, not messages: `JsonlProofs.TruncateKeepsLastIff`.
- AdaptiveInterval does not cap a base that exceeds the maximum: `ActiveHours.BackoffIsCappedIff`.
- Run keys join channel and chat with a colon that either may contain: `RunControlProofs.SameKeyIff`.
- An invalid heartbeat event is stored, and the store does not start again: `HistoryRuns.ReadableIffValidEvents`.
- mergeMap takes patch objects over with their nulls: `MergePatch.MergeIsPatchIff`.

## Model

| member | source | states |
|---|---|---|
| SplitScan.FindLastNewlineInRange | pkg/channels/split.go:188-196 | Index of the last newline among the last `searchWindow` runes of the range, or start - 1; depends on the range alone. |
| SplitScan.FindLastSpaceInRange | pkg/channels/split.go:200-208 | The same for a space or tab. |
| SplitScan.FindNewlineFrom | pkg/channels/split.go:177-184 | First newline at or after the index, or -1. |
| SplitScan.FindNextClosingCodeBlockInRange | pkg/channels/split.go:166-173 | Position behind the first three backticks of the range, or -1. |
| SplitScan.FindLastUnclosedCodeBlockInRange | pkg/channels/split.go:144-162 | With fences counted from the left, three runes each: the last fence if their number is odd, else -1. |
| SplitScan.LastInIsLast | pkg/channels/split.go:188-208 | The scan for a separator finds a rune that is one, inside the window, with none behind it. |
| SplitScan.FirstFenceIsFirst | pkg/channels/split.go:166-173 | The scan for a closing fence passes over no fence. |
| Splitter.OpenEnd | pkg/channels/split.go:64-124 | Where a chunk ends when its block does not close in time: inside the block, before it, or the last resort. |
| Splitter.FencedEnd | pkg/channels/split.go:56-125 | Extends to the closing fence when it ends within maxLen, else OpenEnd. |
| Splitter.Iterate | pkg/channels/split.go:32-137 | One iteration in buffer indices, with the buffer rewritten, is one step on the text that is left. |
| Splitter.SplitMessage | pkg/channels/split.go:13-140 | For every call on which the loop ends: the chunks are those of the step function run to its end; for maxLen <= 0 the text itself or nothing. |
| SplitCuts.EveryChunkIsCut | pkg/channels/split.go:32-137 | Every iteration of every run, told from the runes alone, with all windows and limits in numbers: in plain text the last newline of 200 runes, else the last space or tab of 100, else the limit; past a closing fence that ends in time; inside an open block, in front of it, or inside it all the same; the blanks and headers that are dropped and put back. |
| SplitCuts.WordsStayWhole | pkg/channels/split.go:45-51 | In a text without fences no word is cut that has a separator within reach. |
| SplitCuts.FencesAreUnique | pkg/channels/split.go:144-162 | The fences that are counted are the one list of three backticks, apart from each other, that overlaps every other three backticks from the left. |
| SplitTermination.ChunksFit | pkg/channels/split.go:32-138 | No chunk of any run is longer than maxLen, in any branch. |
| SplitTermination.RestShrinks | pkg/channels/split.go:80-98 | When headers fit, every iteration leaves a shorter text, although two branches put a header back. |
| SplitTermination.HeadersStayFit | pkg/channels/split.go:89-97 | The rewritten buffer has no header longer than the bound the text had. |
| SplitTermination.SplitterEnds | pkg/channels/split.go:31-139 | For maxLen >= 10 and headers of at most maxLen - 7 runes the loop ends. |
| SplitTermination.NeverEnds | pkg/channels/split.go:112-120 | From a stalled text no number of iterations ends the loop. |
| SplitTermination.EndsIffHeaderFits | pkg/channels/split.go:112-120 | For one block that is never closed and maxLen >= 5: the loop ends if and only if the text fits or the header has at most maxLen - 7 runes; below maxLen 10 no header is that short. |
| SplitExact.NoHeadwayStalls | pkg/channels/split.go:80-121 | An iteration that does not shorten the text leaves a stalled one, or one that the next iteration makes shorter. |
| SplitInput.EndsIffNothingStalls | pkg/channels/split.go:31-139 | For maxLen >= 10, well-placed fences and a message that does not end in white space, told from the message alone: the loop ends if and only if no block opens with a header of at least maxLen - 6 runes, no other fence within maxLen runes from there on, and more than maxLen runes left. A newline in front is taken off by one iteration first. |
| SplitInput.EndsIffSettledEnds | pkg/channels/split.go:31-139 | The same for every message with well-placed fences, whatever its ends: the blocks are looked at behind the first cut inside a block, which trims the white space at the end; up to it every cut shortens the text. |
| SplitInput.StepKeepsStalls | pkg/channels/split.go:32-137 | Every iteration leaves exactly the blocks with this property that were there before, across all branches. |
| SplitTermination.SmallLimitsEnd | pkg/channels/split.go:45-51 | For maxLen below 5 the loop always ends. |
| SplitTermination.EmptyCutNeverEnds | pkg/channels/split.go:112-120 | For maxLen 5 a cut inside a block sends nothing but a closing fence, and so do all that follow. |
| SplitExact.HaltsIffNeverStalls | pkg/channels/split.go:31-139 | Told from the run: the loop ends if and only if no iteration leaves such a block at the front. |
| SplitResult.SplitterCanRunForEver | pkg/channels/split.go:112-120 | A text of 16 runes on which the loop does not end. |
| SplitTags.TaggedNextIsNext | pkg/channels/split.go:32-137 | Tagging each rune with its origin does not change what an iteration does. |
| SplitConservation.StepKeeps | pkg/channels/split.go:32-137 | Each iteration keeps: every rune of the message that is not white space is in exactly one place and in order, and copies start and end only where they may. |
| SplitConservation.NothingLost | pkg/channels/split.go:31-139 | When the loop ends, every rune of the message that is not white space is in the chunks once and in order. Everything else is white space, a closing fence at the end of a chunk, or a copied header: it starts the chunk behind a closed one with a fence of the message, runs on without a gap, and a newline stands behind its end and nowhere else. A header cut at the end of a chunk goes on later. |
| SplitPutIn.HeaderEndsThere | pkg/channels/split.go:67-77 | A copied header is the fence line up to its last rune with ink, or the three backticks alone. |
| SplitPutIn.CopyRunsBack | pkg/channels/split.go:91-97 | Every copied rune belongs to a copy that runs, rune by rune of the message, from a place where a copy may start. |
| SplitConservation.CutCopyContinues | pkg/channels/split.go:93-97 | A copy that starts inside a chunk goes on with one that was cut at the end of an earlier chunk. |
| SplitFences.FencesDivide | pkg/channels/split.go:144-162 | A cut outside every fence divides the fences that the scan counts. |
| SplitFences.ChunkIsBalanced | pkg/channels/split.go:53-125 | For well-placed fences, the chunk of any branch holds an even number of them. |
| SplitFences.ChunksAreBalanced | pkg/channels/split.go:31-139 | For maxLen >= 10 and well-placed fences every chunk but the last is balanced. |
| SplitResult.ChunksAreSound | pkg/channels/split.go:7-13 | Length, content and fence balance together, for every finished run. |
| Text.TrimSpaceTwice | pkg/agent/context.go:1179 | Trimming white space is idempotent; ids are compared trimmed. |
| Sanitizer.FindsOpenTurn | pkg/agent/context.go:1116-1133 | Whether the nearest message that is not a tool message is a call turn. |
| Sanitizer.DropMisplaced | pkg/agent/context.go:1100-1155 | The first pass. |
| Sanitizer.CollectResults | pkg/agent/context.go:1165-1220 | For one call turn: the tool messages behind it, the first result of each call id, and whether all ids have one. |
| Sanitizer.KeepAnswered | pkg/agent/context.go:1161-1240 | The second pass, block by block. |
| Sanitizer.SanitizeHistoryForProvider | pkg/agent/context.go:1095-1243 | Both passes; the function SanitizerResults and Survivors speak about. |
| Survivors.FirstPassPlaces | pkg/agent/context.go:1100-1155 | The places of what the first pass keeps: call turns right behind a kept user or tool message, tool messages of a kept turn, all else but system messages. |
| Survivors.SecondPassPlaces | pkg/agent/context.go:1161-1240 | The places of what the second pass keeps, in a list the first pass has left. |
| Survivors.SanitizeKeepsSurvivors | pkg/agent/context.go:1095-1243 | Exactly which messages of any history survive, told by their places: a kept turn stays if and only if each of its calls is answered in the run behind it, with its first answers and no other tool message. |
| Coherence.CoherentIsWellFormed | pkg/agent/context.go:1157-1160 | Being well-formed at every index is the same as being coherent read from the front. |
| SanitizerResults.SanitizeIsWellFormed | pkg/agent/context.go:1095-1243 | For every history: no system message; each call turn behind a user or tool message and followed at once by exactly one result per distinct id; no other tool message. |
| SanitizerResults.SanitizeFixedPoints | pkg/agent/context.go:1095-1243 | The histories left unchanged are exactly the well-formed ones. |
| SanitizerResults.SanitizeIsIdempotent | pkg/agent/context.go:1095-1243 | A second pass over the result changes nothing. |
| SanitizerResults.SanitizeKeepsFree | pkg/agent/context.go:1095-1243 | The result is a subsequence with all user, plain assistant and unknown messages. |
| SanitizerResults.SanitizeAtUser | pkg/agent/context.go:1095-1243 | A history is sanitized independently in front of a user message and from it on. |
| EmergencyTrim.FindLatestUserMessageIndex | pkg/agent/context_budget.go:571-578 | Index of the last user message, or -1. |
| EmergencyTrim.AnswersAllCalls | pkg/agent/context_budget.go:587-610 | Whether all non-empty call ids are answered right behind the turn, by untrimmed ids. |
| EmergencyTrim.FindLatestToolBoundaryStart | pkg/agent/context_budget.go:580-612 | The last complete call turn, never index 0, or -1. |
| EmergencyTrim.FindStart | pkg/agent/context_budget.go:490-523 | The cut by ratio and recency, moved before the latest user message and the latest boundary. |
| EmergencyTrim.BuildConversation | pkg/agent/context_budget.go:525-556 | Puts a user or tool message right in front of the boundary when it has none. |
| EmergencyTrim.EmergencyTrimMessages | pkg/agent/context_budget.go:486-569 | The whole trimmer; the function TrimResults speaks about. |
| EmergencyTrim.TrimmedIsWellFormed | pkg/agent/context_budget.go:486-569 | Behind a leading system message: that message, then a well-formed subsequence of the rest. |
| EmergencyTrim.TrimmedRepeatsUser | pkg/agent/context_budget.go:558-567 | Without a leading system message, a user message in front comes back twice. |
| EmergencyTrim.TrimmedKeepsLatest | pkg/agent/context_budget.go:517-519 | When the part from the latest user message on is well-formed, it is kept to the letter. |
| TrimResults.BoundaryIsTurn | pkg/agent/context_budget.go:580-612 | A boundary is an assistant message with a call that has an id, each of whose ids a tool message right behind it answers. |
| TrimResults.StartIsFirstWanted | pkg/agent/context_budget.go:489-523 | The kept part starts at the first message that is wanted: for the ratio, for its recency, as the last user message or as the last complete turn, in numbers and places alone. |
| TrimResults.ConversationIsBridged | pkg/agent/context_budget.go:525-556 | What stands between the last complete turn and the last user or tool message in front of it is left out; failing that, one such message from in front of the start is put first. |
| TrimResults.TrimmedIs | pkg/agent/context_budget.go:486-569 | The trimmed list for every list and all numbers, from these two. |
| TrimResults.TrimmedKeepsFrom | pkg/agent/context_budget.go:501-519 | Every user message that does not stand in front of all that is wanted, and has a well-formed rest, starts a part that is kept to the letter. |
| TrimResults.TrimmedDropsBefore | pkg/agent/context_budget.go:498-556 | Of what stands in front of all that is wanted at most one user or tool message is kept. |
| Dispatch.PruneLowValueHistoricalPayloads | pkg/agent/context_budget.go:440-472 | Exactly the old messages over their byte limit are cut; reports whether there was one. |
| Dispatch.SanitizeDispatchMessages | pkg/agent/loop.go:3014-3030 | Drops the assistant messages that say nothing. |
| Dispatch.EnsureNonSystemDispatchMessage | pkg/agent/loop.go:3032-3050 | Appends the fallback user message if and only if there are only system messages. |
| DispatchResults.PrunedIs | pkg/agent/context_budget.go:440-484 | Message by message, in numbers: which are old and over their limit in bytes, and what is left of their text. |
| DispatchResults.BytesAreUtf8 | pkg/agent/context_budget.go:459-467 | The byte length is that of the UTF-8 encoding. |
| DispatchResults.BlankAreDropped | pkg/agent/loop.go:3014-3030 | Exactly the assistant messages without calls, media, text and reasoning are dropped. |
| DispatchResults.FallbackIs | pkg/agent/loop.go:3032-3050 | The message sent in place of none: the caller's without white space around it, or a fixed one. |
| DispatchProofs.PruneKeepsReady | pkg/agent/context_budget.go:440-472 | Pruning changes texts only, so a list that may be sent stays one. |
| DispatchProofs.EmergencyKeepsReady | pkg/agent/context_budget.go:486-569 | So does trimming. |
| DispatchProofs.WithoutBlankCoheres | pkg/agent/loop.go:3014-3030 | Dropping empty replies keeps a list coherent. |
| DispatchProofs.SentIsReady | pkg/agent/loop.go:2161-2163 | What is sent is well-formed behind its system message and ends in a user or tool message. |
| DispatchProofs.TurnIsWellFormedIff | pkg/agent/loop.go:2476-2731 | An appended call turn is well-formed if and only if its ids are distinct and free of outer white space. |
| DispatchProofs.BlankIdsAreNotAnswered | pkg/agent/loop.go:2476-2731 | A call id that starts with a blank is not answered by its own result. |
| DispatchProofs.BuiltIsReady | pkg/agent/context.go:1060-1093 | The first list of a turn may be sent, whatever the stored history. |
| DispatchProofs.RebuiltIsWaiting | pkg/agent/context_budget.go:412-438 | A list rebuilt from any rear part of the turn's stored history may be sent, or is the system message alone. |
| DispatchProofs.EverySentListIsReady | pkg/agent/loop.go:2112-2163 | Through any mix of pruning, trimming, summarizing, sending and appended call turns, every list that is sent is well-formed and ends in a user or tool message. |
| Compaction.CompactToBudget | pkg/agent/context_budget.go:295-381 | Pruned, rebuilt from the summary, trimmed, in this order or trimmed at once: returns the first list that fits within the passes that are allowed, the list itself when nothing is to do, and an error only when none fits. |
| Compaction.StagesKeepWaiting | pkg/agent/context_budget.go:344-371 | After each stage the list may still be sent. |
| Glob.WildcardPatternToRegexp | pkg/agent/context.go:713-749 | The error for a blank pattern, else the rendered pieces, in the order `**/`, `/**`, `**`, `*`, `?`, literal. |
| Glob.ReadRender | pkg/agent/context.go:739-743 | The expression is valid and can be read back, by a reader that takes only metacharacters behind a backslash and only other characters without one: exactly the metacharacters are quoted. |
| Glob.PlainIsItself | pkg/agent/context.go:739-743 | A pattern without metacharacters is its own expression. |
| GlobBytes.Utf8Decodes | pkg/agent/context.go:722-741 | The bytes the loop runs over decode to the pattern by section 3 of RFC 3629. |
| GlobSegments.JoinSplit | pkg/agent/context.go:713-749 | Splitting at slashes and joining again gives the text back. |
| GlobSegments.MatchesName | pkg/agent/context.go:733-738 | `*` and `?` never cross a slash: a segment's pieces take exactly the text before the next one. |
| GlobSegments.MatchesSuffix | pkg/agent/context.go:729-732 | `/**` behind a segment takes nothing, or the next segment and perhaps more. |
| GlobSegments.MatchesDirs | pkg/agent/context.go:723-728 | `**/` in front takes nothing, or the first segment and perhaps more, never the last. |
| GlobSegments.GlobMeansSegments | pkg/agent/context.go:713-749 | The compiled expression matches a clean relative path if and only if the segment-wise matcher does, where `**` takes zero or more segments. |
| GlobBytes.GlobMeansBytes | pkg/agent/context.go:739-741 | For any pattern: the compiled expression means what the segments of the pattern's bytes say, each byte read as one rune. |
| GlobBytes.KeepsMeaningIff | pkg/agent/context.go:713-749 | A pattern means what its segments say on all clean relative paths if and only if it is ASCII, or has a segment that is empty or holds a newline. |
| GlobBytes.WitnessDisagrees | pkg/agent/context.go:739-741 | Any other pattern does not match the path made of its own literals. |
| GlobBytes.NonAsciiIsBroken | pkg/agent/context.go:739-741 | A pattern that is one rune outside ASCII, whichever, does not match itself. |
| JsonlStore.NormalizeDiscoveredTools | pkg/memory/jsonl.go:345-364 | The trimmed names that are not empty, each once. |
| JsonlStore.ReadMessages | pkg/memory/jsonl.go:149-194 | The messages that decode, on the lines behind the first `skip` that are not empty. |
| JsonlStore.CountLines | pkg/memory/jsonl.go:199-218 | The lines that are not empty, corrupt ones included. |
| JsonlStore.Store.AddMsg | pkg/memory/jsonl.go:236-286 | Append, then metadata; whichever write fails, the files are those after the writes before it, and no other session changes. |
| JsonlStore.Store.GetHistory | pkg/memory/jsonl.go:288-308 | The visible messages, or the error for unreadable metadata. |
| JsonlStore.Store.TruncateHistory | pkg/memory/jsonl.go:405-439 | One metadata write with the recounted lines and the new offset. |
| JsonlStore.Store.ReplaceHistory | pkg/memory/jsonl.go:441-472 | Metadata first, then the rewritten log. |
| JsonlStore.Store.CompactLog | pkg/memory/jsonl.go:480-517 | Nothing at offset 0; else metadata first, then the rewritten log. |
| JsonlStore.Store.PutSummary | pkg/memory/jsonl.go:324-343 | One metadata write. |
| JsonlStore.Store.PutDiscoveredTools | pkg/memory/jsonl.go:385-403 | One metadata write. |
| JsonlProofs.StepKeepsRange | pkg/memory/jsonl.go:236-517 | Whatever takes effect of an operation, the offset stays within the lines of the log. |
| JsonlProofs.CrashLosesNothing | pkg/memory/jsonl.go:459-462 | After a crash between any two writes, the history is the operation's result or ends with the history from before. |
| JsonlProofs.RunLosesNothing | pkg/memory/jsonl.go:236-517 | The same at every step of every run with any crashes, corrupt lines present or not. |
| JsonlProofs.ActsOnList | pkg/memory/jsonl.go:236-517 | Adding appends, setting replaces and compacting changes nothing visible, with corrupt lines too. |
| JsonlProofs.CompactedFile | pkg/memory/jsonl.go:474-517 | Compacting leaves one line for each visible message and offset 0; at offset 0 it changes nothing. |
| JsonlProofs.TruncateKeepsLastIff | pkg/memory/jsonl.go:424-433 | The last k messages are kept if and only if no corrupt line among the last k lines takes the place of a message in front of them. |
| JsonlProofs.TruncateCanKeepTooFew | pkg/memory/jsonl.go:424-433 | Two messages with a corrupt line behind them, truncated to two. |
| JsonlProofs.StoreRefinesList | pkg/memory/jsonl.go:236-517 | Without corrupt lines every run of operations acts as on a plain list. |
| JsonlProofs.OthersKeepSummaryAndTools | pkg/memory/jsonl.go:324-403 | Summary and tools change only through their own operation, whatever crashes. |
| JsonlProofs.CountIsKept | pkg/memory/jsonl.go:236-517 | A completed operation keeps the stored count that of the lines; truncating and replacing set it right. |
| JsonlProofs.NewSessionIsEmpty | pkg/memory/jsonl.go:103-133 | A session without files has no messages, no summary and no tools. |
| JsonlProofs.StoredTools | pkg/memory/jsonl.go:345-364 | A tool is on file if and only if it is not empty and some given name is it once trimmed. |
| JsonlProofs.KeysShareFilesIff | pkg/memory/jsonl.go:96-101 | Two keys share their files if and only if they differ in nothing but colons, slashes, backslashes and underscores. |
| JsonlProofs.OnlySharersChange | pkg/memory/jsonl.go:83-101 | An operation on one key changes nothing for any key that does not share its files. |
| Migration.ImportSession | pkg/memory/migration.go:84-109 | History, summary, tools, in that order, up to the first write that fails. |
| Migration.MigrateFromJSON | pkg/memory/migration.go:32-123 | Entry by entry: what is skipped, the key, the import, the rename, the count and the error. |
| MigrationProofs.ImportIs | pkg/memory/migration.go:79-109 | An import is complete exactly when there are enough writes; one cut short leaves a session from which the whole import gives the same. |
| MigrationProofs.RenamedIsNotImportable | pkg/memory/migration.go:66-68 | A file is renamed to end in .migrated, and then not imported again. |
| MigrationProofs.ResumeFrom | pkg/memory/migration.go:43-120 | After a run cut off anywhere, a full run ends as a full run would have in the first place. |
| MigrationProofs.InterruptionsDoNotMatter | pkg/memory/migration.go:79-83 | Any number of interruptions, each behind any write or rename, then one full run: the same files as one run without interruption. |
| MigrationProofs.LastFileWins | pkg/memory/migration.go:75-112 | After a full run a session holds the messages of the last file imported into it, and the file is renamed. |
| MigrationProofs.OthersStay | pkg/memory/migration.go:43-120 | Sessions that no file is imported into are untouched. |
| MigrationProofs.FullRun | pkg/memory/migration.go:43-123 | A full run succeeds, counts the files it imports, renames each of them and leaves all others. |
| MigrationProofs.ImportableIff | pkg/memory/migration.go:47-72 | Exactly the files that decode and are named .json are imported, but no metadata file of the store. |
| MigrationProofs.KeyIs | pkg/memory/migration.go:75-79 | A file goes to the session it names, or to that of its own name without .json. |
| ActiveHours.ParseHHMM | pkg/heartbeat/schedule.go:128-140 | Minutes within a day, or nothing; accepts what Sscanf accepts. |
| ActiveHours.ParsesIff | pkg/heartbeat/schedule.go:128-140 | Exactly the strings that are read as a time of day, with the paddings and signs Sscanf takes. |
| ActiveHours.ClockReads | pkg/heartbeat/schedule.go:128-140 | Two digits, a colon and two digits are read as they are written, if there is such a time. |
| ActiveHours.WithinIsInWindow | pkg/heartbeat/schedule.go:21-72 | The branches agree with the window described by the time of day alone. |
| ActiveHours.AdjustIsLeast | pkg/heartbeat/service.go:347-352 | The least time in the window that is not before the argument: same-day, overnight and equal-endpoint windows, and no window. |
| ActiveHours.AdaptiveInterval | pkg/heartbeat/schedule.go:81-102 | The loop computes the doubled base, capped. |
| ActiveHours.BackoffIsCappedIff | pkg/heartbeat/schedule.go:74-102 | It is min(base * 2^n, max) if and only if something was doubled or the base does not exceed the maximum. |
| ActiveHours.BaseCanExceedMaximum | pkg/heartbeat/schedule.go:93-101 | A base of 200 minutes with a maximum of 120 is not capped. |
| ActiveHours.BackoffGrows | pkg/heartbeat/schedule.go:74-102 | More OK answers never shorten the interval when the base does not exceed the maximum. |
| Heartbeat.SelectNextJob | pkg/heartbeat/service.go:310-338 | The idle job with the least slot, the first of them; -1 exactly when all run. |
| Heartbeat.SlotIsLeast | pkg/heartbeat/service.go:323-327 | A slot is the least time in the job's window that is neither before it is due nor before it is allowed. |
| Heartbeat.Loop.Dispatch | pkg/heartbeat/service.go:204-212 | Marks the job, sets the next allowed start and counts the run; nothing if the job runs. |
| Heartbeat.Loop.ApplyCompletion | pkg/heartbeat/service.go:247-260 | The job is idle again and due its interval after the finish; foreign indices are ignored. |
| HeartbeatProofs.IntervalIsRest | pkg/heartbeat/service.go:354-359 | The interval in numbers: only adaptive jobs double theirs, up to a maximum, 30 and 120 minutes by default. |
| Heartbeat.Loop.DrainInFlightCompletions | pkg/heartbeat/service.go:276-287 | Applies every outstanding completion, in order of arrival. |
| HeartbeatProofs.StepKeepsInv | pkg/heartbeat/service.go:143-287 | Each step of loop and runs keeps the invariant. |
| HeartbeatProofs.EveryRunIsSafe | pkg/heartbeat/service.go:143-245 | In every run: the minimum gap, and no more than it; no job with two runs; behind a run a job has that run's count, and is due and starts no sooner than finish plus interval, told in numbers; inFlight is the number of running jobs and of executing runs plus buffered completions. |
| HeartbeatProofs.NoJobRunsTwice | pkg/heartbeat/service.go:204-212 | Any two runs that execute or wait in the channel are of different jobs. |
| HeartbeatProofs.SendNeverBlocks | pkg/heartbeat/service.go:162 | The channel has room whenever a run finishes. |
| HeartbeatProofs.EveryDispatchIsApplied | pkg/heartbeat/service.go:276-287 | Once the loop has returned, every dispatched run was applied exactly once and no job is marked running. |
| HeartbeatProofs.DrainIsNeverStuck | pkg/heartbeat/service.go:276-287 | While the loop waits after a stop there is a run to wait for. |
| HeartbeatProofs.RunsAreTimed | pkg/heartbeat/service.go:214-228 | Every completion tells a finish behind its run's start, and not one to come. |
| Cron.Service.Start | pkg/cron/service.go:84-109 | Loads, recomputes, saves; the states left by a failed load or save. |
| Cron.Service.RecomputeNextRuns | pkg/cron/service.go:347-355 | Every enabled job, and no other, gets a newly computed next run. |
| Cron.Service.NextWake | pkg/cron/service.go:357-367 | The loop sleeps until a job is due, and not longer. |
| Cron.Service.CheckJobs | pkg/cron/service.go:173-206 | The due ids in order; exactly the jobs with these ids lose their next run. |
| Cron.Service.HandOff | pkg/cron/service.go:215-243 | The handler gets the first job with the id, or nothing if it is gone. |
| Cron.Service.FinishJob | pkg/cron/service.go:248-302 | A one-shot job is removed or disabled, any other gets its next run. |
| Cron.Service.AddJob | pkg/cron/service.go:408-451 | Appends an enabled job with its next run; one-shot jobs are to be deleted. |
| Cron.Service.RemoveJob | pkg/cron/service.go:470-497 | Removes every job with the id; saves only if there was one. |
| Cron.Service.EnableJob | pkg/cron/service.go:499-526 | Enabling recomputes the next run, disabling clears it, for the first job with the id. |
| CronProofs.DueOnce | pkg/cron/service.go:184-190 | With distinct ids a tick puts an id up at most once. |
| CronProofs.CheckKeepsInv | pkg/cron/service.go:184-206 | A tick clears what it hands out before the lock is released. |
| CronProofs.StartKeepsInv | pkg/cron/service.go:84-109 | A restart, from a file however stale, does not arm a job whose time has passed. |
| CronProofs.StepKeepsInv | pkg/cron/service.go:84-526 | Every event keeps the invariant. |
| CronProofs.OneShotRunsAtMostOnce | pkg/cron/service.go:173-302 | In any interleaving with crashes and failed saves, a one-shot job is handed off at most once, and not before its time. |
| CronProofs.FinishedOneShotIsOff | pkg/cron/service.go:279-287 | Behind its handler a one-shot job is gone, or disabled without a next run. |
| CronWaits.NoJobIsForgotten | pkg/cron/service.go:84-526 | In any interleaving with crashes and failed saves, while the service runs: an enabled one-shot job that is still to come waits for exactly its time; an enabled recurring one is executing or comes round within its interval. |
| CronWaits.HandedIsExecutingOrFinished | pkg/cron/service.go:208-302 | Without a crash every hand-off is executing or has finished. |
| CronWaits.NextRunIs | pkg/cron/service.go:304-337 | When each kind of schedule comes next. |
| CronWaits.DueInOrder | pkg/cron/service.go:184-190 | A tick puts up every enabled job whose next run has come, in order, and nothing else. |
| CronWaits.AddedIsDue | pkg/cron/service.go:408-451 | An added job is due exactly from its first time on. |
| CronWaits.AddedOneShotGoes | pkg/cron/service.go:419-442 | Adding a one-shot job and executing it leaves what was there before. |
| CronWaits.OneShotEnds | pkg/cron/service.go:279-287 | A one-shot job is removed or disabled, as it asks. |
| CronWaits.OthersUntouched | pkg/cron/service.go:248-302 | An execution or a switch concerns the named job alone. |
| CronWaits.WithoutKeepsOthers | pkg/cron/service.go:477-497 | Removing an id keeps all other jobs in order. |
| CronWaits.SwitchedIs | pkg/cron/service.go:499-526 | A switched job has its flag, and a new next run or none. |
| CronWaits.DisabledAreLeft | pkg/cron/service.go:347-355 | A start leaves disabled jobs as they are. |
| RunControl.Controller.CancelRun | pkg/agent/run_control.go:51-91 | Hits exactly the registered run, any or the named one; cancels its context and no other; no active run exactly without a key, an entry or an id; else a mismatch with the active id. |
| RunControl.Controller.RegisterActiveRun | pkg/agent/run_control.go:93-107 | The entry under the key is new and not asked to stop. |
| RunControl.Controller.UnregisterActiveRun | pkg/agent/run_control.go:109-121 | Removes the entry only if it is this run's. |
| RunControl.Controller.RunCancelState | pkg/agent/run_control.go:123-143 | Reports a stop, with its reason, for the registered run that was asked to stop. |
| RunControl.Controller.RunCancelCheckpoint | pkg/agent/run_control.go:145-153 | A stop request comes before a done context. |
| RunControlProofs.StopsIffHit | pkg/agent/run_control.go:51-153 | In every interleaving with fresh ids: a run is told to stop if and only if it is the registered one and a cancel request reached it while it was. |
| RunControlProofs.StopsIffAsked | pkg/agent/run_control.go:51-153 | Told from the calls alone, whatever the ids: a run is told to stop if and only if a call registered it, it was neither unregistered nor replaced since, and a request for it came in since. |
| RunControlProofs.ReasonIs | pkg/agent/run_control.go:41-47 | The reason is told without white space around it, and a fixed one stands for none. |
| RunControlProofs.StopTellsLastReason | pkg/agent/run_control.go:73-75 | In every interleaving, the run is told the reason of the request that reached it last. |
| RunControlProofs.NamedCancelSparesOthers | pkg/agent/run_control.go:71-81 | A request that names a run changes no other entry. |
| RunControlProofs.UnregisterRemovesOnlyItsRun | pkg/agent/run_control.go:109-121 | An entry goes if and only if it is the named run's; a successor stays. |
| RunControlProofs.KeyIs | pkg/agent/run_control.go:32-39 | The key is made of channel and chat without white space around them; a blank one gives none. |
| RunControlProofs.SameKeyIff | pkg/agent/run_control.go:32-39 | Two pairs of channel and chat share a key if and only if they are equal or a colon moved from a channel to a chat. |
| RunControlProofs.StopNamesItsChat | pkg/agent/run_control.go:32-39 | Between channels without a colon, the request that stopped a run was made for its channel and chat. |
| RunControlProofs.ColonsCollide | pkg/agent/run_control.go:32-39 | Whenever a colon can move, a request for one chat stops the run of another. |
| MediaStore.InverseIs | pkg/media/store.go:51-54 | The scope index holds exactly the live references, and no empty set. |
| MediaStore.FileMediaStore.Store | pkg/media/store.go:91-109 | The new item is added and the maps stay inverse; nothing for a missing file. |
| MediaStore.FileMediaStore.ResolveWithMeta | pkg/media/store.go:112-133 | The entry, or unknown. |
| MediaStore.FileMediaStore.ReleaseAll | pkg/media/store.go:138-170 | Exactly the scope's items go, in any iteration order; their paths, one each, are returned for deletion. |
| MediaStore.FileMediaStore.CleanExpired | pkg/media/store.go:175-220 | Exactly the items stored before the cutoff go, and as many are counted; none when the age is not positive. |
| MediaStore.FileMediaStore.Remove | pkg/media/store.go:194-205 | One reference leaves all three maps, and an emptied scope with it. |
| MediaStore.ResolvesIffLive | pkg/media/store.go:91-220 | After any run a reference resolves to an item if and only if it was stored so and neither released nor cleaned since. |
| HistoryStore.LoadFile | pkg/heartbeat/history_store.go:214-242 | All records, or the error for a line that does not decode or is invalid. |
| HistoryStore.DecodedIffHolds | pkg/heartbeat/history_store.go:214-242 | A file decodes to a list if and only if it holds that list and every record is valid. |
| HistoryStore.IndexIs | pkg/heartbeat/history_store.go:296-302 | The index gives the last position of every id that occurs, and nothing else. |
| HistoryStore.IndexIsPosition | pkg/heartbeat/history_store.go:296-302 | With distinct ids it gives each record's position. |
| HistoryStore.Store.RebuildIndex | pkg/heartbeat/history_store.go:296-302 | The loop builds that index. |
| HistoryStore.Store.Start | pkg/heartbeat/history_store.go:64-84 | Reads the file back, cut to its newest records; fails exactly for a bad file or a failed rewrite, with nothing changed. |
| HistoryStore.Store.AppendEvent | pkg/heartbeat/history_store.go:175-212 | While running, appends and drops the oldest at the cap; file, memory and index stay together; nothing changes when the write fails. |
| HistoryStore.Store.Delete | pkg/heartbeat/history_store.go:144-162 | Removes the one indexed record, or nothing. |
| HistoryStore.Store.Clear | pkg/heartbeat/history_store.go:164-173 | Empties memory and file, or neither. |
| HistoryStore.Store.Get | pkg/heartbeat/history_store.go:134-142 | A record with the id exactly when there is one. |
| HistoryStore.Store.List | pkg/heartbeat/history_store.go:99-132 | The filtered list with the default and maximum limits. |
| HistoryStore.NewestIsNewest | pkg/heartbeat/history_store.go:110-130 | That list is the newest part of all matching records, newest first. |
| HistoryStore.ListedAre | pkg/heartbeat/history_store.go:99-132 | The listed records, told by their places: they meet the four conditions that are set, and every other that does is older than all of them, of which there are then as many as the limit allows. |
| HistoryStore.ValidIff | pkg/heartbeat/history_store.go:304-327 | A record is valid with an id, a time, one of five states and an agent that is not all white space. |
| HistoryRuns.RunStaysSynced | pkg/heartbeat/history_store.go:64-302 | After any run the file holds what memory holds, and memory stays within the cap. |
| HistoryRuns.FileEqualsMemory | pkg/heartbeat/history_store.go:64-302 | With valid events the decoded file equals memory after any run. |
| HistoryRuns.ReadableIffValidEvents | pkg/heartbeat/history_store.go:175-242 | The file can be read back at every point of a run if and only if every event that was taken is valid; appendEvent does not check. |
| HistoryRuns.InvalidEventBlocksRestart | pkg/heartbeat/history_store.go:175-242 | After one event without a time, and a stop, the store does not start again. |
| HistoryRuns.RunIndexIsExact | pkg/heartbeat/history_store.go:296-302 | With fresh ids the index gives the position of every record after any run. |
| HistoryRuns.StoreRefinesPlain | pkg/heartbeat/history_store.go:64-302 | With valid events and fresh ids the store is the drop-oldest list through any run of events, deletions, clears, stops, starts and failed writes, and a start would read that list. |
| HistoryRuns.DropsOldest | pkg/heartbeat/history_store.go:191-211 | Appending one by one with the cap keeps the last records of everything that was appended. |
| HistoryStore.RestartIffValid | pkg/heartbeat/history_store.go:214-242 | A file that holds a list reads back as that list if and only if every record is valid. |
| MergeInPlace.Node.Merge | pkg/gateway/admin.go:289-303 | On a tree of maps changed in place, with the keys in any order, the result is the merge; the tree stays a tree. |
| MergeInPlace.Node.Put | pkg/gateway/admin.go:300 | The member is replaced and no other changes. |
| MergePatch.ErasedMergeIsPatch | pkg/gateway/admin.go:288-303 | For a target without null members, the merge with its nulls erased is MergePatch of section 2 of RFC 7396. |
| MergePatch.MergeIsPatchIff | pkg/gateway/admin.go:288-303 | For every target, the merge is that result if and only if patch objects that land on no object are free of nulls. |
| MergePatch.MergeCanKeepNulls | pkg/gateway/admin.go:288-303 | A patch object with a null, merged into an empty object, keeps the null. |
| MergePatch.TwiceIsPatch | pkg/gateway/admin.go:288-303 | For every target and patch, merging twice gives that result. |
| MergePatch.MergeTwiceIff | pkg/gateway/admin.go:288-303 | Merging twice is merging once under exactly the same condition. |

## Left out

- SplitTermination.SplitterEnds: a sufficient bound on headers, for any text. The exact conditions are `SplitInput.EndsIffNothingStalls` and `SplitTermination.EndsIffHeaderFits`; for backtick runs inside lines there is no exact condition.
- SplitInput.EndsIffNothingStalls: the message does not end in white space. White space at the end counts for a late block only while no earlier cut inside a block has trimmed it; `SplitInput.EndsIffSettledEnds` covers such messages, with the text behind that cut.
- Splitter.SplitMessage: speaks only of calls that return; its precondition is exactly that the loop ends.
- DispatchProofs.EverySentListIsReady: requires call ids that are distinct and free of outer white space, because the code does not make them so, and a user message that is not blank.
- EmergencyTrim.TrimmedIsWellFormed: requires a leading system message. Without one the code puts the first message in front of a list that may hold it already (`EmergencyTrim.TrimmedRepeatsUser`); forceCompression, the only code that would pass such a list (loop.go:2918-2924), has no caller.
- GlobSegments.GlobMeansSegments: patterns of ASCII characters in which `**` is a whole segment. For all other patterns in which it is, see `GlobBytes.KeepsMeaningIff`; inside a segment `**` means `.*` and crosses slashes. Paths are cleaned before they are matched.
- JsonlStore.NormalizeDiscoveredTools: the sorted list is modelled as the set of its elements.
- Cron.Service.Start: a store file that decodes only in part leaves no jobs here, while the source keeps the decoded part in memory and does not run.
- MergeInPlace.Node.Put: copies a patch object, as below.
- ActiveHours.AdjustIsLeast: days of 24 hours at a fixed offset; daylight saving and the panic for an unknown time zone are not modelled.
- MergeInPlace.Node.Merge: a patch object that is taken over is copied, while the source shares it between target and patch; what a later change of the target does to the patch is not modelled.
- Migration.MigrateFromJSON: a rename fails only when nothing takes effect any more, and an older `.migrated` file of the same name stays in the directory list.
- Torn appends in the session store and in the heartbeat history: an append takes effect as a whole or not at all.
- Lines over the scanners' size limits, and all other I/O errors that leave a file unread.
- Session keys that share a sanitized file name but not a lock shard: one operation at a time is modelled for every file.
- Timestamps and the stored key in session metadata, and the times, status and payload of cron jobs.
- Reuse of the last compaction for an unchanged budget signature (loop.go:2108).
- Token estimates, budgets and window selection (context_budget.go:79-293): whether a list fits is a parameter.
- Resolution of media references, the system prompt, summaries, tool execution and model calls: arbitrary texts.
- Persisted heartbeat state (LoadStates, SaveStates) and the idle window.
- Cron expressions, which are a parameter, and UpdateJob and Load.
- The background cleaner's goroutine and the deletion of the files themselves: the paths to delete are returned.
- Rounding of the retention ratio, which is computed over the reals, and path separators other than the slash.
- Overflow of 64-bit integers in intervals and counters.
- Checkpoint cut and compensation, the bus and MCP close protocols, HTTP handlers, configuration, credentials, channel adapters and provider clients.
