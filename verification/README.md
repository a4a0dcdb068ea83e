# LogMenu dialogue log, modelled in Dafny

LogMenu is a Stardew Valley mod that keeps a scrollable history of the
dialogue the player has seen. Every fifteenth game tick, its `ModEntry`
looks at the open dialogue box and at the HUD messages on screen. It decides
whether the text on screen is new, cuts it into pieces, and enqueues those
pieces onto a `DialogueQueue`, a first-in first-out log of fixed size that
drops its oldest entry to make room.

This project models that core, in three revisions of the entry class, and
proves what each one logs.

- `common.dfy` (`Common`): the game's values that the mod reads (the
  speaker's `Dialogue`, reduced to a display name and a portrait index), the
  exceptions, and the log element `(speaker, portraitIndex, text)`.
- `text.dfy` (`Text`): the .NET string operations the code relies on:
  - `Split` and `string.Join` on `Environment.NewLine`;
  - `IsNullOrWhiteSpace` and `IndexOf`;
  - the `^` line-break marker;
  - the `"> "` response block.

  It also proves that `Split` and `Join` are inverse.
- `dialogue_queue.dfy` (`DialogueQueues`): `DialogueQueue<T>` as a class
  over a `seq<T>` with a constant `maxSize`. Its specification functions are
  `Push` and `PushAll`, and a lemma proves that the log always holds the
  newest `maxSize` items, oldest first.
- `chunker.dfy` (`Chunker`): the chunking rule of `splitDialogue`. Text is
  cut into consecutive groups of `limit` lines and the white-space groups are
  dropped. Lemmas connect the loop's step-by-step chunks with the
  whole-group definition.
- `response_cleanup.dfy` (`ResponseCleanup`): the cleanup of a question's
  response texts.
- `hud_texts.dfy` (`HudTexts`): the `hudTexts` list of HUD texts already
  logged, and its forward prune loop, modelled as written.
- `mod_entry.dfy` (`LogMenuMod`): the current `ModEntry.cs`. A class with the
  fields `dialogueList`, `prevAddedDialogue` and `hudTexts`; one method per
  event handler, each proved against a function that says what one call
  enqueues and what the new state is; and lemmas over one call and over
  several ticks.
- `fifth_line_cut.dfy` (`FifthLineCut`): the single cut that both older
  revisions make, at the first occurrence of the fifth line's text.
- `old_polling.dfy` (`OldPolling`): what the two older `OnUpdateTicked`
  handlers read of the game, and the dedup test they share.
- `logmenu_revision.dfy` (`LogMenuRevision`): `LogMenu/ModEntry.cs`.
- `dialoguelogger_revision.dfy` (`DialogueLoggerRevision`):
  `DialogueLogger/ModEntry.cs`. Its log entry is the two-field
  `DialogueElement(charDiag, text)` of that namespace, named `LoggedLine`
  here so that it does not clash with the three-field element.

Game state is an input to every handler. The `Tick` datatype carries:

- whether the tick is a multiple of 15;
- the open dialogue box, if any;
- `Game1.options.showPortraits`;
- the HUD messages;
- the set of texts `Game1.doesHUDMessageExist` reports.

The configuration (`LogLimit`, `NonNPCDialogue`, `ToggleHUDMessages`) is
passed to each handler as it stands at the time of the call.

Three behaviours of the code that the model keeps as they are:

- There is one `prevAddedDialogue` for every speaker and every box, not one
  entry per speaker or channel (ModEntry.cs:148-155).
- `OnSaveLoaded` replaces the log and `hudTexts` but leaves
  `prevAddedDialogue` as it is (ModEntry.cs:107-110).
- Text of at most `limit` lines is enqueued whole and untrimmed; text that
  is white space only enqueues nothing (ModEntry.cs:261-262, 286-292).

## Model

| member | source | states |
|---|---|---|
| DialogueQueues.NewDialogueQueue | DialogueLogger/DialogueQueue.cs:13-17 | a size of zero or less fails with `ArgumentOutOfRange`; any other size gives a new, empty queue of exactly that size |
| DialogueQueues.DialogueQueue.constructor | DialogueLogger/DialogueQueue.cs:13-17 | for a positive size: an empty queue whose `maxSize` is that size (a `const`, so it never changes afterwards) |
| DialogueQueues.DialogueQueue.Enqueue | DialogueLogger/DialogueQueue.cs:20-24 | the new contents are `Push` of the old contents and the item, and the count stays at most `maxSize` |
| DialogueQueues.Push | DialogueLogger/DialogueQueue.cs:22-23 | after one enqueue the count is between 1 and `maxSize` and the new item is last |
| DialogueQueues.PushKeepsOthers | DialogueLogger/DialogueQueue.cs:22-23 | below capacity the count grows by one and the earlier items are unchanged and in order; at capacity the count stays `maxSize` and exactly the oldest item is gone |
| DialogueQueues.PushIsNewest | DialogueLogger/DialogueQueue.cs:22-23 | one enqueue keeps the newest `maxSize` of the old items followed by the new one |
| DialogueQueues.PushAll | DialogueLogger/DialogueQueue.cs:20-24 | after any run of enqueues the count is at most `maxSize` |
| DialogueQueues.PushAllKeepsNewest | DialogueLogger/DialogueQueue.cs:20-24 | after any run of enqueues the queue holds exactly the newest `maxSize` of the old items followed by the new ones, oldest first |
| DialogueQueues.LogAfterEnqueues | DialogueLogger/DialogueQueue.cs:20-24 | after N enqueues onto a new queue, it holds the last `min(N, maxSize)` items in insertion order |
| DialogueQueues.PushAllAppend | DialogueLogger/DialogueQueue.cs:20-24 | enqueuing one list and then another is enqueuing their concatenation |
| DialogueQueues.DialogueQueue.GetEnumerator | DialogueLogger/DialogueQueue.cs:26-27 | the items are the queue's contents, oldest first, and nothing changes |
| Text.IsWhiteSpace | ModEntry.cs:261 | `char.IsWhiteSpace`: true exactly for the space, U+0009 to U+000D, U+0085, U+00A0, U+1680, U+2000 to U+200A, U+2028, U+2029, U+202F, U+205F and U+3000 |
| Text.IsNullOrWhiteSpace | ModEntry.cs:261 | `string.IsNullOrWhiteSpace` on a non-null string: true exactly when every character is white space in the sense of `char.IsWhiteSpace`, so also for the empty text |
| Text.Split | ModEntry.cs:265 | there is one more piece than there are separators, and no piece contains one |
| Text.JoinWith | ModEntry.cs:253 | `string.Join(separator, parts)`: empty for no parts, the part itself for one, otherwise the parts in order with the separator between each two |
| Text.Join | ModEntry.cs:277 | `string.Join(Environment.NewLine, lines)`: the lines in order with a line break between each two |
| Text.JoinSplit | ModEntry.cs:265-277 | joining the pieces of a split with the separator gives the text back |
| Text.SplitJoin | ModEntry.cs:265-277 | splitting joined lines that contain no separator gives those lines back |
| Text.ReplaceCaret | ModEntry.cs:245 | same length and no `^` left; every `^` becomes the line break and every other character is unchanged |
| Text.IndexOf | LogMenu/ModEntry.cs:182 | the result is -1 or a position where the text occurs, and the text occurs at no earlier position |
| Text.LineAt | LogMenu/ModEntry.cs:182 | line k occurs where it begins; the text before that point is the first k lines joined plus one separator, and the text from it on is the remaining lines joined |
| Text.ResponseBlock | ModEntry.cs:252-253 | the responses block: `"> "` followed by the responses joined with a line break and `"> "`; the same text is built at LogMenu/ModEntry.cs:191-192 and DialogueLogger/ModEntry.cs:171-172 |
| Text.ResponseBlockIsJoin | ModEntry.cs:252-253 | the response block is the `"> "`-prefixed responses joined with the separator |
| Text.ResponseBlockLines | ModEntry.cs:252-253 | when no response contains a line break, the block's lines are exactly `"> "` followed by each response, in order |
| Chunker.CeilDiv | ModEntry.cs:271 | the result is the least q with n <= q * d |
| Chunker.OffsetIsProduct | ModEntry.cs:271 | the start index reached after k steps of `i += limit` is k * limit |
| Chunker.Groups | ModEntry.cs:270-277 | the lines cut, front to back, into consecutive groups of `limit`; the last group holds what is left |
| Chunker.GroupsShape | ModEntry.cs:271-277 | there are ceil(n / limit) groups, each of 1 to `limit` lines |
| Chunker.GroupsAt | ModEntry.cs:271-277 | group k is the lines from k * limit to k * limit + limit, or to the end; so only the last group can be shorter |
| Chunker.GroupsConcat | ModEntry.cs:271-277 | the groups, concatenated, are the lines: consecutive and in order |
| Chunker.NonBlank | ModEntry.cs:279-280 | the texts that are not white space only, in their original order |
| Chunker.NonBlankSpec | ModEntry.cs:280 | a text is kept exactly when it was there and is not white space only; nothing is added, and when nothing is dropped the list is unchanged |
| Chunker.NonBlankKeepsAll | ModEntry.cs:280 | when no text is white space only, every text is kept |
| Chunker.SplitChunks | ModEntry.cs:258-294 | white-space text gives no chunk; text of at most `limit` lines gives exactly itself, untrimmed; any other text gives at least one chunk; no chunk is white space only; there are at most ceil(lines / limit) chunks |
| Chunker.ChunksAtFixedCuts | ModEntry.cs:271-285 | in the chunked case, the chunks are the non-blank texts among the groups cut at 0, limit, 2 * limit, ...; a dropped group does not move the cut points of later groups |
| Chunker.ChunksRoundTrip | ModEntry.cs:265-277 | when no group is dropped, joining the chunks with the separator gives the text back |
| Chunker.ResponseChunks | ModEntry.cs:250-255 | a block of n responses without line breaks gives exactly ceil(n / limit) chunks, which join back into the block |
| Chunker.MarkedTextNotBlank | ModEntry.cs:252-254 | a group whose first line starts with `>` is never white space, so no group of the response block is dropped |
| Chunker.JoinBlank | ModEntry.cs:277-280 | lines that are all white space join to white space |
| Chunker.SomeGroupNotBlank | ModEntry.cs:271-285 | text that is not white space has at least one group that is not |
| Chunker.ChunkAt | ModEntry.cs:273-277 | the chunk the loop makes at index i: the next min(limit, Count - i) lines, joined with line breaks |
| Chunker.LoopTexts | ModEntry.cs:271-277 | the texts the loop joins once its index reaches i, blank or not, in order: the chunk at i, then those from i + limit, until the index passes the line count |
| Chunker.ChunkStep | ModEntry.cs:273-285 | one turn at index i: the group texts of the lines from i are the join of the next `min(limit, remaining)` lines, followed by the group texts of the lines from i + limit |
| Chunker.LoopTextsAreGroups | ModEntry.cs:271-286 | from any index i, the texts the loop joins, blank or not, are exactly the group texts of the lines from i on |
| Chunker.LoopMakesSplitChunks | ModEntry.cs:268-286 | for text of more than `limit` lines, the non-white-space texts among those the loop joins from index 0 are exactly the chunks of `SplitChunks` |
| ResponseCleanup.ReplaceNewLines | ModEntry.cs:132 | same length and no line break left; each line break becomes a space and every other character is unchanged |
| ResponseCleanup.DropLeadingSpace | ModEntry.cs:135 | a text that starts with a space loses that one space; any other text is unchanged |
| ResponseCleanup.SkipWhiteSpace | ModEntry.cs:136 | the result is a suffix, what it skips is white space, and it does not start with white space |
| ResponseCleanup.CollapseWhiteSpace | ModEntry.cs:136 | `Regex.Replace(text, @"\s+", " ")`: each maximal run of white space becomes a single space, every other character is kept in order |
| ResponseCleanup.CollapseWhiteSpaceSpec | ModEntry.cs:136 | never longer; it starts with white space exactly when the input does; every white-space character left is a space; no two white-space characters are adjacent |
| ResponseCleanup.CleanResponse | ModEntry.cs:132-136 | a cleaned response contains no line break and no two adjacent white-space characters |
| ResponseCleanup.CleanResponses | ModEntry.cs:131-140 | the cleaned list has one entry per response, each the cleaned response at the same position |
| ResponseCleanup.VisibleCollapse | ModEntry.cs:136 | collapsing white space keeps every other character, in order |
| ResponseCleanup.VisibleReplaceNewLines | ModEntry.cs:132 | replacing line breaks keeps every character that is not white space, in order |
| ResponseCleanup.CleanupKeepsVisibleText | ModEntry.cs:132-136 | the cleanup keeps the characters that are not white space, in order, and adds none |
| ResponseCleanup.CollapseFixesCollapsed | ModEntry.cs:136 | text whose only white space is single spaces is left unchanged |
| ResponseCleanup.CollapseIdempotent | ModEntry.cs:136 | collapsing twice is the same as collapsing once |
| HudTexts.NewHudTexts | ModEntry.cs:170-178 | the texts the scan logs and appends, in order: each message up to the first one with an item whose text is not listed yet, counting the texts the scan itself has just appended |
| HudTexts.NewHudTextsSpec | ModEntry.cs:170-180 | the texts the scan adds are not listed yet, are distinct, and each is the text of a message on screen that comes before the first message with an item |
| HudTexts.NewHudTextsComplete | ModEntry.cs:170-178 | every message before the first message with an item whose text is not listed yet has its text added (with `NewHudTextsSpec`, the two directions of which texts the scan adds) |
| HudTexts.AppendNewKeepsNoDuplicates | ModEntry.cs:175-178 | adding distinct texts that are not listed yet keeps the list free of duplicates |
| HudTexts.RemoveFirst | ModEntry.cs:181 | `List.Remove`: the list without the first occurrence of the text, unchanged when the text is absent |
| HudTexts.RemoveFirstOccurrence | ModEntry.cs:181 | `Remove(text)` takes out the first occurrence of the text and nothing else |
| HudTexts.RemoveFirstAt | ModEntry.cs:181 | in a list without duplicates, `Remove(texts[i])` removes exactly position i and leaves no duplicates |
| HudTexts.PruneSkipping | ModEntry.cs:181 | the prune as written: a shown text stays; a stale text is removed and, because the index still steps on, the text after it is kept unchecked |
| HudTexts.PruneSkippingSpec | ModEntry.cs:181 | the prune as written never grows the list, keeps only listed texts, and keeps every text still shown |
| HudTexts.PruneKeepsNoDuplicates | ModEntry.cs:181 | the prune keeps a list free of duplicates |
| HudTexts.PruneStepShown | ModEntry.cs:181 | one turn over a text still shown passes over it |
| HudTexts.PruneStepStale | ModEntry.cs:181 | one turn over a stale text removes it, and the text that slides into its slot is stepped over |
| HudTexts.PruneRemoveStep | ModEntry.cs:181 | the turn over a stale text, taken as `Remove(hudTexts[i])`, shortens the list by one, keeps it free of duplicates, and leaves the rest of the prune as `PruneStepStale` says |
| HudTexts.KeepShown | ModEntry.cs:181 | the reference prune keeps exactly the listed texts that are still shown |
| HudTexts.PruneExactWithoutAdjacentStale | ModEntry.cs:181 | when no two stale texts are neighbours, the prune as written equals the reference prune |
| HudTexts.StaleNeighbourSurvives | ModEntry.cs:181 | of two neighbouring stale texts the second survives the prune, although the reference prune drops both |
| LogMenuMod.Admits | ModEntry.cs:148 | the dedup test: a box is logged when its current text differs from `prevAddedDialogue` and its `transitioningBigger` flag is set (the source's guard so that incoming dialogue is not logged too early) |
| LogMenuMod.TickPrev | ModEntry.cs:148-162 | after a tick, `prevAddedDialogue` is the text of the open box when the tick logged it, and unchanged otherwise |
| LogMenuMod.TickHudTexts | ModEntry.cs:167-181 | after a tick, `hudTexts` is unchanged when HUD logging is off or the tick is skipped; otherwise it gains the scan's new texts and is pruned, unless the scan met a message with an item, which returns before the prune |
| LogMenuMod.Responses | ModEntry.cs:127-143 | the responses a box contributes on a tick: the cleaned response texts of a question, in order, and none for any other box, since the list is emptied first |
| LogMenuMod.Ingest | ModEntry.cs:242-256 | text without a speaker is dropped when non-NPC logging is off, responses included; every element has the call's speaker, a non-blank text, and the call's portrait or -1; nothing is logged exactly when the gate applies or the text is white space and there are no responses |
| LogMenuMod.PortraitIndex | ModEntry.cs:151-152 | -2 for a question, or for a box without a portrait while portraits are shown; otherwise -1 without a speaker, else the speaker's portrait |
| LogMenuMod.BoxElements | ModEntry.cs:147-163 | what a tick logs for the open box: nothing unless the dedup test admits it; otherwise what `AddToDialogueList` enqueues for the box's speaker, its portrait index, its current text and its responses |
| LogMenuMod.HudElements | ModEntry.cs:177 | what the scan logs for the new HUD texts: each text in turn, as `AddToDialogueList(null, 0, text)` without responses logs it, so behind the non-NPC gate |
| LogMenuMod.TickElements | ModEntry.cs:119-182 | everything one tick enqueues, in order: nothing off the quarter-second beat; else the open box's elements, then, when HUD logging is on, those of the new HUD texts |
| LogMenuMod.AfterChunk | ModEntry.cs:280-284 | one turn's enqueue: a white-space chunk leaves the queue as it is, any other chunk is pushed with the call's speaker and portrait; the queue stays within its size |
| LogMenuMod.AfterChunks | ModEntry.cs:271-286 | the queue after the loop has met each of the texts in turn, enqueuing those that are not white space |
| LogMenuMod.AfterChunksEnqueuesNonBlank | ModEntry.cs:280-284 | meeting texts one by one and enqueuing each that is not white space enqueues exactly the non-blank texts, in order |
| LogMenuMod.HudScanAborts | ModEntry.cs:174 | a message with an item ends the scan: the scan aborts and adds nothing more |
| LogMenuMod.HudScanStep | ModEntry.cs:170-180 | a new text at the head of the scan is logged first, and then what the rest of the scan logs |
| LogMenuMod.CollectResponses | ModEntry.cs:127-143 | the loop yields one entry per response of the question, each the cleaned response text |
| LogMenuMod.ModEntry.constructor | ModEntry.cs:31-43 | for a positive log limit: an empty log of that size, no last text and no tracked HUD texts |
| LogMenuMod.Entry | ModEntry.cs:31-43 | a log limit of zero or less throws `ArgumentOutOfRange`; otherwise the mod starts with an empty log of that size |
| LogMenuMod.ModEntry.OnSaveLoaded | ModEntry.cs:107-110 | a new empty log of the given size and no tracked HUD texts, with the last text kept; a size of zero or less throws and changes nothing |
| LogMenuMod.ModEntry.OnMenuChanged | ModEntry.cs:114 | when no menu is open any more, the last logged text is forgotten; nothing else changes |
| LogMenuMod.ModEntry.SplitDialogue | ModEntry.cs:258-294 | the log becomes the old log with the chunks of `SplitChunks` enqueued in order |
| LogMenuMod.ModEntry.EnqueueChunks | ModEntry.cs:271-286 | the loop leaves the queue that meeting, in turn, the join of each group of `limit` lines from index 0 gives, each enqueued unless white space; nothing else changes |
| LogMenuMod.ModEntry.AddToDialogueList | ModEntry.cs:242-256 | the log becomes the old log with the elements of `Ingest` enqueued in order |
| LogMenuMod.ModEntry.LogNewHudMessages | ModEntry.cs:170-180 | the new HUD texts are logged and tracked, in order; it reports an abort exactly when a message with an item is met |
| LogMenuMod.ModEntry.ScanHudMessage | ModEntry.cs:172-179 | one turn of the scan over a message without an item: the tracked texts and the log after it, followed by what the rest of the scan adds, are what they were followed by what the scan from this message adds |
| LogMenuMod.ModEntry.TrackHudText | ModEntry.cs:175-179 | an untracked HUD text is logged like text without a speaker and appended to `hudTexts`, which stays free of duplicates |
| LogMenuMod.ModEntry.PruneHudTexts | ModEntry.cs:181 | `hudTexts` becomes the prune as written of its old value |
| LogMenuMod.ModEntry.LogDialogueBox | ModEntry.cs:124-165 | a box the dedup test admits is logged with its portrait and cleaned responses, and its text becomes the last text; any other box changes nothing |
| LogMenuMod.ModEntry.OnUpdateTicked | ModEntry.cs:119-182 | the log, the last text and the HUD texts become what `TickElements`, `TickPrev` and `TickHudTexts` say of the old state |
| LogMenuMod.ShortTextLoggedWhole | ModEntry.cs:242-294 | past the gate, non-blank text of at most four lines is logged as exactly one element holding the whole text, carets turned into line breaks |
| LogMenuMod.QuestionLogsResponses | ModEntry.cs:250-255 | a question logs, after its own elements with portrait -2, ceil(n / 4) elements with portrait -1 that join into the block of cleaned responses, one `"> "` line each |
| LogMenuMod.RepollLogsNothing | ModEntry.cs:147-163 | after a tick admits a box, polling any box with the same text logs nothing |
| LogMenuMod.NonNpcBoxLogged | ModEntry.cs:151-152 | starting from no previous line (`prevAddedDialogue` null), a non-blank box without a speaker is logged, with no speaker and portrait -1 or -2, when non-NPC logging is on, and dropped when it is off |
| LogMenuMod.TickKeepsHudTextsDistinct | ModEntry.cs:168-181 | every tick keeps the tracked HUD texts free of duplicates |
| LogMenuMod.RepollThenReopen | ModEntry.cs:114-165 | with HUD logging off (`ToggleHUDMessages` false), from a new log: a box is logged on the first tick, the same box on the next tick adds nothing, and after every menu closes it is logged again |
| FifthLineCut.IsCut | LogMenu/ModEntry.cs:180 | the cut test on the line count: the text has more than five lines, i.e. more than four line breaks |
| FifthLineCut.CutIndex | LogMenu/ModEntry.cs:180-183 | the cut is at the first occurrence of the fifth line's text, never after the start of the fifth line, and at 0 when that line is empty |
| FifthLineCut.FirstPieceWithinFourLines | LogMenu/ModEntry.cs:182 | the first piece is a prefix of the first four lines and a separator, so it holds at most four line breaks |
| FifthLineCut.SecondPieceKeepsLaterLines | LogMenu/ModEntry.cs:183 | the second piece keeps every line from the fifth on, so it can still have more than four lines |
| FifthLineCut.Pieces | LogMenu/ModEntry.cs:180-187 | two pieces exactly for text without a speaker that has more than five lines, otherwise one; the pieces glue back into the text |
| FifthLineCut.EarlierCopyMovesCutToStart | LogMenu/ModEntry.cs:182-183 | when the fifth line repeats the first, the cut is at 0: the first piece is empty and the second is the whole text |
| OldPolling.Admits | LogMenu/ModEntry.cs:122 | the dedup test of both older revisions (also DialogueLogger/ModEntry.cs:106): the box's text differs from the last one logged and the box's `transitioningBigger` flag is set |
| OldPolling.Responses | LogMenu/ModEntry.cs:111-118 | the responses a box contributes in both older revisions (also DialogueLogger/ModEntry.cs:95-102): the raw response texts of a question, in order, and none for any other box |
| OldPolling.CopyResponses | LogMenu/ModEntry.cs:111-118 | the list holds the responses of a question in order, and is empty for any other box |
| LogMenuRevision.Added | LogMenu/ModEntry.cs:175-195 | nothing behind the gate; otherwise one element per piece with the call's speaker and portrait, then, for responses, one last element with no speaker, portrait 0 and the `"> "` block |
| LogMenuRevision.ResponseElement | LogMenu/ModEntry.cs:189-194 | the element logged for a question's responses: no speaker, portrait 0, and the `> ` block of the responses |
| LogMenuRevision.TickThrows | LogMenu/ModEntry.cs:105-124 | a tick throws `NullReferenceException` exactly when it is on the beat, the open box passes the dedup test and it has no speaker, since line 124 reads the speaker's portrait before the call |
| LogMenuRevision.TickLogs | LogMenu/ModEntry.cs:105-125 | a tick reaches `AddToDialogueList` exactly when it is on the beat and the open box passes the dedup test and has a speaker |
| LogMenuRevision.TickElements | LogMenu/ModEntry.cs:103-128 | what one tick enqueues: what `AddToDialogueList` adds for the box's speaker, that speaker's portrait, the box's text and the raw responses when the tick reaches the call, otherwise nothing |
| LogMenuRevision.TickPrev | LogMenu/ModEntry.cs:122-125 | after a tick, `prevAddedDialogue` is the box's text when the tick logged it, and unchanged otherwise, including when the tick throws |
| LogMenuRevision.RunElements | LogMenu/ModEntry.cs:103-128 | what a run of ticks enqueues, in order, each tick seeing the last logged text that the ticks before it left |
| LogMenuRevision.ModEntry.constructor | LogMenu/ModEntry.cs:28-37 | for a positive log limit: an empty log of that size and no last text |
| LogMenuRevision.Entry | LogMenu/ModEntry.cs:28-37 | a log limit of zero or less throws `ArgumentOutOfRange`; otherwise the mod starts with an empty log of that size |
| LogMenuRevision.ModEntry.OnSaveLoaded | LogMenu/ModEntry.cs:94 | a new empty log of the given size; a size of zero or less throws and changes nothing |
| LogMenuRevision.ModEntry.OnMenuChanged | LogMenu/ModEntry.cs:98 | when no menu is open any more, the last logged text is forgotten |
| LogMenuRevision.ModEntry.AddToDialogueList | LogMenu/ModEntry.cs:175-195 | the log becomes the old log with the elements of `Added` enqueued in order |
| LogMenuRevision.ModEntry.OnUpdateTicked | LogMenu/ModEntry.cs:103-128 | an admitted box with a speaker is logged and its text remembered; an admitted box without one throws `NullReference` and changes nothing |
| LogMenuRevision.LoggedPiecesRebuildText | LogMenu/ModEntry.cs:180-187 | past the gate, one or two elements are always logged, even for empty text, and their texts glue back into the text with carets turned into line breaks |
| LogMenuRevision.OnlyLongObjectTextIsCut | LogMenu/ModEntry.cs:180-187 | the text is cut exactly when it has no speaker and more than five lines; text with a speaker is logged whole |
| LogMenuRevision.TickNeverCuts | LogMenu/ModEntry.cs:122-126 | a tick that logs always logs the whole text as one element, followed by the responses, if any: neither the cut nor the gate ever applies |
| LogMenuRevision.NonNpcBoxNeverLogged | LogMenu/ModEntry.cs:122-125 | over any run of ticks that show no box with a speaker, nothing is logged and every tick that admits a box throws |
| DialogueLoggerRevision.Lines | DialogueLogger/ModEntry.cs:162-167 | one entry per piece of text, in order, each with the call's speaker |
| DialogueLoggerRevision.Added | DialogueLogger/ModEntry.cs:156-175 | one entry per piece with the call's speaker, then, for responses, one last entry with no speaker and the `"> "` block |
| DialogueLoggerRevision.TickElements | DialogueLogger/ModEntry.cs:87-112 | what one tick enqueues: on the beat, for a box the dedup test admits, what `AddToDialogueList` adds for its speaker, its text and its raw responses; otherwise nothing |
| DialogueLoggerRevision.TickPrev | DialogueLogger/ModEntry.cs:106-109 | after a tick, `prevAddedDialogue` is the box's text when the tick admitted the box, and unchanged otherwise |
| DialogueLoggerRevision.ModEntry.constructor | DialogueLogger/ModEntry.cs:28-37 | for a positive log limit: an empty log of that size and no last text |
| DialogueLoggerRevision.Entry | DialogueLogger/ModEntry.cs:28-37 | a log limit of zero or less throws `ArgumentOutOfRange`; otherwise the mod starts with an empty log of that size |
| DialogueLoggerRevision.ModEntry.OnSaveLoaded | DialogueLogger/ModEntry.cs:78 | a new empty log of the given size; a size of zero or less throws and changes nothing |
| DialogueLoggerRevision.ModEntry.OnMenuChanged | DialogueLogger/ModEntry.cs:82 | when no menu is open any more, the last logged text is forgotten |
| DialogueLoggerRevision.ModEntry.AddToDialogueList | DialogueLogger/ModEntry.cs:156-175 | the log becomes the old log with the entries of `Added` enqueued in order |
| DialogueLoggerRevision.ModEntry.OnUpdateTicked | DialogueLogger/ModEntry.cs:87-112 | a box the dedup test admits is logged and its text remembered; any other box changes nothing |
| DialogueLoggerRevision.LoggedPiecesRebuildText | DialogueLogger/ModEntry.cs:159-167 | every call logs one or two entries, even for empty text, and their texts glue back into the text with carets turned into line breaks |
| DialogueLoggerRevision.OnlyLongObjectTextIsCut | DialogueLogger/ModEntry.cs:160-167 | the text is cut, once, exactly when it has no speaker and more than five lines; text with a speaker is logged whole |
| DialogueLoggerRevision.NonNpcBoxLogged | DialogueLogger/ModEntry.cs:106-110 | a box without a speaker is logged on the first tick that admits it, and not again on the next tick with the same text |

## Left out

- `Environment.NewLine` is modelled as the single character `'\n'`. On Windows it is `"\r\n"`; there, splitting on it differs from splitting on the one character.
- `IndexOf` is modelled as an ordinal search. The source calls the culture-sensitive `string.IndexOf(string)`, whose matching of ignorable characters is not modelled.
- `char.IsWhiteSpace` is modelled by its fixed list of Unicode white-space characters. The `\s` of `Regex.Replace` is taken to be the same set. The regex engine itself is not modelled.
- The wrapping of a log element's text by `Game1.parseText` (font metrics), the `Game1.mouseCursors` texture handed to the current element, and every `draw` method are rendering and are not modelled. An element holds the text handed to its constructor.
- `LogMenu/DialogueElement.cs` declares a two-argument constructor, but `LogMenu/ModEntry.cs` calls one with three arguments. The model follows the call and keeps the portrait.
- `OnGameLaunched` (config-menu registration and translations) and `OnButtonPressed` (opening and closing the log menu, sounds) are UI and are not modelled.
- `Monitor.Log` calls are output only and are left out.
- The configuration is passed to each handler as a parameter. Reading and writing `config.json` is I/O.
- Game polling is an input, not modelled: `e.IsMultipleOf(15)`, `Game1.activeClickableMenu`, the dialogue box's fields, `Game1.options.showPortraits`, `Game1.hudMessages`, the reflected `messageSubject` field, and `Game1.doesHUDMessageExist`.
- The `responses` field of each `ModEntry` is emptied on every tick that sees a box and read only within that tick. It is modelled as a local variable of the tick.
- A `null` response list (the HUD calls of the current revision) is modelled as the empty list: the source takes the same branch for both. Strings are never null; a null `prevAddedDialogue` is `None`.
- The inherited `Queue<T>` members of `DialogueQueue` are never filled and are not modelled. The `LogMenu`-namespace queue that the newer entry classes use is not part of this model; it is taken to behave like `DialogueLogger/DialogueQueue.cs`.
- A `NullReferenceException` at LogMenu/ModEntry.cs:124 ends the event handler. What the mod loader does with it afterwards (logging, carrying on) is outside the mod and is not modelled.
- The commented-out response-selection and event-skipping code is not modelled.

## Findings

| source | as written | input that shows it | evidently intended | confidence | as-written member | corrected member |
|---|---|---|---|---|---|---|
| LogMenu/ModEntry.cs:124 | the tick calls `db.characterDialogue.getPortraitIndex()` before `AddToDialogueList` is entered, so a box without a speaking character throws `NullReferenceException` before the non-NPC gate at line 179 is reached | a sign or object box (`characterDialogue` null) whose `transitioningBigger` flag is set, with text other than the last logged one, and `NonNPCDialogue` on | text without a speaker is logged when `NonNPCDialogue` is on, as lines 179-180 of the same file are written to handle; the current ModEntry.cs:151 reads the portrait only when there is a speaker | high; not executed | LogMenuRevision.NonNpcBoxNeverLogged | LogMenuMod.NonNpcBoxLogged |
