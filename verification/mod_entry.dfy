/**
 * ModEntry.cs, the current revision of the mod's entry class. Every quarter
 * second it looks at the open dialogue box and the HUD messages on screen,
 * and it enqueues what is new onto the dialogue log. Chunking is in
 * `Chunker`, the response cleanup in `ResponseCleanup` and the HUD
 * bookkeeping in `HudTexts`. This module holds the class and the functions
 * that specify what one call of each event handler does.
 */
module LogMenuMod {
  import opened Common
  import opened Text
  import opened DialogueQueues
  import opened Chunker
  import opened ResponseCleanup
  import opened HudTexts

  /** The line limit `AddToDialogueList` passes to `splitDialogue`. */
  const ChunkLineLimit: nat := 4

  /** The settings the handlers read, as they are at the time of the call. */
  datatype Config = Config(nonNPCDialogue: bool, toggleHudMessages: bool, logLimit: int)

  /** The fields of the game's `DialogueBox` that the mod reads. */
  datatype DialogueBox = DialogueBox(
    characterDialogue: Option<Speaker>,
    isQuestion: bool,
    responses: seq<string>,
    currentString: string,
    transitioningBigger: bool,
    isPortraitBox: bool)

  /** What one `UpdateTicked` event sees of the game. */
  datatype Tick = Tick(
    isMultipleOf15: bool,
    activeMenu: Option<DialogueBox>,  // None: no menu open, or one that is not a dialogue box
    showPortraits: bool,
    hudMessages: seq<HudMessage>,
    hudShown: set<string>)            // the texts `Game1.doesHUDMessageExist` reports as shown

  /**
   * What `AddToDialogueList` enqueues, in order. The text is checked against
   * the non-NPC setting after its carets are turned into line breaks. Then it
   * is split into chunks of at most four lines, and the cleaned responses
   * follow as one `> ` line each, chunked the same way with portrait -1.
   */
  function Ingest(nonNPC: bool, charDiag: Option<Speaker>, portraitIndex: int, dialogue: string, responses: seq<string>)
    : (added: seq<DialogueElement>)
    ensures charDiag.None? && !nonNPC ==> added == []
    ensures forall e | e in added :: e.speaker == charDiag && !IsNullOrWhiteSpace(e.text)
    ensures forall e | e in added :: e.portraitIndex == portraitIndex || e.portraitIndex == -1
    ensures added == [] <==>
      (charDiag.None? && !nonNPC) || (IsNullOrWhiteSpace(ReplaceCaret(dialogue)) && |responses| == 0)
  {
    var d := ReplaceCaret(dialogue);
    if charDiag.None? && !nonNPC then []
    else
      var said := Elements(charDiag, portraitIndex, SplitChunks(d, ChunkLineLimit));
      if |responses| > 0 then
        var block := ResponseBlock(responses);
        assert block[0] == '>';
        said + Elements(charDiag, -1, SplitChunks(block, ChunkLineLimit))
      else said
  }

  /**
   * The dedup test: a box is logged when its text differs from the last one
   * logged and its `transitioningBigger` flag is set, the flag being the
   * game's guard against logging incoming dialogue too early.
   */
  predicate Admits(prev: Option<string>, db: DialogueBox)
  {
    prev != Some(db.currentString) && db.transitioningBigger
  }

  /**
   * The portrait recorded for a box: -1 without a speaking character, else
   * the character's. It is -2 for a question, and for a box without a
   * portrait while portraits are shown.
   */
  function PortraitIndex(db: DialogueBox, showPortraits: bool): (index: int)
    ensures db.isQuestion || (showPortraits && !db.isPortraitBox) ==> index == -2
    ensures !db.isQuestion && !(showPortraits && !db.isPortraitBox) && db.characterDialogue.None? ==> index == -1
    ensures !db.isQuestion && !(showPortraits && !db.isPortraitBox) && db.characterDialogue.Some? ==>
      index == db.characterDialogue.value.portraitIndex
  {
    if db.isQuestion || (showPortraits && !db.isPortraitBox) then -2
    else if db.characterDialogue.None? then -1
    else db.characterDialogue.value.portraitIndex
  }

  /** The response texts a box contributes: the cleaned responses of a question, else none. */
  function Responses(db: DialogueBox): seq<string>
  {
    if db.isQuestion then CleanResponses(db.responses) else []
  }

  /** What a tick logs for an open dialogue box. */
  function BoxElements(nonNPC: bool, showPortraits: bool, prev: Option<string>, db: DialogueBox): seq<DialogueElement>
  {
    if Admits(prev, db) then
      Ingest(nonNPC, db.characterDialogue, PortraitIndex(db, showPortraits), db.currentString, Responses(db))
    else []
  }

  /** What a tick logs for the HUD texts it finds new: each goes through `AddToDialogueList(null, 0, text)`. */
  function HudElements(nonNPC: bool, texts: seq<string>): seq<DialogueElement>
    decreases |texts|
  {
    if texts == [] then []
    else Ingest(nonNPC, None, 0, texts[0], []) + HudElements(nonNPC, texts[1..])
  }

  /** Everything one `UpdateTicked` enqueues, in order. */
  function TickElements(config: Config, prev: Option<string>, known: seq<string>, tick: Tick): seq<DialogueElement>
  {
    if !tick.isMultipleOf15 then []
    else
      (if tick.activeMenu.Some? then BoxElements(config.nonNPCDialogue, tick.showPortraits, prev, tick.activeMenu.value) else [])
      + (if config.toggleHudMessages then HudElements(config.nonNPCDialogue, NewHudTexts(known, tick.hudMessages)) else [])
  }

  /** `prevAddedDialogue` after one `UpdateTicked`. */
  function TickPrev(prev: Option<string>, tick: Tick): Option<string>
  {
    if tick.isMultipleOf15 && tick.activeMenu.Some? && Admits(prev, tick.activeMenu.value)
    then Some(tick.activeMenu.value.currentString)
    else prev
  }

  /**
   * `hudTexts` after one `UpdateTicked`: the new texts are appended, and the
   * prune follows unless the scan met a message with an item.
   */
  function TickHudTexts(config: Config, known: seq<string>, tick: Tick): seq<string>
  {
    if !tick.isMultipleOf15 || !config.toggleHudMessages then known
    else
      var grown := known + NewHudTexts(known, tick.hudMessages);
      if ScanAborts(tick.hudMessages) then grown else PruneSkipping(grown, tick.hudShown)
  }

  /** The queue after the loop of `splitDialogue` enqueues `chunk`, unless `chunk` is white space. */
  function AfterChunk(queue: seq<DialogueElement>, maxSize: int, speaker: Option<Speaker>, portraitIndex: int, chunk: string)
    : (r: seq<DialogueElement>)
    requires 0 < maxSize && |queue| <= maxSize
    ensures |r| <= maxSize
  {
    if IsNullOrWhiteSpace(chunk) then queue else Push(queue, maxSize, DialogueElement(speaker, portraitIndex, chunk))
  }

  /** The queue after the loop of `splitDialogue` has met each of `texts` in turn. */
  function AfterChunks(queue: seq<DialogueElement>, maxSize: int, speaker: Option<Speaker>, portraitIndex: int,
                       texts: seq<string>): seq<DialogueElement>
    requires 0 < maxSize && |queue| <= maxSize
    decreases |texts|
  {
    if texts == [] then queue
    else AfterChunks(AfterChunk(queue, maxSize, speaker, portraitIndex, texts[0]), maxSize, speaker, portraitIndex, texts[1..])
  }

  /**
   * Meeting the texts one by one, enqueuing those that are not white space,
   * is enqueuing the non-blank ones, in order.
   */
  lemma {:induction false} AfterChunksEnqueuesNonBlank(queue: seq<DialogueElement>, maxSize: int, speaker: Option<Speaker>,
                                                       portraitIndex: int, texts: seq<string>)
    requires 0 < maxSize && |queue| <= maxSize
    ensures AfterChunks(queue, maxSize, speaker, portraitIndex, texts)
      == PushAll(queue, maxSize, Elements(speaker, portraitIndex, NonBlank(texts)))
    decreases |texts|
  {
    if texts != [] {
      var text := texts[0];
      var after := AfterChunk(queue, maxSize, speaker, portraitIndex, text);
      AfterChunksEnqueuesNonBlank(after, maxSize, speaker, portraitIndex, texts[1..]);
      var later := NonBlank(texts[1..]);
      if !IsNullOrWhiteSpace(text) {
        assert NonBlank(texts) == [text] + later;
        ElementsCons(speaker, portraitIndex, text, later);
        PushAllCons(queue, maxSize, DialogueElement(speaker, portraitIndex, text), Elements(speaker, portraitIndex, later));
      }
    }
  }

  /** The turn of the loop at index `i` meets the chunk at `i`, then the loop goes on from `i + limit`. */
  lemma AfterChunksStep(queue: seq<DialogueElement>, maxSize: int, speaker: Option<Speaker>, portraitIndex: int,
                        lines: seq<string>, i: nat, limit: nat)
    requires 0 < maxSize && |queue| <= maxSize && limit > 0 && i < |lines|
    ensures AfterChunks(queue, maxSize, speaker, portraitIndex, LoopTexts(lines, i, limit))
      == AfterChunks(AfterChunk(queue, maxSize, speaker, portraitIndex, ChunkAt(lines, i, limit)), maxSize, speaker, portraitIndex,
                     LoopTexts(lines, i + limit, limit))
  {
    var texts := LoopTexts(lines, i, limit);
    assert texts[0] == ChunkAt(lines, i, limit) && texts[1..] == LoopTexts(lines, i + limit, limit);
  }

  lemma ElementsCons(speaker: Option<Speaker>, portraitIndex: int, text: string, texts: seq<string>)
    ensures Elements(speaker, portraitIndex, [text] + texts)
      == [DialogueElement(speaker, portraitIndex, text)] + Elements(speaker, portraitIndex, texts)
  {
  }

  /**
   * One turn of the HUD scan over a message without an item whose text is
   * not tracked: its text is the first of the new texts.
   */
  lemma HudScanFirst(known: seq<string>, messages: seq<HudMessage>)
    requires messages != [] && !messages[0].hasMessageSubject && messages[0].message !in known
    ensures var text := messages[0].message;
      NewHudTexts(known, messages) == [text] + NewHudTexts(known + [text], messages[1..])
  {
  }

  /** A message with an item ends the scan: nothing more is added. */
  lemma HudScanAborts(known: seq<string>, messages: seq<HudMessage>)
    requires messages != [] && messages[0].hasMessageSubject
    ensures ScanAborts(messages) && NewHudTexts(known, messages) == []
  {
  }

  /** A scan with no message left adds nothing and does not abort. */
  lemma HudScanDone(known: seq<string>, messages: seq<HudMessage>)
    requires messages == []
    ensures !ScanAborts(messages) && NewHudTexts(known, messages) == []
  {
  }

  /** A message without an item whose text is tracked already adds nothing. */
  lemma HudScanSkips(known: seq<string>, messages: seq<HudMessage>)
    requires messages != [] && !messages[0].hasMessageSubject && messages[0].message in known
    ensures NewHudTexts(known, messages) == NewHudTexts(known, messages[1..])
  {
  }

  /**
   * The turn of the HUD scan that logs and tracks the text of the next
   * message: what is left to add and log is then what the rest of the scan
   * adds, from the texts with that one tracked.
   */
  lemma HudScanTracks(queue: seq<DialogueElement>, maxSize: int, nonNPC: bool, known: seq<string>, messages: seq<HudMessage>,
                      texts: seq<string>, target: seq<DialogueElement>)
    requires 0 < maxSize && |queue| <= maxSize
    requires messages != [] && !messages[0].hasMessageSubject && messages[0].message !in known
    requires texts == known + NewHudTexts(known, messages)
    requires target == PushAll(queue, maxSize, HudElements(nonNPC, NewHudTexts(known, messages)))
    ensures var text := messages[0].message;
      && texts == (known + [text]) + NewHudTexts(known + [text], messages[1..])
      && target == PushAll(PushAll(queue, maxSize, Ingest(nonNPC, None, 0, text, [])), maxSize,
                           HudElements(nonNPC, NewHudTexts(known + [text], messages[1..])))
  {
    HudScanFirst(known, messages);
    HudScanStep(queue, maxSize, nonNPC, known, messages);
  }

  lemma HudScanStep(queue: seq<DialogueElement>, maxSize: int, nonNPC: bool, known: seq<string>, messages: seq<HudMessage>)
    requires 0 < maxSize && |queue| <= maxSize
    requires messages != [] && !messages[0].hasMessageSubject && messages[0].message !in known
    ensures var text := messages[0].message;
      PushAll(queue, maxSize, HudElements(nonNPC, NewHudTexts(known, messages)))
      == PushAll(PushAll(queue, maxSize, Ingest(nonNPC, None, 0, text, [])), maxSize,
                 HudElements(nonNPC, NewHudTexts(known + [text], messages[1..])))
  {
    var text := messages[0].message;
    var rest := NewHudTexts(known + [text], messages[1..]);
    HudScanFirst(known, messages);
    HudElementsCons(nonNPC, text, rest);
    PushAllAppend(queue, maxSize, Ingest(nonNPC, None, 0, text, []), HudElements(nonNPC, rest));
  }

  lemma HudElementsCons(nonNPC: bool, text: string, texts: seq<string>)
    ensures HudElements(nonNPC, [text] + texts) == Ingest(nonNPC, None, 0, text, []) + HudElements(nonNPC, texts)
  {
    assert ([text] + texts)[1..] == texts;
  }

  /** The loop that copies each response of a question, cleaned, into the `responses` list. */
  method CollectResponses(db: DialogueBox) returns (responses: seq<string>)
    requires db.isQuestion
    ensures |responses| == |db.responses|
    ensures forall k | 0 <= k < |responses| :: responses[k] == CleanResponse(db.responses[k])
  {
    responses := [];
    var i := 0;
    while i < |db.responses|
      invariant 0 <= i <= |db.responses|
      invariant |responses| == i
      invariant forall k | 0 <= k < i :: responses[k] == CleanResponse(db.responses[k])
    {
      var responseText := ReplaceNewLines(db.responses[i]);
      if |responseText| > 0 && responseText[0] == ' ' {
        responseText := responseText[1..];
      }
      responseText := CollapseWhiteSpace(responseText);
      responses := responses + [responseText];
      i := i + 1;
    }
  }

  class ModEntry {
    var dialogueList: DialogueQueue<DialogueElement>
    var prevAddedDialogue: Option<string>
    var hudTexts: seq<string>

    ghost predicate Valid()
      reads this, dialogueList
    {
      dialogueList.Valid() && NoDuplicates(hudTexts)
    }

    /** `Entry`, for a log limit the caller has checked (see `Entry` below). */
    constructor (logLimit: int)
      requires 0 < logLimit
      ensures Valid() && fresh(dialogueList)
      ensures dialogueList.maxSize == logLimit && dialogueList.queue == []
      ensures prevAddedDialogue == None && hudTexts == []
    {
      dialogueList := new DialogueQueue<DialogueElement>(logLimit);
      prevAddedDialogue := None;
      hudTexts := [];
    }

    /**
     * `OnSaveLoaded`: a new empty log of the configured size and no tracked
     * HUD texts. A size of zero or less throws, and then nothing changes.
     */
    method OnSaveLoaded(logLimit: int) returns (thrown: Option<Exception>)
      requires Valid()
      modifies this
      ensures Valid() && prevAddedDialogue == old(prevAddedDialogue)
      ensures thrown.Some? <==> logLimit <= 0
      ensures thrown.Some? ==> thrown.value == ArgumentOutOfRange
      ensures thrown.Some? ==> dialogueList == old(dialogueList) && hudTexts == old(hudTexts)
      ensures thrown.None? ==> fresh(dialogueList) && dialogueList.maxSize == logLimit && dialogueList.queue == []
      ensures thrown.None? ==> hudTexts == []
    {
      var created := NewDialogueQueue<DialogueElement>(logLimit);
      if created.Failure? {
        return Some(created.error);
      }
      dialogueList := created.value;
      hudTexts := [];
      return None;
    }

    /** `OnMenuChanged`: closing every menu forgets the last logged text, so the same line can be logged again. */
    method OnMenuChanged(newMenuIsNull: bool)
      requires Valid()
      modifies this
      ensures Valid() && dialogueList == old(dialogueList) && hudTexts == old(hudTexts)
      ensures prevAddedDialogue == if newMenuIsNull then None else old(prevAddedDialogue)
    {
      if newMenuIsNull {
        prevAddedDialogue := None;
      }
    }

    /**
     * `splitDialogue`: nothing for white space, the text whole when it has at
     * most `limit` lines, else one element per group of `limit` lines that is
     * not white space only.
     */
    method SplitDialogue(charDiag: Option<Speaker>, portraitIndex: int, dialogue: string, limit: nat)
      requires Valid() && limit > 0
      modifies dialogueList
      ensures Valid()
      ensures dialogueList.queue
        == PushAll(old(dialogueList.queue), dialogueList.maxSize, Elements(charDiag, portraitIndex, SplitChunks(dialogue, limit)))
    {
      if IsNullOrWhiteSpace(dialogue) {
        return;
      }
      var lines := Split(dialogue);
      if |lines| > limit {
        LoopMakesSplitChunks(dialogue, limit);
        AfterChunksEnqueuesNonBlank(dialogueList.queue, dialogueList.maxSize, charDiag, portraitIndex, LoopTexts(lines, 0, limit));
        EnqueueChunks(charDiag, portraitIndex, lines, limit);
      } else {
        dialogueList.Enqueue(DialogueElement(charDiag, portraitIndex, dialogue));
      }
    }

    /**
     * The chunking loop of `splitDialogue`, over the lines of the text: the
     * index steps by `limit`, and each group of up to `limit` lines is
     * enqueued unless it is white space only.
     */
    method EnqueueChunks(charDiag: Option<Speaker>, portraitIndex: int, lines: seq<string>, limit: nat)
      requires dialogueList.Valid() && limit > 0
      modifies dialogueList
      ensures dialogueList.Valid()
      ensures dialogueList.queue == AfterChunks(old(dialogueList.queue), dialogueList.maxSize, charDiag, portraitIndex, LoopTexts(lines, 0, limit))
    {
      ghost var target := AfterChunks(dialogueList.queue, dialogueList.maxSize, charDiag, portraitIndex, LoopTexts(lines, 0, limit));
      var i: nat := 0;
      while i < |lines|
        invariant dialogueList.Valid()
        invariant target == AfterChunks(dialogueList.queue, dialogueList.maxSize, charDiag, portraitIndex, LoopTexts(lines, i, limit))
        decreases |lines| - i
      {
        var remainingLines := |lines| - i;
        var chunkSize := Min(limit, remainingLines);
        var chunk := Join(lines[i..i + chunkSize]);
        AfterChunksStep(dialogueList.queue, dialogueList.maxSize, charDiag, portraitIndex, lines, i, limit);
        if !IsNullOrWhiteSpace(chunk) {
          dialogueList.Enqueue(DialogueElement(charDiag, portraitIndex, chunk));
        }
        i := i + limit;
      }
    }

    /**
     * `AddToDialogueList`: enqueues `Ingest` of its arguments. An empty
     * `responses` stands for both the null list and an empty one.
     */
    method AddToDialogueList(nonNPC: bool, charDiag: Option<Speaker>, portraitIndex: int, dialogue: string, responses: seq<string>)
      requires Valid()
      modifies dialogueList
      ensures Valid()
      ensures dialogueList.queue
        == PushAll(old(dialogueList.queue), dialogueList.maxSize, Ingest(nonNPC, charDiag, portraitIndex, dialogue, responses))
    {
      var d := ReplaceCaret(dialogue);
      if charDiag.None? && !nonNPC {
        return;
      }
      ghost var q0 := dialogueList.queue;
      ghost var said := Elements(charDiag, portraitIndex, SplitChunks(d, ChunkLineLimit));
      SplitDialogue(charDiag, portraitIndex, d, ChunkLineLimit);
      if |responses| > 0 {
        var block := ResponseBlock(responses);
        ghost var answers := Elements(charDiag, -1, SplitChunks(block, ChunkLineLimit));
        SplitDialogue(charDiag, -1, block, ChunkLineLimit);
        PushAllAppend(q0, dialogueList.maxSize, said, answers);
      }
    }

    /**
     * The scan of the HUD messages: each message up to the first one with an
     * item is logged and tracked, unless its text is tracked already.
     * `aborted` says whether a message with an item ended the tick.
     */
    method LogNewHudMessages(nonNPC: bool, messages: seq<HudMessage>) returns (aborted: bool)
      requires Valid()
      modifies this, dialogueList
      ensures Valid() && dialogueList == old(dialogueList) && prevAddedDialogue == old(prevAddedDialogue)
      ensures aborted == ScanAborts(messages)
      ensures hudTexts == old(hudTexts) + NewHudTexts(old(hudTexts), messages)
      ensures dialogueList.queue
        == PushAll(old(dialogueList.queue), dialogueList.maxSize, HudElements(nonNPC, NewHudTexts(old(hudTexts), messages)))
    {
      ghost var texts := old(hudTexts) + NewHudTexts(old(hudTexts), messages);
      ghost var target := PushAll(dialogueList.queue, dialogueList.maxSize, HudElements(nonNPC, NewHudTexts(old(hudTexts), messages)));
      var j := 0;
      while j < |messages|
        invariant 0 <= j <= |messages|
        invariant Valid() && dialogueList == old(dialogueList) && prevAddedDialogue == old(prevAddedDialogue)
        invariant ScanAborts(messages) == ScanAborts(messages[j..])
        invariant texts == hudTexts + NewHudTexts(hudTexts, messages[j..])
        invariant target == PushAll(dialogueList.queue, dialogueList.maxSize, HudElements(nonNPC, NewHudTexts(hudTexts, messages[j..])))
      {
        var h := messages[j];
        ghost var unscanned := messages[j..];
        assert unscanned[0] == h && unscanned[1..] == messages[j + 1..];
        if h.hasMessageSubject {
          HudScanAborts(hudTexts, unscanned);
          return true;
        }
        ScanHudMessage(nonNPC, h, unscanned, texts, target);
        j := j + 1;
      }
      HudScanDone(hudTexts, messages[j..]);
      return false;
    }

    /**
     * The body of the HUD scan for a message without an item: its text is
     * logged and tracked unless it is tracked already; what is left to log
     * and track is then what the rest of the scan adds.
     */
    method ScanHudMessage(nonNPC: bool, h: HudMessage, ghost unscanned: seq<HudMessage>,
                          ghost texts: seq<string>, ghost target: seq<DialogueElement>)
      requires Valid() && unscanned != [] && unscanned[0] == h && !h.hasMessageSubject
      requires texts == hudTexts + NewHudTexts(hudTexts, unscanned)
      requires target == PushAll(dialogueList.queue, dialogueList.maxSize, HudElements(nonNPC, NewHudTexts(hudTexts, unscanned)))
      modifies this, dialogueList
      ensures Valid() && dialogueList == old(dialogueList) && prevAddedDialogue == old(prevAddedDialogue)
      ensures texts == hudTexts + NewHudTexts(hudTexts, unscanned[1..])
      ensures target == PushAll(dialogueList.queue, dialogueList.maxSize, HudElements(nonNPC, NewHudTexts(hudTexts, unscanned[1..])))
    {
      if h.message !in hudTexts {
        HudScanTracks(dialogueList.queue, dialogueList.maxSize, nonNPC, hudTexts, unscanned, texts, target);
        TrackHudText(nonNPC, h.message);
      } else {
        HudScanSkips(hudTexts, unscanned);
      }
    }

    /** A HUD text not tracked yet: `AddToDialogueList(null, 0, text)`, then `hudTexts.Add(text)`. */
    method TrackHudText(nonNPC: bool, text: string)
      requires Valid() && text !in hudTexts
      modifies this, dialogueList
      ensures Valid() && dialogueList == old(dialogueList) && prevAddedDialogue == old(prevAddedDialogue)
      ensures hudTexts == old(hudTexts) + [text]
      ensures dialogueList.queue == PushAll(old(dialogueList.queue), dialogueList.maxSize, Ingest(nonNPC, None, 0, text, []))
    {
      AddToDialogueList(nonNPC, None, 0, text, []);
      AppendNewKeepsNoDuplicates(hudTexts, [text]);
      hudTexts := hudTexts + [text];
    }

    /**
     * The prune loop as written: each text the game no longer shows is
     * removed, and the text that slides into its slot is stepped over.
     */
    method PruneHudTexts(shown: set<string>)
      requires Valid()
      modifies this
      ensures Valid() && dialogueList == old(dialogueList) && prevAddedDialogue == old(prevAddedDialogue)
      ensures hudTexts == PruneSkipping(old(hudTexts), shown)
    {
      var i := 0;
      while i < |hudTexts|
        invariant 0 <= i <= |hudTexts| + 1
        invariant Valid() && dialogueList == old(dialogueList) && prevAddedDialogue == old(prevAddedDialogue)
        invariant PruneSkipping(old(hudTexts), shown)
          == hudTexts[..Min(i, |hudTexts|)] + PruneSkipping(From(hudTexts, i), shown)
        decreases |hudTexts| + 1 - i
      {
        if hudTexts[i] !in shown {
          PruneRemoveStep(hudTexts, i, shown);
          hudTexts := RemoveFirst(hudTexts, hudTexts[i]);
        } else {
          PruneStepShown(hudTexts, i, shown);
        }
        i := i + 1;
      }
      assert hudTexts[..|hudTexts|] == hudTexts;
    }

    /**
     * The dialogue-box half of `OnUpdateTicked`: the responses of a question
     * are collected and cleaned; the box is logged, and its text remembered,
     * when the dedup test admits it.
     */
    method LogDialogueBox(nonNPC: bool, showPortraits: bool, db: DialogueBox)
      requires Valid()
      modifies this, dialogueList
      ensures Valid() && dialogueList == old(dialogueList) && hudTexts == old(hudTexts)
      ensures dialogueList.queue
        == PushAll(old(dialogueList.queue), dialogueList.maxSize, BoxElements(nonNPC, showPortraits, old(prevAddedDialogue), db))
      ensures prevAddedDialogue == if Admits(old(prevAddedDialogue), db) then Some(db.currentString) else old(prevAddedDialogue)
    {
      var responses: seq<string> := [];
      if db.isQuestion {
        responses := CollectResponses(db);
      }
      assert responses == Responses(db);
      var currStr := db.currentString;
      if prevAddedDialogue != Some(currStr) && db.transitioningBigger {
        var portraitIndex := if db.characterDialogue.None? then -1 else db.characterDialogue.value.portraitIndex;
        if db.isQuestion || (showPortraits && !db.isPortraitBox) {
          portraitIndex := -2;
        }
        AddToDialogueList(nonNPC, db.characterDialogue, portraitIndex, currStr, responses);
        prevAddedDialogue := Some(currStr);
      }
    }

    /**
     * `OnUpdateTicked`: every fifteenth tick, the open dialogue box is logged
     * when the dedup test admits it, and then, when HUD logging is on, the
     * HUD messages are scanned and the tracked texts pruned.
     */
    method OnUpdateTicked(config: Config, tick: Tick)
      requires Valid()
      modifies this, dialogueList
      ensures Valid() && dialogueList == old(dialogueList)
      ensures dialogueList.queue
        == PushAll(old(dialogueList.queue), dialogueList.maxSize, TickElements(config, old(prevAddedDialogue), old(hudTexts), tick))
      ensures prevAddedDialogue == TickPrev(old(prevAddedDialogue), tick)
      ensures hudTexts == TickHudTexts(config, old(hudTexts), tick)
    {
      if !tick.isMultipleOf15 {
        return;
      }
      ghost var m := dialogueList.maxSize;
      ghost var q0 := dialogueList.queue;
      ghost var boxPart: seq<DialogueElement> := [];
      if tick.activeMenu.Some? {
        LogDialogueBox(config.nonNPCDialogue, tick.showPortraits, tick.activeMenu.value);
        boxPart := BoxElements(config.nonNPCDialogue, tick.showPortraits, old(prevAddedDialogue), tick.activeMenu.value);
      }
      if !config.toggleHudMessages {
        assert boxPart + [] == boxPart;
        return;
      }
      ghost var known := hudTexts;
      var aborted := LogNewHudMessages(config.nonNPCDialogue, tick.hudMessages);
      PushAllAppend(q0, m, boxPart, HudElements(config.nonNPCDialogue, NewHudTexts(known, tick.hudMessages)));
      if aborted {
        return;
      }
      PruneHudTexts(tick.hudShown);
    }
  }

  /** `Entry`: the mod starts with an empty log of the configured size; a size of zero or less throws. */
  method Entry(config: Config) returns (r: Result<ModEntry>)
    ensures r.Failure? <==> config.logLimit <= 0
    ensures r.Failure? ==> r.error == ArgumentOutOfRange
    ensures r.Success? ==> fresh(r.value) && r.value.Valid() && r.value.prevAddedDialogue == None && r.value.hudTexts == []
    ensures r.Success? ==> r.value.dialogueList.maxSize == config.logLimit && r.value.dialogueList.queue == []
  {
    if config.logLimit <= 0 {
      return Failure(ArgumentOutOfRange);
    }
    var mod := new ModEntry(config.logLimit);
    return Success(mod);
  }

  // ---------------------------------------------------------------------------
  // What the ingestion promises, over one call and over several ticks.

  /** A short line of text past the non-NPC gate is logged whole, as one element, carets turned into line breaks. */
  lemma ShortTextLoggedWhole(nonNPC: bool, charDiag: Option<Speaker>, portraitIndex: int, dialogue: string)
    requires charDiag.Some? || nonNPC
    requires !IsNullOrWhiteSpace(ReplaceCaret(dialogue)) && |Split(ReplaceCaret(dialogue))| <= ChunkLineLimit
    ensures Ingest(nonNPC, charDiag, portraitIndex, dialogue, []) == [DialogueElement(charDiag, portraitIndex, ReplaceCaret(dialogue))]
  {
  }

  /**
   * A question's responses are logged after its text, as one `> ` line per
   * cleaned response, in ceil(n / 4) elements with portrait -1 that join back
   * into the block; the question's own elements carry portrait -2.
   */
  lemma QuestionLogsResponses(nonNPC: bool, showPortraits: bool, prev: Option<string>, db: DialogueBox)
    requires Admits(prev, db) && db.isQuestion && |db.responses| > 0
    requires db.characterDialogue.Some? || nonNPC
    ensures var added := BoxElements(nonNPC, showPortraits, prev, db);
      var n := CeilDiv(|db.responses|, ChunkLineLimit);
      n <= |added|
      && (forall k | 0 <= k < |added| - n :: added[k].portraitIndex == -2)
      && (forall k | |added| - n <= k < |added| :: added[k].portraitIndex == -1)
      && Join(Texts(added[|added| - n..])) == ResponseBlock(CleanResponses(db.responses))
    ensures Split(ResponseBlock(CleanResponses(db.responses))) == Prefixed(CleanResponses(db.responses))
  {
    var responses := CleanResponses(db.responses);
    var block := ResponseBlock(responses);
    ResponseChunks(responses, ChunkLineLimit);
    ResponseBlockLines(responses);
    var said := Elements(db.characterDialogue, -2, SplitChunks(ReplaceCaret(db.currentString), ChunkLineLimit));
    var answers := Elements(db.characterDialogue, -1, SplitChunks(block, ChunkLineLimit));
    var added := BoxElements(nonNPC, showPortraits, prev, db);
    assert added == said + answers;
    assert added[|said|..] == answers;
    assert Texts(answers) == SplitChunks(block, ChunkLineLimit);
  }

  /**
   * The dedup: once a tick has seen a box whose `transitioningBigger` flag is set, the
   * last logged text is that box's text, so polling any box with the same
   * text again logs nothing, whoever speaks it.
   */
  lemma RepollLogsNothing(nonNPC: bool, prev: Option<string>, tick: Tick, again: DialogueBox)
    requires tick.isMultipleOf15 && tick.activeMenu.Some? && tick.activeMenu.value.transitioningBigger
    requires again.currentString == tick.activeMenu.value.currentString
    ensures TickPrev(prev, tick) == Some(again.currentString)
    ensures BoxElements(nonNPC, tick.showPortraits, TickPrev(prev, tick), again) == []
  {
  }

  /**
   * A box without a speaking character is logged when non-NPC logging is on:
   * the portrait is -1 or -2 and no character is dereferenced. It is
   * dropped when that setting is off.
   */
  lemma NonNpcBoxLogged(showPortraits: bool, db: DialogueBox)
    requires db.characterDialogue.None? && db.transitioningBigger
    requires !IsNullOrWhiteSpace(ReplaceCaret(db.currentString))
    ensures var added := BoxElements(true, showPortraits, None, db);
      added != [] && forall e | e in added :: e.speaker.None? && (e.portraitIndex == -1 || e.portraitIndex == -2)
    ensures BoxElements(false, showPortraits, None, db) == []
  {
  }

  /** Every tick keeps the tracked HUD texts free of duplicates. */
  lemma TickKeepsHudTextsDistinct(config: Config, known: seq<string>, tick: Tick)
    requires NoDuplicates(known)
    ensures NoDuplicates(TickHudTexts(config, known, tick))
  {
    if tick.isMultipleOf15 && config.toggleHudMessages {
      var grown := known + NewHudTexts(known, tick.hudMessages);
      NewHudTextsSpec(known, tick.hudMessages);
      AppendNewKeepsNoDuplicates(known, NewHudTexts(known, tick.hudMessages));
      PruneKeepsNoDuplicates(grown, tick.hudShown);
    }
  }

  /**
   * A run of the mod from a new log: a box is logged on the first tick that
   * sees it; the next tick, seeing the same box, logs nothing; and once every
   * menu has closed, the same box is logged again.
   */
  method RepollThenReopen(config: Config, tick: Tick) returns (first: seq<DialogueElement>, second: seq<DialogueElement>, third: seq<DialogueElement>)
    requires config.logLimit > 0 && !config.toggleHudMessages
    requires tick.isMultipleOf15 && tick.activeMenu.Some? && tick.activeMenu.value.transitioningBigger
    ensures first == PushAll([], config.logLimit, BoxElements(config.nonNPCDialogue, tick.showPortraits, None, tick.activeMenu.value))
    ensures second == first
    ensures third == PushAll(first, config.logLimit, BoxElements(config.nonNPCDialogue, tick.showPortraits, None, tick.activeMenu.value))
  {
    var mod := new ModEntry(config.logLimit);
    var box := BoxElements(config.nonNPCDialogue, tick.showPortraits, None, tick.activeMenu.value);
    mod.OnUpdateTicked(config, tick);
    assert box + [] == box;
    first := mod.dialogueList.GetEnumerator();
    mod.OnUpdateTicked(config, tick);
    second := mod.dialogueList.GetEnumerator();
    mod.OnMenuChanged(true);
    mod.OnUpdateTicked(config, tick);
    third := mod.dialogueList.GetEnumerator();
  }
}
