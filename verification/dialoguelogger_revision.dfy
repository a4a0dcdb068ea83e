/**
 * DialogueLogger/ModEntry.cs, the oldest revision of the entry class. Its log
 * elements carry no portrait; `AddToDialogueList` has no non-NPC gate and
 * cuts text without a speaker at most once, at its fifth line; the responses
 * go into one final element of their own. Nothing in its `OnUpdateTicked`
 * throws.
 */
module DialogueLoggerRevision {
  import opened Common
  import opened Text
  import opened DialogueQueues
  import opened FifthLineCut
  import opened OldPolling

  /** One entry of this revision's log: the speaker's dialogue, if any, and the text handed to the constructor. */
  datatype LoggedLine = LoggedLine(speaker: Option<Speaker>, text: string)

  /** One entry per text, all with the same speaker. */
  function Lines(speaker: Option<Speaker>, texts: seq<string>): (lines: seq<LoggedLine>)
    ensures |lines| == |texts|
    ensures forall k | 0 <= k < |texts| :: lines[k] == LoggedLine(speaker, texts[k])
  {
    seq(|texts|, k requires 0 <= k < |texts| => LoggedLine(speaker, texts[k]))
  }

  /** The texts of some entries, in order: `Common.Texts` for this revision's entries, which carry no portrait. */
  function LineTexts(lines: seq<LoggedLine>): (texts: seq<string>)
    ensures |texts| == |lines|
    ensures forall k | 0 <= k < |lines| :: texts[k] == lines[k].text
  {
    seq(|lines|, k requires 0 <= k < |lines| => lines[k].text)
  }

  /**
   * What `AddToDialogueList` enqueues, in order: the pieces of the text,
   * carets turned into line breaks, then the responses, if any, in one entry
   * without a speaker.
   */
  function Added(charDiag: Option<Speaker>, dialogue: string, responses: seq<string>): (added: seq<LoggedLine>)
    ensures |added| == |Pieces(charDiag, ReplaceCaret(dialogue))| + (if |responses| > 0 then 1 else 0)
    ensures forall k | 0 <= k < |added| && (|responses| == 0 || k < |added| - 1) :: added[k].speaker == charDiag
    ensures |responses| > 0 ==> added[|added| - 1] == LoggedLine(None, ResponseBlock(responses))
  {
    Lines(charDiag, Pieces(charDiag, ReplaceCaret(dialogue)))
    + (if |responses| > 0 then [LoggedLine(None, ResponseBlock(responses))] else [])
  }

  /** Everything one `UpdateTicked` enqueues, in order. */
  function TickElements(prev: Option<string>, tick: Tick): seq<LoggedLine>
  {
    if tick.isMultipleOf15 && tick.activeMenu.Some? && Admits(prev, tick.activeMenu.value) then
      var db := tick.activeMenu.value;
      Added(db.characterDialogue, db.currentString, Responses(db))
    else []
  }

  /** `prevAddedDialogue` after one `UpdateTicked`. */
  function TickPrev(prev: Option<string>, tick: Tick): Option<string>
  {
    if tick.isMultipleOf15 && tick.activeMenu.Some? && Admits(prev, tick.activeMenu.value)
    then Some(tick.activeMenu.value.currentString)
    else prev
  }

  class ModEntry {
    var dialogueList: DialogueQueue<LoggedLine>
    var prevAddedDialogue: Option<string>

    ghost predicate Valid()
      reads this, dialogueList
    {
      dialogueList.Valid()
    }

    /** `Entry`, for a log limit above zero: an empty log of that size. */
    constructor (logLimit: int)
      requires 0 < logLimit
      ensures Valid() && fresh(dialogueList)
      ensures dialogueList.maxSize == logLimit && dialogueList.queue == [] && prevAddedDialogue == None
    {
      dialogueList := new DialogueQueue<LoggedLine>(logLimit);
      prevAddedDialogue := None;
    }

    /** `OnSaveLoaded`: a new empty log of the configured size; a size of zero or less throws, and then nothing changes. */
    method OnSaveLoaded(logLimit: int) returns (thrown: Option<Exception>)
      requires Valid()
      modifies this
      ensures Valid() && prevAddedDialogue == old(prevAddedDialogue)
      ensures thrown.Some? <==> logLimit <= 0
      ensures thrown.Some? ==> thrown.value == ArgumentOutOfRange && dialogueList == old(dialogueList)
      ensures thrown.None? ==> fresh(dialogueList) && dialogueList.maxSize == logLimit && dialogueList.queue == []
    {
      var created := NewDialogueQueue<LoggedLine>(logLimit);
      if created.Failure? {
        return Some(created.error);
      }
      dialogueList := created.value;
      return None;
    }

    /** `OnMenuChanged`: closing every menu forgets the last logged text. */
    method OnMenuChanged(newMenuIsNull: bool)
      requires Valid()
      modifies this
      ensures Valid() && dialogueList == old(dialogueList)
      ensures prevAddedDialogue == if newMenuIsNull then None else old(prevAddedDialogue)
    {
      if newMenuIsNull {
        prevAddedDialogue := None;
      }
    }

    /** `AddToDialogueList`: the first piece of a cut text, then the rest of the text, then the response block. */
    method AddToDialogueList(charDiag: Option<Speaker>, dialogue: string, responses: seq<string>)
      requires Valid()
      modifies dialogueList
      ensures Valid()
      ensures dialogueList.queue == PushAll(old(dialogueList.queue), dialogueList.maxSize, Added(charDiag, dialogue, responses))
    {
      var d := ReplaceCaret(dialogue);
      ghost var m := dialogueList.maxSize;
      ghost var q0 := dialogueList.queue;
      ghost var said: seq<LoggedLine> := [];
      if charDiag.None? && IsCut(d) {
        var cut := CutIndex(d);
        var first := LoggedLine(charDiag, d[..cut]);
        dialogueList.Enqueue(first);
        PushAllOne(q0, m, first);
        said := [first];
        d := d[cut..];
      }
      var element := LoggedLine(charDiag, d);
      dialogueList.Enqueue(element);
      PushAllAppend(q0, m, said, [element]);
      PushAllOne(PushAll(q0, m, said), m, element);
      said := said + [element];
      assert said == Lines(charDiag, Pieces(charDiag, ReplaceCaret(dialogue)));
      if |responses| > 0 {
        var block := "> " + JoinWith([NewLine] + "> ", responses);
        var answers := LoggedLine(None, block);
        dialogueList.Enqueue(answers);
        PushAllAppend(q0, m, said, [answers]);
        PushAllOne(PushAll(q0, m, said), m, answers);
      } else {
        assert said + [] == said;
      }
    }

    /**
     * `OnUpdateTicked`: every fifteenth tick, an open dialogue box that the
     * dedup test admits is logged, and its text remembered.
     */
    method OnUpdateTicked(tick: Tick)
      requires Valid()
      modifies this, dialogueList
      ensures Valid() && dialogueList == old(dialogueList)
      ensures dialogueList.queue
        == PushAll(old(dialogueList.queue), dialogueList.maxSize, TickElements(old(prevAddedDialogue), tick))
      ensures prevAddedDialogue == TickPrev(old(prevAddedDialogue), tick)
    {
      if !tick.isMultipleOf15 || tick.activeMenu.None? {
        return;
      }
      var db := tick.activeMenu.value;
      var responses := CopyResponses(db);
      assert responses == Responses(db);
      if prevAddedDialogue != Some(db.currentString) && db.transitioningBigger {
        AddToDialogueList(db.characterDialogue, db.currentString, responses);
        prevAddedDialogue := Some(db.currentString);
      }
    }
  }

  /** `Entry`: the mod starts with an empty log of the configured size; a size of zero or less throws. */
  method Entry(logLimit: int) returns (r: Result<ModEntry>)
    ensures r.Failure? <==> logLimit <= 0
    ensures r.Failure? ==> r.error == ArgumentOutOfRange
    ensures r.Success? ==> fresh(r.value) && r.value.Valid() && r.value.prevAddedDialogue == None
    ensures r.Success? ==> r.value.dialogueList.maxSize == logLimit && r.value.dialogueList.queue == []
  {
    if logLimit <= 0 {
      return Failure(ArgumentOutOfRange);
    }
    var mod := new ModEntry(logLimit);
    return Success(mod);
  }

  // ---------------------------------------------------------------------------
  // What the ingestion of this revision promises.

  /**
   * Every call logs the text, as one or two entries whose texts glue back
   * into the text with its carets turned into line breaks, even when that
   * text is empty or white space.
   */
  lemma LoggedPiecesRebuildText(charDiag: Option<Speaker>, dialogue: string, responses: seq<string>)
    ensures var added := Added(charDiag, dialogue, responses);
      var n := |added| - (if |responses| > 0 then 1 else 0);
      1 <= n <= 2 && Glue(LineTexts(added[..n])) == ReplaceCaret(dialogue)
  {
    var added := Added(charDiag, dialogue, responses);
    var pieces := Pieces(charDiag, ReplaceCaret(dialogue));
    assert added[..|pieces|] == Lines(charDiag, pieces);
    assert LineTexts(added[..|pieces|]) == pieces;
  }

  /**
   * Only text without a speaker is cut, exactly when it has more than five
   * lines, and at most once; text with a speaker is always one entry.
   */
  lemma OnlyLongObjectTextIsCut(charDiag: Option<Speaker>, dialogue: string, responses: seq<string>)
    ensures var added := Added(charDiag, dialogue, responses);
      var n := |added| - (if |responses| > 0 then 1 else 0);
      n == 2 <==> charDiag.None? && |Split(ReplaceCaret(dialogue))| > 5
    ensures charDiag.Some? ==> Added(charDiag, dialogue, responses)[0] == LoggedLine(charDiag, ReplaceCaret(dialogue))
  {
    if charDiag.Some? {
      assert Pieces(charDiag, ReplaceCaret(dialogue)) == [ReplaceCaret(dialogue)];
    }
  }

  /**
   * A box without a speaker is logged like any other: the first tick that
   * admits it logs its text, and the next tick that sees the same text logs
   * nothing.
   */
  lemma NonNpcBoxLogged(prev: Option<string>, tick: Tick)
    requires tick.isMultipleOf15 && tick.activeMenu.Some? && Admits(prev, tick.activeMenu.value)
    requires tick.activeMenu.value.characterDialogue.None?
    ensures var added := TickElements(prev, tick);
      added != [] && added[0].speaker.None?
    ensures TickElements(TickPrev(prev, tick), tick) == []
  {
  }
}
