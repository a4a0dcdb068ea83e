/**
 * LogMenu/ModEntry.cs, the older revision of the entry class in the `LogMenu`
 * namespace. Its `AddToDialogueList` has the non-NPC gate of the current
 * revision but cuts text at most once, at its fifth line, and filters no
 * white space; the responses go into one final element of their own. Its
 * `OnUpdateTicked` asks the box's speaker for a portrait before the gate is
 * reached, which throws for a box without a speaker.
 */
module LogMenuRevision {
  import opened Common
  import opened Text
  import opened DialogueQueues
  import opened FifthLineCut
  import opened OldPolling

  /** The settings the handlers read, as they are at the time of the call. */
  datatype Config = Config(nonNPCDialogue: bool, logLimit: int)

  /** The element logged for the responses of a question: no speaker, portrait 0, one `> ` line per response. */
  function ResponseElement(responses: seq<string>): DialogueElement
  {
    DialogueElement(None, 0, ResponseBlock(responses))
  }

  /**
   * What `AddToDialogueList` enqueues, in order: nothing for text without a
   * speaker while non-NPC text is not logged; else the pieces of the text,
   * carets turned into line breaks, and then the responses, if any.
   */
  function Added(nonNPC: bool, charDiag: Option<Speaker>, portraitIndex: int, dialogue: string, responses: seq<string>)
    : (added: seq<DialogueElement>)
    ensures charDiag.None? && !nonNPC ==> added == []
    ensures !(charDiag.None? && !nonNPC) ==>
      |added| == |Pieces(charDiag, ReplaceCaret(dialogue))| + (if |responses| > 0 then 1 else 0)
    ensures forall k | 0 <= k < |added| && (|responses| == 0 || k < |added| - 1) ::
      added[k].speaker == charDiag && added[k].portraitIndex == portraitIndex
    ensures |responses| > 0 && added != [] ==> added[|added| - 1] == ResponseElement(responses)
  {
    if charDiag.None? && !nonNPC then []
    else
      Elements(charDiag, portraitIndex, Pieces(charDiag, ReplaceCaret(dialogue)))
      + (if |responses| > 0 then [ResponseElement(responses)] else [])
  }

  /**
   * Whether a tick throws: a tick that admits a box reads the portrait of the
   * box's speaker before anything else, and a box without one has none.
   */
  predicate TickThrows(prev: Option<string>, tick: Tick)
  {
    tick.isMultipleOf15 && tick.activeMenu.Some? && Admits(prev, tick.activeMenu.value)
    && tick.activeMenu.value.characterDialogue.None?
  }

  /** Whether a tick gets as far as `AddToDialogueList`. */
  predicate TickLogs(prev: Option<string>, tick: Tick)
  {
    tick.isMultipleOf15 && tick.activeMenu.Some? && Admits(prev, tick.activeMenu.value)
    && tick.activeMenu.value.characterDialogue.Some?
  }

  /** Everything one `UpdateTicked` enqueues, in order. */
  function TickElements(config: Config, prev: Option<string>, tick: Tick): seq<DialogueElement>
  {
    if TickLogs(prev, tick) then
      var db := tick.activeMenu.value;
      Added(config.nonNPCDialogue, db.characterDialogue, db.characterDialogue.value.portraitIndex, db.currentString, Responses(db))
    else []
  }

  /** `prevAddedDialogue` after one `UpdateTicked`: a tick that throws leaves it as it was. */
  function TickPrev(prev: Option<string>, tick: Tick): Option<string>
  {
    if TickLogs(prev, tick) then Some(tick.activeMenu.value.currentString) else prev
  }

  /** What a run of ticks enqueues, in order, the last logged text carried from one tick to the next. */
  function RunElements(config: Config, prev: Option<string>, ticks: seq<Tick>): seq<DialogueElement>
    decreases |ticks|
  {
    if ticks == [] then []
    else TickElements(config, prev, ticks[0]) + RunElements(config, TickPrev(prev, ticks[0]), ticks[1..])
  }

  class ModEntry {
    var dialogueList: DialogueQueue<DialogueElement>
    var prevAddedDialogue: Option<string>

    ghost predicate Valid()
      reads this, dialogueList
    {
      dialogueList.Valid()
    }

    /** `Entry`, for a log limit above zero: an empty log of that size. */
    constructor (logLimit: int)
      requires 0 < logLimit
      ensures Valid() && fresh(dialogueList)
      ensures dialogueList.maxSize == logLimit && dialogueList.queue == [] && prevAddedDialogue == None
    {
      dialogueList := new DialogueQueue<DialogueElement>(logLimit);
      prevAddedDialogue := None;
    }

    /** `OnSaveLoaded`: a new empty log of the configured size; a size of zero or less throws, and then nothing changes. */
    method OnSaveLoaded(logLimit: int) returns (thrown: Option<Exception>)
      requires Valid()
      modifies this
      ensures Valid() && prevAddedDialogue == old(prevAddedDialogue)
      ensures thrown.Some? <==> logLimit <= 0
      ensures thrown.Some? ==> thrown.value == ArgumentOutOfRange && dialogueList == old(dialogueList)
      ensures thrown.None? ==> fresh(dialogueList) && dialogueList.maxSize == logLimit && dialogueList.queue == []
    {
      var created := NewDialogueQueue<DialogueElement>(logLimit);
      if created.Failure? {
        return Some(created.error);
      }
      dialogueList := created.value;
      return None;
    }

    /** `OnMenuChanged`: closing every menu forgets the last logged text. */
    method OnMenuChanged(newMenuIsNull: bool)
      requires Valid()
      modifies this
      ensures Valid() && dialogueList == old(dialogueList)
      ensures prevAddedDialogue == if newMenuIsNull then None else old(prevAddedDialogue)
    {
      if newMenuIsNull {
        prevAddedDialogue := None;
      }
    }

    /**
     * `AddToDialogueList`: the gate, then the first piece of a cut text, then
     * the rest of the text, then the response block.
     */
    method AddToDialogueList(nonNPC: bool, charDiag: Option<Speaker>, portraitIndex: int, dialogue: string, responses: seq<string>)
      requires Valid()
      modifies dialogueList
      ensures Valid()
      ensures dialogueList.queue
        == PushAll(old(dialogueList.queue), dialogueList.maxSize, Added(nonNPC, charDiag, portraitIndex, dialogue, responses))
    {
      var d := ReplaceCaret(dialogue);
      if charDiag.None? && !nonNPC {
        return;
      }
      ghost var m := dialogueList.maxSize;
      ghost var q0 := dialogueList.queue;
      ghost var said: seq<DialogueElement> := [];
      if charDiag.None? && IsCut(d) {
        var cut := CutIndex(d);
        var first := DialogueElement(charDiag, portraitIndex, d[..cut]);
        dialogueList.Enqueue(first);
        PushAllOne(q0, m, first);
        said := [first];
        d := d[cut..];
      }
      var element := DialogueElement(charDiag, portraitIndex, d);
      dialogueList.Enqueue(element);
      PushAllAppend(q0, m, said, [element]);
      PushAllOne(PushAll(q0, m, said), m, element);
      said := said + [element];
      assert said == Elements(charDiag, portraitIndex, Pieces(charDiag, ReplaceCaret(dialogue)));
      if |responses| > 0 {
        var block := "> " + JoinWith([NewLine] + "> ", responses);
        dialogueList.Enqueue(DialogueElement(None, 0, block));
        PushAllAppend(q0, m, said, [ResponseElement(responses)]);
        PushAllOne(PushAll(q0, m, said), m, ResponseElement(responses));
      } else {
        assert said + [] == said;
      }
    }

    /**
     * `OnUpdateTicked`: every fifteenth tick, an open dialogue box that the
     * dedup test admits is logged with its speaker's portrait, and its text
     * remembered. A box without a speaker throws `NullReferenceException`
     * instead, before anything is logged or remembered.
     */
    method OnUpdateTicked(config: Config, tick: Tick) returns (thrown: Option<Exception>)
      requires Valid()
      modifies this, dialogueList
      ensures Valid() && dialogueList == old(dialogueList)
      ensures thrown == if TickThrows(old(prevAddedDialogue), tick) then Some(NullReference) else None
      ensures dialogueList.queue
        == PushAll(old(dialogueList.queue), dialogueList.maxSize, TickElements(config, old(prevAddedDialogue), tick))
      ensures prevAddedDialogue == TickPrev(old(prevAddedDialogue), tick)
    {
      if !tick.isMultipleOf15 || tick.activeMenu.None? {
        return None;
      }
      var db := tick.activeMenu.value;
      var responses := CopyResponses(db);
      assert responses == Responses(db);
      if prevAddedDialogue != Some(db.currentString) && db.transitioningBigger {
        if db.characterDialogue.None? {
          return Some(NullReference);
        }
        AddToDialogueList(config.nonNPCDialogue, db.characterDialogue, db.characterDialogue.value.portraitIndex, db.currentString, responses);
        prevAddedDialogue := Some(db.currentString);
      }
      return None;
    }
  }

  /** `Entry`: the mod starts with an empty log of the configured size; a size of zero or less throws. */
  method Entry(config: Config) returns (r: Result<ModEntry>)
    ensures r.Failure? <==> config.logLimit <= 0
    ensures r.Failure? ==> r.error == ArgumentOutOfRange
    ensures r.Success? ==> fresh(r.value) && r.value.Valid() && r.value.prevAddedDialogue == None
    ensures r.Success? ==> r.value.dialogueList.maxSize == config.logLimit && r.value.dialogueList.queue == []
  {
    if config.logLimit <= 0 {
      return Failure(ArgumentOutOfRange);
    }
    var mod := new ModEntry(config.logLimit);
    return Success(mod);
  }

  // ---------------------------------------------------------------------------
  // What the ingestion of this revision promises.

  /**
   * Past the gate, text is always logged, as one or two elements whose texts
   * glue back into the text with its carets turned into line breaks, even
   * when that text is empty or white space.
   */
  lemma LoggedPiecesRebuildText(nonNPC: bool, charDiag: Option<Speaker>, portraitIndex: int, dialogue: string, responses: seq<string>)
    requires charDiag.Some? || nonNPC
    ensures var added := Added(nonNPC, charDiag, portraitIndex, dialogue, responses);
      var n := |added| - (if |responses| > 0 then 1 else 0);
      1 <= n <= 2 && Glue(Texts(added[..n])) == ReplaceCaret(dialogue)
  {
    var added := Added(nonNPC, charDiag, portraitIndex, dialogue, responses);
    var pieces := Pieces(charDiag, ReplaceCaret(dialogue));
    assert added[..|pieces|] == Elements(charDiag, portraitIndex, pieces);
    assert Texts(added[..|pieces|]) == pieces;
  }

  /**
   * Only text without a speaker is cut: it is cut exactly when it has more
   * than five lines, and text with a speaker is always one element.
   */
  lemma OnlyLongObjectTextIsCut(nonNPC: bool, charDiag: Option<Speaker>, portraitIndex: int, dialogue: string, responses: seq<string>)
    requires charDiag.Some? || nonNPC
    ensures var added := Added(nonNPC, charDiag, portraitIndex, dialogue, responses);
      var n := |added| - (if |responses| > 0 then 1 else 0);
      n == 2 <==> charDiag.None? && |Split(ReplaceCaret(dialogue))| > 5
    ensures charDiag.Some? ==>
      Added(nonNPC, charDiag, portraitIndex, dialogue, responses)[0] == DialogueElement(charDiag, portraitIndex, ReplaceCaret(dialogue))
  {
    if charDiag.Some? {
      assert Pieces(charDiag, ReplaceCaret(dialogue)) == [ReplaceCaret(dialogue)];
    }
  }

  /**
   * The cut and the gate never come into play from a tick: only a box with
   * a speaker gets to `AddToDialogueList`, so a tick logs the whole text as
   * one element, followed by the responses, if any.
   */
  lemma TickNeverCuts(config: Config, prev: Option<string>, tick: Tick)
    requires TickLogs(prev, tick)
    ensures var db := tick.activeMenu.value;
      var added := TickElements(config, prev, tick);
      |added| == 1 + (if |Responses(db)| > 0 then 1 else 0)
      && added[0] == DialogueElement(db.characterDialogue, db.characterDialogue.value.portraitIndex, ReplaceCaret(db.currentString))
  {
    var db := tick.activeMenu.value;
    OnlyLongObjectTextIsCut(config.nonNPCDialogue, db.characterDialogue, db.characterDialogue.value.portraitIndex, db.currentString, Responses(db));
  }

  /**
   * A box without a speaker is never logged, whatever the non-NPC setting:
   * over any run of ticks that show no box with a speaker, nothing is
   * enqueued, the last logged text stays as it was, and so every tick that
   * sees a new box whose `transitioningBigger` flag is set throws again.
   */
  lemma {:induction false} NonNpcBoxNeverLogged(config: Config, prev: Option<string>, ticks: seq<Tick>)
    requires forall k | 0 <= k < |ticks| :: ticks[k].activeMenu.Some? ==> ticks[k].activeMenu.value.characterDialogue.None?
    ensures RunElements(config, prev, ticks) == []
    ensures forall k | 0 <= k < |ticks| ::
      TickThrows(prev, ticks[k]) <==> ticks[k].isMultipleOf15 && ticks[k].activeMenu.Some? && Admits(prev, ticks[k].activeMenu.value)
    decreases |ticks|
  {
    if ticks != [] {
      assert TickPrev(prev, ticks[0]) == prev && TickElements(config, prev, ticks[0]) == [];
      NonNpcBoxNeverLogged(config, prev, ticks[1..]);
      forall k | 1 <= k < |ticks|
        ensures TickThrows(prev, ticks[k]) <==> ticks[k].isMultipleOf15 && ticks[k].activeMenu.Some? && Admits(prev, ticks[k].activeMenu.value)
      {
        assert ticks[1..][k - 1] == ticks[k];
      }
    }
  }
}
