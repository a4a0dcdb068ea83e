/**
 * What the two older revisions of `OnUpdateTicked` (LogMenu/ModEntry.cs and
 * DialogueLogger/ModEntry.cs) read of the game, and the part of the handler
 * the two share: the copy of a question's responses and the dedup test.
 */
module OldPolling {
  import opened Common

  /** The fields of the game's `DialogueBox` that the older revisions read. */
  datatype DialogueBox = DialogueBox(
    characterDialogue: Option<Speaker>,
    isQuestion: bool,
    responses: seq<string>,
    currentString: string,
    transitioningBigger: bool)

  /** What one `UpdateTicked` event sees of the game. */
  datatype Tick = Tick(
    isMultipleOf15: bool,
    activeMenu: Option<DialogueBox>)  // None: no menu open, or one that is not a dialogue box

  /**
   * The dedup test: a box is logged when its text differs from the last one
   * logged and its `transitioningBigger` flag is set, the flag being the
   * game's guard against logging incoming dialogue too early.
   */
  predicate Admits(prev: Option<string>, db: DialogueBox)
  {
    prev != Some(db.currentString) && db.transitioningBigger
  }

  /** The responses a box contributes, as the game gives them: those of a question, else none. */
  function Responses(db: DialogueBox): seq<string>
  {
    if db.isQuestion then db.responses else []
  }

  /**
   * The loop that fills the `responses` list: emptied on every tick that sees
   * a box, then, for a question, each response text copied over in order.
   */
  method CopyResponses(db: DialogueBox) returns (responses: seq<string>)
    ensures |responses| == |Responses(db)|
    ensures forall k | 0 <= k < |responses| :: responses[k] == Responses(db)[k]
  {
    responses := [];
    if db.isQuestion {
      var i := 0;
      while i < |db.responses|
        invariant 0 <= i <= |db.responses|
        invariant responses == db.responses[..i]
      {
        responses := responses + [db.responses[i]];
        i := i + 1;
      }
    }
  }
}
