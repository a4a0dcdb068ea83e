/**
 * The single cut made by the two older revisions of `AddToDialogueList`
 * (LogMenu/ModEntry.cs and DialogueLogger/ModEntry.cs): non-NPC text with more
 * than five lines is cut once, at
 * `dialogue.IndexOf(dialogue.Split(Environment.NewLine)[4])`, the first
 * occurrence anywhere in the text of the fifth line's text.
 */
module FifthLineCut {
  import opened Common
  import opened Text

  /** The cut is made when `dialogue.Split(Environment.NewLine).Length - 1 > 4`. */
  predicate IsCut(dialogue: string)
  {
    |Split(dialogue)| - 1 > 4
  }

  /**
   * Where the text is cut: an occurrence of the fifth line's text, the first
   * one, and never after the place where the fifth line itself begins.
   */
  function CutIndex(dialogue: string): (cut: nat)
    requires IsCut(dialogue)
    ensures OccursAt(dialogue, Split(dialogue)[4], cut)
    ensures forall j | 0 <= j < cut :: !OccursAt(dialogue, Split(dialogue)[4], j)
    ensures cut <= LineStart(dialogue, 4)
    ensures Split(dialogue)[4] == "" ==> cut == 0
  {
    LineAt(dialogue, 4);
    var i := IndexOf(dialogue, Split(dialogue)[4]);
    assert i != -1;
    i
  }

  /**
   * The first piece never reaches past the start of the fifth line: it is a
   * prefix of the first four lines and the line break after the fourth, so it
   * holds at most four line breaks.
   */
  lemma FirstPieceWithinFourLines(dialogue: string)
    requires IsCut(dialogue)
    ensures var cut := CutIndex(dialogue);
      dialogue[..cut] == (Join(Split(dialogue)[..4]) + [NewLine])[..cut]
    ensures CountNewLines(dialogue[..CutIndex(dialogue)]) <= 4
  {
    var cut := CutIndex(dialogue);
    var start := LineStart(dialogue, 4);
    var lines := Split(dialogue);
    LineAt(dialogue, 4);
    var head := Join(lines[..4]) + [NewLine];
    assert dialogue[..start] == head;
    assert dialogue[..cut] == head[..cut];
    SplitJoin(lines[..4]);
    CountNewLinesAppend(Join(lines[..4]), [NewLine]);
    CountNewLinesAppend(head[..cut], head[cut..]);
    assert head[..cut] + head[cut..] == head;
  }

  /**
   * The second piece keeps at least every line from the fifth on, so it is
   * never shorter than `lines - 4` lines: text of ten lines leaves a second
   * piece of six lines or more, which is never cut again.
   */
  lemma SecondPieceKeepsLaterLines(dialogue: string)
    requires IsCut(dialogue)
    ensures |Split(dialogue[CutIndex(dialogue)..])| >= |Split(dialogue)| - 4
  {
    var cut := CutIndex(dialogue);
    var start := LineStart(dialogue, 4);
    var lines := Split(dialogue);
    LineAt(dialogue, 4);
    var tail := dialogue[start..];
    assert tail == Join(lines[4..]);
    SplitJoin(lines[4..]);
    var rest := dialogue[cut..];
    assert rest == rest[..start - cut] + tail;
    CountNewLinesAppend(rest[..start - cut], tail);
  }

  /** The texts of some pieces, one after the other. */
  function Glue(pieces: seq<string>): string
    decreases |pieces|
  {
    if pieces == [] then "" else pieces[0] + Glue(pieces[1..])
  }

  lemma GlueTwo(first: string, second: string)
    ensures Glue([first, second]) == first + second
  {
    assert [first, second][1..] == [second] && [second][1..] == [];
    assert Glue([second]) == second + "";
  }

  /**
   * The texts `AddToDialogueList` makes of a text before the responses: text
   * without a speaker that is cut gives the part before the cut and the part
   * from it on; any other text is kept whole. Gluing the pieces back together
   * gives the text, the first piece of a cut holds at most four line breaks,
   * and the second keeps every line from the fifth on.
   */
  function Pieces(speaker: Option<Speaker>, dialogue: string): (pieces: seq<string>)
    ensures |pieces| == (if speaker.None? && IsCut(dialogue) then 2 else 1)
    ensures Glue(pieces) == dialogue
    ensures |pieces| == 2 ==> CountNewLines(pieces[0]) <= 4 && |Split(pieces[1])| >= |Split(dialogue)| - 4
  {
    if speaker.None? && IsCut(dialogue) then
      var cut := CutIndex(dialogue);
      FirstPieceWithinFourLines(dialogue);
      SecondPieceKeepsLaterLines(dialogue);
      var pieces := [dialogue[..cut], dialogue[cut..]];
      GlueTwo(dialogue[..cut], dialogue[cut..]);
      assert dialogue[..cut] + dialogue[cut..] == dialogue;
      pieces
    else
      assert [dialogue][1..] == [];
      assert Glue([dialogue]) == dialogue + "";
      [dialogue]
  }

  /**
   * When the fifth line repeats the first, the cut lands at position 0: the
   * first piece is empty and the second is the whole text.
   */
  lemma EarlierCopyMovesCutToStart(lines: seq<string>)
    requires |lines| > 5
    requires forall k | 0 <= k < |lines| :: NewLine !in lines[k]
    requires lines[4] == lines[0]
    ensures IsCut(Join(lines)) && CutIndex(Join(lines)) == 0
  {
    var text := Join(lines);
    SplitJoin(lines);
    JoinStartsWithFirst(lines);
    assert OccursAt(text, lines[4], 0);
  }
}
