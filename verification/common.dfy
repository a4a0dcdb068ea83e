/** Values the game hands to the mod, and the shapes the mod's own records take. */
module Common {

  datatype Option<T> = None | Some(value: T)

  /** The exceptions the modelled code can raise. */
  datatype Exception = ArgumentOutOfRange | NullReference

  /** A value, or the exception that stopped the operation producing it. */
  datatype Result<T> = Success(value: T) | Failure(error: Exception)

  /**
   * The game's `Dialogue` object of the character who is speaking: only its
   * display name and its current portrait index are ever read.
   */
  datatype Speaker = Speaker(displayName: string, portraitIndex: int)

  /**
   * One entry of the log in the `LogMenu` namespace: the speaker's dialogue
   * (absent for objects, signs and HUD messages), the portrait index and the
   * text handed to the element's constructor, before it is wrapped for display.
   */
  datatype DialogueElement = DialogueElement(speaker: Option<Speaker>, portraitIndex: int, text: string)

  /** One log element per text, all with the same speaker and portrait. */
  function Elements(speaker: Option<Speaker>, portraitIndex: int, texts: seq<string>): (elements: seq<DialogueElement>)
    ensures |elements| == |texts|
    ensures forall k | 0 <= k < |texts| :: elements[k] == DialogueElement(speaker, portraitIndex, texts[k])
  {
    seq(|texts|, k requires 0 <= k < |texts| => DialogueElement(speaker, portraitIndex, texts[k]))
  }

  /** The texts of some log elements, in order. */
  function Texts(elements: seq<DialogueElement>): (texts: seq<string>)
    ensures |texts| == |elements|
    ensures forall k | 0 <= k < |elements| :: texts[k] == elements[k].text
  {
    seq(|elements|, k requires 0 <= k < |elements| => elements[k].text)
  }

  function Min(a: int, b: int): int { if a <= b then a else b }

  /** The suffix of `s` from index `i` on, empty once `i` is past the end: what a loop with index `i` has left to visit. */
  function From<T>(s: seq<T>, i: nat): seq<T>
  {
    if i <= |s| then s[i..] else []
  }
}
