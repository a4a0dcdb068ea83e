/**
 * The cleanup ModEntry.cs applies to each response text of a question before
 * logging it: line breaks become spaces, one leading space is dropped, and
 * every run of white space (`Regex.Replace(text, @"\s+", " ")`) becomes one
 * space.
 */
module ResponseCleanup {
  import opened Text

  /** `text.Replace(Environment.NewLine, " ")`. */
  function ReplaceNewLines(text: string): (r: string)
    ensures |r| == |text| && NewLine !in r
    ensures forall i | 0 <= i < |text| && text[i] == NewLine :: r[i] == ' '
    ensures forall i | 0 <= i < |text| && text[i] != NewLine :: r[i] == text[i]
  {
    seq(|text|, i requires 0 <= i < |text| => if text[i] == NewLine then ' ' else text[i])
  }

  /** `if (text.Length > 0 && text[0] == ' ') text = text[1..]`. */
  function DropLeadingSpace(text: string): string
  {
    if |text| > 0 && text[0] == ' ' then text[1..] else text
  }

  /** The text after its leading run of white space. */
  function SkipWhiteSpace(text: string): (r: string)
    ensures |r| <= |text| && r == text[|text| - |r|..]
    ensures IsNullOrWhiteSpace(text[..|text| - |r|])
    ensures r == [] || !IsWhiteSpace(r[0])
    decreases |text|
  {
    if text != [] && IsWhiteSpace(text[0]) then SkipWhiteSpace(text[1..]) else text
  }

  /** `Regex.Replace(text, @"\s+", " ")`: each maximal run of white space becomes one space. */
  function CollapseWhiteSpace(text: string): string
    decreases |text|
  {
    if text == [] then []
    else if IsWhiteSpace(text[0]) then [' '] + CollapseWhiteSpace(SkipWhiteSpace(text[1..]))
    else [text[0]] + CollapseWhiteSpace(text[1..])
  }

  /** A text whose only white space is single spaces, no two of them next to each other. */
  predicate Collapsed(r: string)
  {
    (forall i | 0 <= i < |r| && IsWhiteSpace(r[i]) :: r[i] == ' ')
    && (forall i | 0 <= i < |r| - 1 :: !(IsWhiteSpace(r[i]) && IsWhiteSpace(r[i + 1])))
  }

  /**
   * The collapse never lengthens the text, keeps whether it starts with white
   * space, and leaves only single spaces as white space.
   */
  lemma {:induction false} CollapseWhiteSpaceSpec(text: string)
    ensures |CollapseWhiteSpace(text)| <= |text|
    ensures text != [] ==>
      (CollapseWhiteSpace(text) != [] && (IsWhiteSpace(CollapseWhiteSpace(text)[0]) <==> IsWhiteSpace(text[0])))
    ensures Collapsed(CollapseWhiteSpace(text))
    decreases |text|
  {
    if text != [] {
      var rest := if IsWhiteSpace(text[0]) then SkipWhiteSpace(text[1..]) else text[1..];
      CollapseWhiteSpaceSpec(rest);
      var c := CollapseWhiteSpace(rest);
      var head := if IsWhiteSpace(text[0]) then ' ' else text[0];
      ConsCollapsed(head, c, IsWhiteSpace(text[0]) ==> c == [] || !IsWhiteSpace(c[0]));
    }
  }

  lemma ConsCollapsed(head: char, c: string, apart: bool)
    requires Collapsed(c) && (IsWhiteSpace(head) ==> head == ' ')
    requires apart && (IsWhiteSpace(head) ==> c == [] || !IsWhiteSpace(c[0]))
    ensures Collapsed([head] + c)
  {
    var r := [head] + c;
    assert forall i | 0 < i < |r| :: r[i] == c[i - 1];
  }

  /** One response text as the mod logs it. */
  function CleanResponse(text: string): (r: string)
    ensures NewLine !in r
    ensures forall i | 0 <= i < |r| - 1 :: !(IsWhiteSpace(r[i]) && IsWhiteSpace(r[i + 1]))
  {
    CollapseWhiteSpaceSpec(DropLeadingSpace(ReplaceNewLines(text)));
    CollapseWhiteSpace(DropLeadingSpace(ReplaceNewLines(text)))
  }

  function CleanResponses(texts: seq<string>): (r: seq<string>)
    ensures |r| == |texts|
    ensures forall k | 0 <= k < |texts| :: r[k] == CleanResponse(texts[k])
  {
    seq(|texts|, k requires 0 <= k < |texts| => CleanResponse(texts[k]))
  }

  // ---------------------------------------------------------------------------

  /** The characters of a text that are not white space, in order. */
  function Visible(text: string): string
    decreases |text|
  {
    if text == [] then []
    else if IsWhiteSpace(text[0]) then Visible(text[1..])
    else [text[0]] + Visible(text[1..])
  }

  lemma {:induction false} VisibleSkip(text: string)
    ensures Visible(SkipWhiteSpace(text)) == Visible(text)
    decreases |text|
  {
    if text != [] && IsWhiteSpace(text[0]) {
      VisibleSkip(text[1..]);
    }
  }

  /** Collapsing white space changes no character that is not white space. */
  lemma {:induction false} VisibleCollapse(text: string)
    ensures Visible(CollapseWhiteSpace(text)) == Visible(text)
    decreases |text|
  {
    if text != [] {
      var r := CollapseWhiteSpace(text);
      if IsWhiteSpace(text[0]) {
        VisibleCollapse(SkipWhiteSpace(text[1..]));
        VisibleSkip(text[1..]);
        assert r[1..] == CollapseWhiteSpace(SkipWhiteSpace(text[1..]));
      } else {
        VisibleCollapse(text[1..]);
        assert r[1..] == CollapseWhiteSpace(text[1..]);
      }
    }
  }

  lemma {:induction false} VisibleReplaceNewLines(text: string)
    ensures Visible(ReplaceNewLines(text)) == Visible(text)
    decreases |text|
  {
    if text != [] {
      VisibleReplaceNewLines(text[1..]);
      assert ReplaceNewLines(text)[1..] == ReplaceNewLines(text[1..]);
    }
  }

  /**
   * The cleanup touches only white space: the characters that are not white
   * space are kept, in order, and none is added.
   */
  lemma CleanupKeepsVisibleText(text: string)
    ensures Visible(CleanResponse(text)) == Visible(text)
  {
    VisibleReplaceNewLines(text);
    VisibleCollapse(DropLeadingSpace(ReplaceNewLines(text)));
  }

  /** A text whose only white space is single spaces is left as it is by the collapse. */
  lemma {:induction false} CollapseFixesCollapsed(text: string)
    requires Collapsed(text)
    ensures CollapseWhiteSpace(text) == text
    decreases |text|
  {
    if text != [] {
      CollapseFixesCollapsed(text[1..]);
      if IsWhiteSpace(text[0]) {
        assert SkipWhiteSpace(text[1..]) == text[1..];
      }
      assert [text[0]] + text[1..] == text;
    }
  }

  /** Collapsing twice is collapsing once. */
  lemma CollapseIdempotent(text: string)
    ensures CollapseWhiteSpace(CollapseWhiteSpace(text)) == CollapseWhiteSpace(text)
  {
    CollapseWhiteSpaceSpec(text);
    CollapseFixesCollapsed(CollapseWhiteSpace(text));
  }
}
