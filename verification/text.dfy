/**
 * The .NET string operations the ingestion code relies on: splitting on and
 * joining with `Environment.NewLine`, `string.IsNullOrWhiteSpace`,
 * `string.IndexOf`, the `^` line-break marker of the game's dialogue strings,
 * and the `"> "` block the mod builds from a question's responses.
 */
module Text {
  import opened Common

  /** `Environment.NewLine`, modelled as one fixed separator character. */
  const NewLine: char := '\n'

  /** `char.IsWhiteSpace`: the Unicode space, line and paragraph separators and U+0009..U+000D, U+0085. */
  predicate IsWhiteSpace(c: char)
  {
    c == ' ' || ('\t' <= c <= '\r') || c == '\U{0085}' || c == '\U{00A0}' || c == '\U{1680}'
    || ('\U{2000}' <= c <= '\U{200A}') || c == '\U{2028}' || c == '\U{2029}'
    || c == '\U{202F}' || c == '\U{205F}' || c == '\U{3000}'
  }

  /** `string.IsNullOrWhiteSpace` on a non-null string: empty, or white space only. */
  predicate IsNullOrWhiteSpace(s: string)
  {
    forall i | 0 <= i < |s| :: IsWhiteSpace(s[i])
  }

  function CountNewLines(s: string): nat
  {
    if s == [] then 0 else (if s[0] == NewLine then 1 else 0) + CountNewLines(s[1..])
  }

  /**
   * `s.Split(Environment.NewLine)` with `StringSplitOptions.None`: the pieces
   * between separators, empty pieces included, so there is always one more
   * piece than there are separators.
   */
  function Split(s: string): (lines: seq<string>)
    ensures |lines| == CountNewLines(s) + 1
    ensures forall k | 0 <= k < |lines| :: NewLine !in lines[k]
    decreases |s|
  {
    if s == [] then [""]
    else
      var rest := Split(s[1..]);
      if s[0] == NewLine then [""] + rest
      else [[s[0]] + rest[0]] + rest[1..]
  }

  /** `string.Join(separator, parts)`. */
  function JoinWith(separator: string, parts: seq<string>): string
    decreases |parts|
  {
    if parts == [] then ""
    else if |parts| == 1 then parts[0]
    else parts[0] + separator + JoinWith(separator, parts[1..])
  }

  /** `string.Join(Environment.NewLine, lines)`. */
  function Join(lines: seq<string>): string
  {
    JoinWith([NewLine], lines)
  }

  /** `s.Replace("^", Environment.NewLine)`: the game marks line breaks in dialogue with `^`. */
  function ReplaceCaret(s: string): (r: string)
    ensures |r| == |s| && '^' !in r
    ensures forall i | 0 <= i < |s| && s[i] == '^' :: r[i] == NewLine
    ensures forall i | 0 <= i < |s| && s[i] != '^' :: r[i] == s[i]
  {
    seq(|s|, i requires 0 <= i < |s| => if s[i] == '^' then NewLine else s[i])
  }

  /** The block logged for a question's responses: `"> " + string.Join(NewLine + "> ", responses)`. */
  function ResponseBlock(responses: seq<string>): string
  {
    "> " + JoinWith([NewLine] + "> ", responses)
  }

  /** Each response on its own line, behind the `"> "` marker. */
  function Prefixed(responses: seq<string>): (lines: seq<string>)
    ensures |lines| == |responses|
    ensures forall k | 0 <= k < |lines| :: lines[k] == "> " + responses[k]
  {
    seq(|responses|, k requires 0 <= k < |responses| => "> " + responses[k])
  }

  predicate OccursAt(s: string, sub: string, j: int)
  {
    0 <= j && j + |sub| <= |s| && s[j..j + |sub|] == sub
  }

  /** `s.IndexOf(sub)` (ordinal): the first position where `sub` occurs, or -1. */
  function IndexOf(s: string, sub: string): (r: int)
    ensures r == -1 || OccursAt(s, sub, r)
    ensures forall j | 0 <= j < (if r == -1 then |s| + 1 else r) :: !OccursAt(s, sub, j)
  {
    IndexFrom(s, sub, 0)
  }

  function IndexFrom(s: string, sub: string, from: nat): (r: int)
    requires from <= |s| + 1
    ensures r == -1 || (from <= r && OccursAt(s, sub, r))
    ensures forall j | from <= j < (if r == -1 then |s| + 1 else r) :: !OccursAt(s, sub, j)
    decreases |s| + 1 - from
  {
    if from == |s| + 1 then -1
    else if OccursAt(s, sub, from) then from
    else IndexFrom(s, sub, from + 1)
  }

  /** Where line `k` of `s` begins. */
  function LineStart(s: string, k: nat): nat
    requires k < |Split(s)|
  {
    if k == 0 then 0 else |Join(Split(s)[..k])| + 1
  }

  // ---------------------------------------------------------------------------
  // Split and Join are inverse to each other.

  lemma {:induction false} JoinConsChar(c: char, lines: seq<string>)
    requires |lines| >= 1
    ensures Join([[c] + lines[0]] + lines[1..]) == [c] + Join(lines)
  {
    var cons := [[c] + lines[0]] + lines[1..];
    if |lines| > 1 {
      assert cons[1..] == lines[1..];
    }
  }

  /** Joining the pieces of a split with the separator gives back the string. */
  lemma {:induction false} JoinSplit(s: string)
    ensures Join(Split(s)) == s
    decreases |s|
  {
    if s != [] {
      JoinSplit(s[1..]);
      var rest := Split(s[1..]);
      if s[0] == NewLine {
        assert Split(s) == [""] + rest;
        assert ([""] + rest)[1..] == rest;
        assert s == [NewLine] + s[1..];
      } else {
        JoinConsChar(s[0], rest);
        assert s == [s[0]] + s[1..];
      }
    }
  }

  lemma {:induction false} SplitLine(line: string)
    requires NewLine !in line
    ensures Split(line) == [line]
    decreases |line|
  {
    if line != [] {
      SplitLine(line[1..]);
      assert [line[0]] + line[1..] == line;
    }
  }

  lemma {:induction false} SplitAfterLine(line: string, rest: string)
    requires NewLine !in line
    ensures Split(line + [NewLine] + rest) == [line] + Split(rest)
    decreases |line|
  {
    var s := line + [NewLine] + rest;
    if line == [] {
      assert s[1..] == rest;
    } else {
      SplitAfterLine(line[1..], rest);
      assert s[0] == line[0];
      assert s[1..] == line[1..] + [NewLine] + rest;
      assert [line[0]] + line[1..] == line;
    }
  }

  /** Splitting a join of separator-free pieces gives back the pieces. */
  lemma {:induction false} SplitJoin(lines: seq<string>)
    requires |lines| >= 1
    requires forall k | 0 <= k < |lines| :: NewLine !in lines[k]
    ensures Split(Join(lines)) == lines
    decreases |lines|
  {
    if |lines| == 1 {
      SplitLine(lines[0]);
    } else {
      SplitJoin(lines[1..]);
      SplitAfterLine(lines[0], Join(lines[1..]));
      assert [lines[0]] + lines[1..] == lines;
    }
  }

  /** Joining two non-empty lists of pieces puts one separator between their joins. */
  lemma {:induction false} JoinWithAppend(separator: string, a: seq<string>, b: seq<string>)
    requires |a| >= 1 && |b| >= 1
    ensures JoinWith(separator, a + b) == JoinWith(separator, a) + separator + JoinWith(separator, b)
    decreases |a|
  {
    if |a| == 1 {
      assert (a + b)[1..] == b;
    } else {
      JoinWithAppend(separator, a[1..], b);
      assert (a + b)[1..] == a[1..] + b;
    }
  }

  lemma {:induction false} JoinStartsWithFirst(lines: seq<string>)
    requires |lines| >= 1
    ensures |lines[0]| <= |Join(lines)| && Join(lines)[..|lines[0]|] == lines[0]
  {
    if |lines| > 1 {
      assert Join(lines) == lines[0] + ([NewLine] + Join(lines[1..]));
    }
  }

  /** Line `k` of `s` occurs in `s` where the line begins, after the first `k` lines and their separators. */
  lemma {:induction false} LineAt(s: string, k: nat)
    requires k < |Split(s)|
    ensures OccursAt(s, Split(s)[k], LineStart(s, k))
    ensures k > 0 ==> s[..LineStart(s, k)] == Join(Split(s)[..k]) + [NewLine]
    ensures s[LineStart(s, k)..] == Join(Split(s)[k..])
  {
    var lines := Split(s);
    JoinSplit(s);
    if k > 0 {
      JoinWithAppend([NewLine], lines[..k], lines[k..]);
      assert lines[..k] + lines[k..] == lines;
      assert s == (Join(lines[..k]) + [NewLine]) + Join(lines[k..]);
    } else {
      assert lines[k..] == lines;
    }
    JoinStartsWithFirst(lines[k..]);
    assert s[LineStart(s, k)..][..|lines[k]|] == lines[k];
  }

  lemma {:induction false} CountNewLinesAppend(a: string, b: string)
    ensures CountNewLines(a + b) == CountNewLines(a) + CountNewLines(b)
    decreases |a|
  {
    if a == [] {
      assert a + b == b;
    } else {
      CountNewLinesAppend(a[1..], b);
      assert (a + b)[1..] == a[1..] + b;
    }
  }

  // ---------------------------------------------------------------------------
  // The response block.

  lemma {:induction false} ResponseBlockIsJoin(responses: seq<string>)
    requires |responses| >= 1
    ensures ResponseBlock(responses) == Join(Prefixed(responses))
    decreases |responses|
  {
    if |responses| > 1 {
      ResponseBlockIsJoin(responses[1..]);
      assert Prefixed(responses)[1..] == Prefixed(responses[1..]);
    }
  }

  /**
   * A block of newline-free responses has one line per response, in order,
   * each behind the `"> "` marker.
   */
  lemma ResponseBlockLines(responses: seq<string>)
    requires |responses| >= 1
    requires forall k | 0 <= k < |responses| :: NewLine !in responses[k]
    ensures Split(ResponseBlock(responses)) == Prefixed(responses)
  {
    ResponseBlockIsJoin(responses);
    forall k | 0 <= k < |responses| ensures NewLine !in Prefixed(responses)[k] {
      assert Prefixed(responses)[k] == "> " + responses[k];
    }
    SplitJoin(Prefixed(responses));
  }
}
