/**
 * The chunking rule of `splitDialogue` in ModEntry.cs: a dialogue of more
 * than `limit` lines is cut into consecutive groups of `limit` lines, and the
 * groups whose text is white space only are dropped afterwards.
 */
module Chunker {
  import opened Common
  import opened Text

  /** `k * limit`, where group `k` begins, counted up without multiplication. */
  function Offset(k: nat, limit: nat): nat
  {
    if k == 0 then 0 else Offset(k - 1, limit) + limit
  }

  lemma {:induction false} OffsetIsProduct(k: nat, limit: nat)
    ensures Offset(k, limit) == k * limit
  {
    if k > 0 {
      OffsetIsProduct(k - 1, limit);
    }
  }

  /** The least `q` with `n <= q * d`, that is the ceiling of `n / d`. */
  function CeilDiv(n: nat, d: nat): (q: nat)
    requires d > 0
    ensures n <= Offset(q, d) && (q > 0 ==> Offset(q - 1, d) < n)
    decreases n
  {
    if n == 0 then 0 else if n <= d then 1 else 1 + CeilDiv(n - d, d)
  }

  /**
   * The lines cut into consecutive groups of `limit`; only the last group can
   * be shorter and no group is empty.
   */
  function Groups(lines: seq<string>, limit: nat): seq<seq<string>>
    requires limit > 0
    decreases |lines|
  {
    if lines == [] then []
    else if |lines| <= limit then [lines]
    else [lines[..limit]] + Groups(lines[limit..], limit)
  }

  /** There are `ceil(n / limit)` groups, and each holds between one and `limit` lines. */
  lemma {:induction false} GroupsShape(lines: seq<string>, limit: nat)
    requires limit > 0
    ensures |Groups(lines, limit)| == CeilDiv(|lines|, limit)
    ensures forall k | 0 <= k < |Groups(lines, limit)| :: 0 < |Groups(lines, limit)[k]| <= limit
    decreases |lines|
  {
    if |lines| > limit {
      var groups := Groups(lines, limit);
      var tail := Groups(lines[limit..], limit);
      GroupsShape(lines[limit..], limit);
      assert groups == [lines[..limit]] + tail;
      forall k | 0 < k < |groups| ensures 0 < |groups[k]| <= limit {
        assert groups[k] == tail[k - 1];
      }
    }
  }

  /** Each group's lines joined with the separator. */
  function GroupTexts(groups: seq<seq<string>>): (texts: seq<string>)
    ensures |texts| == |groups|
    ensures forall k | 0 <= k < |groups| :: texts[k] == Join(groups[k])
  {
    seq(|groups|, k requires 0 <= k < |groups| => Join(groups[k]))
  }

  /** The texts that are not white space only, in their original order. */
  function NonBlank(texts: seq<string>): seq<string>
    decreases |texts|
  {
    if texts == [] then []
    else if IsNullOrWhiteSpace(texts[0]) then NonBlank(texts[1..])
    else [texts[0]] + NonBlank(texts[1..])
  }

  /**
   * A text is kept exactly when it is there and not white space only; none
   * is added, and when none is dropped the texts are unchanged.
   */
  lemma {:induction false} NonBlankSpec(texts: seq<string>)
    ensures |NonBlank(texts)| <= |texts|
    ensures forall c | c in NonBlank(texts) :: c in texts && !IsNullOrWhiteSpace(c)
    ensures forall c | c in texts && !IsNullOrWhiteSpace(c) :: c in NonBlank(texts)
    ensures |NonBlank(texts)| == |texts| ==> NonBlank(texts) == texts
    decreases |texts|
  {
    if texts != [] {
      NonBlankSpec(texts[1..]);
      assert texts == [texts[0]] + texts[1..];
    }
  }

  /**
   * The texts `splitDialogue` enqueues for `dialogue`: nothing for white
   * space, the whole untrimmed text when it has at most `limit` lines, and
   * otherwise the non-blank groups of `limit` lines in their original order.
   */
  function SplitChunks(dialogue: string, limit: nat): (chunks: seq<string>)
    requires limit > 0
    ensures IsNullOrWhiteSpace(dialogue) ==> chunks == []
    ensures !IsNullOrWhiteSpace(dialogue) && |Split(dialogue)| <= limit ==> chunks == [dialogue]
    ensures !IsNullOrWhiteSpace(dialogue) ==> |chunks| >= 1
    ensures forall c | c in chunks :: !IsNullOrWhiteSpace(c)
    ensures |chunks| <= CeilDiv(|Split(dialogue)|, limit)
  {
    if IsNullOrWhiteSpace(dialogue) then []
    else
      var lines := Split(dialogue);
      if |lines| > limit then
        SomeGroupNotBlank(dialogue, limit);
        GroupsShape(lines, limit);
        NonBlankSpec(GroupTexts(Groups(lines, limit)));
        NonBlank(GroupTexts(Groups(lines, limit)))
      else [dialogue]
  }

  // ---------------------------------------------------------------------------

  /** The first group, and the groups after it, which are those of the lines past the first `limit`. */
  lemma GroupsHead(lines: seq<string>, limit: nat)
    requires limit > 0 && lines != []
    ensures Groups(lines, limit)[0] == lines[..Min(limit, |lines|)]
    ensures |lines| > limit ==> Groups(lines, limit)[1..] == Groups(lines[limit..], limit)
  {
  }

  lemma SliceOfSuffix(lines: seq<string>, skip: nat, start: nat, end: nat)
    requires skip <= |lines| && start <= end <= |lines| - skip
    ensures lines[skip..][start..end] == lines[start + skip..end + skip]
  {
  }

  /** Group `k` holds lines `k * limit` up to `k * limit + limit`, or up to the end. */
  lemma {:induction false} GroupsAt(lines: seq<string>, limit: nat, k: nat)
    requires limit > 0 && k < |Groups(lines, limit)|
    ensures Offset(k, limit) < |lines|
    ensures Groups(lines, limit)[k] == lines[Offset(k, limit) .. Min(Offset(k, limit) + limit, |lines|)]
    decreases k
  {
    GroupsHead(lines, limit);
    if k > 0 {
      var groups := Groups(lines, limit);
      var rest := lines[limit..];
      assert groups[k] == groups[1..][k - 1];
      GroupsAt(rest, limit, k - 1);
      var start := Offset(k - 1, limit);
      var end := Min(start + limit, |rest|);
      SliceOfSuffix(lines, limit, start, end);
      assert Offset(k, limit) == start + limit;
      assert Min(Offset(k, limit) + limit, |lines|) == end + limit;
      assert groups[k] == lines[start + limit..end + limit];
    }
  }

  function Concat(groups: seq<seq<string>>): seq<string>
  {
    if groups == [] then [] else groups[0] + Concat(groups[1..])
  }

  /** The groups, put back together, are the lines. */
  lemma {:induction false} GroupsConcat(lines: seq<string>, limit: nat)
    requires limit > 0
    ensures Concat(Groups(lines, limit)) == lines
    decreases |lines|
  {
    if |lines| > limit {
      GroupsConcat(lines[limit..], limit);
      assert Groups(lines, limit)[1..] == Groups(lines[limit..], limit);
      assert lines[..limit] + lines[limit..] == lines;
    } else if lines != [] {
      assert lines + [] == lines;
    }
  }

  /** Joining the texts of non-empty groups is joining all their lines. */
  lemma {:induction false} JoinGroupTexts(groups: seq<seq<string>>)
    requires |groups| >= 1
    requires forall k | 0 <= k < |groups| :: |groups[k]| >= 1
    ensures Join(GroupTexts(groups)) == Join(Concat(groups))
    decreases |groups|
  {
    if |groups| > 1 {
      JoinGroupTexts(groups[1..]);
      assert GroupTexts(groups)[1..] == GroupTexts(groups[1..]);
      assert |Concat(groups[1..])| >= 1 by {
        assert Concat(groups[1..]) == groups[1] + Concat(groups[2..]);
      }
      JoinWithAppend([NewLine], groups[0], Concat(groups[1..]));
    } else {
      assert groups[1..] == [];
      assert Concat(groups) == groups[0] + [];
      assert groups[0] + [] == groups[0];
    }
  }

  /**
   * When no group is dropped (there are as many chunks as groups), joining the
   * chunks with the separator reproduces the dialogue.
   */
  lemma ChunksRoundTrip(dialogue: string, limit: nat)
    requires limit > 0
    requires !IsNullOrWhiteSpace(dialogue)
    requires |SplitChunks(dialogue, limit)| == CeilDiv(|Split(dialogue)|, limit)
    ensures Join(SplitChunks(dialogue, limit)) == dialogue
  {
    var lines := Split(dialogue);
    if |lines| > limit {
      var groups := Groups(lines, limit);
      GroupsShape(lines, limit);
      NonBlankSpec(GroupTexts(groups));
      assert NonBlank(GroupTexts(groups)) == GroupTexts(groups);
      JoinGroupTexts(groups);
      GroupsConcat(lines, limit);
      JoinSplit(dialogue);
    }
  }

  /** The text of group `k` under the fixed cut points `k * limit`. */
  function GroupText(lines: seq<string>, limit: nat, k: nat): string
  {
    Join(lines[Min(Offset(k, limit), |lines|) .. Min(Offset(k, limit) + limit, |lines|)])
  }

  /** The texts of all groups under the fixed cut points `0, limit, 2 * limit, ...`. */
  function FixedCutTexts(lines: seq<string>, limit: nat): (texts: seq<string>)
    requires limit > 0
    ensures |texts| == CeilDiv(|lines|, limit)
    ensures forall k | 0 <= k < |texts| :: texts[k] == GroupText(lines, limit, k)
  {
    seq(CeilDiv(|lines|, limit), k requires 0 <= k < CeilDiv(|lines|, limit) => GroupText(lines, limit, k))
  }

  /**
   * In the chunked case the chunks are the non-blank ones among the texts of
   * lines `0..limit`, `limit..2*limit`, and so on: dropping a blank group does
   * not move the cut points of the groups after it.
   */
  lemma ChunksAtFixedCuts(dialogue: string, limit: nat)
    requires limit > 0
    requires !IsNullOrWhiteSpace(dialogue) && |Split(dialogue)| > limit
    ensures SplitChunks(dialogue, limit) == NonBlank(FixedCutTexts(Split(dialogue), limit))
  {
    var lines := Split(dialogue);
    var fixed := FixedCutTexts(lines, limit);
    var texts := GroupTexts(Groups(lines, limit));
    GroupsShape(lines, limit);
    forall k | 0 <= k < |fixed| ensures texts[k] == fixed[k] {
      GroupsAt(lines, limit, k);
    }
    assert texts == fixed;
  }

  /**
   * The responses block, built from responses that hold no line break, is
   * never dropped: it is cut into `ceil(n / limit)` chunks that join back to
   * the block.
   */
  lemma ResponseChunks(responses: seq<string>, limit: nat)
    requires limit > 0 && |responses| >= 1
    requires forall k | 0 <= k < |responses| :: NewLine !in responses[k]
    ensures |SplitChunks(ResponseBlock(responses), limit)| == CeilDiv(|responses|, limit)
    ensures Join(SplitChunks(ResponseBlock(responses), limit)) == ResponseBlock(responses)
  {
    var block := ResponseBlock(responses);
    ResponseBlockLines(responses);
    var lines := Split(block);
    assert !IsWhiteSpace(block[0]);
    if |lines| > limit {
      var groups := Groups(lines, limit);
      var texts := GroupTexts(groups);
      GroupsShape(lines, limit);
      forall k | 0 <= k < |texts| ensures !IsNullOrWhiteSpace(texts[k]) {
        GroupFirstLine(lines, limit, k);
        MarkedTextNotBlank(groups[k]);
      }
      NonBlankKeepsAll(texts);
    }
    ChunksRoundTrip(block, limit);
  }

  lemma GroupFirstLine(lines: seq<string>, limit: nat, k: nat)
    requires limit > 0 && k < |Groups(lines, limit)|
    ensures Groups(lines, limit)[k] != [] && Groups(lines, limit)[k][0] in lines
  {
    GroupsAt(lines, limit, k);
    var g := Groups(lines, limit)[k];
    assert g[0] == lines[Offset(k, limit)];
  }

  /** Lines whose first line starts with the `"> "` marker join to a text that is not blank. */
  lemma MarkedTextNotBlank(group: seq<string>)
    requires |group| >= 1 && |group[0]| >= 1 && group[0][0] == '>'
    ensures !IsNullOrWhiteSpace(Join(group))
  {
    JoinStartsWithFirst(group);
    assert Join(group)[0] == group[0][0];
  }

  /** Lines that are all white space join to white space: the separator is white space too. */
  lemma {:induction false} JoinBlank(parts: seq<string>)
    ensures (forall k | 0 <= k < |parts| :: IsNullOrWhiteSpace(parts[k])) ==> IsNullOrWhiteSpace(Join(parts))
    decreases |parts|
  {
    if |parts| > 1 {
      JoinBlank(parts[1..]);
      assert forall k | 0 <= k < |parts| - 1 :: parts[1..][k] == parts[k + 1];
    }
  }

  /** A text that is not white space has a group that is not white space. */
  lemma SomeGroupNotBlank(dialogue: string, limit: nat)
    requires limit > 0 && !IsNullOrWhiteSpace(dialogue)
    ensures exists t | t in GroupTexts(Groups(Split(dialogue), limit)) :: !IsNullOrWhiteSpace(t)
  {
    var lines := Split(dialogue);
    var groups := Groups(lines, limit);
    var texts := GroupTexts(groups);
    GroupsShape(lines, limit);
    JoinGroupTexts(groups);
    GroupsConcat(lines, limit);
    JoinSplit(dialogue);
    JoinBlank(texts);
    assert !IsNullOrWhiteSpace(Join(texts));
  }

  /** The chunk the loop makes at index `i`: the next `min(limit, lines.Count - i)` lines, joined. */
  function ChunkAt(lines: seq<string>, i: nat, limit: nat): string
    requires i < |lines|
  {
    Join(lines[i..i + Min(limit, |lines| - i)])
  }

  /**
   * One turn of the loop `for (i = 0; i < lines.Count; i += limit)`: the group
   * starting at line `i` has `min(limit, lines.Count - i)` lines, and the
   * groups after it start at line `i + limit`.
   */
  lemma ChunkStep(lines: seq<string>, i: nat, limit: nat)
    requires limit > 0 && i < |lines|
    ensures GroupTexts(Groups(From(lines, i), limit))
      == [ChunkAt(lines, i, limit)] + GroupTexts(Groups(From(lines, i + limit), limit))
  {
    var rest := lines[i..];
    var groups := Groups(rest, limit);
    var tail := Groups(From(lines, i + limit), limit);
    if |rest| <= limit {
      assert From(lines, i + limit) == [];
      assert groups == [rest] + tail;
      assert rest[..Min(limit, |rest|)] == rest;
    } else {
      assert rest[limit..] == From(lines, i + limit);
      assert groups == [rest[..limit]] + tail;
    }
    assert groups[0] == rest[..Min(limit, |rest|)];
    var texts := GroupTexts(groups);
    assert texts[0] == Join(rest[..Min(limit, |rest|)]);
    assert rest[..Min(limit, |rest|)] == lines[i..i + Min(limit, |lines| - i)];
    assert texts[1..] == GroupTexts(tail);
  }

  /**
   * The texts the loop `for (i = 0; i < lines.Count; i += limit)` joins once
   * its index reaches `i`, blank or not, step by step as the loop makes them.
   */
  function LoopTexts(lines: seq<string>, i: nat, limit: nat): seq<string>
    requires limit > 0
    decreases |lines| - i
  {
    if i >= |lines| then [] else [ChunkAt(lines, i, limit)] + LoopTexts(lines, i + limit, limit)
  }

  /** The loop joins exactly the groups of the whole-group definition, from any index on. */
  lemma {:induction false} LoopTextsAreGroups(lines: seq<string>, i: nat, limit: nat)
    requires limit > 0
    ensures LoopTexts(lines, i, limit) == GroupTexts(Groups(From(lines, i), limit))
    decreases |lines| - i
  {
    if i < |lines| {
      LoopTextsAreGroups(lines, i + limit, limit);
      LoopTextsStep(lines, i, limit);
    } else {
      LoopTextsDone(lines, i, limit);
    }
  }

  lemma LoopTextsStep(lines: seq<string>, i: nat, limit: nat)
    requires limit > 0 && i < |lines|
    requires LoopTexts(lines, i + limit, limit) == GroupTexts(Groups(From(lines, i + limit), limit))
    ensures LoopTexts(lines, i, limit) == GroupTexts(Groups(From(lines, i), limit))
  {
    ChunkStep(lines, i, limit);
  }

  lemma LoopTextsDone(lines: seq<string>, i: nat, limit: nat)
    requires limit > 0 && i >= |lines|
    ensures LoopTexts(lines, i, limit) == GroupTexts(Groups(From(lines, i), limit))
  {
    assert From(lines, i) == [];
    assert Groups([], limit) == [];
  }

  /**
   * Text of more than `limit` lines: the loop, run from the start, keeps
   * exactly the chunks of `SplitChunks`.
   */
  lemma LoopMakesSplitChunks(dialogue: string, limit: nat)
    requires limit > 0 && !IsNullOrWhiteSpace(dialogue) && |Split(dialogue)| > limit
    ensures SplitChunks(dialogue, limit) == NonBlank(LoopTexts(Split(dialogue), 0, limit))
  {
    LoopTextsAreGroups(Split(dialogue), 0, limit);
    assert From(Split(dialogue), 0) == Split(dialogue);
  }

  lemma {:induction false} NonBlankKeepsAll(texts: seq<string>)
    requires forall k | 0 <= k < |texts| :: !IsNullOrWhiteSpace(texts[k])
    ensures NonBlank(texts) == texts
    decreases |texts|
  {
    if texts != [] {
      NonBlankKeepsAll(texts[1..]);
      assert [texts[0]] + texts[1..] == texts;
    }
  }
}
