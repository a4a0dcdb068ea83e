/**
 * The bookkeeping of HUD messages in ModEntry.cs: `hudTexts` lists the HUD
 * message texts already logged, so that a message stays logged once while it
 * is on screen, and is pruned once the game no longer shows it.
 */
module HudTexts {
  import opened Common

  /** A HUD message: its text, and whether it carries an item (`messageSubject`). */
  datatype HudMessage = HudMessage(message: string, hasMessageSubject: bool)

  predicate NoDuplicates(texts: seq<string>)
  {
    forall i, j | 0 <= i < j < |texts| :: texts[i] != texts[j]
  }

  /** Whether the scan of the game's HUD messages meets a message with an item, which ends the tick. */
  predicate ScanAborts(messages: seq<HudMessage>)
    decreases |messages|
  {
    messages != [] && (messages[0].hasMessageSubject || ScanAborts(messages[1..]))
  }

  /** No message up to and including position `i` carries an item, so the scan reaches position `i`. */
  predicate BeforeItem(messages: seq<HudMessage>, i: nat)
  {
    forall k | 0 <= k <= i && k < |messages| :: !messages[k].hasMessageSubject
  }

  lemma BeforeItemShift(messages: seq<HudMessage>, i: nat)
    requires i + 1 < |messages|
    ensures BeforeItem(messages, i + 1) <==> !messages[0].hasMessageSubject && BeforeItem(messages[1..], i)
  {
    if !messages[0].hasMessageSubject && BeforeItem(messages[1..], i) {
      forall k | 0 < k <= i + 1 ensures !messages[k].hasMessageSubject {
        assert messages[k] == messages[1..][k - 1];
      }
    }
  }

  /**
   * The texts the scan logs and appends to `hudTexts`, in order: each message,
   * up to the first one with an item, whose text is not listed yet.
   */
  function NewHudTexts(known: seq<string>, messages: seq<HudMessage>): seq<string>
    decreases |messages|
  {
    if messages == [] || messages[0].hasMessageSubject then []
    else if messages[0].message in known then NewHudTexts(known, messages[1..])
    else [messages[0].message] + NewHudTexts(known + [messages[0].message], messages[1..])
  }

  /**
   * The texts the scan adds are not listed yet, are distinct, and are each
   * the text of a message that comes before any message with an item.
   */
  lemma {:induction false} NewHudTextsSpec(known: seq<string>, messages: seq<HudMessage>)
    ensures forall t | t in NewHudTexts(known, messages) :: t !in known
    ensures NoDuplicates(NewHudTexts(known, messages))
    ensures forall t | t in NewHudTexts(known, messages) ::
      exists i | 0 <= i < |messages| :: messages[i].message == t && BeforeItem(messages, i)
    decreases |messages|
  {
    if messages != [] && !messages[0].hasMessageSubject {
      var m := messages[0].message;
      var rest := if m in known then NewHudTexts(known, messages[1..]) else NewHudTexts(known + [m], messages[1..]);
      if m in known {
        NewHudTextsSpec(known, messages[1..]);
      } else {
        NewHudTextsSpec(known + [m], messages[1..]);
      }
      forall t | t in rest ensures exists i | 0 <= i < |messages| :: messages[i].message == t && BeforeItem(messages, i) {
        var i :| 0 <= i < |messages[1..]| && messages[1..][i].message == t && BeforeItem(messages[1..], i);
        BeforeItemShift(messages, i);
        assert messages[i + 1].message == t;
      }
      assert BeforeItem(messages, 0);
      if m !in known {
        assert m !in rest;
        var all := [m] + rest;
        forall i, j | 0 <= i < j < |all| ensures all[i] != all[j] {
          if i == 0 {
            assert all[j] in rest;
          } else {
            assert all[i] == rest[i - 1] && all[j] == rest[j - 1];
          }
        }
        assert all[0] == m;
      }
    }
  }

  /**
   * The scan adds every text not listed yet of a message that comes before
   * any message with an item.
   */
  lemma {:induction false} NewHudTextsComplete(known: seq<string>, messages: seq<HudMessage>, i: nat)
    requires i < |messages| && BeforeItem(messages, i) && messages[i].message !in known
    ensures messages[i].message in NewHudTexts(known, messages)
    decreases i
  {
    var m := messages[0].message;
    assert !messages[0].hasMessageSubject;
    if i > 0 && messages[i].message != m {
      BeforeItemShift(messages, i - 1);
      assert messages[1..][i - 1] == messages[i];
      if m in known {
        NewHudTextsComplete(known, messages[1..], i - 1);
      } else {
        NewHudTextsComplete(known + [m], messages[1..], i - 1);
      }
    }
  }

  /** Appending texts that are new and distinct keeps a list free of duplicates. */
  lemma AppendNewKeepsNoDuplicates(known: seq<string>, added: seq<string>)
    requires NoDuplicates(known) && NoDuplicates(added)
    requires forall t | t in added :: t !in known
    ensures NoDuplicates(known + added)
  {
    var all := known + added;
    forall i, j | 0 <= i < j < |all| ensures all[i] != all[j] {
      if i < |known| && j >= |known| {
        assert all[j] in added;
      }
    }
  }

  /** `hudTexts.Remove(text)`: removes the first occurrence of `text`. */
  function RemoveFirst(texts: seq<string>, text: string): seq<string>
    decreases |texts|
  {
    if texts == [] then []
    else if texts[0] == text then texts[1..]
    else [texts[0]] + RemoveFirst(texts[1..], text)
  }

  /** Removing a text whose first occurrence is at `i` removes position `i`. */
  lemma {:induction false} RemoveFirstOccurrence(texts: seq<string>, text: string, i: nat)
    requires i < |texts| && texts[i] == text
    requires forall k | 0 <= k < i :: texts[k] != text
    ensures RemoveFirst(texts, text) == texts[..i] + texts[i + 1..]
    decreases i
  {
    if i > 0 {
      var tail := texts[1..];
      assert texts[0] != text;
      assert forall k | 0 <= k < i - 1 :: tail[k] == texts[k + 1];
      RemoveFirstOccurrence(tail, text, i - 1);
      assert tail[..i - 1] == texts[1..i] && tail[i..] == texts[i + 1..];
      assert texts[..i] == [texts[0]] + texts[1..i];
    } else {
      assert texts[..i] == [];
    }
  }

  /** Dropping one position of a list free of duplicates leaves it free of them. */
  lemma DropKeepsNoDuplicates(texts: seq<string>, i: nat)
    requires NoDuplicates(texts) && i < |texts|
    ensures NoDuplicates(texts[..i] + texts[i + 1..])
  {
    var after := texts[..i] + texts[i + 1..];
    forall a, b | 0 <= a < b < |after| ensures after[a] != after[b] {
      var a' := if a < i then a else a + 1;
      var b' := if b < i then b else b + 1;
      assert after[a] == texts[a'] && after[b] == texts[b'];
    }
  }

  /** In a list without duplicates, removing the text at `i` removes position `i`. */
  lemma RemoveFirstAt(texts: seq<string>, i: nat)
    requires NoDuplicates(texts) && i < |texts|
    ensures RemoveFirst(texts, texts[i]) == texts[..i] + texts[i + 1..]
    ensures NoDuplicates(RemoveFirst(texts, texts[i]))
  {
    RemoveFirstOccurrence(texts, texts[i], i);
    DropKeepsNoDuplicates(texts, i);
  }

  /**
   * The forward prune loop `for (i = 0; i < hudTexts.Count; i++) if (!shown)
   * hudTexts.Remove(hudTexts[i])`: after a removal the next text slides into
   * slot `i` and the increment steps over it, so that text is kept unexamined.
   */
  function PruneSkipping(texts: seq<string>, shown: set<string>): seq<string>
    decreases |texts|
  {
    if texts == [] then []
    else if texts[0] in shown then [texts[0]] + PruneSkipping(texts[1..], shown)
    else if |texts| == 1 then []
    else [texts[1]] + PruneSkipping(texts[2..], shown)
  }

  /** The prune as written never grows the list, keeps only listed texts, and keeps every text still shown. */
  lemma {:induction false} PruneSkippingSpec(texts: seq<string>, shown: set<string>)
    ensures |PruneSkipping(texts, shown)| <= |texts|
    ensures forall t | t in PruneSkipping(texts, shown) :: t in texts
    ensures forall t | t in texts && t in shown :: t in PruneSkipping(texts, shown)
    decreases |texts|
  {
    if texts != [] {
      if texts[0] in shown {
        PruneSkippingSpec(texts[1..], shown);
        assert texts == [texts[0]] + texts[1..];
      } else if |texts| > 1 {
        PruneSkippingSpec(texts[2..], shown);
        assert texts == [texts[0], texts[1]] + texts[2..];
      }
    }
  }

  /** The prune only drops texts, so a list free of duplicates stays free of them. */
  lemma {:induction false} PruneKeepsNoDuplicates(texts: seq<string>, shown: set<string>)
    requires NoDuplicates(texts)
    ensures NoDuplicates(PruneSkipping(texts, shown))
    decreases |texts|
  {
    if |texts| >= 2 {
      var tail := if texts[0] in shown then texts[1..] else texts[2..];
      var head := if texts[0] in shown then texts[0] else texts[1];
      assert NoDuplicates(tail) by {
        forall i, j | 0 <= i < j < |tail| ensures tail[i] != tail[j] {
          if texts[0] in shown {
            assert tail[i] == texts[i + 1] && tail[j] == texts[j + 1];
          } else {
            assert tail[i] == texts[i + 2] && tail[j] == texts[j + 2];
          }
        }
      }
      assert head !in tail by {
        forall k | 0 <= k < |tail| ensures tail[k] != head {
          if texts[0] in shown {
            assert tail[k] == texts[k + 1];
          } else {
            assert tail[k] == texts[k + 2];
          }
        }
      }
      PruneKeepsNoDuplicates(tail, shown);
      PruneSkippingSpec(tail, shown);
      var rest := PruneSkipping(tail, shown);
      assert PruneSkipping(texts, shown) == [head] + rest;
      AppendNewKeepsNoDuplicates([head], rest);
    }
  }

  /** One turn of the prune loop at index `i` over a text still shown: the text is passed over. */
  lemma PruneStepShown(texts: seq<string>, i: nat, shown: set<string>)
    requires i < |texts| && texts[i] in shown
    ensures texts[..i] + PruneSkipping(From(texts, i), shown) == texts[..i + 1] + PruneSkipping(From(texts, i + 1), shown)
  {
    var rest := texts[i..];
    assert rest[0] == texts[i] && rest[1..] == From(texts, i + 1);
    assert PruneSkipping(rest, shown) == [texts[i]] + PruneSkipping(rest[1..], shown);
    assert texts[..i + 1] == texts[..i] + [texts[i]];
  }

  /**
   * One turn of the prune loop at index `i` over a stale text: the text is
   * removed, and the text that slides into slot `i` is skipped, because the
   * index then moves to `i + 1`.
   */
  lemma PruneStepStale(texts: seq<string>, i: nat, shown: set<string>)
    requires i < |texts| && texts[i] !in shown
    ensures var after := texts[..i] + texts[i + 1..];
      texts[..i] + PruneSkipping(From(texts, i), shown)
      == after[..Min(i + 1, |after|)] + PruneSkipping(From(after, i + 1), shown)
  {
    if i + 1 < |texts| {
      StaleSkipsNext(texts, i, shown);
    } else {
      StaleAtEnd(texts, i, shown);
    }
  }

  lemma StaleSkipsNext(texts: seq<string>, i: nat, shown: set<string>)
    requires i + 1 < |texts| && texts[i] !in shown
    ensures var after := texts[..i] + texts[i + 1..];
      texts[..i] + PruneSkipping(From(texts, i), shown)
      == after[..i + 1] + PruneSkipping(From(after, i + 1), shown)
  {
    var after := texts[..i] + texts[i + 1..];
    var rest := texts[i..];
    assert rest[2..] == From(after, i + 1);
    assert PruneSkipping(rest, shown) == [texts[i + 1]] + PruneSkipping(rest[2..], shown);
    assert after[..i + 1] == texts[..i] + [texts[i + 1]];
  }

  lemma StaleAtEnd(texts: seq<string>, i: nat, shown: set<string>)
    requires i + 1 == |texts| && texts[i] !in shown
    ensures var after := texts[..i] + texts[i + 1..];
      texts[..i] + PruneSkipping(From(texts, i), shown) == after + PruneSkipping(From(after, i + 1), shown)
  {
    var after := texts[..i] + texts[i + 1..];
    assert PruneSkipping(texts[i..], shown) == [];
    assert after == texts[..i];
  }

  /**
   * One turn of the prune loop over a stale text as the loop takes it,
   * `Remove(texts[i])`: the list loses that text only and stays free of
   * duplicates, and the prune still to come is `PruneStepStale`'s.
   */
  lemma PruneRemoveStep(texts: seq<string>, i: nat, shown: set<string>)
    requires NoDuplicates(texts) && i < |texts| && texts[i] !in shown
    ensures var r := RemoveFirst(texts, texts[i]);
      NoDuplicates(r) && |r| + 1 == |texts|
      && texts[..i] + PruneSkipping(From(texts, i), shown) == r[..Min(i + 1, |r|)] + PruneSkipping(From(r, i + 1), shown)
  {
    PruneStepStale(texts, i, shown);
    RemoveFirstAt(texts, i);
  }

  /** The texts still shown, in order: what a prune that examines every text would keep. */
  function KeepShown(texts: seq<string>, shown: set<string>): (kept: seq<string>)
    ensures forall t | t in kept :: t in texts && t in shown
    ensures forall t | t in texts && t in shown :: t in kept
    decreases |texts|
  {
    if texts == [] then []
    else if texts[0] in shown then [texts[0]] + KeepShown(texts[1..], shown)
    else KeepShown(texts[1..], shown)
  }

  /**
   * When no two stale texts are neighbours, the prune removes every stale
   * text and keeps the others in order (`StaleNeighbourSurvives` shows that
   * two neighbours break this).
   */
  lemma {:induction false} PruneExactWithoutAdjacentStale(texts: seq<string>, shown: set<string>)
    requires forall k | 0 <= k < |texts| - 1 :: texts[k] in shown || texts[k + 1] in shown
    ensures PruneSkipping(texts, shown) == KeepShown(texts, shown)
    decreases |texts|
  {
    if texts != [] {
      if texts[0] in shown {
        PruneExactWithoutAdjacentStale(texts[1..], shown);
      } else if |texts| > 1 {
        assert texts[1] in shown;
        PruneExactWithoutAdjacentStale(texts[2..], shown);
        assert texts[1..][1..] == texts[2..];
      }
    }
  }

  /** Two neighbouring stale texts: the second one survives the prune. */
  lemma StaleNeighbourSurvives(first: string, second: string, shown: set<string>)
    requires first !in shown && second !in shown
    ensures PruneSkipping([first, second], shown) == [second]
    ensures KeepShown([first, second], shown) == []
  {
    assert [first, second][1..] == [second];
    assert [second][1..] == [];
    assert KeepShown([second], shown) == KeepShown([], shown) == [];
  }
}
