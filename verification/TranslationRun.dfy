/** A whole translation: consecutive blocks of a subtitle file, one after the other. */
module TranslationRun {
  import opened Translation

  /** Lines i to j as they read now. */
  function Block(texts: seq<string>, i: nat, j: nat): seq<Item>
    requires i <= j <= |texts|
  {
    if i == j then [] else Block(texts, i, j - 1) + [Item(j - 1, texts[j - 1])]
  }

  lemma {:induction false} BlockItems(texts: seq<string>, i: nat, j: nat)
    requires i <= j <= |texts|
    ensures |Block(texts, i, j)| == j - i
    ensures forall d :: 0 <= d < j - i ==> Block(texts, i, j)[d] == Item(i + d, texts[i + d])
    decreases j
  {
    if i < j {
      BlockItems(texts, i, j - 1);
      var before := Block(texts, i, j - 1);
      forall d | 0 <= d < j - i
        ensures Block(texts, i, j)[d] == Item(i + d, texts[i + d])
      {
        assert d < j - i - 1 ==> Block(texts, i, j)[d] == before[d];
      }
    }
  }

  lemma BlockIsGood(texts: seq<string>, i: nat, j: nat)
    requires i <= j <= |texts|
    ensures |Block(texts, i, j)| == j - i
    ensures InRange(Block(texts, i, j), |texts|) && DistinctIndices(Block(texts, i, j))
    ensures forall k: nat :: Mentions(Block(texts, i, j), k) <==> i <= k < j
  {
    BlockItems(texts, i, j);
    var block := Block(texts, i, j);
    forall k: nat
      ensures Mentions(block, k) <==> i <= k < j
    {
      if i <= k < j { assert block[k - i].index == k; }
    }
  }

  lemma {:induction false} BlockConcat(texts: seq<string>, i: nat, j: nat, k: nat)
    requires i <= j <= k <= |texts|
    ensures Block(texts, i, j) + Block(texts, j, k) == Block(texts, i, k)
    decreases k
  {
    if j < k {
      BlockConcat(texts, i, j, k - 1);
    }
  }

  /** Only the texts of the block matter. */
  lemma {:induction false} BlockDependsOnItsTexts(a: seq<string>, b: seq<string>, i: nat, j: nat)
    requires i <= j <= |a| == |b| && forall k :: i <= k < j ==> a[k] == b[k]
    ensures Block(a, i, j) == Block(b, i, j)
    decreases j
  {
    if i < j {
      BlockDependsOnItsTexts(a, b, i, j - 1);
    }
  }

  function BlockEnd(i: nat, size: nat, total: nat): nat {
    if i + size < total then i + size else total
  }

  /** From line `i` on, with nothing collected yet: read the next block of up to `size` lines as
      they are now, translate it, and go on behind it. */
  function RunFrom(world: World, s: State, i: nat, size: nat): (r: Outcome)
    requires size > 0 && i <= |s.texts|
    ensures |r.state.texts| == |s.texts|
    decreases |s.texts| - i
  {
    if i == |s.texts| then Outcome(s, true)
    else
      var j := BlockEnd(i, size, |s.texts|);
      BlockIsGood(s.texts, i, j);
      var r := Process(world, s, Block(s.texts, i, j), 3);
      if r.ok then RunFrom(world, r.state, j, size) else r
  }

  lemma RunContinues(world: World, s: State, i: nat, j: nat, size: nat, r: Outcome)
    requires 0 < size && i < j == BlockEnd(i, size, |s.texts|)
    requires InRange(Block(s.texts, i, j), |s.texts|)
    requires r == Process(world, s, Block(s.texts, i, j), 3)
    ensures |r.state.texts| == |s.texts|
    ensures RunFrom(world, s, i, size) == if r.ok then RunFrom(world, r.state, j, size) else r
  {
  }

  /** The whole run. Starting behind the last line raises at once. */
  function Run(world: World, s: State, startLine: nat, batchSize: nat): Outcome
    requires startLine > 0 && batchSize > 0
  {
    if startLine - 1 < |s.texts|
    then RunFrom(world, s, startLine - 1, BlockEnd(0, batchSize, |s.texts|))
    else Outcome(s, false)
  }

  /** A block leaves the lines before and behind it alone. */
  lemma BlockFrame(world: World, s: State, i: nat, j: nat)
    requires i <= j <= |s.texts|
    ensures InRange(Block(s.texts, i, j), |s.texts|)
    ensures var r := Process(world, s, Block(s.texts, i, j), 3);
      |r.state.texts| == |s.texts| && forall k :: (0 <= k < i || j <= k < |s.texts|) ==> r.state.texts[k] == s.texts[k]
  {
    BlockIsGood(s.texts, i, j);
    forall k | 0 <= k < i || j <= k < |s.texts|
      ensures Process(world, s, Block(s.texts, i, j), 3).state.texts[k] == s.texts[k]
    {
      ProcessFrame(world, s, Block(s.texts, i, j), 3, k);
    }
  }

  /** Lines before the starting point are never written. */
  lemma {:induction false} RunFrame(world: World, s: State, i: nat, size: nat, k: nat)
    requires size > 0 && k < i <= |s.texts|
    ensures RunFrom(world, s, i, size).state.texts[k] == s.texts[k]
    decreases |s.texts| - i
  {
    if i < |s.texts| {
      var j := BlockEnd(i, size, |s.texts|);
      BlockFrame(world, s, i, j);
      var r := Process(world, s, Block(s.texts, i, j), 3);
      if r.ok {
        RunFrame(world, r.state, j, size, k);
      }
    }
  }

  lemma JoinDelivered(before: seq<Item>, middle: seq<Item>, after: seq<Item>, a: seq<Item>, b: seq<Item>,
                      ok: bool, ok': bool)
    requires Delivered(before, middle, a, ok)
    requires if ok then Delivered(middle, after, b, ok') else after == middle && !ok'
    ensures Delivered(before, after, a + b, ok')
  {
    assert before + a + b == before + (a + b);
  }

  /** The accepted requests, one after the other, are the lines from `i` to the end as they were at
      the start, each exactly once and in order; a failed run has accepted a prefix of them. */
  lemma {:induction false} RunCoversTheFile(world: World, s: State, i: nat, size: nat)
    requires size > 0 && i <= |s.texts|
    ensures var r := RunFrom(world, s, i, size);
      Delivered(AcceptedItems(s.accepted), AcceptedItems(r.state.accepted), Block(s.texts, i, |s.texts|), r.ok)
    decreases |s.texts| - i
  {
    var n := |s.texts|;
    if i < n {
      var j := BlockEnd(i, size, n);
      BlockFrame(world, s, i, j);
      var r := Process(world, s, Block(s.texts, i, j), 3);
      AcceptedInOrder(world, s, Block(s.texts, i, j), 3);
      BlockConcat(s.texts, i, j, n);
      if r.ok {
        RunCoversTheFile(world, r.state, j, size);
        BlockDependsOnItsTexts(r.state.texts, s.texts, j, n);
      }
      JoinDelivered(AcceptedItems(s.accepted), AcceptedItems(r.state.accepted),
                    AcceptedItems(RunFrom(world, s, i, size).state.accepted),
                    Block(s.texts, i, j), Block(s.texts, j, n), r.ok, RunFrom(world, s, i, size).ok);
    }
  }

  /** `texts` is what the file read at the start, at every line of `part`. */
  ghost predicate Quotes(part: seq<Item>, texts: seq<string>) {
    forall d :: 0 <= d < |part| ==> part[d].index < |texts| && part[d].content == texts[part[d].index]
  }

  lemma {:induction false} SentGrows(world: World, s: State, i: nat, size: nat)
    requires size > 0 && i <= |s.texts|
    ensures s.sent <= RunFrom(world, s, i, size).state.sent
    ensures s.accepted <= RunFrom(world, s, i, size).state.accepted
    decreases |s.texts| - i
  {
    if i < |s.texts| {
      var j := BlockEnd(i, size, |s.texts|);
      BlockIsGood(s.texts, i, j);
      RequestsAreRuns(world, s, Block(s.texts, i, j), 3);
      AcceptedGrows(world, s, Block(s.texts, i, j), 3);
      var r := Process(world, s, Block(s.texts, i, j), 3);
      if r.ok {
        SentGrows(world, r.state, j, size);
      }
    }
  }

  lemma RunQuotes(part: seq<Item>, block: seq<Item>, texts: seq<string>)
    requires IsRun(part, block) && Quotes(block, texts)
    ensures Quotes(part, texts)
  {
    var i, j :| 0 <= i <= j <= |block| && part == block[i..j];
    assert forall d :: 0 <= d < |part| ==> part[d] == block[i + d];
  }

  lemma BlockQuotes(texts: seq<string>, original: seq<string>, i: nat, j: nat)
    requires i <= j <= |texts| == |original| && forall k :: i <= k < j ==> texts[k] == original[k]
    ensures Quotes(Block(texts, i, j), original)
  {
    BlockItems(texts, i, j);
  }

  /** Every text sent is the original text of its line, although earlier blocks have been
      overwritten with translations by then. */
  lemma {:induction false} RunSendsOriginals(world: World, s: State, i: nat, size: nat, original: seq<string>, q: nat)
    requires size > 0 && i <= |s.texts| == |original|
    requires forall k :: i <= k < |original| ==> s.texts[k] == original[k]
    requires |s.sent| <= q < |RunFrom(world, s, i, size).state.sent|
    ensures Quotes(RunFrom(world, s, i, size).state.sent[q], original)
    decreases |s.texts| - i
  {
    if i < |s.texts| {
      var j := BlockEnd(i, size, |s.texts|);
      var block := Block(s.texts, i, j);
      BlockQuotes(s.texts, original, i, j);
      BlockFrame(world, s, i, j);
      RequestsAreRuns(world, s, block, 3);
      var r := Process(world, s, block, 3);
      if r.ok {
        SentGrows(world, r.state, j, size);
      }
      if q < |r.state.sent| {
        RunQuotes(r.state.sent[q], block, original);
      } else {
        RunSendsOriginals(world, r.state, j, size, original, q);
      }
    }
  }

  /** Every text of an accepted reply is still in place at the end of the run. */
  lemma {:induction false} RunKeepsAcceptedTexts(world: World, s: State, i: nat, size: nat, p: nat, k: nat)
    requires size > 0 && i <= |s.texts| && k < |s.texts|
    requires |s.accepted| <= p < |RunFrom(world, s, i, size).state.accepted|
    requires Applied(RunFrom(world, s, i, size).state.accepted[p].lines, k).Some?
    ensures var r := RunFrom(world, s, i, size).state;
      r.texts[k] == Mark(world, Applied(r.accepted[p].lines, k).value)
    decreases |s.texts| - i
  {
    if i < |s.texts| {
      var j := BlockEnd(i, size, |s.texts|);
      var block := Block(s.texts, i, j);
      BlockIsGood(s.texts, i, j);
      AcceptedGrows(world, s, block, 3);
      var r := Process(world, s, block, 3);
      if r.ok {
        SentGrows(world, r.state, j, size);
      }
      if p < |r.state.accepted| {
        AcceptedTextStays(world, s, block, 3, p, k);
        if r.ok {
          RunFrame(world, r.state, j, size, k);
        }
      } else {
        RunKeepsAcceptedTexts(world, r.state, j, size, p, k);
      }
    }
  }

  lemma {:induction false} FindAccepted(exchanges: seq<Exchange>, item: Item) returns (p: nat)
    requires item in AcceptedItems(exchanges)
    ensures p < |exchanges| && item in exchanges[p].items
  {
    var n := |exchanges| - 1;
    if item in exchanges[n].items {
      p := n;
    } else {
      p := FindAccepted(exchanges[..n], item);
    }
  }

  lemma {:induction false} RunKeepsSizes(world: World, s: State, i: nat, size: nat)
    requires size > 0 && i <= |s.texts| && WellSized(s.accepted)
    ensures WellSized(RunFrom(world, s, i, size).state.accepted)
    decreases |s.texts| - i
  {
    if i < |s.texts| {
      var j := BlockEnd(i, size, |s.texts|);
      BlockIsGood(s.texts, i, j);
      ProcessKeepsSizes(world, s, Block(s.texts, i, j), 3);
      var r := Process(world, s, Block(s.texts, i, j), 3);
      if r.ok {
        RunKeepsSizes(world, r.state, j, size);
      }
    }
  }

  /** Where the lines of exchange `q` start in all accepted lines. */
  function Offset(exchanges: seq<Exchange>, q: nat): nat
    requires q <= |exchanges|
  {
    |AcceptedItems(exchanges[..q])|
  }

  lemma {:induction false} ExchangeIsASlice(exchanges: seq<Exchange>, q: nat)
    requires q < |exchanges|
    ensures var o, e := Offset(exchanges, q), exchanges[q];
      o + |e.items| <= |AcceptedItems(exchanges)| && AcceptedItems(exchanges)[o..o + |e.items|] == e.items
  {
    var n := |exchanges| - 1;
    var front, o, size := exchanges[..n], Offset(exchanges, q), |exchanges[q].items|;
    assert AcceptedItems(exchanges) == AcceptedItems(front) + exchanges[n].items;
    if q < n {
      ExchangeIsASlice(front, q);
      assert front[..q] == exchanges[..q];
      assert AcceptedItems(exchanges)[o..o + size] == AcceptedItems(front)[o..o + size];
    }
  }

  lemma OffsetsIncrease(exchanges: seq<Exchange>, p: nat, q: nat)
    requires p < q <= |exchanges|
    ensures Offset(exchanges, p) + |exchanges[p].items| <= Offset(exchanges, q)
  {
    ExchangeIsASlice(exchanges[..q], p);
    assert exchanges[..q][..p] == exchanges[..p];
  }

  lemma ItemPosition(exchanges: seq<Exchange>, q: nat, j: nat)
    requires q < |exchanges| && j < |exchanges[q].items|
    ensures Offset(exchanges, q) + j < |AcceptedItems(exchanges)|
    ensures AcceptedItems(exchanges)[Offset(exchanges, q) + j] == exchanges[q].items[j]
  {
    ExchangeIsASlice(exchanges, q);
    var o := Offset(exchanges, q);
    assert AcceptedItems(exchanges)[o..o + |exchanges[q].items|][j] == exchanges[q].items[j];
  }

  /** When all accepted lines are distinct, so are those of one exchange. */
  lemma ItemsAreDistinct(exchanges: seq<Exchange>, q: nat)
    requires DistinctIndices(AcceptedItems(exchanges)) && q < |exchanges|
    ensures DistinctIndices(exchanges[q].items)
  {
    forall i, j | 0 <= i < j < |exchanges[q].items|
      ensures exchanges[q].items[i].index != exchanges[q].items[j].index
    {
      ItemPosition(exchanges, q, i);
      ItemPosition(exchanges, q, j);
    }
  }

  /** And no two exchanges share a line. */
  lemma ExchangesAreDisjoint(exchanges: seq<Exchange>, p: nat, i: nat, q: nat, j: nat)
    requires DistinctIndices(AcceptedItems(exchanges)) && p < |exchanges| && q < |exchanges|
    requires i < |exchanges[p].items| && j < |exchanges[q].items|
    requires exchanges[p].items[i].index == exchanges[q].items[j].index
    ensures p == q
  {
    ItemPosition(exchanges, p, i);
    ItemPosition(exchanges, q, j);
    if p < q {
      OffsetsIncrease(exchanges, p, q);
    } else if q < p {
      OffsetsIncrease(exchanges, q, p);
    }
  }

  /** Line `k`, sent as it read at the start, was given a text by accepted reply `p`, and reads so in the end. */
  ghost predicate GivenBy(world: World, original: seq<string>, end: State, k: nat, p: nat)
    requires k < |original| == |end.texts|
  {
    && p < |end.accepted| && Item(k, original[k]) in end.accepted[p].items
    && Applied(end.accepted[p].lines, k).Some?
    && end.texts[k] == Mark(world, Applied(end.accepted[p].lines, k).value)
  }

  ghost predicate Translated(world: World, original: seq<string>, end: State, k: nat)
    requires k < |original| == |end.texts|
  {
    exists p: nat :: GivenBy(world, original, end, k, p)
  }

  /** What a successful run has accepted: all lines from the start on, each in one exchange. */
  lemma AcceptedLines(world: World, s: State, i: nat, size: nat, k: nat)
    requires size > 0 && i <= k < |s.texts| && s.accepted == [] && RunFrom(world, s, i, size).ok
    ensures var all := AcceptedItems(RunFrom(world, s, i, size).state.accepted);
      all == Block(s.texts, i, |s.texts|) && DistinctIndices(all) && Item(k, s.texts[k]) in all
  {
    var n := |s.texts|;
    RunCoversTheFile(world, s, i, size);
    BlockIsGood(s.texts, i, n);
    BlockItems(s.texts, i, n);
    assert AcceptedItems(s.accepted) == [];
    assert Block(s.texts, i, n)[k - i] == Item(k, s.texts[k]);
  }

  /** If the replies answer each line of their requests once, line `k` is translated. */
  lemma PermutedIsTranslated(world: World, s: State, i: nat, size: nat, k: nat)
    requires size > 0 && i <= k < |s.texts| && s.accepted == [] && RunFrom(world, s, i, size).ok
    requires forall q :: 0 <= q < |RunFrom(world, s, i, size).state.accepted| ==>
               Permutes(RunFrom(world, s, i, size).state.accepted[q])
    ensures Translated(world, s.texts, RunFrom(world, s, i, size).state, k)
  {
    var end := RunFrom(world, s, i, size).state;
    AcceptedLines(world, s, i, size, k);
    var p := FindAccepted(end.accepted, Item(k, s.texts[k]));
    var e := end.accepted[p];
    var d :| 0 <= d < |e.items| && e.items[d] == Item(k, s.texts[k]);
    assert Mentions(e.items, k);
    PermutationAppliesToAll(e, k);
    RunKeepsAcceptedTexts(world, s, i, size, p, k);
    assert GivenBy(world, s.texts, end, k, p);
  }

  /** The lines of an exchange are lines of the run. */
  lemma ExchangeIsInTheRun(exchanges: seq<Exchange>, texts: seq<string>, i: nat, q: nat, k: nat)
    requires i <= |texts| && AcceptedItems(exchanges) == Block(texts, i, |texts|)
    requires q < |exchanges| && Mentions(exchanges[q].items, k)
    ensures i <= k < |texts|
  {
    var j :| 0 <= j < |exchanges[q].items| && exchanges[q].items[j].index == k;
    ItemPosition(exchanges, q, j);
    BlockIsGood(texts, i, |texts|);
    assert Mentions(Block(texts, i, |texts|), k);
  }

  /** A line of exchange `q` that is translated got its text from that exchange. */
  lemma TranslatedByItsExchange(world: World, original: seq<string>, end: State, q: nat, k: nat)
    requires DistinctIndices(AcceptedItems(end.accepted)) && q < |end.accepted| && Mentions(end.accepted[q].items, k)
    requires k < |original| == |end.texts| && Translated(world, original, end, k)
    ensures Applied(end.accepted[q].lines, k).Some?
  {
    var p: nat :| GivenBy(world, original, end, k, p);
    var i: nat :| i < |end.accepted[p].items| && end.accepted[p].items[i] == Item(k, original[k]);
    var j: nat :| j < |end.accepted[q].items| && end.accepted[q].items[j].index == k;
    ExchangesAreDisjoint(end.accepted, p, i, q, j);
  }

  /** If all lines are translated, the reply of exchange `q` answers each of its lines once. */
  lemma TranslatedIsPermuted(world: World, original: seq<string>, end: State, i: nat, q: nat)
    requires i <= |original| == |end.texts| && q < |end.accepted|
    requires AcceptedItems(end.accepted) == Block(original, i, |original|) && WellSized(end.accepted)
    requires forall k :: i <= k < |original| ==> Translated(world, original, end, k)
    ensures Permutes(end.accepted[q])
  {
    BlockIsGood(original, i, |original|);
    ItemsAreDistinct(end.accepted, q);
    forall k: nat | Mentions(end.accepted[q].items, k)
      ensures Applied(end.accepted[q].lines, k).Some?
    {
      ExchangeIsInTheRun(end.accepted, original, i, q, k);
      TranslatedByItsExchange(world, original, end, q, k);
    }
    PermutesExactlyWhen(end.accepted[q]);
  }

  /** A successful run gives every line, from the starting line on, the text that its own request
      brought back for it, exactly if every accepted reply answers each line of its request once. */
  lemma EveryLineIsTranslated(world: World, s: State, startLine: nat, batchSize: nat)
    requires startLine > 0 && batchSize > 0 && s.accepted == []
    requires Run(world, s, startLine, batchSize).ok
    ensures |Run(world, s, startLine, batchSize).state.texts| == |s.texts|
    ensures var end := Run(world, s, startLine, batchSize).state;
      (forall k :: startLine - 1 <= k < |s.texts| ==> Translated(world, s.texts, end, k))
      <==> (forall q :: 0 <= q < |end.accepted| ==> Permutes(end.accepted[q]))
  {
    var i, size := startLine - 1, BlockEnd(0, batchSize, |s.texts|);
    var end := RunFrom(world, s, i, size).state;
    if forall q :: 0 <= q < |end.accepted| ==> Permutes(end.accepted[q]) {
      forall k | i <= k < |s.texts|
        ensures Translated(world, s.texts, end, k)
      {
        PermutedIsTranslated(world, s, i, size, k);
      }
    }
    if forall k :: i <= k < |s.texts| ==> Translated(world, s.texts, end, k) {
      forall q | 0 <= q < |end.accepted|
        ensures Permutes(end.accepted[q])
      {
        AcceptedLines(world, s, i, size, i);
        RunKeepsSizes(world, s, i, size);
        TranslatedIsPermuted(world, s.texts, end, i, q);
      }
    }
  }

  // ----- what a run costs

  /** How many batches a run over `lines` lines takes when each but the last has `size` lines. */
  function Batches(lines: nat, size: nat): (n: nat)
    requires size > 0
    ensures n <= lines
  {
    if lines == 0 then 0 else if lines <= size then 1 else 1 + Batches(lines - size, size)
  }

  /** The batches hold all lines, and one batch less would not. */
  lemma {:induction false} BatchesIsCeiling(lines: nat, size: nat)
    requires size > 0
    ensures size * (Batches(lines, size) - 1) < lines <= size * Batches(lines, size) || lines == 0
  {
    if lines > size {
      var n := Batches(lines - size, size);
      BatchesIsCeiling(lines - size, size);
      assert size * (1 + n) == size + size * n && size * n == size + size * (n - 1);
    }
  }

  /** The dearest run over `lines` lines: a batch of b lines costs at most 8b - 4 requests. */
  function MostCalls(lines: nat, size: nat): int
    requires size > 0
  {
    8 * lines - 4 * Batches(lines, size)
  }

  /** A run over n remaining lines in batches of up to `size` costs at most 8n requests, less four
      for every batch. */
  lemma {:induction false} RunCost(world: World, s: State, i: nat, size: nat)
    requires size > 0 && i <= |s.texts|
    ensures RunFrom(world, s, i, size).state.calls <= s.calls + MostCalls(|s.texts| - i, size)
    decreases |s.texts| - i
  {
    if i < |s.texts| {
      var j := BlockEnd(i, size, |s.texts|);
      BlockIsGood(s.texts, i, j);
      BatchCost(world, s, Block(s.texts, i, j));
      var r := Process(world, s, Block(s.texts, i, j), 3);
      if r.ok {
        RunCost(world, r.state, j, size);
      }
    }
  }

  /** The answers from number `from` on are acceptable for one batch of the run each, in turn. */
  ghost predicate AllAcceptable(world: World, from: nat, texts: seq<string>, i: nat, size: nat)
    requires size > 0 && i <= |texts|
    decreases |texts| - i
  {
    i == |texts|
    || (var j := BlockEnd(i, size, |texts|);
        Acceptable(world.answer(from), Block(texts, i, j)) && AllAcceptable(world, from + 1, texts, j, size))
  }

  lemma {:induction false} OnlyTheRestCounts(world: World, from: nat, a: seq<string>, b: seq<string>, i: nat, size: nat)
    requires size > 0 && i <= |a| == |b| && forall k :: i <= k < |a| ==> a[k] == b[k]
    ensures AllAcceptable(world, from, a, i, size) <==> AllAcceptable(world, from, b, i, size)
    decreases |a| - i
  {
    if i < |a| {
      var j := BlockEnd(i, size, |a|);
      BlockDependsOnItsTexts(a, b, i, j);
      OnlyTheRestCounts(world, from + 1, a, b, j, size);
    }
  }

  /** No run succeeds with fewer requests than batches. */
  lemma {:induction false} RunNeedsItsBatches(world: World, s: State, i: nat, size: nat)
    requires size > 0 && i <= |s.texts| && RunFrom(world, s, i, size).ok
    ensures RunFrom(world, s, i, size).state.calls >= s.calls + Batches(|s.texts| - i, size)
    decreases |s.texts| - i
  {
    if i < |s.texts| {
      var j := BlockEnd(i, size, |s.texts|);
      BlockIsGood(s.texts, i, j);
      CallsAreBounded(world, s, Block(s.texts, i, j), 3);
      RunNeedsItsBatches(world, Process(world, s, Block(s.texts, i, j), 3).state, j, size);
    }
  }

  lemma RestCountsAsBefore(world: World, from: nat, s: State, i: nat, j: nat, size: nat)
    requires size > 0 && i <= j <= |s.texts|
    ensures InRange(Block(s.texts, i, j), |s.texts|)
    ensures var r := Process(world, s, Block(s.texts, i, j), 3);
      |r.state.texts| == |s.texts|
      && (AllAcceptable(world, from, s.texts, j, size) <==> AllAcceptable(world, from, r.state.texts, j, size))
  {
    BlockFrame(world, s, i, j);
    OnlyTheRestCounts(world, from, s.texts, Process(world, s, Block(s.texts, i, j), 3).state.texts, j, size);
  }

  /** One batch takes a request of its own, and leaves as many for the rest as the rest has batches. */
  lemma BlockNeedsOne(world: World, s: State, i: nat, j: nat, size: nat)
    requires size > 0 && i <= j <= |s.texts| && InRange(Block(s.texts, i, j), |s.texts|)
    ensures var r := Process(world, s, Block(s.texts, i, j), 3);
      && r.state.calls >= s.calls + 1
      && (RunFrom(world, r.state, j, size).ok ==>
            RunFrom(world, r.state, j, size).state.calls >= r.state.calls + Batches(|s.texts| - j, size))
  {
    CallsAreBounded(world, s, Block(s.texts, i, j), 3);
    var r := Process(world, s, Block(s.texts, i, j), 3);
    if RunFrom(world, r.state, j, size).ok {
      RunNeedsItsBatches(world, r.state, j, size);
    }
  }

  /** A run succeeds with one request a batch exactly if every answer is acceptable for its batch. */
  lemma {:induction false} OneRequestABatchExactlyWhen(world: World, s: State, i: nat, size: nat)
    requires size > 0 && i <= |s.texts|
    ensures var r := RunFrom(world, s, i, size);
      r.ok && r.state.calls == s.calls + Batches(|s.texts| - i, size)
      <==> AllAcceptable(world, s.calls, s.texts, i, size)
    decreases |s.texts| - i
  {
    if i < |s.texts| {
      var j := BlockEnd(i, size, |s.texts|);
      var block := Block(s.texts, i, j);
      RestCountsAsBefore(world, s.calls + 1, s, i, j, size);
      BlockNeedsOne(world, s, i, j, size);
      DoneAtOnceExactlyWhen(world, s, block, 3);
      var r := Process(world, s, block, 3);
      RunContinues(world, s, i, j, size, r);
      if r.ok && r.state.calls == s.calls + 1 {
        OneRequestABatchExactlyWhen(world, r.state, j, size);
      }
    }
  }

  // ----- a remote that does what it is asked

  /** The reply answers each line of the batch once, in whatever order. */
  ghost predicate AnswersEach(answer: Answer, batch: seq<Item>) {
    answer.Reply? && Permutes(Exchange(batch, answer.lines))
  }

  lemma PermutingIsAcceptable(answer: Answer, batch: seq<Item>)
    requires AnswersEach(answer, batch)
    ensures Acceptable(answer, batch)
  {
    var lines := answer.lines;
    assert |multiset(LineIndices(lines))| == |lines| && |multiset(ItemIndices(batch))| == |batch|;
    forall j: nat | j < |lines|
      ensures Fits(lines[j], batch)
    {
      assert LineIndices(lines)[j] in multiset(ItemIndices(batch));
      var d :| 0 <= d < |batch| && ItemIndices(batch)[d] == lines[j].index;
      assert batch[d].index == lines[j].index;
    }
  }

  /** The remote answers each line of each batch of the run. */
  ghost predicate Faithful(world: World, from: nat, texts: seq<string>, i: nat, size: nat)
    requires size > 0 && i <= |texts|
    decreases |texts| - i
  {
    i == |texts|
    || (var j := BlockEnd(i, size, |texts|);
        AnswersEach(world.answer(from), Block(texts, i, j)) && Faithful(world, from + 1, texts, j, size))
  }

  lemma {:induction false} OnlyTheRestIsAnswered(world: World, from: nat, a: seq<string>, b: seq<string>, i: nat,
                                                 size: nat)
    requires size > 0 && i <= |a| == |b| && forall k :: i <= k < |a| ==> a[k] == b[k]
    requires Faithful(world, from, a, i, size)
    ensures Faithful(world, from, b, i, size)
    decreases |a| - i
  {
    if i < |a| {
      var j := BlockEnd(i, size, |a|);
      BlockDependsOnItsTexts(a, b, i, j);
      OnlyTheRestIsAnswered(world, from + 1, a, b, j, size);
    }
  }

  lemma {:induction false} FaithfulIsAcceptable(world: World, from: nat, texts: seq<string>, i: nat, size: nat)
    requires size > 0 && i <= |texts| && Faithful(world, from, texts, i, size)
    ensures AllAcceptable(world, from, texts, i, size)
    decreases |texts| - i
  {
    if i < |texts| {
      var j := BlockEnd(i, size, |texts|);
      PermutingIsAcceptable(world.answer(from), Block(texts, i, j));
      FaithfulIsAcceptable(world, from + 1, texts, j, size);
    }
  }

  ghost predicate AllPermute(exchanges: seq<Exchange>) {
    forall q :: 0 <= q < |exchanges| ==> Permutes(exchanges[q])
  }

  lemma FaithfulBlock(world: World, s: State, i: nat, j: nat)
    requires i < j <= |s.texts| && AnswersEach(world.answer(s.calls), Block(s.texts, i, j)) && AllPermute(s.accepted)
    ensures InRange(Block(s.texts, i, j), |s.texts|)
    ensures var r := Process(world, s, Block(s.texts, i, j), 3);
      r.ok && r.state.calls == s.calls + 1 && AllPermute(r.state.accepted)
  {
    var block := Block(s.texts, i, j);
    BlockIsGood(s.texts, i, j);
    PermutingIsAcceptable(world.answer(s.calls), block);
    AcceptedExactlyWhen(world, s, block);
  }

  lemma {:induction false} FaithfulAccepts(world: World, s: State, i: nat, size: nat)
    requires size > 0 && i <= |s.texts| && Faithful(world, s.calls, s.texts, i, size) && AllPermute(s.accepted)
    ensures AllPermute(RunFrom(world, s, i, size).state.accepted)
    decreases |s.texts| - i
  {
    if i < |s.texts| {
      var j := BlockEnd(i, size, |s.texts|);
      FaithfulBlock(world, s, i, j);
      BlockFrame(world, s, i, j);
      var r := Process(world, s, Block(s.texts, i, j), 3);
      OnlyTheRestIsAnswered(world, s.calls + 1, s.texts, r.state.texts, j, size);
      FaithfulAccepts(world, r.state, j, size);
      RunContinues(world, s, i, j, size, r);
    }
  }

  /** Against a remote that answers each line of each batch once, in whatever order, a run succeeds
      with one request a batch and translates every line. */
  lemma FaithfulRemoteTranslatesAll(world: World, s: State, i: nat, size: nat)
    requires size > 0 && i <= |s.texts| && s.accepted == [] && Faithful(world, s.calls, s.texts, i, size)
    ensures var r := RunFrom(world, s, i, size);
      && r.ok && r.state.calls == s.calls + Batches(|s.texts| - i, size)
      && forall k :: i <= k < |s.texts| ==> Translated(world, s.texts, r.state, k)
  {
    FaithfulIsAcceptable(world, s.calls, s.texts, i, size);
    OneRequestABatchExactlyWhen(world, s, i, size);
    FaithfulAccepts(world, s, i, size);
    forall k | i <= k < |s.texts|
      ensures Translated(world, s.texts, RunFrom(world, s, i, size).state, k)
    {
      PermutedIsTranslated(world, s, i, size, k);
    }
  }

  /** Shrinking the batch size to the length of the file changes nothing; a start behind the last line
      is the only failure that costs no request. */
  lemma {:induction false} RunIsRunFrom(world: World, s: State, startLine: nat, batchSize: nat)
    requires startLine > 0 && batchSize > 0
    ensures Run(world, s, startLine, batchSize)
            == if startLine <= |s.texts| then RunFrom(world, s, startLine - 1, batchSize) else Outcome(s, false)
  {
    var n := |s.texts|;
    if startLine <= n < batchSize {
      var i: nat := startLine - 1;
      BlockIsGood(s.texts, i, n);
      var r := Process(world, s, Block(s.texts, i, n), 3);
      RunContinues(world, s, i, n, n, r);
      RunContinues(world, s, i, n, batchSize, r);
    }
  }
}
