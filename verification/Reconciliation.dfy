/** The whole voting pipeline: pool the passes, cluster, vote, repair overlaps, and cut into
    segments. */
module Reconciliation {
  import opened Reals
  import opened Sequences
  import opened Wrappers
  import opened Segmentation
  import opened StableSort
  import opened QaVoting

  // ----- overlap repair

  /** Take in one more winner behind `resolved`. */
  function Place(resolved: seq<Word>, w: Word, norm: Normalizer): seq<Word> {
    if resolved == [] || w.start >= Last(resolved).end then resolved + [w]
    else if norm(w.text) == norm(Last(resolved).text) then resolved
    else
      var clamped := w.(start := Last(resolved).end);
      resolved + [if clamped.start > clamped.end then clamped.(end := clamped.start) else clamped]
  }

  function Resolve(winners: seq<Word>, norm: Normalizer): seq<Word> {
    if winners == [] then [] else Place(Resolve(Init(winners), norm), Last(winners), norm)
  }

  method ResolveOverlaps(winners: seq<Word>, norm: Normalizer) returns (resolved: seq<Word>)
    ensures resolved == Resolve(winners, norm)
  {
    resolved := [];
    for i := 0 to |winners|
      invariant resolved == Resolve(winners[..i], norm)
    {
      assert Init(winners[..i + 1]) == winners[..i];
      var winner := winners[i];
      if resolved != [] && winner.start < Last(resolved).end {
        if norm(winner.text) == norm(Last(resolved).text) {
          continue;
        }
        winner := winner.(start := Last(resolved).end);
        if winner.start > winner.end {
          winner := winner.(end := winner.start);
        }
      }
      resolved := resolved + [winner];
    }
    assert winners[..|winners|] == winners;
  }

  ghost predicate Timed(ws: seq<Word>) {
    forall i :: 0 <= i < |ws| ==> ws[i].start <= ws[i].end
  }

  /** Sorted in time, with no two words overlapping. */
  ghost predicate Ordered(ws: seq<Word>) {
    Timed(ws) && forall i, j :: 0 <= i < j < |ws| ==> ws[i].end <= ws[j].start
  }

  lemma {:induction false} ResolveOrders(winners: seq<Word>, norm: Normalizer)
    requires Timed(winners)
    ensures Ordered(Resolve(winners, norm))
  {
    if winners != [] {
      ResolveOrders(Init(winners), norm);
    }
  }

  lemma {:induction false} ResolveKeepsOrdered(winners: seq<Word>, norm: Normalizer)
    requires Ordered(winners)
    ensures Resolve(winners, norm) == winners
  {
    if winners != [] {
      var before, w := Init(winners), Last(winners);
      ResolveKeepsOrdered(before, norm);
      assert winners == before + [w];
      assert before != [] ==> Last(before) == winners[|winners| - 2] && Last(before).end <= w.start;
    }
  }

  /** Repairing twice is repairing once. */
  lemma ResolveIsIdempotent(winners: seq<Word>, norm: Normalizer)
    requires Timed(winners)
    ensures Resolve(Resolve(winners, norm), norm) == Resolve(winners, norm)
  {
    ResolveOrders(winners, norm);
    ResolveKeepsOrdered(Resolve(winners, norm), norm);
  }

  /** The positions of the winners that survive the repair. */
  function Kept(winners: seq<Word>, norm: Normalizer): seq<nat> {
    if winners == [] then []
    else if |Resolve(winners, norm)| == |Resolve(Init(winners), norm)| then Kept(Init(winners), norm)
    else Kept(Init(winners), norm) + [|winners| - 1]
  }

  /** `out` is the word `w`, pushed no further than behind `floor`. */
  ghost predicate PushedBehind(out: Word, w: Word, floor: real) {
    && out.text == w.text && out.probability == w.probability
    && if w.start >= floor then out == w else out.start == floor && out.end == Max(w.end, floor)
  }

  lemma {:induction false} KeptLength(winners: seq<Word>, norm: Normalizer)
    ensures |Kept(winners, norm)| == |Resolve(winners, norm)|
    ensures forall i :: 0 <= i < |Kept(winners, norm)| ==> Kept(winners, norm)[i] < |winners|
  {
    if winners != [] {
      KeptLength(Init(winners), norm);
    }
  }

  /** Survivors come out in order, each the word it was, pushed at most behind its predecessor. */
  lemma {:induction false} SurvivorsKeepTheirWords(winners: seq<Word>, norm: Normalizer, i: nat)
    requires i < |Resolve(winners, norm)|
    ensures |Kept(winners, norm)| == |Resolve(winners, norm)|
    ensures Kept(winners, norm)[i] < |winners|
    ensures i > 0 ==> Kept(winners, norm)[i - 1] < Kept(winners, norm)[i]
    ensures var w, out := winners[Kept(winners, norm)[i]], Resolve(winners, norm);
      PushedBehind(out[i], w, if i == 0 then w.start else out[i - 1].end)
  {
    KeptLength(winners, norm);
    KeptLength(Init(winners), norm);
    if i < |Resolve(Init(winners), norm)| {
      SurvivorsKeepTheirWords(Init(winners), norm, i);
    } else if i > 0 {
      SurvivorsKeepTheirWords(Init(winners), norm, i - 1);
    }
  }

  /** Of the survivors at positions `kept`, number `i` is the last one before winner `j`. */
  ghost predicate IsLastBefore(kept: seq<nat>, i: nat, j: nat) {
    i < |kept| && kept[i] < j && (i + 1 < |kept| ==> j <= kept[i + 1])
  }

  predicate OverlapsAndRepeats(w: Word, before: Word, norm: Normalizer) {
    w.start < before.end && norm(w.text) == norm(before.text)
  }

  /** Winner `j`, the word `w`, starts before the last survivor before it has ended, and repeats its text. */
  ghost predicate Repeats(kept: seq<nat>, resolved: seq<Word>, w: Word, norm: Normalizer, j: nat)
    requires |kept| == |resolved|
  {
    exists i: nat :: IsLastBefore(kept, i, j) && OverlapsAndRepeats(w, resolved[i], norm)
  }

  ghost predicate Increasing(kept: seq<nat>) {
    forall i, j :: 0 <= i < j < |kept| ==> kept[i] < kept[j]
  }

  /** A survivor added behind winner `j`, or in its place, makes no difference to it. */
  lemma LaterSurvivor(kept: seq<nat>, resolved: seq<Word>, n: nat, out: Word, w: Word, norm: Normalizer, j: nat)
    requires |kept| == |resolved| && j <= n
    ensures Repeats(kept + [n], resolved + [out], w, norm, j) <==> Repeats(kept, resolved, w, norm, j)
  {
    forall i: nat
      ensures IsLastBefore(kept + [n], i, j) <==> IsLastBefore(kept, i, j)
    {
    }
    if Repeats(kept, resolved, w, norm, j) {
      var i: nat :| IsLastBefore(kept, i, j) && OverlapsAndRepeats(w, resolved[i], norm);
      assert (resolved + [out])[i] == resolved[i];
    }
  }

  lemma LastSurvivor(kept: seq<nat>, resolved: seq<Word>, w: Word, norm: Normalizer, j: nat)
    requires |kept| == |resolved| && Increasing(kept) && forall i :: 0 <= i < |kept| ==> kept[i] < j
    ensures Repeats(kept, resolved, w, norm, j) <==> resolved != [] && OverlapsAndRepeats(w, Last(resolved), norm)
  {
    if resolved != [] {
      assert IsLastBefore(kept, |kept| - 1, j);
    }
  }

  /** What the winner behind the first `n`, the word `last`, adds to their survivors. */
  ghost predicate TakesIn(kept: seq<nat>, resolved: seq<Word>, kept': seq<nat>, resolved': seq<Word>, last: Word,
                          norm: Normalizer, n: nat)
  {
    && |kept| == |resolved| && Increasing(kept) && (forall i :: 0 <= i < |kept| ==> kept[i] < n)
    && if resolved != [] && OverlapsAndRepeats(last, Last(resolved), norm) then kept' == kept && resolved' == resolved
       else kept' == kept + [n] && |resolved'| == |resolved| + 1 && Init(resolved') == resolved
  }

  lemma PlaceMeaning(resolved: seq<Word>, w: Word, norm: Normalizer)
    ensures var placed := Place(resolved, w, norm);
      if resolved != [] && OverlapsAndRepeats(w, Last(resolved), norm) then placed == resolved
      else |placed| == |resolved| + 1 && Init(placed) == resolved
  {
  }

  lemma KeptStep(winners: seq<Word>, norm: Normalizer)
    requires winners != [] && Increasing(Kept(Init(winners), norm))
    ensures TakesIn(Kept(Init(winners), norm), Resolve(Init(winners), norm), Kept(winners, norm),
                    Resolve(winners, norm), Last(winners), norm, |winners| - 1)
  {
    var kept, resolved := Kept(Init(winners), norm), Resolve(Init(winners), norm);
    KeptLength(Init(winners), norm);
    PlaceMeaning(resolved, Last(winners), norm);
    assert Resolve(winners, norm) == Place(resolved, Last(winners), norm);
    assert Kept(winners, norm) == if |Resolve(winners, norm)| == |resolved| then kept else kept + [|winners| - 1];
  }

  lemma {:induction false} KeptInOrder(winners: seq<Word>, norm: Normalizer)
    ensures Increasing(Kept(winners, norm))
  {
    if winners != [] {
      KeptInOrder(Init(winners), norm);
      KeptStep(winners, norm);
    }
  }

  lemma DroppedStep(kept: seq<nat>, resolved: seq<Word>, kept': seq<nat>, resolved': seq<Word>, last: Word,
                    norm: Normalizer, n: nat, w: Word, j: nat)
    requires TakesIn(kept, resolved, kept', resolved', last, norm, n) && j <= n
    requires if j == n then w == last else j !in kept <==> Repeats(kept, resolved, w, norm, j)
    ensures |kept'| == |resolved'|
    ensures j !in kept' <==> Repeats(kept', resolved', w, norm, j)
  {
    if j == n {
      LastSurvivor(kept, resolved, w, norm, j);
    }
    if kept' != kept {
      assert resolved' == resolved + [Last(resolved')];
      LaterSurvivor(kept, resolved, n, Last(resolved'), w, norm, j);
    }
  }

  /** A winner is dropped exactly for starting before the last survivor before it has ended and repeating
      that word. */
  lemma {:induction false} DroppedExactlyWhen(winners: seq<Word>, norm: Normalizer, j: nat)
    requires j < |winners|
    ensures |Kept(winners, norm)| == |Resolve(winners, norm)|
    ensures j !in Kept(winners, norm)
            <==> Repeats(Kept(winners, norm), Resolve(winners, norm), winners[j], norm, j)
  {
    if j < |winners| - 1 {
      DroppedExactlyWhen(Init(winners), norm, j);
    }
    KeptInOrder(Init(winners), norm);
    KeptStep(winners, norm);
    DroppedStep(Kept(Init(winners), norm), Resolve(Init(winners), norm), Kept(winners, norm), Resolve(winners, norm),
                Last(winners), norm, |winners| - 1, winners[j], j);
  }

  // ----- the pipeline

  function Tag(words: seq<Word>, pass: nat): seq<Heard> {
    if words == [] then [] else Tag(Init(words), pass) + [Heard(Last(words), pass)]
  }

  function Pool(passes: seq<seq<Word>>): seq<Heard> {
    if passes == [] then [] else Pool(Init(passes)) + Tag(Last(passes), |passes| - 1)
  }

  function HeardStart(): Heard -> real {
    (h: Heard) => h.word.start
  }

  function WordStart(): Word -> real {
    (w: Word) => w.start
  }

  /** The time slots of a set of passes. */
  function SlotsOf(passes: seq<seq<Word>>, threshold: real): seq<seq<Heard>> {
    Cut(SameSlot(threshold), SortBy(Pool(passes), HeardStart()))
  }

  /** What an election makes of one slot. */
  type Election = seq<Heard> -> Option<Heard>

  ghost function VerdictBy(norm: Normalizer): Election {
    slot => Verdict(slot, norm)
  }

  /** The words the slots elect, in slot order. */
  ghost function Winners(slots: seq<seq<Heard>>, elect: Election): seq<Word> {
    if slots == [] then []
    else Winners(Init(slots), elect) + match elect(Last(slots)) case Some(h) => [h.word] case None => []
  }

  ghost function Reconciled(passes: seq<seq<Word>>, threshold: real, norm: Normalizer): seq<Word> {
    Resolve(Winners(SlotsOf(passes, threshold), VerdictBy(norm)), norm)
  }

  method PoolPasses(passes: seq<seq<Word>>) returns (pooled: seq<Heard>)
    ensures pooled == Pool(passes)
  {
    pooled := [];
    for p := 0 to |passes|
      invariant pooled == Pool(passes[..p])
    {
      assert Init(passes[..p + 1]) == passes[..p];
      ghost var before := pooled;
      var words := passes[p];
      for i := 0 to |words|
        invariant pooled == before + Tag(words[..i], p)
      {
        assert Init(words[..i + 1]) == words[..i];
        pooled := pooled + [Heard(words[i], p)];
      }
      assert words[..|words|] == words;
    }
    assert passes[..|passes|] == passes;
  }

  method CollectWinners(slots: seq<seq<Heard>>, norm: Normalizer) returns (winners: seq<Word>)
    ensures winners == Winners(slots, VerdictBy(norm))
  {
    winners := [];
    ghost var elect := VerdictBy(norm);
    for i := 0 to |slots|
      invariant winners == Winners(slots[..i], elect)
    {
      assert Init(slots[..i + 1]) == slots[..i];
      var winner := VoteSlot(slots[i], norm);
      assert elect(slots[i]) == winner;
      if winner.Some? {
        winners := winners + [winner.value.word];
      }
    }
    assert slots[..|slots|] == slots;
  }

  /** An election only ever picks a word of the slot, and only from a slot with a quorum. */
  ghost predicate Honest(elect: Election) {
    forall slot :: elect(slot).Some? ==> Quorum(slot) && elect(slot).value in slot
  }

  lemma VerdictIsHonest(norm: Normalizer)
    ensures Honest(VerdictBy(norm))
  {
  }

  lemma {:induction false} WinnerWasHeard(slots: seq<seq<Heard>>, elect: Election, i: nat) returns (k: nat, h: Heard)
    requires Honest(elect) && i < |Winners(slots, elect)|
    ensures k < |slots| && Quorum(slots[k]) && h in slots[k] && h in Flatten(slots)
    ensures h.word == Winners(slots, elect)[i]
  {
    if i < |Winners(Init(slots), elect)| {
      k, h := WinnerWasHeard(Init(slots), elect, i);
    } else {
      k, h := |slots| - 1, elect(Last(slots)).value;
    }
  }

  lemma SortedSplits<T>(a: seq<T>, b: seq<T>, key: T -> real)
    requires Sorted(a + b, key)
    ensures Sorted(a, key)
    ensures forall x, y :: x in a && y in b ==> key(x) <= key(y)
  {
    forall i, j | 0 <= i < j < |a|
      ensures key(a[i]) <= key(a[j])
    {
      assert (a + b)[i] == a[i] && (a + b)[j] == a[j];
    }
    forall x, y | x in a && y in b
      ensures key(x) <= key(y)
    {
      var i :| 0 <= i < |a| && a[i] == x;
      var j :| 0 <= j < |b| && b[j] == y;
      assert (a + b)[i] == x && (a + b)[|a| + j] == y;
    }
  }

  /** Slots are consecutive runs of sorted words, so their winners come out sorted. */
  lemma {:induction false} WinnersOfSortedSlots(slots: seq<seq<Heard>>, elect: Election)
    requires Honest(elect) && Sorted(Flatten(slots), HeardStart())
    ensures Sorted(Winners(slots, elect), WordStart())
  {
    if slots != [] {
      var before := Init(slots);
      SortedSplits(Flatten(before), Last(slots), HeardStart());
      WinnersOfSortedSlots(before, elect);
      if elect(Last(slots)).Some? {
        var h := elect(Last(slots)).value;
        forall i | 0 <= i < |Winners(before, elect)|
          ensures Winners(before, elect)[i].start <= h.word.start
        {
          var _, g := WinnerWasHeard(before, elect, i);
          assert HeardStart()(g) <= HeardStart()(h);
        }
      }
    }
  }

  /** Sorting the winners never reorders them. */
  lemma WinnersAreSorted(passes: seq<seq<Word>>, threshold: real, norm: Normalizer)
    ensures Sorted(Winners(SlotsOf(passes, threshold), VerdictBy(norm)), WordStart())
  {
    var pooled := SortBy(Pool(passes), HeardStart());
    SortByIsStableSort(Pool(passes), HeardStart());
    CutIsSegmentation(SameSlot(threshold), pooled);
    VerdictIsHonest(norm);
    WinnersOfSortedSlots(SlotsOf(passes, threshold), VerdictBy(norm));
  }

  method ReconcilePasses(passes: seq<seq<Word>>, threshold: real, norm: Normalizer) returns (out: seq<Word>)
    ensures out == Reconciled(passes, threshold, norm)
  {
    var pooled := PoolPasses(passes);
    pooled := SortBy(pooled, HeardStart());
    var slots := ClusterWordsIntoSlots(pooled, threshold);
    var winners := CollectWinners(slots, norm);
    WinnersAreSorted(passes, threshold, norm);
    SortBySorted(winners, WordStart());
    winners := SortBy(winners, WordStart());
    out := ResolveOverlaps(winners, norm);
  }

  // ----- what the outcome guarantees

  lemma {:induction false} TagMembers(words: seq<Word>, pass: nat, h: Heard)
    requires h in Tag(words, pass)
    ensures h.pass == pass && h.word in words
  {
    if h != Heard(Last(words), pass) {
      TagMembers(Init(words), pass, h);
    }
  }

  lemma {:induction false} PoolMembers(passes: seq<seq<Word>>, h: Heard)
    requires h in Pool(passes)
    ensures h.pass < |passes| && h.word in passes[h.pass]
  {
    if h in Tag(Last(passes), |passes| - 1) {
      TagMembers(Last(passes), |passes| - 1, h);
    } else {
      PoolMembers(Init(passes), h);
    }
  }

  lemma SlotMembers(passes: seq<seq<Word>>, threshold: real, k: nat, h: Heard)
    requires k < |SlotsOf(passes, threshold)| && h in SlotsOf(passes, threshold)[k]
    ensures h.pass < |passes| && h.word in passes[h.pass]
  {
    var pooled := SortBy(Pool(passes), HeardStart());
    SortByIsStableSort(Pool(passes), HeardStart());
    CutIsSegmentation(SameSlot(threshold), pooled);
    FlattenMembers(SlotsOf(passes, threshold), h);
    assert h in multiset(pooled);
    PoolMembers(passes, h);
  }

  /** The slots are the pooled words in time order, cut into consecutive runs: every word but a slot's
      first overlaps the span of those before it by the threshold, and the word behind a slot does
      not. */
  lemma SlotsPartitionThePool(passes: seq<seq<Word>>, threshold: real)
    ensures multiset(Flatten(SlotsOf(passes, threshold))) == multiset(Pool(passes))
    ensures Sorted(Flatten(SlotsOf(passes, threshold)), HeardStart())
    ensures IsSegmentation(SameSlot(threshold), SortBy(Pool(passes), HeardStart()), SlotsOf(passes, threshold))
    ensures forall k, j :: 0 <= k < |SlotsOf(passes, threshold)| && 1 <= j < |SlotsOf(passes, threshold)[k]| ==>
              var slot := SlotsOf(passes, threshold)[k]; SpanOf(slot[..j]).OverlapRatio(slot[j].word) >= threshold
    ensures forall k, l :: 0 <= k < |SlotsOf(passes, threshold)| && l == k + 1 < |SlotsOf(passes, threshold)| ==>
              var slot, next := SlotsOf(passes, threshold)[k], SlotsOf(passes, threshold)[l];
              slot != [] && next != [] && SpanOf(slot).OverlapRatio(next[0].word) < threshold
  {
    var joins, slots := SameSlot(threshold), SlotsOf(passes, threshold);
    SortByIsStableSort(Pool(passes), HeardStart());
    CutIsSegmentation(joins, SortBy(Pool(passes), HeardStart()));
    forall k, j | 0 <= k < |slots| && 1 <= j < |slots[k]|
      ensures SpanOf(slots[k][..j]).OverlapRatio(slots[k][j].word) >= threshold
    {
      assert joins(slots[k][..j], slots[k][j]);
    }
    forall k, l | 0 <= k < |slots| && l == k + 1 < |slots|
      ensures slots[k] != [] && slots[l] != [] && SpanOf(slots[k]).OverlapRatio(slots[l][0].word) < threshold
    {
      assert !joins(slots[k], slots[l][0]);
    }
  }

  ghost predicate TimedPasses(passes: seq<seq<Word>>) {
    forall p, w :: 0 <= p < |passes| && w in passes[p] ==> w.start <= w.end
  }

  /** The outcome is sorted in time and free of overlaps. */
  lemma ReconciledIsOrdered(passes: seq<seq<Word>>, threshold: real, norm: Normalizer)
    requires TimedPasses(passes)
    ensures Ordered(Reconciled(passes, threshold, norm))
  {
    var slots := SlotsOf(passes, threshold);
    var winners := Winners(slots, VerdictBy(norm));
    VerdictIsHonest(norm);
    forall i | 0 <= i < |winners|
      ensures winners[i].start <= winners[i].end
    {
      var k, h := WinnerWasHeard(slots, VerdictBy(norm), i);
      SlotMembers(passes, threshold, k, h);
    }
    ResolveOrders(winners, norm);
  }

  /** Every word of the outcome has the text and probability of a word that a pass heard, in a slot
      to which at least two distinct passes contributed, and lies no earlier than it. */
  lemma ReconciledWasHeard(passes: seq<seq<Word>>, threshold: real, norm: Normalizer, i: nat)
    returns (k: nat, h: Heard)
    requires TimedPasses(passes) && i < |Reconciled(passes, threshold, norm)|
    ensures var slots, out := SlotsOf(passes, threshold), Reconciled(passes, threshold, norm)[i];
      && k < |slots| && Quorum(slots[k]) && h in slots[k]
      && h.pass < |passes| && h.word in passes[h.pass]
      && out.text == h.word.text && out.probability == h.word.probability
      && out.start >= h.word.start && out.end == Max(h.word.end, out.start)
  {
    var slots := SlotsOf(passes, threshold);
    var winners := Winners(slots, VerdictBy(norm));
    VerdictIsHonest(norm);
    forall j | 0 <= j < |winners|
      ensures winners[j].start <= winners[j].end
    {
      var l, g := WinnerWasHeard(slots, VerdictBy(norm), j);
      SlotMembers(passes, threshold, l, g);
    }
    SurvivorsKeepTheirWords(winners, norm, i);
    k, h := WinnerWasHeard(slots, VerdictBy(norm), Kept(winners, norm)[i]);
    SlotMembers(passes, threshold, k, h);
  }

  lemma {:induction false} WinnerOfSlot(slots: seq<seq<Heard>>, elect: Election, k: nat)
    requires k < |slots| && elect(slots[k]).Some?
    ensures |Winners(slots[..k], elect)| < |Winners(slots, elect)|
    ensures Winners(slots, elect)[|Winners(slots[..k], elect)|] == elect(slots[k]).value.word
  {
    if k == |slots| - 1 {
      assert slots[..k] == Init(slots);
    } else {
      WinnerOfSlot(Init(slots), elect, k);
      assert Init(slots)[..k] == slots[..k];
    }
  }

  ghost predicate PushedAt(out: seq<Word>, i: nat, w: Word)
    requires i < |out|
  {
    PushedBehind(out[i], w, if i == 0 then w.start else out[i - 1].end)
  }

  /** Winner `p` is in the outcome, at most pushed behind the word before it, or else it overlaps and
      repeats the last word of the outcome before it. */
  ghost predicate Heeded(winners: seq<Word>, kept: seq<nat>, out: seq<Word>, norm: Normalizer, p: nat) {
    && p < |winners| && |kept| == |out|
    && (p !in kept <==> Repeats(kept, out, winners[p], norm, p))
    && forall i: nat :: i < |kept| && kept[i] == p ==> PushedAt(out, i, winners[p])
  }

  lemma WinnersAreHeeded(winners: seq<Word>, norm: Normalizer, p: nat)
    requires p < |winners|
    ensures Heeded(winners, Kept(winners, norm), Resolve(winners, norm), norm, p)
  {
    var kept, out := Kept(winners, norm), Resolve(winners, norm);
    DroppedExactlyWhen(winners, norm, p);
    forall i: nat | i < |kept| && kept[i] == p
      ensures PushedAt(out, i, winners[p])
    {
      SurvivorsKeepTheirWords(winners, norm, i);
    }
  }

  /** No slot with a quorum is passed over: the word it elects is in the outcome or repeats one. */
  lemma EveryQuorumIsHeard(passes: seq<seq<Word>>, threshold: real, norm: Normalizer, k: nat) returns (p: nat)
    requires k < |SlotsOf(passes, threshold)| && Quorum(SlotsOf(passes, threshold)[k])
    ensures var slots := SlotsOf(passes, threshold);
      var winners := Winners(slots, VerdictBy(norm));
      && p < |winners| && winners[p] == Verdict(slots[k], norm).value.word
      && Heeded(winners, Kept(winners, norm), Reconciled(passes, threshold, norm), norm, p)
  {
    var slots, elect := SlotsOf(passes, threshold), VerdictBy(norm);
    assert elect(slots[k]) == Verdict(slots[k], norm);
    WinnerOfSlot(slots, elect, k);
    p := |Winners(slots[..k], elect)|;
    WinnersAreHeeded(Winners(slots, elect), norm, p);
  }

  /** Fewer than two passes can never agree on anything. */
  lemma LonePassIsSilent(passes: seq<seq<Word>>, threshold: real, norm: Normalizer)
    requires |passes| < 2
    ensures Reconciled(passes, threshold, norm) == []
  {
    var slots := SlotsOf(passes, threshold);
    forall k | 0 <= k < |slots|
      ensures !Quorum(slots[k])
    {
      forall h: Heard | h in slots[k]
        ensures h.pass == 0
      {
        SlotMembers(passes, threshold, k, h);
      }
    }
    VerdictIsHonest(norm);
    if Winners(slots, VerdictBy(norm)) != [] {
      var k, h := WinnerWasHeard(slots, VerdictBy(norm), 0);
    }
  }

  // ----- segments

  /** When a word continues the segment before it. */
  function NoLongPause(maxGap: real): (seq<Word>, Word) -> bool {
    (segment: seq<Word>, w: Word) => segment != [] && w.start - Last(segment).end <= maxGap
  }

  method GroupIntoSegments(words: seq<Word>, maxGap: real) returns (segments: seq<seq<Word>>)
    ensures segments == Cut(NoLongPause(maxGap), words)
  {
    if words == [] {
      return [];
    }
    segments := [[words[0]]];
    ghost var joins := NoLongPause(maxGap);
    assert Init(words[..1]) == [];
    for i := 1 to |words|
      invariant segments == Cut(joins, words[..i])
      invariant segments != [] && Last(segments) != [] && Last(Last(segments)) == words[i - 1]
    {
      assert Init(words[..i + 1]) == words[..i];
      var previous, current := words[i - 1], words[i];
      ghost var before := segments;
      if current.start - previous.end > maxGap {
        segments := segments + [[]];
        assert Init(segments) == before && Last(segments) + [current] == [current];
      }
      segments := Init(segments) + [Last(segments) + [current]];
    }
    assert words[..|words|] == words;
  }

  /** Reading the segments in order gives back the words; inside a segment no gap exceeds
      `maxGap`, and between segments every gap does. */
  lemma SegmentsSplitAtPauses(words: seq<Word>, maxGap: real)
    ensures var segments := Cut(NoLongPause(maxGap), words);
      && Flatten(segments) == words
      && (forall k :: 0 <= k < |segments| ==> segments[k] != [])
      && (forall k, j :: 0 <= k < |segments| && 0 <= j < |segments[k]| - 1 ==>
            segments[k][j + 1].start - segments[k][j].end <= maxGap)
      && (forall k :: 0 <= k < |segments| - 1 ==>
            segments[k + 1][0].start - Last(segments[k]).end > maxGap)
  {
    var segments: seq<seq<Word>> := Cut(NoLongPause(maxGap), words);
    CutIsSegmentation(NoLongPause(maxGap), words);
    forall k, j | 0 <= k < |segments| && 0 <= j < |segments[k]| - 1
      ensures segments[k][j + 1].start - segments[k][j].end <= maxGap
    {
      assert NoLongPause(maxGap)(segments[k][..j + 1], segments[k][j + 1]);
      assert Last(segments[k][..j + 1]) == segments[k][j];
    }
    forall k | 0 <= k < |segments| - 1
      ensures segments[k + 1][0].start - Last(segments[k]).end > maxGap
    {
      assert !NoLongPause(maxGap)(segments[k], segments[k + 1][0]);
    }
  }
}
