/** When every pass hears the same words, voting gives back those words. */
module Unanimity {
  import opened Sequences
  import opened Segmentation
  import opened StableSort
  import opened QaVoting
  import opened Reconciliation

  /** Words in time order that do not overlap and that each take some time. */
  ghost predicate Clean(words: seq<Word>) {
    Ordered(words) && forall i :: 0 <= i < |words| ==> words[i].start < words[i].end
  }

  function Copies(words: seq<Word>, n: nat): seq<seq<Word>> {
    seq(n, _ => words)
  }

  /** One word as `n` passes hear it. */
  function Block(w: Word, n: nat): seq<Heard> {
    seq(n, (q: nat) => Heard(w, q))
  }

  function Blocks(words: seq<Word>, n: nat): seq<seq<Heard>> {
    if words == [] then [] else Blocks(Init(words), n) + [Block(Last(words), n)]
  }

  /** What `n` passes heard starting at time `v`. */
  function HeardAt(words: seq<Word>, n: nat, v: real): seq<Heard> {
    if words == [] then [] else if Last(words).start == v then Block(Last(words), n) else HeardAt(Init(words), n, v)
  }

  lemma {:induction false} HeardAtNothing(words: seq<Word>, n: nat, v: real)
    requires Clean(words) && forall i :: 0 <= i < |words| ==> words[i].start < v
    ensures HeardAt(words, n, v) == []
  {
    if words != [] {
      HeardAtNothing(Init(words), n, v);
    }
  }

  lemma CleanSplits(words: seq<Word>)
    requires Clean(words) && words != []
    ensures Clean(Init(words))
    ensures forall i :: 0 <= i < |words| - 1 ==> words[i].start < Last(words).start
  {
  }

  lemma {:induction false} TagAt(words: seq<Word>, n: nat, v: real)
    requires Clean(words)
    ensures HeardAt(words, n + 1, v) == HeardAt(words, n, v) + WithKey(Tag(words, n), HeardStart(), v)
  {
    if words != [] {
      CleanSplits(words);
      TagAt(Init(words), n, v);
      var tagged := Tag(words, n);
      assert Init(tagged) == Tag(Init(words), n);
      if Last(words).start == v {
        HeardAtNothing(Init(words), n, v);
        HeardAtNothing(Init(words), n + 1, v);
        assert Block(Last(words), n + 1) == Block(Last(words), n) + [Heard(Last(words), n)];
      }
    }
  }

  lemma {:induction false} EmptyBlocksAt(words: seq<Word>, v: real)
    ensures HeardAt(words, 0, v) == []
  {
    if words != [] {
      EmptyBlocksAt(Init(words), v);
    }
  }

  lemma {:induction false} PoolAt(words: seq<Word>, n: nat, v: real)
    requires Clean(words)
    ensures WithKey(Pool(Copies(words, n)), HeardStart(), v) == HeardAt(words, n, v)
  {
    if n == 0 {
      EmptyBlocksAt(words, v);
    } else {
      assert Init(Copies(words, n)) == Copies(words, n - 1);
      PoolAt(words, n - 1, v);
      TagAt(words, n - 1, v);
      WithKeyConcat(Pool(Copies(words, n - 1)), Tag(words, n - 1), HeardStart(), v);
    }
  }

  lemma {:induction false} BlockAt(w: Word, n: nat, v: real)
    ensures WithKey(Block(w, n), HeardStart(), v) == if w.start == v then Block(w, n) else []
  {
    if n > 0 {
      assert Init(Block(w, n)) == Block(w, n - 1);
      BlockAt(w, n - 1, v);
    }
  }

  lemma {:induction false} BlocksAt(words: seq<Word>, n: nat, v: real)
    requires Clean(words)
    ensures WithKey(Flatten(Blocks(words, n)), HeardStart(), v) == HeardAt(words, n, v)
  {
    if words != [] {
      CleanSplits(words);
      BlocksAt(Init(words), n, v);
      assert Init(Blocks(words, n)) == Blocks(Init(words), n);
      WithKeyConcat(Flatten(Blocks(Init(words), n)), Block(Last(words), n), HeardStart(), v);
      BlockAt(Last(words), n, v);
      if Last(words).start == v {
        HeardAtNothing(Init(words), n, v);
      }
    }
  }

  lemma {:induction false} BlocksMembers(words: seq<Word>, n: nat, h: Heard)
    requires h in Flatten(Blocks(words, n))
    ensures h.word in words
  {
    assert Init(Blocks(words, n)) == Blocks(Init(words), n);
    if h !in Block(Last(words), n) {
      BlocksMembers(Init(words), n, h);
    }
  }

  lemma {:induction false} BlocksAreSorted(words: seq<Word>, n: nat)
    requires Clean(words)
    ensures Sorted(Flatten(Blocks(words, n)), HeardStart())
  {
    if words != [] {
      CleanSplits(words);
      BlocksAreSorted(Init(words), n);
      assert Init(Blocks(words, n)) == Blocks(Init(words), n);
      forall h | h in Flatten(Blocks(Init(words), n))
        ensures h.word.start <= Last(words).start
      {
        BlocksMembers(Init(words), n, h);
      }
    }
  }

  /** Pooled and sorted, unanimous passes read word by word. */
  lemma UnanimousPool(words: seq<Word>, n: nat)
    requires Clean(words)
    ensures SortBy(Pool(Copies(words, n)), HeardStart()) == Flatten(Blocks(words, n))
  {
    var pool := Pool(Copies(words, n));
    SortByIsStableSort(pool, HeardStart());
    BlocksAreSorted(words, n);
    forall v
      ensures WithKey(SortBy(pool, HeardStart()), HeardStart(), v)
              == WithKey(Flatten(Blocks(words, n)), HeardStart(), v)
    {
      PoolAt(words, n, v);
      BlocksAt(words, n, v);
    }
    SortedIsDetermined(SortBy(pool, HeardStart()), Flatten(Blocks(words, n)), HeardStart());
  }

  lemma {:induction false} BlockSpan(w: Word, n: nat)
    requires n > 0 && w.start <= w.end
    ensures SpanOf(Block(w, n)) == Span(w.start, w.end)
  {
    if n > 1 {
      BlockSpan(w, n - 1);
      assert Init(Block(w, n)) == Block(w, n - 1);
    }
  }

  lemma {:induction false} BlocksShape(words: seq<Word>, n: nat, k: nat)
    requires k < |words|
    ensures |Blocks(words, n)| == |words| && Blocks(words, n)[k] == Block(words[k], n)
  {
    if k < |words| - 1 {
      BlocksShape(Init(words), n, k);
    } else if k > 0 {
      BlocksShape(Init(words), n, k - 1);
    }
  }

  /** With a threshold above 0 and at most 1, the slots are the blocks. */
  lemma UnanimousSlots(words: seq<Word>, n: nat, threshold: real)
    requires Clean(words) && n > 0 && 0.0 < threshold <= 1.0
    ensures SlotsOf(Copies(words, n), threshold) == Blocks(words, n)
  {
    var blocks := Blocks(words, n);
    var joins := SameSlot(threshold);
    if words != [] { BlocksShape(words, n, 0); }
    forall k | 0 <= k < |blocks|
      ensures blocks[k] == Block(words[k], n)
    {
      BlocksShape(words, n, k);
    }
    forall k, j | 0 <= k < |blocks| && 1 <= j < |blocks[k]|
      ensures joins(blocks[k][..j], blocks[k][j])
    {
      assert blocks[k][..j] == Block(words[k], j);
      BlockSpan(words[k], j);
      OverlapMeaning(Span(words[k].start, words[k].end), words[k]);
    }
    forall k | 0 <= k < |blocks| - 1
      ensures !joins(blocks[k], blocks[k + 1][0])
    {
      BlockSpan(words[k], n);
      OverlapMeaning(Span(words[k].start, words[k].end), words[k + 1]);
    }
    SegmentationIsCut(joins, Flatten(blocks), blocks);
    UnanimousPool(words, n);
  }

  lemma BlockVerdict(w: Word, n: nat, norm: Normalizer)
    requires n >= 2
    ensures Verdict(Block(w, n), norm).Some? && Verdict(Block(w, n), norm).value.word == w
  {
    assert Block(w, n)[0].pass != Block(w, n)[1].pass;
    assert Quorum(Block(w, n));
  }

  lemma {:induction false} UnanimousWinners(words: seq<Word>, n: nat, elect: Election)
    requires forall w :: elect(Block(w, n)).Some? && elect(Block(w, n)).value.word == w
    ensures Winners(Blocks(words, n), elect) == words
  {
    if words != [] {
      UnanimousWinners(Init(words), n, elect);
      assert Init(Blocks(words, n)) == Blocks(Init(words), n);
      assert words == Init(words) + [Last(words)];
    }
  }

  /** Two or more passes that hear the same clean words reconcile to exactly those words. */
  lemma UnanimousPassesSurvive(words: seq<Word>, n: nat, threshold: real, norm: Normalizer)
    requires Clean(words) && n >= 2 && 0.0 < threshold <= 1.0
    ensures Reconciled(Copies(words, n), threshold, norm) == words
  {
    UnanimousSlots(words, n, threshold);
    forall w
      ensures Verdict(Block(w, n), norm).Some? && Verdict(Block(w, n), norm).value.word == w
    {
      BlockVerdict(w, n, norm);
    }
    UnanimousWinners(words, n, VerdictBy(norm));
    ResolveKeepsOrdered(words, norm);
  }
}
