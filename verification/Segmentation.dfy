/** Cutting a sequence into consecutive runs: an item joins the current run when `joins` says so
    of the run so far and the item, and opens a new run otherwise. */
module Segmentation {
  import opened Sequences

  function Flatten<T>(runs: seq<seq<T>>): seq<T> {
    if runs == [] then [] else Flatten(Init(runs)) + Last(runs)
  }

  /** `runs` is `items` cut exactly where `joins` fails: nothing lost, nothing reordered, no run
      empty, every item but a run's first joins what precedes it in the run, and no run could
      have taken in the first item of the next. */
  ghost predicate IsSegmentation<T>(joins: (seq<T>, T) -> bool, items: seq<T>, runs: seq<seq<T>>) {
    && Flatten(runs) == items
    && (forall k :: 0 <= k < |runs| ==> runs[k] != [])
    && (forall k, j :: 0 <= k < |runs| && 1 <= j < |runs[k]| ==> joins(runs[k][..j], runs[k][j]))
    && (forall k :: 0 <= k < |runs| - 1 ==> !joins(runs[k], runs[k + 1][0]))
  }

  function Extend<T>(joins: (seq<T>, T) -> bool, runs: seq<seq<T>>, x: T): seq<seq<T>> {
    if runs != [] && joins(Last(runs), x) then Init(runs) + [Last(runs) + [x]] else runs + [[x]]
  }

  /** The cut a left-to-right loop makes. */
  function Cut<T>(joins: (seq<T>, T) -> bool, items: seq<T>): seq<seq<T>> {
    if items == [] then [] else Extend(joins, Cut(joins, Init(items)), Last(items))
  }

  lemma LastRunGrows<T>(joins: (seq<T>, T) -> bool, items: seq<T>, runs: seq<seq<T>>, x: T)
    requires IsSegmentation(joins, items, runs) && runs != [] && joins(Last(runs), x)
    ensures IsSegmentation(joins, items + [x], Init(runs) + [Last(runs) + [x]])
  {
    var n := |runs| - 1;
    var run := runs[n] + [x];
    var more := Init(runs) + [run];
    assert Init(more) == Init(runs);
    forall k, j | 0 <= k < |more| && 1 <= j < |more[k]|
      ensures joins(more[k][..j], more[k][j])
    {
      if k < n {
        assert more[k] == runs[k];
      } else if j < |runs[n]| {
        assert run[..j] == runs[n][..j] && run[j] == runs[n][j];
      } else {
        assert run[..j] == runs[n];
      }
    }
    forall k | 0 <= k < n
      ensures !joins(more[k], more[k + 1][0])
    {
      assert more[k] == runs[k] && more[k + 1][0] == runs[k + 1][0];
    }
  }

  /** Taking in one more item the way a left-to-right loop does. */
  lemma ExtendIsSegmentation<T>(joins: (seq<T>, T) -> bool, items: seq<T>, runs: seq<seq<T>>, x: T)
    requires IsSegmentation(joins, items, runs)
    ensures IsSegmentation(joins, items + [x], Extend(joins, runs, x))
  {
    if runs != [] && joins(Last(runs), x) {
      LastRunGrows(joins, items, runs, x);
    } else {
      var more := runs + [[x]];
      assert Init(more) == runs;
      forall k, j | 0 <= k < |more| && 1 <= j < |more[k]|
        ensures joins(more[k][..j], more[k][j])
      {
        assert more[k] == runs[k];
      }
    }
  }

  /** The runs without their last item. */
  function Shrunk<T>(runs: seq<seq<T>>): seq<seq<T>>
    requires runs != [] && Last(runs) != []
  {
    if |Last(runs)| == 1 then Init(runs) else Init(runs) + [Init(Last(runs))]
  }

  lemma LastRunShrinks<T>(joins: (seq<T>, T) -> bool, items: seq<T>, runs: seq<seq<T>>)
    requires IsSegmentation(joins, items, runs) && runs != [] && |Last(runs)| > 1
    ensures IsSegmentation(joins, Init(items), Shrunk(runs))
    ensures runs == Extend(joins, Shrunk(runs), Last(items))
  {
    var n, run, fewer := |runs| - 1, Last(runs), Shrunk(runs);
    assert Init(fewer) == Init(runs);
    assert run == Init(run) + [Last(items)] && runs == Init(runs) + [run];
    assert joins(run[..|run| - 1], run[|run| - 1]) by {
      assert joins(runs[n][..|run| - 1], runs[n][|run| - 1]);
    }
    forall k, j | 0 <= k < |fewer| && 1 <= j < |fewer[k]|
      ensures joins(fewer[k][..j], fewer[k][j])
    {
      assert fewer[k][..j] == runs[k][..j] && fewer[k][j] == runs[k][j];
    }
    forall k | 0 <= k < n
      ensures !joins(fewer[k], fewer[k + 1][0])
    {
      assert fewer[k] == runs[k] && fewer[k + 1][0] == runs[k + 1][0];
    }
  }

  lemma LastRunGoes<T>(joins: (seq<T>, T) -> bool, items: seq<T>, runs: seq<seq<T>>)
    requires IsSegmentation(joins, items, runs) && runs != [] && |Last(runs)| == 1
    ensures IsSegmentation(joins, Init(items), Shrunk(runs))
    ensures runs == Extend(joins, Shrunk(runs), Last(items))
  {
    assert Last(runs) == [Last(items)];
    assert runs == Init(runs) + [Last(runs)];
  }

  lemma {:induction false} RunsAreNonempty<T>(runs: seq<seq<T>>)
    requires forall k :: 0 <= k < |runs| ==> runs[k] != []
    ensures |runs| <= |Flatten(runs)|
  {
    if runs != [] {
      RunsAreNonempty(Init(runs));
    }
  }

  lemma {:induction false} CutIsSegmentation<T>(joins: (seq<T>, T) -> bool, items: seq<T>)
    ensures IsSegmentation(joins, items, Cut(joins, items))
  {
    if items != [] {
      var front, last := Init(items), Last(items);
      CutIsSegmentation(joins, front);
      ExtendIsSegmentation(joins, front, Cut(joins, front), last);
      assert items == front + [last] && Cut(joins, items) == Extend(joins, Cut(joins, front), last);
    }
  }

  /** A sequence has only one segmentation: the loop's. */
  lemma {:induction false} SegmentationIsCut<T>(joins: (seq<T>, T) -> bool, items: seq<T>, runs: seq<seq<T>>)
    requires IsSegmentation(joins, items, runs)
    ensures runs == Cut(joins, items)
    decreases |items|
  {
    RunsAreNonempty(runs);
    if items != [] {
      if |Last(runs)| == 1 {
        LastRunGoes(joins, items, runs);
      } else {
        LastRunShrinks(joins, items, runs);
      }
      SegmentationIsCut(joins, Init(items), Shrunk(runs));
    }
  }

  /** Every item sits in some run, and runs hold only items. */
  lemma {:induction false} FlattenMembers<T>(runs: seq<seq<T>>, x: T)
    ensures x in Flatten(runs) <==> exists k :: 0 <= k < |runs| && x in runs[k]
  {
    if runs != [] {
      FlattenMembers(Init(runs), x);
      assert runs == Init(runs) + [Last(runs)];
    }
  }
}
