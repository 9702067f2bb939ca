/** Adding up an album: how the ends of its tracks turn into the lists and counts of the report. */
module AlbumOutcome {
  import opened TrackDownload

  datatype Status = Unfinished | Done | Failed | Skipped

  datatype Report = Report(failed: seq<nat>, succeeded: seq<nat>, statuses: seq<Status>)

  /** `order` is the order in which the tracks' workers finish. */
  ghost predicate IsOrder(order: seq<nat>, n: nat) {
    && |order| == n
    && (forall i :: 0 <= i < n ==> order[i] < n)
    && (forall i, j :: 0 <= i < j < n ==> order[i] != order[j])
  }

  /** Track `t` raised, and its future was not looked at any more because the stop flag was seen
      after `collected` futures. */
  ghost predicate Lost(ends: seq<End>, order: seq<nat>, collected: nat, t: nat)
    requires IsOrder(order, |ends|)
  {
    exists i :: collected <= i < |order| && order[i] == t && ends[t].Raised?
  }

  /** What the report says of one track. */
  ghost predicate TrackReported(report: Report, end: End, lost: bool, t: nat)
    requires t < |report.statuses|
  {
    && (t in report.succeeded <==> end.Succeeded?)
    && (t in report.failed <==> end.NotFound? || (end.Raised? && !lost))
    && report.statuses[t] == match end
         case Succeeded(_) => Done
         case NotFound => Status.Failed
         case Skipped => Status.Skipped
         case Raised => if lost then Unfinished else Status.Failed
  }

  ghost predicate NoRepeats(s: seq<nat>) {
    forall i, j :: 0 <= i < j < |s| ==> s[i] != s[j]
  }

  /** One worker's own record, and the collector's record of an exception if it still looks. */
  method Finish(report: Report, end: End, t: nat, stopped: bool) returns (report': Report)
    requires t < |report.statuses| && report.statuses[t] == Unfinished
    requires t !in report.succeeded && t !in report.failed
    requires NoRepeats(report.succeeded) && NoRepeats(report.failed)
    ensures |report'.statuses| == |report.statuses| && NoRepeats(report'.succeeded) && NoRepeats(report'.failed)
    ensures TrackReported(report', end, stopped, t)
    ensures forall u :: u != t ==> (u in report'.succeeded <==> u in report.succeeded)
    ensures forall u :: u != t ==> (u in report'.failed <==> u in report.failed)
    ensures forall u :: 0 <= u < |report.statuses| && u != t ==> report'.statuses[u] == report.statuses[u]
  {
    match end
    case Succeeded(_) =>
      return report.(statuses := report.statuses[t := Done], succeeded := report.succeeded + [t]);
    case NotFound =>
      return report.(statuses := report.statuses[t := Status.Failed], failed := report.failed + [t]);
    case Skipped =>
      return report.(statuses := report.statuses[t := Status.Skipped]);
    case Raised =>
      if stopped {
        return report;
      }
      return report.(statuses := report.statuses[t := Status.Failed], failed := report.failed + [t]);
  }

  function UpTo(n: nat): (s: set<nat>)
    ensures forall i: nat :: i in s <==> i < n
    ensures |s| == n
  {
    if n == 0 then {} else UpTo(n - 1) + {n - 1}
  }

  function Elements(s: seq<nat>): (e: set<nat>)
    ensures forall x :: x in e <==> x in s
    ensures NoRepeats(s) ==> |e| == |s|
  {
    if s == [] then {} else Elements(s[..|s| - 1]) + {s[|s| - 1]}
  }

  lemma {:induction false} SubsetOfSameSize<T>(a: set<T>, b: set<T>)
    requires a <= b && |a| == |b|
    ensures a == b
  {
    if a != {} {
      var x :| x in a;
      SubsetOfSameSize(a - {x}, b - {x});
    } else {
      assert |b| == 0;
    }
  }

  lemma PositionOf(order: seq<nat>, n: nat, t: nat) returns (j: nat)
    requires IsOrder(order, n) && t < n
    ensures j < n && order[j] == t
  {
    assert NoRepeats(order);
    var all := Elements(order);
    assert all <= UpTo(n) by {
      forall x | x in all
        ensures x < n
      {
        var i :| 0 <= i < |order| && order[i] == x;
      }
    }
    SubsetOfSameSize(all, UpTo(n));
    assert t in all;
    j :| 0 <= j < |order| && order[j] == t;
  }

  /** What `DownloadTracks` promises of its report. */
  ghost predicate IsReport(report: Report, ends: seq<End>, order: seq<nat>, collected: nat)
    requires IsOrder(order, |ends|)
  {
    && |report.statuses| == |ends|
    && NoRepeats(report.succeeded) && NoRepeats(report.failed)
    && (forall t :: t in report.succeeded || t in report.failed ==> t < |ends|)
    && (forall t :: 0 <= t < |ends| ==> TrackReported(report, ends[t], Lost(ends, order, collected, t), t))
  }

  /** Run all tracks and collect their results; `collected` is how many futures are looked at
      before the stop flag is seen, all of them if it never is. */
  method DownloadTracks(ends: seq<End>, order: seq<nat>, collected: nat) returns (report: Report)
    requires IsOrder(order, |ends|) && collected <= |ends|
    ensures IsReport(report, ends, order, collected)
  {
    var n := |ends|;
    report := Report([], [], seq(n, _ => Unfinished));
    for i := 0 to n
      invariant |report.statuses| == n
      invariant NoRepeats(report.succeeded) && NoRepeats(report.failed)
      invariant forall t :: t in report.succeeded || t in report.failed ==> t < n && t in order[..i]
      invariant forall t :: 0 <= t < n && t !in order[..i] ==> report.statuses[t] == Unfinished
      invariant forall j :: 0 <= j < i ==> TrackReported(report, ends[order[j]], j >= collected, order[j])
    {
      var t := order[i];
      assert t !in order[..i];
      ghost var before := report;
      report := Finish(report, ends[t], t, i >= collected);
      forall j | 0 <= j < i + 1
        ensures TrackReported(report, ends[order[j]], j >= collected, order[j])
      {
        if j < i {
          assert TrackReported(before, ends[order[j]], j >= collected, order[j]);
        }
      }
      assert order[..i + 1] == order[..i] + [t];
    }
    forall t | 0 <= t < n
      ensures TrackReported(report, ends[t], Lost(ends, order, collected, t), t)
    {
      var j := PositionOf(order, n, t);
      assert TrackReported(report, ends[order[j]], j >= collected, order[j]);
    }
  }

  // ----- the report

  function SkippedCount(statuses: seq<Status>): nat {
    if statuses == [] then 0
    else SkippedCount(statuses[..|statuses| - 1]) + if statuses[|statuses| - 1] == Status.Skipped then 1 else 0
  }

  function AttemptedCount(report: Report): int {
    |report.statuses| - SkippedCount(report.statuses)
  }

  /** The album counts as failed outright. */
  predicate AllFailed(report: Report) {
    report.failed != [] && AttemptedCount(report) > 0 && |report.failed| == AttemptedCount(report)
  }

  ghost function SkippedTracks(statuses: seq<Status>): (s: set<nat>)
    ensures forall t: nat :: t in s <==> t < |statuses| && statuses[t] == Status.Skipped
    ensures |s| == SkippedCount(statuses)
  {
    if statuses == [] then {}
    else
      var n := |statuses| - 1;
      SkippedTracks(statuses[..n]) + if statuses[n] == Status.Skipped then {n} else {}
  }

  ghost function LostTracks(ends: seq<End>, order: seq<nat>, collected: nat): (lost: set<nat>)
    requires IsOrder(order, |ends|)
  {
    set t | t in UpTo(|ends|) && Lost(ends, order, collected, t)
  }

  /** Track `t` is in exactly one of the four sets, if it is a track at all. */
  ghost predicate InOne(s: set<nat>, f: set<nat>, k: set<nat>, lost: set<nat>, all: set<nat>, t: nat) {
    && (t in all <==> t in s || t in f || t in k || t in lost)
    && (t in s ==> t !in f && t !in k && t !in lost)
    && (t in f ==> t !in k && t !in lost)
    && (t in k ==> t !in lost)
  }

  lemma FourWays(s: set<nat>, f: set<nat>, k: set<nat>, lost: set<nat>, all: set<nat>)
    requires forall t: nat :: InOne(s, f, k, lost, all, t)
    ensures s + f + k + lost == all && s !! f !! k !! lost
  {
    assert forall t: nat :: (t in s + f + k + lost <==> t in all) by {
      forall t: nat
        ensures t in s + f + k + lost <==> t in all
      {
        assert InOne(s, f, k, lost, all, t);
      }
    }
    assert forall t: nat | t in s || t in f || t in k :: InOne(s, f, k, lost, all, t);
  }

  lemma TrackIsInOne(ends: seq<End>, order: seq<nat>, collected: nat, report: Report, t: nat)
    requires IsOrder(order, |ends|) && IsReport(report, ends, order, collected)
    ensures InOne(Elements(report.succeeded), Elements(report.failed), SkippedTracks(report.statuses),
                  LostTracks(ends, order, collected), UpTo(|ends|), t)
  {
    assert t < |ends| ==> TrackReported(report, ends[t], Lost(ends, order, collected, t), t);
  }

  /** Every track is in exactly one of four places: succeeded, failed, skipped, lost. */
  lemma TracksArePartitioned(ends: seq<End>, order: seq<nat>, collected: nat, report: Report)
    requires IsOrder(order, |ends|) && IsReport(report, ends, order, collected)
    ensures var s, f, k, lost := Elements(report.succeeded), Elements(report.failed),
                                 SkippedTracks(report.statuses), LostTracks(ends, order, collected);
      s + f + k + lost == UpTo(|ends|) && s !! f !! k !! lost
  {
    forall t: nat
      ensures InOne(Elements(report.succeeded), Elements(report.failed), SkippedTracks(report.statuses),
                    LostTracks(ends, order, collected), UpTo(|ends|), t)
    {
      TrackIsInOne(ends, order, collected, report, t);
    }
    FourWays(Elements(report.succeeded), Elements(report.failed), SkippedTracks(report.statuses),
             LostTracks(ends, order, collected), UpTo(|ends|));
  }

  lemma DisjointUnion(a: set<nat>, b: set<nat>, c: set<nat>, d: set<nat>)
    requires a !! b !! c !! d
    ensures |a + b + c + d| == |a| + |b| + |c| + |d|
  {
  }

  /** What is attempted and has not failed is what succeeded, plus the lost tracks. */
  lemma ReportAddsUp(ends: seq<End>, order: seq<nat>, collected: nat, report: Report)
    requires IsOrder(order, |ends|) && IsReport(report, ends, order, collected)
    ensures AttemptedCount(report) - |report.failed| == |report.succeeded| + |LostTracks(ends, order, collected)|
  {
    TracksArePartitioned(ends, order, collected, report);
    DisjointUnion(Elements(report.succeeded), Elements(report.failed), SkippedTracks(report.statuses),
                  LostTracks(ends, order, collected));
  }

  /** The verified total of the report, attempted minus failed, is the number of successes exactly
      when no exception was left uncollected by a stop. Without a stop none is. */
  lemma VerifiedTotalIsExact(ends: seq<End>, order: seq<nat>, collected: nat, report: Report)
    requires IsOrder(order, |ends|) && IsReport(report, ends, order, collected)
    ensures AttemptedCount(report) - |report.failed| == |report.succeeded|
            <==> forall i :: 0 <= i < |order| && i >= collected ==> !ends[order[i]].Raised?
    ensures collected >= |ends| ==> (AllFailed(report) <==> report.failed != [] && report.succeeded == [])
  {
    ReportAddsUp(ends, order, collected, report);
    var lost := LostTracks(ends, order, collected);
    if lost != {} {
      var t :| t in lost;
      var i :| collected <= i < |order| && order[i] == t && ends[t].Raised?;
      assert ends[order[i]].Raised?;
    } else {
      forall i | 0 <= i < |order| && i >= collected
        ensures !ends[order[i]].Raised?
      {
        assert order[i] !in lost;
      }
    }
  }
}
