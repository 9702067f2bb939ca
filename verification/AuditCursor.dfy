/** The post-run duration audit (scripts/lidarr-ytdl-audit.py): how one file is judged, which rows a
    run looks at, and the cursor it carries from run to run. Times are reals, in seconds. */
module AuditCursor {
  import opened Reals
  import opened Wrappers

  const PENDING_EXPIRY := 3600.0
  const SETTLE_SECONDS := 300.0
  const VERIFIED_SCORE := 0.90
  const GROSS_FRACTION := 0.25

  // ----- judging one file

  datatype Verdict = Fine | Delete | Review | Unverifiable

  /** Tells a first judgement from one made about a file kept as a last resort. */
  datatype Evidence = Evidence(
    actual: real,
    expected: real,
    source: real,
    score: real,
    identityOk: bool,
    lastResort: bool)

  function Deviation(e: Evidence): real {
    if e.expected != 0.0 then Abs(e.actual - e.expected) / e.expected else 1.0
  }

  function FirstVerdict(e: Evidence, tolerance: real): Verdict {
    if !e.identityOk then Unverifiable
    else if Abs(e.actual - e.expected) <= tolerance then Fine
    else if e.source > 0.0 && e.actual < e.source - tolerance then Delete
    else if Deviation(e) > GROSS_FRACTION && e.score < VERIFIED_SCORE then Delete
    else Review
  }

  function Decide(e: Evidence, tolerance: real): Verdict {
    var verdict := FirstVerdict(e, tolerance);
    if e.lastResort && verdict == Delete then Review else verdict
  }

  predicate Truncated(e: Evidence, tolerance: real) {
    e.source > 0.0 && e.actual + tolerance < e.source
  }

  /** More than a quarter off the expected length, which is positive when it is known. */
  predicate GrosslyOff(e: Evidence) {
    e.expected == 0.0 || 4.0 * Abs(e.actual - e.expected) > e.expected
  }

  /** Off the expected length by more than the tolerance, and either truncated or grossly off without
      AcoustID's word for it; unless it is another download's file or a last resort. */
  predicate Warrants(e: Evidence, tolerance: real) {
    && e.identityOk && !e.lastResort && Abs(e.actual - e.expected) > tolerance
    && (Truncated(e, tolerance) || (GrosslyOff(e) && e.score < VERIFIED_SCORE))
  }

  lemma QuarterOff(gap: real, whole: real)
    requires whole > 0.0
    ensures gap / whole > GROSS_FRACTION <==> 4.0 * gap > whole
  {
    var fraction := gap / whole;
    assert fraction * whole == gap;
    if fraction > GROSS_FRACTION {
      assert (fraction - GROSS_FRACTION) * whole > 0.0;
    } else {
      assert (GROSS_FRACTION - fraction) * whole >= 0.0;
    }
  }

  /** The two reasons for a deletion, and the three things that rule one out. A file within the tolerance
      is fine whatever else is known of it; one that is off and not deleted is put up for review. */
  lemma DeletedExactlyWhen(e: Evidence, tolerance: real)
    requires e.expected >= 0.0
    ensures Decide(e, tolerance) == Delete <==> Warrants(e, tolerance)
    ensures Decide(e, tolerance) == Unverifiable <==> !e.identityOk
    ensures Decide(e, tolerance) == Fine <==> e.identityOk && Abs(e.actual - e.expected) <= tolerance
    ensures Decide(e, tolerance) == Review <==>
              e.identityOk && Abs(e.actual - e.expected) > tolerance && !Warrants(e, tolerance)
  {
    if e.expected > 0.0 {
      QuarterOff(Abs(e.actual - e.expected), e.expected);
    }
  }

  /** A truncated file is kept if it still has about the expected length. */
  lemma TruncatedYetKept()
    ensures var e := Evidence(200.0, 205.0, 240.0, 0.0, true, false);
      Truncated(e, 10.0) && Decide(e, 10.0) == Fine
  {
  }

  /** A wider tolerance, a better score, or a note that the file was a last resort never turns a
      kept file into a deleted one. */
  lemma LeniencyDeletesLess(e: Evidence, tolerance: real, score: real, lastResort: bool, wider: real)
    requires tolerance <= wider && e.score <= score && (e.lastResort ==> lastResort)
    ensures Decide(e.(score := score, lastResort := lastResort), wider) == Delete ==> Decide(e, tolerance) == Delete
  {
    assert Deviation(e.(score := score, lastResort := lastResort)) == Deviation(e);
  }

  // ----- the rows of one run

  datatype Row = Row(id: int, album: int, track: int, timestamp: real, source: real, score: real)

  type Key = (int, int)

  function KeyOf(r: Row): Key {
    (r.album, r.track)
  }

  ghost predicate InOrder(rows: seq<Row>) {
    forall i, j :: 0 <= i < j < |rows| ==> rows[i].timestamp <= rows[j].timestamp
  }

  function Window(table: seq<Row>, cursor: real, cutoff: real): (rows: seq<Row>)
    ensures forall r :: r in rows <==> r in table && cursor < r.timestamp <= cutoff
    ensures InOrder(table) ==> InOrder(rows)
  {
    if table == [] then []
    else
      var rows := Window(table[..|table| - 1], cursor, cutoff);
      var last := table[|table| - 1];
      assert table == table[..|table| - 1] + [last];
      if cursor < last.timestamp <= cutoff then rows + [last] else rows
  }

  function LatestOf(rows: seq<Row>): map<Key, Row> {
    if rows == [] then map[]
    else
      var last := rows[|rows| - 1];
      LatestOf(rows[..|rows| - 1])[KeyOf(last) := last]
  }

  /** The newest row of every track that has one. */
  ghost predicate IsLatest(latest: map<Key, Row>, rows: seq<Row>) {
    && (forall k :: k in latest ==> latest[k] in rows && KeyOf(latest[k]) == k)
    && (forall r :: r in rows ==> KeyOf(r) in latest && r.timestamp <= latest[KeyOf(r)].timestamp)
  }

  /** A row no older than the others takes its track's place. */
  lemma NewestTakesOver(latest: map<Key, Row>, rows: seq<Row>, last: Row)
    requires IsLatest(latest, rows) && forall r :: r in rows ==> r.timestamp <= last.timestamp
    ensures IsLatest(latest[KeyOf(last) := last], rows + [last])
  {
    var latest', rows' := latest[KeyOf(last) := last], rows + [last];
    forall r | r in rows'
      ensures KeyOf(r) in latest' && r.timestamp <= latest'[KeyOf(r)].timestamp
    {
      if r != last {
        assert r in rows;
      }
    }
  }

  lemma {:induction false} LatestIsNewest(rows: seq<Row>)
    requires InOrder(rows)
    ensures IsLatest(LatestOf(rows), rows)
  {
    if rows != [] {
      var front, last := rows[..|rows| - 1], rows[|rows| - 1];
      LatestIsNewest(front);
      forall r | r in front
        ensures r.timestamp <= last.timestamp
      {
        var i :| 0 <= i < |front| && front[i] == r;
        assert rows[i].timestamp <= rows[|rows| - 1].timestamp;
      }
      NewestTakesOver(LatestOf(front), front, last);
      assert rows == front + [last];
    }
  }

  method Latest(rows: seq<Row>) returns (latest: map<Key, Row>)
    ensures latest == LatestOf(rows)
  {
    latest := map[];
    for i := 0 to |rows|
      invariant latest == LatestOf(rows[..i])
    {
      latest := latest[KeyOf(rows[i]) := rows[i]];
      assert rows[..i + 1][..i] == rows[..i];
    }
    assert rows[..|rows|] == rows;
  }

  // ----- what a run meets outside

  /** `file` is None for a track that Lidarr has no file for. */
  datatype Track = Track(number: int, duration: real, file: Option<int>)

  /** No tracks: the album is gone from Lidarr, or Lidarr refused to list it. */
  datatype Album = Album(tracks: seq<Track>, files: map<int, string>)

  /** The answers a run gets. Each row is examined at most once, so an answer may depend on the row.
      `askedAt` is the clock when the age of a pending row is looked at. */
  datatype World = World(album: int -> Album, probe: (string, Row) -> Option<real>, wroteIt: (string, Row) -> bool,
                         lastResorts: set<int>, askedAt: Row -> real)

  predicate IsLinked(t: Track, number: int) {
    t.number == number && t.file.Some?
  }

  /** The position of the first linked track with a number, or the number of tracks. */
  function FirstLinked(tracks: seq<Track>, number: int): (i: nat)
    ensures i <= |tracks| && (i < |tracks| ==> IsLinked(tracks[i], number))
    ensures forall j :: 0 <= j < i ==> !IsLinked(tracks[j], number)
  {
    if tracks == [] then 0
    else
      var n := |tracks| - 1;
      var i := FirstLinked(tracks[..n], number);
      if i < n || IsLinked(tracks[n], number) then i else |tracks|
  }

  datatype Outcome = AlbumGone | Pending | Judged(verdict: Verdict)

  function Examine(r: Row, w: World, tolerance: real): Outcome {
    var album := w.album(r.album);
    if album.tracks == [] then AlbumGone
    else
      var i := FirstLinked(album.tracks, r.track);
      if i == |album.tracks| || album.tracks[i].file.value !in album.files then Pending
      else
        var path := album.files[album.tracks[i].file.value];
        var actual := w.probe(path, r);
        if actual.None? then Pending
        else
          var evidence := Evidence(actual.value, album.tracks[i].duration, r.source, r.score,
                                   w.wroteIt(path, r), r.id in w.lastResorts);
          var verdict := Decide(evidence, tolerance);
          if verdict == Unverifiable then Pending else Judged(verdict)
  }

  /** The track whose file is examined for a row: the first with its number, if its file is known. */
  function Linked(r: Row, w: World): (t: Option<Track>)
    ensures t.Some? ==> t.value.file.Some? && t.value.file.value in w.album(r.album).files
  {
    var album := w.album(r.album);
    var i := FirstLinked(album.tracks, r.track);
    if i < |album.tracks| && album.tracks[i].file.value in album.files then Some(album.tracks[i]) else None
  }

  /** What is known of a row's file: None without a linked file that can be probed. */
  function EvidenceOn(r: Row, w: World): Option<Evidence> {
    var t := Linked(r, w);
    if t.None? then None
    else
      var path := w.album(r.album).files[t.value.file.value];
      var actual := w.probe(path, r);
      if actual.None? then None
      else Some(Evidence(actual.value, t.value.duration, r.source, r.score, w.wroteIt(path, r), r.id in w.lastResorts))
  }

  /** A row is dropped exactly if its album has no tracks, and else pending exactly if there is no file
      to go by or another download wrote it. It is put up for deletion exactly if the evidence on
      its file warrants it; so never for another download's file or for a last resort. It is fine
      exactly if the file is within the tolerance, and put up for review otherwise. */
  lemma OutcomeExactlyWhen(r: Row, w: World, tolerance: real)
    requires forall t :: t in w.album(r.album).tracks ==> t.duration >= 0.0
    ensures Examine(r, w, tolerance).AlbumGone? <==> w.album(r.album).tracks == []
    ensures Examine(r, w, tolerance).Pending? <==>
              w.album(r.album).tracks != [] && (EvidenceOn(r, w).None? || !EvidenceOn(r, w).value.identityOk)
    ensures Examine(r, w, tolerance) == Judged(Delete) <==>
              EvidenceOn(r, w).Some? && Warrants(EvidenceOn(r, w).value, tolerance)
    ensures Examine(r, w, tolerance) == Judged(Fine) <==>
              EvidenceOn(r, w).Some? && EvidenceOn(r, w).value.identityOk
              && Abs(EvidenceOn(r, w).value.actual - EvidenceOn(r, w).value.expected) <= tolerance
    ensures Examine(r, w, tolerance) != Judged(Unverifiable)
  {
    var e := EvidenceOn(r, w);
    if e.Some? {
      assert e.value.expected >= 0.0;
      DeletedExactlyWhen(e.value, tolerance);
    }
  }

  /** The outcome of every row in one run. */
  function Examination(w: World, tolerance: real): Row -> Outcome {
    r => Examine(r, w, tolerance)
  }

  datatype Kind = ToDelete | ToReview | Checked | Waiting

  predicate IsOf(outcome: Outcome, kind: Kind) {
    match kind
    case ToDelete => outcome == Judged(Delete)
    case ToReview => outcome == Judged(Review)
    case Checked => outcome.Judged?
    case Waiting => outcome.Pending?
  }

  /** The tracks of `keys` whose newest row came to an outcome of the given kind. */
  ghost function With(latest: map<Key, Row>, keys: set<Key>, examine: Row -> Outcome, kind: Kind): set<Key>
    requires keys <= latest.Keys
  {
    set k | k in keys && IsOf(examine(latest[k]), kind)
  }

  lemma WithOneMore(latest: map<Key, Row>, keys: set<Key>, key: Key, examine: Row -> Outcome, kind: Kind)
    requires keys <= latest.Keys && key in latest && key !in keys
    ensures With(latest, keys + {key}, examine, kind)
            == With(latest, keys, examine, kind) + if IsOf(examine(latest[key]), kind) then {key} else {}
  {
  }

  /** What a run reports: the tracks it deleted, and how many files it checked, found bad, put up for
      review, and left pending. */
  datatype Report = Report(deleted: set<Key>, checked: nat, bad: nat, reviews: nat, pending: nat)

  function ReportOf(bad: set<Key>, checked: nat, reviews: nat, pending: nat, deleting: bool): Report {
    Report(if deleting then bad else {}, checked, |bad|, reviews, pending)
  }

  /** The report on the tracks of `keys`. */
  ghost function ReportOn(latest: map<Key, Row>, keys: set<Key>, examine: Row -> Outcome, deleting: bool): Report
    requires keys <= latest.Keys
  {
    ReportOf(With(latest, keys, examine, ToDelete), |With(latest, keys, examine, Checked)|,
             |With(latest, keys, examine, ToReview)|, |With(latest, keys, examine, Waiting)|, deleting)
  }

  /** What the numbers of a report count: a dry run deletes nothing, and finds as many bad files. */
  lemma ReportMeaning(latest: map<Key, Row>, examine: Row -> Outcome, deleting: bool)
    ensures var report := ReportOn(latest, latest.Keys, examine, deleting);
      && (forall k :: k in report.deleted <==> deleting && k in latest && examine(latest[k]) == Judged(Delete))
      && report.bad == |set k | k in latest && examine(latest[k]) == Judged(Delete)|
      && report.reviews == |set k | k in latest && examine(latest[k]) == Judged(Review)|
      && report.checked == |set k | k in latest && examine(latest[k]).Judged?|
      && report.pending == |set k | k in latest && examine(latest[k]).Pending?|
  {
    assert With(latest, latest.Keys, examine, ToDelete)
           == set k | k in latest && examine(latest[k]) == Judged(Delete);
    assert With(latest, latest.Keys, examine, ToReview)
           == set k | k in latest && examine(latest[k]) == Judged(Review);
    assert With(latest, latest.Keys, examine, Checked) == set k | k in latest && examine(latest[k]).Judged?;
    assert With(latest, latest.Keys, examine, Waiting) == set k | k in latest && examine(latest[k]).Pending?;
  }

  function Tallied(report: Report, key: Key, outcome: Outcome, deleting: bool): Report {
    match outcome
    case AlbumGone => report
    case Pending => report.(pending := report.pending + 1)
    case Judged(Delete) =>
      report.(checked := report.checked + 1, bad := report.bad + 1,
              deleted := if deleting then report.deleted + {key} else report.deleted)
    case Judged(Review) => report.(checked := report.checked + 1, reviews := report.reviews + 1)
    case Judged(_) => report.(checked := report.checked + 1)
  }

  lemma CountOneMore(latest: map<Key, Row>, keys: set<Key>, key: Key, examine: Row -> Outcome, kind: Kind)
    requires keys <= latest.Keys && key in latest && key !in keys
    ensures |With(latest, keys + {key}, examine, kind)|
            == |With(latest, keys, examine, kind)| + if IsOf(examine(latest[key]), kind) then 1 else 0
  {
    WithOneMore(latest, keys, key, examine, kind);
    assert key !in With(latest, keys, examine, kind);
  }

  lemma TalliedStep(bad: set<Key>, checked: nat, reviews: nat, pending: nat, key: Key, outcome: Outcome, deleting: bool)
    requires key !in bad
    ensures Tallied(ReportOf(bad, checked, reviews, pending, deleting), key, outcome, deleting)
            == ReportOf(bad + if IsOf(outcome, ToDelete) then {key} else {},
                        checked + if IsOf(outcome, Checked) then 1 else 0,
                        reviews + if IsOf(outcome, ToReview) then 1 else 0,
                        pending + if IsOf(outcome, Waiting) then 1 else 0, deleting)
  {
    if IsOf(outcome, ToDelete) {
      assert |bad + {key}| == |bad| + 1;
    } else {
      assert bad + {} == bad;
    }
  }

  lemma TalliedIsReport(latest: map<Key, Row>, keys: set<Key>, key: Key, examine: Row -> Outcome, deleting: bool)
    requires keys <= latest.Keys && key in latest && key !in keys
    ensures ReportOn(latest, keys + {key}, examine, deleting)
            == Tallied(ReportOn(latest, keys, examine, deleting), key, examine(latest[key]), deleting)
  {
    WithOneMore(latest, keys, key, examine, ToDelete);
    CountOneMore(latest, keys, key, examine, Checked);
    CountOneMore(latest, keys, key, examine, ToReview);
    CountOneMore(latest, keys, key, examine, Waiting);
    TalliedStep(With(latest, keys, examine, ToDelete), |With(latest, keys, examine, Checked)|,
                |With(latest, keys, examine, ToReview)|, |With(latest, keys, examine, Waiting)|,
                key, examine(latest[key]), deleting);
  }

  /** The newest rows still to be judged, among those of `keys`. */
  ghost predicate IsPendingList(pending: seq<Row>, latest: map<Key, Row>, keys: set<Key>, examine: Row -> Outcome) {
    && (forall r :: r in pending ==>
          KeyOf(r) in keys && KeyOf(r) in latest && latest[KeyOf(r)] == r && examine(r).Pending?)
    && (forall k :: k in keys && k in latest && examine(latest[k]).Pending? ==> latest[k] in pending)
  }

  /** What the loop does with one row. */
  method Record(report: Report, pending: seq<Row>, r: Row, outcome: Outcome, deleting: bool)
    returns (report': Report, pending': seq<Row>)
    ensures report' == Tallied(report, KeyOf(r), outcome, deleting)
    ensures pending' == if outcome.Pending? then pending + [r] else pending
  {
    report', pending' := report, pending;
    match outcome {
      case AlbumGone =>
      case Pending =>
        report' := report'.(pending := report'.pending + 1);
        pending' := pending' + [r];
      case Judged(verdict) =>
        report' := report'.(checked := report'.checked + 1);
        if verdict == Review {
          report' := report'.(reviews := report'.reviews + 1);
        } else if verdict == Delete {
          report' := report'.(bad := report'.bad + 1);
          if deleting {
            report' := report'.(deleted := report'.deleted + {KeyOf(r)});
          }
        }
    }
  }

  lemma PendingOneMore(pending: seq<Row>, latest: map<Key, Row>, keys: set<Key>, key: Key, examine: Row -> Outcome)
    requires key in latest && KeyOf(latest[key]) == key
    requires IsPendingList(pending, latest, keys, examine)
    ensures IsPendingList(if examine(latest[key]).Pending? then pending + [latest[key]] else pending,
                          latest, keys + {key}, examine)
  {
  }

  /** The tracks are taken in one arbitrary order; the report does not depend on it. */
  method Judge(latest: map<Key, Row>, examine: Row -> Outcome, deleting: bool)
    returns (report: Report, pending: seq<Row>)
    requires forall k :: k in latest ==> KeyOf(latest[k]) == k
    ensures report == ReportOn(latest, latest.Keys, examine, deleting)
    ensures IsPendingList(pending, latest, latest.Keys, examine)
  {
    report, pending := Report({}, 0, 0, 0, 0), [];
    var todo := latest.Keys;
    ghost var done: set<Key> := {};
    while todo != {}
      invariant done + todo == latest.Keys && done !! todo
      invariant report == ReportOn(latest, done, examine, deleting)
      invariant IsPendingList(pending, latest, done, examine)
    {
      var key :| key in todo;
      var outcome := examine(latest[key]);
      ghost var waiting := pending;
      report, pending := Record(report, pending, latest[key], outcome, deleting);
      TalliedIsReport(latest, done, key, examine, deleting);
      PendingOneMore(waiting, latest, done, key, examine);
      todo, done := todo - {key}, done + {key};
    }
    assert done == latest.Keys;
  }

  // ----- the cursor

  /** Pending rows not yet an hour old. */
  ghost predicate IsRecent(r: Row, examine: Row -> Outcome, askedAt: Row -> real) {
    examine(r).Pending? && r.timestamp > askedAt(r) - PENDING_EXPIRY
  }

  /** One second before the oldest recent pending row, and the cutoff when there is none. */
  ghost predicate IsNextCursor(next: real, latest: map<Key, Row>, examine: Row -> Outcome, askedAt: Row -> real,
                               cutoff: real)
  {
    if exists k :: k in latest && IsRecent(latest[k], examine, askedAt)
    then
      && (exists k :: k in latest && IsRecent(latest[k], examine, askedAt) && next == latest[k].timestamp - 1.0)
      && (forall k :: k in latest && IsRecent(latest[k], examine, askedAt) ==> next <= latest[k].timestamp - 1.0)
    else next == cutoff
  }

  method NextCursor(pending: seq<Row>, latest: map<Key, Row>, examine: Row -> Outcome, askedAt: Row -> real,
                    cutoff: real)
    returns (next: real)
    requires IsPendingList(pending, latest, latest.Keys, examine)
    ensures IsNextCursor(next, latest, examine, askedAt, cutoff)
  {
    var oldest: Option<Row> := None;
    for i := 0 to |pending|
      invariant oldest.None? ==> forall r :: r in pending[..i] ==> !IsRecent(r, examine, askedAt)
      invariant oldest.Some? ==> oldest.value in pending && IsRecent(oldest.value, examine, askedAt)
      invariant oldest.Some? ==>
                  forall r :: r in pending[..i] && IsRecent(r, examine, askedAt) ==>
                    oldest.value.timestamp <= r.timestamp
    {
      var r := pending[i];
      assert pending[..i + 1] == pending[..i] + [r];
      if r.timestamp > askedAt(r) - PENDING_EXPIRY && (oldest.None? || r.timestamp < oldest.value.timestamp) {
        oldest := Some(r);
      }
    }
    assert pending[..|pending|] == pending;
    if oldest.Some? {
      assert IsRecent(latest[KeyOf(oldest.value)], examine, askedAt);
      return oldest.value.timestamp - 1.0;
    }
    return cutoff;
  }

  function Cutoff(start: real, noSettle: bool): real {
    start - if noSettle then 0.0 else SETTLE_SECONDS
  }

  /** A run looks at the rows behind the cursor that are five minutes old, or at all of them that are there
      when it starts if it is told not to wait. */
  lemma LookedAtExactlyWhen(r: Row, table: seq<Row>, cursor: real, start: real, noSettle: bool)
    ensures r in Window(table, cursor, Cutoff(start, noSettle)) <==>
              r in table && cursor < r.timestamp && r.timestamp + (if noSettle then 0.0 else 300.0) <= start
  {
  }

  // ----- runs, one after another

  /** `Idle` is a run that saves no cursor: a dry run, a busy downloader, or a crash on the way. */
  datatype Sweep =
    | Idle
    | Applied(table: seq<Row>, start: real, noSettle: bool, examine: Row -> Outcome, askedAt: Row -> real)

  /** The clock does not run backwards during the run. */
  ghost predicate IsSweep(sweep: Sweep) {
    sweep.Applied? ==> InOrder(sweep.table) && forall r :: sweep.askedAt(r) >= sweep.start
  }

  ghost predicate Saves(cursor: real, sweep: Sweep, next: real) {
    match sweep
    case Idle => next == cursor
    case Applied(table, start, noSettle, examine, askedAt) =>
      var cutoff := Cutoff(start, noSettle);
      IsNextCursor(next, LatestOf(Window(table, cursor, cutoff)), examine, askedAt, cutoff)
  }

  /** `cursor` is what the state file holds. */
  class Auditor {
    var cursor: real

    constructor (cursor: real)
      ensures this.cursor == cursor
    {
      this.cursor := cursor;
    }

    /** `table` holds the successful downloads not deleted since, in the order of their times. */
    method Run(table: seq<Row>, busy: bool, apply: bool, noDelete: bool, noSettle: bool, start: real, w: World,
               tolerance: real)
      returns (report: Report)
      requires InOrder(table)
      modifies this
      ensures Saves(old(cursor),
                    if apply && (!busy || noSettle)
                    then Applied(table, start, noSettle, Examination(w, tolerance), w.askedAt)
                    else Idle,
                    cursor)
      ensures report == if busy && !noSettle then Report({}, 0, 0, 0, 0)
                        else var latest := LatestOf(Window(table, old(cursor), Cutoff(start, noSettle)));
                             ReportOn(latest, latest.Keys, Examination(w, tolerance), apply && !noDelete)
    {
      if busy && !noSettle {
        return Report({}, 0, 0, 0, 0);
      }
      var cutoff := Cutoff(start, noSettle);
      var rows := Window(table, cursor, cutoff);
      LatestIsNewest(rows);
      var latest := Latest(rows);
      var pending;
      report, pending := Judge(latest, Examination(w, tolerance), apply && !noDelete);
      if apply {
        cursor := NextCursor(pending, latest, Examination(w, tolerance), w.askedAt, cutoff);
      }
    }
  }

  /** What becomes of a row newer than the cursor in one run. */
  datatype Fate = Ahead | Withdrawn | Superseded(newer: Row) | Dropped | Settled | Expired | Held

  function FateOf(r: Row, cursor: real, sweep: Sweep): Fate
    requires IsSweep(sweep)
  {
    if sweep.Idle? || r.timestamp > Cutoff(sweep.start, sweep.noSettle) then Ahead
    else
      var rows := Window(sweep.table, cursor, Cutoff(sweep.start, sweep.noSettle));
      LatestIsNewest(rows);
      if r !in rows then Withdrawn
      else if LatestOf(rows)[KeyOf(r)] != r then Superseded(LatestOf(rows)[KeyOf(r)])
      else match sweep.examine(r)
        case AlbumGone => Dropped
        case Judged(_) => Settled
        case Pending => if r.timestamp > sweep.askedAt(r) - PENDING_EXPIRY then Held else Expired
  }

  predicate IsFinal(fate: Fate) {
    !fate.Ahead? && !fate.Held?
  }

  /** No gap: the cursor saved is never past the cutoff. A pending row holds it back for an hour at
      most, and it steps back by less than a second. */
  lemma CursorIsBetween(cursor: real, sweep: Sweep, next: real)
    requires sweep.Applied? && IsSweep(sweep) && Saves(cursor, sweep, next)
    ensures sweep.start - PENDING_EXPIRY - 1.0 < next <= Cutoff(sweep.start, sweep.noSettle)
    ensures cursor <= Cutoff(sweep.start, sweep.noSettle) ==> cursor - 1.0 < next
  {
    var cutoff := Cutoff(sweep.start, sweep.noSettle);
    var rows := Window(sweep.table, cursor, cutoff);
    LatestIsNewest(rows);
    var latest := LatestOf(rows);
    if k :| k in latest && IsRecent(latest[k], sweep.examine, sweep.askedAt) {
      var oldest :| oldest in latest && IsRecent(latest[oldest], sweep.examine, sweep.askedAt)
        && next == latest[oldest].timestamp - 1.0;
      assert latest[oldest] in rows;
    }
  }

  lemma HeldStaysAhead(r: Row, latest: map<Key, Row>, examine: Row -> Outcome, askedAt: Row -> real, cutoff: real,
                       next: real)
    requires KeyOf(r) in latest && latest[KeyOf(r)] == r && IsRecent(r, examine, askedAt)
    requires IsNextCursor(next, latest, examine, askedAt, cutoff)
    ensures next < r.timestamp
  {
    assert IsRecent(latest[KeyOf(r)], examine, askedAt);
  }

  /** Rows that a run has not come to, or holds, stay newer than the cursor it saves. */
  lemma UnfinishedStaysAhead(r: Row, cursor: real, sweep: Sweep, next: real)
    requires IsSweep(sweep) && Saves(cursor, sweep, next) && cursor < r.timestamp
    requires !IsFinal(FateOf(r, cursor, sweep))
    ensures next < r.timestamp
  {
    if sweep.Applied? {
      var cutoff := Cutoff(sweep.start, sweep.noSettle);
      if r.timestamp > cutoff {
        CursorIsBetween(cursor, sweep, next);
      } else {
        var rows := Window(sweep.table, cursor, cutoff);
        LatestIsNewest(rows);
        HeldStaysAhead(r, LatestOf(rows), sweep.examine, sweep.askedAt, cutoff, next);
      }
    }
  }

  /** A superseded row gives way to a row of the same track, no older, that the same run examines: it is
      dropped, judged, expired or held. */
  lemma SupersededByANewerRow(r: Row, cursor: real, sweep: Sweep)
    requires IsSweep(sweep) && FateOf(r, cursor, sweep).Superseded?
    ensures var s := FateOf(r, cursor, sweep).newer;
            && s != r && s in sweep.table && KeyOf(s) == KeyOf(r) && s.timestamp >= r.timestamp
            && FateOf(s, cursor, sweep) in {Dropped, Settled, Expired, Held}
  {
    LatestIsNewest(Window(sweep.table, cursor, Cutoff(sweep.start, sweep.noSettle)));
  }

  /** Every row in a run's window is superseded, dropped, judged, or pending over an hour, or else it
      is held and stays ahead of the cursor. */
  lemma WindowRowIsAccountedFor(r: Row, cursor: real, sweep: Sweep, next: real)
    requires IsSweep(sweep) && sweep.Applied? && Saves(cursor, sweep, next)
    requires r in Window(sweep.table, cursor, Cutoff(sweep.start, sweep.noSettle))
    ensures var fate := FateOf(r, cursor, sweep);
      && (fate.Superseded? || fate in {Dropped, Settled, Expired, Held})
      && (fate == Held ==> next < r.timestamp)
  {
    if FateOf(r, cursor, sweep) == Held {
      UnfinishedStaysAhead(r, cursor, sweep, next);
    }
  }

  /** Every recent pending row is at least a second younger than `r`. */
  ghost predicate RecentAreYounger(r: Row, latest: map<Key, Row>, examine: Row -> Outcome, askedAt: Row -> real) {
    forall k :: k in latest && IsRecent(latest[k], examine, askedAt) ==> r.timestamp + 1.0 <= latest[k].timestamp
  }

  lemma PassedExactlyWhen(r: Row, latest: map<Key, Row>, examine: Row -> Outcome, askedAt: Row -> real, cutoff: real,
                          next: real)
    requires IsNextCursor(next, latest, examine, askedAt, cutoff) && r.timestamp <= cutoff
    ensures r.timestamp <= next <==> RecentAreYounger(r, latest, examine, askedAt)
  {
  }

  /** A pending row falls behind the cursor that is saved exactly if it is an hour old and every
      younger pending row is at least a second younger. */
  lemma PendingIsPassedExactlyWhen(r: Row, cursor: real, sweep: Sweep, next: real)
    requires IsSweep(sweep) && sweep.Applied? && Saves(cursor, sweep, next) && cursor < r.timestamp
    requires FateOf(r, cursor, sweep) == Held || FateOf(r, cursor, sweep) == Expired
    ensures var latest := LatestOf(Window(sweep.table, cursor, Cutoff(sweep.start, sweep.noSettle)));
      r.timestamp <= next <==>
        r.timestamp <= sweep.askedAt(r) - PENDING_EXPIRY && RecentAreYounger(r, latest, sweep.examine, sweep.askedAt)
  {
    var cutoff := Cutoff(sweep.start, sweep.noSettle);
    var latest := LatestOf(Window(sweep.table, cursor, cutoff));
    if FateOf(r, cursor, sweep) == Held {
      UnfinishedStaysAhead(r, cursor, sweep, next);
      assert r.timestamp > sweep.askedAt(r) - PENDING_EXPIRY;
    } else {
      assert r.timestamp <= cutoff && r.timestamp <= sweep.askedAt(r) - PENDING_EXPIRY;
      PassedExactlyWhen(r, latest, sweep.examine, sweep.askedAt, cutoff, next);
    }
  }

  /** A row held by one run is looked at by the next that starts no earlier and waits as long. */
  lemma HeldIsLookedAtNext(r: Row, cursor: real, sweep: Sweep, next: real, later: Sweep)
    requires IsSweep(sweep) && IsSweep(later) && Saves(cursor, sweep, next) && cursor < r.timestamp
    requires FateOf(r, cursor, sweep).Held?
    requires later.Applied? && later.start >= sweep.start && later.noSettle == sweep.noSettle && r in later.table
    ensures r in Window(later.table, next, Cutoff(later.start, later.noSettle))
  {
    UnfinishedStaysAhead(r, cursor, sweep, next);
  }

  /** `cursors[i]` is the cursor before run i. */
  ghost predicate IsHistory(sweeps: seq<Sweep>, cursors: seq<real>) {
    && |cursors| == |sweeps| + 1
    && forall i :: 0 <= i < |sweeps| ==> IsSweep(sweeps[i]) && Saves(cursors[i], sweeps[i], cursors[i + 1])
  }

  ghost predicate FinalIn(r: Row, sweeps: seq<Sweep>, cursors: seq<real>, i: nat)
    requires IsHistory(sweeps, cursors)
  {
    i < |sweeps| && cursors[i] < r.timestamp && IsFinal(FateOf(r, cursors[i], sweeps[i]))
  }

  /** Run `i` came to the row, found it listed, and finished with it: superseded, dropped, judged, or
      pending over an hour. */
  ghost predicate DecidedIn(r: Row, sweeps: seq<Sweep>, cursors: seq<real>, i: nat)
    requires IsHistory(sweeps, cursors)
  {
    FinalIn(r, sweeps, cursors, i) && FateOf(r, cursors[i], sweeps[i]) != Withdrawn
  }

  /** Every run whose cutoff has reached the row finds it in the table. */
  ghost predicate Listed(r: Row, sweeps: seq<Sweep>) {
    forall i :: 0 <= i < |sweeps| && sweeps[i].Applied? ==>
      r.timestamp <= Cutoff(sweeps[i].start, sweeps[i].noSettle) ==> r in sweeps[i].table
  }

  /** Either a row newer than the first cursor is still ahead of the cursor, or some run came to it
      and finished with it. */
  lemma {:induction false} AheadOrFinished(r: Row, sweeps: seq<Sweep>, cursors: seq<real>)
    requires IsHistory(sweeps, cursors) && cursors[0] < r.timestamp
    ensures cursors[|sweeps|] < r.timestamp || exists i :: FinalIn(r, sweeps, cursors, i)
  {
    if sweeps != [] {
      var n := |sweeps| - 1;
      AheadOrFinished(r, sweeps[..n], cursors[..n + 1]);
      if cursors[n] < r.timestamp {
        if IsFinal(FateOf(r, cursors[n], sweeps[n])) {
          assert FinalIn(r, sweeps, cursors, n);
        } else {
          UnfinishedStaysAhead(r, cursors[n], sweeps[n], cursors[n + 1]);
        }
      } else {
        var i :| FinalIn(r, sweeps[..n], cursors[..n + 1], i);
        assert FinalIn(r, sweeps, cursors, i);
      }
    }
  }

  /** No row newer than the first cursor, and listed whenever a run reaches it, is ever passed over:
      it is still ahead of the cursor, or some run has decided on it. */
  lemma NoRowIsPassedOver(r: Row, sweeps: seq<Sweep>, cursors: seq<real>)
    requires IsHistory(sweeps, cursors) && cursors[0] < r.timestamp && Listed(r, sweeps)
    ensures cursors[|sweeps|] < r.timestamp || exists i :: DecidedIn(r, sweeps, cursors, i)
  {
    AheadOrFinished(r, sweeps, cursors);
    if i :| FinalIn(r, sweeps, cursors, i) {
      assert DecidedIn(r, sweeps, cursors, i);
    }
  }

  /** And some run has decided on it once a run that saves its cursor has started an hour after it. */
  lemma EveryRowIsFinishedWithinAnHour(r: Row, sweeps: seq<Sweep>, cursors: seq<real>, n: nat)
    requires IsHistory(sweeps, cursors) && cursors[0] < r.timestamp && Listed(r, sweeps)
    requires n < |sweeps| && sweeps[n].Applied? && sweeps[n].start >= r.timestamp + PENDING_EXPIRY
    ensures exists i: nat :: i <= n && DecidedIn(r, sweeps, cursors, i)
  {
    AheadOrFinished(r, sweeps[..n], cursors[..n + 1]);
    if cursors[n] < r.timestamp {
      assert FinalIn(r, sweeps, cursors, n);
      assert DecidedIn(r, sweeps, cursors, n);
    } else {
      var i :| FinalIn(r, sweeps[..n], cursors[..n + 1], i);
      assert FinalIn(r, sweeps, cursors, i);
      assert DecidedIn(r, sweeps, cursors, i);
    }
  }
}
