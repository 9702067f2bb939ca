/** One track's candidate loop: try candidates in order, hold the first unverified one and the best
    last resort, keep one file or none, and clean up the temporary files of the rest. Everything
    the outside world answers about a candidate is an arbitrary value. */
module TrackDownload {
  import opened Reals
  import opened Wrappers

  // ----- what the world answers about one candidate

  /** The download of one candidate: `Fatal` is a local post-processing error, and `Missing` a
      reported success whose file is not there (`leftover`: other files of it are). */
  datatype Download = Cancelled | Failed | Fatal | Missing(leftover: bool) | Fetched

  datatype Verification = NoAnswer | Verified | Mismatch(sameSong: bool, score: real) | Unverified

  /** Where handling a fetched candidate raises, if anywhere. */
  datatype Failure = Nowhere | BeforeAccepting | WhileAccepting

  datatype Candidate = Candidate(
    skipBefore: bool,
    score: real,
    fromOfficialAlbum: bool,
    live: bool,
    download: Download,
    realSec: real,
    listedSec: real,
    tolerance: real,
    shouldVerify: bool,
    verification: Verification,
    failure: Failure)

  datatype Track = Track(expectedSec: real, willVerify: bool, minMatchScore: real)

  const SHORT_FALLBACK_FRACTION := 0.25

  predicate TooShort(realSec: real, expectedSec: real, listedSec: real, tolerance: real) {
    realSec > 0.0
    && ((expectedSec > 0.0 && realSec < expectedSec - tolerance)
        || (listedSec != 0.0 && realSec < listedSec - tolerance))
  }

  // ----- what the loop makes of it

  /** `Pass`: on to the next candidate, nothing left behind; `Stray`: the same, but leftovers stay;
      `Offer`: a possible last resort; `Hold`: a possible unverified keep; the others end the loop. */
  datatype Verdict =
    | Pass
    | Stray
    | Offer(diff: real)
    | Hold
    | Accept
    | Skip
    | Stop
    | Crash(accepting: bool)
  {
    predicate Ends() {
      Accept? || Skip? || Stop? || Crash?
    }
  }

  function JudgeFile(track: Track, c: Candidate): Verdict {
    var short := TooShort(c.realSec, track.expectedSec, c.listedSec, c.tolerance);
    var closeCut :=
      short && track.expectedSec != 0.0 && c.realSec >= track.expectedSec * (1.0 - SHORT_FALLBACK_FRACTION);
    var diff := Abs(c.realSec - track.expectedSec);
    if short && !closeCut then Pass
    else if c.failure.BeforeAccepting? then Crash(false)
    else if c.shouldVerify && c.verification.Mismatch? && !c.fromOfficialAlbum then
      if track.expectedSec != 0.0 && diff <= track.expectedSec * SHORT_FALLBACK_FRACTION
         && c.verification.score >= 0.9 && c.verification.sameSong then Offer(diff) else Pass
    else if c.shouldVerify && c.verification.Unverified? && !c.fromOfficialAlbum then Hold
    else if closeCut then Offer(diff)
    else if c.failure.WhileAccepting? then Crash(true)
    else Accept
  }

  function Judge(track: Track, c: Candidate): Verdict {
    if c.skipBefore then Skip
    else if !track.willVerify && c.score < track.minMatchScore then Pass
    else if c.live then Pass
    else match c.download
      case Cancelled => Skip
      case Failed => Pass
      case Fatal => Stop
      case Missing(leftover) => if leftover then Stray else Pass
      case Fetched => JudgeFile(track, c)
  }

  /** The candidate's file is reached: nothing stopped it before or during the download, and it was
      not turned away by its score or as a live stream. */
  predicate Reached(track: Track, c: Candidate) {
    !c.skipBefore && (track.willVerify || c.score >= track.minMatchScore) && !c.live && c.download.Fetched?
  }

  /** AcoustID's word on the file, where it is asked and counts. */
  predicate Doubted(c: Candidate) {
    c.shouldVerify && !c.fromOfficialAlbum && (c.verification.Mismatch? || c.verification.Unverified?)
  }

  /** The file lacks more than the tolerance to the length that is expected of it or that was listed, of
      those that are known. */
  predicate IsShort(track: Track, c: Candidate) {
    && c.realSec > 0.0
    && ((track.expectedSec > 0.0 && track.expectedSec - c.realSec > c.tolerance)
        || (c.listedSec != 0.0 && c.listedSec - c.realSec > c.tolerance))
  }

  /** Unless handling it raises, a file is kept outright exactly if it is long enough and nothing
      speaks against it; it is held as unverified exactly if AcoustID had no match for it and it is
      long enough or nearly so; and it is offered as a last resort exactly if it is a slightly short
      cut that nothing speaks against, or another recording, of about the right length, of what
      AcoustID is sure is the same song. */
  lemma VerdictMeaning(track: Track, c: Candidate)
    ensures var short := IsShort(track, c);
      var slightly := track.expectedSec != 0.0 && c.realSec >= track.expectedSec * 0.75;
      var close := track.expectedSec != 0.0 && Abs(c.realSec - track.expectedSec) <= track.expectedSec * 0.25;
      && (Judge(track, c) == Accept <==> Reached(track, c) && !short && !Doubted(c) && c.failure == Nowhere)
      && (Judge(track, c) == Hold <==>
            && Reached(track, c) && (short ==> slightly) && c.failure != BeforeAccepting
            && Doubted(c) && c.verification.Unverified?)
      && (Judge(track, c).Offer? <==>
            && Reached(track, c) && (short ==> slightly) && c.failure != BeforeAccepting
            && if Doubted(c)
               then c.verification.Mismatch? && close && c.verification.sameSong && c.verification.score >= 0.9
               else short)
      && (Judge(track, c).Offer? ==> Judge(track, c).diff == Abs(c.realSec - track.expectedSec))
  {
  }

  /** A candidate that is worth downloading: not turned away by its score or as a live stream. */
  predicate Worth(track: Track, c: Candidate) {
    (track.willVerify || c.score >= track.minMatchScore) && !c.live
  }

  /** What ends the loop other than an acceptance: a request to skip the track, before the candidate or
      during its download; a fatal download error; or an exception, while the file is being
      accepted or before. Leftovers stay behind exactly from a download that has lost its file. */
  lemma LoopEndMeaning(track: Track, c: Candidate)
    ensures var short := IsShort(track, c);
      var slightly := track.expectedSec != 0.0 && c.realSec >= track.expectedSec * 0.75;
      && (Judge(track, c) == Skip <==> c.skipBefore || (Worth(track, c) && c.download.Cancelled?))
      && (Judge(track, c) == Stop <==> !c.skipBefore && Worth(track, c) && c.download.Fatal?)
      && (Judge(track, c) == Stray <==> !c.skipBefore && Worth(track, c) && c.download == Missing(true))
      && (Judge(track, c) == Crash(true) <==>
            Reached(track, c) && !short && !Doubted(c) && c.failure == WhileAccepting)
      && (Judge(track, c) == Crash(false) <==>
            Reached(track, c) && (short ==> slightly) && c.failure == BeforeAccepting)
  {
  }

  function Verdicts(track: Track, candidates: seq<Candidate>): (vs: seq<Verdict>)
    ensures |vs| == |candidates|
  {
    if candidates == [] then []
    else Verdicts(track, candidates[..|candidates| - 1]) + [Judge(track, candidates[|candidates| - 1])]
  }

  lemma {:induction false} VerdictAt(track: Track, candidates: seq<Candidate>, i: nat)
    requires i < |candidates|
    ensures Verdicts(track, candidates)[i] == Judge(track, candidates[i])
  {
    if i < |candidates| - 1 {
      VerdictAt(track, candidates[..|candidates| - 1], i);
    }
  }

  lemma {:induction false} MoreVerdicts(track: Track, candidates: seq<Candidate>, extra: seq<Candidate>)
    ensures Verdicts(track, candidates + extra)[..|candidates|] == Verdicts(track, candidates)
    ensures forall i :: 0 <= i < |candidates| ==>
              Verdicts(track, candidates + extra)[i] == Verdicts(track, candidates)[i]
  {
    if extra == [] {
      assert candidates + extra == candidates;
    } else {
      var all, n := candidates + extra, |extra| - 1;
      MoreVerdicts(track, candidates, extra[..n]);
      assert all[..|all| - 1] == candidates + extra[..n];
    }
  }

  // ----- the history of a loop, read off its verdicts

  /** The position that ends the loop, or the number of verdicts. */
  function FirstEnd(vs: seq<Verdict>): (e: nat)
    ensures e <= |vs| && (e < |vs| ==> vs[e].Ends())
    ensures forall i :: 0 <= i < e ==> !vs[i].Ends()
  {
    if vs == [] then 0
    else
      var e := FirstEnd(vs[..|vs| - 1]);
      if e < |vs| - 1 || vs[|vs| - 1].Ends() then e else |vs|
  }

  /** The first candidate held as unverified. */
  function FirstHeld(vs: seq<Verdict>): (u: Option<nat>)
    ensures u.Some? ==> u.value < |vs| && vs[u.value] == Hold && forall i :: 0 <= i < u.value ==> vs[i] != Hold
    ensures u.None? ==> forall i :: 0 <= i < |vs| ==> vs[i] != Hold
  {
    if vs == [] then None
    else
      var u := FirstHeld(vs[..|vs| - 1]);
      if u.None? && vs[|vs| - 1] == Hold then Some(|vs| - 1) else u
  }

  /** The offered candidate with the smallest length difference, the earliest of several. */
  function BestOffer(vs: seq<Verdict>): (b: Option<nat>)
    ensures b.Some? ==> b.value < |vs| && vs[b.value].Offer?
    ensures b.Some? ==> forall i :: 0 <= i < |vs| && vs[i].Offer? ==>
              vs[b.value].diff <= vs[i].diff && (i < b.value ==> vs[b.value].diff < vs[i].diff)
    ensures b.None? ==> forall i :: 0 <= i < |vs| ==> !vs[i].Offer?
  {
    if vs == [] then None
    else
      var b := BestOffer(vs[..|vs| - 1]);
      var last := vs[|vs| - 1];
      if last.Offer? && (b.None? || vs[b.value].diff > last.diff) then Some(|vs| - 1) else b
  }

  /** The candidates whose leftovers nobody cleans up. */
  function Strays(vs: seq<Verdict>): (s: set<nat>)
    ensures forall i: nat :: i in s <==> i < |vs| && vs[i] == Stray
  {
    if vs == [] then {}
    else Strays(vs[..|vs| - 1]) + if vs[|vs| - 1] == Stray then {|vs| - 1} else {}
  }

  function Files(held: Option<nat>): set<nat> {
    match held
    case None => {}
    case Some(i) => {i}
  }

  // ----- how a track ends

  datatype End = Succeeded(kept: nat) | NotFound | Skipped | Raised

  /** What the world answers once the loop is over: is the held unverified file still there, and if
      not, how does downloading it again end; and does accepting a file raise. */
  datatype After = After(heldFileExists: bool, redownload: Download, raises: bool)

  /** What a loop over `size` candidates leaves: where it ended and by which verdict, if any, and the
      candidates held and strayed by then. */
  datatype Rest = Rest(
    size: nat,
    position: nat,
    last: Option<Verdict>,
    held: Option<nat>,
    best: Option<nat>,
    strays: set<nat>)

  function RestOf(vs: seq<Verdict>): (rest: Rest)
    ensures rest.size == |vs| && rest.position <= |vs|
    ensures rest.held.Some? ==> rest.held.value < |vs|
    ensures rest.last.Some? ==> rest.last.value.Ends()
  {
    var e := FirstEnd(vs);
    Rest(|vs|, e, if e < |vs| then Some(vs[e]) else None, FirstHeld(vs[..e]), BestOffer(vs[..e]), Strays(vs[..e]))
  }

  /** The end of a track, and the temporary files that remain. `scoreOk` says that the unverified
      candidate, if one is held, has a sufficient score. The file of a repeated download counts as
      candidate `size`. */
  function Ending(rest: Rest, scoreOk: bool, after: After): (End, set<nat>) {
    match rest
    case Rest(size, position, last, held, best, strays) =>
      if last == Some(Accept) then (Succeeded(position), strays)
      else if last == Some(Skip) then (Skipped, strays + Files(best))
      else if last == Some(Crash(true)) then (Raised, strays + Files(best) + {position})
      else if last == Some(Crash(false)) then (Raised, strays + Files(held) + Files(best) + {position})
      else if held.None? then
        if best.None? then (NotFound, strays)
        else if after.raises then (Raised, strays + Files(best))
        else (Succeeded(best.value), strays)
      else if !scoreOk then (NotFound, strays + Files(best))
      else if after.heldFileExists then
        if after.raises then (Raised, strays + Files(held) + Files(best))
        else (Succeeded(held.value), strays + Files(best))
      else match after.redownload
        case Cancelled => (Skipped, strays + Files(best))
        case Fetched =>
          if after.raises then (Raised, strays + Files(best) + {size}) else (Succeeded(size), strays + Files(best))
        case _ => (NotFound, strays + Files(best))
  }

  predicate ScoreOk(track: Track, candidates: seq<Candidate>, held: Option<nat>)
    requires held.Some? ==> held.value < |candidates|
  {
    held.Some? ==> candidates[held.value].score >= track.minMatchScore
  }

  function Conclusion(track: Track, candidates: seq<Candidate>, after: After): (End, set<nat>) {
    var rest := RestOf(Verdicts(track, candidates));
    Ending(rest, ScoreOk(track, candidates, rest.held), after)
  }

  /** Candidates found up front, and those a search adds if the first ones run out: the search is
      made at most once, and not after a stop or skip request. */
  datatype Supply = Supply(
    skipAtStart: bool,
    first: seq<Candidate>,
    skipWhenEmpty: bool,
    searched: bool,
    skipAtSearch: bool,
    extra: seq<Candidate>)

  function Tried(track: Track, supply: Supply): seq<Candidate> {
    if FirstEnd(Verdicts(track, supply.first)) < |supply.first| || supply.searched || supply.skipAtSearch
    then supply.first
    else supply.first + supply.extra
  }

  /** How a track ends, from the first look at the skip flag on. */
  function TrackEnd(track: Track, supply: Supply, after: After): (End, set<nat>) {
    if supply.skipAtStart || (supply.first == [] && supply.skipWhenEmpty) then (Skipped, {})
    else if supply.first == [] then (NotFound, {})
    else Conclusion(track, Tried(track, supply), after)
  }

  /** Taking one more verdict into account. */
  lemma OneMore(vs: seq<Verdict>, p: nat)
    requires p < |vs|
    ensures FirstHeld(vs[..p + 1]) == if FirstHeld(vs[..p]).None? && vs[p] == Hold then Some(p) else FirstHeld(vs[..p])
    ensures BestOffer(vs[..p + 1]) ==
            if vs[p].Offer? && (BestOffer(vs[..p]).None? || vs[BestOffer(vs[..p]).value].diff > vs[p].diff) then Some(p)
            else BestOffer(vs[..p])
    ensures Strays(vs[..p + 1]) == Strays(vs[..p]) + if vs[p] == Stray then {p} else {}
  {
    assert vs[..p + 1][..p] == vs[..p];
  }

  // ----- the code

  /** The candidates at hand: those of the supply, with the search results once it was made. */
  ghost predicate AtHand(supply: Supply, candidates: seq<Candidate>, searched: bool) {
    if searched && !supply.searched then candidates == supply.first + supply.extra && !supply.skipAtSearch
    else candidates == supply.first && (searched <==> supply.searched)
  }

  lemma TriedIs(track: Track, supply: Supply, candidates: seq<Candidate>, searched: bool, p: nat)
    requires AtHand(supply, candidates, searched) && p <= |candidates|
    requires searched && !supply.searched ==> p >= |supply.first|
    requires p == |candidates| ==> searched || supply.skipAtSearch
    requires var vs := Verdicts(track, candidates);
      (p < |vs| ==> vs[p].Ends()) && forall i :: 0 <= i < p ==> !vs[i].Ends()
    ensures Tried(track, supply) == candidates && FirstEnd(Verdicts(track, candidates)) == p
  {
    var vs, first := Verdicts(track, candidates), Verdicts(track, supply.first);
    assert FirstEnd(vs) == p;
    if searched && !supply.searched {
      MoreVerdicts(track, supply.first, supply.extra);
      assert forall i :: 0 <= i < |first| ==> first[i] == vs[i];
      assert FirstEnd(first) == |first|;
    }
  }

  /** What the loop has in its hands: the number of candidates, those it holds, the length difference
      of the fallback, and the temporary files on disk. */
  datatype Loop = Loop(
    size: nat,
    heldUnverified: Option<nat>,
    heldFallback: Option<nat>,
    diff: real,
    files: set<nat>)

  /** The held candidates and the files on disk are what the verdicts so far call for. */
  ghost predicate Holds(loop: Loop, vs: seq<Verdict>) {
    && loop.heldUnverified == FirstHeld(vs) && loop.heldFallback == BestOffer(vs)
    && (loop.heldFallback.Some? ==> loop.diff == vs[loop.heldFallback.value].diff)
    && loop.files == Strays(vs) + Files(loop.heldUnverified) + Files(loop.heldFallback)
  }

  /** What the loop leaves for the code behind it. */
  ghost predicate Leaves(loop: Loop, rest: Rest) {
    && loop.size == rest.size && loop.heldUnverified == rest.held && loop.heldFallback == rest.best
    && loop.files == rest.strays + Files(rest.held) + Files(rest.best)
    && (rest.held.Some? ==> rest.held.value !in rest.strays && rest.held != rest.best)
    && (rest.best.Some? ==> rest.best.value !in rest.strays)
  }

  lemma Release(loop: Loop, vs: seq<Verdict>, rest: Rest)
    requires Holds(loop, vs) && loop.size == rest.size
    requires rest.held == FirstHeld(vs) && rest.best == BestOffer(vs) && rest.strays == Strays(vs)
    ensures Leaves(loop, rest)
  {
  }

  /** What is left when held candidates are let go. */
  lemma LetGo(loop: Loop, rest: Rest)
    requires Leaves(loop, rest)
    ensures loop.files - Files(loop.heldUnverified) == rest.strays + Files(rest.best)
    ensures loop.files - Files(loop.heldUnverified) - Files(loop.heldFallback) == rest.strays
    ensures rest.held.None? ==> loop.files - Files(loop.heldFallback) == rest.strays
    ensures rest.held.None? ==> loop.files == rest.strays + Files(rest.best)
    ensures rest.held.None? && rest.best.None? ==> loop.files == rest.strays
  {
  }

  method Assess(track: Track, candidates: seq<Candidate>, p: nat) returns (verdict: Verdict)
    requires p < |candidates|
    ensures verdict == Verdicts(track, candidates)[p]
  {
    VerdictAt(track, candidates, p);
    verdict := Judge(track, candidates[p]);
  }

  /** Hold a last resort, unless one at least as close is held already. */
  method HoldFallback(loop: Loop, ghost vs: seq<Verdict>, p: nat, diff: real) returns (loop': Loop)
    requires p < |vs| && vs[p] == Offer(diff) && Holds(loop, vs[..p])
    ensures Holds(loop', vs[..p + 1]) && loop'.size == loop.size
  {
    OneMore(vs, p);
    if loop.heldFallback.Some? && loop.diff <= diff {
      return loop;
    }
    loop' := loop.(heldFallback := Some(p), diff := diff, files := loop.files - Files(loop.heldFallback) + {p});
    assert vs[..p + 1][p] == Offer(diff);
  }

  /** A candidate that does not end the loop. */
  method TakeIn(loop: Loop, ghost vs: seq<Verdict>, p: nat, verdict: Verdict) returns (loop': Loop)
    requires p < |vs| && vs[p] == verdict && !verdict.Ends() && Holds(loop, vs[..p])
    ensures Holds(loop', vs[..p + 1]) && loop'.size == loop.size
  {
    match verdict {
      case Offer(diff) =>
        loop' := HoldFallback(loop, vs, p, diff);
      case Hold =>
        OneMore(vs, p);
        loop' :=
          if loop.heldUnverified.Some? then loop else loop.(heldUnverified := Some(p), files := loop.files + {p});
      case Stray =>
        OneMore(vs, p);
        loop' := loop.(files := loop.files + {p});
      case _ =>
        OneMore(vs, p);
        loop' := loop;
    }
  }

  /** What holds at every head of the candidate loop: no candidate so far has ended it, and the held
      candidates and the temporary files on disk are what `Holds` says of the verdicts so far. */
  ghost predicate AtLoopHead(track: Track, supply: Supply, candidates: seq<Candidate>, searched: bool,
                             position: nat, loop: Loop)
  {
    var vs := Verdicts(track, candidates);
    && position <= |candidates| == loop.size && AtHand(supply, candidates, searched)
    && (searched && !supply.searched ==> position >= |supply.first|)
    && (forall i :: 0 <= i < position ==> !vs[i].Ends())
    && Holds(loop, vs[..position])
  }

  /** The one search that is made when the candidates run out. */
  method ExtendWithSearch(track: Track, supply: Supply, candidates: seq<Candidate>, searched: bool, loop: Loop)
    returns (candidates': seq<Candidate>, searched': bool, loop': Loop, more: bool)
    requires AtLoopHead(track, supply, candidates, searched, |candidates|, loop)
    ensures AtLoopHead(track, supply, candidates', searched', |candidates|, loop')
    ensures more ==> !searched && searched' && |candidates'| > |candidates|
    ensures !more ==> |candidates'| == |candidates| && (searched' || supply.skipAtSearch)
  {
    if searched || supply.skipAtSearch {
      return candidates, searched, loop, false;
    }
    MoreVerdicts(track, candidates, supply.extra);
    candidates' := candidates + supply.extra;
    ghost var vs, vs' := Verdicts(track, candidates), Verdicts(track, candidates');
    assert vs'[..|candidates|] == vs[..|candidates|];
    return candidates', true, loop.(size := |candidates'|), supply.extra != [];
  }

  /** A candidate at which the loop does not end. */
  method TryCandidate(track: Track, supply: Supply, candidates: seq<Candidate>, searched: bool, position: nat,
                      loop: Loop)
    returns (ended: bool, loop': Loop)
    requires AtLoopHead(track, supply, candidates, searched, position, loop) && position < |candidates|
    ensures ended == Verdicts(track, candidates)[position].Ends()
    ensures if ended then loop' == loop else AtLoopHead(track, supply, candidates, searched, position + 1, loop')
  {
    var verdict := Assess(track, candidates, position);
    if verdict.Ends() {
      return true, loop;
    }
    loop' := TakeIn(loop, Verdicts(track, candidates), position, verdict);
    return false, loop';
  }

  /** The candidate loop. */
  method TryCandidates(track: Track, supply: Supply) returns (position: nat, loop: Loop)
    ensures position == FirstEnd(Verdicts(track, Tried(track, supply)))
    ensures Holds(loop, Verdicts(track, Tried(track, supply))[..position]) && loop.size == |Tried(track, supply)|
  {
    var candidates, searched := supply.first, supply.searched;
    loop, position := Loop(|candidates|, None, None, 0.0, {}), 0;
    while true
      invariant AtLoopHead(track, supply, candidates, searched, position, loop)
      decreases !searched, |candidates| - position
    {
      if position == |candidates| {
        var more;
        candidates, searched, loop, more := ExtendWithSearch(track, supply, candidates, searched, loop);
        if !more {
          break;
        }
        continue;
      }
      var ended;
      ended, loop := TryCandidate(track, supply, candidates, searched, position, loop);
      if ended {
        break;
      }
      position := position + 1;
    }
    TriedIs(track, supply, candidates, searched, position);
  }

  /** What is done when no candidate was accepted outright. */
  method LastResorts(loop: Loop, scoreOk: bool, ghost rest: Rest, after: After) returns (end: End, files: set<nat>)
    requires Leaves(loop, rest) && (rest.last.Some? ==> rest.last.value == Stop)
    ensures (end, files) == Ending(rest, scoreOk, after)
  {
    LetGo(loop, rest);
    if loop.heldFallback.Some? && loop.heldUnverified.None? {
      if after.raises {
        return Raised, loop.files;
      }
      return Succeeded(loop.heldFallback.value), loop.files - Files(loop.heldFallback);
    }
    if loop.heldUnverified.None? {
      return NotFound, loop.files;
    }
    files := loop.files - Files(loop.heldUnverified);
    if !scoreOk {
      return NotFound, files;
    }
    if after.heldFileExists {
      if after.raises {
        return Raised, loop.files;
      }
      return Succeeded(loop.heldUnverified.value), files;
    }
    match after.redownload
    case Cancelled => return Skipped, files;
    case Fetched =>
      if after.raises {
        return Raised, files + {loop.size};
      }
      return Succeeded(loop.size), files;
    case _ => return NotFound, files;
  }

  /** What is done once the loop is over, at `position` and by verdict `last`, if any. */
  method EndLoop(loop: Loop, position: nat, last: Option<Verdict>, scoreOk: bool, ghost rest: Rest, after: After)
    returns (end: End, files: set<nat>)
    requires Leaves(loop, rest) && position == rest.position && last == rest.last
    requires last.Some? ==> last.value.Ends()
    ensures (end, files) == Ending(rest, scoreOk, after)
  {
    LetGo(loop, rest);
    if last.Some? {
      match last.value
      case Accept =>
        // the held unverified candidate is dropped before accepting, the fallback afterwards
        return Succeeded(position), loop.files - Files(loop.heldUnverified) - Files(loop.heldFallback);
      case Skip =>
        return Skipped, loop.files - Files(loop.heldUnverified);
      case Crash(accepting) =>
        return Raised, (if accepting then loop.files - Files(loop.heldUnverified) else loop.files) + {position};
      case _ =>
    }
    end, files := LastResorts(loop, scoreOk, rest, after);
  }

  method EndTrack(track: Track, candidates: seq<Candidate>, position: nat, loop: Loop, after: After)
    returns (end: End, files: set<nat>)
    requires position == FirstEnd(Verdicts(track, candidates)) && loop.size == |candidates|
    requires Holds(loop, Verdicts(track, candidates)[..position])
    ensures (end, files) == Conclusion(track, candidates, after)
  {
    ghost var vs := Verdicts(track, candidates);
    Release(loop, vs[..position], RestOf(vs));
    var last := None;
    if position < |candidates| {
      var verdict := Assess(track, candidates, position);
      last := Some(verdict);
    }
    end, files := EndLoop(loop, position, last, ScoreOk(track, candidates, loop.heldUnverified), RestOf(vs), after);
  }

  /** Search for and download one track; `files` are its temporary files that are left. */
  method ProcessTrack(track: Track, supply: Supply, after: After) returns (end: End, files: set<nat>)
    ensures (end, files) == TrackEnd(track, supply, after)
  {
    if supply.skipAtStart {
      return Skipped, {};
    }
    if supply.first == [] {
      return if supply.skipWhenEmpty then Skipped else NotFound, {};
    }
    var position, loop := TryCandidates(track, supply);
    end, files := EndTrack(track, Tried(track, supply), position, loop, after);
  }

  // ----- what remains on disk

  /** The best last resort was not kept: the track was skipped, or an unverified candidate stood in
      its way. */
  predicate PassedOver(rest: Rest) {
    rest.last == Some(Skip) || (rest.last != Some(Accept) && rest.held.Some?)
  }

  lemma WhatRemains(rest: Rest, scoreOk: bool, after: After)
    requires !Ending(rest, scoreOk, after).0.Raised?
    requires rest.last.Some? ==> rest.last.value.Ends()
    ensures Ending(rest, scoreOk, after).1 == rest.strays + if PassedOver(rest) then Files(rest.best) else {}
  {
  }

  /** On any exit without an exception, what is left beyond strays is at most the file of the best
      last resort, and it is left exactly when there is one and it was passed over. */
  lemma OnlyThePassedOverLastResortRemains(track: Track, candidates: seq<Candidate>, after: After)
    requires !Conclusion(track, candidates, after).0.Raised?
    ensures var rest := RestOf(Verdicts(track, candidates));
      Conclusion(track, candidates, after).1 == rest.strays + if PassedOver(rest) then Files(rest.best) else {}
  {
    var rest := RestOf(Verdicts(track, candidates));
    WhatRemains(rest, ScoreOk(track, candidates, rest.held), after);
  }

  /** The track's directory ends up clean exactly when no download left strays and no last resort
      was passed over. */
  lemma CleanExactlyWhen(track: Track, candidates: seq<Candidate>, after: After)
    requires !Conclusion(track, candidates, after).0.Raised?
    ensures var vs, rest := Verdicts(track, candidates), RestOf(Verdicts(track, candidates));
      Conclusion(track, candidates, after).1 == {} <==>
        (forall i :: 0 <= i < rest.position ==> vs[i] != Stray) && (PassedOver(rest) ==> rest.best.None?)
  {
    var vs := Verdicts(track, candidates);
    OnlyThePassedOverLastResortRemains(track, candidates, after);
    assert forall i: nat :: i < FirstEnd(vs) && vs[i] == Stray ==> i in Strays(vs[..FirstEnd(vs)]);
  }

  /** The first acceptable candidate, with nothing before it to end the loop. */
  ghost predicate IsFirstAccepted(vs: seq<Verdict>, kept: nat) {
    kept < |vs| && vs[kept] == Accept && forall i :: 0 <= i < kept ==> !vs[i].Ends()
  }

  /** The last resort of smallest length difference, the earliest of several, and nothing unverified
      held before the loop ended. */
  ghost predicate IsBestLastResort(vs: seq<Verdict>, kept: nat) {
    && kept < FirstEnd(vs) && vs[kept].Offer? && (forall i :: 0 <= i < FirstEnd(vs) ==> vs[i] != Hold)
    && forall i :: 0 <= i < FirstEnd(vs) && vs[i].Offer? ==>
         vs[kept].diff <= vs[i].diff && (i < kept ==> vs[kept].diff < vs[i].diff)
  }

  ghost predicate IsFirstUnverified(vs: seq<Verdict>, kept: nat) {
    kept < FirstEnd(vs) && vs[kept] == Hold && forall i :: 0 <= i < kept ==> vs[i] != Hold
  }

  lemma LastResortIsBest(vs: seq<Verdict>)
    requires FirstHeld(vs[..FirstEnd(vs)]).None? && BestOffer(vs[..FirstEnd(vs)]).Some?
    ensures IsBestLastResort(vs, BestOffer(vs[..FirstEnd(vs)]).value)
  {
    var tried := vs[..FirstEnd(vs)];
    assert forall i :: 0 <= i < |tried| ==> tried[i] == vs[i];
  }

  lemma HeldIsFirst(vs: seq<Verdict>)
    requires FirstHeld(vs[..FirstEnd(vs)]).Some?
    ensures IsFirstUnverified(vs, FirstHeld(vs[..FirstEnd(vs)]).value)
  {
    var tried := vs[..FirstEnd(vs)];
    assert forall i :: 0 <= i < |tried| ==> tried[i] == vs[i];
  }

  // ----- how a track ends, exactly

  /** The verdict at which the loop ended. */
  ghost predicate EndedBy(vs: seq<Verdict>, verdict: Verdict) {
    exists e :: 0 <= e < |vs| && vs[e] == verdict && verdict.Ends() && forall i :: 0 <= i < e ==> !vs[i].Ends()
  }

  /** The loop tried all candidates without an end, or was stopped by a fatal download error. */
  ghost predicate RanOut(vs: seq<Verdict>) {
    (forall i :: 0 <= i < |vs| ==> !vs[i].Ends()) || EndedBy(vs, Stop)
  }

  lemma RestMeaning(vs: seq<Verdict>)
    ensures forall verdict :: EndedBy(vs, verdict) <==> RestOf(vs).last == Some(verdict)
    ensures RanOut(vs) <==> RestOf(vs).last.None? || RestOf(vs).last == Some(Stop)
    ensures forall k: nat :: IsFirstAccepted(vs, k) <==> RestOf(vs).last == Some(Accept) && RestOf(vs).position == k
    ensures forall k: nat :: IsFirstUnverified(vs, k) <==> RestOf(vs).held == Some(k)
    ensures forall k: nat :: IsBestLastResort(vs, k) <==> RestOf(vs).held.None? && RestOf(vs).best == Some(k)
  {
    var e, tried := FirstEnd(vs), vs[..FirstEnd(vs)];
    assert forall i :: 0 <= i < |tried| ==> tried[i] == vs[i];
    if e < |vs| {
      assert EndedBy(vs, vs[e]);
    }
    if FirstHeld(tried).Some? {
      HeldIsFirst(vs);
    } else if BestOffer(tried).Some? {
      LastResortIsBest(vs);
    }
  }

  /** The first unverified candidate has a sufficient score, but its file is gone. */
  ghost predicate Redownloads(track: Track, candidates: seq<Candidate>, after: After, u: nat) {
    && RanOut(Verdicts(track, candidates)) && IsFirstUnverified(Verdicts(track, candidates), u)
    && candidates[u].score >= track.minMatchScore && !after.heldFileExists
  }

  /** The file that is accepted, unless that raises, once the loop has run out: the best last resort if
      nothing unverified was held, or else the first unverified candidate, if its score suffices and
      its file is still there, or what downloading it again brought. */
  ghost predicate LastChance(track: Track, candidates: seq<Candidate>, after: After, kept: nat) {
    var vs := Verdicts(track, candidates);
    || (RanOut(vs) && IsBestLastResort(vs, kept))
    || (RanOut(vs) && IsFirstUnverified(vs, kept) && candidates[kept].score >= track.minMatchScore
        && after.heldFileExists)
    || (kept == |candidates| && after.redownload.Fetched?
        && exists u: nat :: Redownloads(track, candidates, after, u))
  }

  /** The same, read off what the loop leaves. */
  function ChanceOf(rest: Rest, scoreOk: bool, after: After): Option<nat> {
    if rest.last.Some? && rest.last != Some(Stop) then None
    else if rest.held.None? then rest.best
    else if !scoreOk then None
    else if after.heldFileExists then rest.held
    else if after.redownload.Fetched? then Some(rest.size)
    else None
  }

  predicate Retries(rest: Rest, scoreOk: bool, after: After) {
    (rest.last.None? || rest.last == Some(Stop)) && rest.held.Some? && scoreOk && !after.heldFileExists
  }

  lemma RetriesMeaning(track: Track, candidates: seq<Candidate>, after: After)
    ensures var rest := RestOf(Verdicts(track, candidates));
      Retries(rest, ScoreOk(track, candidates, rest.held), after)
      <==> exists u: nat :: Redownloads(track, candidates, after, u)
  {
    var vs, rest := Verdicts(track, candidates), RestOf(Verdicts(track, candidates));
    RestMeaning(vs);
    if Retries(rest, ScoreOk(track, candidates, rest.held), after) {
      assert Redownloads(track, candidates, after, rest.held.value);
    }
  }

  lemma ChanceMeaning(track: Track, candidates: seq<Candidate>, after: After, kept: nat)
    ensures var rest := RestOf(Verdicts(track, candidates));
      ChanceOf(rest, ScoreOk(track, candidates, rest.held), after) == Some(kept)
      <==> LastChance(track, candidates, after, kept)
  {
    RestMeaning(Verdicts(track, candidates));
    RetriesMeaning(track, candidates, after);
  }

  lemma EndOfRest(rest: Rest, scoreOk: bool, after: After)
    requires rest.last.Some? ==> rest.last.value.Ends()
    ensures var end, chance := Ending(rest, scoreOk, after).0, ChanceOf(rest, scoreOk, after);
      && (forall kept :: end == Succeeded(kept) <==>
            (rest.last == Some(Accept) && kept == rest.position) || (chance == Some(kept) && !after.raises))
      && (end.Skipped? <==> rest.last == Some(Skip) || (Retries(rest, scoreOk, after) && after.redownload.Cancelled?))
      && (end.Raised? <==>
            rest.last == Some(Crash(true)) || rest.last == Some(Crash(false)) || (chance.Some? && after.raises))
  {
  }

  /** A file is kept exactly if it is the first acceptable candidate before the loop is stopped, or it is
      the last chance and accepting it does not raise. */
  lemma KeptExactlyWhen(track: Track, candidates: seq<Candidate>, after: After, kept: nat)
    ensures Conclusion(track, candidates, after).0 == Succeeded(kept) <==>
              || IsFirstAccepted(Verdicts(track, candidates), kept)
              || (LastChance(track, candidates, after, kept) && !after.raises)
  {
    var rest := RestOf(Verdicts(track, candidates));
    RestMeaning(Verdicts(track, candidates));
    ChanceMeaning(track, candidates, after, kept);
    EndOfRest(rest, ScoreOk(track, candidates, rest.held), after);
  }

  /** A track is skipped exactly on a request to skip it: in the loop, or while the first unverified
      candidate is downloaded again. */
  lemma SkippedExactlyWhen(track: Track, candidates: seq<Candidate>, after: After)
    ensures Conclusion(track, candidates, after).0.Skipped? <==>
              || EndedBy(Verdicts(track, candidates), Skip)
              || (after.redownload.Cancelled? && exists u: nat :: Redownloads(track, candidates, after, u))
  {
    var rest := RestOf(Verdicts(track, candidates));
    RestMeaning(Verdicts(track, candidates));
    RetriesMeaning(track, candidates, after);
    EndOfRest(rest, ScoreOk(track, candidates, rest.held), after);
  }

  /** It raises exactly if a candidate does, at which the loop ends, or the acceptance of the last chance. */
  lemma RaisedExactlyWhen(track: Track, candidates: seq<Candidate>, after: After)
    ensures Conclusion(track, candidates, after).0.Raised? <==>
              || EndedBy(Verdicts(track, candidates), Crash(true))
              || EndedBy(Verdicts(track, candidates), Crash(false))
              || (after.raises && exists kept: nat :: LastChance(track, candidates, after, kept))
  {
    var rest := RestOf(Verdicts(track, candidates));
    RestMeaning(Verdicts(track, candidates));
    var chance := ChanceOf(rest, ScoreOk(track, candidates, rest.held), after);
    forall kept: nat
      ensures chance == Some(kept) <==> LastChance(track, candidates, after, kept)
    {
      ChanceMeaning(track, candidates, after, kept);
    }
    EndOfRest(rest, ScoreOk(track, candidates, rest.held), after);
    assert chance.Some? <==> exists kept: nat :: LastChance(track, candidates, after, kept);
  }

  /** It is not found exactly if the loop ran out, there is no last chance, and no skip request came
      while a file was downloaded again. */
  lemma NotFoundExactlyWhen(track: Track, candidates: seq<Candidate>, after: After)
    ensures Conclusion(track, candidates, after).0.NotFound? <==>
              && RanOut(Verdicts(track, candidates))
              && (forall kept: nat :: !LastChance(track, candidates, after, kept))
              && !(after.redownload.Cancelled? && exists u: nat :: Redownloads(track, candidates, after, u))
  {
    var vs := Verdicts(track, candidates);
    RestMeaning(vs);
    SkippedExactlyWhen(track, candidates, after);
    RaisedExactlyWhen(track, candidates, after);
    var rest := RestOf(vs);
    forall kept: nat
      ensures Conclusion(track, candidates, after).0 == Succeeded(kept) <==>
                (rest.last == Some(Accept) && rest.position == kept)
                || (LastChance(track, candidates, after, kept) && !after.raises)
    {
      KeptExactlyWhen(track, candidates, after, kept);
    }
    if Conclusion(track, candidates, after).0.Succeeded? {
      KeptExactlyWhen(track, candidates, after, Conclusion(track, candidates, after).0.kept);
    }
    assert rest.last == Some(Accept) ==> Conclusion(track, candidates, after).0 == Succeeded(rest.position);
  }

  lemma RaisingRestLeaves(rest: Rest, scoreOk: bool, after: After)
    requires rest.last.Some? ==> rest.last.value.Ends()
    requires Ending(rest, scoreOk, after).0.Raised?
    ensures var crash, chance := rest.last.Some? && rest.last.value.Crash?, ChanceOf(rest, scoreOk, after);
      && (crash || chance.Some?)
      && Ending(rest, scoreOk, after).1
         == rest.strays + Files(rest.best) + {if crash then rest.position else chance.value}
            + if rest.last == Some(Crash(false)) then Files(rest.held) else {}
  {
  }

  /** An exception leaves, beyond strays, the file it came from and that of the best last resort; and
      that of the held unverified candidate if it came before the file was being accepted. */
  lemma RaisedLeaves(track: Track, candidates: seq<Candidate>, after: After) returns (file: nat)
    requires Conclusion(track, candidates, after).0.Raised?
    ensures var vs, rest := Verdicts(track, candidates), RestOf(Verdicts(track, candidates));
      && Conclusion(track, candidates, after).1
         == rest.strays + Files(rest.best) + {file} + (if EndedBy(vs, Crash(false)) then Files(rest.held) else {})
      && if EndedBy(vs, Crash(true)) || EndedBy(vs, Crash(false)) then file == FirstEnd(vs)
         else LastChance(track, candidates, after, file)
  {
    var rest := RestOf(Verdicts(track, candidates));
    var scoreOk := ScoreOk(track, candidates, rest.held);
    RaisingRestLeaves(rest, scoreOk, after);
    RestMeaning(Verdicts(track, candidates));
    if rest.last.Some? && rest.last.value.Crash? {
      file := rest.position;
    } else {
      file := ChanceOf(rest, scoreOk, after).value;
      ChanceMeaning(track, candidates, after, file);
    }
  }

  // ----- the whole track

  /** What a search adds is tried exactly if a search is still allowed when no candidate found up front
      has ended the loop. */
  lemma TriedMeaning(track: Track, supply: Supply)
    ensures Tried(track, supply)
            == if !supply.searched && !supply.skipAtSearch
                  && forall i :: 0 <= i < |supply.first| ==> !Judge(track, supply.first[i]).Ends()
               then supply.first + supply.extra
               else supply.first
  {
    forall i | 0 <= i < |supply.first|
      ensures Verdicts(track, supply.first)[i] == Judge(track, supply.first[i])
    {
      VerdictAt(track, supply.first, i);
    }
  }

  /** A track without a candidate, or skipped from the start, ends at once and leaves nothing; any other
      ends the way its loop does. */
  lemma TrackEndMeaning(track: Track, supply: Supply, after: After)
    ensures TrackEnd(track, supply, after)
            == if !supply.skipAtStart && supply.first != [] then Conclusion(track, Tried(track, supply), after)
               else if supply.skipAtStart || supply.skipWhenEmpty then (Skipped, {})
               else (NotFound, {})
  {
  }

  /** The file is not too short by more than a quarter, and AcoustID does not hear another song. */
  predicate Keepable(track: Track, c: Candidate) {
    && c.download.Fetched? && !c.live && !c.skipBefore
    && (IsShort(track, c) ==>
          track.expectedSec != 0.0 && c.realSec >= track.expectedSec * 0.75)
    && (c.shouldVerify && c.verification.Mismatch? && !c.fromOfficialAlbum ==>
          c.verification.sameSong && c.verification.score >= 0.9)
  }

  /** No other candidate's file is ever kept from the loop. */
  lemma BadCandidatesAreNeverKept(track: Track, candidates: seq<Candidate>, after: After)
    requires Conclusion(track, candidates, after).0.Succeeded?
    requires Conclusion(track, candidates, after).0.kept < |candidates|
    ensures Keepable(track, candidates[Conclusion(track, candidates, after).0.kept])
  {
    var vs, kept := Verdicts(track, candidates), Conclusion(track, candidates, after).0.kept;
    KeptExactlyWhen(track, candidates, after, kept);
    var verdict := vs[kept];
    assert verdict == Accept || verdict == Hold || verdict.Offer?;
    VerdictAt(track, candidates, kept);
    VerdictMeaning(track, candidates[kept]);
  }
}
