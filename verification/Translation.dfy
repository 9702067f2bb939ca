/** Splitting batch translation against an arbitrary remote model, as functions.

    The remote side is an arbitrary answer to each numbered request, so every statement holds
    against every remote, adaptive or not. */
module Translation {
  import opened Wrappers

  /** One line of a request. */
  datatype Item = Item(index: nat, content: string)

  /** One element of a reply: well formed, lacking a key, or one whose handling raises. */
  datatype Line =
    | Keyed(index: nat, content: string)
    | Unkeyed
    | Raising

  /** How a request ends: a parsed list, a rate limit (`rotated` says whether another API key was
      available), or any other failure. */
  datatype Answer =
    | Reply(lines: seq<Line>)
    | RateLimited(rotated: bool)
    | Failed

  /** The outside world: the answer to the n-th request, and the direction of a text. */
  datatype World = World(answer: nat -> Answer, rtl: string -> bool)

  /** A reply that was accepted for a batch. */
  datatype Exchange = Exchange(items: seq<Item>, lines: seq<Line>)

  /** The translation so far; `sent` and `accepted` are histories. */
  datatype State = State(
    calls: nat,
    progress: nat,
    texts: seq<string>,
    sent: seq<seq<Item>>,
    accepted: seq<Exchange>)

  datatype Outcome = Outcome(state: State, ok: bool)

  function Mark(world: World, text: string): string {
    if world.rtl(text) then "\U{202b}" + text + "\U{202c}" else text
  }

  /** A text is marked without being altered, and exactly if it runs from right to left. */
  lemma MarkMeaning(world: World, text: string)
    ensures !world.rtl(text) ==> Mark(world, text) == text
    ensures world.rtl(text) ==> |Mark(world, text)| == |text| + 2 && Mark(world, text)[1..|text| + 1] == text
    ensures world.rtl(text) ==> Mark(world, text)[0] == '\U{202b}' && Mark(world, text)[|text| + 1] == '\U{202c}'
  {
  }

  predicate Mentions(batch: seq<Item>, index: nat) {
    exists j :: 0 <= j < |batch| && batch[j].index == index
  }

  predicate InRange(batch: seq<Item>, n: nat) {
    forall j :: 0 <= j < |batch| ==> batch[j].index < n
  }

  /** Write a reply's lines in order; stop at a line without keys, fail at one that raises or
      whose index the batch does not have. */
  function WriteLines(world: World, batch: seq<Item>, lines: seq<Line>, texts: seq<string>): (seq<string>, bool)
    requires InRange(batch, |texts|)
    decreases lines
  {
    if lines == [] || lines[0].Unkeyed? then (texts, true)
    else if lines[0].Raising? || !Mentions(batch, lines[0].index) then (texts, false)
    else WriteLines(world, batch, lines[1..], texts[lines[0].index := Mark(world, lines[0].content)])
  }

  /** What one request does. */
  datatype Attempt =
    | Accepted(state: State)
    | Aborted(state: State)
    | Limited(state: State)
    | Rejected(state: State)

  function Request(world: World, s: State, batch: seq<Item>): Attempt
    requires InRange(batch, |s.texts|)
  {
    var s' := s.(calls := s.calls + 1, sent := s.sent + [batch]);
    match world.answer(s.calls)
    case Failed => Rejected(s')
    case RateLimited(rotated) => if rotated then Limited(s') else Aborted(s')
    case Reply(lines) =>
      var (texts, written) := WriteLines(world, batch, lines, s.texts);
      if !written then Rejected(s'.(texts := texts))
      else if |lines| != |batch| then Rejected(s'.(texts := texts, progress := s.progress + |lines|))
      else Accepted(s'.(texts := texts, progress := s.progress + |lines|,
                        accepted := s.accepted + [Exchange(batch, lines)]))
  }

  lemma {:induction false} WriteLinesKeepsLength(world: World, batch: seq<Item>, lines: seq<Line>, texts: seq<string>)
    requires InRange(batch, |texts|)
    ensures |WriteLines(world, batch, lines, texts).0| == |texts|
    decreases lines
  {
    if lines != [] && lines[0].Keyed? && Mentions(batch, lines[0].index) {
      WriteLinesKeepsLength(world, batch, lines[1..], texts[lines[0].index := Mark(world, lines[0].content)]);
    }
  }

  lemma RequestKeepsLength(world: World, s: State, batch: seq<Item>)
    requires InRange(batch, |s.texts|)
    ensures |Request(world, s, batch).state.texts| == |s.texts|
  {
    if world.answer(s.calls).Reply? {
      WriteLinesKeepsLength(world, batch, world.answer(s.calls).lines, s.texts);
    }
  }

  function FirstHalf(batch: seq<Item>): seq<Item> {
    batch[..|batch| / 2]
  }

  function SecondHalf(batch: seq<Item>): seq<Item> {
    batch[|batch| / 2..]
  }

  /** Translate a batch: resend while rate limited, otherwise split in halves, and resend a single
      line until the retries are used up. */
  function Process(world: World, s: State, batch: seq<Item>, retries: nat): (r: Outcome)
    requires InRange(batch, |s.texts|)
    ensures |r.state.texts| == |s.texts|
    decreases |batch|, retries
  {
    RequestKeepsLength(world, s, batch);
    var attempt := Request(world, s, batch);
    if attempt.Accepted? then Outcome(attempt.state, true)
    else if attempt.Aborted? then Outcome(attempt.state, false)
    else if attempt.Limited? && retries > 0 then Process(world, attempt.state, batch, retries - 1)
    else if |batch| > 1 then
      var first := Process(world, attempt.state, FirstHalf(batch), 3);
      if first.ok then Process(world, first.state, SecondHalf(batch), 3) else first
    else if retries > 0 then Process(world, attempt.state, batch, retries - 1)
    else Outcome(attempt.state, false)
  }

  // ----- which replies are accepted, and what follows

  /** The element is keyed with an index of the batch. */
  predicate Fits(line: Line, batch: seq<Item>) {
    line.Keyed? && Mentions(batch, line.index)
  }

  ghost predicate UnkeyedBy(lines: seq<Line>, j: nat) {
    exists l :: 0 <= l <= j && l < |lines| && lines[l].Unkeyed?
  }

  /** Before the first element without keys, if there is one, every element fits the batch. */
  ghost predicate Legible(lines: seq<Line>, batch: seq<Item>) {
    forall j: nat :: j < |lines| ==> Fits(lines[j], batch) || UnkeyedBy(lines, j)
  }

  ghost predicate Acceptable(answer: Answer, batch: seq<Item>) {
    answer.Reply? && |answer.lines| == |batch| && Legible(answer.lines, batch)
  }

  lemma UnkeyedTail(lines: seq<Line>, j: nat)
    requires j + 1 < |lines| && !lines[0].Unkeyed?
    ensures UnkeyedBy(lines, j + 1) <==> UnkeyedBy(lines[1..], j)
  {
    if UnkeyedBy(lines, j + 1) {
      var l :| 0 <= l <= j + 1 && lines[l].Unkeyed?;
      assert lines[1..][l - 1].Unkeyed?;
    }
    if UnkeyedBy(lines[1..], j) {
      var l :| 0 <= l <= j && lines[1..][l].Unkeyed?;
      assert lines[l + 1].Unkeyed?;
    }
  }

  lemma LegibleTail(lines: seq<Line>, batch: seq<Item>)
    requires lines != [] && Fits(lines[0], batch)
    ensures Legible(lines, batch) <==> Legible(lines[1..], batch)
  {
    forall j: nat | j < |lines| - 1
      ensures Fits(lines[j + 1], batch) || UnkeyedBy(lines, j + 1)
              <==> Fits(lines[1..][j], batch) || UnkeyedBy(lines[1..], j)
    {
      UnkeyedTail(lines, j);
    }
    if Legible(lines[1..], batch) {
      forall j: nat | j < |lines|
        ensures Fits(lines[j], batch) || UnkeyedBy(lines, j)
      {
        if j > 0 {
          assert Fits(lines[1..][j - 1], batch) || UnkeyedBy(lines[1..], j - 1);
        }
      }
    }
  }

  /** A reply is worked through without raising exactly if it is legible. */
  lemma {:induction false} WrittenExactlyWhen(world: World, batch: seq<Item>, lines: seq<Line>, texts: seq<string>)
    requires InRange(batch, |texts|)
    ensures WriteLines(world, batch, lines, texts).1 <==> Legible(lines, batch)
    decreases lines
  {
    if lines != [] && Fits(lines[0], batch) {
      LegibleTail(lines, batch);
      WrittenExactlyWhen(world, batch, lines[1..], texts[lines[0].index := Mark(world, lines[0].content)]);
    }
  }

  /** How each answer is taken. A request is accepted exactly on a legible reply with an element for
      every line of the batch; progress counts every legible reply. */
  lemma AcceptedExactlyWhen(world: World, s: State, batch: seq<Item>)
    requires InRange(batch, |s.texts|)
    ensures var answer, attempt := world.answer(s.calls), Request(world, s, batch);
      && (attempt.Accepted? <==> Acceptable(answer, batch))
      && (attempt.Limited? <==> answer == RateLimited(true))
      && (attempt.Aborted? <==> answer == RateLimited(false))
      && attempt.state.calls == s.calls + 1 && attempt.state.sent == s.sent + [batch]
      && attempt.state.accepted == s.accepted + (if attempt.Accepted? then [Exchange(batch, answer.lines)] else [])
      && attempt.state.progress
         == s.progress + if answer.Reply? && Legible(answer.lines, batch) then |answer.lines| else 0
  {
    if world.answer(s.calls).Reply? {
      WrittenExactlyWhen(world, batch, world.answer(s.calls).lines, s.texts);
    }
  }

  // ----- how many requests a batch costs

  /** The most requests a batch of n lines can cost with a given number of retries. */
  function MaxCalls(n: nat, retries: nat): nat {
    retries + 1 + if n > 1 then 8 * n - 8 else 0
  }

  lemma {:induction false} CallsAreBounded(world: World, s: State, batch: seq<Item>, retries: nat)
    requires InRange(batch, |s.texts|)
    ensures s.calls < Process(world, s, batch, retries).state.calls <= s.calls + MaxCalls(|batch|, retries)
    decreases |batch|, retries
  {
    RequestKeepsLength(world, s, batch);
    var attempt := Request(world, s, batch);
    if attempt.Accepted? || attempt.Aborted? {
    } else if attempt.Limited? && retries > 0 {
      CallsAreBounded(world, attempt.state, batch, retries - 1);
    } else if |batch| > 1 {
      CallsAreBounded(world, attempt.state, FirstHalf(batch), 3);
      var first := Process(world, attempt.state, FirstHalf(batch), 3);
      CallsAreBounded(world, first.state, SecondHalf(batch), 3);
    } else if retries > 0 {
      CallsAreBounded(world, attempt.state, batch, retries - 1);
    }
  }

  /** A batch is done after one request exactly if the first answer is acceptable. */
  lemma DoneAtOnceExactlyWhen(world: World, s: State, batch: seq<Item>, retries: nat)
    requires InRange(batch, |s.texts|)
    ensures var r := Process(world, s, batch, retries);
      r.ok && r.state.calls == s.calls + 1 <==> Acceptable(world.answer(s.calls), batch)
  {
    AcceptedExactlyWhen(world, s, batch);
    RequestKeepsLength(world, s, batch);
    var attempt := Request(world, s, batch);
    if attempt.Limited? && retries > 0 {
      CallsAreBounded(world, attempt.state, batch, retries - 1);
    } else if attempt.Limited? || attempt.Rejected? {
      if |batch| > 1 {
        CallsAreBounded(world, attempt.state, FirstHalf(batch), 3);
        CallsAreBounded(world, Process(world, attempt.state, FirstHalf(batch), 3).state, SecondHalf(batch), 3);
      } else if retries > 0 {
        CallsAreBounded(world, attempt.state, batch, retries - 1);
      }
    }
  }

  /** A fresh batch of n >= 1 lines costs at most 8n - 4 requests, whatever the remote answers. */
  lemma BatchCost(world: World, s: State, batch: seq<Item>)
    requires InRange(batch, |s.texts|) && batch != []
    ensures Process(world, s, batch, 3).state.calls - s.calls <= 8 * |batch| - 4
  {
    CallsAreBounded(world, s, batch, 3);
  }

  /** Without rate limits it costs at most 5n - 1. */
  lemma {:induction false} BatchCostUnlimited(world: World, s: State, batch: seq<Item>, retries: nat)
    requires InRange(batch, |s.texts|) && batch != [] && retries <= 3
    requires forall c :: !world.answer(c).RateLimited?
    ensures Process(world, s, batch, retries).state.calls - s.calls
            <= if |batch| > 1 then 5 * |batch| - 1 else retries + 1
    decreases |batch|, retries
  {
    RequestKeepsLength(world, s, batch);
    var attempt := Request(world, s, batch);
    if attempt.Accepted? {
    } else if |batch| > 1 {
      BatchCostUnlimited(world, attempt.state, FirstHalf(batch), 3);
      var first := Process(world, attempt.state, FirstHalf(batch), 3);
      BatchCostUnlimited(world, first.state, SecondHalf(batch), 3);
    } else if retries > 0 {
      BatchCostUnlimited(world, attempt.state, batch, retries - 1);
    }
  }

  // ----- what a batch writes

  /** The text a reply gives line `k`: the last one before the first element without keys. */
  function Applied(lines: seq<Line>, k: nat): Option<string>
    decreases lines
  {
    if lines == [] || lines[0].Unkeyed? then None
    else
      var later := Applied(lines[1..], k);
      if later.None? && lines[0].Keyed? && lines[0].index == k then Some(lines[0].content) else later
  }

  /** A reply that is worked through without raising sets exactly the lines it gives a text to. */
  lemma {:induction false} WriteLinesMeaning(world: World, batch: seq<Item>, lines: seq<Line>, texts: seq<string>,
                                             k: nat)
    requires InRange(batch, |texts|) && k < |texts| && WriteLines(world, batch, lines, texts).1
    ensures |WriteLines(world, batch, lines, texts).0| == |texts|
    ensures Applied(lines, k).Some? ==> Mentions(batch, k)
    ensures WriteLines(world, batch, lines, texts).0[k] ==
            match Applied(lines, k) case Some(c) => Mark(world, c) case None => texts[k]
    decreases lines
  {
    if lines != [] && lines[0].Keyed? {
      var i := lines[0].index;
      WriteLinesMeaning(world, batch, lines[1..], texts[i := Mark(world, lines[0].content)], k);
    }
  }

  /** A reply that raises has been written up to the element that raises, the first that does not fit. */
  lemma {:induction false} RaisingReplyIsWrittenInPart(world: World, batch: seq<Item>, lines: seq<Line>,
                                                       texts: seq<string>)
    returns (p: nat)
    requires InRange(batch, |texts|) && !WriteLines(world, batch, lines, texts).1
    ensures p < |lines| && !lines[p].Unkeyed? && !Fits(lines[p], batch)
    ensures forall j :: 0 <= j < p ==> Fits(lines[j], batch)
    ensures WriteLines(world, batch, lines[..p], texts) == (WriteLines(world, batch, lines, texts).0, true)
    decreases lines
  {
    if Fits(lines[0], batch) {
      var rest, texts' := lines[1..], texts[lines[0].index := Mark(world, lines[0].content)];
      var q := RaisingReplyIsWrittenInPart(world, batch, rest, texts');
      p := q + 1;
      assert lines[..p][1..] == rest[..q];
    } else {
      p := 0;
    }
  }

  /** Even a reply that raises half-way touches no line outside the batch. */
  lemma {:induction false} WriteLinesFrame(world: World, batch: seq<Item>, lines: seq<Line>, texts: seq<string>, k: nat)
    requires InRange(batch, |texts|) && k < |texts| && !Mentions(batch, k)
    ensures |WriteLines(world, batch, lines, texts).0| == |texts|
    ensures WriteLines(world, batch, lines, texts).0[k] == texts[k]
    decreases lines
  {
    if lines != [] && lines[0].Keyed? && Mentions(batch, lines[0].index) {
      WriteLinesFrame(world, batch, lines[1..], texts[lines[0].index := Mark(world, lines[0].content)], k);
    }
  }

  lemma HalvesMention(batch: seq<Item>, k: nat)
    ensures Mentions(batch, k) <==> Mentions(FirstHalf(batch), k) || Mentions(SecondHalf(batch), k)
  {
    var m := |batch| / 2;
    if Mentions(batch, k) {
      var j :| 0 <= j < |batch| && batch[j].index == k;
      if j < m { assert FirstHalf(batch)[j].index == k; } else { assert SecondHalf(batch)[j - m].index == k; }
    }
    if Mentions(FirstHalf(batch), k) {
      var j :| 0 <= j < m && FirstHalf(batch)[j].index == k;
      assert batch[j].index == k;
    }
    if Mentions(SecondHalf(batch), k) {
      var j :| 0 <= j < |batch| - m && SecondHalf(batch)[j].index == k;
      assert batch[m + j].index == k;
    }
  }

  /** A batch writes only its own lines, whether it succeeds or fails. */
  lemma {:induction false} ProcessFrame(world: World, s: State, batch: seq<Item>, retries: nat, k: nat)
    requires InRange(batch, |s.texts|) && k < |s.texts| && !Mentions(batch, k)
    ensures Process(world, s, batch, retries).state.texts[k] == s.texts[k]
    decreases |batch|, retries
  {
    RequestKeepsLength(world, s, batch);
    var attempt := Request(world, s, batch);
    if world.answer(s.calls).Reply? {
      WriteLinesFrame(world, batch, world.answer(s.calls).lines, s.texts, k);
    }
    if attempt.Accepted? || attempt.Aborted? {
    } else if attempt.Limited? && retries > 0 {
      ProcessFrame(world, attempt.state, batch, retries - 1, k);
    } else if |batch| > 1 {
      HalvesMention(batch, k);
      ProcessFrame(world, attempt.state, FirstHalf(batch), 3, k);
      var first := Process(world, attempt.state, FirstHalf(batch), 3);
      ProcessFrame(world, first.state, SecondHalf(batch), 3, k);
    } else if retries > 0 {
      ProcessFrame(world, attempt.state, batch, retries - 1, k);
    }
  }

  /** The lines of a list of accepted exchanges, in order. */
  function AcceptedItems(exchanges: seq<Exchange>): seq<Item> {
    if exchanges == [] then []
    else AcceptedItems(exchanges[..|exchanges| - 1]) + exchanges[|exchanges| - 1].items
  }

  /** What has been accepted grew from `before` by a prefix of `batch`, all of it if `ok`. */
  predicate Delivered(before: seq<Item>, after: seq<Item>, batch: seq<Item>, ok: bool) {
    before <= after <= before + batch && (ok ==> after == before + batch)
  }

  lemma RequestDelivers(world: World, s: State, batch: seq<Item>)
    requires InRange(batch, |s.texts|)
    ensures var attempt := Request(world, s, batch);
      AcceptedItems(attempt.state.accepted) == AcceptedItems(s.accepted) + if attempt.Accepted? then batch else []
  {
    if Request(world, s, batch).Accepted? {
      var e := Exchange(batch, world.answer(s.calls).lines);
      assert (s.accepted + [e])[..|s.accepted|] == s.accepted;
    }
  }

  lemma HalvesDeliver(before: seq<Item>, middle: seq<Item>, after: seq<Item>, batch: seq<Item>, ok: bool, ok': bool)
    requires Delivered(before, middle, FirstHalf(batch), ok)
    requires if ok then Delivered(middle, after, SecondHalf(batch), ok') else after == middle && !ok'
    ensures Delivered(before, after, batch, ok')
  {
    assert batch == FirstHalf(batch) + SecondHalf(batch);
    assert before + FirstHalf(batch) + SecondHalf(batch) == before + batch;
  }

  /** The requests accepted for a batch, one after the other, are the batch itself when it
      succeeds, and a prefix of it when it fails. */
  lemma {:induction false} AcceptedInOrder(world: World, s: State, batch: seq<Item>, retries: nat)
    requires InRange(batch, |s.texts|)
    ensures var r := Process(world, s, batch, retries);
      Delivered(AcceptedItems(s.accepted), AcceptedItems(r.state.accepted), batch, r.ok)
    decreases |batch|, retries
  {
    RequestKeepsLength(world, s, batch);
    RequestDelivers(world, s, batch);
    var attempt := Request(world, s, batch);
    if attempt.Accepted? || attempt.Aborted? {
    } else if attempt.Limited? && retries > 0 {
      AcceptedInOrder(world, attempt.state, batch, retries - 1);
    } else if |batch| > 1 {
      AcceptedInOrder(world, attempt.state, FirstHalf(batch), 3);
      var first := Process(world, attempt.state, FirstHalf(batch), 3);
      AcceptedInOrder(world, first.state, SecondHalf(batch), 3);
      var r := Process(world, s, batch, retries);
      HalvesDeliver(AcceptedItems(s.accepted), AcceptedItems(first.state.accepted), AcceptedItems(r.state.accepted),
                    batch, first.ok, r.ok);
    } else if retries > 0 {
      AcceptedInOrder(world, attempt.state, batch, retries - 1);
    }
  }

  /** `part` is a run of consecutive lines of `batch`. */
  ghost predicate IsRun(part: seq<Item>, batch: seq<Item>) {
    exists i, j :: 0 <= i <= j <= |batch| && part == batch[i..j]
  }

  lemma SliceOfSlice(batch: seq<Item>, m: nat, n: nat, i: nat, j: nat)
    requires m <= n <= |batch| && i <= j <= n - m
    ensures batch[m..n][i..j] == batch[m + i..m + j]
  {
    var a, b := batch[m..n][i..j], batch[m + i..m + j];
    assert forall k :: 0 <= k < j - i ==> a[k] == b[k];
    assert a == b;
  }

  lemma HalvesAreRuns(part: seq<Item>, batch: seq<Item>)
    requires IsRun(part, FirstHalf(batch)) || IsRun(part, SecondHalf(batch))
    ensures IsRun(part, batch)
  {
    var m := |batch| / 2;
    if IsRun(part, FirstHalf(batch)) {
      var i, j :| 0 <= i <= j <= m && part == FirstHalf(batch)[i..j];
      assert FirstHalf(batch) == batch[0..m];
      SliceOfSlice(batch, 0, m, i, j);
      assert part == batch[i..j];
    } else {
      var i, j :| 0 <= i <= j <= |batch| - m && part == SecondHalf(batch)[i..j];
      assert SecondHalf(batch) == batch[m..|batch|];
      SliceOfSlice(batch, m, |batch|, i, j);
      assert part == batch[m + i..m + j];
    }
  }

  /** Every request sent for a batch is a run of its lines, unaltered, and every call is logged. */
  lemma {:induction false} RequestsAreRuns(world: World, s: State, batch: seq<Item>, retries: nat)
    requires InRange(batch, |s.texts|)
    ensures var r := Process(world, s, batch, retries).state;
      && s.sent <= r.sent && |r.sent| - |s.sent| == r.calls - s.calls
      && forall j :: |s.sent| <= j < |r.sent| ==> IsRun(r.sent[j], batch)
    decreases |batch|, retries
  {
    RequestKeepsLength(world, s, batch);
    assert batch == batch[0..|batch|];
    var attempt := Request(world, s, batch);
    if attempt.Accepted? || attempt.Aborted? {
    } else if attempt.Limited? && retries > 0 {
      RequestsAreRuns(world, attempt.state, batch, retries - 1);
    } else if |batch| > 1 {
      RequestsAreRuns(world, attempt.state, FirstHalf(batch), 3);
      var first := Process(world, attempt.state, FirstHalf(batch), 3);
      RequestsAreRuns(world, first.state, SecondHalf(batch), 3);
      var r := Process(world, s, batch, retries).state;
      forall j | |s.sent| <= j < |r.sent|
        ensures IsRun(r.sent[j], batch)
      {
        if j > |s.sent| { HalvesAreRuns(r.sent[j], batch); }
      }
    } else if retries > 0 {
      RequestsAreRuns(world, attempt.state, batch, retries - 1);
    }
  }

  // ----- when a batch fails

  /** A rate limit with no other key left ends the batch there and then, and fails it. */
  lemma {:induction false} AbortEnds(world: World, s: State, batch: seq<Item>, retries: nat, c: nat)
    requires InRange(batch, |s.texts|)
    requires s.calls <= c < Process(world, s, batch, retries).state.calls && world.answer(c) == RateLimited(false)
    ensures var r := Process(world, s, batch, retries); !r.ok && c == r.state.calls - 1
    decreases |batch|, retries
  {
    AcceptedExactlyWhen(world, s, batch);
    RequestKeepsLength(world, s, batch);
    var attempt := Request(world, s, batch);
    if attempt.Accepted? || attempt.Aborted? {
    } else if attempt.Limited? && retries > 0 {
      AbortEnds(world, attempt.state, batch, retries - 1, c);
    } else if |batch| > 1 {
      var first := Process(world, attempt.state, FirstHalf(batch), 3);
      if c < first.state.calls {
        AbortEnds(world, attempt.state, FirstHalf(batch), 3, c);
      } else {
        AbortEnds(world, first.state, SecondHalf(batch), 3, c);
      }
    } else if retries > 0 {
      AbortEnds(world, attempt.state, batch, retries - 1, c);
    }
  }

  /** The last `n` requests were all for the line `item`, and none of their answers was acceptable. */
  ghost predicate GaveUpOn(world: World, r: State, n: nat, item: Item) {
    && n <= |r.sent| && n <= r.calls
    && (forall j :: |r.sent| - n <= j < |r.sent| ==> r.sent[j] == [item])
    && (forall c :: r.calls - n <= c < r.calls ==> !Acceptable(world.answer(c), [item]))
  }

  /** Why a batch failed: no key was left, or the same line was sent `n` times in vain. */
  ghost predicate Failure(world: World, r: State, n: nat, batch: seq<Item>) {
    || (r.calls > 0 && world.answer(r.calls - 1) == RateLimited(false))
    || exists item :: item in batch && GaveUpOn(world, r, n, item)
  }

  lemma {:induction false} LineFails(world: World, s: State, item: Item, retries: nat)
    requires item.index < |s.texts| && !Process(world, s, [item], retries).ok
    ensures var r := Process(world, s, [item], retries).state;
      || (r.calls > 0 && world.answer(r.calls - 1) == RateLimited(false))
      || (GaveUpOn(world, r, retries + 1, item) && r.calls == s.calls + retries + 1)
    decreases retries
  {
    var batch := [item];
    AcceptedExactlyWhen(world, s, batch);
    RequestKeepsLength(world, s, batch);
    var attempt := Request(world, s, batch);
    if !attempt.Aborted? && retries > 0 {
      LineFails(world, attempt.state, item, retries - 1);
      RequestsAreRuns(world, attempt.state, batch, retries - 1);
      var r := Process(world, s, batch, retries).state;
      assert r.sent[|s.sent|] == attempt.state.sent[|s.sent|] == batch;
    }
  }

  lemma FailureOfMore(world: World, r: State, n: nat, part: seq<Item>, batch: seq<Item>)
    requires Failure(world, r, n, part) && forall item :: item in part ==> item in batch
    ensures Failure(world, r, n, batch)
  {
  }

  /** A batch fails only because no key is left, or because some one line of it has been sent as
      often as a line may be, four times for a line split off, and every answer was in vain. */
  lemma {:induction false} FailsOnlyFor(world: World, s: State, batch: seq<Item>, retries: nat)
    requires InRange(batch, |s.texts|) && batch != [] && !Process(world, s, batch, retries).ok
    ensures Failure(world, Process(world, s, batch, retries).state, if |batch| > 1 then 4 else retries + 1, batch)
    decreases |batch|, retries
  {
    AcceptedExactlyWhen(world, s, batch);
    RequestKeepsLength(world, s, batch);
    var attempt := Request(world, s, batch);
    if |batch| == 1 {
      assert batch == [batch[0]];
      LineFails(world, s, batch[0], retries);
    } else if attempt.Aborted? {
    } else if attempt.Limited? && retries > 0 {
      FailsOnlyFor(world, attempt.state, batch, retries - 1);
    } else {
      var first := Process(world, attempt.state, FirstHalf(batch), 3);
      var part := if first.ok then SecondHalf(batch) else FirstHalf(batch);
      FailsOnlyFor(world, if first.ok then first.state else attempt.state, part, 3);
      FailureOfMore(world, Process(world, s, batch, retries).state, 4, part, batch);
    }
  }

  /** The progress counter never goes back, and a batch that succeeds has been counted in full; it
      may count more, since replies of the wrong length are counted before they are rejected. */
  lemma {:induction false} ProgressCoversTheBatch(world: World, s: State, batch: seq<Item>, retries: nat)
    requires InRange(batch, |s.texts|)
    ensures var r := Process(world, s, batch, retries);
      r.state.progress >= s.progress + if r.ok then |batch| else 0
    decreases |batch|, retries
  {
    RequestKeepsLength(world, s, batch);
    var attempt := Request(world, s, batch);
    if attempt.Accepted? || attempt.Aborted? {
    } else if attempt.Limited? && retries > 0 {
      ProgressCoversTheBatch(world, attempt.state, batch, retries - 1);
    } else if |batch| > 1 {
      ProgressCoversTheBatch(world, attempt.state, FirstHalf(batch), 3);
      var first := Process(world, attempt.state, FirstHalf(batch), 3);
      ProgressCoversTheBatch(world, first.state, SecondHalf(batch), 3);
    } else if retries > 0 {
      ProgressCoversTheBatch(world, attempt.state, batch, retries - 1);
    }
  }

  // ----- every accepted line keeps its text

  ghost predicate DistinctIndices(batch: seq<Item>) {
    forall i, j :: 0 <= i < j < |batch| ==> batch[i].index != batch[j].index
  }

  lemma {:induction false} AcceptedGrows(world: World, s: State, batch: seq<Item>, retries: nat)
    requires InRange(batch, |s.texts|)
    ensures s.accepted <= Process(world, s, batch, retries).state.accepted
    decreases |batch|, retries
  {
    RequestKeepsLength(world, s, batch);
    var attempt := Request(world, s, batch);
    if attempt.Accepted? || attempt.Aborted? {
    } else if attempt.Limited? && retries > 0 {
      AcceptedGrows(world, attempt.state, batch, retries - 1);
    } else if |batch| > 1 {
      AcceptedGrows(world, attempt.state, FirstHalf(batch), 3);
      AcceptedGrows(world, Process(world, attempt.state, FirstHalf(batch), 3).state, SecondHalf(batch), 3);
    } else if retries > 0 {
      AcceptedGrows(world, attempt.state, batch, retries - 1);
    }
  }

  lemma HalvesAreDisjoint(batch: seq<Item>, k: nat)
    requires DistinctIndices(batch) && Mentions(FirstHalf(batch), k)
    ensures !Mentions(SecondHalf(batch), k)
  {
    var m := |batch| / 2;
    var i :| 0 <= i < m && FirstHalf(batch)[i].index == k;
    assert batch[i].index == k;
    forall j | 0 <= j < |batch| - m
      ensures SecondHalf(batch)[j].index != k
    {
      assert SecondHalf(batch)[j] == batch[m + j];
    }
  }

  /** Translating the second half leaves the lines of the first alone. */
  lemma SecondHalfKeeps(world: World, s: State, batch: seq<Item>, k: nat)
    requires InRange(SecondHalf(batch), |s.texts|) && DistinctIndices(batch) && k < |s.texts|
    requires Mentions(FirstHalf(batch), k)
    ensures Process(world, s, SecondHalf(batch), 3).state.texts[k] == s.texts[k]
  {
    HalvesAreDisjoint(batch, k);
    ProcessFrame(world, s, SecondHalf(batch), 3, k);
  }

  lemma AcceptedTextIsWritten(world: World, s: State, batch: seq<Item>, p: nat, k: nat)
    requires InRange(batch, |s.texts|) && k < |s.texts| && Request(world, s, batch).Accepted?
    requires |s.accepted| <= p < |Request(world, s, batch).state.accepted|
    requires Applied(Request(world, s, batch).state.accepted[p].lines, k).Some?
    ensures Mentions(batch, k)
    ensures var r := Request(world, s, batch).state;
      |r.texts| == |s.texts| && r.texts[k] == Mark(world, Applied(r.accepted[p].lines, k).value)
  {
    WriteLinesMeaning(world, batch, world.answer(s.calls).lines, s.texts, k);
  }

  /** In the end every line has the text its accepted reply gave it: no later request, retry or
      failed reply overwrites it. */
  lemma {:induction false} AcceptedTextStays(world: World, s: State, batch: seq<Item>, retries: nat, p: nat, k: nat)
    requires InRange(batch, |s.texts|) && DistinctIndices(batch) && k < |s.texts|
    requires |s.accepted| <= p < |Process(world, s, batch, retries).state.accepted|
    requires Applied(Process(world, s, batch, retries).state.accepted[p].lines, k).Some?
    ensures Mentions(batch, k)
    ensures var r := Process(world, s, batch, retries).state;
      r.texts[k] == Mark(world, Applied(r.accepted[p].lines, k).value)
    decreases |batch|, retries
  {
    RequestKeepsLength(world, s, batch);
    var attempt := Request(world, s, batch);
    if attempt.Accepted? {
      AcceptedTextIsWritten(world, s, batch, p, k);
    } else if attempt.Aborted? {
    } else if attempt.Limited? && retries > 0 {
      AcceptedTextStays(world, attempt.state, batch, retries - 1, p, k);
    } else if |batch| > 1 {
      HalvesMention(batch, k);
      var first := Process(world, attempt.state, FirstHalf(batch), 3);
      AcceptedGrows(world, attempt.state, FirstHalf(batch), 3);
      AcceptedGrows(world, first.state, SecondHalf(batch), 3);
      if p < |first.state.accepted| {
        AcceptedTextStays(world, attempt.state, FirstHalf(batch), 3, p, k);
        SecondHalfKeeps(world, first.state, batch, k);
      } else {
        AcceptedTextStays(world, first.state, SecondHalf(batch), 3, p, k);
      }
    } else if retries > 0 {
      AcceptedTextStays(world, attempt.state, batch, retries - 1, p, k);
    }
  }

  function LineIndices(lines: seq<Line>): seq<nat>
    requires forall j :: 0 <= j < |lines| ==> lines[j].Keyed?
  {
    seq(|lines|, j requires 0 <= j < |lines| => lines[j].index)
  }

  function ItemIndices(items: seq<Item>): seq<nat> {
    seq(|items|, j requires 0 <= j < |items| => items[j].index)
  }

  /** The reply answers each line of the batch once, in whatever order. */
  ghost predicate Permutes(e: Exchange) {
    && (forall j :: 0 <= j < |e.lines| ==> e.lines[j].Keyed?)
    && multiset(LineIndices(e.lines)) == multiset(ItemIndices(e.items))
  }

  predicate HasIndex(line: Line, index: nat) {
    line.Keyed? && line.index == index
  }

  /** Some line of the reply is keyed with the index. */
  ghost predicate Occurs(index: nat, lines: seq<Line>) {
    exists j :: 0 <= j < |lines| && HasIndex(lines[j], index)
  }

  lemma {:induction false} AppliedIsInReply(lines: seq<Line>, k: nat)
    ensures Applied(lines, k).Some? ==> Keyed(k, Applied(lines, k).value) in lines
    ensures (forall j :: 0 <= j < |lines| ==> lines[j].Keyed?) && Occurs(k, lines) ==> Applied(lines, k).Some?
  {
    if lines != [] {
      AppliedIsInReply(lines[1..], k);
    }
  }

  lemma PermutationAppliesToAll(e: Exchange, k: nat)
    requires Permutes(e) && Mentions(e.items, k)
    ensures Applied(e.lines, k).Some? && Keyed(k, Applied(e.lines, k).value) in e.lines
  {
    var j :| 0 <= j < |e.items| && e.items[j].index == k;
    assert ItemIndices(e.items)[j] == k;
    assert k in multiset(LineIndices(e.lines));
    var i :| 0 <= i < |e.lines| && LineIndices(e.lines)[i] == k;
    assert HasIndex(e.lines[i], k);
    AppliedIsInReply(e.lines, k);
  }

  lemma OccursStill(index: nat, lines: seq<Line>, j: nat)
    requires Occurs(index, lines) && j < |lines| && !HasIndex(lines[j], index)
    ensures Occurs(index, lines[..j] + lines[j + 1..])
  {
    var l :| 0 <= l < |lines| && HasIndex(lines[l], index);
    assert (lines[..j] + lines[j + 1..])[if l < j then l else l - 1] == lines[l];
  }

  lemma PutBack(lines: seq<Line>, j: nat)
    requires j < |lines| && lines[j].Keyed?
    requires var rest := lines[..j] + lines[j + 1..]; forall l :: 0 <= l < |rest| ==> rest[l].Keyed?
    ensures forall l :: 0 <= l < |lines| ==> lines[l].Keyed?
    ensures multiset(LineIndices(lines))
            == multiset(LineIndices(lines[..j] + lines[j + 1..])) + multiset{lines[j].index}
  {
    var rest := lines[..j] + lines[j + 1..];
    forall l | 0 <= l < |lines|
      ensures lines[l].Keyed?
    {
      if l != j {
        assert lines[l] == rest[if l < j then l else l - 1];
      }
    }
    var a, b := LineIndices(lines)[..j], LineIndices(lines)[j + 1..];
    assert LineIndices(lines) == a + [lines[j].index] + b;
    assert LineIndices(rest) == a + b;
  }

  /** Distinct indices that all occur in a reply no longer than their number fill it. */
  lemma {:induction false} Pigeonhole(indices: seq<nat>, lines: seq<Line>)
    requires forall i, j :: 0 <= i < j < |indices| ==> indices[i] != indices[j]
    requires forall i :: 0 <= i < |indices| ==> Occurs(indices[i], lines)
    requires |lines| <= |indices|
    ensures forall j :: 0 <= j < |lines| ==> lines[j].Keyed?
    ensures multiset(LineIndices(lines)) == multiset(indices)
    decreases |indices|
  {
    if indices != [] {
      var n := |indices| - 1;
      assert Occurs(indices[n], lines);
      var j: nat :| j < |lines| && HasIndex(lines[j], indices[n]);
      forall i | 0 <= i < n
        ensures Occurs(indices[..n][i], lines[..j] + lines[j + 1..])
      {
        OccursStill(indices[i], lines, j);
      }
      Pigeonhole(indices[..n], lines[..j] + lines[j + 1..]);
      PutBack(lines, j);
      assert indices == indices[..n] + [indices[n]];
    }
  }

  /** A reply of the right length gives every line of its batch a text exactly if it answers each
      line once. */
  lemma PermutesExactlyWhen(e: Exchange)
    requires DistinctIndices(e.items) && |e.lines| == |e.items|
    ensures Permutes(e) <==> forall k: nat :: Mentions(e.items, k) ==> Applied(e.lines, k).Some?
  {
    if Permutes(e) {
      forall k: nat | Mentions(e.items, k)
        ensures Applied(e.lines, k).Some?
      {
        PermutationAppliesToAll(e, k);
      }
    }
    if forall k: nat :: Mentions(e.items, k) ==> Applied(e.lines, k).Some? {
      var indices := ItemIndices(e.items);
      forall i | 0 <= i < |indices|
        ensures Occurs(indices[i], e.lines)
      {
        assert Mentions(e.items, indices[i]) by {
          assert e.items[i].index == indices[i];
        }
        AppliedIsInReply(e.lines, indices[i]);
        var j :| 0 <= j < |e.lines| && e.lines[j] == Keyed(indices[i], Applied(e.lines, indices[i]).value);
        assert HasIndex(e.lines[j], indices[i]);
      }
      Pigeonhole(indices, e.lines);
    }
  }

  /** Accepted replies have as many elements as their batch has lines. */
  ghost predicate WellSized(exchanges: seq<Exchange>) {
    forall p :: 0 <= p < |exchanges| ==> |exchanges[p].lines| == |exchanges[p].items|
  }

  lemma {:induction false} ProcessKeepsSizes(world: World, s: State, batch: seq<Item>, retries: nat)
    requires InRange(batch, |s.texts|) && WellSized(s.accepted)
    ensures WellSized(Process(world, s, batch, retries).state.accepted)
    decreases |batch|, retries
  {
    RequestKeepsLength(world, s, batch);
    var attempt := Request(world, s, batch);
    if attempt.Accepted? || attempt.Aborted? {
    } else if attempt.Limited? && retries > 0 {
      ProcessKeepsSizes(world, attempt.state, batch, retries - 1);
    } else if |batch| > 1 {
      ProcessKeepsSizes(world, attempt.state, FirstHalf(batch), 3);
      ProcessKeepsSizes(world, Process(world, attempt.state, FirstHalf(batch), 3).state, SecondHalf(batch), 3);
    } else if retries > 0 {
      ProcessKeepsSizes(world, attempt.state, batch, retries - 1);
    }
  }

  /** An accepted reply need not translate anything: it may start with an element without keys. */
  lemma AcceptedReplyMayBeEmptyHanded(world: World, s: State, item: Item)
    requires item.index < |s.texts| && world.answer(s.calls) == Reply([Unkeyed])
    ensures var r := Process(world, s, [item], 3);
      r.ok && r.state.texts == s.texts && r.state.accepted == s.accepted + [Exchange([item], [Unkeyed])]
  {
  }

  // ----- how often a line is sent

  /** How many of the requests had line `k` in them. */
  ghost function Sends(sent: seq<seq<Item>>, k: nat): nat {
    if sent == [] then 0
    else Sends(sent[..|sent| - 1], k) + if Mentions(sent[|sent| - 1], k) then 1 else 0
  }

  /** How often `n` lines can be halved, the larger half first, until single lines are left. */
  function Levels(n: nat): nat {
    if n <= 1 then 0 else 1 + Levels((n + 1) / 2)
  }

  function Pow2(k: nat): nat {
    if k == 0 then 1 else 2 * Pow2(k - 1)
  }

  /** That is the binary logarithm, rounded up. */
  lemma {:induction false} LevelsIsLogarithm(n: nat)
    requires n > 0
    ensures n <= Pow2(Levels(n)) && (n > 1 ==> Pow2(Levels(n) - 1) < n)
  {
    if n > 1 {
      LevelsIsLogarithm((n + 1) / 2);
    }
  }

  lemma {:induction false} LevelsGrow(m: nat, n: nat)
    requires m <= n
    ensures Levels(m) <= Levels(n)
    decreases n
  {
    if m > 1 {
      LevelsGrow((m + 1) / 2, (n + 1) / 2);
    }
  }

  lemma RequestSends(world: World, s: State, batch: seq<Item>, k: nat)
    requires InRange(batch, |s.texts|)
    ensures Sends(Request(world, s, batch).state.sent, k) == Sends(s.sent, k) + if Mentions(batch, k) then 1 else 0
  {
    assert (s.sent + [batch])[..|s.sent|] == s.sent;
  }

  /** The most often that line `k` is sent for a batch, with a given number of retries. */
  ghost function MaxSends(batch: seq<Item>, retries: nat, k: nat): nat {
    if Mentions(batch, k) then retries + 1 + 4 * Levels(|batch|) else 0
  }

  lemma MaxSendsSplits(batch: seq<Item>, retries: nat, k: nat)
    requires |batch| > 1 && DistinctIndices(batch)
    ensures DistinctIndices(FirstHalf(batch)) && DistinctIndices(SecondHalf(batch))
    ensures (if Mentions(batch, k) then 1 else 0) + MaxSends(FirstHalf(batch), 3, k) + MaxSends(SecondHalf(batch), 3, k)
            <= MaxSends(batch, retries, k)
  {
    HalvesMention(batch, k);
    if Mentions(FirstHalf(batch), k) { HalvesAreDisjoint(batch, k); }
    LevelsGrow(|batch| / 2, (|batch| + 1) / 2);
  }

  /** From `s` to `r`, line `k` has been sent at most `n` times. */
  ghost predicate SentAtMost(s: State, r: State, k: nat, n: nat) {
    Sends(r.sent, k) <= Sends(s.sent, k) + n
  }

  lemma {:induction false} SendsAreBounded(world: World, s: State, batch: seq<Item>, retries: nat, k: nat)
    requires InRange(batch, |s.texts|) && DistinctIndices(batch)
    ensures SentAtMost(s, Process(world, s, batch, retries).state, k, MaxSends(batch, retries, k))
    decreases |batch|, retries, 1
  {
    RequestKeepsLength(world, s, batch);
    RequestSends(world, s, batch, k);
    var attempt := Request(world, s, batch);
    if attempt.Accepted? || attempt.Aborted? {
    } else if attempt.Limited? && retries > 0 {
      SendsAreBounded(world, attempt.state, batch, retries - 1, k);
    } else if |batch| > 1 {
      HalvesAreSent(world, attempt.state, batch, retries, k);
    } else if retries > 0 {
      SendsAreBounded(world, attempt.state, batch, retries - 1, k);
    }
  }

  lemma {:induction false} HalvesAreSent(world: World, s: State, batch: seq<Item>, retries: nat, k: nat)
    requires InRange(batch, |s.texts|) && DistinctIndices(batch) && |batch| > 1
    ensures var first := Process(world, s, FirstHalf(batch), 3);
      var r := if first.ok then Process(world, first.state, SecondHalf(batch), 3) else first;
      Sends(r.state.sent, k) + (if Mentions(batch, k) then 1 else 0) <= Sends(s.sent, k) + MaxSends(batch, retries, k)
    decreases |batch|, retries, 0
  {
    MaxSendsSplits(batch, retries, k);
    var first := Process(world, s, FirstHalf(batch), 3);
    SendsAreBounded(world, s, FirstHalf(batch), 3, k);
    SendsAreBounded(world, first.state, SecondHalf(batch), 3, k);
  }

  /** Since batches are split in the middle, no line of a fresh batch is sent more often than four times the
      logarithm of the batch, rounded up, and another four times. */
  lemma NoLineIsSentOften(world: World, s: State, batch: seq<Item>, k: nat)
    requires InRange(batch, |s.texts|) && DistinctIndices(batch)
    ensures SentAtMost(s, Process(world, s, batch, 3).state, k, 4 + 4 * Levels(|batch|))
  {
    SendsAreBounded(world, s, batch, 3, k);
  }
}
