/** The request bounds of `Translation` are exact. */
module TranslationCost {
  import opened Translation
  import opened TranslationRun

  /** Answers that reject a batch of several lines as slowly as possible. */
  function SlowRejection(limits: bool): seq<Answer> {
    if limits then [RateLimited(true), RateLimited(true), RateLimited(true), RateLimited(true)] else [Failed]
  }

  function LateAcceptance(item: Item): seq<Answer> {
    [Failed, Failed, Failed, Reply([Keyed(item.index, item.content)])]
  }

  /** Answers that drive a batch to its dearest success: split down to single lines, each of which
      is answered on its last retry. */
  function WorstAnswers(batch: seq<Item>, limits: bool): seq<Answer>
    decreases |batch|
  {
    if |batch| == 0 then []
    else if |batch| == 1 then LateAcceptance(batch[0])
    else SlowRejection(limits) + (WorstAnswers(FirstHalf(batch), limits) + WorstAnswers(SecondHalf(batch), limits))
  }

  /** The world answers the requests from number `from` on as listed. */
  ghost predicate Answers(world: World, from: nat, answers: seq<Answer>)
    decreases answers
  {
    answers == [] || (world.answer(from) == answers[0] && Answers(world, from + 1, answers[1..]))
  }

  lemma {:induction false} AnswersSplit(world: World, from: nat, a: seq<Answer>, b: seq<Answer>)
    requires Answers(world, from, a + b)
    ensures Answers(world, from, a) && Answers(world, from + |a|, b)
    decreases a
  {
    if a == [] {
      assert a + b == b;
    } else {
      assert (a + b)[1..] == a[1..] + b;
      AnswersSplit(world, from + 1, a[1..], b);
    }
  }

  lemma ThreeAnswers(world: World, from: nat, a: seq<Answer>, b: seq<Answer>, c: seq<Answer>)
    requires Answers(world, from, a + (b + c))
    ensures Answers(world, from, a) && Answers(world, from + |a|, b) && Answers(world, from + |a| + |b|, c)
  {
    AnswersSplit(world, from, a, b + c);
    AnswersSplit(world, from + |a|, b, c);
  }

  lemma FourAnswers(world: World, from: nat, a: Answer, b: Answer, c: Answer, d: Answer)
    requires Answers(world, from, [a, b, c, d])
    ensures world.answer(from) == a && world.answer(from + 1) == b
    ensures world.answer(from + 2) == c && world.answer(from + 3) == d
  {
    assert [a, b, c, d][1..] == [b, c, d] && [b, c, d][1..] == [c, d] && [c, d][1..] == [d];
    assert Answers(world, from + 1, [b, c, d]) && Answers(world, from + 2, [c, d]) && Answers(world, from + 3, [d]);
  }

  lemma EchoAccepted(world: World, s: State, item: Item)
    requires item.index < |s.texts| && world.answer(s.calls) == Reply([Keyed(item.index, item.content)])
    ensures Request(world, s, [item]).Accepted?
  {
    var lines := [Keyed(item.index, item.content)];
    assert [item][0].index == item.index;
    assert Mentions([item], item.index);
    assert lines[1..] == [];
    assert WriteLines(world, [item], lines, s.texts).1;
  }

  lemma SingleLine(world: World, s: State, item: Item)
    requires item.index < |s.texts| && Answers(world, s.calls, LateAcceptance(item))
    ensures var r := Process(world, s, [item], 3); r.ok && r.state.calls == s.calls + 4
  {
    var batch := [item];
    FourAnswers(world, s.calls, Failed, Failed, Failed, Reply([Keyed(item.index, item.content)]));
    var s1 := Request(world, s, batch).state;
    var s2 := Request(world, s1, batch).state;
    var s3 := Request(world, s2, batch).state;
    assert Process(world, s, batch, 3) == Process(world, s1, batch, 2);
    assert Process(world, s1, batch, 2) == Process(world, s2, batch, 1);
    assert Process(world, s2, batch, 1) == Process(world, s3, batch, 0);
    EchoAccepted(world, s3, item);
  }

  lemma Split(world: World, s: State, batch: seq<Item>, first: seq<Item>, second: seq<Item>, limits: bool)
    returns (t: State, u: State, r: Outcome)
    requires InRange(batch, |s.texts|) && |batch| > 1 && Answers(world, s.calls, SlowRejection(limits))
    requires first == FirstHalf(batch) && second == SecondHalf(batch)
    ensures |t.texts| == |u.texts| == |s.texts| && t.calls == s.calls + |SlowRejection(limits)|
    ensures u == Process(world, t, first, 3).state && r == Process(world, u, second, 3)
    ensures Process(world, t, first, 3).ok ==> Process(world, s, batch, 3) == r
  {
    t := Request(world, s, batch).state;
    if limits {
      FourAnswers(world, s.calls, RateLimited(true), RateLimited(true), RateLimited(true), RateLimited(true));
      var s1 := t;
      var s2 := Request(world, s1, batch).state;
      var s3 := Request(world, s2, batch).state;
      t := Request(world, s3, batch).state;
      assert Process(world, s, batch, 3) == Process(world, s1, batch, 2);
      assert Process(world, s1, batch, 2) == Process(world, s2, batch, 1);
      assert Process(world, s2, batch, 1) == Process(world, s3, batch, 0);
    }
    u := Process(world, t, first, 3).state;
    r := Process(world, u, second, 3);
  }

  function Dearest(n: nat, limits: bool): nat
    requires n > 0
  {
    if limits then 8 * n - 4 else 5 * n - 1
  }

  lemma {:induction false} WorstAnswersCount(batch: seq<Item>, limits: bool)
    requires batch != []
    ensures |WorstAnswers(batch, limits)| == Dearest(|batch|, limits)
    decreases |batch|
  {
    if |batch| > 1 {
      WorstAnswersCount(FirstHalf(batch), limits);
      WorstAnswersCount(SecondHalf(batch), limits);
    }
  }

  lemma WorstAnswersSplit(world: World, from: nat, batch: seq<Item>, first: seq<Item>, second: seq<Item>, limits: bool)
    returns (a: nat, b: nat)
    requires |batch| > 1 && first == FirstHalf(batch) && second == SecondHalf(batch)
    requires Answers(world, from, WorstAnswers(batch, limits))
    ensures a == from + |SlowRejection(limits)| && b == a + Dearest(|first|, limits)
    ensures Answers(world, from, SlowRejection(limits))
    ensures Answers(world, a, WorstAnswers(first, limits)) && Answers(world, b, WorstAnswers(second, limits))
  {
    WorstAnswersCount(first, limits);
    a := from + |SlowRejection(limits)|;
    b := a + Dearest(|first|, limits);
    ThreeAnswers(world, from, SlowRejection(limits), WorstAnswers(first, limits), WorstAnswers(second, limits));
  }

  lemma {:induction false} WorstAnswersCost(world: World, s: State, batch: seq<Item>, limits: bool)
    requires InRange(batch, |s.texts|) && batch != []
    requires Answers(world, s.calls, WorstAnswers(batch, limits))
    ensures Process(world, s, batch, 3).ok
    ensures Process(world, s, batch, 3).state.calls == s.calls + Dearest(|batch|, limits)
    decreases |batch|, 1
  {
    if |batch| == 1 {
      assert batch == [batch[0]];
      SingleLine(world, s, batch[0]);
    } else {
      WorstHalves(world, s, batch, limits);
    }
  }

  lemma {:induction false} WorstHalves(world: World, s: State, batch: seq<Item>, limits: bool)
    requires InRange(batch, |s.texts|) && |batch| > 1
    requires Answers(world, s.calls, WorstAnswers(batch, limits))
    ensures Process(world, s, batch, 3).ok
    ensures Process(world, s, batch, 3).state.calls == s.calls + Dearest(|batch|, limits)
    decreases |batch|, 0
  {
    var first, second := FirstHalf(batch), SecondHalf(batch);
    var a, b := WorstAnswersSplit(world, s.calls, batch, first, second, limits);
    var t, u, r := Split(world, s, batch, first, second, limits);
    assert t.calls == a;
    WorstAnswersCost(world, t, first, limits);
    assert u.calls == b;
    WorstAnswersCost(world, u, second, limits);
  }

  function Scripted(from: nat, answers: seq<Answer>, rtl: string -> bool): World {
    World((c: nat) => if from <= c < from + |answers| then answers[c - from] else Failed, rtl)
  }

  lemma {:induction false} ScriptedAnswers(from: nat, answers: seq<Answer>, rtl: string -> bool, k: nat)
    requires k <= |answers|
    ensures Answers(Scripted(from, answers, rtl), from + k, answers[k..])
    decreases |answers| - k
  {
    if k < |answers| {
      ScriptedAnswers(from, answers, rtl, k + 1);
      assert answers[k..][1..] == answers[k + 1..];
    }
  }

  /** The bound of 8n - 4 requests is exact: for every batch some remote makes it cost that much
      and then succeed. */
  lemma CostIsAttained(s: State, batch: seq<Item>, rtl: string -> bool) returns (world: World)
    requires InRange(batch, |s.texts|) && batch != []
    ensures var r := Process(world, s, batch, 3); r.ok && r.state.calls - s.calls == 8 * |batch| - 4
  {
    var answers := WorstAnswers(batch, true);
    world := Scripted(s.calls, answers, rtl);
    ScriptedAnswers(s.calls, answers, rtl, 0);
    assert answers[0..] == answers;
    WorstAnswersCost(world, s, batch, true);
  }

  lemma {:induction false} NeverLimited(batch: seq<Item>, j: nat)
    requires j < |WorstAnswers(batch, false)|
    ensures !WorstAnswers(batch, false)[j].RateLimited?
    decreases |batch|
  {
    if |batch| > 1 && j > 0 {
      var a := WorstAnswers(FirstHalf(batch), false);
      if j - 1 < |a| {
        NeverLimited(FirstHalf(batch), j - 1);
      } else {
        NeverLimited(SecondHalf(batch), j - 1 - |a|);
      }
    }
  }

  /** So is the bound of 5n - 1 for a remote that never rate-limits. */
  lemma UnlimitedCostIsAttained(s: State, batch: seq<Item>, rtl: string -> bool) returns (world: World)
    requires InRange(batch, |s.texts|) && batch != []
    ensures forall c :: !world.answer(c).RateLimited?
    ensures var r := Process(world, s, batch, 3); r.ok && r.state.calls - s.calls == 5 * |batch| - 1
  {
    var answers := WorstAnswers(batch, false);
    world := Scripted(s.calls, answers, rtl);
    ScriptedAnswers(s.calls, answers, rtl, 0);
    assert answers[0..] == answers;
    WorstAnswersCost(world, s, batch, false);
    forall j | 0 <= j < |answers|
      ensures !answers[j].RateLimited?
    {
      NeverLimited(batch, j);
    }
  }

  // ----- whole runs

  /** Answers that drive every batch of a run to its dearest success. */
  function WorstRunAnswers(texts: seq<string>, i: nat, size: nat): seq<Answer>
    requires size > 0 && i <= |texts|
    decreases |texts| - i
  {
    if i == |texts| then []
    else
      var j := BlockEnd(i, size, |texts|);
      WorstAnswers(Block(texts, i, j), true) + WorstRunAnswers(texts, j, size)
  }

  lemma {:induction false} OnlyTheRestMatters(a: seq<string>, b: seq<string>, i: nat, size: nat)
    requires size > 0 && i <= |a| == |b| && forall k :: i <= k < |a| ==> a[k] == b[k]
    ensures WorstRunAnswers(a, i, size) == WorstRunAnswers(b, i, size)
    decreases |a| - i
  {
    if i < |a| {
      var j := BlockEnd(i, size, |a|);
      BlockDependsOnItsTexts(a, b, i, j);
      OnlyTheRestMatters(a, b, j, size);
    }
  }

  lemma FirstBlockAnswers(texts: seq<string>, i: nat, j: nat, size: nat)
    requires size > 0 && i < |texts| && j == BlockEnd(i, size, |texts|)
    ensures WorstRunAnswers(texts, i, size) == WorstAnswers(Block(texts, i, j), true) + WorstRunAnswers(texts, j, size)
    ensures |WorstAnswers(Block(texts, i, j), true)| == 8 * (j - i) - 4
  {
    BlockIsGood(texts, i, j);
    WorstAnswersCount(Block(texts, i, j), true);
  }

  lemma WorstRunSplit(world: World, from: nat, texts: seq<string>, i: nat, j: nat, size: nat) returns (next: nat)
    requires size > 0 && i < |texts| && j == BlockEnd(i, size, |texts|)
    requires Answers(world, from, WorstRunAnswers(texts, i, size))
    ensures next == from + 8 * (j - i) - 4
    ensures Answers(world, from, WorstAnswers(Block(texts, i, j), true))
    ensures Answers(world, next, WorstRunAnswers(texts, j, size))
  {
    FirstBlockAnswers(texts, i, j, size);
    AnswersSplit(world, from, WorstAnswers(Block(texts, i, j), true), WorstRunAnswers(texts, j, size));
    next := from + 8 * (j - i) - 4;
  }

  lemma AnswersForTheRest(world: World, s: State, i: nat, j: nat, size: nat, from: nat)
    requires size > 0 && i <= j <= |s.texts| && Answers(world, from, WorstRunAnswers(s.texts, j, size))
    ensures InRange(Block(s.texts, i, j), |s.texts|)
    ensures var r := Process(world, s, Block(s.texts, i, j), 3);
      |r.state.texts| == |s.texts| && Answers(world, from, WorstRunAnswers(r.state.texts, j, size))
  {
    BlockFrame(world, s, i, j);
    OnlyTheRestMatters(s.texts, Process(world, s, Block(s.texts, i, j), 3).state.texts, j, size);
  }

  lemma WorstBlockCost(world: World, s: State, i: nat, j: nat)
    requires i < j <= |s.texts| && Answers(world, s.calls, WorstAnswers(Block(s.texts, i, j), true))
    ensures InRange(Block(s.texts, i, j), |s.texts|)
    ensures var r := Process(world, s, Block(s.texts, i, j), 3); r.ok && r.state.calls == s.calls + 8 * (j - i) - 4
  {
    BlockIsGood(s.texts, i, j);
    WorstAnswersCost(world, s, Block(s.texts, i, j), true);
  }

  /** One batch of such a run leaves the answers for the rest. */
  lemma WorstBlock(world: World, s: State, i: nat, j: nat, size: nat)
    requires size > 0 && i < |s.texts| && j == BlockEnd(i, size, |s.texts|)
    requires Answers(world, s.calls, WorstRunAnswers(s.texts, i, size))
    ensures InRange(Block(s.texts, i, j), |s.texts|)
    ensures var r := Process(world, s, Block(s.texts, i, j), 3);
      && r.ok && |r.state.texts| == |s.texts| && r.state.calls == s.calls + 8 * (j - i) - 4
      && Answers(world, r.state.calls, WorstRunAnswers(r.state.texts, j, size))
  {
    var next := WorstRunSplit(world, s.calls, s.texts, i, j, size);
    AnswersForTheRest(world, s, i, j, size, next);
    WorstBlockCost(world, s, i, j);
  }

  lemma {:induction false} WorstRun(world: World, s: State, i: nat, size: nat)
    requires size > 0 && i <= |s.texts| && Answers(world, s.calls, WorstRunAnswers(s.texts, i, size))
    ensures var r := RunFrom(world, s, i, size);
      r.ok && r.state.calls == s.calls + MostCalls(|s.texts| - i, size)
    decreases |s.texts| - i
  {
    if i < |s.texts| {
      var j := BlockEnd(i, size, |s.texts|);
      WorstBlock(world, s, i, j, size);
      var r := Process(world, s, Block(s.texts, i, j), 3);
      WorstRun(world, r.state, j, size);
      RunContinues(world, s, i, j, size, r);
    }
  }

  /** The bound for whole runs is exact as well. */
  lemma RunCostIsAttained(s: State, i: nat, size: nat, rtl: string -> bool) returns (world: World)
    requires size > 0 && i <= |s.texts|
    ensures var r := RunFrom(world, s, i, size);
      r.ok && r.state.calls - s.calls == MostCalls(|s.texts| - i, size)
  {
    var answers := WorstRunAnswers(s.texts, i, size);
    world := Scripted(s.calls, answers, rtl);
    ScriptedAnswers(s.calls, answers, rtl, 0);
    assert answers[0..] == answers;
    WorstRun(world, s, i, size);
  }
}
