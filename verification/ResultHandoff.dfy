/** How a queued transcription's result reaches the requests that wait for it: a table of result
    containers by task id, filled by workers and cleaned up by the requests. */
module ResultHandoff {
  import opened Wrappers

  datatype Outcome = Result(text: string) | Error(message: string)

  /** What a blocking endpoint answers once its wait has ended. `Broken` stands for the exception
      raised by streaming a result that is not there. */
  datatype Reply = Streamed(text: string) | Failed(message: string) | TimedOut | Broken

  /** A result container. `epoch` is history: how many cleanups of its id came before it. */
  datatype Container = Container(id: string, result: Option<string>, error: Option<string>, done: bool, epoch: nat)
  {
    function Fill(outcome: Outcome): Container {
      match outcome
      case Result(text) => this.(result := Some(text), done := true)
      case Error(message) => this.(error := Some(message), done := true)
    }

    /** An error without a message is not seen as one. */
    function Answer(): Reply {
      if !done then TimedOut
      else if error.Some? && error.value != "" then Failed(error.value)
      else if result.Some? then Streamed(result.value)
      else Broken
    }
  }

  /** A task that is queued or being worked on. An ASR task carries its container; a subtitle
      task looks the container up when it is finished; a language detection fills none. `filled`
      says that the outcome has been set. */
  datatype Job = AsrJob(container: nat, filled: bool) | SubtitleJob(filled: bool) | DetectionJob
  {
    /** The task still has an outcome to set. */
    predicate Owes() {
      !DetectionJob? && !filled
    }
  }

  datatype Phase = Registered | Blocked | Answered | GaveUp | Cleaned

  /** A request. `epoch` is history: how many cleanups of its id came before its registration. */
  datatype Request = Request(id: string, container: nat, epoch: nat, accepted: bool, phase: Phase)

  datatype State = State(
    containers: seq<Container>,
    table: map<string, nat>,
    live: map<string, Job>,
    requests: seq<Request>,
    cleanups: map<string, nat>)

  function Cleanups(s: State, id: string): nat {
    if id in s.cleanups then s.cleanups[id] else 0
  }

  datatype Step =
    | Register(id: string)
    | Submit(r: nat)
    | QueueSubtitles(id: string)
    | QueueDetection(id: string)
    | Complete(id: string, outcome: Outcome)
    | MarkDone(id: string)
    | Wake(r: nat)
    | TimeOut(r: nat)
    | CleanUp(r: nat)

  predicate Enabled(s: State, step: Step) {
    match step
    case Register(_) => true
    case Submit(r) => r < |s.requests| && s.requests[r].phase == Registered
    case QueueSubtitles(id) => id !in s.live
    case QueueDetection(id) => id !in s.live
    case Complete(id, _) => id in s.live && s.live[id].Owes()
    case MarkDone(id) => id in s.live && !s.live[id].Owes()
    case Wake(r) =>
      && r < |s.requests| && s.requests[r].phase == Blocked
      && s.requests[r].container < |s.containers| && s.containers[s.requests[r].container].done
    case TimeOut(r) => r < |s.requests| && s.requests[r].phase == Blocked
    case CleanUp(r) => r < |s.requests| && s.requests[r].phase != Cleaned
  }

  function FillAt(containers: seq<Container>, c: nat, outcome: Outcome): seq<Container> {
    if c < |containers| then containers[c := containers[c].Fill(outcome)] else containers
  }

  /** The container that completing task `id` fills, if any. */
  function Target(s: State, id: string): Option<nat>
    requires id in s.live
  {
    match s.live[id]
    case AsrJob(c, _) => Some(c)
    case SubtitleJob(_) => if id in s.table then Some(s.table[id]) else None
    case DetectionJob => None
  }

  function Apply(s: State, step: Step): State
    requires Enabled(s, step)
  {
    match step
    case Register(id) =>
      var epoch := Cleanups(s, id);
      if id in s.table then
        s.(requests := s.requests + [Request(id, s.table[id], epoch, false, Registered)])
      else
        var c := |s.containers|;
        s.(containers := s.containers + [Container(id, None, None, false, epoch)],
           table := s.table[id := c],
           requests := s.requests + [Request(id, c, epoch, false, Registered)])
    case Submit(r) =>
      var req := s.requests[r];
      if req.id in s.live then
        s.(requests := s.requests[r := req.(phase := Blocked)])
      else
        s.(live := s.live[req.id := AsrJob(req.container, false)],
           requests := s.requests[r := req.(phase := Blocked, accepted := true)])
    case QueueSubtitles(id) => s.(live := s.live[id := SubtitleJob(false)])
    case QueueDetection(id) => s.(live := s.live[id := DetectionJob])
    case Complete(id, outcome) =>
      var s' := s.(live := s.live[id := s.live[id].(filled := true)]);
      (match Target(s, id)
       case Some(c) => s'.(containers := FillAt(s.containers, c, outcome))
       case None => s')
    case MarkDone(id) => s.(live := s.live - {id})
    case Wake(r) => s.(requests := s.requests[r := s.requests[r].(phase := Answered)])
    case TimeOut(r) => s.(requests := s.requests[r := s.requests[r].(phase := GaveUp)])
    case CleanUp(r) =>
      var id := s.requests[r].id;
      s.(table := s.table - {id},
         cleanups := s.cleanups[id := Cleanups(s, id) + 1],
         requests := s.requests[r := s.requests[r].(phase := Cleaned)])
  }

  // ----- the invariant

  /** What the table says is in the current epoch of its id. */
  ghost predicate EntryOk(s: State, id: string)
    requires id in s.table
  {
    && s.table[id] < |s.containers| && s.containers[s.table[id]].id == id
    && s.containers[s.table[id]].epoch == Cleanups(s, id)
  }

  /** No container is from a future epoch, and one from the current epoch is in the table. */
  ghost predicate ContainerOk(s: State, c: nat)
    requires c < |s.containers|
  {
    var k := s.containers[c];
    k.epoch <= Cleanups(s, k.id) && (k.epoch == Cleanups(s, k.id) ==> k.id in s.table && s.table[k.id] == c)
  }

  /** There is at most one container per id and epoch. */
  ghost predicate OnePerEpoch(containers: seq<Container>) {
    forall c, d :: 0 <= c < d < |containers| && containers[c].id == containers[d].id ==>
      containers[c].epoch != containers[d].epoch
  }

  ghost predicate TableOk(s: State) {
    && (forall id :: id in s.table ==> EntryOk(s, id))
    && (forall c :: 0 <= c < |s.containers| ==> ContainerOk(s, c))
    && OnePerEpoch(s.containers)
  }

  ghost predicate RequestOk(s: State, req: Request) {
    && req.container < |s.containers|
    && s.containers[req.container].id == req.id && s.containers[req.container].epoch == req.epoch
    && (req.accepted ==> s.containers[req.container].done
                         || (req.id in s.live && s.live[req.id] == AsrJob(req.container, false)))
  }

  ghost predicate JobOk(s: State, id: string)
    requires id in s.live
  {
    s.live[id].AsrJob? ==>
      && s.live[id].container < |s.containers| && s.containers[s.live[id].container].id == id
      && (s.live[id].filled ==> s.containers[s.live[id].container].done)
  }

  ghost predicate Inv(s: State) {
    && TableOk(s)
    && (forall r :: 0 <= r < |s.requests| ==> RequestOk(s, s.requests[r]))
    && (forall id :: id in s.live ==> JobOk(s, id))
  }

  ghost predicate Init(s: State) {
    s == State([], map[], map[], [], map[])
  }

  lemma SameTable(s: State, t: State)
    requires TableOk(s) && t.table == s.table && t.containers == s.containers && t.cleanups == s.cleanups
    ensures TableOk(t)
  {
    forall id | id in t.table
      ensures EntryOk(t, id)
    {
      assert EntryOk(s, id);
    }
    forall c | 0 <= c < |t.containers|
      ensures ContainerOk(t, c)
    {
      assert ContainerOk(s, c);
    }
  }

  lemma RegisterKeepsTable(s: State, id: string)
    requires Inv(s)
    ensures TableOk(Apply(s, Register(id)))
  {
    var t := Apply(s, Register(id));
    forall i | i in t.table
      ensures EntryOk(t, i)
    {
      assert i in s.table ==> EntryOk(s, i);
    }
    forall c | 0 <= c < |t.containers|
      ensures ContainerOk(t, c)
    {
      assert c < |s.containers| ==> ContainerOk(s, c);
    }
    forall c, d | 0 <= c < d < |t.containers| && t.containers[c].id == t.containers[d].id
      ensures t.containers[c].epoch != t.containers[d].epoch
    {
      assert ContainerOk(s, c);
    }
  }

  lemma CompleteKeepsTable(s: State, id: string, outcome: Outcome)
    requires Inv(s) && Enabled(s, Complete(id, outcome))
    ensures TableOk(Apply(s, Complete(id, outcome)))
  {
    var t := Apply(s, Complete(id, outcome));
    assert |t.containers| == |s.containers|;
    forall c | 0 <= c < |t.containers|
      ensures t.containers[c].id == s.containers[c].id && t.containers[c].epoch == s.containers[c].epoch
    {
    }
    forall i | i in t.table
      ensures EntryOk(t, i)
    {
      assert EntryOk(s, i);
    }
    forall c | 0 <= c < |t.containers|
      ensures ContainerOk(t, c)
    {
      assert ContainerOk(s, c);
    }
  }

  lemma CleanUpKeepsTable(s: State, r: nat)
    requires Inv(s) && Enabled(s, CleanUp(r))
    ensures TableOk(Apply(s, CleanUp(r)))
  {
    var t := Apply(s, CleanUp(r));
    forall i | i in t.table
      ensures EntryOk(t, i)
    {
      assert EntryOk(s, i);
    }
    forall c | 0 <= c < |t.containers|
      ensures ContainerOk(t, c)
    {
      assert ContainerOk(s, c);
    }
  }

  lemma StepKeepsTable(s: State, step: Step)
    requires Inv(s) && Enabled(s, step)
    ensures TableOk(Apply(s, step))
  {
    match step
    case Register(id) => RegisterKeepsTable(s, id);
    case Complete(id, outcome) => CompleteKeepsTable(s, id, outcome);
    case CleanUp(r) => CleanUpKeepsTable(s, r);
    case _ => SameTable(s, Apply(s, step));
  }

  lemma CompleteKeepsRequest(s: State, id: string, outcome: Outcome, r: nat)
    requires Inv(s) && Enabled(s, Complete(id, outcome)) && r < |s.requests|
    ensures RequestOk(Apply(s, Complete(id, outcome)), s.requests[r])
  {
    var s', req := Apply(s, Complete(id, outcome)), s.requests[r];
    assert RequestOk(s, req) && JobOk(s, id);
    assert |s'.containers| == |s.containers|;
    assert s.containers[req.container].done ==> s'.containers[req.container].done;
  }

  lemma MarkDoneKeepsRequest(s: State, id: string, r: nat)
    requires Inv(s) && Enabled(s, MarkDone(id)) && r < |s.requests|
    ensures RequestOk(Apply(s, MarkDone(id)), s.requests[r])
  {
    assert RequestOk(s, s.requests[r]) && JobOk(s, id);
  }

  lemma StepKeepsRequest(s: State, step: Step, r: nat)
    requires Inv(s) && Enabled(s, step) && r < |s.requests|
    ensures r < |Apply(s, step).requests| && RequestOk(Apply(s, step), Apply(s, step).requests[r])
  {
    match step
    case Complete(id, outcome) => CompleteKeepsRequest(s, id, outcome, r);
    case MarkDone(id) => MarkDoneKeepsRequest(s, id, r);
    case _ => assert RequestOk(s, s.requests[r]);
  }

  lemma StepKeepsRequests(s: State, step: Step)
    requires Inv(s) && Enabled(s, step)
    ensures var s' := Apply(s, step); forall r :: 0 <= r < |s'.requests| ==> RequestOk(s', s'.requests[r])
  {
    var s' := Apply(s, step);
    forall r | 0 <= r < |s'.requests|
      ensures RequestOk(s', s'.requests[r])
    {
      if r < |s.requests| {
        StepKeepsRequest(s, step, r);
      } else {
        assert step.id in s.table ==> EntryOk(s, step.id);
      }
    }
  }

  lemma StepKeepsJobs(s: State, step: Step)
    requires Inv(s) && Enabled(s, step)
    ensures var s' := Apply(s, step); forall id :: id in s'.live ==> JobOk(s', id)
  {
    var s' := Apply(s, step);
    if step.Submit? {
      assert RequestOk(s, s.requests[step.r]);
    }
    forall id | id in s'.live
      ensures JobOk(s', id)
    {
      assert id in s.live ==> JobOk(s, id);
    }
  }

  ghost predicate StepAt(states: seq<State>, steps: seq<Step>, i: nat)
    requires i < |steps| < |states|
  {
    Enabled(states[i], steps[i]) && states[i + 1] == Apply(states[i], steps[i])
  }

  ghost predicate IsRun(states: seq<State>, steps: seq<Step>) {
    && |states| == |steps| + 1 && Init(states[0])
    && forall i :: 0 <= i < |steps| ==> StepAt(states, steps, i)
  }

  lemma {:induction false} RunKeepsInv(states: seq<State>, steps: seq<Step>, i: nat)
    requires IsRun(states, steps) && i <= |steps|
    ensures Inv(states[i])
  {
    if i > 0 {
      RunKeepsInv(states, steps, i - 1);
      assert StepAt(states, steps, i - 1);
      StepKeepsTable(states[i - 1], steps[i - 1]);
      StepKeepsRequests(states[i - 1], steps[i - 1]);
      StepKeepsJobs(states[i - 1], steps[i - 1]);
    }
  }

  /** A request moves only by its own steps: its put blocks it, the event or the timeout ends its wait, and
      from wherever it is it cleans up once. Nothing else about it changes but whether its put was
      accepted. */
  lemma RequestsAdvance(states: seq<State>, steps: seq<Step>, i: nat, r: nat)
    requires IsRun(states, steps) && i < |steps| && r < |states[i].requests|
    ensures r < |states[i + 1].requests|
    ensures var before, after := states[i].requests[r], states[i + 1].requests[r];
      && after.id == before.id && after.container == before.container && after.epoch == before.epoch
      && after.accepted == (before.accepted || (steps[i] == Submit(r) && before.id !in states[i].live))
      && match after.phase
         case Registered => before.phase == Registered && steps[i] != Submit(r) && steps[i] != CleanUp(r)
         case Blocked => if before.phase == Registered then steps[i] == Submit(r) else before.phase == Blocked
         case Answered => before.phase == Answered || (before.phase == Blocked && steps[i] == Wake(r))
         case GaveUp => before.phase == GaveUp || (before.phase == Blocked && steps[i] == TimeOut(r))
         case Cleaned => before.phase == Cleaned || steps[i] == CleanUp(r)
    ensures steps[i] in {Submit(r), Wake(r), TimeOut(r), CleanUp(r)} ==>
              states[i + 1].requests[r].phase != states[i].requests[r].phase
  {
    assert StepAt(states, steps, i);
  }

  // ----- what reaches whom

  /** Two requests for an id hold the same container exactly when no cleanup of that id came
      between their registrations. */
  lemma SameContainerIffSameEpoch(states: seq<State>, steps: seq<Step>, i: nat, q: nat, r: nat)
    requires IsRun(states, steps) && i <= |steps|
    requires q < |states[i].requests| && r < |states[i].requests|
    requires states[i].requests[q].id == states[i].requests[r].id
    ensures states[i].requests[q].container == states[i].requests[r].container
            <==> states[i].requests[q].epoch == states[i].requests[r].epoch
  {
    RunKeepsInv(states, steps, i);
    var s := states[i];
    assert RequestOk(s, s.requests[q]) && RequestOk(s, s.requests[r]);
    assert OnePerEpoch(s.containers);
  }

  /** The number of cleanups of `id` among some steps, given the ids of the requests. */
  function CleanupSteps(states: seq<State>, steps: seq<Step>, i: nat, id: string): nat
    requires |steps| < |states| && i <= |steps|
  {
    if i == 0 then 0
    else
      var step := steps[i - 1];
      CleanupSteps(states, steps, i - 1, id)
      + if step.CleanUp? && step.r < |states[i - 1].requests| && states[i - 1].requests[step.r].id == id then 1 else 0
  }

  lemma StepCountsCleanups(s: State, step: Step, id: string)
    requires Enabled(s, step)
    ensures Cleanups(Apply(s, step), id)
            == Cleanups(s, id) + if step.CleanUp? && s.requests[step.r].id == id then 1 else 0
  {
  }

  /** Epochs count the cleanup steps of the run. */
  lemma {:induction false} EpochsCountCleanups(states: seq<State>, steps: seq<Step>, i: nat, id: string)
    requires IsRun(states, steps) && i <= |steps|
    ensures Cleanups(states[i], id) == CleanupSteps(states, steps, i, id)
  {
    if i > 0 {
      EpochsCountCleanups(states, steps, i - 1, id);
      assert StepAt(states, steps, i - 1);
      StepCountsCleanups(states[i - 1], steps[i - 1], id);
    }
  }

  /** When an ASR task for `id` is completed, its outcome reaches, of the requests registered by
      then, exactly those of the same epoch as the request whose put queued the task. */
  lemma CompletionReachesItsEpoch(states: seq<State>, steps: seq<Step>, i: nat, r: nat)
    requires IsRun(states, steps) && i < |steps| && steps[i].Complete?
    requires steps[i].id in states[i].live && states[i].live[steps[i].id].AsrJob?
    requires r < |states[i].requests| && states[i].requests[r].id == steps[i].id
    ensures var s, s', c := states[i], states[i + 1], states[i].live[steps[i].id].container;
      && Inv(s) && c < |s.containers| && s.requests[r].container < |s'.containers|
      && (s.requests[r].epoch == s.containers[c].epoch ==>
            s'.containers[s.requests[r].container] == s.containers[c].Fill(steps[i].outcome))
      && (s.requests[r].epoch != s.containers[c].epoch ==>
            s'.containers[s.requests[r].container] == s.containers[s.requests[r].container])
  {
    RunKeepsInv(states, steps, i);
    assert StepAt(states, steps, i);
    var s := states[i];
    assert RequestOk(s, s.requests[r]) && JobOk(s, steps[i].id);
    assert OnePerEpoch(s.containers);
  }

  /** As long as no request for an id has cleaned up, whatever task for it is completed reaches
      every request for it registered by then. */
  lemma CompletionReachesAllBeforeAnyCleanup(states: seq<State>, steps: seq<Step>, i: nat, r: nat)
    requires IsRun(states, steps) && i < |steps| && steps[i].Complete?
    requires r < |states[i].requests| && states[i].requests[r].id == steps[i].id
    requires CleanupSteps(states, steps, i, steps[i].id) == 0
    ensures var s, s', c := states[i], states[i + 1], states[i].requests[r].container;
      c < |s.containers| == |s'.containers| && s'.containers[c] == s.containers[c].Fill(steps[i].outcome)
  {
    EpochsCountCleanups(states, steps, i, steps[i].id);
    RunKeepsInv(states, steps, i);
    assert StepAt(states, steps, i);
    var s := states[i];
    assert RequestOk(s, s.requests[r]) && JobOk(s, steps[i].id);
    assert ContainerOk(s, s.requests[r].container);
    if s.live[steps[i].id].AsrJob? {
      assert ContainerOk(s, s.live[steps[i].id].container);
    }
  }

  /** When a subtitle task for `id` is completed, its outcome reaches exactly those requests for
      `id` that registered after the last cleanup of `id`. */
  lemma SubtitlesReachTheCurrentEpoch(states: seq<State>, steps: seq<Step>, i: nat, r: nat)
    requires IsRun(states, steps) && i < |steps| && steps[i].Complete?
    requires steps[i].id in states[i].live && states[i].live[steps[i].id].SubtitleJob?
    requires r < |states[i].requests| && states[i].requests[r].id == steps[i].id
    ensures var s, s', c := states[i], states[i + 1], states[i].requests[r].container;
      && c < |s.containers| == |s'.containers|
      && s'.containers[c] == if s.requests[r].epoch == Cleanups(s, steps[i].id)
                             then s.containers[c].Fill(steps[i].outcome)
                             else s.containers[c]
  {
    RunKeepsInv(states, steps, i);
    assert StepAt(states, steps, i);
    var s := states[i];
    var c := s.requests[r].container;
    assert RequestOk(s, s.requests[r]);
    assert ContainerOk(s, c);
    assert steps[i].id in s.table ==> EntryOk(s, steps[i].id);
    assert OnePerEpoch(s.containers);
  }

  /** A container changes only when a task with its own id is completed. */
  lemma FilledByItsOwnTask(states: seq<State>, steps: seq<Step>, i: nat, c: nat)
    requires IsRun(states, steps) && i < |steps| && c < |states[i].containers|
    ensures c < |states[i + 1].containers|
    ensures states[i + 1].containers[c] != states[i].containers[c] ==>
              steps[i].Complete? && steps[i].id == states[i].containers[c].id
  {
    RunKeepsInv(states, steps, i);
    assert StepAt(states, steps, i);
    var s := states[i];
    if steps[i].Complete? {
      assert JobOk(s, steps[i].id);
      assert steps[i].id in s.table ==> EntryOk(s, steps[i].id);
    }
  }

  /** A request whose put was accepted is never stranded: its container is filled, or the task it
      queued is still live and will fill it. */
  lemma AcceptedIsNeverStranded(states: seq<State>, steps: seq<Step>, i: nat, r: nat)
    requires IsRun(states, steps) && i <= |steps| && r < |states[i].requests| && states[i].requests[r].accepted
    ensures var s, req := states[i], states[i].requests[r];
      && req.container < |s.containers|
      && (s.containers[req.container].done || (req.id in s.live && s.live[req.id] == AsrJob(req.container, false)))
  {
    RunKeepsInv(states, steps, i);
    assert RequestOk(states[i], states[i].requests[r]);
  }

  // ----- which requests have their answer when the task ends

  predicate Completes(step: Step, id: string) {
    step.Complete? && step.id == id
  }

  /** The step fills container `c`. */
  predicate Fills(s: State, step: Step, c: nat) {
    step.Complete? && step.id in s.live && Target(s, step.id) == Some(c)
  }

  lemma StepKeepsJob(s: State, step: Step, id: string)
    requires Enabled(s, step) && id in s.live && step != MarkDone(id)
    ensures id in Apply(s, step).live
    ensures Completes(step, id) ==> s.live[id].Owes()
    ensures Apply(s, step).live[id] == if Completes(step, id) then s.live[id].(filled := true) else s.live[id]
  {
  }

  lemma StepKeepsContainer(s: State, step: Step, c: nat)
    requires Enabled(s, step) && c < |s.containers|
    ensures c < |Apply(s, step).containers| && Apply(s, step).containers[c].id == s.containers[c].id
    ensures Apply(s, step).containers[c].epoch == s.containers[c].epoch
    ensures Apply(s, step).containers[c].done <==> s.containers[c].done || Fills(s, step, c)
  {
  }

  lemma {:induction false} ContainerStays(states: seq<State>, steps: seq<Step>, i: nat, j: nat, c: nat)
    requires IsRun(states, steps) && i <= j <= |steps| && c < |states[i].containers|
    ensures c < |states[j].containers| && states[j].containers[c].id == states[i].containers[c].id
    ensures states[j].containers[c].epoch == states[i].containers[c].epoch
  {
    if i < j {
      ContainerStays(states, steps, i, j - 1, c);
      assert StepAt(states, steps, j - 1);
      StepKeepsContainer(states[j - 1], steps[j - 1], c);
    }
  }

  ghost predicate FilledBetween(states: seq<State>, steps: seq<Step>, i: nat, j: nat, c: nat)
    requires i <= j <= |steps| <= |states|
  {
    exists k :: i <= k < j && Fills(states[k], steps[k], c)
  }

  /** Between two moments a container is filled exactly by the completions that target it. */
  lemma {:induction false} FilledExactlyWhen(states: seq<State>, steps: seq<Step>, i: nat, j: nat, c: nat)
    requires IsRun(states, steps) && i <= j <= |steps| && c < |states[i].containers|
    ensures c < |states[j].containers|
    ensures states[j].containers[c].done <==> states[i].containers[c].done || FilledBetween(states, steps, i, j, c)
  {
    if i < j {
      FilledExactlyWhen(states, steps, i, j - 1, c);
      assert StepAt(states, steps, j - 1);
      StepKeepsContainer(states[j - 1], steps[j - 1], c);
      assert FilledBetween(states, steps, i, j, c)
             <==> FilledBetween(states, steps, i, j - 1, c) || Fills(states[j - 1], steps[j - 1], c);
    }
  }

  /** Until it is marked done, a task only changes by its one completion. */
  lemma {:induction false} JobUntilDone(states: seq<State>, steps: seq<Step>, i: nat, j: nat, id: string)
    requires IsRun(states, steps) && i <= j <= |steps| && id in states[i].live
    requires forall k :: i <= k < j ==> steps[k] != MarkDone(id)
    ensures id in states[j].live
    ensures if exists k :: i <= k < j && Completes(steps[k], id)
            then states[i].live[id].Owes() && states[j].live[id] == states[i].live[id].(filled := true)
            else states[j].live[id] == states[i].live[id]
  {
    if i < j {
      JobUntilDone(states, steps, i, j - 1, id);
      assert StepAt(states, steps, j - 1);
      StepKeepsJob(states[j - 1], steps[j - 1], id);
    }
  }

  /** The outcome of `job` is set between the two moments and reaches the request: an ASR task has
      still to set it and carries the request's container; a subtitle task sets it before any
      further cleanup of the id than those before the request registered. */
  ghost predicate Reaches(states: seq<State>, steps: seq<Step>, i: nat, j: nat, job: Job, req: Request)
    requires i <= j <= |steps| <= |states|
  {
    match job
    case AsrJob(c, filled) => !filled && c == req.container
    case SubtitleJob(_) =>
      exists k :: i <= k < j && Completes(steps[k], req.id) && Cleanups(states[k], req.id) == req.epoch
    case DetectionJob => false
  }

  /** The table holds container `c` exactly in its own epoch. */
  lemma InTableExactlyWhen(s: State, c: nat)
    requires Inv(s) && c < |s.containers|
    ensures var k := s.containers[c];
      (k.id in s.table && s.table[k.id] == c) <==> Cleanups(s, k.id) == k.epoch
  {
    var k := s.containers[c];
    assert ContainerOk(s, c);
    assert k.id in s.table ==> EntryOk(s, k.id);
  }

  /** The outcome of `job`, if it were set now, would reach the request. */
  predicate InReach(s: State, job: Job, req: Request) {
    match job
    case AsrJob(c, _) => c == req.container
    case SubtitleJob(_) => Cleanups(s, req.id) == req.epoch
    case DetectionJob => false
  }

  /** Whom a completion of the request's own task reaches while that task is live. */
  lemma FillsExactlyWhen(s: State, step: Step, job: Job, req: Request)
    requires Inv(s) && Enabled(s, step) && req.container < |s.containers|
    requires s.containers[req.container].id == req.id && s.containers[req.container].epoch == req.epoch
    requires req.id in s.live
    requires s.live[req.id] == job || (!job.DetectionJob? && s.live[req.id] == job.(filled := true))
    ensures Fills(s, step, req.container) <==> Completes(step, req.id) && InReach(s, job, req)
  {
    InTableExactlyWhen(s, req.container);
    if step.Complete? {
      assert JobOk(s, step.id);
      assert step.id in s.table ==> EntryOk(s, step.id);
    }
  }

  /** A request relies on the task that is live under its id after its put, accepted or refused.
      When that task ends, the request has its answer exactly if it had one before its put, from an
      earlier task, or the task's outcome is still to come and reaches it. */
  lemma AnsweredExactlyWhen(states: seq<State>, steps: seq<Step>, i: nat, j: nat, r: nat)
    requires IsRun(states, steps) && i < j < |steps| && steps[i] == Submit(r)
    requires r < |states[i].requests| && steps[j] == MarkDone(states[i].requests[r].id)
    requires forall k :: i < k < j ==> steps[k] != steps[j]
    ensures var req := states[i].requests[r];
      && req.id in states[i + 1].live
      && req.container < |states[i].containers| && req.container < |states[j].containers|
      && (states[j].containers[req.container].done
          <==> states[i].containers[req.container].done
               || Reaches(states, steps, i + 1, j, states[i + 1].live[req.id], req))
  {
    RunKeepsInv(states, steps, i);
    assert StepAt(states, steps, i) && StepAt(states, steps, j);
    var req, job := states[i].requests[r], states[i + 1].live[states[i].requests[r].id];
    assert RequestOk(states[i], req);
    FilledExactlyWhen(states, steps, i + 1, j, req.container);
    JobUntilDone(states, steps, i + 1, j, req.id);
    forall k | i < k < j
      ensures Fills(states[k], steps[k], req.container) <==>
                Completes(steps[k], req.id) && InReach(states[k], job, req)
    {
      RunKeepsInv(states, steps, k);
      assert StepAt(states, steps, k);
      ContainerStays(states, steps, i, k, req.container);
      JobUntilDone(states, steps, i + 1, k, req.id);
      FillsExactlyWhen(states[k], steps[k], job, req);
    }
  }

  // ----- what a request is answered

  /** The outcomes that the first `i` steps have set in container `c`, in order. */
  function Outcomes(states: seq<State>, steps: seq<Step>, i: nat, c: nat): seq<Outcome>
    requires i <= |steps| < |states|
  {
    if i == 0 then []
    else
      var filled := Fills(states[i - 1], steps[i - 1], c);
      Outcomes(states, steps, i - 1, c) + if filled then [steps[i - 1].outcome] else []
  }

  function LastText(outcomes: seq<Outcome>): Option<string> {
    if outcomes == [] then None
    else
      var n := |outcomes| - 1;
      if outcomes[n].Result? then Some(outcomes[n].text) else LastText(outcomes[..n])
  }

  function LastMessage(outcomes: seq<Outcome>): Option<string> {
    if outcomes == [] then None
    else
      var n := |outcomes| - 1;
      if outcomes[n].Error? then Some(outcomes[n].message) else LastMessage(outcomes[..n])
  }

  ghost predicate Shows(k: Container, outcomes: seq<Outcome>) {
    k.result == LastText(outcomes) && k.error == LastMessage(outcomes) && (k.done <==> outcomes != [])
  }

  lemma StepShows(s: State, step: Step, c: nat, outcomes: seq<Outcome>)
    requires Inv(s) && Enabled(s, step) && c < |Apply(s, step).containers|
    requires if c < |s.containers| then Shows(s.containers[c], outcomes) else outcomes == []
    ensures Shows(Apply(s, step).containers[c], outcomes + if Fills(s, step, c) then [step.outcome] else [])
  {
    if step.Complete? && Fills(s, step, c) {
      assert (outcomes + [step.outcome])[..|outcomes|] == outcomes;
    } else {
      assert outcomes + [] == outcomes;
    }
  }

  lemma NothingFillsTheUnborn(states: seq<State>, steps: seq<Step>, i: nat, c: nat)
    requires IsRun(states, steps) && i < |steps| && c >= |states[i].containers|
    ensures !Fills(states[i], steps[i], c)
  {
    RunKeepsInv(states, steps, i);
    if steps[i].Complete? && steps[i].id in states[i].live {
      assert JobOk(states[i], steps[i].id);
      assert steps[i].id in states[i].table ==> EntryOk(states[i], steps[i].id);
    }
  }

  /** In every run, a container holds the last text and the last error that were set in it. */
  lemma {:induction false} ContainerShowsItsOutcomes(states: seq<State>, steps: seq<Step>, i: nat, c: nat)
    requires IsRun(states, steps) && i <= |steps|
    ensures if c < |states[i].containers| then Shows(states[i].containers[c], Outcomes(states, steps, i, c))
            else Outcomes(states, steps, i, c) == []
  {
    if i > 0 {
      ContainerShowsItsOutcomes(states, steps, i - 1, c);
      RunKeepsInv(states, steps, i - 1);
      assert StepAt(states, steps, i - 1);
      if c < |states[i].containers| {
        StepShows(states[i - 1], steps[i - 1], c, Outcomes(states, steps, i - 1, c));
      } else {
        NothingFillsTheUnborn(states, steps, i - 1, c);
      }
    }
  }

  /** A request whose wait ends by the event is answered by what was set in its container: an error, if the
      last error set has a message, even if a text was set since; else the last text; and if only
      errors without a message were set, by the exception that there is nothing to stream. */
  lemma AnswerMeaning(states: seq<State>, steps: seq<Step>, i: nat, r: nat)
    requires IsRun(states, steps) && i < |steps| && steps[i] == Wake(r)
    ensures r < |states[i].requests| && states[i].requests[r].container < |states[i].containers|
    ensures var c := states[i].requests[r].container;
      var outcomes, answer := Outcomes(states, steps, i, c), states[i].containers[c].Answer();
      && outcomes != []
      && (forall message :: answer == Failed(message) <==> message != "" && LastMessage(outcomes) == Some(message))
      && (!answer.Failed? ==> answer == match LastText(outcomes) case Some(text) => Streamed(text) case None => Broken)
  {
    assert StepAt(states, steps, i);
    ContainerShowsItsOutcomes(states, steps, i, states[i].requests[r].container);
  }

  /** With one outcome set, that is the answer. */
  lemma OneOutcomeIsTheAnswer(states: seq<State>, steps: seq<Step>, i: nat, r: nat, outcome: Outcome)
    requires IsRun(states, steps) && i < |steps| && steps[i] == Wake(r)
    requires r < |states[i].requests| && Outcomes(states, steps, i, states[i].requests[r].container) == [outcome]
    ensures states[i].requests[r].container < |states[i].containers|
    ensures states[i].containers[states[i].requests[r].container].Answer()
            == match outcome
               case Result(text) => Streamed(text)
               case Error(message) => if message == "" then Broken else Failed(message)
  {
    assert StepAt(states, steps, i);
    ContainerShowsItsOutcomes(states, steps, i, states[i].requests[r].container);
    assert LastText([outcome]) == if outcome.Result? then Some(outcome.text) else None;
    assert LastMessage([outcome]) == if outcome.Error? then Some(outcome.message) else None;
  }

  // ----- runs that strand a request

  lemma Extend(states: seq<State>, steps: seq<Step>, step: Step, next: State)
    returns (states': seq<State>, steps': seq<Step>)
    requires IsRun(states, steps) && Enabled(states[|steps|], step) && next == Apply(states[|steps|], step)
    ensures IsRun(states', steps') && |steps'| == |steps| + 1 && states'[|steps'|] == next
  {
    states', steps' := states + [next], steps + [step];
    forall i | 0 <= i < |steps'|
      ensures StepAt(states', steps', i)
    {
      assert i < |steps| ==> StepAt(states, steps, i);
    }
  }

  /** A request registers, queues its task, gives up and cleans up while the task is still live. */
  lemma AbandonedTask(id: string) returns (states: seq<State>, steps: seq<Step>)
    ensures IsRun(states, steps)
    ensures states[|steps|] == State([Container(id, None, None, false, 0)], map[], map[id := AsrJob(0, false)],
                                     [Request(id, 0, 0, true, Cleaned)], map[id := 1])
  {
    var c, r := Container(id, None, None, false, 0), Request(id, 0, 0, false, Registered);
    states, steps := [State([], map[], map[], [], map[])], [];
    states, steps := Extend(states, steps, Register(id), State([c], map[id := 0], map[], [r], map[]));
    var live := map[id := AsrJob(0, false)];
    r := r.(accepted := true, phase := Blocked);
    states, steps := Extend(states, steps, Submit(0), State([c], map[id := 0], live, [r], map[]));
    r := r.(phase := GaveUp);
    states, steps := Extend(states, steps, TimeOut(0), State([c], map[id := 0], live, [r], map[]));
    r := r.(phase := Cleaned);
    states, steps := Extend(states, steps, CleanUp(0), State([c], map[], live, [r], map[id := 1]));
  }

  /** A request whose put was refused can be: the task it relies on may belong to an earlier
      epoch, and then nothing is left that would fill its container. */
  lemma RefusedMayBeStranded(id: string) returns (states: seq<State>, steps: seq<Step>)
    ensures IsRun(states, steps) && |steps| > 0
    ensures var s := states[|steps|];
      && |s.requests| == 2 && s.requests[1].phase == Blocked && s.requests[1].container < |s.containers|
      && !s.containers[s.requests[1].container].done && s.live == map[]
  {
    states, steps := AbandonedTask(id);
    var first, second := Container(id, None, None, false, 0), Container(id, None, None, false, 1);
    var gone, late := Request(id, 0, 0, true, Cleaned), Request(id, 1, 1, false, Registered);
    var live := map[id := AsrJob(0, false)];
    states, steps := Extend(states, steps, Register(id),
                            State([first, second], map[id := 1], live, [gone, late], map[id := 1]));
    late := late.(phase := Blocked);
    states, steps := Extend(states, steps, Submit(1),
                            State([first, second], map[id := 1], live, [gone, late], map[id := 1]));
    first := first.Fill(Result(""));
    live := map[id := AsrJob(0, true)];
    states, steps := Extend(states, steps, Complete(id, Result("")),
                            State([first, second], map[id := 1], live, [gone, late], map[id := 1]));
    states, steps := Extend(states, steps, MarkDone(id),
                            State([first, second], map[id := 1], map[], [gone, late], map[id := 1]));
  }

  /** Nor does it take a cleanup: a request may come when the task has set its outcome and is not
      marked done yet. */
  lemma LateRequestMayBeStranded(id: string) returns (states: seq<State>, steps: seq<Step>)
    ensures IsRun(states, steps) && |steps| > 0
    ensures var s := states[|steps|];
      && |s.requests| == 1 && s.requests[0].phase == Blocked && s.requests[0].container < |s.containers|
      && !s.containers[s.requests[0].container].done && s.live == map[] && s.cleanups == map[]
  {
    var c, r := Container(id, None, None, false, 0), Request(id, 0, 0, false, Registered);
    states, steps := [State([], map[], map[], [], map[])], [];
    states, steps := Extend(states, steps, QueueSubtitles(id),
                            State([], map[], map[id := SubtitleJob(false)], [], map[]));
    var live := map[id := SubtitleJob(true)];
    states, steps := Extend(states, steps, Complete(id, Result("")), State([], map[], live, [], map[]));
    states, steps := Extend(states, steps, Register(id), State([c], map[id := 0], live, [r], map[]));
    r := r.(phase := Blocked);
    states, steps := Extend(states, steps, Submit(0), State([c], map[id := 0], live, [r], map[]));
    states, steps := Extend(states, steps, MarkDone(id), State([c], map[id := 0], map[], [r], map[]));
  }

  // ----- the code

  /** `done` is the event that `wait` blocks on. */
  class TaskResult {
    var result: Option<string>
    var error: Option<string>
    var done: bool

    constructor ()
      ensures result == None && error == None && !done
    {
      result, error, done := None, None, false;
    }

    function View(id: string, epoch: nat): Container
      reads this
    {
      Container(id, result, error, done, epoch)
    }

    method SetResult(text: string)
      modifies this
      ensures forall id, epoch :: View(id, epoch) == old(View(id, epoch)).Fill(Result(text))
    {
      result, done := Some(text), true;
    }

    method SetError(message: string)
      modifies this
      ensures forall id, epoch :: View(id, epoch) == old(View(id, epoch)).Fill(Error(message))
    {
      error, done := Some(message), true;
    }

    /** What the endpoint answers when its wait ends now. */
    method Reply() returns (reply: Reply)
      ensures forall id, epoch :: reply == View(id, epoch).Answer()
      ensures !done ==> reply == TimedOut
      ensures done ==> forall message :: reply == Failed(message) <==> error == Some(message) && message != ""
      ensures done && !reply.Failed? ==> reply == if result.Some? then Streamed(result.value) else Broken
    {
      if !done {
        return TimedOut;
      }
      if error.Some? && error.value != "" {
        return Failed(error.value);
      }
      if result.Some? {
        return Streamed(result.value);
      }
      return Broken;
    }
  }

  /** The shared table of result containers. Each method is one critical section of its lock. */
  class ResultTable {
    var entries: map<string, TaskResult>

    constructor ()
      ensures entries == map[]
    {
      entries := map[];
    }

    method Register(id: string) returns (container: TaskResult)
      modifies this
      ensures id in old(entries) ==> container == old(entries)[id] && entries == old(entries)
      ensures id !in old(entries) ==> fresh(container) && container.View(id, 0) == Container(id, None, None, false, 0)
      ensures entries == old(entries)[id := container]
    {
      if id !in entries {
        var created := new TaskResult();
        entries := entries[id := created];
      }
      container := entries[id];
    }

    method CleanUp(id: string)
      modifies this
      ensures entries == old(entries) - {id}
    {
      if id in entries {
        entries := entries - {id};
      }
    }

    /** The end of a subtitle task: its outcome goes to whoever is registered under its path. */
    method Publish(id: string, outcome: Outcome)
      modifies if id in entries then {entries[id]} else {}
      ensures id in entries ==>
                forall epoch :: entries[id].View(id, epoch) == old(entries[id].View(id, epoch)).Fill(outcome)
    {
      if id in entries {
        match outcome {
          case Result(text) => entries[id].SetResult(text);
          case Error(message) => entries[id].SetError(message);
        }
      }
    }
  }
}
