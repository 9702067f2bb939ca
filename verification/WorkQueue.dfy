/** The deduplicating work queue as a state machine of atomic steps. A put holds the queue's own
    lock over two steps (push to the heap, record the id); a get pops the heap without that lock
    and books the task under it in a second step. */
module WorkQueue {
  import opened Wrappers

  datatype Kind = DetectLanguage | Asr | Transcribe

  datatype Task = Task(id: string, kind: Kind)

  function Priority(kind: Kind): nat {
    match kind
    case DetectLanguage => 0
    case Asr => 1
    case Transcribe => 2
  }

  /** A heap entry; `ticket` numbers the accepted puts and is history. */
  datatype Entry = Entry(priority: nat, stamp: int, task: Task, ticket: nat)

  predicate Before(a: Entry, b: Entry) {
    a.priority < b.priority || (a.priority == b.priority && a.stamp < b.stamp)
  }

  // ----- the queue object and its atomic actions

  datatype Core = Core(heap: set<Entry>, queued: set<string>, processing: set<string>)
  {
    predicate Knows(id: string) {
      id in queued || id in processing
    }

    function Push(e: Entry): Core {
      this.(heap := heap + {e})
    }

    function Record(id: string): Core {
      this.(queued := queued + {id})
    }

    function Pop(e: Entry): Core {
      this.(heap := heap - {e})
    }

    function Book(id: string): Core {
      this.(queued := queued - {id}, processing := processing + {id})
    }

    function Finish(id: string): Core {
      this.(processing := processing - {id})
    }

    predicate IsIdle() {
      heap == {} && processing == {}
    }
  }

  ghost predicate IsLeast(e: Entry, heap: set<Entry>) {
    e in heap && forall f :: f in heap ==> !Before(f, e)
  }

  // ----- the machine

  /** What a worker thread has in its hands. */
  datatype Worker = Waiting | Popped(entry: Entry) | Working(entry: Entry)

  /** Who holds the queue's lock between atomic steps: a put that has pushed and not yet recorded. */
  datatype Lock = Free | Putting(entry: Entry)

  /** Where an accepted task is. */
  datatype Place = InHeap | InHand(worker: nat) | InWork(worker: nat) | Done

  /** `log` (the accepted entries in order) and `places` are history. */
  datatype State = State(core: Core, lock: Lock, workers: seq<Worker>, log: seq<Entry>, places: seq<Place>)

  ghost predicate Init(s: State) {
    && s.core == Core({}, {}, {}) && s.lock == Free && s.log == [] && s.places == []
    && forall w :: 0 <= w < |s.workers| ==> s.workers[w] == Waiting
  }

  datatype Step =
    | PutRefused(task: Task)
    | PutPush(task: Task, stamp: int)
    | PutRecord
    | GetPop(worker: nat, entry: Entry)
    | GetBook(worker: nat)
    | MarkDone(worker: nat)

  ghost predicate Enabled(s: State, step: Step) {
    match step
    case PutRefused(task) => s.lock == Free && s.core.Knows(task.id)
    case PutPush(task, stamp) =>
      && s.lock == Free && !s.core.Knows(task.id)
      && forall e :: e in s.core.heap ==> e.priority != Priority(task.kind) || e.stamp != stamp
    case PutRecord => s.lock.Putting?
    case GetPop(w, e) => w < |s.workers| && s.workers[w] == Waiting && IsLeast(e, s.core.heap)
    case GetBook(w) => w < |s.workers| && s.workers[w].Popped? && s.lock == Free
    case MarkDone(w) => w < |s.workers| && s.workers[w].Working? && s.lock == Free
  }

  function Move(places: seq<Place>, ticket: nat, place: Place): seq<Place> {
    if ticket < |places| then places[ticket := place] else places
  }

  ghost function Apply(s: State, step: Step): State
    requires Enabled(s, step)
  {
    match step
    case PutRefused(_) => s
    case PutPush(task, stamp) =>
      var e := Entry(Priority(task.kind), stamp, task, |s.log|);
      s.(core := s.core.Push(e), lock := Putting(e), log := s.log + [e], places := s.places + [InHeap])
    case PutRecord =>
      s.(core := s.core.Record(s.lock.entry.task.id), lock := Free)
    case GetPop(w, e) =>
      s.(core := s.core.Pop(e), workers := s.workers[w := Popped(e)], places := Move(s.places, e.ticket, InHand(w)))
    case GetBook(w) =>
      var e := s.workers[w].entry;
      s.(core := s.core.Book(e.task.id), workers := s.workers[w := Working(e)],
         places := Move(s.places, e.ticket, InWork(w)))
    case MarkDone(w) =>
      var e := s.workers[w].entry;
      s.(core := s.core.Finish(e.task.id), workers := s.workers[w := Waiting], places := Move(s.places, e.ticket, Done))
  }

  // ----- the invariant

  /** Ticket `t` is accepted, not done, and its task has id `id`. */
  ghost predicate Live(s: State, t: nat, id: string)
    requires |s.places| == |s.log|
  {
    t < |s.log| && s.log[t].task.id == id && s.places[t] != Done
  }

  /** Ticket `t` is accepted and not yet booked. */
  ghost predicate Pending(s: State, t: nat, id: string)
    requires |s.places| == |s.log|
  {
    t < |s.log| && s.log[t].task.id == id && (s.places[t].InHeap? || s.places[t].InHand?)
  }

  ghost predicate InProgress(s: State, t: nat, id: string)
    requires |s.places| == |s.log|
  {
    t < |s.log| && s.log[t].task.id == id && s.places[t].InWork?
  }

  /** The heap holds exactly the accepted entries that are placed there. */
  ghost predicate HeapOk(s: State) {
    && |s.places| == |s.log|
    && (forall t :: 0 <= t < |s.log| ==> s.log[t].ticket == t)
    && (forall e :: e in s.core.heap <==> e.ticket < |s.log| && s.log[e.ticket] == e && s.places[e.ticket] == InHeap)
  }

  function PlaceOf(worker: Worker, w: nat): Place
    requires !worker.Waiting?
  {
    if worker.Popped? then InHand(w) else InWork(w)
  }

  /** Workers hold exactly the accepted entries that are placed with them. */
  ghost predicate HandsOk(s: State)
    requires |s.places| == |s.log|
  {
    && (forall w :: 0 <= w < |s.workers| && !s.workers[w].Waiting? ==>
          var e := s.workers[w].entry;
          e.ticket < |s.log| && s.log[e.ticket] == e && s.places[e.ticket] == PlaceOf(s.workers[w], w))
    && (forall t :: 0 <= t < |s.log| ==>
          match s.places[t]
          case InHand(w) => w < |s.workers| && s.workers[w] == Popped(s.log[t])
          case InWork(w) => w < |s.workers| && s.workers[w] == Working(s.log[t])
          case _ => true)
  }

  /** The history agrees with the heap and with what the workers hold. */
  ghost predicate HistoryOk(s: State) {
    HeapOk(s) && HandsOk(s)
  }

  /** No id is live under two tickets. */
  ghost predicate LiveOnce(s: State)
    requires |s.places| == |s.log|
  {
    forall t: nat, u: nat, id :: Live(s, t, id) && Live(s, u, id) ==> t == u
  }

  /** The two id sets record what they should, up to a put that is still under way. */
  ghost predicate SetsOk(s: State)
    requires |s.places| == |s.log|
  {
    && (forall id :: id in s.core.queued <==>
          (exists t: nat :: Pending(s, t, id)) && !(s.lock.Putting? && s.lock.entry.task.id == id))
    && (forall id :: id in s.core.processing <==> exists t: nat :: InProgress(s, t, id))
    && (s.lock.Putting? ==> Pending(s, s.lock.entry.ticket, s.lock.entry.task.id))
  }

  ghost predicate Inv(s: State) {
    HistoryOk(s) && LiveOnce(s) && SetsOk(s)
  }

  /** While no put is under way, the queue knows exactly the live ids. */
  lemma KnowsExactlyTheLive(s: State, id: string)
    requires Inv(s) && s.lock == Free
    ensures s.core.Knows(id) <==> exists t: nat :: Live(s, t, id)
  {
    if exists t: nat :: Live(s, t, id) {
      var t: nat :| Live(s, t, id);
      assert Pending(s, t, id) || InProgress(s, t, id);
    }
    if exists t: nat :: Pending(s, t, id) {
      var t: nat :| Pending(s, t, id);
      assert Live(s, t, id);
    }
    if exists t: nat :: InProgress(s, t, id) {
      var t: nat :| InProgress(s, t, id);
      assert Live(s, t, id);
    }
  }

  lemma StepKeepsHeap(s: State, step: Step)
    requires Inv(s) && Enabled(s, step)
    ensures HeapOk(Apply(s, step))
  {
  }

  lemma PopKeepsHands(s: State, w: nat, e: Entry)
    requires Inv(s) && Enabled(s, GetPop(w, e))
    ensures HeapOk(Apply(s, GetPop(w, e))) && HandsOk(Apply(s, GetPop(w, e)))
  {
    StepKeepsHeap(s, GetPop(w, e));
  }

  lemma BookKeepsHands(s: State, w: nat)
    requires Inv(s) && Enabled(s, GetBook(w))
    ensures HeapOk(Apply(s, GetBook(w))) && HandsOk(Apply(s, GetBook(w)))
  {
    StepKeepsHeap(s, GetBook(w));
  }

  lemma DoneKeepsHands(s: State, w: nat)
    requires Inv(s) && Enabled(s, MarkDone(w))
    ensures HeapOk(Apply(s, MarkDone(w))) && HandsOk(Apply(s, MarkDone(w)))
  {
    StepKeepsHeap(s, MarkDone(w));
  }

  lemma StepKeepsHistory(s: State, step: Step)
    requires Inv(s) && Enabled(s, step)
    ensures HistoryOk(Apply(s, step))
  {
    StepKeepsHeap(s, step);
    match step
    case GetPop(w, e) => PopKeepsHands(s, w, e);
    case GetBook(w) => BookKeepsHands(s, w);
    case MarkDone(w) => DoneKeepsHands(s, w);
    case _ =>
  }

  lemma StepKeepsLiveOnce(s: State, step: Step)
    requires Inv(s) && Enabled(s, step)
    ensures HistoryOk(Apply(s, step)) && LiveOnce(Apply(s, step))
  {
    StepKeepsHistory(s, step);
    var s' := Apply(s, step);
    if step.PutPush? {
      KnowsExactlyTheLive(s, step.task.id);
    }
    forall t: nat, u: nat, id | Live(s', t, id) && Live(s', u, id)
      ensures t == u
    {
      assert t < |s.log| ==> Live(s, t, id);
      assert u < |s.log| ==> Live(s, u, id);
    }
  }

  lemma PushKeepsSets(s: State, task: Task, stamp: int)
    requires Inv(s) && Enabled(s, PutPush(task, stamp))
    ensures SetsOk(Apply(s, PutPush(task, stamp)))
  {
    var s' := Apply(s, PutPush(task, stamp));
    forall t: nat, id
      ensures Pending(s', t, id) <==> Pending(s, t, id) || (t == |s.log| && id == task.id)
      ensures InProgress(s', t, id) <==> InProgress(s, t, id)
    {
    }
    assert Pending(s', |s.log|, task.id);
  }

  lemma RecordKeepsSets(s: State)
    requires Inv(s) && Enabled(s, PutRecord)
    ensures SetsOk(Apply(s, PutRecord))
  {
    var s' := Apply(s, PutRecord);
    forall t: nat, id
      ensures Pending(s', t, id) <==> Pending(s, t, id)
      ensures InProgress(s', t, id) <==> InProgress(s, t, id)
    {
    }
  }

  lemma PopKeepsSets(s: State, w: nat, e: Entry)
    requires Inv(s) && Enabled(s, GetPop(w, e))
    ensures SetsOk(Apply(s, GetPop(w, e)))
  {
    var s' := Apply(s, GetPop(w, e));
    forall t: nat, id
      ensures Pending(s', t, id) <==> Pending(s, t, id)
      ensures InProgress(s', t, id) <==> InProgress(s, t, id)
    {
    }
  }

  lemma BookKeepsSets(s: State, w: nat)
    requires Inv(s) && Enabled(s, GetBook(w))
    ensures SetsOk(Apply(s, GetBook(w)))
  {
    var s' := Apply(s, GetBook(w));
    var e := s.workers[w].entry;
    assert Pending(s, e.ticket, e.task.id) && Live(s, e.ticket, e.task.id);
    forall t: nat, id
      ensures Pending(s', t, id) <==> Pending(s, t, id) && t != e.ticket
      ensures InProgress(s', t, id) <==> InProgress(s, t, id) || (t == e.ticket && id == e.task.id)
    {
    }
    forall t: nat | Pending(s, t, e.task.id)
      ensures t == e.ticket
    {
      assert Live(s, t, e.task.id);
    }
    assert InProgress(s', e.ticket, e.task.id);
  }

  lemma DoneKeepsSets(s: State, w: nat)
    requires Inv(s) && Enabled(s, MarkDone(w))
    ensures SetsOk(Apply(s, MarkDone(w)))
  {
    var s' := Apply(s, MarkDone(w));
    var e := s.workers[w].entry;
    assert Live(s, e.ticket, e.task.id);
    forall t: nat, id
      ensures Pending(s', t, id) <==> Pending(s, t, id)
      ensures InProgress(s', t, id) <==> InProgress(s, t, id) && t != e.ticket
    {
    }
    forall t: nat | InProgress(s, t, e.task.id)
      ensures t == e.ticket
    {
      assert Live(s, t, e.task.id);
    }
  }

  lemma StepKeepsSets(s: State, step: Step)
    requires Inv(s) && Enabled(s, step)
    ensures HistoryOk(Apply(s, step)) && SetsOk(Apply(s, step))
  {
    StepKeepsHistory(s, step);
    match step
    case PutRefused(_) =>
    case PutPush(task, stamp) => PushKeepsSets(s, task, stamp);
    case PutRecord => RecordKeepsSets(s);
    case GetPop(w, e) => PopKeepsSets(s, w, e);
    case GetBook(w) => BookKeepsSets(s, w);
    case MarkDone(w) => DoneKeepsSets(s, w);
  }

  // ----- runs

  /** A run: an initial state and the steps taken from it, in any interleaving. */
  ghost predicate IsRun(states: seq<State>, steps: seq<Step>) {
    && |states| == |steps| + 1 && Init(states[0])
    && forall i :: 0 <= i < |steps| ==> Enabled(states[i], steps[i]) && states[i + 1] == Apply(states[i], steps[i])
  }

  lemma {:induction false} RunKeepsInv(states: seq<State>, steps: seq<Step>, i: nat)
    requires IsRun(states, steps) && i <= |steps|
    ensures Inv(states[i])
  {
    if i > 0 {
      RunKeepsInv(states, steps, i - 1);
      StepKeepsHistory(states[i - 1], steps[i - 1]);
      StepKeepsLiveOnce(states[i - 1], steps[i - 1]);
      StepKeepsSets(states[i - 1], steps[i - 1]);
    }
  }

  /** In every reachable state, two workers never hold tasks with the same id, nor does a worker
      hold the id of a task still in the heap, nor does the heap hold an id twice. */
  lemma NoIdIsHeldTwice(states: seq<State>, steps: seq<Step>, i: nat)
    requires IsRun(states, steps) && i <= |steps|
    ensures var s := states[i];
      && (forall v, w :: 0 <= v < w < |s.workers| && !s.workers[v].Waiting? && !s.workers[w].Waiting? ==>
            s.workers[v].entry.task.id != s.workers[w].entry.task.id)
      && (forall w, e :: 0 <= w < |s.workers| && !s.workers[w].Waiting? && e in s.core.heap ==>
            s.workers[w].entry.task.id != e.task.id)
      && (forall e, f :: e in s.core.heap && f in s.core.heap && e.task.id == f.task.id ==> e == f)
  {
    RunKeepsInv(states, steps, i);
    var s := states[i];
    forall w | 0 <= w < |s.workers| && !s.workers[w].Waiting?
      ensures Live(s, s.workers[w].entry.ticket, s.workers[w].entry.task.id)
    {
    }
    forall e | e in s.core.heap
      ensures Live(s, e.ticket, e.task.id)
    {
    }
  }

  /** A put is accepted exactly when its id is not live, and the id is live from that step on. */
  lemma PutAcceptsExactlyTheNew(states: seq<State>, steps: seq<Step>, i: nat)
    requires IsRun(states, steps) && i < |steps|
    ensures Inv(states[i])
    ensures steps[i].PutPush? ==> forall t: nat :: !Live(states[i], t, steps[i].task.id)
    ensures steps[i].PutRefused? ==> exists t: nat :: Live(states[i], t, steps[i].task.id)
    ensures Inv(states[i + 1])
    ensures steps[i].PutPush? ==> Live(states[i + 1], |states[i].log|, steps[i].task.id)
  {
    RunKeepsInv(states, steps, i);
    RunKeepsInv(states, steps, i + 1);
    if steps[i].PutPush? || steps[i].PutRefused? {
      KnowsExactlyTheLive(states[i], steps[i].task.id);
    }
  }

  /** Every accepted put is in exactly one place: the heap, one worker's hands, or done. */
  lemma EveryPutIsAccountedFor(states: seq<State>, steps: seq<Step>, i: nat, t: nat)
    requires IsRun(states, steps) && i <= |steps| && t < |states[i].log|
    ensures var s, e := states[i], states[i].log[t];
      && |s.places| == |s.log|
      && (e in s.core.heap <==> s.places[t] == InHeap)
      && (forall w :: 0 <= w < |s.workers| ==>
            && (s.workers[w] == Popped(e) <==> s.places[t] == InHand(w))
            && (s.workers[w] == Working(e) <==> s.places[t] == InWork(w)))
  {
    RunKeepsInv(states, steps, i);
  }

  function Rank(p: Place): nat {
    match p
    case InHeap => 0
    case InHand(_) => 1
    case InWork(_) => 2
    case Done => 3
  }

  /** The ticket of the task that a step moves, if it moves one. */
  ghost function Moved(s: State, step: Step): Option<nat>
    requires Enabled(s, step)
  {
    match step
    case GetPop(_, e) => Some(e.ticket)
    case GetBook(w) => Some(s.workers[w].entry.ticket)
    case MarkDone(w) => Some(s.workers[w].entry.ticket)
    case _ => None
  }

  lemma StepAdvances(s: State, step: Step, t: nat)
    requires Inv(s) && Enabled(s, step) && t < |s.log|
    ensures var s' := Apply(s, step);
      && |s.places| == |s.log| <= |s'.log| == |s'.places| && s'.log[t] == s.log[t]
      && if Moved(s, step) == Some(t) then Rank(s'.places[t]) == Rank(s.places[t]) + 1 else s'.places[t] == s.places[t]
  {
  }

  /** A task moves from the heap to a worker's hands, to work, to done; no step skips one or
      goes back, and each step moves at most one task. */
  lemma TasksAdvanceInOrder(states: seq<State>, steps: seq<Step>, i: nat, t: nat)
    requires IsRun(states, steps) && i < |steps| && t < |states[i].log|
    ensures var s, s' := states[i], states[i + 1];
      && |s.places| == |s.log| <= |s'.log| == |s'.places| && s'.log[t] == s.log[t]
      && if Moved(s, steps[i]) == Some(t)
         then Rank(s'.places[t]) == Rank(s.places[t]) + 1
         else s'.places[t] == s.places[t]
  {
    RunKeepsInv(states, steps, i);
    StepAdvances(states[i], steps[i], t);
  }

  /** `is_active` is exact while no put is under way. */
  lemma ActiveIsExact(states: seq<State>, steps: seq<Step>, i: nat, id: string)
    requires IsRun(states, steps) && i <= |steps| && states[i].lock == Free
    ensures Inv(states[i])
    ensures states[i].core.Knows(id) <==> exists t: nat :: Live(states[i], t, id)
  {
    RunKeepsInv(states, steps, i);
    KnowsExactlyTheLive(states[i], id);
  }

  /** `is_idle` holds exactly when every task that is not done has been popped but not yet booked. */
  lemma IdleMeansNothingBooked(states: seq<State>, steps: seq<Step>, i: nat)
    requires IsRun(states, steps) && i <= |steps|
    ensures |states[i].places| == |states[i].log|
    ensures states[i].core.IsIdle() <==>
            forall t :: 0 <= t < |states[i].log| ==> states[i].places[t] == Done || states[i].places[t].InHand?
  {
    RunKeepsInv(states, steps, i);
    var s := states[i];
    if s.core.processing != {} {
      var id :| id in s.core.processing;
      var t: nat :| InProgress(s, t, id);
      assert s.places[t].InWork?;
    }
    if s.core.heap != {} {
      var e :| e in s.core.heap;
      assert s.places[e.ticket] == InHeap;
    }
    forall t: nat | t < |s.log|
      ensures s.places[t] == InHeap ==> s.core.heap != {}
      ensures s.places[t].InWork? ==> s.core.processing != {}
    {
      var id := s.log[t].task.id;
      if s.places[t] == InHeap {
        assert s.log[t].ticket == t;
        assert s.log[t] in s.core.heap;
      } else if s.places[t].InWork? {
        assert InProgress(s, t, id);
        assert id in s.core.processing;
      }
    }
  }

  /** So it can hold while a task is in a worker's hands. */
  lemma IdleWithATaskInHand(task: Task) returns (states: seq<State>, steps: seq<Step>)
    ensures IsRun(states, steps) && |steps| > 0
    ensures var s := states[|steps|]; s.core.IsIdle() && |s.workers| == 1 && s.workers[0].Popped?
  {
    var s0 := State(Core({}, {}, {}), Free, [Waiting], [], []);
    var e := Entry(Priority(task.kind), 0, task, 0);
    steps := [PutPush(task, 0), PutRecord, GetPop(0, e)];
    var s1 := Apply(s0, steps[0]);
    var s2 := Apply(s1, steps[1]);
    assert s2.core.heap == {e};
    var s3 := Apply(s2, steps[2]);
    states := [s0, s1, s2, s3];
  }

  // ----- order of service

  lemma {:induction false} EntriesCarryTheirPriority(states: seq<State>, steps: seq<Step>, i: nat)
    requires IsRun(states, steps) && i <= |steps|
    ensures forall t :: 0 <= t < |states[i].log| ==> states[i].log[t].priority == Priority(states[i].log[t].task.kind)
  {
    if i > 0 {
      EntriesCarryTheirPriority(states, steps, i - 1);
      assert states[i] == Apply(states[i - 1], steps[i - 1]);
    }
  }

  /** Language detection goes before requests that wait, and those go before subtitles. */
  predicate MoreUrgent(a: Kind, b: Kind) {
    (a.DetectLanguage? && !b.DetectLanguage?) || (a.Asr? && b.Transcribe?)
  }

  /** Whenever a task is popped, no accepted task that still waits is of a more urgent kind, or of the
      same kind and earlier. */
  lemma UrgentTasksGoFirst(states: seq<State>, steps: seq<Step>, i: nat, t: nat)
    requires IsRun(states, steps) && i < |steps| && steps[i].GetPop?
    requires t < |states[i].log| == |states[i].places| && states[i].places[t] == InHeap
    ensures var popped, waiting := steps[i].entry, states[i].log[t];
      && !MoreUrgent(waiting.task.kind, popped.task.kind)
      && (popped.task.kind == waiting.task.kind ==> popped.stamp <= waiting.stamp)
  {
    RunKeepsInv(states, steps, i);
    EntriesCarryTheirPriority(states, steps, i);
    assert states[i].log[t] in states[i].core.heap;
    assert !Before(states[i].log[t], steps[i].entry);
  }

  /** Accepted puts carry ever later time stamps. */
  ghost predicate StampsIncrease(log: seq<Entry>) {
    forall t, u :: 0 <= t < u < |log| ==> log[t].stamp < log[u].stamp
  }

  /** No task has left the heap before an earlier one of the same priority. */
  ghost predicate NoOvertaking(s: State)
    requires |s.places| == |s.log|
  {
    forall t, u :: 0 <= t < u < |s.log| && s.log[t].priority == s.log[u].priority && s.places[t] == InHeap ==>
      s.places[u] == InHeap
  }

  lemma StepsKeepLog(states: seq<State>, steps: seq<Step>, i: nat)
    requires IsRun(states, steps) && i < |steps|
    ensures states[i].log <= states[i + 1].log
  {
  }

  /** The heap is recorded accurately, and only a pop takes a task from it: the one it pops. */
  ghost predicate PopsOnly(s: State, step: Step)
    requires Enabled(s, step)
  {
    var s' := Apply(s, step);
    && HeapOk(s) && |s'.places| == |s'.log| && s.log <= s'.log
    && forall t :: 0 <= t < |s.log| ==>
         (s'.places[t] == InHeap <==> s.places[t] == InHeap && !(step.GetPop? && step.entry.ticket == t))
  }

  lemma OnlyPopsTakeFromTheHeap(states: seq<State>, steps: seq<Step>, i: nat)
    requires IsRun(states, steps) && i < |steps|
    ensures PopsOnly(states[i], steps[i])
  {
    RunKeepsInv(states, steps, i);
  }

  lemma StepKeepsOrder(s: State, step: Step)
    requires Enabled(s, step) && PopsOnly(s, step) && NoOvertaking(s) && StampsIncrease(s.log)
    ensures NoOvertaking(Apply(s, step))
  {
    if step.GetPop? {
      var e, s' := step.entry, Apply(s, step);
      forall t, u | 0 <= t < u < |s.log| && s.log[t].priority == s.log[u].priority && s'.places[t] == InHeap
        ensures s'.places[u] == InHeap
      {
        assert s.log[t] in s.core.heap;
        assert !Before(s.log[t], e) && Before(s.log[t], s.log[u]);
      }
    }
  }

  /** Under a clock that advances between puts, tasks of one priority are started in the order in
      which they were accepted. */
  lemma {:induction false} TasksAreServedInOrder(states: seq<State>, steps: seq<Step>, i: nat)
    requires IsRun(states, steps) && i <= |steps| && StampsIncrease(states[i].log)
    ensures |states[i].places| == |states[i].log| && NoOvertaking(states[i])
  {
    if i > 0 {
      StepsKeepLog(states, steps, i - 1);
      assert forall t :: 0 <= t < |states[i - 1].log| ==> states[i - 1].log[t] == states[i].log[t];
      TasksAreServedInOrder(states, steps, i - 1);
      OnlyPopsTakeFromTheHeap(states, steps, i - 1);
      StepKeepsOrder(states[i - 1], steps[i - 1]);
    }
  }

  // ----- the code

  lemma {:induction false} LeastExists(heap: set<Entry>)
    requires heap != {}
    ensures exists e :: IsLeast(e, heap)
  {
    var x :| x in heap;
    var rest := heap - {x};
    if rest == {} {
      assert heap == {x};
      assert IsLeast(x, heap);
    } else {
      LeastExists(rest);
      var e :| IsLeast(e, rest);
      var least := if Before(x, e) then x else e;
      forall f | f in heap
        ensures !Before(f, least)
      {
        assert f == x || f in rest;
      }
      assert IsLeast(least, heap);
    }
  }

  /** The queue object. A get is popping and booking with nothing in between here; the machine
      above is what happens when other threads come in between. */
  class DeduplicatedQueue {
    var heap: set<Entry>
    var queued: set<string>
    var processing: set<string>
    var tickets: nat

    constructor ()
      ensures View() == Core({}, {}, {}) && tickets == 0
    {
      heap, queued, processing, tickets := {}, {}, {}, 0;
    }

    function View(): Core
      reads this
    {
      Core(heap, queued, processing)
    }

    /** The stamp is the clock's reading; equal stamps within a priority are not modelled. */
    method Put(task: Task, stamp: int) returns (accepted: bool)
      requires forall e :: e in heap ==> e.priority != Priority(task.kind) || e.stamp != stamp
      modifies this
      ensures accepted == !old(View()).Knows(task.id)
      ensures View() == if accepted
                        then old(View()).Push(Entry(Priority(task.kind), stamp, task, old(tickets))).Record(task.id)
                        else old(View())
      ensures tickets == old(tickets) + if accepted then 1 else 0
    {
      var taskId := task.id;
      if taskId !in queued && taskId !in processing {
        heap := heap + {Entry(Priority(task.kind), stamp, task, tickets)};
        tickets := tickets + 1;
        queued := queued + {taskId};
        return true;
      }
      return false;
    }

    /** None stands for a timeout on an empty heap. */
    method Get() returns (item: Option<Entry>)
      modifies this
      ensures item.None? <==> old(heap) == {}
      ensures item.Some? ==> IsLeast(item.value, old(heap))
      ensures View() == match item
        case Some(e) => old(View()).Pop(e).Book(e.task.id)
        case None => old(View())
      ensures tickets == old(tickets)
    {
      if heap == {} {
        return None;
      }
      LeastExists(heap);
      var e :| e in heap && forall f :: f in heap ==> !Before(f, e);
      heap := heap - {e};
      queued, processing := queued - {e.task.id}, processing + {e.task.id};
      return Some(e);
    }

    method MarkDone(task: Task)
      modifies this
      ensures View() == old(View()).Finish(task.id) && tickets == old(tickets)
    {
      processing := processing - {task.id};
    }
  }
}
