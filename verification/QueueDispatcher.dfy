/** The download queue's dispatcher and the album jobs it starts, as a state machine. The dispatcher
    looks at one row per step, so starts, ends and settlements of jobs may come in between. */
module QueueDispatcher {
  import opened Wrappers

  datatype Status = Queued | Downloading

  datatype Row = Row(album: int, status: Status, force: bool)

  /** Who started a job: the dispatcher for a plain row, the dispatcher for a download-client
      album, or a user by hand. */
  datatype Kind = QueueRun | ClientRun | ManualRun

  /** Started, downloading, turned away as busy, through with it, settled. */
  datatype Phase = Starting | Running | Refused | Ended | Gone

  datatype Job = Job(album: int, kind: Kind, phase: Phase)
  {
    /** Client jobs have state containers of their own; all others share the foreground one. */
    predicate UsesForeground() {
      !kind.ClientRun?
    }
  }

  datatype Entry = Entry(album: int, force: bool)

  datatype State = State(
    queue: seq<Row>,
    jobs: seq<Job>,
    active: map<int, nat>,
    foreground: bool,
    scan: Option<seq<Entry>>,
    clients: set<int>,
    limit: nat)

  // ----- the queue table

  function QueuedEntries(queue: seq<Row>): seq<Entry> {
    if queue == [] then []
    else if queue[0].status.Queued? then [Entry(queue[0].album, queue[0].force)] + QueuedEntries(queue[1..])
    else QueuedEntries(queue[1..])
  }

  predicate HasRow(queue: seq<Row>, album: int) {
    exists i :: 0 <= i < |queue| && queue[i].album == album
  }

  predicate HasRowIn(queue: seq<Row>, album: int, status: Status) {
    exists i :: 0 <= i < |queue| && queue[i].album == album && queue[i].status == status
  }

  function SetStatus(queue: seq<Row>, album: int, status: Status): (q: seq<Row>)
    ensures |q| == |queue|
    ensures forall i :: 0 <= i < |q| ==>
              q[i] == if queue[i].album == album then queue[i].(status := status) else queue[i]
  {
    seq(|queue|, i requires 0 <= i < |queue| =>
      if queue[i].album == album then queue[i].(status := status) else queue[i])
  }

  function Dequeue(queue: seq<Row>, album: int): seq<Row> {
    if queue == [] then []
    else if queue[0].album == album then Dequeue(queue[1..], album)
    else [queue[0]] + Dequeue(queue[1..], album)
  }

  // ----- the steps

  datatype Step =
    | Enqueue(album: int, force: bool)
    | GrabByClient(album: int)
    | ReleaseClient(album: int)
    | BeginTick
    | Examine
    | EndTick
    | StartByHand(album: int)
    | Start(job: nat)
    | End(job: nat)
    | Settle(job: nat)
    | StopAll

  predicate Enabled(s: State, step: Step) {
    match step
    case BeginTick => s.scan.None?
    case Examine => s.scan.Some? && s.scan.value != []
    case EndTick => s.scan.Some? && s.scan.value == []
    case Start(j) => j < |s.jobs| && s.jobs[j].phase.Starting?
    case End(j) => j < |s.jobs| && s.jobs[j].phase.Running?
    case Settle(j) => j < |s.jobs| && (s.jobs[j].phase.Refused? || s.jobs[j].phase.Ended?)
    case _ => true
  }

  function ClientCount(s: State): nat {
    |set a | a in s.active && s.active[a] < |s.jobs| && s.jobs[s.active[a]].kind.ClientRun?|
  }

  predicate ActiveAsClient(s: State, album: int) {
    album in s.active && s.active[album] < |s.jobs| && s.jobs[s.active[album]].kind.ClientRun?
  }

  /** Whether the dispatcher may start the album now. */
  predicate Eligible(s: State, album: int) {
    && album !in s.active
    && (if album in s.clients then ClientCount(s) < s.limit else !s.foreground)
  }

  /** The job that the dispatcher starts for an album. */
  function JobFor(s: State, album: int): Job {
    Job(album, if album in s.clients then ClientRun else QueueRun, Starting)
  }

  function ExamineRow(s: State, album: int, rest: seq<Entry>): State {
    if album in s.active then
      if album in s.clients && !ActiveAsClient(s, album) then s.(scan := Some(rest))
      else s.(scan := Some(rest), queue := Dequeue(s.queue, album))
    else if album in s.clients then
      if ClientCount(s) >= s.limit then s.(scan := Some(rest))
      else s.(scan := None, queue := Dequeue(s.queue, album), jobs := s.jobs + [Job(album, ClientRun, Starting)])
    else if s.foreground then s.(scan := Some(rest))
    else
      s.(scan := None, queue := SetStatus(s.queue, album, Downloading),
         jobs := s.jobs + [Job(album, QueueRun, Starting)])
  }

  function SetPhase(jobs: seq<Job>, j: nat, phase: Phase): seq<Job>
    requires j < |jobs|
  {
    jobs[j := jobs[j].(phase := phase)]
  }

  function Apply(s: State, step: Step): State
    requires Enabled(s, step)
  {
    match step
    case Enqueue(album, force) =>
      if HasRow(s.queue, album) then s else s.(queue := s.queue + [Row(album, Queued, force)])
    case GrabByClient(album) => s.(clients := s.clients + {album})
    case ReleaseClient(album) => s.(clients := s.clients - {album})
    case BeginTick => s.(scan := Some(QueuedEntries(s.queue)))
    case Examine => ExamineRow(s, s.scan.value[0].album, s.scan.value[1..])
    case EndTick => s.(scan := None)
    case StartByHand(album) => s.(jobs := s.jobs + [Job(album, ManualRun, Starting)])
    case Start(j) =>
      var job := s.jobs[j];
      if (job.UsesForeground() && s.foreground) || job.album in s.active then s.(jobs := SetPhase(s.jobs, j, Refused))
      else s.(jobs := SetPhase(s.jobs, j, Running), active := s.active[job.album := j],
              foreground := s.foreground || job.UsesForeground())
    case End(j) =>
      var job := s.jobs[j];
      s.(jobs := SetPhase(s.jobs, j, Ended), active := s.active - {job.album},
         foreground := s.foreground && !job.UsesForeground())
    case Settle(j) =>
      var job := s.jobs[j];
      var s' := s.(jobs := SetPhase(s.jobs, j, Gone));
      if !job.kind.QueueRun? then s'
      else if job.phase.Refused? || job.album in s.clients then s'.(queue := SetStatus(s.queue, job.album, Queued))
      else s'.(queue := Dequeue(s.queue, job.album))
    case StopAll => s.(queue := [])
  }

  ghost predicate Init(s: State) {
    s.jobs == [] && s.active == map[] && !s.foreground && s.scan.None? && s.queue == []
  }

  ghost predicate StepAt(states: seq<State>, steps: seq<Step>, i: nat)
    requires i < |steps| < |states|
  {
    Enabled(states[i], steps[i]) && states[i + 1] == Apply(states[i], steps[i])
  }

  ghost predicate IsRun(states: seq<State>, steps: seq<Step>) {
    && |states| == |steps| + 1 && Init(states[0])
    && forall i :: 0 <= i < |steps| ==> StepAt(states, steps, i)
  }

  // ----- no album twice, one foreground run

  /** The registry lists exactly the running jobs, each under its album. */
  ghost predicate RegistryOk(s: State) {
    && (forall a :: a in s.active ==>
          s.active[a] < |s.jobs| && s.jobs[s.active[a]].album == a && s.jobs[s.active[a]].phase.Running?)
    && (forall j :: 0 <= j < |s.jobs| && s.jobs[j].phase.Running? ==>
          s.jobs[j].album in s.active && s.active[s.jobs[j].album] == j)
  }

  ghost predicate InForeground(s: State, j: nat) {
    j < |s.jobs| && s.jobs[j].phase.Running? && s.jobs[j].UsesForeground()
  }

  /** The foreground state is in use exactly while one running job uses it. */
  ghost predicate ForegroundOk(s: State) {
    && (s.foreground <==> exists j: nat :: InForeground(s, j))
    && (forall j: nat, k: nat :: InForeground(s, j) && InForeground(s, k) ==> j == k)
  }

  lemma StartKeepsRegistry(s: State, j: nat)
    requires RegistryOk(s) && Enabled(s, Start(j))
    ensures RegistryOk(Apply(s, Start(j)))
  {
  }

  lemma EndKeepsRegistry(s: State, j: nat)
    requires RegistryOk(s) && Enabled(s, End(j))
    ensures RegistryOk(Apply(s, End(j)))
  {
  }

  lemma QuietStepKeepsRegistry(s: State, step: Step)
    requires RegistryOk(s) && Enabled(s, step) && !step.Start? && !step.End?
    ensures RegistryOk(Apply(s, step))
  {
    var s' := Apply(s, step);
    assert s'.active == s.active && |s.jobs| <= |s'.jobs|;
    forall j | 0 <= j < |s'.jobs|
      ensures s'.jobs[j].phase.Running? <==> j < |s.jobs| && s.jobs[j].phase.Running?
      ensures j < |s.jobs| ==> s'.jobs[j].album == s.jobs[j].album
    {
    }
  }

  lemma StepKeepsRegistry(s: State, step: Step)
    requires RegistryOk(s) && Enabled(s, step)
    ensures RegistryOk(Apply(s, step))
  {
    match step
    case Start(j) => StartKeepsRegistry(s, j);
    case End(j) => EndKeepsRegistry(s, j);
    case _ => QuietStepKeepsRegistry(s, step);
  }

  lemma StartOrEndKeepsForeground(s: State, step: Step)
    requires ForegroundOk(s) && Enabled(s, step) && (step.Start? || step.End?)
    ensures ForegroundOk(Apply(s, step))
  {
    var s', j := Apply(s, step), step.job;
    assert InForeground(s', j) <==> s'.jobs[j].phase.Running? && s.jobs[j].UsesForeground();
    assert InForeground(s, j) <==> step.End? && s.jobs[j].UsesForeground();
    forall k: nat | k != j
      ensures InForeground(s', k) <==> InForeground(s, k)
    {
    }
  }

  lemma StepKeepsForeground(s: State, step: Step)
    requires ForegroundOk(s) && Enabled(s, step)
    ensures ForegroundOk(Apply(s, step))
  {
    var s' := Apply(s, step);
    if step.Start? || step.End? {
      StartOrEndKeepsForeground(s, step);
    } else {
      forall j: nat
        ensures InForeground(s', j) <==> InForeground(s, j)
      {
      }
    }
  }

  lemma {:induction false} RunIsSafe(states: seq<State>, steps: seq<Step>, i: nat)
    requires IsRun(states, steps) && i <= |steps|
    ensures RegistryOk(states[i]) && ForegroundOk(states[i])
  {
    if i > 0 {
      RunIsSafe(states, steps, i - 1);
      assert StepAt(states, steps, i - 1);
      StepKeepsRegistry(states[i - 1], steps[i - 1]);
      StepKeepsForeground(states[i - 1], steps[i - 1]);
    }
  }

  /** In every run, user stops included: no album is ever downloading twice, and the foreground
      state belongs to at most one running job, and to one exactly while it is marked active. */
  lemma NoAlbumDownloadsTwice(states: seq<State>, steps: seq<Step>, i: nat, j: nat, k: nat)
    requires IsRun(states, steps) && i <= |steps| && j < k < |states[i].jobs|
    requires states[i].jobs[j].phase.Running? && states[i].jobs[k].phase.Running?
    ensures states[i].jobs[j].album != states[i].jobs[k].album
    ensures states[i].jobs[j].kind.ClientRun? || states[i].jobs[k].kind.ClientRun?
  {
    RunIsSafe(states, steps, i);
    assert InForeground(states[i], j) <==> states[i].jobs[j].UsesForeground();
    assert InForeground(states[i], k) <==> states[i].jobs[k].UsesForeground();
  }

  ghost predicate AlbumRuns(s: State, a: int) {
    exists k :: 0 <= k < |s.jobs| && s.jobs[k].phase.Running? && s.jobs[k].album == a
  }

  ghost predicate ForegroundRuns(s: State) {
    exists k :: 0 <= k < |s.jobs| && s.jobs[k].phase.Running? && s.jobs[k].UsesForeground()
  }

  /** What the registry and the foreground mark say of the jobs. */
  lemma RegistryMeaning(s: State)
    requires RegistryOk(s) && ForegroundOk(s)
    ensures forall a :: a in s.active <==> AlbumRuns(s, a)
    ensures s.foreground <==> ForegroundRuns(s)
  {
    forall a
      ensures a in s.active <==> AlbumRuns(s, a)
    {
      if a in s.active { assert s.jobs[s.active[a]].album == a; }
    }
    if s.foreground {
      var j: nat :| InForeground(s, j);
      assert s.jobs[j].phase.Running?;
    }
    if ForegroundRuns(s) {
      var k :| 0 <= k < |s.jobs| && s.jobs[k].phase.Running? && s.jobs[k].UsesForeground();
      assert InForeground(s, k);
    }
  }

  /** In every run, a starting job is turned away exactly if its album is downloading already, or it needs
      the foreground state and a running job uses it; otherwise it runs. */
  lemma RefusedExactlyWhen(states: seq<State>, steps: seq<Step>, i: nat)
    requires IsRun(states, steps) && i < |steps| && steps[i].Start?
    ensures var s, j := states[i], steps[i].job;
      && j < |s.jobs| == |states[i + 1].jobs|
      && states[i + 1].jobs[j].phase
         == if AlbumRuns(s, s.jobs[j].album) || (s.jobs[j].UsesForeground() && ForegroundRuns(s)) then Refused
            else Running
  {
    RunIsSafe(states, steps, i);
    assert StepAt(states, steps, i);
    RegistryMeaning(states[i]);
  }

  ghost function RunningClients(s: State): set<nat> {
    set k: nat | k < |s.jobs| && s.jobs[k].phase.Running? && s.jobs[k].kind.ClientRun?
  }

  lemma {:induction false} SameSize<A, B>(albums: set<A>, active: map<A, B>, jobs: set<B>)
    requires forall a :: a in albums ==> a in active && active[a] in jobs
    requires forall a, b :: a in albums && b in albums && active[a] == active[b] ==> a == b
    requires forall k :: k in jobs ==> exists a :: a in albums && active[a] == k
    ensures |albums| == |jobs|
    decreases albums
  {
    if albums != {} {
      var a :| a in albums;
      var k := active[a];
      forall l | l in jobs - {k}
        ensures exists b :: b in albums - {a} && active[b] == l
      {
        var b :| b in albums && active[b] == l;
        assert b in albums - {a};
      }
      SameSize(albums - {a}, active, jobs - {k});
    } else {
      assert jobs == {};
    }
  }

  lemma ClientCountMeaning(s: State)
    requires RegistryOk(s)
    ensures ClientCount(s) == |RunningClients(s)|
  {
    var albums := set a | a in s.active && s.active[a] < |s.jobs| && s.jobs[s.active[a]].kind.ClientRun?;
    forall k | k in RunningClients(s)
      ensures exists a :: a in albums && s.active[a] == k
    {
      assert s.jobs[k].album in albums;
    }
    assert forall a :: a in albums ==> a in s.active && s.active[a] in RunningClients(s);
    assert forall a, b :: a in albums && b in albums && s.active[a] == s.active[b] ==> a == b;
    SameSize(albums, s.active, RunningClients(s));
  }

  /** In every run, an album is eligible exactly if it is not downloading and there is room: a client's
      album needs fewer running client jobs than the limit, any other the free foreground state. */
  lemma EligibleExactlyWhen(states: seq<State>, steps: seq<Step>, i: nat, a: int)
    requires IsRun(states, steps) && i <= |steps|
    ensures var s := states[i];
      Eligible(s, a) <==>
        && !AlbumRuns(s, a)
        && if a in s.clients then |RunningClients(s)| < s.limit else !ForegroundRuns(s)
  {
    RunIsSafe(states, steps, i);
    RegistryMeaning(states[i]);
    ClientCountMeaning(states[i]);
  }

  /** The dispatcher starts a job for the row it looks at exactly when the album is eligible, and
      that ends the tick; otherwise it goes on to the next row in queue order. */
  lemma TickStartsTheFirstEligible(s: State)
    requires Enabled(s, Examine)
    ensures var s', head := Apply(s, Examine), s.scan.value[0];
      if Eligible(s, head.album) then
        s'.scan.None? && s'.jobs == s.jobs + [JobFor(s, head.album)]
      else
        s'.scan == Some(s.scan.value[1..]) && s'.jobs == s.jobs
  {
  }

  // ----- a tick among other steps

  /** The tick begun by step `b` has not ended when the run is in state `k`. */
  ghost predicate TickOpen(states: seq<State>, steps: seq<Step>, b: nat, k: nat) {
    && IsRun(states, steps) && b < k <= |steps| && steps[b].BeginTick?
    && forall m :: b < m <= k ==> states[m].scan.Some?
  }

  /** The jobs of `s` have kept their place and kind in `s'`, and the others were started by hand. */
  ghost predicate OnlyByHand(s: State, s': State) {
    && |s.jobs| <= |s'.jobs|
    && forall n :: 0 <= n < |s'.jobs| ==> s'.jobs[n].kind == if n < |s.jobs| then s.jobs[n].kind else ManualRun
  }

  /** Step `look` of the tick is at row `q` of the snapshot and finds its album not eligible at that
      moment. */
  ghost predicate LookedInVain(states: seq<State>, steps: seq<Step>, b: nat, q: nat, look: nat)
    requires TickOpen(states, steps, b, look) && look < |steps|
  {
    var entries := QueuedEntries(states[b].queue);
    && q < |entries| && steps[look].Examine? && states[look].scan == Some(entries[q..])
    && !Eligible(states[look], entries[q].album)
  }

  /** The looks of a tick so far, one a row, in the order of the snapshot. */
  ghost predicate AreLooks(states: seq<State>, steps: seq<Step>, b: nat, k: nat, looks: seq<nat>)
    requires TickOpen(states, steps, b, k)
  {
    && (forall q :: 0 <= q < |looks| ==> b < looks[q] < k && LookedInVain(states, steps, b, q, looks[q]))
    && (forall p, q :: 0 <= p < q < |looks| ==> looks[p] < looks[q])
    && (forall m :: b < m < k && steps[m].Examine? ==> m in looks)
  }

  lemma StepWithinTick(s: State, step: Step)
    requires Enabled(s, step) && s.scan.Some? && Apply(s, step).scan.Some?
    ensures OnlyByHand(s, Apply(s, step))
    ensures if step.Examine? then
              !Eligible(s, s.scan.value[0].album) && Apply(s, step).scan.value == s.scan.value[1..]
            else
              Apply(s, step).scan == s.scan
  {
  }

  /** How far the tick has come: the looks so far, the rest of the snapshot, and the jobs. */
  ghost predicate TickAt(states: seq<State>, steps: seq<Step>, b: nat, k: nat, looks: seq<nat>)
    requires TickOpen(states, steps, b, k)
  {
    var entries := QueuedEntries(states[b].queue);
    && AreLooks(states, steps, b, k, looks) && OnlyByHand(states[b], states[k])
    && |looks| <= |entries| && states[k].scan == Some(entries[|looks|..])
  }

  lemma TickBegins(states: seq<State>, steps: seq<Step>, b: nat)
    requires TickOpen(states, steps, b, b + 1)
    ensures TickAt(states, steps, b, b + 1, [])
  {
    var entries := QueuedEntries(states[b].queue);
    assert StepAt(states, steps, b) && entries[0..] == entries;
  }

  lemma LookInVain(states: seq<State>, steps: seq<Step>, b: nat, k: nat, looks: seq<nat>)
    requires TickOpen(states, steps, b, k + 1) && b < k && TickAt(states, steps, b, k, looks) && steps[k].Examine?
    ensures TickAt(states, steps, b, k + 1, looks + [k])
  {
    var entries := QueuedEntries(states[b].queue);
    assert StepAt(states, steps, k);
    StepWithinTick(states[k], steps[k]);
    assert entries[|looks|..][1..] == entries[|looks| + 1..];
    assert LookedInVain(states, steps, b, |looks|, k);
  }

  lemma StepBetweenLooks(states: seq<State>, steps: seq<Step>, b: nat, k: nat, looks: seq<nat>)
    requires TickOpen(states, steps, b, k + 1) && b < k && TickAt(states, steps, b, k, looks) && !steps[k].Examine?
    ensures TickAt(states, steps, b, k + 1, looks)
  {
    assert StepAt(states, steps, k);
    StepWithinTick(states[k], steps[k]);
  }

  lemma {:induction false} TickSoFar(states: seq<State>, steps: seq<Step>, b: nat, k: nat) returns (looks: seq<nat>)
    requires TickOpen(states, steps, b, k)
    ensures TickAt(states, steps, b, k, looks)
    decreases k
  {
    looks := [];
    if k > b + 1 {
      looks := TickSoFar(states, steps, b, k - 1);
      if steps[k - 1].Examine? {
        LookInVain(states, steps, b, k - 1, looks);
        looks := looks + [k - 1];
      } else {
        StepBetweenLooks(states, steps, b, k - 1, looks);
      }
    } else {
      TickBegins(states, steps, b);
    }
  }

  /** In every run, whatever starts and ends between its looks: a tick looks at the rows of its
      snapshot one by one in order. As long as it goes on, it has found each of them not eligible
      when it looked, and all jobs started meanwhile were started by hand. It starts a job exactly
      if it looks at a row that is eligible by then, for that row, and it ends there; otherwise it
      ends when no row is left. */
  lemma TickStartsAtMostOne(states: seq<State>, steps: seq<Step>, b: nat, k: nat) returns (looks: seq<nat>)
    requires TickOpen(states, steps, b, k) && k < |steps|
    ensures TickAt(states, steps, b, k, looks)
    ensures var s, s', entries := states[k], states[k + 1], QueuedEntries(states[b].queue);
      match steps[k]
      case Examine =>
        && |looks| < |entries|
        && var album := entries[|looks|].album;
           if Eligible(s, album) then s'.scan.None? && s'.jobs == s.jobs + [JobFor(s, album)]
           else s'.scan == Some(entries[|looks| + 1..]) && s'.jobs == s.jobs
      case EndTick => |looks| == |entries| && s'.scan.None? && s'.jobs == s.jobs
      case _ => s'.scan == s.scan && OnlyByHand(s, s')
  {
    looks := TickSoFar(states, steps, b, k);
    assert StepAt(states, steps, k);
    var rest := QueuedEntries(states[b].queue)[|looks|..];
    if steps[k].Examine? {
      TickStartsTheFirstEligible(states[k]);
      assert rest[1..] == QueuedEntries(states[b].queue)[|looks| + 1..];
    } else if !steps[k].EndTick? {
      StepWithinTick(states[k], steps[k]);
    }
  }

  // ----- rows are not lost

  ghost predicate DistinctRows(queue: seq<Row>) {
    forall i, j :: 0 <= i < j < |queue| ==> queue[i].album != queue[j].album
  }

  lemma SetStatusRows(queue: seq<Row>, album: int, status: Status, a: int, x: Status)
    ensures HasRowIn(SetStatus(queue, album, status), a, x)
            <==> if a == album then HasRow(queue, a) && x == status else HasRowIn(queue, a, x)
    ensures HasRow(SetStatus(queue, album, status), a) <==> HasRow(queue, a)
  {
    var q := SetStatus(queue, album, status);
    forall i | 0 <= i < |queue|
      ensures q[i].album == queue[i].album
    {
    }
  }

  lemma ConsRows(queue: seq<Row>, a: int, x: Status)
    requires queue != []
    ensures HasRowIn(queue, a, x) <==> (queue[0].album == a && queue[0].status == x) || HasRowIn(queue[1..], a, x)
    ensures HasRow(queue, a) <==> queue[0].album == a || HasRow(queue[1..], a)
  {
    if HasRowIn(queue[1..], a, x) {
      var i :| 0 <= i < |queue| - 1 && queue[1..][i].album == a && queue[1..][i].status == x;
      assert queue[i + 1] == queue[1..][i];
    }
    if HasRow(queue[1..], a) {
      var i :| 0 <= i < |queue| - 1 && queue[1..][i].album == a;
      assert queue[i + 1] == queue[1..][i];
    }
    if HasRowIn(queue, a, x) && !(queue[0].album == a && queue[0].status == x) {
      var i :| 0 <= i < |queue| && queue[i].album == a && queue[i].status == x;
      assert queue[1..][i - 1] == queue[i];
    }
    if HasRow(queue, a) && queue[0].album != a {
      var i :| 0 <= i < |queue| && queue[i].album == a;
      assert queue[1..][i - 1] == queue[i];
    }
  }

  lemma {:induction false} DequeueRows(queue: seq<Row>, album: int, a: int, x: Status)
    ensures HasRowIn(Dequeue(queue, album), a, x) <==> a != album && HasRowIn(queue, a, x)
    ensures HasRow(Dequeue(queue, album), a) <==> a != album && HasRow(queue, a)
  {
    if queue != [] {
      DequeueRows(queue[1..], album, a, x);
      ConsRows(queue, a, x);
      if queue[0].album != album {
        ConsRows([queue[0]] + Dequeue(queue[1..], album), a, x);
      }
    }
  }

  lemma {:induction false} DequeueKeepsDistinct(queue: seq<Row>, album: int)
    requires DistinctRows(queue)
    ensures DistinctRows(Dequeue(queue, album))
  {
    if queue != [] {
      DequeueKeepsDistinct(queue[1..], album);
      var rest := Dequeue(queue[1..], album);
      forall i | 0 <= i < |rest|
        ensures rest[i].album != queue[0].album
      {
        DequeueRows(queue[1..], album, rest[i].album, rest[i].status);
        assert HasRow(rest, rest[i].album);
        var j :| 0 <= j < |queue| - 1 && queue[1..][j].album == rest[i].album;
        assert queue[1..][j] == queue[j + 1];
      }
    }
  }

  ghost predicate DistinctEntries(entries: seq<Entry>) {
    forall i, j :: 0 <= i < j < |entries| ==> entries[i].album != entries[j].album
  }

  /** A tick's snapshot lists queued rows, each once. */
  lemma {:induction false} SnapshotRows(queue: seq<Row>)
    requires DistinctRows(queue)
    ensures DistinctEntries(QueuedEntries(queue))
    ensures forall i :: 0 <= i < |QueuedEntries(queue)| ==> HasRowIn(queue, QueuedEntries(queue)[i].album, Queued)
  {
    if queue != [] {
      var rest := QueuedEntries(queue[1..]);
      SnapshotRows(queue[1..]);
      forall i | 0 <= i < |rest|
        ensures HasRowIn(queue, rest[i].album, Queued) && rest[i].album != queue[0].album
      {
        ConsRows(queue, rest[i].album, Queued);
        var j :| 0 <= j < |queue| - 1 && queue[1..][j].album == rest[i].album;
        assert queue[1..][j] == queue[j + 1];
      }
      assert queue[0].status.Queued? ==> HasRowIn(queue, queue[0].album, Queued);
    }
  }

  function QueuedCount(queue: seq<Row>): nat {
    |QueuedEntries(queue)|
  }

  lemma {:induction false} SnapshotSplits(a: seq<Row>, b: seq<Row>)
    ensures QueuedEntries(a + b) == QueuedEntries(a) + QueuedEntries(b)
  {
    if a == [] {
      assert a + b == b;
    } else {
      assert (a + b)[1..] == a[1..] + b;
      SnapshotSplits(a[1..], b);
    }
  }

  /** A tick's snapshot leaves out no queued row and keeps their order: a queued row stands behind as
      many entries as there are queued rows before it. */
  lemma SnapshotIsComplete(queue: seq<Row>, i: nat)
    requires i < |queue| && queue[i].status.Queued?
    ensures QueuedCount(queue[..i]) < |QueuedEntries(queue)|
    ensures QueuedEntries(queue)[QueuedCount(queue[..i])] == Entry(queue[i].album, queue[i].force)
    ensures forall k :: 0 <= k < i ==> QueuedCount(queue[..k]) <= QueuedCount(queue[..i])
    ensures forall k :: 0 <= k < i && queue[k].status.Queued? ==> QueuedCount(queue[..k]) < QueuedCount(queue[..i])
  {
    assert queue == queue[..i] + queue[i..];
    SnapshotSplits(queue[..i], queue[i..]);
    forall k | 0 <= k < i
      ensures QueuedCount(queue[..k]) <= QueuedCount(queue[..i])
      ensures queue[k].status.Queued? ==> QueuedCount(queue[..k]) < QueuedCount(queue[..i])
    {
      assert queue[..i] == queue[..k] + queue[k..i];
      SnapshotSplits(queue[..k], queue[k..i]);
    }
  }

  lemma AppendRow(queue: seq<Row>, row: Row, a: int, x: Status)
    ensures HasRowIn(queue + [row], a, x) <==> HasRowIn(queue, a, x) || (row.album == a && row.status == x)
    ensures HasRow(queue + [row], a) <==> HasRow(queue, a) || row.album == a
  {
    var q := queue + [row];
    assert q[|queue|] == row;
    if HasRowIn(queue, a, x) {
      var i :| 0 <= i < |queue| && queue[i].album == a && queue[i].status == x;
      assert q[i] == queue[i];
    }
    if HasRow(queue, a) {
      var i :| 0 <= i < |queue| && queue[i].album == a;
      assert q[i] == queue[i];
    }
  }

  lemma OneStatus(queue: seq<Row>, a: int)
    requires DistinctRows(queue)
    ensures !(HasRowIn(queue, a, Queued) && HasRowIn(queue, a, Downloading))
    ensures HasRow(queue, a) <==> HasRowIn(queue, a, Queued) || HasRowIn(queue, a, Downloading)
  {
    if HasRow(queue, a) {
      var i :| 0 <= i < |queue| && queue[i].album == a;
      assert HasRowIn(queue, a, queue[i].status);
    }
  }

  /** Job `j` was started for a row of album `a` and has not been settled. */
  ghost predicate Owes(s: State, j: nat, a: int) {
    j < |s.jobs| && s.jobs[j].kind.QueueRun? && s.jobs[j].album == a && !s.jobs[j].phase.Gone?
  }

  /** A row is marked as downloading exactly while a job owes it a settlement. */
  ghost predicate RowOk(s: State, a: int) {
    && (HasRowIn(s.queue, a, Downloading) <==> exists j: nat :: Owes(s, j, a))
    && (forall j: nat, k: nat :: Owes(s, j, a) && Owes(s, k, a) ==> j == k)
  }

  /** What the dispatcher has still to look at is queued. */
  ghost predicate ScanOk(s: State) {
    s.scan.Some? ==>
      && DistinctEntries(s.scan.value)
      && forall i :: 0 <= i < |s.scan.value| ==> HasRowIn(s.queue, s.scan.value[i].album, Queued)
  }

  ghost predicate RowsOk(s: State) {
    DistinctRows(s.queue) && (forall a :: RowOk(s, a)) && ScanOk(s)
  }

  lemma SameOwes(s: State, s': State, a: int)
    requires RowOk(s, a)
    requires HasRowIn(s'.queue, a, Downloading) <==> HasRowIn(s.queue, a, Downloading)
    requires forall j: nat :: Owes(s', j, a) <==> Owes(s, j, a)
    ensures RowOk(s', a)
  {
  }

  lemma EnqueueKeepsRows(s: State, album: int, force: bool)
    requires RowsOk(s)
    ensures RowsOk(Apply(s, Enqueue(album, force)))
  {
    var s' := Apply(s, Enqueue(album, force));
    if !HasRow(s.queue, album) {
      forall a, x: Status
        ensures HasRowIn(s'.queue, a, x) <==> HasRowIn(s.queue, a, x) || (a == album && x == Queued)
      {
        AppendRow(s.queue, Row(album, Queued, force), a, x);
      }
      forall a
        ensures RowOk(s', a)
      {
        assert RowOk(s, a);
        SameOwes(s, s', a);
      }
    }
  }

  lemma BeginTickKeepsRows(s: State)
    requires RowsOk(s) && Enabled(s, BeginTick)
    ensures RowsOk(Apply(s, BeginTick))
  {
    SnapshotRows(s.queue);
    forall a
      ensures RowOk(Apply(s, BeginTick), a)
    {
      assert RowOk(s, a);
      SameOwes(s, Apply(s, BeginTick), a);
    }
  }

  /** The row that the dispatcher starts is marked, and owed by the new job alone. */
  lemma StartedRowIsOwed(s: State)
    requires RowsOk(s) && Enabled(s, Examine)
    requires var album := s.scan.value[0].album; Eligible(s, album) && album !in s.clients
    ensures RowOk(Apply(s, Examine), s.scan.value[0].album)
  {
    var s', album := Apply(s, Examine), s.scan.value[0].album;
    assert HasRowIn(s.queue, album, Queued) && RowOk(s, album);
    OneStatus(s.queue, album);
    SetStatusRows(s.queue, album, Downloading, album, Downloading);
    assert Owes(s', |s.jobs|, album);
    assert forall j: nat :: Owes(s', j, album) ==> j == |s.jobs| || Owes(s, j, album);
  }

  lemma ExamineKeepsRow(s: State, a: int)
    requires RowsOk(s) && Enabled(s, Examine)
    ensures RowOk(Apply(s, Examine), a)
  {
    var s', album := Apply(s, Examine), s.scan.value[0].album;
    if a == album && Eligible(s, album) && album !in s.clients {
      StartedRowIsOwed(s);
    } else {
      assert HasRowIn(s.queue, album, Queued) && RowOk(s, album) && RowOk(s, a);
      OneStatus(s.queue, album);
      DequeueRows(s.queue, album, a, Downloading);
      SetStatusRows(s.queue, album, Downloading, a, Downloading);
      SameOwes(s, s', a);
    }
  }

  lemma ExamineKeepsRows(s: State)
    requires RowsOk(s) && Enabled(s, Examine)
    ensures RowsOk(Apply(s, Examine))
  {
    var s', album := Apply(s, Examine), s.scan.value[0].album;
    DequeueKeepsDistinct(s.queue, album);
    forall a
      ensures RowOk(s', a)
    {
      ExamineKeepsRow(s, a);
    }
    if s'.scan.Some? {
      forall i | 0 <= i < |s'.scan.value|
        ensures HasRowIn(s'.queue, s'.scan.value[i].album, Queued)
      {
        assert s'.scan.value[i] == s.scan.value[i + 1];
        DequeueRows(s.queue, album, s'.scan.value[i].album, Queued);
      }
    }
  }

  lemma SettleKeepsRows(s: State, j: nat)
    requires RowsOk(s) && Enabled(s, Settle(j)) && s.jobs[j].kind.QueueRun?
    ensures RowsOk(Apply(s, Settle(j)))
  {
    var s', album := Apply(s, Settle(j)), s.jobs[j].album;
    assert Owes(s, j, album) && RowOk(s, album);
    OneStatus(s.queue, album);
    DequeueKeepsDistinct(s.queue, album);
    forall a
      ensures RowOk(s', a)
    {
      assert RowOk(s, a);
      DequeueRows(s.queue, album, a, Downloading);
      SetStatusRows(s.queue, album, Queued, a, Downloading);
      forall k: nat
        ensures Owes(s', k, a) <==> Owes(s, k, a) && k != j
      {
      }
    }
    if s.scan.Some? {
      forall i | 0 <= i < |s.scan.value|
        ensures HasRowIn(s'.queue, s.scan.value[i].album, Queued)
      {
        var a := s.scan.value[i].album;
        DequeueRows(s.queue, album, a, Queued);
        SetStatusRows(s.queue, album, Queued, a, Queued);
      }
    }
  }

  lemma QuietStepKeepsRows(s: State, step: Step)
    requires RowsOk(s) && Enabled(s, step) && Apply(s, step).queue == s.queue
    requires Apply(s, step).scan.None? || Apply(s, step).scan == s.scan
    requires forall j: nat, a :: Owes(Apply(s, step), j, a) <==> Owes(s, j, a)
    ensures RowsOk(Apply(s, step))
  {
    forall a
      ensures RowOk(Apply(s, step), a)
    {
      assert RowOk(s, a);
      SameOwes(s, Apply(s, step), a);
    }
  }

  lemma StepKeepsRows(s: State, step: Step)
    requires RowsOk(s) && Enabled(s, step) && !step.StopAll?
    ensures RowsOk(Apply(s, step))
  {
    match step
    case Enqueue(album, force) => EnqueueKeepsRows(s, album, force);
    case BeginTick => BeginTickKeepsRows(s);
    case Examine => ExamineKeepsRows(s);
    case Settle(j) => if s.jobs[j].kind.QueueRun? { SettleKeepsRows(s, j); } else { QuietStepKeepsRows(s, step); }
    case _ => QuietStepKeepsRows(s, step);
  }

  lemma {:induction false} RunKeepsRows(states: seq<State>, steps: seq<Step>, i: nat)
    requires IsRun(states, steps) && i <= |steps|
    requires forall k :: 0 <= k < i ==> !steps[k].StopAll?
    ensures RowsOk(states[i])
  {
    if i > 0 {
      RunKeepsRows(states, steps, i - 1);
      assert StepAt(states, steps, i - 1);
      StepKeepsRows(states[i - 1], steps[i - 1]);
    } else {
      forall a
        ensures RowOk(states[0], a)
      {
      }
    }
  }

  /** Without a user stop: an album has at most one row, and the row is marked as downloading
      exactly while one started job has not been settled. */
  lemma DownloadingRowsHaveOneJob(states: seq<State>, steps: seq<Step>, i: nat, a: int)
    requires IsRun(states, steps) && i <= |steps|
    requires forall k :: 0 <= k < i ==> !steps[k].StopAll?
    ensures DistinctRows(states[i].queue)
    ensures HasRowIn(states[i].queue, a, Downloading) <==> exists j: nat :: Owes(states[i], j, a)
    ensures forall j: nat, k: nat :: Owes(states[i], j, a) && Owes(states[i], k, a) ==> j == k
  {
    RunKeepsRows(states, steps, i);
    assert RowOk(states[i], a);
  }

  /** Settling a run that was turned away as busy puts its row back in the queue, in its place. */
  lemma BusyRunIsRequeued(states: seq<State>, steps: seq<Step>, i: nat)
    requires IsRun(states, steps) && i < |steps| && steps[i].Settle?
    requires forall k :: 0 <= k < i ==> !steps[k].StopAll?
    requires steps[i].job < |states[i].jobs|
    requires var job := states[i].jobs[steps[i].job]; job.kind.QueueRun? && job.phase.Refused?
    ensures var album, q, q' := states[i].jobs[steps[i].job].album, states[i].queue, states[i + 1].queue;
      && HasRowIn(q', album, Queued) && |q'| == |q|
      && forall r :: 0 <= r < |q| ==> q'[r].album == q[r].album && (q[r].album != album ==> q'[r] == q[r])
  {
    RunKeepsRows(states, steps, i);
    assert StepAt(states, steps, i);
    var s, job := states[i], states[i].jobs[steps[i].job];
    assert Owes(s, steps[i].job, job.album) && RowOk(s, job.album);
    OneStatus(s.queue, job.album);
    SetStatusRows(s.queue, job.album, Queued, job.album, Queued);
  }

  /** `after` is `before` without the row of the album. */
  ghost predicate RowRemoved(before: seq<Row>, after: seq<Row>, album: int) {
    exists i :: 0 <= i < |before| && before[i].album == album && after == before[..i] + before[i + 1..]
  }

  /** The row of the album, if there is one, has got the status, and all else is as before. */
  ghost predicate RowMarked(before: seq<Row>, after: seq<Row>, album: int, status: Status) {
    && |after| == |before|
    && forall r :: 0 <= r < |before| ==>
         after[r] == if before[r].album == album then before[r].(status := status) else before[r]
  }

  lemma {:induction false} DequeueNothing(queue: seq<Row>, album: int)
    requires !HasRow(queue, album)
    ensures Dequeue(queue, album) == queue
  {
    if queue != [] {
      ConsRows(queue, album, Queued);
      DequeueNothing(queue[1..], album);
    }
  }

  lemma {:induction false} DequeueRemoves(queue: seq<Row>, album: int)
    requires DistinctRows(queue) && HasRow(queue, album)
    ensures RowRemoved(queue, Dequeue(queue, album), album)
  {
    var rest := queue[1..];
    ConsRows(queue, album, Queued);
    if queue[0].album == album {
      forall k | 0 <= k < |rest|
        ensures rest[k].album != album
      {
        assert rest[k] == queue[k + 1];
      }
      DequeueNothing(rest, album);
      assert queue[..0] + queue[1..] == rest;
    } else {
      DequeueRemoves(rest, album);
      var i :| 0 <= i < |rest| && rest[i].album == album && Dequeue(rest, album) == rest[..i] + rest[i + 1..];
      assert queue[i + 1].album == album;
      assert [queue[0]] + (rest[..i] + rest[i + 1..]) == queue[..i + 1] + queue[i + 2..];
    }
  }

  /** Without a row of the album nothing changes, with one it goes. */
  ghost predicate RowGone(before: seq<Row>, after: seq<Row>, album: int) {
    if HasRow(before, album) then RowRemoved(before, after, album) else after == before
  }

  lemma DequeueMeaning(queue: seq<Row>, album: int)
    requires DistinctRows(queue)
    ensures RowGone(queue, Dequeue(queue, album), album)
    ensures !HasRow(Dequeue(queue, album), album)
  {
    DequeueRows(queue, album, album, Queued);
    if HasRow(queue, album) {
      DequeueRemoves(queue, album);
    } else {
      DequeueNothing(queue, album);
    }
  }

  lemma StepKeepsDistinct(s: State, step: Step)
    requires Enabled(s, step) && DistinctRows(s.queue)
    ensures DistinctRows(Apply(s, step).queue)
  {
    match step
    case Examine => DequeueKeepsDistinct(s.queue, s.scan.value[0].album);
    case Settle(j) => DequeueKeepsDistinct(s.queue, s.jobs[j].album);
    case Enqueue(album, force) =>
      forall i | 0 <= i < |s.queue|
        ensures HasRow(s.queue, s.queue[i].album)
      {
      }
    case _ =>
  }

  /** In every run, user stops included, no album has two rows. */
  lemma {:induction false} RowsAreDistinct(states: seq<State>, steps: seq<Step>, i: nat)
    requires IsRun(states, steps) && i <= |steps|
    ensures DistinctRows(states[i].queue)
  {
    if i > 0 {
      RowsAreDistinct(states, steps, i - 1);
      assert StepAt(states, steps, i - 1);
      StepKeepsDistinct(states[i - 1], steps[i - 1]);
    }
  }

  /** Putting an album in the queue adds one row behind all others, unless it has one already. */
  lemma EnqueuedOnce(states: seq<State>, steps: seq<Step>, i: nat)
    requires IsRun(states, steps) && i < |steps| && steps[i].Enqueue?
    ensures var q, q', row := states[i].queue, states[i + 1].queue, Row(steps[i].album, Queued, steps[i].force);
      && HasRow(q', row.album) && DistinctRows(q')
      && q' == if HasRow(q, row.album) then q else q + [row]
  {
    RowsAreDistinct(states, steps, i + 1);
    assert StepAt(states, steps, i);
    AppendRow(states[i].queue, Row(steps[i].album, Queued, steps[i].force), steps[i].album, Queued);
  }

  /** In every run, settling a job touches the queue only for a run from the queue: the row of its album
      goes if it was not turned away and the album is not a client's, and is queued again otherwise;
      all other rows stay as they are, in order. */
  lemma SettledRow(states: seq<State>, steps: seq<Step>, i: nat)
    requires IsRun(states, steps) && i < |steps| && steps[i].Settle?
    ensures steps[i].job < |states[i].jobs|
    ensures var s, job := states[i], states[i].jobs[steps[i].job];
      var q, q' := s.queue, states[i + 1].queue;
      && (!job.kind.QueueRun? ==> q' == q)
      && (job.kind.QueueRun? && job.phase.Ended? && job.album !in s.clients ==>
            RowGone(q, q', job.album) && !HasRow(q', job.album))
      && (job.kind.QueueRun? && (job.phase.Refused? || job.album in s.clients) ==> RowMarked(q, q', job.album, Queued))
  {
    assert StepAt(states, steps, i);
    RowsAreDistinct(states, steps, i);
    DequeueMeaning(states[i].queue, states[i].jobs[steps[i].job].album);
  }

  /** In every run, the dispatcher's look drops the row of an album that is downloading, unless a client
      has grabbed it since a run of another kind began; takes off the row of a client's album that
      it starts, and marks any other row that it starts. Other rows stay as they are. */
  lemma ExaminedRow(states: seq<State>, steps: seq<Step>, i: nat)
    requires IsRun(states, steps) && i < |steps| && steps[i].Examine?
    ensures states[i].scan.Some? && states[i].scan.value != []
    ensures var s, album := states[i], states[i].scan.value[0].album;
      var q, q' := s.queue, states[i + 1].queue;
      var drops := album in s.active && (album in s.clients ==> ActiveAsClient(s, album));
      if drops || (Eligible(s, album) && album in s.clients) then RowGone(q, q', album) && !HasRow(q', album)
      else if Eligible(s, album) then RowMarked(q, q', album, Downloading)
      else q' == q
  {
    assert StepAt(states, steps, i);
    RowsAreDistinct(states, steps, i);
    DequeueMeaning(states[i].queue, states[i].scan.value[0].album);
  }

  /** A row disappears exactly for one of three reasons: a user stop; the settlement of a run of its album
      that was not turned away, for an album that is not a client's; or the dispatcher looking at it,
      because the album is already downloading or because it goes to a client job. */
  lemma RowDisappearsExactlyWhen(s: State, step: Step, a: int)
    requires Enabled(s, step) && HasRow(s.queue, a)
    ensures !HasRow(Apply(s, step).queue, a) <==>
      || step.StopAll?
      || (step.Settle? && s.jobs[step.job].kind.QueueRun? && s.jobs[step.job].album == a
          && s.jobs[step.job].phase.Ended? && a !in s.clients)
      || (step.Examine? && s.scan.value[0].album == a
          && ((a in s.active && (a in s.clients ==> ActiveAsClient(s, a))) || (a in s.clients && Eligible(s, a))))
  {
    match step
    case Settle(j) =>
      DequeueRows(s.queue, s.jobs[j].album, a, Queued);
      SetStatusRows(s.queue, s.jobs[j].album, Queued, a, Queued);
    case Examine =>
      DequeueRows(s.queue, s.scan.value[0].album, a, Queued);
      SetStatusRows(s.queue, s.scan.value[0].album, Downloading, a, Queued);
    case Enqueue(album, force) =>
      AppendRow(s.queue, Row(album, Queued, force), a, Queued);
    case _ =>
  }

  /** Rows that stay keep their order, and new rows come behind them. */
  ghost predicate SameOrder(before: seq<Row>, after: seq<Row>) {
    && (forall p, r, i, j ::
          (0 <= p < |before| && 0 <= r < |before| && 0 <= i < j < |after|
           && before[p].album == after[i].album && before[r].album == after[j].album)
          ==> p < r)
    && (forall i, j :: 0 <= i < j < |after| && HasRow(before, after[j].album) ==> HasRow(before, after[i].album))
  }

  lemma RemovedInOrder(before: seq<Row>, after: seq<Row>, album: int)
    requires DistinctRows(before) && RowRemoved(before, after, album)
    ensures SameOrder(before, after)
  {
    var k :| 0 <= k < |before| && before[k].album == album && after == before[..k] + before[k + 1..];
    forall i | 0 <= i < |after|
      ensures after[i] == before[if i < k then i else i + 1] && HasRow(before, after[i].album)
    {
    }
  }

  lemma MarkedInOrder(before: seq<Row>, after: seq<Row>, album: int, status: Status)
    requires DistinctRows(before) && RowMarked(before, after, album, status)
    ensures SameOrder(before, after)
  {
    forall i | 0 <= i < |after|
      ensures after[i].album == before[i].album && HasRow(before, after[i].album)
    {
    }
  }

  lemma AppendedInOrder(queue: seq<Row>, row: Row)
    requires DistinctRows(queue) && !HasRow(queue, row.album)
    ensures SameOrder(queue, queue + [row])
  {
    forall i | 0 <= i < |queue|
      ensures HasRow(queue, (queue + [row])[i].album)
    {
    }
  }

  lemma UntouchedInOrder(queue: seq<Row>)
    requires DistinctRows(queue)
    ensures SameOrder(queue, queue)
  {
    forall i | 0 <= i < |queue|
      ensures HasRow(queue, queue[i].album)
    {
    }
  }

  lemma GoneInOrder(before: seq<Row>, after: seq<Row>, album: int)
    requires DistinctRows(before) && RowGone(before, after, album)
    ensures SameOrder(before, after)
  {
    if HasRow(before, album) {
      RemovedInOrder(before, after, album);
    } else {
      UntouchedInOrder(before);
    }
  }

  /** What a step can do to the queue, with the row it does it to. */
  ghost predicate QueueChange(before: seq<Row>, after: seq<Row>, row: Row) {
    || after == before || after == []
    || (after == before + [row] && !HasRow(before, row.album))
    || RowGone(before, after, row.album)
    || RowMarked(before, after, row.album, row.status)
  }

  lemma StepChangesQueue(s: State, step: Step) returns (row: Row)
    requires Enabled(s, step) && DistinctRows(s.queue)
    ensures QueueChange(s.queue, Apply(s, step).queue, row)
  {
    row := Row(0, Queued, false);
    match step
    case Enqueue(album, force) =>
      row := Row(album, Queued, force);
    case Examine =>
      row := Row(s.scan.value[0].album, Downloading, false);
      DequeueMeaning(s.queue, row.album);
    case Settle(j) =>
      row := Row(s.jobs[j].album, Queued, false);
      DequeueMeaning(s.queue, row.album);
    case _ =>
  }

  lemma ChangeKeepsOrder(before: seq<Row>, after: seq<Row>, row: Row)
    requires DistinctRows(before) && QueueChange(before, after, row)
    ensures SameOrder(before, after)
  {
    if after == before {
      UntouchedInOrder(before);
    } else if after == before + [row] && !HasRow(before, row.album) {
      AppendedInOrder(before, row);
    } else if RowGone(before, after, row.album) {
      GoneInOrder(before, after, row.album);
    } else if RowMarked(before, after, row.album, row.status) {
      MarkedInOrder(before, after, row.album, row.status);
    }
  }

  /** First come, first served: in every run, no step changes the order of the rows. */
  lemma QueueKeepsItsOrder(states: seq<State>, steps: seq<Step>, i: nat)
    requires IsRun(states, steps) && i < |steps|
    ensures SameOrder(states[i].queue, states[i + 1].queue)
  {
    assert StepAt(states, steps, i);
    RowsAreDistinct(states, steps, i);
    var row := StepChangesQueue(states[i], steps[i]);
    ChangeKeepsOrder(states[i].queue, states[i + 1].queue, row);
  }

  // ----- a tick with nothing in between

  /** The rest of a tick. */
  function Scan(s: State): State
    requires s.scan.Some?
    decreases s.scan.value
  {
    if s.scan.value == [] then Apply(s, EndTick)
    else
      var s' := Apply(s, Examine);
      if s'.scan.Some? then Scan(s') else s'
  }

  function Tick(s: State): State
    requires s.scan.None?
  {
    Scan(Apply(s, BeginTick))
  }

  /** Eligibility does not look at the queue. */
  predicate SameRegistry(s: State, s': State) {
    && s'.jobs == s.jobs && s'.active == s.active && s'.foreground == s.foreground
    && s'.clients == s.clients && s'.limit == s.limit
  }

  /** No album of the list is eligible. */
  ghost predicate NoneEligible(s: State, entries: seq<Entry>) {
    forall k :: 0 <= k < |entries| ==> !Eligible(s, entries[k].album)
  }

  /** Entry `i` is the first of the list whose album is eligible, and `s'` has one more job than `s`: for it. */
  ghost predicate StartsTheFirst(s: State, s': State, entries: seq<Entry>, i: nat) {
    && i < |entries| && Eligible(s, entries[i].album) && NoneEligible(s, entries[..i])
    && s'.jobs == s.jobs + [JobFor(s, entries[i].album)]
  }

  /** What the rest of the tick does, as seen from the row before. */
  lemma LaterIsTheFirst(s: State, s': State, end: State, i: nat)
    requires s.scan.Some? && s.scan.value != [] && !Eligible(s, s.scan.value[0].album)
    requires SameRegistry(s, s')
    requires var rest := s.scan.value[1..];
      if i == |rest| then end.jobs == s'.jobs && NoneEligible(s', rest) else StartsTheFirst(s', end, rest, i)
    ensures if i + 1 == |s.scan.value| then end.jobs == s.jobs && NoneEligible(s, s.scan.value)
            else StartsTheFirst(s, end, s.scan.value, i + 1)
  {
    var entries, rest := s.scan.value, s.scan.value[1..];
    forall k | 0 <= k < i + 1
      ensures !Eligible(s, entries[k].album)
    {
      if k > 0 {
        assert entries[k] == rest[k - 1];
        assert i < |rest| ==> rest[k - 1] == rest[..i][k - 1];
      }
    }
  }

  lemma {:induction false} ScanStartsTheFirst(s: State) returns (i: nat)
    requires s.scan.Some?
    ensures Scan(s).scan.None?
    ensures if i == |s.scan.value| then Scan(s).jobs == s.jobs && NoneEligible(s, s.scan.value)
            else StartsTheFirst(s, Scan(s), s.scan.value, i)
    decreases s.scan.value
  {
    var entries := s.scan.value;
    i := 0;
    if entries != [] {
      TickStartsTheFirstEligible(s);
      var s' := Apply(s, Examine);
      if s'.scan.Some? {
        i := ScanStartsTheFirst(s');
        LaterIsTheFirst(s, s', Scan(s'), i);
        i := i + 1;
      }
    }
  }

  lemma SameEligible(s: State, s': State, entries: seq<Entry>)
    requires SameRegistry(s, s')
    ensures NoneEligible(s', entries) <==> NoneEligible(s, entries)
    ensures forall album :: Eligible(s', album) <==> Eligible(s, album)
  {
  }

  /** An undisturbed tick starts one job, for the first queued row whose album is eligible, and none
      exactly when no queued row is eligible. */
  lemma UndisturbedTick(s: State)
    requires s.scan.None?
    ensures Tick(s).scan.None?
    ensures Tick(s).jobs == s.jobs <==> NoneEligible(s, QueuedEntries(s.queue))
    ensures Tick(s).jobs != s.jobs ==> exists i: nat :: StartsTheFirst(s, Tick(s), QueuedEntries(s.queue), i)
  {
    var queued, begun := QueuedEntries(s.queue), Apply(s, BeginTick);
    var i := ScanStartsTheFirst(begun);
    assert Tick(s) == Scan(begun) && begun.scan.value == queued;
    SameEligible(s, begun, queued);
    if i < |queued| {
      SameEligible(s, begun, queued[..i]);
      assert StartsTheFirst(s, Tick(s), queued, i);
      assert Eligible(s, queued[i].album);
    }
  }

  // ----- the code

  /** The queue table and the shared registry of downloads. Each method is one stretch of code that
      runs undisturbed here; the machine above is what happens when threads interleave. */
  class Downloads {
    var queue: seq<Row>
    var jobs: seq<Job>
    var active: map<int, nat>
    var foreground: bool
    var clients: set<int>
    var limit: nat

    constructor (limit: nat)
      ensures View() == State([], [], map[], false, None, {}, limit)
    {
      queue, jobs, active, foreground, clients := [], [], map[], false, {};
      this.limit := limit;
    }

    function View(): State
      reads this
    {
      State(queue, jobs, active, foreground, None, clients, limit)
    }

    /** Nothing starts while automatic downloads are held. */
    method DispatchNextFromQueue(held: bool)
      modifies this
      ensures View() == if held then old(View()) else Tick(old(View()))
    {
      if held {
        return;
      }
      var queued := QueuedEntries(queue);
      for k := 0 to |queued|
        invariant Tick(old(View())) == Scan(View().(scan := Some(queued[k..])))
      {
        var album := queued[k].album;
        ghost var before := View().(scan := Some(queued[k..]));
        assert queued[k..][1..] == queued[k + 1..];
        if album in active {
          if album in clients && !ActiveAsClient(View(), album) {
            continue;
          }
          queue := Dequeue(queue, album);
          continue;
        }
        if album in clients {
          if ClientCount(View()) >= limit {
            continue;
          }
          queue := Dequeue(queue, album);
          jobs := jobs + [Job(album, ClientRun, Starting)];
        } else {
          if foreground {
            continue;
          }
          queue := SetStatus(queue, album, Downloading);
          jobs := jobs + [Job(album, QueueRun, Starting)];
        }
        return;
      }
    }

    /** The entry of a download; true stands for the answer that the slot is busy. */
    method EnterDownload(j: nat) returns (busy: bool)
      requires Enabled(View(), Start(j))
      modifies this
      ensures View() == Apply(old(View()), Start(j))
      ensures busy == jobs[j].phase.Refused?
    {
      var job := jobs[j];
      if (job.UsesForeground() && foreground) || job.album in active {
        jobs := SetPhase(jobs, j, Refused);
        return true;
      }
      if job.UsesForeground() {
        foreground := true;
      }
      jobs, active := SetPhase(jobs, j, Running), active[job.album := j];
      return false;
    }

    method LeaveDownload(j: nat)
      requires Enabled(View(), End(j))
      modifies this
      ensures View() == Apply(old(View()), End(j))
    {
      var job := jobs[j];
      if job.UsesForeground() {
        foreground := false;
      }
      jobs, active := SetPhase(jobs, j, Ended), active - {job.album};
    }

    /** What is done with the row of a run from the queue once the run is over. */
    method SettleQueuedAlbum(j: nat)
      requires Enabled(View(), Settle(j)) && jobs[j].kind.QueueRun?
      modifies this
      ensures View() == Apply(old(View()), Settle(j))
    {
      var album, busy := jobs[j].album, jobs[j].phase.Refused?;
      jobs := SetPhase(jobs, j, Gone);
      if busy || album in clients {
        queue := SetStatus(queue, album, Queued);
      } else {
        queue := Dequeue(queue, album);
      }
    }
  }
}
