/** The in-process ingest queue under every interleaving of producers, worker loops and pool threads.

    A job is a mutable object in the program, so a job is a handle here: the index of its creation.
    Two jobs may carry the same id, because callers may choose ids. The status store maps an id to
    the job object that was last stored under it. */
module LocalQueue {
  import opened IngestJobs
  import opened Sequences

  type Handle = nat
  type Thread = nat

  datatype Job = Job(id: string, status: Status, retries: nat)

  /** What a thread is in the middle of. `Appending`: the job is stored as pending but is not in
      the queue yet (a producer, or a pool thread that retries). `Working`: `_process_job` runs. */
  datatype Activity = Appending(h: Handle) | Working(h: Handle)

  /** Where a job is: the history component `places` of a state records it. */
  datatype Place = Queued | Claimed | With(t: Thread) | Done

  /** Threads below `pool` are executor threads, the others are producers. */
  datatype Config = Config(maxRetries: int, pool: nat)

  datatype State = State(
    jobs: seq<Job>,
    queue: seq<Handle>,
    claimed: multiset<Handle>,        // popped by a worker loop and submitted to its executor
    threads: map<Thread, Activity>,
    store: map<string, Handle>,
    starts: multiset<Handle>,         // history: one element for each attempt
    places: seq<Place>                // history
  )

  datatype Step =
    | Create(t: Thread, id: string)   // enqueue_ingest_job up to _status_set
    | Append(t: Thread)               // _enqueue_local
    | Claim                           // _dequeue_local and submit
    | Start(t: Thread, h: Handle)     // _process_one begins
    | Succeed(t: Thread)              // _process_job returns
    | Fail(t: Thread)                 // _process_job raises
  {
    predicate IsWork() {
      !Create?
    }
  }

  function Init(): State {
    State([], [], multiset{}, map[], map[], multiset{}, [])
  }

  predicate Enabled(c: Config, s: State, step: Step) {
    match step
    case Create(t, _) => t !in s.threads && t >= c.pool
    case Append(t) => t in s.threads && s.threads[t].Appending?
    case Claim => |s.queue| > 0
    case Start(t, h) => t !in s.threads && t < c.pool && h in s.claimed
    case Succeed(t) => t in s.threads && s.threads[t].Working?
    case Fail(t) => t in s.threads && s.threads[t].Working?
  }

  /** Write a job's new progress and store the job object under its id. */
  function Update(s: State, h: Handle, p: Progress, place: Place): State
    requires h < |s.jobs| == |s.places|
  {
    var job := s.jobs[h].(status := p.status, retries := p.retries);
    s.(jobs := s.jobs[h := job], store := s.store[job.id := h], places := s.places[h := place])
  }

  function Move(s: State, h: Handle, place: Place): State
    requires h < |s.places|
  {
    s.(places := s.places[h := place])
  }

  function Apply(c: Config, s: State, step: Step): State
    requires WellFormed(s) && Enabled(c, s, step)
  {
    match step
    case Create(t, id) =>
      s.(jobs := s.jobs + [Job(id, Pending, 0)],
         store := s.store[id := |s.jobs|],
         threads := s.threads[t := Appending(|s.jobs|)],
         places := s.places + [With(t)])
    case Append(t) =>
      var h := s.threads[t].h;
      Move(s, h, Queued).(queue := s.queue + [h], threads := s.threads - {t})
    case Claim =>
      var h := s.queue[0];
      Move(s, h, Claimed).(queue := s.queue[1..], claimed := s.claimed + multiset{h})
    case Start(t, h) =>
      Update(s, h, Progress(Processing, s.jobs[h].retries), With(t))
      .(claimed := s.claimed - multiset{h},
        threads := s.threads[t := Working(h)],
        starts := s.starts + multiset{h})
    case Succeed(t) =>
      var h := s.threads[t].h;
      Update(s, h, Progress(Completed, s.jobs[h].retries), Done).(threads := s.threads - {t})
    case Fail(t) =>
      var h := s.threads[t].h;
      var p := AfterFailure(s.jobs[h].retries, c.maxRetries);
      if p.status.Failed? then
        Update(s, h, p, Done).(threads := s.threads - {t})
      else
        Update(s, h, p, With(t)).(threads := s.threads[t := Appending(h)])
  }

  // ---------- What every step keeps ----------

  /** Every handle that occurs anywhere belongs to a job. */
  ghost predicate WellFormed(s: State) {
    && |s.places| == |s.jobs|
    && (forall i :: 0 <= i < |s.queue| ==> s.queue[i] < |s.jobs|)
    && (forall h :: h in s.claimed ==> h < |s.jobs|)
    && (forall t :: t in s.threads ==> s.threads[t].h < |s.jobs|)
  }

  /** The containers hold a job only where its recorded place says. */
  ghost predicate ContainersOk(s: State)
    requires WellFormed(s)
  {
    && Distinct(s.queue)
    && (forall i :: 0 <= i < |s.queue| ==> s.places[s.queue[i]] == Queued)
    && (forall h :: h in s.claimed ==> s.claimed[h] == 1 && s.places[h] == Claimed)
    && (forall t :: t in s.threads ==> s.places[s.threads[t].h] == With(t))
  }

  /** A job is where its recorded place says, and its status agrees. */
  ghost predicate PlaceOk(c: Config, s: State, h: Handle)
    requires WellFormed(s) && h < |s.jobs|
  {
    match s.places[h]
    case Queued => h in s.queue && s.jobs[h].status.Pending?
    case Claimed => h in s.claimed && s.jobs[h].status.Pending?
    case With(t) =>
      && t in s.threads && s.threads[t].h == h
      && s.jobs[h].status == (if s.threads[t].Working? then Processing else Pending)
      && (s.threads[t].Working? ==> t < c.pool)
    case Done => s.jobs[h].status.Terminal()
  }

  /** The failure count, the failed status and the number of attempts agree. */
  ghost predicate CountsOk(c: Config, s: State, h: Handle)
    requires h < |s.jobs|
  {
    var job, limit := s.jobs[h], AttemptLimit(c.maxRetries);
    && job.retries <= limit
    && (job.status.Failed? <==> job.retries == limit)
    && s.starts[h] == job.retries + (if job.status.Processing? || job.status.Completed? then 1 else 0)
  }

  ghost predicate StoreOk(s: State) {
    && (forall id :: id in s.store ==> s.store[id] < |s.jobs| && s.jobs[s.store[id]].id == id)
    && (forall h :: 0 <= h < |s.jobs| ==> s.jobs[h].id in s.store)
    && (forall h :: h in s.starts ==> h < |s.jobs|)
  }

  ghost predicate JobOk(c: Config, s: State, h: Handle)
    requires WellFormed(s) && h < |s.jobs|
  {
    PlaceOk(c, s, h) && CountsOk(c, s, h)
  }

  ghost predicate Inv(c: Config, s: State) {
    && WellFormed(s) && ContainersOk(s) && StoreOk(s)
    && (forall h :: 0 <= h < |s.jobs| ==> JobOk(c, s, h))
  }

  lemma CreateKeepsInv(c: Config, s: State, t: Thread, id: string)
    requires Inv(c, s) && Enabled(c, s, Create(t, id))
    ensures Inv(c, Apply(c, s, Create(t, id)))
  {
    var s' := Apply(c, s, Create(t, id));
    assert |s.jobs| !in s.starts;
    forall g | 0 <= g < |s'.jobs| ensures JobOk(c, s', g) {
      assert g < |s.jobs| ==> JobOk(c, s, g);
    }
  }

  lemma AppendKeepsInv(c: Config, s: State, t: Thread)
    requires Inv(c, s) && Enabled(c, s, Append(t))
    ensures Inv(c, Apply(c, s, Append(t)))
  {
    var s' := Apply(c, s, Append(t));
    assert forall h :: h in s.queue ==> h in s'.queue;
    forall g | 0 <= g < |s'.jobs| ensures JobOk(c, s', g) {
      assert JobOk(c, s, g);
    }
  }

  lemma ClaimKeepsInv(c: Config, s: State)
    requires Inv(c, s) && Enabled(c, s, Claim)
    ensures Inv(c, Apply(c, s, Claim))
  {
    var s' := Apply(c, s, Claim);
    assert s.queue == [s.queue[0]] + s'.queue;
    forall g | 0 <= g < |s'.jobs| ensures JobOk(c, s', g) {
      assert JobOk(c, s, g);
    }
  }

  /** Writing a job back under its own id. */
  lemma UpdateKeepsStore(s: State, h: Handle, p: Progress, place: Place)
    requires WellFormed(s) && StoreOk(s) && h < |s.jobs|
    ensures StoreOk(Update(s, h, p, place))
  {
  }

  lemma StartKeepsContainers(c: Config, s: State, t: Thread, h: Handle)
    requires Inv(c, s) && Enabled(c, s, Start(t, h))
    ensures var s' := Apply(c, s, Start(t, h)); WellFormed(s') && ContainersOk(s')
  {
    assert JobOk(c, s, h);
  }

  lemma StartKeepsInv(c: Config, s: State, t: Thread, h: Handle)
    requires Inv(c, s) && Enabled(c, s, Start(t, h))
    ensures Inv(c, Apply(c, s, Start(t, h)))
  {
    var s' := Apply(c, s, Start(t, h));
    StartKeepsContainers(c, s, t, h);
    UpdateKeepsStore(s, h, Progress(Processing, s.jobs[h].retries), With(t));
    forall g | 0 <= g < |s'.jobs| ensures JobOk(c, s', g) {
      assert JobOk(c, s, g);
    }
  }

  lemma SucceedKeepsContainers(c: Config, s: State, t: Thread)
    requires Inv(c, s) && Enabled(c, s, Succeed(t))
    ensures var s' := Apply(c, s, Succeed(t)); WellFormed(s') && ContainersOk(s')
  {
    assert JobOk(c, s, s.threads[t].h);
  }

  lemma SucceedKeepsInv(c: Config, s: State, t: Thread)
    requires Inv(c, s) && Enabled(c, s, Succeed(t))
    ensures Inv(c, Apply(c, s, Succeed(t)))
  {
    var s' := Apply(c, s, Succeed(t));
    SucceedKeepsContainers(c, s, t);
    UpdateKeepsStore(s, s.threads[t].h, Progress(Completed, s.jobs[s.threads[t].h].retries), Done);
    forall g | 0 <= g < |s'.jobs| ensures JobOk(c, s', g) {
      assert JobOk(c, s, g);
    }
  }

  lemma GiveUpKeepsContainers(c: Config, s: State, t: Thread)
    requires Inv(c, s) && Enabled(c, s, Fail(t))
    requires s.jobs[s.threads[t].h].retries + 1 >= c.maxRetries
    ensures var s' := Apply(c, s, Fail(t)); WellFormed(s') && ContainersOk(s')
  {
    assert JobOk(c, s, s.threads[t].h);
  }

  lemma GiveUpKeepsInv(c: Config, s: State, t: Thread)
    requires Inv(c, s) && Enabled(c, s, Fail(t))
    requires s.jobs[s.threads[t].h].retries + 1 >= c.maxRetries
    ensures Inv(c, Apply(c, s, Fail(t)))
  {
    var s' := Apply(c, s, Fail(t));
    GiveUpKeepsContainers(c, s, t);
    UpdateKeepsStore(s, s.threads[t].h, AfterFailure(s.jobs[s.threads[t].h].retries, c.maxRetries), Done);
    forall g | 0 <= g < |s'.jobs| ensures JobOk(c, s', g) {
      assert JobOk(c, s, g);
    }
  }

  lemma RetryKeepsContainers(c: Config, s: State, t: Thread)
    requires Inv(c, s) && Enabled(c, s, Fail(t))
    requires s.jobs[s.threads[t].h].retries + 1 < c.maxRetries
    ensures var s' := Apply(c, s, Fail(t)); WellFormed(s') && ContainersOk(s')
  {
    assert JobOk(c, s, s.threads[t].h);
  }

  lemma RetryKeepsInv(c: Config, s: State, t: Thread)
    requires Inv(c, s) && Enabled(c, s, Fail(t))
    requires s.jobs[s.threads[t].h].retries + 1 < c.maxRetries
    ensures Inv(c, Apply(c, s, Fail(t)))
  {
    var s' := Apply(c, s, Fail(t));
    RetryKeepsContainers(c, s, t);
    UpdateKeepsStore(s, s.threads[t].h, AfterFailure(s.jobs[s.threads[t].h].retries, c.maxRetries), With(t));
    forall g | 0 <= g < |s'.jobs| ensures JobOk(c, s', g) {
      assert JobOk(c, s, g);
    }
  }

  /** Every step of every thread keeps the invariant. */
  lemma StepKeepsInv(c: Config, s: State, step: Step)
    requires Inv(c, s) && Enabled(c, s, step)
    ensures Inv(c, Apply(c, s, step))
  {
    match step
    case Create(t, id) => CreateKeepsInv(c, s, t, id);
    case Append(t) => AppendKeepsInv(c, s, t);
    case Claim => ClaimKeepsInv(c, s);
    case Start(t, h) => StartKeepsInv(c, s, t, h);
    case Succeed(t) => SucceedKeepsInv(c, s, t);
    case Fail(t) =>
      if s.jobs[s.threads[t].h].retries + 1 >= c.maxRetries {
        GiveUpKeepsInv(c, s, t);
      } else {
        RetryKeepsInv(c, s, t);
      }
  }

  // ---------- Runs ----------

  /** `steps` is an interleaving that leads from `s` to `s'`. */
  ghost predicate Run(c: Config, s: State, steps: seq<Step>, s': State)
    decreases |steps|
  {
    if steps == [] then s == s'
    else WellFormed(s) && Enabled(c, s, steps[0]) && Run(c, Apply(c, s, steps[0]), steps[1..], s')
  }

  lemma InitInv(c: Config)
    ensures Inv(c, Init())
  {
  }

  lemma {:induction false} RunKeepsInv(c: Config, s: State, steps: seq<Step>, s': State)
    requires Inv(c, s) && Run(c, s, steps, s')
    ensures Inv(c, s')
    decreases |steps|
  {
    if steps != [] {
      StepKeepsInv(c, s, steps[0]);
      RunKeepsInv(c, Apply(c, s, steps[0]), steps[1..], s');
    }
  }

  // ---------- First in, first out ----------

  /** The job that a step appends to the queue, and the one that it claims. */
  function AppendedBy(s: State, step: Step): seq<Handle> {
    if step.Append? && step.t in s.threads then [s.threads[step.t].h] else []
  }

  function ClaimedBy(s: State, step: Step): seq<Handle> {
    if step.Claim? && s.queue != [] then [s.queue[0]] else []
  }

  lemma {:induction false} StepIsFirstInFirstOut(c: Config, s: State, step: Step)
    requires WellFormed(s) && Enabled(c, s, step)
    ensures var s' := Apply(c, s, step);
            s.queue + AppendedBy(s, step) == ClaimedBy(s, step) + s'.queue
            && (step.Claim? ==> s'.claimed == s.claimed + multiset(ClaimedBy(s, step)))
  {
  }

  /** The jobs in the order in which a run appends them, and in the order in which the worker loops claim them. */
  ghost function AppendOrder(c: Config, s: State, steps: seq<Step>, s': State): seq<Handle>
    requires Run(c, s, steps, s')
    decreases |steps|
  {
    if steps == [] then []
    else AppendedBy(s, steps[0]) + AppendOrder(c, Apply(c, s, steps[0]), steps[1..], s')
  }

  ghost function ClaimOrder(c: Config, s: State, steps: seq<Step>, s': State): seq<Handle>
    requires Run(c, s, steps, s')
    decreases |steps|
  {
    if steps == [] then []
    else ClaimedBy(s, steps[0]) + ClaimOrder(c, Apply(c, s, steps[0]), steps[1..], s')
  }

  lemma {:induction false} Regroup(a: seq<Handle>, x: seq<Handle>, xs: seq<Handle>, y: seq<Handle>, ys: seq<Handle>,
                                   b: seq<Handle>, d: seq<Handle>)
    requires a + x == y + b && b + xs == ys + d
    ensures a + (x + xs) == (y + ys) + d
  {
    assert a + (x + xs) == (a + x) + xs == y + (b + xs) == (y + ys) + d;
  }

  lemma {:induction false} FirstInFirstOutFrom(c: Config, s: State, steps: seq<Step>, s': State)
    requires Run(c, s, steps, s')
    ensures s.queue + AppendOrder(c, s, steps, s') == ClaimOrder(c, s, steps, s') + s'.queue
    decreases |steps|
  {
    if steps != [] {
      var next := Apply(c, s, steps[0]);
      StepIsFirstInFirstOut(c, s, steps[0]);
      FirstInFirstOutFrom(c, next, steps[1..], s');
      Regroup(s.queue, AppendedBy(s, steps[0]), AppendOrder(c, next, steps[1..], s'),
              ClaimedBy(s, steps[0]), ClaimOrder(c, next, steps[1..], s'), next.queue, s'.queue);
    }
  }

  /** Over every run, the jobs are claimed exactly in the order in which they were appended, retries included; those
      not yet claimed are the queue. */
  lemma {:induction false} FirstInFirstOut(c: Config, steps: seq<Step>, s: State)
    requires Run(c, Init(), steps, s)
    ensures AppendOrder(c, Init(), steps, s) == ClaimOrder(c, Init(), steps, s) + s.queue
  {
    FirstInFirstOutFrom(c, Init(), steps, s);
  }

  /** The threads that hold a job. */
  function Holders(s: State, h: Handle): set<Thread> {
    set t | t in s.threads && s.threads[t].h == h
  }

  /** The threads that run `_process_job` on a job. */
  function Workers(s: State, h: Handle): set<Thread> {
    set t | t in s.threads && s.threads[t] == Working(h)
  }

  /** Safety over every run: each job is in exactly one of the queue, the executors' backlog, the
      hands of one thread, or a terminal status; nobody else has a copy of it. */
  lemma {:induction false} ExactlyOnePlace(c: Config, steps: seq<Step>, s: State, h: Handle)
    requires Run(c, Init(), steps, s) && h < |s.jobs|
    ensures multiset(s.queue)[h] + s.claimed[h] + |Holders(s, h)|
            + (if s.jobs[h].status.Terminal() then 1 else 0) == 1
  {
    InitInv(c);
    RunKeepsInv(c, Init(), steps, s);
    DistinctCount(s.queue, h);
    assert JobOk(c, s, h);
    if s.places[h].With? {
      assert Holders(s, h) == {s.places[h].t};
    } else {
      assert Holders(s, h) == {};
    }
  }

  /** Safety over every run: a job is processed by at most one thread, its status says processing
      exactly when a thread processes it, and it is attempted at most as often as the limit allows. */
  lemma {:induction false} AttemptsBounded(c: Config, steps: seq<Step>, s: State, h: Handle)
    requires Run(c, Init(), steps, s) && h < |s.jobs|
    ensures |Workers(s, h)| == if s.jobs[h].status.Processing? then 1 else 0
    ensures s.starts[h] <= AttemptLimit(c.maxRetries)
    ensures s.jobs[h].status.Failed? <==> s.jobs[h].retries == AttemptLimit(c.maxRetries)
    ensures s.jobs[h].status.Terminal() ==>
              s.starts[h] == s.jobs[h].retries + (if s.jobs[h].status.Completed? then 1 else 0)
  {
    InitInv(c);
    RunKeepsInv(c, Init(), steps, s);
    assert JobOk(c, s, h);
    if s.jobs[h].status.Processing? {
      assert Workers(s, h) == {s.places[h].t};
    } else {
      assert Workers(s, h) == {};
    }
  }

  // ---------- Terminal statuses ----------

  /** The job a worker step is about. */
  function Subject(s: State, step: Step): Handle
    requires step.IsWork() && (step.Claim? ==> s.queue != [])
    requires step.Append? || step.Succeed? || step.Fail? ==> step.t in s.threads
  {
    if step.Claim? then s.queue[0] else if step.Start? then step.h else s.threads[step.t].h
  }

  /** A worker step leaves all other jobs alone. */
  lemma WorkIsLocal(c: Config, s: State, step: Step)
    requires WellFormed(s) && Enabled(c, s, step) && step.IsWork()
    ensures |Apply(c, s, step).jobs| == |s.jobs| == |Apply(c, s, step).places| && Subject(s, step) < |s.jobs|
    ensures forall g :: 0 <= g < |s.jobs| && g != Subject(s, step) ==>
              Apply(c, s, step).jobs[g] == s.jobs[g] && Apply(c, s, step).places[g] == s.places[g]
  {
    var s', h := Apply(c, s, step), Subject(s, step);
    assert |s'.jobs| == |s.jobs| == |s'.places|;
  }

  lemma StepKeepsTerminal(c: Config, s: State, step: Step, h: Handle)
    requires Inv(c, s) && Enabled(c, s, step) && h < |s.jobs| && s.jobs[h].status.Terminal()
    ensures h < |Apply(c, s, step).jobs| && Apply(c, s, step).jobs[h] == s.jobs[h]
  {
    if step.IsWork() {
      WorkIsLocal(c, s, step);
      assert JobOk(c, s, Subject(s, step));
    }
  }

  /** Completed and failed are absorbing: nothing about such a job ever changes again. */
  lemma {:induction false} TerminalIsForever(c: Config, s: State, steps: seq<Step>, s': State, h: Handle)
    requires Inv(c, s) && Run(c, s, steps, s') && h < |s.jobs| && s.jobs[h].status.Terminal()
    ensures h < |s'.jobs| && s'.jobs[h] == s.jobs[h]
    decreases |steps|
  {
    if steps != [] {
      StepKeepsInv(c, s, steps[0]);
      StepKeepsTerminal(c, s, steps[0], h);
      TerminalIsForever(c, Apply(c, s, steps[0]), steps[1..], s', h);
    }
  }

  // ---------- Termination ----------

  /** The number of steps a job can still take: four for each attempt that is left. */
  function Weight(c: Config, s: State, h: Handle): int
    requires h < |s.jobs| == |s.places|
  {
    var left := 4 * (AttemptLimit(c.maxRetries) - s.jobs[h].retries);
    match s.places[h]
    case Done => 0
    case With(_) => if s.jobs[h].status.Processing? then left - 3 else left
    case Queued => left - 1
    case Claimed => left - 2
  }

  function Measure(c: Config, s: State, n: nat): int
    requires n <= |s.jobs| == |s.places|
  {
    if n == 0 then 0 else Measure(c, s, n - 1) + Weight(c, s, n - 1)
  }

  lemma {:induction false} MeasureNonNegative(c: Config, s: State, n: nat)
    requires Inv(c, s) && n <= |s.jobs|
    ensures Measure(c, s, n) >= 0
  {
    if n > 0 {
      MeasureNonNegative(c, s, n - 1);
      assert JobOk(c, s, n - 1);
    }
  }

  /** A job that only moves: it is appended to the queue, or claimed. */
  lemma MoveLowersWeight(c: Config, s: State, step: Step)
    requires WellFormed(s) && Enabled(c, s, step) && (step.Append? || step.Claim?) && JobOk(c, s, Subject(s, step))
    requires s.places[Subject(s, step)] == if step.Claim? then Queued else With(step.t)
    ensures |Apply(c, s, step).jobs| == |s.jobs| == |Apply(c, s, step).places|
    ensures Weight(c, Apply(c, s, step), Subject(s, step)) < Weight(c, s, Subject(s, step))
  {
  }

  lemma StartLowersWeight(c: Config, s: State, t: Thread, h: Handle)
    requires WellFormed(s) && Enabled(c, s, Start(t, h)) && h < |s.jobs| && s.places[h] == Claimed
    ensures |Apply(c, s, Start(t, h)).jobs| == |s.jobs| == |Apply(c, s, Start(t, h)).places|
    ensures Weight(c, Apply(c, s, Start(t, h)), h) < Weight(c, s, h)
  {
  }

  lemma EndLowersWeight(c: Config, s: State, step: Step)
    requires WellFormed(s) && Enabled(c, s, step) && (step.Succeed? || step.Fail?) && JobOk(c, s, Subject(s, step))
    requires s.places[Subject(s, step)] == With(step.t)
    ensures |Apply(c, s, step).jobs| == |s.jobs| == |Apply(c, s, step).places|
    ensures Weight(c, Apply(c, s, step), Subject(s, step)) < Weight(c, s, Subject(s, step))
  {
  }

  lemma WorkLowersWeight(c: Config, s: State, step: Step)
    requires WellFormed(s) && Enabled(c, s, step) && step.IsWork() && JobOk(c, s, Subject(s, step))
    requires s.places[Subject(s, step)] ==
             if step.Claim? then Queued else if step.Start? then Claimed else With(step.t)
    ensures |Apply(c, s, step).jobs| == |s.jobs| == |Apply(c, s, step).places|
    ensures Weight(c, Apply(c, s, step), Subject(s, step)) < Weight(c, s, Subject(s, step))
  {
    match step
    case Start(t, h) => StartLowersWeight(c, s, t, h);
    case Succeed(_) => EndLowersWeight(c, s, step);
    case Fail(_) => EndLowersWeight(c, s, step);
    case _ => MoveLowersWeight(c, s, step);
  }

  lemma {:induction false} MeasureDrops(c: Config, s: State, s': State, h: Handle, n: nat)
    requires n <= |s.jobs| == |s.places| == |s'.jobs| == |s'.places| && h < |s.jobs|
    requires Weight(c, s', h) < Weight(c, s, h)
    requires forall g :: 0 <= g < |s.jobs| && g != h ==>
               s'.jobs[g] == s.jobs[g] && s'.places[g] == s.places[g]
    ensures Measure(c, s', n) <= Measure(c, s, n) - (if h < n then 1 else 0)
  {
    if n > 0 {
      MeasureDrops(c, s, s', h, n - 1);
    }
  }

  lemma {:induction false} MeasureFrame(c: Config, s: State, s': State, n: nat)
    requires n <= |s.jobs| == |s.places| && n <= |s'.jobs| == |s'.places|
    requires forall g :: 0 <= g < n ==> s'.jobs[g] == s.jobs[g] && s'.places[g] == s.places[g]
    ensures Measure(c, s', n) == Measure(c, s, n)
  {
    if n > 0 {
      MeasureFrame(c, s, s', n - 1);
    }
  }

  function Budget(c: Config): nat {
    4 * AttemptLimit(c.maxRetries)
  }

  /** The work that is left in a state. */
  function Left(c: Config, s: State): int
    requires |s.jobs| == |s.places|
  {
    Measure(c, s, |s.jobs|)
  }

  lemma WorkLowersMeasure(c: Config, s: State, step: Step)
    requires Inv(c, s) && Enabled(c, s, step) && step.IsWork()
    ensures |Apply(c, s, step).jobs| == |s.jobs| == |Apply(c, s, step).places|
    ensures Left(c, Apply(c, s, step)) + 1 <= Left(c, s)
  {
    WorkIsLocal(c, s, step);
    var h := Subject(s, step);
    assert JobOk(c, s, h);
    WorkLowersWeight(c, s, step) by {
      assert s.places[h] == if step.Claim? then Queued else if step.Start? then Claimed else With(step.t);
    }
    MeasureDrops(c, s, Apply(c, s, step), h, |s.jobs|);
  }

  lemma CreateRaisesMeasure(c: Config, s: State, t: Thread, id: string)
    requires WellFormed(s) && Enabled(c, s, Create(t, id))
    ensures |Apply(c, s, Create(t, id)).jobs| == |s.jobs| + 1 == |Apply(c, s, Create(t, id)).places|
    ensures Left(c, Apply(c, s, Create(t, id))) == Left(c, s) + Budget(c)
  {
    MeasureFrame(c, s, Apply(c, s, Create(t, id)), |s.jobs|);
  }

  /** What a step does to the remaining work, at least: creating a job adds a budget. */
  function Cost(c: Config, step: Step): int {
    if step.IsWork() then 1 else 0 - Budget(c)
  }

  function Costs(c: Config, steps: seq<Step>): int
    decreases |steps|
  {
    if steps == [] then 0 else Cost(c, steps[0]) + Costs(c, steps[1..])
  }

  function Creations(steps: seq<Step>): nat
    decreases |steps|
  {
    if steps == [] then 0 else (if steps[0].IsWork() then 0 else 1) + Creations(steps[1..])
  }

  lemma {:induction false} StepCost(c: Config, s: State, step: Step, m: State)
    requires Inv(c, s) && Enabled(c, s, step) && m == Apply(c, s, step)
    ensures Inv(c, m) && |m.jobs| == |s.jobs| + (if step.IsWork() then 0 else 1)
    ensures Left(c, m) + Cost(c, step) <= Left(c, s)
  {
    StepKeepsInv(c, s, step);
    if step.IsWork() {
      WorkLowersMeasure(c, s, step);
    } else {
      CreateRaisesMeasure(c, s, step.t, step.id);
    }
  }

  /** Whatever the outcomes and the interleaving, the steps of a run are paid for by the work that
      was left and by the budgets of the jobs that were created. */
  lemma {:induction false} RunCosts(c: Config, s: State, steps: seq<Step>, s': State)
    requires Inv(c, s) && Run(c, s, steps, s')
    ensures Inv(c, s') && |s'.jobs| == |s.jobs| + Creations(steps)
    ensures Left(c, s') + Costs(c, steps) <= Left(c, s)
    decreases |steps|
  {
    if steps != [] {
      var m := Apply(c, s, steps[0]);
      StepCost(c, s, steps[0], m);
      RunCosts(c, m, steps[1..], s');
    }
  }

  lemma {:induction false} CostsTotal(c: Config, steps: seq<Step>)
    ensures |steps| == Costs(c, steps) + Creations(steps) * (Budget(c) + 1)
    decreases |steps|
  {
    if steps != [] {
      CostsTotal(c, steps[1..]);
      var n := Creations(steps[1..]);
      assert (n + 1) * (Budget(c) + 1) == n * (Budget(c) + 1) + Budget(c) + 1;
    }
  }

  /** As long as some job is neither completed nor failed, some worker step is possible. */
  lemma WorkIsPossible(c: Config, s: State, h: Handle) returns (step: Step)
    requires Inv(c, s) && c.pool > 0 && h < |s.jobs| && !s.jobs[h].status.Terminal()
    ensures step.IsWork() && Enabled(c, s, step)
  {
    assert JobOk(c, s, h);
    var t := if s.places[h].With? then s.places[h].t else 0;
    if s.places[h].Queued? {
      step := Claim;
    } else if t !in s.threads {
      step := Start(0, h);
    } else {
      step := if s.threads[t].Working? then Succeed(t) else Append(t);
    }
  }

  /** Every maximal run is finite and ends with all jobs completed or failed, and a job failed
      exactly when all attempts that the limit allows were used up without success. */
  lemma MaximalRunsFinish(c: Config, steps: seq<Step>, s: State, h: Handle)
    requires Run(c, Init(), steps, s) && c.pool > 0 && h < |s.jobs|
    requires !exists step: Step :: step.IsWork() && Enabled(c, s, step)
    ensures |steps| <= |s.jobs| * (4 * AttemptLimit(c.maxRetries) + 1)
    ensures s.jobs[h].status.Completed? || s.jobs[h].status.Failed?
    ensures s.jobs[h].status.Failed? <==> s.jobs[h].retries == AttemptLimit(c.maxRetries)
  {
    InitInv(c);
    RunKeepsInv(c, Init(), steps, s);
    RunCosts(c, Init(), steps, s);
    MeasureNonNegative(c, s, |s.jobs|);
    CostsTotal(c, steps);
    assert JobOk(c, s, h);
    if !s.jobs[h].status.Terminal() {
      var step := WorkIsPossible(c, s, h);
      assert false;
    }
  }

  // ---------- What get_job_status shows ----------

  function GetJobStatus(s: State, id: string): (found: set<Handle>) {
    if id in s.store then {s.store[id]} else {}
  }

  ghost predicate DistinctIds(s: State) {
    forall g, h :: 0 <= g < h < |s.jobs| ==> s.jobs[g].id != s.jobs[h].id
  }

  /** Status polling shows every job's own record exactly when no two jobs share an id. */
  lemma StatusVisibleIffIdsDistinct(c: Config, steps: seq<Step>, s: State)
    requires Run(c, Init(), steps, s)
    ensures (forall h :: 0 <= h < |s.jobs| ==> GetJobStatus(s, s.jobs[h].id) == {h}) <==> DistinctIds(s)
  {
    InitInv(c);
    RunKeepsInv(c, Init(), steps, s);
    if forall h :: 0 <= h < |s.jobs| ==> GetJobStatus(s, s.jobs[h].id) == {h} {
      forall g, h | 0 <= g < h < |s.jobs| ensures s.jobs[g].id != s.jobs[h].id {
        assert GetJobStatus(s, s.jobs[g].id) == {g} && GetJobStatus(s, s.jobs[h].id) == {h};
        assert h in GetJobStatus(s, s.jobs[h].id);
      }
    }
  }

  lemma RunOne(c: Config, s: State, a: Step)
    requires WellFormed(s) && Enabled(c, s, a)
    ensures Run(c, s, [a], Apply(c, s, a))
  {
    assert Run(c, Apply(c, s, a), [], Apply(c, s, a));
  }

  lemma RunTwo(c: Config, s: State, a: Step, b: Step)
    requires WellFormed(s) && Enabled(c, s, a)
    requires WellFormed(Apply(c, s, a)) && Enabled(c, Apply(c, s, a), b)
    ensures Run(c, s, [a, b], Apply(c, Apply(c, s, a), b))
  {
    RunOne(c, Apply(c, s, a), b);
    assert [a, b][1..] == [b];
  }
}
