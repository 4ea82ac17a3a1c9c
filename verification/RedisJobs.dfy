/** What becomes of each single job on the Redis queue. Payloads of different jobs can be equal strings, so
    jobs are numbered as they are enqueued, and the numbers follow them through the lists and threads of the
    `RedisQueue` machine. */
module RedisJobs {
  import opened IngestJobs
  import opened RedisQueue
  import opened Sequences

  /** Where a job is. A job that was put on the dead-letter list is there, even while its thread has yet to send
      the last command; a job that completed is done, even when its thread dies before acknowledging. */
  datatype Place = Queued | Held(t: nat) | Done | Buried | Lost

  /** How often it was delivered, whether it was ever processed to the end, whether an acknowledgement of it has
      raised, and whether it was put back or buried after it had been processed to the end. */
  datatype Life = Life(place: Place, deliveries: nat, finished: bool, recalled: bool, returned: bool)

  /** The machine with the numbers of the jobs in its queue, its threads and its dead-letter list. */
  datatype Tracked = Tracked(s: State, queue: seq<nat>, held: map<nat, nat>, dead: seq<nat>, lives: seq<Life>,
                             names: seq<Name>)

  /** What a job is: the id and the fields that it was enqueued with. */
  datatype Name = Name(id: string, body: string)

  function Start(): Tracked {
    Tracked(Init(), [], map[], [], [], [])
  }

  ghost predicate Aligned(x: Tracked) {
    && |x.queue| == |x.s.queue|
    && (forall t :: t in x.held <==> t in x.s.threads && !x.s.threads[t].Unlisting?)
    && (forall i :: 0 <= i < |x.queue| ==> x.queue[i] < |x.lives|)
    && (forall t :: t in x.held ==> x.held[t] < |x.lives|)
  }

  function Follow(maxRetries: int, x: Tracked, step: Step): Tracked
    requires Aligned(x) && Enabled(x.s, step)
  {
    var s' := Apply(maxRetries, x.s, step);
    match step
    case Enqueue(id, body) =>
      x.(names := x.names + [Name(id, body)], s := s', queue := [|x.lives|] + x.queue, lives := x.lives + [Life(Queued, 0, false, false, false)])
    case Deliver(t) =>
      var n := |x.queue| - 1;
      var j := x.queue[n];
      x.(s := s', queue := x.queue[..n], held := x.held[t := j],
         lives := x.lives[j := x.lives[j].(place := Held(t), deliveries := x.lives[j].deliveries + 1)])
    case Finish(t) =>
      var j := x.held[t];
      x.(s := s', lives := x.lives[j := x.lives[j].(finished := true)])
    case Raise(t, _) =>
      var j := x.held[t];
      x.(s := s', lives := if x.s.threads[t].Acking? then x.lives[j := x.lives[j].(recalled := true)] else x.lives)
    case Ack(t) =>
      var j := x.held[t];
      x.(s := s', held := x.held - {t}, lives := x.lives[j := x.lives[j].(place := Done)])
    case Requeue(t) =>
      var j := x.held[t];
      var life := x.lives[j];
      x.(s := s', held := x.held - {t}, queue := [j] + x.queue,
         lives := x.lives[j := life.(place := Queued, returned := life.returned || life.finished)])
    case Bury(t) =>
      var j := x.held[t];
      var life := x.lives[j];
      x.(s := s', held := x.held - {t}, dead := [j] + x.dead,
         lives := x.lives[j := life.(place := Buried, returned := life.returned || life.finished)])
    case Unlist(_) => x.(s := s')
    case Crash(t) =>
      if t in x.held then
        var j := x.held[t];
        x.(s := s', held := x.held - {t},
           lives := x.lives[j := x.lives[j].(place := if x.s.threads[t].Acking? then Done else Lost)])
      else x.(s := s')
  }

  ghost predicate Tracks(maxRetries: int, x: Tracked, steps: seq<Step>, x': Tracked)
    decreases |steps|
  {
    if steps == [] then x == x'
    else
      && Aligned(x) && Enabled(x.s, steps[0])
      && Tracks(maxRetries, Follow(maxRetries, x, steps[0]), steps[1..], x')
  }

  // ---------- What every step keeps ----------

  /** A job is where its life says. */
  predicate PlaceOk(x: Tracked, j: nat)
    requires j < |x.lives|
  {
    match x.lives[j].place
    case Queued => j in x.queue
    case Held(t) => t in x.held && x.held[t] == j
    case Buried => j in x.dead
    case _ => true
  }

  /** Deliveries, retries and the history of completion. */
  predicate LifeOk(maxRetries: int, life: Life) {
    && life.deliveries <= AttemptLimit(maxRetries)
    && (life.recalled ==> life.finished) && (life.returned ==> life.recalled)
    && match life.place
       case Held(_) => true
       case Done => life.finished && (life.recalled ==> life.returned)
       case Lost => life.finished ==> life.recalled
       case _ => life.finished ==> life.returned
  }

  predicate QueueOk(maxRetries: int, x: Tracked, i: nat)
    requires Aligned(x) && i < |x.queue|
  {
    var life := x.lives[x.queue[i]];
    && life.place == Queued && x.s.queue[i].retries == life.deliveries < AttemptLimit(maxRetries)
  }

  predicate HeldOk(maxRetries: int, x: Tracked, t: nat)
    requires Aligned(x) && t in x.held
  {
    var life, pc := x.lives[x.held[t]], x.s.threads[t];
    && life.place == Held(t)
    && match pc
       case Delivered(p) => p.retries + 1 == life.deliveries && (life.finished ==> life.returned)
       case Acking(p) => p.retries + 1 == life.deliveries && life.finished && (life.recalled ==> life.returned)
       case Requeueing(p) => p.retries == life.deliveries < AttemptLimit(maxRetries) && (life.finished ==> life.recalled)
       case _ => life.finished ==> life.recalled
  }

  ghost predicate JobsOk(maxRetries: int, x: Tracked) {
    && Aligned(x) && Distinct(x.queue) && Distinct(x.dead)
    && (forall i :: 0 <= i < |x.dead| ==> x.dead[i] < |x.lives| && x.lives[x.dead[i]].place == Buried)
    && (forall i :: 0 <= i < |x.queue| ==> QueueOk(maxRetries, x, i))
    && (forall t :: t in x.held ==> HeldOk(maxRetries, x, t))
    && (forall j :: 0 <= j < |x.lives| ==> PlaceOk(x, j) && LifeOk(maxRetries, x.lives[j]))
  }

  /** Enqueueing. */
  lemma EnqueueKeeps(maxRetries: int, x: Tracked, step: Step)
    requires JobsOk(maxRetries, x) && Enabled(x.s, step) && step.Enqueue?
    ensures JobsOk(maxRetries, Follow(maxRetries, x, step))
  {
    var x' := Follow(maxRetries, x, step);
    forall i | 0 <= i < |x'.queue| ensures QueueOk(maxRetries, x', i) {
      var k := i - 1;
      assert i > 0 ==> QueueOk(maxRetries, x, k);
    }
    forall t | t in x'.held ensures HeldOk(maxRetries, x', t) {
      assert HeldOk(maxRetries, x, t);
    }
    forall j | 0 <= j < |x'.lives| ensures PlaceOk(x', j) && LifeOk(maxRetries, x'.lives[j]) {
      if j < |x.lives| {
        assert PlaceOk(x, j) && LifeOk(maxRetries, x.lives[j]);
      } else {
        assert x'.queue[0] == j;
      }
    }
  }

  lemma RestStaysQueued(maxRetries: int, x: Tracked, step: Step)
    requires JobsOk(maxRetries, x) && Enabled(x.s, step) && step.Deliver?
    ensures var x' := Follow(maxRetries, x, step);
            Aligned(x') && forall i :: 0 <= i < |x'.queue| ==> QueueOk(maxRetries, x', i)
  {
    var x' := Follow(maxRetries, x, step);
    forall i | 0 <= i < |x'.queue| ensures QueueOk(maxRetries, x', i) {
      assert QueueOk(maxRetries, x, i);
    }
  }

  lemma DeliverKeeps(maxRetries: int, x: Tracked, step: Step)
    requires JobsOk(maxRetries, x) && Enabled(x.s, step) && step.Deliver?
    ensures JobsOk(maxRetries, Follow(maxRetries, x, step))
  {
    var x', n := Follow(maxRetries, x, step), |x.queue| - 1;
    var j := x.queue[n];
    assert QueueOk(maxRetries, x, n);
    RestStaysQueued(maxRetries, x, step);
    forall t | t in x'.held ensures HeldOk(maxRetries, x', t) {
      assert t in x.held ==> HeldOk(maxRetries, x, t);
      assert LifeOk(maxRetries, x.lives[j]);
    }
    forall k | 0 <= k < |x'.lives| ensures PlaceOk(x', k) && LifeOk(maxRetries, x'.lives[k]) {
      PlaceAfterDelivery(maxRetries, x, step, k);
    }
  }

  lemma PlaceAfterDelivery(maxRetries: int, x: Tracked, step: Step, k: nat)
    requires JobsOk(maxRetries, x) && Enabled(x.s, step) && step.Deliver? && k < |x.lives|
    ensures var x' := Follow(maxRetries, x, step); k < |x'.lives| && PlaceOk(x', k) && LifeOk(maxRetries, x'.lives[k])
  {
    var x', n := Follow(maxRetries, x, step), |x.queue| - 1;
    assert PlaceOk(x, k) && LifeOk(maxRetries, x.lives[k]) && QueueOk(maxRetries, x, n);
    if x.lives[k].place.Queued? && k != x.queue[n] {
      var i :| 0 <= i < |x.queue| && x.queue[i] == k;
      assert x'.queue[i] == k;
    }
  }

  /** A job in the hands of a thread changes, and possibly leaves the thread: the jobs in the queue are as
      before. */
  lemma QueueStays(maxRetries: int, x: Tracked, x': Tracked, j: nat)
    requires JobsOk(maxRetries, x) && Aligned(x') && j < |x.lives| && x.lives[j].place.Held?
    requires x'.queue == x.queue && x'.s.queue == x.s.queue && |x'.lives| == |x.lives|
    requires forall k :: 0 <= k < |x.lives| && k != j ==> x'.lives[k] == x.lives[k]
    ensures forall i :: 0 <= i < |x'.queue| ==> QueueOk(maxRetries, x', i)
  {
    forall i | 0 <= i < |x'.queue| ensures QueueOk(maxRetries, x', i) {
      assert QueueOk(maxRetries, x, i);
    }
  }

  lemma HandsStayOk(maxRetries: int, x: Tracked, step: Step, t: nat)
    requires JobsOk(maxRetries, x) && Enabled(x.s, step) && (step.Finish? || step.Raise?) && t in x.held
    ensures var x' := Follow(maxRetries, x, step); Aligned(x') && t in x'.held && HeldOk(maxRetries, x', t)
  {
    assert HeldOk(maxRetries, x, step.t) && LifeOk(maxRetries, x.lives[x.held[step.t]]);
    assert HeldOk(maxRetries, x, t);
  }

  lemma InHandsKeeps(maxRetries: int, x: Tracked, step: Step)
    requires JobsOk(maxRetries, x) && Enabled(x.s, step) && (step.Finish? || step.Raise?)
    ensures JobsOk(maxRetries, Follow(maxRetries, x, step))
  {
    var x', j := Follow(maxRetries, x, step), x.held[step.t];
    assert HeldOk(maxRetries, x, step.t);
    QueueStays(maxRetries, x, x', j);
    forall t | t in x'.held ensures HeldOk(maxRetries, x', t) {
      HandsStayOk(maxRetries, x, step, t);
    }
    forall k | 0 <= k < |x'.lives| ensures PlaceOk(x', k) && LifeOk(maxRetries, x'.lives[k]) {
      assert PlaceOk(x, k) && LifeOk(maxRetries, x.lives[k]);
    }
  }

  lemma LeavesKeeps(maxRetries: int, x: Tracked, step: Step)
    requires JobsOk(maxRetries, x) && Enabled(x.s, step) && (step.Ack? || step.Crash?) && step.t in x.held
    ensures JobsOk(maxRetries, Follow(maxRetries, x, step))
  {
    var x' := Follow(maxRetries, x, step);
    assert HeldOk(maxRetries, x, step.t);
    QueueStays(maxRetries, x, x', x.held[step.t]);
    forall t | t in x'.held ensures HeldOk(maxRetries, x', t) {
      assert HeldOk(maxRetries, x, t);
    }
    forall k | 0 <= k < |x'.lives| ensures PlaceOk(x', k) && LifeOk(maxRetries, x'.lives[k]) {
      assert PlaceOk(x, k) && LifeOk(maxRetries, x.lives[k]);
    }
  }

  /** A thread that has buried its job sends its last command, or dies. */
  lemma UnlistKeeps(maxRetries: int, x: Tracked, step: Step)
    requires JobsOk(maxRetries, x) && Enabled(x.s, step) && (step.Unlist? || step.Crash?) && step.t !in x.held
    ensures JobsOk(maxRetries, Follow(maxRetries, x, step))
  {
    var x' := Follow(maxRetries, x, step);
    forall i | 0 <= i < |x'.queue| ensures QueueOk(maxRetries, x', i) {
      assert QueueOk(maxRetries, x, i);
    }
    forall t | t in x'.held ensures HeldOk(maxRetries, x', t) {
      assert HeldOk(maxRetries, x, t);
    }
    forall k | 0 <= k < |x'.lives| ensures PlaceOk(x', k) && LifeOk(maxRetries, x'.lives[k]) {
      assert PlaceOk(x, k);
    }
  }

  /** A job that a thread holds is in neither list. */
  lemma HeldIsUnlisted(maxRetries: int, x: Tracked, t: nat)
    requires JobsOk(maxRetries, x) && t in x.held
    ensures x.held[t] !in x.queue && x.held[t] !in x.dead
  {
    assert HeldOk(maxRetries, x, t);
    forall i | 0 <= i < |x.queue| ensures x.queue[i] != x.held[t] {
      assert QueueOk(maxRetries, x, i);
    }
  }

  /** A retry is in the queue, as often delivered as it says. */
  lemma RequeuedIsQueued(maxRetries: int, x: Tracked, step: Step)
    requires JobsOk(maxRetries, x) && Enabled(x.s, step) && step.Requeue?
    ensures var x' := Follow(maxRetries, x, step);
            Aligned(x') && forall i :: 0 <= i < |x'.queue| ==> QueueOk(maxRetries, x', i)
  {
    var x' := Follow(maxRetries, x, step);
    assert HeldOk(maxRetries, x, step.t);
    forall i | 0 <= i < |x'.queue| ensures QueueOk(maxRetries, x', i) {
      var k := i - 1;
      assert k >= 0 ==> QueueOk(maxRetries, x, k);
    }
  }

  lemma RequeueKeeps(maxRetries: int, x: Tracked, step: Step)
    requires JobsOk(maxRetries, x) && Enabled(x.s, step) && step.Requeue?
    ensures JobsOk(maxRetries, Follow(maxRetries, x, step))
  {
    var x', j := Follow(maxRetries, x, step), x.held[step.t];
    assert HeldOk(maxRetries, x, step.t) && LifeOk(maxRetries, x.lives[j]);
    HeldIsUnlisted(maxRetries, x, step.t);
    RequeuedIsQueued(maxRetries, x, step);
    forall t | t in x'.held ensures HeldOk(maxRetries, x', t) {
      assert HeldOk(maxRetries, x, t);
    }
    forall k | 0 <= k < |x'.lives| ensures PlaceOk(x', k) && LifeOk(maxRetries, x'.lives[k]) {
      assert PlaceOk(x, k) && LifeOk(maxRetries, x.lives[k]);
    }
  }

  lemma BuryKeeps(maxRetries: int, x: Tracked, step: Step)
    requires JobsOk(maxRetries, x) && Enabled(x.s, step) && step.Bury?
    ensures JobsOk(maxRetries, Follow(maxRetries, x, step))
  {
    var x', j := Follow(maxRetries, x, step), x.held[step.t];
    assert HeldOk(maxRetries, x, step.t) && LifeOk(maxRetries, x.lives[j]);
    HeldIsUnlisted(maxRetries, x, step.t);
    QueueStays(maxRetries, x, x', j);
    forall t | t in x'.held ensures HeldOk(maxRetries, x', t) {
      assert HeldOk(maxRetries, x, t);
    }
    forall k | 0 <= k < |x'.lives| ensures PlaceOk(x', k) && LifeOk(maxRetries, x'.lives[k]) {
      assert PlaceOk(x, k) && LifeOk(maxRetries, x.lives[k]);
    }
  }

  lemma StepKeepsJobsOk(maxRetries: int, x: Tracked, step: Step)
    requires JobsOk(maxRetries, x) && Enabled(x.s, step)
    ensures JobsOk(maxRetries, Follow(maxRetries, x, step))
  {
    match step
    case Enqueue(_, _) => EnqueueKeeps(maxRetries, x, step);
    case Deliver(_) => DeliverKeeps(maxRetries, x, step);
    case Finish(_) => InHandsKeeps(maxRetries, x, step);
    case Raise(_, _) => InHandsKeeps(maxRetries, x, step);
    case Requeue(_) => RequeueKeeps(maxRetries, x, step);
    case Bury(_) => BuryKeeps(maxRetries, x, step);
    case Ack(_) => LeavesKeeps(maxRetries, x, step);
    case Unlist(_) => UnlistKeeps(maxRetries, x, step);
    case Crash(t) =>
      if t in x.held {
        LeavesKeeps(maxRetries, x, step);
      } else {
        UnlistKeeps(maxRetries, x, step);
      }
  }

  lemma {:induction false} RunKeepsJobsOk(maxRetries: int, x: Tracked, steps: seq<Step>, x': Tracked)
    requires JobsOk(maxRetries, x) && Tracks(maxRetries, x, steps, x')
    ensures JobsOk(maxRetries, x')
    decreases |steps|
  {
    if steps != [] {
      StepKeepsJobsOk(maxRetries, x, steps[0]);
      RunKeepsJobsOk(maxRetries, Follow(maxRetries, x, steps[0]), steps[1..], x');
    }
  }

  /** Every run of the machine can be tracked, and tracking changes nothing about it. */
  lemma {:induction false} EveryRunIsTracked(maxRetries: int, x: Tracked, steps: seq<Step>, s': State) returns (x': Tracked)
    requires JobsOk(maxRetries, x) && Run(maxRetries, x.s, steps, s')
    ensures Tracks(maxRetries, x, steps, x') && x'.s == s'
    decreases |steps|
  {
    if steps == [] {
      x' := x;
    } else {
      StepKeepsJobsOk(maxRetries, x, steps[0]);
      x' := EveryRunIsTracked(maxRetries, Follow(maxRetries, x, steps[0]), steps[1..], s');
    }
  }

  // ---------- Main results, over every run ----------

  function Holders(x: Tracked, j: nat): set<nat> {
    set t | t in x.held && x.held[t] == j
  }

  /** Each job is in exactly one of the queue, the hands of one thread, the dead-letter list, the completed jobs
      and the lost ones; it is delivered at most as often as the limit allows attempts. */
  lemma ExactlyOnePlace(maxRetries: int, steps: seq<Step>, x: Tracked, j: nat)
    requires Tracks(maxRetries, Start(), steps, x) && j < |x.lives|
    ensures multiset(x.queue)[j] + |Holders(x, j)| + multiset(x.dead)[j]
            + (if x.lives[j].place == Done then 1 else 0) + (if x.lives[j].place == Lost then 1 else 0) == 1
    ensures x.lives[j].deliveries <= AttemptLimit(maxRetries)
  {
    RunKeepsJobsOk(maxRetries, Start(), steps, x);
    OnePlace(maxRetries, x, j);
  }

  lemma OnePlace(maxRetries: int, x: Tracked, j: nat)
    requires JobsOk(maxRetries, x) && j < |x.lives|
    ensures multiset(x.queue)[j] == if x.lives[j].place == Queued then 1 else 0
    ensures multiset(x.dead)[j] == if x.lives[j].place == Buried then 1 else 0
    ensures |Holders(x, j)| == if x.lives[j].place.Held? then 1 else 0
    ensures LifeOk(maxRetries, x.lives[j])
  {
    assert PlaceOk(x, j);
    DistinctCount(x.queue, j);
    DistinctCount(x.dead, j);
    if i :| 0 <= i < |x.queue| && x.queue[i] == j {
      assert QueueOk(maxRetries, x, i);
    }
    forall t | t in Holders(x, j) ensures x.lives[j].place == Held(t) {
      assert HeldOk(maxRetries, x, t);
    }
    if x.lives[j].place.Held? {
      assert Holders(x, j) == {x.lives[j].place.t};
    } else {
      assert Holders(x, j) == {};
    }
  }

  /** Done, buried and lost are absorbing: nothing about such a job ever changes again. */
  lemma {:induction false} EndIsForever(maxRetries: int, x: Tracked, steps: seq<Step>, x': Tracked, j: nat)
    requires JobsOk(maxRetries, x) && Tracks(maxRetries, x, steps, x') && j < |x.lives|
    requires x.lives[j].place in {Done, Buried, Lost}
    ensures j < |x'.lives| && x'.lives[j] == x.lives[j]
    decreases |steps|
  {
    if steps != [] {
      EndStays(maxRetries, x, steps[0], j);
      StepKeepsJobsOk(maxRetries, x, steps[0]);
      EndIsForever(maxRetries, Follow(maxRetries, x, steps[0]), steps[1..], x', j);
    }
  }

  lemma EndStays(maxRetries: int, x: Tracked, step: Step, j: nat)
    requires JobsOk(maxRetries, x) && Enabled(x.s, step) && j < |x.lives|
    requires x.lives[j].place in {Done, Buried, Lost}
    ensures var x' := Follow(maxRetries, x, step); j < |x'.lives| && x'.lives[j] == x.lives[j]
  {
    if step.Deliver? {
      var n := |x.queue| - 1;
      assert QueueOk(maxRetries, x, n);
    } else if !step.Enqueue? && step.t in x.held {
      assert HeldOk(maxRetries, x, step.t);
    }
  }

  /** When the workers have nothing left to do, each job was processed to the end, is a dead letter, or is lost in
      the hands of a thread that died. */
  lemma EachJobEnds(maxRetries: int, steps: seq<Step>, x: Tracked, j: nat)
    requires Tracks(maxRetries, Start(), steps, x) && j < |x.lives|
    requires !exists step: Step :: !step.Enqueue? && !step.Crash? && Enabled(x.s, step)
    ensures x.lives[j].place in {Done, Buried, Lost}
    ensures x.lives[j].place == Done ==> x.lives[j].finished
  {
    RunKeepsJobsOk(maxRetries, Start(), steps, x);
    OnePlace(maxRetries, x, j);
    SomethingToDo(x.s);
    assert PlaceOk(x, j);
  }

  // ---------- The payloads are those of the jobs ----------

  /** The payload carries the id and the fields of the job. */
  predicate Carries(x: Tracked, p: Payload, j: nat) {
    j < |x.names| && x.names[j] == Name(p.id, p.body)
  }

  ghost predicate NamesOk(x: Tracked) {
    && Aligned(x) && |x.names| == |x.lives| && |x.dead| == |x.s.dead|
    && (forall i :: 0 <= i < |x.queue| ==> Carries(x, x.s.queue[i], x.queue[i]))
    && (forall t :: t in x.held ==> Carries(x, x.s.threads[t].p, x.held[t]))
    && (forall i :: 0 <= i < |x.dead| ==> Carries(x, x.s.dead[i], x.dead[i]))
  }

  lemma {:induction false} QueueKeepsNames(maxRetries: int, x: Tracked, step: Step, i: nat)
    requires NamesOk(x) && Enabled(x.s, step) && Aligned(Follow(maxRetries, x, step))
    requires i < |Follow(maxRetries, x, step).queue|
    ensures var x' := Follow(maxRetries, x, step); Carries(x', x'.s.queue[i], x'.queue[i])
  {
    if step.Enqueue? || step.Requeue? {
      var k := i - 1;
      assert i > 0 ==> Carries(x, x.s.queue[k], x.queue[k]);
    } else {
      assert Carries(x, x.s.queue[i], x.queue[i]);
    }
  }

  lemma {:induction false} StepKeepsNames(maxRetries: int, x: Tracked, step: Step)
    requires NamesOk(x) && Enabled(x.s, step) && Aligned(Follow(maxRetries, x, step))
    ensures NamesOk(Follow(maxRetries, x, step))
  {
    var x' := Follow(maxRetries, x, step);
    assert forall j :: 0 <= j < |x.names| ==> x'.names[j] == x.names[j];
    forall i | 0 <= i < |x'.queue| ensures Carries(x', x'.s.queue[i], x'.queue[i]) {
      QueueKeepsNames(maxRetries, x, step, i);
    }
    forall i | 0 <= i < |x'.dead| ensures Carries(x', x'.s.dead[i], x'.dead[i]) {
      if step.Bury? {
        var k := i - 1;
        assert i > 0 ==> Carries(x, x.s.dead[k], x.dead[k]);
      }
    }
    forall t | t in x'.held ensures Carries(x', x'.s.threads[t].p, x'.held[t]) {
      if step.Deliver? {
        var n := |x.queue| - 1;
        assert Carries(x, x.s.queue[n], x.queue[n]);
      }
    }
  }

  lemma {:induction false} RunKeepsNames(maxRetries: int, x: Tracked, steps: seq<Step>, x': Tracked)
    requires JobsOk(maxRetries, x) && NamesOk(x) && Tracks(maxRetries, x, steps, x')
    ensures NamesOk(x') && x.names <= x'.names
    decreases |steps|
  {
    if steps != [] {
      StepKeepsJobsOk(maxRetries, x, steps[0]);
      StepKeepsNames(maxRetries, x, steps[0]);
      RunKeepsNames(maxRetries, Follow(maxRetries, x, steps[0]), steps[1..], x');
    }
  }

  /** Over every run, retries and failures never change what a job is: wherever its payload is, in the queue, in the hands
      of a thread or on the dead-letter list, it carries the id and the fields that the job was enqueued with. */
  lemma {:induction false} PayloadsAreTheJobs(maxRetries: int, steps: seq<Step>, x: Tracked)
    requires Tracks(maxRetries, Start(), steps, x)
    ensures NamesOk(x)
  {
    RunKeepsNames(maxRetries, Start(), steps, x);
  }

  // ---------- No run works for ever ----------

  /** How many steps a job can still cause, but for the last command of its thread. */
  function Weight(maxRetries: int, x: Tracked, j: nat): int
    requires j < |x.lives|
  {
    var left := 4 * (AttemptLimit(maxRetries) - x.lives[j].deliveries);
    match x.lives[j].place
    case Queued => left + 1
    case Held(t) =>
      if t !in x.s.threads then 0
      else (match x.s.threads[t]
            case Delivered(_) => left + 3
            case Acking(_) => left + 2
            case _ => left + 1)
    case _ => 0
  }

  function Total(maxRetries: int, x: Tracked, n: nat): int
    requires n <= |x.lives|
  {
    if n == 0 then 0 else Total(maxRetries, x, n - 1) + Weight(maxRetries, x, n - 1)
  }

  function Measure(maxRetries: int, x: Tracked): int {
    Total(maxRetries, x, |x.lives|) + |x.s.threads|
  }

  /** Only the weight of one job changes. */
  lemma {:induction false} TotalChanges(maxRetries: int, x: Tracked, x': Tracked, j: nat, n: nat)
    requires n <= |x.lives| && n <= |x'.lives|
    requires forall k :: 0 <= k < n && k != j ==> Weight(maxRetries, x', k) == Weight(maxRetries, x, k)
    ensures Total(maxRetries, x', n) - Total(maxRetries, x, n)
            == if j < n then Weight(maxRetries, x', j) - Weight(maxRetries, x, j) else 0
  {
    if n > 0 {
      TotalChanges(maxRetries, x, x', j, n - 1);
    }
  }

  lemma {:induction false} TotalNonNegative(maxRetries: int, x: Tracked, n: nat)
    requires JobsOk(maxRetries, x) && n <= |x.lives|
    ensures Total(maxRetries, x, n) >= 0
  {
    if n > 0 {
      var m := n - 1;
      TotalNonNegative(maxRetries, x, m);
      assert LifeOk(maxRetries, x.lives[m]);
    }
  }

  lemma MeasureNonNegative(maxRetries: int, x: Tracked)
    requires JobsOk(maxRetries, x)
    ensures Measure(maxRetries, x) >= 0
  {
    TotalNonNegative(maxRetries, x, |x.lives|);
  }

  /** The job that a step is about; for a step without one, none. */
  function Subject(x: Tracked, step: Step): nat
    requires Aligned(x) && Enabled(x.s, step)
  {
    match step
    case Enqueue(_, _) => |x.lives|
    case Deliver(_) => x.queue[|x.queue| - 1]
    case _ => if step.t in x.held then x.held[step.t] else |x.lives|
  }

  /** The other jobs keep their weight. */
  lemma OthersKeepWeight(maxRetries: int, x: Tracked, step: Step, k: nat)
    requires JobsOk(maxRetries, x) && Enabled(x.s, step) && k < |x.lives| && k != Subject(x, step)
    ensures k < |Follow(maxRetries, x, step).lives|
    ensures Weight(maxRetries, Follow(maxRetries, x, step), k) == Weight(maxRetries, x, k)
  {
    assert PlaceOk(x, k);
  }

  /** The job itself: its weight and the number of threads that have one pay for the step. */
  lemma SubjectPays(maxRetries: int, x: Tracked, step: Step)
    requires JobsOk(maxRetries, x) && Enabled(x.s, step) && !step.Enqueue?
    ensures var x', j := Follow(maxRetries, x, step), Subject(x, step);
            |x'.lives| == |x.lives|
            && (if j < |x.lives| then Weight(maxRetries, x', j) - Weight(maxRetries, x, j) else 0)
               + |x'.s.threads| - |x.s.threads| < 0
  {
    var j := Subject(x, step);
    assert step.Deliver? ==> QueueOk(maxRetries, x, |x.queue| - 1);
    if !step.Deliver? && step.t in x.held {
      assert HeldOk(maxRetries, x, step.t);
      assert LifeOk(maxRetries, x.lives[j]);
    }
    ThreadsAfter(maxRetries, x.s, step);
  }

  lemma ThreadsAfter(maxRetries: int, s: RedisQueue.State, step: Step)
    requires Enabled(s, step) && !step.Enqueue?
    ensures var threads := Apply(maxRetries, s, step).threads;
            |threads| == |s.threads| + match step
              case Deliver(_) => 1
              case Finish(_) => 0
              case Raise(_, _) => 0
              case Bury(_) => 0
              case _ => -1
  {
    var threads := Apply(maxRetries, s, step).threads;
    if step.Finish? || step.Raise? || step.Bury? {
      assert threads.Keys == s.threads.Keys;
    } else if step.Deliver? {
      assert threads.Keys == s.threads.Keys + {step.t};
    } else {
      assert threads.Keys == s.threads.Keys - {step.t};
    }
  }

  /** Every step but an arrival lowers the measure; an arrival raises it by what the limit allows for a job. */
  lemma StepMeasure(maxRetries: int, x: Tracked, step: Step)
    requires JobsOk(maxRetries, x) && Enabled(x.s, step)
    ensures var x' := Follow(maxRetries, x, step);
            if step.Enqueue? then
              |x'.lives| == |x.lives| + 1 && Measure(maxRetries, x') == Measure(maxRetries, x) + 4 * AttemptLimit(maxRetries) + 1
            else |x'.lives| == |x.lives| && Measure(maxRetries, x') < Measure(maxRetries, x)
  {
    var x', j, n := Follow(maxRetries, x, step), Subject(x, step), |x.lives|;
    forall k | 0 <= k < n && k != j ensures Weight(maxRetries, x', k) == Weight(maxRetries, x, k) {
      OthersKeepWeight(maxRetries, x, step, k);
    }
    TotalChanges(maxRetries, x, x', j, n);
    if !step.Enqueue? {
      SubjectPays(maxRetries, x, step);
    }
  }

  lemma {:induction false} RunMeasure(maxRetries: int, x: Tracked, steps: seq<Step>, x': Tracked)
    requires JobsOk(maxRetries, x) && Tracks(maxRetries, x, steps, x')
    ensures |x'.lives| >= |x.lives| && Measure(maxRetries, x') >= 0
    ensures |steps| + Measure(maxRetries, x')
            <= Measure(maxRetries, x) + (|x'.lives| - |x.lives|) * (4 * AttemptLimit(maxRetries) + 2)
    decreases |steps|
  {
    if steps != [] {
      var next := Follow(maxRetries, x, steps[0]);
      StepMeasure(maxRetries, x, steps[0]);
      StepKeepsJobsOk(maxRetries, x, steps[0]);
      RunMeasure(maxRetries, next, steps[1..], x');
    } else {
      MeasureNonNegative(maxRetries, x);
    }
  }

  /** Every run, whatever raises and whichever threads die, has at most 4 * limit + 2 steps for each job. */
  lemma {:induction false} RunsAreBounded(maxRetries: int, steps: seq<Step>, x: Tracked)
    requires Tracks(maxRetries, Start(), steps, x)
    ensures |steps| <= |x.lives| * (4 * AttemptLimit(maxRetries) + 2)
  {
    StartIsFresh(maxRetries);
    RunMeasure(maxRetries, Start(), steps, x);
  }

  lemma StartIsFresh(maxRetries: int)
    ensures JobsOk(maxRetries, Start()) && Measure(maxRetries, Start()) == 0 && Start().lives == []
  {
  }

  // ---------- How a job gets lost ----------

  /** A step by which the thread that holds job j dies before the job is processed to the end and acknowledged,
      put back, or buried. */
  predicate Loses(x: Tracked, step: Step, j: nat)
    requires Aligned(x)
  {
    step.Crash? && step.t in x.held && x.held[step.t] == j && !x.s.threads[step.t].Acking?
  }

  ghost predicate EverLoses(maxRetries: int, x: Tracked, steps: seq<Step>, x': Tracked, j: nat)
    requires Tracks(maxRetries, x, steps, x')
    decreases |steps|
  {
    steps != []
    && (Loses(x, steps[0], j) || EverLoses(maxRetries, Follow(maxRetries, x, steps[0]), steps[1..], x', j))
  }

  lemma LosesNow(maxRetries: int, x: Tracked, step: Step, j: nat)
    requires JobsOk(maxRetries, x) && Enabled(x.s, step)
    ensures var x' := Follow(maxRetries, x, step);
            (j < |x'.lives| && x'.lives[j].place == Lost)
            <==> (j < |x.lives| && x.lives[j].place == Lost) || Loses(x, step, j)
  {
    if j < |x.lives| && x.lives[j].place == Lost {
      EndStays(maxRetries, x, step, j);
    }
  }

  lemma {:induction false} LostFrom(maxRetries: int, x: Tracked, steps: seq<Step>, x': Tracked, j: nat)
    requires JobsOk(maxRetries, x) && Tracks(maxRetries, x, steps, x')
    ensures (j < |x'.lives| && x'.lives[j].place == Lost)
            <==> (j < |x.lives| && x.lives[j].place == Lost) || EverLoses(maxRetries, x, steps, x', j)
    decreases |steps|
  {
    if steps != [] {
      LosesNow(maxRetries, x, steps[0], j);
      StepKeepsJobsOk(maxRetries, x, steps[0]);
      LostFrom(maxRetries, Follow(maxRetries, x, steps[0]), steps[1..], x', j);
    }
  }

  /** A job is lost exactly when, at some point of the run, the thread that held it died before the job was
      completed, put back or buried: the promise of at-least-once processing holds for all other jobs. */
  lemma LostIffThreadDied(maxRetries: int, steps: seq<Step>, x: Tracked, j: nat)
    requires Tracks(maxRetries, Start(), steps, x)
    ensures (j < |x.lives| && x.lives[j].place == Lost) <==> EverLoses(maxRetries, Start(), steps, x, j)
  {
    LostFrom(maxRetries, Start(), steps, x, j);
  }

  // ---------- Completion is not final ----------

  /** The thread that holds the job is about to put it back or to bury it. */
  predicate AboutToReturn(x: Tracked, j: nat)
    requires Aligned(x) && j < |x.lives|
  {
    x.lives[j].place.Held? && x.lives[j].place.t in x.held
    && (x.s.threads[x.lives[j].place.t].Requeueing? || x.s.threads[x.lives[j].place.t].Burying?)
  }

  /** A job that was processed to the end is put back into the queue or buried afterwards exactly when an
      acknowledgement of it has raised; only a thread that dies, or has yet to act, stands between the two. */
  lemma ReturnedIffRecalled(maxRetries: int, steps: seq<Step>, x: Tracked, j: nat)
    requires Tracks(maxRetries, Start(), steps, x) && j < |x.lives|
    ensures Aligned(x)
    ensures x.lives[j].returned ==> x.lives[j].recalled
    ensures x.lives[j].recalled ==> x.lives[j].finished
    ensures x.lives[j].place != Lost && !AboutToReturn(x, j) ==> (x.lives[j].returned <==> x.lives[j].recalled)
    ensures x.lives[j].finished && !x.lives[j].recalled
            ==> x.lives[j].place == Done
                || (x.lives[j].place.Held? && x.lives[j].place.t in x.held && x.s.threads[x.lives[j].place.t].Acking?)
  {
    RunKeepsJobsOk(maxRetries, Start(), steps, x);
    OnePlace(maxRetries, x, j);
    assert PlaceOk(x, j);
    if x.lives[j].place.Held? {
      assert HeldOk(maxRetries, x, x.lives[j].place.t);
    }
  }

  lemma Extend(maxRetries: int, steps: seq<Step>, x: Tracked, step: Step) returns (steps': seq<Step>, x': Tracked)
    requires Tracks(maxRetries, Start(), steps, x) && JobsOk(maxRetries, x) && Enabled(x.s, step)
    ensures Tracks(maxRetries, Start(), steps', x') && JobsOk(maxRetries, x') && x' == Follow(maxRetries, x, step)
    ensures |steps'| == |steps| + 1
  {
    steps', x' := steps + [step], Follow(maxRetries, x, step);
    StepKeepsJobsOk(maxRetries, x, step);
    TracksThen(maxRetries, Start(), steps, x, step);
  }

  lemma {:induction false} TracksThen(maxRetries: int, x: Tracked, steps: seq<Step>, x': Tracked, step: Step)
    requires Tracks(maxRetries, x, steps, x') && Aligned(x') && Enabled(x'.s, step)
    ensures Tracks(maxRetries, x, steps + [step], Follow(maxRetries, x', step))
    decreases |steps|
  {
    if steps == [] {
      assert Tracks(maxRetries, Follow(maxRetries, x', step), [], Follow(maxRetries, x', step));
    } else {
      assert (steps + [step])[1..] == steps[1..] + [step];
      TracksThen(maxRetries, Follow(maxRetries, x, steps[0]), steps[1..], x', step);
    }
  }

  /** A run in which one job is delivered. */
  lemma OneDelivered(maxRetries: int, id: string, body: string) returns (steps: seq<Step>, x: Tracked)
    ensures Tracks(maxRetries, Start(), steps, x) && JobsOk(maxRetries, x)
    ensures x.queue == [] && x.held == map[0 := 0] && x.s.queue == []
    ensures x.lives == [Life(Held(0), 1, false, false, false)]
    ensures x.s.threads == map[0 := Delivered(Payload(id, body, Pending, 0, ""))]
  {
    steps, x := [], Start();
    steps, x := Extend(maxRetries, steps, x, Enqueue(id, body));
    steps, x := Extend(maxRetries, steps, x, Deliver(0));
  }

  /** A run in which one job is delivered and processed to the end. */
  lemma OneFinished(maxRetries: int, id: string, body: string) returns (steps: seq<Step>, x: Tracked)
    ensures Tracks(maxRetries, Start(), steps, x) && JobsOk(maxRetries, x)
    ensures x.queue == [] && x.held == map[0 := 0] && x.s.queue == []
    ensures x.lives == [Life(Held(0), 1, true, false, false)]
    ensures x.s.threads == map[0 := Acking(Payload(id, body, Completed, 0, ""))]
  {
    steps, x := OneDelivered(maxRetries, id, body);
    steps, x := Extend(maxRetries, steps, x, Finish(0));
  }

  /** A run in which the acknowledgement of the job raises after that. */
  lemma OneRecalled(maxRetries: int, id: string, body: string, error: string) returns (steps: seq<Step>, x: Tracked)
    ensures Tracks(maxRetries, Start(), steps, x) && JobsOk(maxRetries, x)
    ensures x.queue == [] && x.held == map[0 := 0] && x.s.queue == []
    ensures x.lives == [Life(Held(0), 1, true, true, false)]
    ensures var p := Failure(Payload(id, body, Completed, 0, ""), error, maxRetries);
            x.s.threads == map[0 := if maxRetries >= 2 then Requeueing(p) else Burying(p)]
  {
    steps, x := OneFinished(maxRetries, id, body);
    steps, x := Extend(maxRetries, steps, x, Raise(0, error));
  }

  /** Such a run, for every limit: a job is completed, its acknowledgement raises, and it is delivered a second time
      or, when the limit allows no second attempt, ends as a dead letter. */
  lemma CompletedJobComesBack(maxRetries: int, id: string, body: string, error: string)
    returns (steps: seq<Step>, x: Tracked)
    ensures Tracks(maxRetries, Start(), steps, x) && |x.lives| == 1
    ensures x.lives[0] == if maxRetries >= 2 then Life(Held(0), 2, true, true, true) else Life(Buried, 1, true, true, true)
  {
    steps, x := OneRecalled(maxRetries, id, body, error);
    if maxRetries >= 2 {
      steps, x := Extend(maxRetries, steps, x, Requeue(0));
      steps, x := Extend(maxRetries, steps, x, Deliver(0));
    } else {
      steps, x := Extend(maxRetries, steps, x, Bury(0));
    }
  }

  /** And a run, for every limit, that loses a job at its first delivery. */
  lemma CrashLosesJob(maxRetries: int, id: string, body: string) returns (steps: seq<Step>, x: Tracked)
    ensures Tracks(maxRetries, Start(), steps, x) && |x.lives| == 1 && x.lives[0] == Life(Lost, 1, false, false, false)
  {
    steps, x := OneDelivered(maxRetries, id, body);
    steps, x := Extend(maxRetries, steps, x, Crash(0));
  }

  // ---------- The bound on the steps is reached ----------

  /** One job, in the queue, after k attempts that were processed to the end and not acknowledged. */
  predicate Failing(x: Tracked, k: nat) {
    && x.queue == [0] && x.held == map[] && x.s.threads == map[] && |x.lives| == 1
    && |x.s.queue| == 1 && x.s.queue[0].retries == k
  }

  /** One job, in the hands of one thread, after k attempts before this one. */
  predicate InHands(x: Tracked, k: nat) {
    && x.queue == [] && x.held == map[0 := 0] && x.s.queue == [] && |x.lives| == 1
    && x.s.threads.Keys == {0} && x.s.threads[0].p.retries == k
  }

  /** The same when the acknowledgement has raised. */
  predicate Recalled(maxRetries: int, x: Tracked, k: nat) {
    && InHands(x, k + 1)
    && if k + 1 >= maxRetries then x.s.threads[0].Burying? else x.s.threads[0].Requeueing?
  }

  lemma AnotherDelivery(maxRetries: int, steps: seq<Step>, x: Tracked, k: nat) returns (steps': seq<Step>, x': Tracked)
    requires Tracks(maxRetries, Start(), steps, x) && JobsOk(maxRetries, x) && Failing(x, k)
    ensures Tracks(maxRetries, Start(), steps', x') && JobsOk(maxRetries, x') && |steps'| == |steps| + 1
    ensures InHands(x', k) && x'.s.threads[0].Delivered?
  {
    steps', x' := Extend(maxRetries, steps, x, Deliver(0));
  }

  lemma AnotherFinish(maxRetries: int, steps: seq<Step>, x: Tracked, k: nat) returns (steps': seq<Step>, x': Tracked)
    requires Tracks(maxRetries, Start(), steps, x) && JobsOk(maxRetries, x) && Failing(x, k)
    ensures Tracks(maxRetries, Start(), steps', x') && JobsOk(maxRetries, x') && |steps'| == |steps| + 2
    ensures InHands(x', k) && x'.s.threads[0].Acking?
  {
    steps', x' := AnotherDelivery(maxRetries, steps, x, k);
    steps', x' := Extend(maxRetries, steps', x', Finish(0));
  }

  lemma AnotherRecall(maxRetries: int, steps: seq<Step>, x: Tracked, k: nat) returns (steps': seq<Step>, x': Tracked)
    requires Tracks(maxRetries, Start(), steps, x) && JobsOk(maxRetries, x) && Failing(x, k)
    ensures Tracks(maxRetries, Start(), steps', x') && JobsOk(maxRetries, x') && |steps'| == |steps| + 3
    ensures Recalled(maxRetries, x', k)
  {
    steps', x' := AnotherFinish(maxRetries, steps, x, k);
    steps', x' := Extend(maxRetries, steps', x', Raise(0, ""));
  }

  lemma {:induction false} FailingRun(maxRetries: int, id: string, body: string, k: nat) returns (steps: seq<Step>, x: Tracked)
    requires k < AttemptLimit(maxRetries)
    ensures Tracks(maxRetries, Start(), steps, x) && JobsOk(maxRetries, x) && Failing(x, k) && |steps| == 1 + 4 * k
  {
    if k == 0 {
      steps, x := Extend(maxRetries, [], Start(), Enqueue(id, body));
    } else {
      steps, x := FailingRun(maxRetries, id, body, k - 1);
      steps, x := AnotherRecall(maxRetries, steps, x, k - 1);
      steps, x := Extend(maxRetries, steps, x, Requeue(0));
    }
  }

  /** For every limit there is a run of one job with exactly as many steps as the bound allows: each attempt is
      processed to the end, and each acknowledgement raises. */
  lemma BoundIsReached(maxRetries: int, id: string, body: string) returns (steps: seq<Step>, x: Tracked)
    ensures Tracks(maxRetries, Start(), steps, x) && |x.lives| == 1 && |steps| == 4 * AttemptLimit(maxRetries) + 2
  {
    var k := AttemptLimit(maxRetries) - 1;
    steps, x := FailingRun(maxRetries, id, body, k);
    steps, x := AnotherRecall(maxRetries, steps, x, k);
    steps, x := Extend(maxRetries, steps, x, Bury(0));
    steps, x := Extend(maxRetries, steps, x, Unlist(0));
  }
}
