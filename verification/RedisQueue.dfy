/** The Redis queue, one step for each Redis command, with crashes allowed between any two commands.

    A worker receives the payload it moved to the processing list, but acknowledges with the job
    serialised again after its status changed. */
module RedisQueue {
  import opened IngestJobs

  /** A serialised job. Equal payloads are equal strings, because `json.dumps` is injective on jobs;
      `body` stands for the fields that never change. */
  datatype Payload = Payload(id: string, body: string, status: Status, retries: nat, error: string)

  /** Where a worker thread is. */
  datatype Pc =
    | Delivered(p: Payload)   // brpoplpush returned; _process_job runs
    | Acking(p: Payload)      // completed, before the lrem of _ack_redis
    | Requeueing(p: Payload)  // before the lpush of a retry
    | Burying(p: Payload)     // failed, before the lpush to the dead-letter list
    | Unlisting(p: Payload)   // before the lrem of _dlq_redis

  /** `queue` and `processing` with the head of the Redis list first. The last four are history. */
  datatype State = State(
    queue: seq<Payload>, processing: seq<Payload>, dead: seq<Payload>,
    threads: map<nat, Pc>,
    pushed: seq<Payload>, delivered: seq<Payload>, failures: multiset<string>, tally: Tally)

  /** How many jobs were enqueued, were processed to the end, or were dropped by a dying thread. */
  datatype Tally = Tally(enqueued: nat, completed: nat, lost: nat)

  datatype Step =
    | Enqueue(id: string, body: string)
    | Deliver(t: nat)
    | Finish(t: nat)
    | Raise(t: nat, error: string)      // _process_job raises, or the acknowledging lrem does
    | Ack(t: nat)
    | Requeue(t: nat)
    | Bury(t: nat)
    | Unlist(t: nat)
    | Crash(t: nat)                     // the thread dies, or a Redis command in it raises

  function Init(): State {
    State([], [], [], map[], [], [], multiset{}, Tally(0, 0, 0))
  }

  /** LREM key 1 value: remove the first occurrence from the head. */
  function LRem(list: seq<Payload>, p: Payload): (rest: seq<Payload>)
    ensures p !in list ==> rest == list
    ensures p in list ==> multiset(rest) == multiset(list) - multiset{p}
  {
    if list == [] then []
    else if list[0] == p then
      assert list == [p] + list[1..];
      list[1..]
    else
      assert list == [list[0]] + list[1..];
      [list[0]] + LRem(list[1..], p)
  }

  /** The steps a thread can take next. */
  predicate Continues(pc: Pc, step: Step) {
    match step
    case Finish(_) => pc.Delivered?
    case Raise(_, _) => pc.Delivered? || pc.Acking?
    case Ack(_) => pc.Acking?
    case Requeue(_) => pc.Requeueing?
    case Bury(_) => pc.Burying?
    case Unlist(_) => pc.Unlisting?
    case Crash(_) => true
    case _ => false
  }

  predicate Enabled(s: State, step: Step) {
    match step
    case Enqueue(_, _) => true
    case Deliver(t) => t !in s.threads && s.queue != []
    case _ => step.t in s.threads && Continues(s.threads[step.t], step)
  }

  /** LPUSH to the queue. */
  function Push(s: State, p: Payload): State {
    s.(queue := [p] + s.queue, pushed := s.pushed + [p])
  }

  /** What `_handle_job_failure` makes of a job. */
  function Failure(p: Payload, error: string, maxRetries: int): Payload {
    var next := AfterFailure(p.retries, maxRetries);
    p.(status := next.status, retries := next.retries, error := error)
  }

  function Apply(maxRetries: int, s: State, step: Step): State
    requires Enabled(s, step)
  {
    match step
    case Enqueue(id, body) =>
      Push(s, Payload(id, body, Pending, 0, "")).(tally := s.tally.(enqueued := s.tally.enqueued + 1))
    case Deliver(t) =>
      var p := s.queue[|s.queue| - 1];
      s.(queue := s.queue[..|s.queue| - 1], processing := [p] + s.processing,
         delivered := s.delivered + [p], threads := s.threads[t := Delivered(p)])
    case Finish(t) =>
      s.(threads := s.threads[t := Acking(s.threads[t].p.(status := Completed))])
    case Raise(t, error) =>
      var p := Failure(s.threads[t].p, error, maxRetries);
      s.(threads := s.threads[t := if p.status.Failed? then Burying(p) else Requeueing(p)],
         failures := s.failures + multiset{p.id})
    case Ack(t) =>
      s.(processing := LRem(s.processing, s.threads[t].p), threads := s.threads - {t},
         tally := s.tally.(completed := s.tally.completed + 1))
    case Requeue(t) => Push(s, s.threads[t].p).(threads := s.threads - {t})
    case Bury(t) =>
      s.(dead := [s.threads[t].p] + s.dead, threads := s.threads[t := Unlisting(s.threads[t].p)])
    case Unlist(t) => s.(processing := LRem(s.processing, s.threads[t].p), threads := s.threads - {t})
    case Crash(t) =>
      var tally := match s.threads[t]
        case Acking(_) => s.tally.(completed := s.tally.completed + 1)
        case Unlisting(_) => s.tally
        case _ => s.tally.(lost := s.tally.lost + 1);
      s.(threads := s.threads - {t}, tally := tally)
  }

  ghost predicate Run(maxRetries: int, s: State, steps: seq<Step>, s': State)
    decreases |steps|
  {
    if steps == [] then s == s'
    else Enabled(s, steps[0]) && Run(maxRetries, Apply(maxRetries, s, steps[0]), steps[1..], s')
  }

  function Reverse(xs: seq<Payload>): (ys: seq<Payload>)
    ensures |ys| == |xs|
    ensures forall i :: 0 <= i < |xs| ==> ys[i] == xs[|xs| - 1 - i]
  {
    if xs == [] then [] else Reverse(xs[1..]) + [xs[0]]
  }

  // ---------- What every step keeps ----------

  ghost predicate Backed(s: State, p: Payload) {
    p.retries <= s.failures[p.id]
  }

  ghost predicate PcOk(maxRetries: int, s: State, pc: Pc) {
    && Backed(s, pc.p)
    && pc.p.status == (match pc
                       case Delivered(_) => Pending
                       case Acking(_) => Completed
                       case Requeueing(_) => Pending
                       case _ => Failed)
    && (pc.p.status.Failed? ==> pc.p.retries >= AttemptLimit(maxRetries))
  }

  ghost predicate ListsOk(s: State) {
    && s.processing == Reverse(s.delivered)
    && s.pushed == s.delivered + Reverse(s.queue)
    && (forall i :: 0 <= i < |s.pushed| ==> s.pushed[i].status.Pending? && Backed(s, s.pushed[i]))
  }

  ghost predicate JobsOk(maxRetries: int, s: State) {
    && (forall t :: t in s.threads ==> PcOk(maxRetries, s, s.threads[t]))
    && (forall i :: 0 <= i < |s.dead| ==>
          s.dead[i].retries >= AttemptLimit(maxRetries) && Backed(s, s.dead[i]))
  }

  ghost predicate Inv(maxRetries: int, s: State) {
    ListsOk(s) && JobsOk(maxRetries, s)
  }

  lemma ReverseAppend(xs: seq<Payload>, p: Payload)
    ensures Reverse(xs + [p]) == [p] + Reverse(xs)
    ensures Reverse([p] + xs) == Reverse(xs) + [p]
  {
  }

  /** Every payload in the processing list says pending. */
  lemma ProcessingIsPending(s: State, p: Payload)
    requires ListsOk(s) && p in s.processing
    ensures p.status.Pending?
  {
    var i :| 0 <= i < |s.processing| && s.processing[i] == p;
    assert s.pushed[|s.delivered| - 1 - i] == p;
  }

  lemma PushKeepsLists(s: State, p: Payload)
    requires ListsOk(s) && p.status.Pending? && Backed(s, p)
    ensures ListsOk(Push(s, p))
  {
    ReverseAppend(s.queue, p);
  }

  lemma DeliverKeepsLists(maxRetries: int, s: State, t: nat)
    requires ListsOk(s) && Enabled(s, Deliver(t))
    ensures ListsOk(Apply(maxRetries, s, Deliver(t)))
    ensures Backed(s, s.queue[|s.queue| - 1]) && s.queue[|s.queue| - 1].status.Pending?
  {
    var n, p := |s.queue| - 1, s.queue[|s.queue| - 1];
    assert s.queue == s.queue[..n] + [p];
    ReverseAppend(s.queue[..n], p);
    ReverseAppend(s.delivered, p);
    assert s.pushed[|s.delivered|] == p;
  }

  /** The payload that an acknowledgement names is not in the processing list. */
  lemma NamedIsAbsent(maxRetries: int, s: State, step: Step)
    requires Inv(maxRetries, s) && Enabled(s, step) && (step.Ack? || step.Unlist?)
    ensures s.threads[step.t].p !in s.processing
  {
    assert PcOk(maxRetries, s, s.threads[step.t]);
    if s.threads[step.t].p in s.processing {
      ProcessingIsPending(s, s.threads[step.t].p);
    }
  }

  lemma {:induction false} StepKeepsLists(maxRetries: int, s: State, step: Step)
    requires Inv(maxRetries, s) && Enabled(s, step)
    ensures ListsOk(Apply(maxRetries, s, step))
  {
    match step
    case Enqueue(id, body) => PushKeepsLists(s, Payload(id, body, Pending, 0, ""));
    case Deliver(t) => DeliverKeepsLists(maxRetries, s, t);
    case Requeue(t) =>
      assert PcOk(maxRetries, s, s.threads[t]);
      PushKeepsLists(s, s.threads[t].p);
    case Ack(t) => NamedIsAbsent(maxRetries, s, step);
    case Unlist(t) => NamedIsAbsent(maxRetries, s, step);
    case _ =>
  }

  lemma StepKeepsJobs(maxRetries: int, s: State, step: Step)
    requires Inv(maxRetries, s) && Enabled(s, step)
    ensures JobsOk(maxRetries, Apply(maxRetries, s, step))
  {
    var s' := Apply(maxRetries, s, step);
    if step.Deliver? {
      DeliverKeepsLists(maxRetries, s, step.t);
    }
    forall t | t in s'.threads ensures PcOk(maxRetries, s', s'.threads[t]) {
      assert t in s.threads ==> PcOk(maxRetries, s, s.threads[t]);
    }
    if step.Bury? {
      assert PcOk(maxRetries, s, s.threads[step.t]);
    }
  }

  lemma {:induction false} StepKeepsInv(maxRetries: int, s: State, step: Step)
    requires Inv(maxRetries, s) && Enabled(s, step)
    ensures Inv(maxRetries, Apply(maxRetries, s, step))
  {
    StepKeepsLists(maxRetries, s, step);
    StepKeepsJobs(maxRetries, s, step);
  }

  lemma {:induction false} RunKeepsInv(maxRetries: int, s: State, steps: seq<Step>, s': State)
    requires Inv(maxRetries, s) && Run(maxRetries, s, steps, s')
    ensures Inv(maxRetries, s') && s.pushed <= s'.pushed && s.delivered <= s'.delivered
    decreases |steps|
  {
    if steps != [] {
      StepKeepsInv(maxRetries, s, steps[0]);
      RunKeepsInv(maxRetries, Apply(maxRetries, s, steps[0]), steps[1..], s');
    }
  }

  // ---------- Main results, over every run ----------

  lemma {:induction false} ReverseMultiset(xs: seq<Payload>)
    ensures multiset(Reverse(xs)) == multiset(xs)
  {
    if xs != [] {
      ReverseMultiset(xs[1..]);
      assert xs == [xs[0]] + xs[1..];
    }
  }

  /** No payload is ever lost from Redis: each one that was pushed is in the queue or in the
      processing list, with its multiplicity. Delivery is first in, first out, and each push is
      delivered at most once. */
  lemma NothingIsLost(maxRetries: int, steps: seq<Step>, s: State)
    requires Run(maxRetries, Init(), steps, s)
    ensures multiset(s.pushed) == multiset(s.queue) + multiset(s.processing)
    ensures s.delivered <= s.pushed
    ensures s.processing == Reverse(s.delivered)
  {
    RunKeepsInv(maxRetries, Init(), steps, s);
    ReverseMultiset(s.queue);
    ReverseMultiset(s.delivered);
  }

  lemma PushedIsListed(maxRetries: int, s: State, p: Payload)
    requires ListsOk(s) && p in s.pushed
    ensures p in s.queue || p in s.processing
  {
    InReverse(s.queue, p);
    InReverse(s.delivered, p);
  }

  lemma InReverse(xs: seq<Payload>, p: Payload)
    ensures p in Reverse(xs) <==> p in xs
  {
    ReverseMultiset(xs);
    assert p in multiset(xs) <==> p in multiset(Reverse(xs));
  }

  /** What was pushed at some point of a run is still in one of the two lists at every later point. */
  lemma PushedStays(maxRetries: int, before: seq<Step>, s: State, after: seq<Step>, s': State, p: Payload)
    requires Run(maxRetries, Init(), before, s) && p in s.pushed
    requires Run(maxRetries, s, after, s')
    ensures p in s'.queue || p in s'.processing
  {
    RunKeepsInv(maxRetries, Init(), before, s);
    RunKeepsInv(maxRetries, s, after, s');
    var i :| 0 <= i < |s.pushed| && s.pushed[i] == p;
    assert p == s'.pushed[i];
    PushedIsListed(maxRetries, s', p);
  }

  /** The acknowledgement removes nothing: the payload it names was serialised after the status
      changed, and every payload in the processing list says pending. Hence acknowledging leaves the
      Redis lists exactly as a crash would. */
  lemma AckRemovesNothing(maxRetries: int, steps: seq<Step>, s: State, step: Step)
    requires Run(maxRetries, Init(), steps, s) && Enabled(s, step) && (step.Ack? || step.Unlist?)
    ensures Apply(maxRetries, s, step).processing == s.processing
    ensures var crashed := Apply(maxRetries, s, Crash(step.t));
            var acked := Apply(maxRetries, s, step);
            acked.queue == crashed.queue && acked.processing == crashed.processing && acked.dead == crashed.dead
  {
    RunKeepsInv(maxRetries, Init(), steps, s);
    NamedIsAbsent(maxRetries, s, step);
    AckAsCrash(maxRetries, s, step);
  }

  lemma AckAsCrash(maxRetries: int, s: State, step: Step)
    requires Enabled(s, step) && (step.Ack? || step.Unlist?) && s.threads[step.t].p !in s.processing
    ensures var acked, crashed := Apply(maxRetries, s, step), Apply(maxRetries, s, Crash(step.t));
            && acked.processing == crashed.processing == s.processing
            && acked.queue == crashed.queue && acked.dead == crashed.dead
  {
  }

  /** A job reaches the dead-letter list only after as many failures as the limit allows attempts. */
  lemma DeadLettersFailedOften(maxRetries: int, steps: seq<Step>, s: State, p: Payload)
    requires Run(maxRetries, Init(), steps, s) && p in s.dead
    ensures AttemptLimit(maxRetries) <= p.retries <= s.failures[p.id]
  {
    RunKeepsInv(maxRetries, Init(), steps, s);
    var i :| 0 <= i < |s.dead| && s.dead[i] == p;
  }

  // ---------- Which jobs are brought to an end ----------

  function Busy(threads: map<nat, Pc>): set<nat> {
    set t | t in threads && !threads[t].Unlisting?
  }

  ghost predicate Balanced(s: State) {
    s.tally.enqueued == |s.queue| + |Busy(s.threads)| + s.tally.completed + |s.dead| + s.tally.lost
  }

  lemma BusyPut(threads: map<nat, Pc>, t: nat, pc: Pc)
    ensures |Busy(threads[t := pc])| == |Busy(threads)| + (if pc.Unlisting? then 0 else 1)
                                        - (if t in threads && !threads[t].Unlisting? then 1 else 0)
  {
    if pc.Unlisting? {
      assert Busy(threads[t := pc]) == Busy(threads) - {t};
    } else {
      assert Busy(threads[t := pc]) == Busy(threads) + {t};
    }
  }

  lemma BusyDrop(threads: map<nat, Pc>, t: nat)
    ensures |Busy(threads - {t})| == |Busy(threads)| - (if t in threads && !threads[t].Unlisting? then 1 else 0)
  {
    assert Busy(threads - {t}) == Busy(threads) - {t};
  }

  lemma StepKeepsBalance(maxRetries: int, s: State, step: Step)
    requires Balanced(s) && Enabled(s, step)
    ensures Balanced(Apply(maxRetries, s, step))
  {
    if !step.Enqueue? {
      var s' := Apply(maxRetries, s, step);
      BusyDrop(s.threads, step.t);
      if step.t in s'.threads {
        BusyPut(s.threads, step.t, s'.threads[step.t]);
      }
    }
  }

  lemma {:induction false} RunKeepsBalance(maxRetries: int, s: State, steps: seq<Step>, s': State)
    requires Balanced(s) && Run(maxRetries, s, steps, s')
    ensures Balanced(s')
    decreases |steps|
  {
    if steps != [] {
      StepKeepsBalance(maxRetries, s, steps[0]);
      RunKeepsBalance(maxRetries, Apply(maxRetries, s, steps[0]), steps[1..], s');
    }
  }

  /** When the workers have nothing left to do, every enqueued job was processed to the end or is a
      dead letter, except those in the hands of a thread that died. The processing list never brings
      one of those back, so the documented at-least-once processing holds exactly when none died. */
  lemma ProcessedUnlessCrashed(maxRetries: int, steps: seq<Step>, s: State)
    requires Run(maxRetries, Init(), steps, s)
    requires !exists step: Step :: !step.Enqueue? && !step.Crash? && Enabled(s, step)
    ensures s.queue == [] && s.threads == map[]
    ensures s.tally.enqueued == s.tally.completed + |s.dead| <==> s.tally.lost == 0
  {
    RunKeepsBalance(maxRetries, Init(), steps, s);
    SomethingToDo(s);
  }

  /** A worker has something to do as long as a thread has a job or the queue has one. */
  lemma SomethingToDo(s: State)
    ensures s.threads != map[] || s.queue != []
            ==> exists step: Step :: !step.Enqueue? && !step.Crash? && Enabled(s, step)
  {
    if t :| t in s.threads {
      var step := match s.threads[t]
        case Delivered(_) => Finish(t)
        case Acking(_) => Ack(t)
        case Requeueing(_) => Requeue(t)
        case Burying(_) => Bury(t)
        case Unlisting(_) => Unlist(t);
      assert Enabled(s, step);
    } else if s.queue != [] {
      assert Enabled(s, Deliver(0));
    }
  }
}
