/** The worker's own objects: job objects that are shared by the queue and the status store and
    updated in place. Each method is one or more consecutive steps of `LocalQueue`. */
module IngestWorkerObjects {
  import opened IngestJobs
  import LQ = LocalQueue

  class IngestJob {
    const jobId: string
    ghost const handle: nat  // its index among the jobs, in order of creation
    var status: Status
    var retries: nat

    constructor (jobId: string, ghost handle: nat)
      ensures this.jobId == jobId && this.handle == handle && status == Pending && retries == 0
    {
      this.jobId, this.handle := jobId, handle;
      status, retries := Pending, 0;
    }
  }

  class IngestWorker {
    const maxRetries: int
    var localQueue: seq<IngestJob>
    var statusStore: map<string, IngestJob>

    constructor (maxRetries: int)
      ensures this.maxRetries == maxRetries && Represents(LQ.Init(), [])
    {
      this.maxRetries := maxRetries;
      localQueue, statusStore := [], map[];
    }

    /** The job objects, in order of creation, and the worker's fields are the state `s`. */
    ghost predicate Represents(s: LQ.State, objs: seq<IngestJob>)
      reads this, objs
    {
      && LQ.WellFormed(s)
      && |objs| == |s.jobs|
      && (forall h :: 0 <= h < |objs| ==>
            && objs[h].handle == h && objs[h].jobId == s.jobs[h].id
            && objs[h].status == s.jobs[h].status && objs[h].retries == s.jobs[h].retries)
      && |localQueue| == |s.queue|
      && (forall i :: 0 <= i < |s.queue| ==> localQueue[i] == objs[s.queue[i]])
      && statusStore.Keys == s.store.Keys
      && (forall id :: id in s.store ==> s.store[id] < |objs| && statusStore[id] == objs[s.store[id]])
    }

    method StatusSet(job: IngestJob)
      modifies this`statusStore
      ensures statusStore == old(statusStore)[job.jobId := job]
    {
      statusStore := statusStore[job.jobId := job];
    }

    /** Write a job's progress and store the job under its id. */
    method Publish(job: IngestJob, p: Progress, ghost s: LQ.State, ghost objs: seq<IngestJob>,
                   ghost h: LQ.Handle, ghost place: LQ.Place)
      requires Represents(s, objs) && h < |objs| && objs[h] == job
      modifies this`statusStore, job
      ensures job.status == p.status && job.retries == p.retries
      ensures Represents(LQ.Update(s, h, p, place), objs)
    {
      job.status, job.retries := p.status, p.retries;
      StatusSet(job);
    }

    /** Append the job that thread `t` holds to the queue. */
    method EnqueueLocal(job: IngestJob, ghost c: LQ.Config, ghost s: LQ.State, ghost objs: seq<IngestJob>,
                        ghost t: LQ.Thread)
      requires Represents(s, objs) && LQ.Enabled(c, s, LQ.Append(t)) && objs[s.threads[t].h] == job
      modifies this`localQueue
      ensures localQueue == old(localQueue) + [job]
      ensures Represents(LQ.Apply(c, s, LQ.Append(t)), objs)
    {
      localQueue := localQueue + [job];
    }

    /** Store a new pending job under the caller's id, or a generated one, and append it. */
    method EnqueueIngestJob(requested: string, generated: string,
                            ghost c: LQ.Config, ghost s: LQ.State, ghost objs: seq<IngestJob>, ghost t: LQ.Thread)
      returns (jid: string, ghost s': LQ.State, ghost objs': seq<IngestJob>)
      requires Represents(s, objs) && t !in s.threads && t >= c.pool
      modifies this
      ensures jid == if requested != "" then requested else generated
      ensures |objs'| == |objs| + 1 && objs'[..|objs|] == objs && fresh(objs'[|objs|])
      ensures localQueue == old(localQueue) + [objs'[|objs|]]
      ensures LQ.Run(c, s, [LQ.Create(t, jid), LQ.Append(t)], s') && Represents(s', objs')
    {
      jid := if requested != "" then requested else generated;
      var job := new IngestJob(jid, |objs|);
      StatusSet(job);
      objs' := objs + [job];
      ghost var m := LQ.Apply(c, s, LQ.Create(t, jid));
      EnqueueLocal(job, c, m, objs', t);
      s' := LQ.Apply(c, m, LQ.Append(t));
      LQ.RunTwo(c, s, LQ.Create(t, jid), LQ.Append(t));
    }

    /** Pop the oldest job, if there is one. */
    method DequeueLocal(ghost c: LQ.Config, ghost s: LQ.State, ghost objs: seq<IngestJob>)
      returns (job: IngestJob?)
      requires Represents(s, objs)
      modifies this`localQueue
      ensures job == null <==> s.queue == []
      ensures job == null ==> Represents(s, objs)
      ensures job != null ==> job == old(localQueue)[0] && localQueue == old(localQueue)[1..]
      ensures job != null ==> job == objs[s.queue[0]] && Represents(LQ.Apply(c, s, LQ.Claim), objs)
    {
      if localQueue == [] {
        return null;
      }
      job := localQueue[0];
      localQueue := localQueue[1..];
    }

    method CompleteJob(job: IngestJob, ghost c: LQ.Config, ghost s: LQ.State, ghost objs: seq<IngestJob>,
                       ghost t: LQ.Thread)
      requires Represents(s, objs) && LQ.Enabled(c, s, LQ.Succeed(t)) && objs[s.threads[t].h] == job
      modifies this`statusStore, job
      ensures Represents(LQ.Apply(c, s, LQ.Succeed(t)), objs)
    {
      Publish(job, Progress(Completed, job.retries), s, objs, s.threads[t].h, LQ.Done);
    }

    /** Count a failure; give up at the limit, otherwise put the job back at the end of the queue. */
    method HandleJobFailure(job: IngestJob, ghost c: LQ.Config, ghost s: LQ.State, ghost objs: seq<IngestJob>,
                            ghost t: LQ.Thread)
      returns (ghost steps: seq<LQ.Step>, ghost s': LQ.State)
      requires Represents(s, objs) && LQ.Enabled(c, s, LQ.Fail(t)) && objs[s.threads[t].h] == job
      requires c.maxRetries == maxRetries
      modifies this, job
      ensures LQ.Run(c, s, steps, s') && Represents(s', objs)
      ensures steps == [LQ.Fail(t)] + if job.status == Failed then [] else [LQ.Append(t)]
      ensures Progress(job.status, job.retries) == AfterFailure(old(job.retries), maxRetries)
    {
      var retries := job.retries + 1;
      s' := LQ.Apply(c, s, LQ.Fail(t));
      if retries >= maxRetries {
        Publish(job, Progress(Failed, retries), s, objs, s.threads[t].h, LQ.Done);
        LQ.RunOne(c, s, LQ.Fail(t));
        steps := [LQ.Fail(t)];
      } else {
        Publish(job, Progress(Pending, retries), s, objs, s.threads[t].h, LQ.With(t));
        EnqueueLocal(job, c, s', objs, t);
        LQ.RunTwo(c, s, LQ.Fail(t), LQ.Append(t));
        steps, s' := [LQ.Fail(t), LQ.Append(t)], LQ.Apply(c, s', LQ.Append(t));
      }
    }

    /** One attempt at a claimed job; `succeeds` is the outcome of `_process_job`. */
    method ProcessOne(job: IngestJob, succeeds: bool,
                      ghost c: LQ.Config, ghost s: LQ.State, ghost objs: seq<IngestJob>,
                      ghost t: LQ.Thread, ghost h: LQ.Handle)
      returns (ghost steps: seq<LQ.Step>, ghost s': LQ.State)
      requires Represents(s, objs) && c.maxRetries == maxRetries
      requires h < |objs| && objs[h] == job && LQ.Enabled(c, s, LQ.Start(t, h))
      modifies this, job
      ensures LQ.Run(c, LQ.Apply(c, s, LQ.Start(t, h)), steps, s') && Represents(s', objs)
      ensures steps ==
        if succeeds then [LQ.Succeed(t)]
        else if job.status == Failed then [LQ.Fail(t)] else [LQ.Fail(t), LQ.Append(t)]
    {
      Publish(job, Progress(Processing, job.retries), s, objs, h, LQ.With(t));
      ghost var m := LQ.Apply(c, s, LQ.Start(t, h));
      if succeeds {
        CompleteJob(job, c, m, objs, t);
        steps, s' := [LQ.Succeed(t)], LQ.Apply(c, m, LQ.Succeed(t));
        LQ.RunOne(c, m, LQ.Succeed(t));
      } else {
        steps, s' := HandleJobFailure(job, c, m, objs, t);
      }
    }
  }
}
