/** Admission of requests: a global in-flight guard and one bulkhead for each stage, under every
    interleaving of requests and on every way out of a request. */
module Admission {

  // ---------- The guard ----------

  /** `try_enter`: whether it succeeds, and the counter afterwards. */
  function Entering(count: int, max: int): (bool, int) {
    if count >= max then (false, count) else (true, count + 1)
  }

  function Exiting(count: int): int {
    if count > 0 then count - 1 else count
  }

  class InflightGuard {
    const maxInflight: int
    var inflight: int

    constructor (maxInflight: int)
      ensures this.maxInflight == maxInflight && inflight == 0
    {
      this.maxInflight, inflight := maxInflight, 0;
    }

    method TryEnter() returns (ok: bool)
      modifies this
      ensures (ok, inflight) == Entering(old(inflight), maxInflight)
    {
      if inflight >= maxInflight {
        return false;
      }
      inflight := inflight + 1;
      return true;
    }

    method Exit()
      modifies this
      ensures inflight == Exiting(old(inflight))
    {
      if inflight > 0 {
        inflight := inflight - 1;
      }
    }
  }

  // ---------- Requests ----------

  datatype Stage = Retrieve | Grade | Generate | Reflect | Heal | Ingest

  /** How the body of a stage ends. */
  datatype Ending = Returns | RaisesRuntimeError | RaisesOther

  /** `Rejected` and `Unavailable` are both answered with status 503. */
  datatype Outcome = Answered | Rejected | Unavailable(stage: Stage) | Failed

  /** Where a request is; `plan` lists the stages it still goes through unless something raises. */
  datatype Pc =
    | Arrived(plan: seq<Stage>)
    | Inside(plan: seq<Stage>)
    | Within(stage: Stage, plan: seq<Stage>)
    | Leaving(outcome: Outcome)
    | Finished(outcome: Outcome)
  {
    predicate Counted() {
      Inside? || Within? || Leaving?
    }

    predicate WithinStage(st: Stage) {
      Within? && stage == st
    }
  }

  /** Queries with and without healing, documents that are ingested, and requests without a stage:
      repeated documents and feedback. */
  predicate IsPlan(plan: seq<Stage>) {
    || plan == [Retrieve, Grade, Generate, Reflect]
    || plan == [Retrieve, Grade, Generate, Reflect, Heal]
    || plan == [Ingest]
    || plan == []
  }

  type Rid = nat

  datatype Config = Config(maxInflight: int, stageMax: map<Stage, int>)

  datatype State = State(inflight: int, stages: map<Stage, int>, requests: map<Rid, Pc>)

  datatype Step =
    | Arrive(r: Rid, plan: seq<Stage>)
    | Admit(r: Rid)                  // _enforce_capacity
    | Enter(r: Rid)                  // the next bulkhead is tried
    | Leave(r: Rid, ending: Ending)  // the stage ends and its bulkhead is left, in any case
    | Raise(r: Rid)                  // rate limit, policy or any other exception between stages
    | Answer(r: Rid)
    | Finalize(r: Rid)               // _finalize_capacity, in any case

  predicate Configured(c: Config) {
    forall st: Stage :: st in c.stageMax
  }

  function Init(): State {
    State(0, map[Retrieve := 0, Grade := 0, Generate := 0, Reflect := 0, Heal := 0, Ingest := 0], map[])
  }

  predicate Enabled(s: State, step: Step) {
    match step
    case Arrive(r, plan) => r !in s.requests && IsPlan(plan)
    case Admit(r) => r in s.requests && s.requests[r].Arrived?
    case Enter(r) => r in s.requests && s.requests[r].Inside? && s.requests[r].plan != []
    case Leave(r, _) => r in s.requests && s.requests[r].Within?
    case Raise(r) => r in s.requests && s.requests[r].Inside?
    case Answer(r) => r in s.requests && s.requests[r] == Inside([])
    case Finalize(r) => r in s.requests && s.requests[r].Leaving?
  }

  function At(s: State, r: Rid, pc: Pc): State {
    s.(requests := s.requests[r := pc])
  }

  function Apply(c: Config, s: State, step: Step): State
    requires Configured(c) && (forall st: Stage :: st in s.stages) && Enabled(s, step)
  {
    match step
    case Arrive(r, plan) => At(s, r, Arrived(plan))
    case Admit(r) =>
      var (ok, n) := Entering(s.inflight, c.maxInflight);
      At(s, r, if ok then Inside(s.requests[r].plan) else Finished(Rejected)).(inflight := n)
    case Enter(r) =>
      var plan := s.requests[r].plan;
      var st := plan[0];
      var (ok, n) := Entering(s.stages[st], c.stageMax[st]);
      At(s, r, if ok then Within(st, plan[1..]) else Leaving(Unavailable(st))).(stages := s.stages[st := n])
    case Leave(r, ending) =>
      var st := s.requests[r].stage;
      var pc := match ending
        case Returns => Inside(s.requests[r].plan)
        case RaisesRuntimeError => Leaving(Unavailable(st))
        case RaisesOther => Leaving(Failed);
      At(s, r, pc).(stages := s.stages[st := Exiting(s.stages[st])])
    case Raise(r) => At(s, r, Leaving(Failed))
    case Answer(r) => At(s, r, Leaving(Answered))
    case Finalize(r) => At(s, r, Finished(s.requests[r].outcome)).(inflight := Exiting(s.inflight))
  }

  ghost predicate Run(c: Config, s: State, steps: seq<Step>, s': State)
    decreases |steps|
  {
    if steps == [] then s == s'
    else
      && Configured(c) && (forall st: Stage :: st in s.stages) && Enabled(s, steps[0])
      && Run(c, Apply(c, s, steps[0]), steps[1..], s')
  }

  // ---------- Accounting ----------

  function Counted(s: State): set<Rid> {
    set r | r in s.requests && s.requests[r].Counted()
  }

  function In(s: State, st: Stage): set<Rid> {
    set r | r in s.requests && s.requests[r].WithinStage(st)
  }

  ghost predicate Inv(s: State) {
    && (forall st: Stage :: st in s.stages)
    && s.inflight == |Counted(s)|
    && (forall st: Stage :: s.stages[st] == |In(s, st)|)
  }

  /** One request moved: the counted requests change by at most that one. */
  lemma CountedMoves(s: State, s': State, r: Rid, pc: Pc)
    requires s'.requests == s.requests[r := pc]
    ensures |Counted(s')| == |Counted(s)| + (if pc.Counted() then 1 else 0)
                             - (if r in s.requests && s.requests[r].Counted() then 1 else 0)
  {
    if pc.Counted() {
      assert Counted(s') == Counted(s) + {r};
    } else {
      assert Counted(s') == Counted(s) - {r};
    }
  }

  lemma InMoves(s: State, s': State, r: Rid, pc: Pc, st: Stage)
    requires s'.requests == s.requests[r := pc]
    ensures |In(s', st)| == |In(s, st)| + (if pc.WithinStage(st) then 1 else 0)
                            - (if r in s.requests && s.requests[r].WithinStage(st) then 1 else 0)
  {
    var now, before := In(s', st), In(s, st);
    if pc.WithinStage(st) {
      assert now == before + {r};
    } else {
      assert now == before - {r};
    }
  }

  /** A counter that counts a request is positive. */
  lemma Occupied(s: State, r: Rid)
    requires r in s.requests
    ensures s.requests[r].Counted() ==> |Counted(s)| > 0
    ensures s.requests[r].Within? ==> |In(s, s.requests[r].stage)| > 0
  {
    assert s.requests[r].Counted() ==> r in Counted(s);
    assert s.requests[r].Within? ==> r in In(s, s.requests[r].stage);
  }

  /** Every step of every request keeps the counters equal to the number of requests inside. */
  lemma StepKeepsInv(c: Config, s: State, step: Step)
    requires Configured(c) && Inv(s) && Enabled(s, step)
    ensures Inv(Apply(c, s, step))
  {
    var s', r := Apply(c, s, step), step.r;
    CountedMoves(s, s', r, s'.requests[r]);
    if r in s.requests {
      Occupied(s, r);
    }
    forall st: Stage ensures s'.stages[st] == |In(s', st)| {
      InMoves(s, s', r, s'.requests[r], st);
    }
  }

  lemma {:induction false} RunKeepsInv(c: Config, s: State, steps: seq<Step>, s': State)
    requires Inv(s) && Run(c, s, steps, s')
    ensures Inv(s')
    decreases |steps|
  {
    if steps != [] {
      StepKeepsInv(c, s, steps[0]);
      RunKeepsInv(c, Apply(c, s, steps[0]), steps[1..], s');
    }
  }

  lemma InitInv()
    ensures Inv(Init())
  {
    assert Counted(Init()) == {};
    forall st: Stage ensures st in Init().stages && Init().stages[st] == |In(Init(), st)| {
      match st case Retrieve => case Grade => case Generate => case Reflect => case Heal => case Ingest =>
      assert In(Init(), st) == {};
    }
  }

  // ---------- Main results, over every run ----------

  /** Each counter is the number of requests inside it. */
  lemma CountersAreExact(c: Config, steps: seq<Step>, s: State, st: Stage)
    requires Run(c, Init(), steps, s)
    ensures s.inflight == |Counted(s)| && st in s.stages && s.stages[st] == |In(s, st)|
  {
    InitInv();
    RunKeepsInv(c, Init(), steps, s);
  }

  function AtLeastZero(max: int): nat {
    if max < 0 then 0 else max
  }

  ghost predicate WithinCaps(c: Config, s: State) {
    && s.inflight <= AtLeastZero(c.maxInflight)
    && (forall st: Stage :: st in s.stages && st in c.stageMax ==> s.stages[st] <= AtLeastZero(c.stageMax[st]))
  }

  lemma {:induction false} RunKeepsCaps(c: Config, s: State, steps: seq<Step>, s': State)
    requires WithinCaps(c, s) && Run(c, s, steps, s')
    ensures WithinCaps(c, s')
    decreases |steps|
  {
    if steps != [] {
      RunKeepsCaps(c, Apply(c, s, steps[0]), steps[1..], s');
    }
  }

  /** No counter ever exceeds its cap. */
  lemma CapsHold(c: Config, steps: seq<Step>, s: State)
    requires Run(c, Init(), steps, s)
    ensures WithinCaps(c, s)
  {
    RunKeepsCaps(c, Init(), steps, s);
  }

  /** The `exit` calls are never unmatched: the guard inside `exit` is always true. */
  lemma ExitsAreMatched(c: Config, steps: seq<Step>, s: State, step: Step)
    requires Run(c, Init(), steps, s) && Enabled(s, step)
    ensures step.Finalize? ==> s.inflight > 0
    ensures step.Leave? ==> s.requests[step.r].stage in s.stages && s.stages[s.requests[step.r].stage] > 0
  {
    InitInv();
    RunKeepsInv(c, Init(), steps, s);
    if step.r in s.requests {
      Occupied(s, step.r);
    }
  }

  /** A request is turned away exactly when as many requests are inside as are allowed. */
  lemma RejectedIffFull(c: Config, steps: seq<Step>, s: State, r: Rid)
    requires Run(c, Init(), steps, s) && Configured(c) && Enabled(s, Admit(r))
    ensures Inv(s)
    ensures Apply(c, s, Admit(r)).requests[r] == Finished(Rejected) <==> |Counted(s)| >= c.maxInflight
  {
    InitInv();
    RunKeepsInv(c, Init(), steps, s);
  }

  /** On entry a stage turns a request away exactly when its cap of requests is within it. */
  lemma SaturatedIffStageFull(c: Config, steps: seq<Step>, s: State, r: Rid)
    requires Run(c, Init(), steps, s) && Configured(c) && Enabled(s, Enter(r))
    ensures Inv(s)
    ensures var st := s.requests[r].plan[0];
            Apply(c, s, Enter(r)).requests[r] == Leaving(Unavailable(st)) <==> |In(s, st)| >= c.stageMax[st]
  {
    InitInv();
    RunKeepsInv(c, Init(), steps, s);
  }

  /** A step by which stage `st` becomes unavailable to request r: as many requests as its cap are within it
      when r tries to enter, or its body raises a RuntimeError for r. */
  predicate Denies(c: Config, s: State, step: Step, r: Rid, st: Stage)
    requires Configured(c) && Enabled(s, step)
  {
    || (step == Enter(r) && s.requests[r].plan[0] == st && |In(s, st)| >= c.stageMax[st])
    || (step == Leave(r, RaisesRuntimeError) && s.requests[r].stage == st)
  }

  ghost predicate Denied(c: Config, s: State, steps: seq<Step>, s': State, r: Rid, st: Stage)
    requires Run(c, s, steps, s')
    decreases |steps|
  {
    steps != []
    && (Denies(c, s, steps[0], r, st) || Denied(c, Apply(c, s, steps[0]), steps[1..], s', r, st))
  }

  /** The request was, or will be, answered that the stage is unavailable. */
  predicate AnsweredUnavailable(s: State, r: Rid, st: Stage) {
    && r in s.requests && (s.requests[r].Leaving? || s.requests[r].Finished?)
    && s.requests[r].outcome == Unavailable(st)
  }

  lemma DeniedNow(c: Config, s: State, step: Step, r: Rid, st: Stage)
    requires Configured(c) && Inv(s) && Enabled(s, step)
    ensures AnsweredUnavailable(Apply(c, s, step), r, st) <==> AnsweredUnavailable(s, r, st) || Denies(c, s, step, r, st)
  {
  }

  lemma {:induction false} DeniedFrom(c: Config, s: State, steps: seq<Step>, s': State, r: Rid, st: Stage)
    requires Inv(s) && Run(c, s, steps, s')
    ensures AnsweredUnavailable(s', r, st) <==> AnsweredUnavailable(s, r, st) || Denied(c, s, steps, s', r, st)
    decreases |steps|
  {
    if steps != [] {
      DeniedNow(c, s, steps[0], r, st);
      StepKeepsInv(c, s, steps[0]);
      DeniedFrom(c, Apply(c, s, steps[0]), steps[1..], s', r, st);
    }
  }

  /** A request is answered that a stage is unavailable exactly when, at some point of the run, the stage was full
      as the request tried to enter, or its body raised a RuntimeError for this request. */
  lemma UnavailableIffFullOrRaised(c: Config, steps: seq<Step>, s: State, r: Rid, st: Stage)
    requires Run(c, Init(), steps, s)
    ensures AnsweredUnavailable(s, r, st) <==> Denied(c, Init(), steps, s, r, st)
  {
    InitInv();
    DeniedFrom(c, Init(), steps, s, r, st);
  }

  /** The stage counters together never exceed the global counter. */
  lemma StagesWithinTotal(c: Config, steps: seq<Step>, s: State)
    requires Run(c, Init(), steps, s)
    ensures Inv(s)
    ensures s.stages[Retrieve] + s.stages[Grade] + s.stages[Generate] + s.stages[Reflect] + s.stages[Heal]
            + s.stages[Ingest] <= s.inflight
  {
    InitInv();
    RunKeepsInv(c, Init(), steps, s);
    Pair(s, Retrieve, Grade);
    Pair(s, Generate, Reflect);
    Pair(s, Heal, Ingest);
    PairsApart(s, Retrieve, Grade, Generate, Reflect);
    PairsApart(s, Retrieve, Grade, Heal, Ingest);
    PairsApart(s, Generate, Reflect, Heal, Ingest);
    ThreeWithin(InPair(s, Retrieve, Grade), InPair(s, Generate, Reflect), InPair(s, Heal, Ingest), Counted(s));
  }

  function InPair(s: State, st: Stage, st': Stage): set<Rid> {
    set r | r in s.requests && (s.requests[r].WithinStage(st) || s.requests[r].WithinStage(st'))
  }

  lemma Pair(s: State, st: Stage, st': Stage)
    requires st != st'
    ensures |InPair(s, st, st')| == |In(s, st)| + |In(s, st')|
    ensures InPair(s, st, st') <= Counted(s)
  {
    assert In(s, st) !! In(s, st');
    assert InPair(s, st, st') == In(s, st) + In(s, st');
  }

  lemma PairsApart(s: State, a: Stage, b: Stage, d: Stage, e: Stage)
    requires a != d && a != e && b != d && b != e
    ensures InPair(s, a, b) !! InPair(s, d, e)
  {
  }

  lemma ThreeWithin(a: set<Rid>, b: set<Rid>, d: set<Rid>, whole: set<Rid>)
    requires a !! b && a !! d && b !! d && a <= whole && b <= whole && d <= whole
    ensures |a| + |b| + |d| <= |whole|
  {
    assert |a + b| == |a| + |b|;
    assert |a + b + d| == |a + b| + |d|;
    SubsetSize(a + b + d, whole);
  }

  lemma {:induction false} SubsetSize(a: set<Rid>, b: set<Rid>)
    requires a <= b
    ensures |a| <= |b|
  {
    if a != {} {
      var x :| x in a;
      SubsetSize(a - {x}, b - {x});
    }
  }

  /** When every request has finished, on whatever path, all counters are back at zero. */
  lemma QuiescentIsEmpty(c: Config, steps: seq<Step>, s: State, st: Stage)
    requires Run(c, Init(), steps, s)
    requires forall r :: r in s.requests ==> s.requests[r].Finished? || s.requests[r].Arrived?
    ensures s.inflight == 0 && st in s.stages && s.stages[st] == 0
  {
    CountersAreExact(c, steps, s, st);
    assert Counted(s) == {} && In(s, st) == {};
  }

  // ---------- Termination ----------

  /** How many steps a request can still take at most. */
  function Weight(pc: Pc): nat {
    match pc
    case Arrived(plan) => 2 * |plan| + 3
    case Inside(plan) => 2 * |plan| + 2
    case Within(_, plan) => 2 * |plan| + 3
    case Leaving(_) => 1
    case Finished(_) => 0
  }

  const MAX_STEPS := 14

  /** What all requests can still do. */
  ghost function Total(requests: map<Rid, Pc>): nat
    decreases |requests|
  {
    if requests == map[] then 0
    else
      var r :| r in requests;
      Weight(requests[r]) + Total(requests - {r})
  }

  lemma {:induction false} TotalWithout(requests: map<Rid, Pc>, r: Rid)
    requires r in requests
    ensures Total(requests) == Weight(requests[r]) + Total(requests - {r})
    decreases |requests|
  {
    var x :| x in requests && Total(requests) == Weight(requests[x]) + Total(requests - {x});
    if x != r {
      TotalWithout(requests - {x}, r);
      TotalWithout(requests - {r}, x);
      assert requests - {x} - {r} == requests - {r} - {x};
    }
  }

  lemma TotalMoves(requests: map<Rid, Pc>, r: Rid, pc: Pc)
    ensures Total(requests[r := pc]) + (if r in requests then Weight(requests[r]) else 0) == Total(requests) + Weight(pc)
  {
    var after := requests[r := pc];
    TotalWithout(after, r);
    if r in requests {
      TotalWithout(requests, r);
      assert after - {r} == requests - {r};
    } else {
      assert after - {r} == requests;
    }
  }

  /** Every step of a request other than its arrival brings it nearer to its end. */
  lemma StepLowersWeight(c: Config, s: State, step: Step)
    requires Configured(c) && (forall st: Stage :: st in s.stages) && Enabled(s, step)
    ensures step.Arrive? ==> Weight(Apply(c, s, step).requests[step.r]) + 1 <= MAX_STEPS
    ensures !step.Arrive? ==> Weight(Apply(c, s, step).requests[step.r]) < Weight(s.requests[step.r])
  {
  }

  function Arrivals(steps: seq<Step>): nat {
    if steps == [] then 0 else (if steps[0].Arrive? then 1 else 0) + Arrivals(steps[1..])
  }

  lemma StepMeasure(c: Config, s: State, step: Step)
    requires Configured(c) && (forall st: Stage :: st in s.stages) && Enabled(s, step)
    ensures var s' := Apply(c, s, step);
            if step.Arrive? then Total(s'.requests) + 1 <= Total(s.requests) + MAX_STEPS && |s'.requests| == |s.requests| + 1
            else Total(s'.requests) < Total(s.requests) && |s'.requests| == |s.requests|
  {
    var s', r := Apply(c, s, step), step.r;
    StepLowersWeight(c, s, step);
    assert s'.requests == s.requests[r := s'.requests[r]];
    TotalMoves(s.requests, r, s'.requests[r]);
  }

  /** The steps of a run are paid for by the requests that arrive. */
  lemma {:induction false} RunMeasure(c: Config, s: State, steps: seq<Step>, s': State)
    requires Run(c, s, steps, s')
    ensures |steps| + Total(s'.requests) <= Total(s.requests) + MAX_STEPS * Arrivals(steps)
    ensures |s'.requests| == |s.requests| + Arrivals(steps)
    decreases |steps|
  {
    if steps != [] {
      StepMeasure(c, s, steps[0]);
      RunMeasure(c, Apply(c, s, steps[0]), steps[1..], s');
    }
  }

  /** No request waits for another one: one that has not finished has a step of its own to take. */
  lemma OwnStep(s: State, r: Rid)
    requires r in s.requests && !s.requests[r].Finished?
    ensures exists step: Step :: step.r == r && !step.Arrive? && Enabled(s, step)
  {
    var step := match s.requests[r]
      case Arrived(_) => Admit(r)
      case Inside(plan) => if plan == [] then Answer(r) else Enter(r)
      case Within(_, _) => Leave(r, Returns)
      case _ => Finalize(r);
    assert Enabled(s, step);
  }

  /** Every run takes at most 14 steps for each request, and a run that cannot go on without new arrivals has
      finished them all, with all counters back at zero. */
  lemma MaximalRunsFinish(c: Config, steps: seq<Step>, s: State, r: Rid, st: Stage)
    requires Run(c, Init(), steps, s) && r in s.requests
    ensures |steps| <= MAX_STEPS * |s.requests|
    ensures (forall step: Step :: !step.Arrive? ==> !Enabled(s, step))
            ==> s.requests[r].Finished? && s.inflight == 0 && st in s.stages && s.stages[st] == 0
  {
    RunMeasure(c, Init(), steps, s);
    if forall step: Step :: !step.Arrive? ==> !Enabled(s, step) {
      forall q | q in s.requests ensures s.requests[q].Finished? {
        if !s.requests[q].Finished? {
          OwnStep(s, q);
        }
      }
      QuiescentIsEmpty(c, steps, s, st);
    }
  }

  // ---------- Which stages a request goes through ----------

  /** The stages that a request has yet to enter. */
  function Left(pc: Pc): seq<Stage> {
    match pc
    case Arrived(plan) => plan
    case Inside(plan) => plan
    case Within(_, plan) => plan
    case _ => []
  }

  predicate Going(pc: Pc) {
    pc.Arrived? || pc.Inside? || pc.Within?
  }

  /** The stage that a step brings request r into. */
  function EnteredBy(s': State, step: Step, r: Rid): seq<Stage> {
    if step.Enter? && step.r == r && r in s'.requests && s'.requests[r].Within? then [s'.requests[r].stage] else []
  }

  /** The stages that request r enters in a run. */
  ghost function Visited(c: Config, s: State, steps: seq<Step>, s': State, r: Rid): seq<Stage>
    requires Run(c, s, steps, s')
    decreases |steps|
  {
    if steps == [] then []
    else
      var next := Apply(c, s, steps[0]);
      EnteredBy(next, steps[0], r) + Visited(c, next, steps[1..], s', r)
  }

  /** A request has come from a to b and entered these stages: a first part of those it had yet to enter, what is left
      while it goes on, and all of them when it is answered. What it leaves with never changes. */
  predicate Went(a: Pc, visited: seq<Stage>, b: Pc) {
    && visited <= Left(a)
    && (!Going(a) ==> !Going(b) && b.outcome == a.outcome)
    && (Going(b) ==> Left(a) == visited + Left(b))
    && (Going(a) && !Going(b) && b.outcome == Answered ==> visited == Left(a))
  }

  lemma {:induction false} StepWent(c: Config, s: State, step: Step, r: Rid)
    requires Configured(c) && (forall st: Stage :: st in s.stages) && Enabled(s, step) && r in s.requests
    ensures var s' := Apply(c, s, step); r in s'.requests && Went(s.requests[r], EnteredBy(s', step, r), s'.requests[r])
  {
  }

  lemma {:induction false} WentOn(a: Pc, visited: seq<Stage>, b: Pc, more: seq<Stage>, d: Pc)
    requires Went(a, visited, b) && Went(b, more, d)
    ensures Went(a, visited + more, d)
  {
  }

  lemma {:induction false} RunWent(c: Config, s: State, steps: seq<Step>, s': State, r: Rid)
    requires Run(c, s, steps, s') && r in s.requests
    ensures r in s'.requests && Went(s.requests[r], Visited(c, s, steps, s', r), s'.requests[r])
    decreases |steps|
  {
    if steps != [] {
      var next := Apply(c, s, steps[0]);
      StepWent(c, s, steps[0], r);
      RunWent(c, next, steps[1..], s', r);
      WentOn(s.requests[r], EnteredBy(next, steps[0], r), next.requests[r], Visited(c, next, steps[1..], s', r), s'.requests[r]);
    }
  }

  /** A request enters the stages of its plan in their order, and it is answered only after all of them: over every run,
      what it has entered so far is a first part of its plan, and all of it once it is answered. */
  lemma {:induction false} AnsweredAfterItsPlan(c: Config, before: seq<Step>, s: State, r: Rid, plan: seq<Stage>,
                                                after: seq<Step>, s': State)
    requires Run(c, Init(), before, s) && Configured(c) && (forall st: Stage :: st in s.stages)
    requires Enabled(s, Arrive(r, plan)) && Run(c, Apply(c, s, Arrive(r, plan)), after, s')
    ensures var visited := Visited(c, Apply(c, s, Arrive(r, plan)), after, s', r);
            && visited <= plan && r in s'.requests
            && (s'.requests[r] in {Leaving(Answered), Finished(Answered)} ==> visited == plan)
  {
    RunWent(c, Apply(c, s, Arrive(r, plan)), after, s', r);
  }
}
