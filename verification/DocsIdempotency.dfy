/** At-most-once ingest: concurrent calls of the `docs` route over a table of idempotency keys and a
    registry of jobs with deterministic ids. */
module DocsIdempotency {
  import opened Text
  import opened Wrappers

  // ---------- Keys ----------

  datatype Document = Document(id: string, text: string, attachments: seq<string>)

  /** The documents as they are hashed: ids and texts, one after the other. */
  function Contents(docs: seq<Document>): string {
    if docs == [] then ""
    else
      var n := |docs| - 1;
      Contents(docs[..n]) + docs[n].id + docs[n].text
  }

  /** What is hashed when the caller gives no key. */
  function DigestInput(tenant: string, docs: seq<Document>): string {
    if docs == [] then tenant
    else
      var n := |docs| - 1;
      DigestInput(tenant, docs[..n]) + docs[n].id + docs[n].text
  }

  /** The hash is a parameter; SHA-256 is taken to be injective. So is the hashing of a job's name into its id. */
  ghost predicate Injective(hash: string -> string) {
    forall a: string, b: string :: hash(a) == hash(b) ==> a == b
  }

  function Effective(hash: string -> string, given: string, tenant: string, docs: seq<Document>): string {
    if given != "" then given else hash(DigestInput(tenant, docs))
  }

  function Composite(tenant: string, key: string): string {
    tenant + ":" + key
  }

  /** The key of a call of the route. */
  function KeyOf(hash: string -> string, tenant: string, given: string, docs: seq<Document>): string {
    Composite(tenant, Effective(hash, given, tenant, docs))
  }

  lemma {:induction false} DigestIsTenantAndContents(tenant: string, docs: seq<Document>)
    ensures DigestInput(tenant, docs) == tenant + Contents(docs)
    decreases |docs|
  {
    if docs == [] {
      assert tenant + "" == tenant;
    } else {
      var n := |docs| - 1;
      DigestIsTenantAndContents(tenant, docs[..n]);
      assert tenant + Contents(docs[..n]) + docs[n].id + docs[n].text
             == tenant + (Contents(docs[..n]) + docs[n].id + docs[n].text);
    }
  }

  lemma SameTail(head: string, a: string, b: string)
    ensures head + a == head + b <==> a == b
  {
    assert (head + a)[|head|..] == a && (head + b)[|head|..] == b;
  }

  /** Without a key from the caller, two requests of one tenant have the same key exactly when their ids and texts,
      written one after the other, are the same: neither the attachments, nor the borders between ids and texts,
      nor the number of documents matter. */
  lemma SameDerivedKeyIff(hash: string -> string, tenant: string, docs: seq<Document>, docs': seq<Document>)
    requires Injective(hash)
    ensures KeyOf(hash, tenant, "", docs) == KeyOf(hash, tenant, "", docs') <==> Contents(docs) == Contents(docs')
  {
    DigestIsTenantAndContents(tenant, docs);
    DigestIsTenantAndContents(tenant, docs');
    SameTail(tenant, Contents(docs), Contents(docs'));
    SameTail(tenant + ":", hash(DigestInput(tenant, docs)), hash(DigestInput(tenant, docs')));
  }

  /** What is hashed of a list of documents: that of its parts, one after the other; of one document its id and its
      text. */
  lemma {:induction false} ContentsConcat(a: seq<Document>, b: seq<Document>)
    ensures Contents(a + b) == Contents(a) + Contents(b)
    decreases |b|
  {
    if b == [] {
      assert a + b == a;
    } else {
      var n := |b| - 1;
      ContentsConcat(a, b[..n]);
      assert (a + b)[..|a| + n] == a + b[..n];
      assert Contents(a) + Contents(b[..n]) + b[n].id + b[n].text == Contents(a) + (Contents(b[..n]) + b[n].id + b[n].text);
    }
  }

  lemma ContentsOfOne(d: Document)
    ensures Contents([d]) == d.id + d.text
  {
    assert Contents([d]) == Contents([]) + d.id + d.text;
  }

  /** Every document enters the key: replacing one keeps the key exactly when id and text together stay the same. */
  lemma {:induction false} KeyAfterReplacing(hash: string -> string, tenant: string, docs: seq<Document>, i: nat, d: Document)
    requires Injective(hash) && i < |docs|
    ensures KeyOf(hash, tenant, "", docs[i := d]) == KeyOf(hash, tenant, "", docs)
            <==> d.id + d.text == docs[i].id + docs[i].text
  {
    var a, b := docs[..i], docs[i + 1..];
    assert docs == a + ([docs[i]] + b) && docs[i := d] == a + ([d] + b);
    ContentsConcat(a, [docs[i]] + b);
    ContentsConcat(a, [d] + b);
    ContentsConcat([docs[i]], b);
    ContentsConcat([d], b);
    ContentsOfOne(docs[i]);
    ContentsOfOne(d);
    SameTail(Contents(a), docs[i].id + docs[i].text + Contents(b), d.id + d.text + Contents(b));
    SameHead(docs[i].id + docs[i].text, d.id + d.text, Contents(b));
    SameDerivedKeyIff(hash, tenant, docs[i := d], docs);
  }

  lemma SameHead(a: string, b: string, tail: string)
    ensures a + tail == b + tail <==> a == b
  {
    assert |a| == |b| ==> a == (a + tail)[..|a|] && b == (b + tail)[..|b|];
  }

  /** And adding one keeps it exactly when that has neither id nor text. */
  lemma {:induction false} KeyAfterAdding(hash: string -> string, tenant: string, docs: seq<Document>, d: Document)
    requires Injective(hash)
    ensures KeyOf(hash, tenant, "", docs + [d]) == KeyOf(hash, tenant, "", docs) <==> d.id + d.text == ""
  {
    ContentsConcat(docs, [d]);
    ContentsOfOne(d);
    assert Contents(docs) + "" == Contents(docs);
    SameTail(Contents(docs), d.id + d.text, "");
    SameDerivedKeyIff(hash, tenant, docs + [d], docs);
  }

  /** The tenant is hashed as well: the same documents have different digests for different tenants. */
  lemma {:induction false} DigestsDifferByTenant(hash: string -> string, a: string, b: string, docs: seq<Document>)
    requires Injective(hash)
    ensures Effective(hash, "", a, docs) == Effective(hash, "", b, docs) <==> a == b
  {
    DigestIsTenantAndContents(a, docs);
    DigestIsTenantAndContents(b, docs);
    SameHead(a, b, Contents(docs));
  }

  /** A request with a key meets one without exactly when the key is the digest of the other. */
  lemma GivenKeyMeetsDerivedIff(hash: string -> string, tenant: string, given: string, docs: seq<Document>,
                                docs': seq<Document>)
    requires given != ""
    ensures KeyOf(hash, tenant, given, docs) == KeyOf(hash, tenant, "", docs')
            <==> given == hash(DigestInput(tenant, docs'))
  {
    SameTail(tenant + ":", given, hash(DigestInput(tenant, docs')));
  }

  /** In particular, the same documents with other attachments are the same request. */
  lemma {:induction false} AttachmentsDoNotMatter(docs: seq<Document>, docs': seq<Document>)
    requires |docs| == |docs'|
    requires forall i :: 0 <= i < |docs| ==> docs[i].id == docs'[i].id && docs[i].text == docs'[i].text
    ensures Contents(docs) == Contents(docs')
    decreases |docs|
  {
    if docs != [] {
      var n := |docs| - 1;
      AttachmentsDoNotMatter(docs[..n], docs'[..n]);
    }
  }

  /** And moving the first character of a document's text to the end of its id makes no other request. */
  lemma {:induction false} BorderDoesNotMatter(docs: seq<Document>, i: nat)
    requires i < |docs| && docs[i].text != ""
    ensures var d := docs[i];
            Contents(docs) == Contents(docs[i := Document(d.id + d.text[..1], d.text[1..], d.attachments)])
    decreases |docs|
  {
    var n, d := |docs| - 1, docs[i];
    var docs' := docs[i := Document(d.id + d.text[..1], d.text[1..], d.attachments)];
    var before := Contents(docs[..n]);
    if i == n {
      assert docs'[..n] == docs[..n];
      assert d.text == d.text[..1] + d.text[1..];
      assert before + (d.id + d.text[..1]) + d.text[1..] == before + d.id + d.text;
    } else {
      BorderDoesNotMatter(docs[..n], i);
      assert docs'[..n] == docs[..n][i := docs'[i]];
    }
  }

  /** The composite key tells tenants apart exactly when neither tenant's name followed by ':' starts the
      other's. Effective keys are never empty. */
  lemma TenantsShareKeyIff(a: string, b: string)
    requires a != b
    ensures (exists k: string, k': string :: k != "" && k' != "" && Composite(a, k) == Composite(b, k'))
            <==> a + ":" <= b || b + ":" <= a
  {
    if a + ":" <= b {
      SharedKey(a, b);
    }
    if b + ":" <= a {
      SharedKey(b, a);
    }
    forall k: string, k': string | Composite(a, k) == Composite(b, k')
      ensures a + ":" <= b || b + ":" <= a
    {
      HeadsMeet(a + ":", k, b + ":", k');
      if a + ":" <= b + ":" {
        HeadBeginsName(a, b);
      } else {
        HeadBeginsName(b, a);
      }
    }
  }

  lemma SharedKey(a: string, b: string)
    requires a + ":" <= b
    ensures exists k: string, k': string :: k != "" && k' != "" && Composite(a, k) == Composite(b, k')
    ensures exists k: string, k': string :: k != "" && k' != "" && Composite(b, k) == Composite(a, k')
  {
    var rest := b[|a| + 1..] + ":" + "k";
    assert Composite(a, rest) == Composite(b, "k");
  }

  /** Heads with a separator at the end: if one begins the other, and the names differ, the shorter head
      begins the longer name. */
  lemma HeadBeginsName(a: string, b: string)
    requires a != b && a + ":" <= b + ":"
    ensures a + ":" <= b
  {
    assert a == (a + ":")[..|a|] && b == (b + ":")[..|b|];
    assert a + ":" == (b + ":")[..|a| + 1];
  }

  // ---------- The two tables ----------

  datatype Status = Accepted | Completed

  datatype JobId = Uuid5(name: string)

  datatype Job = Job(id: JobId, kind: string, status: Status, key: string)

  function IdOf(kind: string, key: string): JobId {
    Uuid5(kind + ":" + key)
  }

  /** The registry after `create_deterministic`: a row that is there stays as it is. */
  function Created(jobs: map<JobId, Job>, kind: string, key: string): map<JobId, Job> {
    var id := IdOf(kind, key);
    if id in jobs then jobs else jobs[id := Job(id, kind, Accepted, key)]
  }

  /** The registry after `update_status`: an unknown id changes nothing. */
  function WithStatus(jobs: map<JobId, Job>, id: JobId, status: Status): map<JobId, Job> {
    if id in jobs then jobs[id := jobs[id].(status := status)] else jobs
  }

  class JobRegistry {
    var jobs: map<JobId, Job>

    constructor ()
      ensures jobs == map[]
    {
      jobs := map[];
    }

    method CreateDeterministic(kind: string, key: string) returns (job: Job, created: bool)
      modifies this
      ensures jobs == Created(old(jobs), kind, key)
      ensures IdOf(kind, key) in jobs && job == jobs[IdOf(kind, key)]
      ensures created <==> IdOf(kind, key) !in old(jobs)
    {
      var id := IdOf(kind, key);
      if id in jobs {
        return jobs[id], false;
      }
      job := Job(id, kind, Accepted, key);
      jobs := jobs[id := job];
      created := true;
    }

    method Get(id: JobId) returns (r: Option<Job>)
      ensures r == if id in jobs then Some(jobs[id]) else None
    {
      r := if id in jobs then Some(jobs[id]) else None;
    }

    method UpdateStatus(id: JobId, status: Status)
      modifies this
      ensures jobs == WithStatus(old(jobs), id, status)
    {
      if id in jobs {
        jobs := jobs[id := jobs[id].(status := status)];
      }
    }
  }

  class IdempotencyStore {
    var keys: set<string>

    constructor ()
      ensures keys == {}
    {
      keys := {};
    }

    method Seen(key: string) returns (r: bool)
      ensures r <==> key in keys
    {
      r := key in keys;
    }

    method Mark(key: string)
      modifies this
      ensures keys == old(keys) + {key}
    {
      keys := keys + {key};
    }
  }

  // ---------- Concurrent calls ----------

  const KIND := "ingest_docs"

  function JobOf(key: string): JobId {
    IdOf(KIND, key)
  }

  datatype Answer = Duplicate | Current(status: Status)

  /** How far the ingest of a call has come. */
  datatype Phase = Before | Running | Returned | Stored

  datatype Pc =
    | Arrived
    | Looked(seen: bool)
    | Marked(seen: bool)
    | Resolved(seen: bool, created: bool, status: Status)
    | Ingesting
    | Ingested
    | Updated
    | Answered(id: JobId, answer: Answer)
    | Raised(at: Phase)
  {
    predicate Finished() {
      Answered? || Raised?
    }

    /** The phase of the call that created the job. */
    function Reached(): Phase {
      match this
      case Ingesting => Running
      case Ingested => Returned
      case Updated => Stored
      case Answered(_, _) => Stored
      case Raised(at) => at
      case _ => Before
    }
  }

  datatype Call = Call(key: string, pc: Pc)

  type Cid = nat

  /** The two tables and the calls; `creator`, `begun` and `ended` record who created the job of a key
      and how often its ingest was started and returned. */
  datatype State = State(marked: set<string>, jobs: map<JobId, Job>, calls: map<Cid, Call>,
                         creator: map<string, Cid>, begun: multiset<string>, ended: multiset<string>)

  datatype Step =
    | Arrive(c: Cid, key: string)
    | Look(c: Cid)
    | Mark(c: Cid)
    | Create(c: Cid)
    | Start(c: Cid)       // the bulkhead is entered and ingest is called
    | Return(c: Cid)      // ingest returns
    | Update(c: Cid)
    | Reply(c: Cid)
    | Raise(c: Cid)       // an exception or a crash, anywhere in the call

  function Init(): State {
    State({}, map[], map[], map[], multiset{}, multiset{})
  }

  predicate Enabled(s: State, step: Step) {
    if step.Arrive? then step.c !in s.calls
    else
      && step.c in s.calls
      && var pc := s.calls[step.c].pc;
         match step
         case Look(_) => pc.Arrived?
         case Mark(_) => pc.Looked?
         case Create(_) => pc.Marked?
         case Start(_) => pc.Resolved? && pc.created
         case Return(_) => pc.Ingesting?
         case Update(_) => pc.Ingested?
         case Reply(_) => (pc.Resolved? && !pc.created) || (pc.Updated? && JobOf(s.calls[step.c].key) in s.jobs)
         case _ => !pc.Finished()
  }

  function Moved(s: State, c: Cid, pc: Pc): State
    requires c in s.calls
  {
    s.(calls := s.calls[c := s.calls[c].(pc := pc)])
  }

  function Apply(s: State, step: Step): State
    requires Enabled(s, step)
  {
    if step.Arrive? then s.(calls := s.calls[step.c := Call(step.key, Arrived)])
    else
      var c, key, pc := step.c, s.calls[step.c].key, s.calls[step.c].pc;
      var id := JobOf(key);
      match step
      case Look(_) => Moved(s, c, Looked(key in s.marked))
      case Mark(_) => Moved(s, c, Marked(pc.seen)).(marked := s.marked + {key})
      case Create(_) =>
        var jobs := Created(s.jobs, KIND, key);
        var created := id !in s.jobs;
        Moved(s, c, Resolved(pc.seen, created, jobs[id].status)).(
          jobs := jobs, creator := if created then s.creator[key := c] else s.creator)
      case Start(_) => Moved(s, c, Ingesting).(begun := s.begun + multiset{key})
      case Return(_) => Moved(s, c, Ingested).(ended := s.ended + multiset{key})
      case Update(_) => Moved(s, c, Updated).(jobs := WithStatus(s.jobs, id, Completed))
      case Reply(_) =>
        Moved(s, c, Answered(id,
          if pc.Updated? then Current(s.jobs[id].status) else if pc.seen then Duplicate else Current(pc.status)))
      case _ => Moved(s, c, Raised(pc.Reached()))
  }

  ghost predicate Run(s: State, steps: seq<Step>, s': State)
    decreases |steps|
  {
    if steps == [] then s == s'
    else Enabled(s, steps[0]) && Run(Apply(s, steps[0]), steps[1..], s')
  }

  // ---------- The invariant ----------

  predicate Owns(s: State, c: Cid, key: string) {
    key in s.creator && s.creator[key] == c
  }

  predicate CallOk(s: State, c: Cid)
    requires c in s.calls
  {
    var key, pc := s.calls[c].key, s.calls[c].pc;
    match pc
    case Arrived => !Owns(s, c, key)
    case Looked(seen) => (seen ==> key in s.marked) && !Owns(s, c, key)
    case Marked(_) => key in s.marked && !Owns(s, c, key)
    case Resolved(_, created, status) =>
      key in s.creator && (created <==> Owns(s, c, key)) && (status == Completed ==> StatusOf(s, key) == Completed)
    case Answered(id, answer) =>
      && id == JobOf(key) && key in s.creator
      && (answer == Duplicate ==> !Owns(s, c, key))
      && (Owns(s, c, key) ==> answer == Current(Completed))
      && (answer == Current(Completed) ==> StatusOf(s, key) == Completed)
    case Raised(at) => at == Before || Owns(s, c, key)
    case _ => Owns(s, c, key)
  }

  function StatusOf(s: State, key: string): Status {
    if JobOf(key) in s.jobs then s.jobs[JobOf(key)].status else Accepted
  }

  function CountIf(b: bool): nat {
    if b then 1 else 0
  }

  predicate Reached(s: State, key: string, phases: set<Phase>) {
    key in s.creator && s.creator[key] in s.calls && s.calls[s.creator[key]].pc.Reached() in phases
  }

  predicate KeyOk(s: State, key: string) {
    && (key in s.creator <==> JobOf(key) in s.jobs)
    && (key in s.creator ==>
          && key in s.marked && s.creator[key] in s.calls && s.calls[s.creator[key]].key == key
          && s.jobs[JobOf(key)] == Job(JobOf(key), KIND, StatusOf(s, key), key))
    && (StatusOf(s, key) == Completed <==> Reached(s, key, {Stored}))
    && s.begun[key] == CountIf(Reached(s, key, {Running, Returned, Stored}))
    && s.ended[key] == CountIf(Reached(s, key, {Returned, Stored}))
  }

  ghost predicate Inv(s: State) {
    && (forall c :: c in s.calls ==> CallOk(s, c))
    && (forall key: string :: KeyOk(s, key))
  }

  /** Ids of different keys differ. */
  lemma JobOfInjective(key: string, key': string)
    ensures JobOf(key) == JobOf(key') <==> key == key'
  {
    var p := KIND + ":";
    assert (p + key)[|p|..] == key && (p + key')[|p|..] == key';
  }

  lemma StepKeepsKey(s: State, step: Step, key: string)
    requires Inv(s) && Enabled(s, step)
    ensures KeyOk(Apply(s, step), key)
  {
    assert KeyOk(s, key);
    if step.c in s.calls {
      assert KeyOk(s, s.calls[step.c].key) && CallOk(s, step.c);
      JobOfInjective(key, s.calls[step.c].key);
    }
  }

  lemma OtherCallStays(s: State, step: Step, c: Cid)
    requires Inv(s) && Enabled(s, step) && c in s.calls && c != step.c
    ensures c in Apply(s, step).calls && CallOk(Apply(s, step), c)
  {
    assert CallOk(s, c) && KeyOk(s, s.calls[c].key);
    if step.c in s.calls {
      assert KeyOk(s, s.calls[step.c].key) && CallOk(s, step.c);
      JobOfInjective(s.calls[c].key, s.calls[step.c].key);
    }
  }

  lemma StepKeepsCall(s: State, step: Step, c: Cid)
    requires Inv(s) && Enabled(s, step) && c in Apply(s, step).calls
    ensures CallOk(Apply(s, step), c)
  {
    if c != step.c {
      OtherCallStays(s, step, c);
    } else if c in s.calls {
      assert KeyOk(s, s.calls[c].key) && CallOk(s, c);
    } else {
      assert KeyOk(s, step.key);
    }
  }

  lemma StepKeepsInv(s: State, step: Step)
    requires Inv(s) && Enabled(s, step)
    ensures Inv(Apply(s, step))
  {
    var s' := Apply(s, step);
    forall c | c in s'.calls ensures CallOk(s', c) {
      StepKeepsCall(s, step, c);
    }
    forall key: string ensures KeyOk(s', key) {
      StepKeepsKey(s, step, key);
    }
  }

  lemma {:induction false} RunKeepsInv(s: State, steps: seq<Step>, s': State)
    requires Inv(s) && Run(s, steps, s')
    ensures Inv(s')
    decreases |steps|
  {
    if steps != [] {
      StepKeepsInv(s, steps[0]);
      RunKeepsInv(Apply(s, steps[0]), steps[1..], s');
    }
  }

  lemma Reachable(steps: seq<Step>, s: State)
    requires Run(Init(), steps, s)
    ensures Inv(s)
  {
    assert forall key: string :: KeyOk(Init(), key);
    RunKeepsInv(Init(), steps, s);
  }

  // ---------- Main results, over every interleaving ----------

  /** Ingest is started at most once per key, and it returns at most as often as it is started. */
  lemma StartedAtMostOnce(steps: seq<Step>, s: State, key: string)
    requires Run(Init(), steps, s)
    ensures s.ended[key] <= s.begun[key] <= 1
  {
    Reachable(steps, s);
    assert KeyOk(s, key);
  }

  /** Two answered calls carry the same job id exactly when they have the same key. */
  lemma SameJobIffSameKey(steps: seq<Step>, s: State, a: Cid, b: Cid)
    requires Run(Init(), steps, s)
    requires a in s.calls && b in s.calls && s.calls[a].pc.Answered? && s.calls[b].pc.Answered?
    ensures s.calls[a].pc.id == s.calls[b].pc.id <==> s.calls[a].key == s.calls[b].key
  {
    Reachable(steps, s);
    assert CallOk(s, a) && CallOk(s, b);
    JobOfInjective(s.calls[a].key, s.calls[b].key);
  }

  /** So two uploads of one tenant without keys get the same job exactly when their contents are the same. */
  lemma SameJobIffSameContents(steps: seq<Step>, s: State, a: Cid, b: Cid, hash: string -> string, tenant: string,
                               docs: seq<Document>, docs': seq<Document>)
    requires Run(Init(), steps, s) && Injective(hash)
    requires a in s.calls && b in s.calls && s.calls[a].pc.Answered? && s.calls[b].pc.Answered?
    requires s.calls[a].key == KeyOf(hash, tenant, "", docs) && s.calls[b].key == KeyOf(hash, tenant, "", docs')
    ensures s.calls[a].pc.id == s.calls[b].pc.id <==> Contents(docs) == Contents(docs')
  {
    SameJobIffSameKey(steps, s, a, b);
    SameDerivedKeyIff(hash, tenant, docs, docs');
  }

  /** A row of the registry implies that its key is marked and that a call with this key created it; the job
      is completed only when ingest has been started and has returned. */
  lemma RowsAreAccountedFor(steps: seq<Step>, s: State, key: string)
    requires Run(Init(), steps, s) && JobOf(key) in s.jobs
    ensures key in s.marked && s.jobs[JobOf(key)].key == key
    ensures key in s.creator && s.creator[key] in s.calls && s.calls[s.creator[key]].key == key
    ensures s.jobs[JobOf(key)].status == Completed ==> s.begun[key] == 1 && s.ended[key] == 1
  {
    Reachable(steps, s);
    assert KeyOk(s, key);
  }

  lemma StepOnlyCompletes(s: State, step: Step, id: JobId)
    requires Enabled(s, step) && id in s.jobs
    ensures var jobs := Apply(s, step).jobs;
            id in jobs && (jobs[id] == s.jobs[id] || (jobs[id] == s.jobs[id].(status := Completed) && step.Update?))
  {
  }

  /** The status of a job only ever moves from accepted to completed; nothing else of the row changes. */
  lemma {:induction false} StatusOnlyRises(s: State, steps: seq<Step>, s': State, id: JobId)
    requires Run(s, steps, s') && id in s.jobs
    ensures id in s'.jobs && (s'.jobs[id] == s.jobs[id] || s'.jobs[id] == s.jobs[id].(status := Completed))
    decreases |steps|
  {
    if steps != [] {
      StepOnlyCompletes(s, steps[0], id);
      StatusOnlyRises(Apply(s, steps[0]), steps[1..], s', id);
    }
  }

  /** The answer "duplicate" implies that another call with the same key created the job. The call that
      created it never answers before the job is completed. */
  lemma DuplicateMeansAnother(steps: seq<Step>, s: State, c: Cid)
    requires Run(Init(), steps, s) && c in s.calls && s.calls[c].pc.Answered?
    ensures var key := s.calls[c].key;
            && key in s.creator && s.creator[key] in s.calls && s.calls[s.creator[key]].key == key
            && (s.calls[c].pc.answer == Duplicate ==> s.creator[key] != c)
            && (s.creator[key] == c ==> s.calls[c].pc.answer == Current(Completed) && s.ended[key] == 1)
  {
    Reachable(steps, s);
    assert CallOk(s, c) && KeyOk(s, s.calls[c].key);
  }

  /** When all calls with a key have finished and none of them raised, and there was one, then ingest ran
      exactly once for the key, returned, and the job is completed. */
  lemma WithoutFailureIngestedOnce(steps: seq<Step>, s: State, c: Cid)
    requires Run(Init(), steps, s) && c in s.calls
    requires forall d :: d in s.calls && s.calls[d].key == s.calls[c].key ==> s.calls[d].pc.Answered?
    ensures var key := s.calls[c].key;
            && s.begun[key] == 1 && s.ended[key] == 1
            && JobOf(key) in s.jobs && s.jobs[JobOf(key)].status == Completed
  {
    Reachable(steps, s);
    var key := s.calls[c].key;
    assert CallOk(s, c) && KeyOk(s, key);
    assert s.calls[s.creator[key]].pc.Answered?;
  }

  /** The job of a key is completed exactly when the call that created it got as far as storing the status. */
  lemma CompletedIffStored(steps: seq<Step>, s: State, key: string)
    requires Run(Init(), steps, s)
    ensures JobOf(key) in s.jobs && s.jobs[JobOf(key)].status == Completed
            <==> key in s.creator && s.creator[key] in s.calls && s.calls[s.creator[key]].pc.Reached() == Stored
  {
    Reachable(steps, s);
    assert KeyOk(s, key);
  }

  /** The call that created the job of `key` is gone and the job was never completed. */
  predicate Stranded(s: State, key: string) {
    && key in s.creator && s.creator[key] in s.calls && s.calls[s.creator[key]].key == key
    && s.calls[s.creator[key]].pc.Raised? && s.calls[s.creator[key]].pc.at != Stored
  }

  lemma StrandedStep(s: State, step: Step, key: string)
    requires Inv(s) && Enabled(s, step) && Stranded(s, key)
    ensures var s' := Apply(s, step);
            && Stranded(s', key) && s'.begun[key] == s.begun[key] && s'.ended[key] == s.ended[key]
            && s'.creator[key] == s.creator[key] && s'.calls[s.creator[key]] == s.calls[s.creator[key]]
  {
    assert KeyOk(s, key) && step.c != s.creator[key];
    if step.c in s.calls {
      assert CallOk(s, step.c) && KeyOk(s, s.calls[step.c].key);
    }
  }

  lemma {:induction false} StaysStranded(s: State, steps: seq<Step>, s': State, key: string)
    requires Inv(s) && Stranded(s, key) && Run(s, steps, s')
    ensures Inv(s') && Stranded(s', key) && s'.begun[key] == s.begun[key] && s'.ended[key] == s.ended[key]
    decreases |steps|
  {
    if steps != [] {
      StrandedStep(s, steps[0], key);
      StepKeepsInv(s, steps[0]);
      StaysStranded(Apply(s, steps[0]), steps[1..], s', key);
    }
  }

  /** A failed ingest is never retried: when, in some run, the call that created the job has raised before the
      status was stored, ingest is not started again by any call that follows, and the job stays accepted. */
  lemma FailedIngestIsNeverRetried(before: seq<Step>, s: State, after: seq<Step>, s': State, key: string)
    requires Run(Init(), before, s) && Stranded(s, key) && Run(s, after, s')
    ensures s'.begun[key] == s.begun[key] && s'.ended[key] == s.ended[key]
    ensures JobOf(key) in s'.jobs && s'.jobs[JobOf(key)].status == Accepted
  {
    Reachable(before, s);
    StaysStranded(s, after, s', key);
    assert KeyOk(s', key);
  }

  /** There are such runs for every key: ingest raises; or ingest returns and only storing the status raises, and the
      job is accepted for ever although its documents are in the store. */
  lemma StrandedRuns(key: string) returns (failed: seq<Step>, s: State, unstored: seq<Step>, s': State)
    ensures Run(Init(), failed, s) && Stranded(s, key) && s.begun[key] == 1 && s.ended[key] == 0
    ensures Run(Init(), unstored, s') && Stranded(s', key) && s'.begun[key] == 1 && s'.ended[key] == 1
  {
    var steps, m := CreatedRun(key);
    steps, m := RunThen(steps, m, Start(0));
    failed, s := RunThen(steps, m, Raise(0));
    unstored, s' := RunThen(steps, m, Return(0));
    unstored, s' := RunThen(unstored, s', Raise(0));
  }

  /** And one in which the bulkhead is full: the job is accepted for ever and its ingest was never started. */
  lemma TurnedAwayRun(key: string) returns (steps: seq<Step>, s: State)
    ensures Run(Init(), steps, s) && Stranded(s, key) && s.begun[key] == 0
  {
    steps, s := CreatedRun(key);
    steps, s := RunThen(steps, s, Raise(0));
  }

  /** A run in which one call has created its job. */
  lemma CreatedRun(key: string) returns (steps: seq<Step>, s: State)
    ensures Run(Init(), steps, s) && s.creator == map[key := 0]
    ensures s.calls == map[0 := Call(key, Resolved(false, true, Accepted))]
    ensures s.begun == multiset{} && s.ended == multiset{}
  {
    steps, s := [], Init();
    steps, s := RunThen(steps, s, Arrive(0, key));
    steps, s := RunThen(steps, s, Look(0));
    steps, s := RunThen(steps, s, Mark(0));
    steps, s := RunThen(steps, s, Create(0));
  }

  /** Call `b` has not come yet, or it has seen the mark of `key`. */
  predicate WillSee(s: State, b: Cid, key: string) {
    && key in s.marked && JobOf(key) in s.jobs
    && (b in s.calls && s.calls[b].key == key ==>
          match s.calls[b].pc
          case Arrived => true
          case Looked(seen) => seen
          case Marked(seen) => seen
          case Resolved(seen, created, _) => seen && !created
          case Answered(_, answer) => answer == Duplicate
          case Raised(at) => true
          case _ => false)
  }

  lemma {:induction false} RunWillSee(s: State, steps: seq<Step>, s': State, b: Cid, key: string)
    requires WillSee(s, b, key) && Run(s, steps, s')
    ensures WillSee(s', b, key)
    decreases |steps|
  {
    if steps != [] {
      StepOnlyCompletes(s, steps[0], JobOf(key));
      StepWillSee(s, steps[0], b, key);
      RunWillSee(Apply(s, steps[0]), steps[1..], s', b, key);
    }
  }

  lemma StepWillSee(s: State, step: Step, b: Cid, key: string)
    requires WillSee(s, b, key) && Enabled(s, step) && JobOf(key) in Apply(s, step).jobs
    ensures WillSee(Apply(s, step), b, key)
  {
  }

  /** A call that begins after a call with the same key was answered is answered as a duplicate, whatever
      else runs beside it. */
  lemma LaterCallIsDuplicate(before: seq<Step>, s: State, a: Cid, b: Cid, after: seq<Step>, s': State)
    requires Run(Init(), before, s) && Run(s, after, s')
    requires a in s.calls && s.calls[a].pc.Answered? && b !in s.calls
    requires b in s'.calls && s'.calls[b].key == s.calls[a].key && s'.calls[b].pc.Answered?
    ensures s'.calls[b].pc.answer == Duplicate
  {
    Reachable(before, s);
    assert CallOk(s, a) && KeyOk(s, s.calls[a].key);
    RunWillSee(s, after, s', b, s.calls[a].key);
  }

  /** What call `b` saw when it looked, carried to its answer. */
  predicate Remembers(s: State, b: Cid, seen: bool) {
    && b in s.calls
    && match s.calls[b].pc
       case Arrived => false
       case Looked(x) => x == seen
       case Marked(x) => x == seen
       case Resolved(x, _, _) => x == seen
       case Answered(_, answer) => answer == Duplicate <==> seen && !Owns(s, b, s.calls[b].key)
       case _ => true
  }

  lemma RemembersStep(s: State, step: Step, b: Cid, seen: bool)
    requires Inv(s) && Enabled(s, step) && Remembers(s, b, seen)
    ensures Remembers(Apply(s, step), b, seen) && Apply(s, step).calls[b].key == s.calls[b].key
  {
    assert CallOk(s, b) && KeyOk(s, s.calls[b].key);
    if step.c in s.calls {
      assert CallOk(s, step.c) && KeyOk(s, s.calls[step.c].key);
      JobOfInjective(s.calls[b].key, s.calls[step.c].key);
    }
  }

  lemma {:induction false} RemembersRun(s: State, steps: seq<Step>, s': State, b: Cid, seen: bool)
    requires Inv(s) && Remembers(s, b, seen) && Run(s, steps, s')
    ensures Remembers(s', b, seen) && s'.calls[b].key == s.calls[b].key
    decreases |steps|
  {
    if steps != [] {
      RemembersStep(s, steps[0], b, seen);
      StepKeepsInv(s, steps[0]);
      RemembersRun(Apply(s, steps[0]), steps[1..], s', b, seen);
    }
  }

  /** The exact condition: a call is answered as a duplicate if and only if its key was already marked at the moment
      it looked, and it did not create the job. */
  lemma DuplicateIff(before: seq<Step>, s: State, b: Cid, after: seq<Step>, s': State)
    requires Run(Init(), before, s) && Enabled(s, Look(b)) && Run(Apply(s, Look(b)), after, s')
    requires b in s'.calls && s'.calls[b].pc.Answered?
    ensures s'.calls[b].key == s.calls[b].key
    ensures s'.calls[b].pc.answer == Duplicate
            <==> s.calls[b].key in s.marked && !Owns(s', b, s.calls[b].key)
  {
    Reachable(before, s);
    StepKeepsInv(s, Look(b));
    RemembersRun(Apply(s, Look(b)), after, s', b, s.calls[b].key in s.marked);
  }

  /** So overlapping calls need not be told that they are duplicates: for every key there is a run in which both look
      before either marks, and the second is answered with the status the job has at that moment. */
  lemma OverlapIsNotReported(key: string) returns (steps: seq<Step>, s: State)
    ensures Run(Init(), steps, s) && 1 in s.calls
    ensures s.calls[1] == Call(key, Answered(JobOf(key), Current(Accepted))) && s.creator == map[key := 0]
  {
    steps, s := [], Init();
    steps, s := RunThen(steps, s, Arrive(0, key));
    steps, s := RunThen(steps, s, Arrive(1, key));
    steps, s := RunThen(steps, s, Look(0));
    steps, s := RunThen(steps, s, Look(1));
    steps, s := RunThen(steps, s, Mark(0));
    steps, s := RunThen(steps, s, Mark(1));
    steps, s := RunThen(steps, s, Create(0));
    steps, s := RunThen(steps, s, Create(1));
    steps, s := RunThen(steps, s, Reply(1));
  }

  lemma RunThen(steps: seq<Step>, s: State, step: Step) returns (steps': seq<Step>, s': State)
    requires Run(Init(), steps, s) && Enabled(s, step)
    ensures Run(Init(), steps', s') && s' == Apply(s, step)
  {
    steps', s' := steps + [step], Apply(s, step);
    RunExtends(Init(), steps, s, step);
  }

  lemma {:induction false} RunExtends(a: State, steps: seq<Step>, b: State, step: Step)
    requires Run(a, steps, b) && Enabled(b, step)
    ensures Run(a, steps + [step], Apply(b, step))
    decreases |steps|
  {
    if steps != [] {
      RunExtends(Apply(a, steps[0]), steps[1..], b, step);
      assert (steps + [step])[1..] == steps[1..] + [step];
    } else {
      assert Run(Apply(b, step), [], Apply(b, step));
    }
  }
}
