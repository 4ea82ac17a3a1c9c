/** Several calls of the batch embedder at the same time, with different models, over one cache. The cache is locked for
    each look-up and each insertion, so these are the atomic steps, and those of all calls interleave. */
module ConcurrentEmbed {
  import opened EmbedCache
  import opened Sequences
  import opened Wrappers

  /** The configuration of a call. The backend is not part of its keys. */
  datatype Config = Config(backend: string, model: string, dim: nat)

  /** What the backend of each configuration gives for a text. */
  type Provider = Config -> string -> Vec

  /** A call: its texts and its slots; how many texts it has looked up, the positions that it found missing, how many of
      them have been answered, and, as history, which of these were given a vector. */
  datatype Call = Call(config: Config, texts: seq<string>, results: seq<Option<Vec>>, looked: nat, pending: seq<nat>,
                       given: seq<bool>)

  datatype State = State(table: Table, calls: map<nat, Call>)

  datatype Step =
    | Arrive(c: nat, config: Config, texts: seq<string>)
    | Look(c: nat)
    | Give(c: nat)      // the next missing text has a vector, which is cached and put into its slot
    | Skip(c: nat)      // the provider gave fewer vectors than texts, and the next one has none

  function Init(): State {
    State(Table([], map[]), map[])
  }

  function KeyOf(config: Config, text: string): Key {
    CacheKey(text, config.model, config.dim)
  }

  /** The shape of a call. */
  predicate Shaped(call: Call) {
    && |call.results| == |call.texts| && call.looked <= |call.texts| && |call.given| <= |call.pending|
    && (call.given != [] ==> call.looked == |call.texts|)
    && (forall p :: 0 <= p < |call.pending| ==> call.pending[p] < call.looked)
  }

  predicate Enabled(s: State, step: Step) {
    match step
    case Arrive(c, _, _) => c !in s.calls
    case Look(c) => c in s.calls && Shaped(s.calls[c]) && s.calls[c].looked < |s.calls[c].texts|
    case _ =>
      && step.c in s.calls && Shaped(s.calls[step.c])
      && s.calls[step.c].looked == |s.calls[step.c].texts| && |s.calls[step.c].given| < |s.calls[step.c].pending|
  }

  /** The call after it has looked up its next text. */
  function Looked(call: Call, table: Table): Call
    requires Shaped(call) && call.looked < |call.texts|
  {
    var i := call.looked;
    var key := KeyOf(call.config, call.texts[i]);
    if key in table.entries then call.(looked := i + 1, results := call.results[i := Some(table.entries[key])])
    else call.(looked := i + 1, pending := call.pending + [i])
  }

  /** The next missing text. */
  function Next(call: Call): string
    requires Shaped(call) && |call.given| < |call.pending|
  {
    call.texts[call.pending[|call.given|]]
  }

  function Given(call: Call, vec: Vec): Call
    requires Shaped(call) && |call.given| < |call.pending|
  {
    call.(results := call.results[call.pending[|call.given|] := Some(vec)], given := call.given + [true])
  }

  function Apply(embed: Provider, s: State, step: Step): State
    requires Enabled(s, step)
  {
    match step
    case Arrive(c, config, texts) =>
      s.(calls := s.calls[c := Call(config, texts, seq(|texts|, _ => None), 0, [], [])])
    case Look(c) => s.(calls := s.calls[c := Looked(s.calls[c], s.table)])
    case Give(c) =>
      var call := s.calls[c];
      var vec := embed(call.config)(Next(call));
      State(Put(s.table, KeyOf(call.config, Next(call)), vec), s.calls[c := Given(call, vec)])
    case Skip(c) => s.(calls := s.calls[c := s.calls[c].(given := s.calls[c].given + [false])])
  }

  ghost predicate Run(embed: Provider, s: State, steps: seq<Step>, s': State)
    decreases |steps|
  {
    if steps == [] then s == s'
    else Enabled(s, steps[0]) && Run(embed, Apply(embed, s, steps[0]), steps[1..], s')
  }

  /** All calls use these configurations. */
  ghost predicate Using(steps: seq<Step>, used: Config -> bool) {
    forall i :: 0 <= i < |steps| && steps[i].Arrive? ==> used(steps[i].config)
  }

  /** The keys of no configuration begin with what all keys of another begin with. */
  ghost predicate HeadsApart(used: Config -> bool) {
    forall a: Config, b: Config :: used(a) && used(b) && a != b ==> !(Head(a.model, a.dim) <= Head(b.model, b.dim))
  }

  lemma {:induction false} NoSharedKey(used: Config -> bool, a: Config, t: string, b: Config, u: string)
    requires HeadsApart(used) && used(a) && used(b) && KeyOf(a, t) == KeyOf(b, u)
    ensures a == b && t == u
  {
    ConfigurationsShareKeyIff(a.model, a.dim, b.model, b.dim);
    CacheKeyInjective(t, a.model, a.dim, u, a.model, a.dim);
  }

  // ---------- What every step keeps ----------

  ghost predicate HonestFor(embed: Provider, table: Table, config: Config) {
    Honest(table, embed(config), config.model, config.dim)
  }

  /** The cache is consistent, bounded, and honest for every configuration in use. */
  ghost predicate CacheOk(embed: Provider, used: Config -> bool, table: Table) {
    && Consistent(table) && |table.order| <= MAX_CACHE
    && forall config: Config :: used(config) ==> HonestFor(embed, table, config)
  }

  /** A slot that is filled holds the embedding of its text; one that is not has not been looked up, or is missing and
      was given no vector so far. */
  ghost predicate SlotOk(embed: Provider, call: Call, j: nat)
    requires Shaped(call) && j < |call.texts|
  {
    && (call.results[j].Some? ==> call.results[j].value == embed(call.config)(call.texts[j]))
    && (call.results[j].None? <==> call.looked <= j || Lacks(call, j))
  }

  /** Position j is missing and was given no vector so far. */
  ghost predicate Lacks(call: Call, j: nat) {
    exists p :: 0 <= p < |call.pending| && call.pending[p] == j && !(p < |call.given| && call.given[p])
  }

  ghost predicate CallOk(embed: Provider, used: Config -> bool, call: Call) {
    && Shaped(call) && used(call.config) && Distinct(call.pending)
    && forall j :: 0 <= j < |call.texts| ==> SlotOk(embed, call, j)
  }

  ghost predicate Inv(embed: Provider, used: Config -> bool, s: State) {
    CacheOk(embed, used, s.table) && forall c :: c in s.calls ==> CallOk(embed, used, s.calls[c])
  }

  lemma {:induction false} PutKeepsCacheOk(embed: Provider, used: Config -> bool, table: Table, config: Config, text: string)
    requires HeadsApart(used) && CacheOk(embed, used, table) && used(config)
    ensures CacheOk(embed, used, Put(table, KeyOf(config, text), embed(config)(text)))
  {
    var key, vec := KeyOf(config, text), embed(config)(text);
    var table' := Put(table, key, vec);
    PutKeepsTable(table, key, vec);
    forall other: Config | used(other) ensures HonestFor(embed, table', other) {
      assert HonestFor(embed, table, other);
      forall u: string | CacheKey(u, other.model, other.dim) in table'.entries
        ensures table'.entries[CacheKey(u, other.model, other.dim)] == embed(other)(u)
      {
        if KeyOf(other, u) == key {
          NoSharedKey(used, other, u, config, text);
        }
      }
    }
  }

  lemma {:induction false} LookKeepsCall(embed: Provider, used: Config -> bool, table: Table, call: Call)
    requires CacheOk(embed, used, table) && CallOk(embed, used, call) && call.looked < |call.texts|
    ensures CallOk(embed, used, Looked(call, table))
  {
    var call', i := Looked(call, table), call.looked;
    assert HonestFor(embed, table, call.config);
    forall j | 0 <= j < |call'.texts| ensures SlotOk(embed, call', j) {
      assert SlotOk(embed, call, j);
      LackIsPending(call, j);
      LackIsPending(call', j);
    }
  }

  /** Before any answer. */
  lemma LackIsPending(call: Call, j: nat)
    requires call.given == []
    ensures Lacks(call, j) <==> j in call.pending
  {
    if j in call.pending {
      var p :| 0 <= p < |call.pending| && call.pending[p] == j;
      assert !(p < |call.given|);
    }
  }

  lemma {:induction false} GiveKeepsCall(embed: Provider, used: Config -> bool, call: Call)
    requires CallOk(embed, used, call) && call.looked == |call.texts| && |call.given| < |call.pending|
    ensures CallOk(embed, used, Given(call, embed(call.config)(Next(call))))
  {
    var call', n := Given(call, embed(call.config)(Next(call))), |call.given|;
    forall j | 0 <= j < |call'.texts| ensures SlotOk(embed, call', j) {
      assert SlotOk(embed, call, j);
      AnswerChangesOne(call, call', true, j);
    }
  }

  lemma {:induction false} SkipKeepsCall(embed: Provider, used: Config -> bool, call: Call)
    requires CallOk(embed, used, call) && call.looked == |call.texts| && |call.given| < |call.pending|
    ensures CallOk(embed, used, call.(given := call.given + [false]))
  {
    var call' := call.(given := call.given + [false]);
    forall j | 0 <= j < |call'.texts| ensures SlotOk(embed, call', j) {
      assert SlotOk(embed, call, j);
      AnswerChangesOne(call, call', false, j);
    }
  }

  /** An answer to the next missing text changes what that text lacks, and nothing else. */
  lemma {:induction false} AnswerChangesOne(call: Call, call': Call, answer: bool, j: nat)
    requires |call.given| < |call.pending| && Distinct(call.pending)
    requires call'.pending == call.pending && call'.given == call.given + [answer]
    ensures Lacks(call', j) <==> if j == call.pending[|call.given|] then !answer else Lacks(call, j)
  {
    var n := |call.given|;
    if p :| 0 <= p < |call.pending| && call.pending[p] == j && !(p < n && call.given[p]) {
      assert p < n ==> call'.given[p] == call.given[p];
    }
    if p :| 0 <= p < |call.pending| && call.pending[p] == j && !(p < n + 1 && call'.given[p]) {
      assert p < n ==> call'.given[p] == call.given[p];
    }
    if j == call.pending[n] && !answer {
      assert !(n < |call'.given| && call'.given[n]);
    }
  }

  lemma {:induction false} StepKeepsInv(embed: Provider, used: Config -> bool, s: State, step: Step)
    requires HeadsApart(used) && Inv(embed, used, s) && Enabled(s, step) && (step.Arrive? ==> used(step.config))
    ensures Inv(embed, used, Apply(embed, s, step))
  {
    if !step.Arrive? {
      var call := s.calls[step.c];
      assert CallOk(embed, used, call);
      match step
      case Look(_) => LookKeepsCall(embed, used, s.table, call);
      case Give(_) =>
        GiveKeepsCall(embed, used, call);
        PutKeepsCacheOk(embed, used, s.table, call.config, Next(call));
      case _ => SkipKeepsCall(embed, used, call);
    }
  }

  lemma {:induction false} RunKeepsInv(embed: Provider, used: Config -> bool, s: State, steps: seq<Step>, s': State)
    requires HeadsApart(used) && Inv(embed, used, s) && Run(embed, s, steps, s') && Using(steps, used)
    ensures Inv(embed, used, s')
    decreases |steps|
  {
    if steps != [] {
      StepKeepsInv(embed, used, s, steps[0]);
      RunKeepsInv(embed, used, Apply(embed, s, steps[0]), steps[1..], s');
    }
  }

  // ---------- Main results, over every interleaving ----------

  predicate Finished(call: Call) {
    call.looked == |call.texts| && |call.given| == |call.pending|
  }

  predicate AllGiven(call: Call) {
    forall p :: 0 <= p < |call.given| ==> call.given[p]
  }

  /** The call returns the plain embedding of all its texts, in order. */
  ghost predicate Returns(embed: Provider, call: Call) {
    Present(call.results) == EmbedEach(call.texts, embed(call.config))
  }

  /** Whatever other calls do to the cache in the meantime: the cache stays honest, each slot that is filled holds the
      embedding of its text, and a call that has finished returns the plain embedding of all its texts, in order,
      exactly when each text that it found missing was given a vector. */
  lemma {:induction false} EveryCallIsEmbedded(embed: Provider, used: Config -> bool, steps: seq<Step>, s: State, c: nat)
    requires HeadsApart(used) && Run(embed, Init(), steps, s) && Using(steps, used) && c in s.calls
    ensures CacheOk(embed, used, s.table) && Shaped(s.calls[c])
    ensures forall j :: 0 <= j < |s.calls[c].texts| && s.calls[c].results[j].Some? ==>
              s.calls[c].results[j].value == embed(s.calls[c].config)(s.calls[c].texts[j])
    ensures Finished(s.calls[c]) ==> (Returns(embed, s.calls[c]) <==> AllGiven(s.calls[c]))
  {
    RunKeepsInv(embed, used, Init(), steps, s);
    var call := s.calls[c];
    assert CallOk(embed, used, call);
    forall j | 0 <= j < |call.texts| && call.results[j].Some?
      ensures call.results[j].value == embed(call.config)(call.texts[j])
    {
      assert SlotOk(embed, call, j);
    }
    if Finished(call) {
      FinishedIff(embed, used, call);
    }
  }

  lemma {:induction false} FinishedIff(embed: Provider, used: Config -> bool, call: Call)
    requires CallOk(embed, used, call) && Finished(call)
    ensures Returns(embed, call) <==> AllGiven(call)
  {
    var slots := seq(|call.texts|, j requires 0 <= j < |call.texts| => call.results[j].Some?);
    forall j | 0 <= j < |call.texts|
      ensures slots[j] <==> !Lacks(call, j)
      ensures call.results[j].Some? ==> call.results[j].value == embed(call.config)(call.texts[j])
    {
      assert SlotOk(embed, call, j);
    }
    PresentIsWhere(call.results, call.texts, embed(call.config), slots);
    WhereIsEachIff(call.texts, slots, embed(call.config));
    if p :| 0 <= p < |call.given| && !call.given[p] {
      assert Lacks(call, call.pending[p]);
    }
  }

  // ---------- Which configurations may share a cache ----------

  /** With every provider that answers in full, every call that finishes returns its own embeddings, however the
      calls interleave. */
  ghost predicate NeverMixedUp(used: Config -> bool) {
    forall embed: Provider, steps, s, c ::
      Run(embed, Init(), steps, s) && Using(steps, used) && c in s.calls && Finished(s.calls[c]) && AllGiven(s.calls[c])
      ==> Returns(embed, s.calls[c])
  }

  /** The exact condition: calls of these configurations can share the cache if and only if the head of the keys of none
      of them begins the head of another's. */
  lemma {:induction false} NeverMixedUpIff(used: Config -> bool)
    ensures NeverMixedUp(used) <==> HeadsApart(used)
  {
    if HeadsApart(used) {
      forall embed: Provider, steps, s, c
        | Run(embed, Init(), steps, s) && Using(steps, used) && c in s.calls && Finished(s.calls[c]) && AllGiven(s.calls[c])
        ensures Returns(embed, s.calls[c])
      {
        EveryCallIsEmbedded(embed, used, steps, s, c);
      }
    } else {
      var a: Config, b: Config :| used(a) && used(b) && a != b && Head(a.model, a.dim) <= Head(b.model, b.dim);
      ConfigurationsShareKeyIff(a.model, a.dim, b.model, b.dim);
      var t, u :| CacheKey(t, a.model, a.dim) == CacheKey(u, b.model, b.dim);
      var embed: Provider := (config: Config) => (text: string) => if config == a then [0.0] else [1.0];
      var steps, s := MixUpRun(embed, a, t, b, u);
      assert !Returns(embed, s.calls[1]) by {
        assert Present(s.calls[1].results) == [[0.0]];
        assert EmbedEach([u], embed(b)) == [[1.0]];
      }
      assert Using(steps, used);
    }
  }

  /** The first call caches its vector under a key that the second call finds. */
  lemma {:induction false} MixUpRun(embed: Provider, a: Config, t: string, b: Config, u: string)
    returns (steps: seq<Step>, s: State)
    requires KeyOf(a, t) == KeyOf(b, u)
    ensures Run(embed, Init(), steps, s) && steps == [Arrive(0, a, [t]), Look(0), Give(0), Arrive(1, b, [u]), Look(1)]
    ensures 1 in s.calls && s.calls[1] == Call(b, [u], [Some(embed(a)(t))], 1, [], [])
  {
    var s1 := Apply(embed, Init(), Arrive(0, a, [t]));
    var s2 := Apply(embed, s1, Look(0));
    var s3 := Apply(embed, s2, Give(0));
    var s4 := Apply(embed, s3, Arrive(1, b, [u]));
    s := Apply(embed, s4, Look(1));
    steps := [Arrive(0, a, [t]), Look(0), Give(0), Arrive(1, b, [u]), Look(1)];
    assert Run(embed, s4, [Look(1)], s);
    assert Run(embed, s3, [Arrive(1, b, [u]), Look(1)], s);
    assert Run(embed, s2, [Give(0), Arrive(1, b, [u]), Look(1)], s);
    assert Run(embed, s1, [Look(0), Give(0), Arrive(1, b, [u]), Look(1)], s);
  }
}
