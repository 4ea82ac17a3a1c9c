/** Several ingests of one document at the same time. The store is locked for each statement, so the deletion of the
    old rows and the writing of each new row are the atomic steps, and those of several calls interleave. */
module ConcurrentIngest {
  import opened ChunkStore
  import opened DocumentRows
  import opened Wrappers

  /** The rows of the document in the version of each call. */
  type Contenders = seq<seq<Row>>

  predicate AreVersions(source: string, vs: Contenders) {
    forall c :: 0 <= c < |vs| ==> IsVersion(source, vs[c])
  }

  predicate IsVersion(source: string, v: seq<Row>) {
    IdsDistinct(v) && forall i :: 0 <= i < |v| ==> v[i].source == source
  }

  /** How many rows each call has written since it deleted the old ones; `last` is the call that deleted last. */
  datatype State = State(rows: Table, done: map<nat, nat>, last: Option<nat>)

  datatype Step = Delete(c: nat) | Write(c: nat)

  function Begin(rows: Table): State {
    State(rows, map[], None)
  }

  predicate Enabled(vs: Contenders, s: State, step: Step) {
    match step
    case Delete(c) => c < |vs| && c !in s.done
    case Write(c) => c < |vs| && c in s.done && s.done[c] < |vs[c]|
  }

  function Apply(source: string, vs: Contenders, s: State, step: Step): State
    requires Enabled(vs, s, step)
  {
    match step
    case Delete(c) => State(WithoutSource(s.rows, source), s.done[c := 0], Some(c))
    case Write(c) => s.(rows := Upserted(s.rows, vs[c][s.done[c]]), done := s.done[c := s.done[c] + 1])
  }

  ghost predicate Run(source: string, vs: Contenders, s: State, steps: seq<Step>, s': State)
    decreases |steps|
  {
    if steps == [] then s == s'
    else Enabled(vs, s, steps[0]) && Run(source, vs, Apply(source, vs, s, steps[0]), steps[1..], s')
  }

  /** Every call has come to its end. */
  predicate Finished(vs: Contenders, s: State) {
    forall c :: 0 <= c < |vs| ==> c in s.done && s.done[c] == |vs[c]|
  }

  // ---------- What every step keeps ----------

  /** Call c has written this row. */
  predicate Wrote(vs: Contenders, s: State, c: nat, r: Row) {
    c in s.done && c < |vs| && s.done[c] <= |vs[c]| && r in vs[c][..s.done[c]]
  }

  /** What is held of the source under an id. */
  function HeldAt(rows: Table, source: string, id: string): Option<Row> {
    if id in rows && rows[id].source == source then Some(rows[id]) else None
  }

  /** Each row of the source was written by a call, and the call that deleted last has all its rows so far in place,
      or another call's row under the same id. */
  ghost predicate Inv(source: string, vs: Contenders, s: State) {
    && (forall c :: c in s.done ==> c < |vs| && s.done[c] <= |vs[c]|)
    && (s.last.None? <==> s.done == map[])
    && (s.last.Some? ==>
          && s.last.value in s.done
          && (forall i :: 0 <= i < s.done[s.last.value] ==>
                HeldAt(s.rows, source, vs[s.last.value][i].id).Some?)
          && (forall id :: HeldAt(s.rows, source, id).Some? ==>
                s.rows[id].id == id && exists c :: Wrote(vs, s, c, s.rows[id])))
  }

  lemma {:induction false} DeleteKeepsInv(source: string, vs: Contenders, s: State, c: nat)
    requires Inv(source, vs, s) && Enabled(vs, s, Delete(c))
    ensures Inv(source, vs, Apply(source, vs, s, Delete(c)))
  {
  }

  lemma {:induction false} WriteKeepsInv(source: string, vs: Contenders, s: State, c: nat)
    requires AreVersions(source, vs) && Inv(source, vs, s) && Enabled(vs, s, Write(c))
    ensures Inv(source, vs, Apply(source, vs, s, Write(c)))
  {
    var s', n := Apply(source, vs, s, Write(c)), s.done[c];
    var r := vs[c][n];
    assert IsVersion(source, vs[c]);
    assert vs[c][..n + 1] == vs[c][..n] + [r];
    forall id | HeldAt(s'.rows, source, id).Some? ensures s'.rows[id].id == id && exists d :: Wrote(vs, s', d, s'.rows[id]) {
      if id == r.id {
        assert Wrote(vs, s', c, r);
      } else {
        assert HeldAt(s.rows, source, id).Some?;
        var d :| Wrote(vs, s, d, s.rows[id]);
        assert Wrote(vs, s', d, s.rows[id]);
      }
    }
    var l := s.last.value;
    forall i | 0 <= i < s'.done[l] ensures HeldAt(s'.rows, source, vs[l][i].id).Some? {
      assert i < s.done[l] ==> HeldAt(s.rows, source, vs[l][i].id).Some?;
    }
  }

  lemma {:induction false} RunKeepsInv(source: string, vs: Contenders, s: State, steps: seq<Step>, s': State)
    requires AreVersions(source, vs) && Inv(source, vs, s) && Run(source, vs, s, steps, s')
    ensures Inv(source, vs, s')
    decreases |steps|
  {
    if steps != [] {
      if steps[0].Delete? {
        DeleteKeepsInv(source, vs, s, steps[0].c);
      } else {
        WriteKeepsInv(source, vs, s, steps[0].c);
      }
      RunKeepsInv(source, vs, Apply(source, vs, s, steps[0]), steps[1..], s');
    }
  }

  // ---------- What the calls leave, over every interleaving ----------

  /** The row that a version has under an id. */
  function At(v: seq<Row>, id: string): (r: Option<Row>)
    ensures r.Some? ==> r.value in v && r.value.id == id
    ensures r.None? <==> NotAmong(v, id)
  {
    if v == [] then None
    else
      var n := |v| - 1;
      if v[n].id == id then Some(v[n]) else At(v[..n], id)
  }

  lemma {:induction false} AtIs(v: seq<Row>, r: Row)
    requires IdsDistinct(v)
    ensures r in v <==> At(v, r.id) == Some(r)
  {
  }

  /** Under each id the source holds what one of the calls has there, a row or none. */
  lemma {:induction false} EachIdIsSomeones(source: string, vs: Contenders, rows: Table, steps: seq<Step>, s: State, id: string)
    returns (c: nat)
    requires AreVersions(source, vs) && vs != [] && Run(source, vs, Begin(rows), steps, s) && Finished(vs, s)
    ensures c < |vs| && HeldAt(s.rows, source, id) == At(vs[c], id)
  {
    RunKeepsInv(source, vs, Begin(rows), steps, s);
    assert 0 in s.done;
    if HeldAt(s.rows, source, id).Some? {
      c :| Wrote(vs, s, c, s.rows[id]);
      assert IsVersion(source, vs[c]);
      AtIs(vs[c], s.rows[id]);
    } else {
      c := s.last.value;
      forall i | 0 <= i < |vs[c]| ensures vs[c][i].id != id {
        assert HeldAt(s.rows, source, vs[c][i].id).Some?;
      }
    }
  }

  /** The source holds exactly the rows of this version. */
  ghost predicate HoldsVersion(rows: Table, source: string, v: seq<Row>) {
    forall id :: HeldAt(rows, source, id) == At(v, id)
  }

  /** When all calls have the same version, they leave exactly this version, however they interleave. */
  lemma {:induction false} SameVersionsConverge(source: string, v: seq<Row>, vs: Contenders, rows: Table, steps: seq<Step>, s: State)
    requires IsVersion(source, v) && vs != [] && forall c :: 0 <= c < |vs| ==> vs[c] == v
    requires Run(source, vs, Begin(rows), steps, s) && Finished(vs, s)
    ensures HoldsVersion(s.rows, source, v)
  {
    forall id ensures HeldAt(s.rows, source, id) == At(v, id) {
      var c := EachIdIsSomeones(source, vs, rows, steps, s, id);
    }
  }

  /** The versions differ under this id: in a row, or in having one. */
  predicate Differ(a: seq<Row>, b: seq<Row>, id: string) {
    At(a, id) != At(b, id)
  }

  /** However two calls interleave, they leave the version of one of them. */
  ghost predicate NeverMix(source: string, vs: Contenders, rows: Table) {
    forall steps, s :: Run(source, vs, Begin(rows), steps, s) && Finished(vs, s) ==>
      exists c :: 0 <= c < |vs| && HoldsVersion(s.rows, source, vs[c])
  }

  lemma {:induction false} OneOfTheTwo(source: string, a: seq<Row>, b: seq<Row>, rows: Table, steps: seq<Step>, s: State)
    returns (w: nat)
    requires IsVersion(source, a) && IsVersion(source, b)
    requires forall k, m :: Differ(a, b, k) && Differ(a, b, m) ==> k == m
    requires Run(source, [a, b], Begin(rows), steps, s) && Finished([a, b], s)
    ensures w < 2 && HoldsVersion(s.rows, source, [a, b][w])
  {
    var vs := [a, b];
    w := 0;
    if k :| Differ(a, b, k) {
      w := EachIdIsSomeones(source, vs, rows, steps, s, k);
      assert forall id :: Differ(a, b, id) ==> id == k;
    }
    forall id ensures HeldAt(s.rows, source, id) == At(vs[w], id) {
      var c := EachIdIsSomeones(source, vs, rows, steps, s, id);
      if !Differ(a, b, id) {
        assert At(vs[0], id) == At(vs[1], id);
      }
    }
  }

  lemma {:induction false} OneDifferenceNeverMixes(source: string, a: seq<Row>, b: seq<Row>, rows: Table)
    requires IsVersion(source, a) && IsVersion(source, b)
    requires forall k, m :: Differ(a, b, k) && Differ(a, b, m) ==> k == m
    ensures NeverMix(source, [a, b], rows)
  {
    forall steps, s | Run(source, [a, b], Begin(rows), steps, s) && Finished([a, b], s)
      ensures exists c :: 0 <= c < |[a, b]| && HoldsVersion(s.rows, source, [a, b][c])
    {
      var w := OneOfTheTwo(source, a, b, rows, steps, s);
    }
  }

  /** Uploads of one document that are handled alike and raise nothing are such calls. */
  lemma {:induction false} SameUploadsConverge(env: Env, doc: Document, vs: Contenders, rows: Table, steps: seq<Step>, s: State)
    requires vs != [] && forall c :: 0 <= c < |vs| ==> vs[c] == Produced(env, doc).rows
    requires Run(doc.id, vs, Begin(rows), steps, s) && Finished(vs, s)
    ensures HoldsVersion(s.rows, doc.id, Produced(env, doc).rows)
  {
    ProducedIsVersion(env, doc);
    SameVersionsConverge(doc.id, Produced(env, doc).rows, vs, rows, steps, s);
  }

  /** The rows that a document produces are a version of its source. */
  lemma {:induction false} ProducedIsVersion(env: Env, doc: Document)
    ensures IsVersion(doc.id, Produced(env, doc).rows)
  {
    var n := |doc.attachments|;
    ProducedDistinct(env, doc, n);
    forall i | 0 <= i < |Produced(env, doc).rows| ensures Produced(env, doc).rows[i].source == doc.id {
      assert FromFirst(Produced(env, doc).rows[i], doc.id, n);
    }
  }

  /** A call that is alone replaces the rows of its source at once, as the ingest stage says. */
  lemma {:induction false} AloneReplaces(source: string, v: seq<Row>, rows: Table, steps: seq<Step>, s: State)
    requires Run(source, [v], Begin(rows), steps, s) && Finished([v], s)
    ensures s.rows == UpsertAll(WithoutSource(rows, source), v)
  {
    AloneFrom(source, v, rows, Begin(rows), steps, s);
    assert v[..|v|] == v;
  }

  predicate Alone(source: string, v: seq<Row>, rows: Table, s: State) {
    if 0 in s.done then s.done[0] <= |v| && s.rows == UpsertAll(WithoutSource(rows, source), v[..s.done[0]])
    else s.rows == rows
  }

  lemma {:induction false} AloneFrom(source: string, v: seq<Row>, rows: Table, s: State, steps: seq<Step>, s': State)
    requires Alone(source, v, rows, s) && Run(source, [v], s, steps, s')
    ensures Alone(source, v, rows, s')
    decreases |steps|
  {
    if steps != [] {
      if steps[0].Write? {
        var n := s.done[0];
        assert v[..n + 1][..n] == v[..n];
      }
      AloneFrom(source, v, rows, Apply(source, [v], s, steps[0]), steps[1..], s');
    }
  }

  // ---------- How two versions get mixed ----------

  lemma {:induction false} RunsCompose(source: string, vs: Contenders, s: State, a: seq<Step>, m: State, b: seq<Step>, s': State)
    requires Run(source, vs, s, a, m) && Run(source, vs, m, b, s')
    ensures Run(source, vs, s, a + b, s')
    decreases |a|
  {
    if a == [] {
      assert a + b == b;
    } else {
      assert (a + b)[1..] == a[1..] + b;
      RunsCompose(source, vs, Apply(source, vs, s, a[0]), a[1..], m, b, s');
    }
  }

  /** Call c writes until it has written k rows. */
  lemma {:induction false} WritesUpTo(source: string, vs: Contenders, s: State, c: nat, k: nat) returns (steps: seq<Step>, s': State)
    requires c < |vs| && c in s.done && s.done[c] <= k <= |vs[c]|
    ensures Run(source, vs, s, steps, s') && s'.done == s.done[c := k]
    ensures s'.rows == UpsertAll(s.rows, vs[c][s.done[c]..k])
    decreases k
  {
    if k == s.done[c] {
      steps, s' := [], s;
      assert s.done[c := k] == s.done;
    } else {
      var m;
      steps, m := WritesUpTo(source, vs, s, c, k - 1);
      s' := Apply(source, vs, m, Write(c));
      assert Run(source, vs, s', [], s') && Run(source, vs, m, [Write(c)], s');
      RunsCompose(source, vs, s, steps, m, [Write(c)], s');
      steps := steps + [Write(c)];
      assert vs[c][s.done[c]..k][..k - 1 - s.done[c]] == vs[c][s.done[c]..k - 1];
    }
  }

  lemma {:induction false} DeletesNext(source: string, vs: Contenders, s: State, steps: seq<Step>, m: State, c: nat)
    returns (steps': seq<Step>, s': State)
    requires Run(source, vs, s, steps, m) && c < |vs| && c !in m.done
    ensures Run(source, vs, s, steps', s') && s' == Apply(source, vs, m, Delete(c))
  {
    s' := Apply(source, vs, m, Delete(c));
    assert Run(source, vs, s', [], s') && Run(source, vs, m, [Delete(c)], s');
    RunsCompose(source, vs, s, steps, m, [Delete(c)], s');
    steps' := steps + [Delete(c)];
  }

  lemma {:induction false} WritesNext(source: string, vs: Contenders, s: State, steps: seq<Step>, m: State, c: nat, k: nat)
    returns (steps': seq<Step>, s': State)
    requires Run(source, vs, s, steps, m) && c < |vs| && c in m.done && m.done[c] <= k <= |vs[c]|
    ensures Run(source, vs, s, steps', s') && s'.done == m.done[c := k]
    ensures s'.rows == UpsertAll(m.rows, vs[c][m.done[c]..k])
  {
    var more;
    more, s' := WritesUpTo(source, vs, m, c, k);
    RunsCompose(source, vs, s, steps, m, more, s');
    steps' := steps + more;
  }

  lemma {:induction false} ReplacesNext(source: string, vs: Contenders, s: State, steps: seq<Step>, m: State, c: nat)
    returns (steps': seq<Step>, s': State)
    requires Run(source, vs, s, steps, m) && c < |vs| && c !in m.done
    ensures Run(source, vs, s, steps', s') && s'.done == m.done[c := |vs[c]|]
    ensures s'.rows == UpsertAll(WithoutSource(m.rows, source), vs[c])
  {
    steps', s' := DeletesNext(source, vs, s, steps, m, c);
    steps', s' := WritesNext(source, vs, s, steps', s', c, |vs[c]|);
    assert vs[c][0..|vs[c]|] == vs[c];
  }

  lemma {:induction false} StartedRun(source: string, vs: Contenders, rows: Table, p: nat, i: nat)
    returns (steps: seq<Step>, s: State)
    requires p < |vs| && i <= |vs[p]|
    ensures Run(source, vs, Begin(rows), steps, s) && s.done == map[p := i]
  {
    assert Run(source, vs, Begin(rows), [], Begin(rows));
    steps, s := DeletesNext(source, vs, Begin(rows), [], Begin(rows), p);
    steps, s := WritesNext(source, vs, Begin(rows), steps, s, p, i);
  }

  /** Call p is overtaken by call q after its first i rows. */
  lemma {:induction false} OvertakenRun(source: string, vs: Contenders, rows: Table, p: nat, q: nat, i: nat)
    returns (steps: seq<Step>, s: State)
    requires |vs| == 2 && p < 2 && q < 2 && p != q && i <= |vs[p]|
    ensures Run(source, vs, Begin(rows), steps, s) && Finished(vs, s)
    ensures exists first: Table :: s.rows == UpsertAll(UpsertAll(WithoutSource(first, source), vs[q]), vs[p][i..])
  {
    steps, s := StartedRun(source, vs, rows, p, i);
    var first := s.rows;
    steps, s := ReplacesNext(source, vs, Begin(rows), steps, s, q);
    steps, s := WritesNext(source, vs, Begin(rows), steps, s, p, |vs[p]|);
    assert vs[p][i..|vs[p]|] == vs[p][i..];
  }

  /** It leaves its later rows, and otherwise what the other call has. */
  lemma {:induction false} OvertakenHolds(source: string, first: Table, a: seq<Row>, b: seq<Row>, i: nat, id: string)
    requires IsVersion(source, a) && IsVersion(source, b) && i <= |a|
    ensures HeldAt(UpsertAll(UpsertAll(WithoutSource(first, source), b), a[i..]), source, id)
            == if NotAmong(a[i..], id) then HeldAt(UpsertAll(WithoutSource(first, source), b), source, id) else At(a, id)
  {
    var before := UpsertAll(WithoutSource(first, source), b);
    if NotAmong(a[i..], id) {
      UpsertAllElsewhere(before, a[i..], id);
    } else {
      var k :| 0 <= k < |a[i..]| && a[i..][k].id == id;
      UpsertAllWrites(before, a[i..], k);
      assert a[i..][k] == a[i + k];
      AtIs(a, a[i + k]);
    }
  }

  lemma {:induction false} FreshHolds(source: string, first: Table, b: seq<Row>, id: string)
    requires IsVersion(source, b)
    ensures HeldAt(UpsertAll(WithoutSource(first, source), b), source, id) == At(b, id)
  {
    var before := WithoutSource(first, source);
    if NotAmong(b, id) {
      UpsertAllElsewhere(before, b, id);
    } else {
      var k :| 0 <= k < |b| && b[k].id == id;
      UpsertAllWrites(before, b, k);
      AtIs(b, b[k]);
    }
  }

  /** If call p has a row under m at place i or later, and none under k, then it can be overtaken so that m is its
      own and k is the other's. */
  lemma {:induction false} MixedRun(source: string, vs: Contenders, rows: Table, p: nat, q: nat, i: nat, k: string, m: string)
    requires AreVersions(source, vs) && |vs| == 2 && p < 2 && q < 2 && p != q && i <= |vs[p]|
    requires NotAmong(vs[p][i..], k) && !NotAmong(vs[p][i..], m)
    requires Differ(vs[p], vs[q], k) && Differ(vs[p], vs[q], m)
    ensures !NeverMix(source, vs, rows)
  {
    var steps, s := OvertakenRun(source, vs, rows, p, q, i);
    assert IsVersion(source, vs[p]) && IsVersion(source, vs[q]);
    var first: Table :| s.rows == UpsertAll(UpsertAll(WithoutSource(first, source), vs[q]), vs[p][i..]);
    OvertakenHolds(source, first, vs[p], vs[q], i, k);
    OvertakenHolds(source, first, vs[p], vs[q], i, m);
    FreshHolds(source, first, vs[q], k);
    assert HeldAt(s.rows, source, k) == At(vs[q], k) && HeldAt(s.rows, source, m) == At(vs[p], m);
    forall c | 0 <= c < |vs| ensures !HoldsVersion(s.rows, source, vs[c]) {
      assert c == p || c == q;
    }
  }

  /** Of two ids that a version has, one comes later. */
  lemma {:induction false} LaterOne(v: seq<Row>, k: string, m: string) returns (i: nat, early: string, late: string)
    requires IdsDistinct(v) && k != m && !NotAmong(v, m)
    ensures i <= |v| && NotAmong(v[i..], early) && !NotAmong(v[i..], late)
    ensures (early == k && late == m) || (early == m && late == k)
  {
    var x :| 0 <= x < |v| && v[x].id == m;
    if NotAmong(v[x..], k) {
      i, early, late := x, k, m;
      assert v[x..][0].id == m;
    } else {
      var y :| 0 <= y < |v[x..]| && v[x..][y].id == k;
      i, early, late := x + y, m, k;
      assert v[i..][0].id == k;
    }
  }

  /** Main result: two calls never leave a mixture of their versions, whichever rows were stored before and however they
      interleave, if and only if the versions differ under at most one id. */
  lemma {:induction false} NeverMixIff(source: string, a: seq<Row>, b: seq<Row>, rows: Table)
    requires IsVersion(source, a) && IsVersion(source, b)
    ensures NeverMix(source, [a, b], rows) <==> forall k, m :: Differ(a, b, k) && Differ(a, b, m) ==> k == m
  {
    if k, m :| Differ(a, b, k) && Differ(a, b, m) && k != m {
      TwoDifferencesMix(source, a, b, rows, k, m);
    } else {
      OneDifferenceNeverMixes(source, a, b, rows);
    }
  }

  lemma {:induction false} TwoDifferencesMix(source: string, a: seq<Row>, b: seq<Row>, rows: Table, k: string, m: string)
    requires IsVersion(source, a) && IsVersion(source, b) && Differ(a, b, k) && Differ(a, b, m) && k != m
    ensures !NeverMix(source, [a, b], rows)
  {
    var vs := [a, b];
    if !NotAmong(a, m) {
      var i, early, late := LaterOne(a, k, m);
      MixedRun(source, vs, rows, 0, 1, i, early, late);
    } else {
      var i, early, late := LaterOne(b, k, m);
      MixedRun(source, vs, rows, 1, 0, i, early, late);
    }
  }

  // ---------- Other sources ----------

  /** A row of another source is held exactly when it was, and no row that a call has written took its id. */
  lemma {:induction false} OthersUntouched(source: string, vs: Contenders, rows: Table, steps: seq<Step>, s: State, r: Row)
    requires AreVersions(source, vs) && Run(source, vs, Begin(rows), steps, s) && r.source != source
    ensures Holds(s.rows, r) <==> Holds(rows, r) && forall c, q :: Wrote(vs, s, c, q) ==> q.id != r.id
  {
    OthersFrom(source, vs, Begin(rows), steps, s, rows, r);
  }

  ghost predicate OtherOk(vs: Contenders, s: State, rows: Table, r: Row) {
    && (forall c :: c in s.done ==> c < |vs| && s.done[c] <= |vs[c]|)
    && (Holds(s.rows, r) <==> Holds(rows, r) && forall c, q :: Wrote(vs, s, c, q) ==> q.id != r.id)
  }

  lemma {:induction false} OtherStep(source: string, vs: Contenders, s: State, step: Step, rows: Table, r: Row)
    requires AreVersions(source, vs) && Enabled(vs, s, step) && OtherOk(vs, s, rows, r) && r.source != source
    ensures OtherOk(vs, Apply(source, vs, s, step), rows, r)
  {
    var s', c := Apply(source, vs, s, step), step.c;
    assert IsVersion(source, vs[c]);
    if step.Write? {
      var n := s.done[c];
      assert vs[c][..n + 1] == vs[c][..n] + [vs[c][n]];
      assert Wrote(vs, s', c, vs[c][n]);
    }
    forall d, q ensures Wrote(vs, s', d, q) <==> Wrote(vs, s, d, q) || (step.Write? && d == c && q == vs[c][s.done[c]]) {
    }
  }

  lemma {:induction false} OthersFrom(source: string, vs: Contenders, s: State, steps: seq<Step>, s': State, rows: Table, r: Row)
    requires AreVersions(source, vs) && Run(source, vs, s, steps, s') && OtherOk(vs, s, rows, r) && r.source != source
    ensures OtherOk(vs, s', rows, r)
    decreases |steps|
  {
    if steps != [] {
      OtherStep(source, vs, s, steps[0], rows, r);
      OthersFrom(source, vs, Apply(source, vs, s, steps[0]), steps[1..], s', rows, r);
    }
  }
}
