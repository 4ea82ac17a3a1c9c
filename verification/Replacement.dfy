/** Replacing the rows of sources by new versions, one after the other: the meaning of an ingest. */
module Replacement {
  import opened ChunkIds
  import opened ChunkStore
  import opened DocumentRows
  import opened Sequences

  /** `raised`: something raised; nothing happens after that. */
  datatype State = State(rows: Table, seen: set<string>, indexed: seq<string>, warnings: seq<Warning>, raised: bool)

  function IngestOne(s: State, v: Version): State {
    if s.raised then s
    else if v.id in s.seen then s.(warnings := s.warnings + [Duplicate(v.id)])
    else if !v.accepted then s.(seen := s.seen + {v.id}, warnings := s.warnings + [TooShort(v.id)])
    else
      State(UpsertAll(WithoutSource(s.rows, v.id), v.rows), s.seen + {v.id},
            if v.complete then s.indexed + [v.id] else s.indexed, s.warnings + v.warnings, !v.complete)
  }

  /** The state after the first n versions. */
  function Ingested(rows: Table, vs: seq<Version>, n: nat): State
    requires n <= |vs|
  {
    if n == 0 then State(rows, {}, [], [], false) else IngestOne(Ingested(rows, vs, n - 1), vs[n - 1])
  }

  // ---------- Which versions take effect ----------

  /** The first of the first n versions with this id, or n. */
  function First(vs: seq<Version>, n: nat, id: string): (i: nat)
    requires n <= |vs|
    ensures i <= n && (i < n ==> vs[i].id == id)
    ensures forall j :: 0 <= j < i ==> vs[j].id != id
  {
    if n == 0 then 0
    else
      var i := First(vs, n - 1, id);
      if i < n - 1 || vs[n - 1].id == id then i else n
  }

  /** The first version of its id, and long enough. */
  predicate Taken(vs: seq<Version>, j: nat)
    requires j < |vs|
  {
    First(vs, j, vs[j].id) == j && vs[j].accepted
  }

  /** Nothing has raised in the first n versions. */
  predicate Running(vs: seq<Version>, n: nat)
    requires n <= |vs|
  {
    n == 0 || (Running(vs, n - 1) && (Taken(vs, n - 1) ==> vs[n - 1].complete))
  }

  /** Version j replaces the rows of its source, up to where it raises. */
  predicate Effective(vs: seq<Version>, j: nat)
    requires j < |vs|
  {
    Running(vs, j) && Taken(vs, j)
  }

  lemma {:induction false} RaisedIffNotRunning(rows: Table, vs: seq<Version>, n: nat)
    requires n <= |vs|
    ensures Ingested(rows, vs, n).raised <==> !Running(vs, n)
    ensures Running(vs, n) ==> forall id: string :: id in Ingested(rows, vs, n).seen <==> First(vs, n, id) < n
  {
    if n > 0 {
      RaisedIffNotRunning(rows, vs, n - 1);
    }
  }

  /** What one version does: it takes effect exactly when `Effective` says so. */
  lemma {:induction false} RowsNext(rows: Table, vs: seq<Version>, n: nat)
    requires 1 <= n <= |vs|
    ensures var before, v := Ingested(rows, vs, n - 1).rows, vs[n - 1];
            Ingested(rows, vs, n).rows
            == if Effective(vs, n - 1) then UpsertAll(WithoutSource(before, v.id), v.rows) else before
  {
    RaisedIffNotRunning(rows, vs, n - 1);
  }

  /** An id is reported as indexed exactly when the first version with it takes effect to its end: a later one
      never makes up for a short first one. */
  lemma {:induction false} IndexedIffEffective(rows: Table, vs: seq<Version>, n: nat, id: string)
    requires n <= |vs|
    ensures id in Ingested(rows, vs, n).indexed
            <==> var f := First(vs, n, id); f < n && Effective(vs, f) && vs[f].complete
  {
    if n > 0 {
      IndexedIffEffective(rows, vs, n - 1, id);
      RaisedIffNotRunning(rows, vs, n - 1);
    }
  }

  lemma {:induction false} AppendFresh(ids: seq<string>, id: string)
    requires Distinct(ids) && id !in ids
    ensures Distinct(ids + [id])
  {
  }

  lemma {:induction false} IndexedOnce(rows: Table, vs: seq<Version>, n: nat)
    requires n <= |vs|
    ensures Distinct(Ingested(rows, vs, n).indexed)
  {
    if n > 0 {
      IndexedOnce(rows, vs, n - 1);
      IndexedIffEffective(rows, vs, n - 1, vs[n - 1].id);
      RaisedIffNotRunning(rows, vs, n - 1);
      if vs[n - 1].id !in Ingested(rows, vs, n - 1).indexed {
        AppendFresh(Ingested(rows, vs, n - 1).indexed, vs[n - 1].id);
      }
    }
  }

  lemma {:induction false} IndexedNext(rows: Table, vs: seq<Version>, n: nat)
    requires 1 <= n <= |vs|
    ensures var before, after := Ingested(rows, vs, n - 1).indexed, Ingested(rows, vs, n).indexed;
            after == before || (after == before + [vs[n - 1].id] && First(vs, n, vs[n - 1].id) == n - 1)
  {
    RaisedIffNotRunning(rows, vs, n - 1);
  }

  lemma {:induction false} IndexedIsEarlier(rows: Table, vs: seq<Version>, n: nat, id: string)
    requires 1 <= n <= |vs| && id in Ingested(rows, vs, n - 1).indexed
    ensures First(vs, n, id) == First(vs, n - 1, id) < n - 1
  {
    IndexedIffEffective(rows, vs, n - 1, id);
  }

  /** Ids are indexed in the order of the versions. */
  lemma {:induction false} IndexedInOrder(rows: Table, vs: seq<Version>, n: nat, i: nat, j: nat)
    requires n <= |vs| && i < j < |Ingested(rows, vs, n).indexed|
    ensures First(vs, n, Ingested(rows, vs, n).indexed[i]) < First(vs, n, Ingested(rows, vs, n).indexed[j]) < n
  {
    var before, after := Ingested(rows, vs, n - 1).indexed, Ingested(rows, vs, n).indexed;
    IndexedNext(rows, vs, n);
    IndexedIsEarlier(rows, vs, n, before[i]);
    if j < |before| {
      IndexedInOrder(rows, vs, n - 1, i, j);
      IndexedIsEarlier(rows, vs, n, before[j]);
    }
  }

  // ---------- Warnings ----------

  /** What version j is warned about. */
  function WarningsOf(vs: seq<Version>, j: nat): seq<Warning>
    requires j < |vs|
  {
    if First(vs, j, vs[j].id) < j then [Duplicate(vs[j].id)]
    else if !vs[j].accepted then [TooShort(vs[j].id)]
    else vs[j].warnings
  }

  lemma {:induction false} WarningsNext(rows: Table, vs: seq<Version>, n: nat)
    requires 1 <= n <= |vs| && Running(vs, n - 1)
    ensures Ingested(rows, vs, n).warnings == Ingested(rows, vs, n - 1).warnings + WarningsOf(vs, n - 1)
  {
    RaisedIffNotRunning(rows, vs, n - 1);
  }

  lemma {:induction false} WarnedIff(rows: Table, vs: seq<Version>, n: nat, w: Warning)
    requires n <= |vs| && Running(vs, n)
    ensures w in Ingested(rows, vs, n).warnings <==> exists j :: 0 <= j < n && w in WarningsOf(vs, j)
  {
    if n > 0 {
      var m := n - 1;
      WarnedIff(rows, vs, m, w);
      WarningsNext(rows, vs, n);
      if j :| 0 <= j < n && w in WarningsOf(vs, j) {
        assert j == m || j < m;
      }
    }
  }

  // ---------- Which rows are held ----------

  predicate AllSound(vs: seq<Version>) {
    forall i :: 0 <= i < |vs| ==> Sound(vs[i])
  }

  /** No version from..n that takes effect has a row with this id. */
  predicate Survives(vs: seq<Version>, from: nat, n: nat, id: string)
    requires n <= |vs|
  {
    forall j :: from <= j < n && Effective(vs, j) ==> NotAmong(vs[j].rows, id)
  }

  /** Which rows are held after n versions, said of the versions and the first table alone. Of a source with a
      version that takes effect: the rows of this version whose ids no later one takes. Of any other source:
      the rows that were held and whose ids no version takes. */
  predicate Held(rows: Table, vs: seq<Version>, n: nat, r: Row)
    requires n <= |vs|
  {
    var f := First(vs, n, r.source);
    if f < n && Effective(vs, f) then r in vs[f].rows && Survives(vs, f + 1, n, r.id)
    else Holds(rows, r) && Survives(vs, 0, n, r.id)
  }

  /** One version replaces the rows of its source; a row of another source is lost exactly when one of the new
      rows takes its id. */
  lemma {:induction false} OneVersion(before: Table, v: Version, r: Row)
    requires Sound(v)
    ensures Holds(UpsertAll(WithoutSource(before, v.id), v.rows), r)
            <==> if r.source == v.id then r in v.rows else Holds(before, r) && NotAmong(v.rows, r.id)
  {
    ReplacedIsExact(before, v.id, v.rows, r);
  }

  lemma {:induction false} HoldsNext(rows: Table, vs: seq<Version>, n: nat, r: Row)
    requires 1 <= n <= |vs| && Sound(vs[n - 1])
    ensures var before, v := Ingested(rows, vs, n - 1).rows, vs[n - 1];
            Holds(Ingested(rows, vs, n).rows, r)
            <==> if !Effective(vs, n - 1) then Holds(before, r)
                 else if r.source == v.id then r in v.rows
                 else Holds(before, r) && NotAmong(v.rows, r.id)
  {
    RowsNext(rows, vs, n);
    OneVersion(Ingested(rows, vs, n - 1).rows, vs[n - 1], r);
  }

  lemma {:induction false} SurvivesNext(vs: seq<Version>, from: nat, n: nat, id: string)
    requires 1 <= n <= |vs| && from < n
    ensures Survives(vs, from, n, id)
            <==> Survives(vs, from, n - 1, id) && (Effective(vs, n - 1) ==> NotAmong(vs[n - 1].rows, id))
  {
  }

  lemma {:induction false} HeldNext(rows: Table, vs: seq<Version>, n: nat, r: Row)
    requires 1 <= n <= |vs|
    ensures var v := vs[n - 1];
            Held(rows, vs, n, r)
            <==> if !Effective(vs, n - 1) then Held(rows, vs, n - 1, r)
                 else if r.source == v.id then r in v.rows
                 else Held(rows, vs, n - 1, r) && NotAmong(v.rows, r.id)
  {
    var f, g := First(vs, n, r.source), First(vs, n - 1, r.source);
    SurvivesNext(vs, 0, n, r.id);
    if g < n - 1 {
      SurvivesNext(vs, g + 1, n, r.id);
    }
  }

  /** Main result: exactly these rows are held, whatever ids the sources have. */
  lemma {:induction false} HoldsExactly(rows: Table, vs: seq<Version>, n: nat, r: Row)
    requires n <= |vs| && AllSound(vs)
    ensures Holds(Ingested(rows, vs, n).rows, r) <==> Held(rows, vs, n, r)
  {
    if n > 0 {
      HoldsExactly(rows, vs, n - 1, r);
      HoldsNext(rows, vs, n, r);
      HeldNext(rows, vs, n, r);
    }
  }

  // ---------- Sources that do not clash ----------

  ghost predicate ApartFromAll(vs: seq<Version>, source: string) {
    forall i :: 0 <= i < |vs| ==> Apart(source, vs[i].id)
  }

  /** A row of a source that is apart from a version's never shares an id with a row of the version. */
  lemma {:induction false} ApartNotAmong(v: Version, r: Row)
    requires Sound(v) && Proper(r) && r.source != v.id && Apart(r.source, v.id)
    ensures NotAmong(v.rows, r.id)
  {
    forall i | 0 <= i < |v.rows| ensures v.rows[i].id != r.id {
      var q := v.rows[i];
      SameIdIff(q.source, q.part, q.rank, q.template, r.source, r.part, r.rank, r.template);
      PrefixInjective(r.source, r.part, q.source, q.part);
    }
  }

  lemma {:induction false} ApartSurvives(vs: seq<Version>, from: nat, n: nat, r: Row)
    requires n <= |vs| && AllSound(vs) && Proper(r) && ApartFromAll(vs, r.source)
    requires forall j :: from <= j < n && Effective(vs, j) ==> vs[j].id != r.source
    ensures Survives(vs, from, n, r.id)
  {
    forall j | from <= j < n && Effective(vs, j) ensures NotAmong(vs[j].rows, r.id) {
      ApartNotAmong(vs[j], r);
    }
  }

  /** Without clashes a source holds its version that took effect, or what it held. */
  lemma {:induction false} HeldWithoutClash(rows: Table, vs: seq<Version>, n: nat, r: Row)
    requires n <= |vs| && AllSound(vs) && Proper(r) && ApartFromAll(vs, r.source)
    ensures var f := First(vs, n, r.source);
            Held(rows, vs, n, r) <==> if f < n && Effective(vs, f) then r in vs[f].rows else Holds(rows, r)
  {
    var f := First(vs, n, r.source);
    if f < n && Effective(vs, f) {
      forall j | f + 1 <= j < n && Effective(vs, j) ensures vs[j].id != r.source {
        assert First(vs, j, vs[j].id) == j;
      }
      ApartSurvives(vs, f + 1, n, r);
    } else {
      forall j | 0 <= j < n && Effective(vs, j) ensures vs[j].id != r.source {
        assert First(vs, j, vs[j].id) == j;
      }
      ApartSurvives(vs, 0, n, r);
    }
  }

  // ---------- Ingesting again ----------

  lemma {:induction false} KeepsWellFormed(rows: Table, vs: seq<Version>, n: nat)
    requires n <= |vs| && WellFormed(rows) && AllSound(vs)
    ensures WellFormed(Ingested(rows, vs, n).rows)
  {
    if n > 0 {
      KeepsWellFormed(rows, vs, n - 1);
      RowsNext(rows, vs, n);
      UpsertAllWellFormed(WithoutSource(Ingested(rows, vs, n - 1).rows, vs[n - 1].id), vs[n - 1].rows);
    }
  }

  /** A second identical ingest leaves the table exactly as it is, whatever ids the sources have, and also when
      both raise at the same place. */
  lemma {:induction false} AgainChangesNothing(rows: Table, vs: seq<Version>)
    requires WellFormed(rows) && AllSound(vs)
    ensures var once := Ingested(rows, vs, |vs|).rows;
            Ingested(once, vs, |vs|).rows == once
  {
    var once := Ingested(rows, vs, |vs|).rows;
    var twice := Ingested(once, vs, |vs|).rows;
    KeepsWellFormed(rows, vs, |vs|);
    KeepsWellFormed(once, vs, |vs|);
    forall r: Row ensures Holds(twice, r) <==> Holds(once, r) {
      HoldsExactly(once, vs, |vs|, r);
      HoldsExactly(rows, vs, |vs|, r);
    }
    SameRowsSameTable(twice, once);
  }
}
