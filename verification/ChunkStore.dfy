/** The chunk store: a table of chunks by id, updated in place. */
module ChunkStore {
  import opened ChunkIds

  type Embedding = seq<real>

  datatype Row = Row(id: string, source: string, part: Part, rank: nat, template: Template, text: string,
                     lineage: Lineage, embedding: Embedding, metadata: map<string, string>)

  /** The id of a stored chunk is made of its source, part, rank and template. */
  predicate Proper(r: Row) {
    r.id == ChunkId(r.source, r.part, r.rank, r.template)
  }

  datatype Lineage = OfDocument(parent: string) | OfAttachment(parent: string, name: string, contentType: string)

  type Table = map<string, Row>

  predicate WellFormed(rows: Table) {
    forall id :: id in rows ==> rows[id].id == id && Proper(rows[id])
  }

  predicate Holds(rows: Table, r: Row) {
    r.id in rows && rows[r.id] == r
  }

  function Upserted(rows: Table, r: Row): Table {
    rows[r.id := r]
  }

  function UpsertAll(rows: Table, rs: seq<Row>): Table {
    if rs == [] then rows
    else
      var n := |rs| - 1;
      Upserted(UpsertAll(rows, rs[..n]), rs[n])
  }

  function WithoutSource(rows: Table, source: string): Table {
    map id | id in rows && rows[id].source != source :: rows[id]
  }

  predicate IdsDistinct(rs: seq<Row>) {
    forall i, j :: 0 <= i < j < |rs| ==> rs[i].id != rs[j].id
  }

  predicate NotAmong(rs: seq<Row>, id: string) {
    forall i :: 0 <= i < |rs| ==> rs[i].id != id
  }

  lemma {:induction false} UpsertAllElsewhere(rows: Table, rs: seq<Row>, id: string)
    requires NotAmong(rs, id)
    ensures id in UpsertAll(rows, rs) <==> id in rows
    ensures id in rows ==> UpsertAll(rows, rs)[id] == rows[id]
  {
    if rs != [] {
      UpsertAllElsewhere(rows, rs[..|rs| - 1], id);
    }
  }

  lemma LastUpsert(rows: Table, r: Row, last: Row)
    requires r == last || (Holds(rows, r) && r.id != last.id)
    ensures Holds(Upserted(rows, last), r)
  {
  }

  lemma {:induction false} UpsertAllWrites(rows: Table, rs: seq<Row>, k: nat)
    requires IdsDistinct(rs) && k < |rs|
    ensures Holds(UpsertAll(rows, rs), rs[k])
  {
    var n := |rs| - 1;
    var before := UpsertAll(rows, rs[..n]);
    if k < n {
      assert rs[..n][k] == rs[k];
      UpsertAllWrites(rows, rs[..n], k);
    }
    LastUpsert(before, rs[k], rs[n]);
  }

  lemma {:induction false} UpsertAllWellFormed(rows: Table, rs: seq<Row>)
    requires WellFormed(rows) && forall i :: 0 <= i < |rs| ==> Proper(rs[i])
    ensures WellFormed(UpsertAll(rows, rs))
  {
    if rs != [] {
      UpsertAllWellFormed(rows, rs[..|rs| - 1]);
    }
  }

  /** Replacing the rows of a source. A row of this source is held afterwards exactly when it is one of the
      new rows; a row of another source exactly when it was held and no new row takes its id. */
  lemma {:induction false} ReplacedIsExact(rows: Table, source: string, rs: seq<Row>, r: Row)
    requires IdsDistinct(rs) && forall i :: 0 <= i < |rs| ==> rs[i].source == source
    ensures Holds(UpsertAll(WithoutSource(rows, source), rs), r)
            <==> if r.source == source then r in rs else Holds(rows, r) && NotAmong(rs, r.id)
  {
    var kept := WithoutSource(rows, source);
    if NotAmong(rs, r.id) {
      UpsertAllElsewhere(kept, rs, r.id);
    } else {
      var k :| 0 <= k < |rs| && rs[k].id == r.id;
      UpsertAllWrites(kept, rs, k);
    }
  }

  /** Two well-formed tables that hold the same rows are equal. */
  lemma SameRowsSameTable(a: Table, b: Table)
    requires WellFormed(a) && WellFormed(b)
    requires forall r :: Holds(a, r) <==> Holds(b, r)
    ensures a == b
  {
    forall id | id in a ensures id in b && a[id] == b[id] {
      assert Holds(a, a[id]);
    }
    forall id | id in b ensures id in a {
      assert Holds(b, b[id]);
    }
  }

  class SQLiteChunkStore {
    var rows: Table

    constructor ()
      ensures rows == map[]
    {
      rows := map[];
    }

    method Upsert(r: Row)
      modifies this
      ensures rows == Upserted(old(rows), r)
    {
      rows := rows[r.id := r];
    }

    method DeleteBySource(source: string)
      modifies this
      ensures rows == WithoutSource(old(rows), source)
    {
      rows := map id | id in rows && rows[id].source != source :: rows[id];
    }

    /** Every row once, in no particular order. */
    method All() returns (all: seq<Row>)
      requires WellFormed(rows)
      ensures |all| == |rows| && IdsDistinct(all)
      ensures forall i :: 0 <= i < |all| ==> Holds(rows, all[i])
    {
      all := [];
      var left := rows.Keys;
      while left != {}
        invariant left <= rows.Keys && |all| + |left| == |rows.Keys|
        invariant IdsDistinct(all)
        invariant forall i :: 0 <= i < |all| ==> Holds(rows, all[i]) && all[i].id !in left
        decreases |left|
      {
        var id :| id in left;
        all, left := all + [rows[id]], left - {id};
      }
    }
  }
}
