/** The ingest stage: a batch of documents replaces, source by source, what the chunk store holds. */
module IngestStage {
  import opened ChunkIds
  import opened ChunkStore
  import opened DocumentRows
  import opened Replacement
  import opened RowContents
  import opened Wrappers
  import Chunker
  import Markdown

  /** The rows that `docs` leave of a table, the ids that are indexed, the warnings, and whether it raises. */
  function Outcome(envs: Services, rows: Table, docs: seq<Document>): State {
    Ingested(rows, Versions(envs, docs), |docs|)
  }

  lemma {:induction false} AllVersionsSound(envs: Services, docs: seq<Document>)
    ensures AllSound(Versions(envs, docs))
  {
    forall i | 0 <= i < |docs| ensures Sound(Versions(envs, docs)[i]) {
      VersionsSound(envs, docs, i);
    }
  }

  /** After an ingest the store holds exactly these rows, whatever ids documents and sources have, and also
      when something raised. */
  lemma {:induction false} StoreHoldsExactly(envs: Services, rows: Table, docs: seq<Document>, r: Row)
    ensures Holds(Outcome(envs, rows, docs).rows, r) <==> Held(rows, Versions(envs, docs), |docs|, r)
  {
    AllVersionsSound(envs, docs);
    HoldsExactly(rows, Versions(envs, docs), |docs|, r);
  }

  /** A second identical ingest leaves the store exactly as it is. */
  lemma {:induction false} SecondIngestChangesNothing(envs: Services, rows: Table, docs: seq<Document>)
    requires WellFormed(rows)
    ensures var once := Outcome(envs, rows, docs).rows;
            Outcome(envs, once, docs).rows == once
  {
    AllVersionsSound(envs, docs);
    AgainChangesNothing(rows, Versions(envs, docs));
  }

  // ---------- Documents that do not clash ----------

  ghost predicate SourcesApart(docs: seq<Document>, source: string) {
    forall i :: 0 <= i < |docs| ==> Apart(source, docs[i].id)
  }

  /** The first document from k on with this id, or the number of documents. */
  function FirstFrom(docs: seq<Document>, k: nat, id: string): (i: nat)
    requires k <= |docs|
    ensures k <= i <= |docs| && (i < |docs| ==> docs[i].id == id)
    ensures forall j :: k <= j < i ==> docs[j].id != id
    decreases |docs| - k
  {
    if k == |docs| || docs[k].id == id then k else FirstFrom(docs, k + 1, id)
  }

  /** The first document with this id, or the number of documents. */
  function FirstWith(docs: seq<Document>, id: string): nat {
    FirstFrom(docs, 0, id)
  }

  /** The first document with this id is there and is long enough. */
  predicate Takes(docs: seq<Document>, id: string) {
    FirstWith(docs, id) < |docs| && LongEnough(docs[FirstWith(docs, id)].text)
  }

  lemma {:induction false} FirstIsFirst(envs: Services, docs: seq<Document>, id: string)
    ensures var vs, f := Versions(envs, docs), FirstWith(docs, id);
            First(vs, |vs|, id) == f && (f < |vs| ==> First(vs, f, id) == f && (Taken(vs, f) <==> Takes(docs, id)))
  {
    var vs, f := Versions(envs, docs), FirstWith(docs, id);
    var i := First(vs, |vs|, id);
    assert i < |docs| ==> vs[i] == VersionOf(envs(i), docs[i]);
    assert f < |docs| ==> vs[f] == VersionOf(envs(f), docs[f]);
    forall j | 0 <= j < f ensures vs[j].id != id {
      assert vs[j] == VersionOf(envs(j), docs[j]);
    }
  }

  /** While nothing has raised, nothing had, and what took effect was complete. */
  lemma {:induction false} RunningBefore(vs: seq<Version>, n: nat, j: nat)
    requires j < n <= |vs| && Running(vs, n)
    ensures Running(vs, j) && (Taken(vs, j) ==> vs[j].complete)
    decreases n
  {
    if j < n - 1 {
      RunningBefore(vs, n - 1, j);
    }
  }

  /** Without clashes a source holds what its effective document has produced, or what it held. */
  lemma {:induction false} StoreHoldsWithoutClash(envs: Services, rows: Table, docs: seq<Document>, r: Row)
    requires Proper(r) && SourcesApart(docs, r.source)
    ensures var f := FirstWith(docs, r.source);
            Holds(Outcome(envs, rows, docs).rows, r)
            <==> if f < |docs| && Effective(Versions(envs, docs), f) then r in Produced(envs(f), docs[f]).rows
                 else Holds(rows, r)
  {
    var vs, f := Versions(envs, docs), FirstWith(docs, r.source);
    AllVersionsSound(envs, docs);
    StoreHoldsExactly(envs, rows, docs, r);
    HeldWithoutClash(rows, vs, |vs|, r);
    FirstIsFirst(envs, docs, r.source);
    assert f < |vs| ==> vs[f] == VersionOf(envs(f), docs[f]);
  }

  /** After an ingest that raised nothing the store holds exactly the current version of each document: of each
      source whose first document is long enough exactly the rows which that document has just produced, and
      of every other source exactly the rows that it held before. The row's source must not clash with the
      documents'; with a clash, StoreHoldsExactly says what is held. */
  lemma {:induction false} StoreHoldsCurrentVersions(envs: Services, rows: Table, docs: seq<Document>, r: Row)
    requires Proper(r) && SourcesApart(docs, r.source) && !Outcome(envs, rows, docs).raised
    ensures Holds(Outcome(envs, rows, docs).rows, r)
            <==> if Takes(docs, r.source) then r in Produced(envs(FirstWith(docs, r.source)), docs[FirstWith(docs, r.source)]).rows
                 else Holds(rows, r)
  {
    var vs, f := Versions(envs, docs), FirstWith(docs, r.source);
    StoreHoldsWithoutClash(envs, rows, docs, r);
    FirstIsFirst(envs, docs, r.source);
    RaisedIffNotRunning(rows, vs, |vs|);
    if f < |vs| {
      RunningBefore(vs, |vs|, f);
    }
  }

  /** When nothing raised, the ids that are reported as indexed are exactly these sources: a later document
      with the same id never makes up for a short first one. */
  lemma {:induction false} IndexedIffTaken(envs: Services, rows: Table, docs: seq<Document>, id: string)
    requires !Outcome(envs, rows, docs).raised
    ensures id in Outcome(envs, rows, docs).indexed <==> Takes(docs, id)
  {
    var vs, f := Versions(envs, docs), FirstWith(docs, id);
    FirstIsFirst(envs, docs, id);
    IndexedIffEffective(rows, vs, |vs|, id);
    RaisedIffNotRunning(rows, vs, |vs|);
    if f < |vs| {
      RunningBefore(vs, |vs|, f);
    }
  }

  lemma {:induction false} TakenIsComplete(envs: Services, rows: Table, docs: seq<Document>, i: nat)
    requires i < |docs| && FirstWith(docs, docs[i].id) == i && LongEnough(docs[i].text)
    requires !Outcome(envs, rows, docs).raised
    ensures Produced(envs(i), docs[i]).complete
  {
    var vs := Versions(envs, docs);
    FirstIsFirst(envs, docs, docs[i].id);
    RaisedIffNotRunning(rows, vs, |vs|);
    RunningBefore(vs, |vs|, i);
    assert vs[i] == VersionOf(envs(i), docs[i]);
  }

  /** In terms of what is stored: of each source whose first document is long enough the store holds exactly the rows
      that store a piece of this document, with the embedding that the piece got. */
  lemma {:induction false} StoreHoldsThePieces(envs: Services, rows: Table, docs: seq<Document>, r: Row)
    requires Proper(r) && SourcesApart(docs, r.source) && !Outcome(envs, rows, docs).raised
    ensures Holds(Outcome(envs, rows, docs).rows, r)
            <==> if Takes(docs, r.source) then
                   var f := FirstWith(docs, r.source); StoresPiece(envs(f), docs[f], |docs[f].attachments|, r)
                 else Holds(rows, r)
  {
    StoreHoldsCurrentVersions(envs, rows, docs, r);
    if Takes(docs, r.source) {
      var f := FirstWith(docs, r.source);
      TakenIsComplete(envs, rows, docs, f);
      ProducedIs(envs(f), docs[f], r);
    }
  }

  /** The ids that are indexed come in the order of their documents. */
  lemma {:induction false} IndexedInDocumentOrder(envs: Services, rows: Table, docs: seq<Document>, i: nat, j: nat)
    requires i < j < |Outcome(envs, rows, docs).indexed|
    ensures var indexed := Outcome(envs, rows, docs).indexed;
            FirstWith(docs, indexed[i]) < FirstWith(docs, indexed[j]) < |docs|
  {
    var vs, indexed := Versions(envs, docs), Outcome(envs, rows, docs).indexed;
    IndexedInOrder(rows, vs, |vs|, i, j);
    FirstIsFirst(envs, docs, indexed[i]);
    FirstIsFirst(envs, docs, indexed[j]);
  }

  // ---------- What is warned about ----------

  /** Two documents have this id; or the first is too short; or it has such an attachment. */
  ghost predicate Deserved(envs: Services, docs: seq<Document>, w: Warning) {
    match w
    case Duplicate(id) => exists i, j :: 0 <= i < j < |docs| && docs[i].id == id && docs[j].id == id
    case TooShort(id) => FirstWith(docs, id) < |docs| && !LongEnough(docs[FirstWith(docs, id)].text)
    case AttachmentTooShort(id, name) =>
      Takes(docs, id)
      && var f := FirstWith(docs, id);
         exists k: Positive :: IsTooShort(envs(f), docs[f], k) && docs[f].attachments[k - 1].name == name
  }

  /** When nothing raised, an ingest warns of exactly these. */
  lemma {:induction false} WarnsIffDeserved(envs: Services, rows: Table, docs: seq<Document>, w: Warning)
    requires !Outcome(envs, rows, docs).raised
    ensures w in Outcome(envs, rows, docs).warnings <==> Deserved(envs, docs, w)
  {
    var vs := Versions(envs, docs);
    RaisedIffNotRunning(rows, vs, |vs|);
    WarnedIff(rows, vs, |vs|, w);
    if j :| 0 <= j < |vs| && w in WarningsOf(vs, j) {
      DeservedBy(envs, rows, docs, w, j);
    }
    if Deserved(envs, docs, w) {
      var j := DeservedIsGiven(envs, rows, docs, w);
    }
  }

  lemma {:induction false} FirstBefore(envs: Services, docs: seq<Document>, j: nat)
    requires j < |docs|
    ensures var vs := Versions(envs, docs);
            First(vs, j, vs[j].id) == FirstWith(docs, docs[j].id) <= j && vs[j] == VersionOf(envs(j), docs[j])
  {
    var vs, f := Versions(envs, docs), FirstWith(docs, docs[j].id);
    assert vs[j] == VersionOf(envs(j), docs[j]);
    FirstIsFirst(envs, docs, docs[j].id);
    var i := First(vs, j, vs[j].id);
    assert i < j ==> vs[i] == VersionOf(envs(i), docs[i]);
    assert f < |docs| ==> vs[f] == VersionOf(envs(f), docs[f]);
  }

  lemma {:induction false} DeservedBy(envs: Services, rows: Table, docs: seq<Document>, w: Warning, j: nat)
    requires !Outcome(envs, rows, docs).raised && j < |docs| && w in WarningsOf(Versions(envs, docs), j)
    ensures Deserved(envs, docs, w)
  {
    var f := FirstWith(docs, docs[j].id);
    FirstBefore(envs, docs, j);
    if f == j && LongEnough(docs[j].text) {
      TakenIsComplete(envs, rows, docs, j);
      ProducedWarns(envs(j), docs[j], |docs[j].attachments|, w);
    }
  }

  lemma {:induction false} DeservedIsGiven(envs: Services, rows: Table, docs: seq<Document>, w: Warning) returns (j: nat)
    requires !Outcome(envs, rows, docs).raised && Deserved(envs, docs, w)
    ensures j < |docs| && w in WarningsOf(Versions(envs, docs), j)
  {
    match w
    case Duplicate(id) => j := RepeatedIsWarned(envs, docs, w);
    case TooShort(id) =>
      j := FirstWith(docs, id);
      FirstBefore(envs, docs, j);
    case AttachmentTooShort(id, name) =>
      j := FirstWith(docs, id);
      ShortAttachmentIsWarned(envs, rows, docs, j, w);
  }

  lemma {:induction false} RepeatedIsWarned(envs: Services, docs: seq<Document>, w: Warning) returns (j: nat)
    requires w.Duplicate? && Deserved(envs, docs, w)
    ensures j < |docs| && w in WarningsOf(Versions(envs, docs), j)
  {
    var i, k :| 0 <= i < k < |docs| && docs[i].id == w.id && docs[k].id == w.id;
    j := k;
    FirstBefore(envs, docs, j);
  }

  lemma {:induction false} ShortAttachmentIsWarned(envs: Services, rows: Table, docs: seq<Document>, j: nat, w: Warning)
    requires !Outcome(envs, rows, docs).raised && w.AttachmentTooShort? && Deserved(envs, docs, w)
    requires j == FirstWith(docs, w.id)
    ensures w in WarningsOf(Versions(envs, docs), j)
  {
    FirstBefore(envs, docs, j);
    TakenIsComplete(envs, rows, docs, j);
    ProducedWarns(envs(j), docs[j], |docs[j].attachments|, w);
    var k: Positive :| IsTooShort(envs(j), docs[j], k) && docs[j].attachments[k - 1].name == w.name;
    assert WarnsOf(envs(j), docs[j], k, w);
  }

  // ---------- What a raise leaves ----------

  /** The ingest raises in document m: it is the first with its id, long enough, nothing raised before it, and
      the embedder or the parser raises within it. */
  predicate RaisesIn(envs: Services, docs: seq<Document>, m: nat) {
    m < |docs| && Effective(Versions(envs, docs), m) && !Produced(envs(m), docs[m]).complete
  }

  lemma {:induction false} NotRunningAfter(vs: seq<Version>, m: nat, n: nat)
    requires m < n <= |vs| && Effective(vs, m) && !vs[m].complete
    ensures !Running(vs, n)
  {
    if Running(vs, n) {
      RunningBefore(vs, n, m);
      assert false;
    }
  }

  /** When version m is the one that raises, those before it take effect to their end, those after it not at all. */
  lemma {:induction false} EffectiveUpTo(vs: seq<Version>, m: nat, f: nat)
    requires m < |vs| && Effective(vs, m) && !vs[m].complete
    requires f < |vs| && First(vs, f, vs[f].id) == f
    ensures Effective(vs, f) <==> f <= m && vs[f].accepted
    ensures f < m && vs[f].accepted ==> vs[f].complete
  {
    if f < m {
      RunningBefore(vs, m, f);
    } else if m < f {
      NotRunningAfter(vs, m, f);
    }
  }

  /** What is held after an ingest that raises in document m, said of what was produced. */
  lemma {:induction false} HeldAfterRaise(envs: Services, rows: Table, docs: seq<Document>, m: nat, r: Row)
    requires RaisesIn(envs, docs, m) && Proper(r) && SourcesApart(docs, r.source)
    ensures var f := FirstWith(docs, r.source);
            && (f < m && LongEnough(docs[f].text) ==> Produced(envs(f), docs[f]).complete)
            && (Holds(Outcome(envs, rows, docs).rows, r)
                <==> if f <= m && LongEnough(docs[f].text) then r in Produced(envs(f), docs[f]).rows else Holds(rows, r))
  {
    var vs, f := Versions(envs, docs), FirstWith(docs, r.source);
    StoreHoldsWithoutClash(envs, rows, docs, r);
    FirstIsFirst(envs, docs, r.source);
    if f < |vs| {
      assert vs[f] == VersionOf(envs(f), docs[f]);
      EffectiveUpTo(vs, m, f);
    }
  }

  /** An ingest that raises in document m leaves the documents before it in their current versions, an initial part
      of the rows of document m, and everything else untouched. Here `full` are services that agree with `envs`
      wherever those answer. */
  lemma {:induction false} WhatARaiseLeaves(envs: Services, full: Services, rows: Table, docs: seq<Document>, m: nat, r: Row)
    requires RaisesIn(envs, docs, m) && Proper(r) && SourcesApart(docs, r.source)
    requires forall i: nat :: Extends(envs(i), full(i))
    ensures Outcome(envs, rows, docs).raised
    ensures Produced(envs(m), docs[m]).rows <= Produced(full(m), docs[m]).rows
    ensures var f := FirstWith(docs, r.source);
            Holds(Outcome(envs, rows, docs).rows, r)
            <==> if f == m then r in Produced(envs(m), docs[m]).rows
                 else if f < m && LongEnough(docs[f].text) then r in Produced(full(f), docs[f]).rows
                 else Holds(rows, r)
  {
    var vs, f := Versions(envs, docs), FirstWith(docs, r.source);
    HeldAfterRaise(envs, rows, docs, m, r);
    RaisedIffNotRunning(rows, vs, |vs|);
    NotRunningAfter(vs, m, |vs|);
    assert vs[m] == VersionOf(envs(m), docs[m]);
    ProducedPartOf(envs(m), full(m), docs[m], |docs[m].attachments|);
    if f < m {
      ProducedPartOf(envs(f), full(f), docs[f], |docs[f].attachments|);
    }
  }

  // ---------- A markdown document without headings ----------

  function PiecesOf(chunks: seq<Chunker.Chunk>): seq<Piece> {
    seq(|chunks|, i requires 0 <= i < |chunks| =>
      Piece(chunks[i].text, if chunks[i].template == "markdown" then Template.Markdown else Naive))
  }

  /** Document i is the first with its id, long enough, without attachments, and chunked as markdown with these
      headings. */
  ghost predicate IsMarkdown(envs: Services, docs: seq<Document>, i: nat, heads: seq<Markdown.Heading>, size: int, overlap: int) {
    && i < |docs| && FirstWith(docs, docs[i].id) == i && LongEnough(docs[i].text) && docs[i].attachments == []
    && Markdown.AreHeadings(docs[i].text, heads)
    && envs(i).chunk(docs[i].text, envs(i).template)
       == PiecesOf(Markdown.MarkdownChunks(docs[i].text, heads, size, overlap))
  }

  /** Of such a document there are rows exactly when it has headings. */
  lemma {:induction false} RowsIffHeadings(envs: Services, docs: seq<Document>, i: nat, heads: seq<Markdown.Heading>, size: int,
                                           overlap: int)
    requires IsMarkdown(envs, docs, i, heads, size, overlap) && Produced(envs(i), docs[i]).complete
    ensures Produced(envs(i), docs[i]).rows == [] <==> heads == []
  {
    var env, doc := envs(i), docs[i];
    Markdown.NoChunksIffNoHeadings(doc.text, heads, size, overlap);
    var pieces := env.chunk(doc.text, env.template);
    FirstRowsAt(env, doc, Body, OfDocument(doc.id), pieces, |pieces|);
    assert Produced(env, doc) == BodyRows(env, doc);
  }

  /** Without headings it is reported as indexed, and nothing of its source is held any more, whatever ids the other
      documents have. */
  lemma {:induction false} HeadlessDocumentVanishes(envs: Services, rows: Table, docs: seq<Document>, i: nat, size: int,
                                                    overlap: int, r: Row)
    requires IsMarkdown(envs, docs, i, [], size, overlap)
    requires !Outcome(envs, rows, docs).raised && r.source == docs[i].id
    ensures docs[i].id in Outcome(envs, rows, docs).indexed && !Holds(Outcome(envs, rows, docs).rows, r)
  {
    var vs := Versions(envs, docs);
    IndexedIffTaken(envs, rows, docs, docs[i].id);
    StoreHoldsExactly(envs, rows, docs, r);
    FirstIsFirst(envs, docs, r.source);
    RaisedIffNotRunning(rows, vs, |vs|);
    RunningBefore(vs, |vs|, i);
    assert vs[i] == VersionOf(envs(i), docs[i]);
    RowsIffHeadings(envs, docs, i, [], size, overlap);
  }

  /** And when no other id clashes, exactly then: the ingest, which reports the document as indexed in any case, leaves
      nothing of it if and only if it has no headings. */
  lemma {:induction false} VanishesIffHeadless(envs: Services, rows: Table, docs: seq<Document>, i: nat,
                                               heads: seq<Markdown.Heading>, size: int, overlap: int)
    requires IsMarkdown(envs, docs, i, heads, size, overlap) && SourcesApart(docs, docs[i].id)
    requires !Outcome(envs, rows, docs).raised
    ensures docs[i].id in Outcome(envs, rows, docs).indexed
    ensures (forall r: Row :: r.source == docs[i].id ==> !Holds(Outcome(envs, rows, docs).rows, r)) <==> heads == []
  {
    IndexedIffTaken(envs, rows, docs, docs[i].id);
    if heads == [] {
      forall r: Row | r.source == docs[i].id ensures !Holds(Outcome(envs, rows, docs).rows, r) {
        HeadlessDocumentVanishes(envs, rows, docs, i, size, overlap, r);
      }
    } else {
      TakenIsComplete(envs, rows, docs, i);
      RowsIffHeadings(envs, docs, i, heads, size, overlap);
      ProducedDistinct(envs(i), docs[i], 0);
      var r := Produced(envs(i), docs[i]).rows[0];
      assert FromFirst(r, docs[i].id, 0);
      StoreHoldsCurrentVersions(envs, rows, docs, r);
    }
  }

  // ---------- The stage itself ----------

  /** An attempt that raised stays as it is. */
  lemma {:induction false} FirstRowsStay(env: Env, doc: Document, part: Part, lineage: Lineage, pieces: seq<Piece>, k: nat, n: nat)
    requires k <= n <= |pieces| && !FirstRows(env, doc, part, lineage, pieces, k).complete
    ensures FirstRows(env, doc, part, lineage, pieces, n) == FirstRows(env, doc, part, lineage, pieces, k)
    decreases n
  {
    if k < n {
      FirstRowsStay(env, doc, part, lineage, pieces, k, n - 1);
    }
  }

  lemma {:induction false} PieceRaises(env: Env, doc: Document, part: Part, lineage: Lineage, pieces: seq<Piece>, idx: nat)
    requires idx < |pieces| && FirstRows(env, doc, part, lineage, pieces, idx).complete
    requires env.embed(part, idx + 1, pieces[idx].text).None?
    ensures FirstRows(env, doc, part, lineage, pieces, idx + 1)
            == FirstRows(env, doc, part, lineage, pieces, idx).(complete := false)
  {
    var a := FirstRows(env, doc, part, lineage, pieces, idx);
    assert a.rows + [] == a.rows && a.warnings + [] == a.warnings;
  }

  lemma {:induction false} UpsertedLast(rows: Table, rs: seq<Row>, r: Row)
    ensures UpsertAll(rows, rs + [r]) == Upserted(UpsertAll(rows, rs), r)
  {
    assert (rs + [r])[..|rs|] == rs;
  }

  /** The first idx pieces are stored, up to where the embedder raised; `rows` is the table before them. */
  ghost predicate PiecesStored(env: Env, store: SQLiteChunkStore, doc: Document, part: Part, lineage: Lineage,
                               pieces: seq<Piece>, rows: Table, idx: nat, ok: bool)
    requires idx <= |pieces|
    reads store
  {
    var a := FirstRows(env, doc, part, lineage, pieces, idx);
    ok == a.complete && store.rows == UpsertAll(rows, a.rows)
  }

  lemma {:induction false} PiecesStay(env: Env, store: SQLiteChunkStore, doc: Document, part: Part, lineage: Lineage,
                                      pieces: seq<Piece>, rows: Table, idx: nat)
    requires idx <= |pieces| && PiecesStored(env, store, doc, part, lineage, pieces, rows, idx, false)
    ensures PiecesStored(env, store, doc, part, lineage, pieces, rows, |pieces|, false)
  {
    FirstRowsStay(env, doc, part, lineage, pieces, idx, |pieces|);
  }

  /** One round of the loop over the pieces. */
  method StorePiece(env: Env, store: SQLiteChunkStore, doc: Document, part: Part, lineage: Lineage, pieces: seq<Piece>,
                    idx: nat, ghost rows: Table)
    returns (ok: bool)
    requires idx < |pieces| && PiecesStored(env, store, doc, part, lineage, pieces, rows, idx, true)
    modifies store
    ensures PiecesStored(env, store, doc, part, lineage, pieces, rows, idx + 1, ok)
  {
    var embedding := env.embed(part, idx + 1, pieces[idx].text);
    if embedding.None? {
      PieceRaises(env, doc, part, lineage, pieces, idx);
      return false;
    }
    var row := RowOf(doc, part, lineage, pieces[idx], idx + 1, embedding.value);
    UpsertedLast(rows, FirstRows(env, doc, part, lineage, pieces, idx).rows, row);
    store.Upsert(row);
    ok := true;
  }

  /** Stores the pieces of one part, up to where the embedder raises. */
  method StorePieces(env: Env, store: SQLiteChunkStore, doc: Document, part: Part, lineage: Lineage, pieces: seq<Piece>)
    returns (ok: bool)
    modifies store
    ensures PiecesStored(env, store, doc, part, lineage, pieces, old(store.rows), |pieces|, ok)
  {
    ghost var rows := store.rows;
    ok := true;
    var idx := 0;
    while idx < |pieces| && ok
      invariant 0 <= idx <= |pieces| && PiecesStored(env, store, doc, part, lineage, pieces, rows, idx, ok)
    {
      ok := StorePiece(env, store, doc, part, lineage, pieces, idx, rows);
      idx := idx + 1;
    }
    if !ok {
      PiecesStay(env, store, doc, part, lineage, pieces, rows, idx);
    }
  }

  lemma {:induction false} UpsertAllConcat(rows: Table, a: seq<Row>, b: seq<Row>)
    ensures UpsertAll(UpsertAll(rows, a), b) == UpsertAll(rows, a + b)
    decreases |b|
  {
    if b == [] {
      assert a + b == a;
    } else {
      var n := |b| - 1;
      UpsertAllConcat(rows, a, b[..n]);
      assert (a + b)[..|a| + n] == a + b[..n];
    }
  }

  /** Stores the k-th attachment if it is long enough, and warns otherwise. */
  method StoreAttachment(env: Env, store: SQLiteChunkStore, doc: Document, k: nat)
    returns (ok: bool, warnings: seq<Warning>)
    requires 1 <= k <= |doc.attachments|
    modifies store
    ensures var a := AttachmentRows(env, doc, k);
            && ok == a.complete && store.rows == UpsertAll(old(store.rows), a.rows)
            && (ok ==> warnings == a.warnings)
  {
    var parsed := env.parse(k, doc.attachments[k - 1]);
    warnings := [];
    if parsed.None? {
      return false, warnings;
    }
    if !LongEnough(parsed.value.text) {
      return true, [AttachmentTooShort(doc.id, doc.attachments[k - 1].name)];
    }
    var lineage := OfAttachment(doc.id, parsed.value.name, parsed.value.contentType);
    var pieces := env.chunk(parsed.value.text, TemplateFor(env, parsed.value.name));
    FirstRowsAt(env, doc, Attached(k), lineage, pieces, |pieces|);
    ok := StorePieces(env, store, doc, Attached(k), lineage, pieces);
  }

  lemma {:induction false} RowsUpToStays(env: Env, doc: Document, k: nat, n: nat)
    requires k <= n <= |doc.attachments| && !RowsUpTo(env, doc, k).complete
    ensures RowsUpTo(env, doc, n) == RowsUpTo(env, doc, k)
    decreases n
  {
    if k < n {
      RowsUpToStays(env, doc, k, n - 1);
    }
  }

  /** The text and k attachments have been dealt with; `rows` is the table before. */
  ghost predicate Reached(env: Env, store: SQLiteChunkStore, doc: Document, rows: Table, k: nat,
                          ok: bool, warnings: seq<Warning>)
    requires k <= |doc.attachments|
    reads store
  {
    var a := RowsUpTo(env, doc, k);
    store.rows == UpsertAll(rows, a.rows) && ok == a.complete && (ok ==> warnings == a.warnings)
  }

  lemma {:induction false} ReachedStays(env: Env, store: SQLiteChunkStore, doc: Document, rows: Table, k: nat,
                                        warnings: seq<Warning>)
    requires k <= |doc.attachments| && Reached(env, store, doc, rows, k, false, warnings)
    ensures Reached(env, store, doc, rows, |doc.attachments|, false, warnings)
  {
    RowsUpToStays(env, doc, k, |doc.attachments|);
  }

  /** One round of the loop over the attachments. */
  method AddAttachment(env: Env, store: SQLiteChunkStore, doc: Document, k: nat, ghost rows: Table,
                       warnings: seq<Warning>)
    returns (ok: bool, warnings': seq<Warning>)
    requires k < |doc.attachments| && Reached(env, store, doc, rows, k, true, warnings)
    modifies store
    ensures Reached(env, store, doc, rows, k + 1, ok, warnings')
  {
    var more;
    ok, more := StoreAttachment(env, store, doc, k + 1);
    UpsertAllConcat(rows, RowsUpTo(env, doc, k).rows, AttachmentRows(env, doc, k + 1).rows);
    warnings' := warnings + more;
  }

  /** Stores the attachments after the text, and warns about those that are too short. */
  method StoreAttachments(env: Env, store: SQLiteChunkStore, doc: Document, ghost rows: Table)
    returns (ok: bool, warnings: seq<Warning>)
    requires Reached(env, store, doc, rows, 0, true, [])
    modifies store
    ensures Reached(env, store, doc, rows, |doc.attachments|, ok, warnings)
  {
    ok, warnings := true, [];
    var k := 0;
    while k < |doc.attachments| && ok
      invariant 0 <= k <= |doc.attachments| && Reached(env, store, doc, rows, k, ok, warnings)
    {
      ok, warnings := AddAttachment(env, store, doc, k, rows, warnings);
      k := k + 1;
    }
    if !ok {
      ReachedStays(env, store, doc, rows, k, warnings);
    }
  }

  /** Replaces the rows of one document, up to where something raises. */
  method Replace(env: Env, store: SQLiteChunkStore, doc: Document) returns (ok: bool, warnings: seq<Warning>)
    modifies store
    ensures var a := Produced(env, doc);
            && ok == a.complete && (ok ==> warnings == a.warnings)
            && store.rows == UpsertAll(WithoutSource(old(store.rows), doc.id), a.rows)
  {
    store.DeleteBySource(doc.id);
    ghost var deleted := store.rows;
    var pieces := env.chunk(doc.text, env.template);
    FirstRowsAt(env, doc, Body, OfDocument(doc.id), pieces, |pieces|);
    ok := StorePieces(env, store, doc, Body, OfDocument(doc.id), pieces);
    if !ok {
      RowsUpToStays(env, doc, 0, |doc.attachments|);
      return false, [];
    }
    ok, warnings := StoreAttachments(env, store, doc, deleted);
  }

  /** One round of the loop of `ingest`: document n, when `rows` was the table before the first one. */
  method IngestDocument(envs: Services, store: SQLiteChunkStore, docs: seq<Document>, n: nat, ghost rows: Table,
                        seen: set<string>, indexed: seq<string>, warnings: seq<Warning>)
    returns (ok: bool, seen': set<string>, indexed': seq<string>, warnings': seq<Warning>)
    requires n < |docs|
    requires State(store.rows, seen, indexed, warnings, false) == Ingested(rows, Versions(envs, docs), n)
    modifies store
    ensures var s := Ingested(rows, Versions(envs, docs), n + 1);
            && store.rows == s.rows && ok == !s.raised
            && (ok ==> State(store.rows, seen', indexed', warnings', false) == s)
  {
    var doc := docs[n];
    ok, seen', indexed', warnings' := true, seen, indexed, warnings;
    if doc.id in seen {
      warnings' := warnings' + [Duplicate(doc.id)];
      return;
    }
    seen' := seen' + {doc.id};
    if !LongEnough(doc.text) {
      warnings' := warnings' + [TooShort(doc.id)];
      return;
    }
    var short;
    ok, short := Replace(envs(n), store, doc);
    warnings' := warnings' + short;
    indexed' := indexed' + [doc.id];
  }

  lemma {:induction false} RaisedStays(rows: Table, vs: seq<Version>, m: nat, n: nat)
    requires m <= n <= |vs| && Ingested(rows, vs, m).raised
    ensures Ingested(rows, vs, n) == Ingested(rows, vs, m)
    decreases n
  {
    if m < n {
      RaisedStays(rows, vs, m, n - 1);
    }
  }

  /** The loop of `ingest` over the documents; `Failure` when something raised. */
  method Ingest(envs: Services, store: SQLiteChunkStore, docs: seq<Document>)
    returns (r: Result<(seq<string>, seq<Warning>)>)
    modifies store
    ensures var s := Outcome(envs, old(store.rows), docs);
            store.rows == s.rows && r == if s.raised then Failure else Success((s.indexed, s.warnings))
  {
    ghost var rows := store.rows;
    var indexed: seq<string>, warnings: seq<Warning> := [], [];
    var seen: set<string> := {};
    var n := 0;
    while n < |docs|
      invariant 0 <= n <= |docs|
      invariant State(store.rows, seen, indexed, warnings, false) == Ingested(rows, Versions(envs, docs), n)
    {
      var ok;
      ok, seen, indexed, warnings := IngestDocument(envs, store, docs, n, rows, seen, indexed, warnings);
      n := n + 1;
      if !ok {
        RaisedStays(rows, Versions(envs, docs), n, |docs|);
        return Failure;
      }
    }
    r := Success((indexed, warnings));
  }
}
