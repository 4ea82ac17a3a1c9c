/** What the rows of a document say: they store exactly its pieces and those of its attachments, each once and in
    order, with the embedding of the piece's own text. */
module RowContents {
  import opened ChunkIds
  import opened ChunkStore
  import opened DocumentRows
  import opened Wrappers

  /** Row r stores piece i of a part. */
  predicate Stores(env: Env, doc: Document, part: Part, lineage: Lineage, pieces: seq<Piece>, i: nat, r: Row) {
    && i < |pieces|
    && r.id == ChunkId(doc.id, part, i + 1, pieces[i].template)
    && r.source == doc.id && r.part == part && r.rank == i + 1 && r.template == pieces[i].template
    && r.text == pieces[i].text && env.embed(part, i + 1, pieces[i].text) == Some(r.embedding)
    && r.lineage == lineage && r.metadata == doc.metadata
  }

  predicate StoresBody(env: Env, doc: Document, i: nat, r: Row) {
    Stores(env, doc, Body, OfDocument(doc.id), env.chunk(doc.text, env.template), i, r)
  }

  /** The pieces of an attachment: none when its text is too short. The template is that of its suffix, if there is
      one. */
  function AttachedPieces(env: Env, parsed: Parsed): (pieces: seq<Piece>)
    ensures !LongEnough(parsed.text) ==> pieces == []
    ensures LongEnough(parsed.text) && env.suffix(parsed.name) in env.templateOf ==>
              pieces == env.chunk(parsed.text, env.templateOf[env.suffix(parsed.name)])
    ensures LongEnough(parsed.text) && env.suffix(parsed.name) !in env.templateOf ==>
              pieces == env.chunk(parsed.text, env.template)
  {
    if LongEnough(parsed.text) then env.chunk(parsed.text, TemplateFor(env, parsed.name)) else []
  }

  predicate StoresAttached(env: Env, doc: Document, k: Positive, i: nat, r: Row) {
    && k <= |doc.attachments| && env.parse(k, doc.attachments[k - 1]).Some?
    && var parsed := env.parse(k, doc.attachments[k - 1]).value;
       Stores(env, doc, Attached(k), OfAttachment(doc.id, parsed.name, parsed.contentType), AttachedPieces(env, parsed), i, r)
  }

  /** Row r stores a piece of the text of the document, or of one of its first n attachments. */
  ghost predicate StoresPiece(env: Env, doc: Document, n: nat, r: Row) {
    || (exists i: nat :: StoresBody(env, doc, i, r))
    || (exists k: Positive, i: nat :: k <= n && StoresAttached(env, doc, k, i, r))
  }

  /** Row a is before row b: the text comes before the attachments, and each in the order of its pieces. */
  predicate Before(a: Row, b: Row) {
    match (a.part, b.part)
    case (Body, Attached(_)) => true
    case (Attached(_), Body) => false
    case (Attached(m), Attached(n)) => m < n || (m == n && a.rank < b.rank)
    case _ => a.rank < b.rank
  }

  ghost predicate InOrder(rs: seq<Row>) {
    forall i, j :: 0 <= i < j < |rs| ==> Before(rs[i], rs[j])
  }

  /** How many pieces the text and the first n attachments have. */
  function PieceCount(env: Env, doc: Document, n: nat): nat
    requires n <= |doc.attachments|
  {
    if n == 0 then |env.chunk(doc.text, env.template)|
    else
      PieceCount(env, doc, n - 1) + match env.parse(n, doc.attachments[n - 1])
        case Some(parsed) => |AttachedPieces(env, parsed)|
        case None => 0
  }

  // ---------- When a text is long enough ----------

  /** A text is long enough when two of its characters that are not white space are at least 19 places apart. */
  lemma LongEnoughIff(text: string)
    ensures LongEnough(text) <==> exists i: nat, j: nat :: i + 19 <= j < |text| && !Text.IsSpace(text[i]) && !Text.IsSpace(text[j])
  {
    Text.StripIs(text);
    var lo: nat, hi: nat :| lo <= hi <= |text| && Text.Strip(text) == text[lo..hi]
      && (forall i :: 0 <= i < lo || hi <= i < |text| ==> Text.IsSpace(text[i]));
    if LongEnough(text) {
      assert Text.Strip(text)[0] == text[lo] && Text.Strip(text)[hi - lo - 1] == text[hi - 1];
      assert lo + 19 <= hi - 1 < |text|;
    }
  }

  // ---------- One part ----------

  /** These rows store these pieces, one by one. */
  ghost predicate AreRows(env: Env, doc: Document, part: Part, lineage: Lineage, pieces: seq<Piece>, rs: seq<Row>) {
    FirstAreRows(env, doc, part, lineage, pieces, |pieces|, rs)
  }

  lemma {:induction false} OneRowStores(env: Env, doc: Document, part: Part, lineage: Lineage, pieces: seq<Piece>, i: nat)
    requires i < |pieces| && OneRow(env, doc, part, lineage, pieces[i], i + 1).complete
    ensures var rs := OneRow(env, doc, part, lineage, pieces[i], i + 1).rows;
            |rs| == 1 && Stores(env, doc, part, lineage, pieces, i, rs[0])
  {
  }

  /** The first n pieces are in the first n rows. */
  ghost predicate FirstAreRows(env: Env, doc: Document, part: Part, lineage: Lineage, pieces: seq<Piece>, n: nat, rs: seq<Row>) {
    |rs| == n && forall i :: 0 <= i < n ==> Stores(env, doc, part, lineage, pieces, i, rs[i])
  }

  lemma {:induction false} FirstRowsStore(env: Env, doc: Document, part: Part, lineage: Lineage, pieces: seq<Piece>, n: nat)
    requires n <= |pieces| && FirstRows(env, doc, part, lineage, pieces, n).complete
    ensures FirstAreRows(env, doc, part, lineage, pieces, n, FirstRows(env, doc, part, lineage, pieces, n).rows)
  {
    if n > 0 {
      FirstRowsStore(env, doc, part, lineage, pieces, n - 1);
      OneRowStores(env, doc, part, lineage, pieces, n - 1);
      OneMoreRow(env, doc, part, lineage, pieces, n - 1, FirstRows(env, doc, part, lineage, pieces, n - 1).rows,
                 OneRow(env, doc, part, lineage, pieces[n - 1], n).rows[0]);
    }
  }

  lemma {:induction false} OneMoreRow(env: Env, doc: Document, part: Part, lineage: Lineage, pieces: seq<Piece>, n: nat,
                                      rs: seq<Row>, r: Row)
    requires FirstAreRows(env, doc, part, lineage, pieces, n, rs) && Stores(env, doc, part, lineage, pieces, n, r)
    ensures FirstAreRows(env, doc, part, lineage, pieces, n + 1, rs + [r])
  {
  }

  lemma {:induction false} StoredOnce(env: Env, doc: Document, part: Part, lineage: Lineage, pieces: seq<Piece>, rs: seq<Row>, r: Row)
    requires AreRows(env, doc, part, lineage, pieces, rs)
    ensures r in rs <==> exists i: nat :: Stores(env, doc, part, lineage, pieces, i, r)
  {
    if r in rs {
      var i :| 0 <= i < |rs| && rs[i] == r;
      assert Stores(env, doc, part, lineage, pieces, i, r);
    }
    if i: nat :| Stores(env, doc, part, lineage, pieces, i, r) {
      assert Stores(env, doc, part, lineage, pieces, i, rs[i]);
      assert r == rs[i];
    }
  }

  lemma {:induction false} BodyStores(env: Env, doc: Document)
    requires BodyRows(env, doc).complete
    ensures AreRows(env, doc, Body, OfDocument(doc.id), env.chunk(doc.text, env.template), BodyRows(env, doc).rows)
  {
    var pieces := env.chunk(doc.text, env.template);
    FirstRowsStore(env, doc, Body, OfDocument(doc.id), pieces, |pieces|);
  }

  lemma {:induction false} AttachmentStores(env: Env, doc: Document, k: Positive)
    requires k <= |doc.attachments| && AttachmentRows(env, doc, k).complete
    ensures env.parse(k, doc.attachments[k - 1]).Some?
    ensures var parsed := env.parse(k, doc.attachments[k - 1]).value;
            AreRows(env, doc, Attached(k), OfAttachment(doc.id, parsed.name, parsed.contentType), AttachedPieces(env, parsed),
                    AttachmentRows(env, doc, k).rows)
  {
    var parsed := env.parse(k, doc.attachments[k - 1]).value;
    if LongEnough(parsed.text) {
      var pieces := AttachedPieces(env, parsed);
      FirstRowsStore(env, doc, Attached(k), OfAttachment(doc.id, parsed.name, parsed.contentType), pieces, |pieces|);
    }
  }

  lemma {:induction false} BodyRowsAre(env: Env, doc: Document, r: Row)
    requires BodyRows(env, doc).complete
    ensures r in BodyRows(env, doc).rows <==> exists i: nat :: StoresBody(env, doc, i, r)
  {
    var pieces, rs := env.chunk(doc.text, env.template), BodyRows(env, doc).rows;
    BodyStores(env, doc);
    StoredOnce(env, doc, Body, OfDocument(doc.id), pieces, rs, r);
    assert forall i: nat :: StoresBody(env, doc, i, r) <==> Stores(env, doc, Body, OfDocument(doc.id), pieces, i, r);
  }

  lemma {:induction false} AttachmentRowsAre(env: Env, doc: Document, k: Positive, r: Row)
    requires k <= |doc.attachments| && AttachmentRows(env, doc, k).complete
    ensures r in AttachmentRows(env, doc, k).rows <==> exists i: nat :: StoresAttached(env, doc, k, i, r)
  {
    AttachmentStores(env, doc, k);
    var parsed := env.parse(k, doc.attachments[k - 1]).value;
    var lineage, pieces := OfAttachment(doc.id, parsed.name, parsed.contentType), AttachedPieces(env, parsed);
    StoredOnce(env, doc, Attached(k), lineage, pieces, AttachmentRows(env, doc, k).rows, r);
    assert forall i: nat :: StoresAttached(env, doc, k, i, r) <==> Stores(env, doc, Attached(k), lineage, pieces, i, r);
  }

  // ---------- All parts ----------

  lemma {:induction false} FirstPartsStore(env: Env, doc: Document, n: nat, r: Row)
    requires n <= |doc.attachments| && RowsUpTo(env, doc, n).complete
    ensures r in RowsUpTo(env, doc, n).rows <==> StoresPiece(env, doc, n, r)
  {
    if n == 0 {
      BodyRowsAre(env, doc, r);
    } else {
      FirstPartsStore(env, doc, n - 1, r);
      AttachmentRowsAre(env, doc, n, r);
      OneMorePart(env, doc, n, r);
    }
  }

  lemma {:induction false} OneMorePart(env: Env, doc: Document, n: Positive, r: Row)
    ensures StoresPiece(env, doc, n, r) <==> StoresPiece(env, doc, n - 1, r) || exists i: nat :: StoresAttached(env, doc, n, i, r)
  {
    if k: Positive, i: nat :| k <= n && StoresAttached(env, doc, k, i, r) {
      assert k == n || k <= n - 1;
    }
  }

  /** Main result: the rows of a document whose embedding and parsing raised nothing are exactly those that store a piece
      of its text, or of the text of a long enough attachment, under its place. */
  lemma {:induction false} ProducedIs(env: Env, doc: Document, r: Row)
    requires Produced(env, doc).complete
    ensures r in Produced(env, doc).rows <==> StoresPiece(env, doc, |doc.attachments|, r)
  {
    FirstPartsStore(env, doc, |doc.attachments|, r);
  }

  lemma {:induction false} PartInOrder(env: Env, doc: Document, part: Part, lineage: Lineage, pieces: seq<Piece>, rs: seq<Row>)
    requires AreRows(env, doc, part, lineage, pieces, rs)
    ensures InOrder(rs)
  {
    forall i, j | 0 <= i < j < |rs| ensures Before(rs[i], rs[j]) {
      assert Stores(env, doc, part, lineage, pieces, i, rs[i]) && Stores(env, doc, part, lineage, pieces, j, rs[j]);
    }
  }

  lemma {:induction false} AttachmentComesLast(env: Env, doc: Document, n: Positive)
    requires n <= |doc.attachments| && RowsUpTo(env, doc, n - 1).complete && AttachmentRows(env, doc, n).complete
    ensures var before, more := RowsUpTo(env, doc, n - 1).rows, AttachmentRows(env, doc, n).rows;
            && InOrder(more)
            && forall i, j :: 0 <= i < |before| && 0 <= j < |more| ==> Before(before[i], more[j])
  {
    var before, more := RowsUpTo(env, doc, n - 1).rows, AttachmentRows(env, doc, n).rows;
    var parsed := env.parse(n, doc.attachments[n - 1]).value;
    var lineage, pieces := OfAttachment(doc.id, parsed.name, parsed.contentType), AttachedPieces(env, parsed);
    ProducedDistinct(env, doc, n - 1);
    AttachmentStores(env, doc, n);
    PartInOrder(env, doc, Attached(n), lineage, pieces, more);
    forall i, j | 0 <= i < |before| && 0 <= j < |more| ensures Before(before[i], more[j]) {
      assert FromFirst(before[i], doc.id, n - 1) && Stores(env, doc, Attached(n), lineage, pieces, j, more[j]);
    }
  }

  /** They come in the order of the parts and of the pieces, and there are as many as pieces. */
  lemma {:induction false} ProducedInOrder(env: Env, doc: Document, n: nat)
    requires n <= |doc.attachments| && RowsUpTo(env, doc, n).complete
    ensures InOrder(RowsUpTo(env, doc, n).rows) && |RowsUpTo(env, doc, n).rows| == PieceCount(env, doc, n)
  {
    if n == 0 {
      BodyStores(env, doc);
      PartInOrder(env, doc, Body, OfDocument(doc.id), env.chunk(doc.text, env.template), BodyRows(env, doc).rows);
    } else {
      ProducedInOrder(env, doc, n - 1);
      AttachmentStores(env, doc, n);
      AttachmentComesLast(env, doc, n);
      JoinedInOrder(RowsUpTo(env, doc, n - 1).rows, AttachmentRows(env, doc, n).rows);
    }
  }

  lemma {:induction false} JoinedInOrder(a: seq<Row>, b: seq<Row>)
    requires InOrder(a) && InOrder(b)
    requires forall i, j :: 0 <= i < |a| && 0 <= j < |b| ==> Before(a[i], b[j])
    ensures InOrder(a + b)
  {
    forall i, j | 0 <= i < j < |a + b| ensures Before((a + b)[i], (a + b)[j]) {
      if i < |a| <= j {
        assert Before(a[i], b[j - |a|]);
      } else if |a| <= i {
        assert Before(b[i - |a|], b[j - |a|]);
      }
    }
  }

  // ---------- Warnings ----------

  /** The k-th attachment is left out. */
  predicate IsTooShort(env: Env, doc: Document, k: Positive) {
    && k <= |doc.attachments|
    && var parsed := env.parse(k, doc.attachments[k - 1]); parsed.Some? && !LongEnough(parsed.value.text)
  }

  lemma {:induction false} BodyWarnsNothing(env: Env, doc: Document)
    ensures BodyRows(env, doc).warnings == []
  {
    var pieces := env.chunk(doc.text, env.template);
    FirstRowsAt(env, doc, Body, OfDocument(doc.id), pieces, |pieces|);
  }

  lemma {:induction false} AttachmentWarns(env: Env, doc: Document, k: Positive)
    requires k <= |doc.attachments|
    ensures AttachmentRows(env, doc, k).warnings
            == if IsTooShort(env, doc, k) then [AttachmentTooShort(doc.id, doc.attachments[k - 1].name)] else []
  {
    var parsed := env.parse(k, doc.attachments[k - 1]);
    if parsed.Some? && LongEnough(parsed.value.text) {
      var pieces := env.chunk(parsed.value.text, TemplateFor(env, parsed.value.name));
      FirstRowsAt(env, doc, Attached(k), OfAttachment(doc.id, parsed.value.name, parsed.value.contentType), pieces, |pieces|);
    }
  }

  /** The warning about the k-th attachment, when it is left out. */
  predicate WarnsOf(env: Env, doc: Document, k: Positive, w: Warning) {
    IsTooShort(env, doc, k) && w == AttachmentTooShort(doc.id, doc.attachments[k - 1].name)
  }

  lemma {:induction false} ThenWarns(a: Attempt, b: Attempt, w: Warning)
    requires Then(a, b).complete
    ensures a.complete && (w in Then(a, b).warnings <==> w in a.warnings || w in b.warnings)
  {
  }

  lemma {:induction false} AttachmentWarnsOf(env: Env, doc: Document, k: Positive, w: Warning)
    requires k <= |doc.attachments|
    ensures w in AttachmentRows(env, doc, k).warnings <==> WarnsOf(env, doc, k, w)
  {
    AttachmentWarns(env, doc, k);
  }

  /** Exactly the attachments that are too short are warned about. */
  lemma {:induction false} ProducedWarns(env: Env, doc: Document, n: nat, w: Warning)
    requires n <= |doc.attachments| && RowsUpTo(env, doc, n).complete
    ensures w in RowsUpTo(env, doc, n).warnings <==> exists k: Positive :: k <= n && WarnsOf(env, doc, k, w)
  {
    if n == 0 {
      BodyWarnsNothing(env, doc);
    } else {
      ThenWarns(RowsUpTo(env, doc, n - 1), AttachmentRows(env, doc, n), w);
      ProducedWarns(env, doc, n - 1, w);
      AttachmentWarnsOf(env, doc, n, w);
      OneMoreWarning(env, doc, n, w);
    }
  }

  lemma {:induction false} OneMoreWarning(env: Env, doc: Document, n: Positive, w: Warning)
    ensures (exists k: Positive :: k <= n && WarnsOf(env, doc, k, w))
            <==> (exists k: Positive :: k <= n - 1 && WarnsOf(env, doc, k, w)) || WarnsOf(env, doc, n, w)
  {
    if k: Positive :| k <= n && WarnsOf(env, doc, k, w) {
      assert k == n || k <= n - 1;
    }
  }
}
