/** What one document contributes to the chunk store: the rows of its text and of its attachments. */
module DocumentRows {
  import opened ChunkIds
  import opened ChunkStore
  import opened Wrappers
  import Text

  datatype Attachment = Attachment(name: string, content: seq<int>, contentType: string)

  datatype Document = Document(id: string, text: string, metadata: map<string, string>, attachments: seq<Attachment>)

  datatype Parsed = Parsed(name: string, contentType: string, text: string)

  datatype Piece = Piece(text: string, template: Template)

  /** The services and settings that the stage uses for one document: chunking a text by a template, embedding the
      piece of a rank of a part, parsing the k-th attachment, the suffix of a file name, the default template and
      the templates by suffix. Embedding and parsing may raise. Each of their calls answers for itself: equal texts
      at different places may have different outcomes. */
  datatype Env = Env(chunk: (string, string) -> seq<Piece>, embed: (Part, nat, string) -> Option<Embedding>,
                     parse: (Positive, Attachment) -> Option<Parsed>, suffix: string -> string,
                     template: string, templateOf: map<string, string>)

  datatype Warning = Duplicate(id: string) | TooShort(id: string) | AttachmentTooShort(id: string, name: string)

  const MIN_TEXT := 20

  predicate LongEnough(text: string) {
    |Text.Strip(text)| >= MIN_TEXT
  }

  /** What has been stored and warned about, and whether it went on to the end or something raised. */
  datatype Attempt = Attempt(rows: seq<Row>, warnings: seq<Warning>, complete: bool)

  const NOTHING := Attempt([], [], true)
  const RAISED := Attempt([], [], false)

  /** One attempt after the other, unless the first raised. */
  function Then(a: Attempt, b: Attempt): Attempt {
    if a.complete then Attempt(a.rows + b.rows, a.warnings + b.warnings, b.complete) else a
  }

  function RowOf(doc: Document, part: Part, lineage: Lineage, piece: Piece, rank: nat, embedding: Embedding): Row {
    Row(ChunkId(doc.id, part, rank, piece.template), doc.id, part, rank, piece.template, piece.text, lineage,
        embedding, doc.metadata)
  }

  function OneRow(env: Env, doc: Document, part: Part, lineage: Lineage, piece: Piece, rank: nat): Attempt {
    match env.embed(part, rank, piece.text)
    case None => RAISED
    case Some(embedding) => Attempt([RowOf(doc, part, lineage, piece, rank, embedding)], [], true)
  }

  /** The first n pieces. Ranks count from one. */
  function FirstRows(env: Env, doc: Document, part: Part, lineage: Lineage, pieces: seq<Piece>, n: nat): Attempt
    requires n <= |pieces|
  {
    if n == 0 then NOTHING
    else Then(FirstRows(env, doc, part, lineage, pieces, n - 1), OneRow(env, doc, part, lineage, pieces[n - 1], n))
  }

  function RowsOf(env: Env, doc: Document, part: Part, lineage: Lineage, pieces: seq<Piece>): Attempt {
    FirstRows(env, doc, part, lineage, pieces, |pieces|)
  }

  function BodyRows(env: Env, doc: Document): Attempt {
    RowsOf(env, doc, Body, OfDocument(doc.id), env.chunk(doc.text, env.template))
  }

  function TemplateFor(env: Env, name: string): string {
    if env.suffix(name) in env.templateOf then env.templateOf[env.suffix(name)] else env.template
  }

  function RowsOfParsed(env: Env, doc: Document, k: Positive, parsed: Parsed): Attempt {
    RowsOf(env, doc, Attached(k), OfAttachment(doc.id, parsed.name, parsed.contentType),
           env.chunk(parsed.text, TemplateFor(env, parsed.name)))
  }

  /** The k-th attachment, counted from one; it is left out with a warning when its text is too short. */
  function AttachmentRows(env: Env, doc: Document, k: nat): Attempt
    requires 1 <= k <= |doc.attachments|
  {
    match env.parse(k, doc.attachments[k - 1])
    case None => RAISED
    case Some(parsed) =>
      if LongEnough(parsed.text) then RowsOfParsed(env, doc, k, parsed)
      else Attempt([], [AttachmentTooShort(doc.id, doc.attachments[k - 1].name)], true)
  }

  /** The text and the first n attachments. */
  function RowsUpTo(env: Env, doc: Document, n: nat): Attempt
    requires n <= |doc.attachments|
  {
    if n == 0 then BodyRows(env, doc) else Then(RowsUpTo(env, doc, n - 1), AttachmentRows(env, doc, n))
  }

  function Produced(env: Env, doc: Document): Attempt {
    RowsUpTo(env, doc, |doc.attachments|)
  }

  // ---------- The ids of these rows ----------

  /** A row of the text, or of one of the first n attachments. */
  predicate FromFirst(r: Row, source: string, n: nat) {
    Proper(r) && r.source == source && (r.part.Attached? ==> r.part.number <= n)
  }

  predicate RowsAt(rs: seq<Row>, source: string, part: Part) {
    forall i :: 0 <= i < |rs| ==> Proper(rs[i]) && rs[i].source == source && rs[i].part == part && rs[i].rank == i + 1
  }

  lemma SameIdSamePlace(r: Row, q: Row)
    requires Proper(r) && Proper(q) && r.source == q.source
    ensures r.id == q.id <==> r.part == q.part && r.rank == q.rank && r.template == q.template
  {
    SameIdIff(r.source, r.part, r.rank, r.template, q.source, q.part, q.rank, q.template);
    ApartFromItself(r.source);
    PrefixInjective(r.source, r.part, q.source, q.part);
  }

  lemma PartDistinct(rs: seq<Row>, source: string, part: Part)
    requires RowsAt(rs, source, part)
    ensures IdsDistinct(rs)
  {
    forall i, j | 0 <= i < j < |rs| ensures rs[i].id != rs[j].id {
      SameIdSamePlace(rs[i], rs[j]);
    }
  }

  lemma {:induction false} Joined(rs: seq<Row>, more: seq<Row>, source: string, n: nat)
    requires n >= 1 && IdsDistinct(rs) && RowsAt(more, source, Attached(n))
    requires forall i :: 0 <= i < |rs| ==> FromFirst(rs[i], source, n - 1)
    ensures IdsDistinct(rs + more)
    ensures forall i :: 0 <= i < |rs + more| ==> FromFirst((rs + more)[i], source, n)
  {
    PartDistinct(more, source, Attached(n));
    forall i, j | 0 <= i < |rs| && 0 <= j < |more| ensures rs[i].id != more[j].id {
      assert FromFirst(rs[i], source, n - 1);
      SameIdSamePlace(rs[i], more[j]);
    }
    forall i, j | 0 <= i < j < |rs + more| ensures (rs + more)[i].id != (rs + more)[j].id {
      if j < |rs| {
      } else if i < |rs| {
        assert rs[i].id != more[j - |rs|].id;
      } else {
        assert more[i - |rs|].id != more[j - |rs|].id;
      }
    }
  }

  lemma {:induction false} FirstRowsAt(env: Env, doc: Document, part: Part, lineage: Lineage, pieces: seq<Piece>, n: nat)
    requires n <= |pieces|
    ensures var a := FirstRows(env, doc, part, lineage, pieces, n);
            && (a.complete ==> |a.rows| == n) && a.warnings == []
            && RowsAt(a.rows, doc.id, part)
  {
    if n > 0 {
      FirstRowsAt(env, doc, part, lineage, pieces, n - 1);
      var a, b := FirstRows(env, doc, part, lineage, pieces, n - 1), OneRow(env, doc, part, lineage, pieces[n - 1], n);
      assert FirstRows(env, doc, part, lineage, pieces, n) == Then(a, b);
    }
  }

  lemma {:induction false} AttachmentRowsAt(env: Env, doc: Document, k: nat)
    requires 1 <= k <= |doc.attachments|
    ensures RowsAt(AttachmentRows(env, doc, k).rows, doc.id, Attached(k))
  {
    var parsed := env.parse(k, doc.attachments[k - 1]);
    if parsed.Some? {
      var pieces := env.chunk(parsed.value.text, TemplateFor(env, parsed.value.name));
      FirstRowsAt(env, doc, Attached(k), OfAttachment(doc.id, parsed.value.name, parsed.value.contentType), pieces, |pieces|);
    }
  }

  lemma {:induction false} BodyRowsAt(env: Env, doc: Document)
    ensures RowsAt(BodyRows(env, doc).rows, doc.id, Body)
  {
    var pieces := env.chunk(doc.text, env.template);
    FirstRowsAt(env, doc, Body, OfDocument(doc.id), pieces, |pieces|);
  }

  predicate AllFromFirst(rs: seq<Row>, source: string, n: nat) {
    forall i :: 0 <= i < |rs| ==> FromFirst(rs[i], source, n)
  }

  lemma {:induction false} Weaken(rs: seq<Row>, source: string, n: nat)
    requires n >= 1 && AllFromFirst(rs, source, n - 1)
    ensures AllFromFirst(rs, source, n)
  {
    forall i | 0 <= i < |rs| ensures FromFirst(rs[i], source, n) {
      assert FromFirst(rs[i], source, n - 1);
    }
  }

  /** The ids of the rows that one document produces are distinct, whatever the document's id is. */
  lemma {:induction false} ProducedDistinct(env: Env, doc: Document, n: nat)
    requires n <= |doc.attachments|
    ensures IdsDistinct(RowsUpTo(env, doc, n).rows) && AllFromFirst(RowsUpTo(env, doc, n).rows, doc.id, n)
  {
    if n == 0 {
      BodyRowsAt(env, doc);
      PartDistinct(BodyRows(env, doc).rows, doc.id, Body);
    } else {
      ProducedDistinct(env, doc, n - 1);
      AttachmentRowsAt(env, doc, n);
      var a, b := RowsUpTo(env, doc, n - 1), AttachmentRows(env, doc, n);
      Joined(a.rows, b.rows, doc.id, n);
      Weaken(a.rows, doc.id, n);
      assert RowsUpTo(env, doc, n) == Then(a, b);
    }
  }

  // ---------- What a raise leaves out ----------

  /** The other environment answers wherever this one does, and alike. */
  ghost predicate Extends(env: Env, other: Env) {
    && env.chunk == other.chunk && env.suffix == other.suffix
    && env.template == other.template && env.templateOf == other.templateOf
    && (forall part: Part, rank: nat, text: string :: env.embed(part, rank, text).Some? ==>
          env.embed(part, rank, text) == other.embed(part, rank, text))
    && (forall k: Positive, a: Attachment :: env.parse(k, a).Some? ==> env.parse(k, a) == other.parse(k, a))
  }

  /** An attempt is an initial part of another, and all of it when it is complete. */
  predicate PartOf(a: Attempt, b: Attempt) {
    a.rows <= b.rows && (a.complete ==> a == b)
  }

  lemma {:induction false} ThenPartOf(a: Attempt, b: Attempt, c: Attempt, d: Attempt)
    requires PartOf(a, c) && PartOf(b, d)
    ensures PartOf(Then(a, b), Then(c, d))
  {
  }

  lemma {:induction false} FirstRowsPartOf(env: Env, other: Env, doc: Document, part: Part, lineage: Lineage,
                                           pieces: seq<Piece>, n: nat)
    requires Extends(env, other) && n <= |pieces|
    ensures PartOf(FirstRows(env, doc, part, lineage, pieces, n), FirstRows(other, doc, part, lineage, pieces, n))
  {
    if n > 0 {
      FirstRowsPartOf(env, other, doc, part, lineage, pieces, n - 1);
      var b, d := OneRow(env, doc, part, lineage, pieces[n - 1], n), OneRow(other, doc, part, lineage, pieces[n - 1], n);
      assert PartOf(b, d);
      ThenPartOf(FirstRows(env, doc, part, lineage, pieces, n - 1), b, FirstRows(other, doc, part, lineage, pieces, n - 1), d);
    }
  }

  lemma {:induction false} AttachmentPartOf(env: Env, other: Env, doc: Document, k: nat)
    requires Extends(env, other) && 1 <= k <= |doc.attachments|
    ensures PartOf(AttachmentRows(env, doc, k), AttachmentRows(other, doc, k))
  {
    var parsed := env.parse(k, doc.attachments[k - 1]);
    if parsed.Some? {
      var pieces := env.chunk(parsed.value.text, TemplateFor(env, parsed.value.name));
      FirstRowsPartOf(env, other, doc, Attached(k), OfAttachment(doc.id, parsed.value.name, parsed.value.contentType),
                      pieces, |pieces|);
    }
  }

  /** What is stored of a document before something raises is an initial part of what would have been. */
  lemma {:induction false} ProducedPartOf(env: Env, other: Env, doc: Document, n: nat)
    requires Extends(env, other) && n <= |doc.attachments|
    ensures PartOf(RowsUpTo(env, doc, n), RowsUpTo(other, doc, n))
  {
    if n == 0 {
      var pieces := env.chunk(doc.text, env.template);
      FirstRowsPartOf(env, other, doc, Body, OfDocument(doc.id), pieces, |pieces|);
    } else {
      ProducedPartOf(env, other, doc, n - 1);
      AttachmentPartOf(env, other, doc, n);
      ThenPartOf(RowsUpTo(env, doc, n - 1), AttachmentRows(env, doc, n),
                 RowsUpTo(other, doc, n - 1), AttachmentRows(other, doc, n));
    }
  }

  // ---------- Versions ----------

  /** A document as the store sees it: whether its text is long enough, whether all of it is stored, its rows
      and its warnings. */
  datatype Version = Version(id: string, accepted: bool, complete: bool, rows: seq<Row>, warnings: seq<Warning>)

  predicate Sound(v: Version) {
    IdsDistinct(v.rows) && forall i :: 0 <= i < |v.rows| ==> Proper(v.rows[i]) && v.rows[i].source == v.id
  }

  function VersionOf(env: Env, doc: Document): Version {
    var a := Produced(env, doc);
    Version(doc.id, LongEnough(doc.text), a.complete, a.rows, a.warnings)
  }

  /** The services of each document of a batch, by its place. */
  type Services = nat -> Env

  function Versions(envs: Services, docs: seq<Document>): (vs: seq<Version>)
    ensures |vs| == |docs| && forall i :: 0 <= i < |docs| ==> vs[i] == VersionOf(envs(i), docs[i])
  {
    seq(|docs|, i requires 0 <= i < |docs| => VersionOf(envs(i), docs[i]))
  }

  lemma {:induction false} VersionsSound(envs: Services, docs: seq<Document>, i: nat)
    requires i < |docs|
    ensures Sound(Versions(envs, docs)[i])
  {
    var v, n := VersionOf(envs(i), docs[i]), |docs[i].attachments|;
    ProducedDistinct(envs(i), docs[i], n);
    assert v.rows == RowsUpTo(envs(i), docs[i], n).rows;
    forall j | 0 <= j < |v.rows| ensures Proper(v.rows[j]) && v.rows[j].source == v.id {
      assert FromFirst(v.rows[j], docs[i].id, n);
    }
  }
}
