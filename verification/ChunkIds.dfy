/** The ids of stored chunks: when two of them are equal. */
module ChunkIds {
  import opened Text

  /** The templates that the chunker stamps on a chunk. A book is stamped naive. */
  datatype Template = Naive | Markdown | Qa | Laws | Presentation | Code
  {
    function Name(): (s: string)
      ensures ':' !in s
    {
      match this
      case Naive => "naive"
      case Markdown => "markdown"
      case Qa => "qa"
      case Laws => "laws"
      case Presentation => "presentation"
      case Code => "code"
    }
  }

  lemma NameInjective(t: Template, u: Template)
    requires t.Name() == u.Name()
    ensures t == u
  {
    assert |t.Name()| == |u.Name()|;
    assert t.Name()[0] == u.Name()[0];
  }

  /** Attachments are counted from one. */
  type Positive = n: int | n >= 1 witness 1

  /** The part of a document that a chunk comes from: its text, or its n-th attachment. */
  datatype Part = Body | Attached(number: Positive)

  const ATT: string := ":att:"

  function Prefix(doc: string, part: Part): string {
    match part
    case Body => doc
    case Attached(n) => doc + ATT + Decimal(n)
  }

  function ChunkId(doc: string, part: Part, rank: nat, t: Template): string {
    Prefix(doc, part) + ":" + Decimal(rank) + ":" + t.Name()
  }

  /** For example. */
  lemma IdsLookLike()
    ensures ChunkId("d", Body, 2, Markdown) == "d:2:markdown"
    ensures ChunkId("d", Attached(1), 3, Naive) == "d:att:1:3:naive"
  {
    assert Decimal(1) == "1" && Decimal(2) == "2" && Decimal(3) == "3";
  }

  lemma DecimalHasNo(n: nat, c: char)
    requires c < '0' || '9' < c
    ensures c !in Decimal(n)
  {
  }

  lemma SamePieceIff(p: string, i: nat, t: Template, q: string, j: nat, u: Template)
    ensures p + ":" + Decimal(i) + ":" + t.Name() == q + ":" + Decimal(j) + ":" + u.Name()
            <==> p == q && i == j && t == u
  {
    if p + ":" + Decimal(i) + ":" + t.Name() == q + ":" + Decimal(j) + ":" + u.Name() {
      DecimalHasNo(i, ':');
      DecimalHasNo(j, ':');
      SplitUniqueRight(p + ":" + Decimal(i), t.Name(), ':', q + ":" + Decimal(j), u.Name());
      SplitUniqueRight(p, Decimal(i), ':', q, Decimal(j));
      DecimalInjective(i, j);
      NameInjective(t, u);
    }
  }

  /** Two chunks have the same id exactly when rank and template agree and the prefixes do. */
  lemma SameIdIff(d: string, p: Part, i: nat, t: Template, e: string, q: Part, j: nat, u: Template)
    ensures ChunkId(d, p, i, t) == ChunkId(e, q, j, u) <==> Prefix(d, p) == Prefix(e, q) && i == j && t == u
  {
    SamePieceIff(Prefix(d, p), i, t, Prefix(e, q), j, u);
  }

  lemma LastColon(d: string, number: string)
    ensures d + ATT + number == (d + ":att") + [':'] + number
  {
    assert ATT == ":att" + ":";
  }

  lemma SameAttachment(d: string, m: nat, e: string, n: nat)
    requires d + ATT + Decimal(m) == e + ATT + Decimal(n)
    ensures d == e && m == n
  {
    DecimalHasNo(m, ':');
    DecimalHasNo(n, ':');
    LastColon(d, Decimal(m));
    LastColon(e, Decimal(n));
    SplitUniqueRight(d + ":att", Decimal(m), ':', e + ":att", Decimal(n));
    assert d == (d + ":att")[..|d|] && e == (e + ":att")[..|e|];
    DecimalInjective(m, n);
  }

  /** `d` is the prefix of the n-th attachment of `e`. */
  predicate IsAttachmentOf(d: string, e: string, n: Positive) {
    d == e + ATT + Decimal(n)
  }

  /** Neither document's id is the prefix of an attachment of the other. */
  ghost predicate Apart(d: string, e: string) {
    forall n: Positive :: !IsAttachmentOf(d, e, n) && !IsAttachmentOf(e, d, n)
  }

  /** Prefixes of documents that are apart, or of one and the same document, agree only for the same
      document and part. */
  lemma PrefixInjective(d: string, p: Part, e: string, q: Part)
    requires Apart(d, e)
    ensures Prefix(d, p) == Prefix(e, q) <==> d == e && p == q
  {
    if Prefix(d, p) == Prefix(e, q) {
      match (p, q) {
        case (Attached(m), Attached(n)) => SameAttachment(d, m, e, n);
        case (Attached(m), Body) => assert IsAttachmentOf(e, d, m);
        case (Body, Attached(n)) => assert IsAttachmentOf(d, e, n);
        case _ =>
      }
    }
  }

  lemma ApartFromItself(d: string)
    ensures Apart(d, d)
  {
    forall n: Positive ensures !IsAttachmentOf(d, d, n) {
      assert |d + ATT + Decimal(n)| > |d|;
    }
  }

  /** The exact condition: chunk ids of two documents can clash if and only if one document's id is the
      other's followed by ":att:" and a number from one on. */
  lemma ApartIff(d: string, e: string)
    requires d != e
    ensures Apart(d, e)
            <==> (forall p: Part, i: nat, t: Template, q: Part, j: nat, u: Template ::
                    ChunkId(d, p, i, t) != ChunkId(e, q, j, u))
  {
    if Apart(d, e) {
      forall p: Part, i: nat, t: Template, q: Part, j: nat, u: Template
        ensures ChunkId(d, p, i, t) != ChunkId(e, q, j, u)
      {
        SameIdIff(d, p, i, t, e, q, j, u);
        PrefixInjective(d, p, e, q);
      }
    } else {
      var n: Positive :| IsAttachmentOf(d, e, n) || IsAttachmentOf(e, d, n);
      if IsAttachmentOf(d, e, n) {
        assert ChunkId(d, Body, 1, Naive) == ChunkId(e, Attached(n), 1, Naive);
      } else {
        assert ChunkId(d, Attached(n), 1, Naive) == ChunkId(e, Body, 1, Naive);
      }
    }
  }

  /** The number zero is no attachment's: ids that differ by it do not clash. */
  lemma ZeroIsApart(d: string)
    ensures Apart(d, d + ATT + "0")
  {
    var e := d + ATT + "0";
    forall n: Positive ensures !IsAttachmentOf(d, e, n) && !IsAttachmentOf(e, d, n) {
      assert |e + ATT + Decimal(n)| > |d|;
      if IsAttachmentOf(e, d, n) {
        assert Decimal(0) == "0";
        SameAttachment(d, 0, d, n);
      }
    }
  }

  /** In particular there is no clash between documents whose ids have no ':'. */
  lemma WithoutColonApart(d: string, e: string)
    requires ':' !in d && ':' !in e
    ensures Apart(d, e)
  {
    forall n: Positive ensures !IsAttachmentOf(d, e, n) && !IsAttachmentOf(e, d, n) {
      assert (e + ATT + Decimal(n))[|e|] == ':';
      assert (d + ATT + Decimal(n))[|d|] == ':';
    }
  }
}
