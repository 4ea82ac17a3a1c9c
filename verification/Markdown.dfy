/** The markdown chunker: one chunk for each section that is small enough, the naive chunks of the section
    otherwise, with offsets shifted to the whole text. */
module Markdown {
  import opened Text
  import opened Chunker

  /** A match of the heading pattern: where it starts, and its text. */
  datatype Heading = Heading(start: nat, title: string)

  /** What the pattern guarantees: matches come in order and each begins with '#'. */
  predicate AreHeadings(text: string, heads: seq<Heading>) {
    && (forall i :: 0 <= i < |heads| ==> heads[i].start < |text| && text[heads[i].start] == '#')
    && (forall i, j :: 0 <= i < j < |heads| ==> heads[i].start < heads[j].start)
  }

  /** Where section i begins, or the text ends. */
  function SectionStart(text: string, heads: seq<Heading>, i: nat): (r: nat)
    requires AreHeadings(text, heads)
    ensures r <= |text|
  {
    if i < |heads| then heads[i].start else |text|
  }

  function Section(text: string, heads: seq<Heading>, i: nat): string
    requires AreHeadings(text, heads) && i < |heads|
  {
    SectionBounds(text, heads, i);
    Strip(text[SectionStart(text, heads, i)..SectionStart(text, heads, i + 1)])
  }

  lemma SectionBounds(text: string, heads: seq<Heading>, i: nat)
    requires AreHeadings(text, heads) && i < |heads|
    ensures SectionStart(text, heads, i) < SectionStart(text, heads, i + 1) <= |text|
  {
  }

  /** Stripping a section only shortens it at the end: offsets in a section, shifted by its start, are
      offsets in the text. */
  lemma SectionOccurs(text: string, heads: seq<Heading>, i: nat)
    requires AreHeadings(text, heads) && i < |heads|
    ensures Section(text, heads, i) != ""
    ensures OccursAt(text, Section(text, heads, i), heads[i].start)
    ensures heads[i].start + |Section(text, heads, i)| <= SectionStart(text, heads, i + 1)
  {
    SectionBounds(text, heads, i);
    var lo, hi := heads[i].start, SectionStart(text, heads, i + 1);
    var s := text[lo..hi];
    assert s[0] == '#';
    assert SkipLeft(s, 0, |s|) == 0;
    var e := SkipRight(s, 0, |s|);
    assert e > 0;
    SliceOfSlice(text, lo, hi, 0, e);
  }

  function Shifted(c: Chunk, offset: nat, index: nat, heading: string): Chunk {
    c.(template := "markdown", start := c.start + offset, end := c.end + offset, index := index, heading := heading)
  }

  function ShiftedAll(cs: seq<Chunk>, offset: nat, base: nat, heading: string): (r: seq<Chunk>)
    ensures |r| == |cs|
    ensures forall x :: 0 <= x < |r| ==> r[x] == Shifted(cs[x], offset, base + x, heading)
  {
    seq(|cs|, x requires 0 <= x < |cs| => Shifted(cs[x], offset, base + x, heading))
  }

  /** The chunks of section i, when `base` chunks come before. */
  function SectionChunks(text: string, heads: seq<Heading>, size: int, overlap: int, i: nat, base: nat): seq<Chunk>
    requires AreHeadings(text, heads) && i < |heads|
  {
    var section, heading := Section(text, heads, i), Strip(heads[i].title);
    if section == "" then []
    else if TokenEstimate(section) <= size then
      [Chunk(section, base, heads[i].start, SectionStart(text, heads, i + 1), "markdown", TokenEstimate(section), heading)]
    else ShiftedAll(NaiveChunks(section, size, overlap), heads[i].start, base, heading)
  }

  /** The chunks of each section, by its number and the number of chunks before it. */
  function Parts(text: string, heads: seq<Heading>, size: int, overlap: int): (nat, nat) -> seq<Chunk>
    requires AreHeadings(text, heads)
  {
    (i: nat, base: nat) => if i < |heads| then SectionChunks(text, heads, size, overlap, i, base) else []
  }

  /** The first n parts, each of which is told how many chunks come before it. */
  function Concatenated(parts: (nat, nat) -> seq<Chunk>, n: nat): seq<Chunk> {
    if n == 0 then []
    else
      var before := Concatenated(parts, n - 1);
      before + parts(n - 1, |before|)
  }

  function MarkdownChunks(text: string, heads: seq<Heading>, size: int, overlap: int): seq<Chunk>
    requires AreHeadings(text, heads)
  {
    Concatenated(Parts(text, heads, size, overlap), |heads|)
  }

  // ---------- Sections ----------

  lemma StartsIncrease(text: string, heads: seq<Heading>)
    requires AreHeadings(text, heads)
    ensures forall a, b :: 0 <= a <= b <= |heads| ==> SectionStart(text, heads, a) <= SectionStart(text, heads, b)
  {
  }

  /** The sections tile the text from the first heading on: every position from there belongs to exactly one
      section. */
  lemma {:induction false} SectionsTile(text: string, heads: seq<Heading>, p: nat, n: nat) returns (i: nat)
    requires AreHeadings(text, heads) && n < |heads| && heads[n].start <= p < |text|
    ensures n <= i < |heads| && SectionStart(text, heads, i) <= p < SectionStart(text, heads, i + 1)
    ensures forall j :: 0 <= j < |heads| && SectionStart(text, heads, j) <= p < SectionStart(text, heads, j + 1) ==> j == i
    decreases |heads| - n
  {
    StartsIncrease(text, heads);
    if p < SectionStart(text, heads, n + 1) {
      i := n;
    } else {
      i := SectionsTile(text, heads, p, n + 1);
    }
  }

  // ---------- Chunks ----------

  /** Chunk x of a list lies between `lo` and `hi`, and its index is its position after `base` others. */
  predicate Placed(cs: seq<Chunk>, x: nat, base: nat, lo: int, hi: int)
    requires x < |cs|
  {
    cs[x].index == base + x && lo <= cs[x].start <= cs[x].end <= hi
  }

  predicate Sorted(cs: seq<Chunk>) {
    forall x, y :: 0 <= x < y < |cs| ==> cs[x].start <= cs[y].start
  }

  predicate AllPlaced(cs: seq<Chunk>, base: nat, lo: int, hi: int) {
    forall x :: 0 <= x < |cs| ==> Placed(cs, x, base, lo, hi)
  }

  lemma {:induction false} NaiveSortedAt(text: string, size: int, overlap: int, x: nat, y: nat)
    requires x < y < |NaiveChunks(text, size, overlap)|
    ensures NaiveChunks(text, size, overlap)[x].start <= NaiveChunks(text, size, overlap)[y].start
    decreases y
  {
    ChunkStarts(text, size, overlap, y);
    if x < y - 1 {
      NaiveSortedAt(text, size, overlap, x, y - 1);
    }
  }

  lemma NaivePlaced(text: string, size: int, overlap: int)
    ensures Sorted(NaiveChunks(text, size, overlap)) && AllPlaced(NaiveChunks(text, size, overlap), 0, 0, |text|)
  {
    var cs := NaiveChunks(text, size, overlap);
    forall x | 0 <= x < |cs| ensures Placed(cs, x, 0, 0, |text|) {
      ChunkInRange(text, size, overlap, x);
    }
    forall x, y | 0 <= x < y < |cs| ensures cs[x].start <= cs[y].start {
      NaiveSortedAt(text, size, overlap, x, y);
    }
  }

  lemma ShiftPlaced(cs: seq<Chunk>, n: nat, offset: nat, base: nat, heading: string, hi: int)
    requires Sorted(cs) && AllPlaced(cs, 0, 0, n) && offset + n <= hi
    ensures Sorted(ShiftedAll(cs, offset, base, heading)) && AllPlaced(ShiftedAll(cs, offset, base, heading), base, offset, hi)
  {
    var shifted := ShiftedAll(cs, offset, base, heading);
    forall x | 0 <= x < |shifted| ensures Placed(shifted, x, base, offset, hi) {
      assert Placed(cs, x, 0, 0, n);
    }
  }

  lemma SectionPlaced(text: string, heads: seq<Heading>, size: int, overlap: int, i: nat, base: nat)
    requires AreHeadings(text, heads) && i < |heads|
    ensures var cs := SectionChunks(text, heads, size, overlap, i, base);
            Sorted(cs) && AllPlaced(cs, base, heads[i].start, SectionStart(text, heads, i + 1))
  {
    var section := Section(text, heads, i);
    SectionBounds(text, heads, i);
    SectionOccurs(text, heads, i);
    if TokenEstimate(section) > size {
      NaivePlaced(section, size, overlap);
      ShiftPlaced(NaiveChunks(section, size, overlap), |section|, heads[i].start, base, Strip(heads[i].title),
                  SectionStart(text, heads, i + 1));
    }
  }

  lemma SortedConcat(a: seq<Chunk>, b: seq<Chunk>, lo: int, mid: int, hi: int)
    requires Sorted(a) && Sorted(b) && AllPlaced(a, 0, lo, mid) && AllPlaced(b, |a|, mid, hi) && lo <= mid <= hi
    ensures Sorted(a + b) && AllPlaced(a + b, 0, lo, hi)
  {
    forall x | 0 <= x < |a + b| ensures Placed(a + b, x, 0, lo, hi) {
      if x < |a| {
        assert Placed(a, x, 0, lo, mid);
      } else {
        var y := x - |a|;
        assert Placed(b, y, |a|, mid, hi);
      }
    }
    forall x, y | 0 <= x < y < |a + b| ensures (a + b)[x].start <= (a + b)[y].start {
      if x < |a| <= y {
        var j := y - |a|;
        assert Placed(a, x, 0, lo, mid) && Placed(b, j, |a|, mid, hi);
      }
    }
  }

  /** Parts that lie one after the other stay in order when they are concatenated. */
  lemma {:induction false} ConcatenatedPlaced(parts: (nat, nat) -> seq<Chunk>, n: nat, bound: nat -> int)
    requires forall i: nat, base: nat :: i < n ==>
               Sorted(parts(i, base)) && AllPlaced(parts(i, base), base, bound(i), bound(i + 1))
    requires forall i: nat, j: nat :: i <= j <= n ==> bound(i) <= bound(j)
    ensures Sorted(Concatenated(parts, n)) && AllPlaced(Concatenated(parts, n), 0, bound(0), bound(n))
  {
    if n > 0 {
      var m, before := n - 1, Concatenated(parts, n - 1);
      ConcatenatedPlaced(parts, m, bound);
      assert bound(0) <= bound(m) <= bound(n);
      assert Sorted(parts(m, |before|)) && AllPlaced(parts(m, |before|), |before|, bound(m), bound(m + 1));
      SortedConcat(before, parts(m, |before|), bound(0), bound(m), bound(n));
    }
  }

  /** All chunks of a text: their indexes are their positions, they lie between the first heading and the end
      of the text, and their starts do not decrease. */
  lemma {:induction false} MarkdownOffsets(text: string, heads: seq<Heading>, size: int, overlap: int)
    requires AreHeadings(text, heads)
    ensures var cs := MarkdownChunks(text, heads, size, overlap);
            Sorted(cs) && AllPlaced(cs, 0, SectionStart(text, heads, 0), |text|)
  {
    var parts := Parts(text, heads, size, overlap);
    var bound: nat -> int := (i: nat) => SectionStart(text, heads, i);
    StartsIncrease(text, heads);
    forall i: nat, base: nat | i < |heads|
      ensures Sorted(parts(i, base)) && AllPlaced(parts(i, base), base, bound(i), bound(i + 1))
    {
      SectionPlaced(text, heads, size, overlap, i, base);
    }
    ConcatenatedPlaced(parts, |heads|, bound);
  }

  lemma {:induction false} LastPartShows(parts: (nat, nat) -> seq<Chunk>, m: nat)
    requires forall base: nat :: parts(m, base) != []
    ensures Concatenated(parts, m + 1) != []
  {
  }

  /** A text has no chunks exactly when it has no headings, whatever else it says. */
  lemma {:induction false} NoChunksIffNoHeadings(text: string, heads: seq<Heading>, size: int, overlap: int)
    requires AreHeadings(text, heads)
    ensures MarkdownChunks(text, heads, size, overlap) == [] <==> heads == []
  {
    if heads != [] {
      var parts, m := Parts(text, heads, size, overlap), |heads| - 1;
      forall base: nat ensures parts(m, base) != [] {
        SectionHasChunks(text, heads, size, overlap, m, base);
      }
      LastPartShows(parts, m);
    }
  }

  /** No section is without chunks. */
  lemma SectionHasChunks(text: string, heads: seq<Heading>, size: int, overlap: int, i: nat, base: nat)
    requires AreHeadings(text, heads) && i < |heads|
    ensures SectionChunks(text, heads, size, overlap, i, base) != []
  {
    var section := Section(text, heads, i);
    SectionOccurs(text, heads, i);
    EmptyIffBlank(section, size, overlap);
    assert !IsSpace(section[0]);
  }

  /** The sentence that chunk x of a text begins with. */
  function FirstSentence(text: string, size: int, overlap: int, x: nat): string
    requires x < |NaiveChunks(text, size, overlap)|
  {
    SentencesOf(text)[WindowsOf(text, size, overlap)[x].lo]
  }

  /** Chunk x of a text that does not begin with white space starts where its first sentence occurs. */
  lemma StartOccurs(text: string, size: int, overlap: int, x: nat)
    requires text != "" && !IsSpace(text[0]) && x < |NaiveChunks(text, size, overlap)|
    ensures OccursAt(text, FirstSentence(text, size, overlap, x), NaiveChunks(text, size, overlap)[x].start)
  {
    if x > 0 {
      ChunkStarts(text, size, overlap, x);
    } else {
      FirstChunkOccurs(text, size, overlap);
    }
  }

  /** The chunks of an oversized section are its naive chunks, moved by the start of the section. */
  lemma ShiftedAt(text: string, heads: seq<Heading>, size: int, overlap: int, i: nat, base: nat, x: nat)
    requires AreHeadings(text, heads) && i < |heads| && TokenEstimate(Section(text, heads, i)) > size
    requires x < |SectionChunks(text, heads, size, overlap, i, base)|
    ensures var naive := NaiveChunks(Section(text, heads, i), size, overlap);
            x < |naive|
            && SectionChunks(text, heads, size, overlap, i, base)[x].text == naive[x].text
            && SectionChunks(text, heads, size, overlap, i, base)[x].start == heads[i].start + naive[x].start
  {
    SectionOccurs(text, heads, i);
  }

  /** So every chunk of a section, the first included, starts where its first sentence occurs in the whole
      text. */
  lemma ShiftedStartOccurs(text: string, heads: seq<Heading>, size: int, overlap: int, i: nat, x: nat)
    requires AreHeadings(text, heads) && i < |heads|
    requires x < |NaiveChunks(Section(text, heads, i), size, overlap)|
    ensures var section := Section(text, heads, i);
            OccursAt(text, FirstSentence(section, size, overlap, x),
                     heads[i].start + NaiveChunks(section, size, overlap)[x].start)
  {
    SectionOccurs(text, heads, i);
    StartWithin(text, Section(text, heads, i), heads[i].start, size, overlap, x);
  }

  lemma StartWithin(text: string, section: string, at: nat, size: int, overlap: int, x: nat)
    requires OccursAt(text, section, at) && section != "" && !IsSpace(section[0])
    requires x < |NaiveChunks(section, size, overlap)|
    ensures OccursAt(text, FirstSentence(section, size, overlap, x), at + NaiveChunks(section, size, overlap)[x].start)
  {
    StartOccurs(section, size, overlap, x);
    OccursWithin(text, section, at, FirstSentence(section, size, overlap, x),
                 NaiveChunks(section, size, overlap)[x].start);
  }

  /** Chunk c is all of section i, at its heading. */
  predicate IsSection(text: string, heads: seq<Heading>, i: nat, c: Chunk)
    requires AreHeadings(text, heads) && i < |heads|
  {
    && c.text == Section(text, heads, i) && c.start == heads[i].start && OccursAt(text, c.text, c.start)
  }

  /** Chunk c has the text of chunk x of section i, which begins with a sentence that occurs in the whole text at
      the start of c. */
  predicate IsPieceOf(text: string, heads: seq<Heading>, size: int, overlap: int, i: nat, x: nat, c: Chunk)
    requires AreHeadings(text, heads) && i < |heads|
  {
    var section := Section(text, heads, i);
    && x < |NaiveChunks(section, size, overlap)| && c.text == NaiveChunks(section, size, overlap)[x].text
    && var first := FirstSentence(section, size, overlap, x);
       first != "" && first <= c.text && OccursAt(text, first, c.start)
  }

  /** Chunk c comes from section i, in one of these two ways. */
  ghost predicate ComesFrom(text: string, heads: seq<Heading>, size: int, overlap: int, i: nat, c: Chunk)
    requires AreHeadings(text, heads) && i < |heads|
  {
    if TokenEstimate(Section(text, heads, i)) <= size then IsSection(text, heads, i, c)
    else exists x: nat :: IsPieceOf(text, heads, size, overlap, i, x, c)
  }

  lemma {:induction false} PieceComesFrom(text: string, heads: seq<Heading>, size: int, overlap: int, i: nat, base: nat, y: nat)
    requires AreHeadings(text, heads) && i < |heads| && TokenEstimate(Section(text, heads, i)) > size
    requires y < |SectionChunks(text, heads, size, overlap, i, base)|
    ensures IsPieceOf(text, heads, size, overlap, i, y, SectionChunks(text, heads, size, overlap, i, base)[y])
  {
    ShiftedAt(text, heads, size, overlap, i, base, y);
    ShiftedStartOccurs(text, heads, size, overlap, i, y);
    BeginsWithSentence(Section(text, heads, i), size, overlap, y);
  }

  lemma {:induction false} SectionChunkComesFrom(text: string, heads: seq<Heading>, size: int, overlap: int, i: nat,
                                                 base: nat, y: nat)
    requires AreHeadings(text, heads) && i < |heads|
    requires y < |SectionChunks(text, heads, size, overlap, i, base)|
    ensures ComesFrom(text, heads, size, overlap, i, SectionChunks(text, heads, size, overlap, i, base)[y])
  {
    if TokenEstimate(Section(text, heads, i)) > size {
      PieceComesFrom(text, heads, size, overlap, i, base, y);
    } else {
      SectionOccurs(text, heads, i);
    }
  }

  /** What holds of the chunks of every part holds of all chunks. */
  lemma {:induction false} ForAllChunks(parts: (nat, nat) -> seq<Chunk>, n: nat, p: Chunk -> bool, x: nat)
    requires x < |Concatenated(parts, n)|
    requires forall i: nat, base: nat, y: nat :: i < n && y < |parts(i, base)| ==> p(parts(i, base)[y])
    ensures p(Concatenated(parts, n)[x])
    decreases n
  {
    var before := Concatenated(parts, n - 1);
    if x < |before| {
      ForAllChunks(parts, n - 1, p, x);
    }
  }

  /** Every chunk of a text starts where it says: it is all of a small enough section and occurs there, or it has the
      text of a chunk of a larger section and that chunk's first sentence occurs there. */
  lemma {:induction false} EveryChunkStartsThere(text: string, heads: seq<Heading>, size: int, overlap: int, x: nat)
    requires AreHeadings(text, heads) && x < |MarkdownChunks(text, heads, size, overlap)|
    ensures exists i: nat :: i < |heads| && ComesFrom(text, heads, size, overlap, i, MarkdownChunks(text, heads, size, overlap)[x])
  {
    var parts := Parts(text, heads, size, overlap);
    var p := (c: Chunk) => exists i: nat :: i < |heads| && ComesFrom(text, heads, size, overlap, i, c);
    forall i: nat, base: nat, y: nat | i < |heads| && y < |parts(i, base)| ensures p(parts(i, base)[y]) {
      SectionChunkComesFrom(text, heads, size, overlap, i, base, y);
    }
    ForAllChunks(parts, |heads|, p, x);
  }

  // ---------- No section is lost ----------

  /** How many chunks section i has. */
  function SectionCount(text: string, heads: seq<Heading>, size: int, overlap: int, i: nat): nat
    requires AreHeadings(text, heads) && i < |heads|
  {
    var section := Section(text, heads, i);
    if TokenEstimate(section) <= size then 1 else |NaiveChunks(section, size, overlap)|
  }

  function Counts(text: string, heads: seq<Heading>, size: int, overlap: int): nat -> nat
    requires AreHeadings(text, heads)
  {
    (i: nat) => if i < |heads| then SectionCount(text, heads, size, overlap, i) else 0
  }

  function SumOf(counts: nat -> nat, n: nat): nat {
    if n == 0 then 0 else SumOf(counts, n - 1) + counts(n - 1)
  }

  /** These are the parts, and the number of chunks of each. */
  ghost predicate Counted(parts: (nat, nat) -> seq<Chunk>, counts: nat -> nat, n: nat) {
    forall k: nat, base: nat :: k < n ==> |parts(k, base)| == counts(k)
  }

  /** When the number of chunks of a part does not depend on those before, chunk y of part i comes right after all chunks
      of the parts before. */
  lemma {:induction false} InPlace(parts: (nat, nat) -> seq<Chunk>, counts: nat -> nat, n: nat, i: nat, y: nat)
    requires Counted(parts, counts, n)
    requires i < n && y < counts(i)
    ensures var all, before := Concatenated(parts, n), SumOf(counts, i);
            |all| == SumOf(counts, n) > before + y && all[before + y] == parts(i, before)[y]
    decreases n
  {
    var m := n - 1;
    Lengths(parts, counts, m);
    if i < m {
      InPlace(parts, counts, m, i, y);
    }
  }

  lemma {:induction false} Lengths(parts: (nat, nat) -> seq<Chunk>, counts: nat -> nat, n: nat)
    requires Counted(parts, counts, n)
    ensures |Concatenated(parts, n)| == SumOf(counts, n)
  {
    if n > 0 {
      Lengths(parts, counts, n - 1);
    }
  }

  lemma {:induction false} SectionChunksCount(text: string, heads: seq<Heading>, size: int, overlap: int, i: nat, base: nat)
    requires AreHeadings(text, heads) && i < |heads|
    ensures |SectionChunks(text, heads, size, overlap, i, base)| == SectionCount(text, heads, size, overlap, i)
  {
    SectionOccurs(text, heads, i);
  }

  lemma {:induction false} PartsAreCounted(text: string, heads: seq<Heading>, size: int, overlap: int)
    requires AreHeadings(text, heads)
    ensures Counted(Parts(text, heads, size, overlap), Counts(text, heads, size, overlap), |heads|)
  {
    var parts, counts := Parts(text, heads, size, overlap), Counts(text, heads, size, overlap);
    forall k: nat, base: nat | k < |heads| ensures |parts(k, base)| == counts(k) {
      SectionChunksCount(text, heads, size, overlap, k, base);
    }
  }

  /** Chunk y of section i, when `base` chunks come before. */
  lemma {:induction false} SectionChunkIs(text: string, heads: seq<Heading>, size: int, overlap: int, i: nat, base: nat, y: nat)
    requires AreHeadings(text, heads) && i < |heads| && y < |SectionChunks(text, heads, size, overlap, i, base)|
    ensures var c := SectionChunks(text, heads, size, overlap, i, base)[y];
            IsChunkOf(text, heads, size, overlap, i, y, c) && c.index == base + y
  {
    SectionOccurs(text, heads, i);
    var section := Section(text, heads, i);
    if TokenEstimate(section) > size {
      NaiveFields(section, size, overlap, y);
    }
  }

  /** Of a small enough section the chunk is the section itself, from its heading to the next; of a larger one it is
      naive chunk y, moved to where the section is. It carries the section's title. */
  predicate IsChunkOf(text: string, heads: seq<Heading>, size: int, overlap: int, i: nat, y: nat, c: Chunk)
    requires AreHeadings(text, heads) && i < |heads|
  {
    var section := Section(text, heads, i);
    && c.template == "markdown" && c.heading == Strip(heads[i].title) && c.tokens == TokenEstimate(c.text)
    && if TokenEstimate(section) <= size then
         && y == 0 && c.text == section && c.start == heads[i].start
         && c.end == if i + 1 < |heads| then heads[i + 1].start else |text|
       else
         var naive := NaiveChunks(section, size, overlap);
         && y < |naive| && c.text == naive[y].text
         && c.start == heads[i].start + naive[y].start && c.end == heads[i].start + naive[y].end
  }

  /** The whole list: there are as many chunks as the sections have, and chunk y of section i stands in its place, after
      those of the sections before. */
  lemma {:induction false} EverySectionIsThere(text: string, heads: seq<Heading>, size: int, overlap: int, i: nat, y: nat)
    requires AreHeadings(text, heads) && i < |heads| && y < SectionCount(text, heads, size, overlap, i)
    ensures var cs, counts := MarkdownChunks(text, heads, size, overlap), Counts(text, heads, size, overlap);
            var x := SumOf(counts, i) + y;
            && |cs| == SumOf(counts, |heads|) > x
            && cs[x].index == x && IsChunkOf(text, heads, size, overlap, i, y, cs[x])
  {
    var parts, counts := Parts(text, heads, size, overlap), Counts(text, heads, size, overlap);
    PartsAreCounted(text, heads, size, overlap);
    InPlace(parts, counts, |heads|, i, y);
    SectionChunkIs(text, heads, size, overlap, i, SumOf(counts, i), y);
  }

  // ---------- Occurrences ----------

  lemma OccursWithin(text: string, part: string, at: int, pat: string, i: int)
    requires OccursAt(text, part, at) && OccursAt(part, pat, i)
    ensures OccursAt(text, pat, at + i)
  {
    forall k | 0 <= k < |pat| ensures text[at + i + k] == pat[k] {
      assert text[at + i + k] == text[at..at + |part|][i + k];
      assert part[i + k] == part[i..i + |pat|][k];
    }
    assert text[at + i..at + i + |pat|] == pat;
  }

  /** The first chunk of a text that does not begin with white space starts with its first sentence. */
  lemma FirstChunkOccurs(text: string, size: int, overlap: int)
    requires text != "" && !IsSpace(text[0]) && |NaiveChunks(text, size, overlap)| > 0
    ensures OccursAt(text, SentencesOf(text)[WindowsOf(text, size, overlap)[0].lo], 0)
    ensures NaiveChunks(text, size, overlap)[0].start == 0
  {
    FirstStartIff(text, size, overlap);
    ChunkInRange(text, size, overlap, 0);
    FirstSentenceOccurs(text, 0);
  }

  // ---------- The loop ----------

  /** Appends the naive chunks of a section, moved to where the section is. */
  method AppendShifted(chunks: seq<Chunk>, section: string, size: int, overlap: int, offset: nat, heading: string)
    returns (chunks': seq<Chunk>)
    ensures chunks' == chunks + ShiftedAll(NaiveChunks(section, size, overlap), offset, |chunks|, heading)
  {
    var sub := ChunkNaive(section, size, overlap);
    ghost var shifted := ShiftedAll(sub, offset, |chunks|, heading);
    chunks' := chunks;
    var x := 0;
    while x < |sub|
      invariant 0 <= x <= |sub| && chunks' == chunks + shifted[..x]
    {
      chunks' := chunks' + [Shifted(sub[x], offset, |chunks'|, heading)];
      x := x + 1;
    }
    assert shifted[..|sub|] == shifted;
  }

  /** Appends the chunks of section i. */
  method AddSection(text: string, heads: seq<Heading>, size: int, overlap: int, i: nat, chunks: seq<Chunk>)
    returns (chunks': seq<Chunk>)
    requires AreHeadings(text, heads) && i < |heads|
    ensures chunks' == chunks + SectionChunks(text, heads, size, overlap, i, |chunks|)
  {
    SectionBounds(text, heads, i);
    var end := SectionStart(text, heads, i + 1);
    var section := Strip(text[heads[i].start..end]);
    var heading := Strip(heads[i].title);
    if section == "" {
      chunks' := chunks;
    } else if TokenEstimate(section) <= size {
      chunks' := chunks + [Chunk(section, |chunks|, heads[i].start, end, "markdown", TokenEstimate(section), heading)];
    } else {
      chunks' := AppendShifted(chunks, section, size, overlap, heads[i].start, heading);
    }
  }

  /** One round of the loop of `_chunk_markdown`: section i, when the sections before it are done. */
  method NextSection(text: string, heads: seq<Heading>, size: int, overlap: int, i: nat, chunks: seq<Chunk>,
                     ghost parts: (nat, nat) -> seq<Chunk>)
    returns (chunks': seq<Chunk>)
    requires AreHeadings(text, heads) && i < |heads| && chunks == Concatenated(parts, i)
    requires parts == Parts(text, heads, size, overlap)
    ensures chunks' == Concatenated(parts, i + 1)
  {
    chunks' := AddSection(text, heads, size, overlap, i, chunks);
    assert Concatenated(parts, i + 1) == chunks + parts(i, |chunks|);
  }

  /** `_chunk_markdown`. */
  method ChunkMarkdown(text: string, heads: seq<Heading>, size: int, overlap: int) returns (chunks: seq<Chunk>)
    requires AreHeadings(text, heads)
    ensures chunks == MarkdownChunks(text, heads, size, overlap)
  {
    ghost var parts := Parts(text, heads, size, overlap);
    chunks := [];
    var i := 0;
    while i < |heads|
      invariant 0 <= i <= |heads| && chunks == Concatenated(parts, i)
    {
      chunks := NextSection(text, heads, size, overlap, i, chunks, parts);
      i := i + 1;
    }
  }
}
