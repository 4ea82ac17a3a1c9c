/** The naive chunker: sentence windows of a text, with the offsets at which they are reported. */
module Chunker {
  import opened Text
  import opened Sentences
  import opened Sequences
  import opened Windows

  // ---------- Words ----------

  /** `len(s.split())`: the white-space separated words. */
  function WordCount(s: string): nat {
    if s == [] then 0
    else
      var n := |s| - 1;
      WordCount(s[..n]) + (if !IsSpace(s[n]) && (n == 0 || IsSpace(s[n - 1])) then 1 else 0)
  }

  function TokenEstimate(s: string): (r: nat)
    ensures r >= 1 && 3 * WordCount(s) < 4 * (r + 1) && (r == 1 || 4 * r <= 3 * WordCount(s))
  {
    if WordCount(s) * 3 / 4 > 1 then WordCount(s) * 3 / 4 else 1
  }

  function Counts(sents: seq<string>): (w: seq<nat>)
    ensures |w| == |sents| && forall k :: 0 <= k < |w| ==> w[k] == WordCount(sents[k])
  {
    seq(|sents|, k requires 0 <= k < |sents| => WordCount(sents[k]))
  }

  /** `" ".join(sents)`. */
  function Join(sents: seq<string>): string {
    if sents == [] then ""
    else if |sents| == 1 then sents[0]
    else
      var n := |sents| - 1;
      Join(sents[..n]) + " " + sents[n]
  }

  /** Whether a word starts at the end of s when c is appended. */
  function NewWord(s: string, c: char): nat {
    if !IsSpace(c) && (s == [] || IsSpace(s[|s| - 1])) then 1 else 0
  }

  lemma WordCountSnoc(s: string, c: char)
    ensures WordCount(s + [c]) == WordCount(s) + NewWord(s, c)
  {
    assert (s + [c])[..|s|] == s;
  }

  lemma NewWordAfter(a: string, space: char, b: string, c: char)
    requires IsSpace(space)
    ensures NewWord(a + [space] + b, c) == NewWord(b, c)
  {
    var s := a + [space] + b;
    assert s[|s| - 1] == if b == [] then space else b[|b| - 1];
  }

  /** White space separates words. */
  lemma {:induction false} WordsAcross(a: string, space: char, b: string)
    requires IsSpace(space)
    ensures WordCount(a + [space] + b) == WordCount(a) + WordCount(b)
    decreases |b|
  {
    if b == [] {
      WordCountSnoc(a, space);
      assert a + [space] + b == a + [space];
    } else {
      var n, c := |b| - 1, b[|b| - 1];
      WordsAcross(a, space, b[..n]);
      WordCountSnoc(a + [space] + b[..n], c);
      WordCountSnoc(b[..n], c);
      NewWordAfter(a, space, b[..n], c);
      assert b == b[..n] + [c];
      assert a + [space] + b == a + [space] + b[..n] + [c];
    }
  }

  /** Without white space there is one word, and in nothing else there is none: with WordsAcross, these facts determine
      the number of words of every text. */
  lemma {:induction false} OneWordOrNone(s: string)
    ensures s != "" && (forall i :: 0 <= i < |s| ==> !IsSpace(s[i])) ==> WordCount(s) == 1
    ensures (forall i :: 0 <= i < |s| ==> IsSpace(s[i])) ==> WordCount(s) == 0
  {
    if s != "" {
      var n := |s| - 1;
      OneWordOrNone(s[..n]);
    }
  }

  lemma JoinSnoc(sents: seq<string>, lo: nat, hi: nat)
    requires lo < hi <= |sents|
    ensures var body, last := Join(sents[lo..hi]), sents[hi - 1];
            body == if lo == hi - 1 then last else Join(sents[lo..hi - 1]) + " " + last
  {
    assert sents[lo..hi][..hi - lo - 1] == sents[lo..hi - 1];
  }

  /** The words of a joined body are the words of its sentences. */
  lemma {:induction false} JoinedWords(sents: seq<string>, lo: nat, hi: nat)
    requires lo < hi <= |sents|
    ensures WordCount(Join(sents[lo..hi])) == Sum(Counts(sents), lo, hi)
    decreases hi
  {
    var m := hi - 1;
    JoinSnoc(sents, lo, hi);
    if lo < m {
      JoinedWords(sents, lo, m);
      WordsAcross(Join(sents[lo..m]), ' ', sents[m]);
    }
  }

  /** Joining puts one space between any two neighbours, and nothing else. */
  lemma {:induction false} JoinConcat(a: seq<string>, b: seq<string>)
    requires a != [] && b != []
    ensures Join(a + b) == Join(a) + " " + Join(b)
    decreases |b|
  {
    var n := |b| - 1;
    if n > 0 {
      JoinConcat(a, b[..n]);
      assert (a + b)[..|a| + n] == a + b[..n];
    } else {
      assert (a + b)[..|a|] == a;
    }
  }

  lemma JoinOne(s: string)
    ensures Join([s]) == s && Join([]) == ""
  {
  }

  /** A joined body begins with its first sentence. */
  lemma {:induction false} JoinStarts(sents: seq<string>, lo: nat, hi: nat)
    requires lo < hi <= |sents|
    ensures sents[lo] <= Join(sents[lo..hi])
    decreases hi
  {
    JoinSnoc(sents, lo, hi);
    if lo < hi - 1 {
      JoinStarts(sents, lo, hi - 1);
    }
  }

  // ---------- Chunks ----------

  datatype Chunk = Chunk(text: string, index: nat, start: int, end: int, template: string, tokens: nat, heading: string)

  function Strings(text: string, spans: seq<Span>): (sents: seq<string>)
    requires forall k :: 0 <= k < |spans| ==> spans[k].lo <= spans[k].hi <= |text|
    ensures |sents| == |spans| && forall k :: 0 <= k < |sents| ==> sents[k] == text[spans[k].lo..spans[k].hi]
  {
    seq(|spans|, k requires 0 <= k < |spans| => text[spans[k].lo..spans[k].hi])
  }

  /** The sentences of a text, as strings. */
  function SentencesOf(text: string): (sents: seq<string>) {
    SplitInRange(text);
    Strings(text, Split(text))
  }

  lemma SplitInRange(text: string)
    ensures InOrder(text, Split(text))
    ensures forall k :: 0 <= k < |Split(text)| ==> Split(text)[k].lo < Split(text)[k].hi <= |text|
  {
    SplitExact(text);
    forall k | 0 <= k < |Split(text)| ensures Split(text)[k].lo < Split(text)[k].hi <= |text| {
      assert IsSentence(text, Split(text)[k]);
    }
  }

  /** Windows over n sentences. */
  predicate Over(ws: seq<Window>, n: nat) {
    forall j :: 0 <= j < |ws| ==> ws[j].lo < ws[j].hi <= n
  }

  lemma WindowsOver(w: seq<nat>, size: int, overlap: int)
    ensures Over(AllWindows(w, size, overlap), |w|)
  {
    var ws := AllWindows(w, size, overlap);
    forall j | 0 <= j < |ws| ensures ws[j].lo < ws[j].hi <= |w| {
      if w != [] {
        EveryWindow(w, size, overlap, j);
        assert ChainAt(w, size, Shared(overlap), ws, j);
      }
    }
  }

  /** `text.find(pat, from)`: a negative position counts from the end. */
  function FindFrom(text: string, pat: string, from: int): int {
    Find(text, pat, if from >= 0 then from else if |text| + from > 0 then |text| + from else 0)
  }

  /** The reported start of window j: the first occurrence of its first sentence that does not precede the
      start of the window before. */
  function StartOf(text: string, sents: seq<string>, ws: seq<Window>, j: nat): int
    requires j < |ws| && Over(ws, |sents|)
  {
    if j == 0 then 0 else FindFrom(text, sents[ws[j].lo], StartOf(text, sents, ws, j - 1))
  }

  function Flushed(body: string, index: nat, start: int): Chunk {
    Chunk(body, index, start, start + |body|, "naive", TokenEstimate(body), "")
  }

  function ChunkOf(text: string, sents: seq<string>, ws: seq<Window>, j: nat): Chunk
    requires j < |ws| && Over(ws, |sents|)
  {
    Flushed(Join(sents[ws[j].lo..ws[j].hi]), j, StartOf(text, sents, ws, j))
  }

  function ChunksUpTo(text: string, sents: seq<string>, ws: seq<Window>, n: nat): (chunks: seq<Chunk>)
    requires n <= |ws| && Over(ws, |sents|)
    ensures |chunks| == n
  {
    if n == 0 then [] else ChunksUpTo(text, sents, ws, n - 1) + [ChunkOf(text, sents, ws, n - 1)]
  }

  lemma {:induction false} ChunksUpToAt(text: string, sents: seq<string>, ws: seq<Window>, n: nat, j: nat)
    requires j < n <= |ws| && Over(ws, |sents|)
    ensures ChunksUpTo(text, sents, ws, n)[j] == ChunkOf(text, sents, ws, j)
  {
    if j < n - 1 {
      ChunksUpToAt(text, sents, ws, n - 1, j);
    }
  }

  function WindowsOf(text: string, size: int, overlap: int): (ws: seq<Window>)
    ensures Over(ws, |SentencesOf(text)|)
  {
    var w := Counts(SentencesOf(text));
    WindowsOver(w, size, overlap);
    AllWindows(w, size, overlap)
  }

  function NaiveChunks(text: string, size: int, overlap: int): (chunks: seq<Chunk>)
    ensures |chunks| == |WindowsOf(text, size, overlap)|
  {
    var ws := WindowsOf(text, size, overlap);
    ChunksUpTo(text, SentencesOf(text), ws, |ws|)
  }

  lemma NaiveChunkAt(text: string, size: int, overlap: int, j: nat)
    requires j < |NaiveChunks(text, size, overlap)|
    ensures NaiveChunks(text, size, overlap)[j] == ChunkOf(text, SentencesOf(text), WindowsOf(text, size, overlap), j)
  {
    var ws := WindowsOf(text, size, overlap);
    ChunksUpToAt(text, SentencesOf(text), ws, |ws|, j);
  }

  // ---------- What the chunks are ----------

  /** There are no chunks exactly when the text is blank. */
  lemma EmptyIffBlank(text: string, size: int, overlap: int)
    ensures NaiveChunks(text, size, overlap) == [] <==> Blank(text, 0, |text|)
  {
    SplitExact(text);
    var w := Counts(SentencesOf(text));
    if w != [] {
      WindowsAreGreedy(w, size, overlap);
      assert IsSentence(text, Split(text)[0]);
    }
  }

  /** Every chunk has at most `size` words, or it is at most k + 1 sentences. */
  lemma ChunkSizes(text: string, size: int, overlap: int, j: nat)
    requires j < |NaiveChunks(text, size, overlap)|
    ensures var ws := WindowsOf(text, size, overlap);
            WordCount(NaiveChunks(text, size, overlap)[j].text) <= size || ws[j].hi - ws[j].lo <= Shared(overlap) + 1
  {
    var sents, ws := SentencesOf(text), WindowsOf(text, size, overlap);
    EveryWindow(Counts(sents), size, overlap, j);
    assert ChainAt(Counts(sents), size, Shared(overlap), ws, j);
    JoinedWords(sents, ws[j].lo, ws[j].hi);
    NaiveChunkAt(text, size, overlap, j);
  }

  /** Every chunk is the sentences of its window, joined by spaces. */
  lemma ChunkIsJoined(text: string, size: int, overlap: int, j: nat)
    requires j < |NaiveChunks(text, size, overlap)|
    ensures var body := Bodies(SentencesOf(text), WindowsOf(text, size, overlap))[j];
            body != [] && NaiveChunks(text, size, overlap)[j].text == Join(body)
  {
    NaiveChunkAt(text, size, overlap, j);
  }

  /** Dropping from each window the sentences it repeats gives back the sentences of the text, each once and
      in order. */
  lemma ChunksRebuildText(text: string, size: int, overlap: int)
    requires !Blank(text, 0, |text|)
    ensures var sents, ws := SentencesOf(text), WindowsOf(text, size, overlap);
            (forall j :: 0 <= j < |ws| ==> Bodies(sents, ws)[j] != [])
            && Rebuild(Bodies(sents, ws), Shared(overlap)) == sents
  {
    EmptyIffBlank(text, size, overlap);
    WindowsRebuild(SentencesOf(text), Counts(SentencesOf(text)), size, overlap);
  }

  lemma SentencesInOrder(text: string, spans: seq<Span>, i: nat, j: nat)
    requires InOrder(text, spans) && i <= j < |spans|
    ensures spans[i].lo <= spans[j].lo < spans[j].hi
  {
    assert IsSentence(text, spans[i]) && IsSentence(text, spans[j]);
    if i < j {
      Sentences.Apart(text, spans, i, j);
    }
  }

  /** Joined by single spaces, sentences are no longer than the stretch of text they come from. */
  lemma {:induction false} JoinedLength(sents: seq<string>, spans: seq<Span>, lo: nat, hi: nat)
    requires lo < hi <= |sents| == |spans|
    requires forall k :: 0 <= k < |sents| ==> |sents[k]| == spans[k].hi - spans[k].lo
    requires forall i, j :: 0 <= i < j < |spans| ==> spans[i].hi < spans[j].lo
    ensures |Join(sents[lo..hi])| <= spans[hi - 1].hi - spans[lo].lo
    decreases hi
  {
    JoinSnoc(sents, lo, hi);
    if lo < hi - 1 {
      JoinedLength(sents, spans, lo, hi - 1);
    }
  }

  lemma BodyLength(text: string, lo: nat, hi: nat)
    requires lo < hi <= |Split(text)|
    ensures |Join(SentencesOf(text)[lo..hi])| <= Split(text)[hi - 1].hi - Split(text)[lo].lo
  {
    var spans := Split(text);
    SplitInRange(text);
    forall i, j | 0 <= i < j < |spans| ensures spans[i].hi < spans[j].lo {
      Sentences.Apart(text, spans, i, j);
    }
    JoinedLength(SentencesOf(text), spans, lo, hi);
  }

  /** The window before begins no later. */
  lemma WindowsAdvance(text: string, size: int, overlap: int, j: nat)
    requires 0 < j < |WindowsOf(text, size, overlap)|
    ensures WindowsOf(text, size, overlap)[j - 1].lo <= WindowsOf(text, size, overlap)[j].lo
  {
    var i := j - 1;
    EveryWindow(Counts(SentencesOf(text)), size, overlap, i);
    assert ChainAt(Counts(SentencesOf(text)), size, Shared(overlap), WindowsOf(text, size, overlap), i);
  }

  /** The reported start never comes after the true one, and `find` never fails. */
  lemma {:induction false} StartBound(text: string, size: int, overlap: int, j: nat)
    requires j < |WindowsOf(text, size, overlap)|
    ensures var sents, ws := SentencesOf(text), WindowsOf(text, size, overlap);
            && 0 <= StartOf(text, sents, ws, j) <= Split(text)[ws[j].lo].lo
            && (j > 0 ==>
                  var before := StartOf(text, sents, ws, j - 1);
                  && before >= 0 && StartOf(text, sents, ws, j) == Find(text, sents[ws[j].lo], before)
                  && before <= Split(text)[ws[j].lo].lo)
  {
    var spans, sents, ws := Split(text), SentencesOf(text), WindowsOf(text, size, overlap);
    SplitInRange(text);
    if j > 0 {
      StartBound(text, size, overlap, j - 1);
      WindowsAdvance(text, size, overlap, j);
      SentencesInOrder(text, spans, ws[j - 1].lo, ws[j].lo);
      assert OccursAt(text, sents[ws[j].lo], spans[ws[j].lo].lo);
    }
  }

  /** Where a search that starts before a true occurrence ends. */
  lemma FoundBy(text: string, pat: string, before: nat, from: nat)
    requires before <= from && OccursAt(text, pat, from)
    ensures var r := Find(text, pat, before);
            && before <= r <= from && OccursAt(text, pat, r)
            && (r == from <==> forall i :: before <= i < from ==> !OccursAt(text, pat, i))
  {
  }

  lemma FirstSentenceOccurs(text: string, k: nat)
    requires k < |Split(text)|
    ensures OccursAt(text, SentencesOf(text)[k], Split(text)[k].lo)
  {
    SplitInRange(text);
  }

  /** The offsets of a chunk lie within the text, and no later than where its first sentence was taken from.
      The first chunk is always reported to start at zero. */
  lemma ChunkInRange(text: string, size: int, overlap: int, j: nat)
    requires j < |NaiveChunks(text, size, overlap)|
    ensures var c := NaiveChunks(text, size, overlap)[j];
            && c.index == j && c.end == c.start + |c.text| && c.end <= |text|
            && 0 <= c.start <= Split(text)[WindowsOf(text, size, overlap)[j].lo].lo
            && (j == 0 ==> c.start == 0)
  {
    var ws := WindowsOf(text, size, overlap);
    NaiveChunkAt(text, size, overlap, j);
    StartBound(text, size, overlap, j);
    SplitInRange(text);
    BodyLength(text, ws[j].lo, ws[j].hi);
  }

  lemma NaiveFields(text: string, size: int, overlap: int, j: nat)
    requires j < |NaiveChunks(text, size, overlap)|
    ensures var c := NaiveChunks(text, size, overlap)[j];
            c.template == "naive" && c.heading == "" && c.tokens == TokenEstimate(c.text)
  {
    NaiveChunkAt(text, size, overlap, j);
  }

  /** A chunk's text begins with the first sentence of its window. */
  lemma BeginsWithSentence(text: string, size: int, overlap: int, j: nat)
    requires j < |NaiveChunks(text, size, overlap)|
    ensures var sentence := SentencesOf(text)[WindowsOf(text, size, overlap)[j].lo];
            sentence != "" && sentence <= NaiveChunks(text, size, overlap)[j].text
  {
    var ws := WindowsOf(text, size, overlap);
    NaiveChunkAt(text, size, overlap, j);
    SplitInRange(text);
    JoinStarts(SentencesOf(text), ws[j].lo, ws[j].hi);
  }

  /** The first chunk is reported where its first sentence was taken from exactly when the text does not begin with
      white space. */
  lemma FirstStartIff(text: string, size: int, overlap: int)
    requires NaiveChunks(text, size, overlap) != []
    ensures text != "" && WindowsOf(text, size, overlap)[0].lo == 0
    ensures NaiveChunks(text, size, overlap)[0].start == Split(text)[0].lo <==> !IsSpace(text[0])
  {
    var w, spans := Counts(SentencesOf(text)), Split(text);
    NaiveChunkAt(text, size, overlap, 0);
    SplitExact(text);
    WindowsAreGreedy(w, size, overlap);
    assert IsSentence(text, spans[0]) && Blank(text, 0, spans[0].lo);
    assert spans[0].lo > 0 ==> IsSpace(text[0]);
  }

  /** Starts do not decrease, and every chunk after the first starts where its first sentence does occur. It
      is the place the sentence was taken from exactly when the sentence does not occur between the start of
      the chunk before and that place. */
  lemma ChunkStarts(text: string, size: int, overlap: int, j: nat)
    requires 0 < j < |NaiveChunks(text, size, overlap)|
    ensures var chunks, first := NaiveChunks(text, size, overlap), WindowsOf(text, size, overlap)[j].lo;
            var start, before, sentence := chunks[j].start, chunks[j - 1].start, SentencesOf(text)[first];
            var from := Split(text)[first].lo;
            && before <= start && OccursAt(text, sentence, start) && sentence <= chunks[j].text
            && (start == from <==> forall i :: before <= i < from ==> !OccursAt(text, sentence, i))
  {
    var sents, ws := SentencesOf(text), WindowsOf(text, size, overlap);
    NaiveChunkAt(text, size, overlap, j);
    NaiveChunkAt(text, size, overlap, j - 1);
    StartBound(text, size, overlap, j);
    FirstSentenceOccurs(text, ws[j].lo);
    BeginsWithSentence(text, size, overlap, j);
    FoundBy(text, sents[ws[j].lo], StartOf(text, sents, ws, j - 1), Split(text)[ws[j].lo].lo);
  }

  /** Where the first sentence of window j was taken from. */
  function TruePlace(text: string, size: int, overlap: int, j: nat): nat
    requires j < |WindowsOf(text, size, overlap)|
  {
    Split(text)[WindowsOf(text, size, overlap)[j].lo].lo
  }

  /** The first sentence of window j does not occur between where the window before begins and where it was
      taken from. */
  predicate NoEarlier(text: string, size: int, overlap: int, j: nat)
    requires 0 < j < |WindowsOf(text, size, overlap)|
  {
    var sentence := SentencesOf(text)[WindowsOf(text, size, overlap)[j].lo];
    forall i :: TruePlace(text, size, overlap, j - 1) <= i < TruePlace(text, size, overlap, j) ==> !OccursAt(text, sentence, i)
  }

  predicate TrueStart(text: string, size: int, overlap: int, j: nat)
    requires j < |NaiveChunks(text, size, overlap)|
  {
    NaiveChunks(text, size, overlap)[j].start == TruePlace(text, size, overlap, j)
  }

  /** When the chunk before is reported truly, the next one is exactly when its sentence does not occur in between. */
  lemma NextTrueStartIff(text: string, size: int, overlap: int, j: nat)
    requires 0 < j < |NaiveChunks(text, size, overlap)| && TrueStart(text, size, overlap, j - 1)
    ensures TrueStart(text, size, overlap, j) <==> NoEarlier(text, size, overlap, j)
  {
    ChunkStarts(text, size, overlap, j);
  }

  lemma {:induction false} TrueStartsUpTo(text: string, size: int, overlap: int, j: nat)
    requires j < |NaiveChunks(text, size, overlap)| && text != "" && !IsSpace(text[0])
    requires forall m :: 0 < m <= j ==> NoEarlier(text, size, overlap, m)
    ensures TrueStart(text, size, overlap, j)
  {
    if j == 0 {
      FirstStartIff(text, size, overlap);
    } else {
      TrueStartsUpTo(text, size, overlap, j - 1);
      NextTrueStartIff(text, size, overlap, j);
    }
  }

  /** The exact condition on the text: every chunk is reported where its first sentence was taken from if and only if
      the text does not begin with white space, and no window's first sentence occurs between where the window before
      begins and where it was taken from. */
  lemma AllStartsTrueIff(text: string, size: int, overlap: int)
    requires !Blank(text, 0, |text|)
    ensures (forall j :: 0 <= j < |NaiveChunks(text, size, overlap)| ==> TrueStart(text, size, overlap, j))
            <==> !IsSpace(text[0])
                 && forall j :: 0 < j < |WindowsOf(text, size, overlap)| ==> NoEarlier(text, size, overlap, j)
  {
    var n := |NaiveChunks(text, size, overlap)|;
    EmptyIffBlank(text, size, overlap);
    FirstStartIff(text, size, overlap);
    if forall j :: 0 <= j < n ==> TrueStart(text, size, overlap, j) {
      assert TrueStart(text, size, overlap, 0);
      forall j | 0 < j < n ensures NoEarlier(text, size, overlap, j) {
        var i := j - 1;
        assert TrueStart(text, size, overlap, i);
        NextTrueStartIff(text, size, overlap, j);
      }
    } else if !IsSpace(text[0]) && forall j :: 0 < j < n ==> NoEarlier(text, size, overlap, j) {
      forall j | 0 <= j < n ensures TrueStart(text, size, overlap, j) {
        TrueStartsUpTo(text, size, overlap, j);
      }
    }
  }

  // ---------- A chunk that is reported too early ----------

  const REPEATED := "A B. B. C."

  lemma RepeatedBreaks()
    ensures forall p :: 0 <= p <= 10 ==> (BreakAt(REPEATED, p) <==> p == 4 || p == 7)
    ensures SkipLeft(REPEATED, 4, 10) == 5 && SkipLeft(REPEATED, 7, 10) == 8
  {
    assert SkipLeft(REPEATED, 4, 10) == 5 && SkipLeft(REPEATED, 7, 10) == 8;
    forall p | 0 <= p <= 10 ensures BreakAt(REPEATED, p) <==> p == 4 || p == 7 {
      assert p != 4 && 0 < p < 10 && Closes(REPEATED[p - 1]) ==> p == 7;
    }
  }

  lemma RepeatedSplit()
    ensures Split(REPEATED) == [Span(0, 4), Span(5, 7), Span(8, 10)]
  {
    var spans := [Span(0, 4), Span(5, 7), Span(8, 10)];
    RepeatedBreaks();
    forall k | 0 <= k < 3 ensures IsSentence(REPEATED, spans[k]) {
    }
    forall k, m | 0 <= k < 3 && m == k + 1 && m < 3 ensures Adjacent(REPEATED, spans[k], spans[m]) {
    }
    SplitExact(REPEATED);
    ExactIsUnique(REPEATED, 0, Split(REPEATED), spans);
  }

  lemma RepeatedSentences()
    ensures SentencesOf(REPEATED) == ["A B.", "B.", "C."]
  {
    RepeatedSplit();
    var sents := SentencesOf(REPEATED);
    assert |sents| == 3;
    assert sents[0] == REPEATED[0..4] == "A B.";
    assert sents[1] == REPEATED[5..7] == "B.";
    assert sents[2] == REPEATED[8..10] == "C.";
  }

  lemma OneWord(c: char)
    requires !IsSpace(c)
    ensures WordCount([c, '.']) == 1 && WordCount([c]) == 1
  {
    WordCountSnoc([], c);
    WordCountSnoc([c], '.');
    assert [] + [c] == [c] && [c] + ['.'] == [c, '.'];
  }

  lemma RepeatedCounts()
    ensures Counts(SentencesOf(REPEATED)) == [2, 1, 1]
  {
    RepeatedSentences();
    OneWord('A');
    OneWord('B');
    OneWord('C');
    WordsAcross("A", ' ', "B.");
    assert "A" + " " + "B." == "A B.";
  }

  lemma RepeatedPlan()
    ensures AllWindows([2, 1, 1], 2, 0) == [Window(0, 1), Window(0, 2), Window(1, 3)]
  {
    var w: seq<nat> := [2, 1, 1];
    assert Sum(w, 0, 1) == 2 && Sum(w, 0, 2) == 3;
    assert Plan(w, 2, 1, 1, 3) == [Window(1, 3)];
    assert Plan(w, 2, 1, 0, 2) == [Window(0, 2)] + Plan(w, 2, 1, 1, 3);
    assert Plan(w, 2, 1, 0, 1) == [Window(0, 1)] + Plan(w, 2, 1, 0, 2);
  }

  /** In this text the sentence "B." also ends the first sentence. The third chunk, which begins with it, is
      reported there, at position 2, and not at position 5, where it was taken from. */
  lemma RepeatedSentenceStartsEarly()
    ensures |NaiveChunks(REPEATED, 2, 0)| == 3 && NaiveChunks(REPEATED, 2, 0)[2].start == 2
    ensures Split(REPEATED)[WindowsOf(REPEATED, 2, 0)[2].lo].lo == 5
  {
    RepeatedSplit();
    RepeatedSentences();
    RepeatedCounts();
    RepeatedPlan();
    var sents, ws := SentencesOf(REPEATED), WindowsOf(REPEATED, 2, 0);
    assert ws == [Window(0, 1), Window(0, 2), Window(1, 3)];
    NaiveChunkAt(REPEATED, 2, 0, 2);
    assert OccursAt(REPEATED, "A B.", 0) && OccursAt(REPEATED, "B.", 2);
    assert StartOf(REPEATED, sents, ws, 1) == Find(REPEATED, "A B.", 0) == 0;
    assert !OccursAt(REPEATED, "B.", 0) && !OccursAt(REPEATED, "B.", 1);
    assert StartOf(REPEATED, sents, ws, 2) == Find(REPEATED, "B.", 0) == 2;
  }

  // ---------- The loop ----------

  lemma PlanFirst(w: seq<nat>, size: int, k: nat, lo: nat, i: nat)
    requires lo <= i <= |w| && (lo < i || i < |w|)
    ensures Plan(w, size, k, lo, i) != [] && Plan(w, size, k, lo, i)[0].lo == lo
    decreases |w| - i
  {
    if i < |w| && (lo == i || Fits(w, size, lo, i)) {
      PlanFirst(w, size, k, lo, i + 1);
    }
  }

  /** The windows that are still to come, when `done` windows have been flushed. */
  predicate ToCome(w: seq<nat>, size: int, overlap: int, done: nat, lo: nat, i: nat) {
    && lo <= i <= |w| && (lo < i || i == 0) && done <= |AllWindows(w, size, overlap)|
    && AllWindows(w, size, overlap)[done..] == Plan(w, size, Shared(overlap), lo, i)
  }

  lemma ComesNext(w: seq<nat>, size: int, overlap: int, done: nat, lo: nat, i: nat)
    requires ToCome(w, size, overlap, done, lo, i) && w != []
    ensures done < |AllWindows(w, size, overlap)| && AllWindows(w, size, overlap)[done].lo == lo
    ensures i < |w| && (lo == i || Fits(w, size, lo, i)) ==> ToCome(w, size, overlap, done, lo, i + 1)
    ensures i == |w| ==> AllWindows(w, size, overlap)[done] == Window(lo, i) && |AllWindows(w, size, overlap)| == done + 1
  {
    PlanFirst(w, size, Shared(overlap), lo, i);
  }

  lemma FlushesNext(w: seq<nat>, size: int, overlap: int, done: nat, lo: nat, i: nat)
    requires ToCome(w, size, overlap, done, lo, i) && lo < i < |w| && !Fits(w, size, lo, i)
    ensures var ws, lo' := AllWindows(w, size, overlap), NextLo(lo, i, Shared(overlap));
            && done + 1 < |ws| && ws[done] == Window(lo, i) && ws[done + 1].lo == lo'
            && ToCome(w, size, overlap, done + 1, lo', i + 1)
  {
    var ws, lo' := AllWindows(w, size, overlap), NextLo(lo, i, Shared(overlap));
    var rest := Plan(w, size, Shared(overlap), lo', i + 1);
    PlanFirst(w, size, Shared(overlap), lo', i + 1);
    assert ws[done..] == [Window(lo, i)] + rest;
    assert ws[done] == ws[done..][0] && ws[done + 1] == ws[done..][1];
    assert ws[done + 1..] == ws[done..][1..];
  }

  lemma {:induction false} SumOfSlice(sents: seq<string>, lo: nat, hi: nat, a: nat, b: nat)
    requires lo <= hi <= |sents| && a <= b <= hi - lo
    ensures Sum(Counts(sents[lo..hi]), a, b) == Sum(Counts(sents), lo + a, lo + b)
    decreases b
  {
    if a < b {
      SumOfSlice(sents, lo, hi, a, b - 1);
    }
  }

  /** The current window holds the sentences lo..i. */
  predicate Holding(sents: seq<string>, lo: nat, i: nat, current: seq<string>, currentLen: int) {
    lo <= i <= |sents| && current == sents[lo..i] && currentLen == Sum(Counts(sents), lo, i)
  }

  /** The chunks of the first windows have been emitted; the cursor is the start of the next one. */
  predicate Emitted(text: string, sents: seq<string>, ws: seq<Window>, cursor: int, chunks: seq<Chunk>) {
    && Over(ws, |sents|) && |chunks| < |ws| && chunks == ChunksUpTo(text, sents, ws, |chunks|)
    && cursor == StartOf(text, sents, ws, |chunks|)
  }

  /** The variables of the loop before sentence i. */
  predicate Looping(text: string, sents: seq<string>, size: int, overlap: int, i: nat, lo: nat,
                    current: seq<string>, currentLen: int, cursor: int, chunks: seq<Chunk>) {
    && ToCome(Counts(sents), size, overlap, |chunks|, lo, i) && Holding(sents, lo, i, current, currentLen)
    && Emitted(text, sents, AllWindows(Counts(sents), size, overlap), cursor, chunks)
  }

  lemma Begin(text: string, sents: seq<string>, size: int, overlap: int)
    requires sents != []
    ensures Looping(text, sents, size, overlap, 0, 0, [], 0, 0, [])
  {
    WindowsOver(Counts(sents), size, overlap);
    ComesNext(Counts(sents), size, overlap, 0, 0, 0);
  }

  lemma HoldMore(sents: seq<string>, lo: nat, i: nat, current: seq<string>, currentLen: int)
    requires Holding(sents, lo, i, current, currentLen) && i < |sents|
    ensures Holding(sents, lo, i + 1, current + [sents[i]], currentLen + WordCount(sents[i]))
  {
  }

  lemma LastOfSlice(sents: seq<string>, lo: nat, i: nat, k: nat)
    requires lo <= i <= |sents|
    ensures LastOf(sents[lo..i], k) == sents[NextLo(lo, i, k)..i]
  {
    var slice, lo' := sents[lo..i], NextLo(lo, i, k);
    assert LastOf(slice, k) == slice[lo' - lo..];
    forall m | 0 <= m < i - lo' ensures slice[lo' - lo..][m] == sents[lo'..i][m] {
    }
  }

  lemma HoldSlice(sents: seq<string>, lo: nat, i: nat)
    requires lo <= i <= |sents|
    ensures var slice := sents[lo..i]; Holding(sents, lo, i, slice, Sum(Counts(slice), 0, |slice|))
  {
    SumOfSlice(sents, lo, i, 0, i - lo);
  }

  lemma HoldRepeated(sents: seq<string>, lo: nat, i: nat, k: nat)
    requires lo < i <= |sents| && k >= 1
    ensures var repeated := LastOf(sents[lo..i], k);
            repeated != [] && repeated[0] == sents[NextLo(lo, i, k)]
            && Holding(sents, NextLo(lo, i, k), i, repeated, Sum(Counts(repeated), 0, |repeated|))
  {
    LastOfSlice(sents, lo, i, k);
    HoldSlice(sents, NextLo(lo, i, k), i);
  }

  lemma EmitNext(text: string, sents: seq<string>, ws: seq<Window>, cursor: int, chunks: seq<Chunk>)
    requires Emitted(text, sents, ws, cursor, chunks) && |chunks| + 1 < |ws|
    ensures var a, b := ws[|chunks|], ws[|chunks| + 1];
            Emitted(text, sents, ws, FindFrom(text, sents[b.lo], cursor),
                    chunks + [Flushed(Join(sents[a.lo..a.hi]), |chunks|, cursor)])
  {
    var n := |chunks|;
    assert ChunksUpTo(text, sents, ws, n + 1) == chunks + [ChunkOf(text, sents, ws, n)];
  }

  lemma EmitLast(text: string, size: int, overlap: int, cursor: int, chunks: seq<Chunk>)
    requires var sents, ws := SentencesOf(text), WindowsOf(text, size, overlap);
             Emitted(text, sents, ws, cursor, chunks) && |chunks| + 1 == |ws|
    ensures var last := WindowsOf(text, size, overlap)[|chunks|];
            NaiveChunks(text, size, overlap)
            == chunks + [Flushed(Join(SentencesOf(text)[last.lo..last.hi]), |chunks|, cursor)]
  {
  }

  /** The window is full: its chunk is emitted and its last sentences are kept. */
  lemma {:induction false} FlushKeepsLoop(text: string, sents: seq<string>, size: int, overlap: int, i: nat, lo: nat,
                       current: seq<string>, currentLen: int, cursor: int, chunks: seq<Chunk>)
    requires i < |sents| && Looping(text, sents, size, overlap, i, lo, current, currentLen, cursor, chunks)
    requires current != [] && currentLen + WordCount(sents[i]) > size
    ensures var repeated, lo' := LastOf(current, Shared(overlap)), NextLo(lo, i, Shared(overlap));
            && repeated != []
            && Looping(text, sents, size, overlap, i + 1, lo', repeated + [sents[i]],
                       Sum(Counts(repeated), 0, |repeated|) + WordCount(sents[i]),
                       FindFrom(text, repeated[0], cursor), chunks + [Flushed(Join(current), |chunks|, cursor)])
  {
    var w, ws, k := Counts(sents), AllWindows(Counts(sents), size, overlap), Shared(overlap);
    var repeated := LastOf(current, k);
    FlushesNext(w, size, overlap, |chunks|, lo, i);
    EmitNext(text, sents, ws, cursor, chunks);
    HoldRepeated(sents, lo, i, k);
    HoldMore(sents, NextLo(lo, i, k), i, repeated, Sum(Counts(repeated), 0, |repeated|));
  }

  /** The window takes the sentence. */
  lemma TakeKeepsLoop(text: string, sents: seq<string>, size: int, overlap: int, i: nat, lo: nat,
                      current: seq<string>, currentLen: int, cursor: int, chunks: seq<Chunk>)
    requires i < |sents| && Looping(text, sents, size, overlap, i, lo, current, currentLen, cursor, chunks)
    requires current == [] || currentLen + WordCount(sents[i]) <= size
    ensures Looping(text, sents, size, overlap, i + 1, lo, current + [sents[i]],
                    currentLen + WordCount(sents[i]), cursor, chunks)
  {
    ComesNext(Counts(sents), size, overlap, |chunks|, lo, i);
    HoldMore(sents, lo, i, current, currentLen);
  }

  /** One round of the loop of `_chunk_naive`: sentence i, when the window began at sentence lo. */
  method Advance(text: string, sents: seq<string>, size: int, overlap: int, i: nat, lo: nat,
                 current: seq<string>, currentLen: int, cursor: int, chunks: seq<Chunk>)
    returns (lo': nat, current': seq<string>, currentLen': int, cursor': int, chunks': seq<Chunk>)
    requires i < |sents| && Looping(text, sents, size, overlap, i, lo, current, currentLen, cursor, chunks)
    ensures Looping(text, sents, size, overlap, i + 1, lo', current', currentLen', cursor', chunks')
  {
    var words := WordCount(sents[i]);
    lo', current', currentLen', cursor', chunks' := lo, current, currentLen, cursor, chunks;
    if currentLen + words > size && current != [] {
      FlushKeepsLoop(text, sents, size, overlap, i, lo, current, currentLen, cursor, chunks);
      chunks' := chunks + [Flushed(Join(current), |chunks|, cursor)];
      current', lo' := LastOf(current, Shared(overlap)), NextLo(lo, i, Shared(overlap));
      currentLen' := Sum(Counts(current'), 0, |current'|);
      cursor' := FindFrom(text, current'[0], cursor);
    } else {
      TakeKeepsLoop(text, sents, size, overlap, i, lo, current, currentLen, cursor, chunks);
    }
    current', currentLen' := current' + [sents[i]], currentLen' + words;
  }

  /** `_chunk_naive`. */
  method ChunkNaive(text: string, size: int, overlap: int) returns (chunks: seq<Chunk>)
    ensures chunks == NaiveChunks(text, size, overlap)
  {
    var sents := SentencesOf(text);
    chunks := [];
    if sents == [] {
      return;
    }
    var current: seq<string> := [];
    var currentLen, cursor, i := 0, 0, 0;
    var lo := 0;
    Begin(text, sents, size, overlap);
    while i < |sents|
      invariant 0 <= i <= |sents| && Looping(text, sents, size, overlap, i, lo, current, currentLen, cursor, chunks)
    {
      lo, current, currentLen, cursor, chunks :=
        Advance(text, sents, size, overlap, i, lo, current, currentLen, cursor, chunks);
      i := i + 1;
    }
    ComesNext(Counts(sents), size, overlap, |chunks|, lo, i);
    EmitLast(text, size, overlap, cursor, chunks);
    chunks := chunks + [Flushed(Join(current), |chunks|, cursor)];
  }
}
