/** The tail of retrieval: rescore and rerank, drop repeated texts, cap each source, truncate. */
module ChunkSelection {
  import opened StableSort
  import opened Sequences

  datatype Chunk = Chunk(id: string, source: string, text: string, score: real, rank: nat)

  /** How two parts of the pipeline read a text: its number of words shared with the query, and its
      lower-cased form with single spaces. */
  datatype Reader = Reader(overlap: string -> nat, norm: string -> string)

  type Key = (string, string)

  function KeyOf(r: Reader, c: Chunk): Key {
    (c.source, r.norm(c.text))
  }

  // ---------- Reranking ----------

  function Rescored(r: Reader, c: Chunk): Chunk {
    c.(score := c.score + r.overlap(c.text) as real * 0.1)
  }

  function RescoreAll(r: Reader, chunks: seq<Chunk>): (s: seq<Chunk>)
    ensures |s| == |chunks|
  {
    seq(|chunks|, i requires 0 <= i < |chunks| => Rescored(r, chunks[i]))
  }

  /** `key=score, reverse=True`. */
  predicate AtLeast(a: Chunk, b: Chunk) {
    a.score >= b.score
  }

  function Renumber(chunks: seq<Chunk>): (s: seq<Chunk>)
    ensures |s| == |chunks|
    ensures forall i :: 0 <= i < |s| ==> s[i] == chunks[i].(rank := i + 1)
  {
    seq(|chunks|, i requires 0 <= i < |chunks| => chunks[i].(rank := i + 1))
  }

  function Reranked(r: Reader, chunks: seq<Chunk>): seq<Chunk> {
    Renumber(Sort(RescoreAll(r, chunks), AtLeast))
  }

  method RerankChunks(r: Reader, chunks: seq<Chunk>) returns (out: seq<Chunk>)
    ensures out == Reranked(r, chunks)
  {
    var scored: seq<Chunk> := [];
    for i := 0 to |chunks|
      invariant scored == RescoreAll(r, chunks[..i])
    {
      scored := scored + [Rescored(r, chunks[i])];
    }
    assert chunks[..|chunks|] == chunks;
    scored := Sort(scored, AtLeast);
    out := Renumber(scored);
  }

  lemma AtLeastIsOrder()
    ensures TotalPreorder(AtLeast)
  {
  }

  /** Reranking permutes the rescored chunks into non-increasing order and numbers them from one;
      chunks with equal scores keep their order. */
  lemma RerankedIsExact(r: Reader, chunks: seq<Chunk>, score: real)
    ensures var out := Reranked(r, chunks);
            && |out| == |chunks|
            && Pairwise(out, Ranked)
            && (forall i :: 0 <= i < |out| ==> out[i].rank == i + 1)
    ensures multiset(Sort(RescoreAll(r, chunks), AtLeast)) == multiset(RescoreAll(r, chunks))
    ensures Filter(Sort(RescoreAll(r, chunks), AtLeast), (c: Chunk) => c.score == score) ==
            Filter(RescoreAll(r, chunks), (c: Chunk) => c.score == score)
  {
    AtLeastIsOrder();
    SortSorted(RescoreAll(r, chunks), AtLeast);
    SortStable(RescoreAll(r, chunks), AtLeast, (c: Chunk) => c.score == score);
  }

  /** Reranking in terms of the chunks that come in: chunk i of the result is chunk p[i] with a tenth added to its score
      for each word that it shares with the query, and with rank i + 1; the scores do not increase, and where they are
      equal the order is the old one. So of two chunks that scored alike, the one that shares more words comes first. */
  lemma {:induction false} RerankedIs(r: Reader, chunks: seq<Chunk>) returns (p: seq<nat>)
    ensures Places(p, |chunks|) && |Reranked(r, chunks)| == |chunks|
    ensures forall i :: 0 <= i < |chunks| ==>
              var c, out := chunks[p[i]], Reranked(r, chunks)[i];
              && out.id == c.id && out.source == c.source && out.text == c.text && out.rank == i + 1
              && out.score == c.score + r.overlap(c.text) as real / 10.0
    ensures forall i, j :: 0 <= i < j < |chunks| ==>
              var a, b := Reranked(r, chunks)[i].score, Reranked(r, chunks)[j].score;
              a > b || (a == b && p[i] < p[j])
    ensures forall i, j :: 0 <= i < |chunks| && 0 <= j < |chunks| ==>
              var a, b := chunks[p[i]], chunks[p[j]];
              a.score == b.score && r.overlap(a.text) > r.overlap(b.text) ==> i < j
  {
    var scored, out := RescoreAll(r, chunks), Reranked(r, chunks);
    AtLeastIsOrder();
    SortSorted(scored, AtLeast);
    p := SortPermutes(scored, AtLeast);
    forall i | 0 <= i < |chunks| ensures out[i] == Rescored(r, chunks[p[i]]).(rank := i + 1) {
    }
    forall i, j | 0 <= i < j < |chunks| ensures out[i].score > out[j].score || (out[i].score == out[j].score && p[i] < p[j]) {
      assert AtLeast(Sort(scored, AtLeast)[i], Sort(scored, AtLeast)[j]);
      assert AtLeast(scored[p[j]], scored[p[i]]) ==> p[i] < p[j];
    }
  }

  // ---------- Subsequences ----------

  /** `ys` is `xs` with some elements left out. */
  predicate IsSub<T(==)>(ys: seq<T>, xs: seq<T>)
    decreases |xs|
  {
    if ys == [] then true
    else if xs == [] then false
    else
      || (ys[|ys| - 1] == xs[|xs| - 1] && IsSub(ys[..|ys| - 1], xs[..|xs| - 1]))
      || IsSub(ys, xs[..|xs| - 1])
  }

  ghost predicate Pairwise<T>(xs: seq<T>, rel: (T, T) -> bool) {
    forall i, j :: 0 <= i < j < |xs| ==> rel(xs[i], xs[j])
  }

  lemma {:induction false} SubMembers<T>(ys: seq<T>, xs: seq<T>, y: T)
    requires IsSub(ys, xs) && y in ys
    ensures y in xs
    decreases |xs|
  {
    var n, m := |ys| - 1, |xs| - 1;
    assert ys == ys[..n] + [ys[n]] && xs == xs[..m] + [xs[m]];
    if ys[n] == xs[m] && IsSub(ys[..n], xs[..m]) {
      if y in ys[..n] {
        SubMembers(ys[..n], xs[..m], y);
      }
    } else {
      SubMembers(ys, xs[..m], y);
    }
  }

  /** What relates every earlier to every later element of a list does so in its subsequences. */
  lemma {:induction false} SubPairwise<T>(ys: seq<T>, xs: seq<T>, rel: (T, T) -> bool)
    requires IsSub(ys, xs) && Pairwise(xs, rel)
    ensures Pairwise(ys, rel)
    decreases |xs|
  {
    if ys != [] {
      var n, m := |ys| - 1, |xs| - 1;
      if ys[n] == xs[m] && IsSub(ys[..n], xs[..m]) {
        SubPairwise(ys[..n], xs[..m], rel);
        forall i | 0 <= i < n ensures rel(ys[i], ys[n]) {
          SubMembers(ys[..n], xs[..m], ys[..n][i]);
        }
        assert forall i :: 0 <= i < n ==> ys[i] == ys[..n][i];
      } else {
        SubPairwise(ys, xs[..m], rel);
      }
    }
  }

  lemma {:induction false} SubTransitive<T>(zs: seq<T>, ys: seq<T>, xs: seq<T>)
    requires IsSub(zs, ys) && IsSub(ys, xs)
    ensures IsSub(zs, xs)
    decreases |xs|
  {
    if zs != [] {
      var k, n, m := |zs| - 1, |ys| - 1, |xs| - 1;
      if ys[n] == xs[m] && IsSub(ys[..n], xs[..m]) {
        if zs[k] == ys[n] && IsSub(zs[..k], ys[..n]) {
          SubTransitive(zs[..k], ys[..n], xs[..m]);
        } else {
          SubTransitive(zs, ys[..n], xs[..m]);
        }
      } else {
        SubTransitive(zs, ys, xs[..m]);
      }
    }
  }

  lemma {:induction false} PrefixIsSub<T>(xs: seq<T>, n: nat)
    requires n <= |xs|
    ensures IsSub(xs[..n], xs)
    decreases |xs|
  {
    if n < |xs| {
      PrefixIsSub(xs[..|xs| - 1], n);
      assert xs[..|xs| - 1][..n] == xs[..n];
    } else if n > 0 {
      PrefixIsSub(xs[..n - 1], n - 1);
      assert xs[..n] == xs && xs[..n - 1][..n - 1] == xs[..n - 1];
    }
  }

  /** Order of score, and of rank. */
  predicate Ranked(a: Chunk, b: Chunk) {
    a.score >= b.score && a.rank < b.rank
  }

  // ---------- Dropping repeated texts ----------

  predicate KeySeen(r: Reader, chunks: seq<Chunk>, n: nat, key: Key)
    requires n <= |chunks|
  {
    exists q :: 0 <= q < n && KeyOf(r, chunks[q]) == key
  }

  /** Of the first `n` chunks, the first of each key. */
  function Deduped(r: Reader, chunks: seq<Chunk>, n: nat): seq<Chunk>
    requires n <= |chunks|
  {
    if n == 0 then []
    else
      var before, c := Deduped(r, chunks, n - 1), chunks[n - 1];
      if KeySeen(r, chunks, n - 1, KeyOf(r, c)) then before else before + [c]
  }

  method DedupeChunks(r: Reader, chunks: seq<Chunk>) returns (unique: seq<Chunk>)
    ensures unique == Deduped(r, chunks, |chunks|)
  {
    unique := [];
    var seen: set<Key> := {};
    for n := 0 to |chunks|
      invariant unique == Deduped(r, chunks, n)
      invariant forall key :: key in seen <==> KeySeen(r, chunks, n, key)
    {
      var key := KeyOf(r, chunks[n]);
      if key in seen {
        continue;
      }
      seen := seen + {key};
      unique := unique + [chunks[n]];
    }
  }

  lemma {:induction false} DedupedIsSub(r: Reader, chunks: seq<Chunk>, n: nat)
    requires n <= |chunks|
    ensures IsSub(Deduped(r, chunks, n), chunks[..n])
  {
    if n > 0 {
      DedupedIsSub(r, chunks, n - 1);
      AppendKeepsSub(Deduped(r, chunks, n - 1), chunks[..n - 1], chunks[n - 1]);
      assert chunks[..n] == chunks[..n - 1] + [chunks[n - 1]];
    }
  }

  lemma AppendKeepsSub<T>(ys: seq<T>, xs: seq<T>, x: T)
    requires IsSub(ys, xs)
    ensures IsSub(ys, xs + [x]) && IsSub(ys + [x], xs + [x])
  {
    assert (xs + [x])[..|xs|] == xs && (ys + [x])[..|ys|] == ys;
  }

  ghost predicate DistinctKeys(r: Reader, chunks: seq<Chunk>) {
    forall i, j :: 0 <= i < j < |chunks| ==> KeyOf(r, chunks[i]) != KeyOf(r, chunks[j])
  }

  /** No two chunks left have the same source and text, and every key that was there is still there. */
  lemma {:induction false} DedupedIsExact(r: Reader, chunks: seq<Chunk>, n: nat)
    requires n <= |chunks|
    ensures var unique := Deduped(r, chunks, n);
            && DistinctKeys(r, unique)
            && (forall key :: KeySeen(r, unique, |unique|, key) <==> KeySeen(r, chunks, n, key))
  {
    if n > 0 {
      DedupedIsExact(r, chunks, n - 1);
      var before, after := Deduped(r, chunks, n - 1), Deduped(r, chunks, n);
      forall key ensures KeySeen(r, after, |after|, key) <==> KeySeen(r, chunks, n, key) {
        assert KeySeen(r, chunks, n, key) <==> KeySeen(r, chunks, n - 1, key) || KeyOf(r, chunks[n - 1]) == key;
        if |after| > |before| {
          assert KeySeen(r, after, |after|, key) <==> KeySeen(r, before, |before|, key) || KeyOf(r, chunks[n - 1]) == key by {
            assert after[|before|] == chunks[n - 1];
            assert forall q :: 0 <= q < |before| ==> after[q] == before[q];
          }
        }
      }
      assert forall q :: 0 <= q < |before| ==> KeySeen(r, before, |before|, KeyOf(r, before[q]));
    }
  }

  lemma {:induction false} DistinctStay(r: Reader, chunks: seq<Chunk>, n: nat)
    requires DistinctKeys(r, chunks) && n <= |chunks|
    ensures Deduped(r, chunks, n) == chunks[..n]
  {
    if n > 0 {
      DistinctStay(r, chunks, n - 1);
    }
  }

  lemma DedupeIdempotent(r: Reader, chunks: seq<Chunk>)
    ensures var unique := Deduped(r, chunks, |chunks|);
            Deduped(r, unique, |unique|) == unique
  {
    var unique := Deduped(r, chunks, |chunks|);
    DedupedIsExact(r, chunks, |chunks|);
    DistinctStay(r, unique, |unique|);
  }

  // ---------- Capping each source ----------

  function CountSource(chunks: seq<Chunk>, n: nat, source: string): nat
    requires n <= |chunks|
  {
    if n == 0 then 0 else CountSource(chunks, n - 1, source) + (if chunks[n - 1].source == source then 1 else 0)
  }

  function Least(a: nat, b: int): nat {
    if b < 0 then 0 else if a < b then a else b
  }

  /** Of the first `n` chunks, those with fewer than `cap` earlier chunks of the same source. */
  function Capped(chunks: seq<Chunk>, n: nat, cap: int): seq<Chunk>
    requires n <= |chunks|
  {
    if n == 0 then []
    else
      var before, c := Capped(chunks, n - 1, cap), chunks[n - 1];
      if CountSource(chunks, n - 1, c.source) < cap then before + [c] else before
  }

  method CapPerSource(chunks: seq<Chunk>, cap: int) returns (capped: seq<Chunk>)
    ensures capped == Capped(chunks, |chunks|, cap)
  {
    capped := [];
    var counts: map<string, nat> := map[];
    for n := 0 to |chunks|
      invariant capped == Capped(chunks, n, cap)
      invariant forall s :: (if s in counts then counts[s] else 0) == Least(CountSource(chunks, n, s), cap)
    {
      var source := chunks[n].source;
      var current := if source in counts then counts[source] else 0;
      if current >= cap {
        continue;
      }
      counts := counts[source := current + 1];
      capped := capped + [chunks[n]];
    }
  }

  lemma {:induction false} CappedIsSub(chunks: seq<Chunk>, n: nat, cap: int)
    requires n <= |chunks|
    ensures IsSub(Capped(chunks, n, cap), chunks[..n])
  {
    if n > 0 {
      CappedIsSub(chunks, n - 1, cap);
      AppendKeepsSub(Capped(chunks, n - 1, cap), chunks[..n - 1], chunks[n - 1]);
      assert chunks[..n] == chunks[..n - 1] + [chunks[n - 1]];
    }
  }

  lemma {:induction false} CountPrefix(a: seq<Chunk>, b: seq<Chunk>, n: nat, source: string)
    requires n <= |a| && n <= |b| && forall i :: 0 <= i < n ==> a[i] == b[i]
    ensures CountSource(a, n, source) == CountSource(b, n, source)
  {
    if n > 0 {
      CountPrefix(a, b, n - 1, source);
    }
  }

  /** Each source keeps the smaller of the cap and what it had. */
  lemma {:induction false} CappedCounts(chunks: seq<Chunk>, n: nat, cap: int, source: string)
    requires n <= |chunks|
    ensures var capped := Capped(chunks, n, cap);
            CountSource(capped, |capped|, source) == Least(CountSource(chunks, n, source), cap)
  {
    if n > 0 {
      CappedCounts(chunks, n - 1, cap, source);
      var before, after := Capped(chunks, n - 1, cap), Capped(chunks, n, cap);
      CountPrefix(after, before, |before|, source);
    }
  }

  lemma {:induction false} CappedGrows(chunks: seq<Chunk>, m: nat, n: nat, cap: int)
    requires m <= n <= |chunks|
    ensures Capped(chunks, m, cap) <= Capped(chunks, n, cap)
  {
    if m < n {
      CappedGrows(chunks, m, n - 1, cap);
    }
  }

  /** When the cap drops a chunk of a ranked list, `cap` chunks of its source that score at least as
      high were kept before it. */
  lemma DroppedForBetter(chunks: seq<Chunk>, cap: nat, i: nat)
    requires Pairwise(chunks, Ranked) && i < |chunks| && CountSource(chunks, i, chunks[i].source) >= cap
    ensures var better := Capped(chunks, i, cap);
            && better <= Capped(chunks, |chunks|, cap)
            && CountSource(better, |better|, chunks[i].source) == cap
            && forall c :: c in better ==> c.score >= chunks[i].score
  {
    CappedGrows(chunks, i, |chunks|, cap);
    CappedCounts(chunks, i, cap, chunks[i].source);
    CappedIsSub(chunks, i, cap);
    forall c | c in Capped(chunks, i, cap) ensures c.score >= chunks[i].score {
      SubMembers(Capped(chunks, i, cap), chunks[..i], c);
      var q :| 0 <= q < i && chunks[..i][q] == c;
      assert Ranked(chunks[q], chunks[i]);
    }
  }

  ghost predicate Within(chunks: seq<Chunk>, n: nat, cap: int, source: string)
    requires n <= |chunks|
  {
    CountSource(chunks, n, source) == Least(CountSource(chunks, n, source), cap)
  }

  lemma {:induction false} FewStay(chunks: seq<Chunk>, n: nat, cap: int)
    requires n <= |chunks| && forall s :: Within(chunks, n, cap, s)
    ensures Capped(chunks, n, cap) == chunks[..n]
  {
    if n > 0 {
      var m := n - 1;
      forall s ensures Within(chunks, m, cap, s) {
        assert Within(chunks, n, cap, s);
      }
      FewStay(chunks, m, cap);
      assert Within(chunks, n, cap, chunks[n - 1].source);
    }
  }

  lemma CapIdempotent(chunks: seq<Chunk>, cap: int)
    ensures var capped := Capped(chunks, |chunks|, cap);
            Capped(capped, |capped|, cap) == capped
  {
    var capped := Capped(chunks, |chunks|, cap);
    forall s ensures Within(capped, |capped|, cap, s) {
      CappedCounts(chunks, |chunks|, cap, s);
    }
    FewStay(capped, |capped|, cap);
  }

  // ---------- The whole selection ----------

  function Unique(r: Reader, chunks: seq<Chunk>, dedupe: bool): seq<Chunk> {
    if dedupe then Deduped(r, chunks, |chunks|) else chunks
  }

  function Selected(r: Reader, chunks: seq<Chunk>, dedupe: bool, cap: int, topK: int): seq<Chunk> {
    var unique := Unique(r, Reranked(r, chunks), dedupe);
    FirstOf(Capped(unique, |unique|, cap), topK)
  }

  method Select(r: Reader, chunks: seq<Chunk>, dedupe: bool, cap: int, topK: int) returns (out: seq<Chunk>)
    ensures out == Selected(r, chunks, dedupe, cap, topK)
  {
    out := RerankChunks(r, chunks);
    if dedupe {
      out := DedupeChunks(r, out);
    }
    out := CapPerSource(out, cap);
    out := FirstOf(out, topK);
  }

  predicate OtherKey(r: Reader, a: Chunk, b: Chunk) {
    KeyOf(r, a) != KeyOf(r, b)
  }

  lemma {:induction false} CountInSub(ys: seq<Chunk>, xs: seq<Chunk>, source: string)
    requires IsSub(ys, xs)
    ensures CountSource(ys, |ys|, source) <= CountSource(xs, |xs|, source)
    decreases |xs|
  {
    if ys != [] {
      var n, m := |ys| - 1, |xs| - 1;
      CountPrefix(ys, ys[..n], n, source);
      CountPrefix(xs, xs[..m], m, source);
      if ys[n] == xs[m] && IsSub(ys[..n], xs[..m]) {
        CountInSub(ys[..n], xs[..m], source);
      } else {
        CountInSub(ys, xs[..m], source);
      }
    }
  }

  lemma UniqueIsSub(r: Reader, chunks: seq<Chunk>, dedupe: bool)
    ensures IsSub(Unique(r, chunks, dedupe), chunks)
  {
    assert chunks[..|chunks|] == chunks;
    DedupedIsSub(r, chunks, |chunks|);
    PrefixIsSub(chunks, |chunks|);
  }

  /** Capping and truncating take a subsequence, within the cap of each source. */
  lemma TailIsSub(unique: seq<Chunk>, cap: int, topK: int, source: string)
    ensures var out := FirstOf(Capped(unique, |unique|, cap), topK);
            IsSub(out, unique) && CountSource(out, |out|, source) <= Least(CountSource(unique, |unique|, source), cap)
  {
    var capped := Capped(unique, |unique|, cap);
    var out := FirstOf(capped, topK);
    assert unique[..|unique|] == unique;
    CappedIsSub(unique, |unique|, cap);
    PrefixIsSub(capped, |out|);
    assert out == capped[..|out|];
    SubTransitive(out, capped, unique);
    CappedCounts(unique, |unique|, cap, source);
    CountInSub(out, capped, source);
  }

  /** What is selected is a subsequence of the reranked chunks: in order of score and rank, with no
      repeated text of a source when that is asked for, and within the cap of each source. */
  lemma SelectedIsSound(r: Reader, chunks: seq<Chunk>, dedupe: bool, cap: int, topK: int, source: string)
    ensures var out := Selected(r, chunks, dedupe, cap, topK);
            && IsSub(out, Reranked(r, chunks))
            && Pairwise(out, Ranked)
            && (dedupe ==> Pairwise(out, (a, b) => OtherKey(r, a, b)))
            && (cap >= 0 ==> CountSource(out, |out|, source) <= cap)
  {
    var reranked := Reranked(r, chunks);
    var unique := Unique(r, reranked, dedupe);
    var out := Selected(r, chunks, dedupe, cap, topK);
    UniqueIsSub(r, reranked, dedupe);
    TailIsSub(unique, cap, topK, source);
    SubTransitive(out, unique, reranked);
    RerankedIsExact(r, chunks, 0.0);
    SubPairwise(out, reranked, Ranked);
    if dedupe {
      DedupedIsExact(r, reranked, |reranked|);
      SubPairwise(out, unique, (a, b) => OtherKey(r, a, b));
    }
  }

  // ---------- Exactly which chunks are selected ----------

  /** Chunk m is not left out as a repetition: no chunk of its source before it has the same text. */
  predicate Fresh(r: Reader, chunks: seq<Chunk>, m: nat, dedupe: bool) {
    && m < |chunks|
    && (dedupe ==> forall q :: 0 <= q < m ==>
          chunks[q].source != chunks[m].source || r.norm(chunks[q].text) != r.norm(chunks[m].text))
  }

  /** The numbers below n that satisfy p. */
  function Below(p: nat -> bool, n: nat): set<nat> {
    set q: nat | q < n && p(q)
  }

  /** The fresh chunks of a source before place m. */
  function FreshBefore(r: Reader, chunks: seq<Chunk>, m: nat, dedupe: bool, source: string): set<nat> {
    Below((q: nat) => q < |chunks| && chunks[q].source == source && Fresh(r, chunks, q, dedupe), m)
  }

  /** Chunk m is fresh, and fewer than `cap` fresh chunks of its source come before it. */
  predicate Keeps(r: Reader, chunks: seq<Chunk>, m: nat, dedupe: bool, cap: int) {
    Fresh(r, chunks, m, dedupe) && |FreshBefore(r, chunks, m, dedupe, chunks[m].source)| < cap
  }

  /** What is left of the first n chunks before the cap. */
  function UniqueUpTo(r: Reader, chunks: seq<Chunk>, dedupe: bool, n: nat): seq<Chunk>
    requires n <= |chunks|
  {
    if dedupe then Deduped(r, chunks, n) else chunks[..n]
  }

  lemma {:induction false} UniqueNext(r: Reader, chunks: seq<Chunk>, dedupe: bool, n: nat)
    requires 1 <= n <= |chunks|
    ensures UniqueUpTo(r, chunks, dedupe, n)
            == UniqueUpTo(r, chunks, dedupe, n - 1) + (if Fresh(r, chunks, n - 1, dedupe) then [chunks[n - 1]] else [])
  {
    var m := n - 1;
    assert chunks[..n] == chunks[..m] + [chunks[m]];
    if dedupe {
      assert Fresh(r, chunks, m, dedupe) <==> !KeySeen(r, chunks, m, KeyOf(r, chunks[m]));
    }
  }

  /** Deduplication keeps, in order, exactly the chunks before which no chunk of their source has the same text. */
  lemma {:induction false} DedupedAre(r: Reader, chunks: seq<Chunk>, n: nat) returns (q: seq<nat>)
    requires n <= |chunks|
    ensures Increasing(q) && forall m: nat :: m in q <==> m < n && Fresh(r, chunks, m, true)
    ensures |Deduped(r, chunks, n)| == |q| && forall i :: 0 <= i < |q| ==> q[i] < n && Deduped(r, chunks, n)[i] == chunks[q[i]]
  {
    if n == 0 {
      q := [];
    } else {
      q := DedupedAre(r, chunks, n - 1);
      UniqueNext(r, chunks, true, n);
      if Fresh(r, chunks, n - 1, true) {
        q := q + [n - 1];
      }
    }
  }

  lemma {:induction false} BelowNext(p: nat -> bool, n: nat)
    ensures |Below(p, n + 1)| == |Below(p, n)| + (if p(n) then 1 else 0)
  {
    if p(n) {
      assert Below(p, n + 1) == Below(p, n) + {n};
    } else {
      assert Below(p, n + 1) == Below(p, n);
    }
  }

  lemma {:induction false} FreshNext(r: Reader, chunks: seq<Chunk>, dedupe: bool, n: nat, source: string)
    requires 1 <= n <= |chunks|
    ensures |FreshBefore(r, chunks, n, dedupe, source)|
            == |FreshBefore(r, chunks, n - 1, dedupe, source)|
               + (if chunks[n - 1].source == source && Fresh(r, chunks, n - 1, dedupe) then 1 else 0)
  {
    BelowNext((q: nat) => q < |chunks| && chunks[q].source == source && Fresh(r, chunks, q, dedupe), n - 1);
  }

  lemma {:induction false} CountUnique(r: Reader, chunks: seq<Chunk>, dedupe: bool, n: nat, source: string)
    requires n <= |chunks|
    ensures var unique := UniqueUpTo(r, chunks, dedupe, n);
            CountSource(unique, |unique|, source) == |FreshBefore(r, chunks, n, dedupe, source)|
  {
    var unique := UniqueUpTo(r, chunks, dedupe, n);
    if n > 0 {
      var before := UniqueUpTo(r, chunks, dedupe, n - 1);
      CountUnique(r, chunks, dedupe, n - 1, source);
      UniqueNext(r, chunks, dedupe, n);
      FreshNext(r, chunks, dedupe, n, source);
      CountPrefix(unique, before, |before|, source);
    } else {
      assert FreshBefore(r, chunks, 0, dedupe, source) == {};
    }
  }

  lemma {:induction false} CappedPrefix(a: seq<Chunk>, b: seq<Chunk>, n: nat, cap: int)
    requires n <= |a| && n <= |b| && forall i :: 0 <= i < n ==> a[i] == b[i]
    ensures Capped(a, n, cap) == Capped(b, n, cap)
  {
    if n > 0 {
      CappedPrefix(a, b, n - 1, cap);
      CountPrefix(a, b, n - 1, a[n - 1].source);
    }
  }

  function CappedUpTo(r: Reader, chunks: seq<Chunk>, dedupe: bool, cap: int, n: nat): seq<Chunk>
    requires n <= |chunks|
  {
    Capped(UniqueUpTo(r, chunks, dedupe, n), |UniqueUpTo(r, chunks, dedupe, n)|, cap)
  }

  lemma {:induction false} CappedNext(r: Reader, chunks: seq<Chunk>, dedupe: bool, cap: int, n: nat)
    requires 1 <= n <= |chunks|
    ensures CappedUpTo(r, chunks, dedupe, cap, n)
            == CappedUpTo(r, chunks, dedupe, cap, n - 1) + (if Keeps(r, chunks, n - 1, dedupe, cap) then [chunks[n - 1]] else [])
  {
    UniqueNext(r, chunks, dedupe, n);
    CountUnique(r, chunks, dedupe, n - 1, chunks[n - 1].source);
    OneMoreCapped(UniqueUpTo(r, chunks, dedupe, n - 1), chunks[n - 1], cap);
  }

  lemma {:induction false} OneMoreCapped(before: seq<Chunk>, c: Chunk, cap: int)
    ensures Capped(before + [c], |before| + 1, cap)
            == Capped(before, |before|, cap) + (if CountSource(before, |before|, c.source) < cap then [c] else [])
  {
    CappedPrefix(before + [c], before, |before|, cap);
    CountPrefix(before + [c], before, |before|, c.source);
  }

  lemma {:induction false} CappedIs(r: Reader, chunks: seq<Chunk>, dedupe: bool, cap: int, n: nat) returns (q: seq<nat>)
    requires n <= |chunks|
    ensures Increasing(q) && forall m: nat :: m in q <==> m < n && Keeps(r, chunks, m, dedupe, cap)
    ensures var capped := CappedUpTo(r, chunks, dedupe, cap, n);
            |capped| == |q| && forall i :: 0 <= i < |q| ==> q[i] < n && capped[i] == chunks[q[i]]
  {
    if n == 0 {
      q := [];
    } else {
      q := CappedIs(r, chunks, dedupe, cap, n - 1);
      CappedNext(r, chunks, dedupe, cap, n);
      if Keeps(r, chunks, n - 1, dedupe, cap) {
        q := q + [n - 1];
      }
    }
  }

  /** Which chunks are selected, of the reranked ones: in their order, those that repeat no earlier text of their source
      (when that is asked for) and have fewer than `cap` such chunks of their source before them; and of these the
      first `topK`, or, when that is negative, all but the last. */
  lemma {:induction false} SelectedIs(r: Reader, chunks: seq<Chunk>, dedupe: bool, cap: int, topK: int) returns (q: seq<nat>)
    ensures var reranked, out := Reranked(r, chunks), Selected(r, chunks, dedupe, cap, topK);
            && Increasing(q) && (forall m: nat :: m in q <==> m < |reranked| && Keeps(r, reranked, m, dedupe, cap))
            && |out| <= |q| && (forall i :: 0 <= i < |out| ==> q[i] < |reranked| && out[i] == reranked[q[i]])
            && (0 <= topK <= |q| ==> |out| == topK) && (topK >= |q| ==> |out| == |q|)
            && (topK < 0 && |q| + topK >= 0 ==> |out| == |q| + topK) && (|q| + topK < 0 ==> out == [])
  {
    var reranked := Reranked(r, chunks);
    q := CappedIs(r, reranked, dedupe, cap, |reranked|);
    assert UniqueUpTo(r, reranked, dedupe, |reranked|) == Unique(r, reranked, dedupe);
  }
}
