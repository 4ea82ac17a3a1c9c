/** Reciprocal rank fusion of several ranked lists, and the materialisation of the fused list. */
module RankFusion {
  import opened StableSort
  import opened Sequences
  import opened Wrappers

  type Id = string

  datatype Scored = Scored(id: Id, score: real)

  /** What rank `p + 1` is worth. */
  function Worth(k: nat, p: nat): (r: real)
    ensures r > 0.0
  {
    1.0 / (k + p + 1) as real
  }

  /** What an id gets from the first `n` ranks of a list. */
  function ScoreIn(list: seq<Id>, n: nat, id: Id, k: nat): (r: real)
    requires n <= |list|
    ensures r >= 0.0
  {
    if n == 0 then 0.0 else ScoreIn(list, n - 1, id, k) + (if list[n - 1] == id then Worth(k, n - 1) else 0.0)
  }

  /** What an id gets from the first `m` lists. */
  function Score(lists: seq<seq<Id>>, m: nat, id: Id, k: nat): (r: real)
    requires m <= |lists|
    ensures r >= 0.0
  {
    if m == 0 then 0.0 else Score(lists, m - 1, id, k) + ScoreIn(lists[m - 1], |lists[m - 1]|, id, k)
  }

  /** The ids of the first `n` ranks of a list that are not in `seen`, appended to `seen`. */
  function Meet(seen: seq<Id>, list: seq<Id>, n: nat): seq<Id>
    requires n <= |list|
  {
    if n == 0 then seen
    else
      var before := Meet(seen, list, n - 1);
      if list[n - 1] in before then before else before + [list[n - 1]]
  }

  /** The ids of the first `m` lists in the order in which they are first met. */
  function Ids(lists: seq<seq<Id>>, m: nat): seq<Id>
    requires m <= |lists|
  {
    if m == 0 then [] else Meet(Ids(lists, m - 1), lists[m - 1], |lists[m - 1]|)
  }

  function Items(lists: seq<seq<Id>>, k: nat): seq<Scored> {
    var ids := Ids(lists, |lists|);
    seq(|ids|, i requires 0 <= i < |ids| => Scored(ids[i], Score(lists, |lists|, ids[i], k)))
  }

  /** The sort key `-score`. */
  predicate Higher(a: Scored, b: Scored) {
    a.score >= b.score
  }

  lemma {:induction false} MeetProperties(seen: seq<Id>, list: seq<Id>, n: nat)
    requires n <= |list| && Distinct(seen)
    ensures Distinct(Meet(seen, list, n))
    ensures forall x :: x in Meet(seen, list, n) <==> x in seen || x in list[..n]
  {
    if n > 0 {
      MeetProperties(seen, list, n - 1);
      assert list[..n] == list[..n - 1] + [list[n - 1]];
    }
  }

  lemma {:induction false} IdsProperties(lists: seq<seq<Id>>, m: nat)
    requires m <= |lists|
    ensures Distinct(Ids(lists, m))
    ensures forall x :: x in Ids(lists, m) <==> exists i :: 0 <= i < m && x in lists[i]
  {
    if m > 0 {
      IdsProperties(lists, m - 1);
      MeetProperties(Ids(lists, m - 1), lists[m - 1], |lists[m - 1]|);
      assert lists[m - 1][..|lists[m - 1]|] == lists[m - 1];
    }
  }

  lemma {:induction false} AbsentScoresNothing(list: seq<Id>, n: nat, id: Id, k: nat)
    requires n <= |list| && id !in list[..n]
    ensures ScoreIn(list, n, id, k) == 0.0
  {
    if n > 0 {
      assert list[..n] == list[..n - 1] + [list[n - 1]];
      AbsentScoresNothing(list, n - 1, id, k);
    }
  }

  lemma UnmetScoresNothing(lists: seq<seq<Id>>, m: nat, n: nat, id: Id, k: nat)
    requires m < |lists| && n <= |lists[m]| && id !in Meet(Ids(lists, m), lists[m], n)
    ensures Score(lists, m, id, k) + ScoreIn(lists[m], n, id, k) == 0.0
  {
    IdsProperties(lists, m);
    MeetProperties(Ids(lists, m), lists[m], n);
    AbsentScoresNothing(lists[m], n, id, k);
    UnlistedScoresNothing(lists, m, id, k);
  }

  lemma {:induction false} UnlistedScoresNothing(lists: seq<seq<Id>>, m: nat, id: Id, k: nat)
    requires m <= |lists| && forall i :: 0 <= i < m ==> id !in lists[i]
    ensures Score(lists, m, id, k) == 0.0
  {
    if m > 0 {
      UnlistedScoresNothing(lists, m - 1, id, k);
      AbsentScoresNothing(lists[m - 1], |lists[m - 1]|, id, k);
    }
  }

  /** `_rrf`: accumulate in an insertion-ordered table, then sort. */
  method Rrf(lists: seq<seq<Id>>, k: nat) returns (fused: seq<Scored>)
    ensures fused == Sort(Items(lists, k), Higher)
  {
    var order: seq<Id> := [];
    var scores: map<Id, real> := map[];
    for m := 0 to |lists|
      invariant order == Ids(lists, m)
      invariant forall id :: id in scores <==> id in order
      invariant forall id :: id in order ==> scores[id] == Score(lists, m, id, k)
    {
      var ranked := lists[m];
      for n := 0 to |ranked|
        invariant order == Meet(Ids(lists, m), ranked, n)
        invariant forall id :: id in scores <==> id in order
        invariant forall id :: id in order ==> scores[id] == Score(lists, m, id, k) + ScoreIn(ranked, n, id, k)
      {
        var id := ranked[n];
        if id !in order {
          UnmetScoresNothing(lists, m, n, id, k);
          order := order + [id];
        }
        scores := scores[id := (if id in scores then scores[id] else 0.0) + Worth(k, n)];
      }
    }
    var items := seq(|order|, i requires 0 <= i < |order| => Scored(order[i], if order[i] in scores then scores[order[i]] else 0.0));
    assert items == Items(lists, k);
    fused := Sort(items, Higher);
  }

  // ---------- Main results about the fused list ----------

  function Fused(lists: seq<seq<Id>>, k: nat): seq<Scored> {
    Sort(Items(lists, k), Higher)
  }

  lemma HigherIsOrder()
    ensures TotalPreorder(Higher)
  {
  }

  ghost predicate Listed(lists: seq<seq<Id>>, x: Id) {
    exists m :: 0 <= m < |lists| && x in lists[m]
  }

  ghost predicate Contains(items: seq<Scored>, x: Id) {
    exists i :: 0 <= i < |items| && items[i].id == x
  }

  /** The fused list mentions exactly the ids of the lists. */
  lemma FusedIsComplete(lists: seq<seq<Id>>, k: nat, x: Id)
    ensures Contains(Fused(lists, k), x) <==> Listed(lists, x)
  {
    var items, f, ids := Items(lists, k), Fused(lists, k), Ids(lists, |lists|);
    IdsProperties(lists, |lists|);
    if Contains(f, x) {
      var i :| 0 <= i < |f| && f[i].id == x;
      SortMembers(items, Higher, f[i]);
    }
    if x in ids {
      var p :| 0 <= p < |ids| && ids[p] == x;
      SortMembers(items, Higher, items[p]);
      var i :| 0 <= i < |f| && f[i] == items[p];
    }
  }

  /** The fused list is in non-increasing order of score, no id appears in it twice, and each score is
      the sum of `1 / (k + rank)` over the ranks of its id. */
  lemma FusedIsExact(lists: seq<seq<Id>>, k: nat)
    ensures var f := Fused(lists, k);
            && (forall i, j :: 0 <= i < j < |f| ==> f[i].score >= f[j].score && f[i].id != f[j].id)
            && (forall i :: 0 <= i < |f| ==> f[i].score == Score(lists, |lists|, f[i].id, k))
  {
    var items, f := Items(lists, k), Fused(lists, k);
    IdsProperties(lists, |lists|);
    HigherIsOrder();
    SortSorted(items, Higher);
    SortDistinct(items, Higher);
    forall i | 0 <= i < |f| ensures f[i].score == Score(lists, |lists|, f[i].id, k) {
      SortMembers(items, Higher, f[i]);
    }
  }

  /** One more rank adds the reciprocal of k + rank to the score of its id, and nothing to any other; one more empty list
      adds nothing. These facts determine the score of every id in every lists. */
  lemma OneMoreRank(lists: seq<seq<Id>>, list: seq<Id>, x: Id, id: Id, k: nat)
    ensures Score(lists + [list + [x]], |lists| + 1, id, k)
            == Score(lists + [list], |lists| + 1, id, k) + (if x == id then 1.0 / (k + |list| + 1) as real else 0.0)
    ensures Score(lists + [[]], |lists| + 1, id, k) == Score(lists, |lists|, id, k) && Score([], 0, id, k) == 0.0
  {
    ScorePrefix(lists + [list + [x]], lists, |lists|, id, k);
    ScorePrefix(lists + [list], lists, |lists|, id, k);
    ScorePrefix(lists + [[]], lists, |lists|, id, k);
    ScoreInPrefix(list + [x], list, |list|, id, k);
  }

  lemma {:induction false} ScorePrefix(a: seq<seq<Id>>, b: seq<seq<Id>>, m: nat, id: Id, k: nat)
    requires m <= |a| && m <= |b| && forall i :: 0 <= i < m ==> a[i] == b[i]
    ensures Score(a, m, id, k) == Score(b, m, id, k)
  {
    if m > 0 {
      ScorePrefix(a, b, m - 1, id, k);
    }
  }

  lemma {:induction false} ScoreInPrefix(a: seq<Id>, b: seq<Id>, n: nat, id: Id, k: nat)
    requires n <= |a| && n <= |b| && forall i :: 0 <= i < n ==> a[i] == b[i]
    ensures ScoreIn(a, n, id, k) == ScoreIn(b, n, id, k)
  {
    if n > 0 {
      ScoreInPrefix(a, b, n - 1, id, k);
    }
  }

  // ---------- Ties ----------

  /** Rank q of list n comes after rank p of list m, or is it, when the lists are read one after the other. */
  predicate NotBefore(n: nat, q: nat, m: nat, p: nat) {
    n > m || (n == m && q >= p)
  }

  /** List m mentions x at place p, and y is mentioned nowhere before or there. */
  ghost predicate FirstHas(lists: seq<seq<Id>>, x: Id, y: Id, m: nat, p: nat) {
    && m < |lists| && p < |lists[m]| && lists[m][p] == x && x != y
    && forall n: nat, q: nat :: n < |lists| && q < |lists[n]| && lists[n][q] == y ==> NotBefore(n, q, m, p)
  }

  ghost predicate MentionedBefore(lists: seq<seq<Id>>, x: Id, y: Id) {
    exists m: nat, p: nat :: FirstHas(lists, x, y, m, p)
  }

  /** The ids met up to rank n of list m come in the order of their first mention. */
  lemma {:induction false} MetInOrder(lists: seq<seq<Id>>, m: nat, n: nat, i: nat, j: nat)
    requires m < |lists| && n <= |lists[m]| && i < j < |Meet(Ids(lists, m), lists[m], n)|
    ensures var met := Meet(Ids(lists, m), lists[m], n); MentionedBefore(lists, met[i], met[j])
    decreases m, n
  {
    var met := Meet(Ids(lists, m), lists[m], n);
    IdsProperties(lists, m);
    MeetProperties(Ids(lists, m), lists[m], n);
    if n == 0 {
      MetInOrder(lists, m - 1, |lists[m - 1]|, i, j);
    } else {
      var before := Meet(Ids(lists, m), lists[m], n - 1);
      MeetProperties(Ids(lists, m), lists[m], n - 1);
      if j < |before| {
        MetInOrder(lists, m, n - 1, i, j);
      } else {
        NewIdIsLater(lists, m, n - 1, before[i]);
      }
    }
  }

  /** An id that rank n of list m mentions for the first time is mentioned after those met before. */
  lemma {:induction false} NewIdIsLater(lists: seq<seq<Id>>, m: nat, n: nat, x: Id)
    requires m < |lists| && n < |lists[m]|
    requires x in Meet(Ids(lists, m), lists[m], n) && lists[m][n] !in Meet(Ids(lists, m), lists[m], n)
    ensures MentionedBefore(lists, x, lists[m][n])
  {
    var y := lists[m][n];
    IdsProperties(lists, m);
    MeetProperties(Ids(lists, m), lists[m], n);
    var a: nat, p: nat := m, 0;
    if x in lists[m][..n] {
      p :| p < n && lists[m][p] == x;
    } else {
      a :| a < m && x in lists[a];
      p :| p < |lists[a]| && lists[a][p] == x;
    }
    forall b: nat, q: nat | b < |lists| && q < |lists[b]| && lists[b][q] == y ensures NotBefore(b, q, a, p) {
    }
    assert FirstHas(lists, x, y, a, p);
  }

  /** Of two entries of the fused list with equal scores, the first is the one that the lists mention first. */
  lemma {:induction false} TiesInOrderOfMention(lists: seq<seq<Id>>, k: nat, i: nat, j: nat)
    requires i < j < |Fused(lists, k)| && Fused(lists, k)[i].score == Fused(lists, k)[j].score
    ensures MentionedBefore(lists, Fused(lists, k)[i].id, Fused(lists, k)[j].id)
  {
    var items, f := Items(lists, k), Fused(lists, k);
    HigherIsOrder();
    var p := SortPermutes(items, Higher);
    assert f[i] == items[p[i]] && f[j] == items[p[j]] && Higher(items[p[j]], items[p[i]]);
    var m := |lists| - 1;
    assert lists != [];
    MetInOrder(lists, m, |lists[m]|, p[i], p[j]);
  }

  /** Ids with equal scores keep the order in which the lists first mention them. */
  lemma TiesKeepFirstOrder(lists: seq<seq<Id>>, k: nat, score: real)
    ensures Filter(Fused(lists, k), (s: Scored) => s.score == score) ==
            Filter(Items(lists, k), (s: Scored) => s.score == score)
  {
    HigherIsOrder();
    SortStable(Items(lists, k), Higher, (s: Scored) => s.score == score);
  }

  ghost predicate Precedes(list: seq<Id>, x: Id, y: Id) {
    exists p, q :: 0 <= p < q < |list| && list[p] == x && list[q] == y
  }

  lemma {:induction false} ScoreAtRank(list: seq<Id>, n: nat, p: nat, k: nat)
    requires Distinct(list) && p < n <= |list|
    ensures ScoreIn(list, n, list[p], k) == Worth(k, p)
  {
    if p == n - 1 {
      assert list[p] !in list[..n - 1];
      AbsentScoresNothing(list, n - 1, list[p], k);
    } else {
      ScoreAtRank(list, n - 1, p, k);
    }
  }

  lemma WorthDecreases(k: nat, p: nat, q: nat)
    requires p < q
    ensures Worth(k, p) > Worth(k, q)
  {
    var a, b := (k + p + 1) as real, (k + q + 1) as real;
    assert 1.0 / a - 1.0 / b == (b - a) / (a * b);
  }

  lemma {:induction false} DominatedScore(lists: seq<seq<Id>>, m: nat, x: Id, y: Id, k: nat)
    requires m <= |lists| && forall i :: 0 <= i < |lists| ==> Distinct(lists[i])
    requires forall i :: 0 <= i < |lists| && y in lists[i] ==> Precedes(lists[i], x, y)
    ensures Score(lists, m, x, k) >= Score(lists, m, y, k)
    ensures (exists i :: 0 <= i < m && y in lists[i]) ==> Score(lists, m, x, k) > Score(lists, m, y, k)
  {
    if m > 0 {
      var list := lists[m - 1];
      DominatedScore(lists, m - 1, x, y, k);
      if y in list {
        var p, q :| 0 <= p < q < |list| && list[p] == x && list[q] == y;
        ScoreAtRank(list, |list|, p, k);
        ScoreAtRank(list, |list|, q, k);
        WorthDecreases(k, p, q);
      } else {
        AbsentScoresNothing(list, |list|, y, k);
      }
    }
  }

  /** Unanimity: an id that precedes another in every list that mentions the other precedes it in the
      fused list. */
  lemma UnanimousOrderIsKept(lists: seq<seq<Id>>, k: nat, x: Id, y: Id, i: nat, j: nat)
    requires forall m :: 0 <= m < |lists| ==> Distinct(lists[m])
    requires forall m :: 0 <= m < |lists| && y in lists[m] ==> Precedes(lists[m], x, y)
    requires i < |Fused(lists, k)| && Fused(lists, k)[i].id == x
    requires j < |Fused(lists, k)| && Fused(lists, k)[j].id == y
    ensures i < j
  {
    FusedIsExact(lists, k);
    assert Contains(Fused(lists, k), y);
    FusedIsComplete(lists, k, y);
    DominatedScore(lists, |lists|, x, y, k);
  }

  // ---------- Materialising ----------

  datatype Channel = Dense | Sparse | Graph | Hybrid

  function ChannelOf(id: Id, dense: seq<Id>, sparse: seq<Id>, graph: seq<Id>): Channel {
    if id in dense && id !in sparse && id !in graph then Dense
    else if id in sparse && id !in dense then Sparse
    else if id in graph && id !in dense then Graph
    else Hybrid
  }

  /** For an id that some channel found, hybrid means dense together with another channel: what sparse
      and graph retrieval both found is reported as sparse. Dense and graph are what only they have found. */
  lemma HybridIff(id: Id, dense: seq<Id>, sparse: seq<Id>, graph: seq<Id>)
    requires id in dense || id in sparse || id in graph
    ensures ChannelOf(id, dense, sparse, graph) == Hybrid <==> id in dense && (id in sparse || id in graph)
    ensures ChannelOf(id, dense, sparse, graph) == Sparse <==> id in sparse && id !in dense
    ensures ChannelOf(id, dense, sparse, graph) == Dense <==> id !in sparse && id !in graph
    ensures ChannelOf(id, dense, sparse, graph) == Graph <==> id !in dense && id !in sparse
  {
  }

  datatype GraphChunk = GraphChunk(id: Id, text: string, source: string, score: real, channel: Channel,
                                   entities: seq<string>)

  /** The stored text and source of a chunk, if they can be loaded, and the entities of a text. */
  datatype Reader = Reader(load: Id -> Option<(string, string)>, entities: string -> seq<string>)

  /** The ids that each channel found. */
  datatype Found = Found(dense: seq<Id>, sparse: seq<Id>, graph: seq<Id>)

  function ChunkOf(r: Reader, e: Scored, found: Found): GraphChunk {
    var (text, source) := match r.load(e.id)
      case Some(row) => row
      case None => ("[chunk:" + e.id + "]", "unknown");
    GraphChunk(e.id, text, source, e.score, ChannelOf(e.id, found.dense, found.sparse, found.graph),
               FirstOf(r.entities(text), 5))
  }

  /** The chunks made of the first `n` entries: one for each first occurrence of an id. */
  function Chunks(r: Reader, entries: seq<Scored>, n: nat, found: Found): (chunks: seq<GraphChunk>)
    requires n <= |entries|
  {
    if n == 0 then []
    else
      var before, e := Chunks(r, entries, n - 1, found), entries[n - 1];
      if exists q :: 0 <= q < n - 1 && entries[q].id == e.id then before else before + [ChunkOf(r, e, found)]
  }

  method Materialise(r: Reader, fused: seq<Scored>, topK: int, found: Found) returns (chunks: seq<GraphChunk>)
    ensures chunks == Chunks(r, FirstOf(fused, topK), |FirstOf(fused, topK)|, found)
  {
    var entries := FirstOf(fused, topK);
    chunks := [];
    var seen: set<Id> := {};
    for n := 0 to |entries|
      invariant chunks == Chunks(r, entries, n, found)
      invariant forall id :: id in seen <==> exists q :: 0 <= q < n && entries[q].id == id
    {
      var e := entries[n];
      if e.id in seen {
        continue;
      }
      seen := seen + {e.id};
      var text, source := "[chunk:" + e.id + "]", "unknown";
      var row := r.load(e.id);
      if row.Some? {
        text, source := row.value.0, row.value.1;
      }
      var channel := ChannelOf(e.id, found.dense, found.sparse, found.graph);
      chunks := chunks + [GraphChunk(e.id, text, source, e.score, channel, FirstOf(r.entities(text), 5))];
    }
  }

  lemma {:induction false} DistinctEntriesAllStay(r: Reader, entries: seq<Scored>, n: nat, found: Found)
    requires n <= |entries| && forall i, j :: 0 <= i < j < |entries| ==> entries[i].id != entries[j].id
    ensures var chunks := Chunks(r, entries, n, found);
            |chunks| == n && forall i :: 0 <= i < n ==> chunks[i] == ChunkOf(r, entries[i], found)
  {
    if n > 0 {
      DistinctEntriesAllStay(r, entries, n - 1, found);
    }
  }

  /** In hybrid mode nothing is lost: the chunks are the `topK` best ids of the fused list, in order, each with its
      score, its label, and its stored text and source or placeholders for them. */
  lemma HybridReturnsBest(r: Reader, found: Found, k: nat, topK: nat)
    ensures var fused := Fused([found.dense, found.sparse, found.graph], k);
            var entries := FirstOf(fused, topK);
            var chunks := Chunks(r, entries, |entries|, found);
            && |chunks| == (if topK < |fused| then topK else |fused|)
            && forall i :: 0 <= i < |chunks| ==>
                 && chunks[i] == ChunkOf(r, fused[i], found)
                 && chunks[i].id == fused[i].id && chunks[i].score == fused[i].score
                 && chunks[i].channel == ChannelOf(fused[i].id, found.dense, found.sparse, found.graph)
                 && chunks[i].entities <= r.entities(chunks[i].text) && |chunks[i].entities| <= 5
                 && (|chunks[i].entities| < 5 ==> chunks[i].entities == r.entities(chunks[i].text))
                 && match r.load(fused[i].id)
                    case Some(row) => chunks[i].text == row.0 && chunks[i].source == row.1
                    case None => chunks[i].text == "[chunk:" + fused[i].id + "]" && chunks[i].source == "unknown"
  {
    var fused := Fused([found.dense, found.sparse, found.graph], k);
    var entries := FirstOf(fused, topK);
    FusedIsExact([found.dense, found.sparse, found.graph], k);
    assert forall i :: 0 <= i < |entries| ==> entries[i] == fused[i];
    DistinctEntriesAllStay(r, entries, |entries|, found);
  }
}
