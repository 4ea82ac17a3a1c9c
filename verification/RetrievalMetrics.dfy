/** Precision, recall, reciprocal rank and normalised discounted cumulative gain.

    The discount `1 / log2(i + 1)` is any positive, strictly decreasing function of the rank. */
module RetrievalMetrics {
  import opened Sequences

  type Id = string
  type Hits = seq<bool>

  datatype Metrics = Metrics(precision: real, recall: real, mrr: real, ndcg: real)

  ghost predicate IsDiscount(disc: nat -> real) {
    && (forall i :: i >= 1 ==> disc(i) > 0.0)
    && (forall i, j :: 1 <= i < j ==> disc(i) > disc(j))
  }

  function HitsOf(top: seq<Id>, rel: set<Id>): Hits {
    seq(|top|, i requires 0 <= i < |top| => top[i] in rel)
  }

  function Count(hits: Hits, n: nat): (c: nat)
    requires n <= |hits|
    ensures c <= n
  {
    if n == 0 then 0 else Count(hits, n - 1) + (if hits[n - 1] then 1 else 0)
  }

  /** The gain of the first `n` ranks. */
  function Dcg(hits: Hits, n: nat, disc: nat -> real): real
    requires n <= |hits|
  {
    if n == 0 then 0.0 else Dcg(hits, n - 1, disc) + (if hits[n - 1] then disc(n) else 0.0)
  }

  /** The gain of `m` hits on the first `m` ranks. */
  function Ideal(m: nat, disc: nat -> real): real {
    if m == 0 then 0.0 else Ideal(m - 1, disc) + disc(m)
  }

  /** The rank of the first hit, or zero. */
  function FirstHit(hits: Hits, from: nat): (r: nat)
    requires from <= |hits|
    ensures r == 0 <==> forall i :: from <= i < |hits| ==> !hits[i]
    ensures r > 0 ==> from < r <= |hits| && hits[r - 1] && forall i :: from <= i < r - 1 ==> !hits[i]
    decreases |hits| - from
  {
    if from == |hits| then 0 else if hits[from] then from + 1 else FirstHit(hits, from + 1)
  }

  function Min(a: nat, b: nat): nat {
    if a < b then a else b
  }

  /** What the function computes, for a non-empty list of results. */
  function Spec(top: seq<Id>, rel: set<Id>, disc: nat -> real): Metrics
    requires top != []
  {
    var hits, n := HitsOf(top, rel), |top|;
    var c, first, idcg := Count(hits, n), FirstHit(hits, 0), Ideal(Min(|rel|, n), disc);
    Metrics(c as real / n as real,
            c as real / (if |rel| > 1 then |rel| else 1) as real,
            if first == 0 then 0.0 else 1.0 / first as real,
            if idcg > 0.0 then Dcg(hits, n, disc) / idcg else 0.0)
  }

  method ComputeRetrievalMetrics(retrieved: seq<Id>, relevant: seq<Id>, k: int, disc: nat -> real)
    returns (m: Metrics)
    ensures m == if FirstOf(retrieved, k) == [] then Metrics(0.0, 0.0, 0.0, 0.0)
                 else Spec(FirstOf(retrieved, k), (set id | id in relevant), disc)
  {
    var top := FirstOf(retrieved, k);
    var rel := set id | id in relevant;
    if top == [] {
      return Metrics(0.0, 0.0, 0.0, 0.0);
    }
    var hits := HitsOf(top, rel);
    var total := Count(hits, |hits|);
    var precision := total as real / |top| as real;
    var recall := total as real / (if |rel| > 1 then |rel| else 1) as real;

    var reciprocalRank := 0.0;
    var i := 0;
    while i < |top|
      invariant i <= |top|
      invariant FirstHit(hits, i) == FirstHit(hits, 0)
    {
      if top[i] in rel {
        reciprocalRank := 1.0 / (i + 1) as real;
        break;
      }
      i := i + 1;
    }

    var dcg := 0.0;
    for j := 0 to |hits|
      invariant dcg == Dcg(hits, j, disc)
    {
      if hits[j] {
        dcg := dcg + disc(j + 1);
      }
    }
    var idcg := Ideal(Min(|rel|, |top|), disc);
    var ndcg := if idcg > 0.0 then dcg / idcg else 0.0;
    return Metrics(precision, recall, reciprocalRank, ndcg);
  }

  // ---------- Gains ----------

  lemma {:induction false} IdealPositive(m: nat, disc: nat -> real)
    requires IsDiscount(disc)
    ensures Ideal(m, disc) >= 0.0 && (m > 0 ==> Ideal(m, disc) > 0.0)
  {
    if m > 0 {
      IdealPositive(m - 1, disc);
    }
  }

  lemma {:induction false} IdealMonotone(a: nat, b: nat, disc: nat -> real)
    requires IsDiscount(disc) && a <= b
    ensures Ideal(a, disc) <= Ideal(b, disc) && (a < b ==> Ideal(a, disc) < Ideal(b, disc))
  {
    if a < b {
      IdealMonotone(a, b - 1, disc);
    }
  }

  /** The hits fill the first places. */
  ghost predicate Packed(hits: Hits, n: nat)
    requires n <= |hits|
  {
    forall i :: 0 <= i < n ==> (hits[i] <==> i < Count(hits, n))
  }

  /** The gain of `n` ranks is at most that of the same number of hits in the first places, and less
      unless they are there. */
  lemma {:induction false} GainBound(hits: Hits, n: nat, disc: nat -> real)
    requires n <= |hits| && IsDiscount(disc)
    ensures 0.0 <= Dcg(hits, n, disc) <= Ideal(Count(hits, n), disc)
    ensures Dcg(hits, n, disc) == Ideal(Count(hits, n), disc) <==> Packed(hits, n)
  {
    if n > 0 {
      GainBound(hits, n - 1, disc);
      var c := Count(hits, n - 1);
      if hits[n - 1] {
        assert c + 1 < n ==> disc(c + 1) > disc(n);
        assert Packed(hits, n) <==> Packed(hits, n - 1) && c == n - 1 by {
          if Packed(hits, n) {
            assert n - 1 < c + 1;
            assert forall i :: 0 <= i < n - 1 ==> (hits[i] <==> i < c + 1);
          }
        }
      }
    }
  }

  lemma {:induction false} CountSame(a: Hits, b: Hits, n: nat)
    requires n <= |a| && n <= |b| && forall i :: 0 <= i < n ==> a[i] == b[i]
    ensures Count(a, n) == Count(b, n)
  {
    if n > 0 {
      CountSame(a, b, n - 1);
    }
  }

  /** Distinct results hit each relevant id at most once. */
  lemma {:induction false} DistinctHitsBounded(top: seq<Id>, rel: set<Id>, n: nat)
    requires Distinct(top) && n <= |top|
    ensures Count(HitsOf(top, rel), n) <= |rel|
  {
    if n > 0 {
      var x := top[n - 1];
      if x in rel {
        DistinctHitsBounded(top, rel - {x}, n - 1);
        CountSame(HitsOf(top, rel), HitsOf(top, rel - {x}), n - 1);
      } else {
        DistinctHitsBounded(top, rel, n - 1);
      }
    }
  }

  // ---------- Main results ----------

  lemma DivideWithin(a: real, b: real)
    requires 0.0 <= a <= b && b > 0.0
    ensures 0.0 <= a / b <= 1.0
    ensures a / b == 1.0 <==> a == b
  {
    var q := a / b;
    assert q * b == a;
    ScaleOrder(q, b);
  }

  lemma ScaleOrder(q: real, b: real)
    requires b > 0.0
    ensures q < 0.0 ==> q * b < 0.0
    ensures q > 1.0 ==> q * b > b
    ensures q == 1.0 <==> q * b == b
  {
    assert (q - 1.0) * b == q * b - b;
  }

  lemma DivideIncreases(a: real, a': real, b: real)
    requires a < a' && b > 0.0
    ensures a / b < a' / b
  {
    assert (a' - a) / b == a' / b - a / b;
  }

  /** The discounted gain never exceeds the ideal gain, and reaches it exactly when the first places
      are all hits: as many as there are relevant ids, or results. */
  lemma GainAtMostIdeal(top: seq<Id>, rel: set<Id>, disc: nat -> real)
    requires Distinct(top) && IsDiscount(disc)
    ensures var hits, m := HitsOf(top, rel), Min(|rel|, |top|);
            && 0.0 <= Dcg(hits, |top|, disc) <= Ideal(m, disc)
            && (Dcg(hits, |top|, disc) == Ideal(m, disc) <==> forall i :: 0 <= i < m ==> hits[i])
  {
    var hits, n, m := HitsOf(top, rel), |top|, Min(|rel|, |top|);
    var c := Count(hits, n);
    DistinctHitsBounded(top, rel, n);
    GainBound(hits, n, disc);
    IdealMonotone(c, m, disc);
    if forall i :: 0 <= i < m ==> hits[i] {
      CountPrefix(hits, m, n);
    }
  }

  lemma {:induction false} CountPrefix(hits: Hits, m: nat, n: nat)
    requires m <= n <= |hits| && forall i :: 0 <= i < m ==> hits[i]
    ensures Count(hits, n) >= m
    ensures Count(hits, n) == m ==> Packed(hits, n)
    decreases n
  {
    if n > m {
      CountPrefix(hits, m, n - 1);
    } else if n > 0 {
      CountPrefix(hits, m - 1, n - 1);
    }
  }

  /** The places of the relevant results. */
  function HitPlaces(top: seq<Id>, rel: set<Id>, n: nat): set<nat> {
    set i: nat | i < n && i < |top| && top[i] in rel
  }

  lemma {:induction false} CountIsPlaces(top: seq<Id>, rel: set<Id>, n: nat)
    requires n <= |top|
    ensures Count(HitsOf(top, rel), n) == |HitPlaces(top, rel, n)|
  {
    if n > 0 {
      var m := n - 1;
      CountIsPlaces(top, rel, m);
      if top[m] in rel {
        assert HitPlaces(top, rel, n) == HitPlaces(top, rel, m) + {m};
      } else {
        assert HitPlaces(top, rel, n) == HitPlaces(top, rel, m);
      }
    }
  }

  /** What the metrics are: precision is the share of relevant results, recall the share of relevant ids that they make
      up, and the reciprocal rank belongs to the first relevant result; all are zero when there is none. */
  lemma MetricsAre(top: seq<Id>, rel: set<Id>, disc: nat -> real)
    requires top != []
    ensures var m, hits := Spec(top, rel, disc), |HitPlaces(top, rel, |top|)|;
            && m.precision == hits as real / |top| as real
            && (|rel| >= 1 ==> m.recall == hits as real / |rel| as real) && (rel == {} ==> m.recall == 0.0)
    ensures forall p :: 0 <= p < |top| && top[p] in rel && (forall i :: 0 <= i < p ==> top[i] !in rel) ==>
              Spec(top, rel, disc).mrr == 1.0 / (p + 1) as real
    ensures (forall i :: 0 <= i < |top| ==> top[i] !in rel) ==> Spec(top, rel, disc).mrr == 0.0
  {
    CountIsPlaces(top, rel, |top|);
    var first := FirstHit(HitsOf(top, rel), 0);
    if rel == {} {
      assert HitPlaces(top, rel, |top|) == {};
    }
    forall p | 0 <= p < |top| && top[p] in rel && (forall i :: 0 <= i < p ==> top[i] !in rel)
      ensures first == p + 1
    {
      assert HitsOf(top, rel)[p] && first > 0 && HitsOf(top, rel)[first - 1];
    }
  }

  /** All four metrics lie between zero and one. */
  lemma MetricsInUnit(top: seq<Id>, rel: set<Id>, disc: nat -> real)
    requires top != [] && Distinct(top) && IsDiscount(disc)
    ensures var m := Spec(top, rel, disc);
            0.0 <= m.precision <= 1.0 && 0.0 <= m.recall <= 1.0 && 0.0 <= m.mrr <= 1.0 && 0.0 <= m.ndcg <= 1.0
  {
    var hits, n := HitsOf(top, rel), |top|;
    var c, first := Count(hits, n), FirstHit(hits, 0);
    DistinctHitsBounded(top, rel, n);
    DivideWithin(c as real, n as real);
    DivideWithin(c as real, (if |rel| > 1 then |rel| else 1) as real);
    if first > 0 {
      DivideWithin(1.0, first as real);
    }
    GainAtMostIdeal(top, rel, disc);
    IdealPositive(Min(|rel|, n), disc);
    if Ideal(Min(|rel|, n), disc) > 0.0 {
      DivideWithin(Dcg(hits, n, disc), Ideal(Min(|rel|, n), disc));
    }
  }

  /** The ranking is ideal exactly when the hits fill the first places. */
  lemma NdcgOneIff(top: seq<Id>, rel: set<Id>, disc: nat -> real)
    requires top != [] && Distinct(top) && IsDiscount(disc)
    ensures Spec(top, rel, disc).ndcg == 1.0 <==>
            rel != {} && forall i :: 0 <= i < Min(|rel|, |top|) ==> top[i] in rel
  {
    var hits, m := HitsOf(top, rel), Min(|rel|, |top|);
    GainAtMostIdeal(top, rel, disc);
    IdealPositive(m, disc);
    assert (forall i :: 0 <= i < m ==> hits[i]) <==> (forall i :: 0 <= i < m ==> top[i] in rel) by {
      assert forall i :: 0 <= i < m ==> (hits[i] <==> top[i] in rel);
    }
    assert rel == {} <==> m == 0;
    if m > 0 {
      DivideWithin(Dcg(hits, |top|, disc), Ideal(m, disc));
    }
  }

  lemma {:induction false} DcgUpdate(hits: Hits, i: nat, b: bool, n: nat, disc: nat -> real)
    requires i < |hits| && n <= |hits|
    ensures Dcg(hits[i := b], n, disc) ==
            Dcg(hits, n, disc)
            + (if i < n then (if b then disc(i + 1) else 0.0) - (if hits[i] then disc(i + 1) else 0.0) else 0.0)
  {
    if n > 0 {
      DcgUpdate(hits, i, b, n - 1, disc);
    }
  }

  /** The ideal gain is that of relevant results only; and results of which none is relevant gain nothing. With DcgUpdate,
      which says what one result adds at its place, this determines the gains of all lists. */
  lemma {:induction false} IdealIsAllHits(m: nat, disc: nat -> real)
    ensures Ideal(m, disc) == Dcg(seq(m, _ => true), m, disc) && Dcg(seq(m, _ => false), m, disc) == 0.0
  {
    if m > 0 {
      IdealIsAllHits(m - 1, disc);
      DcgPrefix(seq(m, _ => true), seq(m - 1, _ => true), m - 1, disc);
      DcgPrefix(seq(m, _ => false), seq(m - 1, _ => false), m - 1, disc);
    }
  }

  lemma {:induction false} DcgPrefix(a: Hits, b: Hits, n: nat, disc: nat -> real)
    requires n <= |a| && n <= |b| && forall i :: 0 <= i < n ==> a[i] == b[i]
    ensures Dcg(a, n, disc) == Dcg(b, n, disc)
  {
    if n > 0 {
      DcgPrefix(a, b, n - 1, disc);
    }
  }

  /** For one relevant id, which is found at place p only, nDCG is the discount of that rank over that of the first. */
  lemma OneHitNdcg(top: seq<Id>, id: Id, disc: nat -> real, p: nat)
    requires IsDiscount(disc) && p < |top| && top[p] == id && forall i :: 0 <= i < |top| && i != p ==> top[i] != id
    ensures Spec(top, {id}, disc).ndcg == disc(p + 1) / disc(1)
  {
    var none := seq(|top|, _ => false);
    IdealIsAllHits(|top|, disc);
    DcgUpdate(none, p, true, |top|, disc);
    assert HitsOf(top, {id}) == none[p := true];
    assert Ideal(1, disc) == Ideal(0, disc) + disc(1);
  }

  /** Moving a relevant result up, in exchange for an irrelevant one, strictly improves the ranking. */
  lemma PromotionImproves(top: seq<Id>, rel: set<Id>, disc: nat -> real, i: nat, j: nat)
    requires i < j < |top| && top[i] !in rel && top[j] in rel && IsDiscount(disc)
    ensures Spec(top[i := top[j]][j := top[i]], rel, disc).ndcg > Spec(top, rel, disc).ndcg
  {
    var hits, top' := HitsOf(top, rel), top[i := top[j]][j := top[i]];
    assert HitsOf(top', rel) == hits[i := true][j := false];
    DcgUpdate(hits, i, true, |top|, disc);
    DcgUpdate(hits[i := true], j, false, |top|, disc);
    assert rel != {};
    IdealPositive(Min(|rel|, |top|), disc);
    DivideIncreases(Dcg(hits, |top|, disc), Dcg(HitsOf(top', rel), |top|, disc), Ideal(Min(|rel|, |top|), disc));
  }

  /** Repeated results break the bounds: recall and gain stay within one for every set of relevant ids
      exactly when no result is repeated. */
  lemma BoundsIffDistinct(top: seq<Id>, disc: nat -> real)
    requires top != [] && IsDiscount(disc)
    ensures Distinct(top) <==>
            forall rel: set<Id> :: Spec(top, rel, disc).recall <= 1.0 && Spec(top, rel, disc).ndcg <= 1.0
  {
    if Distinct(top) {
      forall rel: set<Id> ensures Spec(top, rel, disc).recall <= 1.0 && Spec(top, rel, disc).ndcg <= 1.0 {
        MetricsInUnit(top, rel, disc);
      }
    } else {
      var i, j :| 0 <= i < j < |top| && top[i] == top[j];
      var rel := {top[i]};
      var hits := HitsOf(top, rel);
      TwoHits(hits, i, j, |top|);
      assert Spec(top, rel, disc).recall == Count(hits, |top|) as real / 1.0;
    }
  }

  lemma {:induction false} TwoHits(hits: Hits, i: nat, j: nat, n: nat)
    requires i < n <= |hits| && i < j < |hits| && hits[i] && hits[j]
    ensures Count(hits, n) >= if j < n then 2 else 1
  {
    if n - 1 > i {
      TwoHits(hits, i, j, n - 1);
    }
  }
}
