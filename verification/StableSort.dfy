/** What `list.sort` guarantees: the result is sorted, has the same elements, and keeps the order of
    elements that compare equal. */
module StableSort {
  import opened Sequences

  ghost predicate TotalPreorder<T(!new)>(le: (T, T) -> bool) {
    && (forall x, y :: le(x, y) || le(y, x))
    && (forall x, y, z :: le(x, y) && le(y, z) ==> le(x, z))
  }

  ghost predicate Sorted<T>(xs: seq<T>, le: (T, T) -> bool) {
    forall i, j :: 0 <= i < j < |xs| ==> le(xs[i], xs[j])
  }

  function Insert<T>(x: T, ys: seq<T>, le: (T, T) -> bool): (r: seq<T>)
    ensures |r| == |ys| + 1 && multiset(r) == multiset{x} + multiset(ys)
  {
    if ys == [] || le(x, ys[0]) then
      [x] + ys
    else
      assert ys == [ys[0]] + ys[1..];
      [ys[0]] + Insert(x, ys[1..], le)
  }

  function Sort<T>(xs: seq<T>, le: (T, T) -> bool): (r: seq<T>)
    ensures |r| == |xs| && multiset(r) == multiset(xs)
  {
    if xs == [] then []
    else
      assert xs == [xs[0]] + xs[1..];
      Insert(xs[0], Sort(xs[1..], le), le)
  }

  lemma {:induction false} InsertSorted<T(!new)>(x: T, ys: seq<T>, le: (T, T) -> bool)
    requires TotalPreorder(le) && Sorted(ys, le)
    ensures Sorted(Insert(x, ys, le), le)
  {
    if ys != [] && !le(x, ys[0]) {
      InsertSorted(x, ys[1..], le);
      var rest := Insert(x, ys[1..], le);
      forall j | 0 <= j < |rest| ensures le(ys[0], rest[j]) {
        assert rest[j] in multiset(rest);
        assert rest[j] == x || rest[j] in ys[1..];
      }
    }
  }

  lemma {:induction false} SortSorted<T(!new)>(xs: seq<T>, le: (T, T) -> bool)
    requires TotalPreorder(le)
    ensures Sorted(Sort(xs, le), le)
  {
    if xs != [] {
      SortSorted(xs[1..], le);
      InsertSorted(xs[0], Sort(xs[1..], le), le);
    }
  }

  lemma SortMembers<T>(xs: seq<T>, le: (T, T) -> bool, x: T)
    ensures x in Sort(xs, le) <==> x in xs
  {
    assert x in Sort(xs, le) <==> x in multiset(Sort(xs, le));
    assert x in xs <==> x in multiset(xs);
  }

  function Filter<T>(xs: seq<T>, p: T -> bool): (r: seq<T>) {
    if xs == [] then [] else (if p(xs[0]) then [xs[0]] else []) + Filter(xs[1..], p)
  }

  /** A class of elements that all compare equal. */
  ghost predicate Tied<T(!new)>(le: (T, T) -> bool, p: T -> bool) {
    forall x, y :: p(x) && p(y) ==> le(x, y)
  }

  lemma {:induction false} InsertStable<T(!new)>(x: T, ys: seq<T>, le: (T, T) -> bool, p: T -> bool)
    requires TotalPreorder(le) && Sorted(ys, le) && Tied(le, p)
    ensures Filter(Insert(x, ys, le), p) == Filter([x] + ys, p)
  {
    assert ([x] + ys)[1..] == ys;
    if ys != [] && !le(x, ys[0]) {
      InsertStable(x, ys[1..], le, p);
      assert Insert(x, ys, le)[1..] == Insert(x, ys[1..], le);
      assert ([x] + ys[1..])[1..] == ys[1..];
    }
  }

  /** Elements that compare equal keep their order. */
  lemma {:induction false} SortStable<T(!new)>(xs: seq<T>, le: (T, T) -> bool, p: T -> bool)
    requires TotalPreorder(le) && Tied(le, p)
    ensures Filter(Sort(xs, le), p) == Filter(xs, p)
  {
    if xs != [] {
      SortStable(xs[1..], le, p);
      SortSorted(xs[1..], le);
      InsertStable(xs[0], Sort(xs[1..], le), le, p);
      assert ([xs[0]] + Sort(xs[1..], le))[1..] == Sort(xs[1..], le);
    }
  }

  lemma TwiceCounts<T>(ys: seq<T>, i: nat, j: nat)
    requires i < j < |ys|
    ensures ys[i] == ys[j] ==> multiset(ys)[ys[i]] >= 2
  {
    var rest := ys[i + 1..];
    assert ys == ys[..i] + ([ys[i]] + rest);
    assert rest[j - i - 1] == ys[j];
    assert ys[j] in multiset(rest);
  }

  /** Sorting distinct elements yields distinct elements. */
  lemma SortDistinct<T>(xs: seq<T>, le: (T, T) -> bool)
    requires Distinct(xs)
    ensures Distinct(Sort(xs, le))
  {
    var ys := Sort(xs, le);
    forall i, j | 0 <= i < j < |ys| ensures ys[i] != ys[j] {
      DistinctCount(xs, ys[i]);
      TwiceCounts(ys, i, j);
    }
  }

  // ---------- Where each element goes ----------

  /** These are the places 0..n in some order. */
  ghost predicate Places(p: seq<nat>, n: nat) {
    |p| == n && Distinct(p) && forall i :: 0 <= i < n ==> p[i] < n
  }

  /** The list ys with x in place k. */
  ghost predicate IsInsertion<T(!new)>(zs: seq<T>, x: T, ys: seq<T>, k: nat) {
    && k <= |ys| && |zs| == |ys| + 1 && zs[k] == x
    && (forall i :: 0 <= i < k ==> zs[i] == ys[i]) && (forall i :: k < i < |zs| ==> zs[i] == ys[i - 1])
  }

  lemma {:induction false} InsertAt<T(!new)>(x: T, ys: seq<T>, le: (T, T) -> bool) returns (k: nat)
    ensures IsInsertion(Insert(x, ys, le), x, ys, k) && forall j :: 0 <= j < k ==> !le(x, ys[j])
  {
    if ys == [] || le(x, ys[0]) {
      k := 0;
    } else {
      var m := InsertAt(x, ys[1..], le);
      k := m + 1;
      assert forall j :: 0 < j < k ==> ys[j] == ys[1..][j - 1];
    }
  }

  /** Element i of the sorted list is element p[i] of the list, and elements that compare equal keep their order. */
  lemma {:induction false} SortPermutes<T(!new)>(xs: seq<T>, le: (T, T) -> bool) returns (p: seq<nat>)
    ensures Places(p, |xs|) && forall i :: 0 <= i < |xs| ==> Sort(xs, le)[i] == xs[p[i]]
    ensures forall i, j :: 0 <= i < j < |xs| && le(xs[p[j]], xs[p[i]]) ==> p[i] < p[j]
  {
    if xs == [] {
      p := [];
    } else {
      var q := SortPermutes(xs[1..], le);
      var ys := Sort(xs[1..], le);
      var k := InsertAt(xs[0], ys, le);
      p := Inserted(xs, ys, Sort(xs, le), q, k, le);
    }
  }

  lemma {:induction false} Inserted<T(!new)>(xs: seq<T>, ys: seq<T>, zs: seq<T>, q: seq<nat>, k: nat, le: (T, T) -> bool) returns (p: seq<nat>)
    requires xs != [] && |ys| == |xs| - 1 && Places(q, |ys|) && IsInsertion(zs, xs[0], ys, k)
    requires forall i :: 0 <= i < |ys| ==> ys[i] == xs[1..][q[i]]
    requires forall i, j :: 0 <= i < j < |ys| && le(xs[1..][q[j]], xs[1..][q[i]]) ==> q[i] < q[j]
    requires forall j :: 0 <= j < k ==> !le(xs[0], ys[j])
    ensures Places(p, |xs|) && forall i :: 0 <= i < |xs| ==> zs[i] == xs[p[i]]
    ensures forall i, j :: 0 <= i < j < |xs| && le(xs[p[j]], xs[p[i]]) ==> p[i] < p[j]
  {
    p := seq(|xs|, i requires 0 <= i < |xs| => if i < k then q[i] + 1 else if i == k then 0 else q[i - 1] + 1);
    forall i | 0 <= i < |xs| && i != k ensures p[i] > 0 && xs[p[i]] == ys[if i < k then i else i - 1] {
    }
    forall i, j | 0 <= i < j < |xs| && le(xs[p[j]], xs[p[i]]) ensures p[i] < p[j] {
      var a, b := if i < k then i else i - 1, if j < k then j else j - 1;
      if i != k && j != k {
        assert ys[a] == xs[1..][q[a]] && ys[b] == xs[1..][q[b]];
      }
    }
  }
}
