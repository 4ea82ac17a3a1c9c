/** The sliding window of the naive chunker, on the word counts of the sentences. */
module Windows {

  /** The sentences lo..hi. */
  datatype Window = Window(lo: nat, hi: nat)

  /** How many sentences a window shares with the one before, at most: max(1, overlap // 20). */
  function Shared(overlap: int): (k: nat)
    ensures k >= 1 && overlap < 20 * (k + 1) && (k == 1 || 20 * k <= overlap)
  {
    if overlap / 20 > 1 then overlap / 20 else 1
  }

  function Sum(w: seq<nat>, lo: nat, hi: nat): (r: nat)
    requires lo <= hi <= |w|
  {
    if lo == hi then 0 else Sum(w, lo, hi - 1) + w[hi - 1]
  }

  function Max(a: int, b: int): int {
    if a > b then a else b
  }

  /** Where the next window begins: the last k sentences of the window are repeated. */
  function NextLo(lo: nat, hi: nat, k: nat): nat {
    Max(lo, hi - k)
  }

  /** Sentence i still fits after the sentences lo..i. */
  predicate Fits(w: seq<nat>, size: int, lo: nat, i: nat)
    requires lo <= i < |w|
  {
    Sum(w, lo, i) + w[i] <= size
  }

  /** The windows from sentence i on, when the current window holds the sentences lo..i. */
  function Plan(w: seq<nat>, size: int, k: nat, lo: nat, i: nat): seq<Window>
    requires lo <= i <= |w|
    decreases |w| - i
  {
    if i == |w| then if lo < i then [Window(lo, i)] else []
    else if lo < i && !Fits(w, size, lo, i) then
      [Window(lo, i)] + Plan(w, size, k, NextLo(lo, i, k), i + 1)
    else Plan(w, size, k, lo, i + 1)
  }

  function AllWindows(w: seq<nat>, size: int, overlap: int): seq<Window> {
    Plan(w, size, Shared(overlap), 0, 0)
  }

  // ---------- What the windows are ----------

  predicate Follows(a: Window, b: Window, k: nat) {
    a.hi < b.hi && b.lo == NextLo(a.lo, a.hi, k)
  }

  predicate InRange(w: seq<nat>, a: Window) {
    a.lo < a.hi <= |w|
  }

  /** A window takes every sentence it can: it stops only before one that would exceed the size. The first
      sentence after the repeated ones, at `from`, is always taken. */
  predicate Greedy(w: seq<nat>, size: int, a: Window, from: nat)
    requires InRange(w, a)
  {
    && (forall i :: from < i < a.hi && a.lo <= i ==> Fits(w, size, a.lo, i))
    && (a.hi < |w| ==> !Fits(w, size, a.lo, a.hi))
  }

  /** From the sentence `from` on, the windows follow each other greedily and reach the last sentence. */
  predicate GreedyChain(w: seq<nat>, size: int, k: nat, ws: seq<Window>, from: nat) {
    if ws == [] then from == |w|
    else
      && InRange(w, ws[0]) && from < ws[0].hi && Greedy(w, size, ws[0], from)
      && (if |ws| == 1 then ws[0].hi == |w|
          else Follows(ws[0], ws[1], k) && GreedyChain(w, size, k, ws[1..], ws[0].hi))
  }

  /** The current window lo..i, which has been open since the sentence `from`, is still greedy. */
  predicate Open(w: seq<nat>, size: int, lo: nat, from: nat, i: nat)
    requires i <= |w|
  {
    lo <= from < i && forall j :: from < j < i ==> Fits(w, size, lo, j)
  }

  lemma Chained(w: seq<nat>, size: int, k: nat, a: Window, rest: seq<Window>, from: nat)
    requires InRange(w, a) && from < a.hi && Greedy(w, size, a, from)
    requires rest != [] && Follows(a, rest[0], k) && GreedyChain(w, size, k, rest, a.hi)
    ensures GreedyChain(w, size, k, [a] + rest, from)
  {
    assert ([a] + rest)[1..] == rest;
  }

  lemma {:induction false} PlanIsGreedy(w: seq<nat>, size: int, k: nat, lo: nat, from: nat, i: nat)
    requires i <= |w| && Open(w, size, lo, from, i) && k >= 1
    ensures var ws := Plan(w, size, k, lo, i);
            ws != [] && ws[0].lo == lo && ws[0].hi >= i && GreedyChain(w, size, k, ws, from)
    decreases |w| - i
  {
    if i == |w| {
      Closed(w, size, lo, from, i);
    } else if !Fits(w, size, lo, i) {
      var lo', head := NextLo(lo, i, k), Window(lo, i);
      Closed(w, size, lo, from, i);
      assert Open(w, size, lo', i, i + 1);
      PlanIsGreedy(w, size, k, lo', i, i + 1);
      var rest := Plan(w, size, k, lo', i + 1);
      Chained(w, size, k, head, rest, from);
      assert Plan(w, size, k, lo, i) == [head] + rest;
    } else {
      assert Open(w, size, lo, from, i + 1);
      PlanIsGreedy(w, size, k, lo, from, i + 1);
    }
  }

  lemma Closed(w: seq<nat>, size: int, lo: nat, from: nat, i: nat)
    requires i <= |w| && Open(w, size, lo, from, i) && (i < |w| ==> !Fits(w, size, lo, i))
    ensures Greedy(w, size, Window(lo, i), from)
  {
  }

  /** The windows of a text with sentences form a greedy chain from its first sentence. */
  lemma WindowsAreGreedy(w: seq<nat>, size: int, overlap: int)
    requires w != []
    ensures var ws := AllWindows(w, size, overlap);
            ws != [] && ws[0].lo == 0 && GreedyChain(w, size, Shared(overlap), ws, 0)
  {
    PlanIsGreedy(w, size, Shared(overlap), 0, 0, 1);
  }

  /** There is no other greedy chain: the windows are determined. */
  lemma {:induction false} GreedyIsUnique(w: seq<nat>, size: int, k: nat, a: seq<Window>, b: seq<Window>, from: nat)
    requires a != [] && b != [] && a[0].lo == b[0].lo && a[0].lo <= from
    requires GreedyChain(w, size, k, a, from) && GreedyChain(w, size, k, b, from)
    ensures a == b
    decreases |a|
  {
    NotLonger(w, size, a[0], b[0], from);
    NotLonger(w, size, b[0], a[0], from);
    if |a| > 1 {
      GreedyIsUnique(w, size, k, a[1..], b[1..], a[0].hi);
    }
    assert a == [a[0]] + a[1..] && b == [b[0]] + b[1..];
  }

  lemma NotLonger(w: seq<nat>, size: int, a: Window, b: Window, from: nat)
    requires InRange(w, a) && InRange(w, b) && a.lo == b.lo && from < a.hi
    requires Greedy(w, size, a, from) && Greedy(w, size, b, from)
    ensures b.hi <= a.hi
  {
  }

  // ---------- Consequences ----------

  /** A window has at most `size` words, or it is only the repeated sentences and one more. */
  predicate Sized(w: seq<nat>, size: int, a: Window, k: nat)
    requires InRange(w, a)
  {
    Sum(w, a.lo, a.hi) <= size || a.hi - a.lo <= k + 1
  }

  /** Facts about the j-th window of a greedy chain. */
  predicate ChainAt(w: seq<nat>, size: int, k: nat, ws: seq<Window>, j: nat)
    requires j < |ws|
  {
    && InRange(w, ws[j]) && Sized(w, size, ws[j], k)
    && (var m := j + 1;
        if m < |ws| then
          Follows(ws[j], ws[m], k) && ws[j].hi < |w| && !Fits(w, size, ws[j].lo, ws[j].hi)
        else ws[j].hi == |w|)
  }

  lemma {:induction false} ChainFacts(w: seq<nat>, size: int, k: nat, ws: seq<Window>, from: nat, j: nat)
    requires j < |ws| && GreedyChain(w, size, k, ws, from)
    requires k >= 1 && ws[0].lo <= from <= ws[0].lo + k
    ensures ChainAt(w, size, k, ws, j)
    decreases j
  {
    if j == 0 {
      var a := ws[0];
      if from + 1 < a.hi {
        var last := a.hi - 1;
        assert Fits(w, size, a.lo, last);
      }
    } else {
      var i := j - 1;
      ChainFacts(w, size, k, ws[1..], ws[0].hi, i);
      assert ws[1..][i] == ws[j];
    }
  }

  /** Every window, of every text: it holds at most `size` words or at most k + 1 sentences; the next one
      repeats exactly its last min(k, length) sentences and ends later, and the window could not have held
      one sentence more; the last window ends with the text. */
  lemma EveryWindow(w: seq<nat>, size: int, overlap: int, j: nat)
    requires j < |AllWindows(w, size, overlap)|
    ensures ChainAt(w, size, Shared(overlap), AllWindows(w, size, overlap), j)
  {
    WindowsAreGreedy(w, size, overlap);
    ChainFacts(w, size, Shared(overlap), AllWindows(w, size, overlap), 0, j);
  }

  // ---------- Rebuilding ----------

  /** How many sentences two consecutive windows share. */
  function Repeated(length: nat, k: nat): (r: nat)
    ensures r <= length && r <= k
  {
    if length < k then length else k
  }

  function Bodies<T>(xs: seq<T>, ws: seq<Window>): seq<seq<T>>
    requires forall j :: 0 <= j < |ws| ==> ws[j].lo < ws[j].hi <= |xs|
  {
    seq(|ws|, j requires 0 <= j < |ws| => xs[ws[j].lo..ws[j].hi])
  }

  /** Joins pieces, leaving out of each what it repeats of the one before. */
  function Rebuild<T>(bodies: seq<seq<T>>, k: nat): seq<T>
    requires forall j :: 0 <= j < |bodies| ==> bodies[j] != []
  {
    if bodies == [] then []
    else if |bodies| == 1 then bodies[0]
    else
      var n := |bodies| - 1;
      var repeated := Repeated(|bodies[n - 1]|, k);
      Rebuild(bodies[..n], k) + (if repeated <= |bodies[n]| then bodies[n][repeated..] else [])
  }

  /** What a window adds to the one before. */
  lemma NewPart<T>(xs: seq<T>, a: Window, b: Window, k: nat)
    requires a.lo < a.hi && Follows(a, b, k) && b.lo < b.hi <= |xs|
    ensures var repeated, body := Repeated(|xs[a.lo..a.hi]|, k), xs[b.lo..b.hi];
            repeated <= |body| && xs[..a.hi] + body[repeated..] == xs[..b.hi]
  {
    var repeated := Repeated(a.hi - a.lo, k);
    assert b.lo + repeated == a.hi;
    assert xs[b.lo..b.hi][repeated..] == xs[a.hi..b.hi];
  }

  lemma {:induction false} RebuildPrefix<T>(xs: seq<T>, ws: seq<Window>, k: nat)
    requires ws != [] && ws[0].lo == 0
    requires forall j :: 0 <= j < |ws| ==> ws[j].lo < ws[j].hi <= |xs|
    requires forall j, m :: 0 <= j < |ws| && m == j + 1 && m < |ws| ==> Follows(ws[j], ws[m], k)
    ensures Rebuild(Bodies(xs, ws), k) == xs[..ws[|ws| - 1].hi]
    decreases |ws|
  {
    var n := |ws| - 1;
    if n > 0 {
      var m := n - 1;
      RebuildPrefix(xs, ws[..n], k);
      assert Bodies(xs, ws)[..n] == Bodies(xs, ws[..n]);
      assert Follows(ws[m], ws[n], k);
      NewPart(xs, ws[m], ws[n], k);
    }
  }

  /** Dropping from each window the sentences it repeats and joining what is left gives back all sentences,
      each once and in order. */
  lemma WindowsRebuild<T>(xs: seq<T>, w: seq<nat>, size: int, overlap: int)
    requires |xs| == |w| && w != []
    ensures var ws := AllWindows(w, size, overlap);
            (forall j :: 0 <= j < |ws| ==> ws[j].lo < ws[j].hi <= |xs|)
            && Rebuild(Bodies(xs, ws), Shared(overlap)) == xs
  {
    var ws, k := AllWindows(w, size, overlap), Shared(overlap);
    WindowsAreGreedy(w, size, overlap);
    forall j | 0 <= j < |ws| ensures ChainAt(w, size, k, ws, j) && ws[j].lo < ws[j].hi <= |xs| {
      EveryWindow(w, size, overlap, j);
    }
    var last := |ws| - 1;
    assert ChainAt(w, size, k, ws, last);
    forall j, m | 0 <= j < |ws| && m == j + 1 && m < |ws| ensures Follows(ws[j], ws[m], k) {
      assert ChainAt(w, size, k, ws, j);
    }
    RebuildPrefix(xs, ws, k);
    assert xs[..|xs|] == xs;
  }
}
