/** Merging the detected spans and rewriting the text. */
module Redaction {
  import opened StableSort
  import opened Wrappers

  datatype Span = Span(start: nat, end: nat, tag: string)

  /** Every match of a pattern, and every entity, is a non-empty stretch of the text. */
  ghost predicate InText(spans: seq<Span>, n: nat) {
    forall i :: 0 <= i < |spans| ==> spans[i].start < spans[i].end <= n
  }

  /** The sort key `(start, -(end - start))`. */
  predicate Before(a: Span, b: Span) {
    a.start < b.start || (a.start == b.start && a.end >= b.end)
  }

  /** Keep a span when it starts at or after the end of the last one kept. */
  function Keep(spans: seq<Span>, lastEnd: int): (r: seq<Span>) {
    if spans == [] then []
    else if spans[0].start >= lastEnd then [spans[0]] + Keep(spans[1..], spans[0].end)
    else Keep(spans[1..], lastEnd)
  }

  /** The spans that `detect_pii` returns for the matches found, in the order they were found. */
  function Kept(found: seq<Span>): seq<Span> {
    Keep(Sort(found, Before), -1)
  }

  method DetectPii(found: seq<Span>) returns (kept: seq<Span>)
    ensures kept == Kept(found)
  {
    var spans := Sort(found, Before);
    kept := [];
    var lastEnd: int := -1;
    for i := 0 to |spans|
      invariant kept + Keep(spans[i..], lastEnd) == Keep(spans, -1)
    {
      if spans[i].start >= lastEnd {
        kept := kept + [spans[i]];
        lastEnd := spans[i].end;
      }
      assert spans[i..][1..] == spans[i + 1..];
    }
  }

  // ---------- What is kept ----------

  ghost predicate Disjoint(spans: seq<Span>) {
    forall i, j :: 0 <= i < j < |spans| ==> spans[i].end <= spans[j].start
  }

  lemma {:induction false} KeepProperties(spans: seq<Span>, lastEnd: int, n: nat)
    requires InText(spans, n)
    ensures var kept := Keep(spans, lastEnd);
            && Disjoint(kept) && InText(kept, n)
            && (forall i :: 0 <= i < |kept| ==> lastEnd <= kept[i].start && kept[i] in spans)
  {
    if spans != [] {
      var next := if spans[0].start >= lastEnd then spans[0].end else lastEnd;
      KeepProperties(spans[1..], next, n);
    }
  }

  /** A span that is dropped starts inside the last span kept before it, or inside a later one. */
  lemma {:induction false} KeepCovers(spans: seq<Span>, lastEnd: int, n: nat, s: Span)
    requires InText(spans, n) && Sorted(spans, Before) && s in spans
    ensures s.start < lastEnd || exists k :: k in Keep(spans, lastEnd) && k.start <= s.start < k.end && (k.start == s.start ==> s.end <= k.end)
  {
    var head, kept := spans[0], Keep(spans, lastEnd);
    if head.start >= lastEnd {
      assert kept[0] == head;
      if s == head {
        assert head in kept;
      } else {
        assert Before(head, s);
        KeepCovers(spans[1..], head.end, n, s);
        if s.start < head.end {
          assert head in kept;
        } else {
          var k :| k in Keep(spans[1..], head.end) && k.start <= s.start < k.end && (k.start == s.start ==> s.end <= k.end);
          assert k in kept;
        }
      }
    } else if s != head {
      KeepCovers(spans[1..], lastEnd, n, s);
    }
  }

  lemma BeforeIsOrder()
    ensures TotalPreorder(Before)
  {
  }

  /** The spans kept are detected ones, in order and pairwise disjoint. */
  lemma KeptAreDisjoint(found: seq<Span>, n: nat)
    requires InText(found, n)
    ensures Disjoint(Kept(found)) && InText(Kept(found), n)
    ensures forall k :: k in Kept(found) ==> k in found
  {
    SortInText(found, n);
    KeepProperties(Sort(found, Before), -1, n);
    forall k | k in Kept(found) ensures k in found {
      SortMembers(found, Before, k);
    }
  }

  lemma SortInText(found: seq<Span>, n: nat)
    requires InText(found, n)
    ensures InText(Sort(found, Before), n)
  {
    forall i | 0 <= i < |found| ensures Sort(found, Before)[i].start < Sort(found, Before)[i].end <= n {
      SortMembers(found, Before, Sort(found, Before)[i]);
    }
  }

  /** The first character of every detected span lies inside a kept span, and when that one starts
      at the same place, it is at least as long. */
  lemma EveryStartIsCovered(found: seq<Span>, n: nat, s: Span)
    requires InText(found, n) && s in found
    ensures exists k :: k in Kept(found) && k.start <= s.start < k.end && (k.start == s.start ==> s.end <= k.end)
  {
    SortInText(found, n);
    BeforeIsOrder();
    SortSorted(found, Before);
    SortMembers(found, Before, s);
    KeepCovers(Sort(found, Before), -1, n, s);
  }

  /** A detected span is kept, or replaced by an equal one with another label, exactly when it does
      not start inside another kept span and none that starts with it is longer. */
  lemma KeptIff(found: seq<Span>, n: nat, s: Span)
    requires InText(found, n) && s in found
    ensures (exists k :: k in Kept(found) && k.start == s.start && k.end == s.end) <==>
            && (forall k :: k in Kept(found) && k.start != s.start ==> !(k.start <= s.start < k.end))
            && (forall o :: o in found && o.start == s.start ==> o.end <= s.end)
  {
    KeptAreDisjoint(found, n);
    EveryStartIsCovered(found, n, s);
    var kept := Kept(found);
    if k :| k in kept && k.start == s.start && k.end == s.end {
      forall o | o in found && o.start == s.start ensures o.end <= s.end {
        EveryStartIsCovered(found, n, o);
        var c :| c in kept && c.start <= o.start < c.end && (c.start == o.start ==> o.end <= c.end);
        SameSpan(kept, c, k, s.start);
      }
      forall c | c in kept && c.start != s.start ensures !(c.start <= s.start < c.end) {
        if c.start <= s.start < c.end {
          SameSpan(kept, c, k, s.start);
        }
      }
    } else {
      var c :| c in kept && c.start <= s.start < c.end && (c.start == s.start ==> s.end <= c.end);
    }
  }

  lemma SameSpan(spans: seq<Span>, a: Span, b: Span, p: nat)
    requires Disjoint(spans) && a in spans && b in spans && a.start <= p < a.end && b.start <= p < b.end
    ensures a == b
  {
    var i :| 0 <= i < |spans| && spans[i] == a;
    var j :| 0 <= j < |spans| && spans[j] == b;
  }

  /** When no two detected spans overlap partially, every character of every one is inside a kept span. */
  lemma NestedSpansFullyCovered(found: seq<Span>, n: nat, s: Span, p: nat)
    requires InText(found, n) && s in found && s.start <= p < s.end
    requires forall a, b :: a in found && b in found && a.start < b.start < a.end ==> b.end <= a.end
    ensures exists k :: k in Kept(found) && k.start <= p < k.end
  {
    KeptAreDisjoint(found, n);
    EveryStartIsCovered(found, n, s);
    var k :| k in Kept(found) && k.start <= s.start < k.end && (k.start == s.start ==> s.end <= k.end);
  }

  // ---------- When nothing leaks, and when the longest wins ----------

  predicate DrawnFrom(list: seq<Span>, found: seq<Span>) {
    forall i :: 0 <= i < |list| ==> list[i] in found
  }

  /** Position p is inside a kept span. */
  ghost predicate Hidden(list: seq<Span>, p: nat) {
    exists k :: k in Kept(list) && k.start <= p < k.end
  }

  /** Every character of every detected span is hidden. */
  ghost predicate FullyHidden(list: seq<Span>) {
    forall s, p: nat :: s in list && s.start <= p < s.end ==> Hidden(list, p)
  }

  /** The later span starts inside the earlier one and goes on after it. */
  predicate PartiallyOverlaps(a: Span, b: Span) {
    a.start < b.start < a.end < b.end
  }

  lemma DrawnInText(list: seq<Span>, found: seq<Span>, n: nat)
    requires DrawnFrom(list, found) && InText(found, n)
    ensures InText(list, n)
  {
    forall i | 0 <= i < |list| ensures list[i].start < list[i].end <= n {
      assert list[i] in found;
    }
  }

  /** Of two spans the second of which starts inside the first, the first is kept, however long they are. */
  lemma KeptOfTwo(a: Span, b: Span)
    requires a.start < b.start < a.end
    ensures Kept([a, b]) == [a]
  {
    var two := [a, b];
    assert two[1..] == [b] && [b][1..] == [];
    assert Sort([b], Before) == [b];
    assert Sort(two, Before) == two;
    assert Keep([], a.end) == [] && Keep([b], a.end) == [];
    assert Keep(two, -1) == [a] + Keep(two[1..], a.end);
  }

  /** Of two partially overlapping spans everything after the first is left in the text. */
  lemma OverlapLeaks(a: Span, b: Span, p: nat)
    requires PartiallyOverlaps(a, b) && a.end <= p < b.end
    ensures !Hidden([a, b], p)
  {
    KeptOfTwo(a, b);
  }

  /** For example, 0..5 and 3..8 leave position 6 in the text. */
  lemma LeakAtSix()
    ensures !Hidden([Span(0, 5, "A"), Span(3, 8, "B")], 6) && !FullyHidden([Span(0, 5, "A"), Span(3, 8, "B")])
  {
    OverlapLeaks(Span(0, 5, "A"), Span(3, 8, "B"), 6);
    assert Span(3, 8, "B") in [Span(0, 5, "A"), Span(3, 8, "B")];
  }

  /** The exact condition on the spans: whichever of them are detected, all their characters are hidden, if and
      only if no two of them overlap partially. */
  lemma HiddenIffNoPartialOverlap(found: seq<Span>, n: nat)
    requires InText(found, n)
    ensures (forall list: seq<Span> :: DrawnFrom(list, found) ==> FullyHidden(list))
            <==> (forall a, b :: a in found && b in found ==> !PartiallyOverlaps(a, b))
  {
    if forall a, b :: a in found && b in found ==> !PartiallyOverlaps(a, b) {
      forall list: seq<Span> | DrawnFrom(list, found) ensures FullyHidden(list) {
        DrawnInText(list, found, n);
        forall s, p: nat | s in list && s.start <= p < s.end ensures Hidden(list, p) {
          forall a, b | a in list && b in list && a.start < b.start < a.end ensures b.end <= a.end {
            assert a in found && b in found && !PartiallyOverlaps(a, b);
          }
          NestedSpansFullyCovered(list, n, s, p);
        }
      }
    } else {
      var a, b :| a in found && b in found && PartiallyOverlaps(a, b);
      OverlapLeaks(a, b, a.end);
      assert DrawnFrom([a, b], found) && b in [a, b];
      assert !FullyHidden([a, b]);
    }
  }

  predicate Overlap(a: Span, b: Span) {
    a.start < b.end && b.start < a.end
  }

  function Length(s: Span): int {
    s.end - s.start
  }

  /** What the comment promises: every detected span overlaps a kept one that is at least as long. */
  ghost predicate LongestKept(list: seq<Span>) {
    forall s :: s in list ==> exists k :: k in Kept(list) && Overlap(k, s) && Length(k) >= Length(s)
  }

  /** For example, of 0..3 and 1..9 the shorter is kept. */
  lemma ShorterIsKept()
    ensures Kept([Span(0, 3, "A"), Span(1, 9, "B")]) == [Span(0, 3, "A")]
    ensures !LongestKept([Span(0, 3, "A"), Span(1, 9, "B")])
  {
    KeptOfTwo(Span(0, 3, "A"), Span(1, 9, "B"));
    assert Span(1, 9, "B") in [Span(0, 3, "A"), Span(1, 9, "B")];
  }

  /** The exact condition on the spans: whichever of them are detected, the longest are kept, if and only if no
      span that starts inside another one is longer than it. */
  lemma LongestKeptIff(found: seq<Span>, n: nat)
    requires InText(found, n)
    ensures (forall list: seq<Span> :: DrawnFrom(list, found) ==> LongestKept(list))
            <==> (forall a, b :: a in found && b in found && a.start < b.start < a.end ==> Length(b) <= Length(a))
  {
    if forall a, b :: a in found && b in found && a.start < b.start < a.end ==> Length(b) <= Length(a) {
      forall list: seq<Span> | DrawnFrom(list, found) ensures LongestKept(list) {
        DrawnInText(list, found, n);
        KeptAreDisjoint(list, n);
        forall s | s in list ensures exists k :: k in Kept(list) && Overlap(k, s) && Length(k) >= Length(s) {
          EveryStartIsCovered(list, n, s);
          var k :| k in Kept(list) && k.start <= s.start < k.end && (k.start == s.start ==> s.end <= k.end);
          assert s in found && k in found;
          assert Overlap(k, s);
        }
      }
    } else {
      var a, b :| a in found && b in found && a.start < b.start < a.end && Length(b) > Length(a);
      KeptOfTwo(a, b);
      assert DrawnFrom([a, b], found) && b in [a, b];
      assert !LongestKept([a, b]);
    }
  }

  function SameExtent(k: Span): Span -> bool {
    (s: Span) => s.start == k.start && s.end == k.end
  }

  lemma {:induction false} KeepTakesFirst(spans: seq<Span>, lastEnd: int, n: nat, k: Span)
    requires InText(spans, n) && k in Keep(spans, lastEnd)
    ensures Filter(spans, SameExtent(k)) != [] && Filter(spans, SameExtent(k))[0] == k
  {
    var head := spans[0];
    var next := if head.start >= lastEnd then head.end else lastEnd;
    KeepProperties(spans[1..], next, n);
    if k != head {
      KeepTakesFirst(spans[1..], next, n, k);
    }
  }

  /** Among matches of the same extent, the one found first gives the kept span its label. */
  lemma FirstMatchNamesSpan(found: seq<Span>, n: nat, k: Span)
    requires InText(found, n) && k in Kept(found)
    ensures Filter(found, SameExtent(k)) != [] && Filter(found, SameExtent(k))[0] == k
  {
    SortInText(found, n);
    KeepTakesFirst(Sort(found, Before), -1, n, k);
    BeforeIsOrder();
    SortStable(found, Before, SameExtent(k));
  }

  // ---------- Rewriting ----------

  function Token(s: Span, replacement: Option<string>): string {
    if replacement.Some? && replacement.value != "" then replacement.value else "[REDACTED_" + s.tag + "]"
  }

  /** For example; an empty replacement is none. */
  lemma TokensLookLike(start: nat, end: nat)
    ensures Token(Span(start, end, "CARD"), None) == Token(Span(start, end, "CARD"), Some("")) == "[REDACTED_CARD]"
    ensures Token(Span(start, end, "CARD"), Some("***")) == "***"
  {
  }

  // ---------- The reference: what becomes of each character ----------

  ghost predicate Starts(kept: seq<Span>, p: nat) {
    exists k :: k in kept && k.start == p
  }

  ghost predicate Inside(kept: seq<Span>, p: nat) {
    exists k :: k in kept && k.start <= p < k.end
  }

  /** A kept span's first character becomes its token, its other characters disappear, and every
      character outside the kept spans stays. */
  ghost function Fate(text: string, kept: seq<Span>, p: nat, replacement: Option<string>): string
    requires p < |text|
  {
    if Starts(kept, p) then
      var k :| k in kept && k.start == p;
      Token(k, replacement)
    else if Inside(kept, p) then ""
    else [text[p]]
  }

  ghost function Pointwise(text: string, kept: seq<Span>, from: nat, replacement: Option<string>): string
    requires from <= |text|
    decreases |text| - from
  {
    if from == |text| then "" else Fate(text, kept, from, replacement) + Pointwise(text, kept, from + 1, replacement)
  }

  lemma FateOutside(text: string, kept: seq<Span>, p: nat, replacement: Option<string>)
    requires p < |text| && !Inside(kept, p) && forall i :: 0 <= i < |kept| ==> kept[i].start < kept[i].end
    ensures Fate(text, kept, p, replacement) == [text[p]]
  {
    assert Starts(kept, p) ==> Inside(kept, p);
  }

  /** What the reference leaves from position p on. */
  ghost function Rest(text: string, kept: seq<Span>, replacement: Option<string>): nat -> string {
    (p: nat) => if p <= |text| then Pointwise(text, kept, p, replacement) else ""
  }

  /** A stretch of which each character is copied is copied. */
  lemma {:induction false} Copied(text: string, rest: nat -> string, from: nat, to: nat)
    requires from <= to <= |text| && forall p :: from <= p < to ==> rest(p) == [text[p]] + rest(p + 1)
    ensures rest(from) == text[from..to] + rest(to)
    decreases |text| - from
  {
    if from < to {
      Copied(text, rest, from + 1, to);
      assert text[from..to] == [text[from]] + text[from + 1..to];
      Associate([text[from]], text[from + 1..to], rest(to));
    }
  }

  lemma RestAt(text: string, kept: seq<Span>, p: nat, replacement: Option<string>)
    requires p < |text|
    ensures Rest(text, kept, replacement)(p) == Fate(text, kept, p, replacement) + Rest(text, kept, replacement)(p + 1)
  {
  }

  /** A stretch outside all kept spans is copied. */
  lemma CopyStretch(text: string, kept: seq<Span>, from: nat, to: nat, replacement: Option<string>)
    requires from <= to <= |text| && forall p :: from <= p < to ==> !Inside(kept, p)
    requires forall i :: 0 <= i < |kept| ==> kept[i].start < kept[i].end
    ensures Rest(text, kept, replacement)(from) == text[from..to] + Rest(text, kept, replacement)(to)
  {
    var rest := Rest(text, kept, replacement);
    forall p | from <= p < to ensures rest(p) == [text[p]] + rest(p + 1) {
      RestAt(text, kept, p, replacement);
      FateOutside(text, kept, p, replacement);
    }
    Copied(text, rest, from, to);
  }

  lemma {:induction false} Dropped(rest: nat -> string, lo: nat, hi: nat)
    requires lo <= hi && forall p :: lo <= p < hi ==> rest(p) == rest(p + 1)
    ensures rest(lo) == rest(hi)
    decreases hi
  {
    if lo < hi {
      var m := hi - 1;
      Dropped(rest, lo, m);
      assert rest(m) == rest(m + 1);
    }
  }

  lemma FateInside(text: string, kept: seq<Span>, k: Span, p: nat, replacement: Option<string>)
    requires InText(kept, |text|) && Disjoint(kept) && k in kept && k.start < p < k.end
    ensures p < |text| && Fate(text, kept, p, replacement) == ""
  {
    assert Inside(kept, p);
    assert !Starts(kept, p);
  }

  /** The rest of a kept span disappears. */
  lemma {:induction false} DropStretch(text: string, kept: seq<Span>, k: Span, replacement: Option<string>)
    requires InText(kept, |text|) && Disjoint(kept) && k in kept && k.start < k.end
    ensures Rest(text, kept, replacement)(k.start + 1) == Rest(text, kept, replacement)(k.end)
  {
    var rest := Rest(text, kept, replacement);
    forall p | k.start + 1 <= p < k.end ensures rest(p) == rest(p + 1) {
      FateInside(text, kept, k, p, replacement);
      RestAt(text, kept, p, replacement);
    }
    Dropped(rest, k.start + 1, k.end);
  }

  lemma OneStart(kept: seq<Span>, p: nat)
    requires Disjoint(kept) && forall i :: 0 <= i < |kept| ==> kept[i].start < kept[i].end
    ensures forall a, b :: a in kept && b in kept && a.start == p && b.start == p ==> a == b
  {
    forall a, b | a in kept && b in kept && a.start == p && b.start == p ensures a == b {
      SameSpan(kept, a, b, p);
    }
  }

  lemma FateOfStart(text: string, kept: seq<Span>, k: Span, replacement: Option<string>)
    requires Disjoint(kept) && InText(kept, |text|) && k in kept && k.start < |text|
    ensures Fate(text, kept, k.start, replacement) == Token(k, replacement)
  {
    OneStart(kept, k.start);
    assert Starts(kept, k.start);
  }

  // ---------- The rewriting loop ----------

  /** Where the loop stands after `i` spans. */
  function Cursor(kept: seq<Span>, i: nat): nat
    requires i <= |kept|
  {
    if i == 0 then 0 else kept[i - 1].end
  }

  /** What the loop has written after `i` spans. */
  function Written(text: string, kept: seq<Span>, i: nat, replacement: Option<string>): string
    requires InText(kept, |text|) && Disjoint(kept) && i <= |kept|
  {
    if i == 0 then ""
    else
      Written(text, kept, i - 1, replacement)
      + (text[Cursor(kept, i - 1)..kept[i - 1].start] + Token(kept[i - 1], replacement))
  }

  lemma NothingBetween(text: string, kept: seq<Span>, i: nat, p: nat)
    requires InText(kept, |text|) && Disjoint(kept) && i <= |kept|
    requires Cursor(kept, i) <= p && (i < |kept| ==> p < kept[i].start)
    ensures !Inside(kept, p)
  {
  }

  /** A kept span becomes its token. */
  lemma FirstCharacter(text: string, kept: seq<Span>, k: Span, replacement: Option<string>)
    requires InText(kept, |text|) && Disjoint(kept) && k in kept && k.start < k.end <= |text|
    ensures Rest(text, kept, replacement)(k.start) == Token(k, replacement) + Rest(text, kept, replacement)(k.end)
  {
    FateOfStart(text, kept, k, replacement);
    RestAt(text, kept, k.start, replacement);
    DropStretch(text, kept, k, replacement);
  }

  lemma Associate(a: string, b: string, c: string)
    ensures a + (b + c) == (a + b) + c
  {
  }

  /** The front of what is left moves to the end of what is written. */
  lemma Moved(written: string, part: string, left: string, left': string)
    requires left == part + left'
    ensures (written + part) + left' == written + left
  {
    Associate(written, part, left');
  }

  predicate Consumes(text: string, kept: seq<Span>, j: nat, replacement: Option<string>, rest: nat -> string)
    requires InText(kept, |text|) && Disjoint(kept) && j < |kept|
  {
    rest(Cursor(kept, j))
    == (text[Cursor(kept, j)..kept[j].start] + Token(kept[j], replacement)) + rest(Cursor(kept, j + 1))
  }

  lemma {:induction false} SpanStep(text: string, kept: seq<Span>, i: nat, replacement: Option<string>)
    requires InText(kept, |text|) && Disjoint(kept) && i < |kept|
    ensures Consumes(text, kept, i, replacement, Rest(text, kept, replacement))
  {
    var k, from, rest := kept[i], Cursor(kept, i), Rest(text, kept, replacement);
    forall p | from <= p < k.start ensures !Inside(kept, p) {
      NothingBetween(text, kept, i, p);
    }
    CopyStretch(text, kept, from, k.start, replacement);
    FirstCharacter(text, kept, k, replacement);
    Associate(text[from..k.start], Token(k, replacement), rest(k.end));
  }

  /** What is written and what is left are the whole, after each span. */
  lemma {:induction false} WrittenAndLeft(text: string, kept: seq<Span>, i: nat, replacement: Option<string>,
                                          rest: nat -> string)
    requires InText(kept, |text|) && Disjoint(kept) && i <= |kept|
    requires forall j :: 0 <= j < |kept| ==> Consumes(text, kept, j, replacement, rest)
    ensures Written(text, kept, i, replacement) + rest(Cursor(kept, i)) == rest(0)
  {
    if i > 0 {
      var j := i - 1;
      WrittenAndLeft(text, kept, j, replacement, rest);
      assert Consumes(text, kept, j, replacement, rest);
      Moved(Written(text, kept, j, replacement), text[Cursor(kept, j)..kept[j].start] + Token(kept[j], replacement),
            rest(Cursor(kept, j)), rest(Cursor(kept, i)));
    }
  }

  lemma {:induction false} WrittenIsPointwise(text: string, kept: seq<Span>, replacement: Option<string>)
    requires InText(kept, |text|) && Disjoint(kept)
    ensures Written(text, kept, |kept|, replacement) + Pointwise(text, kept, Cursor(kept, |kept|), replacement) ==
            Pointwise(text, kept, 0, replacement)
  {
    var rest := Rest(text, kept, replacement);
    forall j | 0 <= j < |kept| ensures Consumes(text, kept, j, replacement, rest) {
      SpanStep(text, kept, j, replacement);
    }
    WrittenAndLeft(text, kept, |kept|, replacement, rest);
  }

  /** The text rewritten from left to right is the character-by-character reference. */
  lemma RewritingIsPointwise(text: string, kept: seq<Span>, replacement: Option<string>)
    requires InText(kept, |text|) && Disjoint(kept)
    ensures Written(text, kept, |kept|, replacement) + text[Cursor(kept, |kept|)..] ==
            Pointwise(text, kept, 0, replacement)
  {
    var from := Cursor(kept, |kept|);
    forall p | from <= p < |text| ensures !Inside(kept, p) {
      NothingBetween(text, kept, |kept|, p);
    }
    CopyStretch(text, kept, from, |text|, replacement);
    WrittenIsPointwise(text, kept, replacement);
  }

  /** The rewriting loop of `redact_pii`. */
  method Rewrite(text: string, spans: seq<Span>, replacement: Option<string>) returns (r: string)
    requires InText(spans, |text|) && Disjoint(spans)
    ensures r == Written(text, spans, |spans|, replacement) + text[Cursor(spans, |spans|)..]
  {
    r := "";
    var cursor: nat := 0;
    for i := 0 to |spans|
      invariant cursor == Cursor(spans, i)
      invariant r == Written(text, spans, i, replacement)
    {
      assert Written(text, spans, i + 1, replacement)
             == Written(text, spans, i, replacement) + (text[cursor..spans[i].start] + Token(spans[i], replacement));
      r := r + (text[cursor..spans[i].start] + Token(spans[i], replacement));
      cursor := spans[i].end;
    }
    r := r + text[cursor..];
  }

  method RedactPii(text: string, found: seq<Span>, replacement: Option<string>) returns (r: string)
    requires InText(found, |text|)
    ensures r == Pointwise(text, Kept(found), 0, replacement)
  {
    KeptAreDisjoint(found, |text|);
    var spans := DetectPii(found);
    RewritingIsPointwise(text, spans, replacement);
    if spans == [] {
      return text;
    }
    r := Rewrite(text, spans, replacement);
  }
}
