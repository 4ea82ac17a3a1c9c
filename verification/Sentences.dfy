/** Splitting a text into sentences, the fallback without a tokenizer: a text breaks at white space that
    follows '.', '!' or '?' and precedes a capital letter or a quote; the parts are stripped and empty
    parts dropped. */
module Sentences {
  import opened Text

  datatype Span = Span(lo: nat, hi: nat)

  predicate Closes(c: char) {
    c == '.' || c == '!' || c == '?'
  }

  predicate Opens(c: char) {
    'A' <= c <= 'Z' || c == '"'
  }

  /** A break starts at i; it goes on to the end of the white space. */
  predicate BreakAt(text: string, i: nat)
    requires i <= |text|
  {
    && 0 < i < |text| && Closes(text[i - 1]) && IsSpace(text[i])
    && SkipLeft(text, i, |text|) < |text| && Opens(text[SkipLeft(text, i, |text|)])
  }

  /** In the terms of the pattern: after one of ".!?", some white space, and then a capital letter or a quote. */
  lemma BreakIff(text: string, i: nat)
    requires i <= |text|
    ensures BreakAt(text, i)
            <==> exists j: nat :: 0 < i < j < |text| && text[i - 1] in ".!?"
                   && (forall k :: i <= k < j ==> IsSpace(text[k])) && text[j] in "ABCDEFGHIJKLMNOPQRSTUVWXYZ\""
  {
    if SkipLeft(text, i, |text|) < |text| {
      OpensIff(text[SkipLeft(text, i, |text|)]);
    }
    forall j: nat | 0 < i < j < |text| && text[i - 1] in ".!?"
                    && (forall k :: i <= k < j ==> IsSpace(text[k])) && text[j] in "ABCDEFGHIJKLMNOPQRSTUVWXYZ\""
      ensures BreakAt(text, i)
    {
      OpensIff(text[j]);
      assert j == SkipLeft(text, i, |text|);
    }
  }

  lemma OpensIff(c: char)
    ensures Opens(c) <==> c in "ABCDEFGHIJKLMNOPQRSTUVWXYZ\""
    ensures Opens(c) ==> !IsSpace(c)
  {
    if 'A' <= c <= 'Z' {
      assert "ABCDEFGHIJKLMNOPQRSTUVWXYZ\""[(c - 'A') as int] == c;
    }
  }

  function Trimmed(text: string, lo: nat, hi: nat): (spans: seq<Span>)
    requires lo <= hi <= |text|
  {
    var a := SkipLeft(text, lo, hi);
    var b := SkipRight(text, a, hi);
    if a < b then [Span(a, b)] else []
  }

  /** The sentences from `start` on, when no break has been found before i. */
  function SplitFrom(text: string, start: nat, i: nat): seq<Span>
    requires start <= i <= |text|
    decreases |text| - i
  {
    if i == |text| then Trimmed(text, start, i)
    else if BreakAt(text, i) then
      var j := SkipLeft(text, i, |text|);
      Trimmed(text, start, i) + SplitFrom(text, j, j)
    else SplitFrom(text, start, i + 1)
  }

  function Split(text: string): seq<Span> {
    SplitFrom(text, 0, 0)
  }

  // ---------- What a split is ----------

  /** A sentence: it neither starts nor ends with white space and has no break inside. */
  predicate IsSentence(text: string, s: Span) {
    && s.lo < s.hi <= |text| && !IsSpace(text[s.lo]) && !IsSpace(text[s.hi - 1])
    && (forall p :: s.lo < p < s.hi ==> !BreakAt(text, p))
  }

  /** Between one sentence and the next there is a break and nothing else. */
  predicate Adjacent(text: string, s: Span, t: Span)
  {
    s.hi <= |text| && BreakAt(text, s.hi) && t.lo == SkipLeft(text, s.hi, |text|)
  }

  predicate InOrder(text: string, spans: seq<Span>) {
    && (forall k :: 0 <= k < |spans| ==> IsSentence(text, spans[k]))
    && (forall k, m :: 0 <= k < |spans| && m == k + 1 && m < |spans| ==> Adjacent(text, spans[k], spans[m]))
  }

  predicate Blank(text: string, lo: nat, hi: nat) {
    forall p :: lo <= p < hi && p < |text| ==> IsSpace(text[p])
  }

  /** The text from `start` is exactly the sentences in `spans`, but for white space at both ends. */
  predicate Exactly(text: string, start: nat, spans: seq<Span>) {
    && InOrder(text, spans)
    && (spans == [] ==> Blank(text, start, |text|))
    && (spans != [] ==> start <= spans[0].lo && Blank(text, start, spans[0].lo)
                        && Blank(text, spans[|spans| - 1].hi, |text|))
  }

  lemma TrimmedIsSentence(text: string, start: nat, i: nat)
    requires start <= i <= |text|
    requires forall p :: start < p < i ==> !BreakAt(text, p)
    ensures var t := Trimmed(text, start, i);
            if t == [] then Blank(text, start, i)
            else |t| == 1 && IsSentence(text, t[0]) && start <= t[0].lo && t[0].hi <= i
                 && Blank(text, start, t[0].lo) && Blank(text, t[0].hi, i)
  {
  }

  /** A sentence up to a break, and what is exact after the break. */
  lemma Prepended(text: string, start: nat, t: Span, rest: seq<Span>)
    requires IsSentence(text, t) && start <= t.lo && Blank(text, start, t.lo)
    requires BreakAt(text, t.hi) && Exactly(text, SkipLeft(text, t.hi, |text|), rest)
    requires rest != [] && rest[0].lo == SkipLeft(text, t.hi, |text|)
    ensures Exactly(text, start, [t] + rest)
  {
    var spans := [t] + rest;
    forall k | 0 <= k < |spans| ensures IsSentence(text, spans[k]) {
      var i := k - 1;
      assert k > 0 ==> spans[k] == rest[i];
    }
    forall k, m | 0 <= k < |spans| && m == k + 1 && m < |spans| ensures Adjacent(text, spans[k], spans[m]) {
      var i, j := k - 1, m - 1;
      assert spans[m] == rest[j] && (k > 0 ==> spans[k] == rest[i]);
    }
  }

  /** A break never follows a blank stretch: the character before it closes a sentence. */
  lemma {:induction false} SplitFromExact(text: string, start: nat, i: nat)
    requires start <= i <= |text|
    requires forall p :: start < p < i ==> !BreakAt(text, p)
    requires BreakAt(text, i) ==> start < i
    ensures Exactly(text, start, SplitFrom(text, start, i))
    ensures var spans := SplitFrom(text, start, i);
            start < |text| && !IsSpace(text[start]) ==> spans != [] && spans[0].lo == start
    decreases |text| - i
  {
    if i == |text| {
      TrimmedIsSentence(text, start, i);
    } else if BreakAt(text, i) {
      var j := SkipLeft(text, i, |text|);
      TrimmedIsSentence(text, start, i);
      SplitFromExact(text, j, j);
      var t, rest := Trimmed(text, start, i), SplitFrom(text, j, j);
      assert t == [t[0]] && t[0].hi == i;
      Prepended(text, start, t[0], rest);
    } else {
      SplitFromExact(text, start, i + 1);
    }
  }

  /** The split is exact: the sentences follow each other in the order of the text, separated by breaks and
      by nothing else, there is no break within a sentence, and only white space is left out. */
  lemma SplitExact(text: string)
    ensures Exactly(text, 0, Split(text))
  {
    SplitFromExact(text, 0, 0);
  }

  /** It is the only such list. */
  lemma {:induction false} ExactIsUnique(text: string, start: nat, a: seq<Span>, b: seq<Span>)
    requires Exactly(text, start, a) && Exactly(text, start, b)
    ensures a == b
    decreases |a|
  {
    if a != [] && b != [] {
      SameFirst(text, start, a, b);
      RestExact(text, start, a);
      RestExact(text, start, b);
      ExactIsUnique(text, a[0].hi, a[1..], b[1..]);
    }
  }

  lemma RestExact(text: string, start: nat, a: seq<Span>)
    requires Exactly(text, start, a) && a != []
    ensures Exactly(text, a[0].hi, a[1..])
  {
    var rest := a[1..];
    forall k, m | 0 <= k && m == k + 1 && m < |rest| ensures Adjacent(text, rest[k], rest[m]) {
      var i, j := k + 1, m + 1;
      assert rest[k] == a[i] && rest[m] == a[j];
    }
    if rest != [] {
      assert Adjacent(text, a[0], a[1]);
    }
  }

  /** Two exact lists begin with the same sentence. */
  lemma SameFirst(text: string, start: nat, a: seq<Span>, b: seq<Span>)
    requires Exactly(text, start, a) && Exactly(text, start, b) && a != [] && b != []
    ensures a[0] == b[0]
  {
    assert IsSentence(text, a[0]) && IsSentence(text, b[0]);
    assert a[0].lo == b[0].lo;
    NotLonger(text, start, a, b);
    NotLonger(text, start, b, a);
  }

  lemma NotLonger(text: string, start: nat, a: seq<Span>, b: seq<Span>)
    requires Exactly(text, start, a) && Exactly(text, start, b) && a != [] && b != []
    requires a[0].lo == b[0].lo
    ensures b[0].hi <= a[0].hi
  {
    assert IsSentence(text, a[0]) && IsSentence(text, b[0]);
    if |a| > 1 {
      assert Adjacent(text, a[0], a[1]);
    }
  }

  /** Sentences come in order and at least one character apart. */
  lemma {:induction false} Apart(text: string, spans: seq<Span>, i: nat, j: nat)
    requires InOrder(text, spans) && i < j < |spans|
    ensures spans[i].hi < spans[j].lo
    decreases j
  {
    var m := j - 1;
    assert IsSentence(text, spans[m]) && Adjacent(text, spans[m], spans[j]);
    if i < m {
      Apart(text, spans, i, m);
    }
  }
}
