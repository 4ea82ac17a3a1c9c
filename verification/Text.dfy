/** Strings: the few Python string operations that the models need. */
module Text {

  /** ASCII white space, as `str.strip` and `str.split` see it. */
  predicate IsSpace(c: char) {
    c == ' ' || '\t' <= c <= '\r' || '\U{1C}' <= c <= '\U{1F}'
  }

  lemma SpacesAre(c: char)
    ensures IsSpace(c) <==> c in " \t\n\U{0B}\U{0C}\r\U{1C}\U{1D}\U{1E}\U{1F}"
  {
    var all := " \t\n\U{0B}\U{0C}\r\U{1C}\U{1D}\U{1E}\U{1F}";
    if c == ' ' {
      assert all[0] == c;
    } else if '\t' <= c <= '\r' {
      assert all[(c - '\t') as int + 1] == c;
    } else if '\U{1C}' <= c <= '\U{1F}' {
      assert all[(c - '\U{1C}') as int + 6] == c;
    }
  }

  // ---------- Decimal numerals ----------

  function Digit(n: nat): (c: char)
    requires n < 10
    ensures '0' <= c <= '9'
  {
    "0123456789"[n]
  }

  function Decimal(n: nat): (s: string)
    ensures s != [] && forall i :: 0 <= i < |s| ==> '0' <= s[i] <= '9'
  {
    if n < 10 then [Digit(n)] else Decimal(n / 10) + [Digit(n % 10)]
  }

  lemma {:induction false} DecimalInjective(m: nat, n: nat)
    requires Decimal(m) == Decimal(n)
    ensures m == n
    decreases m
  {
    var s, t := Decimal(m), Decimal(n);
    assert s[|s| - 1] == Digit(m % 10) && t[|t| - 1] == Digit(n % 10);
    if m >= 10 && n >= 10 {
      assert s[..|s| - 1] == Decimal(m / 10) && t[..|t| - 1] == Decimal(n / 10);
      DecimalInjective(m / 10, n / 10);
    }
  }

  // ---------- Separators ----------

  /** The position of the first `c`, or the length. */
  function IndexOf(s: string, c: char): (i: nat)
    ensures i <= |s| && (i < |s| ==> s[i] == c) && c !in s[..i]
  {
    if s == [] || s[0] == c then 0
    else
      var i := 1 + IndexOf(s[1..], c);
      assert s[..i] == [s[0]] + s[1..][..i - 1];
      i
  }

  /** The position after the last `c`, or zero. */
  function AfterLast(s: string, c: char): (i: nat)
    ensures i <= |s| && (i > 0 ==> s[i - 1] == c) && c !in s[i..]
  {
    if s == [] || s[|s| - 1] == c then |s|
    else
      var n := |s| - 1;
      var i := AfterLast(s[..n], c);
      assert s[i..] == s[..n][i..] + [s[n]];
      i
  }

  lemma {:induction false} FirstSeparator(a: string, c: char, b: string)
    requires c !in a
    ensures IndexOf(a + [c] + b, c) == |a|
  {
    if a != [] {
      FirstSeparator(a[1..], c, b);
      assert (a + [c] + b)[1..] == a[1..] + [c] + b;
    }
  }

  lemma {:induction false} LastSeparator(a: string, c: char, b: string)
    requires c !in b
    ensures AfterLast(a + [c] + b, c) == |a| + 1
  {
    if b == [] {
      assert (a + [c] + b)[|a|] == c;
    } else {
      var n := |b| - 1;
      LastSeparator(a, c, b[..n]);
      assert (a + [c] + b)[..|a| + 1 + n] == a + [c] + b[..n];
    }
  }

  /** A separator character that occurs in neither head determines where two equal strings split. */
  lemma SplitUnique(a: string, b: string, c: char, x: string, y: string)
    requires a + [c] + b == x + [c] + y && c !in a && c !in x
    ensures a == x && b == y
  {
    FirstSeparator(a, c, b);
    FirstSeparator(x, c, y);
    assert a == (a + [c] + b)[..|a|] && b == (a + [c] + b)[|a| + 1..];
    assert x == (x + [c] + y)[..|x|] && y == (x + [c] + y)[|x| + 1..];
  }

  /** The same from the right: the separator occurs in neither tail. */
  lemma SplitUniqueRight(a: string, b: string, c: char, x: string, y: string)
    requires a + [c] + b == x + [c] + y && c !in b && c !in y
    ensures a == x && b == y
  {
    LastSeparator(a, c, b);
    LastSeparator(x, c, y);
    assert a == (a + [c] + b)[..|a|] && b == (a + [c] + b)[|a| + 1..];
    assert x == (x + [c] + y)[..|x|] && y == (x + [c] + y)[|x| + 1..];
  }

  /** When two strings with these heads are equal, one head begins the other. */
  lemma HeadsMeet(h: string, s: string, h': string, s': string)
    requires h + s == h' + s'
    ensures h <= h' || h' <= h
  {
    assert h == (h + s)[..|h|] && h' == (h' + s')[..|h'|];
  }

  // ---------- Searching ----------

  predicate OccursAt(s: string, pat: string, i: int) {
    0 <= i && i + |pat| <= |s| && s[i..i + |pat|] == pat
  }

  /** `s.find(pat, from)`. */
  function Find(s: string, pat: string, from: nat): (r: int)
    ensures r == -1 || (from <= r && OccursAt(s, pat, r))
    ensures forall i :: from <= i && OccursAt(s, pat, i) ==> 0 <= r <= i
    decreases |s| - from
  {
    if from + |pat| > |s| then -1
    else if OccursAt(s, pat, from) then from
    else Find(s, pat, from + 1)
  }

  lemma SliceOfSlice(s: string, lo: nat, hi: nat, a: nat, b: nat)
    requires a <= b && lo + b <= hi <= |s|
    ensures s[lo..hi][a..b] == s[lo + a..lo + b]
  {
    forall k | 0 <= k < b - a ensures s[lo..hi][a..b][k] == s[lo + a..lo + b][k] {
    }
  }

  // ---------- Stripping ----------

  /** The first position in `lo..hi` that is not white space, or `hi`. */
  function SkipLeft(s: string, lo: nat, hi: nat): (r: nat)
    requires lo <= hi <= |s|
    ensures lo <= r <= hi && (r < hi ==> !IsSpace(s[r]))
    ensures forall i :: lo <= i < r ==> IsSpace(s[i])
    decreases hi - lo
  {
    if lo < hi && IsSpace(s[lo]) then SkipLeft(s, lo + 1, hi) else lo
  }

  /** The end of `lo..hi` without trailing white space. */
  function SkipRight(s: string, lo: nat, hi: nat): (r: nat)
    requires lo <= hi <= |s|
    ensures lo <= r <= hi && (r > lo ==> !IsSpace(s[r - 1]))
    ensures forall i :: r <= i < hi ==> IsSpace(s[i])
    decreases hi - lo
  {
    if lo < hi && IsSpace(s[hi - 1]) then SkipRight(s, lo, hi - 1) else hi
  }

  function Strip(s: string): (r: string)
    ensures |r| <= |s|
    ensures r != [] ==> !IsSpace(r[0]) && !IsSpace(r[|r| - 1])
  {
    var lo := SkipLeft(s, 0, |s|);
    s[lo..SkipRight(s, lo, |s|)]
  }

  /** Stripping takes away white space at the ends, and nothing else. */
  lemma StripIs(s: string)
    ensures exists lo: nat, hi: nat :: lo <= hi <= |s| && Strip(s) == s[lo..hi]
              && (forall i :: 0 <= i < lo || hi <= i < |s| ==> IsSpace(s[i]))
  {
    var lo := SkipLeft(s, 0, |s|);
    var hi := SkipRight(s, lo, |s|);
    assert Strip(s) == s[lo..hi];
  }
}
