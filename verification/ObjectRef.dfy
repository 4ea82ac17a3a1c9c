/** Printing and parsing the object references of the GitHub connector. */
module ObjectRef {
  import opened Sequences
  import opened Text
  import opened Wrappers

  const COMMIT: string := "#commit="
  const TOMBSTONE: string := "#tombstone"

  /** A file at a ref of a repository, possibly with the commit it was seen at, possibly deleted. */
  datatype Ref = Ref(repo: string, path: string, ref: string, commit: Option<string>, deleted: bool)

  /** The reference that `discover` and `delta_since` print. An empty commit is none. */
  function Print(r: Ref): string {
    r.repo + ":" + r.path + "@" + r.ref
    + (if r.commit.Some? && r.commit.value != "" then COMMIT + r.commit.value else "")
    + (if r.deleted then TOMBSTONE else "")
  }

  /** For example. */
  lemma ReferencesLookLike()
    ensures Print(Ref("r", "p", "b", Some("c"), true)) == "r:p@b#commit=c#tombstone"
  {
  }

  /** `s.partition(pat)`: the parts before and after the first occurrence. */
  function Partition(s: string, pat: string): (r: (string, bool, string))
    ensures s == if r.1 then r.0 + pat + r.2 else r.0
  {
    var i := Find(s, pat, 0);
    if i == -1 then (s, false, "")
    else
      assert s == s[..i] + s[i..i + |pat|] + s[i + |pat|..];
      (s[..i], true, s[i + |pat|..])
  }

  /** Repository, path and ref of `left`, the part of `s` before any commit. */
  function Fields(left: string, s: string, fallback: string): (string, string, string) {
    var (repo, sep, rest) := Partition(left, ":");
    if !sep then (s, "README.md", fallback)
    else
      var (path, refSep, ref) := Partition(rest, "@");
      (repo, if path == "" then "README.md" else path, if refSep then ref else fallback)
  }

  /** `_parse_repo_object_ref`; `fallback` is the configured ref, or main. */
  function ParseRef(s: string, fallback: string): (string, string, string) {
    Fields(Partition(s, COMMIT).0, s, fallback)
  }

  /** `_extract_commit_sha`. */
  function ExtractCommit(s: string): Option<string> {
    var (_, found, rest) := Partition(s, COMMIT);
    if !found then None
    else
      var sha := Partition(rest, "#").0;
      if sha == "" then None else Some(sha)
  }

  // ---------- Partitioning a concatenation ----------

  /** A pattern whose first character does not occur in `a` is found right after `a`. */
  lemma FindAfter(a: string, pat: string, b: string)
    requires pat != [] && pat[0] !in a
    ensures Find(a + pat + b, pat, 0) == |a|
  {
    assert OccursAt(a + pat + b, pat, |a|);
  }

  lemma PartitionAfter(a: string, pat: string, b: string)
    requires pat != [] && pat[0] !in a
    ensures Partition(a + pat + b, pat) == (a, true, b)
  {
    FindAfter(a, pat, b);
    assert (a + pat + b)[..|a|] == a && (a + pat + b)[|a| + |pat|..] == b;
  }

  /** A pattern whose first character does not occur at all is not found. */
  lemma PartitionAbsent(s: string, pat: string)
    requires pat != [] && pat[0] !in s
    ensures Partition(s, pat) == (s, false, "")
  {
  }

  // ---------- Commits ----------

  /** The part of a reference before any fragment. */
  function Stem(r: Ref): string {
    r.repo + ":" + r.path + "@" + r.ref
  }

  /** The fragments of a reference. */
  function Fragments(r: Ref): string {
    (if r.commit.Some? && r.commit.value != "" then COMMIT + r.commit.value else "")
    + (if r.deleted then TOMBSTONE else "")
  }

  lemma StemAndFragments(r: Ref)
    ensures Print(r) == Stem(r) + Fragments(r)
  {
  }

  predicate HasCommit(s: string) {
    Find(s, COMMIT, 0) != -1
  }

  lemma CharOf(s: string, i: nat, k: nat)
    requires OccursAt(s, COMMIT, i) && k < |COMMIT|
    ensures s[i + k] == COMMIT[k]
  {
    assert s[i..i + |COMMIT|][k] == s[i + k];
  }

  lemma NoHashNoCommit(s: string)
    requires '#' !in s
    ensures !HasCommit(s)
  {
    if HasCommit(s) {
      CharOf(s, Find(s, COMMIT, 0), 0);
    }
  }

  /** The marker of a commit cannot begin in a stem and end in its fragments. */
  lemma NoneAcross(stem: string, tail: string, i: nat)
    requires tail != "" ==> tail[0] == '#'
    requires i < |stem| && OccursAt(stem + tail, COMMIT, i)
    ensures OccursAt(stem, COMMIT, i)
  {
    var s := stem + tail;
    CharOf(s, i, if |stem| - i < |COMMIT| then |stem| - i else 0);
    assert i + |COMMIT| <= |stem|;
    assert stem[i..i + |COMMIT|] == s[i..i + |COMMIT|];
  }

  /** A reference is cut at the marker in its stem, if there is one. */
  lemma CutInStem(stem: string, tail: string)
    requires (tail != "" ==> tail[0] == '#') && HasCommit(stem)
    ensures Partition(stem + tail, COMMIT).0 == stem[..Find(stem, COMMIT, 0)]
  {
    var i := Find(stem, COMMIT, 0);
    assert (stem + tail)[i..i + |COMMIT|] == stem[i..i + |COMMIT|];
    assert OccursAt(stem + tail, COMMIT, i);
    forall j: nat | j < i ensures !OccursAt(stem + tail, COMMIT, j) {
      if OccursAt(stem + tail, COMMIT, j) {
        NoneAcross(stem, tail, j);
      }
    }
  }

  /** Otherwise at the first fragment, if that is a commit. */
  lemma CutAfterStem(stem: string, rest: string)
    requires !HasCommit(stem)
    ensures Partition(stem + COMMIT + rest, COMMIT) == (stem, true, rest)
  {
    var tail := COMMIT + rest;
    assert stem + COMMIT + rest == stem + tail;
    assert OccursAt(stem + tail, COMMIT, |stem|);
    forall j: nat | j < |stem| ensures !OccursAt(stem + tail, COMMIT, j) {
      if OccursAt(stem + tail, COMMIT, j) {
        NoneAcross(stem, tail, j);
      }
    }
    assert (stem + tail)[..|stem|] == stem && (stem + tail)[|stem| + |COMMIT|..] == rest;
  }

  /** A tombstone is not a commit. */
  lemma TombstoneHidesNoCommit(stem: string)
    requires !HasCommit(stem)
    ensures !HasCommit(stem + TOMBSTONE)
  {
    var s := stem + TOMBSTONE;
    forall i: nat ensures !OccursAt(s, COMMIT, i) {
      if OccursAt(s, COMMIT, i) {
        CharOf(s, i, 0);
        CharOf(s, i, 1);
        if i < |stem| {
          NoneAcross(stem, TOMBSTONE, i);
        }
      }
    }
  }

  // ---------- Reading back ----------

  /** Splitting a stem gives back its fields exactly when the repository has no ':' and the path, which is not
      empty, has no '@'. */
  lemma FieldsOfStem(repo: string, path: string, x: string, s: string, fallback: string)
    ensures var f := Fields(repo + ":" + path + "@" + x, s, fallback);
            if ':' in repo then f.0 != repo
            else if path == "" || '@' in path then f.1 != path
            else f == (repo, path, x)
  {
    var stem, rest := repo + ":" + path + "@" + x, path + "@" + x;
    assert stem == repo + ":" + rest;
    if ':' in repo {
      var i := IndexOf(repo, ':');
      assert OccursAt(stem, ":", i);
    } else {
      PartitionAfter(repo, ":", rest);
      if '@' in path {
        var i := IndexOf(path, '@');
        assert OccursAt(rest, "@", i);
        assert '@' !in "README.md";
      } else {
        PartitionAfter(path, "@", x);
      }
    }
  }

  /** A stem that is cut at a '#' never gives back its own fields. */
  lemma CutNeverReadsBack(r: Ref, i: nat, s: string, fallback: string)
    requires i < |Stem(r)| && Stem(r)[i] == '#' && |s| > |r.repo|
    ensures Fields(Stem(r)[..i], s, fallback) != (r.repo, r.path, r.ref)
  {
    var left := Stem(r)[..i];
    var (repo, sep, rest) := Partition(left, ":");
    if sep && repo == r.repo {
      var x := r.path + "@" + r.ref;
      var cut := i - |repo| - 1;
      assert rest == x[..cut] && x[cut] == '#' by {
        assert Stem(r) == repo + ":" + x;
        assert rest == left[|repo| + 1..];
      }
      CutPathNeverReadsBack(r.path, r.ref, cut, fallback);
    }
  }

  /** The same of the part after the repository. */
  lemma CutPathNeverReadsBack(path: string, ref: string, cut: nat, fallback: string)
    requires cut < |path + "@" + ref| && (path + "@" + ref)[cut] == '#'
    ensures var (p, sep, rest) := Partition((path + "@" + ref)[..cut], "@");
            (if p == "" then "README.md" else p, if sep then rest else fallback) != (path, ref)
  {
    var x := path + "@" + ref;
    var (p, sep, rest) := Partition(x[..cut], "@");
    if sep {
      assert |p| + 1 + |rest| == cut < |path| + 1 + |ref|;
      assert p == "" ==> x[0] == '@';
      assert path == "README.md" ==> x[0] == 'R';
    } else {
      assert p == x[..cut];
      assert path == x[..|path|] && x[|path|] == '@';
      assert path == "README.md" ==> x[0] == 'R';
    }
  }

  /** What the parser gives back unchanged. */
  predicate ReadsBack(r: Ref) {
    && ':' !in r.repo && r.path != "" && '@' !in r.path
    && !HasCommit(Stem(r)) && !(r.deleted && r.commit.None?)
  }

  /** The fragments are cut off, but for a tombstone without a commit. */
  lemma CutAtStem(r: Ref)
    requires !HasCommit(Stem(r)) && r.commit != Some("") && !(r.deleted && r.commit.None?)
    ensures Partition(Print(r), COMMIT).0 == Stem(r)
  {
    if r.commit.Some? {
      var rest := r.commit.value + if r.deleted then TOMBSTONE else "";
      assert Print(r) == Stem(r) + COMMIT + rest;
      CutAfterStem(Stem(r), rest);
    } else {
      assert Print(r) == Stem(r);
    }
  }

  /** The exact condition, for every reference: parsing gives back repository, path and ref of what was printed if and
      only if the repository has no ':', the path is not empty and has no '@', none of the three brings in a commit
      marker, and the reference is no tombstone without a commit. */
  lemma RoundTripIff(r: Ref, fallback: string)
    requires r.commit != Some("")
    ensures ParseRef(Print(r), fallback) == (r.repo, r.path, r.ref) <==> ReadsBack(r)
  {
    var stem := Stem(r);
    if HasCommit(stem) {
      var i := Find(stem, COMMIT, 0);
      StemAndFragments(r);
      CutInStem(stem, Fragments(r));
      CharOf(stem, i, 0);
      CutNeverReadsBack(r, i, Print(r), fallback);
    } else if r.deleted && r.commit.None? {
      TombstoneInRef(r, fallback);
    } else {
      CutAtStem(r);
      FieldsOfStem(r.repo, r.path, r.ref, Print(r), fallback);
    }
  }

  /** The marker of a tombstone without a commit is read as the end of the ref. */
  lemma TombstoneInRef(r: Ref, fallback: string)
    requires r.deleted && r.commit.None? && !HasCommit(Stem(r))
    ensures var f := ParseRef(Print(r), fallback);
            if ':' in r.repo then f.0 != r.repo
            else if r.path == "" || '@' in r.path then f.1 != r.path
            else f == (r.repo, r.path, r.ref + TOMBSTONE) && f.2 != r.ref
  {
    TombstoneHidesNoCommit(Stem(r));
    assert Print(r) == Stem(r) + TOMBSTONE == r.repo + ":" + r.path + "@" + (r.ref + TOMBSTONE);
    FieldsOfStem(r.repo, r.path, r.ref + TOMBSTONE, Print(r), fallback);
    assert |r.ref + TOMBSTONE| > |r.ref|;
  }

  lemma EarlierAtSign(repo: string, before: string, after: string, ref: string)
    ensures repo + ":" + (before + "@" + after) + "@" + ref == repo + ":" + before + "@" + (after + "@" + ref)
  {
  }

  /** A path is read up to its first '@', and the rest of it as part of the ref. */
  lemma AtSignIsMisread(r: Ref, before: string, after: string, fallback: string)
    requires r.path == before + "@" + after && before != "" && '@' !in before
    requires ':' !in r.repo && !HasCommit(Stem(r)) && !r.deleted && r.commit != Some("")
    ensures ParseRef(Print(r), fallback) == (r.repo, before, after + "@" + r.ref)
  {
    CutAtStem(r);
    EarlierAtSign(r.repo, before, after, r.ref);
    FieldsOfStem(r.repo, before, after + "@" + r.ref, Print(r), fallback);
  }

  lemma StemWithoutHash(r: Ref)
    requires '#' !in r.repo && '#' !in r.path && '#' !in r.ref
    ensures !HasCommit(Stem(r))
  {
    NoHashNoCommit(Stem(r));
  }

  const SCOPED := Ref("o/r", "packages/" + "@" + "s/a.ts", "main", Some("c0"), false)

  /** Such as that of a scoped package. */
  lemma ScopedPathIsMisread(fallback: string)
    ensures ParseRef(Print(SCOPED), fallback) == ("o/r", "packages/", "s/a.ts" + "@" + "main")
  {
    StemWithoutHash(SCOPED);
    AtSignIsMisread(SCOPED, "packages/", "s/a.ts", fallback);
  }

  /** The commit is given back, when the stem brings in no other, exactly when it has no '#'. */
  lemma CommitReadsBackIff(r: Ref)
    requires r.commit != Some("") && !HasCommit(Stem(r))
    ensures ExtractCommit(Print(r)) == r.commit <==> r.commit.None? || '#' !in r.commit.value
  {
    StemAndFragments(r);
    if r.commit.Some? {
      var sha, tomb := r.commit.value, if r.deleted then TOMBSTONE else "";
      assert Print(r) == Stem(r) + COMMIT + (sha + tomb);
      CutAfterStem(Stem(r), sha + tomb);
      ShaBefore(sha, tomb);
    } else if r.deleted {
      TombstoneHidesNoCommit(Stem(r));
      assert Print(r) == Stem(r) + TOMBSTONE;
    } else {
      assert Print(r) == Stem(r);
    }
  }

  lemma ShaBefore(sha: string, tomb: string)
    requires tomb == "" || tomb == TOMBSTONE
    ensures Partition(sha + tomb, "#").0 == sha <==> '#' !in sha
  {
    if '#' in sha {
      assert OccursAt(sha + tomb, "#", IndexOf(sha, '#'));
    } else if tomb == TOMBSTONE {
      assert sha + tomb == sha + "#" + "tombstone";
      PartitionAfter(sha, "#", "tombstone");
    } else {
      assert sha + tomb == sha;
      PartitionAbsent(sha, "#");
    }
  }

  // ---------- Which references are printed alike ----------

  /** References whose parts can be told apart. */
  predicate Separable(r: Ref) {
    && ':' !in r.repo && r.path != "" && '@' !in r.path && !HasCommit(Stem(r))
    && (r.commit.Some? ==> r.commit.value != "" && '#' !in r.commit.value)
  }

  /** A deleted file without a commit, and a file at a ref that ends with the marker. */
  predicate MarkerInRef(a: Ref, b: Ref) {
    && a.deleted && !b.deleted && a.commit.None? && b.commit.None?
    && a.repo == b.repo && a.path == b.path && a.ref + TOMBSTONE == b.ref
  }

  /** Two such references are printed alike exactly when they are equal, but for tombstones without a commit. */
  lemma PrintedAlikeIff(a: Ref, b: Ref)
    requires Separable(a) && Separable(b)
    ensures Print(a) == Print(b) <==> a == b || MarkerInRef(a, b) || MarkerInRef(b, a)
  {
    if MarkerInRef(a, b) {
      MarkerPrintedAlike(a, b);
    }
    if MarkerInRef(b, a) {
      MarkerPrintedAlike(b, a);
    }
    if Print(a) == Print(b) {
      CommitReadsBackIff(a);
      CommitReadsBackIff(b);
      SeparableParsed(a);
      SeparableParsed(b);
      SameDeletion(a, b);
    }
  }

  lemma MarkerPrintedAlike(a: Ref, b: Ref)
    requires MarkerInRef(a, b)
    ensures Print(a) == Print(b)
  {
    assert Stem(a) + TOMBSTONE == a.repo + ":" + a.path + "@" + (a.ref + TOMBSTONE);
  }

  lemma SeparableParsed(r: Ref)
    requires Separable(r)
    ensures ParseRef(Print(r), "") == (r.repo, r.path, if r.deleted && r.commit.None? then r.ref + TOMBSTONE else r.ref)
  {
    if r.deleted && r.commit.None? {
      TombstoneInRef(r, "");
    } else {
      RoundTripIff(r, "");
    }
  }

  lemma SameDeletion(a: Ref, b: Ref)
    requires Print(a) == Print(b) && a.commit == b.commit && a.repo == b.repo && a.path == b.path
    requires (a.commit.None? || a.commit.value != "")
    requires (if a.deleted && a.commit.None? then a.ref + TOMBSTONE else a.ref)
             == if b.deleted && b.commit.None? then b.ref + TOMBSTONE else b.ref
    ensures a == b || MarkerInRef(a, b) || MarkerInRef(b, a)
  {
    if a.deleted == b.deleted {
      var n := |a.ref|;
      assert (a.ref + TOMBSTONE)[..n] == a.ref && (b.ref + TOMBSTONE)[..|b.ref|] == b.ref;
    }
  }

  /** Every reference whose path has an '@' is printed like another one, whose path has none. */
  lemma AtSignPrintsAlike(r: Ref) returns (q: Ref)
    requires '@' in r.path
    ensures q != r && Print(q) == Print(r) && q.repo == r.repo && '@' !in q.path
  {
    var i := IndexOf(r.path, '@');
    q := r.(path := r.path[..i], ref := r.path[i + 1..] + "@" + r.ref);
    assert r.path == r.path[..i] + "@" + r.path[i + 1..];
    assert Stem(q) == Stem(r);
    StemAndFragments(q);
    StemAndFragments(r);
    assert |q.path| < |r.path|;
  }

  // ---------- Listing changes ----------

  /** An entry of the list of changed files. */
  datatype Entry = NotADict | File(path: string, status: string)

  /** The path under which an entry is listed, if it passes the filter. */
  function ListedPath(repo: string, f: Entry, filter: string -> Option<string>): Option<string> {
    if f.NotADict? || Strip(f.path) == "" || repo == "" then None else filter(Strip(f.path))
  }

  predicate IsDeletion(f: Entry) {
    f.File? && (f.status == "removed" || f.status == "deleted")
  }

  function RefOf(repo: string, path: string, ref: string, sha: string, f: Entry): Ref {
    Ref(repo, path, ref, if sha == "" then None else Some(sha), IsDeletion(f))
  }

  /** The changed files that pass the path filter, as references. */
  function Changes(repo: string, ref: string, sha: string, files: seq<Entry>, filter: string -> Option<string>, n: nat): seq<Ref>
    requires n <= |files|
  {
    if n == 0 then []
    else
      var before, f := Changes(repo, ref, sha, files, filter, n - 1), files[n - 1];
      var path := ListedPath(repo, f, filter);
      if path.None? then before else before + [RefOf(repo, path.value, ref, sha, f)]
  }

  /** Entry m is a file with a path, in a repository, and passes the filter. */
  predicate IsListed(repo: string, files: seq<Entry>, filter: string -> Option<string>, m: nat) {
    m < |files| && files[m].File? && Strip(files[m].path) != "" && repo != "" && filter(Strip(files[m].path)).Some?
  }

  /** Reference c is that of entry f: with the filtered path, the head commit if there is one, and a tombstone for what
      was removed or deleted. */
  predicate IsRefOf(repo: string, ref: string, sha: string, f: Entry, filter: string -> Option<string>, c: Ref) {
    && f.File? && c.repo == repo && c.ref == ref && filter(Strip(f.path)) == Some(c.path)
    && (c.commit.None? <==> sha == "") && (c.commit.Some? ==> c.commit.value == sha)
    && (c.deleted <==> f.status in {"removed", "deleted"})
  }

  lemma {:induction false} NextChange(repo: string, ref: string, sha: string, files: seq<Entry>,
                                      filter: string -> Option<string>, n: nat)
    requires n < |files|
    ensures var before, after := Changes(repo, ref, sha, files, filter, n), Changes(repo, ref, sha, files, filter, n + 1);
            if IsListed(repo, files, filter, n) then
              |after| == |before| + 1 && before <= after && IsRefOf(repo, ref, sha, files[n], filter, after[|before|])
            else after == before
  {
  }

  /** These references are those of the entries at these places, one by one. */
  ghost predicate AreRefsOf(repo: string, ref: string, sha: string, files: seq<Entry>, filter: string -> Option<string>,
                            n: nat, q: seq<nat>, cs: seq<Ref>)
    requires n <= |files|
  {
    |q| == |cs| && forall i :: 0 <= i < |q| ==> q[i] < n && IsRefOf(repo, ref, sha, files[q[i]], filter, cs[i])
  }

  lemma {:induction false} OneMoreRef(repo: string, ref: string, sha: string, files: seq<Entry>, filter: string -> Option<string>,
                                      n: nat, q: seq<nat>, cs: seq<Ref>, c: Ref)
    requires n < |files| && AreRefsOf(repo, ref, sha, files, filter, n, q, cs) && Increasing(q)
    requires IsRefOf(repo, ref, sha, files[n], filter, c)
    ensures AreRefsOf(repo, ref, sha, files, filter, n + 1, q + [n], cs + [c]) && Increasing(q + [n])
  {
  }

  /** The changes are the references of the listed entries, each once and in order. */
  lemma {:induction false} ChangesAre(repo: string, ref: string, sha: string, files: seq<Entry>,
                                      filter: string -> Option<string>, n: nat) returns (q: seq<nat>)
    requires n <= |files|
    ensures Increasing(q) && forall m: nat :: m in q <==> m < n && IsListed(repo, files, filter, m)
    ensures AreRefsOf(repo, ref, sha, files, filter, n, q, Changes(repo, ref, sha, files, filter, n))
  {
    if n == 0 {
      q := [];
    } else {
      var m, before, after := n - 1, Changes(repo, ref, sha, files, filter, n - 1), Changes(repo, ref, sha, files, filter, n);
      q := ChangesAre(repo, ref, sha, files, filter, m);
      NextChange(repo, ref, sha, files, filter, m);
      if IsListed(repo, files, filter, m) {
        assert after == before + [after[|before|]];
        OneMoreRef(repo, ref, sha, files, filter, m, q, before, after[|before|]);
        q := q + [m];
      }
    }
  }

  /** `delta_since`: the references of the changes, and the cursor for the next call, which is the head commit or,
      without one, what the payload names. */
  method DeltaSince(rawRepo: string, rawRef: string, sha: string, files: seq<Entry>, nextCursor: string,
                    filter: string -> Option<string>)
    returns (refs: seq<string>, cursor: Option<string>)
    ensures var changes := Changes(Strip(rawRepo), Strip(rawRef), sha, files, filter, |files|);
            |refs| == |changes| && forall i :: 0 <= i < |refs| ==> refs[i] == Print(changes[i])
    ensures cursor == if sha != "" then Some(sha) else if nextCursor != "" then Some(nextCursor) else None
  {
    var repo, ref := Strip(rawRepo), Strip(rawRef);
    refs := [];
    for n := 0 to |files|
      invariant |refs| == |Changes(repo, ref, sha, files, filter, n)|
      invariant forall i :: 0 <= i < |refs| ==> refs[i] == Print(Changes(repo, ref, sha, files, filter, n)[i])
    {
      if files[n].NotADict? {
        continue;
      }
      var path := Strip(files[n].path);
      if path == "" || repo == "" {
        continue;
      }
      var filtered := filter(path);
      if filtered.None? {
        continue;
      }
      var itemRef := repo + ":" + filtered.value + "@" + ref;
      if sha != "" {
        itemRef := itemRef + COMMIT + sha;
      }
      if files[n].status == "removed" || files[n].status == "deleted" {
        itemRef := itemRef + TOMBSTONE;
      }
      refs := refs + [itemRef];
    }
    var next := if sha != "" then sha else nextCursor;
    cursor := if next != "" then Some(next) else None;
  }

  /** The entry is not listed, or its reference can be parsed: said of the payload alone. */
  predicate Fetchable(repo: string, ref: string, sha: string, f: Entry, filter: string -> Option<string>) {
    var path := ListedPath(repo, f, filter);
    path.Some? ==>
      && ':' !in repo && path.value != "" && '@' !in path.value
      && !HasCommit(repo + ":" + path.value + "@" + ref) && (IsDeletion(f) ==> sha != "")
  }

  /** What holds of a listed reference exactly when it holds of its entry, holds of all listed references exactly
      when it holds of all entries. */
  lemma {:induction false} ListedIff(repo: string, ref: string, sha: string, files: seq<Entry>,
                                     filter: string -> Option<string>, n: nat, p: Ref -> bool, q: Entry -> bool)
    requires n <= |files|
    requires forall f: Entry :: q(f) <==>
               var path := ListedPath(repo, f, filter); path.None? || p(RefOf(repo, path.value, ref, sha, f))
    ensures (forall c :: c in Changes(repo, ref, sha, files, filter, n) ==> p(c))
            <==> forall m :: 0 <= m < n ==> q(files[m])
  {
    if n > 0 {
      ListedIff(repo, ref, sha, files, filter, n - 1, p, q);
      assert q(files[n - 1]) <==> var path := ListedPath(repo, files[n - 1], filter);
                                  path.None? || p(RefOf(repo, path.value, ref, sha, files[n - 1]));
    }
  }

  /** Every change that is listed can be fetched again by its reference exactly when every entry of the payload that
      passes the filter has a path without '@', brings in no commit marker, and, if it is a deletion, the payload
      names the head commit; and the repository has no ':'. */
  lemma ListedChangesParseBackIff(repo: string, ref: string, sha: string, files: seq<Entry>,
                                  filter: string -> Option<string>, fallback: string)
    ensures (forall c :: c in Changes(repo, ref, sha, files, filter, |files|) ==>
               ParseRef(Print(c), fallback) == (c.repo, c.path, c.ref))
            <==> forall n :: 0 <= n < |files| ==> Fetchable(repo, ref, sha, files[n], filter)
  {
    var p := (c: Ref) => ParseRef(Print(c), fallback) == (c.repo, c.path, c.ref);
    var q := (f: Entry) => Fetchable(repo, ref, sha, f, filter);
    forall f: Entry
      ensures q(f) <==> var path := ListedPath(repo, f, filter); path.None? || p(RefOf(repo, path.value, ref, sha, f))
    {
      var path := ListedPath(repo, f, filter);
      if path.Some? {
        RoundTripIff(RefOf(repo, path.value, ref, sha, f), fallback);
      }
    }
    ListedIff(repo, ref, sha, files, filter, |files|, p, q);
    assert forall c: Ref :: p(c) <==> ParseRef(Print(c), fallback) == (c.repo, c.path, c.ref);
  }
}
