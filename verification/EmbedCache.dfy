/** The embedding cache: an insertion-ordered table with first-in-first-out eviction, the retry
    helper, and the batch encoder that must agree with embedding each text on its own. */
module EmbedCache {
  import opened Sequences
  import opened Text
  import opened Wrappers

  type Vec = seq<real>
  type Key = string

  const MAX_CACHE: nat := 32768

  // ---------- Keys ----------

  /** The text that is hashed into a cache key; the hash is taken to be injective. */
  function CacheKey(text: string, model: string, dim: nat): Key {
    model + [':'] + (Decimal(dim) + [':'] + text)
  }

  /** For example. */
  lemma KeysLookLike()
    ensures CacheKey("text", "model", 3) == "model:3:text"
  {
    assert Decimal(3) == "3";
  }

  /** Cache keys of one model configuration never collide; nor do keys of different configurations,
      as long as the model names have no colon. */
  lemma CacheKeyInjective(text: string, model: string, dim: nat, text': string, model': string, dim': nat)
    requires CacheKey(text, model, dim) == CacheKey(text', model', dim')
    requires (':' !in model && ':' !in model') || model == model'
    ensures text == text' && model == model' && dim == dim'
  {
    var rest, rest' := Decimal(dim) + [':'] + text, Decimal(dim') + [':'] + text';
    if model != model' {
      SplitUnique(model, rest, ':', model', rest');
    }
    assert rest == CacheKey(text, model, dim)[|model| + 1..] == rest';
    SplitUnique(Decimal(dim), text, ':', Decimal(dim'), text');
    DecimalInjective(dim, dim');
  }

  /** What all cache keys of a configuration begin with. */
  function Head(model: string, dim: nat): string {
    model + [':'] + (Decimal(dim) + [':'])
  }

  lemma KeyIsHeadAndText(text: string, model: string, dim: nat)
    ensures CacheKey(text, model, dim) == Head(model, dim) + text
  {
  }

  /** Two configurations share a cache key, for some texts, exactly when the head of one begins the head of
      the other; that takes a model name with a colon. */
  lemma ConfigurationsShareKeyIff(model: string, dim: nat, model': string, dim': nat)
    ensures (exists text, text' :: CacheKey(text, model, dim) == CacheKey(text', model', dim'))
            <==> Head(model, dim) <= Head(model', dim') || Head(model', dim') <= Head(model, dim)
  {
    var h, h' := Head(model, dim), Head(model', dim');
    if h <= h' {
      KeyIsHeadAndText(h'[|h|..], model, dim);
      KeyIsHeadAndText("", model', dim');
      assert CacheKey(h'[|h|..], model, dim) == CacheKey("", model', dim');
    }
    if h' <= h {
      KeyIsHeadAndText(h[|h'|..], model', dim');
      KeyIsHeadAndText("", model, dim);
      assert CacheKey("", model, dim) == CacheKey(h[|h'|..], model', dim');
    }
    forall text, text' | CacheKey(text, model, dim) == CacheKey(text', model', dim')
      ensures h <= h' || h' <= h
    {
      KeyIsHeadAndText(text, model, dim);
      KeyIsHeadAndText(text', model', dim');
      HeadsMeet(h, text, h', text');
    }
  }

  // ---------- The cache ----------

  /** The table as a value: its keys from oldest to newest, and its entries. */
  datatype Table = Table(order: seq<Key>, entries: map<Key, Vec>)

  ghost predicate Consistent(t: Table) {
    Distinct(t.order) && (forall k :: k in t.order <==> k in t.entries)
  }

  function KeySet(keys: seq<Key>): set<Key> {
    set k | k in keys
  }

  /** Drop the `n` oldest entries. */
  function Evict(t: Table, n: nat): (r: Table)
    requires n <= |t.order|
  {
    Table(t.order[n..], t.entries - KeySet(t.order[..n]))
  }

  function Insert(t: Table, key: Key, vec: Vec): Table {
    Table(if key in t.entries then t.order else t.order + [key], t.entries[key := vec])
  }

  /** `_cache_put`: make room when the table is full, then insert. */
  function Put(t: Table, key: Key, vec: Vec): Table {
    var room := if |t.order| >= MAX_CACHE then Evict(t, MAX_CACHE / 10) else t;
    Insert(room, key, vec)
  }

  /** The entry is the embedding of some text that hashes to the key. */
  ghost predicate Honest(t: Table, embed: string -> Vec, model: string, dim: nat) {
    forall text :: CacheKey(text, model, dim) in t.entries ==> t.entries[CacheKey(text, model, dim)] == embed(text)
  }

  /** The cache invariant. */
  ghost predicate Sound(t: Table, embed: string -> Vec, model: string, dim: nat) {
    Consistent(t) && |t.order| <= MAX_CACHE && Honest(t, embed, model, dim)
  }

  /** The table is well formed and bounded after an insertion, whatever was evicted; the other
      entries are old ones. */
  lemma PutKeepsTable(t: Table, key: Key, vec: Vec)
    requires Consistent(t) && |t.order| <= MAX_CACHE
    ensures Consistent(Put(t, key, vec)) && |Put(t, key, vec).order| <= MAX_CACHE
    ensures key in Put(t, key, vec).entries && Put(t, key, vec).entries[key] == vec
    ensures forall k :: k in Put(t, key, vec).entries && k != key ==>
              k in t.entries && Put(t, key, vec).entries[k] == t.entries[k]
    ensures |t.order| < MAX_CACHE ==> t.entries.Keys <= Put(t, key, vec).entries.Keys
  {
    if |t.order| >= MAX_CACHE {
      var n := MAX_CACHE / 10;
      assert t.order == t.order[..n] + t.order[n..];
      assert Consistent(Evict(t, n));
    }
  }

  /** Which entries an insertion leaves: in a full table all but the oldest tenth, in any other all; a new key is the
      youngest, one that is still there keeps its place. */
  lemma PutIs(t: Table, key: Key, vec: Vec)
    requires Consistent(t) && |t.order| <= 32768
    ensures var kept := if |t.order| == 32768 then t.order[3276..] else t.order;
            var t' := Put(t, key, vec);
            && t'.order == (if key in kept then kept else kept + [key])
            && (forall k :: k in t'.entries <==> k == key || k in kept)
            && t'.entries[key] == vec && forall k :: k in kept && k != key ==> t'.entries[k] == t.entries[k]
  {
    if |t.order| == 32768 {
      var gone, kept := t.order[..3276], t.order[3276..];
      assert t.order == gone + kept;
      forall k | k in kept ensures k !in gone {
        var i :| 0 <= i < |kept| && kept[i] == k;
        assert t.order[3276 + i] == k;
      }
    }
  }

  /** Inserting the embedding of a text keeps the cache invariant. */
  lemma PutKeepsSound(t: Table, text: string, embed: string -> Vec, model: string, dim: nat)
    requires Sound(t, embed, model, dim)
    ensures Sound(Put(t, CacheKey(text, model, dim), embed(text)), embed, model, dim)
  {
    var key := CacheKey(text, model, dim);
    var t' := Put(t, key, embed(text));
    PutKeepsTable(t, key, embed(text));
    forall other | CacheKey(other, model, dim) in t'.entries
      ensures t'.entries[CacheKey(other, model, dim)] == embed(other)
    {
      if CacheKey(other, model, dim) == key {
        CacheKeyInjective(other, model, dim, text, model, dim);
      }
    }
  }

  /** It also keeps every entry of another configuration honest, if no model name has a colon. */
  lemma PutKeepsOthersHonest(t: Table, text: string, vec: Vec, model: string, dim: nat,
                             embed': string -> Vec, model': string, dim': nat)
    requires Consistent(t) && |t.order| <= MAX_CACHE && Honest(t, embed', model', dim')
    requires ':' !in model && ':' !in model' && (model, dim) != (model', dim')
    ensures Honest(Put(t, CacheKey(text, model, dim), vec), embed', model', dim')
  {
    var key := CacheKey(text, model, dim);
    PutKeepsTable(t, key, vec);
    forall other | CacheKey(other, model', dim') == key ensures false {
      CacheKeyInjective(other, model', dim', text, model, dim);
    }
  }

  /** The table after the first `n` texts have been inserted, in order. */
  function PutAll(t: Table, texts: seq<string>, n: nat, embed: string -> Vec, model: string, dim: nat): Table
    requires n <= |texts|
  {
    if n == 0 then t
    else Put(PutAll(t, texts, n - 1, embed, model, dim), CacheKey(texts[n - 1], model, dim), embed(texts[n - 1]))
  }

  // ---------- The batch encoder ----------

  /** The positions, among the first `n`, of the texts that are not in the cache. */
  function Missing(t: Table, texts: seq<string>, n: nat, model: string, dim: nat): (m: seq<nat>)
    requires n <= |texts|
    ensures forall p :: 0 <= p < |m| ==> m[p] < n
  {
    if n == 0 then []
    else
      var before := Missing(t, texts, n - 1, model, dim);
      if CacheKey(texts[n - 1], model, dim) in t.entries then before else before + [n - 1]
  }

  /** A position is listed exactly when its text is not in the cache. */
  lemma {:induction false} MissingIsUncached(t: Table, texts: seq<string>, n: nat, model: string, dim: nat, i: nat)
    requires i < n <= |texts|
    ensures i in Missing(t, texts, n, model, dim) <==> CacheKey(texts[i], model, dim) !in t.entries
  {
    if i < n - 1 {
      MissingIsUncached(t, texts, n - 1, model, dim, i);
    }
  }

  /** The texts that are asked of the provider. */
  function Asked(t: Table, texts: seq<string>, n: nat, model: string, dim: nat): (r: seq<string>)
    requires n <= |texts|
    ensures |r| == |Missing(t, texts, n, model, dim)|
    ensures forall p :: 0 <= p < |r| ==> r[p] == texts[Missing(t, texts, n, model, dim)[p]]
  {
    var m := Missing(t, texts, n, model, dim);
    seq(|m|, p requires 0 <= p < |m| => texts[m[p]])
  }

  lemma {:induction false} AskedNext(t: Table, texts: seq<string>, i: nat, model: string, dim: nat)
    requires i < |texts|
    ensures var cached := CacheKey(texts[i], model, dim) in t.entries;
            && Missing(t, texts, i + 1, model, dim) == Missing(t, texts, i, model, dim) + (if cached then [] else [i])
            && Asked(t, texts, i + 1, model, dim) == Asked(t, texts, i, model, dim) + (if cached then [] else [texts[i]])
  {
  }

  lemma {:induction false} RoomMeansNoEviction(t: Table, texts: seq<string>, n: nat,
                                               embed: string -> Vec, model: string, dim: nat)
    requires n <= |texts| && Consistent(t) && |t.order| + n <= MAX_CACHE
    ensures var t' := PutAll(t, texts, n, embed, model, dim);
            Consistent(t') && |t'.order| <= |t.order| + n && t.entries.Keys <= t'.entries.Keys
  {
    if n > 0 {
      RoomMeansNoEviction(t, texts, n - 1, embed, model, dim);
      PutKeepsTable(PutAll(t, texts, n - 1, embed, model, dim), CacheKey(texts[n - 1], model, dim), embed(texts[n - 1]));
    }
  }

  /** With room for all of them, every text that was put is still in the cache at the end. */
  lemma {:induction false} RoomMeansKept(t: Table, texts: seq<string>, n: nat,
                                         embed: string -> Vec, model: string, dim: nat, p: nat)
    requires p < n <= |texts| && Consistent(t) && |t.order| + n <= MAX_CACHE
    ensures CacheKey(texts[p], model, dim) in PutAll(t, texts, n, embed, model, dim).entries
  {
    RoomMeansNoEviction(t, texts, n - 1, embed, model, dim);
    PutKeepsTable(PutAll(t, texts, n - 1, embed, model, dim), CacheKey(texts[n - 1], model, dim), embed(texts[n - 1]));
    if p < n - 1 {
      RoomMeansKept(t, texts, n - 1, embed, model, dim, p);
    }
  }

  /** When the missing texts fit into the cache, encoding the same texts again asks for nothing. */
  lemma SecondTimeIsFree(t: Table, texts: seq<string>, embed: string -> Vec, model: string, dim: nat)
    requires Consistent(t) && |t.order| + |Missing(t, texts, |texts|, model, dim)| <= MAX_CACHE
    ensures var asked := Asked(t, texts, |texts|, model, dim);
            Asked(PutAll(t, asked, |asked|, embed, model, dim), texts, |texts|, model, dim) == []
  {
    var missing, asked := Missing(t, texts, |texts|, model, dim), Asked(t, texts, |texts|, model, dim);
    var t' := PutAll(t, asked, |asked|, embed, model, dim);
    RoomMeansNoEviction(t, asked, |asked|, embed, model, dim);
    forall i | 0 <= i < |texts| ensures CacheKey(texts[i], model, dim) in t'.entries {
      MissingIsUncached(t, texts, |texts|, model, dim, i);
      if i in missing {
        var p :| 0 <= p < |missing| && missing[p] == i;
        assert asked[p] == texts[i];
        RoomMeansKept(t, asked, |asked|, embed, model, dim, p);
      }
    }
    NoneMissing(t', texts, |texts|, model, dim);
  }

  lemma {:induction false} NoneMissing(t: Table, texts: seq<string>, n: nat, model: string, dim: nat)
    requires n <= |texts| && forall i :: 0 <= i < n ==> CacheKey(texts[i], model, dim) in t.entries
    ensures Missing(t, texts, n, model, dim) == []
  {
    if n > 0 {
      NoneMissing(t, texts, n - 1, model, dim);
    }
  }

  /** `[r for r in results if r is not None]`. */
  function Present(results: seq<Option<Vec>>): (r: seq<Vec>) {
    if results == [] then []
    else (if results[0].Some? then [results[0].value] else []) + Present(results[1..])
  }

  /** Plain embedding of each text. */
  function EmbedEach(texts: seq<string>, embed: string -> Vec): seq<Vec> {
    seq(|texts|, i requires 0 <= i < |texts| => embed(texts[i]))
  }

  /** Plain embedding of the texts that the mask selects. */
  function EmbedWhere(texts: seq<string>, mask: seq<bool>, embed: string -> Vec): (r: seq<Vec>)
    requires |texts| == |mask|
    ensures |r| <= |texts|
  {
    if texts == [] then []
    else (if mask[0] then [embed(texts[0])] else []) + EmbedWhere(texts[1..], mask[1..], embed)
  }

  /** Which texts are in the cache. */
  function Hits(t: Table, texts: seq<string>, model: string, dim: nat): seq<bool> {
    seq(|texts|, i requires 0 <= i < |texts| => CacheKey(texts[i], model, dim) in t.entries)
  }

  predicate Positions(pending: seq<nat>, n: nat) {
    forall p :: 0 <= p < |pending| ==> pending[p] < n
  }

  /** Which slots have a vector: those of the cached texts, and those of the missing ones that the provider has
      given a vector. */
  function Slots(hit: seq<bool>, pending: seq<nat>, given: seq<bool>): (slots: seq<bool>)
    requires Positions(pending, |hit|) && |given| <= |pending|
    ensures |slots| == |hit|
  {
    if given == [] then hit
    else
      var n := |given| - 1;
      var before := Slots(hit, pending, given[..n]);
      if given[n] then before[pending[n] := true] else before
  }

  /** The cache after the given vectors were put into it. */
  function Stored(t: Table, asked: seq<string>, given: seq<bool>, embed: string -> Vec, model: string, dim: nat): Table
    requires |given| <= |asked|
  {
    if given == [] then t
    else
      var n := |given| - 1;
      var before := Stored(t, asked, given[..n], embed, model, dim);
      if given[n] then Put(before, CacheKey(asked[n], model, dim), embed(asked[n])) else before
  }

  lemma {:induction false} StoredKeepsSound(t: Table, asked: seq<string>, given: seq<bool>, embed: string -> Vec,
                                            model: string, dim: nat)
    requires |given| <= |asked| && Sound(t, embed, model, dim)
    ensures Sound(Stored(t, asked, given, embed, model, dim), embed, model, dim)
    decreases |given|
  {
    if given != [] {
      var n := |given| - 1;
      StoredKeepsSound(t, asked, given[..n], embed, model, dim);
      PutKeepsSound(Stored(t, asked, given[..n], embed, model, dim), asked[n], embed, model, dim);
    }
  }

  /** When every vector was given, all asked texts have been put into the cache in order. */
  lemma {:induction false} StoredAll(t: Table, asked: seq<string>, given: seq<bool>, embed: string -> Vec,
                                     model: string, dim: nat)
    requires |given| <= |asked| && forall p :: 0 <= p < |given| ==> given[p]
    ensures Stored(t, asked, given, embed, model, dim) == PutAll(t, asked, |given|, embed, model, dim)
    decreases |given|
  {
    if given != [] {
      StoredAll(t, asked, given[..|given| - 1], embed, model, dim);
    }
  }

  /** The slots hold the embeddings of their texts, and exactly these slots are filled. */
  ghost predicate Filled(results: seq<Option<Vec>>, texts: seq<string>, embed: string -> Vec, slots: seq<bool>) {
    && |results| == |texts| == |slots|
    && (forall j :: 0 <= j < |texts| ==> (results[j].Some? <==> slots[j]))
    && (forall j :: 0 <= j < |texts| && results[j].Some? ==> results[j].value == embed(texts[j]))
  }

  lemma {:induction false} PresentIsWhere(results: seq<Option<Vec>>, texts: seq<string>, embed: string -> Vec, slots: seq<bool>)
    requires Filled(results, texts, embed, slots)
    ensures Present(results) == EmbedWhere(texts, slots, embed)
    decreases |texts|
  {
    if texts != [] {
      PresentIsWhere(results[1..], texts[1..], embed, slots[1..]);
    }
  }

  /** Nothing is left out exactly when the mask selects all. */
  lemma {:induction false} WhereIsEachIff(texts: seq<string>, mask: seq<bool>, embed: string -> Vec)
    requires |texts| == |mask|
    ensures |EmbedWhere(texts, mask, embed)| == |texts| <==> forall j :: 0 <= j < |mask| ==> mask[j]
    ensures EmbedWhere(texts, mask, embed) == EmbedEach(texts, embed) <==> forall j :: 0 <= j < |mask| ==> mask[j]
    decreases |texts|
  {
    if texts != [] {
      WhereIsEachIff(texts[1..], mask[1..], embed);
      assert EmbedEach(texts, embed) == [embed(texts[0])] + EmbedEach(texts[1..], embed);
      assert forall j :: 0 <= j < |mask| - 1 ==> mask[1..][j] == mask[j + 1];
      assert (forall j :: 0 <= j < |mask| ==> mask[j]) <==> mask[0] && (forall j :: 0 <= j < |mask| - 1 ==> mask[1..][j]) by {
        if mask[0] && (forall j :: 0 <= j < |mask| - 1 ==> mask[1..][j]) {
          forall j | 0 <= j < |mask| ensures mask[j] {
            var i := j - 1;
            assert j > 0 ==> mask[1..][i];
          }
        }
      }
    }
  }

  predicate Ascending(xs: seq<nat>) {
    forall p, q :: 0 <= p < q < |xs| ==> xs[p] < xs[q]
  }

  lemma {:induction false} MissingAscends(t: Table, texts: seq<string>, n: nat, model: string, dim: nat)
    requires n <= |texts|
    ensures Ascending(Missing(t, texts, n, model, dim))
  {
    if n > 0 {
      MissingAscends(t, texts, n - 1, model, dim);
      var before := Missing(t, texts, n - 1, model, dim);
      AscendsThen(before, n - 1);
    }
  }

  lemma AscendsThen(xs: seq<nat>, last: nat)
    requires Ascending(xs) && forall p :: 0 <= p < |xs| ==> xs[p] < last
    ensures Ascending(xs + [last])
  {
  }

  /** A slot that was empty is filled exactly when the vector for it was given. */
  lemma {:induction false} SlotOfMissing(hit: seq<bool>, pending: seq<nat>, given: seq<bool>, p: nat)
    requires Positions(pending, |hit|) && |given| <= |pending| && p < |pending| && !hit[pending[p]]
    requires Ascending(pending)
    ensures Slots(hit, pending, given)[pending[p]] <==> p < |given| && given[p]
    decreases |given|
  {
    if given != [] {
      SlotOfMissing(hit, pending, given[..|given| - 1], p);
    }
  }

  lemma {:induction false} SlotOfHit(hit: seq<bool>, pending: seq<nat>, given: seq<bool>, j: nat)
    requires Positions(pending, |hit|) && |given| <= |pending| && j < |hit| && hit[j]
    ensures Slots(hit, pending, given)[j]
    decreases |given|
  {
    if given != [] {
      SlotOfHit(hit, pending, given[..|given| - 1], j);
    }
  }

  /** The exact condition for the batch to be the plain embedding of every text, in order: the provider gave a vector
      for each text that was missing. */
  lemma {:induction false} EachIffAllGiven(t: Table, texts: seq<string>, given: seq<bool>, embed: string -> Vec,
                                           model: string, dim: nat)
    requires |given| == |Missing(t, texts, |texts|, model, dim)|
    ensures Positions(Missing(t, texts, |texts|, model, dim), |texts|)
    ensures EmbedWhere(texts, Slots(Hits(t, texts, model, dim), Missing(t, texts, |texts|, model, dim), given), embed)
            == EmbedEach(texts, embed)
            <==> forall p :: 0 <= p < |given| ==> given[p]
  {
    var pending, hit := Missing(t, texts, |texts|, model, dim), Hits(t, texts, model, dim);
    MissingAscends(t, texts, |texts|, model, dim);
    var slots := Slots(hit, pending, given);
    WhereIsEachIff(texts, slots, embed);
    forall p | 0 <= p < |given| ensures slots[pending[p]] <==> given[p] {
      MissingIsUncached(t, texts, |texts|, model, dim, pending[p]);
      SlotOfMissing(hit, pending, given, p);
    }
    forall j | 0 <= j < |slots| && hit[j] ensures slots[j] {
      SlotOfHit(hit, pending, given, j);
    }
    forall j | 0 <= j < |slots| && !hit[j] ensures j in pending {
      MissingIsUncached(t, texts, |texts|, model, dim, j);
    }
  }

  /** The batch that starts at `from`. */
  function BatchAt(texts: seq<string>, from: nat, size: nat): (batch: seq<string>)
    requires from <= |texts|
    ensures |batch| <= size && from + |batch| <= |texts| && batch == texts[from..from + |batch|]
    ensures |batch| == size || from + |batch| == |texts|
  {
    if from + size < |texts| then texts[from..from + size] else texts[from..]
  }

  /** A provider whose answer to each call is fixed in advance; `None` is an exception. */
  class Backend {
    const answer: (nat, seq<string>) -> Option<seq<Vec>>
    var calls: nat

    constructor (answer: (nat, seq<string>) -> Option<seq<Vec>>)
      ensures this.answer == answer && calls == 0
    {
      this.answer, calls := answer, 0;
    }

    method Call(batch: seq<string>) returns (r: Option<seq<Vec>>)
      modifies this
      ensures r == answer(old(calls), batch) && calls == old(calls) + 1
    {
      r := answer(calls, batch);
      calls := calls + 1;
    }

    /** The vectors of an answer are those of the first texts, in order; there may be too few, or too many. */
    ghost predicate Faithful(embed: string -> Vec) {
      forall n: nat, batch: seq<string> :: answer(n, batch).Some? ==>
        forall i :: 0 <= i < |batch| && i < |answer(n, batch).value| ==> answer(n, batch).value[i] == embed(batch[i])
    }

    /** Every answer has a vector for each text. */
    ghost predicate Generous() {
      forall n: nat, batch: seq<string> :: answer(n, batch).Some? ==> |answer(n, batch).value| >= |batch|
    }

    /** `_with_retry`: the first answer among the allowed attempts, or a failure when there is none. */
    method WithRetry(batch: seq<string>, maxAttempts: int) returns (r: Result<seq<Vec>>)
      modifies this
      ensures r.Failure? ==> calls == old(calls) + (if maxAttempts < 0 then 0 else maxAttempts)
      ensures r.Success? ==> old(calls) < calls <= old(calls) + maxAttempts && answer(calls - 1, batch) == Some(r.value)
      ensures forall n :: old(calls) <= n < (if r.Success? then calls - 1 else calls) ==> answer(n, batch).None?
    {
      var attempt := 0;
      while attempt < maxAttempts
        invariant attempt <= maxAttempts || attempt == 0
        invariant attempt >= 0 && calls == old(calls) + attempt
        invariant forall n :: old(calls) <= n < calls ==> answer(n, batch).None?
      {
        var outcome := Call(batch);
        if outcome.Some? {
          return Success(outcome.value);
        }
        attempt := attempt + 1;
      }
      return Failure;
    }
  }

  class Cache {
    var order: seq<Key>
    var entries: map<Key, Vec>

    constructor ()
      ensures View() == Table([], map[])
    {
      order, entries := [], map[];
    }

    function View(): Table
      reads this
    {
      Table(order, entries)
    }

    method CacheGet(key: Key) returns (r: Option<Vec>)
      ensures r == if key in entries then Some(entries[key]) else None
    {
      r := if key in entries then Some(entries[key]) else None;
    }

    method CachePut(key: Key, vec: Vec)
      modifies this
      ensures View() == Put(old(View()), key, vec)
    {
      if |order| >= MAX_CACHE {
        var evict := order[..MAX_CACHE / 10];
        order := order[MAX_CACHE / 10..];
        entries := entries - KeySet(evict);
      }
      if key !in entries {
        order := order + [key];
      }
      entries := entries[key := vec];
    }

    /** The cache look-up of `embed_batch`: fill the slots of the cached texts, list the others. */
    method LookUp(texts: seq<string>, model: string, dim: nat, results: array<Option<Vec>>, ghost embed: string -> Vec)
      returns (pending: seq<nat>, pendingTexts: seq<string>)
      requires results.Length == |texts| && forall j :: 0 <= j < |texts| ==> results[j].None?
      requires Honest(View(), embed, model, dim)
      modifies results
      ensures pending == Missing(View(), texts, |texts|, model, dim)
      ensures pendingTexts == Asked(View(), texts, |texts|, model, dim)
      ensures Filled(results[..], texts, embed, Hits(View(), texts, model, dim))
    {
      pending, pendingTexts := [], [];
      for i := 0 to |texts|
        invariant pending == Missing(View(), texts, i, model, dim)
        invariant pendingTexts == Asked(View(), texts, i, model, dim)
        invariant forall j :: 0 <= j < |texts| ==>
                    (results[j].Some? <==> j < i && CacheKey(texts[j], model, dim) in entries)
        invariant forall j :: 0 <= j < |texts| && results[j].Some? ==> results[j].value == embed(texts[j])
      {
        var cached := CacheGet(CacheKey(texts[i], model, dim));
        AskedNext(View(), texts, i, model, dim);
        if cached.Some? {
          results[i] := cached;
        } else {
          pending, pendingTexts := pending + [i], pendingTexts + [texts[i]];
        }
      }
    }

    /** What `embed_batch` has done when the provider has given, or not given, the first vectors. */
    ghost predicate Progress(texts: seq<string>, model: string, dim: nat, results: array<Option<Vec>>, pending: seq<nat>,
                             asked: seq<string>, start: Table, embed: string -> Vec, given: seq<bool>)
      reads this, results
    {
      && |asked| == |pending| && |given| <= |asked| && Positions(pending, |texts|)
      && (forall p :: 0 <= p < |pending| ==> asked[p] == texts[pending[p]])
      && results.Length == |texts| && View() == Stored(start, asked, given, embed, model, dim)
      && Filled(results[..], texts, embed, Slots(Hits(start, texts, model, dim), pending, given))
    }

    /** Cache the next vector and put it into its slot. */
    method ScatterOne(texts: seq<string>, model: string, dim: nat, results: array<Option<Vec>>, index: nat, text: string,
                      vec: Vec, ghost pending: seq<nat>, ghost asked: seq<string>, ghost start: Table,
                      ghost embed: string -> Vec, ghost given: seq<bool>)
      requires Progress(texts, model, dim, results, pending, asked, start, embed, given) && |given| < |asked|
      requires index == pending[|given|] && text == asked[|given|] && vec == embed(text)
      modifies this, results
      ensures Progress(texts, model, dim, results, pending, asked, start, embed, given + [true])
    {
      ghost var before := results[..];
      assert (given + [true])[..|given|] == given;
      CachePut(CacheKey(text, model, dim), vec);
      results[index] := Some(vec);
      assert results[..] == before[index := Some(vec)];
    }

    /** Cache the vectors of one batch and scatter them to their slots; the loop ends with the shorter list. */
    method Scatter(texts: seq<string>, model: string, dim: nat, results: array<Option<Vec>>, pending: seq<nat>, from: nat,
                   batch: seq<string>, vecs: seq<Vec>, ghost asked: seq<string>, ghost start: Table,
                   ghost embed: string -> Vec, ghost given: seq<bool>)
      returns (ghost given': seq<bool>)
      requires Progress(texts, model, dim, results, pending, asked, start, embed, given) && |given| == from
      requires from + |batch| <= |asked|
      requires forall p :: 0 <= p < |batch| ==> batch[p] == asked[from + p]
      requires forall p :: 0 <= p < |batch| && p < |vecs| ==> vecs[p] == embed(batch[p])
      modifies this, results
      ensures Progress(texts, model, dim, results, pending, asked, start, embed, given')
      ensures |given'| == from + |batch| && given'[..from] == given
      ensures forall p :: from <= p < |given'| ==> (given'[p] <==> p < from + |vecs|)
    {
      given' := given;
      var k := 0;
      while k < |batch| && k < |vecs|
        invariant 0 <= k <= |batch| && k <= |vecs|
        invariant |given'| == from + k && given'[..from] == given && forall p :: from <= p < from + k ==> given'[p]
        invariant Progress(texts, model, dim, results, pending, asked, start, embed, given')
      {
        ScatterOne(texts, model, dim, results, pending[from + k], batch[k], vecs[k], pending, asked, start, embed, given');
        given', k := given' + [true], k + 1;
      }
      ghost var rest := |batch| - k;
      NotGiven(start, asked, given', embed, model, dim, Hits(start, texts, model, dim), pending, rest);
      given' := given' + seq(rest, _ => false);
    }

    /** Ask for the batch that starts at `from`; when it is answered, cache and scatter its vectors. */
    method EncodeBatch(texts: seq<string>, model: string, dim: nat, results: array<Option<Vec>>,
                       pending: seq<nat>, asked: seq<string>, from: nat, batchSize: nat, maxAttempts: int,
                       backend: Backend, ghost start: Table, ghost embed: string -> Vec, ghost given: seq<bool>)
      returns (next: Option<nat>, ghost given': seq<bool>)
      requires batchSize > 0 && backend.Faithful(embed)
      requires Progress(texts, model, dim, results, pending, asked, start, embed, given) && |given| == from < |asked|
      modifies this, results, backend
      ensures Progress(texts, model, dim, results, pending, asked, start, embed, given')
      ensures next.Some? ==>
        && next.value == |given'| == from + |BatchAt(asked, from, batchSize)| && given'[..from] == given
        && (backend.Generous() ==> forall p :: from <= p < |given'| ==> given'[p])
      ensures next.None? ==>
        && given' == given && backend.calls == old(backend.calls) + (if maxAttempts < 0 then 0 else maxAttempts)
        && forall n :: old(backend.calls) <= n < backend.calls ==>
             backend.answer(n, BatchAt(asked, from, batchSize)).None?
    {
      var batch := BatchAt(asked, from, batchSize);
      var vecs := backend.WithRetry(batch, maxAttempts);
      if vecs.Failure? {
        return None, given;
      }
      given' := Scatter(texts, model, dim, results, pending, from, batch, vecs.value, asked, start, embed, given);
      next := Some(from + |batch|);
    }

    /** For every list of texts and every honest cache: on success the result is the plain embedding of the texts that
        were cached or for which the provider gave a vector, in the order of the texts, and the cache has seen
        exactly the given vectors, in order. A provider that gives a vector for each text loses none. On failure the
        cache has seen those of the batches before the one that got no answer. */
    method EmbedBatch(texts: seq<string>, model: string, dim: nat, batchSize: nat, maxAttempts: int,
                      backend: Backend, ghost embed: string -> Vec)
      returns (r: Result<seq<Vec>>, ghost given: seq<bool>)
      requires batchSize > 0 && backend.Faithful(embed)
      requires Sound(View(), embed, model, dim)
      modifies this, backend
      ensures Sound(View(), embed, model, dim)
      ensures var pending, asked := Missing(old(View()), texts, |texts|, model, dim), Asked(old(View()), texts, |texts|, model, dim);
              && Positions(pending, |texts|) && |given| <= |asked|
              && View() == Stored(old(View()), asked, given, embed, model, dim)
              && (r.Success? ==>
                    && |given| == |asked|
                    && r.value == EmbedWhere(texts, Slots(Hits(old(View()), texts, model, dim), pending, given), embed))
              && (r.Failure? ==>
                    && |given| < |asked|
                    && forall n: nat :: backend.calls - maxAttempts <= n < backend.calls ==>
                         backend.answer(n, BatchAt(asked, |given|, batchSize)).None?)
              && (asked == [] ==> backend.calls == old(backend.calls))
      ensures backend.Generous() ==> forall p :: 0 <= p < |given| ==> given[p]
      ensures backend.Generous() && r.Success? ==>
                var asked := Asked(old(View()), texts, |texts|, model, dim);
                r.value == EmbedEach(texts, embed) && View() == PutAll(old(View()), asked, |asked|, embed, model, dim)
    {
      ghost var start := View();
      var results := new Option<Vec>[|texts|](_ => None);
      var pending, asked := LookUp(texts, model, dim, results, embed);
      MissingAscends(start, texts, |texts|, model, dim);
      given := [];
      var from := 0;
      while from < |asked|
        invariant from == |given| <= |asked|
        invariant Progress(texts, model, dim, results, pending, asked, start, embed, given)
        invariant backend.Generous() ==> forall p :: 0 <= p < |given| ==> given[p]
        invariant asked == [] ==> backend.calls == old(backend.calls)
      {
        var next;
        ghost var given';
        next, given' := EncodeBatch(texts, model, dim, results, pending, asked, from, batchSize, maxAttempts,
                                    backend, start, embed, given);
        if next.None? {
          StoredKeepsSound(start, asked, given, embed, model, dim);
          return Failure, given;
        }
        assert forall p :: 0 <= p < |given| ==> given'[p] == given'[..from][p];
        from, given := next.value, given';
      }
      StoredKeepsSound(start, asked, given, embed, model, dim);
      PresentIsWhere(results[..], texts, embed, Slots(Hits(start, texts, model, dim), pending, given));
      EachIffAllGiven(start, texts, given, embed, model, dim);
      if forall p :: 0 <= p < |given| ==> given[p] {
        StoredAll(start, asked, given, embed, model, dim);
      }
      r := Success(Present(results[..]));
    }
  }

  /** Texts without a vector change neither the cache nor the slots. */
  lemma {:induction false} NotGiven(t: Table, asked: seq<string>, given: seq<bool>, embed: string -> Vec, model: string,
                                    dim: nat, hit: seq<bool>, pending: seq<nat>, rest: nat)
    requires Positions(pending, |hit|) && |asked| == |pending| && |given| + rest <= |asked|
    ensures var more := given + seq(rest, _ => false);
            && Stored(t, asked, more, embed, model, dim) == Stored(t, asked, given, embed, model, dim)
            && Slots(hit, pending, more) == Slots(hit, pending, given)
    decreases rest
  {
    if rest == 0 {
      assert given + seq(0, _ => false) == given;
    } else {
      var more := given + seq(rest, _ => false);
      NotGiven(t, asked, given, embed, model, dim, hit, pending, rest - 1);
      assert more[..|more| - 1] == given + seq(rest - 1, _ => false);
    }
  }
}
