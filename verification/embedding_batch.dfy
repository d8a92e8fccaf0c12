/**
 Batched embedding of src/vector-db/services/embedding.service.ts: texts are embedded in batches of 100, with
 a cache keyed by a 32-bit hash of the text.

 The embedding model is a parameter; its batch endpoint answers in the order of the request, or fails.
 */
module EmbeddingBatch {
  import opened Common

  const BATCH_SIZE := 100

  type Vector = seq<real>

  /** Cache entries by the hash of the text. */
  type Cache = map<int, Vector>

  datatype EmbeddingResult = EmbeddingResult(embedding: Vector, cached: bool)

  // ----- The cache key

  /** The signed 32-bit integer congruent to n. */
  function ToInt32(n: int): int {
    var m := n % 0x1_0000_0000;
    if m >= 0x8000_0000 then m - 0x1_0000_0000 else m
  }

  /** One round of `hash = (hash << 5) - hash + char; hash = hash & hash`. */
  function HashStep(hash: int, c: char): int {
    ToInt32(ToInt32(hash * 32) - hash + c as int)
  }

  function HashFrom(hash: int, text: string): int
    decreases |text|
  {
    if text == "" then hash else HashFrom(HashStep(hash, text[0]), text[1..])
  }

  function SimpleHash(text: string): int {
    var hash := HashFrom(0, text);
    if hash < 0 then -hash else hash
  }

  lemma Int32Congruent(n: int) returns (k: int)
    ensures ToInt32(n) == n + k * 0x1_0000_0000
    ensures -0x8000_0000 <= ToInt32(n) < 0x8000_0000
  {
    var q, m := n / 0x1_0000_0000, n % 0x1_0000_0000;
    k := if m >= 0x8000_0000 then -q - 1 else -q;
  }

  lemma SameInt32(n: int, k: int)
    ensures ToInt32(n + k * 0x1_0000_0000) == ToInt32(n)
  {
    assert (n + k * 0x1_0000_0000) % 0x1_0000_0000 == n % 0x1_0000_0000;
  }

  /** The characters as digits in base 31, after some digits already read. */
  function Base31(before: int, text: string): int
    decreases |text|
  {
    if text == "" then before else Base31(31 * before + text[0] as int, text[1..])
  }

  lemma HashStepIsDigit(n: int, c: char)
    ensures HashStep(ToInt32(n), c) == ToInt32(31 * n + c as int)
  {
    var h := ToInt32(n);
    var k := Int32Congruent(n);
    var j := Int32Congruent(h * 32);
    SameInt32(31 * n + c as int, 31 * k + j);
    assert ToInt32(h * 32) - h + c as int == 31 * n + c as int + (31 * k + j) * 0x1_0000_0000;
  }

  lemma {:induction false} HashIsBase31From(n: int, text: string)
    ensures HashFrom(ToInt32(n), text) == ToInt32(Base31(n, text))
    decreases |text|
  {
    if text != "" {
      HashStepIsDigit(n, text[0]);
      HashIsBase31From(31 * n + text[0] as int, text[1..]);
    }
  }

  /** The shifts and the truncations in between amount to this: the key is the absolute value of the signed 32-bit
      integer congruent to the text read as a number in base 31. */
  lemma HashIsBase31(text: string)
    ensures var n := Base31(0, text);
            exists k {:trigger k * 0x1_0000_0000} :: var h := n + k * 0x1_0000_0000;
              -0x8000_0000 <= h < 0x8000_0000 && SimpleHash(text) == (if h < 0 then -h else h)
  {
    HashIsBase31From(0, text);
    assert ToInt32(0) == 0;
    var k := Int32Congruent(Base31(0, text));
  }

  // ----- One text, and one text after the other

  function Store(embed: string -> Vector, cache: Cache, text: string): Cache {
    cache[SimpleHash(text) := embed(text)]
  }

  function GenerateOne(embed: string -> Vector, cache: Cache, text: string, useCache: bool): (EmbeddingResult, Cache) {
    if useCache && SimpleHash(text) in cache then (EmbeddingResult(cache[SimpleHash(text)], true), cache)
    else (EmbeddingResult(embed(text), false), if useCache then Store(embed, cache, text) else cache)
  }

  function PerItem(embed: string -> Vector, cache: Cache, texts: seq<string>, useCache: bool): (seq<EmbeddingResult>, Cache)
    decreases |texts|
  {
    if texts == [] then ([], cache)
    else
      var (r, next) := GenerateOne(embed, cache, texts[0], useCache);
      var (rs, last) := PerItem(embed, next, texts[1..], useCache);
      ([r] + rs, last)
  }

  // ----- In batches

  /** A result of a batch: every lookup is made against the cache before the batch. */
  function BatchResult(embed: string -> Vector, cache: Cache, text: string, useCache: bool): EmbeddingResult {
    if useCache && SimpleHash(text) in cache then EmbeddingResult(cache[SimpleHash(text)], true)
    else EmbeddingResult(embed(text), false)
  }

  function StoreAll(embed: string -> Vector, cache: Cache, texts: seq<string>): Cache {
    if texts == [] then cache
    else Store(embed, StoreAll(embed, cache, texts[..|texts| - 1]), texts[|texts| - 1])
  }

  function Uncached(cache: Cache, texts: seq<string>): seq<string> {
    if texts == [] then []
    else
      var last := texts[|texts| - 1];
      Uncached(cache, texts[..|texts| - 1]) + (if SimpleHash(last) in cache then [] else [last])
  }

  function Batch(embed: string -> Vector, cache: Cache, texts: seq<string>, useCache: bool): (seq<EmbeddingResult>, Cache) {
    (seq(|texts|, i requires 0 <= i < |texts| => BatchResult(embed, cache, texts[i], useCache)),
     if useCache then StoreAll(embed, cache, Uncached(cache, texts)) else cache)
  }

  /** Batch after batch, however the texts were split. */
  function Batched(embed: string -> Vector, cache: Cache, batches: seq<seq<string>>, useCache: bool)
    : (seq<EmbeddingResult>, Cache)
    decreases |batches|
  {
    if batches == [] then ([], cache)
    else
      var n := |batches| - 1;
      var (rs, next) := Batched(embed, cache, batches[..n], useCache);
      var (more, last) := Batch(embed, next, batches[n], useCache);
      (rs + more, last)
  }

  /** The texts cut into batches of the given size, the last one possibly shorter. */
  function Cut(texts: seq<string>, size: nat): seq<seq<string>>
    requires size > 0
    decreases |texts|
  {
    if texts == [] then []
    else
      var start := (|texts| - 1) / size * size;
      LastStart(|texts|, size);
      Cut(texts[..start], size) + [texts[start..]]
  }

  /** Where the last batch of n texts starts. */
  lemma LastStart(n: nat, size: nat)
    requires n > 0 && size > 0
    ensures var start := (n - 1) / size * size; 0 <= start < n <= start + size
  {
    assert (n - 1) / size * size + (n - 1) % size == n - 1;
    MulMonotone(0, (n - 1) / size, size);
  }

  lemma StartOf(number: nat, size: nat, n: nat)
    requires size > 0 && number * size < n <= number * size + size
    ensures (n - 1) / size == number
  {
    DivMod(n - 1, size, number, n - 1 - number * size);
  }

  /** A multiple of the size ends with a full batch. */
  lemma FullLastBatch(n: nat, size: nat)
    requires size > 0 && n > 0 && n % size == 0
    ensures n - (n - 1) / size * size == size
  {
    var m := n / size;
    assert n == m * size;
    assert (m - 1) * size == m * size - size;
    DivMod(n - 1, size, m - 1, size - 1);
  }

  /** Cutting loses nothing and keeps the order. */
  lemma {:induction false} CutCovers(texts: seq<string>, size: nat)
    requires size > 0
    ensures Flatten(Cut(texts, size)) == texts
    decreases |texts|
  {
    if texts != [] {
      var start := (|texts| - 1) / size * size;
      LastStart(|texts|, size);
      CutCovers(texts[..start], size);
      CutLast(texts, size, start);
    }
  }

  /** Batches are full, except that the last may be smaller. */
  lemma {:induction false} CutSizes(texts: seq<string>, size: nat, i: nat)
    requires size > 0 && i < |Cut(texts, size)|
    ensures 0 < |Cut(texts, size)[i]| <= size
    ensures i < |Cut(texts, size)| - 1 || |texts| % size == 0 ==> |Cut(texts, size)[i]| == size
    decreases |texts|
  {
    var start := (|texts| - 1) / size * size;
    LastStart(|texts|, size);
    CutLast(texts, size, start);
    if i < |Cut(texts, size)| - 1 {
      DivMod(start, size, (|texts| - 1) / size, 0);
      CutSizes(texts[..start], size, i);
    } else if |texts| % size == 0 {
      FullLastBatch(|texts|, size);
    }
  }

  lemma CutLast(texts: seq<string>, size: nat, start: nat)
    requires size > 0 && texts != [] && start == (|texts| - 1) / size * size && start < |texts|
    ensures Cut(texts, size) == Cut(texts[..start], size) + [texts[start..]]
    ensures Flatten(Cut(texts, size)) == Flatten(Cut(texts[..start], size)) + texts[start..]
  {
    var init := Cut(texts[..start], size);
    assert (init + [texts[start..]])[..|init|] == init;
  }

  /** One more batch is cut off. */
  lemma CutNext(texts: seq<string>, number: nat, size: nat, end: nat)
    requires size > 0 && number * size < end <= |texts| && end <= number * size + size
    ensures Cut(texts[..end], size) == Cut(texts[..number * size], size) + [texts[number * size..end]]
  {
    var start := number * size;
    StartOf(number, size, end);
    assert texts[..end][..start] == texts[..start] && texts[..end][start..] == texts[start..end];
    CutLast(texts[..end], size, start);
  }

  // ----- The condition

  /** No two of these texts share a key unless they share the embedding. */
  ghost predicate Harmless(embed: string -> Vector, texts: iset<string>) {
    forall a, b :: a in texts && b in texts && SimpleHash(a) == SimpleHash(b) ==> embed(a) == embed(b)
  }

  /** What the cache holds for any of these texts is its embedding. */
  ghost predicate Coherent(embed: string -> Vector, cache: Cache, texts: iset<string>) {
    forall t :: t in texts && SimpleHash(t) in cache ==> cache[SimpleHash(t)] == embed(t)
  }

  ghost predicate Within(texts: seq<string>, universe: iset<string>) {
    forall i :: 0 <= i < |texts| ==> texts[i] in universe
  }

  /** Every text got its embedding. */
  ghost predicate AllRight(embed: string -> Vector, rs: seq<EmbeddingResult>, texts: seq<string>) {
    |rs| == |texts| && forall i :: 0 <= i < |texts| ==> rs[i].embedding == embed(texts[i])
  }

  lemma AllRightConcat(embed: string -> Vector, ra: seq<EmbeddingResult>, a: seq<string>, rb: seq<EmbeddingResult>,
                       b: seq<string>)
    requires AllRight(embed, ra, a) && AllRight(embed, rb, b)
    ensures AllRight(embed, ra + rb, a + b)
  {
  }

  lemma StoreCoherent(embed: string -> Vector, cache: Cache, text: string, universe: iset<string>)
    requires Harmless(embed, universe) && Coherent(embed, cache, universe) && text in universe
    ensures Coherent(embed, Store(embed, cache, text), universe)
    ensures SimpleHash(text) in cache ==> Store(embed, cache, text) == cache
  {
  }

  lemma {:induction false} StoreAllCoherent(embed: string -> Vector, cache: Cache, texts: seq<string>,
                                            universe: iset<string>)
    requires Harmless(embed, universe) && Coherent(embed, cache, universe) && Within(texts, universe)
    ensures Coherent(embed, StoreAll(embed, cache, texts), universe)
    ensures cache.Keys <= StoreAll(embed, cache, texts).Keys
    decreases |texts|
  {
    if texts != [] {
      var n := |texts| - 1;
      StoreAllCoherent(embed, cache, texts[..n], universe);
      StoreCoherent(embed, StoreAll(embed, cache, texts[..n]), texts[n], universe);
    }
  }

  lemma {:induction false} StoreAllConcat(embed: string -> Vector, cache: Cache, a: seq<string>, b: seq<string>)
    ensures StoreAll(embed, cache, a + b) == StoreAll(embed, StoreAll(embed, cache, a), b)
    decreases |b|
  {
    if b == [] {
      assert a + b == a;
    } else {
      var n := |b| - 1;
      assert (a + b)[..|a + b| - 1] == a + b[..n];
      StoreAllConcat(embed, cache, a, b[..n]);
    }
  }

  /** Storing only what was not cached stores everything, when the cache is coherent. */
  lemma {:induction false} StoreUncached(embed: string -> Vector, cache: Cache, texts: seq<string>, universe: iset<string>)
    requires Harmless(embed, universe) && Coherent(embed, cache, universe) && Within(texts, universe)
    ensures StoreAll(embed, cache, Uncached(cache, texts)) == StoreAll(embed, cache, texts)
    decreases |texts|
  {
    if texts != [] {
      var n := |texts| - 1;
      StoreUncached(embed, cache, texts[..n], universe);
      StoreAllCoherent(embed, cache, texts[..n], universe);
      var before := Uncached(cache, texts[..n]);
      if SimpleHash(texts[n]) in cache {
        assert before + [] == before;
        StoreCoherent(embed, StoreAll(embed, cache, texts[..n]), texts[n], universe);
      } else {
        assert (before + [texts[n]])[..|before|] == before;
      }
    }
  }

  /** One text after the other: right embeddings, and a cache that holds them all. */
  lemma {:induction false} PerItemRight(embed: string -> Vector, cache: Cache, texts: seq<string>, useCache: bool,
                                        universe: iset<string>)
    requires Harmless(embed, universe) && Coherent(embed, cache, universe) && Within(texts, universe)
    ensures var (rs, last) := PerItem(embed, cache, texts, useCache);
            && AllRight(embed, rs, texts)
            && last == if useCache then StoreAll(embed, cache, texts) else cache
    decreases |texts|
  {
    if texts != [] {
      var next := GenerateOne(embed, cache, texts[0], useCache).1;
      OneRight(embed, cache, texts[0], useCache, universe);
      PerItemRight(embed, next, texts[1..], useCache, universe);
      AllRightConcat(embed, [GenerateOne(embed, cache, texts[0], useCache).0], [texts[0]],
                     PerItem(embed, next, texts[1..], useCache).0, texts[1..]);
      assert [texts[0]] + texts[1..] == texts;
      StoreFirst(embed, cache, texts);
    }
  }

  lemma OneRight(embed: string -> Vector, cache: Cache, text: string, useCache: bool, universe: iset<string>)
    requires Harmless(embed, universe) && Coherent(embed, cache, universe) && text in universe
    ensures var (r, next) := GenerateOne(embed, cache, text, useCache);
            && r.embedding == embed(text)
            && next == (if useCache then Store(embed, cache, text) else cache)
            && Coherent(embed, next, universe)
  {
    StoreCoherent(embed, cache, text, universe);
  }

  lemma StoreFirst(embed: string -> Vector, cache: Cache, texts: seq<string>)
    requires texts != []
    ensures StoreAll(embed, cache, texts) == StoreAll(embed, Store(embed, cache, texts[0]), texts[1..])
  {
    var first := [texts[0]];
    assert texts == first + texts[1..];
    assert first[..0] == [];
    assert StoreAll(embed, cache, first) == Store(embed, cache, texts[0]);
    StoreAllConcat(embed, cache, first, texts[1..]);
  }

  /** Results and a cache as the texts deserve them: right embeddings, and every text stored if the cache is used. */
  ghost predicate RightAfter(embed: string -> Vector, cache: Cache, texts: seq<string>, useCache: bool,
                             universe: iset<string>, rs: seq<EmbeddingResult>, last: Cache) {
    && AllRight(embed, rs, texts)
    && last == (if useCache then StoreAll(embed, cache, texts) else cache)
    && Coherent(embed, last, universe)
  }

  lemma RightAfterConcat(embed: string -> Vector, cache: Cache, a: seq<string>, b: seq<string>, useCache: bool,
                         universe: iset<string>, ra: seq<EmbeddingResult>, next: Cache, rb: seq<EmbeddingResult>,
                         last: Cache)
    requires RightAfter(embed, cache, a, useCache, universe, ra, next)
    requires RightAfter(embed, next, b, useCache, universe, rb, last)
    ensures RightAfter(embed, cache, a + b, useCache, universe, ra + rb, last)
  {
    AllRightConcat(embed, ra, a, rb, b);
    StoreAllConcat(embed, cache, a, b);
  }

  /** The same of batches, for any split of the texts. */
  lemma {:induction false} BatchedRight(embed: string -> Vector, cache: Cache, batches: seq<seq<string>>, useCache: bool,
                                        universe: iset<string>)
    requires Harmless(embed, universe) && Coherent(embed, cache, universe) && Within(Flatten(batches), universe)
    ensures var (rs, last) := Batched(embed, cache, batches, useCache);
            RightAfter(embed, cache, Flatten(batches), useCache, universe, rs, last)
    decreases |batches|
  {
    if batches != [] {
      var n := |batches| - 1;
      var early, late := batches[..n], batches[n];
      WithinParts(Flatten(early), late, universe);
      var (rs, next) := Batched(embed, cache, early, useCache);
      BatchedRight(embed, cache, early, useCache, universe);
      BatchRight(embed, next, late, useCache, universe);
      var (more, last) := Batch(embed, next, late, useCache);
      RightAfterConcat(embed, cache, Flatten(early), late, useCache, universe, rs, next, more, last);
    }
  }

  lemma WithinParts(a: seq<string>, b: seq<string>, universe: iset<string>)
    requires Within(a + b, universe)
    ensures Within(a, universe) && Within(b, universe)
  {
    forall i | 0 <= i < |a| ensures a[i] in universe {
      assert (a + b)[i] == a[i];
    }
    forall i | 0 <= i < |b| ensures b[i] in universe {
      assert (a + b)[|a| + i] == b[i];
    }
  }

  lemma BatchRight(embed: string -> Vector, cache: Cache, texts: seq<string>, useCache: bool, universe: iset<string>)
    requires Harmless(embed, universe) && Coherent(embed, cache, universe) && Within(texts, universe)
    ensures var (rs, last) := Batch(embed, cache, texts, useCache);
            RightAfter(embed, cache, texts, useCache, universe, rs, last)
  {
    StoreUncached(embed, cache, texts, universe);
    StoreAllCoherent(embed, cache, texts, universe);
  }

  /** The fast path refines the simple one: for every list of texts, every way to split it into batches and every
      coherent cache, the embeddings and the resulting cache are those of embedding the texts one by one. */
  lemma BatchedRefinesPerItem(embed: string -> Vector, cache: Cache, batches: seq<seq<string>>, useCache: bool,
                              universe: iset<string>)
    requires Harmless(embed, universe) && Coherent(embed, cache, universe) && Within(Flatten(batches), universe)
    ensures var texts := Flatten(batches);
            var b, p := Batched(embed, cache, batches, useCache), PerItem(embed, cache, texts, useCache);
            && |b.0| == |p.0| == |texts|
            && (forall i :: 0 <= i < |texts| ==> b.0[i].embedding == p.0[i].embedding == embed(texts[i]))
            && b.1 == p.1
            && Coherent(embed, b.1, universe)
  {
    PerItemRight(embed, cache, Flatten(batches), useCache, universe);
    BatchedRight(embed, cache, batches, useCache, universe);
  }

  /** In particular it makes no difference how the texts are split: any two splits give the same embeddings and the
      same cache. */
  lemma SplitIrrelevant(embed: string -> Vector, cache: Cache, one: seq<seq<string>>, two: seq<seq<string>>,
                        useCache: bool, universe: iset<string>)
    requires Harmless(embed, universe) && Coherent(embed, cache, universe) && Within(Flatten(one), universe)
    requires Flatten(one) == Flatten(two)
    ensures var a, b := Batched(embed, cache, one, useCache), Batched(embed, cache, two, useCache);
            && |a.0| == |b.0| && a.1 == b.1
            && forall i :: 0 <= i < |a.0| ==> a.0[i].embedding == b.0[i].embedding
  {
    BatchedRefinesPerItem(embed, cache, one, useCache, universe);
    BatchedRefinesPerItem(embed, cache, two, useCache, universe);
  }

  /** Whatever the batches find in the cache, one by one finds too: duplicates within a batch are the difference. */
  lemma {:induction false} PerItemHits(embed: string -> Vector, early: Cache, cache: Cache, texts: seq<string>,
                                       useCache: bool, i: nat)
    requires early.Keys <= cache.Keys && i < |texts|
    ensures |PerItem(embed, cache, texts, useCache).0| == |texts|
    ensures BatchResult(embed, early, texts[i], useCache).cached ==> PerItem(embed, cache, texts, useCache).0[i].cached
    decreases |texts|
  {
    var next := GenerateOne(embed, cache, texts[0], useCache).1;
    if |texts| > 1 {
      PerItemHits(embed, early, next, texts[1..], useCache, if i > 0 then i - 1 else 0);
    }
  }

  lemma {:induction false} BatchedLength(embed: string -> Vector, cache: Cache, batches: seq<seq<string>>, useCache: bool)
    ensures |Batched(embed, cache, batches, useCache).0| == |Flatten(batches)|
    decreases |batches|
  {
    if batches != [] {
      BatchedLength(embed, cache, batches[..|batches| - 1], useCache);
    }
  }

  lemma {:induction false} ResultAt(embed: string -> Vector, cache: Cache, batches: seq<seq<string>>, useCache: bool,
                                    b: nat, i: nat)
    requires b < |batches| && i < |batches[b]|
    ensures var place := |Flatten(batches[..b])| + i;
            && place < |Batched(embed, cache, batches, useCache).0|
            && Batched(embed, cache, batches, useCache).0[place] ==
               BatchResult(embed, Batched(embed, cache, batches[..b], useCache).1, batches[b][i], useCache)
    decreases |batches|
  {
    var n := |batches| - 1;
    BatchedLength(embed, cache, batches[..n], useCache);
    if b < n {
      assert batches[..n][..b] == batches[..b];
      ResultAt(embed, cache, batches[..n], useCache, b, i);
    }
  }

  /** The result for text i of batch b, whatever collides: it counts as cached exactly if the cache is used and held its
      key before that batch, and then it is what the cache held; otherwise it is the text's own embedding. */
  lemma ResultOfBatch(embed: string -> Vector, cache: Cache, batches: seq<seq<string>>, useCache: bool, b: nat, i: nat)
    requires b < |batches| && i < |batches[b]|
    ensures var rs, before := Batched(embed, cache, batches, useCache).0, Batched(embed, cache, batches[..b], useCache).1;
            var place, key := |Flatten(batches[..b])| + i, SimpleHash(batches[b][i]);
            && place < |rs|
            && (rs[place].cached <==> useCache && key in before)
            && rs[place].embedding == (if useCache && key in before then before[key] else embed(batches[b][i]))
  {
    ResultAt(embed, cache, batches, useCache, b, i);
  }

  /** Correctness needs the condition: every call on texts of the universe, however split, from every coherent cache,
      gives right embeddings and keeps the cache coherent exactly when no two of the texts collide harmfully. */
  lemma RightIffHarmless(embed: string -> Vector, universe: iset<string>)
    ensures Harmless(embed, universe) <==>
            forall cache, batches | Coherent(embed, cache, universe) && Within(Flatten(batches), universe) ::
              RightAndCoherent(embed, cache, batches, universe)
  {
    if Harmless(embed, universe) {
      forall cache, batches | Coherent(embed, cache, universe) && Within(Flatten(batches), universe)
        ensures RightAndCoherent(embed, cache, batches, universe)
      {
        BatchedRight(embed, cache, batches, true, universe);
      }
    }
    if forall cache, batches | Coherent(embed, cache, universe) && Within(Flatten(batches), universe) ::
         RightAndCoherent(embed, cache, batches, universe)
    {
      forall a, b | a in universe && b in universe && SimpleHash(a) == SimpleHash(b) ensures embed(a) == embed(b) {
        OneTextStored(embed, a);
        assert Coherent(embed, map[], universe) && Within(Flatten([[a]]), universe);
        assert RightAndCoherent(embed, map[], [[a]], universe);
      }
    }
  }

  lemma OneTextStored(embed: string -> Vector, text: string)
    ensures Flatten([[text]]) == [text]
    ensures Batched(embed, map[], [[text]], true).1 == map[SimpleHash(text) := embed(text)]
  {
    var texts, none: seq<string> := [text], [];
    var before: seq<seq<string>> := [];
    assert [texts][..0] == before && texts[..0] == none && Flatten(before) + texts == texts;
    assert Uncached(map[], none) == none && Uncached(map[], texts) == texts;
    assert StoreAll(embed, map[], none) == map[];
    assert StoreAll(embed, map[], texts) == map[SimpleHash(text) := embed(text)];
  }

  ghost predicate RightAndCoherent(embed: string -> Vector, cache: Cache, batches: seq<seq<string>>,
                                   universe: iset<string>) {
    var (rs, last) := Batched(embed, cache, batches, true);
    AllRight(embed, rs, Flatten(batches)) && Coherent(embed, last, universe)
  }

  /** The hash does collide: "Aa" and "BB" share a key, and whichever comes second is given the first one's vector. */
  lemma HashCollides(embed: string -> Vector)
    ensures SimpleHash("Aa") == SimpleHash("BB") == 2112
    ensures PerItem(embed, map[], ["Aa", "BB"], true).0[1] == EmbeddingResult(embed("Aa"), true)
  {
    assert "Aa"[1..] == "a" && "BB"[1..] == "B" && "a"[1..] == "" && "B"[1..] == "";
    assert HashFrom(0, "Aa") == HashFrom(65, "a") == HashFrom(2112, "") == 2112;
    assert HashFrom(0, "BB") == HashFrom(66, "B") == HashFrom(2112, "") == 2112;
    var texts := ["Aa", "BB"];
    assert texts[1..] == ["BB"];
    var next := GenerateOne(embed, map[], "Aa", true).1;
    assert PerItem(embed, next, ["BB"], true).0[0] == EmbeddingResult(embed("Aa"), true);
  }

  /** These results and this cache are what embedding the texts in batches of 100 leaves. */
  ghost predicate InBatches(embed: string -> Vector, cache: Cache, texts: seq<string>, useCache: bool,
                            results: seq<EmbeddingResult>, last: Cache) {
    (results, last) == Batched(embed, cache, Cut(texts, BATCH_SIZE), useCache)
  }

  /** One more batch. */
  lemma BatchedNext(embed: string -> Vector, cache: Cache, texts: seq<string>, number: nat, end: nat, useCache: bool,
                    results: seq<EmbeddingResult>, next: Cache, more: seq<EmbeddingResult>, last: Cache)
    requires number * BATCH_SIZE < end == Min(number * BATCH_SIZE + BATCH_SIZE, |texts|)
    requires InBatches(embed, cache, texts[..number * BATCH_SIZE], useCache, results, next)
    requires (more, last) == Batch(embed, next, texts[number * BATCH_SIZE..end], useCache)
    ensures InBatches(embed, cache, texts[..end], useCache, results + more, last)
  {
    CutNext(texts, number, BATCH_SIZE, end);
    BatchedAppend(embed, cache, Cut(texts[..number * BATCH_SIZE], BATCH_SIZE), texts[number * BATCH_SIZE..end], useCache);
  }

  lemma BatchedAppend(embed: string -> Vector, cache: Cache, batches: seq<seq<string>>, batch: seq<string>, useCache: bool)
    ensures var (rs, next) := Batched(embed, cache, batches, useCache);
            var (more, last) := Batch(embed, next, batch, useCache);
            Batched(embed, cache, batches + [batch], useCache) == (rs + more, last)
  {
    assert (batches + [batch])[..|batches|] == batches;
  }

  // ----- The service

  function CountCached(rs: seq<EmbeddingResult>): nat {
    if rs == [] then 0 else CountCached(rs[..|rs| - 1]) + (if rs[|rs| - 1].cached then 1 else 0)
  }

  /** It is the number of the places of cached results. */
  lemma {:induction false} CountIsNumber(rs: seq<EmbeddingResult>)
    ensures CountCached(rs) == |set i: int | 0 <= i < |rs| && rs[i].cached|
    decreases |rs|
  {
    var places := set i: int | 0 <= i < |rs| && rs[i].cached;
    if rs != [] {
      var n := |rs| - 1;
      var init := rs[..n];
      var earlier := set i: int | 0 <= i < |init| && init[i].cached;
      CountIsNumber(init);
      assert places == if rs[n].cached then earlier + {n} else earlier;
    }
  }

  lemma {:induction false} CountConcat(a: seq<EmbeddingResult>, b: seq<EmbeddingResult>)
    ensures CountCached(a + b) == CountCached(a) + CountCached(b)
    ensures CountCached(b) <= |b|
    decreases |b|
  {
    if b == [] {
      assert a + b == a;
    } else {
      assert (a + b)[..|a + b| - 1] == a + b[..|b| - 1];
      CountConcat(a, b[..|b| - 1]);
    }
  }

  /** What a lookup puts into the place of a text. */
  function Found(cache: Cache, text: string): Option<EmbeddingResult> {
    if SimpleHash(text) in cache then Some(EmbeddingResult(cache[SimpleHash(text)], true)) else None
  }

  datatype BatchAnswer = Answer(results: seq<EmbeddingResult>, cacheHits: nat, cacheMisses: nat) | ApiError

  class EmbeddingService {
    const embed: string -> Vector
    var cache: Cache

    constructor (embed: string -> Vector)
      ensures this.embed == embed && cache == map[]
    {
      this.embed, cache := embed, map[];
    }

    /** The places left empty by the lookups of the first n texts, in order, with their texts. */
    ghost predicate Misses(texts: seq<string>, n: nat, uncachedTexts: seq<string>, uncachedIndices: seq<nat>)
      reads this
      requires n <= |texts|
    {
      && uncachedTexts == Uncached(cache, texts[..n]) && |uncachedIndices| == |uncachedTexts|
      && (forall k :: 0 <= k < |uncachedIndices| ==>
            uncachedIndices[k] < n && texts[uncachedIndices[k]] == uncachedTexts[k])
      && (forall j, k :: 0 <= j < k < |uncachedIndices| ==> uncachedIndices[j] < uncachedIndices[k])
      && (forall i :: 0 <= i < n ==> (i in uncachedIndices <==> SimpleHash(texts[i]) !in cache))
    }

    lemma MissesNext(texts: seq<string>, n: nat, uncachedTexts: seq<string>, uncachedIndices: seq<nat>)
      requires n < |texts| && Misses(texts, n, uncachedTexts, uncachedIndices)
      ensures if SimpleHash(texts[n]) in cache then Misses(texts, n + 1, uncachedTexts, uncachedIndices)
              else Misses(texts, n + 1, uncachedTexts + [texts[n]], uncachedIndices + [n])
    {
      assert texts[..n + 1][..n] == texts[..n];
      assert uncachedTexts + [] == uncachedTexts;
      assert n !in uncachedIndices;
      var more := uncachedIndices + [n];
      assert more[|more| - 1] == n;
    }

    /** The first loop of a batch: looks every text up and remembers the places that stay empty. */
    method LookUpAll(texts: seq<string>, results: array<Option<EmbeddingResult>>)
      returns (uncachedTexts: seq<string>, uncachedIndices: seq<nat>)
      requires results.Length == |texts| && forall i :: 0 <= i < |texts| ==> results[i] == None
      modifies results
      ensures Misses(texts, |texts|, uncachedTexts, uncachedIndices)
      ensures forall i :: 0 <= i < |texts| ==> results[i] == Found(cache, texts[i])
    {
      uncachedTexts, uncachedIndices := [], [];
      for i := 0 to |texts|
        invariant Misses(texts, i, uncachedTexts, uncachedIndices)
        invariant forall j :: 0 <= j < i ==> results[j] == Found(cache, texts[j])
        invariant forall j :: i <= j < |texts| ==> results[j] == None
      {
        var key := SimpleHash(texts[i]);
        MissesNext(texts, i, uncachedTexts, uncachedIndices);
        if key in cache {
          results[i] := Some(EmbeddingResult(cache[key], true));
        } else {
          uncachedTexts := uncachedTexts + [texts[i]];
          uncachedIndices := uncachedIndices + [i];
        }
      }
    }

    /** These are places of texts, in order. */
    ghost predicate PlacesOf(texts: seq<string>, some: seq<string>, places: seq<nat>) {
      && |some| == |places|
      && (forall k :: 0 <= k < |places| ==> places[k] < |texts| && texts[places[k]] == some[k])
      && (forall j, k :: 0 <= j < k < |places| ==> places[j] < places[k])
    }

    /** The second loop of a batch: scatters the answers of the model to the places left empty, each place once. */
    method FillAll(texts: seq<string>, uncachedTexts: seq<string>, uncachedIndices: seq<nat>, embeddings: seq<Vector>,
                   useCache: bool, results: array<Option<EmbeddingResult>>)
      requires results.Length == |texts| && |uncachedIndices| == |uncachedTexts| == |embeddings|
      requires forall k :: 0 <= k < |embeddings| ==> embeddings[k] == embed(uncachedTexts[k])
      requires PlacesOf(texts, uncachedTexts, uncachedIndices)
      requires forall k :: 0 <= k < |uncachedIndices| ==> results[uncachedIndices[k]] == None
      modifies results, this`cache
      ensures cache == if useCache then StoreAll(embed, old(cache), uncachedTexts) else old(cache)
      ensures forall i :: 0 <= i < |texts| ==>
                results[i] == if i in uncachedIndices then Some(EmbeddingResult(embed(texts[i]), false)) else old(results[i])
    {
      for k := 0 to |uncachedTexts|
        invariant cache == if useCache then StoreAll(embed, old(cache), uncachedTexts[..k]) else old(cache)
        invariant forall j :: k <= j < |uncachedIndices| ==> results[uncachedIndices[j]] == None
        invariant forall j :: 0 <= j < k ==> results[uncachedIndices[j]] == Some(EmbeddingResult(embeddings[j], false))
        invariant forall i :: 0 <= i < |texts| && i !in uncachedIndices ==> results[i] == old(results[i])
      {
        var idx := uncachedIndices[k];
        assert results[idx] == None;
        results[idx] := Some(EmbeddingResult(embeddings[k], false));
        assert uncachedTexts[..k + 1][..k] == uncachedTexts[..k];
        if useCache {
          cache := cache[SimpleHash(uncachedTexts[k]) := embeddings[k]];
        }
      }
      assert uncachedTexts[..|uncachedTexts|] == uncachedTexts;
    }

    /** Which texts the model has to embed: those that missed, or all of them without the cache.  What the batch will
        answer is expected; the places that are not left empty already hold it. */
    method Prepare(texts: seq<string>, useCache: bool, results: array<Option<EmbeddingResult>>)
      returns (uncachedTexts: seq<string>, uncachedIndices: seq<nat>, ghost expected: seq<EmbeddingResult>)
      requires results.Length == |texts| && forall i :: 0 <= i < |texts| ==> results[i] == None
      modifies results
      ensures uncachedTexts == (if useCache then Uncached(cache, texts) else texts) && |uncachedIndices| == |uncachedTexts|
      ensures PlacesOf(texts, uncachedTexts, uncachedIndices)
      ensures |expected| == |texts|
      ensures Batch(embed, cache, texts, useCache) ==
              (expected, if useCache then StoreAll(embed, cache, uncachedTexts) else cache)
      ensures forall i :: 0 <= i < |texts| && i in uncachedIndices ==>
                results[i] == None && expected[i] == EmbeddingResult(embed(texts[i]), false)
      ensures forall i :: 0 <= i < |texts| && i !in uncachedIndices ==> results[i] == Some(expected[i])
    {
      expected := Batch(embed, cache, texts, useCache).0;
      if useCache {
        uncachedTexts, uncachedIndices := LookUpAll(texts, results);
        assert texts[..|texts|] == texts;
      } else {
        uncachedTexts, uncachedIndices := texts, seq(|texts|, i requires 0 <= i < |texts| => i);
        assert forall i :: 0 <= i < |texts| ==> uncachedIndices[i] == i;
      }
    }

    /** Fills the places: those of the hits, and, if the model answers, those of the misses. */
    method FillPlaces(texts: seq<string>, useCache: bool, apiOk: bool, results: array<Option<EmbeddingResult>>)
      returns (ok: bool, ghost expected: seq<EmbeddingResult>)
      requires results.Length == |texts| && forall i :: 0 <= i < |texts| ==> results[i] == None
      modifies results, this`cache
      ensures ok <==> apiOk || (if useCache then Uncached(old(cache), texts) else texts) == []
      ensures ok ==> (expected, cache) == Batch(embed, old(cache), texts, useCache)
      ensures ok ==> |expected| == |texts| && forall i :: 0 <= i < |texts| ==> results[i] == Some(expected[i])
      ensures !ok ==> cache == old(cache)
    {
      var uncachedTexts, uncachedIndices;
      uncachedTexts, uncachedIndices, expected := Prepare(texts, useCache, results);
      ok := true;
      if |uncachedTexts| > 0 {
        if !apiOk {
          return false, expected;
        }
        var embeddings := seq(|uncachedTexts|, k requires 0 <= k < |uncachedTexts| => embed(uncachedTexts[k]));
        FillAll(texts, uncachedTexts, uncachedIndices, embeddings, useCache, results);
      }
    }

    /** A batch fails, without any effect, exactly when the model is needed and its call fails. */
    method ProcessBatch(texts: seq<string>, useCache: bool, apiOk: bool) returns (ok: bool, rs: seq<EmbeddingResult>)
      modifies this`cache
      ensures ok <==> apiOk || (if useCache then Uncached(old(cache), texts) else texts) == []
      ensures ok ==> (rs, cache) == Batch(embed, old(cache), texts, useCache)
      ensures !ok ==> cache == old(cache)
    {
      var results := new Option<EmbeddingResult>[|texts|](_ => None);
      ghost var expected;
      ok, expected := FillPlaces(texts, useCache, apiOk, results);
      if !ok {
        return false, [];
      }
      rs := Collect(results);
      assert rs == expected;
    }

    method Collect(results: array<Option<EmbeddingResult>>) returns (rs: seq<EmbeddingResult>)
      requires forall i :: 0 <= i < results.Length ==> results[i].Some?
      ensures |rs| == results.Length && forall i :: 0 <= i < |rs| ==> Some(rs[i]) == results[i]
    {
      rs := [];
      for i := 0 to results.Length
        invariant |rs| == i && forall j :: 0 <= j < i ==> Some(rs[j]) == results[j]
      {
        rs := rs + [results[i].value];
      }
    }

    /** All texts, batch after batch (see CutCovers and BatchedRefinesPerItem); fails lists the batches whose call of
        the model fails. */
    method GenerateEmbeddings(texts: seq<string>, useCache: bool, fails: set<nat>) returns (answer: BatchAnswer)
      modifies this`cache
      ensures answer.Answer? ==>
                (answer.results, cache) == Batched(embed, old(cache), Cut(texts, 100), useCache) &&
                answer.cacheHits + answer.cacheMisses == |texts| &&
                answer.cacheHits == |set i: int | 0 <= i < |answer.results| && answer.results[i].cached|
      ensures answer.ApiError? ==> exists k, done: seq<EmbeddingResult> ::
                k in fails && k * 100 < |texts| &&
                InBatches(embed, old(cache), texts[..k * 100], useCache, done, cache)
    {
      var results: seq<EmbeddingResult> := [];
      var cacheHits: nat, cacheMisses: nat, i: nat, number: nat := 0, 0, 0, 0;
      while i < |texts|
        invariant i == Min(number * BATCH_SIZE, |texts|)
        invariant InBatches(embed, old(cache), texts[..i], useCache, results, cache)
        invariant cacheHits + cacheMisses == |results| == i && cacheHits == CountCached(results)
      {
        var end := Min(i + BATCH_SIZE, |texts|);
        ghost var before := cache;
        var ok, batchResults := ProcessBatch(texts[i..end], useCache, number !in fails);
        if !ok {
          return ApiError;
        }
        BatchedNext(embed, old(cache), texts, number, end, useCache, results, before, batchResults, cache);
        CountConcat(results, batchResults);
        results := results + batchResults;
        var hits := CountHits(batchResults);
        cacheHits, cacheMisses := cacheHits + hits, cacheMisses + |batchResults| - hits;
        i, number := end, number + 1;
      }
      assert texts[..|texts|] == texts;
      CountIsNumber(results);
      answer := Answer(results, cacheHits, cacheMisses);
    }
  }

  method CountHits(rs: seq<EmbeddingResult>) returns (hits: nat)
    ensures hits == CountCached(rs) <= |rs|
  {
    hits := 0;
    for i := 0 to |rs|
      invariant hits == CountCached(rs[..i]) <= i
    {
      assert rs[..i + 1][..i] == rs[..i];
      if rs[i].cached {
        hits := hits + 1;
      }
    }
    assert rs[..|rs|] == rs;
  }
}
