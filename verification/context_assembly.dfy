/**
 Context assembly of src/vector-db/services/context-assembly.service.ts: relevance filter, greedy
 deduplication, ranking by maximal marginal relevance and packing into a token budget.

 Scores and similarities are exact reals.  Building the prompt text is not modelled.
 */
module ContextAssembly {
  import opened Common
  import opened Permutations
  import opened SearchResults

  // ----- Content similarity

  predicate IsSpace(c: char) {
    c in {' ', '\t', '\n', '\r'} || c as int == 11 || c as int == 12
  }

  function Lower(c: char): char {
    if 'A' <= c <= 'Z' then (c as int + 32) as char else c
  }

  function LongEnough(word: string): set<string> {
    if |word| > 2 then {word} else {}
  }

  /** The words of word + text longer than two letters, in lower case; word is what precedes text without a space. */
  function WordsFrom(text: string, word: string): set<string>
    decreases |text|
  {
    if text == "" then LongEnough(word)
    else if IsSpace(text[0]) then LongEnough(word) + WordsFrom(text[1..], "")
    else WordsFrom(text[1..], word + [Lower(text[0])])
  }

  function Words(content: string): set<string> {
    WordsFrom(content, "")
  }

  /** |A * B| / |A + B|, and 0 when both are empty. */
  function Jaccard(a: set<string>, b: set<string>): real {
    if |a + b| == 0 then 0.0 else |a * b| as real / |a + b| as real
  }

  function Similarity(a: string, b: string): real {
    Jaccard(Words(a), Words(b))
  }

  /** A text without white space is one word, in lower case, which counts if it is longer than two letters. */
  lemma WordsOfOne(text: string)
    requires forall i :: 0 <= i < |text| ==> text[i] !in {' ', '\t', '\n', '\r', 11 as char, 12 as char}
    ensures var lower := seq(|text|, i requires 0 <= i < |text| =>
                               if 'A' <= text[i] <= 'Z' then (text[i] as int + 32) as char else text[i]);
            Words(text) == if |text| > 2 then {lower} else {}
  {
    var lower := seq(|text|, i requires 0 <= i < |text| =>
                       if 'A' <= text[i] <= 'Z' then (text[i] as int + 32) as char else text[i]);
    WordsWithin(text, "");
    assert "" + LowerAll(text) == lower;
  }

  function LowerAll(text: string): string {
    seq(|text|, i requires 0 <= i < |text| => Lower(text[i]))
  }

  lemma {:induction false} WordsWithin(text: string, word: string)
    requires forall i :: 0 <= i < |text| ==> !IsSpace(text[i])
    ensures WordsFrom(text, word) == LongEnough(word + LowerAll(text))
    decreases |text|
  {
    if text == "" {
      assert word + LowerAll(text) == word;
    } else {
      WordsWithin(text[1..], word + [Lower(text[0])]);
      assert word + [Lower(text[0])] + LowerAll(text[1..]) == word + LowerAll(text);
    }
  }

  /** White space separates: the words of a text are those before and those after any white space in it.  With
      WordsOfOne this determines the words of every text. */
  lemma WordsSplit(a: string, space: char, b: string)
    requires space in {' ', '\t', '\n', '\r', 11 as char, 12 as char}
    ensures Words(a + [space] + b) == Words(a) + Words(b)
  {
    WordsUpTo(a, space, b, "");
  }

  lemma {:induction false} WordsUpTo(a: string, space: char, b: string, word: string)
    requires IsSpace(space)
    ensures WordsFrom(a + [space] + b, word) == WordsFrom(a, word) + WordsFrom(b, "")
    decreases |a|
  {
    var text := a + [space] + b;
    if a == "" {
      assert text[0] == space && text[1..] == b;
    } else {
      assert text[0] == a[0] && text[1..] == a[1..] + [space] + b;
      WordsUpTo(a[1..], space, b, if IsSpace(a[0]) then "" else word + [Lower(a[0])]);
    }
  }

  lemma Share(part: nat, all: nat)
    requires all > 0
    ensures part as real / all as real * all as real == part as real
  {
  }

  /** value is the share of the common elements among all. */
  ghost predicate IsShare(value: real, a: set<string>, b: set<string>) {
    && value * |a + b| as real == |a * b| as real
    && (a + b == {} ==> value == 0.0)
  }

  lemma JaccardIsShare(a: set<string>, b: set<string>)
    ensures IsShare(Jaccard(a, b), a, b)
  {
    if |a + b| > 0 {
      Share(|a * b|, |a + b|);
    } else {
      SubsetSize(a * b, a + b);
    }
  }

  /** The similarity is the share of the common words among all words of the two texts, and 0 without any word. */
  lemma SimilarityIsShare(a: string, b: string)
    ensures var x, y := Words(a), Words(b); IsShare(Similarity(a, b), x, y)
  {
    JaccardIsShare(Words(a), Words(b));
  }

  lemma SubsetSize<T>(a: set<T>, b: set<T>)
    requires a <= b
    ensures |a| <= |b|
  {
    assert b == a + (b - a);
  }

  lemma FractionBounds(p: nat, q: nat)
    requires p <= q && q > 0
    ensures 0.0 <= p as real / q as real <= 1.0
    ensures p == q ==> p as real / q as real == 1.0
  {
  }

  /** The similarity is symmetric, within [0, 1], and 1 for a text compared with itself if it has any word. */
  lemma SimilarityBounds(a: string, b: string)
    ensures 0.0 <= Similarity(a, b) <= 1.0
    ensures Similarity(a, b) == Similarity(b, a)
    ensures Words(a) != {} ==> Similarity(a, a) == 1.0
  {
    var x, y := Words(a), Words(b);
    assert x + y == y + x && x * y == y * x;
    if |x + y| > 0 {
      SubsetSize(x * y, x + y);
      FractionBounds(|x * y|, |x + y|);
    }
    if x != {} {
      assert x * x == x && x + x == x;
      FractionBounds(|x|, |x|);
    }
  }

  // ----- Filter

  function FilterByRelevance(rs: seq<SearchResult>, minScore: real): seq<SearchResult> {
    if rs == [] then []
    else if rs[0].score >= minScore then [rs[0]] + FilterByRelevance(rs[1..], minScore)
    else FilterByRelevance(rs[1..], minScore)
  }

  /** The filter keeps every occurrence of a relevant result and nothing else. */
  lemma {:induction false} FilterKeeps(rs: seq<SearchResult>, minScore: real, r: SearchResult)
    ensures multiset(FilterByRelevance(rs, minScore))[r] == if r.score >= minScore then multiset(rs)[r] else 0
    decreases |rs|
  {
    if rs != [] {
      FilterKeeps(rs[1..], minScore, r);
      assert rs == [rs[0]] + rs[1..];
    }
  }

  // ----- Deduplication

  predicate Duplicates(r: SearchResult, kept: SearchResult, threshold: real) {
    r.id == kept.id || Similarity(r.content, kept.content) >= threshold
  }

  /** out is the deduplication of rs (there is only one: DeduplicationIsUnique). */
  ghost predicate IsDeduplication(out: seq<SearchResult>, rs: seq<SearchResult>, threshold: real) {
    exists at :: Deduplicated(out, at, rs, threshold)
  }

  /** What deduplication makes of rs: the results at the increasing positions at, no two of which are duplicates,
      while every other result duplicates one kept before it. */
  ghost predicate Deduplicated(out: seq<SearchResult>, at: seq<nat>, rs: seq<SearchResult>, threshold: real) {
    && |at| == |out|
    && (forall k :: 0 <= k < |at| ==> at[k] < |rs| && out[k] == rs[at[k]])
    && (forall j, k :: 0 <= j < k < |at| ==> at[j] < at[k])
    && (forall j, k {:trigger Duplicates(out[k], out[j], threshold)} ::
          0 <= j < k < |out| ==> !Duplicates(out[k], out[j], threshold))
    && (forall i {:trigger Covered(out, at, rs[i], i, threshold)} ::
          0 <= i < |rs| && i !in at ==> Covered(out, at, rs[i], i, threshold))
  }

  ghost predicate Covered(out: seq<SearchResult>, at: seq<nat>, r: SearchResult, i: nat, threshold: real)
    requires |at| == |out|
  {
    exists k :: 0 <= k < |out| && at[k] < i && Duplicates(r, out[k], threshold)
  }

  /** The inner loop of deduplication: it stops at the first kept result that is similar. */
  method FindSimilar(r: SearchResult, kept: seq<SearchResult>, threshold: real, similarity: (string, string) -> real)
    returns (isDuplicate: bool)
    ensures isDuplicate <==> exists k :: 0 <= k < |kept| && similarity(r.content, kept[k].content) >= threshold
  {
    isDuplicate := false;
    for k := 0 to |kept|
      invariant forall j :: 0 <= j < k ==> similarity(r.content, kept[j].content) < threshold
    {
      if similarity(r.content, kept[k].content) >= threshold {
        return true;
      }
    }
  }

  ghost predicate Seen(seen: set<string>, out: seq<SearchResult>) {
    && (forall k :: 0 <= k < |out| ==> out[k].id in seen)
    && (forall id :: id in seen ==> exists k :: 0 <= k < |out| && out[k].id == id)
  }

  ghost predicate DedupSoFar(out: seq<SearchResult>, at: seq<nat>, seen: set<string>, rs: seq<SearchResult>,
                             threshold: real) {
    Deduplicated(out, at, rs, threshold) && Seen(seen, out)
  }

  ghost predicate AgreeBelow(a: seq<nat>, b: seq<nat>, n: nat) {
    forall i :: 0 <= i < n ==> (i in a <==> i in b)
  }

  /** Two deduplications keep the same positions below n. */
  lemma {:induction false} SamePositions(o1: seq<SearchResult>, a1: seq<nat>, o2: seq<SearchResult>, a2: seq<nat>,
                                         rs: seq<SearchResult>, threshold: real, n: nat)
    requires Deduplicated(o1, a1, rs, threshold) && Deduplicated(o2, a2, rs, threshold) && n <= |rs|
    ensures AgreeBelow(a1, a2, n)
    decreases n
  {
    if n > 0 {
      SamePositions(o1, a1, o2, a2, rs, threshold, n - 1);
      KeptByBoth(o1, a1, o2, a2, rs, threshold, n - 1);
      KeptByBoth(o2, a2, o1, a1, rs, threshold, n - 1);
    }
  }

  lemma KeptByBoth(o1: seq<SearchResult>, a1: seq<nat>, o2: seq<SearchResult>, a2: seq<nat>,
                   rs: seq<SearchResult>, threshold: real, i: nat)
    requires Deduplicated(o1, a1, rs, threshold) && Deduplicated(o2, a2, rs, threshold) && i < |rs|
    requires AgreeBelow(a1, a2, i)
    ensures i in a1 ==> i in a2
  {
    if i in a1 {
      var m :| 0 <= m < |a1| && a1[m] == i;
      forall k | 0 <= k < |a2| && a2[k] < i ensures !Duplicates(rs[i], o2[k], threshold) {
        assert a2[k] in a1;
        var j :| 0 <= j < |a1| && a1[j] == a2[k];
        assert j < m;
        assert !Duplicates(o1[m], o1[j], threshold);
      }
      assert !Covered(o2, a2, rs[i], i, threshold);
    }
  }

  ghost predicate Increasing(a: seq<nat>) {
    forall j, k :: 0 <= j < k < |a| ==> a[j] < a[k]
  }

  lemma TailMembers(a: seq<nat>, x: nat)
    requires a != [] && Increasing(a)
    ensures x in a[1..] <==> x in a && x != a[0]
  {
    if x in a && x != a[0] {
      var k :| 0 <= k < |a| && a[k] == x;
      assert a[1..][k - 1] == x;
    }
  }

  lemma SmallestFirst(a: seq<nat>, x: nat)
    requires Increasing(a) && x in a
    ensures a[0] <= x
  {
    var k :| 0 <= k < |a| && a[k] == x;
  }

  lemma {:induction false} IncreasingDetermined(a: seq<nat>, b: seq<nat>)
    requires Increasing(a) && Increasing(b)
    requires forall x :: x in a <==> x in b
    ensures a == b
    decreases |a|
  {
    assert a != [] ==> a[0] in a;
    assert b != [] ==> b[0] in b;
    if a != [] && b != [] {
      SmallestFirst(a, b[0]);
      SmallestFirst(b, a[0]);
      forall x: nat ensures x in a[1..] <==> x in b[1..] {
        TailMembers(a, x);
        TailMembers(b, x);
      }
      IncreasingDetermined(a[1..], b[1..]);
      assert a == [a[0]] + a[1..] && b == [b[0]] + b[1..];
    }
  }

  /** No other selection has the properties of a deduplication: they determine what is kept. */
  lemma DeduplicationIsUnique(o1: seq<SearchResult>, o2: seq<SearchResult>, rs: seq<SearchResult>, threshold: real)
    requires IsDeduplication(o1, rs, threshold) && IsDeduplication(o2, rs, threshold)
    ensures o1 == o2
  {
    var a1 :| Deduplicated(o1, a1, rs, threshold);
    var a2 :| Deduplicated(o2, a2, rs, threshold);
    SamePositions(o1, a1, o2, a2, rs, threshold, |rs|);
    IncreasingDetermined(a1, a2);
  }

  method DeduplicateResults(rs: seq<SearchResult>, threshold: real) returns (out: seq<SearchResult>)
    ensures IsDeduplication(out, rs, threshold)
  {
    out := [];
    ghost var at: seq<nat> := [];
    var seen: set<string> := {};
    for i := 0 to |rs|
      invariant DedupSoFar(out, at, seen, rs[..i], threshold)
    {
      out, at, seen := ConsiderResult(rs[..i], rs[i], out, at, seen, threshold);
      assert rs[..i] + [rs[i]] == rs[..i + 1];
    }
    assert rs[..|rs|] == rs;
  }

  /** One round: the result is dropped if its id was seen or it is similar to a kept one. */
  method ConsiderResult(ghost before: seq<SearchResult>, result: SearchResult, out: seq<SearchResult>, ghost at: seq<nat>,
                        seen: set<string>, threshold: real)
    returns (out': seq<SearchResult>, ghost at': seq<nat>, seen': set<string>)
    requires DedupSoFar(out, at, seen, before, threshold)
    ensures DedupSoFar(out', at', seen', before + [result], threshold)
  {
    out', at', seen' := out, at, seen;
    if result.id in seen {
      ghost var k :| 0 <= k < |out| && out[k].id == result.id;
      DropCovered(out, at, before, result, k, threshold);
      return;
    }
    var isDuplicate := FindSimilar(result, out, threshold, Similarity);
    if isDuplicate {
      ghost var k :| 0 <= k < |out| && Similarity(result.content, out[k].content) >= threshold;
      DropCovered(out, at, before, result, k, threshold);
    } else {
      NotSimilar(result, out, seen, threshold);
      KeepNew(out, at, before, result, threshold);
      out', at', seen' := out + [result], at + [|before|], seen + {result.id};
      SeenExtends(seen, out, result);
    }
  }

  lemma NotSimilar(r: SearchResult, out: seq<SearchResult>, seen: set<string>, threshold: real)
    requires Seen(seen, out) && r.id !in seen
    requires forall k :: 0 <= k < |out| ==> Similarity(r.content, out[k].content) < threshold
    ensures forall k :: 0 <= k < |out| ==> !Duplicates(r, out[k], threshold)
  {
  }

  lemma SeenExtends(seen: set<string>, out: seq<SearchResult>, r: SearchResult)
    requires Seen(seen, out)
    ensures Seen(seen + {r.id}, out + [r])
  {
    var out' := out + [r];
    forall id | id in seen + {r.id} ensures exists k :: 0 <= k < |out'| && out'[k].id == id {
      if id in seen {
        var k :| 0 <= k < |out| && out[k].id == id;
        assert out'[k].id == id;
      } else {
        assert out'[|out|].id == id;
      }
    }
  }

  lemma DropCovered(out: seq<SearchResult>, at: seq<nat>, rs: seq<SearchResult>, r: SearchResult, k: nat, threshold: real)
    requires Deduplicated(out, at, rs, threshold) && k < |out| && Duplicates(r, out[k], threshold)
    ensures Deduplicated(out, at, rs + [r], threshold)
  {
    var more := rs + [r];
    forall i | 0 <= i < |more| && i !in at ensures Covered(out, at, more[i], i, threshold) {
      if i < |rs| {
        assert Covered(out, at, rs[i], i, threshold);
      } else {
        assert at[k] < i && Duplicates(r, out[k], threshold);
      }
    }
  }

  lemma KeepNew(out: seq<SearchResult>, at: seq<nat>, rs: seq<SearchResult>, r: SearchResult, threshold: real)
    requires Deduplicated(out, at, rs, threshold)
    requires forall k :: 0 <= k < |out| ==> !Duplicates(r, out[k], threshold)
    ensures Deduplicated(out + [r], at + [|rs|], rs + [r], threshold)
  {
    var more, out', at' := rs + [r], out + [r], at + [|rs|];
    forall i | 0 <= i < |more| && i !in at' ensures Covered(out', at', more[i], i, threshold) {
      assert at'[|at|] == |rs|;
      assert forall k :: 0 <= k < |at| ==> at'[k] == at[k];
      assert i !in at;
      assert Covered(out, at, rs[i], i, threshold);
      var k :| 0 <= k < |out| && at[k] < i && Duplicates(rs[i], out[k], threshold);
      assert out'[k] == out[k] && at'[k] == at[k];
    }
  }

  // ----- Ranking

  /** A measure of how similar two results are. */
  type Measure = (SearchResult, SearchResult) -> real

  const CONTENT_SIMILARITY: Measure := (a: SearchResult, b: SearchResult) => Similarity(a.content, b.content)

  /** The highest of the similarities to ranked results, and 0 without any. */
  function MaxSimilarity(sim: Measure, candidate: SearchResult, ranked: seq<SearchResult>): real {
    if ranked == [] then 0.0
    else
      var before, last := MaxSimilarity(sim, candidate, ranked[..|ranked| - 1]), sim(candidate, ranked[|ranked| - 1]);
      if before >= last then before else last
  }

  ghost predicate NonNegative(sim: Measure) {
    forall a, b :: sim(a, b) >= 0.0
  }

  lemma SimilarityIsNonNegative()
    ensures NonNegative(CONTENT_SIMILARITY)
  {
    forall a: SearchResult, b: SearchResult ensures CONTENT_SIMILARITY(a, b) >= 0.0 {
      SimilarityBounds(a.content, b.content);
    }
  }

  /** It bounds the similarity to every ranked result and, if there is any, is the similarity to one of them. */
  lemma {:induction false} MaxSimilarityIsMaximum(sim: Measure, candidate: SearchResult, ranked: seq<SearchResult>)
    requires NonNegative(sim)
    ensures forall k :: 0 <= k < |ranked| ==> sim(candidate, ranked[k]) <= MaxSimilarity(sim, candidate, ranked)
    ensures if ranked == [] then MaxSimilarity(sim, candidate, ranked) == 0.0
            else exists k :: 0 <= k < |ranked| && sim(candidate, ranked[k]) == MaxSimilarity(sim, candidate, ranked)
    decreases |ranked|
  {
    if ranked != [] {
      var n := |ranked| - 1;
      var init := ranked[..n];
      MaxSimilarityIsMaximum(sim, candidate, init);
      assert sim(candidate, ranked[n]) >= 0.0;
      if MaxSimilarity(sim, candidate, ranked) > sim(candidate, ranked[n]) {
        var k :| 0 <= k < |init| && sim(candidate, init[k]) == MaxSimilarity(sim, candidate, init);
        assert ranked[k] == init[k];
      }
    }
  }

  function Weigh(weight: real, relevance: real, maxSimilarity: real): real {
    (1.0 - weight) * relevance - weight * maxSimilarity
  }

  /** Maximal marginal relevance of a candidate against the results ranked so far. */
  function Mmr(sim: Measure, weight: real, candidate: SearchResult, ranked: seq<SearchResult>): real {
    Weigh(weight, candidate.score, MaxSimilarity(sim, candidate, ranked))
  }

  /** Weighing is worse for the higher similarity, strictly if similarity weighs anything. */
  lemma WeighMonotone(weight: real, relevance: real, a: real, b: real)
    requires weight >= 0.0 && a <= b
    ensures Weigh(weight, relevance, b) <= (1.0 - weight) * relevance - weight * a
    ensures weight > 0.0 && a < b ==> Weigh(weight, relevance, b) < (1.0 - weight) * relevance - weight * a
  {
    assert weight * (b - a) >= 0.0;
    assert weight * (b - a) == weight * b - weight * a;
    if weight > 0.0 && a < b {
      assert weight * (b - a) > 0.0;
    }
  }

  /** The relevance of a candidate is its worst trade-off against a ranked result: no ranked result gives it less,
      and one gives it just this. */
  lemma MmrIsWorstTradeoff(sim: Measure, weight: real, candidate: SearchResult, ranked: seq<SearchResult>)
    requires ranked != [] && NonNegative(sim)
    ensures weight >= 0.0 ==> forall k :: 0 <= k < |ranked| ==>
              Mmr(sim, weight, candidate, ranked) <= (1.0 - weight) * candidate.score - weight * sim(candidate, ranked[k])
    ensures exists k :: 0 <= k < |ranked| &&
              Mmr(sim, weight, candidate, ranked) == (1.0 - weight) * candidate.score - weight * sim(candidate, ranked[k])
  {
    MaxSimilarityIsMaximum(sim, candidate, ranked);
    if weight >= 0.0 {
      forall k | 0 <= k < |ranked|
        ensures Mmr(sim, weight, candidate, ranked) <=
                (1.0 - weight) * candidate.score - weight * sim(candidate, ranked[k])
      {
        WeighMonotone(weight, candidate.score, sim(candidate, ranked[k]), MaxSimilarity(sim, candidate, ranked));
      }
    }
  }

  /** A candidate of this score and similarity comes before another one: it has the higher weighted score less weighted
      similarity, or the same and no lower score. */
  predicate Ahead(weight: real, score: real, similarity: real, otherScore: real, otherSimilarity: real) {
    var relevance := (1.0 - weight) * score - weight * similarity;
    var otherRelevance := (1.0 - weight) * otherScore - weight * otherSimilarity;
    relevance > otherRelevance || (relevance == otherRelevance && score >= otherScore)
  }

  /** a is at least as good a next choice after ranked as b. */
  predicate Beats(sim: Measure, a: SearchResult, b: SearchResult, weight: real, ranked: seq<SearchResult>) {
    Ahead(weight, a.score, MaxSimilarity(sim, a, ranked), b.score, MaxSimilarity(sim, b, ranked))
  }

  /** The first result has the highest score, and each later one beats everything after it. */
  ghost predicate GreedyRanking(sim: Measure, ranked: seq<SearchResult>, weight: real) {
    && (forall j :: 0 < j < |ranked| ==> ranked[0].score >= ranked[j].score)
    && (forall k, j :: 0 < k < j < |ranked| ==> Beats(sim, ranked[k], ranked[j], weight, ranked[..k]))
  }

  /** m is the highest similarity of a candidate to a ranked result. */
  ghost predicate IsHighest(sim: Measure, m: real, candidate: SearchResult, ranked: seq<SearchResult>) {
    && (forall k :: 0 <= k < |ranked| ==> sim(candidate, ranked[k]) <= m)
    && (exists k :: 0 <= k < |ranked| && sim(candidate, ranked[k]) == m)
  }

  lemma HighestIs(sim: Measure, m: real, candidate: SearchResult, ranked: seq<SearchResult>)
    requires NonNegative(sim) && IsHighest(sim, m, candidate, ranked)
    ensures m == MaxSimilarity(sim, candidate, ranked)
  {
    MaxSimilarityIsMaximum(sim, candidate, ranked);
  }

  lemma GreedyByFormula(sim: Measure, ranked: seq<SearchResult>, weight: real, k: nat, j: nat, sk: real, sj: real)
    requires NonNegative(sim) && GreedyRanking(sim, ranked, weight) && 0 < k < j < |ranked|
    requires IsHighest(sim, sk, ranked[k], ranked[..k]) && IsHighest(sim, sj, ranked[j], ranked[..k])
    ensures Ahead(weight, ranked[k].score, sk, ranked[j].score, sj)
  {
    HighestIs(sim, sk, ranked[k], ranked[..k]);
    HighestIs(sim, sj, ranked[j], ranked[..k]);
    assert Beats(sim, ranked[k], ranked[j], weight, ranked[..k]);
  }

  /** m is the highest similarity of a candidate's content to that of a ranked result. */
  ghost predicate IsHighestOfContents(m: real, candidate: SearchResult, ranked: seq<SearchResult>) {
    && (forall k :: 0 <= k < |ranked| ==> Similarity(candidate.content, ranked[k].content) <= m)
    && (exists k :: 0 <= k < |ranked| && Similarity(candidate.content, ranked[k].content) == m)
  }

  lemma HighestOfContents(m: real, candidate: SearchResult, ranked: seq<SearchResult>)
    requires IsHighestOfContents(m, candidate, ranked)
    ensures IsHighest(CONTENT_SIMILARITY, m, candidate, ranked)
  {
    var k :| 0 <= k < |ranked| && Similarity(candidate.content, ranked[k].content) == m;
    assert CONTENT_SIMILARITY(candidate, ranked[k]) == m;
  }

  /** What a greedy ranking promises of any two results, in terms of scores and similarities alone: the earlier one had
      the higher weighted score less weighted similarity, or the same and no lower score.  Of two with equal scores the
      one more similar to what was ranked before never comes first, if similarity weighs anything. */
  lemma RankedByFormula(ranked: seq<SearchResult>, weight: real, k: nat, j: nat, sk: real, sj: real)
    requires GreedyRanking(CONTENT_SIMILARITY, ranked, weight) && 0 < k < j < |ranked|
    requires IsHighestOfContents(sk, ranked[k], ranked[..k]) && IsHighestOfContents(sj, ranked[j], ranked[..k])
    ensures var forK := (1.0 - weight) * ranked[k].score - weight * sk;
            var forJ := (1.0 - weight) * ranked[j].score - weight * sj;
            forK > forJ || (forK == forJ && ranked[k].score >= ranked[j].score)
    ensures weight > 0.0 && ranked[k].score == ranked[j].score ==> sk <= sj
  {
    SimilarityIsNonNegative();
    HighestOfContents(sk, ranked[k], ranked[..k]);
    HighestOfContents(sj, ranked[j], ranked[..k]);
    GreedyByFormula(CONTENT_SIMILARITY, ranked, weight, k, j, sk, sj);
    AheadMeans(weight, ranked[k].score, sk, ranked[j].score, sj);
  }

  lemma AheadMeans(weight: real, score: real, a: real, otherScore: real, b: real)
    requires Ahead(weight, score, a, otherScore, b)
    ensures var x, y := (1.0 - weight) * score - weight * a, (1.0 - weight) * otherScore - weight * b;
            x > y || (x == y && score >= otherScore)
    ensures weight > 0.0 && score == otherScore ==> a <= b
  {
    if weight > 0.0 && a > b {
      assert weight * (a - b) > 0.0;
      assert weight * (a - b) == weight * a - weight * b;
    }
  }

  method ComputeMaxSimilarity(sim: Measure, candidate: SearchResult, ranked: seq<SearchResult>)
    returns (maxSimilarity: real)
    ensures maxSimilarity == MaxSimilarity(sim, candidate, ranked)
  {
    maxSimilarity := 0.0;
    for i := 0 to |ranked|
      invariant maxSimilarity == MaxSimilarity(sim, candidate, ranked[..i])
    {
      assert ranked[..i + 1][..i] == ranked[..i];
      var similarity := sim(candidate, ranked[i]);
      maxSimilarity := if maxSimilarity >= similarity then maxSimilarity else similarity;
    }
    assert ranked[..|ranked|] == ranked;
  }

  method ComputeMmr(sim: Measure, candidate: SearchResult, ranked: seq<SearchResult>, weight: real) returns (mmr: real)
    ensures mmr == Mmr(sim, weight, candidate, ranked)
  {
    var relevance := candidate.score;
    var maxSimilarity := ComputeMaxSimilarity(sim, candidate, ranked);
    mmr := Weigh(weight, relevance, maxSimilarity);
  }

  /** The relevances of all candidates. */
  ghost function Relevances(sim: Measure, remaining: seq<SearchResult>, ranked: seq<SearchResult>, weight: real)
    : (vs: seq<real>)
    ensures |vs| == |remaining|
    ensures forall i :: 0 <= i < |vs| ==> vs[i] == Mmr(sim, weight, remaining[i], ranked)
  {
    seq(|remaining|, i requires 0 <= i < |remaining| => Mmr(sim, weight, remaining[i], ranked))
  }

  /** m is the first place of the greatest among the first n values. */
  ghost predicate FirstMaximum(vs: seq<real>, n: nat, m: nat) {
    && m < n <= |vs|
    && (forall j :: 0 <= j < n ==> vs[j] <= vs[m])
    && (forall j :: 0 <= j < m ==> vs[j] < vs[m])
  }

  lemma FirstMaximumExtends(vs: seq<real>, n: nat, m: nat)
    requires FirstMaximum(vs, n, m) && n < |vs|
    ensures FirstMaximum(vs, n + 1, if vs[n] > vs[m] then n else m)
  {
  }

  /** With weight 0 the relevances are the scores, so the first candidate of greatest relevance is the first. */
  lemma ZeroWeightFirst(sim: Measure, remaining: seq<SearchResult>, ranked: seq<SearchResult>, m: nat)
    requires Descending(remaining) && FirstMaximum(Relevances(sim, remaining, ranked, 0.0), |remaining|, m)
    ensures m == 0
  {
    var vs := Relevances(sim, remaining, ranked, 0.0);
    WeightlessMmr(sim, remaining[0], ranked);
    WeightlessMmr(sim, remaining[m], ranked);
    assert vs[0] == remaining[0].score && vs[m] == remaining[m].score;
  }

  lemma WeightlessMmr(sim: Measure, candidate: SearchResult, ranked: seq<SearchResult>)
    ensures Mmr(sim, 0.0, candidate, ranked) == candidate.score
  {
  }

  lemma AheadByWeight(weight: real, score: real, similarity: real, otherScore: real, otherSimilarity: real)
    requires var v, w := Weigh(weight, score, similarity), Weigh(weight, otherScore, otherSimilarity);
             v > w || (v == w && score >= otherScore)
    ensures Ahead(weight, score, similarity, otherScore, otherSimilarity)
  {
  }

  /** The first maximum of the relevances beats every candidate, as candidates are in descending score. */
  lemma FirstMaximumBeats(sim: Measure, remaining: seq<SearchResult>, ranked: seq<SearchResult>, weight: real, m: nat)
    requires Descending(remaining) && FirstMaximum(Relevances(sim, remaining, ranked, weight), |remaining|, m)
    ensures forall j :: 0 <= j < |remaining| ==> Beats(sim, remaining[m], remaining[j], weight, ranked)
  {
    var vs := Relevances(sim, remaining, ranked, weight);
    forall j | 0 <= j < |remaining| ensures Beats(sim, remaining[m], remaining[j], weight, ranked) {
      assert vs[j] <= vs[m];
      AheadByWeight(weight, remaining[m].score, MaxSimilarity(sim, remaining[m], ranked), remaining[j].score,
                    MaxSimilarity(sim, remaining[j], ranked));
    }
  }

  /** The inner loop: the first candidate of greatest relevance. */
  method SelectNext(sim: Measure, remaining: seq<SearchResult>, ranked: seq<SearchResult>, weight: real)
    returns (maxIndex: nat)
    requires remaining != [] && Descending(remaining)
    ensures maxIndex < |remaining|
    ensures forall i :: 0 <= i < |remaining| ==> Beats(sim, remaining[maxIndex], remaining[i], weight, ranked)
    ensures weight == 0.0 ==> maxIndex == 0
  {
    ghost var vs := Relevances(sim, remaining, ranked, weight);
    var maxMmr: Option<real> := None;   // -Infinity
    maxIndex := 0;
    for i := 0 to |remaining|
      invariant if i == 0 then maxMmr.None? && maxIndex == 0
                else FirstMaximum(vs, i, maxIndex) && maxMmr == Some(vs[maxIndex])
    {
      var mmr := ComputeMmr(sim, remaining[i], ranked, weight);
      assert mmr == vs[i];
      if i > 0 {
        FirstMaximumExtends(vs, i, maxIndex);
      }
      if maxMmr.None? || mmr > maxMmr.value {
        maxMmr := Some(mmr);
        maxIndex := i;
      }
    }
    FirstMaximumBeats(sim, remaining, ranked, weight, maxIndex);
    if weight == 0.0 {
      ZeroWeightFirst(sim, remaining, ranked, maxIndex);
    }
  }

  lemma WithoutKeeps(s: seq<SearchResult>, i: nat)
    requires i < |s|
    ensures multiset(Without(s, i)) + multiset{s[i]} == multiset(s)
    ensures Descending(s) ==> Descending(Without(s, i))
    ensures forall x :: x in Without(s, i) ==> x in s
  {
    MultisetWithout(s, i);
  }

  /** The ranking so far beats what remains. */
  ghost predicate RankedSoFar(sim: Measure, ranked: seq<SearchResult>, remaining: seq<SearchResult>, weight: real) {
    && ranked != []
    && Descending(remaining)
    && GreedyRanking(sim, ranked, weight)
    && (forall x :: x in remaining ==> ranked[0].score >= x.score)
    && (forall k, x :: 0 < k < |ranked| && x in remaining ==> Beats(sim, ranked[k], x, weight, ranked[..k]))
  }

  lemma RankExtends(sim: Measure, ranked: seq<SearchResult>, remaining: seq<SearchResult>, weight: real, i: nat)
    requires RankedSoFar(sim, ranked, remaining, weight) && i < |remaining|
    requires forall j :: 0 <= j < |remaining| ==> Beats(sim, remaining[i], remaining[j], weight, ranked)
    ensures RankedSoFar(sim, ranked + [remaining[i]], Without(remaining, i), weight)
  {
    var ranked', remaining' := ranked + [remaining[i]], Without(remaining, i);
    WithoutKeeps(remaining, i);
    assert forall k :: 0 <= k <= |ranked| ==> ranked'[..k] == ranked[..k];
    forall k, j | 0 < k < j < |ranked'| ensures Beats(sim, ranked'[k], ranked'[j], weight, ranked'[..k]) {
      if j < |ranked| {
        assert Beats(sim, ranked[k], ranked[j], weight, ranked[..k]);
      } else {
        assert remaining[i] in remaining;
      }
    }
    forall k, x | 0 < k < |ranked'| && x in remaining' ensures Beats(sim, ranked'[k], x, weight, ranked'[..k]) {
      assert x in remaining;
      if k == |ranked| {
        var j :| 0 <= j < |remaining| && remaining[j] == x;
      }
    }
  }

  ghost predicate Ranking(sim: Measure, ranked: seq<SearchResult>, remaining: seq<SearchResult>, weight: real,
                          sorted: seq<SearchResult>)
  {
    && RankedSoFar(sim, ranked, remaining, weight)
    && multiset(ranked) + multiset(remaining) == multiset(sorted)
    && (weight == 0.0 ==> ranked + remaining == sorted)
  }

  lemma RankingStarts(sim: Measure, sorted: seq<SearchResult>, weight: real)
    requires Descending(sorted) && sorted != []
    ensures Ranking(sim, [sorted[0]], sorted[1..], weight, sorted)
  {
    assert sorted == [sorted[0]] + sorted[1..];
  }

  lemma RankingExtends(sim: Measure, ranked: seq<SearchResult>, remaining: seq<SearchResult>, weight: real,
                       sorted: seq<SearchResult>, i: nat)
    requires Ranking(sim, ranked, remaining, weight, sorted) && i < |remaining| && (weight == 0.0 ==> i == 0)
    requires forall j :: 0 <= j < |remaining| ==> Beats(sim, remaining[i], remaining[j], weight, ranked)
    ensures Ranking(sim, ranked + [remaining[i]], Without(remaining, i), weight, sorted)
  {
    RankExtends(sim, ranked, remaining, weight, i);
    WithoutKeeps(remaining, i);
    MoveFirst(ranked, remaining);
  }

  lemma MoveFirst<T>(a: seq<T>, b: seq<T>)
    requires b != []
    ensures a + [b[0]] + Without(b, 0) == a + b
  {
  }

  method RankWithDiversity(rs: seq<SearchResult>, weight: real) returns (ranked: seq<SearchResult>)
    ensures multiset(ranked) == multiset(rs)
    ensures GreedyRanking(CONTENT_SIMILARITY, ranked, weight)
    ensures weight == 0.0 ==> ranked == SortByScore(rs)
  {
    if |rs| <= 1 {
      return rs;
    }
    var remaining := SortByScore(rs);
    SortIsStable(rs, 0.0);
    ghost var sorted := remaining;
    assert |multiset(sorted)| == |multiset(rs)|;
    RankingStarts(CONTENT_SIMILARITY, sorted, weight);
    ranked, remaining := [remaining[0]], remaining[1..];
    while |remaining| > 0
      invariant Ranking(CONTENT_SIMILARITY, ranked, remaining, weight, sorted)
      decreases |remaining|
    {
      var maxIndex := SelectNext(CONTENT_SIMILARITY, remaining, ranked, weight);
      RankingExtends(CONTENT_SIMILARITY, ranked, remaining, weight, sorted, maxIndex);
      ranked, remaining := ranked + [remaining[maxIndex]], Without(remaining, maxIndex);
    }
    assert ranked + remaining == ranked;
  }

  // ----- The budget

  const OVERHEAD := 10

  function Cost(r: SearchResult): nat {
    (|r.content| + 3) / 4 + OVERHEAD
  }

  /** A result costs a token for every four characters, rounded up, and 10 more. */
  lemma CostIsCeiling(r: SearchResult)
    ensures 4 * (Cost(r) - 11) < |r.content| <= 4 * (Cost(r) - 10)
  {
  }

  /** The total is that of the parts. */
  lemma {:induction false} TotalCostConcat(a: seq<SearchResult>, b: seq<SearchResult>)
    ensures TotalCost(a + b) == TotalCost(a) + TotalCost(b)
    ensures |a| == 1 ==> TotalCost(a) == Cost(a[0])
    decreases |b|
  {
    if b == [] {
      assert a + b == a;
    } else {
      assert (a + b)[..|a + b| - 1] == a + b[..|b| - 1];
      TotalCostConcat(a, b[..|b| - 1]);
    }
    if |a| == 1 {
      assert a[..0] == [];
    }
  }

  function TotalCost(rs: seq<SearchResult>): nat {
    if rs == [] then 0 else TotalCost(rs[..|rs| - 1]) + Cost(rs[|rs| - 1])
  }

  lemma {:induction false} LongerCostsMore(rs: seq<SearchResult>, k: nat, n: nat)
    requires k <= n <= |rs|
    ensures TotalCost(rs[..k]) <= TotalCost(rs[..n])
    decreases n
  {
    if k < n {
      LongerCostsMore(rs, k, n - 1);
      assert rs[..n][..n - 1] == rs[..n - 1];
    }
  }

  /** The longest prefix of the ranking whose total cost is within the budget. */
  ghost predicate LongestFit(selected: seq<SearchResult>, ranked: seq<SearchResult>, maxTokens: int) {
    && selected <= ranked
    && (selected == [] || TotalCost(selected) <= maxTokens)
    && (forall n :: |selected| < n <= |ranked| ==> TotalCost(ranked[..n]) > maxTokens)
  }

  method FitToContextWindow(ranked: seq<SearchResult>, maxTokens: int)
    returns (selected: seq<SearchResult>, totalTokens: nat)
    ensures LongestFit(selected, ranked, maxTokens)
    ensures totalTokens == TotalCost(selected)
  {
    selected, totalTokens := [], 0;
    for i := 0 to |ranked|
      invariant selected == ranked[..i] && totalTokens == TotalCost(selected)
      invariant selected == [] || totalTokens <= maxTokens
    {
      assert ranked[..i + 1][..i] == ranked[..i];
      var tokensWithOverhead := (|ranked[i].content| + 3) / 4 + OVERHEAD;
      if totalTokens + tokensWithOverhead > maxTokens {
        forall n | i < n <= |ranked| ensures TotalCost(ranked[..n]) > maxTokens {
          LongerCostsMore(ranked, i + 1, n);
        }
        return;
      }
      selected := selected + [ranked[i]];
      totalTokens := totalTokens + tokensWithOverhead;
    }
  }

  // ----- End to end

  predicate Apart(a: SearchResult, b: SearchResult, threshold: real) {
    a.id != b.id && Similarity(a.content, b.content) < threshold
  }

  ghost predicate NoDuplicates(rs: seq<SearchResult>, threshold: real) {
    forall j, k {:trigger Apart(rs[j], rs[k], threshold)} :: 0 <= j < k < |rs| ==> Apart(rs[j], rs[k], threshold)
  }

  lemma DeduplicatedPairs(out: seq<SearchResult>, at: seq<nat>, rs: seq<SearchResult>, threshold: real)
    requires Deduplicated(out, at, rs, threshold)
    ensures NoDuplicates(out, threshold)
  {
    forall j, k | 0 <= j < k < |out| ensures Apart(out[j], out[k], threshold) {
      assert !Duplicates(out[k], out[j], threshold);
      SimilarityBounds(out[j].content, out[k].content);
    }
  }

  lemma CountTwice<T>(s: seq<T>, j: nat, k: nat)
    requires j < k < |s| && s[j] == s[k]
    ensures multiset(s)[s[j]] >= 2
  {
    assert s == s[..j] + [s[j]] + s[j + 1..k] + [s[k]] + s[k + 1..];
  }

  lemma OccursOnce(rs: seq<SearchResult>, r: SearchResult, threshold: real)
    requires NoDuplicates(rs, threshold)
    ensures multiset(rs)[r] <= 1
  {
    forall j, k | 0 <= j < k < |rs| ensures rs[j].id != rs[k].id {
      assert Apart(rs[j], rs[k], threshold);
    }
    CountOnce(rs, r);
  }

  /** Two results at different places are apart, in either order. */
  lemma ApartAnyOrder(rs: seq<SearchResult>, threshold: real, a: nat, b: nat)
    requires NoDuplicates(rs, threshold) && a < |rs| && b < |rs| && a != b
    ensures Apart(rs[a], rs[b], threshold)
  {
    if a < b {
      assert Apart(rs[a], rs[b], threshold);
    } else {
      assert Apart(rs[b], rs[a], threshold);
      SimilarityBounds(rs[a].content, rs[b].content);
    }
  }

  /** Where a result of the one is in the other. */
  lemma PlaceOf<T>(s: seq<T>, t: seq<T>, j: nat) returns (a: nat)
    requires multiset(s) == multiset(t) && j < |t|
    ensures a < |s| && s[a] == t[j]
  {
    assert t[j] in multiset(s);
    a :| 0 <= a < |s| && s[a] == t[j];
  }

  /** Being free of duplicates survives any reordering. */
  lemma NoDuplicatesPermuted(rs: seq<SearchResult>, out: seq<SearchResult>, threshold: real)
    requires NoDuplicates(rs, threshold) && multiset(rs) == multiset(out)
    ensures NoDuplicates(out, threshold)
  {
    forall j, k | 0 <= j < k < |out| ensures Apart(out[j], out[k], threshold) {
      if out[j] == out[k] {
        CountTwice(out, j, k);
        OccursOnce(rs, out[j], threshold);
      }
      var a := PlaceOf(rs, out, j);
      var b := PlaceOf(rs, out, k);
      ApartAnyOrder(rs, threshold, a, b);
    }
  }

  datatype Metadata = Metadata(totalResults: nat, relevantResults: nat, deduplicatedResults: nat,
                               selectedResults: nat, totalTokens: nat, compressed: bool)

  class ContextAssemblyService {
    var totalAssemblies: nat
    var totalTokensUsed: nat
    var avgContextSize: real
    ghost var selectedSoFar: nat

    /** The running average is the true average of all context sizes. */
    ghost predicate Valid()
      reads this
    {
      avgContextSize * totalAssemblies as real == selectedSoFar as real
    }

    constructor ()
      ensures Valid() && totalAssemblies == totalTokensUsed == selectedSoFar == 0
    {
      totalAssemblies, totalTokensUsed, avgContextSize, selectedSoFar := 0, 0, 0.0, 0;
    }

    method UpdateStatistics(totalTokens: nat, size: nat)
      requires totalAssemblies > 0 && avgContextSize * (totalAssemblies - 1) as real == selectedSoFar as real
      modifies this`totalTokensUsed, this`avgContextSize, this`selectedSoFar
      ensures Valid() && selectedSoFar == old(selectedSoFar) + size
      ensures totalTokensUsed == old(totalTokensUsed) + totalTokens
    {
      totalTokensUsed := totalTokensUsed + totalTokens;
      AverageStep(avgContextSize, totalAssemblies, selectedSoFar, size);
      avgContextSize := (avgContextSize * (totalAssemblies - 1) as real + size as real) / totalAssemblies as real;
      selectedSoFar := selectedSoFar + size;
    }

    method AssembleContext(results: seq<SearchResult>, minScore: real, threshold: real, weight: real, maxTokens: int)
      returns (context: seq<SearchResult>, metadata: Metadata, ghost steps: Steps)
      requires Valid()
      modifies this
      ensures Valid()
      ensures totalAssemblies == old(totalAssemblies) + 1 && selectedSoFar == old(selectedSoFar) + |context|
      ensures totalTokensUsed == old(totalTokensUsed) + TotalCost(context)
      ensures StepsHold(steps, results, minScore, threshold, weight)
      ensures LongestFit(context, steps.ranked, maxTokens)
      ensures NoDuplicates(context, threshold)
      ensures forall r :: r in context ==> r in results && r.score >= minScore
      ensures metadata == Metadata(|results|, |FilterByRelevance(results, minScore)|, |steps.kept|, |context|,
                                   TotalCost(context), |steps.kept| < |FilterByRelevance(results, minScore)|)
    {
      totalAssemblies := totalAssemblies + 1;
      var relevant := FilterByRelevance(results, minScore);
      var deduplicated := DeduplicateResults(relevant, threshold);
      var ranked := RankWithDiversity(deduplicated, weight);
      var totalTokens;
      context, totalTokens := FitToContextWindow(ranked, maxTokens);
      UpdateStatistics(totalTokens, |context|);
      metadata := Metadata(|results|, |relevant|, |deduplicated|, |context|, totalTokens, |deduplicated| < |relevant|);
      steps := Steps(deduplicated, ranked);
      ContextHolds(steps, results, minScore, threshold, weight, context, maxTokens);
    }
  }

  /** What the steps in between produced: the results kept by deduplication, and their ranking. */
  datatype Steps = Steps(kept: seq<SearchResult>, ranked: seq<SearchResult>)

  /** Every dropped relevant result duplicates a kept one; the ranking is a greedy permutation of the kept ones. */
  ghost predicate StepsHold(s: Steps, results: seq<SearchResult>, minScore: real, threshold: real, weight: real) {
    && IsDeduplication(s.kept, FilterByRelevance(results, minScore), threshold)
    && multiset(s.ranked) == multiset(s.kept)
    && GreedyRanking(CONTENT_SIMILARITY, s.ranked, weight)
    && (weight == 0.0 ==> s.ranked == SortByScore(s.kept))
  }

  /** The guarantees of the context follow from those of the steps. */
  lemma ContextHolds(s: Steps, results: seq<SearchResult>, minScore: real, threshold: real, weight: real,
                     context: seq<SearchResult>, maxTokens: int)
    requires StepsHold(s, results, minScore, threshold, weight) && LongestFit(context, s.ranked, maxTokens)
    ensures NoDuplicates(context, threshold)
    ensures forall r :: r in context ==> r in results && r.score >= minScore
  {
    var at :| Deduplicated(s.kept, at, FilterByRelevance(results, minScore), threshold);
    DeduplicatedPairs(s.kept, at, FilterByRelevance(results, minScore), threshold);
    NoDuplicatesPermuted(s.kept, s.ranked, threshold);
    forall r | r in context ensures r in results && r.score >= minScore {
      ContextIsRelevant(results, minScore, s.kept, at, s.ranked, threshold, r);
    }
  }

  lemma AverageStep(avg: real, n: nat, total: nat, size: nat)
    requires n > 0 && avg * (n - 1) as real == total as real
    ensures (avg * (n - 1) as real + size as real) / n as real * n as real == (total + size) as real
  {
  }

  lemma ContextIsRelevant(results: seq<SearchResult>, minScore: real, kept: seq<SearchResult>, at: seq<nat>,
                          ranked: seq<SearchResult>, threshold: real, r: SearchResult)
    requires Deduplicated(kept, at, FilterByRelevance(results, minScore), threshold)
    requires multiset(ranked) == multiset(kept) && r in ranked
    ensures r in results && r.score >= minScore
  {
    assert r in multiset(kept);
    var k :| 0 <= k < |kept| && kept[k] == r;
    assert r in multiset(FilterByRelevance(results, minScore));
    FilterKeeps(results, minScore, r);
    assert r in multiset(results);
  }
}
