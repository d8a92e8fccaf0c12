/**
 Merging the results of several queries: `multiQuerySearch` and `normalizeScores` of
 src/vector-db/services/retrieval.service.ts.  Scores are exact reals.
 */
module RetrievalMerge {
  import opened Common
  import opened SearchResults

  // ----- Normalisation

  function MinScore(rs: seq<SearchResult>): real
    requires rs != []
  {
    if |rs| == 1 then rs[0].score
    else
      var rest := MinScore(rs[1..]);
      if rs[0].score <= rest then rs[0].score else rest
  }

  function MaxScore(rs: seq<SearchResult>): real
    requires rs != []
  {
    if |rs| == 1 then rs[0].score
    else
      var rest := MaxScore(rs[1..]);
      if rs[0].score >= rest then rs[0].score else rest
  }

  function Rescaled(score: real, low: real, high: real): real {
    if high - low == 0.0 then 1.0 else (score - low) / (high - low)
  }

  function NormalizeScores(rs: seq<SearchResult>): seq<SearchResult> {
    if rs == [] then rs
    else
      var low, high := MinScore(rs), MaxScore(rs);
      seq(|rs|, i requires 0 <= i < |rs| => rs[i].(score := Rescaled(rs[i].score, low, high)))
  }

  lemma {:induction false} ExtremesBound(rs: seq<SearchResult>, i: nat)
    requires i < |rs|
    ensures MinScore(rs) <= rs[i].score <= MaxScore(rs)
    decreases |rs|
  {
    if |rs| > 1 {
      ExtremesBound(rs[1..], if i == 0 then 0 else i - 1);
    }
  }

  /** Dividing by a positive range keeps the order, and its inverse multiplication keeps it strictly. */
  lemma ScaledOrder(x: real, y: real, d: real)
    requires d > 0.0
    ensures x <= y ==> x * d <= y * d
    ensures x < y ==> x * d < y * d
  {
    var gap := y - x;
    assert gap * d == y * d - x * d;
    if x < y {
      assert gap * d > 0.0;
    }
  }

  lemma Quotient(n: real, d: real)
    requires d > 0.0
    ensures (n / d) * d == n
  {
  }

  lemma QuotientOrder(m: real, n: real, d: real)
    requires d > 0.0
    ensures m <= n <==> m / d <= n / d
  {
    Quotient(m, d);
    Quotient(n, d);
    if m / d <= n / d {
      ScaledOrder(m / d, n / d, d);
    } else {
      ScaledOrder(n / d, m / d, d);
    }
  }

  lemma RescaledOrder(a: real, b: real, low: real, high: real)
    requires low <= a <= high && low <= b <= high && low < high
    ensures 0.0 <= Rescaled(a, low, high) <= 1.0
    ensures a <= b <==> Rescaled(a, low, high) <= Rescaled(b, low, high)
  {
    var d := high - low;
    QuotientOrder(a - low, b - low, d);
    QuotientOrder(0.0, a - low, d);
    QuotientOrder(a - low, d, d);
    assert 0.0 / d == 0.0 && d / d == 1.0;
  }

  lemma {:induction false} ExtremesAttained(rs: seq<SearchResult>) returns (low: nat, high: nat)
    requires rs != []
    ensures low < |rs| && high < |rs| && rs[low].score == MinScore(rs) && rs[high].score == MaxScore(rs)
    decreases |rs|
  {
    low, high := 0, 0;
    if |rs| > 1 {
      var l, h := ExtremesAttained(rs[1..]);
      if rs[0].score > MinScore(rs[1..]) {
        low := l + 1;
      }
      if rs[0].score < MaxScore(rs[1..]) {
        high := h + 1;
      }
    }
  }

  /** Normalised scores lie in [0, 1], keep the order of the scores (all being 1 when they were all equal), and
      nothing else changes. */
  lemma NormalizedScores(rs: seq<SearchResult>, i: nat, j: nat)
    requires i < |rs| && j < |rs|
    ensures |NormalizeScores(rs)| == |rs|
    ensures 0.0 <= NormalizeScores(rs)[i].score <= 1.0
    ensures NormalizeScores(rs)[i].(score := rs[i].score) == rs[i]
    ensures rs[i].score <= rs[j].score <==>
            NormalizeScores(rs)[i].score <= NormalizeScores(rs)[j].score || MinScore(rs) == MaxScore(rs)
    ensures MinScore(rs) == MaxScore(rs) ==> NormalizeScores(rs)[i].score == 1.0
  {
    ExtremesBound(rs, i);
    ExtremesBound(rs, j);
    if MinScore(rs) < MaxScore(rs) {
      RescaledOrder(rs[i].score, rs[j].score, MinScore(rs), MaxScore(rs));
    }
  }

  /** low is a least and high a greatest score of these results. */
  predicate Extremes(rs: seq<SearchResult>, low: real, high: real) {
    && (forall i :: 0 <= i < |rs| ==> low <= rs[i].score <= high)
    && (exists i :: 0 <= i < |rs| && rs[i].score == low)
    && (exists i :: 0 <= i < |rs| && rs[i].score == high)
  }

  lemma ExtremesAre(rs: seq<SearchResult>, low: real, high: real)
    requires rs != [] && Extremes(rs, low, high)
    ensures low == MinScore(rs) && high == MaxScore(rs)
  {
    var l, h := ExtremesAttained(rs);
    var i :| 0 <= i < |rs| && rs[i].score == low;
    var j :| 0 <= j < |rs| && rs[j].score == high;
    ExtremesBound(rs, i);
    ExtremesBound(rs, j);
  }

  /** normal is the share of the way from low to high at which the score lies, and 1 if there is no way. */
  predicate OnScale(normal: real, score: real, low: real, high: real) {
    && (low < high ==> normal * (high - low) == score - low)
    && (low == high ==> normal == 1.0)
  }

  lemma RescaledOnScale(score: real, low: real, high: real)
    ensures OnScale(Rescaled(score, low, high), score, low, high)
  {
    if low < high {
      Quotient(score - low, high - low);
    }
  }

  /** Between the least and the greatest score the scale is linear: the least becomes 0, the greatest 1, and each score
      its share of the way. */
  lemma NormalizedLinearly(rs: seq<SearchResult>, low: real, high: real, i: nat)
    requires i < |rs| && Extremes(rs, low, high)
    ensures OnScale(NormalizeScores(rs)[i].score, rs[i].score, low, high)
  {
    ExtremesAre(rs, low, high);
    RescaledOnScale(rs[i].score, low, high);
  }

  // ----- Merging

  datatype Strategy = Max | Avg | Sum

  function Combine(strategy: Strategy, existing: real, score: real): real {
    match strategy
    case Max => if existing >= score then existing else score
    case Avg => (existing + score) / 2.0
    case Sum => if existing + score <= 1.0 then existing + score else 1.0
  }

  /** The scores with which an id occurs, in order. */
  function ScoresOf(rs: seq<SearchResult>, id: string): seq<real> {
    if rs == [] then []
    else
      var last := rs[|rs| - 1];
      ScoresOf(rs[..|rs| - 1], id) + (if last.id == id then [last.score] else [])
  }

  /** The scores of an id combined from left to right. */
  function Combined(strategy: Strategy, scores: seq<real>): real
    requires scores != []
  {
    if |scores| == 1 then scores[0]
    else Combine(strategy, Combined(strategy, scores[..|scores| - 1]), scores[|scores| - 1])
  }

  /** The map of results by id, with the ids in insertion order. */
  datatype ResultMap = ResultMap(order: seq<string>, values: map<string, SearchResult>)

  /** The score an id ends with: all occurrences combined, or the first when duplicates are ignored. */
  function FinalScore(rs: seq<SearchResult>, id: string, deduplicate: bool, strategy: Strategy): real
    requires ScoresOf(rs, id) != []
  {
    if deduplicate then Combined(strategy, ScoresOf(rs, id)) else ScoresOf(rs, id)[0]
  }

  /** The content with which an id occurs first. */
  function FirstContent(rs: seq<SearchResult>, id: string): string
    requires ScoresOf(rs, id) != []
  {
    var before := rs[..|rs| - 1];
    if ScoresOf(before, id) != [] then FirstContent(before, id) else rs[|rs| - 1].content
  }

  /** An entry holds what its id occurred with first, and the final score of that id. */
  ghost predicate EntryOf(entry: SearchResult, id: string, rs: seq<SearchResult>, deduplicate: bool, strategy: Strategy) {
    && entry.id == id
    && ScoresOf(rs, id) != []
    && entry.score == FinalScore(rs, id, deduplicate, strategy)
    && entry.content == FirstContent(rs, id)
  }

  ghost predicate DistinctKeys(m: ResultMap) {
    && (forall i, j :: 0 <= i < j < |m.order| ==> m.order[i] != m.order[j])
    && (forall id :: id in m.order <==> id in m.values)
  }

  /** The map after the occurrences rs: one entry per id that occurs. */
  ghost predicate MapOf(m: ResultMap, rs: seq<SearchResult>, deduplicate: bool, strategy: Strategy) {
    && DistinctKeys(m)
    && (forall id :: id in m.values ==> EntryOf(m.values[id], id, rs, deduplicate, strategy))
    && (forall id :: ScoresOf(rs, id) != [] ==> id in m.values)
  }

  /** The first result with an id gives the merged one its content, and its score where duplicates are ignored. */
  lemma {:induction false} FirstOccurrence(rs: seq<SearchResult>, id: string) returns (n: nat)
    requires ScoresOf(rs, id) != []
    ensures n < |rs| && rs[n].id == id && (forall k :: 0 <= k < n ==> rs[k].id != id)
    ensures FirstContent(rs, id) == rs[n].content && ScoresOf(rs, id)[0] == rs[n].score
    ensures forall strategy :: FinalScore(rs, id, false, strategy) == rs[n].score
    decreases |rs|
  {
    var before := rs[..|rs| - 1];
    if ScoresOf(before, id) != [] {
      n := FirstOccurrence(before, id);
      assert forall k :: 0 <= k < |before| ==> before[k] == rs[k];
    } else {
      n := |rs| - 1;
      NoOccurrence(before, id);
      assert forall k :: 0 <= k < |before| ==> before[k] == rs[k];
    }
  }

  lemma {:induction false} NoOccurrence(rs: seq<SearchResult>, id: string)
    ensures ScoresOf(rs, id) == [] <==> forall k :: 0 <= k < |rs| ==> rs[k].id != id
    decreases |rs|
  {
    if rs != [] {
      var before := rs[..|rs| - 1];
      NoOccurrence(before, id);
      assert forall k :: 0 <= k < |before| ==> before[k] == rs[k];
    }
  }

  lemma ScoresAppend(rs: seq<SearchResult>, r: SearchResult, id: string)
    ensures ScoresOf(rs + [r], id) == ScoresOf(rs, id) + (if r.id == id then [r.score] else [])
  {
    var more := rs + [r];
    assert more[..|more| - 1] == rs;
  }

  lemma FirstContentAppend(rs: seq<SearchResult>, r: SearchResult, id: string)
    requires ScoresOf(rs, id) != []
    ensures ScoresOf(rs + [r], id) != [] && FirstContent(rs + [r], id) == FirstContent(rs, id)
  {
    ScoresAppend(rs, r, id);
    assert (rs + [r])[..|rs|] == rs;
  }

  lemma CombinedAppend(strategy: Strategy, scores: seq<real>, score: real)
    requires scores != []
    ensures Combined(strategy, scores + [score]) == Combine(strategy, Combined(strategy, scores), score)
  {
    assert (scores + [score])[..|scores|] == scores;
  }

  lemma OtherEntryKept(entry: SearchResult, id: string, rs: seq<SearchResult>, r: SearchResult, deduplicate: bool,
                       strategy: Strategy)
    requires EntryOf(entry, id, rs, deduplicate, strategy) && (r.id != id || !deduplicate)
    ensures EntryOf(entry, id, rs + [r], deduplicate, strategy)
  {
    ScoresAppend(rs, r, id);
    if r.id != id {
      assert ScoresOf(rs + [r], id) == ScoresOf(rs, id);
    }
    FirstContentAppend(rs, r, id);
  }

  lemma EntryCombined(entry: SearchResult, rs: seq<SearchResult>, r: SearchResult, strategy: Strategy)
    requires EntryOf(entry, r.id, rs, true, strategy)
    ensures EntryOf(entry.(score := Combine(strategy, entry.score, r.score)), r.id, rs + [r], true, strategy)
  {
    ScoresAppend(rs, r, r.id);
    CombinedAppend(strategy, ScoresOf(rs, r.id), r.score);
    FirstContentAppend(rs, r, r.id);
  }

  lemma EntryNew(rs: seq<SearchResult>, r: SearchResult, deduplicate: bool, strategy: Strategy)
    requires ScoresOf(rs, r.id) == []
    ensures EntryOf(r, r.id, rs + [r], deduplicate, strategy)
  {
    ScoresAppend(rs, r, r.id);
    assert (rs + [r])[..|rs|] == rs;
  }

  /** The entries of other ids, and of all ids when duplicates are ignored, stay what they were. */
  lemma OthersKept(m: ResultMap, rs: seq<SearchResult>, r: SearchResult, deduplicate: bool, strategy: Strategy)
    requires MapOf(m, rs, deduplicate, strategy)
    ensures forall id :: id in m.values && (id != r.id || !deduplicate) ==>
              EntryOf(m.values[id], id, rs + [r], deduplicate, strategy)
    ensures forall id :: ScoresOf(rs + [r], id) != [] ==> id in m.values || id == r.id
  {
    forall id | id in m.values && (id != r.id || !deduplicate)
      ensures EntryOf(m.values[id], id, rs + [r], deduplicate, strategy)
    {
      OtherEntryKept(m.values[id], id, rs, r, deduplicate, strategy);
    }
    forall id | ScoresOf(rs + [r], id) != [] ensures id in m.values || id == r.id {
      ScoresAppend(rs, r, id);
    }
  }

  function Inserted(m: ResultMap, r: SearchResult): ResultMap {
    ResultMap(m.order + [r.id], m.values[r.id := r])
  }

  lemma InsertedKeys(m: ResultMap, r: SearchResult)
    requires DistinctKeys(m) && r.id !in m.values
    ensures DistinctKeys(Inserted(m, r))
  {
    var order := m.order + [r.id];
    assert forall id :: id in order <==> id in m.order || id == r.id;
  }

  lemma InsertedMap(m: ResultMap, rs: seq<SearchResult>, r: SearchResult, deduplicate: bool, strategy: Strategy)
    requires MapOf(m, rs, deduplicate, strategy) && r.id !in m.values
    ensures MapOf(Inserted(m, r), rs + [r], deduplicate, strategy)
  {
    InsertedKeys(m, r);
    OthersKept(m, rs, r, deduplicate, strategy);
    EntryNew(rs, r, deduplicate, strategy);
    var m' := Inserted(m, r);
    forall id | id in m'.values ensures EntryOf(m'.values[id], id, rs + [r], deduplicate, strategy) {
      if id != r.id {
        assert m'.values[id] == m.values[id];
      }
    }
  }

  function Recombined(m: ResultMap, r: SearchResult, strategy: Strategy): ResultMap
    requires r.id in m.values
  {
    var existing := m.values[r.id];
    m.(values := m.values[r.id := existing.(score := Combine(strategy, existing.score, r.score))])
  }

  lemma RecombinedMap(m: ResultMap, rs: seq<SearchResult>, r: SearchResult, strategy: Strategy)
    requires MapOf(m, rs, true, strategy) && r.id in m.values
    ensures MapOf(Recombined(m, r, strategy), rs + [r], true, strategy)
  {
    OthersKept(m, rs, r, true, strategy);
    EntryCombined(m.values[r.id], rs, r, strategy);
    var m' := Recombined(m, r, strategy);
    assert m'.values.Keys == m.values.Keys;
    forall id | id in m'.values ensures EntryOf(m'.values[id], id, rs + [r], true, strategy) {
      if id != r.id {
        assert m'.values[id] == m.values[id];
      }
    }
  }

  /** One round: a new id is inserted, a known one combined or ignored. */
  method AddResult(m: ResultMap, result: SearchResult, deduplicate: bool, strategy: Strategy, ghost rs: seq<SearchResult>)
    returns (m': ResultMap)
    requires MapOf(m, rs, deduplicate, strategy)
    ensures MapOf(m', rs + [result], deduplicate, strategy)
  {
    if result.id !in m.values {
      m' := ResultMap(m.order + [result.id], m.values[result.id := result]);
      InsertedMap(m, rs, result, deduplicate, strategy);
    } else if deduplicate {
      var existing := m.values[result.id];
      m' := m.(values := m.values[result.id := existing.(score := Combine(strategy, existing.score, result.score))]);
      RecombinedMap(m, rs, result, strategy);
    } else {
      m' := m;
      OthersKept(m, rs, result, deduplicate, strategy);
    }
  }

  /** A merged answer: unique ids, sorted by descending score, one result per id that some query returned. */
  ghost predicate Merged(out: seq<SearchResult>, rs: seq<SearchResult>, deduplicate: bool, strategy: Strategy) {
    && Descending(out)
    && (forall i, j :: 0 <= i < j < |out| ==> out[i].id != out[j].id)
    && (forall i :: 0 <= i < |out| ==>
          EntryOf(out[i], out[i].id, rs, deduplicate, strategy))
    && (forall id :: ScoresOf(rs, id) != [] ==> exists i :: 0 <= i < |out| && out[i].id == id)
  }

  function Listed(m: ResultMap): seq<SearchResult>
    requires forall id :: id in m.order ==> id in m.values
  {
    seq(|m.order|, i requires 0 <= i < |m.order| => m.values[m.order[i]])
  }

  /** The results of all queries, normalised, in the order in which they are merged. */
  function AllNormalized(found: seq<seq<SearchResult>>): seq<SearchResult> {
    Flatten(seq(|found|, i requires 0 <= i < |found| => NormalizeScores(found[i])))
  }

  /** The inner loop: the results of one query. */
  method AddResults(m: ResultMap, results: seq<SearchResult>, deduplicate: bool, strategy: Strategy,
                    ghost before: seq<SearchResult>)
    returns (m': ResultMap)
    requires MapOf(m, before, deduplicate, strategy)
    ensures MapOf(m', before + results, deduplicate, strategy)
  {
    m' := m;
    assert before + results[..0] == before;
    for j := 0 to |results|
      invariant MapOf(m', before + results[..j], deduplicate, strategy)
    {
      m' := AddResult(m', results[j], deduplicate, strategy, before + results[..j]);
      assert before + results[..j] + [results[j]] == before + results[..j + 1];
    }
    assert results[..|results|] == results;
  }

  method MultiQuerySearch(found: seq<seq<SearchResult>>, deduplicate: bool, strategy: Strategy)
    returns (out: seq<SearchResult>)
    ensures Merged(out, AllNormalized(found), deduplicate, strategy)
  {
    var allResults := seq(|found|, i requires 0 <= i < |found| => NormalizeScores(found[i]));
    var m := ResultMap([], map[]);
    for i := 0 to |allResults|
      invariant MapOf(m, Flatten(allResults[..i]), deduplicate, strategy)
    {
      m := AddResults(m, allResults[i], deduplicate, strategy, Flatten(allResults[..i]));
      assert allResults[..i + 1][..i] == allResults[..i];
    }
    assert allResults[..|allResults|] == allResults;
    out := SortByScore(Listed(m));
    ListedMerged(m, AllNormalized(found), deduplicate, strategy);
  }

  lemma ListedEntries(m: ResultMap, out: seq<SearchResult>, rs: seq<SearchResult>, deduplicate: bool, strategy: Strategy)
    requires MapOf(m, rs, deduplicate, strategy) && multiset(out) == multiset(Listed(m))
    ensures forall i :: 0 <= i < |out| ==> EntryOf(out[i], out[i].id, rs, deduplicate, strategy)
  {
    var listed := Listed(m);
    forall i | 0 <= i < |out| ensures EntryOf(out[i], out[i].id, rs, deduplicate, strategy) {
      assert out[i] in multiset(listed);
      var k :| 0 <= k < |listed| && listed[k] == out[i];
      assert EntryOf(m.values[m.order[k]], m.order[k], rs, deduplicate, strategy);
    }
  }

  lemma ListedDistinct(m: ResultMap, rs: seq<SearchResult>, deduplicate: bool, strategy: Strategy)
    requires MapOf(m, rs, deduplicate, strategy)
    ensures forall k :: 0 <= k < |m.order| ==> Listed(m)[k].id == m.order[k]
    ensures forall i, j :: 0 <= i < j < |m.order| ==> Listed(m)[i].id != Listed(m)[j].id
  {
    forall k | 0 <= k < |m.order| ensures Listed(m)[k].id == m.order[k] {
      assert EntryOf(m.values[m.order[k]], m.order[k], rs, deduplicate, strategy);
    }
  }

  lemma ListedMerged(m: ResultMap, rs: seq<SearchResult>, deduplicate: bool, strategy: Strategy)
    requires MapOf(m, rs, deduplicate, strategy)
    ensures Merged(SortByScore(Listed(m)), rs, deduplicate, strategy)
  {
    var listed, out := Listed(m), SortByScore(Listed(m));
    SortIsStable(listed, 0.0);
    ListedDistinct(m, rs, deduplicate, strategy);
    ListedEntries(m, out, rs, deduplicate, strategy);
    forall i, j | 0 <= i < j < |out| ensures out[i].id != out[j].id {
      DistinctAfterSort(listed, out, i, j);
    }
    forall id | ScoresOf(rs, id) != [] ensures exists i :: 0 <= i < |out| && out[i].id == id {
      FoundAfterSort(m, listed, out, id);
    }
  }

  lemma FoundAfterSort(m: ResultMap, listed: seq<SearchResult>, out: seq<SearchResult>, id: string)
    requires multiset(listed) == multiset(out) && |listed| == |m.order| && id in m.order
    requires forall k :: 0 <= k < |m.order| ==> listed[k].id == m.order[k]
    ensures exists i :: 0 <= i < |out| && out[i].id == id
  {
    var k :| 0 <= k < |m.order| && m.order[k] == id;
    assert listed[k] in multiset(out);
    var i :| 0 <= i < |out| && out[i] == listed[k];
  }

  /** Ids that are distinct stay distinct under sorting. */
  lemma DistinctAfterSort(listed: seq<SearchResult>, out: seq<SearchResult>, i: nat, j: nat)
    requires multiset(listed) == multiset(out) && i < j < |out|
    requires forall a, b :: 0 <= a < b < |listed| ==> listed[a].id != listed[b].id
    ensures out[i].id != out[j].id
  {
    if out[i] == out[j] {
      assert out == out[..i] + [out[i]] + out[i + 1..j] + [out[j]] + out[j + 1..];
      CountOnce(listed, out[i]);
    }
    assert out[i] in multiset(listed) && out[j] in multiset(listed);
    var a :| 0 <= a < |listed| && listed[a] == out[i];
    var b :| 0 <= b < |listed| && listed[b] == out[j];
  }

  // ----- What the strategies compute

  function Total(scores: seq<real>): real {
    if scores == [] then 0.0 else Total(scores[..|scores| - 1]) + scores[|scores| - 1]
  }

  /** 'max' yields the true maximum. */
  lemma {:induction false} CombinedMax(scores: seq<real>)
    requires scores != []
    ensures Combined(Max, scores) in scores
    ensures forall s :: s in scores ==> s <= Combined(Max, scores)
    decreases |scores|
  {
    if |scores| > 1 {
      var n := |scores| - 1;
      CombinedMax(scores[..n]);
      assert scores == scores[..n] + [scores[n]];
    }
  }

  /** 'sum' yields the total, capped at 1, for scores in [0, 1]. */
  lemma {:induction false} CombinedSum(scores: seq<real>)
    requires scores != [] && forall s :: s in scores ==> 0.0 <= s <= 1.0
    ensures Combined(Sum, scores) == if Total(scores) <= 1.0 then Total(scores) else 1.0
    decreases |scores|
  {
    var n := |scores| - 1;
    if n > 0 {
      assert scores[n] in scores && forall s :: s in scores[..n] ==> s in scores;
      CombinedSum(scores[..n]);
    } else {
      assert scores[..0] == [] && scores[0] in scores;
      assert Total(scores) == Total([]) + scores[0];
    }
  }

  lemma {:induction false} ScoresConcat(a: seq<SearchResult>, b: seq<SearchResult>, id: string)
    ensures ScoresOf(a + b, id) == ScoresOf(a, id) + ScoresOf(b, id)
    decreases |b|
  {
    if b == [] {
      assert a + b == a;
    } else {
      var n := |b| - 1;
      assert (a + b)[..|a + b| - 1] == a + b[..n];
      ScoresConcat(a, b[..n], id);
    }
  }

  lemma {:induction false} ScoresInRange(rs: seq<SearchResult>, id: string)
    requires forall i :: 0 <= i < |rs| ==> 0.0 <= rs[i].score <= 1.0
    ensures forall s :: s in ScoresOf(rs, id) ==> 0.0 <= s <= 1.0
    decreases |rs|
  {
    if rs != [] {
      ScoresInRange(rs[..|rs| - 1], id);
    }
  }

  lemma {:induction false} FlattenInRange(lists: seq<seq<SearchResult>>)
    requires forall i, j :: 0 <= i < |lists| && 0 <= j < |lists[i]| ==> 0.0 <= lists[i][j].score <= 1.0
    ensures forall k :: 0 <= k < |Flatten(lists)| ==> 0.0 <= Flatten(lists)[k].score <= 1.0
    decreases |lists|
  {
    if lists != [] {
      var n := |lists| - 1;
      FlattenInRange(lists[..n]);
    }
  }
}
