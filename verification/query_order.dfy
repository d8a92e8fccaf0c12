/**
 Whether the order of the queries matters to a merged answer: it does not to 'max' and 'sum', and to 'avg' of
 src/vector-db/services/retrieval.service.ts it does except where an id occurs at most twice or always alike.
 */
module QueryOrder {
  import opened Common
  import opened Permutations
  import opened SearchResults
  import opened RetrievalMerge

  // ----- Sums of scores

  lemma {:induction false} TotalRemove(scores: seq<real>, i: nat)
    requires i < |scores|
    ensures Total(scores) == Total(Without(scores, i)) + scores[i]
    decreases |scores|
  {
    WithoutLast(scores, i);
    if i < |scores| - 1 {
      TotalRemove(scores[..|scores| - 1], i);
    }
  }

  lemma {:induction false} TotalPermuted(a: seq<real>, b: seq<real>)
    requires multiset(a) == multiset(b)
    ensures Total(a) == Total(b)
    decreases |a|
  {
    SameMembers(a, b);
    if a != [] {
      var n := |a| - 1;
      var i := LastMatched(a, b);
      TotalRemove(b, i);
      TotalPermuted(a[..n], Without(b, i));
    }
  }

  // ----- The scores of an id, query by query

  /** The scores of an id in the answer to one query, normalised. */
  function QueryScores(found: seq<SearchResult>, id: string): seq<real> {
    ScoresOf(NormalizeScores(found), id)
  }

  /** All its scores, in the order in which they are merged. */
  function AllScores(found: seq<seq<SearchResult>>, id: string): seq<real> {
    ScoresOf(AllNormalized(found), id)
  }

  function Parts(found: seq<seq<SearchResult>>, id: string): seq<seq<real>> {
    seq(|found|, i requires 0 <= i < |found| => QueryScores(found[i], id))
  }

  lemma AllScoresAppend(found: seq<seq<SearchResult>>, last: seq<SearchResult>, id: string)
    ensures AllScores(found + [last], id) == AllScores(found, id) + QueryScores(last, id)
  {
    var all := found + [last];
    var normalized: seq<seq<SearchResult>> := seq(|all|, i requires 0 <= i < |all| => NormalizeScores(all[i]));
    assert normalized[..|found|] == seq(|found|, i requires 0 <= i < |found| => NormalizeScores(found[i]));
    ScoresConcat(AllNormalized(found), NormalizeScores(last), id);
  }

  lemma {:induction false} AllScoresByQuery(found: seq<seq<SearchResult>>, id: string)
    ensures AllScores(found, id) == Flatten(Parts(found, id))
    decreases |found|
  {
    if found != [] {
      var init, last := found[..|found| - 1], found[|found| - 1];
      assert found == init + [last];
      AllScoresByQuery(init, id);
      AllScoresAppend(init, last, id);
      assert Parts(found, id)[..|init|] == Parts(init, id);
    }
  }

  lemma {:induction false} FlattenRemove<T>(lists: seq<seq<T>>, i: nat)
    requires i < |lists|
    ensures multiset(Flatten(lists)) == multiset(Flatten(Without(lists, i))) + multiset(lists[i])
    decreases |lists|
  {
    WithoutLast(lists, i);
    if i < |lists| - 1 {
      FlattenRemove(lists[..|lists| - 1], i);
    }
  }

  /** Reordering lists only reorders their elements. */
  lemma {:induction false} FlattenPermuted<T>(a: seq<seq<T>>, b: seq<seq<T>>)
    requires multiset(a) == multiset(b)
    ensures multiset(Flatten(a)) == multiset(Flatten(b))
    decreases |a|
  {
    SameMembers(a, b);
    if a != [] {
      var n := |a| - 1;
      var i := LastMatched(a, b);
      FlattenRemove(b, i);
      FlattenPermuted(a[..n], Without(b, i));
    }
  }

  lemma PartsWithout(found: seq<seq<SearchResult>>, i: nat, id: string)
    requires i < |found|
    ensures multiset(Parts(found, id)) == multiset(Parts(Without(found, i), id)) + multiset{QueryScores(found[i], id)}
  {
    assert Parts(Without(found, i), id) == Without(Parts(found, id), i);
    MultisetWithout(Parts(found, id), i);
  }

  /** If the shorter parts are permutations of each other, so are these. */
  lemma PartsExtended(a: seq<seq<SearchResult>>, b: seq<seq<SearchResult>>, i: nat, id: string)
    requires a != [] && i < |b| && b[i] == a[|a| - 1]
    requires multiset(Parts(a[..|a| - 1], id)) == multiset(Parts(Without(b, i), id))
    ensures multiset(Parts(a, id)) == multiset(Parts(b, id))
  {
    WithoutLast(a, |a| - 1);
    PartsWithout(a, |a| - 1, id);
    PartsWithout(b, i, id);
  }

  lemma {:induction false} PartsPermuted(a: seq<seq<SearchResult>>, b: seq<seq<SearchResult>>, id: string)
    requires multiset(a) == multiset(b)
    ensures multiset(Parts(a, id)) == multiset(Parts(b, id))
    decreases |a|
  {
    if a == [] {
      assert multiset(b) == multiset{};
    } else {
      var i := LastMatched(a, b);
      PartsPermuted(a[..|a| - 1], Without(b, i), id);
      PartsExtended(a, b, i, id);
    }
  }

  /** Reordering the queries only reorders the scores of each id. */
  lemma AllScoresPermuted(a: seq<seq<SearchResult>>, b: seq<seq<SearchResult>>, id: string)
    requires multiset(a) == multiset(b)
    ensures multiset(AllScores(a, id)) == multiset(AllScores(b, id))
    ensures |AllScores(a, id)| == |AllScores(b, id)|
  {
    AllScoresByQuery(a, id);
    AllScoresByQuery(b, id);
    PartsPermuted(a, b, id);
    FlattenPermuted(Parts(a, id), Parts(b, id));
    SameMembers(AllScores(a, id), AllScores(b, id));
  }

  // ----- It does not matter to 'max' and 'sum'

  lemma CombinedPermuted(a: seq<real>, b: seq<real>, strategy: Strategy)
    requires multiset(a) == multiset(b) && a != [] && b != [] && strategy != Avg
    requires forall s :: s in a ==> 0.0 <= s <= 1.0
    ensures Combined(strategy, a) == Combined(strategy, b)
  {
    SameMembers(a, b);
    if strategy == Max {
      CombinedMax(a);
      CombinedMax(b);
    } else {
      CombinedSum(a);
      CombinedSum(b);
      TotalPermuted(a, b);
    }
  }

  lemma AllInRange(found: seq<seq<SearchResult>>, id: string)
    ensures forall s :: s in AllScores(found, id) ==> 0.0 <= s <= 1.0
  {
    var ns: seq<seq<SearchResult>> := seq(|found|, i requires 0 <= i < |found| => NormalizeScores(found[i]));
    forall i, j | 0 <= i < |ns| && 0 <= j < |ns[i]| ensures 0.0 <= ns[i][j].score <= 1.0 {
      NormalizedScores(found[i], j, j);
    }
    FlattenInRange(ns);
    ScoresInRange(AllNormalized(found), id);
  }

  /** With 'max' and 'sum' the merged score of every id, and which ids appear, do not depend on the order of
      the queries. */
  lemma QueryOrderIrrelevant(a: seq<seq<SearchResult>>, b: seq<seq<SearchResult>>, id: string, strategy: Strategy)
    requires multiset(a) == multiset(b) && strategy != Avg
    ensures AllScores(a, id) == [] <==> AllScores(b, id) == []
    ensures AllScores(a, id) != [] ==>
              FinalScore(AllNormalized(a), id, true, strategy) == FinalScore(AllNormalized(b), id, true, strategy)
  {
    AllScoresPermuted(a, b, id);
    AllInRange(a, id);
    if AllScores(a, id) != [] {
      CombinedPermuted(AllScores(a, id), AllScores(b, id), strategy);
    }
  }

  // ----- It matters to 'avg': the average of a list of scores

  lemma AverageAppend(scores: seq<real>, score: real)
    requires scores != []
    ensures Combined(Avg, scores + [score]) == (Combined(Avg, scores) + score) / 2.0
  {
    CombinedAppend(Avg, scores, score);
  }

  /** A change in the direction of d, by at most half of it. */
  predicate WithinHalf(change: real, d: real) {
    (d >= 0.0 ==> 0.0 <= change <= d / 2.0) && (d <= 0.0 ==> d / 2.0 <= change <= 0.0)
  }

  /** Changing one of several scores moves their average the same way, but at most half as far. */
  lemma {:induction false} AverageShift(scores: seq<real>, i: nat, y: real)
    requires |scores| >= 2 && i < |scores|
    ensures WithinHalf(Combined(Avg, scores[i := y]) - Combined(Avg, scores), y - scores[i])
    decreases |scores|
  {
    var n := |scores| - 1;
    var init, last, changed := scores[..n], scores[n], scores[i := y];
    assert scores == init + [last];
    AverageAppend(init, last);
    if i == n {
      assert changed == init + [y];
      AverageAppend(init, y);
    } else {
      assert changed == init[i := y] + [last];
      AverageAppend(init[i := y], last);
      if n > 1 {
        AverageShift(init, i, y);
      }
    }
  }

  function Exchanged<T>(s: seq<T>, i: nat): seq<T>
    requires i < |s|
  {
    s[i := s[|s| - 1]][|s| - 1 := s[i]]
  }

  lemma ExchangedParts<T>(s: seq<T>, i: nat)
    requires i < |s| - 1
    ensures var n, t := |s| - 1, Exchanged(s, i);
            t[..n] == s[..n][i := s[n]] && t == s[..n][i := s[n]] + [s[i]] && s == s[..n] + [s[n]]
  {
  }

  lemma ExchangePermutes<T>(s: seq<T>, i: nat)
    requires i < |s|
    ensures multiset(Exchanged(s, i)) == multiset(s)
  {
  }

  /** Exchanging the last of at least three scores changes their average exactly if it differs from the other. */
  lemma ExchangeChangesAverage(scores: seq<real>, i: nat)
    requires |scores| >= 3 && i < |scores| - 1
    ensures Combined(Avg, Exchanged(scores, i)) == Combined(Avg, scores) <==> scores[i] == scores[|scores| - 1]
  {
    var n := |scores| - 1;
    var init, x, y := scores[..n], scores[i], scores[n];
    ExchangedParts(scores, i);
    AverageShift(init, i, y);
    AverageAppend(init, y);
    AverageAppend(init[i := y], x);
  }

  ghost predicate AllEqual(scores: seq<real>) {
    forall i, j :: 0 <= i < |scores| && 0 <= j < |scores| ==> scores[i] == scores[j]
  }

  /** The scores are too few, or too much alike, for their order to matter to the average. */
  ghost predicate OrderFree(scores: seq<real>) {
    |scores| <= 2 || AllEqual(scores)
  }

  lemma AverageOfTwo(scores: seq<real>)
    requires |scores| == 2
    ensures Combined(Avg, scores) == Total(scores) / 2.0
  {
    var first, last := scores[..1], scores[1];
    assert scores == first + [last] && first[..0] == [];
    AverageAppend(first, last);
    assert Total(first) == Total([]) + first[0];
  }

  lemma OneOrTwo(a: seq<real>, b: seq<real>)
    requires multiset(a) == multiset(b) && |a| == |b| && 1 <= |a| <= 2
    ensures Combined(Avg, a) == Combined(Avg, b)
  {
    if |a| == 1 {
      assert b[0] in multiset(a);
      assert a[0] == b[0];
    } else {
      AverageOfTwo(a);
      AverageOfTwo(b);
      TotalPermuted(a, b);
    }
  }

  lemma OrderFreePermuted(a: seq<real>, b: seq<real>)
    requires multiset(a) == multiset(b) && a != [] && OrderFree(a)
    ensures |b| == |a| && Combined(Avg, a) == Combined(Avg, b)
  {
    SameMembers(a, b);
    if AllEqual(a) {
      forall i | 0 <= i < |a| ensures a[i] == b[i] {
        assert b[i] in a;
      }
      assert a == b;
    } else {
      OneOrTwo(a, b);
    }
  }

  /** Some score differs from the last one, unless all are equal. */
  lemma DiffersFromLast(scores: seq<real>) returns (i: nat)
    requires !AllEqual(scores)
    ensures i < |scores| - 1 && scores[i] != scores[|scores| - 1]
  {
    var j, k :| 0 <= j < |scores| && 0 <= k < |scores| && scores[j] != scores[k];
    i := if scores[j] != scores[|scores| - 1] then j else k;
  }

  /** Averaging pairwise from left to right gives the same for every order of the scores exactly when there are at
      most two of them or they are all equal. */
  lemma AverageOrderFreeIff(scores: seq<real>)
    requires scores != []
    ensures (forall p :: multiset(p) == multiset(scores) && p != [] ==> Combined(Avg, p) == Combined(Avg, scores))
            <==> OrderFree(scores)
  {
    if OrderFree(scores) {
      forall p | multiset(p) == multiset(scores) && p != [] ensures Combined(Avg, p) == Combined(Avg, scores) {
        OrderFreePermuted(scores, p);
      }
    } else {
      var i := DiffersFromLast(scores);
      var p := Exchanged(scores, i);
      ExchangePermutes(scores, i);
      ExchangeChangesAverage(scores, i);
      assert multiset(p) == multiset(scores) && Combined(Avg, p) != Combined(Avg, scores);
    }
  }

  // ----- The average over queries

  lemma {:induction false} LengthFlattened<T>(parts: seq<seq<T>>, j: nat, y: T)
    requires j < |parts| && |parts[j]| == 1
    ensures |Flatten(parts[j := [y]])| == |Flatten(parts)|
    decreases |parts|
  {
    var n := |parts| - 1;
    if j < n {
      assert parts[j := [y]][..n] == parts[..n][j := [y]];
      LengthFlattened(parts[..n], j, y);
    } else {
      assert parts[j := [y]][..n] == parts[..n];
    }
  }

  /** A part of one element, and what replacing that element does. */
  lemma {:induction false} PartReplaced<T>(parts: seq<seq<T>>, j: nat, y: T)
    requires j < |parts| && |parts[j]| == 1
    ensures var at, all := |Flatten(parts[..j])|, Flatten(parts);
            at < |all| && all[at] == parts[j][0] && Flatten(parts[j := [y]]) == all[at := y]
    decreases |parts|
  {
    var n := |parts| - 1;
    var replaced := parts[j := [y]];
    if j < n {
      assert replaced[..n] == parts[..n][j := [y]] && parts[..n][..j] == parts[..j];
      PartReplaced(parts[..n], j, y);
    } else {
      assert replaced[..n] == parts[..n];
    }
  }

  /** Replacing a part by one of the same length leaves the others where they are. */
  lemma PlaceKept<T>(parts: seq<seq<T>>, j: nat, y: T, k: nat)
    requires j < |parts| && |parts[j]| == 1 && k <= |parts|
    ensures |Flatten(parts[j := [y]][..k])| == |Flatten(parts[..k])|
  {
    if j < k {
      assert parts[j := [y]][..k] == parts[..k][j := [y]];
      LengthFlattened(parts[..k], j, y);
    } else {
      assert parts[j := [y]][..k] == parts[..k];
    }
  }

  /** The part an element comes from, when no part has more than one. */
  lemma {:induction false} PartOf<T>(parts: seq<seq<T>>, i: nat) returns (j: nat)
    requires (forall p :: 0 <= p < |parts| ==> |parts[p]| <= 1) && i < |Flatten(parts)|
    ensures j < |parts| && |parts[j]| == 1 && |Flatten(parts[..j])| == i
    decreases |parts|
  {
    var n := |parts| - 1;
    if i < |Flatten(parts[..n])| {
      j := PartOf(parts[..n], i);
      assert parts[..n][..j] == parts[..j];
    } else {
      j := n;
    }
  }

  /** Exchanging two parts of one element exchanges the elements. */
  lemma PartsExchanged<T>(parts: seq<seq<T>>, j: nat, k: nat, i: nat)
    requires j < |parts| && k < |parts| && |parts[j]| == |parts[k]| == 1 && j != k
    requires |Flatten(parts[..j])| == i && |Flatten(parts[..k])| == |Flatten(parts)| - 1
    ensures i < |Flatten(parts)|
    ensures Flatten(Swapped(parts, j, k)) == Exchanged(Flatten(parts), i)
  {
    var x, y, all := parts[j][0], parts[k][0], Flatten(parts);
    assert parts[j] == [x] && parts[k] == [y];
    PartReplaced(parts, j, y);
    PartReplaced(parts, k, y);
    PlaceKept(parts, j, y, k);
    PartReplaced(parts[j := [y]], k, x);
  }

  ghost predicate SameAverage(a: seq<seq<SearchResult>>, b: seq<seq<SearchResult>>, id: string) {
    && AllScores(a, id) != [] && AllScores(b, id) != []
    && FinalScore(AllNormalized(a), id, true, Avg) == FinalScore(AllNormalized(b), id, true, Avg)
  }

  /** Where an id occurs at most twice or always alike, the order of the queries does not matter. */
  lemma AverageKept(a: seq<seq<SearchResult>>, b: seq<seq<SearchResult>>, id: string)
    requires multiset(a) == multiset(b) && AllScores(a, id) != [] && OrderFree(AllScores(a, id))
    ensures SameAverage(a, b, id)
  {
    AllScoresPermuted(a, b, id);
    OrderFreePermuted(AllScores(a, id), AllScores(b, id));
  }

  function Swapped<T>(s: seq<T>, j: nat, k: nat): seq<T>
    requires j < |s| && k < |s|
  {
    s[j := s[k]][k := s[j]]
  }

  lemma SwapPermutes<T>(s: seq<T>, j: nat, k: nat)
    requires j < |s| && k < |s|
    ensures multiset(Swapped(s, j, k)) == multiset(s)
  {
  }

  lemma PartsSwapped(found: seq<seq<SearchResult>>, id: string, j: nat, k: nat)
    requires j < |found| && k < |found|
    ensures Parts(Swapped(found, j, k), id) == Swapped(Parts(found, id), j, k)
  {
  }

  /** Two parts whose exchange changes the average of all. */
  lemma PartsThatMatter(parts: seq<seq<real>>) returns (j: nat, k: nat)
    requires forall p :: 0 <= p < |parts| ==> |parts[p]| <= 1
    requires !OrderFree(Flatten(parts))
    ensures j < |parts| && k < |parts| && Flatten(Swapped(parts, j, k)) != []
    ensures Combined(Avg, Flatten(Swapped(parts, j, k))) != Combined(Avg, Flatten(parts))
  {
    var scores := Flatten(parts);
    var i := DiffersFromLast(scores);
    j := PartOf(parts, i);
    k := PartOf(parts, |scores| - 1);
    PartsExchanged(parts, j, k, i);
    ExchangeChangesAverage(scores, i);
  }

  /** Elsewhere it does: exchanging the last query that returns it with one that scores it differently changes its
      merged score. */
  lemma AverageChanged(found: seq<seq<SearchResult>>, id: string) returns (other: seq<seq<SearchResult>>)
    requires forall i :: 0 <= i < |found| ==> |QueryScores(found[i], id)| <= 1
    requires AllScores(found, id) != [] && !OrderFree(AllScores(found, id))
    ensures multiset(other) == multiset(found) && !SameAverage(other, found, id)
  {
    AllScoresByQuery(found, id);
    var j, k := PartsThatMatter(Parts(found, id));
    other := Swapped(found, j, k);
    SwapPermutes(found, j, k);
    PartsSwapped(found, id, j, k);
    AllScoresByQuery(other, id);
  }

  /** When every query returns an id at most once, as a search does, its average is the same for every order of the
      queries exactly when it occurs at most twice or always with the same normalised score. */
  lemma AverageQueryOrderIff(found: seq<seq<SearchResult>>, id: string)
    requires forall i :: 0 <= i < |found| ==> |QueryScores(found[i], id)| <= 1
    requires AllScores(found, id) != []
    ensures (forall other :: multiset(other) == multiset(found) ==> SameAverage(other, found, id))
            <==> OrderFree(AllScores(found, id))
  {
    if OrderFree(AllScores(found, id)) {
      forall other | multiset(other) == multiset(found) ensures SameAverage(other, found, id) {
        AverageKept(found, other, id);
      }
    } else {
      var other := AverageChanged(found, id);
    }
  }

  // ----- Three queries whose order decides

  const RANKED_LOW := [SearchResult("a", 0.2, "x"), SearchResult("b", 0.7, "y")]
  const RANKED_HIGH := [SearchResult("a", 0.9, "x"), SearchResult("b", 0.4, "y")]

  /** Depending on the order of these queries, 'avg' makes 0.5 or 0.25 of "a". */
  lemma AverageDependsOnOrder()
    ensures QueryScores(RANKED_LOW, "a") == [0.0] && QueryScores(RANKED_HIGH, "a") == [1.0]
    ensures var one, two := [RANKED_LOW, RANKED_LOW, RANKED_HIGH], [RANKED_HIGH, RANKED_LOW, RANKED_LOW];
            && multiset(one) == multiset(two)
            && AllScores(one, "a") == [0.0, 0.0, 1.0] && AllScores(two, "a") == [1.0, 0.0, 0.0]
            && FinalScore(AllNormalized(one), "a", true, Avg) == 0.5
            && FinalScore(AllNormalized(two), "a", true, Avg) == 0.25
  {
    OneOfTwo(RANKED_LOW);
    OneOfTwo(RANKED_HIGH);
    ThreeQueries(RANKED_LOW, RANKED_LOW, RANKED_HIGH, "a");
    ThreeQueries(RANKED_HIGH, RANKED_LOW, RANKED_LOW, "a");
    AverageOfThree(0.0, 0.0, 1.0);
    AverageOfThree(1.0, 0.0, 0.0);
  }

  lemma AverageOfThree(x: real, y: real, z: real)
    ensures Combined(Avg, [x, y, z]) == ((x + y) / 2.0 + z) / 2.0
  {
    AverageAppend([x], y);
    AverageAppend([x, y], z);
    assert [x] + [y] == [x, y] && [x, y] + [z] == [x, y, z];
  }

  lemma FirstOfTwo(rs: seq<SearchResult>)
    requires |rs| == 2 && rs[0].id != rs[1].id
    ensures ScoresOf(rs, rs[0].id) == [rs[0].score]
  {
    var id := rs[0].id;
    assert rs == ([] + [rs[0]]) + [rs[1]];
    ScoresAppend([], rs[0], id);
    ScoresAppend([] + [rs[0]], rs[1], id);
  }

  /** Of two results with different scores the first is normalised to 0 or 1. */
  lemma OneOfTwo(rs: seq<SearchResult>)
    requires |rs| == 2 && rs[0].id != rs[1].id && rs[0].score != rs[1].score
    ensures QueryScores(rs, rs[0].id) == [if rs[0].score < rs[1].score then 0.0 else 1.0]
  {
    FirstNormalized(rs);
    FirstOfTwo(NormalizeScores(rs));
  }

  lemma FirstNormalized(rs: seq<SearchResult>)
    requires |rs| == 2 && rs[0].score != rs[1].score
    ensures NormalizeScores(rs)[0].score == if rs[0].score < rs[1].score then 0.0 else 1.0
  {
    var x, y := rs[0].score, rs[1].score;
    assert MinScore(rs[1..]) == MaxScore(rs[1..]) == y;
    if x < y {
      assert MinScore(rs) == x && MaxScore(rs) == y;
      assert (x - x) / (y - x) == 0.0;
    } else {
      assert MinScore(rs) == y && MaxScore(rs) == x;
      assert (x - y) / (x - y) == 1.0;
    }
  }

  lemma FlattenThree<T>(a: seq<T>, b: seq<T>, c: seq<T>)
    ensures Flatten([a, b, c]) == a + b + c
  {
    assert [a, b, c][..2] == [a, b] && [a, b][..1] == [a];
    assert Flatten([a]) == [] + a;
  }

  lemma ThreeQueries(a: seq<SearchResult>, b: seq<SearchResult>, c: seq<SearchResult>, id: string)
    ensures AllScores([a, b, c], id) == QueryScores(a, id) + QueryScores(b, id) + QueryScores(c, id)
  {
    var found := [a, b, c];
    AllScoresByQuery(found, id);
    ThreeParts(found, id);
    FlattenThree(QueryScores(a, id), QueryScores(b, id), QueryScores(c, id));
  }

  lemma ThreeParts(found: seq<seq<SearchResult>>, id: string)
    requires |found| == 3
    ensures Parts(found, id) == [QueryScores(found[0], id), QueryScores(found[1], id), QueryScores(found[2], id)]
  {
  }
}
