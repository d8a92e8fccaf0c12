/**
 Search results and their stable sort by descending score, `sort((a, b) => b.score - a.score)`, which both
 src/vector-db/services/context-assembly.service.ts and src/vector-db/services/retrieval.service.ts use.
 */
module SearchResults {
  datatype SearchResult = SearchResult(id: string, score: real, content: string)

  ghost predicate Descending(rs: seq<SearchResult>) {
    forall i, j :: 0 <= i < j < |rs| ==> rs[i].score >= rs[j].score
  }

  function InsertByScore(r: SearchResult, sorted: seq<SearchResult>): seq<SearchResult> {
    if sorted == [] || sorted[0].score <= r.score then [r] + sorted
    else [sorted[0]] + InsertByScore(r, sorted[1..])
  }

  /** The stable sort by descending score. */
  function SortByScore(rs: seq<SearchResult>): seq<SearchResult> {
    if rs == [] then [] else InsertByScore(rs[0], SortByScore(rs[1..]))
  }

  function WithScore(rs: seq<SearchResult>, score: real): seq<SearchResult> {
    if rs == [] then []
    else (if rs[0].score == score then [rs[0]] else []) + WithScore(rs[1..], score)
  }

  lemma {:induction false} InsertPermutes(r: SearchResult, sorted: seq<SearchResult>)
    ensures multiset(InsertByScore(r, sorted)) == multiset(sorted) + multiset{r}
    decreases |sorted|
  {
    if sorted != [] {
      InsertPermutes(r, sorted[1..]);
      assert sorted == [sorted[0]] + sorted[1..];
    }
  }

  lemma {:induction false} InsertSorted(r: SearchResult, sorted: seq<SearchResult>)
    requires Descending(sorted)
    ensures Descending(InsertByScore(r, sorted))
    ensures var out := InsertByScore(r, sorted);
            out[0].score == if sorted == [] || sorted[0].score <= r.score then r.score else sorted[0].score
    decreases |sorted|
  {
    if sorted != [] && sorted[0].score > r.score {
      InsertSorted(r, sorted[1..]);
      var rest := InsertByScore(r, sorted[1..]);
      assert rest[0].score <= sorted[0].score;
      assert forall i :: 0 < i < |rest| ==> rest[i].score <= rest[0].score;
    } else if sorted != [] {
      assert forall i :: 0 < i < |sorted| ==> sorted[i].score <= sorted[0].score;
    }
  }

  lemma {:induction false} InsertStable(r: SearchResult, sorted: seq<SearchResult>, score: real)
    requires Descending(sorted)
    ensures WithScore(InsertByScore(r, sorted), score) == WithScore([r] + sorted, score)
    decreases |sorted|
  {
    assert ([r] + sorted)[1..] == sorted;
    if sorted != [] && sorted[0].score > r.score {
      var rest := sorted[1..];
      InsertStable(r, rest, score);
      assert ([r] + rest)[1..] == rest;
      assert ([sorted[0]] + InsertByScore(r, rest))[1..] == InsertByScore(r, rest);
    }
  }

  lemma {:induction false} SortDescends(rs: seq<SearchResult>)
    ensures Descending(SortByScore(rs))
    decreases |rs|
  {
    if rs != [] {
      SortDescends(rs[1..]);
      InsertSorted(rs[0], SortByScore(rs[1..]));
    }
  }

  lemma {:induction false} SortPermutes(rs: seq<SearchResult>)
    ensures multiset(SortByScore(rs)) == multiset(rs)
    decreases |rs|
  {
    if rs != [] {
      SortPermutes(rs[1..]);
      InsertPermutes(rs[0], SortByScore(rs[1..]));
      assert rs == [rs[0]] + rs[1..];
    }
  }

  /** Sorted, a permutation, and stable: results of equal score keep their order. */
  lemma {:induction false} SortIsStable(rs: seq<SearchResult>, score: real)
    ensures Descending(SortByScore(rs))
    ensures multiset(SortByScore(rs)) == multiset(rs)
    ensures WithScore(SortByScore(rs), score) == WithScore(rs, score)
    decreases |rs|
  {
    SortDescends(rs);
    SortPermutes(rs);
    if rs != [] {
      var sorted := SortByScore(rs[1..]);
      SortIsStable(rs[1..], score);
      InsertStable(rs[0], sorted, score);
      assert ([rs[0]] + sorted)[1..] == sorted;
    }
  }

  /** With distinct ids no result occurs twice. */
  lemma {:induction false} CountOnce(rs: seq<SearchResult>, r: SearchResult)
    requires forall i, j :: 0 <= i < j < |rs| ==> rs[i].id != rs[j].id
    ensures multiset(rs)[r] <= 1
    decreases |rs|
  {
    if rs != [] {
      CountOnce(rs[1..], r);
      assert rs == [rs[0]] + rs[1..];
      assert rs[0] !in rs[1..];
    }
  }
}
