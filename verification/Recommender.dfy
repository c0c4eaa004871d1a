/** The top-k recommender: score every item, drop the ones that do not match, order
    by rounded score and then by identifier, and cut. */
module Recommender {
  import opened Base
  import opened Sorting
  import opened Scoring
  import Evaluation

  const MIN_SCORE: real := 0.000000001

  datatype Scored = Scored(id: Id, score: real, breakdown: Breakdown)

  /** Everything a recommendation depends on besides the items. `round` is the rounding
      of a score to six places, whatever it may be. */
  datatype Query = Query(
    viewer: Viewer,
    parents: map<Id, Option<Id>>,
    weights: ScoreWeights,
    similarities: map<Id, real>,
    semantic: map<Id, real>,
    round: real -> real)

  function Candidate(q: Query, item: Item): Option<Scored> {
    var text := if item.id in q.similarities then q.similarities[item.id] else 0.0;
    var semantic := if item.id in q.semantic then q.semantic[item.id] else 0.0;
    var breakdown := ScoreItem(q.viewer, item, q.parents, q.weights, text, semantic);
    if breakdown.score <= MIN_SCORE then None
    else Some(Scored(item.id, q.round(breakdown.score), breakdown))
  }

  /** Higher score first; ties broken by identifier. */
  predicate Before(a: Scored, b: Scored) {
    a.score > b.score || (a.score == b.score && a.id <= b.id)
  }

  function Candidates(q: Query, items: seq<Item>): seq<Scored> {
    Collect(item => Candidate(q, item), items)
  }

  function Recommendation(q: Query, items: seq<Item>, k: nat): seq<Scored> {
    Evaluation.Prefix(Sort(Before, Candidates(q, items)), k)
  }

  method Recommend(q: Query, items: seq<Item>, k: nat) returns (top: seq<Scored>)
    ensures top == Recommendation(q, items, k)
  {
    var scored := [];
    for i := 0 to |items|
      invariant scored == Candidates(q, items[..i])
    {
      assert items[..i + 1] == items[..i] + [items[i]];
      CollectAppends(item => Candidate(q, item), items[..i], [items[i]]);
      var candidate := Candidate(q, items[i]);
      if candidate.None? { continue; }
      scored := scored + [candidate.value];
    }
    assert items[..|items|] == items;
    scored := Sort(Before, scored);
    top := Evaluation.Prefix(scored, k);
  }

  // ----- properties -----

  ghost predicate DistinctItems(items: seq<Item>) {
    forall i, j | 0 <= i < j < |items| :: items[i].id != items[j].id
  }

  function Ids(scored: seq<Scored>): (ids: seq<Id>)
    ensures |ids| == |scored| && forall i | 0 <= i < |ids| :: ids[i] == scored[i].id
  {
    seq(|scored|, i requires 0 <= i < |scored| => scored[i].id)
  }

  lemma BeforeIsAPreorder()
    ensures TotalPreorder(Before)
  {
  }

  lemma {:induction false} CandidatesAreDistinct(q: Query, items: seq<Item>)
    requires DistinctItems(items)
    ensures Distinct(Ids(Candidates(q, items)))
    ensures forall s | s in Candidates(q, items) :: exists i :: 0 <= i < |items| && items[i].id == s.id
  {
    if items != [] {
      var rest := items[1..];
      CandidatesAreDistinct(q, rest);
      var cs, ds := Candidates(q, items), Candidates(q, rest);
      forall s | s in cs ensures exists i :: 0 <= i < |items| && items[i].id == s.id {
        if s in ds {
          var i :| 0 <= i < |rest| && rest[i].id == s.id;
          assert items[i + 1].id == s.id;
        } else {
          assert items[0].id == s.id;
        }
      }
      forall j | 0 <= j < |ds| ensures ds[j].id != items[0].id {
        assert ds[j] in ds;
        var i :| 0 <= i < |rest| && rest[i].id == ds[j].id;
        assert items[i + 1].id != items[0].id;
      }
      if Candidate(q, items[0]).Some? {
        assert cs == [Candidate(q, items[0]).value] + ds;
        assert Ids(cs) == [items[0].id] + Ids(ds);
      } else {
        assert cs == ds;
      }
    }
  }

  lemma DistinctIdsDoNotTie(xs: seq<Scored>)
    requires Distinct(Ids(xs))
    ensures forall x, y | x in xs && y in xs && Before(x, y) && Before(y, x) :: x == y
  {
    forall x, y | x in xs && y in xs && Before(x, y) && Before(y, x) ensures x == y {
      var i :| 0 <= i < |xs| && xs[i] == x;
      var j :| 0 <= j < |xs| && xs[j] == y;
      assert Ids(xs)[i] == Ids(xs)[j];
    }
  }

  /** An item enters the answer under its own number, scored with its own similarities and
      rounded, exactly when its score is above a billionth. */
  lemma CandidatesAreScored(q: Query, item: Item)
    ensures var text := if item.id in q.similarities then q.similarities[item.id] else 0.0;
            var semantic := if item.id in q.semantic then q.semantic[item.id] else 0.0;
            var b := ScoreItem(q.viewer, item, q.parents, q.weights, text, semantic);
            && (Candidate(q, item).Some? <==> b.score > 0.000000001)
            && (Candidate(q, item).Some? ==>
                  var c := Candidate(q, item).value; c.id == item.id && c.score == q.round(b.score) && c.breakdown == b)
  {
    hide ScoreItem;
  }

  /** Alone, the text weight ranks by the item's own text similarity and the semantic weight by
      its own semantic similarity. */
  lemma SimilaritiesAreTheItemsOwn(q: Query, item: Item)
    ensures q.weights == ScoreWeights(0.0, 0.0, 1.0, 0.0) ==>
              && (Candidate(q, item).Some? <==> item.id in q.similarities && q.similarities[item.id] > 0.000000001)
              && (Candidate(q, item).Some? ==> Candidate(q, item).value.score == q.round(q.similarities[item.id]))
    ensures q.weights == ScoreWeights(0.0, 0.0, 0.0, 1.0) ==>
              && (Candidate(q, item).Some? <==> item.id in q.semantic && q.semantic[item.id] > 0.000000001)
              && (Candidate(q, item).Some? ==> Candidate(q, item).value.score == q.round(q.semantic[item.id]))
  {
    hide ScoreItem, Candidate;
    CandidatesAreScored(q, item);
    WeightsGoToTheirComponents(q.viewer, item, q.parents, q.weights,
                               if item.id in q.similarities then q.similarities[item.id] else 0.0,
                               if item.id in q.semantic then q.semantic[item.id] else 0.0);
  }

  /** Asked for everything, the recommender answers with every candidate and nothing else. */
  lemma EveryCandidateIsRecommended(q: Query, items: seq<Item>, s: Scored)
    ensures s in Recommendation(q, items, |items|) <==> exists item :: item in items && Candidate(q, item) == Some(s)
  {
    hide Candidate;
    var xs := Candidates(q, items);
    CollectIsShorter(item => Candidate(q, item), items);
    assert |Sort(Before, xs)| == |multiset(Sort(Before, xs))| == |multiset(xs)| == |xs|;
    assert s in Sort(Before, xs) <==> s in multiset(Sort(Before, xs));
    assert s in xs <==> s in multiset(xs);
    CollectIff(item => Candidate(q, item), items, s);
    if item :| item in items && Candidate(q, item) == Some(s) {
      assert ((item: Item) => Candidate(q, item))(item) == Some(s);
    }
  }

  lemma {:induction false} CollectIsShorter<T, U>(f: T -> Option<U>, xs: seq<T>)
    ensures |Collect(f, xs)| <= |xs|
  {
    if xs != [] { CollectIsShorter(f, xs[1..]); }
  }

  /** The order in which distinct items are offered never matters. */
  lemma OrderOfItemsIsIrrelevant(q: Query, items: seq<Item>, others: seq<Item>, k: nat)
    requires DistinctItems(items) && multiset(items) == multiset(others)
    ensures Recommendation(q, items, k) == Recommendation(q, others, k)
  {
    var f := (item: Item) => Candidate(q, item);
    var xs, ys := Candidates(q, items), Candidates(q, others);
    CollectPermutes(item => Candidate(q, item), items, others);
    CandidatesAreDistinct(q, items);
    DistinctIdsDoNotTie(xs);
    BeforeIsAPreorder();
    SortSorts(Before, xs);
    SortSorts(Before, ys);
    forall x ensures x in Sort(Before, xs) <==> x in xs {
      assert x in multiset(Sort(Before, xs)) <==> x in multiset(xs);
    }
    SortedIsUnique(Before, Sort(Before, xs), Sort(Before, ys));
  }

  /** Asking for fewer gives the beginning of the same list. */
  lemma FewerIsAPrefix(q: Query, items: seq<Item>, k: nat, l: nat)
    requires k <= l
    ensures Recommendation(q, items, k) <= Recommendation(q, items, l)
  {
  }

  /** The answer is the best of what matches: it holds at most k distinct items, each
      beats every matching item left out, and something is left out only when full. */
  lemma RecommendationIsTheTop(q: Query, items: seq<Item>, k: nat)
    requires DistinctItems(items)
    ensures var top := Recommendation(q, items, k);
            && |top| == Min(k, |Candidates(q, items)|)
            && Distinct(Ids(top))
            && Sorted(Before, top)
            && (forall s | s in top :: s in Candidates(q, items))
            && forall s, t | s in Candidates(q, items) && s !in top && t in top :: Before(t, s)
  {
    var xs := Candidates(q, items);
    var sorted := Sort(Before, xs);
    var top := Recommendation(q, items, k);
    assert |sorted| == |multiset(sorted)| == |multiset(xs)| == |xs|;
    BeforeIsAPreorder();
    SortSorts(Before, xs);
    forall s ensures s in sorted <==> s in xs {
      assert s in multiset(sorted) <==> s in multiset(xs);
    }
    assert Distinct(Ids(top)) by {
      CandidatesAreDistinct(q, items);
      IdsPermute(xs, sorted);
      DistinctPermutes(Ids(xs), Ids(sorted));
      assert forall i | 0 <= i < |top| :: Ids(top)[i] == Ids(sorted)[i];
    }
    forall s, t | s in xs && s !in top && t in top ensures Before(t, s) {
      var i :| 0 <= i < |sorted| && sorted[i] == s;
      var j :| 0 <= j < |top| && top[j] == t;
      assert i >= |top|;
    }
  }

  lemma {:induction false} IdsAreCollected(xs: seq<Scored>)
    ensures Ids(xs) == Collect((s: Scored) => Some(s.id), xs)
  {
    if xs != [] {
      IdsAreCollected(xs[1..]);
      assert Ids(xs) == [xs[0].id] + Ids(xs[1..]);
    }
  }

  lemma IdsPermute(xs: seq<Scored>, ys: seq<Scored>)
    requires multiset(xs) == multiset(ys)
    ensures multiset(Ids(xs)) == multiset(Ids(ys))
  {
    IdsAreCollected(xs);
    IdsAreCollected(ys);
    CollectPermutes((s: Scored) => Some(s.id), xs, ys);
  }

  /** The evaluation of a recommendation is a proportion: the recommender never shows
      an item twice, which is all nDCG needs. */
  lemma EvaluationIsAProportion(q: Query, items: seq<Item>, js: Evaluation.Judgements, k: nat, discount: nat -> real)
    requires DistinctItems(items) && Evaluation.OneGradeEach(js) && Evaluation.Discounting(discount)
    ensures var grades := Evaluation.Grades(js, Ids(Recommendation(q, items, |items|)));
            0.0 <= Evaluation.NdcgAtK(grades, Evaluation.Values(js), k, discount) <= 1.0
  {
    RecommendationIsTheTop(q, items, |items|);
    Evaluation.NdcgIsAProportion(js, Ids(Recommendation(q, items, |items|)), k, discount);
  }
}
