/** precision@k and nDCG@k. The logarithmic discount is any positive weight that
    never grows with the rank. */
module Evaluation {
  import opened Base
  import opened Sorting

  const RELEVANT_FROM: nat := 2

  function Prefix<T>(xs: seq<T>, k: nat): seq<T> {
    if k <= |xs| then xs[..k] else xs
  }

  function CountRelevant(grades: seq<nat>): (c: nat)
    ensures c <= |grades|
  {
    if grades == [] then 0
    else (if grades[0] >= RELEVANT_FROM then 1 else 0) + CountRelevant(grades[1..])
  }

  function PrecisionAtK(ranked: seq<nat>, k: nat): (p: real)
    ensures 0.0 <= p <= 1.0
  {
    var top := Prefix(ranked, k);
    if top == [] then 0.0 else CountRelevant(top) as real / |top| as real
  }

  function Pow2(n: nat): (p: nat)
    ensures p >= 1
  {
    if n == 0 then 1 else 2 * Pow2(n - 1)
  }

  function Gain(grade: nat): real { (Pow2(grade) - 1) as real }

  /** What a grade is worth at a rank: gain times discount. */
  function Worth(discount: nat -> real): (nat, nat) -> real {
    (grade: nat, rank: nat) => Gain(grade) * discount(rank)
  }

  /** The worth of a list whose first entry sits at rank `from`. */
  function Total(grades: seq<nat>, worth: (nat, nat) -> real, from: nat): real {
    if grades == [] then 0.0 else worth(grades[0], from) + Total(grades[1..], worth, from + 1)
  }

  function Dcg(grades: seq<nat>, discount: nat -> real): real {
    Total(grades, Worth(discount), 0)
  }

  function Descending(a: nat, b: nat): bool { a >= b }

  function NdcgAtK(ranked: seq<nat>, ideal: seq<nat>, k: nat, discount: nat -> real): real {
    var best := Dcg(Prefix(Sort(Descending, ideal), k), discount);
    if best != 0.0 then Dcg(Prefix(ranked, k), discount) / best else 0.0
  }

  // ----- precision -----

  /** The places of a list that show something relevant. */
  function RelevantPlaces(grades: seq<nat>): set<nat> {
    set i: nat | i < |grades| && grades[i] >= RELEVANT_FROM
  }

  lemma {:induction false} OneMoreGrade(grades: seq<nat>, grade: nat)
    ensures CountRelevant(grades + [grade]) == CountRelevant(grades) + if grade >= RELEVANT_FROM then 1 else 0
  {
    if grades == [] {
      assert [] + [grade] == [grade] && CountRelevant([grade][1..]) == 0;
    } else {
      assert (grades + [grade])[1..] == grades[1..] + [grade];
      OneMoreGrade(grades[1..], grade);
    }
  }

  lemma {:induction false} RelevantAreCounted(grades: seq<nat>)
    ensures CountRelevant(grades) == |RelevantPlaces(grades)|
    decreases |grades|
  {
    if grades == [] {
      assert RelevantPlaces(grades) == {};
    } else {
      var n := |grades| - 1;
      assert grades == grades[..n] + [grades[n]];
      OneMoreGrade(grades[..n], grades[n]);
      RelevantAreCounted(grades[..n]);
      OneMorePlace(grades);
    }
  }

  lemma OneMorePlace(grades: seq<nat>)
    requires grades != []
    ensures var n := |grades| - 1;
            |RelevantPlaces(grades)| == |RelevantPlaces(grades[..n])| + if grades[n] >= RELEVANT_FROM then 1 else 0
  {
    var n := |grades| - 1;
    var before := RelevantPlaces(grades[..n]);
    assert n !in before;
    assert RelevantPlaces(grades) == before + if grades[n] >= RELEVANT_FROM then {n} else {};
  }

  lemma ShareOf(part: nat, whole: nat)
    requires whole > 0
    ensures part as real / whole as real * whole as real == part as real
  {
  }

  /** Precision at k is the share of relevant places among those shown, of which there are
      k or as many as were ranked; with none shown it is 0. */
  lemma PrecisionIsTheShare(ranked: seq<nat>, k: nat)
    ensures var shown := if k <= |ranked| then k else |ranked|;
            && 0.0 <= PrecisionAtK(ranked, k) <= 1.0
            && (shown == 0 ==> PrecisionAtK(ranked, k) == 0.0)
            && PrecisionAtK(ranked, k) * shown as real ==
                 |set i: nat | i < shown && ranked[i] >= 2| as real
  {
    hide CountRelevant;
    var shown := if k <= |ranked| then k else |ranked|;
    var top := Prefix(ranked, k);
    RelevantAreCounted(top);
    if shown > 0 { ShareOf(CountRelevant(top), shown); }
    assert RelevantPlaces(top) == set i: nat | i < shown && ranked[i] >= 2;
  }

  // ----- what a discounted gain is worth -----

  ghost predicate Discounting(discount: nat -> real) {
    && (forall i: nat :: discount(i) > 0.0)
    && forall i: nat, j: nat | i <= j :: discount(i) >= discount(j)
  }

  ghost predicate StrictlyDiscounting(discount: nat -> real) {
    Discounting(discount) && forall i: nat, j: nat | i < j :: discount(i) > discount(j)
  }

  /** Nothing for grade 0, more for more, and a better grade is best placed early. */
  ghost predicate Fair(worth: (nat, nat) -> real) {
    && (forall p: nat :: worth(0, p) == 0.0)
    && (forall a: nat, b: nat, p: nat | a < b :: worth(a, p) < worth(b, p))
    && forall a: nat, b: nat, p: nat, q: nat | a < b && p < q ::
         worth(a, p) + worth(b, q) <= worth(b, p) + worth(a, q)
  }

  ghost predicate StrictlyFair(worth: (nat, nat) -> real) {
    && Fair(worth)
    && forall a: nat, b: nat, p: nat, q: nat | a < b && p < q ::
         worth(a, p) + worth(b, q) < worth(b, p) + worth(a, q)
  }

  lemma {:induction false} GainGrows(a: nat, b: nat)
    requires a < b
    ensures 0.0 <= Gain(a) < Gain(b)
    decreases b
  {
    if a > 0 {
      GainGrows(a - 1, b - 1);
    }
  }

  lemma Positive(x: real, y: real)
    requires x > 0.0 && y > 0.0
    ensures x * y > 0.0
  {
  }

  lemma ProductsExchange(a: real, b: real, near: real, far: real)
    requires a < b && near >= far > 0.0
    ensures a * near < b * near
    ensures a * near + b * far <= b * near + a * far
    ensures near > far ==> a * near + b * far < b * near + a * far
  {
    Positive(b - a, near);
    if near > far { Positive(b - a, near - far); }
    assert (b - a) * (near - far) == b * near + a * far - a * near - b * far;
    assert (b - a) * near == b * near - a * near;
  }

  lemma DiscountedGainsExchange(discount: nat -> real, a: nat, b: nat, p: nat, q: nat)
    requires Discounting(discount) && a < b && p <= q
    ensures var worth := Worth(discount);
            && worth(a, p) < worth(b, p)
            && worth(a, p) + worth(b, q) <= worth(b, p) + worth(a, q)
            && (discount(p) > discount(q) ==> worth(a, p) + worth(b, q) < worth(b, p) + worth(a, q))
  {
    GainGrows(a, b);
    ProductsExchange(Gain(a), Gain(b), discount(p), discount(q));
  }

  lemma UngradedIsWorthNothing(discount: nat -> real)
    ensures forall p: nat :: Worth(discount)(0, p) == 0.0
  {
  }

  lemma DiscountDrops(discount: nat -> real, p: nat, q: nat)
    requires StrictlyDiscounting(discount) && p < q
    ensures discount(p) > discount(q)
  {
  }

  lemma DiscountedGainIsFair(discount: nat -> real)
    requires Discounting(discount)
    ensures Fair(Worth(discount))
  {
    hide Worth, Discounting;
    var worth := Worth(discount);
    UngradedIsWorthNothing(discount);
    forall a: nat, b: nat, p: nat | a < b ensures worth(a, p) < worth(b, p) {
      DiscountedGainsExchange(discount, a, b, p, p);
    }
    forall a: nat, b: nat, p: nat, q: nat | a < b && p < q
      ensures worth(a, p) + worth(b, q) <= worth(b, p) + worth(a, q)
    {
      DiscountedGainsExchange(discount, a, b, p, q);
    }
  }

  lemma DiscountedGainIsStrictlyFair(discount: nat -> real)
    requires StrictlyDiscounting(discount)
    ensures StrictlyFair(Worth(discount))
  {
    DiscountedGainIsFair(discount);
    hide Worth, Discounting, Fair;
    var worth := Worth(discount);
    forall a: nat, b: nat, p: nat, q: nat | a < b && p < q
      ensures worth(a, p) + worth(b, q) < worth(b, p) + worth(a, q)
    {
      DiscountDrops(discount, p, q);
      DiscountedGainsExchange(discount, a, b, p, q);
    }
  }

  // ----- what the numbers are -----

  lemma {:induction false} TotalAppends(a: seq<nat>, g: nat, worth: (nat, nat) -> real, from: nat)
    ensures Total(a + [g], worth, from) == Total(a, worth, from) + worth(g, from + |a|)
    decreases |a|
  {
    if a == [] {
      assert [] + [g] == [g];
      assert Total([g], worth, from) == worth(g, from) + Total([g][1..], worth, from + 1);
    } else {
      assert (a + [g])[1..] == a[1..] + [g];
      TotalAppends(a[1..], g, worth, from + 1);
    }
  }

  lemma TotalOfOne(g: nat, worth: (nat, nat) -> real, from: nat)
    ensures Total([g], worth, from) == worth(g, from)
  {
    assert [g][1..] == [];
  }

  /** DCG by its laws, which leave no choice: nothing is worth nothing, so is a grade of 0, one
      grade more is twice as much and the discount again, and a list is worth its last entry,
      discounted for its place, more than the list before it. */
  lemma DcgByItsLaws(a: seq<nat>, g: nat, d: nat -> real)
    ensures Dcg([], d) == 0.0 && Dcg([0], d) == 0.0
    ensures Dcg([g + 1], d) == 2.0 * Dcg([g], d) + d(0)
    ensures Dcg(a + [g], d) == Dcg(a, d) + Dcg([g], (i: nat) => d(i + |a|))
  {
    hide Total;
    TotalOfOne(0, Worth(d), 0);
    TotalOfOne(g, Worth(d), 0);
    TotalOfOne(g + 1, Worth(d), 0);
    TotalOfOne(g, Worth((i: nat) => d(i + |a|)), 0);
    TotalAppends(a, g, Worth(d), 0);
    DoublingLaw(Pow2(g) as real, d(0));
    NothingIsWorthNothing(d);
  }

  lemma NothingIsWorthNothing(d: nat -> real)
    ensures Dcg([], d) == 0.0
  {
  }

  lemma DoublingLaw(p: real, d: real)
    ensures (2.0 * p - 1.0) * d == 2.0 * ((p - 1.0) * d) + d
  {
  }

  /** nDCG at k is the DCG of the first k shown over that of the first k of the judgements in
      descending order, whichever way those are sorted; with nothing worth anything there it is 0. */
  lemma NdcgIsTheQuotient(ranked: seq<nat>, ideal: seq<nat>, sorted: seq<nat>, k: nat, d: nat -> real)
    requires Discounting(d) && multiset(sorted) == multiset(ideal)
    requires forall i, j | 0 <= i < j < |sorted| :: sorted[i] >= sorted[j]
    ensures var best := Dcg(sorted[..Min(k, |sorted|)], d);
            && (best == 0.0 <==> forall i | 0 <= i < Min(k, |sorted|) :: sorted[i] == 0)
            && (best == 0.0 ==> NdcgAtK(ranked, ideal, k, d) == 0.0)
            && (best != 0.0 ==> NdcgAtK(ranked, ideal, k, d) * best == Dcg(ranked[..Min(k, |ranked|)], d))
  {
    hide NdcgAtK, Total, Worth, Dcg, Prefix, Discounting, Sort;
    DescendingIsSort(sorted, ideal);
    PrefixIsFirst(sorted, k);
    PrefixIsFirst(ranked, k);
    BestIsNothing(Prefix(sorted, k), d);
    NdcgTimesBest(ranked, ideal, k, d);
  }

  lemma NdcgTimesBest(ranked: seq<nat>, ideal: seq<nat>, k: nat, d: nat -> real)
    ensures var best := Dcg(Prefix(Sort(Descending, ideal), k), d);
            if best == 0.0 then NdcgAtK(ranked, ideal, k, d) == 0.0
            else NdcgAtK(ranked, ideal, k, d) * best == Dcg(Prefix(ranked, k), d)
  {
    hide Dcg, Sort, Prefix;
    var best := Dcg(Prefix(Sort(Descending, ideal), k), d);
    if best != 0.0 { QuotientTimes(Dcg(Prefix(ranked, k), d), best); }
  }

  lemma DescendingIsSort(sorted: seq<nat>, ideal: seq<nat>)
    requires multiset(sorted) == multiset(ideal) && forall i, j | 0 <= i < j < |sorted| :: sorted[i] >= sorted[j]
    ensures sorted == Sort(Descending, ideal)
  {
    SortSorts(Descending, ideal);
    SortedIsUnique(Descending, sorted, Sort(Descending, ideal));
  }

  lemma PrefixIsFirst(xs: seq<nat>, k: nat)
    ensures Prefix(xs, k) == xs[..Min(k, |xs|)]
  {
  }

  lemma BestIsNothing(grades: seq<nat>, d: nat -> real)
    requires Discounting(d)
    ensures Dcg(grades, d) == 0.0 <==> forall i | 0 <= i < |grades| :: grades[i] == 0
  {
    DiscountedGainIsFair(d);
    TotalIsNonNegative(grades, Worth(d), 0);
  }

  lemma QuotientTimes(a: real, b: real)
    requires b != 0.0
    ensures a / b * b == a
  {
  }

  // ----- the rearrangement inequality -----

  /** Every judged grade in g is taken from s, no more often than s offers it. */
  ghost predicate DrawnFrom(g: seq<nat>, s: seq<nat>) {
    forall v: nat | v > 0 :: multiset(g)[v] <= multiset(s)[v]
  }

  /** The same grades in the same places, up to trailing zeros. */
  ghost predicate SameGrades(g: seq<nat>, s: seq<nat>) {
    if g == [] then forall i | 0 <= i < |s| :: s[i] == 0
    else if s == [] then forall i | 0 <= i < |g| :: g[i] == 0
    else g[0] == s[0] && SameGrades(g[1..], s[1..])
  }

  lemma {:induction false} TotalUpdate(g: seq<nat>, j: nat, v: nat, worth: (nat, nat) -> real, from: nat)
    requires j < |g|
    ensures Total(g[j := v], worth, from)
         == Total(g, worth, from) + worth(v, from + j) - worth(g[j], from + j)
  {
    if j > 0 {
      assert g[j := v][1..] == g[1..][j - 1 := v];
      TotalUpdate(g[1..], j - 1, v, worth, from + 1);
    } else {
      assert g[j := v][1..] == g[1..];
    }
  }

  lemma {:induction false} TotalIsNonNegative(g: seq<nat>, worth: (nat, nat) -> real, from: nat)
    requires Fair(worth)
    ensures Total(g, worth, from) >= 0.0
    ensures Total(g, worth, from) == 0.0 <==> forall i | 0 <= i < |g| :: g[i] == 0
  {
    if g != [] {
      TotalIsNonNegative(g[1..], worth, from + 1);
      assert g[0] > 0 ==> worth(0, from) < worth(g[0], from);
      assert forall i | 0 < i < |g| :: g[i] == g[1..][i - 1];
    }
  }

  lemma LargestIsFirst(g: seq<nat>, s: seq<nat>)
    requires g != [] && s != [] && Sorted(Descending, s) && DrawnFrom(g, s)
    ensures g[0] <= s[0]
  {
    if g[0] > 0 {
      assert g[0] in multiset(g);
      assert g[0] in s;
    }
  }

  /** Moving the larger of two grades forward loses nothing. */
  lemma SwapLosesNothing(g: seq<nat>, j: nat, worth: (nat, nat) -> real, from: nat)
    requires Fair(worth) && 0 < j < |g| && g[0] < g[j]
    ensures var h := g[0 := g[j]][j := g[0]];
            && multiset(h) == multiset(g) && Total(g, worth, from) <= Total(h, worth, from)
            && (StrictlyFair(worth) ==> Total(g, worth, from) < Total(h, worth, from))
  {
    hide Total;
    TotalUpdate(g, 0, g[j], worth, from);
    TotalUpdate(g[0 := g[j]], j, g[0], worth, from);
  }

  lemma RaisingLosesNothing(g: seq<nat>, top: nat, worth: (nat, nat) -> real, from: nat)
    requires Fair(worth) && g != [] && g[0] < top
    ensures Total(g, worth, from) <= Total(g[0 := top], worth, from)
    ensures StrictlyFair(worth) ==> Total(g, worth, from) < Total(g[0 := top], worth, from)
  {
    hide Total;
    TotalUpdate(g, 0, top, worth, from);
  }

  lemma RaisedIsDrawn(g: seq<nat>, s: seq<nat>)
    requires g != [] && s != [] && g[0] < s[0] && s[0] !in g && DrawnFrom(g, s)
    ensures DrawnFrom(g[0 := s[0]], s)
  {
    var h := g[0 := s[0]];
    assert s[0] in multiset(s);
    assert multiset(h) == multiset(g) - multiset{g[0]} + multiset{s[0]};
  }

  /** Bring the largest grade to the front of g, by a swap if g has it and by replacing
      the first grade if not. Nothing is lost by it. */
  lemma BringToFront(g: seq<nat>, s: seq<nat>, worth: (nat, nat) -> real, from: nat) returns (h: seq<nat>)
    requires Fair(worth) && g != [] && s != [] && g[0] < s[0] && DrawnFrom(g, s)
    ensures |h| == |g| && h[0] == s[0] && DrawnFrom(h, s)
    ensures Total(g, worth, from) <= Total(h, worth, from)
    ensures StrictlyFair(worth) ==> Total(g, worth, from) < Total(h, worth, from)
  {
    hide Fair, StrictlyFair, Total;
    if s[0] in g {
      var j :| 0 <= j < |g| && g[j] == s[0];
      SwapLosesNothing(g, j, worth, from);
      h := g[0 := g[j]][j := g[0]];
    } else {
      RaisingLosesNothing(g, s[0], worth, from);
      RaisedIsDrawn(g, s);
      h := g[0 := s[0]];
    }
  }

  lemma DrawnFromTail(g: seq<nat>, s: seq<nat>)
    requires g != [] && s != [] && g[0] == s[0] && DrawnFrom(g, s)
    ensures DrawnFrom(g[1..], s[1..])
  {
    assert g == [g[0]] + g[1..] && s == [s[0]] + s[1..];
    forall v: nat | v > 0 ensures multiset(g[1..])[v] <= multiset(s[1..])[v] {
      assert multiset(g)[v] == multiset{g[0]}[v] + multiset(g[1..])[v];
      assert multiset(s)[v] == multiset{s[0]}[v] + multiset(s[1..])[v];
    }
  }

  lemma DrawnFromNothing(g: seq<nat>)
    requires DrawnFrom(g, [])
    ensures forall i | 0 <= i < |g| :: g[i] == 0
  {
    forall i | 0 <= i < |g| ensures g[i] == 0 {
      assert g[i] in multiset(g);
    }
  }

  /** No list of at most k grades drawn from s is worth more than the first k of s in
      descending order; and when placing matters strictly, only those grades in those
      places are worth as much. */
  lemma {:induction false} IdealOrderIsBest(g: seq<nat>, s: seq<nat>, k: nat, worth: (nat, nat) -> real, from: nat)
    requires Fair(worth) && Sorted(Descending, s) && DrawnFrom(g, s) && |g| <= k
    ensures Total(g, worth, from) <= Total(Prefix(s, k), worth, from)
    ensures StrictlyFair(worth) ==>
              (Total(g, worth, from) == Total(Prefix(s, k), worth, from) <==> SameGrades(g, Prefix(s, k)))
    decreases k
  {
    hide DrawnFrom;
    if s == [] {
      DrawnFromNothing(g);
      TotalIsNonNegative(g, worth, from);
    } else if g == [] {
      TotalIsNonNegative(Prefix(s, k), worth, from);
    } else {
      LargestIsFirst(g, s);
      assert Prefix(s, k)[1..] == Prefix(s[1..], k - 1);
      var h := g;
      if g[0] < s[0] {
        h := BringToFront(g, s, worth, from);
      }
      DrawnFromTail(h, s);
      IdealOrderIsBest(h[1..], s[1..], k - 1, worth, from + 1);
    }
  }

  // ----- judgements -----

  /** `raw["relevance"]`: one grade per judged item, in the order written. */
  type Judgements = seq<(Id, nat)>

  ghost predicate OneGradeEach(js: Judgements) {
    forall i, j | 0 <= i < j < |js| :: js[i].0 != js[j].0
  }

  function Values(js: Judgements): seq<nat> {
    if js == [] then [] else [js[0].1] + Values(js[1..])
  }

  /** `judgements.get(id, 0)`. */
  function GradeOf(js: Judgements, id: Id): nat {
    if js == [] then 0 else if js[0].0 == id then js[0].1 else GradeOf(js[1..], id)
  }

  function Grades(js: Judgements, ranked: seq<Id>): (g: seq<nat>)
    ensures |g| == |ranked| && forall i | 0 <= i < |g| :: g[i] == GradeOf(js, ranked[i])
  {
    seq(|ranked|, i requires 0 <= i < |ranked| => GradeOf(js, ranked[i]))
  }

  lemma {:induction false} ValuesAppend(a: Judgements, b: Judgements)
    ensures Values(a + b) == Values(a) + Values(b)
  {
    if a == [] {
      assert a + b == b;
    } else {
      assert (a + b)[1..] == a[1..] + b;
      ValuesAppend(a[1..], b);
    }
  }

  lemma {:induction false} GradeOfUnique(js: Judgements, i: nat)
    requires OneGradeEach(js) && i < |js|
    ensures GradeOf(js, js[i].0) == js[i].1
  {
    if i > 0 { GradeOfUnique(js[1..], i - 1); }
  }

  lemma {:induction false} GradeOfMissing(js: Judgements, id: Id)
    requires forall i | 0 <= i < |js| :: js[i].0 != id
    ensures GradeOf(js, id) == 0
  {
    if js != [] { GradeOfMissing(js[1..], id); }
  }

  lemma {:induction false} GradeOfOthers(js: Judgements, i: nat, id: Id)
    requires i < |js| && js[i].0 != id
    ensures GradeOf(js[..i] + js[i + 1..], id) == GradeOf(js, id)
  {
    if i == 0 {
      assert js[..0] + js[1..] == js[1..];
    } else {
      assert (js[..i] + js[i + 1..])[1..] == js[1..][..i - 1] + js[1..][i..];
      GradeOfOthers(js[1..], i - 1, id);
    }
  }

  /** The grades of distinct items are drawn from the judgements. */
  lemma {:induction false} GradesAreDrawn(js: Judgements, ranked: seq<Id>)
    requires OneGradeEach(js) && Distinct(ranked)
    ensures DrawnFrom(Grades(js, ranked), Values(js))
    decreases |ranked|
  {
    if ranked != [] {
      hide DrawnFrom;
      var id, rest := ranked[0], ranked[1..];
      assert Grades(js, ranked) == [GradeOf(js, id)] + Grades(js, rest);
      if i :| 0 <= i < |js| && js[i].0 == id {
        var left := js[..i] + js[i + 1..];
        GradeOfUnique(js, i);
        forall j | 0 <= j < |rest| ensures GradeOf(left, rest[j]) == GradeOf(js, rest[j]) {
          GradeOfOthers(js, i, rest[j]);
        }
        assert Grades(left, rest) == Grades(js, rest);
        GradesAreDrawn(left, rest);
        ValuesWithout(js, i);
        DrawnFromCons(GradeOf(js, id), Grades(js, rest), Values(left), Values(js));
      } else {
        GradeOfMissing(js, id);
        GradesAreDrawn(js, rest);
        DrawnFromUngraded(Grades(js, rest), Values(js));
      }
    }
  }

  lemma DrawnFromCons(v: nat, g: seq<nat>, s: seq<nat>, t: seq<nat>)
    requires DrawnFrom(g, s) && multiset(t) == multiset(s) + multiset{v}
    ensures DrawnFrom([v] + g, t)
  {
    forall u: nat | u > 0 ensures multiset([v] + g)[u] <= multiset(t)[u] {
      assert multiset(g)[u] <= multiset(s)[u];
    }
  }

  lemma DrawnFromUngraded(g: seq<nat>, s: seq<nat>)
    requires DrawnFrom(g, s)
    ensures DrawnFrom([0] + g, s)
  {
    forall u: nat | u > 0 ensures multiset([0] + g)[u] <= multiset(s)[u] {
      assert multiset(g)[u] <= multiset(s)[u];
    }
  }

  lemma ValuesOfOne(j: (Id, nat))
    ensures Values([j]) == [j.1]
  {
    assert Values([j]) == [j.1] + Values([]);
  }

  lemma ValuesWithout(js: Judgements, i: nat)
    requires i < |js|
    ensures multiset(Values(js)) == multiset(Values(js[..i] + js[i + 1..])) + multiset{js[i].1}
  {
    hide Values;
    assert js == js[..i] + ([js[i]] + js[i + 1..]);
    ValuesAppend(js[..i], [js[i]] + js[i + 1..]);
    ValuesAppend([js[i]], js[i + 1..]);
    ValuesOfOne(js[i]);
    ValuesAppend(js[..i], js[i + 1..]);
  }

  lemma DrawnFromPrefix(g: seq<nat>, s: seq<nat>, k: nat)
    requires DrawnFrom(g, s)
    ensures DrawnFrom(Prefix(g, k), s)
  {
    if k <= |g| {
      assert g == g[..k] + g[k..];
      forall v: nat | v > 0 ensures multiset(g[..k])[v] <= multiset(s)[v] {
        assert multiset(g)[v] == multiset(g[..k])[v] + multiset(g[k..])[v];
      }
    }
  }

  lemma CutOffFacts(js: Judgements, ranked: seq<Id>, k: nat, discount: nat -> real)
    requires Discounting(discount) && OneGradeEach(js) && Distinct(ranked)
    ensures Fair(Worth(discount)) && (StrictlyDiscounting(discount) ==> StrictlyFair(Worth(discount)))
    ensures Sorted(Descending, Sort(Descending, Values(js)))
    ensures DrawnFrom(Prefix(Grades(js, ranked), k), Sort(Descending, Values(js)))
  {
    DiscountedGainIsFair(discount);
    if StrictlyDiscounting(discount) { DiscountedGainIsStrictlyFair(discount); }
    SortSorts(Descending, Values(js));
    GradesAreDrawn(js, ranked);
    DrawnFromPrefix(Grades(js, ranked), Sort(Descending, Values(js)), k);
  }

  /** nDCG is a proportion: for every ranking of distinct items, every set of
      judgements, every cut-off and every discount. */
  lemma NdcgIsAProportion(js: Judgements, ranked: seq<Id>, k: nat, discount: nat -> real)
    requires Discounting(discount) && OneGradeEach(js) && Distinct(ranked)
    ensures 0.0 <= NdcgAtK(Grades(js, ranked), Values(js), k, discount) <= 1.0
  {
    CutOffFacts(js, ranked, k, discount);
    var g, s := Prefix(Grades(js, ranked), k), Sort(Descending, Values(js));
    IdealOrderIsBest(g, s, k, Worth(discount), 0);
    TotalIsNonNegative(g, Worth(discount), 0);
    QuotientIsAProportion(Dcg(g, discount), Dcg(Prefix(s, k), discount));
  }

  /** A perfect score is earned exactly by showing the best grades in descending order,
      once anything relevant is judged within the cut-off. */
  lemma NdcgIsOneExactlyForTheIdealOrder(js: Judgements, ranked: seq<Id>, k: nat, discount: nat -> real)
    requires StrictlyDiscounting(discount) && OneGradeEach(js) && Distinct(ranked)
    ensures var top := Prefix(Sort(Descending, Values(js)), k);
            NdcgAtK(Grades(js, ranked), Values(js), k, discount) == 1.0
            <==> (exists i :: 0 <= i < |top| && top[i] > 0) && SameGrades(Prefix(Grades(js, ranked), k), top)
  {
    CutOffFacts(js, ranked, k, discount);
    var g, s := Prefix(Grades(js, ranked), k), Sort(Descending, Values(js));
    IdealOrderIsBest(g, s, k, Worth(discount), 0);
    TotalIsNonNegative(g, Worth(discount), 0);
    TotalIsNonNegative(Prefix(s, k), Worth(discount), 0);
    QuotientIsAProportion(Dcg(g, discount), Dcg(Prefix(s, k), discount));
  }
}
