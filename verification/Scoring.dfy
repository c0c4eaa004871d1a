/** Score components over exact reals. */
module Scoring {
  import opened Base

  const PARENT_CREDIT: real := 0.5

  /** A dictionary of skill weights, in insertion order. */
  type Weighted = seq<(Id, real)>

  datatype Viewer = Viewer(skills: map<Id, int>, areas: set<Id>)

  datatype Item = Item(id: Id, skills: Weighted, areas: set<Id>)

  datatype ScoreWeights = ScoreWeights(skill: real, area: real, text: real, semantic: real) {
    function WithSemantic(share: real): ScoreWeights {
      if share <= 0.0 then this
      else
        var keep := 1.0 - share;
        ScoreWeights(skill * keep, area * keep, text * keep, share)
    }

    function Apply(s: real, a: real, t: real, m: real): real {
      skill * s + area * a + text * t + semantic * m
    }

    predicate IsAverage() {
      skill >= 0.0 && area >= 0.0 && text >= 0.0 && semantic >= 0.0 && skill + area + text + semantic == 1.0
    }
  }

  datatype Breakdown = Breakdown(score: real, skill: real, area: real, text: real, semantic: real)

  function ProficiencyFactor(proficiency: int): (f: real)
    ensures 0.5 <= f <= 1.0
    ensures proficiency <= 1 ==> f == 0.5
    ensures proficiency >= 5 ==> f == 1.0
  {
    var clamped := Min(Max(proficiency, 1), 5);
    0.5 + 0.5 * (clamped - 1) as real / 4.0
  }

  function Weight(skills: Weighted): real {
    if skills == [] then 0.0 else skills[0].1 + Weight(skills[1..])
  }

  function Matched(viewer: map<Id, int>, skills: Weighted): real {
    if skills == [] then 0.0
    else
      (if skills[0].0 in viewer then skills[0].1 * ProficiencyFactor(viewer[skills[0].0]) else 0.0)
      + Matched(viewer, skills[1..])
  }

  function SkillScore(viewer: Viewer, item: Item): real {
    if item.skills == [] then 0.0
    else
      var total := Weight(item.skills);
      if total != 0.0 then Matched(viewer.skills, item.skills) / total else 0.0
  }

  /** Item areas one step from a viewer area in the taxonomy, up or down. */
  function Related(viewer: set<Id>, item: set<Id>, parents: map<Id, Option<Id>>): set<Id> {
    set a | a in item && a !in viewer
      && ((a in parents && parents[a].Some? && parents[a].value in viewer)
          || (exists v | v in viewer :: v in parents && parents[v] == Some(a)))
  }

  function AreaScore(viewer: Viewer, item: Item, parents: map<Id, Option<Id>>): real {
    if viewer.areas == {} || item.areas == {} then 0.0
    else
      (|viewer.areas * item.areas| as real + PARENT_CREDIT * |Related(viewer.areas, item.areas, parents)| as real)
      / |viewer.areas + item.areas| as real
  }

  function ScoreItem(viewer: Viewer, item: Item, parents: map<Id, Option<Id>>, weights: ScoreWeights,
                     text: real, semantic: real): Breakdown {
    var skills := SkillScore(viewer, item);
    var areas := AreaScore(viewer, item, parents);
    var kept := if semantic > 0.0 then semantic else 0.0;
    Breakdown(weights.Apply(skills, areas, text, kept), skills, areas, text, semantic)
  }

  /** The set the source fills in a loop over the areas the viewer lacks. */
  method RelatedAreas(viewer: set<Id>, item: set<Id>, parents: map<Id, Option<Id>>) returns (related: set<Id>)
    ensures related == Related(viewer, item, parents)
  {
    var viewerParents := set v | v in viewer && v in parents && parents[v].Some? :: parents[v].value;
    related := {};
    var left := item - viewer;
    while left != {}
      invariant left <= item - viewer
      invariant related == Related(viewer, item, parents) - left
      decreases |left|
    {
      var area :| area in left;
      if (area in parents && parents[area].Some? && parents[area].value in viewer) || area in viewerParents {
        related := related + {area};
      }
      left := left - {area};
    }
  }

  // ----- bounds -----

  ghost predicate NonNegative(skills: Weighted) {
    forall i | 0 <= i < |skills| :: skills[i].1 >= 0.0
  }

  lemma ScaledStaysBelow(w: real, f: real)
    requires w >= 0.0 && 0.0 <= f <= 1.0
    ensures 0.0 <= w * f <= w
  {
    assert w * f >= 0.0;
    assert w * (1.0 - f) >= 0.0;
    assert w * (1.0 - f) == w - w * f;
  }

  lemma Scaled(w: real, f: real) returns (p: real)
    requires w >= 0.0 && 0.0 <= f <= 1.0
    ensures p == w * f && 0.0 <= p <= w
  {
    p := w * f;
    ScaledStaysBelow(w, f);
  }

  lemma {:induction false} MatchedIsAShare(viewer: map<Id, int>, skills: Weighted)
    requires NonNegative(skills)
    ensures 0.0 <= Matched(viewer, skills) <= Weight(skills)
  {
    if skills != [] {
      hide ProficiencyFactor;
      MatchedIsAShare(viewer, skills[1..]);
      var (skill, weight) := skills[0];
      assert weight >= 0.0 && Weight(skills) == weight + Weight(skills[1..]);
      if skill in viewer {
        var share := Scaled(weight, ProficiencyFactor(viewer[skill]));
        assert Matched(viewer, skills) == share + Matched(viewer, skills[1..]);
      }
    }
  }

  /** Jaccard with half credit is a share: shared areas and the item's own areas are
      disjoint parts of the union. */
  lemma AreaScoreIsAShare(viewer: Viewer, item: Item, parents: map<Id, Option<Id>>)
    ensures 0.0 <= AreaScore(viewer, item, parents) <= 1.0
  {
    var shared, related := viewer.areas * item.areas, Related(viewer.areas, item.areas, parents);
    var union := viewer.areas + item.areas;
    assert shared !! related && shared + related <= union;
    SubsetIsSmaller(shared + related, union);
    assert |shared + related| == |shared| + |related|;
    if viewer.areas != {} {
      var a :| a in viewer.areas;
      SubsetIsSmaller({a}, union);
      QuotientIsAProportion(|shared| as real + PARENT_CREDIT * |related| as real, |union| as real);
    }
  }

  lemma SkillScoreIsAShare(viewer: Viewer, item: Item)
    requires NonNegative(item.skills)
    ensures 0.0 <= SkillScore(viewer, item) <= 1.0
  {
    MatchedIsAShare(viewer.skills, item.skills);
    QuotientIsAProportion(Matched(viewer.skills, item.skills), Weight(item.skills));
  }

  ghost predicate Mastered(viewer: map<Id, int>, skills: Weighted) {
    forall i | 0 <= i < |skills| :: skills[i].0 in viewer && viewer[skills[i].0] >= 5
  }

  lemma ScaledFully(w: real, f: real, p: real)
    requires w > 0.0 && p == w * f
    ensures p == w <==> f == 1.0
  {
    assert w * (1.0 - f) == w - w * f;
  }

  lemma FullFactor(proficiency: int)
    ensures ProficiencyFactor(proficiency) == 1.0 <==> proficiency >= 5
  {
  }

  /** The first skill's part of what is matched, and when it is the whole of its weight. */
  lemma FirstShare(viewer: map<Id, int>, skills: Weighted) returns (share: real)
    requires skills != [] && skills[0].1 > 0.0
    ensures Matched(viewer, skills) == share + Matched(viewer, skills[1..])
    ensures Weight(skills) == skills[0].1 + Weight(skills[1..])
    ensures share <= skills[0].1 && (share == skills[0].1 <==> skills[0].0 in viewer && viewer[skills[0].0] >= 5)
  {
    hide ProficiencyFactor;
    var (skill, weight) := skills[0];
    share := 0.0;
    if skill in viewer {
      share := Scaled(weight, ProficiencyFactor(viewer[skill]));
      ScaledFully(weight, ProficiencyFactor(viewer[skill]), share);
      FullFactor(viewer[skill]);
    }
  }

  lemma {:induction false} MatchedInFullExactly(viewer: map<Id, int>, skills: Weighted)
    requires forall i | 0 <= i < |skills| :: skills[i].1 > 0.0
    ensures Matched(viewer, skills) == Weight(skills) <==> Mastered(viewer, skills)
  {
    if skills == [] {
      NoSkillsNoWeight(viewer);
    } else {
      hide Matched, Weight;
      var share := FirstShare(viewer, skills);
      MatchedInFullExactly(viewer, skills[1..]);
      MatchedIsAShare(viewer, skills[1..]);
      assert forall i | 0 < i < |skills| :: skills[i] == skills[1..][i - 1];
    }
  }

  /** The full skill score is for those who master every skill asked for. */
  lemma SkillScoreIsFullExactly(viewer: Viewer, item: Item)
    requires item.skills != [] && forall i | 0 <= i < |item.skills| :: item.skills[i].1 > 0.0
    ensures SkillScore(viewer, item) == 1.0 <==> Mastered(viewer.skills, item.skills)
  {
    MatchedInFullExactly(viewer.skills, item.skills);
    MatchedIsAShare(viewer.skills, item.skills[1..]);
    var total := Weight(item.skills);
    assert total > 0.0;
    if Matched(viewer.skills, item.skills) / total == 1.0 {
      assert Matched(viewer.skills, item.skills) == total * (Matched(viewer.skills, item.skills) / total);
    }
  }

  lemma RelatedAreNew(viewer: set<Id>, item: set<Id>, parents: map<Id, Option<Id>>)
    ensures Related(viewer, item, parents) <= item - viewer
    ensures viewer == {} || item == {} ==> Related(viewer, item, parents) == {}
  {
  }

  lemma HalfCreditExtremes(shared: nat, related: nat, union: nat)
    requires shared + related <= union && union > 0
    ensures var score := (shared as real + PARENT_CREDIT * related as real) / union as real;
            (score == 1.0 <==> shared == union) && (score == 0.0 <==> shared == 0 && related == 0)
  {
    var credit := shared as real + PARENT_CREDIT * related as real;
    var score := credit / union as real;
    assert score * union as real == credit;
  }

  /** The full area score is for those with exactly the item's areas, and none is for
      those with no area in common or one step away. */
  lemma AreaScoreExtremes(viewer: Viewer, item: Item, parents: map<Id, Option<Id>>)
    ensures AreaScore(viewer, item, parents) == 1.0 <==> viewer.areas == item.areas && item.areas != {}
    ensures AreaScore(viewer, item, parents) == 0.0 <==>
              viewer.areas * item.areas == {} && Related(viewer.areas, item.areas, parents) == {}
  {
    hide Related;
    var shared, related := viewer.areas * item.areas, Related(viewer.areas, item.areas, parents);
    var union := viewer.areas + item.areas;
    RelatedAreNew(viewer.areas, item.areas, parents);
    if viewer.areas != {} && item.areas != {} {
      SubsetIsSmaller(shared + related, union);
      assert |shared + related| == |shared| + |related|;
      assert union != {};
      HalfCreditExtremes(|shared|, |related|, |union|);
      if |shared| == |union| { EqualSizes(shared, union); }
      assert viewer.areas == item.areas <==> shared == union;
    }
  }

  lemma EqualSizes<T>(xs: set<T>, ys: set<T>)
    requires xs <= ys && |xs| == |ys|
    ensures xs == ys
  {
    if y :| y in ys && y !in xs {
      SubsetIsSmaller(xs, ys - {y});
    }
  }

  /** Handing a share of the total to semantic similarity keeps the weights an average
      exactly while the share is at most the whole. */
  lemma WithSemanticStaysAnAverage(w: ScoreWeights, share: real)
    requires w.IsAverage() && w.semantic == 0.0
    ensures w.WithSemantic(share).IsAverage() <==> share <= 1.0
  {
    var keep := 1.0 - share;
    if share > 0.0 {
      assert w.skill * keep + w.area * keep + w.text * keep == (w.skill + w.area + w.text) * keep == keep;
      if share <= 1.0 {
        ScaledStaysBelow(w.skill, keep);
        ScaledStaysBelow(w.area, keep);
        ScaledStaysBelow(w.text, keep);
      }
    }
  }

  lemma AverageIsAShare(w: ScoreWeights, a: real, b: real, c: real, d: real)
    requires w.IsAverage()
    requires 0.0 <= a <= 1.0 && 0.0 <= b <= 1.0 && 0.0 <= c <= 1.0 && 0.0 <= d <= 1.0
    ensures 0.0 <= w.Apply(a, b, c, d) <= 1.0
  {
    var p := Scaled(w.skill, a);
    var q := Scaled(w.area, b);
    var r := Scaled(w.text, c);
    var s := Scaled(w.semantic, d);
    assert 0.0 <= p + q + r + s <= 1.0;
  }

  /** Every unrounded score lies between 0 and 1. */
  lemma ScoreIsAShare(viewer: Viewer, item: Item, parents: map<Id, Option<Id>>, w: ScoreWeights, text: real, semantic: real)
    requires w.IsAverage() && NonNegative(item.skills) && 0.0 <= text <= 1.0 && semantic <= 1.0
    ensures 0.0 <= ScoreItem(viewer, item, parents, w, text, semantic).score <= 1.0
  {
    SkillScoreIsAShare(viewer, item);
    AreaScoreIsAShare(viewer, item, parents);
    hide SkillScore, AreaScore, ScoreWeights.Apply;
    var kept := if semantic > 0.0 then semantic else 0.0;
    AverageIsAShare(w, SkillScore(viewer, item), AreaScore(viewer, item, parents), text, kept);
  }

  // ----- what the numbers are -----

  /** Which component each weight multiplies: alone, a weight leaves its own component. */
  lemma WeightsGoToTheirComponents(viewer: Viewer, item: Item, parents: map<Id, Option<Id>>, w: ScoreWeights,
                                   text: real, semantic: real)
    ensures ScoreItem(viewer, item, parents, ScoreWeights(1.0, 0.0, 0.0, 0.0), text, semantic).score == SkillScore(viewer, item)
    ensures ScoreItem(viewer, item, parents, ScoreWeights(0.0, 1.0, 0.0, 0.0), text, semantic).score
         == AreaScore(viewer, item, parents)
    ensures ScoreItem(viewer, item, parents, ScoreWeights(0.0, 0.0, 1.0, 0.0), text, semantic).score == text
    ensures ScoreItem(viewer, item, parents, ScoreWeights(0.0, 0.0, 0.0, 1.0), text, semantic).score
         == if semantic < 0.0 then 0.0 else semantic
    ensures var b := ScoreItem(viewer, item, parents, w, text, semantic);
            (b.skill, b.area, b.text, b.semantic) == (SkillScore(viewer, item), AreaScore(viewer, item, parents), text, semantic)
  {
    hide SkillScore, AreaScore;
  }

  /** And the score is linear in the weights. */
  lemma ScoresAddUp(viewer: Viewer, item: Item, parents: map<Id, Option<Id>>, v: ScoreWeights, w: ScoreWeights, c: real,
                    text: real, semantic: real)
    ensures ScoreItem(viewer, item, parents,
                      ScoreWeights(v.skill + w.skill, v.area + w.area, v.text + w.text, v.semantic + w.semantic), text, semantic).score
         == ScoreItem(viewer, item, parents, v, text, semantic).score + ScoreItem(viewer, item, parents, w, text, semantic).score
    ensures ScoreItem(viewer, item, parents,
                      ScoreWeights(c * w.skill, c * w.area, c * w.text, c * w.semantic), text, semantic).score
         == c * ScoreItem(viewer, item, parents, w, text, semantic).score
  {
    hide SkillScore, AreaScore;
    var a, b, m := SkillScore(viewer, item), AreaScore(viewer, item, parents), if semantic > 0.0 then semantic else 0.0;
    LinearInWeights(v, w, c, a, b, text, m);
  }

  lemma LinearInWeights(v: ScoreWeights, w: ScoreWeights, c: real, a: real, b: real, t: real, m: real)
    ensures ScoreWeights(v.skill + w.skill, v.area + w.area, v.text + w.text, v.semantic + w.semantic).Apply(a, b, t, m)
         == v.Apply(a, b, t, m) + w.Apply(a, b, t, m)
    ensures ScoreWeights(c * w.skill, c * w.area, c * w.text, c * w.semantic).Apply(a, b, t, m) == c * w.Apply(a, b, t, m)
  {
  }

  /** A share of the total handed to semantic similarity is a blend: that share of it, and the
      rest of what the score was without. */
  lemma SemanticTakesItsShare(w: ScoreWeights, share: real, s: real, a: real, t: real, m: real)
    requires w.semantic == 0.0
    ensures w.WithSemantic(share).Apply(s, a, t, m) ==
              if share <= 0.0 then w.Apply(s, a, t, m) else (1.0 - share) * w.Apply(s, a, t, m) + share * m
  {
    if share > 0.0 {
      LinearInWeights(w, w, 1.0 - share, s, a, t, m);
    }
  }

  lemma {:induction false} WeightAppends(skills: Weighted, k: Id, w: real)
    ensures Weight(skills + [(k, w)]) == Weight(skills) + w
    decreases |skills|
  {
    if skills == [] {
      assert [] + [(k, w)] == [(k, w)] && [(k, w)][1..] == [];
    } else {
      assert (skills + [(k, w)])[1..] == skills[1..] + [(k, w)];
      WeightAppends(skills[1..], k, w);
    }
  }

  lemma {:induction false} MatchedAppends(viewer: map<Id, int>, skills: Weighted, k: Id, w: real)
    ensures Matched(viewer, skills + [(k, w)]) ==
              Matched(viewer, skills) + if k in viewer then w * ProficiencyFactor(viewer[k]) else 0.0
    decreases |skills|
  {
    if skills == [] {
      assert [] + [(k, w)] == [(k, w)] && [(k, w)][1..] == [];
    } else {
      assert (skills + [(k, w)])[1..] == skills[1..] + [(k, w)];
      MatchedAppends(viewer, skills[1..], k, w);
    }
  }

  lemma {:induction false} WeightIsPositive(skills: Weighted)
    requires skills != [] && forall i | 0 <= i < |skills| :: skills[i].1 > 0.0
    ensures Weight(skills) > 0.0
  {
    if |skills| > 1 { WeightIsPositive(skills[1..]); }
  }

  /** What a skill earns: nothing if the viewer lacks it, and with it half of its weight at
      level 1, all of it at level 5, and an eighth more with each level between. */
  function Earned(viewer: map<Id, int>, k: Id): real {
    if k !in viewer then 0.0
    else if viewer[k] <= 1 then 0.5
    else if viewer[k] >= 5 then 1.0
    else 0.5 + 0.125 * (viewer[k] - 1) as real
  }

  lemma EarnedByLevel(viewer: map<Id, int>, k: Id)
    ensures Earned(viewer, k) == if k in viewer then ProficiencyFactor(viewer[k]) else 0.0
  {
  }

  /** An item that asks for nothing, or attaches no weight to what it asks for, matches nobody by
      skill. */
  lemma NoWeightNoSkillScore(viewer: Viewer, item: Item)
    requires item.skills == [] || Weight(item.skills) == 0.0
    ensures SkillScore(viewer, item) == 0.0
  {
  }

  /** The skill score is the mean of what the skills earn, weighted as the item asks. */
  lemma SkillScoreIsTheWeightedMean(viewer: Viewer, item: Item, k: Id, w: real)
    requires w > 0.0 && forall i | 0 <= i < |item.skills| :: item.skills[i].1 > 0.0
    ensures SkillScore(viewer, item.(skills := [])) == 0.0
    ensures SkillScore(viewer, item.(skills := item.skills + [(k, w)])) * (Weight(item.skills) + w)
         == SkillScore(viewer, item) * Weight(item.skills) + w * Earned(viewer.skills, k)
  {
    var more := item.(skills := item.skills + [(k, w)]);
    hide Weight, Matched, ProficiencyFactor, Earned;
    WeightAppends(item.skills, k, w);
    MatchedAppends(viewer.skills, item.skills, k, w);
    EarnedByLevel(viewer.skills, k);
    WeightIsPositive(more.skills);
    TimesItsQuotient(Matched(viewer.skills, more.skills), Weight(more.skills));
    if item.skills == [] {
      NoSkillsNoWeight(viewer.skills);
    } else {
      WeightIsPositive(item.skills);
      TimesItsQuotient(Matched(viewer.skills, item.skills), Weight(item.skills));
    }
  }

  lemma NoSkillsNoWeight(viewer: map<Id, int>)
    ensures Weight([]) == 0.0 && Matched(viewer, []) == 0.0
  {
  }

  lemma TimesItsQuotient(a: real, b: real)
    requires b != 0.0
    ensures a / b * b == a
  {
  }

  /** The area score is a Jaccard index with half credit: the areas in common, and half for
      each area of the item that is a parent or a child of one of the viewer's, out of all areas. */
  lemma AreaScoreIsJaccard(viewer: Viewer, item: Item, parents: map<Id, Option<Id>>)
    ensures var near := set a | a in item.areas && a !in viewer.areas
                          && ((a in parents && parents[a].Some? && parents[a].value in viewer.areas)
                              || (exists v | v in viewer.areas :: v in parents && parents[v] == Some(a)));
            AreaScore(viewer, item, parents) * |viewer.areas + item.areas| as real
            == |viewer.areas * item.areas| as real + 0.5 * |near| as real
    ensures viewer.areas + item.areas == {} ==> AreaScore(viewer, item, parents) == 0.0
  {
    hide Related;
    var near := Related(viewer.areas, item.areas, parents);
    RelatedSpelledOut(viewer.areas, item.areas, parents);
    RelatedAreNew(viewer.areas, item.areas, parents);
    if viewer.areas == {} || item.areas == {} {
      assert viewer.areas * item.areas == {} && near == {};
    } else {
      var a :| a in viewer.areas;
      SubsetIsSmaller({a}, viewer.areas + item.areas);
      TimesItsQuotient(|viewer.areas * item.areas| as real + PARENT_CREDIT * |near| as real, |viewer.areas + item.areas| as real);
    }
  }

  lemma RelatedSpelledOut(viewer: set<Id>, item: set<Id>, parents: map<Id, Option<Id>>)
    ensures Related(viewer, item, parents) ==
              set a | a in item && a !in viewer
                && ((a in parents && parents[a].Some? && parents[a].value in viewer)
                    || (exists v | v in viewer :: v in parents && parents[v] == Some(a)))
  {
  }

  /** Learning a skill, or getting better at one, never lowers a skill score. */
  lemma {:induction false} MatchedGrows(less: map<Id, int>, more: map<Id, int>, skills: Weighted)
    requires NonNegative(skills)
    requires forall s | s in less :: s in more && less[s] <= more[s]
    ensures Matched(less, skills) <= Matched(more, skills)
  {
    if skills != [] {
      MatchedGrows(less, more, skills[1..]);
      var (s, w) := skills[0];
      if s in more {
        ScaledStaysBelow(w, ProficiencyFactor(more[s]));
        if s in less {
          var step := ProficiencyFactor(more[s]) - ProficiencyFactor(less[s]);
          ScaledStaysBelow(w, step);
          assert w * step == w * ProficiencyFactor(more[s]) - w * ProficiencyFactor(less[s]);
        }
      }
    }
  }
}
