/**
 * How the pieces compose on the shipped data: the worked example of the
 * first tank, and recommendations restricted to one role.
 */
module Scenarios {
  import opened Wrappers
  import opened Heroes
  import opened FuzzyRules
  import opened Evaluation
  import opened Ranking
  import Catalog
  import HeroTable

  /** Preferences that put every core attribute at the midpoint 5 (other keys are ignored). */
  predicate AtMidpoint(prefs: Preferences)
  {
    forall a :: Key(a) in prefs && prefs[Key(a)] == 5.0
  }

  /**
   * Tigreal (damage 3, durability 8, crowd control 9, mobility 4, difficulty 2)
   * against midpoint preferences: the five matches are 80, 70, 60, 90 and 70,
   * so the preference match is 74.
   */
  lemma TigrealMidpointMatch(prefs: Preferences)
    requires AtMidpoint(prefs)
    ensures PreferenceMatch(prefs, ProfileOf(HeroTable.Tigreal)) == Ok(74.0)
  {
    var p := ProfileOf(HeroTable.Tigreal);
    assert MatchOf(prefs, p, Damage) == 80.0;
    assert MatchOf(prefs, p, Durability) == 70.0;
    assert MatchOf(prefs, p, CrowdControl) == 60.0;
    assert MatchOf(prefs, p, Mobility) == 90.0;
    assert MatchOf(prefs, p, Difficulty) == 70.0;
    assert Key(Damage) in prefs;
  }

  /**
   * A hero whose preference match is a two-decimal value `m` reports `m`
   * unchanged and a final score of 0.6 s + 0.4 m, rounded, whenever the
   * control system yields a suitability s.
   */
  lemma ScoredWithMatch(sys: FuzzySystem, hero: Hero, prefs: Preferences, m: real)
    requires PreferenceMatch(prefs, ProfileOf(hero)) == Ok(m)
    requires IsCents(m)
    ensures Infer(sys, ProfileOf(hero)).Some? ==>
      && Evaluate(sys, hero, prefs).Scored?
      && Evaluate(sys, hero, prefs).preferenceMatch == m
      && Evaluate(sys, hero, prefs).finalScore == Round2(FinalScore(Infer(sys, ProfileOf(hero)).value, m))
  {
    var p := ProfileOf(hero);
    if Infer(sys, p).Some? {
      Round2Fixed(m);
      EvaluateScored(sys, hero, prefs, Infer(sys, p).value, m);
    }
  }

  /**
   * Whatever suitability s the control system yields for Tigreal, the payload
   * reports a preference match of 74 and a final score of 0.6 s + 29.6,
   * rounded to two decimals.
   */
  lemma TigrealAtMidpoint(sys: FuzzySystem, prefs: Preferences)
    requires AtMidpoint(prefs)
    ensures Infer(sys, ProfileOf(HeroTable.Tigreal)).Some? ==>
      && Evaluate(sys, HeroTable.Tigreal, prefs).Scored?
      && Evaluate(sys, HeroTable.Tigreal, prefs).preferenceMatch == 74.0
      && Evaluate(sys, HeroTable.Tigreal, prefs).finalScore
           == Round2(FinalScore(Infer(sys, ProfileOf(HeroTable.Tigreal)).value, 74.0))
      && FinalScore(Infer(sys, ProfileOf(HeroTable.Tigreal)).value, 74.0)
           == 0.6 * Infer(sys, ProfileOf(HeroTable.Tigreal)).value + 29.6
  {
    TigrealMidpointMatch(prefs);
    ScoredWithMatch(sys, HeroTable.Tigreal, prefs, 74.0);
  }

  /**
   * Recommendations for one role, as the application asks for them: the
   * catalog filtered by role, then ranked. Every entry is a hero of that role,
   * none is dropped, and the list is the stable descending sort.
   */
  method RoleRecommendations(sys: FuzzySystem, catalog: seq<Hero>, role: string, prefs: Preferences)
    returns (r: seq<Recommendation>)
    ensures |r| == |Catalog.HeroesByRole(catalog, role)|
    ensures forall i :: 0 <= i < |r| ==> r[i].hero.role == role && r[i].hero in catalog
    ensures IsStableDescendingSort(Entries(sys, Catalog.HeroesByRole(catalog, role), prefs), r)
  {
    var heroes := Catalog.HeroesByRole(catalog, role);
    r := Recommendations(sys, heroes, prefs);
    forall i | 0 <= i < |r| ensures r[i].hero.role == role && r[i].hero in catalog {
      assert multiset(heroes)[r[i].hero] > 0;
    }
  }
}
