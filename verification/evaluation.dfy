/**
 * Evaluation of one hero against a user's preferences: the rule-based
 * suitability, the per-attribute preference match and its mean, the blended
 * final score, and the zeroed payload returned when anything raises.
 */
module Evaluation {
  import opened Wrappers
  import opened Heroes
  import opened FuzzyRules

  /** Preferences: attribute key to desired value. A missing dictionary is the empty map. */
  type Preferences = map<string, real>

  /** What made an evaluation fail. */
  datatype EvalError =
    | MissingPreference(key: string)  // a non-empty preference map lacks a core key (KeyError)
    | InferenceFailed                 // the control system raised while computing

  /**
   * An evaluation result. A failure carries the same three scores, all zero,
   * and none of the echoed fields.
   */
  datatype EvaluationResult =
    | Scored(suitabilityScore: real, preferenceMatch: real, finalScore: real,
             attributes: Profile, strengths: seq<string>, weaknesses: seq<string>)
    | Failed(error: EvalError, suitabilityScore: real, preferenceMatch: real, finalScore: real)

  function Abs(x: real): real
  {
    if x < 0.0 then -x else x
  }

  /**
   * The match of one attribute: 100 minus the distance as a percentage of the
   * ten-point scale. Not clamped: values further apart than 10 score below 0.
   */
  function AttributeMatch(pref: real, actual: real): (m: real)
    ensures m <= 100.0
    ensures m == 100.0 <==> pref == actual
    ensures m == 0.0 <==> Abs(pref - actual) == 10.0
    ensures m < 0.0 <==> Abs(pref - actual) > 10.0
    ensures 0.0 <= pref <= 10.0 && 0.0 <= actual <= 10.0 ==> 0.0 <= m
  {
    100.0 - Abs(pref - actual) / 10.0 * 100.0
  }

  /** Swapping preference and hero value does not change the match. */
  lemma AttributeMatchSymmetric(a: real, b: real)
    ensures AttributeMatch(a, b) == AttributeMatch(b, a)
  {
  }

  /** The match of attribute `a` between the preferences and a profile. */
  function MatchOf(prefs: Preferences, p: Profile, a: Attribute): real
    requires Key(a) in prefs
  {
    AttributeMatch(prefs[Key(a)], Get(p, a))
  }

  /** Every attribute of `attrs` has a preference. */
  predicate AllPresent(prefs: Preferences, attrs: seq<Attribute>)
  {
    forall k :: 0 <= k < |attrs| ==> Key(attrs[k]) in prefs
  }

  /**
   * The matches of `attrs`, visited in order; the first attribute without a
   * preference raises KeyError.
   */
  function MatchScores(prefs: Preferences, p: Profile, attrs: seq<Attribute>): (r: Result<seq<real>, EvalError>)
    ensures r.Ok? <==> AllPresent(prefs, attrs)
    ensures r.Ok? ==> |r.value| == |attrs|
                      && forall k :: 0 <= k < |attrs| ==> r.value[k] == MatchOf(prefs, p, attrs[k])
    ensures r.Err? ==> exists k :: 0 <= k < |attrs| && Key(attrs[k]) !in prefs
                         && r.error == MissingPreference(Key(attrs[k])) && AllPresent(prefs, attrs[..k])
  {
    if |attrs| == 0 then Ok([])
    else if Key(attrs[0]) !in prefs then
      assert AllPresent(prefs, attrs[..0]);
      Err(MissingPreference(Key(attrs[0])))
    else
      var rest := MatchScores(prefs, p, attrs[1..]);
      assert forall k :: 1 <= k < |attrs| ==> attrs[k] == attrs[1..][k - 1];
      match rest
      case Err(e) =>
        assert exists k :: 0 <= k < |attrs| && Key(attrs[k]) !in prefs
                 && e == MissingPreference(Key(attrs[k])) && AllPresent(prefs, attrs[..k]) by {
          var j :| 0 <= j < |attrs[1..]| && Key(attrs[1..][j]) !in prefs
                   && e == MissingPreference(Key(attrs[1..][j])) && AllPresent(prefs, attrs[1..][..j]);
          assert attrs[..j + 1] == [attrs[0]] + attrs[1..][..j];
        }
        Err(e)
      case Ok(s) => Ok([MatchOf(prefs, p, attrs[0])] + s)
  }

  function Sum(s: seq<real>): real
  {
    if |s| == 0 then 0.0 else s[0] + Sum(s[1..])
  }

  /** Every core key is present exactly when each attribute visited by the evaluator is. */
  lemma AllPresentCore(prefs: Preferences)
    ensures AllPresent(prefs, CoreAttributes) <==> forall a :: Key(a) in prefs
  {
    if AllPresent(prefs, CoreAttributes) {
      forall a ensures Key(a) in prefs {
        assert CoreAttributes[Position(a)] == a;
      }
    }
  }

  lemma SumOfFive(s: seq<real>)
    requires |s| == 5
    ensures Sum(s) == s[0] + s[1] + s[2] + s[3] + s[4]
  {
    assert s[1..][1..] == s[2..] && s[2..][1..] == s[3..] && s[3..][1..] == s[4..] && s[4..][1..] == [];
    assert Sum(s[4..]) == s[4];
    assert Sum(s[3..]) == s[3] + Sum(s[4..]);
    assert Sum(s[2..]) == s[2] + Sum(s[3..]);
    assert Sum(s[1..]) == s[1] + Sum(s[2..]);
  }

  /**
   * The preference match: 0 for an empty preference map, otherwise the mean
   * of the five core matches, or the KeyError of the first missing one.
   */
  function PreferenceMatch(prefs: Preferences, p: Profile): (r: Result<real, EvalError>)
    ensures |prefs| == 0 ==> r == Ok(0.0)
    ensures r.Err? <==> |prefs| > 0 && exists a :: Key(a) !in prefs
    ensures r.Ok? && |prefs| > 0 ==>
      && (forall a :: Key(a) in prefs)
      && r.value == (MatchOf(prefs, p, Damage) + MatchOf(prefs, p, Durability)
        + MatchOf(prefs, p, CrowdControl) + MatchOf(prefs, p, Mobility) + MatchOf(prefs, p, Difficulty)) / 5.0
    ensures r.Err? ==> exists k :: 0 <= k < |CoreAttributes| && r.error == MissingPreference(Key(CoreAttributes[k]))
                         && Key(CoreAttributes[k]) !in prefs && AllPresent(prefs, CoreAttributes[..k])
  {
    if |prefs| == 0 then Ok(0.0)
    else
      var scores := MatchScores(prefs, p, CoreAttributes);
      AllPresentCore(prefs);
      match scores
      case Err(e) => Err(e)
      case Ok(s) =>
        var m := if |s| > 0 then Sum(s) / (|s| as real) else 0.0;
        SumOfFive(s);
        Ok(m)
  }

  /** With every preference and every attribute in [0, 10], the preference match is in [0, 100]. */
  lemma PreferenceMatchBounds(prefs: Preferences, p: Profile)
    requires forall key :: key in prefs ==> 0.0 <= prefs[key] <= 10.0
    requires InUniverse(p)
    ensures PreferenceMatch(prefs, p).Ok? ==> 0.0 <= PreferenceMatch(prefs, p).value <= 100.0
  {
    if |prefs| > 0 && PreferenceMatch(prefs, p).Ok? {
      forall a ensures 0.0 <= MatchOf(prefs, p, a) <= 100.0 {
        assert 0.0 <= Get(p, a) <= 10.0;
      }
    }
  }

  /** Preferences equal to the hero's five attributes match at 100. */
  lemma PreferenceMatchExact(prefs: Preferences, p: Profile)
    requires forall a :: Key(a) in prefs && prefs[Key(a)] == Get(p, a)
    ensures PreferenceMatch(prefs, p) == Ok(100.0)
  {
    assert Key(Damage) in prefs;
  }

  /** Preferences ten points away from every attribute match at 0. */
  lemma PreferenceMatchOpposite(prefs: Preferences, p: Profile)
    requires forall a :: Key(a) in prefs && Abs(prefs[Key(a)] - Get(p, a)) == 10.0
    ensures PreferenceMatch(prefs, p) == Ok(0.0)
  {
    assert Key(Damage) in prefs;
  }

  /** The blend: 60% suitability, 40% preference match. */
  function FinalScore(suitability: real, preference: real): (f: real)
    ensures Min(suitability, preference) <= f <= Max(suitability, preference)
    ensures suitability == preference ==> f == suitability
  {
    0.6 * suitability + 0.4 * preference
  }

  /** Rounds to the nearest integer, a tie going to the even neighbour. */
  function RoundHalfEven(y: real): (m: int)
    ensures -0.5 <= m as real - y <= 0.5
    ensures y.Floor as real == y ==> m == y.Floor
    ensures y - y.Floor as real == 0.5 ==> m % 2 == 0
  {
    var n := y.Floor;
    var frac := y - n as real;
    if frac > 0.5 || (frac == 0.5 && n % 2 != 0) then n + 1 else n
  }

  /** `x` has at most two decimal places. */
  predicate IsCents(x: real)
  {
    (x * 100.0).Floor as real == x * 100.0
  }

  /**
   * Rounding to two decimal places, ties to even, as the payload's scores
   * are rounded: the result has two decimals and is within half a cent.
   */
  function Round2(x: real): (r: real)
    ensures IsCents(r)
    ensures -0.005 <= r - x <= 0.005
  {
    var m := RoundHalfEven(x * 100.0);
    assert (m as real / 100.0) * 100.0 == m as real;
    m as real / 100.0
  }

  /** A value that already has two decimals is left alone, so rounding is idempotent. */
  lemma Round2Fixed(x: real)
    requires IsCents(x)
    ensures Round2(x) == x
    ensures Round2(Round2(x)) == Round2(x)
  {
  }

  /** Rounding never swaps two scores; it can only make them equal. */
  lemma Round2Monotone(x: real, y: real)
    requires x <= y
    ensures Round2(x) <= Round2(y)
  {
    var a, b := x * 100.0, y * 100.0;
    if a.Floor < b.Floor {
      assert RoundHalfEven(a) <= a.Floor + 1 <= b.Floor <= RoundHalfEven(b);
    }
  }

  /**
   * `evaluate_hero`: run the control system on the hero's core attributes,
   * compute the preference match, blend the two, round the three scores to
   * two decimals and echo the hero's attributes, strengths and weaknesses. A
   * failure in either step (the control system first) yields the zeroed
   * error payload.
   */
  function Evaluate(sys: FuzzySystem, hero: Hero, prefs: Preferences): (r: EvaluationResult)
    ensures r.Failed? <==> Infer(sys, ProfileOf(hero)).None? || PreferenceMatch(prefs, ProfileOf(hero)).Err?
    ensures r.Failed? ==> r.suitabilityScore == 0.0 && r.preferenceMatch == 0.0 && r.finalScore == 0.0
    ensures r.Failed? ==> (r.error == InferenceFailed <==> Infer(sys, ProfileOf(hero)).None?)
    ensures r.Failed? && r.error.MissingPreference? ==> r.error.key !in prefs
    ensures r.Scored? ==> && r.attributes == ProfileOf(hero)
                          && r.strengths == hero.strengths
                          && r.weaknesses == hero.weaknesses
    ensures r.Scored? ==> && IsCents(r.suitabilityScore) && IsCents(r.preferenceMatch) && IsCents(r.finalScore)
    ensures r.Scored? ==> && Infer(sys, ProfileOf(hero)).Some?
                          && PreferenceMatch(prefs, ProfileOf(hero)).Ok?
                          && var s := Infer(sys, ProfileOf(hero)).value;
                             var m := PreferenceMatch(prefs, ProfileOf(hero)).value;
                             && -0.005 <= r.suitabilityScore - s <= 0.005
                             && -0.005 <= r.preferenceMatch - m <= 0.005
                             && Round2(Min(s, m)) <= r.finalScore <= Round2(Max(s, m))
    ensures ValidSystem(sys) && r.Scored? ==> 0.0 <= r.suitabilityScore <= 100.0
  {
    var p := ProfileOf(hero);
    match Infer(sys, p)
    case None => Failed(InferenceFailed, 0.0, 0.0, 0.0)
    case Some(s) =>
      match PreferenceMatch(prefs, p)
      case Err(e) => Failed(e, 0.0, 0.0, 0.0)
      case Ok(m) =>
        var f := FinalScore(s, m);
        Round2Monotone(Min(s, m), f);
        Round2Monotone(f, Max(s, m));
        RoundedUnit(s);
        Scored(Round2(s), Round2(m), Round2(f), p, hero.strengths, hero.weaknesses)
  }

  /** When both steps succeed, the payload carries the three rounded scores. */
  lemma EvaluateScored(sys: FuzzySystem, hero: Hero, prefs: Preferences, s: real, m: real)
    requires Infer(sys, ProfileOf(hero)) == Some(s)
    requires PreferenceMatch(prefs, ProfileOf(hero)) == Ok(m)
    ensures Evaluate(sys, hero, prefs).Scored?
    ensures Evaluate(sys, hero, prefs).suitabilityScore == Round2(s)
    ensures Evaluate(sys, hero, prefs).preferenceMatch == Round2(m)
    ensures Evaluate(sys, hero, prefs).finalScore == Round2(FinalScore(s, m))
  {
  }

  /** Rounding keeps a score in [0, 100]. */
  lemma RoundedUnit(x: real)
    ensures 0.0 <= x <= 100.0 ==> 0.0 <= Round2(x) <= 100.0
  {
    if 0.0 <= x <= 100.0 {
      Round2Monotone(0.0, x);
      Round2Monotone(x, 100.0);
      Round2Fixed(0.0);
      Round2Fixed(100.0);
    }
  }

  /**
   * With a valid control system, attributes and preferences in [0, 10], every
   * score of an evaluation lies in [0, 100].
   */
  lemma EvaluateBounds(sys: FuzzySystem, hero: Hero, prefs: Preferences)
    requires ValidSystem(sys)
    requires InUniverse(ProfileOf(hero))
    requires forall key :: key in prefs ==> 0.0 <= prefs[key] <= 10.0
    ensures 0.0 <= Evaluate(sys, hero, prefs).suitabilityScore <= 100.0
    ensures 0.0 <= Evaluate(sys, hero, prefs).preferenceMatch <= 100.0
    ensures 0.0 <= Evaluate(sys, hero, prefs).finalScore <= 100.0
  {
    var p := ProfileOf(hero);
    PreferenceMatchBounds(prefs, p);
    if Infer(sys, p).Some? && PreferenceMatch(prefs, p).Ok? {
      var s, m := Infer(sys, p).value, PreferenceMatch(prefs, p).value;
      RoundedUnit(s);
      RoundedUnit(m);
      RoundedUnit(FinalScore(s, m));
    }
  }
}
