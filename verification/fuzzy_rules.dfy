/**
 * The suitability inference engine: the rule bank as data, rule firing by
 * minimum (AND) and maximum (OR), accumulation of firing strengths per
 * output term, and the triangular output membership functions.
 *
 * Fuzzification of the crisp inputs (the library's automatic three-way
 * partition) and the centroid reduction of the aggregated output are library
 * internals; they enter as the two functions of a `FuzzySystem`, and
 * `ValidSystem` states the assumption made about them.
 */
module FuzzyRules {
  import opened Wrappers
  import opened Heroes

  /**
   * Linguistic terms. The partition of damage, durability, crowd control and
   * mobility is named low/medium/high, that of difficulty easy/medium/hard;
   * the output variable (suitability) uses low/medium/high.
   */
  datatype Term = Low | Medium | High | Easy | Hard

  /** The terms declared for an input variable. */
  function TermsOf(v: Attribute): set<Term>
  {
    if v == Difficulty then {Easy, Medium, Hard} else {Low, Medium, High}
  }

  predicate IsOutputTerm(t: Term)
  {
    t == Low || t == Medium || t == High
  }

  datatype Connective = And | Or

  /** One antecedent clause: `variable[term]`. */
  datatype Condition = Condition(variable: Attribute, term: Term)

  /** A rule: its clauses joined by one connective, and the output term it points to. */
  datatype Rule = Rule(connective: Connective, conditions: seq<Condition>, consequent: Term)

  /** A rule the control system accepts: at least one clause, declared terms only. */
  predicate WellFormedRule(r: Rule)
  {
    && |r.conditions| > 0
    && (forall k :: 0 <= k < |r.conditions| ==> r.conditions[k].term in TermsOf(r.conditions[k].variable))
    && IsOutputTerm(r.consequent)
  }

  predicate WellFormedBank(bank: seq<Rule>)
  {
    forall k :: 0 <= k < |bank| ==> WellFormedRule(bank[k])
  }

  /** The two clauses of a two-clause rule. */
  function Clauses(a: Attribute, s: Term, b: Attribute, t: Term): seq<Condition>
  {
    [Condition(a, s), Condition(b, t)]
  }

  /**
   * The 27 rules of the evaluator in declaration order, grouped as the
   * evaluator groups them (rule k is `RuleBank[k - 1]`). Every rule fires
   * for every hero, whatever its role.
   */
  const RuleBank: seq<Rule> :=
    TankRules + FighterRules + AssassinRules + MageRules + MarksmanRules + SupportRules + GeneralRules

  /** Rules written for the tank role. */
  const TankRules: seq<Rule> := [
    Rule(And, Clauses(Durability, High, CrowdControl, High), High),
    Rule(And, Clauses(Durability, High, CrowdControl, Medium), Medium),
    Rule(And, Clauses(Durability, Medium, CrowdControl, High), Medium),
    Rule(Or, Clauses(Durability, Low, CrowdControl, Low), Low)
  ]

  /** Rules written for the fighter role. */
  const FighterRules: seq<Rule> := [
    Rule(And, Clauses(Damage, Medium, Durability, Medium), Medium),
    Rule(And, Clauses(Damage, High, Durability, Medium), High),
    Rule(And, Clauses(Damage, Medium, Durability, High), High),
    Rule(And, Clauses(Damage, Low, Durability, Low), Low)
  ]

  /** Rules written for the assassin role. */
  const AssassinRules: seq<Rule> := [
    Rule(And, Clauses(Damage, High, Mobility, High), High),
    Rule(And, Clauses(Damage, High, Mobility, Medium), Medium),
    Rule(And, Clauses(Damage, Medium, Mobility, High), Medium),
    Rule(Or, Clauses(Damage, Low, Mobility, Low), Low)
  ]

  /** Rules written for the mage role. */
  const MageRules: seq<Rule> := [
    Rule(And, Clauses(Damage, High, CrowdControl, Medium), High),
    Rule(And, Clauses(Damage, High, CrowdControl, Low), Medium),
    Rule(And, Clauses(Damage, Medium, CrowdControl, High), High),
    Rule(And, Clauses(Damage, Low, CrowdControl, Low), Low)
  ]

  /** Rules written for the marksman role. */
  const MarksmanRules: seq<Rule> := [
    Rule(And, Clauses(Damage, High, Durability, Low), High),
    Rule(And, Clauses(Damage, Medium, Mobility, Medium), Medium),
    Rule(And, Clauses(Damage, High, Mobility, High), High),
    Rule(And, [Condition(Damage, Low)], Low)
  ]

  /** Rules written for the support role. */
  const SupportRules: seq<Rule> := [
    Rule(And, Clauses(CrowdControl, High, Durability, Medium), High),
    Rule(And, Clauses(CrowdControl, Medium, Mobility, High), High),
    Rule(And, Clauses(CrowdControl, Medium, Mobility, Medium), Medium),
    Rule(And, Clauses(CrowdControl, Low, Durability, Low), Low)
  ]

  /** Rules written for all roles. */
  const GeneralRules: seq<Rule> := [
    Rule(And, Clauses(Difficulty, Hard, Damage, High), Medium),
    Rule(And, Clauses(Difficulty, Easy, Mobility, High), High),
    Rule(And, [Condition(Difficulty, Medium), Condition(Durability, Medium), Condition(CrowdControl, Medium)], Medium)
  ]

  /** The output terms of the rules of `bank`, in order. */
  function Consequents(bank: seq<Rule>): (r: seq<Term>)
    ensures |r| == |bank|
    ensures forall k :: 0 <= k < |bank| ==> r[k] == bank[k].consequent
  {
    seq(|bank|, k requires 0 <= k < |bank| => bank[k].consequent)
  }

  /**
   * The shape of the shipped bank: 27 well-formed rules whose consequents are
   * the declared ones, in order.
   */
  lemma RuleBankShape()
    ensures |RuleBank| == 27
    ensures WellFormedBank(RuleBank)
    ensures Consequents(RuleBank) == DeclaredConsequents
  {
    RuleBankWellFormed();
    RuleBankConsequents();
  }

  lemma RuleBankWellFormed()
    ensures |RuleBank| == 27
    ensures WellFormedBank(RuleBank)
  {
    GroupsWellFormed();
    var g := TankRules;
    BankAppend(g, FighterRules);
    g := g + FighterRules;
    BankAppend(g, AssassinRules);
    g := g + AssassinRules;
    BankAppend(g, MageRules);
    g := g + MageRules;
    BankAppend(g, MarksmanRules);
    g := g + MarksmanRules;
    BankAppend(g, SupportRules);
    g := g + SupportRules;
    BankAppend(g, GeneralRules);
  }

  lemma GroupsWellFormed()
    ensures WellFormedBank(TankRules) && WellFormedBank(FighterRules) && WellFormedBank(AssassinRules)
    ensures WellFormedBank(MageRules) && WellFormedBank(MarksmanRules) && WellFormedBank(SupportRules)
    ensures WellFormedBank(GeneralRules)
  {
    RoleGroupsWellFormed();
    SupportGeneralWellFormed();
  }

  lemma RoleGroupsWellFormed()
    ensures WellFormedBank(TankRules) && WellFormedBank(FighterRules) && WellFormedBank(AssassinRules)
    ensures WellFormedBank(MageRules) && WellFormedBank(MarksmanRules)
  {
  }

  lemma SupportGeneralWellFormed()
    ensures WellFormedBank(SupportRules) && WellFormedBank(GeneralRules)
  {
  }

  lemma BankAppend(a: seq<Rule>, b: seq<Rule>)
    requires WellFormedBank(a) && WellFormedBank(b)
    ensures WellFormedBank(a + b)
  {
    forall k | 0 <= k < |a + b| ensures WellFormedRule((a + b)[k]) {
      if k >= |a| {
        assert (a + b)[k] == b[k - |a|];
      }
    }
  }

  /** The consequents of rules 1 to 27, as declared, group by group. */
  const DeclaredConsequents: seq<Term> :=
    [High, Medium, Medium, Low] + [Medium, High, High, Low] + [High, Medium, Medium, Low]
    + [High, Medium, High, Low] + [High, Medium, High, Low] + [High, High, Medium, Low]
    + [Medium, High, Medium]

  lemma ConsequentsAppend(a: seq<Rule>, b: seq<Rule>)
    ensures Consequents(a + b) == Consequents(a) + Consequents(b)
  {
  }

  /** The bank's consequents are the declared ones. */
  lemma RuleBankConsequents()
    ensures Consequents(RuleBank) == DeclaredConsequents
  {
    ConsequentsAppend(TankRules, FighterRules);
    ConsequentsAppend(TankRules + FighterRules, AssassinRules);
    ConsequentsAppend(TankRules + FighterRules + AssassinRules, MageRules);
    ConsequentsAppend(TankRules + FighterRules + AssassinRules + MageRules, MarksmanRules);
    ConsequentsAppend(TankRules + FighterRules + AssassinRules + MageRules + MarksmanRules, SupportRules);
    ConsequentsAppend(TankRules + FighterRules + AssassinRules + MageRules + MarksmanRules + SupportRules, GeneralRules);
    GroupConsequents();
  }

  lemma GroupConsequents()
    ensures Consequents(TankRules) == [High, Medium, Medium, Low]
    ensures Consequents(FighterRules) == [Medium, High, High, Low]
    ensures Consequents(AssassinRules) == [High, Medium, Medium, Low]
    ensures Consequents(MageRules) == [High, Medium, High, Low]
    ensures Consequents(MarksmanRules) == [High, Medium, High, Low]
    ensures Consequents(SupportRules) == [High, High, Medium, Low]
    ensures Consequents(GeneralRules) == [Medium, High, Medium]
  {
  }

  /** Rules 9 and 19 are the same rule (high damage and high mobility give high suitability). */
  lemma DuplicateRule()
    ensures RuleBank[8] == RuleBank[18]
  {
  }

  /** Rules 4 and 12 are the two OR rules of the bank. */
  lemma OrRules()
    ensures RuleBank[3].connective == Or && RuleBank[11].connective == Or
    ensures RuleBank[3].conditions == [Condition(Durability, Low), Condition(CrowdControl, Low)]
    ensures RuleBank[11].conditions == [Condition(Damage, Low), Condition(Mobility, Low)]
  {
  }

  /** Membership degrees of the current crisp inputs: variable and term to a degree. */
  type Degrees = (Attribute, Term) -> real

  function DegreeOf(deg: Degrees, c: Condition): real
  {
    deg(c.variable, c.term)
  }

  ghost predicate DegreesInUnit(deg: Degrees)
  {
    forall v, t :: 0.0 <= deg(v, t) <= 1.0
  }

  function Min(a: real, b: real): real
  {
    if a <= b then a else b
  }

  function Max(a: real, b: real): real
  {
    if a >= b then a else b
  }

  /** Folds the clause degrees with the connective: fmin for AND, fmax for OR. */
  function Combine(op: Connective, conds: seq<Condition>, deg: Degrees): (s: real)
    requires |conds| > 0
    ensures exists k :: 0 <= k < |conds| && s == DegreeOf(deg, conds[k])
    ensures op == And ==> forall k :: 0 <= k < |conds| ==> s <= DegreeOf(deg, conds[k])
    ensures op == Or ==> forall k :: 0 <= k < |conds| ==> DegreeOf(deg, conds[k]) <= s
  {
    if |conds| == 1 then DegreeOf(deg, conds[0])
    else
      var rest := Combine(op, conds[1..], deg);
      var s := if op == And then Min(DegreeOf(deg, conds[0]), rest) else Max(DegreeOf(deg, conds[0]), rest);
      assert forall k :: 1 <= k < |conds| ==> conds[k] == conds[1..][k - 1];
      s
  }

  /**
   * The firing strength of a rule: the least of its clause degrees for an
   * AND rule, the greatest for an OR rule; always one of the clause degrees.
   */
  function FiringStrength(r: Rule, deg: Degrees): (s: real)
    requires |r.conditions| > 0
    ensures exists k :: 0 <= k < |r.conditions| && s == DegreeOf(deg, r.conditions[k])
    ensures r.connective == And ==> forall k :: 0 <= k < |r.conditions| ==> s <= DegreeOf(deg, r.conditions[k])
    ensures r.connective == Or ==> forall k :: 0 <= k < |r.conditions| ==> DegreeOf(deg, r.conditions[k]) <= s
    ensures DegreesInUnit(deg) ==> 0.0 <= s <= 1.0
  {
    Combine(r.connective, r.conditions, deg)
  }

  /**
   * The activation of output term `t`: the greatest firing strength of the
   * rules pointing to `t` (fmax accumulation), 0 when none does.
   */
  function Activation(bank: seq<Rule>, deg: Degrees, t: Term): (a: real)
    requires forall k :: 0 <= k < |bank| ==> |bank[k].conditions| > 0
    ensures 0.0 <= a
    ensures forall k :: 0 <= k < |bank| && bank[k].consequent == t ==> FiringStrength(bank[k], deg) <= a
    ensures a == 0.0 || exists k :: 0 <= k < |bank| && bank[k].consequent == t && a == FiringStrength(bank[k], deg)
    ensures DegreesInUnit(deg) ==> a <= 1.0
  {
    if |bank| == 0 then 0.0
    else
      var last := bank[|bank| - 1];
      var prefix := bank[..|bank| - 1];
      var a := Activation(prefix, deg, t);
      assert forall k :: 0 <= k < |prefix| ==> prefix[k] == bank[k];
      if last.consequent == t then Max(FiringStrength(last, deg), a) else a
  }

  /** The activation of the three output terms. */
  datatype Activations = Activations(low: real, medium: real, high: real)

  predicate ActivationsInUnit(act: Activations)
  {
    0.0 <= act.low <= 1.0 && 0.0 <= act.medium <= 1.0 && 0.0 <= act.high <= 1.0
  }

  /** Fires the shipped bank on the given degrees. */
  function Activate(deg: Degrees): (act: Activations)
    ensures DegreesInUnit(deg) ==> ActivationsInUnit(act)
  {
    RuleBankShape();
    Activations(Activation(RuleBank, deg, Low), Activation(RuleBank, deg, Medium), Activation(RuleBank, deg, High))
  }

  /**
   * The triangular membership function with feet `a`, `c` and peak `b`:
   * rising linearly on (a, b), falling on (b, c), 1 at `b`, 0 elsewhere.
   */
  function Trimf(a: real, b: real, c: real, x: real): (y: real)
    requires a <= b <= c
    ensures 0.0 <= y <= 1.0
    ensures y == 1.0 <==> x == b
    ensures y > 0.0 <==> x == b || a < x < c
  {
    if x == b then 1.0
    else if a < x < b then
      FractionBelowOne(x - a, b - a);
      (x - a) / (b - a)
    else if b < x < c then
      FractionBelowOne(c - x, c - b);
      (c - x) / (c - b)
    else 0.0
  }

  lemma FractionBelowOne(n: real, d: real)
    requires 0.0 < n < d
    ensures 0.0 < n / d < 1.0
  {
    var q := n / d;
    assert q * d == n;
    if q >= 1.0 {
      assert false;
    }
    if q <= 0.0 {
      assert false;
    }
  }

  /** The output membership functions of suitability over its universe [0, 100]. */
  function OutputMembership(t: Term, x: real): real
    requires IsOutputTerm(t)
  {
    match t
    case Low => Trimf(0.0, 0.0, 50.0, x)
    case Medium => Trimf(25.0, 50.0, 75.0, x)
    case High => Trimf(50.0, 100.0, 100.0, x)
  }

  /**
   * Each output term peaks at exactly one point (low at 0, medium at 50, high
   * at 100) and vanishes outside its support.
   */
  lemma OutputMembershipShape(x: real)
    ensures OutputMembership(Low, x) == 1.0 <==> x == 0.0
    ensures OutputMembership(Medium, x) == 1.0 <==> x == 50.0
    ensures OutputMembership(High, x) == 1.0 <==> x == 100.0
    ensures OutputMembership(Low, x) > 0.0 <==> 0.0 <= x < 50.0
    ensures OutputMembership(Medium, x) > 0.0 <==> 25.0 < x < 75.0
    ensures OutputMembership(High, x) > 0.0 <==> 50.0 < x <= 100.0
  {
  }

  /** The three output terms clipped at their activations and joined by maximum. */
  function Aggregated(act: Activations, x: real): (y: real)
    ensures y <= Max(act.low, Max(act.medium, act.high))
    ensures ActivationsInUnit(act) ==> 0.0 <= y <= 1.0
    ensures ActivationsInUnit(act) && (x < 0.0 || x > 100.0) ==> y == 0.0
  {
    Max(Min(act.low, OutputMembership(Low, x)),
        Max(Min(act.medium, OutputMembership(Medium, x)), Min(act.high, OutputMembership(High, x))))
  }

  /**
   * The aggregated output as a curve over the output universe, the shape the
   * centroid is taken of. For activations in [0, 1] it stays in [0, 1].
   */
  function OutputCurve(act: Activations): (curve: real -> real)
    ensures forall x :: curve(x) == Aggregated(act, x)
    ensures ActivationsInUnit(act) ==> forall x :: 0.0 <= curve(x) <= 1.0
  {
    x => Aggregated(act, x)
  }

  /**
   * The two library steps the engine relies on: `membership(v, t, x)` is the
   * degree of crisp value `x` of variable `v` in term `t` (inputs outside the
   * universe clipped to it first); `centroid` reduces an aggregated output
   * curve over the universe [0, 100] to a crisp score, or fails (the library
   * raises).
   */
  datatype FuzzySystem = FuzzySystem(membership: (Attribute, Term, real) -> real, centroid: (real -> real) -> Option<real>)

  /**
   * The assumption made about the library: membership degrees lie in [0, 1]
   * and a crisp output lies in the declared output universe [0, 100].
   */
  ghost predicate ValidSystem(sys: FuzzySystem)
  {
    && (forall v, t, x :: 0.0 <= sys.membership(v, t, x) <= 1.0)
    && (forall curve :: sys.centroid(curve).Some? ==> 0.0 <= sys.centroid(curve).value <= 100.0)
  }

  /** The membership degrees of a hero's five core attributes. */
  function Fuzzify(sys: FuzzySystem, p: Profile): Degrees
  {
    (v, t) => sys.membership(v, t, Get(p, v))
  }

  /**
   * Runs the control system on a hero's core attributes: fuzzify, fire the
   * bank, accumulate, clip and join the output terms, defuzzify. Under the
   * library assumption the curve handed to the centroid lies in [0, 1] and
   * the crisp suitability in [0, 100].
   */
  function Infer(sys: FuzzySystem, p: Profile): (r: Option<real>)
    ensures ValidSystem(sys) && r.Some? ==> 0.0 <= r.value <= 100.0
    ensures ValidSystem(sys) ==> ActivationsInUnit(Activate(Fuzzify(sys, p)))
    ensures ValidSystem(sys) ==> forall x :: 0.0 <= OutputCurve(Activate(Fuzzify(sys, p)))(x) <= 1.0
  {
    FuzzifyInUnit(sys, p);
    sys.centroid(OutputCurve(Activate(Fuzzify(sys, p))))
  }

  /** A valid system fuzzifies every profile into degrees in [0, 1]. */
  lemma FuzzifyInUnit(sys: FuzzySystem, p: Profile)
    ensures ValidSystem(sys) ==> DegreesInUnit(Fuzzify(sys, p))
  {
  }
}
