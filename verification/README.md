# Hero evaluation engine — a Dafny model

This project models the core of a hero recommender for a multiplayer battle
game. The heroes come from a fixed catalog of thirty records. Each record has
an id, a name, a role and five core attributes on a 0–10 scale: damage,
durability, crowd control, mobility and difficulty. It also carries
statistics, strengths, weaknesses and a description.

The engine evaluates one hero against a user's preference vector in three
steps:

- A fuzzy rule base of 27 Mamdani rules produces a *suitability* score in
  [0, 100]. AND fires by minimum, OR by maximum, and each output term
  accumulates by maximum. Triangular output terms are clipped and joined, and
  the result is defuzzified by centroid.
- A *preference match* is computed: the mean of the five per-attribute
  matches `100 - |preference - actual| / 10 * 100`.
- The two are blended as `0.6 * suitability + 0.4 * preference match`.

The three scores are rounded to two decimals. The hero's attributes,
strengths and weaknesses are echoed. If anything raises, the caller gets a
zeroed error payload. The ranker evaluates every hero of a list and sorts the
entries by final score, highest first, keeping list order among equal
scores. The catalog queries are: all heroes, lookup by id, filter by role,
and the sorted distinct roles.

Modules, one file each:

- `Wrappers` (`wrappers.dfy`): `Option` and `Result`.
- `Heroes` (`heroes.dfy`): the hero record, its five core attributes and the
  preference keys.
- `HeroTable` (`hero_table.dfy`): the thirty shipped records, field for
  field.
- `StringOrder` (`string_order.dfy`): the code-point order Python's `sorted`
  uses on strings, with its order laws.
- `Catalog` (`catalog.dfy`): the four catalog queries. Each takes the
  catalog as a parameter; `AllHeroes` supplies the shipped table. The module
  also holds the facts about the shipped table: distinct ids, attributes in
  range, and the six roles.
- `FuzzyRules` (`fuzzy_rules.dfy`): the rule bank as data, rule firing,
  accumulation, the triangular output terms, aggregation and inference.
- `Evaluation` (`evaluation.dfy`): the attribute match, the preference match,
  the blend, two-decimal rounding, and `evaluate_hero` with its error
  payload.
- `Ranking` (`ranking.dfy`): the stable descending sort and
  `get_hero_recommendations`.
- `Scenarios` (`scenarios.dfy`): a worked example on the first record, and
  recommendations restricted to one role.

The numerical library the rule engine runs on does two steps the model keeps
abstract:

- the automatic three-term input memberships;
- centroid defuzzification.

Both are fields of a `FuzzySystem` value. `ValidSystem` states what the model
assumes of them: membership degrees lie in [0, 1], and a centroid, when it
exists, lies in the output universe [0, 100]. A centroid that does not exist
(zero total membership makes the library raise) is `None`. That is the path
to the error payload.

Behaviour of the code that the model keeps as written:

- The per-attribute match is **not clamped** (fuzzy_logic.py:116). A
  preference further than 10 from the attribute gives a negative match.
- A non-empty preference map that lacks a core key **raises a KeyError**
  (fuzzy_logic.py:113-116). That yields the zeroed error payload, and the
  model reports the first missing key. An empty or missing preference map
  gives a preference match of 0 (fuzzy_logic.py:113, 119).
- Heroes whose evaluation fails are **kept** in the ranking with their zeroed
  scores (fuzzy_logic.py:142-149, 164-170). `evaluate_hero` catches every
  exception itself, so the ranker's own handler never fires.
- Crisp inputs outside the 0–10 universe are clipped to it by the control
  system simulation (fuzzy_logic.py:83) before fuzzification. The abstract
  `membership` field absorbs that clipping. The preference match sees the raw
  attribute value, so the model proves its bounds under the hypothesis that
  attributes and preferences lie in [0, 10].

## Model

| member | source | states |
|---|---|---|
| `Catalog.AllHeroes` | hero_data.py:530-532 | `get_all_heroes` returns the table of thirty records, whose ids are pairwise distinct and whose five core attributes all lie in [0, 10] |
| `Catalog.TableIdsDistinct` | hero_data.py:6-528 | the shipped table has 30 records with pairwise distinct ids |
| `Catalog.TableInUniverse` | hero_data.py:6-528 | every shipped record's core attributes lie in the declared input universe [0, 10] |
| `Catalog.HeroById` | hero_data.py:534-539 | lookup yields None exactly when no record has the id; otherwise it yields the record at the first position carrying the id |
| `Catalog.LookupDistinct` | hero_data.py:534-539 | in a catalog with distinct ids, looking up any record's id returns that very record |
| `Catalog.TableLookup` | hero_data.py:534-539 | in the shipped table every id resolves to the one record carrying it |
| `Catalog.HeroesByRole` | hero_data.py:541-543 | filtering by role keeps every record of that role as often as it occurs and drops every other record, in catalog order (a subsequence) |
| `Catalog.InsertRole` | hero_data.py:547 | inserting a role into a strictly increasing list keeps it strictly increasing and adds exactly that role to its elements |
| `Catalog.AllRoles` | hero_data.py:545-547 | the result is strictly increasing in string order and its elements are exactly the roles occurring in the catalog, so it is the sorted list of distinct roles |
| `Catalog.TableRoleSet` | hero_data.py:6-528 | the roles of the shipped table are exactly Assassin, Fighter, Mage, Marksman, Support and Tank |
| `Catalog.TableRoles` | hero_data.py:545-547 | on the shipped table `get_all_roles` returns those six roles in alphabetical order |
| `StringOrder.Irreflexive` | hero_data.py:547 | no string sorts before itself |
| `StringOrder.Asymmetric` | hero_data.py:547 | two strings never each sort before the other |
| `StringOrder.Transitive` | hero_data.py:547 | the string order is transitive |
| `StringOrder.Total` | hero_data.py:547 | any two distinct strings are ordered one way or the other |
| `StringOrder.IncreasingUnique` | hero_data.py:547 | two strictly increasing lists with the same elements are equal, so a sorted list of distinct roles is determined by the role set |
| `FuzzyRules.RuleBankShape` | fuzzy_logic.py:36-81 | the bank has 27 well-formed rules: each has at least one condition, each condition names one of its variable's three declared terms, and each consequent is an output term; the consequents are, in order, the declared ones |
| `FuzzyRules.RuleBankConsequents` | fuzzy_logic.py:36-74 | the consequents of rules 1 to 27 are, in order, the ones declared group by group |
| `FuzzyRules.OrRules` | fuzzy_logic.py:39 | rules 4 and 12 are disjunctions: durability low or crowd control low, and damage low or mobility low |
| `FuzzyRules.DuplicateRule` | fuzzy_logic.py:62 | rule 19 is the same rule as rule 9: damage high and mobility high gives high |
| `FuzzyRules.Combine` | fuzzy_logic.py:36-74 | an AND of clauses fires at one of the clause degrees that is at most every clause degree (their minimum), and an OR at one that is at least every clause degree (their maximum) |
| `FuzzyRules.FiringStrength` | fuzzy_logic.py:36-74 | a rule fires at the minimum (AND) or maximum (OR) of its clause degrees, which lies in [0, 1] when the degrees do |
| `FuzzyRules.Activation` | fuzzy_logic.py:77-81 | an output term's activation is at least the strength of every rule concluding it, equals one of those strengths or 0 when none fires, and lies in [0, 1] when the degrees do |
| `FuzzyRules.Activate` | fuzzy_logic.py:77-81 | firing the bank on degrees in [0, 1] gives activations in [0, 1] for all three output terms |
| `FuzzyRules.Trimf` | fuzzy_logic.py:31-33 | a triangular membership lies in [0, 1], equals 1 exactly at its peak, and is positive exactly at the peak or strictly between its feet |
| `FuzzyRules.OutputMembershipShape` | fuzzy_logic.py:31-33 | low peaks only at 0 and is positive on [0, 50), medium peaks only at 50 and is positive on (25, 75), and high peaks only at 100 and is positive on (50, 100] |
| `FuzzyRules.Aggregated` | fuzzy_logic.py:31-33 | the clipped and joined output never exceeds the largest activation; for activations in [0, 1] it lies in [0, 1] and vanishes outside the output universe [0, 100] |
| `FuzzyRules.OutputCurve` | fuzzy_logic.py:31-33 | the curve handed to the centroid is, point for point, the clipped and joined output of the three terms, and lies in [0, 1] for activations in [0, 1] |
| `FuzzyRules.Infer` | fuzzy_logic.py:96-109 | with a valid system, the activations are in [0, 1], the aggregated curve the centroid reduces lies in [0, 1], and a crisp suitability lies in [0, 100] |
| `Evaluation.AttributeMatch` | fuzzy_logic.py:116 | the match is at most 100; it is exactly 100 iff preference equals attribute, 0 iff they are 10 apart, and negative iff they are more than 10 apart (no clamping); it is non-negative on [0, 10] |
| `Evaluation.AttributeMatchSymmetric` | fuzzy_logic.py:116 | the match does not change when preference and attribute are swapped |
| `Evaluation.MatchScores` | fuzzy_logic.py:114-117 | either one match per attribute, in attribute order, or the KeyError of the first attribute without a preference |
| `Evaluation.PreferenceMatch` | fuzzy_logic.py:112-119 | an empty map gives 0; a non-empty map fails iff some core key is missing, naming the first missing key in attribute order; otherwise the result is the mean of the five attribute matches |
| `Evaluation.PreferenceMatchBounds` | fuzzy_logic.py:112-119 | with preferences and attributes in [0, 10] the preference match lies in [0, 100] |
| `Evaluation.PreferenceMatchExact` | fuzzy_logic.py:112-119 | preferences equal to the hero's attributes match at exactly 100 |
| `Evaluation.PreferenceMatchOpposite` | fuzzy_logic.py:112-119 | preferences 10 away from every attribute match at exactly 0 |
| `Evaluation.FinalScore` | fuzzy_logic.py:122 | the blend lies between the smaller and the larger of suitability and preference match, and equals both when they agree |
| `Evaluation.RoundHalfEven` | fuzzy_logic.py:126-128 | rounding to an integer moves a value by at most one half, leaves integers alone, and sends an exact half to the even neighbour |
| `Evaluation.Round2` | fuzzy_logic.py:126-128 | rounding to two decimals gives a value with at most two decimals within 0.005 of the input |
| `Evaluation.Round2Fixed` | fuzzy_logic.py:126-128 | a value with two decimals is left unchanged, so rounding is idempotent |
| `Evaluation.Round2Monotone` | fuzzy_logic.py:126-128 | rounding preserves the order of scores (it can only merge them into ties) |
| `Evaluation.EvaluateScored` | fuzzy_logic.py:122-128 | when inference yields s and the preference match yields m, the payload is a success whose suitability is s rounded, whose preference match is m rounded, and whose final score is the blend of s and m rounded |
| `Evaluation.RoundedUnit` | fuzzy_logic.py:126-128 | rounding keeps a score in [0, 100] |
| `Evaluation.Evaluate` | fuzzy_logic.py:85-149 | `evaluate_hero` fails iff inference fails or a preference is missing. Inference failure is reported first, and a missing key is one absent from the map. A failure carries three zero scores. A success echoes the hero's attributes, strengths and weaknesses, and its three scores have two decimals; the suitability and the preference match lie within 0.005 of the inferred suitability and the preference match. The final score lies between the rounded smaller and larger of those two. With a valid system the suitability is in [0, 100] |
| `Evaluation.EvaluateBounds` | fuzzy_logic.py:122-128 | with a valid system and preferences and attributes in [0, 10], all three scores of the payload lie in [0, 100], failures included |
| `Ranking.StableSortDescending` | fuzzy_logic.py:175 | the result is a permutation of the input, non-increasing in final score, and for every score value the entries with that score appear in input order |
| `Ranking.StableSortUnique` | fuzzy_logic.py:175 | any two lists that meet the stable descending contract for the same input are equal, so the ranking is fully determined and ties are never broken arbitrarily |
| `Ranking.Entries` | fuzzy_logic.py:164-170 | one entry per hero, in input order, pairing the hero with its evaluation |
| `Ranking.Recommendations` | fuzzy_logic.py:151-175 | `get_hero_recommendations` returns one entry per input hero, failed ones included. Every entry pairs an input hero with its evaluation, and the list is the stable descending sort of the entries |
| `Scenarios.TigrealMidpointMatch` | hero_data.py:8-24 | the first tank against any preferences that put all five core keys at 5 matches at 80, 70, 60, 90 and 70, so its preference match is exactly 74 |
| `Scenarios.ScoredWithMatch` | fuzzy_logic.py:119-128 | a hero whose preference match already has two decimals reports it unchanged, and whenever inference succeeds its final score is the rounded blend |
| `Scenarios.TigrealAtMidpoint` | fuzzy_logic.py:119-128 | whenever inference succeeds for the first tank against midpoint preferences, its payload reports a preference match of 74 and a final score of 0.6·s + 29.6 rounded to two decimals, whatever the suitability s |
| `Scenarios.RoleRecommendations` | hero_data.py:541-543 | recommending within one role returns exactly as many entries as that role has heroes. Each entry is a catalog hero of that role, and the list is stably sorted by final score |

## Left out

- The automatic membership functions and the centroid are parameters of `FuzzySystem`. The model assumes degrees in [0, 1] and a crisp output in [0, 100] (`ValidSystem`). It does not reproduce the library's numerical routines, nor its discretisation of the universes into integer points.
- FuzzyRules.Infer: states only the output range, the activation bounds and the range of the aggregated curve. Concrete suitability values depend on the abstract library steps.
- The monotonicity of the tank rules in durability and crowd control is not proved. It depends on the shapes of the abstract input memberships and of the centroid.
- Floating point is modelled by exact reals. Rounding to two decimals is exact decimal half-to-even. The running program rounds binary floating-point values, so near a half-cent its result may differ from exact decimal rounding.
- Logging of errors is left out because it is a side channel with no effect on results.
- Failure when a hero record lacks one of its fields is not modelled. Records are typed, so every field is present.
- The message text of the error payload is not modelled. The model keeps which error occurred (inference failure, or the missing key) instead.
- Exceptions other than a missing preference key and a failed inference are not modelled. Examples are a non-numeric preference value or an exception thrown while building the control system.
- A preference map that is `None` is treated as the empty map, because both are falsy and take the same path.
- The ranker's own exception handler (fuzzy_logic.py:171-173) is unreachable, because `evaluate_hero` catches everything. The model therefore has no path that drops a hero.
- The HTTP layer, pages, persistence, database import and browser scripts are not part of this model.
- Rule 19 duplicates rule 9. The model keeps both, as declared.
