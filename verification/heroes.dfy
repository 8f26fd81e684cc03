/**
 * The hero record of the catalog and the five core attributes that the
 * evaluator reads from it.
 */
module Heroes {

  /** The five core attributes, in the order the evaluator visits them. */
  datatype Attribute = Damage | Durability | CrowdControl | Mobility | Difficulty

  /** Every core attribute, in the evaluator's visiting order. */
  const CoreAttributes: seq<Attribute> := [Damage, Durability, CrowdControl, Mobility, Difficulty]

  /** Where an attribute comes in the visiting order. */
  function Position(a: Attribute): (k: nat)
    ensures k < |CoreAttributes| && CoreAttributes[k] == a
  {
    match a
    case Damage => 0
    case Durability => 1
    case CrowdControl => 2
    case Mobility => 3
    case Difficulty => 4
  }

  /** The dictionary key under which an attribute is stored. */
  function Key(a: Attribute): string
  {
    match a
    case Damage => "damage"
    case Durability => "durability"
    case CrowdControl => "crowd_control"
    case Mobility => "mobility"
    case Difficulty => "difficulty"
  }

  /** A hero record. Scores are exact reals; the table stores small integers. */
  datatype Hero = Hero(
    id: string,
    name: string,
    role: string,
    damage: real,
    durability: real,
    crowdControl: real,
    mobility: real,
    difficulty: real,
    winRate: real,
    profitFactor: real,
    maxDrawdown: int,
    maxConsecutiveLoss: int,
    strengths: seq<string>,
    weaknesses: seq<string>,
    description: string)

  /** The five core attribute values of a hero, as echoed in an evaluation. */
  datatype Profile = Profile(damage: real, durability: real, crowdControl: real, mobility: real, difficulty: real)

  function ProfileOf(h: Hero): Profile
  {
    Profile(h.damage, h.durability, h.crowdControl, h.mobility, h.difficulty)
  }

  /** The value of one core attribute. */
  function Get(p: Profile, a: Attribute): real
  {
    match a
    case Damage => p.damage
    case Durability => p.durability
    case CrowdControl => p.crowdControl
    case Mobility => p.mobility
    case Difficulty => p.difficulty
  }

  /** The declared input universe of every core attribute is [0, 10]. */
  predicate InUniverse(p: Profile)
  {
    forall a :: 0.0 <= Get(p, a) <= 10.0
  }
}
